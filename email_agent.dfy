/**
 * The email agent's own logic around the language model: the analysis
 * summary attached to each email, the text fallback used when a reply
 * holds no JSON object, and the one-result-per-paper shape of a batch.
 */
module EmailAgent {
  import opened Wrappers
  import opened Strings
  import opened Seqs
  import opened Records
  import AnalysisAgent

  // ---------------------------------------------------------------- _create_analysis_summary

  datatype AnalysisSummary = AnalysisSummary(
    themesIdentified: seq<string>,
    highestRelevanceScore: int,
    businessScore: int)

  /** `.get('relevance_score', 0)` on a theme entry that is a dictionary. */
  function ScoreOf(v: ThemeValue): int
  {
    match v
    case NotADict => 0
    case ThemeDict(score, _) => score.GetOr(0)
  }

  /** Every theme entry reads as a dictionary; otherwise `.get` raises `AttributeError`. */
  predicate ThemesReadable(a: PaperAnalysis)
  {
    forall k :: 0 <= k < |ThemeNames| ==> !ThemeOf(a, ThemeNames[k]).NotADict?
  }

  /** The score of each theme, in the fixed theme order. */
  function ThemeScores(a: PaperAnalysis): (r: seq<int>)
    ensures |r| == |ThemeNames|
    ensures forall k :: 0 <= k < |ThemeNames| ==> r[k] == ScoreOf(ThemeOf(a, ThemeNames[k]))
  {
    seq(|ThemeNames|, k requires 0 <= k < |ThemeNames| => ScoreOf(ThemeOf(a, ThemeNames[k])))
  }

  /** Python's `max` of a non-empty list. */
  function Max(s: seq<int>): (m: int)
    requires s != []
    ensures forall k :: 0 <= k < |s| ==> s[k] <= m
    ensures exists k :: 0 <= k < |s| && s[k] == m
  {
    if |s| == 1 then s[0]
    else
      var m := Max(s[1..]);
      assert forall k :: 1 <= k < |s| ==> s[k] == s[1..][k - 1];
      if s[0] >= m then s[0] else m
  }

  /** The theme names whose score exceeds 5, kept in the fixed theme order. */
  function HighThemes(a: PaperAnalysis): seq<string>
  {
    Filter(ThemeNames, (t: string) => ScoreOf(ThemeOf(a, t)) > 5)
  }

  /** `_create_analysis_summary`. */
  function AnalysisSummaryOf(a: PaperAnalysis): Result<AnalysisSummary, string>
  {
    if !ThemesReadable(a) then Err("AttributeError")
    else
      var business := if a.paperMetadata.Some? then a.paperMetadata.value.businessScore.GetOr(0) else 0;
      Ok(AnalysisSummary(HighThemes(a), Max(ThemeScores(a)), business))
  }

  /**
   * The summary fails exactly when a theme entry is not a dictionary.
   * Otherwise a theme is listed iff its score exceeds 5, at most the three
   * themes are listed, the highest score is the largest of the three
   * scores (0 for a missing theme or score), and the business score is
   * the paper's, or 0.
   */
  lemma AnalysisSummarySpec(a: PaperAnalysis)
    ensures AnalysisSummaryOf(a).Err? <==> exists k :: 0 <= k < |ThemeNames| && ThemeOf(a, ThemeNames[k]).NotADict?
    ensures AnalysisSummaryOf(a).Ok? ==>
              var s := AnalysisSummaryOf(a).value;
              && |s.themesIdentified| <= |ThemeNames|
              && (forall t :: t in s.themesIdentified <==> t in ThemeNames && ScoreOf(ThemeOf(a, t)) > 5)
              && (forall k :: 0 <= k < |ThemeNames| ==> ScoreOf(ThemeOf(a, ThemeNames[k])) <= s.highestRelevanceScore)
              && (exists k :: 0 <= k < |ThemeNames| && ScoreOf(ThemeOf(a, ThemeNames[k])) == s.highestRelevanceScore)
              && s.businessScore == (if a.paperMetadata.Some? then a.paperMetadata.value.businessScore.GetOr(0) else 0)
  {
    if ThemesReadable(a) {
      forall t ensures t in HighThemes(a) <==> t in ThemeNames && ScoreOf(ThemeOf(a, t)) > 5 {
        FilterMembers(ThemeNames, (t: string) => ScoreOf(ThemeOf(a, t)) > 5, t);
      }
    }
  }

  /** The highest score is not negative when no theme carries a negative score. */
  lemma HighestScoreNotNegative(a: PaperAnalysis)
    requires AnalysisSummaryOf(a).Ok?
    requires forall k :: 0 <= k < |ThemeNames| ==> ScoreOf(ThemeOf(a, ThemeNames[k])) >= 0
    ensures AnalysisSummaryOf(a).value.highestRelevanceScore >= 0
  {
    assert ThemeScores(a)[0] >= 0;
  }

  // ---------------------------------------------------------------- _parse_email_response

  /** A generated email as the agent returns it. */
  datatype Email = Email(subject: string, body: string, rationale: string)

  const DefaultSubject: string := "Collaboration Opportunity - AI Data Security"

  /** The line the fallback uses when no line mentions a subject. */
  const DefaultSubjectLine: string := "Subject: " + DefaultSubject

  /** Case-insensitive `'subject' in line`. */
  predicate MentionsSubject(line: string)
  {
    Contains(Lower(line), "subject")
  }

  /** `next(line for line in lines if 'subject' in line.lower())`. */
  function FirstSubjectLine(lines: seq<string>): (r: Option<string>)
    ensures r.Some? ==> r.value in lines && MentionsSubject(r.value)
    ensures r.None? <==> forall k :: 0 <= k < |lines| ==> !MentionsSubject(lines[k])
  {
    if lines == [] then None
    else if MentionsSubject(lines[0]) then Some(lines[0])
    else
      var r := FirstSubjectLine(lines[1..]);
      assert forall k :: 1 <= k < |lines| ==> lines[k] == lines[1..][k - 1];
      r
  }

  /** The line found is the first line that mentions a subject. */
  lemma {:induction false} FirstSubjectLineIsFirst(lines: seq<string>, i: nat)
    requires i < |lines| && MentionsSubject(lines[i])
    requires forall k :: 0 <= k < i ==> !MentionsSubject(lines[k])
    ensures FirstSubjectLine(lines) == Some(lines[i])
  {
    if i > 0 {
      assert lines[1..][i - 1] == lines[i];
      assert forall k :: 0 <= k < i - 1 ==> lines[1..][k] == lines[k + 1];
      FirstSubjectLineIsFirst(lines[1..], i - 1);
    }
  }

  /** `line.split(':', 1)[-1]`: the text after the first colon, or the whole line. */
  function AfterColon(line: string): (r: string)
    ensures ':' in line ==> exists i :: 0 <= i < |line| && line[i] == ':' && ':' !in line[..i] && r == line[i + 1..]
    ensures ':' !in line ==> r == line
  {
    if ':' in line then line[IndexOfChar(line, ':') + 1..] else line
  }

  /** `.strip().strip('"')`. */
  function SubjectText(line: string): string
  {
    StripChars(Strip(AfterColon(line)), {'"'})
  }

  /** The subject the text fallback derives from a reply. */
  function FallbackSubject(response: string): string
  {
    SubjectText(FirstSubjectLine(Split(response, '\n')).GetOr(DefaultSubjectLine))
  }

  /** The fallback of `_parse_email_response` when the reply holds no usable JSON object. */
  function TextFallback(response: string): (e: Email)
  {
    Email(FallbackSubject(response), Take(response, 800), "Extracted from LLM response")
  }

  /** The text after the first colon of a line whose head has none. */
  lemma AfterColonOf(head: string, tail: string)
    requires ':' !in head
    ensures AfterColon(head + [':'] + tail) == tail
  {
    var line := head + [':'] + tail;
    assert line[|head|] == ':' && line[..|head|] == head;
    IndexOfCharAt(line, ':', |head|);
    assert line[|head| + 1..] == tail;
  }

  /** The default subject line yields the default subject. */
  lemma DefaultSubjectText()
    ensures SubjectText(DefaultSubjectLine) == DefaultSubject
  {
    DefaultLineAfterColon();
    DefaultSubjectEnds();
    CleanSpacedText(DefaultSubject);
  }

  lemma DefaultLineAfterColon()
    ensures AfterColon(DefaultSubjectLine) == " " + DefaultSubject
  {
    assert DefaultSubjectLine == "Subject" + [':'] + (" " + DefaultSubject);
    AfterColonOf("Subject", " " + DefaultSubject);
  }

  lemma DefaultSubjectEnds()
    ensures var d := DefaultSubject;
            d != [] && d[0] != '"' && d[|d| - 1] != '"' && !IsSpace(d[0]) && !IsSpace(d[|d| - 1])
  {
    assert DefaultSubject[0] == 'C' && DefaultSubject[|DefaultSubject| - 1] == 'y';
  }

  /** Stripping a text led by one space, that has no space or quote at either end, leaves the text. */
  lemma CleanSpacedText(s: string)
    requires s != [] && s[0] != '"' && s[|s| - 1] != '"' && !IsSpace(s[0]) && !IsSpace(s[|s| - 1])
    ensures StripChars(Strip(" " + s), {'"'}) == s
  {
    assert (" " + s)[1..] == s;
    assert LStrip(" " + s) == LStrip(s) == s;
  }

  /** Without a line that mentions "subject" in any case, the subject is the default. */
  lemma TextFallbackDefault(response: string)
    requires forall k :: 0 <= k < |Split(response, '\n')| ==> !MentionsSubject(Split(response, '\n')[k])
    ensures TextFallback(response).subject == DefaultSubject
  {
    DefaultSubjectText();
  }

  /**
   * Otherwise the subject comes from the first line that mentions
   * "subject": the text after its first colon, with surrounding whitespace
   * and quotes removed.
   */
  lemma TextFallbackSubject(response: string, i: nat)
    requires i < |Split(response, '\n')| && MentionsSubject(Split(response, '\n')[i])
    requires forall k :: 0 <= k < i ==> !MentionsSubject(Split(response, '\n')[k])
    ensures TextFallback(response).subject == SubjectText(Split(response, '\n')[i])
  {
    FirstSubjectLineIsFirst(Split(response, '\n'), i);
  }

  /** The body is the reply cut to its first 800 characters. */
  lemma TextFallbackBody(response: string)
    ensures |TextFallback(response).body| <= 800 && StartsWith(response, TextFallback(response).body)
    ensures |response| >= 800 ==> |TextFallback(response).body| == 800
  {
  }

  /** The subject of the text fallback never begins or ends with a quote. */
  lemma FallbackSubjectUnquoted(response: string)
    ensures var s := TextFallback(response).subject;
            s == [] || (s[0] != '"' && s[|s| - 1] != '"')
  {
  }

  /**
   * `_parse_email_response`: `decode` stands for `json.loads`, `None` when
   * it raises. A decoded object is returned as it is; otherwise the text
   * fallback.
   */
  function ParseEmailResponse(response: string, decode: string -> Option<Email>): (e: Email)
  {
    match AnalysisAgent.BracedText(response)
    case Some(text) => if decode(text).Some? then decode(text).value else TextFallback(response)
    case None => TextFallback(response)
  }

  /** Without a braced span, or when it does not decode, the reply is read by the text fallback. */
  lemma ParseEmailResponseSpec(response: string, decode: string -> Option<Email>)
    ensures '{' !in response || '}' !in response ==> ParseEmailResponse(response, decode) == TextFallback(response)
    ensures AnalysisAgent.BracedText(response).Some? && decode(AnalysisAgent.BracedText(response).value).Some? ==>
              ParseEmailResponse(response, decode) == decode(AnalysisAgent.BracedText(response).value).value
    ensures AnalysisAgent.BracedText(response).Some? && decode(AnalysisAgent.BracedText(response).value).None? ==>
              ParseEmailResponse(response, decode) == TextFallback(response)
  {
  }

  // ---------------------------------------------------------------- batch_generate_emails

  /** One entry of the batch result. */
  datatype EmailResult = EmailResult(
    paperTitle: string,
    paperUrl: string,
    paperSource: string,
    email: Email,
    analysisSummary: AnalysisSummary,
    authorInfo: Option<AuthorInfo>)

  /** The entry for one analysis; `email` is what `generate_personalized_email` returned for it. */
  function ResultFor(a: PaperAnalysis, email: Email): Result<EmailResult, string>
  {
    match AnalysisSummaryOf(a)
    case Err(e) => Err(e)
    case Ok(summary) =>
      var row := ProspectOf(a);
      Ok(EmailResult(row.paperTitle, row.paperUrl, row.paperSource, email, summary, row.authorInfo))
  }

  /**
   * A loop that appends `f(x)` for each `x` and stops at the first
   * exception: the results in order, or the first error raised.
   */
  function Collect<A, R>(xs: seq<A>, f: A -> Result<R, string>): Result<seq<R>, string>
  {
    if xs == [] then Ok([])
    else
      match Collect(xs[..|xs| - 1], f)
      case Err(e) => Err(e)
      case Ok(rs) =>
        match f(xs[|xs| - 1])
        case Err(e) => Err(e)
        case Ok(r) => Ok(rs + [r])
  }

  /** Once a prefix fails, the whole collection fails with the same error. */
  lemma {:induction false} CollectErrorSticks<A, R>(xs: seq<A>, f: A -> Result<R, string>, n: nat)
    requires n <= |xs| && Collect(xs[..n], f).Err?
    ensures Collect(xs, f) == Collect(xs[..n], f)
    decreases |xs| - n
  {
    if n == |xs| {
      assert xs[..n] == xs;
    } else {
      assert xs[..n + 1][..n] == xs[..n];
      CollectErrorSticks(xs, f, n + 1);
    }
  }

  /** The collection fails exactly when some element fails. */
  lemma {:induction false} CollectFailure<A, R>(xs: seq<A>, f: A -> Result<R, string>)
    ensures Collect(xs, f).Err? <==> exists i :: 0 <= i < |xs| && f(xs[i]).Err?
  {
    if xs != [] {
      var init := xs[..|xs| - 1];
      CollectFailure(init, f);
      if exists i :: 0 <= i < |xs| && f(xs[i]).Err? {
        var i :| 0 <= i < |xs| && f(xs[i]).Err?;
        if i < |init| {
          assert init[i] == xs[i];
        }
      } else {
        assert forall i :: 0 <= i < |init| ==> init[i] == xs[i];
      }
    }
  }

  /** A collection that succeeds has one result per element, in order. */
  lemma {:induction false} CollectRows<A, R>(xs: seq<A>, f: A -> Result<R, string>)
    requires Collect(xs, f).Ok?
    ensures |Collect(xs, f).value| == |xs|
    ensures forall i :: 0 <= i < |xs| ==> f(xs[i]) == Ok(Collect(xs, f).value[i])
  {
    if xs != [] {
      var init := xs[..|xs| - 1];
      var rows := Collect(xs, f).value;
      CollectRows(init, f);
      assert rows == Collect(init, f).value + [f(xs[|xs| - 1]).value];
      forall i | 0 <= i < |xs|
        ensures f(xs[i]) == Ok(rows[i])
      {
        if i < |init| {
          assert init[i] == xs[i];
        }
      }
    }
  }

  /** The entry of each analysis with its generated email. */
  function ResultWith(generate: PaperAnalysis -> Email): PaperAnalysis -> Result<EmailResult, string>
  {
    a => ResultFor(a, generate(a))
  }

  /** `batch_generate_emails` over the analyses; `generate` stands for the language-model call. */
  function BatchEmails(analyses: seq<PaperAnalysis>, generate: PaperAnalysis -> Email): Result<seq<EmailResult>, string>
  {
    Collect(analyses, ResultWith(generate))
  }

  /** `batch_generate_emails`; `generate_personalized_email` handles its own errors, so only the summary can raise. */
  method BatchGenerateEmails(analyses: seq<PaperAnalysis>, generate: PaperAnalysis -> Email)
    returns (emails: Result<seq<EmailResult>, string>)
    ensures emails == BatchEmails(analyses, generate)
  {
    var rows: seq<EmailResult> := [];
    for i := 0 to |analyses|
      invariant Collect(analyses[..i], ResultWith(generate)) == Ok(rows)
    {
      assert analyses[..i + 1][..i] == analyses[..i];
      var email := generate(analyses[i]);
      var r := ResultFor(analyses[i], email);
      if r.Err? {
        assert Collect(analyses[..i + 1], ResultWith(generate)) == Err(r.error);
        CollectErrorSticks(analyses, ResultWith(generate), i + 1);
        return Err(r.error);
      }
      rows := rows + [r.value];
    }
    assert analyses[..|analyses|] == analyses;
    return Ok(rows);
  }

  /** The batch fails exactly when the summary of some analysis fails. */
  lemma BatchEmailsFailure(analyses: seq<PaperAnalysis>, generate: PaperAnalysis -> Email)
    ensures BatchEmails(analyses, generate).Err? <==>
              exists i :: 0 <= i < |analyses| && AnalysisSummaryOf(analyses[i]).Err?
  {
    CollectFailure(analyses, ResultWith(generate));
    assert forall i :: 0 <= i < |analyses| ==>
             (ResultWith(generate)(analyses[i]).Err? <==> AnalysisSummaryOf(analyses[i]).Err?);
  }

  /**
   * A batch that succeeds has one entry per analysis, in input order, each
   * the entry for that analysis and its generated email.
   */
  lemma BatchEmailsRows(analyses: seq<PaperAnalysis>, generate: PaperAnalysis -> Email)
    requires BatchEmails(analyses, generate).Ok?
    ensures |BatchEmails(analyses, generate).value| == |analyses|
    ensures forall i :: 0 <= i < |analyses| ==>
              ResultFor(analyses[i], generate(analyses[i])) == Ok(BatchEmails(analyses, generate).value[i])
  {
    CollectRows(analyses, ResultWith(generate));
  }

  /** Each entry names its paper as the prospect rows do, with the summary of its analysis. */
  lemma ResultForSpec(a: PaperAnalysis, email: Email)
    ensures ResultFor(a, email).Ok? <==> AnalysisSummaryOf(a).Ok?
    ensures ResultFor(a, email).Ok? ==>
              var r := ResultFor(a, email).value;
              && r.email == email
              && r.analysisSummary == AnalysisSummaryOf(a).value
              && (a.paperMetadata.None? ==> r.paperTitle == "" && r.paperUrl == "" && r.paperSource == "" && r.authorInfo.None?)
              && (a.paperMetadata.Some? ==>
                    (&& r.paperTitle == a.paperMetadata.value.title
                     && r.paperUrl == a.paperMetadata.value.url
                     && r.paperSource == a.paperMetadata.value.displayUrl
                     && r.authorInfo == a.paperMetadata.value.authorInfo))
  {
  }

  /** With every score at most 5, no theme is identified. */
  lemma NoHighThemes(a: PaperAnalysis)
    requires forall k :: 0 <= k < |ThemeNames| ==> ScoreOf(ThemeOf(a, ThemeNames[k])) <= 5
    ensures HighThemes(a) == []
  {
    var h := HighThemes(a);
    if h != [] {
      FilterMembers(ThemeNames, (t: string) => ScoreOf(ThemeOf(a, t)) > 5, h[0]);
      assert false;
    }
  }

  /** With every theme a dictionary scored `n`, nothing above 5 is listed and the highest score is `n`. */
  lemma UniformSummary(a: PaperAnalysis, n: int)
    requires n <= 5
    requires forall k :: 0 <= k < |ThemeNames| ==>
               ThemeOf(a, ThemeNames[k]).ThemeDict? && ThemeOf(a, ThemeNames[k]).relevanceScore == Some(n)
    ensures AnalysisSummaryOf(a).Ok?
    ensures AnalysisSummaryOf(a).value.themesIdentified == []
    ensures AnalysisSummaryOf(a).value.highestRelevanceScore == n
  {
    NoHighThemes(a);
    assert ThemeScores(a)[0] == n;
  }

  /** The summary of the analysis used when the model call fails lists no theme and has highest score 3. */
  lemma FallbackAnalysisSummary(paper: Paper)
    ensures AnalysisSummaryOf(AnalysisAgent.FallbackAnalysis(paper)).Ok?
    ensures var s := AnalysisSummaryOf(AnalysisAgent.FallbackAnalysis(paper)).value;
            s.themesIdentified == [] && s.highestRelevanceScore == 3 && s.businessScore == paper.businessScore.GetOr(0)
  {
    AnalysisAgent.FallbackAnalysisSpec(paper);
    UniformSummary(AnalysisAgent.FallbackAnalysis(paper), 3);
  }

  /** The summary of a text-fallback analysis lists no theme and has highest score 5. */
  lemma TextAnalysisSummary(response: string, paper: Paper)
    ensures AnalysisSummaryOf(AnalysisAgent.TextAnalysis(response, paper)).Ok?
    ensures var s := AnalysisSummaryOf(AnalysisAgent.TextAnalysis(response, paper)).value;
            s.themesIdentified == [] && s.highestRelevanceScore == 5
  {
    AnalysisAgent.TextAnalysisSpec(response, paper);
    UniformSummary(AnalysisAgent.TextAnalysis(response, paper), 5);
  }
}
