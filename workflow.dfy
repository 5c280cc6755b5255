/**
 * The deterministic steps of the discovery workflow: dropping repeated
 * search results, the keyword compatibility bullets, reading the language
 * model's point and insight lists (with their fallbacks), the connection
 * request template, and choosing the prospects.
 *
 * A language-model answer is an `Option<string>`: `None` when the call
 * raised, `Some(text)` otherwise.
 */
module Workflow {
  import opened Wrappers
  import opened Strings
  import opened Seqs
  import opened KeywordRules
  import opened Records

  // ---------------------------------------------------------------- URL dedup

  /** The URLs of `xs`. */
  function UrlsOf<T>(xs: seq<T>, url: T -> string): set<string>
  {
    if xs == [] then {} else UrlsOf(xs[..|xs| - 1], url) + {url(xs[|xs| - 1])}
  }

  lemma {:induction false} UrlsOfMembers<T>(xs: seq<T>, url: T -> string, u: string)
    ensures u in UrlsOf(xs, url) <==> exists i :: 0 <= i < |xs| && url(xs[i]) == u
  {
    if xs != [] {
      var init := xs[..|xs| - 1];
      UrlsOfMembers(init, url, u);
      if exists i :: 0 <= i < |xs| && url(xs[i]) == u {
        var i :| 0 <= i < |xs| && url(xs[i]) == u;
        if i < |init| { assert init[i] == xs[i]; }
      }
      if exists i :: 0 <= i < |init| && url(init[i]) == u {
        var i :| 0 <= i < |init| && url(init[i]) == u;
        assert xs[i] == init[i];
      }
    }
  }

  /** Each paper whose URL no earlier paper has, in order. */
  function FirstByUrl<T>(xs: seq<T>, url: T -> string): seq<T>
  {
    if xs == [] then []
    else
      var init := xs[..|xs| - 1];
      FirstByUrl(init, url) + (if url(xs[|xs| - 1]) in UrlsOf(init, url) then [] else [xs[|xs| - 1]])
  }

  /** The positions `FirstByUrl` keeps. */
  function FirstIndices<T>(xs: seq<T>, url: T -> string): seq<nat>
  {
    if xs == [] then []
    else
      var init := xs[..|xs| - 1];
      FirstIndices(init, url) + (if url(xs[|xs| - 1]) in UrlsOf(init, url) then [] else [|xs| - 1])
  }

  /** No earlier paper has the URL of paper `i`. */
  predicate IsFirstUrl<T>(xs: seq<T>, url: T -> string, i: nat)
    requires i < |xs|
  {
    forall j :: 0 <= j < i ==> url(xs[j]) != url(xs[i])
  }

  /** The loop over the search results with its `seen_urls` set. */
  method DedupByUrl<T>(papers: seq<T>, url: T -> string) returns (unique: seq<T>)
    ensures unique == FirstByUrl(papers, url)
  {
    var seen: set<string> := {};
    unique := [];
    for i := 0 to |papers|
      invariant unique == FirstByUrl(papers[..i], url)
      invariant seen == UrlsOf(papers[..i], url)
    {
      assert papers[..i + 1][..i] == papers[..i];
      if url(papers[i]) !in seen {
        seen := seen + {url(papers[i])};
        unique := unique + [papers[i]];
      }
    }
    assert papers[..|papers|] == papers;
  }

  /**
   * The kept papers are the papers at `FirstIndices`, which increase, and a
   * paper is kept iff no earlier paper has its URL.
   */
  lemma {:induction false} FirstByUrlSpec<T>(xs: seq<T>, url: T -> string)
    ensures |FirstIndices(xs, url)| == |FirstByUrl(xs, url)|
    ensures forall k :: 0 <= k < |FirstIndices(xs, url)| ==>
              FirstIndices(xs, url)[k] < |xs| && xs[FirstIndices(xs, url)[k]] == FirstByUrl(xs, url)[k]
    ensures forall k, l :: 0 <= k < l < |FirstIndices(xs, url)| ==> FirstIndices(xs, url)[k] < FirstIndices(xs, url)[l]
    ensures forall i :: 0 <= i < |xs| ==> (i in FirstIndices(xs, url) <==> IsFirstUrl(xs, url, i))
  {
    if xs != [] {
      var init := xs[..|xs| - 1];
      var n := |xs| - 1;
      FirstByUrlSpec(init, url);
      var ix := FirstIndices(xs, url);
      var ixInit := FirstIndices(init, url);
      var r := FirstByUrl(xs, url);
      var rInit := FirstByUrl(init, url);
      forall k | 0 <= k < |ix| ensures ix[k] < |xs| && xs[ix[k]] == r[k] {
        if k < |ixInit| {
          assert ix[k] == ixInit[k] && r[k] == rInit[k];
          assert xs[ix[k]] == init[ix[k]];
        }
      }
      forall i | 0 <= i < |xs| ensures i in ix <==> IsFirstUrl(xs, url, i) {
        if i < n {
          assert forall j :: 0 <= j <= i ==> xs[j] == init[j];
          assert IsFirstUrl(xs, url, i) == IsFirstUrl(init, url, i);
          assert i in ix <==> i in ixInit;
        } else {
          UrlsOfMembers(init, url, url(xs[n]));
          assert forall j :: 0 <= j < n ==> xs[j] == init[j];
        }
      }
    }
  }

  /** The kept papers have the same URLs as the search results. */
  lemma {:induction false} FirstByUrlUrls<T>(xs: seq<T>, url: T -> string)
    ensures UrlsOf(FirstByUrl(xs, url), url) == UrlsOf(xs, url)
  {
    if xs != [] {
      var init := xs[..|xs| - 1];
      FirstByUrlUrls(init, url);
      var last := xs[|xs| - 1];
      var rInit := FirstByUrl(init, url);
      assert UrlsOf(xs, url) == UrlsOf(init, url) + {url(last)};
      if url(last) !in UrlsOf(init, url) {
        var r := rInit + [last];
        assert FirstByUrl(xs, url) == r;
        assert r[..|r| - 1] == rInit;
        assert UrlsOf(r, url) == UrlsOf(rInit, url) + {url(last)};
      } else {
        assert FirstByUrl(xs, url) == rInit;
      }
    }
  }

  /** No two kept papers share a URL. */
  lemma {:induction false} FirstByUrlDistinct<T>(xs: seq<T>, url: T -> string)
    ensures forall i, j :: 0 <= i < j < |FirstByUrl(xs, url)| ==>
              url(FirstByUrl(xs, url)[i]) != url(FirstByUrl(xs, url)[j])
  {
    if xs != [] {
      var init := xs[..|xs| - 1];
      var last := xs[|xs| - 1];
      FirstByUrlDistinct(init, url);
      FirstByUrlUrls(init, url);
      var rInit := FirstByUrl(init, url);
      var r := FirstByUrl(xs, url);
      if url(last) !in UrlsOf(init, url) {
        forall i | 0 <= i < |rInit| ensures url(rInit[i]) != url(last) {
          UrlsOfMembers(rInit, url, url(rInit[i]));
        }
        forall i, j | 0 <= i < j < |r| ensures url(r[i]) != url(r[j]) {
          assert r[i] == rInit[i];
          if j < |rInit| { assert r[j] == rInit[j]; }
        }
      }
    }
  }

  // ---------------------------------------------------------------- maximum theme score

  /** The scores `_calculate_max_relevance_score` collects: one per theme whose value is a dictionary. */
  function ThemeScores(a: PaperAnalysis, themes: seq<string>): seq<int>
  {
    if themes == [] then []
    else
      ThemeScores(a, themes[..|themes| - 1])
      + match ThemeOf(a, themes[|themes| - 1])
        case NotADict => []
        case ThemeDict(score, _) => [score.GetOr(0)]
  }

  function MaxOf(xs: seq<int>): (r: int)
    requires xs != []
    ensures r in xs && forall k :: 0 <= k < |xs| ==> xs[k] <= r
  {
    if |xs| == 1 then xs[0]
    else
      var m := MaxOf(xs[..|xs| - 1]);
      assert forall k :: 0 <= k < |xs| - 1 ==> xs[k] == xs[..|xs| - 1][k];
      if xs[|xs| - 1] > m then xs[|xs| - 1] else m
  }

  /** The largest collected score, or 0 when every theme holds a non-dictionary. */
  function MaxRelevanceScore(a: PaperAnalysis): (r: int)
    ensures ThemeScores(a, ThemeNames) == [] ==> r == 0
    ensures ThemeScores(a, ThemeNames) != [] ==>
              r in ThemeScores(a, ThemeNames) && forall s :: s in ThemeScores(a, ThemeNames) ==> s <= r
  {
    var scores := ThemeScores(a, ThemeNames);
    if scores == [] then 0 else MaxOf(scores)
  }

  /** A score is collected iff some theme holds a dictionary with that score (0 when it has none). */
  lemma {:induction false} ThemeScoresMembers(a: PaperAnalysis, themes: seq<string>, s: int)
    ensures s in ThemeScores(a, themes) <==>
              exists k :: 0 <= k < |themes| && ThemeOf(a, themes[k]).ThemeDict? && ThemeOf(a, themes[k]).relevanceScore.GetOr(0) == s
  {
    if themes != [] {
      var init := themes[..|themes| - 1];
      ThemeScoresMembers(a, init, s);
      if exists k :: 0 <= k < |themes| && ThemeOf(a, themes[k]).ThemeDict? && ThemeOf(a, themes[k]).relevanceScore.GetOr(0) == s {
        var k :| 0 <= k < |themes| && ThemeOf(a, themes[k]).ThemeDict? && ThemeOf(a, themes[k]).relevanceScore.GetOr(0) == s;
        if k < |init| { assert init[k] == themes[k]; }
      }
      if exists k :: 0 <= k < |init| && ThemeOf(a, init[k]).ThemeDict? && ThemeOf(a, init[k]).relevanceScore.GetOr(0) == s {
        var k :| 0 <= k < |init| && ThemeOf(a, init[k]).ThemeDict? && ThemeOf(a, init[k]).relevanceScore.GetOr(0) == s;
        assert themes[k] == init[k];
      }
    }
  }

  /** A missing theme reads as an empty dictionary, so it contributes 0 and the maximum is at least 0. */
  lemma MissingThemeCountsAsZero(a: PaperAnalysis, k: nat)
    requires k < |ThemeNames| && ThemeNames[k] !in a.themes
    ensures MaxRelevanceScore(a) >= 0
  {
    ThemeScoresMembers(a, ThemeNames, 0);
  }

  // ---------------------------------------------------------------- compatibility bullets

  const CompatibilityRules: seq<Rule> := [
    Rule("- Encryption Focus: Paper discusses encryption, which is AltaStata's core technology", ["encryption"]),
    Rule("- Zero Trust: Paper mentions zero trust security model, which AltaStata implements", ["zero trust"]),
    Rule("- Data Integrity: Paper focuses on data integrity, a key AltaStata solution area", ["data integrity"]),
    Rule("- AI Security: Paper is about AI security, AltaStata's target market", ["ai security", "artificial intelligence security"]),
    Rule("- Enterprise Focus: Paper targets enterprise/business audience, AltaStata's target market", ["enterprise", "business"]),
    Rule("- Compliance/Governance: Paper discusses compliance/governance, areas where AltaStata provides solutions", ["compliance", "governance"])]

  const GeneralCompatibility: string :=
    "- General AI Security: Paper discusses AI security topics that could benefit from AltaStata's encryption and data integrity solutions"

  /** `f"{title} {snippet}".lower()` of an analysis' paper metadata (empty fields when missing). */
  function CompatibilityText(a: PaperAnalysis): string
  {
    match a.paperMetadata
    case None => Lower(" ")
    case Some(p) => Lower(p.title + " " + p.snippet)
  }

  /** The bullets of `_analyze_altastata_compatibility`: matched rules in table order, else the general one. */
  function CompatibilityBullets(a: PaperAnalysis): (r: seq<string>)
    ensures |r| >= 1
  {
    var matched := Matching(CompatibilityRules, CompatibilityText(a));
    if matched == [] then [GeneralCompatibility] else matched
  }

  function AnalyzeCompatibility(a: PaperAnalysis): string
  {
    Join(CompatibilityBullets(a), "\n")
  }

  /** The general bullet appears iff no rule matched, and then it is the only bullet. */
  lemma GeneralBulletIffNothingMatched(a: PaperAnalysis)
    ensures GeneralCompatibility in CompatibilityBullets(a) <==>
              forall k :: 0 <= k < |CompatibilityRules| ==> !ContainsAny(CompatibilityText(a), CompatibilityRules[k].keywords)
    ensures GeneralCompatibility in CompatibilityBullets(a) ==> CompatibilityBullets(a) == [GeneralCompatibility]
  {
    var text := CompatibilityText(a);
    MatchingMembers(CompatibilityRules, text, GeneralCompatibility);
    forall k | 0 <= k < |CompatibilityRules| ensures CompatibilityRules[k].tag != GeneralCompatibility {
      // the general bullet is longer than every rule's
      assert |GeneralCompatibility| == 133;
      assert k == 0 || k == 1 || k == 2 || k == 3 || k == 4 || k == 5;
    }
    if Matching(CompatibilityRules, text) == [] {
      forall k | 0 <= k < |CompatibilityRules| ensures !ContainsAny(text, CompatibilityRules[k].keywords) {
        MatchingMembers(CompatibilityRules, text, CompatibilityRules[k].tag);
      }
    } else {
      var d := Matching(CompatibilityRules, text)[0];
      MatchingMembers(CompatibilityRules, text, d);
    }
  }

  /** Each bullet is the tag of a rule one of whose keywords occurs, or the general one. */
  lemma CompatibilityBulletsSound(a: PaperAnalysis, b: string)
    requires b in CompatibilityBullets(a) && b != GeneralCompatibility
    ensures exists k :: 0 <= k < |CompatibilityRules| && CompatibilityRules[k].tag == b
                        && ContainsAny(CompatibilityText(a), CompatibilityRules[k].keywords)
  {
    MatchingMembers(CompatibilityRules, CompatibilityText(a), b);
  }

  // ---------------------------------------------------------------- compatibility points

  /** One line of the model's answer: `- x` gives `x`, a non-blank line not starting with `#` is kept. */
  function PointOfLine(line: string): Option<string>
  {
    var l := Strip(line);
    if StartsWith(l, "- ") then Some(Strip(l[2..]))
    else if l != [] && !StartsWith(l, "#") then Some(l)
    else None
  }

  function ParsedPoints(lines: seq<string>): seq<string>
  {
    if lines == [] then []
    else
      ParsedPoints(lines[..|lines| - 1])
      + match PointOfLine(lines[|lines| - 1])
        case None => []
        case Some(p) => [p]
  }

  /** A stripped, non-empty text: no whitespace at either end. */
  predicate IsStrippedWord(p: string)
  {
    p != [] && !IsSpace(p[0]) && !IsSpace(p[|p| - 1])
  }

  /** Dropping the bullet of a stripped `- x` line leaves a stripped, non-empty `x`. */
  lemma BulletPointStripped(l: string)
    requires l == [] || (!IsSpace(l[0]) && !IsSpace(l[|l| - 1]))
    requires StartsWith(l, "- ")
    ensures |l| >= 3 && IsStrippedWord(Strip(l[2..]))
  {
    // `l` ends in a non-space and `l[1]` is a space, so some character after the dash survives
    assert l[1] == ' ';
    var rest := l[2..];
    assert rest[|rest| - 1] == l[|l| - 1];
    StripAllSpace(rest);
  }

  /** A point read from a line is never blank, and carries no surrounding whitespace. */
  lemma PointOfLineStripped(line: string)
    requires PointOfLine(line).Some?
    ensures IsStrippedWord(PointOfLine(line).value)
  {
    if StartsWith(Strip(line), "- ") {
      BulletLineStripped(line);
    } else {
      PlainLineStripped(line);
    }
  }

  lemma BulletLineStripped(line: string)
    requires StartsWith(Strip(line), "- ")
    ensures PointOfLine(line).Some? && IsStrippedWord(PointOfLine(line).value)
  {
    BulletPointStripped(Strip(line));
  }

  lemma PlainLineStripped(line: string)
    requires !StartsWith(Strip(line), "- ") && PointOfLine(line).Some?
    ensures PointOfLine(line) == Some(Strip(line)) && IsStrippedWord(Strip(line))
  {
  }

  lemma {:induction false} ParsedPointsStripped(lines: seq<string>)
    ensures forall k :: 0 <= k < |ParsedPoints(lines)| ==> IsStrippedWord(ParsedPoints(lines)[k])
  {
    if lines != [] {
      var init := lines[..|lines| - 1];
      ParsedPointsStripped(init);
      var last := lines[|lines| - 1];
      if PointOfLine(last).Some? {
        PointOfLineStripped(last);
      }
    }
  }

  const VendorRiskRules: seq<Rule> := [
    Rule("vendor risk mitigation", ["vendor risk"]),
    Rule("multi-source data integrity", ["multi-source"]),
    Rule("AI supply chain security", ["supply chain"]),
    Rule("AI privacy compliance", ["privacy compliance"]),
    Rule("AI model governance", ["model governance"]),
    Rule("data poisoning prevention", ["data poisoning"]),
    Rule("Zero Trust implementation", ["zero trust"])]

  /** The fallback's phrases: the table's, then "end-to-end encryption" when both words occur. */
  function KeywordPoints(analysisLower: string): seq<string>
  {
    Matching(VendorRiskRules, analysisLower)
    + if Contains(analysisLower, "encryption") && Contains(analysisLower, "transit") then ["end-to-end encryption"] else []
  }

  /** A sentence longer than 20 characters once stripped, cut to 80 characters plus "..." when longer. */
  function SentencePoint(sentence: string): Option<string>
  {
    var st := Strip(sentence);
    if st != [] && |st| > 20 then Some(if |st| > 80 then st[..80] + "..." else st) else None
  }

  function SentencePoints(sentences: seq<string>): seq<string>
  {
    if sentences == [] then []
    else
      SentencePoints(sentences[..|sentences| - 1])
      + match SentencePoint(sentences[|sentences| - 1])
        case None => []
        case Some(p) => [p]
  }

  /** The keyword fallback, or else the first three `.`-sentences. */
  function FallbackPoints(analysis: string): seq<string>
  {
    var keyed := KeywordPoints(Lower(analysis));
    if keyed != [] then keyed else SentencePoints(Take(Split(analysis, '.'), 3))
  }

  /** `_extract_compatibility_points`: the model's list when it has at least two points, else the fallback; at most 3. */
  function CompatibilityPoints(analysis: string, response: Option<string>): seq<string>
  {
    if response.Some? && |ParsedPoints(Split(Strip(response.value), '\n'))| >= 2
    then Take(ParsedPoints(Split(Strip(response.value), '\n')), 3)
    else Take(FallbackPoints(analysis), 3)
  }

  method ExtractCompatibilityPoints(analysis: string, response: Option<string>) returns (points: seq<string>)
    ensures points == CompatibilityPoints(analysis, response)
  {
    if response.Some? {
      var parsed := ReadPoints(Split(Strip(response.value), '\n'));
      if |parsed| >= 2 {
        return Take(parsed, 3);
      }
    }
    points := KeywordPoints(Lower(analysis));
    if points == [] {
      points := ReadSentencePoints(Take(Split(analysis, '.'), 3));
    }
    points := Take(points, 3);
  }

  lemma ParsedPointsStep(lines: seq<string>, i: nat)
    requires i < |lines|
    ensures ParsedPoints(lines[..i + 1]) == ParsedPoints(lines[..i])
              + match PointOfLine(lines[i]) case None => [] case Some(p) => [p]
  {
    assert lines[..i + 1][..i] == lines[..i];
  }

  /** The loop over the answer's lines. */
  method ReadPoints(lines: seq<string>) returns (parsed: seq<string>)
    ensures parsed == ParsedPoints(lines)
  {
    parsed := [];
    for i := 0 to |lines|
      invariant parsed == ParsedPoints(lines[..i])
    {
      ParsedPointsStep(lines, i);
      var line := Strip(lines[i]);
      if StartsWith(line, "- ") {
        assert PointOfLine(lines[i]) == Some(Strip(line[2..]));
        parsed := parsed + [Strip(line[2..])];
      } else if line != [] && !StartsWith(line, "#") {
        assert PointOfLine(lines[i]) == Some(line);
        parsed := parsed + [line];
      } else {
        assert PointOfLine(lines[i]).None?;
      }
    }
    assert lines[..|lines|] == lines;
  }

  /** The loop over the first three sentences. */
  method ReadSentencePoints(sentences: seq<string>) returns (points: seq<string>)
    ensures points == SentencePoints(sentences)
  {
    points := [];
    for i := 0 to |sentences|
      invariant points == SentencePoints(sentences[..i])
    {
      assert sentences[..i + 1][..i] == sentences[..i];
      var st := Strip(sentences[i]);
      if st != [] && |st| > 20 {
        points := points + [if |st| > 80 then st[..80] + "..." else st];
      }
    }
    assert sentences[..|sentences|] == sentences;
  }

  lemma {:induction false} SentencePointsShape(sentences: seq<string>)
    ensures |SentencePoints(sentences)| <= |sentences|
    ensures forall k :: 0 <= k < |SentencePoints(sentences)| ==> 20 < |SentencePoints(sentences)[k]| <= 83
  {
    if sentences != [] {
      SentencePointsShape(sentences[..|sentences| - 1]);
    }
  }

  /** The keyword fallback and the sentence fallback never offer an empty point. */
  lemma FallbackPointsNonEmpty(analysis: string)
    ensures forall k :: 0 <= k < |FallbackPoints(analysis)| ==> FallbackPoints(analysis)[k] != []
  {
    var lower := Lower(analysis);
    var fb := FallbackPoints(analysis);
    if KeywordPoints(lower) != [] {
      forall k | 0 <= k < |fb| ensures fb[k] != [] {
        var m := Matching(VendorRiskRules, lower);
        if k < |m| {
          assert fb[k] == m[k];
          MatchingMembers(VendorRiskRules, lower, m[k]);
        }
      }
    } else {
      SentencePointsShape(Take(Split(analysis, '.'), 3));
    }
  }

  /** The first three points of a list with no empty point. */
  lemma TakeNonEmpty(ps: seq<string>)
    requires forall k :: 0 <= k < |ps| ==> ps[k] != []
    ensures |Take(ps, 3)| <= 3
    ensures forall k :: 0 <= k < |Take(ps, 3)| ==> Take(ps, 3)[k] != []
  {
    assert forall k :: 0 <= k < |Take(ps, 3)| ==> Take(ps, 3)[k] == ps[k];
  }

  /**
   * At most three points, none empty; the model's list is used iff the
   * call succeeded and at least two points were read from it.
   */
  lemma CompatibilityPointsShape(analysis: string, response: Option<string>)
    ensures |CompatibilityPoints(analysis, response)| <= 3
    ensures forall k :: 0 <= k < |CompatibilityPoints(analysis, response)| ==> CompatibilityPoints(analysis, response)[k] != []
    ensures response.Some? && |ParsedPoints(Split(Strip(response.value), '\n'))| >= 2 ==>
              CompatibilityPoints(analysis, response) == Take(ParsedPoints(Split(Strip(response.value), '\n')), 3)
  {
    if response.Some? && |ParsedPoints(Split(Strip(response.value), '\n'))| >= 2 {
      ModelPointsShape(response.value);
      assert CompatibilityPoints(analysis, response) == Take(ParsedPoints(Split(Strip(response.value), '\n')), 3);
    } else {
      FallbackPointsNonEmpty(analysis);
      TakeNonEmpty(FallbackPoints(analysis));
      assert CompatibilityPoints(analysis, response) == Take(FallbackPoints(analysis), 3);
    }
  }

  lemma ModelPointsShape(reply: string)
    ensures |Take(ParsedPoints(Split(Strip(reply), '\n')), 3)| <= 3
    ensures forall k :: 0 <= k < |Take(ParsedPoints(Split(Strip(reply), '\n')), 3)| ==>
              Take(ParsedPoints(Split(Strip(reply), '\n')), 3)[k] != []
  {
    var lines := Split(Strip(reply), '\n');
    ParsedPointsStripped(lines);
    TakeNonEmpty(ParsedPoints(lines));
  }

  /** "end-to-end encryption" is offered iff neither the model's list is used and both words occur. */
  lemma EndToEndNeedsBothWords(analysis: string)
    ensures "end-to-end encryption" in KeywordPoints(Lower(analysis)) <==>
              Contains(Lower(analysis), "encryption") && Contains(Lower(analysis), "transit")
  {
    var lower := Lower(analysis);
    MatchingMembers(VendorRiskRules, lower, "end-to-end encryption");
    forall k | 0 <= k < |VendorRiskRules| ensures VendorRiskRules[k].tag != "end-to-end encryption" {
      assert k == 0 || k == 1 || k == 2 || k == 3 || k == 4 || k == 5 || k == 6;
    }
  }

  // ---------------------------------------------------------------- connection request

  /** `author_name.split()[0] if author_name else "there"`; a blank name makes `split()[0]` raise. */
  function FirstName(authorName: string): (r: Result<string, string>)
  {
    if authorName == [] then Ok("there")
    else
      var words := Words(authorName);
      if words == [] then Err("IndexError: list index out of range") else Ok(words[0])
  }

  lemma FirstNameSpec(authorName: string)
    ensures FirstName(authorName).Err? <==> authorName != [] && AllSpace(authorName)
    ensures FirstName(authorName).Ok? && authorName != [] ==>
              IsStrippedWord(FirstName(authorName).value) && NoSpace(FirstName(authorName).value)
              && StartsWith(LStrip(authorName), FirstName(authorName).value)
  {
    WordsEmpty(authorName);
    if FirstName(authorName).Ok? && authorName != [] {
      FirstWordIsPrefixOfStrip(authorName);
    }
  }

  const Signature: string := "I'm the founder of AltaStata, an MIT startup focused on AI data security. Would love to connect. Best, Serge"

  function Greeting(firstName: string): string
  {
    "Dear " + firstName + ", "
  }

  function LongConnectionRequest(firstName: string, paperTitle: string, points: seq<string>): string
  {
    Greeting(firstName) + LongBody(paperTitle, points)
  }

  function LongBody(paperTitle: string, points: seq<string>): string
  {
    if points != [] then
      "I read your article '" + paperTitle + "' - your insights on "
      + Join(Take(points, 2), ", ") + " resonated with me. " + Signature
    else
      "I read your article '" + paperTitle + "' - insightful points about AI security. " + Signature
  }

  function ShortConnectionRequest(firstName: string, paperTitle: string): string
  {
    Greeting(firstName) + ShortBody(paperTitle)
  }

  function ShortBody(paperTitle: string): string
  {
    "I read your article '" + paperTitle + "' - your insights resonated with me. " + Signature
  }

  /** `_generate_connection_request`: the long message unless it exceeds 300 characters. */
  function ConnectionRequest(authorName: string, paperTitle: string, points: seq<string>): Result<string, string>
  {
    match FirstName(authorName)
    case Err(e) => Err(e)
    case Ok(firstName) =>
      var message := LongConnectionRequest(firstName, paperTitle, points);
      Ok(if |message| > 300 then ShortConnectionRequest(firstName, paperTitle) else message)
  }

  /** Only the first two points can reach the message. */
  lemma ConnectionRequestUsesTwoPoints(authorName: string, paperTitle: string, points: seq<string>)
    ensures ConnectionRequest(authorName, paperTitle, points) == ConnectionRequest(authorName, paperTitle, Take(points, 2))
  {
    assert Take(Take(points, 2), 2) == Take(points, 2);
  }

  /** The request fails exactly for a blank name. */
  lemma ConnectionRequestFails(authorName: string, paperTitle: string, points: seq<string>)
    ensures ConnectionRequest(authorName, paperTitle, points).Err? <==> authorName != [] && AllSpace(authorName)
  {
    FirstNameSpec(authorName);
  }

  /** An empty name is greeted as "there". */
  lemma ConnectionRequestEmptyName(paperTitle: string, points: seq<string>)
    ensures ConnectionRequest("", paperTitle, points).Ok?
    ensures StartsWith(ConnectionRequest("", paperTitle, points).value, "Dear there, ")
  {
    assert FirstName("") == Ok("there");
    assert Greeting("there") == "Dear there, ";
    StartsWithGreeting("there", paperTitle, points);
  }

  lemma StartsWithGreeting(firstName: string, paperTitle: string, points: seq<string>)
    ensures StartsWith(LongConnectionRequest(firstName, paperTitle, points), Greeting(firstName))
    ensures StartsWith(ShortConnectionRequest(firstName, paperTitle), Greeting(firstName))
  {
    PrefixOfConcat(Greeting(firstName), LongBody(paperTitle, points));
    PrefixOfConcat(Greeting(firstName), ShortBody(paperTitle));
  }

  lemma PrefixOfConcat(g: string, b: string)
    ensures StartsWith(g + b, g)
  {
    assert (g + b)[..|g|] == g;
  }

  /**
   * A request greets the first name, and is the long message whenever that
   * fits in 300 characters and the short one otherwise.
   */
  lemma ConnectionRequestTemplate(authorName: string, paperTitle: string, points: seq<string>)
    requires ConnectionRequest(authorName, paperTitle, points).Ok?
    ensures var fn := FirstName(authorName).value;
            var m := ConnectionRequest(authorName, paperTitle, points).value;
            && StartsWith(m, Greeting(fn))
            && (|LongConnectionRequest(fn, paperTitle, points)| <= 300 ==> m == LongConnectionRequest(fn, paperTitle, points))
            && (|LongConnectionRequest(fn, paperTitle, points)| > 300 ==> m == ShortConnectionRequest(fn, paperTitle))
  {
    var fn := FirstName(authorName).value;
    StartsWithGreeting(fn, paperTitle, points);
  }

  // ---------------------------------------------------------------- author insights

  const RedundantPhrase: string := "what particularly caught my attention was your emphasis on:"

  const InsightSkipPhrases: seq<string> := [
    "paper title", "compatibility analysis", "return only", "no explanatory",
    "no \"the author\"", "just the insights", "what particularly caught", "your emphasis on"]

  const FallbackInsights: string :=
    "• AI security challenges you outlined\n• Data protection strategies you discussed  \n• Enterprise AI governance approaches you covered"

  /** One line with `*` removed and double spaces halved, stripped. */
  function CleanInsightLine(line: string): string
  {
    Strip(Replace(Replace(Strip(line), "*", ""), "  ", " "))
  }

  /** The bullet a cleaned line gives, if any. */
  function BulletOfLine(line: string): Option<string>
  {
    if Contains(Lower(line), RedundantPhrase) then None
    else if StartsWith(line, "•") || StartsWith(line, "-") then
      var rest := Strip(line[1..]);
      if rest != [] then Some("• " + rest) else None
    else if line != [] && |line| > 15 && !ContainsAny(Lower(line), InsightSkipPhrases)
            && !StartsWith(line, "[") && !StartsWith(line, "(") then
      Some("• " + line)
    else None
  }

  /** The bullet of one line of the answer, once cleaned. */
  function BulletOfRaw(raw: string): Option<string>
  {
    BulletOfLine(CleanInsightLine(raw))
  }

  function Bullets(lines: seq<string>): seq<string>
  {
    Somes(lines, BulletOfRaw)
  }

  /** The insight text: up to three bullets, one per line, or the fixed three when none is found. */
  function InsightsOf(response: Option<string>): string
  {
    if response.None? then FallbackInsights
    else
      var bullets := Bullets(Split(Strip(response.value), '\n'));
      if bullets == [] then FallbackInsights else Join(Take(bullets, 3), "\n")
  }

  method ExtractAuthorInsights(response: Option<string>) returns (insights: string)
    ensures insights == InsightsOf(response)
  {
    insights := FallbackInsights;
    if response.Some? {
      var bullets := CollectBullets(Split(Strip(response.value), '\n'));
      if bullets != [] {
        insights := Join(Take(bullets, 3), "\n");
      }
    }
  }

  /** The loop over the answer's lines. */
  method CollectBullets(lines: seq<string>) returns (bullets: seq<string>)
    ensures bullets == Bullets(lines)
  {
    bullets := [];
    for i := 0 to |lines|
      invariant bullets == Bullets(lines[..i])
    {
      SomesStep(lines, BulletOfRaw, i);
      var line := CleanInsightLine(lines[i]);
      if Contains(Lower(line), RedundantPhrase) {
        assert BulletOfLine(line).None?;
        continue;
      }
      if StartsWith(line, "•") || StartsWith(line, "-") {
        var rest := Strip(line[1..]);
        if rest != [] {
          assert BulletOfLine(line) == Some("• " + rest);
          bullets := bullets + ["• " + rest];
        } else {
          assert BulletOfLine(line).None?;
        }
      } else if line != [] && |line| > 15 && !ContainsAny(Lower(line), InsightSkipPhrases) {
        if !StartsWith(line, "[") && !StartsWith(line, "(") {
          assert BulletOfLine(line) == Some("• " + line);
          bullets := bullets + ["• " + line];
        } else {
          assert BulletOfLine(line).None?;
        }
      } else {
        assert BulletOfLine(line).None?;
      }
    }
    assert lines[..|lines|] == lines;
  }

  /** A bullet line: "• " and a non-empty text without `*` or line break. */
  predicate IsBulletLine(b: string)
  {
    |b| > 2 && b[..2] == "• " && '*' !in b && '\n' !in b
  }

  /** Cleaning removes every `*` and adds no line break. */
  lemma CleanInsightLineClean(raw: string)
    requires '\n' !in raw
    ensures '*' !in CleanInsightLine(raw) && '\n' !in CleanInsightLine(raw)
  {
    var a := Replace(Strip(raw), "*", "");
    StripKeepsAbsent(raw, '\n');
    ReplaceRemoves(Strip(raw), "*", "");
    ReplaceKeepsAbsent(Strip(raw), "*", "", '\n');
    ReplaceKeepsAbsent(a, "  ", " ", '*');
    ReplaceKeepsAbsent(a, "  ", " ", '\n');
    StripKeepsAbsent(Replace(a, "  ", " "), '*');
    StripKeepsAbsent(Replace(a, "  ", " "), '\n');
  }

  lemma BulletOfLineShape(line: string)
    requires '*' !in line && '\n' !in line && BulletOfLine(line).Some?
    ensures IsBulletLine(BulletOfLine(line).value)
  {
    if StartsWith(line, "•") || StartsWith(line, "-") {
      StripKeepsAbsent(line[1..], '*');
      StripKeepsAbsent(line[1..], '\n');
    }
  }

  lemma BulletsAreBulletLines(lines: seq<string>)
    requires forall k :: 0 <= k < |lines| ==> '\n' !in lines[k]
    ensures forall k :: 0 <= k < |Bullets(lines)| ==> IsBulletLine(Bullets(lines)[k])
  {
    forall k | 0 <= k < |lines| && BulletOfRaw(lines[k]).Some? ensures IsBulletLine(BulletOfRaw(lines[k]).value) {
      RawBulletShape(lines[k]);
    }
    SomesAll(lines, BulletOfRaw, IsBulletLine);
  }

  lemma RawBulletShape(raw: string)
    requires '\n' !in raw
    ensures BulletOfRaw(raw).Some? ==> IsBulletLine(BulletOfRaw(raw).value)
  {
    var line := CleanInsightLine(raw);
    CleanInsightLineClean(raw);
    if BulletOfLine(line).Some? {
      BulletOfLineShape(line);
    }
  }

  /** One to three lines, each a bullet line. */
  predicate IsBulletList(text: string)
  {
    var lines := Split(text, '\n');
    1 <= |lines| <= 3 && forall k :: 0 <= k < |lines| ==> IsBulletLine(lines[k])
  }

  lemma JoinedBullets(bullets: seq<string>)
    requires bullets != [] && forall k :: 0 <= k < |bullets| ==> IsBulletLine(bullets[k])
    ensures IsBulletList(Join(Take(bullets, 3), "\n"))
  {
    var top := Take(bullets, 3);
    assert forall k :: 0 <= k < |top| ==> top[k] == bullets[k];
    JoinSplit(top, '\n');
  }

  /** The insight text is the fixed fallback, or one to three bullet lines without `*`. */
  lemma InsightsShape(response: Option<string>)
    ensures InsightsOf(response) == FallbackInsights || IsBulletList(InsightsOf(response))
  {
    if response.Some? && Bullets(Split(Strip(response.value), '\n')) != [] {
      ReplyInsightsShape(response.value);
      assert InsightsOf(response) == Join(Take(Bullets(Split(Strip(response.value), '\n')), 3), "\n");
    }
  }

  lemma ReplyInsightsShape(reply: string)
    requires Bullets(Split(Strip(reply), '\n')) != []
    ensures IsBulletList(Join(Take(Bullets(Split(Strip(reply), '\n')), 3), "\n"))
  {
    var lines := Split(Strip(reply), '\n');
    BulletsAreBulletLines(lines);
    JoinedBullets(Bullets(lines));
  }

  // ---------------------------------------------------------------- prospects

  /** A paper is a prospect iff its author's stripped name is non-empty and the author is an individual. */
  predicate IsProspect(a: PaperAnalysis)
  {
    a.paperMetadata.Some? && a.paperMetadata.value.authorInfo.Some?
    && Strip(a.paperMetadata.value.authorInfo.value.author.name) != []
    && a.paperMetadata.value.authorInfo.value.author.isIndividual
  }

  /** The prospect rows of the qualifying analyses, in order. */
  function ProspectsOf(analyzed: seq<PaperAnalysis>): seq<Prospect>
  {
    if analyzed == [] then []
    else
      var last := analyzed[|analyzed| - 1];
      ProspectsOf(analyzed[..|analyzed| - 1]) + if IsProspect(last) then [ProspectOf(last)] else []
  }

  lemma ProspectsStep(analyzed: seq<PaperAnalysis>, i: nat)
    requires i < |analyzed|
    ensures ProspectsOf(analyzed[..i + 1]) == ProspectsOf(analyzed[..i]) + if IsProspect(analyzed[i]) then [ProspectOf(analyzed[i])] else []
  {
    assert analyzed[..i + 1][..i] == analyzed[..i];
  }

  /** The prospect loop of `_finalize_results_node`. */
  method FinalizeProspects(analyzed: seq<PaperAnalysis>) returns (prospects: seq<Prospect>)
    ensures prospects == ProspectsOf(analyzed)
  {
    prospects := [];
    for i := 0 to |analyzed|
      invariant prospects == ProspectsOf(analyzed[..i])
    {
      ProspectsStep(analyzed, i);
      var a := analyzed[i];
      var info := if a.paperMetadata.Some? then a.paperMetadata.value.authorInfo else None;
      var name := if info.Some? then Strip(info.value.author.name) else "";
      if name != [] && info.value.author.isIndividual {
        prospects := prospects + [ProspectOf(a)];
      }
    }
    assert analyzed[..|analyzed|] == analyzed;
  }

  /** The prospects are the rows of the analyses `IsProspect` keeps. */
  lemma {:induction false} ProspectsAreFiltered(analyzed: seq<PaperAnalysis>)
    ensures ProspectsOf(analyzed) == Map(Filter(analyzed, IsProspect), ProspectOf)
  {
    if analyzed != [] {
      var init := analyzed[..|analyzed| - 1];
      var last := analyzed[|analyzed| - 1];
      ProspectsAreFiltered(init);
      var f := Filter(init, IsProspect);
      var tail := if IsProspect(last) then [last] else [];
      assert Filter(analyzed, IsProspect) == f + tail;
      MapAppend(f, tail, ProspectOf);
    }
  }

  /**
   * Row k comes from analysis `FilterIndices(analyzed, IsProspect)[k]`; those
   * positions increase, and they are exactly the analyses that qualify.
   */
  lemma ProspectsSpec(analyzed: seq<PaperAnalysis>)
    ensures var ix := FilterIndices(analyzed, IsProspect);
            var ps := ProspectsOf(analyzed);
            && |ps| == |ix|
            && (forall k :: 0 <= k < |ix| ==> ix[k] < |analyzed| && ps[k] == ProspectOf(analyzed[ix[k]]))
            && (forall k, l :: 0 <= k < l < |ix| ==> ix[k] < ix[l])
            && (forall i :: 0 <= i < |analyzed| ==> (i in ix <==> IsProspect(analyzed[i])))
  {
    ProspectsAreFiltered(analyzed);
    FilterSpec(analyzed, IsProspect);
  }
}
