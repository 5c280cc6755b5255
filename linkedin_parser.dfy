/**
 * Turning a saved LinkedIn advice page into contributor records
 * (`linkedin_html_parser.py`): the author markers cut the page into windows,
 * each window yields a record (name, title, likes, classifier flags), the
 * parser object accumulates the records, and the accumulated list is merged
 * per person.
 *
 * The regular expression that finds the author markers and the one that
 * finds title candidates in HTML tags are not modelled: their matches are
 * inputs (`Marker`s and `candidates`). `html.unescape`, the answer extractor
 * and the reply extractor are passed in as functions.
 */
module LinkedInParser {
  import opened Wrappers
  import opened Strings
  import opened ContributorRecords
  import opened ContributorMerge
  import StableSort

  // ---------------------------------------------------------------- classifiers

  const HighPriorityKeywords: seq<string> := [
    "ceo", "cto", "cfo", "coo", "cdo", "cpo", "cmo", "ciso", "cso", "chief",
    "president", "founder", "co-founder", "vp", "vice president", "director",
    "head of", "lead of", "executive", "manager", "senior", "principal",
    "board member", "advisor", "consultant"]

  const BusinessKeywords: seq<string> := [
    "business development", "business dev", "partnership", "partnerships",
    "strategic", "sales", "marketing", "growth", "revenue", "commercial",
    "client", "customer", "account", "relationship", "alliance"]

  /** `_is_high_priority`: a keyword occurs in the lower-cased title. */
  predicate IsHighPriority(title: string)
  {
    ContainsAny(Lower(title), HighPriorityKeywords)
  }

  /** `_is_business_developer`: a keyword occurs in the lower-cased title. */
  predicate IsBusinessDeveloper(title: string)
  {
    ContainsAny(Lower(title), BusinessKeywords)
  }

  /** Both classifiers ignore case: they give the same answer on the lower-cased title. */
  lemma ClassifiersIgnoreCase(title: string)
    ensures IsHighPriority(Lower(title)) == IsHighPriority(title)
    ensures IsBusinessDeveloper(Lower(title)) == IsBusinessDeveloper(title)
  {
    LowerIdempotent(title);
  }

  lemma ContainsKeyword(s: string, keywords: seq<string>, k: nat)
    requires k < |keywords| && Contains(s, keywords[k])
    ensures ContainsAny(s, keywords)
  {
  }

  /** Every title with "Chief" or "Director" in it, in any case, is high priority. */
  lemma ChiefAndDirectorAreHighPriority(title: string)
    ensures Contains(Lower(title), "chief") ==> IsHighPriority(title)
    ensures Contains(Lower(title), "director") ==> IsHighPriority(title)
  {
    if Contains(Lower(title), "chief") { ContainsKeyword(Lower(title), HighPriorityKeywords, 9); }
    if Contains(Lower(title), "director") { ContainsKeyword(Lower(title), HighPriorityKeywords, 15); }
  }

  // ---------------------------------------------------------------- cleaning names and titles

  /** The characters of `[🌟⭐💼🔒🔐📊🚀🛠️📜🔄]`; the class holds U+FE0F from the "🛠️" sequence too. */
  const Emoji: set<char> := {
    '\U{1F31F}', '\U{2B50}', '\U{1F4BC}', '\U{1F512}', '\U{1F510}', '\U{1F4CA}',
    '\U{1F680}', '\U{1F6E0}', '\U{FE0F}', '\U{1F4DC}', '\U{1F504}'}

  function RemoveChars(s: string, cs: set<char>): (r: string)
    ensures forall i :: 0 <= i < |r| ==> r[i] !in cs && r[i] in s
    ensures |r| <= |s|
  {
    if s == [] then []
    else (if s[0] in cs then [] else [s[0]]) + RemoveChars(s[1..], cs)
  }

  /**
   * The name and title cleaning of `_extract_contributor_from_precise_section`:
   * emoji removed, stripped, whitespace runs made one space, stripped again.
   */
  function CleanText(s: string): string
  {
    Strip(CollapseSpace(Strip(RemoveChars(s, Emoji))))
  }

  lemma {:induction false} CollapseSpaceKeeps(s: string, cs: set<char>)
    requires ' ' !in cs
    requires forall i :: 0 <= i < |s| ==> s[i] !in cs
    ensures forall i :: 0 <= i < |CollapseSpace(s)| ==> CollapseSpace(s)[i] !in cs
    decreases |s|
  {
    if s != [] {
      if IsSpace(s[0]) {
        var rest := LStrip(s);
        LStripSuffix(s);
        CollapseSpaceKeeps(rest, cs);
        assert CollapseSpace(s) == " " + CollapseSpace(rest);
      } else {
        CollapseSpaceKeeps(s[1..], cs);
        assert CollapseSpace(s) == [s[0]] + CollapseSpace(s[1..]);
      }
    }
  }

  lemma StripKeeps(s: string, cs: set<char>)
    requires forall i :: 0 <= i < |s| ==> s[i] !in cs
    ensures forall i :: 0 <= i < |Strip(s)| ==> Strip(s)[i] !in cs
  {
    var r := Strip(s);
    StripSlice(s);
    var a := |s| - |LStrip(s)|;
    forall i | 0 <= i < |r| ensures r[i] !in cs { assert r[i] == s[a + i]; }
  }

  /** A cleaned text has no emoji, no whitespace at either end and only single spaces inside. */
  lemma CleanTextFacts(s: string)
    ensures forall i :: 0 <= i < |CleanText(s)| ==> CleanText(s)[i] !in Emoji
    ensures SingleSpaced(CleanText(s))
    ensures CleanText(s) == [] || (!IsSpace(CleanText(s)[0]) && !IsSpace(CleanText(s)[|CleanText(s)| - 1]))
  {
    var t := Strip(RemoveChars(s, Emoji));
    StripKeeps(RemoveChars(s, Emoji), Emoji);
    CollapseSpaceKeeps(t, Emoji);
    StripKeeps(CollapseSpace(t), Emoji);
    CollapseSpaceSingleSpaced(t);
    StripSingleSpaced(CollapseSpace(t));
  }

  // ---------------------------------------------------------------- likes

  /** The longest prefix of `s` made of digits. */
  function DigitRun(s: string): (r: string)
    ensures |r| <= |s| && r == s[..|r|]
    ensures forall i :: 0 <= i < |r| ==> IsDigitChar(r[i])
    ensures |r| < |s| ==> !IsDigitChar(s[|r|])
  {
    if s != [] && IsDigitChar(s[0]) then [s[0]] + DigitRun(s[1..]) else []
  }

  /**
   * `(\d+)\s*Like` matches at `p`. Backtracking cannot help: giving back a
   * digit or a space puts a digit or a space where `\s` or `L` is needed, so
   * the match takes the whole digit run and then all the whitespace.
   */
  predicate LikeAt(s: string, p: int)
  {
    0 <= p < |s| && IsDigitChar(s[p]) && StartsWith(LStrip(AfterDigits(s, p)), "Like")
  }

  /** What follows the digit run that starts at `p`. */
  function AfterDigits(s: string, p: nat): string
    requires p <= |s|
  {
    s[p + |DigitRun(s[p..])|..]
  }

  /**
   * `_extract_likes`: the digits of the leftmost `<n> Like`, or "0". The
   * result type is a digit string, so the `int(likes)` of the merge never fails.
   */
  function ExtractLikes(s: string): (r: DigitString)
    decreases |s|
  {
    if s == [] then "0"
    else if LikeAt(s, 0) then
      assert DigitRun(s)[0] == s[0];
      DigitRun(s)
    else ExtractLikes(s[1..])
  }

  lemma LikeAtShift(s: string, p: nat)
    requires s != []
    ensures LikeAt(s, p + 1) <==> LikeAt(s[1..], p)
  {
    if p + 1 < |s| {
      assert s[p + 1..] == s[1..][p..];
      assert AfterDigits(s, p + 1) == AfterDigits(s[1..], p);
    }
  }

  /**
   * The likes are the digit run at the leftmost match, or "0" when the
   * window has no match.
   */
  lemma {:induction false} ExtractLikesLeftmost(s: string)
    ensures (forall p :: !LikeAt(s, p)) ==> ExtractLikes(s) == "0"
    ensures forall p :: LikeAt(s, p) && (forall q :: 0 <= q < p ==> !LikeAt(s, q))
              ==> ExtractLikes(s) == DigitRun(s[p..])
    decreases |s|
  {
    if s != [] {
      ExtractLikesLeftmost(s[1..]);
      forall p | 0 <= p ensures LikeAt(s, p + 1) <==> LikeAt(s[1..], p) { LikeAtShift(s, p); }
      forall p | LikeAt(s, p) && (forall q :: 0 <= q < p ==> !LikeAt(s, q))
        ensures ExtractLikes(s) == DigitRun(s[p..])
      {
        if p > 0 {
          assert !LikeAt(s, 0);
          assert LikeAt(s[1..], p - 1);
          forall q | 0 <= q < p - 1 ensures !LikeAt(s[1..], q) { assert !LikeAt(s, q + 1); }
          assert s[1..][p - 1..] == s[p..];
        }
      }
      if forall p :: !LikeAt(s, p) {
        forall p ensures !LikeAt(s[1..], p) { if p >= 0 { assert !LikeAt(s, p + 1); } }
      }
    }
  }

  // ---------------------------------------------------------------- title

  const SkipPrefixes: seq<string> := ["well said", "spot on", "thanks", "agree", "exactly"]

  const TitleKeywords: seq<string> := [
    "senior", "lead", "principal", "chief", "vp", "director", "manager", "ceo", "cto", "cfo", "coo",
    "founder", "president", "executive", "analyst", "engineer", "developer", "consultant", "advisor",
    "specialist", "expert", "architect", "scientist", "researcher", "professor", "@", "|",
    "top ai voice", "patent filed", "digital transformation", "author", "keynote speaker"]

  const DefaultTitle: string := "Professional"

  /** No image or CSS debris in the text. */
  predicate NoArtifact(m: string)
  {
    !Contains(m, "jpg\"") && !Contains(m, "rotate(") && !Contains(m, "translateZ")
  }

  /** A stripped tag match that is taken as the title. */
  predicate CandidateOk(m: string)
  {
    |m| > 15 && !StartsWithAny(Lower(m), SkipPrefixes) && NoArtifact(m)
  }

  /** A stripped line of the window that is taken as the title. */
  predicate LineOk(line: string)
  {
    20 < |line| < 300 && NoArtifact(line) && ContainsAny(Lower(line), TitleKeywords)
  }

  /** The first element of `xs` that `ok` accepts once stripped, stripped. */
  function FirstAccepted(xs: seq<string>, ok: string -> bool): Option<string>
  {
    if xs == [] then None
    else if ok(Strip(xs[0])) then Some(Strip(xs[0]))
    else FirstAccepted(xs[1..], ok)
  }

  lemma {:induction false} FirstAcceptedSpec(xs: seq<string>, ok: string -> bool)
    ensures FirstAccepted(xs, ok) == None <==> forall i :: 0 <= i < |xs| ==> !ok(Strip(xs[i]))
    ensures FirstAccepted(xs, ok).Some? ==>
              exists i :: 0 <= i < |xs| && FirstAccepted(xs, ok).value == Strip(xs[i]) && ok(Strip(xs[i]))
                          && forall j :: 0 <= j < i ==> !ok(Strip(xs[j]))
  {
    if xs != [] && !ok(Strip(xs[0])) {
      FirstAcceptedSpec(xs[1..], ok);
      if FirstAccepted(xs, ok).Some? {
        var i :| 0 <= i < |xs[1..]| && FirstAccepted(xs[1..], ok).value == Strip(xs[1..][i]) && ok(Strip(xs[1..][i]))
                 && forall j :: 0 <= j < i ==> !ok(Strip(xs[1..][j]));
        forall j | 0 <= j < i + 1 ensures !ok(Strip(xs[j])) {
          if j > 0 { assert xs[j] == xs[1..][j - 1]; }
        }
        assert xs[i + 1] == xs[1..][i];
      } else {
        forall i | 0 <= i < |xs| ensures !ok(Strip(xs[i])) {
          if i > 0 { assert xs[i] == xs[1..][i - 1]; }
        }
      }
    } else if xs != [] {
      assert FirstAccepted(xs, ok).value == Strip(xs[0]);
    }
  }

  lemma FirstAcceptedNone(xs: seq<string>, ok: string -> bool)
    requires forall i :: 0 <= i < |xs| ==> !ok(Strip(xs[i]))
    ensures FirstAccepted(xs, ok) == None
  {
    FirstAcceptedSpec(xs, ok);
  }

  lemma FirstAcceptedFound(xs: seq<string>, ok: string -> bool, i: nat)
    requires i < |xs| && ok(Strip(xs[i])) && forall j :: 0 <= j < i ==> !ok(Strip(xs[j]))
    ensures FirstAccepted(xs, ok) == Some(Strip(xs[i]))
  {
    FirstAcceptedSpec(xs, ok);
    var k :| 0 <= k < |xs| && FirstAccepted(xs, ok).value == Strip(xs[k]) && ok(Strip(xs[k]))
             && forall j :: 0 <= j < k ==> !ok(Strip(xs[j]));
    assert k == i;
  }

  /**
   * `_extract_title_from_section`: the first acceptable tag match, else the
   * first acceptable line, else "Professional". `candidates` are the matches
   * of the three tag patterns, in the order the source tries them.
   */
  function TitleOf(candidates: seq<string>, section: string): string
  {
    match FirstAccepted(candidates, CandidateOk)
    case Some(m) => m
    case None =>
      match FirstAccepted(Split(section, '\n'), LineOk)
      case Some(line) => line
      case None => DefaultTitle
  }

  /** A title is the default, or long, free of artifacts and trimmed. */
  lemma TitleShape(candidates: seq<string>, section: string)
    ensures var t := TitleOf(candidates, section);
            t == DefaultTitle || (|t| > 15 && NoArtifact(t) && !IsSpace(t[0]) && !IsSpace(t[|t| - 1]))
  {
    FirstAcceptedSpec(candidates, CandidateOk);
    FirstAcceptedSpec(Split(section, '\n'), LineOk);
  }

  method ExtractTitleFromSection(candidates: seq<string>, section: string) returns (title: string)
    ensures title == TitleOf(candidates, section)
  {
    var found := FindFirst(candidates, CandidateOk);
    if found.Some? {
      return found.value;
    }
    var lines := Split(section, '\n');
    found := FindFirst(lines, LineOk);
    if found.Some? {
      return found.value;
    }
    return DefaultTitle;
  }

  /** One of the method's two scans: the first text that `ok` accepts once stripped. */
  method FindFirst(xs: seq<string>, ok: string -> bool) returns (found: Option<string>)
    ensures found == FirstAccepted(xs, ok)
  {
    for i := 0 to |xs|
      invariant FirstAccepted(xs[i..], ok) == FirstAccepted(xs, ok)
    {
      var m := Strip(xs[i]);
      if ok(m) {
        return Some(m);
      }
      assert xs[i..][1..] == xs[i + 1..];
    }
    return None;
  }

  // ---------------------------------------------------------------- one window, one record

  /** Python's `'encryption' in a or 'encrypt' in a` on the lower-cased answer. */
  predicate MentionsEncryption(answer: string)
  {
    Contains(Lower(answer), "encryption") || Contains(Lower(answer), "encrypt")
  }

  /** "encryption" starts with "encrypt", so the first test adds nothing. */
  lemma MentionsEncryptionIsEncrypt(answer: string)
    ensures MentionsEncryption(answer) <==> Contains(Lower(answer), "encrypt")
  {
    if Contains(Lower(answer), "encryption") {
      ContainsShorter(Lower(answer), "encryption", 7);
      assert "encryption"[..7] == "encrypt";
    }
  }

  /**
   * `_extract_contributor_from_precise_section`. `unescape` is
   * `html.unescape`; `candidates` are the title-tag matches found in the
   * window; `answer` and `replies` are what the answer and reply extractors
   * return for the window. None of these raises, so the record is always built.
   */
  function PreciseContributor(section: string, name: string, linkedinId: string, index: int,
                              unescape: string -> string, candidates: seq<string>,
                              answer: string, replies: string): (c: Contributor)
    ensures c.name == CleanText(unescape(name))
    ensures c.title == CleanText(unescape(TitleOf(candidates, section)))
    ensures c.linkedinProfile == ProfileUrl(linkedinId) && c.index == index
    ensures c.answer == answer && c.replies == replies && c.likes == ExtractLikes(section)
    ensures c.isHighPriority <==> IsHighPriority(c.title)
    ensures c.isBusinessDeveloper <==> IsBusinessDeveloper(c.title)
    ensures c.mentionsEncryption <==> Contains(Lower(answer), "encrypt")
    ensures c.source == "precise_extraction"
  {
    var cleanTitle := CleanText(unescape(TitleOf(candidates, section)));
    MentionsEncryptionIsEncrypt(answer);
    Contributor(
      CleanText(unescape(name)), cleanTitle, ProfileUrl(linkedinId), answer, ExtractLikes(section), replies,
      IsHighPriority(cleanTitle), IsBusinessDeveloper(cleanTitle), MentionsEncryption(answer),
      index, "precise_extraction")
  }

  /**
   * The record of a window merges under the id run at the front of the
   * page link's id: records from the same profile link fall into one group.
   */
  lemma PreciseContributorKey(section: string, name: string, linkedinId: string, index: int,
                              unescape: string -> string, candidates: seq<string>,
                              answer: string, replies: string)
    requires linkedinId != [] && IdChar(linkedinId[0])
    ensures Key(PreciseContributor(section, name, linkedinId, index, unescape, candidates, answer, replies))
            == IdRun(linkedinId)
  {
    CoreIdOfProfileUrl(linkedinId);
  }

  // ---------------------------------------------------------------- windows

  /**
   * A match of the author-link pattern: where it starts, the profile id it
   * captures and the display name it captures.
   */
  datatype Marker = Marker(start: nat, linkedinId: string, name: string)

  /** Regex matches come in document order, do not overlap and start inside the text. */
  predicate MarkersOk(html: string, markers: seq<Marker>)
  {
    && (forall i :: 0 <= i < |markers| ==> markers[i].start < |html|)
    && (forall i :: 0 <= i < |markers| - 1 ==> markers[i].start < markers[i + 1].start)
  }

  /** The next marker's start, or the end of the text after the last marker. */
  function WindowEnd(html: string, markers: seq<Marker>, i: nat): nat
    requires i < |markers|
  {
    if i + 1 < |markers| then markers[i + 1].start else |html|
  }

  /** `html_content[match_start:next_match_start]`. */
  function Window(html: string, markers: seq<Marker>, i: nat): (w: string)
    requires MarkersOk(html, markers) && i < |markers|
    ensures |w| == WindowEnd(html, markers, i) - markers[i].start > 0
  {
    html[markers[i].start..WindowEnd(html, markers, i)]
  }

  function Windows(html: string, markers: seq<Marker>): (ws: seq<string>)
    requires MarkersOk(html, markers)
    ensures |ws| == |markers|
  {
    seq(|markers|, i requires 0 <= i < |markers| => Window(html, markers, i))
  }

  function Concat(ws: seq<string>): string
  {
    if ws == [] then [] else ws[0] + Concat(ws[1..])
  }

  /** Dropping the first marker leaves the other windows as they were. */
  lemma WindowsTail(html: string, markers: seq<Marker>)
    requires MarkersOk(html, markers) && markers != []
    ensures MarkersOk(html, markers[1..])
    ensures Windows(html, markers[1..]) == Windows(html, markers)[1..]
  {
    var ws := Windows(html, markers);
    var ws' := Windows(html, markers[1..]);
    forall i | 0 <= i < |ws'| ensures ws'[i] == ws[i + 1] {
      assert markers[1..][i] == markers[i + 1];
      if i + 1 < |markers[1..]| { assert markers[1..][i + 1] == markers[i + 2]; }
    }
  }

  /**
   * The windows tile the text: one after the other they spell out
   * everything from the first marker to the end, so none overlaps another
   * and nothing after the first marker is lost.
   */
  lemma {:induction false} WindowsTile(html: string, markers: seq<Marker>)
    requires MarkersOk(html, markers) && markers != []
    ensures Concat(Windows(html, markers)) == html[markers[0].start..]
    decreases |markers|
  {
    var ws := Windows(html, markers);
    WindowsTail(html, markers);
    if |markers| == 1 {
      assert ws[1..] == [];
    } else {
      WindowsTile(html, markers[1..]);
      assert markers[1..][0] == markers[1];
      assert ws[0] == html[markers[0].start..markers[1].start];
      assert html[markers[0].start..] == ws[0] + html[markers[1].start..];
    }
  }

  // ---------------------------------------------------------------- the parser object

  /** The records of the windows whose extraction succeeded, in window order. */
  function Somes<T>(os: seq<Option<T>>): seq<T>
  {
    if os == [] then []
    else Somes(os[..|os| - 1]) + (if os[|os| - 1].Some? then [os[|os| - 1].value] else [])
  }

  /** A failed extraction is dropped, every successful one kept, order unchanged. */
  lemma {:induction false} SomesSpec<T>(os: seq<Option<T>>)
    ensures |Somes(os)| <= |os|
    ensures forall x :: x in Somes(os) <==> Some(x) in os
    ensures (forall i :: 0 <= i < |os| ==> os[i].Some?) ==> |Somes(os)| == |os|
    decreases |os|
  {
    if os != [] {
      var pre := os[..|os| - 1];
      SomesSpec(pre);
      assert os == pre + [os[|os| - 1]];
      if forall i :: 0 <= i < |os| ==> os[i].Some? {
        assert forall i :: 0 <= i < |pre| ==> pre[i].Some? by {
          forall i | 0 <= i < |pre| ensures pre[i].Some? { assert pre[i] == os[i]; }
        }
      }
    }
  }

  /**
   * What one window gives: a record, or None when the extractor failed.
   * The window index is 1-based, as in the source.
   */
  type Extractor = (string, string, string, int) -> Option<Contributor>

  function Attempt(html: string, markers: seq<Marker>, extract: Extractor, i: nat): Option<Contributor>
    requires MarkersOk(html, markers) && i < |markers|
  {
    extract(Window(html, markers, i), markers[i].name, markers[i].linkedinId, i + 1)
  }

  function Attempts(html: string, markers: seq<Marker>, extract: Extractor): (r: seq<Option<Contributor>>)
    requires MarkersOk(html, markers)
    ensures |r| == |markers|
  {
    seq(|markers|, i requires 0 <= i < |markers| => Attempt(html, markers, extract, i))
  }

  /** `LinkedInHTMLParser`: the records found so far, over every parsed file. */
  class HtmlParser {
    var contributors: seq<Contributor>

    constructor ()
      ensures contributors == []
    {
      contributors := [];
    }

    /**
     * `parse_html_file`. `content` is the file's text, or None when it could
     * not be read; `markers` are the author-link matches in the text. Each
     * successful record is appended to `contributors`; the result is the
     * merge of all records found so far, and the merge rewrites the stored
     * records it keeps in its table into their merged form.
     */
    method ParseHtmlFile(content: Option<string>, markers: seq<Marker>, extract: Extractor)
      returns (unique: seq<MergedContributor>)
      requires content.Some? ==> MarkersOk(content.value, markers)
      modifies this
      ensures content.None? ==> unique == [] && contributors == old(contributors)
      ensures content.Some? ==> var found := old(contributors) + Somes(Attempts(content.value, markers, extract));
                                unique == Dedup(found) && contributors == Settle(found)
    {
      if content.None? {
        return [];
      }
      var html := content.value;
      ghost var attempts := Attempts(html, markers, extract);
      for i := 0 to |markers|
        invariant contributors == old(contributors) + Somes(attempts[..i])
      {
        var nextMatchStart := |html|;
        if i + 1 < |markers| {
          nextMatchStart := markers[i + 1].start;
        }
        var section := html[markers[i].start..nextMatchStart];
        var contributor := extract(section, markers[i].name, markers[i].linkedinId, i + 1);
        assert contributor == attempts[i];
        assert attempts[..i + 1][..i] == attempts[..i];
        if contributor.Some? {
          contributors := contributors + [contributor.value];
        }
      }
      assert attempts[..|markers|] == attempts;
      unique := RemoveDuplicates(contributors);
      contributors := SettleRecords(contributors);
    }
  }

  // ---------------------------------------------------------------- ranking

  /** `relevance_score` inside `sort_by_relevance`. */
  function RelevanceScore(m: MergedContributor): (r: int)
    ensures m.record.isHighPriority ==> 1050 <= r <= 1145
    ensures !m.record.isHighPriority ==> 500 <= r <= 545
  {
    var title := Lower(m.record.title);
    var base :=
      if m.record.isHighPriority then
        if ContainsAny(title, ["ceo", "cto", "cfo", "coo", "chief", "president"]) then 1100
        else if ContainsAny(title, ["founder", "co-founder"]) then 1090
        else if ContainsAny(title, ["vp", "vice president", "director"]) then 1080
        else if ContainsAny(title, ["manager", "senior", "principal"]) then 1070
        else 1050
      else 500;
    var business := if m.record.isBusinessDeveloper then 20 else 0;
    var encryption := if m.record.mentionsEncryption then 15 else 0;
    var activity := match m.activityLevel
      case VeryActive => 10
      case Active => 5
      case SingleComment => 0;
    base + business + encryption + activity
  }

  function RelevanceKey(m: MergedContributor): StableSort.Key
  {
    (RelevanceScore(m), 0)
  }

  /** `sort_by_relevance`: `sorted(..., key=relevance_score, reverse=True)`. */
  function SortByRelevance(ms: seq<MergedContributor>): seq<MergedContributor>
  {
    StableSort.SortDesc(ms, RelevanceKey)
  }

  /**
   * The result is the input reordered by descending score, with records of
   * equal score in their input order.
   */
  lemma SortByRelevanceSpec(ms: seq<MergedContributor>, score: int)
    ensures multiset(SortByRelevance(ms)) == multiset(ms)
    ensures forall i, j :: 0 <= i < j < |SortByRelevance(ms)| ==>
              RelevanceScore(SortByRelevance(ms)[j]) <= RelevanceScore(SortByRelevance(ms)[i])
    ensures StableSort.WithKey(SortByRelevance(ms), RelevanceKey, (score, 0))
            == StableSort.WithKey(ms, RelevanceKey, (score, 0))
  {
    StableSort.SortDescSorted(ms, RelevanceKey);
    StableSort.SortDescStable(ms, RelevanceKey, (score, 0));
  }

  /** The score bands do not meet, so every high-priority record comes before every other one. */
  lemma HighPriorityFirst(ms: seq<MergedContributor>)
    ensures forall i, j :: 0 <= i < j < |SortByRelevance(ms)| && SortByRelevance(ms)[j].record.isHighPriority
              ==> SortByRelevance(ms)[i].record.isHighPriority
  {
    SortByRelevanceSpec(ms, 0);
  }

  /** The tiers are tried in order: a C-level word wins over any later tier's word. */
  lemma CLevelTierFirst(m: MergedContributor)
    requires m.record.isHighPriority && Contains(Lower(m.record.title), "ceo")
    ensures RelevanceScore(m) >= 1100
  {
    var cLevel := ["ceo", "cto", "cfo", "coo", "chief", "president"];
    assert cLevel[0] == "ceo";
    ContainsKeyword(Lower(m.record.title), cLevel, 0);
  }
}
