/**
 * The deterministic rules of the author extractor: reading a LinkedIn
 * profile URL out of a model answer, cutting the JSON array out of an
 * answer, validating the authors it lists, deriving a name from a profile
 * slug, choosing a profile among search results, the guard and fallback of
 * the individual-author check, and the shape of `extract_author_info`'s
 * result. Model answers and search results are inputs; the model's verdicts
 * and the profile search are function parameters.
 */
module AuthorExtractor {
  import opened Wrappers
  import opened Strings
  import opened Seqs
  import opened Records

  // ---------------------------------------------------------------- profile URL in an answer

  /** The character class `[a-zA-Z0-9\-]`. */
  predicate IsSlugChar(c: char)
  {
    IsLetter(c) || IsDigitChar(c) || c == '-'
  }

  /** The end of the run of slug characters that starts at `i`. */
  function SlugEnd(s: string, i: nat): (j: nat)
    requires i <= |s|
    ensures i <= j <= |s| && (j < |s| ==> !IsSlugChar(s[j]))
    ensures forall k :: i <= k < j ==> IsSlugChar(s[k])
    decreases |s| - i
  {
    if i < |s| && IsSlugChar(s[i]) then SlugEnd(s, i + 1) else i
  }

  const WwwProfilePrefix: string := "https://www.linkedin.com/in/"
  const ProfilePrefix: string := "https://linkedin.com/in/"

  /** The fixed part of `https://(?:www\.)?linkedin\.com/in/` at `p`, as its length. */
  function PrefixAt(s: string, p: nat): (r: Option<nat>)
    ensures r.Some? ==> p + r.value <= |s|
  {
    if OccursAt(s, WwwProfilePrefix, p) then Some(|WwwProfilePrefix|)
    else if OccursAt(s, ProfilePrefix, p) then Some(|ProfilePrefix|)
    else None
  }

  /** Where the profile pattern, matched at `p`, ends: the slug run is taken whole and must not be empty. */
  function ProfileMatchAt(s: string, p: nat): (r: Option<nat>)
    requires p <= |s|
    ensures r.Some? ==> p < r.value <= |s|
  {
    match PrefixAt(s, p)
    case None => None
    case Some(n) =>
      var e := SlugEnd(s, p + n);
      if e > p + n then Some(e) else None
  }

  /** The leftmost match from `p` on, as its start and end. */
  function FirstProfileFrom(s: string, p: nat): (r: Option<(nat, nat)>)
    requires p <= |s|
    ensures r.Some? ==> p <= r.value.0 < r.value.1 <= |s| && ProfileMatchAt(s, r.value.0) == Some(r.value.1)
    decreases |s| - p
  {
    match ProfileMatchAt(s, p)
    case Some(e) => Some((p, e))
    case None => if p == |s| then None else FirstProfileFrom(s, p + 1)
  }

  lemma {:induction false} FirstProfileFromIsLeftmost(s: string, p: nat, q: nat)
    requires p <= q <= |s|
    requires FirstProfileFrom(s, p).None? || q < FirstProfileFrom(s, p).value.0
    ensures ProfileMatchAt(s, q).None?
    decreases q - p
  {
    if q > p && ProfileMatchAt(s, p).None? {
      assert FirstProfileFrom(s, p) == FirstProfileFrom(s, p + 1);
      FirstProfileFromIsLeftmost(s, p + 1, q);
    }
  }

  /** `_extract_linkedin_url_from_ai_response`. */
  function ExtractLinkedInUrl(response: string): string
  {
    match FirstProfileFrom(response, 0)
    case Some((a, b)) => response[a..b]
    case None => if Contains(Lower(response), "not found") then "not found" else ""
  }

  /** From position `n` to the end, a non-empty run of slug characters. */
  predicate IsSlugFrom(u: string, n: nat)
  {
    n < |u| && forall k :: n <= k < |u| ==> IsSlugChar(u[k])
  }

  /** A profile URL: one of the two prefixes followed by a non-empty slug. */
  predicate IsProfileUrl(u: string)
  {
    (StartsWith(u, WwwProfilePrefix) && IsSlugFrom(u, |WwwProfilePrefix|))
    || (StartsWith(u, ProfilePrefix) && IsSlugFrom(u, |ProfilePrefix|))
  }

  lemma MatchIsProfileUrl(s: string, a: nat, b: nat)
    requires a <= |s| && ProfileMatchAt(s, a) == Some(b)
    ensures IsProfileUrl(s[a..b]) && OccursAt(s, s[a..b], a)
  {
    var n := PrefixAt(s, a).value;
    assert b == SlugEnd(s, a + n);
    if OccursAt(s, WwwProfilePrefix, a) {
      PrefixedSlug(s, a, b, WwwProfilePrefix);
    } else {
      PrefixedSlug(s, a, b, ProfilePrefix);
    }
  }

  lemma PrefixedSlug(s: string, a: nat, b: nat, prefix: string)
    requires OccursAt(s, prefix, a) && a + |prefix| < b <= |s|
    requires forall k :: a + |prefix| <= k < b ==> IsSlugChar(s[k])
    ensures StartsWith(s[a..b], prefix) && IsSlugFrom(s[a..b], |prefix|)
  {
    var u := s[a..b];
    assert u[..|prefix|] == s[a..a + |prefix|];
    forall k | |prefix| <= k < |u| ensures IsSlugChar(u[k]) {
      assert u[k] == s[a + k];
    }
  }

  /** Neither fallback value is a profile URL. */
  lemma FallbacksAreNotProfileUrls()
    ensures !IsProfileUrl("not found") && !IsProfileUrl("")
  {
    assert |"not found"| < |ProfilePrefix| < |WwwProfilePrefix|;
  }

  /**
   * The answer's first profile URL when it has one, taken from the answer
   * as it stands; otherwise "not found" exactly when the answer says so in
   * any case, and "" when it does not.
   */
  lemma ExtractLinkedInUrlSpec(response: string)
    ensures var r := ExtractLinkedInUrl(response);
            && (IsProfileUrl(r) <==> exists p :: 0 <= p <= |response| && ProfileMatchAt(response, p).Some?)
            && (IsProfileUrl(r) ==> Contains(response, r))
            && (!IsProfileUrl(r) ==> (r == "not found" <==> Contains(Lower(response), "not found")))
            && (!IsProfileUrl(r) ==> (r == "" <==> !Contains(Lower(response), "not found")))
  {
    FallbacksAreNotProfileUrls();
    match FirstProfileFrom(response, 0)
    case Some((a, b)) =>
      MatchIsProfileUrl(response, a, b);
      ContainsWitness(response, response[a..b], a);
    case None =>
      forall p | 0 <= p <= |response|
        ensures ProfileMatchAt(response, p).None?
      {
        FirstProfileFromIsLeftmost(response, 0, p);
      }
  }

  /** The URL returned is the leftmost one: no match starts before it. */
  lemma ExtractLinkedInUrlIsFirst(response: string, q: nat)
    requires FirstProfileFrom(response, 0).Some? && q < FirstProfileFrom(response, 0).value.0
    ensures ProfileMatchAt(response, q).None?
  {
    FirstProfileFromIsLeftmost(response, 0, q);
  }

  // ---------------------------------------------------------------- JSON array in an answer

  /** Python's `s.find(c)`. */
  function Find(s: string, c: char): (i: int)
    ensures -1 <= i < |s|
    ensures i == -1 <==> c !in s
  {
    if c in s then IndexOfChar(s, c) else -1
  }

  /** Python's `s.rfind(c)`. */
  function RFind(s: string, c: char): (i: int)
    ensures -1 <= i < |s|
    ensures i >= 0 ==> s[i] == c
    ensures forall k :: i < k < |s| ==> s[k] != c
  {
    if s == [] then -1
    else if s[|s| - 1] == c then |s| - 1
    else RFind(s[..|s| - 1], c)
  }

  /** The JSON text `_extract_all_authors_with_ai` parses, or `None` for "no JSON array found". */
  function JsonArrayText(text: string): Option<string>
  {
    var start := Find(text, '[');
    var end := RFind(text, ']') + 1;
    if start != -1 && end != -1 then Some(Slice(text, start, end)) else None
  }

  /**
   * Only the opening bracket decides whether an array is found (`rfind`
   * plus one is never -1); the text runs from the first `[` to the last
   * `]`, and is empty when no `]` follows the first `[`.
   */
  lemma JsonArrayTextSpec(text: string)
    ensures JsonArrayText(text).Some? <==> '[' in text
    ensures '[' in text ==>
              var a := IndexOfChar(text, '[');
              var b := RFind(text, ']');
              && (a < b ==> JsonArrayText(text) == Some(text[a..b + 1]) && text[a] == '[' && text[b] == ']'
                            && ']' !in text[b + 1..] && '[' !in text[..a])
              && (b < a ==> JsonArrayText(text) == Some(""))
  {
    if '[' in text {
      var a := IndexOfChar(text, '[');
      var b := RFind(text, ']');
      assert Find(text, '[') == a;
      if a < b {
        assert JsonArrayText(text) == Some(text[a..b + 1]);
        var tail := text[b + 1..];
        assert forall j :: 0 <= j < |tail| ==> tail[j] == text[b + 1 + j];
      } else if b < a {
        assert JsonArrayText(text) == Some("");
      }
    }
  }

  // ---------------------------------------------------------------- author validation

  /** A value of the parsed array as `.strip()` sees it: a string, or anything else (null, a number, a list). */
  datatype JsonValue = Text(text: string) | NotText

  /** One entry of the parsed array: a dictionary or anything else. */
  datatype ListEntry = NonDict | Dict(fields: map<string, JsonValue>)

  /** `d.get(key, '').strip()`, or None where the value is not a string and `.strip()` raises. */
  function StrippedGet(d: map<string, JsonValue>, key: string): Option<string>
  {
    if key !in d then Some("")
    else match d[key]
      case Text(s) => Some(Strip(s))
      case NotText => None
  }

  /**
   * A validated author: the six fields `_extract_all_authors_with_ai` keeps.
   * `compatibility` is the `compatibility_analysis` key, which only the
   * single-author extraction's result can carry.
   */
  datatype AuthorFields = AuthorFields(
    name: string,
    title: string,
    company: string,
    linkedinProfile: string,
    email: string,
    profileSummary: string,
    compatibility: Option<string>)

  /** Every field is stripped. */
  predicate IsStripped(a: AuthorFields)
  {
    Strip(a.name) == a.name && Strip(a.title) == a.title && Strip(a.company) == a.company
    && Strip(a.linkedinProfile) == a.linkedinProfile && Strip(a.email) == a.email
    && Strip(a.profileSummary) == a.profileSummary
  }

  /** What validation makes of one entry: skipped, kept as a cleaned author, or an exception. */
  datatype Verdict = Skipped | Accepted(author: AuthorFields) | Raises

  /**
   * A dictionary whose name is a non-blank string is kept, each field
   * stripped; `.strip()` raises on a name that is not a string, and on any
   * other of the six fields that is not a string once the name is accepted.
   */
  function Validated(e: ListEntry): Verdict
  {
    match e
    case NonDict => Skipped
    case Dict(d) =>
      var name := StrippedGet(d, "name");
      if name.None? then Raises
      else if name.value == "" then Skipped
      else
        var title := StrippedGet(d, "title");
        var company := StrippedGet(d, "company");
        var profile := StrippedGet(d, "linkedin_profile");
        var email := StrippedGet(d, "email");
        var summary := StrippedGet(d, "profile_summary");
        if title.Some? && company.Some? && profile.Some? && email.Some? && summary.Some? then
          Accepted(AuthorFields(name.value, title.value, company.value, profile.value, email.value, summary.value, None))
        else Raises
  }

  predicate IsValidEntry(e: ListEntry) { Validated(e).Accepted? }

  function EntryAuthor(e: ListEntry): AuthorFields
  {
    if Validated(e).Accepted? then Validated(e).author else AuthorFields("", "", "", "", "", "", None)
  }

  /** The validated authors, in order, or None once `.strip()` has raised on an entry. */
  function ValidAuthors(entries: seq<ListEntry>): (r: Option<seq<AuthorFields>>)
    ensures r.Some? ==> |r.value| <= |entries|
  {
    if entries == [] then Some([])
    else
      var init := ValidAuthors(entries[..|entries| - 1]);
      match Validated(entries[|entries| - 1])
      case Raises => None
      case Skipped => init
      case Accepted(a) => if init.Some? then Some(init.value + [a]) else None
  }

  /**
   * The validation loop of `_extract_all_authors_with_ai` and the handler
   * around it: an entry on which `.strip()` raises ends the loop, and the
   * handler then returns no authors at all.
   */
  method ValidateAuthors(entries: seq<ListEntry>) returns (valid: seq<AuthorFields>)
    ensures ValidAuthors(entries).Some? ==> valid == ValidAuthors(entries).value
    ensures ValidAuthors(entries).None? ==> valid == []
  {
    valid := [];
    for i := 0 to |entries|
      invariant ValidAuthors(entries[..i]) == Some(valid)
    {
      assert entries[..i + 1][..i] == entries[..i];
      var author := entries[i];
      if author.Dict? {
        var d := author.fields;
        var name := StrippedGet(d, "name");
        if name.None? {
          RaiseIsFinal(entries, i + 1);
          return [];
        }
        if name.value != "" {
          var title := StrippedGet(d, "title");
          var company := StrippedGet(d, "company");
          var profile := StrippedGet(d, "linkedin_profile");
          var email := StrippedGet(d, "email");
          var summary := StrippedGet(d, "profile_summary");
          if title.None? || company.None? || profile.None? || email.None? || summary.None? {
            RaiseIsFinal(entries, i + 1);
            return [];
          }
          var clean := AuthorFields(name.value, title.value, company.value, profile.value, email.value,
                                    summary.value, None);
          valid := valid + [clean];
        }
      }
    }
    assert entries[..|entries|] == entries;
  }

  /** Once an entry has raised, the whole list is lost. */
  lemma {:induction false} RaiseIsFinal(entries: seq<ListEntry>, n: nat)
    requires n <= |entries| && ValidAuthors(entries[..n]).None?
    ensures ValidAuthors(entries).None?
    decreases |entries| - n
  {
    if n < |entries| {
      assert entries[..n + 1][..n] == entries[..n];
      RaiseIsFinal(entries, n + 1);
    } else {
      assert entries[..n] == entries;
    }
  }

  /** The list is lost exactly when `.strip()` raises on one of its entries. */
  lemma {:induction false} ValidAuthorsRaise(entries: seq<ListEntry>)
    ensures ValidAuthors(entries).None? <==> exists i :: 0 <= i < |entries| && Validated(entries[i]).Raises?
  {
    if entries != [] {
      var init := entries[..|entries| - 1];
      ValidAuthorsRaise(init);
      if exists i :: 0 <= i < |init| && Validated(init[i]).Raises? {
        var i :| 0 <= i < |init| && Validated(init[i]).Raises?;
        assert entries[i] == init[i];
      }
      if exists i :: 0 <= i < |entries| && Validated(entries[i]).Raises? {
        var i :| 0 <= i < |entries| && Validated(entries[i]).Raises?;
        if i < |init| {
          assert init[i] == entries[i];
        }
      }
    }
  }

  /** Otherwise the validated authors are the accepted entries, in order, each cleaned. */
  lemma {:induction false} ValidAuthorsAreFiltered(entries: seq<ListEntry>)
    ensures ValidAuthors(entries).Some? ==> ValidAuthors(entries).value == Map(Filter(entries, IsValidEntry), EntryAuthor)
  {
    if entries != [] {
      var init := entries[..|entries| - 1];
      ValidAuthorsAreFiltered(init);
      MapFilterSnoc(entries, IsValidEntry, EntryAuthor);
    }
  }

  /** An accepted entry has a name that is not blank and every field stripped, and no compatibility analysis. */
  lemma AcceptedIsClean(e: ListEntry)
    requires IsValidEntry(e)
    ensures EntryAuthor(e).name != "" && IsStripped(EntryAuthor(e)) && EntryAuthor(e).compatibility.None?
  {
    var d := e.fields;
    forall key ensures StrippedGet(d, key).Some? ==> Strip(StrippedGet(d, key).value) == StrippedGet(d, key).value {
      if key in d && d[key].Text? {
        StripIdempotent(d[key].text);
      }
    }
  }

  /** Each validated author has every field stripped, a name that is not blank and no compatibility analysis. */
  lemma {:induction false} ValidAuthorIsClean(entries: seq<ListEntry>, a: AuthorFields)
    requires ValidAuthors(entries).Some? && a in ValidAuthors(entries).value
    ensures a.name != "" && IsStripped(a) && a.compatibility.None?
  {
    var init := entries[..|entries| - 1];
    var last := entries[|entries| - 1];
    if ValidAuthors(init).Some? && a in ValidAuthors(init).value {
      ValidAuthorIsClean(init, a);
    } else {
      assert IsValidEntry(last) && a == EntryAuthor(last);
      AcceptedIsClean(last);
    }
  }

  /** Every accepted entry is kept, cleaned, unless the list is lost. */
  lemma {:induction false} ValidEntryIsKept(entries: seq<ListEntry>, e: ListEntry)
    requires e in entries && IsValidEntry(e) && ValidAuthors(entries).Some?
    ensures EntryAuthor(e) in ValidAuthors(entries).value
  {
    var init := entries[..|entries| - 1];
    if e != entries[|entries| - 1] {
      assert e in init;
      ValidEntryIsKept(init, e);
    }
  }

  lemma StripIdempotent(s: string)
    ensures Strip(Strip(s)) == Strip(s)
  {
    StripSlice(s);
    StripSlice(Strip(s));
  }

  // ---------------------------------------------------------------- name from a profile slug

  /** `re.sub(r'\d+', '', s)`. */
  function RemoveDigits(s: string): (r: string)
    ensures forall c :: c in r <==> c in s && !IsDigitChar(c)
  {
    if s == [] then []
    else
      var init := RemoveDigits(s[..|s| - 1]);
      var last := s[|s| - 1];
      assert s == s[..|s| - 1] + [last];
      init + if IsDigitChar(last) then [] else [last]
  }

  const ProfilePath: string := "linkedin.com/in/"

  /** The end of the run of characters other than `/` and `?` that starts at `i`. */
  function SegmentEnd(s: string, i: nat): (j: nat)
    requires i <= |s|
    ensures i <= j <= |s| && (j < |s| ==> s[j] == '/' || s[j] == '?')
    ensures forall k :: i <= k < j ==> s[k] != '/' && s[k] != '?'
    decreases |s| - i
  {
    if i < |s| && s[i] != '/' && s[i] != '?' then SegmentEnd(s, i + 1) else i
  }

  /** The group of `linkedin\.com/in/([^/?]+)`, searched from `p` on. */
  function ProfileSlugFrom(url: string, p: nat): (r: Option<string>)
    requires p <= |url|
    ensures r.Some? ==> r.value != [] && '/' !in r.value && '?' !in r.value
    decreases |url| - p
  {
    if OccursAt(url, ProfilePath, p) && SegmentEnd(url, p + |ProfilePath|) > p + |ProfilePath| then
      Some(url[p + |ProfilePath|..SegmentEnd(url, p + |ProfilePath|)])
    else if p == |url| then None
    else ProfileSlugFrom(url, p + 1)
  }

  /**
   * The name read from a profile URL: none for an activity URL; otherwise
   * the slug with dashes as spaces, in title case, without digits and
   * stripped, kept only when it has at least two words.
   */
  function SlugName(profileUrl: string): Option<string>
  {
    if Contains(profileUrl, "/recent-activity/") then None
    else
      match ProfileSlugFrom(profileUrl, 0)
      case None => None
      case Some(slug) =>
        var name := Strip(RemoveDigits(Title(Replace(slug, "-", " "))));
        if name != [] && |Words(name)| >= 2 then Some(name) else None
  }

  /**
   * A derived name has at least two words, no digits, no dashes, no `/`
   * and no `?`, and no surrounding whitespace; activity URLs give none.
   */
  lemma SlugNameSpec(profileUrl: string)
    ensures Contains(profileUrl, "/recent-activity/") ==> SlugName(profileUrl).None?
    ensures SlugName(profileUrl).Some? ==>
              var name := SlugName(profileUrl).value;
              && |Words(name)| >= 2 && name == Strip(name)
              && (forall c :: c in name ==> !IsDigitChar(c))
              && '-' !in name && '/' !in name && '?' !in name
  {
    if SlugName(profileUrl).Some? {
      var slug := ProfileSlugFrom(profileUrl, 0).value;
      var spaced := Replace(slug, "-", " ");
      ReplaceRemoves(slug, "-", " ");
      ReplaceKeepsAbsent(slug, "-", " ", '/');
      ReplaceKeepsAbsent(slug, "-", " ", '?');
      TitleKeepsNonLetters(spaced, '-');
      TitleKeepsNonLetters(spaced, '/');
      TitleKeepsNonLetters(spaced, '?');
      var bare := RemoveDigits(Title(spaced));
      StripKeepsAbsent(bare, '-');
      StripKeepsAbsent(bare, '/');
      StripKeepsAbsent(bare, '?');
      StripSlice(bare);
      forall c | c in Strip(bare) ensures !IsDigitChar(c) {
        var i :| 0 <= i < |Strip(bare)| && Strip(bare)[i] == c;
      }
      StripIdempotent(bare);
    }
  }

  // ---------------------------------------------------------------- choosing a profile among search results

  /** `author_name.lower().split()`. */
  function NameParts(authorName: string): seq<string>
  {
    Words(Lower(authorName))
  }

  /** A personal profile URL, not a company page. */
  predicate IsCandidate(url: string)
  {
    Contains(url, "linkedin.com/in/") && !Contains(url, "linkedin.com/company/")
  }

  /** Both the first and the last name occur in the URL. */
  predicate HasBothNames(url: string, parts: seq<string>)
  {
    |parts| >= 2 && Contains(Lower(url), parts[0]) && Contains(Lower(url), parts[|parts| - 1])
  }

  /** The last name occurs in the URL. */
  predicate HasLastName(url: string, parts: seq<string>)
  {
    |parts| >= 2 && Contains(Lower(url), parts[|parts| - 1])
  }

  /** Some part of the name occurs in the URL or in the lower-cased title. */
  predicate HasNamePart(r: Paper, parts: seq<string>)
  {
    exists k :: 0 <= k < |parts| && (Contains(Lower(r.url), parts[k]) || Contains(Lower(r.title), parts[k]))
  }

  /** The best match after looking at a candidate that is not a perfect match. */
  function NextBest(best: Option<string>, r: Paper, parts: seq<string>): Option<string>
  {
    var b := if HasLastName(r.url, parts) then Some(r.url) else best;
    if b.None? && HasNamePart(r, parts) then Some(r.url) else b
  }

  /** Strategy 1 over the remaining results, with the best match so far. */
  function SelectFrom(results: seq<Paper>, parts: seq<string>, best: Option<string>): Option<string>
  {
    if results == [] then best
    else
      var r := results[0];
      if IsCandidate(r.url) && HasBothNames(r.url, parts) then Some(r.url)
      else SelectFrom(results[1..], parts, if IsCandidate(r.url) then NextBest(best, r, parts) else best)
  }

  /** The profile strategy 1 of `_search_linkedin_via_web` settles on, if any. */
  function StrategyOne(authorName: string, results: seq<Paper>): Option<string>
  {
    SelectFrom(results, NameParts(authorName), None)
  }

  /** One step of the strategy 1 loop: whether the result is a perfect match, and the best match after it. */
  method ConsiderResult(r: Paper, parts: seq<string>, best: Option<string>) returns (perfect: bool, next: Option<string>)
    ensures perfect == (IsCandidate(r.url) && HasBothNames(r.url, parts))
    ensures !perfect ==> next == if IsCandidate(r.url) then NextBest(best, r, parts) else best
  {
    perfect := false;
    next := best;
    var url := r.url;
    if Contains(url, "linkedin.com/in/") && !Contains(url, "linkedin.com/company/") {
      var urlLower := Lower(url);
      if |parts| >= 2 {
        var first := parts[0];
        var last := parts[|parts| - 1];
        if Contains(urlLower, first) && Contains(urlLower, last) {
          perfect := true;
          return;
        } else if Contains(urlLower, last) {
          next := Some(url);
        }
      }
      if next.None? && HasNamePart(r, parts) {
        next := Some(url);
      }
    }
  }

  method SelectProfile(authorName: string, results: seq<Paper>) returns (found: Option<string>)
    ensures found == StrategyOne(authorName, results)
  {
    var parts := Words(Lower(authorName));
    var best: Option<string> := None;
    var i := 0;
    while i < |results|
      invariant 0 <= i <= |results|
      invariant SelectFrom(results[i..], parts, best) == StrategyOne(authorName, results)
    {
      assert results[i..][0] == results[i] && results[i..][1..] == results[i + 1..];
      var perfect, next := ConsiderResult(results[i], parts, best);
      if perfect {
        return Some(results[i].url);
      }
      best := next;
      i := i + 1;
    }
    found := best;
  }

  /** Whatever strategy 1 returns is the URL of a candidate among the results, or the match carried in. */
  lemma {:induction false} SelectFromIsCandidate(results: seq<Paper>, parts: seq<string>, best: Option<string>)
    requires SelectFrom(results, parts, best).Some?
    ensures SelectFrom(results, parts, best) == best
            || exists i :: 0 <= i < |results| && IsCandidate(results[i].url)
                           && SelectFrom(results, parts, best) == Some(results[i].url)
  {
    if results != [] {
      var r := results[0];
      if !(IsCandidate(r.url) && HasBothNames(r.url, parts)) {
        var next := if IsCandidate(r.url) then NextBest(best, r, parts) else best;
        SelectFromIsCandidate(results[1..], parts, next);
        if SelectFrom(results[1..], parts, next) != next {
          var i :| 0 <= i < |results[1..]| && IsCandidate(results[1..][i].url)
                   && SelectFrom(results[1..], parts, next) == Some(results[1..][i].url);
          assert results[i + 1] == results[1..][i];
        }
      }
    }
  }

  /** Strategy 1 only ever returns a personal profile URL from the results. */
  lemma StrategyOneIsCandidate(authorName: string, results: seq<Paper>)
    requires StrategyOne(authorName, results).Some?
    ensures exists i :: 0 <= i < |results| && IsCandidate(results[i].url)
                        && StrategyOne(authorName, results) == Some(results[i].url)
  {
    SelectFromIsCandidate(results, NameParts(authorName), None);
  }

  /** The first candidate with both names is returned at once. */
  lemma {:induction false} SelectFromPerfect(results: seq<Paper>, parts: seq<string>, best: Option<string>, i: nat)
    requires i < |results| && IsCandidate(results[i].url) && HasBothNames(results[i].url, parts)
    requires forall j :: 0 <= j < i ==> !(IsCandidate(results[j].url) && HasBothNames(results[j].url, parts))
    ensures SelectFrom(results, parts, best) == Some(results[i].url)
  {
    if i > 0 {
      var r := results[0];
      var next := if IsCandidate(r.url) then NextBest(best, r, parts) else best;
      assert !(IsCandidate(r.url) && HasBothNames(r.url, parts));
      assert results[1..][i - 1] == results[i];
      forall j | 0 <= j < i - 1
        ensures !(IsCandidate(results[1..][j].url) && HasBothNames(results[1..][j].url, parts))
      {
        assert results[1..][j] == results[j + 1];
      }
      SelectFromPerfect(results[1..], parts, next, i - 1);
    }
  }

  /** A candidate that is not a last-name match keeps a match already found. */
  lemma {:induction false} SelectFromKeeps(results: seq<Paper>, parts: seq<string>, best: Option<string>)
    requires best.Some?
    requires forall j :: 0 <= j < |results| ==> !(IsCandidate(results[j].url) && HasLastName(results[j].url, parts))
    ensures SelectFrom(results, parts, best) == best
  {
    if results != [] {
      assert !(IsCandidate(results[0].url) && HasLastName(results[0].url, parts));
      forall j | 0 <= j < |results[1..]|
        ensures !(IsCandidate(results[1..][j].url) && HasLastName(results[1..][j].url, parts))
      {
        assert results[1..][j] == results[j + 1];
      }
      SelectFromKeeps(results[1..], parts, best);
    }
  }

  /** Without a perfect match, the last candidate whose URL has the last name wins. */
  lemma {:induction false} SelectFromLastName(results: seq<Paper>, parts: seq<string>, best: Option<string>, i: nat)
    requires i < |results| && IsCandidate(results[i].url) && HasLastName(results[i].url, parts)
    requires forall j :: 0 <= j < |results| ==> !(IsCandidate(results[j].url) && HasBothNames(results[j].url, parts))
    requires forall j :: i < j < |results| ==> !(IsCandidate(results[j].url) && HasLastName(results[j].url, parts))
    ensures SelectFrom(results, parts, best) == Some(results[i].url)
  {
    var r := results[0];
    var next := if IsCandidate(r.url) then NextBest(best, r, parts) else best;
    assert !(IsCandidate(r.url) && HasBothNames(r.url, parts));
    assert SelectFrom(results, parts, best) == SelectFrom(results[1..], parts, next);
    forall j | 0 <= j < |results[1..]|
      ensures !(IsCandidate(results[1..][j].url) && HasBothNames(results[1..][j].url, parts))
    {
      assert results[1..][j] == results[j + 1];
    }
    if i == 0 {
      assert next == Some(r.url);
      forall j | 0 <= j < |results[1..]|
        ensures !(IsCandidate(results[1..][j].url) && HasLastName(results[1..][j].url, parts))
      {
        assert results[1..][j] == results[j + 1];
      }
      SelectFromKeeps(results[1..], parts, next);
    } else {
      assert results[1..][i - 1] == results[i];
      forall j | i - 1 < j < |results[1..]|
        ensures !(IsCandidate(results[1..][j].url) && HasLastName(results[1..][j].url, parts))
      {
        assert results[1..][j] == results[j + 1];
      }
      SelectFromLastName(results[1..], parts, next, i - 1);
    }
  }

  /** Without any last-name match, the first candidate that mentions part of the name wins. */
  lemma {:induction false} SelectFromNamePart(results: seq<Paper>, parts: seq<string>, i: nat)
    requires i < |results| && IsCandidate(results[i].url) && HasNamePart(results[i], parts)
    requires forall j :: 0 <= j < |results| ==> !(IsCandidate(results[j].url) && HasLastName(results[j].url, parts))
    requires forall j :: 0 <= j < i ==> !(IsCandidate(results[j].url) && HasNamePart(results[j], parts))
    ensures SelectFrom(results, parts, None) == Some(results[i].url)
  {
    var r := results[0];
    assert !(IsCandidate(r.url) && HasLastName(r.url, parts));
    forall j | 0 <= j < |results[1..]|
      ensures !(IsCandidate(results[1..][j].url) && HasLastName(results[1..][j].url, parts))
    {
      assert results[1..][j] == results[j + 1];
    }
    if i == 0 {
      SelectFromKeeps(results[1..], parts, Some(r.url));
    } else {
      var next := if IsCandidate(r.url) then NextBest(None, r, parts) else None;
      assert next == None;
      assert results[1..][i - 1] == results[i];
      forall j | 0 <= j < i - 1
        ensures !(IsCandidate(results[1..][j].url) && HasNamePart(results[1..][j], parts))
      {
        assert results[1..][j] == results[j + 1];
      }
      SelectFromNamePart(results[1..], parts, i - 1);
    }
  }

  /**
   * The three rules of strategy 1 from the start: the first perfect match;
   * else the last candidate with the last name; else the first candidate
   * that mentions part of the name.
   */
  lemma StrategyOneRules(authorName: string, results: seq<Paper>, i: nat)
    requires i < |results|
    ensures var parts := NameParts(authorName);
            IsCandidate(results[i].url) && HasBothNames(results[i].url, parts)
            && (forall j :: 0 <= j < i ==> !(IsCandidate(results[j].url) && HasBothNames(results[j].url, parts)))
            ==> StrategyOne(authorName, results) == Some(results[i].url)
    ensures var parts := NameParts(authorName);
            IsCandidate(results[i].url) && HasLastName(results[i].url, parts)
            && (forall j :: 0 <= j < |results| ==> !(IsCandidate(results[j].url) && HasBothNames(results[j].url, parts)))
            && (forall j :: i < j < |results| ==> !(IsCandidate(results[j].url) && HasLastName(results[j].url, parts)))
            ==> StrategyOne(authorName, results) == Some(results[i].url)
    ensures var parts := NameParts(authorName);
            IsCandidate(results[i].url) && HasNamePart(results[i], parts)
            && (forall j :: 0 <= j < |results| ==> !(IsCandidate(results[j].url) && HasLastName(results[j].url, parts)))
            && (forall j :: 0 <= j < i ==> !(IsCandidate(results[j].url) && HasNamePart(results[j], parts)))
            ==> StrategyOne(authorName, results) == Some(results[i].url)
  {
    var parts := NameParts(authorName);
    if IsCandidate(results[i].url) && HasBothNames(results[i].url, parts)
       && (forall j :: 0 <= j < i ==> !(IsCandidate(results[j].url) && HasBothNames(results[j].url, parts))) {
      SelectFromPerfect(results, parts, None, i);
    }
    if IsCandidate(results[i].url) && HasLastName(results[i].url, parts)
       && (forall j :: 0 <= j < |results| ==> !(IsCandidate(results[j].url) && HasBothNames(results[j].url, parts)))
       && (forall j :: i < j < |results| ==> !(IsCandidate(results[j].url) && HasLastName(results[j].url, parts))) {
      SelectFromLastName(results, parts, None, i);
    }
    if IsCandidate(results[i].url) && HasNamePart(results[i], parts)
       && (forall j :: 0 <= j < |results| ==> !(IsCandidate(results[j].url) && HasLastName(results[j].url, parts)))
       && (forall j :: 0 <= j < i ==> !(IsCandidate(results[j].url) && HasNamePart(results[j], parts))) {
      SelectFromNamePart(results, parts, i);
    }
  }

  // ---------------------------------------------------------------- individual author check

  /**
   * `_is_individual_author`. `answer` is the model's reply, or `None` when
   * the model call fails.
   */
  function IsIndividualAuthor(name: string, answer: Option<string>): bool
  {
    if name == [] || |Strip(name)| < 2 then false
    else
      match answer
      case Some(reply) => Lower(Strip(reply)) == "true"
      case None => |Words(name)| >= 2 && IsAlpha(Replace(name, " ", ""))
  }

  /**
   * A name of fewer than two non-blank characters is never an individual;
   * otherwise the reply decides, and it must be "true" up to case and
   * surrounding whitespace.
   */
  lemma IsIndividualAuthorReply(name: string, reply: string)
    ensures IsIndividualAuthor(name, Some(reply)) <==> |Strip(name)| >= 2 && Lower(Strip(reply)) == "true"
  {
    if name == [] {
      assert Strip(name) == [];
    }
  }

  /** Without a reply, an accepted name has two or more words made of letters and plain spaces only. */
  lemma IsIndividualAuthorFallback(name: string)
    requires IsIndividualAuthor(name, None)
    ensures |Words(name)| >= 2 && |Strip(name)| >= 2
    ensures forall i :: 0 <= i < |name| ==> name[i] == ' ' || IsLetter(name[i])
  {
    var bare := Replace(name, " ", "");
    forall i | 0 <= i < |name| ensures name[i] == ' ' || IsLetter(name[i]) {
      ReplaceDeletes(name, " ", name[i]);
      if name[i] != ' ' {
        var j :| 0 <= j < |bare| && bare[j] == name[i];
      }
    }
  }

  // ---------------------------------------------------------------- extract_author_info

  /** The authors to process: the validated list, or else the single-author result when it has a name. */
  function Candidates(valid: seq<AuthorFields>, single: AuthorFields): seq<AuthorFields>
  {
    if valid != [] then valid
    else if single.name != "" then [single]
    else []
  }

  /**
   * One accepted author: a missing or "not found" profile is replaced by
   * what the profile search finds, unless that is empty or "not found"; the
   * source site is recorded and the author marked individual.
   */
  function ProcessAuthor(a: AuthorFields, search: (string, string, string) -> string, source: string): (r: Author)
    ensures r.isIndividual && r.source == source && r.name == a.name
  {
    var profile := a.linkedinProfile;
    var found := search(a.name, a.company, a.title);
    var linked :=
      if (profile == "" || profile == "not found") && Strip(a.name) != "" && found != "" && found != "not found"
      then found else profile;
    Author(a.name, a.title, a.company, linked, a.email, a.profileSummary, a.compatibility, source, true)
  }

  /** A profile already known is kept; a replacement is always a real search result. */
  lemma ProcessAuthorProfile(a: AuthorFields, search: (string, string, string) -> string, source: string)
    ensures var r := ProcessAuthor(a, search, source);
            var profile := a.linkedinProfile;
            && (profile != "" && profile != "not found" ==> r.linkedinProfile == profile)
            && (r.linkedinProfile != profile ==>
                  r.linkedinProfile == search(a.name, a.company, a.title)
                  && r.linkedinProfile != "" && r.linkedinProfile != "not found")
  {
  }

  /** The author is kept when it has a name that the individual check accepts. */
  predicate IsAccepted(a: AuthorFields, isIndividual: string -> bool)
  {
    a.name != "" && isIndividual(a.name)
  }

  /** The processed authors, in order. */
  function ProcessedAuthors(cands: seq<AuthorFields>, isIndividual: string -> bool,
                            search: (string, string, string) -> string, source: string): seq<Author>
  {
    if cands == [] then []
    else
      var last := cands[|cands| - 1];
      ProcessedAuthors(cands[..|cands| - 1], isIndividual, search, source)
        + if IsAccepted(last, isIndividual) then [ProcessAuthor(last, search, source)] else []
  }

  /** The processing loop of `extract_author_info`. */
  method ProcessAuthors(cands: seq<AuthorFields>, isIndividual: string -> bool,
                        search: (string, string, string) -> string, source: string)
    returns (processed: seq<Author>)
    ensures processed == ProcessedAuthors(cands, isIndividual, search, source)
  {
    processed := [];
    for i := 0 to |cands|
      invariant processed == ProcessedAuthors(cands[..i], isIndividual, search, source)
    {
      assert cands[..i + 1][..i] == cands[..i];
      var authorName := cands[i].name;
      if authorName != "" && isIndividual(authorName) {
        processed := processed + [ProcessAuthor(cands[i], search, source)];
      }
    }
    assert cands[..|cands|] == cands;
  }

  /** The processed authors are the accepted candidates, in order, each processed. */
  lemma {:induction false} ProcessedAuthorsAreFiltered(cands: seq<AuthorFields>, isIndividual: string -> bool,
                                                       search: (string, string, string) -> string, source: string)
    ensures ProcessedAuthors(cands, isIndividual, search, source)
            == Map(Filter(cands, a => IsAccepted(a, isIndividual)), a => ProcessAuthor(a, search, source))
  {
    if cands != [] {
      var init := cands[..|cands| - 1];
      var last := cands[|cands| - 1];
      var keep := a => IsAccepted(a, isIndividual);
      var process := a => ProcessAuthor(a, search, source);
      ProcessedAuthorsAreFiltered(init, isIndividual, search, source);
      MapFilterSnoc(cands, keep, process);
    }
  }

  /** The record returned when no author is accepted. */
  function EmptyAuthor(source: string): Author
  {
    Author("", "", "", "", "", "", None, source, false)
  }

  /**
   * `extract_author_info` after the page has been read and the model has
   * answered: `valid` is the validated list, `single` the single-author
   * result, `isIndividual` the model's verdict on a name, `search` the
   * profile search and `host` the page's network location.
   */
  function ExtractAuthorInfo(valid: seq<AuthorFields>, single: AuthorFields,
                             isIndividual: string -> bool, search: (string, string, string) -> string,
                             host: string): AuthorInfo
  {
    var processed := ProcessedAuthors(Candidates(valid, single), isIndividual, search, Lower(host));
    if processed != [] then AuthorInfo(processed[0], processed)
    else AuthorInfo(EmptyAuthor(Lower(host)), [])
  }

  /**
   * The result is the first accepted author with the list of all of them,
   * each individual, named, from the page's site; or, when none is
   * accepted, the empty record marked not individual with an empty list.
   */
  lemma ExtractAuthorInfoShape(valid: seq<AuthorFields>, single: AuthorFields,
                               isIndividual: string -> bool, search: (string, string, string) -> string, host: string)
    ensures var r := ExtractAuthorInfo(valid, single, isIndividual, search, host);
            && (r.allAuthors == [] <==> !r.author.isIndividual)
            && (r.allAuthors == [] ==> r.author == EmptyAuthor(Lower(host)))
            && (r.allAuthors != [] ==> r.author == r.allAuthors[0])
            && |r.allAuthors| <= |Candidates(valid, single)|
            && r.author.source == Lower(host)
            && WellFormedInfo(r)
            && forall a :: a in r.allAuthors ==>
                 a.isIndividual && a.source == Lower(host) && a.name != "" && isIndividual(a.name)
  {
    var cands := Candidates(valid, single);
    var keep := a => IsAccepted(a, isIndividual);
    var process := a => ProcessAuthor(a, search, Lower(host));
    ProcessedAuthorsAreFiltered(cands, isIndividual, search, Lower(host));
    var kept := Filter(cands, keep);
    forall a | a in ProcessedAuthors(cands, isIndividual, search, Lower(host))
      ensures a.isIndividual && a.source == Lower(host) && a.name != "" && isIndividual(a.name)
    {
      var i :| 0 <= i < |kept| && a == process(kept[i]);
      FilterMembers(cands, keep, kept[i]);
    }
  }

  /**
   * A compatibility analysis reaches the result only from the single-author
   * extraction: the validated authors carry none, so the result has one
   * only when the validated list was empty, and then it is the single
   * result's, once that author is accepted.
   */
  lemma ExtractAuthorInfoCompatibility(valid: seq<AuthorFields>, single: AuthorFields,
                                       isIndividual: string -> bool, search: (string, string, string) -> string,
                                       host: string)
    requires forall a :: a in valid ==> a.compatibility.None?
    ensures var r := ExtractAuthorInfo(valid, single, isIndividual, search, host);
            && (valid != [] || r.allAuthors == [] ==> r.author.compatibility.None?)
            && (valid == [] && r.allAuthors != [] ==> r.author.compatibility == single.compatibility)
  {
    var cands := Candidates(valid, single);
    var keep := a => IsAccepted(a, isIndividual);
    var process := a => ProcessAuthor(a, search, Lower(host));
    ProcessedAuthorsAreFiltered(cands, isIndividual, search, Lower(host));
    var kept := Filter(cands, keep);
    if kept != [] {
      FilterMembers(cands, keep, kept[0]);
      assert ProcessedAuthors(cands, isIndividual, search, Lower(host))[0] == process(kept[0]);
    }
  }
}
