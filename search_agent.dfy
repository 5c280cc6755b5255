/**
 * The search agent's deterministic parts: cutting a publication name off a
 * result title, keeping the useful page metadata, cutting the author's
 * company off a title, and ranking results by business keywords.
 *
 * The suffix regexes are written out as predicates saying where they match;
 * `re.search` is the leftmost position at which they do.
 */
module SearchAgent {
  import opened Wrappers
  import opened Strings
  import opened Records
  import StableSort

  // ---------------------------------------------------------------- publication suffixes

  /** `\s*SEP\s*[A-Z][A-Za-z\s&\.]+$` for a separator, or `\s*\([A-Z][A-Za-z\s&\.]+\)$`. */
  datatype SuffixPattern = Separated(sep: string) | Parenthesized

  const PublicationPatterns: seq<SuffixPattern> := [Separated("|"), Separated("-"), Separated("::"), Parenthesized]

  /** The character class `[A-Za-z\s&\.]`. */
  predicate IsPublicationChar(c: char)
  {
    IsLetter(c) || IsSpace(c) || c == '&' || c == '.'
  }

  /** The end of the whitespace run that starts at `i`. */
  function SkipSpace(s: string, i: nat): (j: nat)
    requires i <= |s|
    ensures i <= j <= |s| && (j < |s| ==> !IsSpace(s[j]))
    ensures forall k :: i <= k < j ==> IsSpace(s[k])
    decreases |s| - i
  {
    if i < |s| && IsSpace(s[i]) then SkipSpace(s, i + 1) else i
  }

  /**
   * The pattern matches all of `s[p..]`. Each `\s*` stands before a
   * character that is not whitespace, so it takes the whole run.
   */
  predicate PublicationMatchAt(s: string, p: nat, pat: SuffixPattern)
    requires p <= |s|
  {
    var i := SkipSpace(s, p);
    match pat
    case Separated(sep) =>
      i + |sep| <= |s| && s[i..i + |sep|] == sep
      && var j := SkipSpace(s, i + |sep|);
         j + 1 < |s| && IsUpperChar(s[j]) && forall k :: j < k < |s| ==> IsPublicationChar(s[k])
    case Parenthesized =>
      i + 3 < |s| && s[i] == '(' && IsUpperChar(s[i + 1]) && s[|s| - 1] == ')'
      && forall k :: i + 1 < k < |s| - 1 ==> IsPublicationChar(s[k])
  }

  /** `re.search`: the leftmost position, from `p` on, where the pattern matches. */
  function LeftmostFrom(s: string, pat: SuffixPattern, p: nat): (r: Option<nat>)
    requires p <= |s|
    ensures r.Some? ==> p <= r.value <= |s| && PublicationMatchAt(s, r.value, pat)
    decreases |s| - p
  {
    if PublicationMatchAt(s, p, pat) then Some(p)
    else if p == |s| then None
    else LeftmostFrom(s, pat, p + 1)
  }

  /** No position before the one found (or none at all) matches. */
  lemma {:induction false} LeftmostFromIsLeftmost(s: string, pat: SuffixPattern, p: nat, q: nat)
    requires p <= q <= |s|
    requires LeftmostFrom(s, pat, p).None? || q < LeftmostFrom(s, pat, p).value
    ensures !PublicationMatchAt(s, q, pat)
    decreases q - p
  {
    if q > p && !PublicationMatchAt(s, p, pat) {
      assert LeftmostFrom(s, pat, p) == LeftmostFrom(s, pat, p + 1);
      LeftmostFromIsLeftmost(s, pat, p + 1, q);
    }
  }

  /** The separator characters `[\|\-::\(\)]` a suffix may start with. */
  const SuffixLeads: set<char> := {'|', '-', ':', '(', ')'}

  /** `re.sub(r'^[\|\-::\(\)]\s*', '', suffix).strip('()')` of the stripped match. */
  function PotentialPublication(s: string, p: nat): string
    requires p <= |s|
  {
    var suffix := Strip(s[p..]);
    var rest := if suffix != [] && suffix[0] in SuffixLeads then LStrip(suffix[1..]) else suffix;
    StripChars(rest, {'(', ')'})
  }

  const KnownPublications: seq<string> := [
    "IBM", "CIO", "Forbes", "Reuters", "Bloomberg", "Wired", "LinkedIn", "Medium",
    "Nature", "Science", "IEEE", "ACM", "McKinsey", "Deloitte", "PwC",
    "Gartner", "Forrester", "IDC", "Harvard Business Review", "MIT Technology Review"]

  const PublicationKeywords: seq<string> := [
    "magazine", "review", "journal", "news", "times", "post", "blog",
    "research", "institute", "university", "press", "media", "network",
    "today", "weekly", "daily", "online", "digital", "tech", "business"]

  /** At most six words, and a known name, a publication word, all capitals or an `&`. */
  predicate LooksLikePublication(pub: string)
  {
    |Words(pub)| <= 6
    && (ContainsAny(pub, KnownPublications) || ContainsAny(Lower(pub), PublicationKeywords)
        || IsUpper(pub) || '&' in pub)
  }

  /** Whether the pattern's leftmost match is accepted as a publication name. */
  predicate Accepted(s: string, pat: SuffixPattern)
  {
    var m := LeftmostFrom(s, pat, 0);
    m.Some? && LooksLikePublication(PotentialPublication(s, m.value))
  }

  /** Where the title is cut: the leftmost match of the first pattern whose candidate is accepted. */
  function RemovalPoint(s: string, pats: seq<SuffixPattern>): (r: Option<nat>)
    ensures r.Some? ==> r.value <= |s|
    ensures r.Some? ==> exists k :: 0 <= k < |pats| && Accepted(s, pats[k]) && r == LeftmostFrom(s, pats[k], 0)
  {
    if pats == [] then None
    else if Accepted(s, pats[0]) then LeftmostFrom(s, pats[0], 0)
    else
      var r := RemovalPoint(s, pats[1..]);
      if r.Some? then
        var k :| 0 <= k < |pats[1..]| && Accepted(s, pats[1..][k]) && r == LeftmostFrom(s, pats[1..][k], 0);
        assert pats[k + 1] == pats[1..][k];
        r
      else r
  }

  /** `_clean_paper_title`. */
  function CleanTitle(title: string): string
  {
    if title == [] then title
    else
      var t := Strip(title);
      match RemovalPoint(t, PublicationPatterns)
      case None => t
      case Some(p) => Strip(t[..p])
  }

  method CleanPaperTitle(title: string) returns (cleaned: string)
    ensures cleaned == CleanTitle(title)
  {
    if title == [] {
      return title;
    }
    cleaned := Strip(title);
    var k := 0;
    while k < |PublicationPatterns|
      invariant 0 <= k <= |PublicationPatterns|
      invariant cleaned == Strip(title)
      invariant RemovalPoint(cleaned, PublicationPatterns[k..]) == RemovalPoint(cleaned, PublicationPatterns)
    {
      RemovalPointStep(cleaned, PublicationPatterns, k);
      var m := LeftmostFrom(cleaned, PublicationPatterns[k], 0);
      if m.Some? && LooksLikePublication(PotentialPublication(cleaned, m.value)) {
        assert RemovalPoint(cleaned, PublicationPatterns) == m;
        cleaned := Strip(cleaned[..m.value]);
        return;
      }
      k := k + 1;
    }
    assert PublicationPatterns[k..] == [];
  }

  /** The search from the `k`-th pattern on: that pattern's cut if accepted, else the search from the next. */
  lemma RemovalPointStep(s: string, pats: seq<SuffixPattern>, k: nat)
    requires k < |pats|
    ensures RemovalPoint(s, pats[k..])
            == if Accepted(s, pats[k]) then LeftmostFrom(s, pats[k], 0) else RemovalPoint(s, pats[k + 1..])
  {
    assert pats[k..][0] == pats[k];
    assert pats[k..][1..] == pats[k + 1..];
  }

  /** No cut is made iff no pattern's leftmost match is accepted. */
  lemma {:induction false} RemovalPointNone(s: string, pats: seq<SuffixPattern>)
    ensures RemovalPoint(s, pats).None? <==> forall k :: 0 <= k < |pats| ==> !Accepted(s, pats[k])
  {
    if pats != [] {
      RemovalPointNone(s, pats[1..]);
      assert forall k :: 1 <= k < |pats| ==> pats[k] == pats[1..][k - 1];
    }
  }

  /** The cut is the leftmost match of the first pattern whose match is accepted. */
  lemma {:induction false} RemovalPointFirst(s: string, pats: seq<SuffixPattern>, k: nat)
    requires k < |pats| && Accepted(s, pats[k])
    requires forall l :: 0 <= l < k ==> !Accepted(s, pats[l])
    ensures RemovalPoint(s, pats) == LeftmostFrom(s, pats[k], 0)
  {
    if k > 0 {
      var tail := pats[1..];
      assert !Accepted(s, pats[0]);
      assert RemovalPoint(s, pats) == RemovalPoint(s, tail);
      assert tail[k - 1] == pats[k];
      forall l | 0 <= l < k - 1
        ensures !Accepted(s, tail[l])
      {
        assert tail[l] == pats[l + 1];
      }
      RemovalPointFirst(s, tail, k - 1);
    }
  }

  /** A text without leading whitespace keeps its start under `strip`. */
  lemma StripOfPrefix(t: string, p: nat)
    requires p <= |t| && (t == [] || !IsSpace(t[0]))
    ensures StartsWith(t, Strip(t[..p]))
  {
    var u := t[..p];
    assert LStrip(u) == u;
    RStripPrefix(u);
  }

  /** A non-empty title is cut to a prefix of its stripped self: only a suffix is ever removed. */
  lemma CleanTitleIsPrefix(title: string)
    ensures title == [] ==> CleanTitle(title) == []
    ensures title != [] ==> StartsWith(Strip(title), CleanTitle(title))
  {
    if title != [] {
      var t := Strip(title);
      match RemovalPoint(t, PublicationPatterns)
      case None =>
        assert t[..|t|] == t;
      case Some(p) =>
        StripOfPrefix(t, p);
    }
  }

  // ---------------------------------------------------------------- page metadata

  /** The metatags of a page map: `None` when missing or not a list. */
  type MetaTags = Option<seq<map<string, string>>>

  /** The keys `_extract_useful_metadata` can produce. */
  const UsefulKeys: set<string> := {"author", "author_url", "published_date", "description", "reading_time", "site_name"}

  /** Copy `meta[from]` to `to` when present. */
  function CopyIf(r: map<string, string>, meta: map<string, string>, from: string, to: string): map<string, string>
  {
    if from in meta then r[to := meta[from]] else r
  }

  /** The useful entries of one metatags dictionary. */
  function MetadataOf(meta: map<string, string>): map<string, string>
  {
    var r1 := CopyIf(CopyIf(map[], meta, "author", "author"), meta, "article:author", "author_url");
    var r2 := if "article:published_time" in meta then r1["published_date" := meta["article:published_time"]]
              else CopyIf(r1, meta, "dcterms.date", "published_date");
    var r3 := if "og:description" in meta then r2["description" := meta["og:description"]]
              else CopyIf(r2, meta, "twitter:description", "description");
    var r4 := if "twitter:data1" in meta && Contains(Lower(meta["twitter:data1"]), "read")
              then r3["reading_time" := meta["twitter:data1"]] else r3;
    CopyIf(r4, meta, "og:site_name", "site_name")
  }

  /** `_extract_useful_metadata`: reads only the first metatags entry. */
  function UsefulMetadata(metatags: MetaTags): (r: map<string, string>)
    ensures metatags.None? || metatags.value == [] ==> r == map[]
  {
    if metatags.None? || metatags.value == [] then map[] else MetadataOf(metatags.value[0])
  }

  /** Only the first entry is read: later entries never change the result. */
  lemma UsefulMetadataFirstOnly(metatags: seq<map<string, string>>, later: seq<map<string, string>>)
    requires metatags != []
    ensures UsefulMetadata(Some(metatags + later)) == UsefulMetadata(Some([metatags[0]]))
  {
    assert (metatags + later)[0] == metatags[0];
  }

  /** The result has only the six useful keys, and every value is copied from the entry. */
  lemma MetadataOfKeys(meta: map<string, string>)
    ensures MetadataOf(meta).Keys <= UsefulKeys
    ensures forall k :: k in MetadataOf(meta) ==> MetadataOf(meta)[k] in meta.Values
  {
  }

  /** The author and its page, and the site name, are copied under their new names when present. */
  lemma MetadataOfRenames(meta: map<string, string>)
    ensures "author" in MetadataOf(meta) <==> "author" in meta
    ensures "author" in meta ==> MetadataOf(meta)["author"] == meta["author"]
    ensures "author_url" in MetadataOf(meta) <==> "article:author" in meta
    ensures "article:author" in meta ==> MetadataOf(meta)["author_url"] == meta["article:author"]
    ensures "site_name" in MetadataOf(meta) <==> "og:site_name" in meta
    ensures "og:site_name" in meta ==> MetadataOf(meta)["site_name"] == meta["og:site_name"]
  {
  }

  /** The article's published time wins over `dcterms.date`. */
  lemma MetadataOfPublished(meta: map<string, string>)
    ensures "published_date" in MetadataOf(meta) <==> "article:published_time" in meta || "dcterms.date" in meta
    ensures "article:published_time" in meta ==> MetadataOf(meta)["published_date"] == meta["article:published_time"]
    ensures "article:published_time" !in meta && "dcterms.date" in meta ==>
              MetadataOf(meta)["published_date"] == meta["dcterms.date"]
  {
  }

  /** The Open Graph description wins over Twitter's. */
  lemma MetadataOfDescription(meta: map<string, string>)
    ensures "description" in MetadataOf(meta) <==> "og:description" in meta || "twitter:description" in meta
    ensures "og:description" in meta ==> MetadataOf(meta)["description"] == meta["og:description"]
    ensures "og:description" !in meta && "twitter:description" in meta ==>
              MetadataOf(meta)["description"] == meta["twitter:description"]
  {
  }

  /** Twitter's first data field is a reading time only when it mentions "read". */
  lemma MetadataOfReadingTime(meta: map<string, string>)
    ensures "reading_time" in MetadataOf(meta) <==> "twitter:data1" in meta && Contains(Lower(meta["twitter:data1"]), "read")
    ensures "reading_time" in MetadataOf(meta) ==> MetadataOf(meta)["reading_time"] == meta["twitter:data1"]
  {
  }

  // ---------------------------------------------------------------- company suffix

  /** `\s*SEP\s*{company}\s*$` or `\s*\({company}\)\s*$`, ignoring case. */
  datatype CompanyPattern = CompanySeparated(sep: string) | CompanyParenthesized

  const CompanyPatterns: seq<CompanyPattern> :=
    [CompanySeparated("|"), CompanySeparated("-"), CompanySeparated("::"), CompanyParenthesized]

  /** `s[a..a+|t|]` equals `t` ignoring case. */
  predicate OccursAtIgnoringCase(s: string, t: string, a: nat)
  {
    a + |t| <= |s| && Lower(s[a..a + |t|]) == Lower(t)
  }

  /** The pattern for the (stripped, non-empty) company matches all of `s[p..]`. */
  predicate CompanyMatchAt(s: string, p: nat, pat: CompanyPattern, company: string)
    requires p <= |s|
  {
    var i := SkipSpace(s, p);
    match pat
    case CompanySeparated(sep) =>
      i + |sep| <= |s| && s[i..i + |sep|] == sep
      && var j := SkipSpace(s, i + |sep|);
         OccursAtIgnoringCase(s, company, j) && AllSpace(s[j + |company|..])
    case CompanyParenthesized =>
      i < |s| && s[i] == '(' && OccursAtIgnoringCase(s, company, i + 1)
      && i + 1 + |company| < |s| && s[i + 1 + |company|] == ')' && AllSpace(s[i + 2 + |company|..])
  }

  function CompanyLeftmostFrom(s: string, pat: CompanyPattern, company: string, p: nat): (r: Option<nat>)
    requires p <= |s|
    ensures r.Some? ==> p <= r.value <= |s| && CompanyMatchAt(s, r.value, pat, company)
    decreases |s| - p
  {
    if CompanyMatchAt(s, p, pat, company) then Some(p)
    else if p == |s| then None
    else CompanyLeftmostFrom(s, pat, company, p + 1)
  }

  /** The first pattern that matches anywhere gives the cut. */
  function CompanyCut(s: string, pats: seq<CompanyPattern>, company: string): (r: Option<nat>)
    ensures r.Some? ==> r.value <= |s| && exists k :: 0 <= k < |pats| && CompanyMatchAt(s, r.value, pats[k], company)
  {
    if pats == [] then None
    else
      match CompanyLeftmostFrom(s, pats[0], company, 0)
      case Some(p) => Some(p)
      case None =>
        var r := CompanyCut(s, pats[1..], company);
        if r.Some? then
          var k :| 0 <= k < |pats[1..]| && CompanyMatchAt(s, r.value, pats[1..][k], company);
          assert pats[k + 1] == pats[1..][k];
          r
        else r
  }

  /** No position before the one found (or none at all) matches the company pattern. */
  lemma {:induction false} CompanyLeftmostFromIsLeftmost(s: string, pat: CompanyPattern, company: string, p: nat, q: nat)
    requires p <= q <= |s|
    requires CompanyLeftmostFrom(s, pat, company, p).None? || q < CompanyLeftmostFrom(s, pat, company, p).value
    ensures !CompanyMatchAt(s, q, pat, company)
    decreases q - p
  {
    if q > p && !CompanyMatchAt(s, p, pat, company) {
      assert CompanyLeftmostFrom(s, pat, company, p) == CompanyLeftmostFrom(s, pat, company, p + 1);
      CompanyLeftmostFromIsLeftmost(s, pat, company, p + 1, q);
    }
  }

  /** No cut is made iff no pattern matches at any position. */
  lemma {:induction false} CompanyCutNone(s: string, pats: seq<CompanyPattern>, company: string)
    ensures CompanyCut(s, pats, company).None?
            <==> forall k, p :: 0 <= k < |pats| && 0 <= p <= |s| ==> !CompanyMatchAt(s, p, pats[k], company)
  {
    if pats != [] {
      CompanyCutNone(s, pats[1..], company);
      assert forall k :: 1 <= k < |pats| ==> pats[k] == pats[1..][k - 1];
      if CompanyLeftmostFrom(s, pats[0], company, 0).None? {
        forall p | 0 <= p <= |s|
          ensures !CompanyMatchAt(s, p, pats[0], company)
        {
          CompanyLeftmostFromIsLeftmost(s, pats[0], company, 0, p);
        }
      }
    }
  }

  /**
   * Pattern `k` matches at `p`, no earlier pattern matches anywhere, and `p`
   * is pattern `k`'s leftmost match.
   */
  predicate FirstCutBy(s: string, pats: seq<CompanyPattern>, company: string, p: nat, k: nat)
    requires p <= |s| && k < |pats|
  {
    CompanyMatchAt(s, p, pats[k], company)
    && (forall l, q :: 0 <= l < k && 0 <= q <= |s| ==> !CompanyMatchAt(s, q, pats[l], company))
    && (forall q :: 0 <= q < p ==> !CompanyMatchAt(s, q, pats[k], company))
  }

  /** A first cut in the tail is a first cut of the whole list when the head never matches. */
  lemma FirstCutByCons(s: string, pats: seq<CompanyPattern>, company: string, p: nat, k: nat)
    requires pats != [] && p <= |s| && k < |pats| - 1
    requires forall q :: 0 <= q <= |s| ==> !CompanyMatchAt(s, q, pats[0], company)
    requires FirstCutBy(s, pats[1..], company, p, k)
    ensures FirstCutBy(s, pats, company, p, k + 1)
  {
    var tail := pats[1..];
    assert tail[k] == pats[k + 1];
    forall l, q | 0 <= l < k + 1 && 0 <= q <= |s|
      ensures !CompanyMatchAt(s, q, pats[l], company)
    {
      if l > 0 {
        assert pats[l] == tail[l - 1];
      }
    }
  }

  /**
   * A cut is the leftmost match of the first pattern that matches anywhere:
   * the `break` after the first `re.search` that succeeds, and `re.sub`'s
   * leftmost match.
   */
  lemma {:induction false} CompanyCutFirst(s: string, pats: seq<CompanyPattern>, company: string)
    requires CompanyCut(s, pats, company).Some?
    ensures var p := CompanyCut(s, pats, company).value;
            exists k :: 0 <= k < |pats| && FirstCutBy(s, pats, company, p, k)
  {
    var p := CompanyCut(s, pats, company).value;
    var m := CompanyLeftmostFrom(s, pats[0], company, 0);
    if m.Some? {
      forall q | 0 <= q < p
        ensures !CompanyMatchAt(s, q, pats[0], company)
      {
        CompanyLeftmostFromIsLeftmost(s, pats[0], company, 0, q);
      }
      assert FirstCutBy(s, pats, company, p, 0);
    } else {
      var tail := pats[1..];
      assert CompanyCut(s, tail, company) == CompanyCut(s, pats, company);
      CompanyCutFirst(s, tail, company);
      var k :| 0 <= k < |tail| && FirstCutBy(s, tail, company, p, k);
      forall q | 0 <= q <= |s|
        ensures !CompanyMatchAt(s, q, pats[0], company)
      {
        CompanyLeftmostFromIsLeftmost(s, pats[0], company, 0, q);
      }
      FirstCutByCons(s, pats, company, p, k);
    }
  }

  /** A company that says nothing about the author. */
  predicate IsUninformativeCompany(company: string)
  {
    var c := Strip(company);
    c == [] || Lower(c) == "not specified" || Lower(c) == "unknown"
  }

  /**
   * `_clean_title_with_author_context`. `company` is `None` when the author
   * record is empty and otherwise its `company` entry ("" when missing).
   */
  function CleanTitleWithCompany(title: string, company: Option<string>): string
  {
    if title == [] || company.None? || IsUninformativeCompany(company.value) then title
    else
      match CompanyCut(title, CompanyPatterns, Strip(company.value))
      case None => title
      case Some(p) => Strip(title[..p])
  }

  /** The title is kept whenever there is no informative company. */
  lemma UninformativeCompanyKeepsTitle(title: string, company: Option<string>)
    requires company.None? || IsUninformativeCompany(company.value)
    ensures CleanTitleWithCompany(title, company) == title
  {
  }

  /**
   * Otherwise the title is kept iff no pattern matches, and is otherwise cut
   * where `CompanyCut` finds the first pattern's leftmost match (a separator,
   * the company ignoring case, then only whitespace to the end) and stripped.
   */
  lemma CompanyCutSpec(title: string, company: string)
    requires !IsUninformativeCompany(company)
    ensures var r := CleanTitleWithCompany(title, Some(company));
            var cut := CompanyCut(title, CompanyPatterns, Strip(company));
            (cut.None? ==> r == title) && (cut.Some? ==> r == Strip(title[..cut.value]))
  {
    if title == [] {
      assert title[..0] == [];
      assert Strip([]) == [];
    }
  }

  // ---------------------------------------------------------------- business ranking

  /** The security themes of the configuration. */
  const SecurityThemes: seq<string> := [
    "AI External Partners Trust", "AI Data Integrity", "Efficient AI Security",
    "AI Supply Chain Security", "AI Model Governance", "AI Privacy Compliance",
    "AI Third Party Risk", "AI Vendor Security", "AI Data Lineage"]

  /** How many of `keywords` occur in `text`. */
  function CountPresent(keywords: seq<string>, text: string): (n: nat)
    ensures n <= |keywords|
  {
    if keywords == [] then 0
    else CountPresent(keywords[..|keywords| - 1], text) + if Contains(text, keywords[|keywords| - 1]) then 1 else 0
  }

  /** How many of `themes`, lower-cased, occur in `text`. */
  function CountThemes(themes: seq<string>, text: string): (n: nat)
    ensures n <= |themes|
  {
    if themes == [] then 0
    else CountThemes(themes[..|themes| - 1], text) + if Contains(text, Lower(themes[|themes| - 1])) then 1 else 0
  }

  function ScoreText(p: Paper): string
  {
    Lower(p.title + " " + p.snippet)
  }

  /** One point per business keyword present, two per security theme present. */
  function BusinessScore(p: Paper, keywords: seq<string>, themes: seq<string>): nat
  {
    CountPresent(keywords, ScoreText(p)) + 2 * CountThemes(themes, ScoreText(p))
  }

  /** The count is all of the list iff every entry occurs, and zero iff none does. */
  lemma {:induction false} CountPresentSpec(keywords: seq<string>, text: string)
    ensures CountPresent(keywords, text) == |keywords| <==> forall k :: 0 <= k < |keywords| ==> Contains(text, keywords[k])
    ensures CountPresent(keywords, text) == 0 <==> forall k :: 0 <= k < |keywords| ==> !Contains(text, keywords[k])
  {
    if keywords != [] {
      var init := keywords[..|keywords| - 1];
      CountPresentSpec(init, text);
      assert forall k :: 0 <= k < |init| ==> init[k] == keywords[k];
    }
  }

  lemma {:induction false} CountThemesSpec(themes: seq<string>, text: string)
    ensures CountThemes(themes, text) == |themes| <==> forall k :: 0 <= k < |themes| ==> Contains(text, Lower(themes[k]))
    ensures CountThemes(themes, text) == 0 <==> forall k :: 0 <= k < |themes| ==> !Contains(text, Lower(themes[k]))
  {
    if themes != [] {
      var init := themes[..|themes| - 1];
      CountThemesSpec(init, text);
      assert forall k :: 0 <= k < |init| ==> init[k] == themes[k];
    }
  }

  /**
   * The score lies between 0 and `|keywords| + 2 * |themes|`; it is the
   * maximum iff every keyword and theme occurs, and 0 iff none does.
   */
  lemma BusinessScoreBounds(p: Paper, keywords: seq<string>, themes: seq<string>)
    ensures BusinessScore(p, keywords, themes) <= |keywords| + 2 * |themes|
    ensures BusinessScore(p, keywords, themes) == |keywords| + 2 * |themes| <==>
              (forall k :: 0 <= k < |keywords| ==> Contains(ScoreText(p), keywords[k]))
              && (forall k :: 0 <= k < |themes| ==> Contains(ScoreText(p), Lower(themes[k])))
    ensures BusinessScore(p, keywords, themes) == 0 <==>
              (forall k :: 0 <= k < |keywords| ==> !Contains(ScoreText(p), keywords[k]))
              && (forall k :: 0 <= k < |themes| ==> !Contains(ScoreText(p), Lower(themes[k])))
  {
    CountPresentSpec(keywords, ScoreText(p));
    CountThemesSpec(themes, ScoreText(p));
  }

  /** The inner loops over keywords and themes. */
  method ComputeBusinessScore(p: Paper, keywords: seq<string>, themes: seq<string>) returns (score: nat)
    ensures score == BusinessScore(p, keywords, themes)
  {
    score := 0;
    var text := Lower(p.title + " " + p.snippet);
    for i := 0 to |keywords|
      invariant score == CountPresent(keywords[..i], text)
    {
      assert keywords[..i + 1][..i] == keywords[..i];
      if Contains(text, keywords[i]) {
        score := score + 1;
      }
    }
    assert keywords[..|keywords|] == keywords;
    for i := 0 to |themes|
      invariant score == CountPresent(keywords, text) + 2 * CountThemes(themes[..i], text)
    {
      assert themes[..i + 1][..i] == themes[..i];
      if Contains(text, Lower(themes[i])) {
        score := score + 2;
      }
    }
    assert themes[..|themes|] == themes;
  }

  function WithBusinessScore(p: Paper, keywords: seq<string>, themes: seq<string>): Paper
  {
    p.(businessScore := Some(BusinessScore(p, keywords, themes) as int))
  }

  /** `x.get('business_score', 0)` as a sort key. */
  function ScoreKey(p: Paper): StableSort.Key
  {
    (p.businessScore.GetOr(0), 0)
  }

  /** Every paper with its score written in, in input order. */
  function Scored(papers: seq<Paper>, keywords: seq<string>, themes: seq<string>): (r: seq<Paper>)
    ensures |r| == |papers|
    ensures forall i :: 0 <= i < |papers| ==> r[i] == WithBusinessScore(papers[i], keywords, themes)
  {
    seq(|papers|, i requires 0 <= i < |papers| => WithBusinessScore(papers[i], keywords, themes))
  }

  /**
   * `rank_papers_by_business_relevance`: score every paper, then sort by
   * score, highest first. The business keyword list is a parameter.
   */
  method RankPapersByBusinessRelevance(papers: seq<Paper>, keywords: seq<string>)
    returns (ranked: seq<Paper>)
    ensures ranked == StableSort.SortDesc(Scored(papers, keywords, SecurityThemes), ScoreKey)
  {
    if |papers| == 0 {
      return [];
    }
    var scored := papers;
    for i := 0 to |papers|
      invariant |scored| == |papers|
      invariant forall j :: 0 <= j < i ==> scored[j] == WithBusinessScore(papers[j], keywords, SecurityThemes)
      invariant forall j :: i <= j < |papers| ==> scored[j] == papers[j]
    {
      var score := ComputeBusinessScore(scored[i], keywords, SecurityThemes);
      scored := scored[i := scored[i].(businessScore := Some(score as int))];
    }
    assert scored == Scored(papers, keywords, SecurityThemes);
    ranked := StableSort.SortDesc(scored, ScoreKey);
  }

  /**
   * The ranking as written: the keyword list is read from a configuration
   * entry that the configuration module does not define, so every
   * non-empty list ends in an `AttributeError` (the retry in the exception
   * handler raises it again).
   */
  function RankAsWritten(papers: seq<Paper>): (r: Result<seq<Paper>, string>)
    ensures r.Ok? ==> r.value == []
  {
    if papers == [] then Ok([]) else Err("AttributeError: BUSINESS_KEYWORDS")
  }

  /** One search result is enough for the ranking as written to fail. */
  lemma RankAsWrittenFails(p: Paper)
    ensures RankAsWritten([p]).Err?
  {
  }

  /**
   * The ranking holds the scored papers, by descending score, with equal
   * scores in input order; an empty input gives an empty ranking.
   */
  lemma RankingSpec(papers: seq<Paper>, keywords: seq<string>, themes: seq<string>, score: int)
    ensures var ranked := StableSort.SortDesc(Scored(papers, keywords, themes), ScoreKey);
            && multiset(ranked) == multiset(Scored(papers, keywords, themes))
            && (forall i, j :: 0 <= i < j < |ranked| ==> ranked[j].businessScore.GetOr(0) <= ranked[i].businessScore.GetOr(0))
            && StableSort.WithKey(ranked, ScoreKey, (score, 0)) == StableSort.WithKey(Scored(papers, keywords, themes), ScoreKey, (score, 0))
            && (papers == [] ==> ranked == [])
  {
    var scored := Scored(papers, keywords, themes);
    StableSort.SortDescSorted(scored, ScoreKey);
    StableSort.SortDescStable(scored, ScoreKey, (score, 0));
  }

  /** Each ranked paper is an input paper with its business score written in. */
  lemma RankedPapersAreScored(papers: seq<Paper>, keywords: seq<string>, themes: seq<string>, r: Paper)
    requires r in StableSort.SortDesc(Scored(papers, keywords, themes), ScoreKey)
    ensures exists i :: 0 <= i < |papers| && r == WithBusinessScore(papers[i], keywords, themes)
  {
    var scored := Scored(papers, keywords, themes);
    StableSort.SortDescSorted(scored, ScoreKey);
    assert r in multiset(StableSort.SortDesc(scored, ScoreKey));
    assert r in scored;
  }
}
