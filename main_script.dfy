/**
 * The entry script's own logic: the JSON cleaning applied to the results
 * before they are saved, the "other prospects" filter of the report
 * writers, and the fallback LinkedIn messages used when generation through
 * the workflow fails.
 */
module MainScript {
  import opened Wrappers
  import opened Strings
  import opened Seqs
  import opened Records

  // ---------------------------------------------------------------- clean_for_json

  /** A JSON-like value; an object is its entries in insertion order. */
  datatype Json =
    | JNull
    | JBool(b: bool)
    | JInt(n: int)
    | JStr(s: string)
    | JList(items: seq<Json>)
    | JObj(fields: seq<Field>)

  datatype Field = Field(key: string, value: Json)

  /** `d.get(key)`: the value of the first entry with the key. */
  function Lookup(fields: seq<Field>, key: string): (r: Option<Json>)
    ensures r.Some? ==> exists i :: 0 <= i < |fields| && fields[i].key == key && fields[i].value == r.value
    ensures r.None? ==> forall i :: 0 <= i < |fields| ==> fields[i].key != key
  {
    if fields == [] then None
    else if fields[0].key == key then Some(fields[0].value)
    else
      var r := Lookup(fields[1..], key);
      assert forall i :: 1 <= i < |fields| ==> fields[i] == fields[1..][i - 1];
      r
  }

  /** The entry the lookup finds is the first one with the key. */
  lemma {:induction false} LookupFirst(fields: seq<Field>, key: string, i: nat)
    requires i < |fields| && fields[i].key == key
    requires forall j :: 0 <= j < i ==> fields[j].key != key
    ensures Lookup(fields, key) == Some(fields[i].value)
  {
    if i > 0 {
      assert fields[1..][i - 1] == fields[i];
      assert forall j :: 0 <= j < i - 1 ==> fields[1..][j] == fields[j + 1];
      LookupFirst(fields[1..], key, i - 1);
    }
  }

  /** The keys of each author kept under `all_authors`, in order. */
  const AuthorJsonKeys: seq<string> := [
    "name", "title", "company", "linkedin_profile", "email",
    "profile_summary", "compatibility_analysis", "is_individual"]

  lemma AuthorJsonKeysDistinct()
    ensures forall i, j :: 0 <= i < j < |AuthorJsonKeys| ==> AuthorJsonKeys[i] != AuthorJsonKeys[j]
  {
    forall i, j | 0 <= i < j < |AuthorJsonKeys|
      ensures AuthorJsonKeys[i] != AuthorJsonKeys[j]
    {
      if |AuthorJsonKeys[i]| == |AuthorJsonKeys[j]| {
        assert i == 1 && j == 4;
        assert AuthorJsonKeys[i][0] != AuthorJsonKeys[j][0];
      }
    }
  }

  /** The default of an author field: `False` for `is_individual`, "" for the others. */
  function AuthorDefault(i: nat): Json
  {
    if i == 7 then JBool(false) else JStr("")
  }

  /** One author, reduced to the eight keys with their defaults. */
  function ProjectAuthor(fields: seq<Field>): (r: seq<Field>)
    ensures |r| == |AuthorJsonKeys|
    ensures forall i :: 0 <= i < |r| ==> r[i].key == AuthorJsonKeys[i]
  {
    seq(|AuthorJsonKeys|, i requires 0 <= i < |AuthorJsonKeys| =>
      Field(AuthorJsonKeys[i], Lookup(fields, AuthorJsonKeys[i]).GetOr(AuthorDefault(i))))
  }

  /** The dictionary entries of an author list, each reduced; other entries are dropped. */
  function ProjectAuthors(items: seq<Json>): (r: seq<Json>)
    ensures |r| <= |items|
    ensures forall k :: 0 <= k < |r| ==>
              (r[k].JObj? && |r[k].fields| == |AuthorJsonKeys|
               && forall i :: 0 <= i < |AuthorJsonKeys| ==> r[k].fields[i].key == AuthorJsonKeys[i])
  {
    if items == [] then []
    else
      (if items[0].JObj? then [JObj(ProjectAuthor(items[0].fields))] else [])
      + ProjectAuthors(items[1..])
  }

  /** The value stored under `all_authors`: a list is reduced, anything else becomes `[]`. */
  function CleanAuthors(v: Json): Json
  {
    match v
    case JList(items) => JList(ProjectAuthors(items))
    case _ => JList([])
  }

  /** `clean_for_json`. */
  function Clean(j: Json): (r: Json)
    ensures j.JObj? ==> r.JObj? && |r.fields| == |j.fields|
                        && forall i :: 0 <= i < |j.fields| ==> r.fields[i].key == j.fields[i].key
    ensures j.JList? ==> r.JList? && |r.items| == |j.items|
    ensures !j.JObj? && !j.JList? ==> r == j
    decreases j
  {
    match j
    case JObj(fs) => JObj(seq(|fs|, i requires 0 <= i < |fs| => CleanField(fs[i])))
    case JList(items) => JList(seq(|items|, i requires 0 <= i < |items| => Clean(items[i])))
    case _ => j
  }

  /** One entry of a cleaned dictionary: the same key, with its value cleaned. */
  function CleanField(f: Field): (r: Field)
    ensures r.key == f.key
    decreases f
  {
    Field(f.key, if f.key == "all_authors" then CleanAuthors(f.value) else Clean(f.value))
  }

  /** Reducing a reduced author changes nothing. */
  lemma ProjectAuthorIdempotent(fields: seq<Field>)
    ensures ProjectAuthor(ProjectAuthor(fields)) == ProjectAuthor(fields)
  {
    var p := ProjectAuthor(fields);
    AuthorJsonKeysDistinct();
    forall i | 0 <= i < |AuthorJsonKeys|
      ensures Lookup(p, AuthorJsonKeys[i]) == Some(p[i].value)
    {
      LookupFirst(p, AuthorJsonKeys[i], i);
    }
  }

  lemma {:induction false} ProjectAuthorsIdempotent(items: seq<Json>)
    ensures ProjectAuthors(ProjectAuthors(items)) == ProjectAuthors(items)
  {
    if items != [] {
      ProjectAuthorsIdempotent(items[1..]);
      var r := ProjectAuthors(items);
      if items[0].JObj? {
        var fs := items[0].fields;
        ProjectAuthorIdempotent(fs);
        assert r[0] == JObj(ProjectAuthor(fs)) && r[1..] == ProjectAuthors(items[1..]);
      } else {
        assert r == ProjectAuthors(items[1..]);
      }
    }
  }

  /** Cleaning a cleaned value changes nothing. */
  lemma {:induction false} CleanIdempotent(j: Json)
    ensures Clean(Clean(j)) == Clean(j)
    decreases j
  {
    match j
    case JObj(fs) =>
      var c := Clean(j).fields;
      forall i | 0 <= i < |fs|
        ensures CleanField(c[i]) == c[i]
      {
        CleanFieldIdempotent(fs[i]);
      }
      assert Clean(Clean(j)).fields == c;
    case JList(items) =>
      var c := Clean(j).items;
      forall i | 0 <= i < |items|
        ensures Clean(c[i]) == c[i]
      {
        CleanIdempotent(items[i]);
      }
      assert Clean(Clean(j)).items == c;
    case _ =>
  }

  lemma {:induction false} CleanFieldIdempotent(f: Field)
    ensures CleanField(CleanField(f)) == CleanField(f)
    decreases f
  {
    if f.key == "all_authors" {
      match f.value
      case JList(items) => ProjectAuthorsIdempotent(items);
      case _ =>
    } else {
      CleanIdempotent(f.value);
    }
  }

  /**
   * Under `all_authors`, a list keeps its dictionary entries in order, each
   * reduced to the eight keys with the values found or their defaults; any
   * other value becomes the empty list.
   */
  lemma {:induction false} CleanAuthorsSpec(v: Json)
    ensures !v.JList? ==> CleanAuthors(v) == JList([])
    ensures v.JList? ==> CleanAuthors(v) == JList(Map(Filter(v.items, IsObject), ProjectObject))
  {
    if v.JList? && v.items != [] {
      var items := v.items;
      ProjectAuthorsFromEnd(items);
    }
  }

  predicate IsObject(j: Json)
  {
    j.JObj?
  }

  function ProjectObject(j: Json): Json
  {
    if j.JObj? then JObj(ProjectAuthor(j.fields)) else j
  }

  lemma {:induction false} ProjectAuthorsFromEnd(items: seq<Json>)
    ensures ProjectAuthors(items) == Map(Filter(items, IsObject), ProjectObject)
  {
    if items != [] {
      var init := items[..|items| - 1];
      var last := items[|items| - 1];
      ProjectAuthorsFromEnd(init);
      ProjectAuthorsSnoc(init, last);
      assert init + [last] == items;
      MapFilterSnoc(items, IsObject, ProjectObject);
    }
  }

  lemma {:induction false} ProjectAuthorsSnoc(items: seq<Json>, x: Json)
    ensures ProjectAuthors(items + [x]) == ProjectAuthors(items) + if x.JObj? then [JObj(ProjectAuthor(x.fields))] else []
  {
    if items == [] {
      assert [x][1..] == [];
    } else {
      assert (items + [x])[0] == items[0];
      assert (items + [x])[1..] == items[1..] + [x];
      ProjectAuthorsSnoc(items[1..], x);
    }
  }

  // ---------------------------------------------------------------- other prospects

  /** The paper's `all_authors` list, empty when any level is missing. */
  function AllAuthorsOf(a: PaperAnalysis): seq<Author>
  {
    if a.paperMetadata.Some? && a.paperMetadata.value.authorInfo.Some?
    then a.paperMetadata.value.authorInfo.value.allAuthors
    else []
  }

  /** No author of the paper is an individual. */
  predicate IsOtherProspect(a: PaperAnalysis)
  {
    forall k :: 0 <= k < |AllAuthorsOf(a)| ==> !AllAuthorsOf(a)[k].isIndividual
  }

  /** The inner search with `break`: whether some author is an individual. */
  method HasIndividualAuthor(authors: seq<Author>) returns (found: bool)
    ensures found <==> exists k :: 0 <= k < |authors| && authors[k].isIndividual
  {
    found := false;
    var k := 0;
    while k < |authors|
      invariant 0 <= k <= |authors|
      invariant !found
      invariant forall l :: 0 <= l < k ==> !authors[l].isIndividual
    {
      if authors[k].isIndividual {
        found := true;
        break;
      }
      k := k + 1;
    }
  }

  /** The rows of the papers without an individual author, in order. */
  function OtherProspectsOf(papers: seq<PaperAnalysis>): seq<Prospect>
  {
    if papers == [] then []
    else
      var last := papers[|papers| - 1];
      OtherProspectsOf(papers[..|papers| - 1]) + if IsOtherProspect(last) then [ProspectOf(last)] else []
  }

  /**
   * The loop both report writers run (main.py:97-118 and main.py:339-359
   * are the same code).
   */
  method OtherProspects(papers: seq<PaperAnalysis>) returns (others: seq<Prospect>)
    ensures others == OtherProspectsOf(papers)
  {
    others := [];
    for i := 0 to |papers|
      invariant others == OtherProspectsOf(papers[..i])
    {
      assert papers[..i + 1][..i] == papers[..i];
      var hasIndividual := HasIndividualAuthor(AllAuthorsOf(papers[i]));
      if !hasIndividual {
        others := others + [ProspectOf(papers[i])];
      }
    }
    assert papers[..|papers|] == papers;
  }

  /** The other prospects are the rows of exactly the papers without an individual author, in order. */
  lemma {:induction false} OtherProspectsAreFiltered(papers: seq<PaperAnalysis>)
    ensures OtherProspectsOf(papers) == Map(Filter(papers, IsOtherProspect), ProspectOf)
  {
    if papers != [] {
      OtherProspectsAreFiltered(papers[..|papers| - 1]);
      MapFilterSnoc(papers, IsOtherProspect, ProspectOf);
    }
  }

  /**
   * A paper's row is listed iff no author of it is an individual; when its
   * author record has the shape `extract_author_info` gives, the analysis
   * text is empty.
   */
  lemma OtherProspectsMembers(papers: seq<PaperAnalysis>, a: PaperAnalysis)
    requires a in papers
    ensures IsOtherProspect(a) ==> ProspectOf(a) in OtherProspectsOf(papers)
    ensures forall p :: p in OtherProspectsOf(papers) && (p.authorInfo.Some? ==> WellFormedInfo(p.authorInfo.value))
              ==> p.compatibilityAnalysis == ""
  {
    forall p | p in OtherProspectsOf(papers) && (p.authorInfo.Some? ==> WellFormedInfo(p.authorInfo.value))
      ensures p.compatibilityAnalysis == ""
    {
      OtherProspectRow(papers, p);
    }
    OtherProspectsAreFiltered(papers);
    FilterMembers(papers, IsOtherProspect, a);
    var kept := Filter(papers, IsOtherProspect);
    if IsOtherProspect(a) {
      var i :| 0 <= i < |kept| && kept[i] == a;
      assert OtherProspectsOf(papers)[i] == ProspectOf(a);
    }
  }

  lemma OtherProspectRow(papers: seq<PaperAnalysis>, p: Prospect)
    requires p in OtherProspectsOf(papers) && (p.authorInfo.Some? ==> WellFormedInfo(p.authorInfo.value))
    ensures p.compatibilityAnalysis == ""
  {
    OtherProspectsAreFiltered(papers);
    var kept := Filter(papers, IsOtherProspect);
    var i :| 0 <= i < |kept| && p == ProspectOf(kept[i]);
    FilterMembers(papers, IsOtherProspect, kept[i]);
    if p.authorInfo.Some? {
      var ai := p.authorInfo.value;
      assert AllAuthorsOf(kept[i]) == ai.allAuthors;
    }
  }

  // ---------------------------------------------------------------- fallback messages

  /** `author_name.split()[0] if author_name else 'there'`; a blank non-empty name raises `IndexError`. */
  function FallbackFirstName(authorName: string): Result<string, string>
  {
    if authorName == [] then Ok("there")
    else if Words(authorName) == [] then Err("IndexError")
    else Ok(Words(authorName)[0])
  }

  /** The first name is "there" for an empty name, else the first word; only a blank name fails. */
  lemma FallbackFirstNameSpec(authorName: string)
    ensures FallbackFirstName(authorName).Err? <==> authorName != [] && AllSpace(authorName)
    ensures FallbackFirstName(authorName).Ok? ==>
              var first := FallbackFirstName(authorName).value;
              && first != [] && NoSpace(first)
              && (authorName != [] ==> StartsWith(LStrip(authorName), first))
  {
    WordsEmpty(authorName);
    var words := Words(authorName);
    if authorName == [] {
      assert FallbackFirstName(authorName) == Ok("there");
      assert NoSpace("there") by {
        forall i | 0 <= i < 5 ensures !IsSpace("there"[i]) { }
      }
    } else if words != [] {
      FirstWordIsPrefixOfStrip(authorName);
      assert FallbackFirstName(authorName) == Ok(words[0]);
      assert words[0] != [] && NoSpace(words[0]);
    }
  }

  const LongRequestTail: string :=
    " - really insightful points about AI security. I'm working with AltaStata, an MIT-founded startup focused on AI data security. Would love to connect and exchange ideas. Best, Serge"
  const ShortRequestTail: string :=
    " - your insights resonated with me. I'm working with AltaStata, an MIT-founded startup focused on AI data security. Would love to connect. Best, Serge"

  /** "Hi {first_name}, I read your article on {paper_title}". */
  function RequestOpening(first: string, paperTitle: string): string
  {
    "Hi " + first + ", I read your article on " + paperTitle
  }

  /** The fallback connection request: the longer text unless it exceeds 300 characters. */
  function FallbackConnectionRequest(first: string, paperTitle: string): string
  {
    var long := RequestOpening(first, paperTitle) + LongRequestTail;
    if |long| > 300 then RequestOpening(first, paperTitle) + ShortRequestTail else long
  }

  /**
   * The request opens with the greeting and the title; it is at most 300
   * characters exactly when the name and title together have at most 122,
   * and the shorter text is used exactly when they have more than 92.
   */
  lemma FallbackConnectionRequestSpec(first: string, paperTitle: string)
    ensures var r := FallbackConnectionRequest(first, paperTitle);
            && StartsWith(r, RequestOpening(first, paperTitle))
            && (|r| <= 300 <==> |first| + |paperTitle| <= 122)
            && (r == RequestOpening(first, paperTitle) + ShortRequestTail <==> |first| + |paperTitle| > 92)
  {
    var o := RequestOpening(first, paperTitle);
    assert |LongRequestTail| == 180 && |ShortRequestTail| == 150;
    assert (o + LongRequestTail)[..|o|] == o;
    assert (o + ShortRequestTail)[..|o|] == o;
    if |first| + |paperTitle| > 92 {
      assert o + ShortRequestTail != o + LongRequestTail;
    }
  }

  /** The company named in the follow-up: missing, empty and "Not specified" become "your organization". */
  function ResolvedCompany(company: Option<string>): (r: string)
    ensures r != "" && r != "Not specified"
    ensures company.Some? && company.value != "" && company.value != "Not specified" ==> r == company.value
    ensures r != "your organization" ==> company == Some(r)
  {
    match company
    case None => "your organization"
    case Some(c) => if c == "" || c == "Not specified" then "your organization" else c
  }

  /** The postscript of the follow-up message. */
  function CompanyNote(company: string): string
  {
    "P.S. I'd love to hear your thoughts on how companies like " + company
    + " are implementing these AI security recommendations in practice."
  }

  function FollowUpBody(first: string, paperTitle: string): string
  {
    "Hi " + first + ",\n\nThanks for connecting! I read your article on \"" + paperTitle
    + "\" - really insightful points about AI security challenges.\n\nWhat resonated with me is how your recommendations align perfectly with what we're building at AltaStata. We're an MIT-founded startup that helps companies implement exactly the security framework you outlined.\n\nWould you be open to a brief 15-minute call to discuss how we're addressing the same AI security challenges you outlined in your article?\n\nBest,\nSerge\n\n"
  }

  /** The fallback follow-up: the thanks, the pitch and the postscript naming the company. */
  function FallbackFollowUp(first: string, paperTitle: string, company: Option<string>): string
  {
    FollowUpBody(first, paperTitle) + CompanyNote(ResolvedCompany(company))
  }

  datatype Messages = Messages(connectionRequest: string, followUpMessage: string)

  /** The fallback of `generate_linkedin_messages`; `company` is the author's `company` entry, if any. */
  function FallbackMessages(authorName: string, paperTitle: string, company: Option<string>): Result<Messages, string>
  {
    match FallbackFirstName(authorName)
    case Err(e) => Err(e)
    case Ok(first) =>
      Ok(Messages(FallbackConnectionRequest(first, paperTitle), FallbackFollowUp(first, paperTitle, company)))
  }

  lemma SuffixOfConcat(a: string, b: string)
    ensures EndsWith(a + b, b)
  {
    assert (a + b)[|a|..] == b;
  }

  /** The fallback fails, with Python's `IndexError`, only for a blank non-empty name. */
  lemma FallbackMessagesFailure(authorName: string, paperTitle: string, company: Option<string>)
    ensures FallbackMessages(authorName, paperTitle, company).Err? <==> authorName != [] && AllSpace(authorName)
    ensures FallbackMessages(authorName, paperTitle, company).Err? ==>
              FallbackMessages(authorName, paperTitle, company).error == "IndexError"
  {
    FallbackFirstNameSpec(authorName);
  }

  /** Otherwise the connection request greets the first name and names the paper. */
  lemma FallbackRequestText(authorName: string, paperTitle: string, company: Option<string>)
    requires FallbackFirstName(authorName).Ok?
    ensures FallbackMessages(authorName, paperTitle, company).Ok?
    ensures StartsWith(FallbackMessages(authorName, paperTitle, company).value.connectionRequest,
                       RequestOpening(FallbackFirstName(authorName).value, paperTitle))
  {
    FallbackConnectionRequestSpec(FallbackFirstName(authorName).value, paperTitle);
  }

  /** The follow-up ends with the postscript naming the resolved company. */
  lemma FallbackFollowUpText(first: string, paperTitle: string, company: Option<string>)
    ensures EndsWith(FallbackFollowUp(first, paperTitle, company), CompanyNote(ResolvedCompany(company)))
  {
    SuffixOfConcat(FollowUpBody(first, paperTitle), CompanyNote(ResolvedCompany(company)));
  }
}
