/**
 * The dictionaries the discovery pipeline passes between its agents, as
 * records. A key that may be missing from the dictionary is an `Option`;
 * `author_info` is `None` while it is still the empty dictionary a search
 * result starts with.
 */
module Records {
  import opened Wrappers

  /**
   * One author as `_extract_all_authors_with_ai` validates it, plus the two
   * keys `extract_author_info` adds; `compatibility` is the
   * `compatibility_analysis` key, present only on a single-author result.
   */
  datatype Author = Author(
    name: string,
    title: string,
    company: string,
    linkedinProfile: string,
    email: string,
    profileSummary: string,
    compatibility: Option<string>,
    source: string,
    isIndividual: bool)

  /**
   * `extract_author_info`'s result: the first author's fields and the list
   * of every accepted author. In the program the list's first entry is the
   * record itself; here the list holds plain copies.
   */
  datatype AuthorInfo = AuthorInfo(author: Author, allAuthors: seq<Author>)

  /** A search result as `search_papers` builds it, with the keys later stages add. */
  datatype Paper = Paper(
    title: string,
    url: string,
    snippet: string,
    displayUrl: string,
    metadata: map<string, string>,
    businessScore: Option<int>,
    authorInfo: Option<AuthorInfo>)

  /** The value stored under one theme name of an analysis. */
  datatype ThemeValue =
    | NotADict
    | ThemeDict(relevanceScore: Option<int>, content: Option<string>)

  const ThemeNames: seq<string> := ["external_partners_trust", "ai_data_integrity", "efficient_ai_use"]

  /** A paper analysis: the theme entries present, and the other keys the pipeline reads. */
  datatype PaperAnalysis = PaperAnalysis(
    themes: map<string, ThemeValue>,
    paperMetadata: Option<Paper>,
    rawAnalysis: Option<string>,
    analysisStatus: Option<string>)

  /** `analysis.get(theme, {})`: a missing theme reads as an empty dictionary. */
  function ThemeOf(a: PaperAnalysis, theme: string): ThemeValue
  {
    if theme in a.themes then a.themes[theme] else ThemeDict(None, None)
  }

  /** A prospect row as `_finalize_results_node` and the report writers build it. */
  datatype Prospect = Prospect(
    paperTitle: string,
    paperUrl: string,
    paperSource: string,
    authorInfo: Option<AuthorInfo>,
    compatibilityAnalysis: string)

  /**
   * The shape `extract_author_info` gives its result: the first of a
   * non-empty list of individual authors, or a record that is not
   * individual and has no compatibility analysis, with an empty list.
   */
  predicate WellFormedInfo(ai: AuthorInfo)
  {
    if ai.allAuthors == [] then !ai.author.isIndividual && ai.author.compatibility.None?
    else ai.author == ai.allAuthors[0] && ai.author.isIndividual
  }

  /** `author_info.get('compatibility_analysis', '')`, where a missing `author_info` reads as `{}`. */
  function CompatibilityOf(info: Option<AuthorInfo>): string
  {
    match info
    case None => ""
    case Some(ai) => match ai.author.compatibility case None => "" case Some(text) => text
  }

  /**
   * The row for a paper: title, URL and source site of its metadata (empty
   * when missing), its author record and that record's compatibility analysis.
   */
  function ProspectOf(a: PaperAnalysis): Prospect
  {
    match a.paperMetadata
    case None => Prospect("", "", "", None, "")
    case Some(p) => Prospect(p.title, p.url, p.displayUrl, p.authorInfo, CompatibilityOf(p.authorInfo))
  }
}
