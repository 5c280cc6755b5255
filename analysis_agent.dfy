/**
 * The analysis agent's own logic around the language model: the fixed
 * slicing of the AltaStata analysis, the text fallback of a paper's
 * analysis, and the analysis used when the model call fails.
 */
module AnalysisAgent {
  import opened Wrappers
  import opened Strings
  import opened Records
  import AuthorExtractor

  // ---------------------------------------------------------------- slices

  /** `s[a:b]` followed by `s[b:c]` is `s[a:c]`. */
  lemma SliceConcat<T>(s: seq<T>, a: nat, b: nat, c: nat)
    requires a <= b <= c
    ensures Slice(s, a, b) + Slice(s, b, c) == Slice(s, a, c)
  {
  }

  /** `s[:n]` is `s[0:n]`. */
  lemma TakeIsSlice<T>(s: seq<T>, n: nat)
    ensures Take(s, n) == Slice(s, 0, n)
  {
  }

  /** The width of `s[a:b]` is at most `b - a`, and exactly that when `s` reaches `b`. */
  lemma SliceWidth<T>(s: seq<T>, a: nat, b: nat)
    requires a <= b
    ensures |Slice(s, a, b)| <= b - a
    ensures b <= |s| ==> |Slice(s, a, b)| == b - a
  {
  }

  // ---------------------------------------------------------------- _parse_altastata_analysis

  /** The analysis of the AltaStata website, one field per key of the dictionary. */
  datatype AltaStataAnalysis = AltaStataAnalysis(
    solutionsOverview: string,
    externalPartnersTrustSolution: string,
    aiDataIntegritySolution: string,
    efficientAiUseSolution: string,
    valuePropositions: string,
    targetMarket: string,
    rawAnalysis: string)

  /** `_parse_altastata_analysis`: consecutive fixed slices of the reply. */
  function ParseAltaStataAnalysis(response: string): AltaStataAnalysis
  {
    AltaStataAnalysis(
      Slice(response, 0, 1000),
      Slice(response, 1000, 1500),
      Slice(response, 1500, 2000),
      Slice(response, 2000, 2500),
      Slice(response, 2500, 3000),
      Slice(response, 3000, 3500),
      response)
  }

  /** The six fields, in key order. */
  function Fields(a: AltaStataAnalysis): seq<string>
  {
    [a.solutionsOverview, a.externalPartnersTrustSolution, a.aiDataIntegritySolution,
     a.efficientAiUseSolution, a.valuePropositions, a.targetMarket]
  }

  /** The six fields, read in order, are the first 3500 characters of the reply. */
  lemma AltaStataFieldsTile(response: string)
    ensures var f := Fields(ParseAltaStataAnalysis(response));
            f[0] + f[1] + f[2] + f[3] + f[4] + f[5] == Take(response, 3500)
  {
    SliceConcat(response, 0, 1000, 1500);
    SliceConcat(response, 0, 1500, 2000);
    SliceConcat(response, 0, 2000, 2500);
    SliceConcat(response, 0, 2500, 3000);
    SliceConcat(response, 0, 3000, 3500);
    TakeIsSlice(response, 3500);
  }

  /**
   * The overview holds at most 1000 characters and each other field at
   * most 500, each exactly that many when the reply reaches 3500; the raw
   * analysis is the whole reply.
   */
  lemma AltaStataFieldWidths(response: string)
    ensures var a := ParseAltaStataAnalysis(response);
            && a.rawAnalysis == response
            && |a.solutionsOverview| <= 1000
            && (forall k :: 1 <= k < 6 ==> |Fields(a)[k]| <= 500)
            && (|response| >= 3500 ==> |a.solutionsOverview| == 1000 && forall k :: 1 <= k < 6 ==> |Fields(a)[k]| == 500)
  {
    SliceWidth(response, 0, 1000);
    SliceWidth(response, 1000, 1500);
    SliceWidth(response, 1500, 2000);
    SliceWidth(response, 2000, 2500);
    SliceWidth(response, 2500, 3000);
    SliceWidth(response, 3000, 3500);
  }

  // ---------------------------------------------------------------- paper analyses

  /** The three theme entries, each with the given score and content. */
  function ThemeEntries(score: int, contents: seq<string>): (m: map<string, ThemeValue>)
    requires |contents| == |ThemeNames|
    ensures forall k :: 0 <= k < |ThemeNames| ==> ThemeNames[k] in m && m[ThemeNames[k]] == ThemeDict(Some(score), Some(contents[k]))
    ensures m.Keys == set k | 0 <= k < |ThemeNames| :: ThemeNames[k]
  {
    map[ThemeNames[0] := ThemeDict(Some(score), Some(contents[0])),
        ThemeNames[1] := ThemeDict(Some(score), Some(contents[1])),
        ThemeNames[2] := ThemeDict(Some(score), Some(contents[2]))]
  }

  /** The fallback of `_parse_analysis_response`: each theme scored 5 with the next 500 characters of the reply. */
  function TextAnalysis(response: string, paper: Paper): PaperAnalysis
  {
    PaperAnalysis(
      ThemeEntries(5, [Slice(response, 0, 500), Slice(response, 500, 1000), Slice(response, 1000, 1500)]),
      Some(paper), Some(response), None)
  }

  /** `re.search(r'\{.*\}', response, re.DOTALL)`: the text from the first `{` to the last `}` after it. */
  function BracedText(response: string): (r: Option<string>)
    ensures r.Some? ==> |r.value| >= 2 && r.value[0] == '{' && r.value[|r.value| - 1] == '}'
    ensures r.None? <==> '{' !in response || forall k :: IndexOfChar(response, '{') < k < |response| ==> response[k] != '}'
  {
    if '{' !in response then None
    else
      var start := IndexOfChar(response, '{');
      var end := AuthorExtractor.RFind(response, '}');
      if start < end then Some(response[start..end + 1]) else None
  }

  /**
   * `_parse_analysis_response`: `decode` stands for `json.loads` read as an
   * analysis, `None` when it raises. A decoded analysis has its paper
   * replaced by the input paper; otherwise the text fallback.
   */
  function ParseAnalysisResponse(response: string, paper: Paper, decode: string -> Option<PaperAnalysis>): PaperAnalysis
  {
    match BracedText(response)
    case Some(text) =>
      if decode(text).Some? then decode(text).value.(paperMetadata := Some(paper)) else TextAnalysis(response, paper)
    case None => TextAnalysis(response, paper)
  }

  /**
   * The parsed analysis always carries the input paper. A decoded object
   * keeps its other entries; otherwise every theme is scored 5 and the
   * three contents, read in order, are the first 1500 characters of the
   * reply, which is kept whole as the raw analysis.
   */
  lemma ParseAnalysisResponseSpec(response: string, paper: Paper, decode: string -> Option<PaperAnalysis>)
    ensures ParseAnalysisResponse(response, paper, decode).paperMetadata == Some(paper)
    ensures BracedText(response).Some? && decode(BracedText(response).value).Some? ==>
              var d := decode(BracedText(response).value).value;
              var r := ParseAnalysisResponse(response, paper, decode);
              r.themes == d.themes && r.rawAnalysis == d.rawAnalysis && r.analysisStatus == d.analysisStatus
    ensures BracedText(response).None? || decode(BracedText(response).value).None? ==>
              ParseAnalysisResponse(response, paper, decode) == TextAnalysis(response, paper)
  {
  }

  /** The text fallback scores every theme 5 and tiles the first 1500 characters of the reply. */
  lemma TextAnalysisSpec(response: string, paper: Paper)
    ensures var a := TextAnalysis(response, paper);
            && (forall k :: 0 <= k < |ThemeNames| ==>
                  (&& ThemeOf(a, ThemeNames[k]).ThemeDict?
                   && ThemeOf(a, ThemeNames[k]).relevanceScore == Some(5)
                   && ThemeOf(a, ThemeNames[k]).content.Some?
                   && |ThemeOf(a, ThemeNames[k]).content.value| <= 500))
            && ThemeOf(a, ThemeNames[0]).content.value + ThemeOf(a, ThemeNames[1]).content.value
               + ThemeOf(a, ThemeNames[2]).content.value == Take(response, 1500)
            && a.rawAnalysis == Some(response) && a.paperMetadata == Some(paper)
  {
    SliceConcat(response, 0, 500, 1000);
    SliceConcat(response, 0, 1000, 1500);
    TakeIsSlice(response, 1500);
    SliceWidth(response, 0, 500);
    SliceWidth(response, 500, 1000);
    SliceWidth(response, 1000, 1500);
  }

  /** `_create_fallback_analysis`. */
  function FallbackAnalysis(paper: Paper): PaperAnalysis
  {
    PaperAnalysis(ThemeEntries(3, [paper.snippet, paper.snippet, paper.snippet]), Some(paper), None, Some("fallback"))
  }

  /** Every theme of the fallback analysis is scored 3 with the paper's snippet; its status is "fallback". */
  lemma FallbackAnalysisSpec(paper: Paper)
    ensures var a := FallbackAnalysis(paper);
            && (forall k :: 0 <= k < |ThemeNames| ==> ThemeOf(a, ThemeNames[k]) == ThemeDict(Some(3), Some(paper.snippet)))
            && a.paperMetadata == Some(paper)
            && a.analysisStatus == Some("fallback")
            && a.rawAnalysis.None?
  {
  }
}
