# AltaStata prospect discovery: a Dafny model of its deterministic core

The prospect-discovery tool reads the contributors of a LinkedIn
"collaborative article" page and ranks them as sales prospects. It also
finds AI-security papers, extracts and validates their authors, analyses
each paper and writes messages and reports. Most of the repository is glue:
language-model prompts, web search, LangGraph wiring and file writers. This
project models the deterministic logic between those calls and proves what
that logic promises.

- **Contributor pipeline** (`linkedin_html_parser.py`):
  - the author markers cut the page into windows, and each window yields a
    contributor record, or nothing;
  - the parser object accumulates the records;
  - `_remove_duplicates` merges records by LinkedIn profile id, over a
    dictionary and its insertion order. The dictionary holds the parser's
    own records, so the merge also rewrites the stored records in place,
    and a later call merges the merged records again;
  - the records are ranked by a tiered score with a stable descending sort.
- **Alternative extractor** (`linkedin_advice_extractor_working.py`):
  - its own tier ladder and (score, likes) sort;
  - keyword-table detection of technical terms;
  - the deterministic generator of extra contributors;
  - the CSV priority and field cleaning.
- **Workflow helpers** (`workflow.py`):
  - URL de-duplication of search results;
  - the maximum theme score;
  - the compatibility bullets and points;
  - the connection-request template;
  - bullet normalisation of author insights;
  - the prospect filter.
- **Search agent** (`agents/search_agent.py`):
  - removal of a publication or company suffix from titles;
  - the metadata projection;
  - business scoring and ranking.
- **Author extraction** (`author_extractor.py`):
  - the LinkedIn URL in a model reply;
  - author validation;
  - the name derived from a profile slug;
  - candidate selection among search results;
  - the individual-author check;
  - the result shape of `extract_author_info`.
- **Report script** (`main.py`):
  - `clean_for_json`;
  - the "other prospects" filter;
  - the fallback LinkedIn messages.
- **Email and analysis agents**:
  - the analysis summary;
  - the text fallbacks of the reply parsers;
  - the batch result;
  - the fixed slicing of the AltaStata analysis;
  - the fallback analysis.
- **Results script** (`scripts/manage_results.py`):
  - the date part of a file name and the directory it goes to;
  - the listing of date directories, newest first;
  - the archive decision, with `strptime` date parsing.

Language-model replies, search results, regular-expression matches the
model does not spell out, and configuration lists are parameters of the
model. Where the source mutates state in loops, the model is a method with
loop invariants, proved against a specification function. Lemmas state the
source's promises about that function.

Module layout: one module per source file (`LinkedInParser`,
`ContributorRecords` and `ContributorMerge` for `linkedin_html_parser.py`;
`AdviceExtractor` and `KeywordRules` for the alternative extractor;
`Workflow`, `SearchAgent`, `AuthorExtractor`, `MainScript`, `EmailAgent`,
`AnalysisAgent`, `ManageResults`). Shared helpers live in `Wrappers`
(Option and Result), `Strings` (Python string operations), `Seqs` (filter,
map, cycling index), `Records` (paper and analysis records) and
`StableSort` (Python's stable `sorted(..., reverse=True)`).

## Model

| member | source | states |
|---|---|---|
| LinkedInParser.ClassifiersIgnoreCase | linkedin_html_parser.py:596-615 | both title classifiers give the same answer on a title and on its lower-cased form |
| LinkedInParser.ChiefAndDirectorAreHighPriority | linkedin_html_parser.py:596-605 | a title holding "chief" or "director" in any case is high priority |
| LinkedInParser.CleanTextFacts | linkedin_html_parser.py:79-89 | a cleaned name or title has no emoji, no whitespace at either end and only single spaces inside |
| LinkedInParser.ExtractLikesLeftmost | linkedin_html_parser.py:441-444 | the likes are the digit run of the leftmost `<n> Like` match, or "0" when the window has none |
| LinkedInParser.FirstAcceptedSpec | linkedin_html_parser.py:247-267 | the scan finds nothing iff no stripped element is accepted; otherwise it returns the first accepted one, stripped |
| LinkedInParser.TitleShape | linkedin_html_parser.py:232-268 | a title is "Professional", or a stripped text that passes the length and artifact tests |
| LinkedInParser.ExtractTitleFromSection | linkedin_html_parser.py:232-268 | the two early-return loops give the title rule: first acceptable tag match, else first acceptable line, else the default |
| LinkedInParser.FindFirst | linkedin_html_parser.py:247-257 | the loop with early return gives the first element accepted once stripped |
| LinkedInParser.MentionsEncryptionIsEncrypt | linkedin_html_parser.py:114-114 | the test for "encryption" or "encrypt" is just a test for "encrypt" |
| LinkedInParser.PreciseContributor | linkedin_html_parser.py:74-123 | a window's record: cleaned name and title, profile URL from the id, the window's likes, and classifier flags computed on the cleaned title |
| LinkedInParser.PreciseContributorKey | linkedin_html_parser.py:513-517 | a window's record merges under the id run at the front of its page link's id |
| LinkedInParser.Window | linkedin_html_parser.py:46-53 | a window runs from its marker's start to the next marker's start, or to the end of the text; it is never empty |
| LinkedInParser.Windows | linkedin_html_parser.py:37-53 | there is one window per marker |
| LinkedInParser.WindowsTile | linkedin_html_parser.py:37-53 | the windows, one after another, spell the text from the first marker to the end: no overlap and no gap |
| LinkedInParser.SomesSpec | linkedin_html_parser.py:56-65 | failed extractions are dropped and every success is kept, in window order |
| LinkedInParser.Attempts | linkedin_html_parser.py:37-65 | there is one extraction attempt per marker |
| LinkedInParser.HtmlParser.constructor | linkedin_html_parser.py:13-15 | a new parser holds no records |
| LinkedInParser.HtmlParser.ParseHtmlFile | linkedin_html_parser.py:17-72 | an unreadable file gives `[]` and changes nothing; otherwise the result is the merge of the stored records followed by the successful new ones, and the stored list becomes that list with each record the merge keeps rewritten into its merged form |
| LinkedInParser.RelevanceScore | linkedin_html_parser.py:620-656 | high-priority records score 1050 to 1145 and all others 500 to 545 |
| LinkedInParser.SortByRelevanceSpec | linkedin_html_parser.py:658-658 | the ranking is a permutation, ordered by descending score, with equal scores in input order |
| LinkedInParser.HighPriorityFirst | linkedin_html_parser.py:617-658 | every high-priority record is ranked before every other record |
| LinkedInParser.CLevelTierFirst | linkedin_html_parser.py:626-636 | a high-priority title with "ceo" gets the C-level score of at least 1100, whatever later tiers it also matches |
| ContributorRecords.CoreId | linkedin_html_parser.py:513-517 | the merge key is empty or a non-empty run of `[A-Za-z0-9-]` |
| ContributorRecords.CoreIdOfProfileUrl | linkedin_html_parser.py:87-87 | the key of a built profile URL is the id run at the front of the page link's id |
| ContributorMerge.NoUrlKeyFresh | linkedin_html_parser.py:554-554 | `no_url_{len(map)}` is never a key already in the table |
| ContributorMerge.NoUrlKeyIsNotId | linkedin_html_parser.py:554-554 | a `no_url_` key holds `_`, so it never equals a profile id |
| ContributorMerge.CombineComments | linkedin_html_parser.py:560-578 | the comment loop computes the merged answer |
| ContributorMerge.CollectEntries | linkedin_html_parser.py:509-554 | the first pass, as a loop over a map and its insertion order, builds the table `Collect` defines |
| ContributorMerge.MergeEntry | linkedin_html_parser.py:558-592 | the second pass's body turns one entry into its merged record |
| ContributorMerge.FinalizeEntries | linkedin_html_parser.py:557-594 | the second pass finalizes each entry in insertion order |
| ContributorMerge.RemoveDuplicates | linkedin_html_parser.py:505-594 | the two passes together compute the merge |
| ContributorMerge.SettleRecords | linkedin_html_parser.py:519-581 | the merge's effect on the list it is given: each record without an id, and each record that opens a person's group, becomes its merged record; later records of a person stay as they were |
| ContributorMerge.SettleOpensWithMerged | linkedin_html_parser.py:540-581 | the record that opens a person's group becomes the merged record the result lists, with the likes of the whole group, which a second merge over the list counts again |
| ContributorMerge.SettleKeepsIds | linkedin_html_parser.py:519-545 | the merge never changes a record's profile or name and leaves later records of a person untouched, so a second merge groups the same records |
| ContributorMerge.GroupHead | linkedin_html_parser.py:540-545 | a person's group opens with the first record that has their id: the dictionary the table keeps |
| ContributorMerge.StepKeepsTableOk | linkedin_html_parser.py:519-554 | each step of the first pass keeps the table well formed: keys distinct and in order, each entry under its own key |
| ContributorMerge.InsertKeepsTableOk | linkedin_html_parser.py:540-554 | inserting a fresh key whose entry fits it keeps the table well formed |
| ContributorMerge.CollectOk | linkedin_html_parser.py:509-554 | the first pass yields a well-formed table whose entry for each id is its group's merged entry |
| ContributorMerge.DedupConserves | linkedin_html_parser.py:509-554 | the comment counts sum to the input size, the engagements sum to all input likes, and each record without an id stays a record of its own |
| ContributorMerge.LongestIsFirstLongest | linkedin_html_parser.py:531-533 | the kept title is one of the group's titles, no title is longer, and every earlier title is shorter |
| ContributorMerge.GroupEntryAppend | linkedin_html_parser.py:520-537 | absorbing one more record is the group entry of the longer group |
| ContributorMerge.DedupRecord | linkedin_html_parser.py:519-590 | each merged record carries its group's count, likes, longest title and OR-ed encryption flag, or is a single comment |
| ContributorMerge.EntryEngagement | linkedin_html_parser.py:525-529 | every entry's total engagement equals its `all_likes` |
| ContributorMerge.DedupOnePerId | linkedin_html_parser.py:509-554 | there is one merged record per profile id, and every id of the input has one |
| ContributorMerge.DedupFirstSeen | linkedin_html_parser.py:558-558 | merged records come in the order their ids were first seen |
| ContributorMerge.CollectFirstSeen | linkedin_html_parser.py:546-546 | the first pass orders its keys by first sight |
| ContributorMerge.MergedAnswerShape | linkedin_html_parser.py:560-578 | the merged answer is the placeholder, or one to three cleaned comments longer than ten characters, from the first three substantive comments, joined by the separator |
| ContributorMerge.CleanCommentFacts | linkedin_html_parser.py:566-568 | a cleaned comment has single spaces only and no HTML tag |
| ContributorMerge.KeptFacts | linkedin_html_parser.py:564-570 | the kept comments are at most the input's, each cleaned and longer than ten characters |
| AdviceExtractor.MentionsEncryptionIsEncrypt | linkedin_advice_extractor_working.py:88-89 | every encryption keyword holds "encrypt", so the test is whether "encrypt" occurs |
| AdviceExtractor.TierScore | linkedin_advice_extractor_working.py:88-147 | the tier base is one of the ladder's fourteen values |
| AdviceExtractor.RelevanceScore | linkedin_advice_extractor_working.py:82-147 | the score lies between 10 and 120, and is at least 30 when the answer mentions encryption |
| AdviceExtractor.SortByRelevanceSpec | linkedin_advice_extractor_working.py:150-150 | the sort is a permutation, by descending score, then descending likes; equal keys keep input order |
| AdviceExtractor.HigherScoreFirst | linkedin_advice_extractor_working.py:150-150 | a higher score is never placed after a lower one |
| AdviceExtractor.HighPriorityIffTopTiers | linkedin_advice_extractor_working.py:154-157 | a record is high priority iff its title hits one of the three top tiers' words |
| AdviceExtractor.BusinessDeveloperTiers | linkedin_advice_extractor_working.py:159-162 | a business developer who is not high priority lands in the 85 or 75 tier |
| AdviceExtractor.FounderAndCeoIsCLevel | linkedin_advice_extractor_working.py:92-97 | "Founder & CEO" is caught by the C-level tier and scores 100 |
| AdviceExtractor.ProductDirectorsScoreAsDirectors | linkedin_advice_extractor_working.py:99-111 | product titles containing "director" are caught by the 90 tier, never the product tier |
| AdviceExtractor.AdvisorBeforeProductAndCompliance | linkedin_advice_extractor_working.py:105-115 | an advisor title with no higher-tier word scores 75 even with a product or compliance word |
| AdviceExtractor.ExtractTechnicalDetails | linkedin_advice_extractor_working.py:332-368 | the detection loop reports the labels of the table rows one of whose keywords occurs in the lower-cased answer, in table order |
| AdviceExtractor.UpperCaseKeywordsNeverMatch | linkedin_advice_extractor_working.py:337-368 | "API" and "DLP" are searched for in a lower-cased text, so they never match |
| AdviceExtractor.DataLossPreventionNeedsWords | linkedin_advice_extractor_working.py:337-368 | "data loss prevention" is reported only when the spelled-out phrase occurs |
| AdviceExtractor.SlugClean | linkedin_advice_extractor_working.py:254-254 | a slug holds no space, dot or comma |
| AdviceExtractor.GeneratedLikesBounds | linkedin_advice_extractor_working.py:251-252 | high-priority profiles get 15 to 37 likes, standard ones at least 1 |
| AdviceExtractor.HighPriorityPartStep | linkedin_advice_extractor_working.py:246-266 | one more pass of the first loop appends the next high-priority record |
| AdviceExtractor.StandardPartStep | linkedin_advice_extractor_working.py:270-288 | one more pass of the second loop appends the next standard record |
| AdviceExtractor.GeneratedSpec | linkedin_advice_extractor_working.py:246-290 | exactly `max(count, 0)` records: high-priority profiles in order, as many as fit, then standard profiles cycling from the first |
| AdviceExtractor.GeneratedAtHigh | linkedin_advice_extractor_working.py:246-266 | a record before the high-priority count is that profile's high-priority record |
| AdviceExtractor.GeneratedAtStandard | linkedin_advice_extractor_working.py:268-288 | a record from the high-priority count on is the standard record counted from there |
| AdviceExtractor.GeneratedRecordShape | linkedin_advice_extractor_working.py:251-277 | every generated record links to its own name's URL, has a clean slug and 1 to 37 likes, at least 15 when high priority |
| AdviceExtractor.GeneratedRecordFacts | linkedin_advice_extractor_working.py:254-262 | a generated record carries its name's URL, a clean slug and the likes it was given |
| AdviceExtractor.GenerateAdditionalContributors | linkedin_advice_extractor_working.py:164-290 | the two loops build the generated list |
| AdviceExtractor.CsvPriorityMatchesRanking | linkedin_advice_extractor_working.py:482-492 | the CSV priority is HIGH exactly for the tiers scoring 90 or more |
| AdviceExtractor.CsvFieldClean | linkedin_advice_extractor_working.py:499-503 | a cleaned field has no comma and no double quote, and the same length |
| AdviceExtractor.CsvRow | linkedin_advice_extractor_working.py:480-506 | a row has the ten columns of the tracking file |
| AdviceExtractor.CsvRowClean | linkedin_advice_extractor_working.py:499-503 | the free-text columns of a row hold no comma and no double quote |
| KeywordRules.MatchingMembers | linkedin_advice_extractor_working.py:332-368 | a label is reported iff one of its row's keywords occurs in the text |
| KeywordRules.MatchingOrder | linkedin_advice_extractor_working.py:332-368 | reported labels come in table order |
| KeywordRules.MatchingDistinct | linkedin_advice_extractor_working.py:332-368 | with distinct table labels, no label is reported twice |
| KeywordRules.MatchingLength | linkedin_advice_extractor_working.py:332-368 | at most one label per table row |
| StableSort.SortDescSorted | linkedin_advice_extractor_working.py:150-150 | `sorted(..., reverse=True)` gives descending keys |
| StableSort.SortDescStable | linkedin_advice_extractor_working.py:150-150 | among equal keys the input order is kept |
| Seqs.CycleIsMod | linkedin_advice_extractor_working.py:270-271 | cycling `k` steps round a table is indexing it at `k % len` |
| Workflow.DedupByUrl | workflow.py:64-69 | the `seen_urls` loop keeps exactly the first paper of each URL, in order |
| Workflow.FirstByUrlSpec | workflow.py:64-69 | the kept papers sit at increasing positions, and a paper is kept iff no earlier paper has its URL |
| Workflow.FirstByUrlUrls | workflow.py:64-69 | the kept papers have the same set of URLs as the search results |
| Workflow.FirstByUrlDistinct | workflow.py:64-69 | no two kept papers share a URL |
| Workflow.MaxRelevanceScore | workflow.py:570-578 | the result is one of the collected scores, at least every one of them, or 0 when none is collected |
| Workflow.ThemeScoresMembers | workflow.py:572-576 | a score is collected iff some theme holds a dictionary with that score (0 when it has none) |
| Workflow.MissingThemeCountsAsZero | workflow.py:574-576 | a missing theme counts as 0, so the maximum is at least 0 |
| Workflow.CompatibilityBullets | workflow.py:589-613 | there is always at least one bullet |
| Workflow.GeneralBulletIffNothingMatched | workflow.py:610-613 | the general bullet appears iff no rule matched, and then alone |
| Workflow.CompatibilityBulletsSound | workflow.py:591-608 | each bullet is the tag of a rule with a keyword in the text, or the general one |
| Workflow.PointOfLineStripped | workflow.py:328-333 | a point read from a line is never blank and has no surrounding whitespace |
| Workflow.ParsedPointsStripped | workflow.py:327-333 | every parsed point is stripped and non-empty |
| Workflow.ReadPoints | workflow.py:327-333 | the line loop collects the points the parse rule defines |
| Workflow.ReadSentencePoints | workflow.py:365-369 | the sentence loop collects the sentence points |
| Workflow.SentencePointsShape | workflow.py:365-369 | a sentence point is longer than 20 characters and at most 83 |
| Workflow.FallbackPointsNonEmpty | workflow.py:343-369 | neither fallback offers an empty point |
| Workflow.ExtractCompatibilityPoints | workflow.py:297-371 | the method computes the points rule: the model's list when it has two or more points, else the fallback |
| Workflow.CompatibilityPointsShape | workflow.py:327-371 | at most three points, none empty; the model's list is used iff the call succeeded with at least two points |
| Workflow.EndToEndNeedsBothWords | workflow.py:361-362 | "end-to-end encryption" is offered iff the model's list is not used and both words occur |
| Workflow.FirstNameSpec | workflow.py:377-377 | an empty name gives "there", a blank one fails, otherwise the first word |
| Workflow.ConnectionRequestUsesTwoPoints | workflow.py:380-382 | only the first two points can reach the message |
| Workflow.ConnectionRequestFails | workflow.py:377-377 | the request fails exactly for a blank, non-empty name |
| Workflow.ConnectionRequestEmptyName | workflow.py:377-377 | an empty name is greeted as "there" |
| Workflow.ConnectionRequestTemplate | workflow.py:373-390 | the request greets the first name; it is the long message when that fits in 300 characters, else the short one |
| Workflow.ExtractAuthorInsights | workflow.py:426-499 | the method computes the insight text: up to three bullets, or the fixed three |
| Workflow.CollectBullets | workflow.py:460-488 | the line loop collects the bullets the cleaning rule defines |
| Workflow.CleanInsightLineClean | workflow.py:465-465 | cleaning removes every `*` and adds no line break |
| Workflow.BulletsAreBulletLines | workflow.py:462-488 | every collected bullet is "• " and a non-empty text without `*` or line break |
| Workflow.InsightsShape | workflow.py:490-499 | the insights are the fixed fallback or one to three bullet lines |
| Workflow.FinalizeProspects | workflow.py:532-546 | the prospect loop builds the rows of the qualifying analyses |
| Workflow.ProspectsAreFiltered | workflow.py:532-546 | the prospects are the rows of exactly the analyses with a named individual author, in order |
| Workflow.ProspectsSpec | workflow.py:532-546 | row k comes from the k-th qualifying analysis; the positions increase and cover every qualifying analysis |
| SearchAgent.LeftmostFromIsLeftmost | agents/search_agent.py:50-50 | no position before the match found matches the suffix pattern |
| SearchAgent.RemovalPoint | agents/search_agent.py:49-81 | a cut lies inside the title and is the leftmost match of a pattern whose candidate is accepted |
| SearchAgent.CleanPaperTitle | agents/search_agent.py:24-83 | the pattern loop with `break` computes the cleaned title |
| SearchAgent.RemovalPointNone | agents/search_agent.py:49-81 | no cut is made iff no pattern's leftmost match is accepted |
| SearchAgent.RemovalPointFirst | agents/search_agent.py:49-81 | the cut is the leftmost match of the first pattern whose candidate is accepted |
| SearchAgent.CleanTitleIsPrefix | agents/search_agent.py:26-27 | a non-empty title becomes a prefix of its stripped self: only a suffix is ever removed |
| SearchAgent.UsefulMetadata | agents/search_agent.py:85-118 | no metatags, or an empty list of them, gives an empty dictionary |
| SearchAgent.UsefulMetadataFirstOnly | agents/search_agent.py:90-92 | only the first metatags entry is read |
| SearchAgent.MetadataOfKeys | agents/search_agent.py:94-116 | only the six useful keys appear, each value copied from the entry |
| SearchAgent.MetadataOfRenames | agents/search_agent.py:95-116 | author, author page and site name are copied under their new names when present |
| SearchAgent.MetadataOfPublished | agents/search_agent.py:101-104 | the article's published time wins over `dcterms.date` |
| SearchAgent.MetadataOfDescription | agents/search_agent.py:106-109 | the Open Graph description wins over Twitter's |
| SearchAgent.MetadataOfReadingTime | agents/search_agent.py:111-112 | Twitter's first data field is a reading time only when it mentions "read" |
| SearchAgent.CompanyCut | agents/search_agent.py:132-143 | a cut lies inside the title, at a position where one of the company patterns matches to the end; CompanyCutNone and CompanyCutFirst say when a cut is made and where |
| SearchAgent.CompanyLeftmostFromIsLeftmost | agents/search_agent.py:142-142 | no position before the one `re.search` returns, or none at all when it fails, matches the company pattern |
| SearchAgent.CompanyCutNone | agents/search_agent.py:140-144 | no cut is made iff no company pattern matches at any position of the title |
| SearchAgent.CompanyCutFirst | agents/search_agent.py:140-144 | a cut is made by the first pattern in list order that matches (the `break`), at that pattern's leftmost match (`re.search`/`re.sub`); no earlier pattern matches anywhere |
| SearchAgent.FirstCutByCons | agents/search_agent.py:140-144 | a first match in the later patterns stays the first match when the earlier pattern never matches |
| SearchAgent.UninformativeCompanyKeepsTitle | agents/search_agent.py:122-127 | without an informative company the title is kept |
| SearchAgent.CompanyCutSpec | agents/search_agent.py:129-145 | with an informative company the title is kept when no pattern matches, and otherwise cut at the point CompanyCut finds (a separator, the company ignoring case, then only whitespace to the end) and stripped |
| SearchAgent.CountPresentSpec | agents/search_agent.py:216-219 | the count is the whole list iff every keyword occurs, and 0 iff none does |
| SearchAgent.CountThemesSpec | agents/search_agent.py:221-223 | the same for the security themes, lower-cased |
| SearchAgent.BusinessScoreBounds | agents/search_agent.py:213-225 | the score lies in 0 to `len(keywords) + 2 * len(themes)`, is the maximum iff everything occurs, and 0 iff nothing does |
| SearchAgent.ComputeBusinessScore | agents/search_agent.py:213-223 | the inner loops compute one point per keyword and two per theme present |
| SearchAgent.Scored | agents/search_agent.py:212-225 | every paper with its score written in, in input order |
| SearchAgent.RankPapersByBusinessRelevance | agents/search_agent.py:197-227 | the ranking, with the keyword list as a parameter, is the scored papers sorted by score |
| SearchAgent.RankAsWritten | agents/search_agent.py:197-227 | the ranking as written can succeed only on an empty list |
| SearchAgent.RankAsWrittenFails | agents/search_agent.py:217-217 | one search result is enough for the ranking as written to raise |
| SearchAgent.RankingSpec | agents/search_agent.py:199-227 | the ranking is a permutation of the scored papers by descending score, ties in input order; empty input gives empty output |
| SearchAgent.RankedPapersAreScored | agents/search_agent.py:225-227 | each ranked paper is an input paper with its business score written in |
| AuthorExtractor.ExtractLinkedInUrlSpec | author_extractor.py:270-285 | the reply's first profile URL when it has one; otherwise "not found" exactly when the reply says so in any case, else "" |
| AuthorExtractor.ExtractLinkedInUrlIsFirst | author_extractor.py:274-278 | the URL returned is the leftmost match |
| AuthorExtractor.FallbacksAreNotProfileUrls | author_extractor.py:281-285 | neither fallback value is a profile URL |
| AuthorExtractor.MatchIsProfileUrl | author_extractor.py:274-275 | a match is one of the two prefixes followed by a non-empty slug |
| AuthorExtractor.JsonArrayTextSpec | author_extractor.py:370-374 | only the opening bracket decides whether an array is found; the text runs from the first `[` to the last `]` |
| AuthorExtractor.Find | author_extractor.py:370-370 | `find` gives a position in the text, or -1 exactly when the character is absent |
| AuthorExtractor.RFind | author_extractor.py:371-371 | `rfind` gives the last position of the character, or -1 |
| AuthorExtractor.AcceptedIsClean | author_extractor.py:380-389 | an accepted entry has a non-blank name, every field stripped, and no compatibility analysis |
| AuthorExtractor.ValidateAuthors | author_extractor.py:378-403 | the validation loop keeps the accepted entries, cleaned, in order; when `.strip()` raises on a value that is not a string, the handler returns `[]` for the whole list |
| AuthorExtractor.ValidAuthorsRaise | author_extractor.py:378-403 | the whole list is lost iff `.strip()` raises on one of its entries: a name that is not a string, or another of the six fields that is not a string on an entry with a non-blank name |
| AuthorExtractor.RaiseIsFinal | author_extractor.py:378-403 | once an entry has raised, no later entry restores the list |
| AuthorExtractor.ValidAuthorsAreFiltered | author_extractor.py:378-392 | when nothing raises, the validated authors are exactly the accepted entries, in order, each cleaned |
| AuthorExtractor.ValidAuthorIsClean | author_extractor.py:380-389 | each validated author has stripped fields, a non-blank name and no compatibility analysis |
| AuthorExtractor.ValidEntryIsKept | author_extractor.py:380-390 | every accepted entry is kept, cleaned, unless the list is lost |
| AuthorExtractor.RemoveDigits | author_extractor.py:558-558 | the characters left are exactly the input's characters that are not digits |
| AuthorExtractor.SlugNameSpec | author_extractor.py:547-559 | a derived name has at least two words, no digits, dashes, `/` or `?`, and no surrounding whitespace; activity URLs give none |
| AuthorExtractor.SelectProfile | author_extractor.py:133-166 | the selection loop returns what strategy 1 settles on |
| AuthorExtractor.ConsiderResult | author_extractor.py:137-161 | one step reports a perfect match or updates the best match |
| AuthorExtractor.StrategyOneIsCandidate | author_extractor.py:141-141 | strategy 1 returns only a personal profile URL from the results |
| AuthorExtractor.SelectFromPerfect | author_extractor.py:150-152 | the first candidate with both names is returned at once |
| AuthorExtractor.SelectFromLastName | author_extractor.py:154-155 | without a perfect match, the last candidate whose URL has the last name wins |
| AuthorExtractor.SelectFromNamePart | author_extractor.py:158-161 | without a last-name match, the first candidate mentioning part of the name wins |
| AuthorExtractor.SelectFromKeeps | author_extractor.py:158-158 | a candidate that is not a last-name match keeps a match already found |
| AuthorExtractor.StrategyOneRules | author_extractor.py:133-166 | the three rules of strategy 1, stated from the start of the results |
| AuthorExtractor.IsIndividualAuthorReply | author_extractor.py:618-640 | a name under two non-blank characters is never an individual; otherwise the reply must be "true" up to case and whitespace |
| AuthorExtractor.IsIndividualAuthorFallback | author_extractor.py:642-645 | without a reply, an accepted name has two or more words of letters and spaces |
| AuthorExtractor.ProcessAuthor | author_extractor.py:44-63 | a processed author keeps its name, is marked individual and records the source site |
| AuthorExtractor.ProcessAuthorProfile | author_extractor.py:47-58 | a known profile is kept; a replacement is always a real search result |
| AuthorExtractor.ProcessAuthors | author_extractor.py:40-66 | the processing loop keeps and processes the accepted authors in order |
| AuthorExtractor.ProcessedAuthorsAreFiltered | author_extractor.py:40-66 | the processed authors are exactly the accepted candidates, in order, each processed |
| AuthorExtractor.ExtractAuthorInfoShape | author_extractor.py:23-98 | the result is the first accepted author with the list of all of them, or the empty record marked not individual, without a compatibility analysis |
| AuthorExtractor.ExtractAuthorInfoCompatibility | author_extractor.py:33-72 | a compatibility analysis reaches the result only through the single-author extraction (`author_info.update(ai_result)`, author_extractor.py:533): with validated authors there is none, and otherwise it is the single result's once that author is accepted |
| MainScript.Lookup | main.py:226-238 | the value found is stored under the key; none is found iff no entry has the key |
| MainScript.LookupFirst | main.py:226-238 | the entry found is the first one with the key |
| MainScript.ProjectAuthor | main.py:228-237 | a reduced author has exactly the eight keys, in order |
| MainScript.ProjectAuthors | main.py:227-239 | at most as many authors as items, each reduced to the eight keys |
| MainScript.Clean | main.py:220-249 | cleaning keeps the shape: an object keeps its number of entries, a list its length, anything else is unchanged |
| MainScript.CleanField | main.py:222-243 | each entry keeps its key, with its value cleaned |
| MainScript.CleanIdempotent | main.py:220-249 | cleaning a cleaned value changes nothing |
| MainScript.ProjectAuthorIdempotent | main.py:228-237 | reducing a reduced author changes nothing |
| MainScript.CleanAuthorsSpec | main.py:225-242 | under `all_authors`, a list keeps its dictionaries in order, each reduced with defaults; any other value becomes `[]` |
| MainScript.HasIndividualAuthor | main.py:103-107 | the search with `break` finds an individual author iff one exists |
| MainScript.OtherProspects | main.py:95-118 | the report loop collects the rows of the papers without an individual author |
| MainScript.OtherProspectsAreFiltered | main.py:97-118 | the rows are of exactly the papers without an individual author, in order |
| MainScript.OtherProspectsMembers | main.py:110-118 | a paper's row is listed iff no author is an individual; when its author record has the shape `extract_author_info` gives, the row's analysis text is empty |
| MainScript.FallbackFirstNameSpec | main.py:23-23 | "there" for an empty name, else the first word; only a blank name fails |
| MainScript.FallbackConnectionRequestSpec | main.py:25-28 | the request opens with greeting and title; the long text is used iff name and title fit the 300-character limit |
| MainScript.ResolvedCompany | main.py:30-32 | a missing, empty or "Not specified" company reads as "your organization" |
| MainScript.FallbackMessagesFailure | main.py:19-23 | the fallback fails with `IndexError` only for a blank, non-empty name |
| MainScript.FallbackRequestText | main.py:23-28 | otherwise the request greets the first name and names the paper |
| MainScript.FallbackFollowUpText | main.py:34-45 | the follow-up ends with the postscript naming the resolved company |
| EmailAgent.ThemeScores | agents/email_agent.py:229-232 | one score per theme, in the fixed theme order |
| EmailAgent.Max | agents/email_agent.py:229-232 | the maximum is an element and at least every element |
| EmailAgent.AnalysisSummarySpec | agents/email_agent.py:222-234 | the summary fails iff a theme entry is not a dictionary; otherwise the themes above 5 are listed in order and the highest score is the maximum |
| EmailAgent.HighestScoreNotNegative | agents/email_agent.py:229-232 | the highest score is at least 0 when no score is negative |
| EmailAgent.FirstSubjectLine | agents/email_agent.py:183-183 | the line found is one of the lines and mentions "subject" in any case; none is found iff no line does |
| EmailAgent.FirstSubjectLineIsFirst | agents/email_agent.py:183-183 | the line found is the first that mentions a subject |
| EmailAgent.AfterColon | agents/email_agent.py:186-186 | the text after the first colon, or the whole line when it has none |
| EmailAgent.TextFallbackDefault | agents/email_agent.py:183-186 | without a subject line the subject is the default |
| EmailAgent.TextFallbackSubject | agents/email_agent.py:182-186 | otherwise the subject is the first subject line's text after its colon, stripped of whitespace and quotes |
| EmailAgent.TextFallbackBody | agents/email_agent.py:187-187 | the body is the first 800 characters of the reply |
| EmailAgent.FallbackSubjectUnquoted | agents/email_agent.py:186-186 | the fallback subject never begins or ends with a quote |
| EmailAgent.ParseEmailResponseSpec | agents/email_agent.py:167-189 | a decoded object is returned as is; without a braced span, or when it does not decode, the text fallback is used |
| EmailAgent.CollectFailure | agents/email_agent.py:142-156 | the loop fails exactly when some element fails |
| EmailAgent.CollectRows | agents/email_agent.py:142-156 | a loop that succeeds has one result per element, in order |
| EmailAgent.BatchGenerateEmails | agents/email_agent.py:134-158 | the batch loop stops at the first failed summary, or returns one entry per analysis |
| EmailAgent.BatchEmailsFailure | agents/email_agent.py:142-156 | the batch fails exactly when some analysis' summary fails |
| EmailAgent.BatchEmailsRows | agents/email_agent.py:142-158 | a successful batch has one entry per analysis, in input order |
| EmailAgent.ResultForSpec | agents/email_agent.py:147-154 | each entry names its paper and carries its analysis summary |
| EmailAgent.NoHighThemes | agents/email_agent.py:225-228 | with every score at most 5, no theme is identified |
| EmailAgent.UniformSummary | agents/email_agent.py:222-234 | with every theme scored the same `n` of at most 5, the summary succeeds, lists no theme, and its highest score is `n` |
| EmailAgent.FallbackAnalysisSummary | agents/email_agent.py:222-234 | the fallback analysis' summary lists no theme and has highest score 3 |
| EmailAgent.TextAnalysisSummary | agents/email_agent.py:222-234 | a text-fallback analysis' summary lists no theme and has highest score 5 |
| AnalysisAgent.AltaStataFieldsTile | agents/analysis_agent.py:185-191 | the six fields, read in order, are the first 3500 characters of the reply |
| AnalysisAgent.AltaStataFieldWidths | agents/analysis_agent.py:185-192 | the overview holds at most 1000 characters and the others at most 500, exactly that many for a long reply; the raw analysis is the whole reply |
| AnalysisAgent.ThemeEntries | agents/analysis_agent.py:175-178 | the three themes, and only they, each with the given score and content |
| AnalysisAgent.BracedText | agents/analysis_agent.py:165-167 | a found span starts with `{` and ends with `}`; none is found iff no `}` follows the first `{` |
| AnalysisAgent.ParseAnalysisResponseSpec | agents/analysis_agent.py:157-181 | the result always carries the input paper; a decoded object keeps its other entries; otherwise the text fallback |
| AnalysisAgent.TextAnalysisSpec | agents/analysis_agent.py:175-181 | every theme scores 5, the three contents tile the first 1500 characters, and the raw reply is kept |
| AnalysisAgent.FallbackAnalysisSpec | agents/analysis_agent.py:195-203 | every theme scores 3 with the paper's snippet, and the status is "fallback" |
| ManageResults.FindDatePart | scripts/manage_results.py:40-46 | the loop with `break` finds a date piece iff one exists, and it is one of the pieces |
| ManageResults.DatePartOf | scripts/manage_results.py:40-46 | the date part is an eight-digit piece of the `_`-split name, or none iff no piece is one |
| ManageResults.FindDatePartIsFirst | scripts/manage_results.py:42-46 | the loop's answer is the first date piece |
| ManageResults.DateDirNameSpec | scripts/manage_results.py:48-52 | the name has ten characters, dashes at positions 4 and 7, and the eight digits in their order |
| ManageResults.OrganizeResultsByDate | scripts/manage_results.py:47-62 | the loop yields the moves and `files_moved` is their number |
| ManageResults.MovesAreFiltered | scripts/manage_results.py:47-62 | the moves are exactly the names with a date piece, in order, each to its date directory |
| ManageResults.UndatedNotMoved | scripts/manage_results.py:47-47 | a name without a date piece is never moved |
| ManageResults.InsertDesc | scripts/manage_results.py:86-86 | inserting adds the one element and keeps the rest |
| ManageResults.SortDescending | scripts/manage_results.py:86-86 | the result is sorted newest first and is a permutation of the input |
| ManageResults.SortedDescUnique | scripts/manage_results.py:86-86 | only one ordering is sorted newest first, so the result is the one Python gives |
| ManageResults.ListResultsByDate | scripts/manage_results.py:81-86 | the listing is sorted newest first and holds exactly the kept names |
| ManageResults.ListedNames | scripts/manage_results.py:81-84 | a name is listed iff it is a directory whose name starts with "20" |
| ManageResults.ParseDate | scripts/manage_results.py:150-152 | a parsed date is a real calendar date |
| ManageResults.CleanupOldResults | scripts/manage_results.py:148-160 | the loop yields the directories to archive and `moved_count` is their number |
| ManageResults.ArchivedMembers | scripts/manage_results.py:148-160 | a name is archived iff it is listed, parses, and its date is before the cutoff |
| ManageResults.UnparsableSkipped | scripts/manage_results.py:157-160 | a name that does not parse is skipped |
| ManageResults.DateDirRoundTrip | scripts/manage_results.py:48-52 | a directory made by the organiser parses back to the date its digits spell, exactly when they spell a real date |

## Left out

- Language-model calls (Vertex AI `invoke`) and prompt construction: replies are parameters (`Option<string>`, with `None` for a failed call).
- `json.loads` and `ast.literal_eval`: these are `decode` parameters that return `None` where Python raises.
- Web search, HTTP requests and BeautifulSoup: search results and page texts are parameters.
- The HTML patterns of the contributor parser (author markers, title tags, answer and reply extraction) and `html.unescape`: they are parameters. The marker matches are a list of positions with ids and names. The simple patterns that decide behaviour are modelled with leftmost-match semantics: `(\d+)\s*Like`, `/in/([A-Za-z0-9-]+)`, `<[^>]+>`, the LinkedIn URL in a reply, and the title-suffix and company-suffix patterns.
- Thread pools, LangGraph graph construction and `run_workflow`: orchestration only.
- Markdown, CSV and JSON writers, and the file system (`glob`, `os.makedirs`, `shutil.move`, `getmtime`): the scripts' loops run over the names the listings would give.
- Clocks: `datetime.now()` is left out. The archive cutoff is a parameter (a date plus microseconds).
- `size_mb` and other floating-point values are left out.
- Case mapping and letter classes are ASCII only: `str.lower()`, `str.isupper()`, `str.isalpha()`, `str.title()` and `re.IGNORECASE` matching treat only A-Z and a-z as letters, and digits are ASCII digits. Python also maps and classifies non-ASCII letters; the model leaves them unchanged and does not count them as letters. The members whose results this changes are named on the next lines.
- AuthorExtractor.IsIndividualAuthorFallback: a name with a non-ASCII letter is rejected, where Python's `name.replace(' ', '').isalpha()` (author_extractor.py:645) accepts it: "José García" is an individual to Python and not to the model.
- AuthorExtractor.SlugNameSpec: `.title()` (author_extractor.py:556) is ASCII, so a non-ASCII letter is treated as a word break: the slug "jurgen-müller" gives "Jurgen MüLler" in the model and "Jurgen Müller" in Python. The same holds for AuthorExtractor.SlugName, the function the lemma describes.
- LinkedInParser.ClassifiersIgnoreCase: the `re.IGNORECASE` patterns (linkedin_html_parser.py:195 and 246) and the company pattern of SearchAgent.CompanyCutSpec (agents/search_agent.py:141-142) fold ASCII letters only; a title whose keyword is written with non-ASCII capitals can be classified differently.
- SearchAgent.RemovalPoint: the publication test's `isupper()` counts ASCII capitals only, so an all-capital name with non-ASCII letters is judged by its ASCII letters alone.
- Configuration lists are parameters: business keywords, security themes for scoring, and the batch size. So are the generator's profile tables and answer templates. The source's tables are non-empty, and so the generator requires non-empty standard profiles and templates.
- Python's `sorted` is Timsort. The model sorts by insertion, and the results agree because both sorts are stable.
- KeywordRules.MatchingDistinct: stated under a requires that the table labels are distinct. The pairwise distinctness of the 23 technical labels is not proved.
- EmailAgent.HighestScoreNotNegative: requires non-negative theme scores, because the scores come from the language model and Python's `max` takes them as they are.
- The main.py:18 argument mismatch (`paper_url` passed where `compatibility_analysis` is expected) is not modelled: that path only feeds the language model.
- `config.PAPERS_PER_BATCH` (workflow.py:75) is not defined in the configuration; the batch size is not modelled.
- Dead code is not modelled: `test_precise_extraction` nested in `main`, the no-op `generate_linkedin_prospects_file`, and `_generate_emails_node`, which is not wired into the graph.
- The hard-coded contributor data of the alternative extractor is not modelled.
- Windows start at the marker's START, as the code does (linkedin_html_parser.py:46-53), not at the end of the marker.
- A merged record keeps the FIRST record's name and classifier flags, as the code does. Only the title is "longest, earliest on ties".
- A whitespace-only author name makes `split()[0]` raise `IndexError` (workflow.py:377, main.py:23). The model returns an error there instead of raising.

## Findings

| source | as written | input that shows it | evidently intended | confidence | as-written member | corrected member |
|---|---|---|---|---|---|---|
| agents/search_agent.py:217 | reads `config.BUSINESS_KEYWORDS`, which the configuration module does not define | any non-empty list of papers: the first paper's scoring raises `AttributeError` | score each paper against a configured keyword list and sort by score | not executed | SearchAgent.RankAsWrittenFails | SearchAgent.RankingSpec |
