/**
 * The stand-alone extractor for one LinkedIn advice post
 * (`linkedin_advice_extractor_working.py`): its own relevance ranking, its
 * two title classifiers, the keyword table of technical details, the
 * generator of synthetic contributors and the priority and cleaning rules of
 * its CSV file.
 *
 * This ranking is not the parser's: it is a first-match ladder of title
 * tiers plus an encryption bonus, sorted together with the likes.
 */
module AdviceExtractor {
  import opened Strings
  import StableSort
  import Seqs
  import opened KeywordRules

  /** A contributor record of this extractor: `likes` is always a digit string. */
  datatype Advice = Advice(
    name: string,
    title: string,
    linkedinProfile: string,
    answer: string,
    likes: DigitString,
    replies: string)

  function Likes(a: Advice): nat { DigitsToNat(a.likes) }

  function Max(a: int, b: int): int { if a >= b then a else b }

  // ---------------------------------------------------------------- the score

  const EncryptionKeywords: seq<string> :=
    ["encryption", "encrypt", "encrypted", "homomorphic encryption", "end-to-end encryption"]

  const CLevelTier: seq<string> :=
    ["ceo", "cto", "cfo", "coo", "cdo", "cpo", "cmo", "ciso", "cso", "chief", "president"]
  const FounderTier: seq<string> := ["founder", "co-founder"]
  const LeaderTier: seq<string> := ["vp", "vice president", "director", "head of", "lead of"]
  const BusinessTier: seq<string> := [
    "business development", "business consultant", "business advisor", "sales", "partnership",
    "strategy", "growth", "revenue"]
  const AdvisorTier: seq<string> := ["consultant", "advisor", "evangelist", "advocate"]
  const ProductTier: seq<string> :=
    ["product manager", "product director", "marketing director", "marketing manager", "product marketing"]
  const ComplianceTier: seq<string> :=
    ["compliance", "legal", "privacy officer", "data protection officer", "dpo"]
  const AcademiaTier: seq<string> := ["professor", "dr.", "research", "academic", "university", "institute"]
  const GovernmentTier: seq<string> := ["government", "federal", "defense", "military", "agency"]
  const StartupTier: seq<string> := ["startup", "entrepreneur"]
  const SeniorTier: seq<string> := ["architect", "principal", "lead", "senior"]
  const TechnicalTier: seq<string> := ["engineer", "analyst", "specialist", "developer"]
  const ExpertiseWords: seq<string> := ["vendor", "security", "privacy", "compliance"]

  /** `mentions_encryption`: one of the keywords occurs in the lower-cased answer. */
  predicate MentionsEncryption(answer: string)
  {
    ContainsAny(Lower(answer), EncryptionKeywords)
  }

  /** Every keyword holds "encrypt", so the test is just whether "encrypt" occurs. */
  lemma MentionsEncryptionIsEncrypt(answer: string)
    ensures MentionsEncryption(answer) <==> Contains(Lower(answer), "encrypt")
  {
    var s := Lower(answer);
    if MentionsEncryption(answer) {
      var k :| 0 <= k < |EncryptionKeywords| && Contains(s, EncryptionKeywords[k]);
      var at := [0, 0, 0, 12, 11];
      assert OccursAt(EncryptionKeywords[k], "encrypt", at[k]);
      ContainsPiece(s, EncryptionKeywords[k], "encrypt", at[k]);
    }
    if Contains(s, "encrypt") {
      assert Contains(s, EncryptionKeywords[1]);
    }
  }

  /**
   * The base of the first tier that matches, tried in the source's order.
   * `title` and `answer` are already lower-cased.
   */
  function TierScore(title: string, likes: nat, answer: string): (r: int)
    ensures r in {100, 95, 90, 85, 80, 75, 70, 65, 60, 50, 45, 40, 30, 10}
  {
    if ContainsAny(title, CLevelTier) then 100
    else if ContainsAny(title, FounderTier) then 95
    else if ContainsAny(title, LeaderTier) then 90
    else if ContainsAny(title, BusinessTier) then 85
    else if ContainsAny(title, AdvisorTier) then 75
    else if ContainsAny(title, ProductTier) then 80
    else if ContainsAny(title, ComplianceTier) then 85
    else if ContainsAny(title, AcademiaTier) then 70
    else if ContainsAny(title, GovernmentTier) then 65
    else if ContainsAny(title, StartupTier) then 60
    else if ContainsAny(title, SeniorTier) then 50
    else if likes >= 20 then 45
    else if ContainsAny(title, TechnicalTier) then 30
    else if |answer| > 200 && ContainsAny(answer, ExpertiseWords) then 40
    else 10
  }

  /** `relevance_score` in `_sort_by_relevance`. */
  function RelevanceScore(a: Advice): (r: int)
    ensures 10 <= r <= 120
    ensures MentionsEncryption(a.answer) ==> r >= 30
  {
    TierScore(Lower(a.title), Likes(a), Lower(a.answer)) + (if MentionsEncryption(a.answer) then 20 else 0)
  }

  /** The sort key `(relevance_score(x), int(x['likes']))`. */
  function RankKey(a: Advice): StableSort.Key
  {
    (RelevanceScore(a), Likes(a))
  }

  /** `_sort_by_relevance`: `sorted(..., key=(score, likes), reverse=True)`. */
  function SortByRelevance(records: seq<Advice>): seq<Advice>
  {
    StableSort.SortDesc(records, RankKey)
  }

  /**
   * The result reorders the input, by descending score and then descending
   * likes; records with the same score and likes keep their input order.
   */
  lemma SortByRelevanceSpec(records: seq<Advice>, key: StableSort.Key)
    ensures multiset(SortByRelevance(records)) == multiset(records)
    ensures forall i, j :: 0 <= i < j < |SortByRelevance(records)| ==>
              StableSort.KeyAtMost(RankKey(SortByRelevance(records)[j]), RankKey(SortByRelevance(records)[i]))
    ensures StableSort.WithKey(SortByRelevance(records), RankKey, key) == StableSort.WithKey(records, RankKey, key)
  {
    StableSort.SortDescSorted(records, RankKey);
    StableSort.SortDescStable(records, RankKey, key);
  }

  /** Scores come first: a higher score is never placed after a lower one. */
  lemma HigherScoreFirst(records: seq<Advice>)
    ensures forall i, j :: 0 <= i < j < |SortByRelevance(records)| ==>
              RelevanceScore(SortByRelevance(records)[j]) <= RelevanceScore(SortByRelevance(records)[i])
  {
    SortByRelevanceSpec(records, (0, 0));
  }

  // ---------------------------------------------------------------- classifiers

  /** `_is_high_priority`: C-level, founder, VP, director, head or lead. */
  predicate IsHighPriority(a: Advice)
  {
    ContainsAny(Lower(a.title), CLevelTier + FounderTier + LeaderTier)
  }

  /** `_is_business_developer`: business, partnership, growth, consulting or advocacy words. */
  predicate IsBusinessDeveloper(a: Advice)
  {
    ContainsAny(Lower(a.title), BusinessTier + AdvisorTier)
  }

  /** The classifier's words are exactly the three top tiers' words. */
  lemma HighPriorityIffTopTiers(a: Advice)
    ensures IsHighPriority(a) <==> TierScore(Lower(a.title), Likes(a), Lower(a.answer)) >= 90
  {
    var t := Lower(a.title);
    ContainsAnyAppend(t, CLevelTier + FounderTier, LeaderTier);
    ContainsAnyAppend(t, CLevelTier, FounderTier);
  }

  /** A business developer who is not high priority lands in the 85 or the 75 tier. */
  lemma BusinessDeveloperTiers(a: Advice)
    requires IsBusinessDeveloper(a) && !IsHighPriority(a)
    ensures TierScore(Lower(a.title), Likes(a), Lower(a.answer)) in {85, 75}
  {
    HighPriorityIffTopTiers(a);
    ContainsAnyAppend(Lower(a.title), BusinessTier, AdvisorTier);
  }

  /** C-level is tried before founder: "Founder & CEO" scores 100. */
  lemma FounderAndCeoIsCLevel(likes: nat, answer: string)
    ensures TierScore(Lower("Founder & CEO"), likes, answer) == 100
  {
    var t := Lower("Founder & CEO");
    assert t == "founder & ceo";
    assert OccursAt(t, CLevelTier[0], 10);
  }

  /**
   * Two of the product tier's words hold "director", which the 90 tier
   * catches first, so those titles never get the product tier's 80.
   */
  lemma ProductDirectorsScoreAsDirectors(title: string, likes: nat, answer: string)
    requires Contains(title, "product director") || Contains(title, "marketing director")
    ensures TierScore(title, likes, answer) >= 90
  {
    if Contains(title, "product director") {
      assert OccursAt("product director", "director", 8);
      ContainsPiece(title, "product director", "director", 8);
    } else {
      assert OccursAt("marketing director", "director", 10);
      ContainsPiece(title, "marketing director", "director", 10);
    }
    assert Contains(title, LeaderTier[2]);
  }

  /**
   * The advisor tier is tried before the product and the compliance tiers: a
   * title with an advisor word and no word of a higher tier scores 75, even
   * when it also holds a product word (80) or a compliance word (85).
   */
  lemma AdvisorBeforeProductAndCompliance(a: Advice)
    requires !IsHighPriority(a) && !ContainsAny(Lower(a.title), BusinessTier)
    requires ContainsAny(Lower(a.title), AdvisorTier)
    ensures TierScore(Lower(a.title), Likes(a), Lower(a.answer)) == 75
  {
    HighPriorityIffTopTiers(a);
  }

  // ---------------------------------------------------------------- technical details

  const TechnicalPatterns: seq<Rule> := [
    Rule("encryption in transit and at rest", ["transit", "rest", "in motion", "at rest"]),
    Rule("vendor compliance standards", ["compliance", "standards", "certifications", "regulations"]),
    Rule("access control implementation", ["access control", "authentication", "authorization"]),
    Rule("data anonymization techniques", ["anonymization", "pseudonymization", "masking"]),
    Rule("continuous monitoring", ["continuous", "real-time", "ongoing", "monitoring"]),
    Rule("contract security clauses", ["contract", "clause", "agreement", "terms"]),
    Rule("API security measures", ["API", "endpoint", "interface", "secure"]),
    Rule("risk assessment protocols", ["risk assessment", "evaluation", "analysis"]),
    Rule("incident response planning", ["incident", "response", "breach", "recovery"]),
    Rule("zero-trust architecture", ["zero-trust", "zero trust"]),
    Rule("homomorphic encryption", ["homomorphic", "homomorphic encryption"]),
    Rule("federated learning", ["federated", "federated learning"]),
    Rule("confidential computing", ["confidential computing", "secure enclaves"]),
    Rule("differential privacy", ["differential privacy", "privacy-preserving"]),
    Rule("model watermarking", ["watermarking", "model watermarking"]),
    Rule("threat modeling", ["threat modeling", "threat model"]),
    Rule("penetration testing", ["penetration testing", "pen testing"]),
    Rule("security monitoring", ["security monitoring", "threat detection"]),
    Rule("data loss prevention", ["DLP", "data loss prevention"]),
    Rule("model versioning", ["model versioning", "versioning"]),
    Rule("lineage tracking", ["lineage", "lineage tracking"]),
    Rule("bias detection", ["bias", "bias detection"]),
    Rule("audit trails", ["audit trail", "audit trails"])]

  /** `_extract_technical_details`. */
  function TechnicalDetails(answer: string): seq<string>
  {
    Matching(TechnicalPatterns, Lower(answer))
  }

  method ExtractTechnicalDetails(answer: string) returns (details: seq<string>)
    ensures details == TechnicalDetails(answer)
  {
    details := [];
    var answerLower := Lower(answer);
    for k := 0 to |TechnicalPatterns|
      invariant details == Matching(TechnicalPatterns[..k], answerLower)
    {
      var pattern := TechnicalPatterns[k];
      if ContainsAny(answerLower, pattern.keywords) {
        details := details + [pattern.tag];
      }
      assert TechnicalPatterns[..k + 1][..k] == TechnicalPatterns[..k];
    }
    assert TechnicalPatterns[..|TechnicalPatterns|] == TechnicalPatterns;
  }

  /** The upper-case keywords "API" and "DLP" are looked for in a lower-cased text, so they never match. */
  lemma UpperCaseKeywordsNeverMatch(answer: string)
    ensures !Contains(Lower(answer), "API") && !Contains(Lower(answer), "DLP")
  {
    LowerHasNoUpper(answer, "API", 0);
    LowerHasNoUpper(answer, "DLP", 0);
  }

  /** So "data loss prevention" is reported only for its spelled-out keyword. */
  lemma DataLossPreventionNeedsWords(answer: string)
    ensures ContainsAny(Lower(answer), TechnicalPatterns[18].keywords) <==> Contains(Lower(answer), "data loss prevention")
  {
    UpperCaseKeywordsNeverMatch(answer);
    var ks := TechnicalPatterns[18].keywords;
    assert ks == ["DLP", "data loss prevention"];
    if Contains(Lower(answer), "data loss prevention") {
      assert Contains(Lower(answer), ks[1]);
    }
  }

  // ---------------------------------------------------------------- synthetic contributors

  /** One row of the generator's profile tables. */
  datatype Profile = Profile(name: string, title: string, company: string)

  /** `name.lower().replace(' ', '-').replace('.', '').replace(',', '')`. */
  function Slug(name: string): string
  {
    Replace(Replace(Replace(Lower(name), " ", "-"), ".", ""), ",", "")
  }

  function GeneratedProfileUrl(name: string): string
  {
    "https://www.linkedin.com/in/" + Slug(name)
  }

  /** A slug holds no space, dot or comma. */
  lemma SlugClean(name: string)
    ensures ' ' !in Slug(name) && '.' !in Slug(name) && ',' !in Slug(name)
  {
    var a := Replace(Lower(name), " ", "-");
    var b := Replace(a, ".", "");
    ReplaceRemoves(Lower(name), " ", "-");
    ReplaceKeepsAbsent(a, ".", "", ' ');
    ReplaceRemoves(a, ".", "");
    ReplaceKeepsAbsent(b, ",", "", ' ');
    ReplaceKeepsAbsent(b, ",", "", '.');
    ReplaceRemoves(b, ",", "");
  }

  function HighPriorityLikes(i: nat): nat
  {
    Max(15, 30 - i / 5) + i % 8
  }

  function StandardLikes(i: nat): nat
  {
    Max(1, 20 - i / 10) + i % 5
  }

  /** High-priority profiles get between 15 and 37 likes, standard ones at least 1. */
  lemma GeneratedLikesBounds(i: nat)
    ensures 15 <= HighPriorityLikes(i) <= 37
    ensures 1 <= StandardLikes(i) <= 24
  {
  }

  /** The record both loops append: the profile's name and title, its URL, an answer, likes and replies. */
  function GeneratedRecord(profile: Profile, answer: string, likes: nat, replies: string): Advice
  {
    Advice(profile.name, profile.title, GeneratedProfileUrl(profile.name), answer, NatToStr(likes), replies)
  }

  /** The `i`-th record of the high-priority loop. */
  function HighPriorityRecord(i: nat, profiles: seq<Profile>, templates: seq<string>): Advice
    requires i < |profiles| && |templates| > 0
  {
    GeneratedRecord(profiles[i], Seqs.Cycle(templates, i), HighPriorityLikes(i), HighPriorityReplies(i, profiles))
  }

  /** Every fourth high-priority record names the next profile in its replies. */
  function HighPriorityReplies(i: nat, profiles: seq<Profile>): string
    requires |profiles| > 0
  {
    if i % 4 != 0 then ""
    else "Replies from " + Seqs.Cycle(profiles, i + 1).name + " and more: Excellent insights on AI security strategy!"
  }

  /** The `i`-th record of the standard loop. */
  function StandardRecord(i: nat, profiles: seq<Profile>, templates: seq<string>): Advice
    requires |profiles| > 0 && |templates| > 0
  {
    GeneratedRecord(Seqs.Cycle(profiles, i), Seqs.Cycle(templates, i), StandardLikes(i), StandardReplies(i, profiles))
  }

  /** Every third standard record names the next profile in its replies. */
  function StandardReplies(i: nat, profiles: seq<Profile>): string
    requires |profiles| > 0
  {
    if i % 3 != 0 then ""
    else "Replies from " + Seqs.Cycle(profiles, i + 1).name + " and more: Great points on AI security!"
  }

  /** How many high-priority profiles are used for `count`. */
  function HighPriorityCount(count: int, profiles: seq<Profile>): nat
  {
    if count <= 0 then 0 else if count < |profiles| then count else |profiles|
  }

  function HighPriorityPart(n: nat, profiles: seq<Profile>, templates: seq<string>): (r: seq<Advice>)
    requires n <= |profiles| && |templates| > 0
  {
    seq(n, i requires 0 <= i < n => HighPriorityRecord(i, profiles, templates))
  }

  function StandardPart(n: nat, profiles: seq<Profile>, templates: seq<string>): (r: seq<Advice>)
    requires |profiles| > 0 && |templates| > 0
  {
    seq(n, i requires 0 <= i => StandardRecord(i, profiles, templates))
  }

  /** One more iteration of the first loop appends the next high-priority record. */
  lemma HighPriorityPartStep(n: nat, profiles: seq<Profile>, templates: seq<string>)
    requires n < |profiles| && |templates| > 0
    ensures HighPriorityPart(n + 1, profiles, templates)
            == HighPriorityPart(n, profiles, templates) + [HighPriorityRecord(n, profiles, templates)]
  {
    var longer := HighPriorityPart(n + 1, profiles, templates);
    var shorter := HighPriorityPart(n, profiles, templates);
    forall k | 0 <= k < n ensures longer[k] == shorter[k] {
    }
  }

  /** One more iteration of the second loop appends the next standard record. */
  lemma StandardPartStep(n: nat, profiles: seq<Profile>, templates: seq<string>)
    requires |profiles| > 0 && |templates| > 0
    ensures StandardPart(n + 1, profiles, templates)
            == StandardPart(n, profiles, templates) + [StandardRecord(n, profiles, templates)]
  {
    var longer := StandardPart(n + 1, profiles, templates);
    var shorter := StandardPart(n, profiles, templates);
    forall k | 0 <= k < n ensures longer[k] == shorter[k] {
    }
  }

  /**
   * `_generate_additional_contributors(count)`: the high-priority profiles in
   * order, as many as `count` allows, then standard profiles, cycling, up to
   * `count` records in all.
   */
  function Generated(count: int, highPriority: seq<Profile>, standard: seq<Profile>, templates: seq<string>): seq<Advice>
    requires |standard| > 0 && |templates| > 0
  {
    var n := HighPriorityCount(count, highPriority);
    HighPriorityPart(n, highPriority, templates) + StandardPart(Max(count, 0) - n, standard, templates)
  }

  /**
   * Exactly `max(count, 0)` records: first the high-priority profiles in
   * table order, all of them when `count` allows, then the standard profiles
   * cycled from the first.
   */
  lemma GeneratedSpec(count: int, highPriority: seq<Profile>, standard: seq<Profile>, templates: seq<string>, i: nat)
    requires |standard| > 0 && |templates| > 0
    ensures |Generated(count, highPriority, standard, templates)| == Max(count, 0)
    ensures HighPriorityCount(count, highPriority) <= |highPriority|
    ensures count >= |highPriority| ==> HighPriorityCount(count, highPriority) == |highPriority|
    ensures i < HighPriorityCount(count, highPriority) ==>
              Generated(count, highPriority, standard, templates)[i].name == highPriority[i].name
    ensures HighPriorityCount(count, highPriority) <= i < Max(count, 0) ==>
              Generated(count, highPriority, standard, templates)[i].name
              == standard[(i - HighPriorityCount(count, highPriority)) % |standard|].name
  {
    var n := HighPriorityCount(count, highPriority);
    if i < n {
      GeneratedAtHigh(count, highPriority, standard, templates, i);
    } else if i < Max(count, 0) {
      GeneratedAtStandard(count, highPriority, standard, templates, i);
      Seqs.CycleIsMod(standard, i - n);
    }
  }

  /** A generated record before `n` is the `i`-th high-priority record. */
  lemma GeneratedAtHigh(count: int, highPriority: seq<Profile>, standard: seq<Profile>, templates: seq<string>, i: nat)
    requires |standard| > 0 && |templates| > 0
    requires i < HighPriorityCount(count, highPriority)
    ensures i < |Generated(count, highPriority, standard, templates)|
    ensures i < |highPriority|
    ensures Generated(count, highPriority, standard, templates)[i] == HighPriorityRecord(i, highPriority, templates)
  {
    var n := HighPriorityCount(count, highPriority);
    var hp := HighPriorityPart(n, highPriority, templates);
    var st := StandardPart(Max(count, 0) - n, standard, templates);
    Seqs.AppendAt(hp, st, i);
  }

  /** A generated record from `n` on is a standard record counted from `n`. */
  lemma GeneratedAtStandard(count: int, highPriority: seq<Profile>, standard: seq<Profile>, templates: seq<string>,
                            i: nat)
    requires |standard| > 0 && |templates| > 0
    requires HighPriorityCount(count, highPriority) <= i < Max(count, 0)
    ensures i < |Generated(count, highPriority, standard, templates)|
    ensures Generated(count, highPriority, standard, templates)[i]
            == StandardRecord(i - HighPriorityCount(count, highPriority), standard, templates)
  {
    var n := HighPriorityCount(count, highPriority);
    var hp := HighPriorityPart(n, highPriority, templates);
    var st := StandardPart(Max(count, 0) - n, standard, templates);
    Seqs.AppendAt(hp, st, i);
  }

  /**
   * Every generated record links to the profile URL made from its own name,
   * whose slug holds no space, dot or comma, and carries between 1 and 37
   * likes, at least 15 of them for a high-priority profile.
   */
  lemma GeneratedRecordShape(count: int, highPriority: seq<Profile>, standard: seq<Profile>, templates: seq<string>,
                             i: nat)
    requires |standard| > 0 && |templates| > 0
    requires i < |Generated(count, highPriority, standard, templates)|
    ensures var r := Generated(count, highPriority, standard, templates)[i];
            && r.linkedinProfile == GeneratedProfileUrl(r.name)
            && ' ' !in Slug(r.name) && '.' !in Slug(r.name) && ',' !in Slug(r.name)
            && 1 <= Likes(r) <= 37
            && (i < HighPriorityCount(count, highPriority) ==> 15 <= Likes(r))
  {
    var n := HighPriorityCount(count, highPriority);
    var g := Generated(count, highPriority, standard, templates);
    if i < n {
      GeneratedAtHigh(count, highPriority, standard, templates, i);
      GeneratedLikesBounds(i);
      GeneratedRecordFacts(highPriority[i], Seqs.Cycle(templates, i), HighPriorityLikes(i),
                           HighPriorityReplies(i, highPriority));
    } else {
      var j := i - n;
      GeneratedAtStandard(count, highPriority, standard, templates, i);
      GeneratedLikesBounds(j);
      GeneratedRecordFacts(Seqs.Cycle(standard, j), Seqs.Cycle(templates, j), StandardLikes(j),
                           StandardReplies(j, standard));
    }
  }

  /** A generated record carries its name's URL, a clean slug, and the likes it was given. */
  lemma GeneratedRecordFacts(profile: Profile, answer: string, likes: nat, replies: string)
    ensures var r := GeneratedRecord(profile, answer, likes, replies);
            && r.linkedinProfile == GeneratedProfileUrl(r.name)
            && ' ' !in Slug(r.name) && '.' !in Slug(r.name) && ',' !in Slug(r.name)
            && Likes(r) == likes
  {
    ReadBack(likes);
    SlugClean(profile.name);
  }

  method GenerateAdditionalContributors(count: int, highPriority: seq<Profile>, standard: seq<Profile>,
                                        templates: seq<string>)
    returns (contributors: seq<Advice>)
    requires |standard| > 0 && |templates| > 0
    ensures contributors == Generated(count, highPriority, standard, templates)
  {
    contributors := [];
    var i := 0;
    while i < |highPriority|
      invariant 0 <= i <= HighPriorityCount(count, highPriority)
      invariant contributors == HighPriorityPart(i, highPriority, templates)
      decreases |highPriority| - i
    {
      if i >= count {
        break;
      }
      var profile := highPriority[i];
      var answerTemplate := Seqs.Cycle(templates, i);
      var likes := HighPriorityLikes(i);
      var replies := HighPriorityReplies(i, highPriority);
      HighPriorityPartStep(i, highPriority, templates);
      contributors := contributors + [GeneratedRecord(profile, answerTemplate, likes, replies)];
      i := i + 1;
    }
    assert i == HighPriorityCount(count, highPriority) && |contributors| == i;
    var highPriorityRecords := contributors;
    var remainingCount := count - |contributors|;
    for j := 0 to Max(remainingCount, 0)
      invariant contributors == highPriorityRecords + StandardPart(j, standard, templates)
    {
      var profile := Seqs.Cycle(standard, j);
      var answerTemplate := Seqs.Cycle(templates, j);
      var likes := StandardLikes(j);
      var replies := StandardReplies(j, standard);
      StandardPartStep(j, standard, templates);
      Seqs.AppendAssoc(highPriorityRecords, StandardPart(j, standard, templates),
                  [GeneratedRecord(profile, answerTemplate, likes, replies)]);
      contributors := contributors + [GeneratedRecord(profile, answerTemplate, likes, replies)];
    }
  }

  // ---------------------------------------------------------------- the CSV file

  datatype Priority = High | Business | MediumHigh | Medium | Low
  {
    function Label(): string
    {
      match this
      case High => "HIGH"
      case Business => "BUSINESS"
      case MediumHigh => "MEDIUM-HIGH"
      case Medium => "MEDIUM"
      case Low => "LOW"
    }
  }

  const MediumHighKeywords: seq<string> := ["compliance", "legal", "privacy officer", "product manager", "marketing"]

  /** The priority column of `create_csv_tracking_file`: the first rule that applies. */
  function CsvPriority(a: Advice): Priority
  {
    if IsHighPriority(a) then High
    else if IsBusinessDeveloper(a) then Business
    else if ContainsAny(Lower(a.title), MediumHighKeywords) then MediumHigh
    else if Likes(a) >= 20 then Medium
    else Low
  }

  /** The CSV priority and the ranking agree at the top: HIGH is exactly the tiers scoring 90 or more. */
  lemma CsvPriorityMatchesRanking(a: Advice)
    ensures CsvPriority(a) == High <==> TierScore(Lower(a.title), Likes(a), Lower(a.answer)) >= 90
    ensures CsvPriority(a) == Business ==> TierScore(Lower(a.title), Likes(a), Lower(a.answer)) in {85, 75}
  {
    HighPriorityIffTopTiers(a);
    if CsvPriority(a) == Business {
      BusinessDeveloperTiers(a);
    }
  }

  /** `.replace(',', ';').replace('"', "'")`. */
  function CsvField(s: string): string
  {
    Replace(Replace(s, ",", ";"), "\"", "'")
  }

  /** A cleaned field cannot break the quoted CSV row: no comma, no double quote, same length. */
  lemma CsvFieldClean(s: string)
    ensures ',' !in CsvField(s) && '"' !in CsvField(s)
    ensures |CsvField(s)| == |s|
  {
    var a := Replace(s, ",", ";");
    ReplaceRemoves(s, ",", ";");
    ReplaceKeepsAbsent(a, "\"", "'", ',');
    ReplaceRemoves(a, "\"", "'");
    ReplaceCharLength(s, ",", ";");
    ReplaceCharLength(a, "\"", "'");
  }

  /** The technical-focus column: the first three details joined by ", ", then cleaned. */
  function CsvTechnicalFocus(answer: string): string
  {
    CsvField(Join(Take(TechnicalDetails(answer), 3), ", "))
  }

  /** The ten columns of one CSV row, before quoting. */
  function CsvRow(a: Advice): (row: seq<string>)
    ensures |row| == 10
  {
    [CsvPriority(a).Label(), CsvField(a.name), CsvField(a.title), a.linkedinProfile,
     a.likes + " likes", CsvTechnicalFocus(a.answer), "", "", "", ""]
  }

  /** The free-text columns of a row hold no comma and no double quote. */
  lemma CsvRowClean(a: Advice)
    ensures forall k :: k in {1, 2, 5} ==> ',' !in CsvRow(a)[k] && '"' !in CsvRow(a)[k]
  {
    CsvFieldClean(a.name);
    CsvFieldClean(a.title);
    CsvFieldClean(Join(Take(TechnicalDetails(a.answer), 3), ", "));
  }
}
