/**
 * The contributor record that the LinkedIn page parser builds for each
 * comment window (`linkedin_html_parser.py`), the record it becomes once
 * comments of the same person are merged, and the profile id that decides
 * who is "the same person": the first `/in/` in the profile URL followed by
 * a maximal run of `[a-zA-Z0-9-]`.
 */
module ContributorRecords {
  import opened Strings

  /** The answer text used when a contributor has nothing substantial to show. */
  const Placeholder: string := "Contributor to AI security discussion"

  datatype Contributor = Contributor(
    name: string,
    title: string,
    linkedinProfile: string,
    answer: string,
    likes: DigitString,
    replies: string,
    isHighPriority: bool,
    isBusinessDeveloper: bool,
    mentionsEncryption: bool,
    index: int,
    source: string)

  datatype ActivityLevel = VeryActive | Active | SingleComment
  {
    function Label(): string
    {
      match this
      case VeryActive => "Very Active"
      case Active => "Active"
      case SingleComment => "Single Comment"
    }
  }

  /** A contributor after merging: `record` carries the merged title, answer and likes. */
  datatype MergedContributor = MergedContributor(
    record: Contributor,
    commentCount: nat,
    allComments: seq<string>,
    allLikes: nat,
    allReplies: seq<string>,
    totalEngagement: nat,
    activityLevel: ActivityLevel)

  // ---------------------------------------------------------------- profile ids

  predicate IdChar(c: char) { IsLetter(c) || IsDigitChar(c) || c == '-' }

  /** A non-empty run of id characters: what `([a-zA-Z0-9\-]+)` captures. */
  predicate IsId(s: string)
  {
    s != [] && forall i :: 0 <= i < |s| ==> IdChar(s[i])
  }

  /** The longest prefix of `s` made of id characters. */
  function IdRun(s: string): (r: string)
    ensures |r| <= |s| && r == s[..|r|]
    ensures forall i :: 0 <= i < |r| ==> IdChar(r[i])
    ensures |r| < |s| ==> !IdChar(s[|r|])
  {
    if s != [] && IdChar(s[0]) then [s[0]] + IdRun(s[1..]) else []
  }

  predicate IdStartsAt(url: string, p: int)
  {
    0 <= p && p + 5 <= |url| && url[p..p + 4] == "/in/" && IdChar(url[p + 4])
  }

  /**
   * `re.search(r'/in/([a-zA-Z0-9\-]+)', url).group(1)`, or "" when nothing
   * matches: the id run after the leftmost `/in/` that has one.
   */
  function CoreId(url: string): (r: string)
    ensures r == [] || IsId(r)
    decreases |url|
  {
    if |url| < 5 then []
    else if IdStartsAt(url, 0) then IdRun(url[4..])
    else CoreId(url[1..])
  }

  /** The profile URL the parser builds from the id in the page link. */
  function ProfileUrl(linkedinId: string): string
  {
    Site + "/in/" + linkedinId
  }

  const Site: string := "https://linkedin.com"

  lemma SiteHasNoIdPath()
    ensures |Site| == 20 && Site[19] != '/'
    ensures forall p :: 0 <= p < 19 ==> !(Site[p] == '/' && Site[p + 1] == 'i')
  {
  }

  lemma NoIdStartInSite(url: string)
    requires |url| >= 24 && url[..20] == Site
    ensures forall p :: 0 <= p < 20 ==> !IdStartsAt(url, p)
  {
    SiteHasNoIdPath();
    forall p | 0 <= p < 20 ensures !IdStartsAt(url, p) {
      assert url[p..p + 4][0] == url[p] == Site[p];
      if p < 19 {
        assert url[p..p + 4][1] == url[p + 1] == Site[p + 1];
      }
    }
  }

  lemma {:induction false} CoreIdSkip(url: string, n: nat)
    requires n <= |url|
    requires forall p :: 0 <= p < n ==> !IdStartsAt(url, p)
    ensures CoreId(url) == CoreId(url[n..])
    decreases n
  {
    if n > 0 && |url| >= 5 {
      assert url[1..][n - 1..] == url[n..];
      forall p | 0 <= p < n - 1 ensures !IdStartsAt(url[1..], p) {
        assert !IdStartsAt(url, p + 1);
      }
      CoreIdSkip(url[1..], n - 1);
    } else if n > 0 {
      assert CoreId(url[n..]) == [];
    }
  }

  /**
   * The merge key of a parsed record is the id run at the front of the
   * page link's id; nothing in "https://linkedin.com" can be mistaken for it.
   */
  lemma CoreIdOfProfileUrl(linkedinId: string)
    requires linkedinId != [] && IdChar(linkedinId[0])
    ensures CoreId(ProfileUrl(linkedinId)) == IdRun(linkedinId)
  {
    var url := ProfileUrl(linkedinId);
    assert url[..20] == Site;
    NoIdStartInSite(url);
    CoreIdSkip(url, 20);
    assert url[20..] == "/in/" + linkedinId;
    assert IdStartsAt(url[20..], 0);
    assert url[20..][4..] == linkedinId;
  }
}
