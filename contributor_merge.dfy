/**
 * Merging the comments of one person (`_remove_duplicates`,
 * `linkedin_html_parser.py:505-594`).
 *
 * The first pass walks the records and keeps an insertion-ordered table
 * keyed by the profile id (`CoreId`); a record without an id is stored under
 * a fresh key `no_url_<n>`, `n` being the table's size. A repeated id adds
 * the record's answer, replies and likes to the entry, keeps the longer
 * title and ORs the encryption flag. The second pass turns each entry into
 * the merged record: the first three substantial answers, cleaned and joined,
 * the total likes as text, and an activity level.
 *
 * `Collect` is the first pass as a fold and `Dedup` the whole operation;
 * `RemoveDuplicates` is the loop the source runs, proved equal to `Dedup`.
 * The lemmas say what `Dedup` keeps: every comment and every like, one
 * record per id, the group's longest title, first-seen order.
 */
module ContributorMerge {
  import opened Strings
  import opened ContributorRecords

  const Separator: string := "\n\n---\n\n"

  /** A table entry: the person's first record plus what later ones added. */
  datatype Entry = Entry(
    record: Contributor,
    commentCount: nat,
    allComments: seq<string>,
    allLikes: nat,
    allReplies: seq<string>,
    totalEngagement: nat)

  /** The dictionary of the first pass: its entries and their insertion order. */
  datatype Table = Table(entries: map<string, Entry>, order: seq<string>)

  function Likes(c: Contributor): nat { DigitsToNat(c.likes) }

  function Key(c: Contributor): string { CoreId(c.linkedinProfile) }

  function NoUrlKey(n: nat): string { "no_url_" + NatToStr(n) }

  function FirstComment(c: Contributor): Entry
  {
    Entry(c, 1, [c.answer], Likes(c), [c.replies], Likes(c))
  }

  function Absorb(e: Entry, c: Contributor): Entry
  {
    var title := if |c.title| > |e.record.title| then c.title else e.record.title;
    Entry(e.record.(title := title, mentionsEncryption := e.record.mentionsEncryption || c.mentionsEncryption),
          e.commentCount + 1, e.allComments + [c.answer], e.allLikes + Likes(c),
          e.allReplies + [c.replies], e.totalEngagement + Likes(c))
  }

  /** One iteration of the first pass. */
  function Step(t: Table, c: Contributor): Table
  {
    var id := Key(c);
    if id != [] then
      if id in t.entries then Table(t.entries[id := Absorb(t.entries[id], c)], t.order)
      else Table(t.entries[id := FirstComment(c)], t.order + [id])
    else
      var k := NoUrlKey(|t.entries|);
      Table(t.entries[k := FirstComment(c)], if k in t.entries then t.order else t.order + [k])
  }

  /** The first pass over `cs`. */
  function Collect(cs: seq<Contributor>): Table
    decreases |cs|
  {
    if cs == [] then Table(map[], []) else Step(Collect(cs[..|cs| - 1]), cs[|cs| - 1])
  }

  // ---------------------------------------------------------------- second pass

  /** `[c for c in all_comments if c and c != Placeholder]`. */
  function Substantive(comments: seq<string>): (r: seq<string>)
    ensures forall i :: 0 <= i < |r| ==> r[i] != [] && r[i] != Placeholder
    ensures forall c :: c in r ==> c in comments
  {
    if comments == [] then []
    else (if comments[0] != [] && comments[0] != Placeholder then [comments[0]] else [])
         + Substantive(comments[1..])
  }

  /** Tags removed, whitespace runs made one space, ends trimmed. */
  function CleanComment(c: string): string
  {
    Strip(CollapseSpace(StripTags(c)))
  }

  /** The cleaned comments longer than ten characters, in order. */
  function Kept(comments: seq<string>): seq<string>
    decreases |comments|
  {
    if comments == [] then []
    else
      var cleaned := CleanComment(comments[|comments| - 1]);
      Kept(comments[..|comments| - 1]) + (if |cleaned| > 10 then [cleaned] else [])
  }

  function MergedAnswer(comments: seq<string>): string
  {
    var kept := Kept(Take(Substantive(comments), 3));
    if kept == [] then Placeholder else Join(kept, Separator)
  }

  function Activity(commentCount: nat): ActivityLevel
  {
    if commentCount >= 3 then VeryActive else if commentCount == 2 then Active else SingleComment
  }

  function Finalize(e: Entry): MergedContributor
  {
    MergedContributor(
      e.record.(answer := MergedAnswer(e.allComments), likes := NatToStr(e.totalEngagement)),
      e.commentCount, e.allComments, e.allLikes, e.allReplies, e.totalEngagement,
      Activity(e.commentCount))
  }

  /** `[f(m[k]) for k in keys]`. */
  function MapKeys<V, W>(keys: seq<string>, m: map<string, V>, f: V -> W): seq<W>
    requires forall i :: 0 <= i < |keys| ==> keys[i] in m
    decreases |keys|
  {
    if keys == [] then [] else MapKeys(keys[..|keys| - 1], m, f) + [f(m[keys[|keys| - 1]])]
  }

  /** The merged records of the table's keys, in the keys' order. */
  function Finalized(keys: seq<string>, m: map<string, Entry>): seq<MergedContributor>
    requires forall i :: 0 <= i < |keys| ==> keys[i] in m
  {
    MapKeys(keys, m, Finalize)
  }

  /** `_remove_duplicates(cs)`. */
  function Dedup(cs: seq<Contributor>): seq<MergedContributor>
  {
    var t := Collect(cs);
    CollectKeys(cs);
    Finalized(t.order, t.entries)
  }

  // ---------------------------------------------------------------- the records in place

  /** No record before position `i` has the profile id of the record at `i`. */
  predicate FirstWithId(cs: seq<Contributor>, i: nat)
    requires i < |cs|
  {
    forall j :: 0 <= j < i ==> Key(cs[j]) != Key(cs[i])
  }

  /**
   * The record at position `i` once `_remove_duplicates(cs)` has run. The
   * dictionaries the table holds are the caller's own, so the record that
   * opens a person's group, and every record without an id, ends up as its
   * merged record; the later records of a person are left as they were.
   */
  function Settled(cs: seq<Contributor>, i: nat): Contributor
    requires i < |cs|
  {
    var k := Key(cs[i]);
    if k == [] then Finalize(FirstComment(cs[i])).record
    else if FirstWithId(cs, i) then
      GroupWitness(cs, k);
      Finalize(GroupEntry(Group(cs, k))).record
    else cs[i]
  }

  /** The caller's list after `_remove_duplicates(cs)`. */
  function Settle(cs: seq<Contributor>): seq<Contributor>
  {
    seq(|cs|, i requires 0 <= i < |cs| => Settled(cs, i))
  }

  // ---------------------------------------------------------------- the loops

  method CombineComments(allComments: seq<string>) returns (answer: string)
    ensures answer == MergedAnswer(allComments)
  {
    var comments := Substantive(allComments);
    if comments == [] {
      return Placeholder;
    }
    var firstThree := Take(comments, 3);
    var cleanedComments: seq<string> := [];
    for k := 0 to |firstThree|
      invariant cleanedComments == Kept(firstThree[..k])
    {
      var cleaned := StripTags(firstThree[k]);
      cleaned := CollapseSpace(cleaned);
      cleaned := Strip(cleaned);
      if |cleaned| > 10 {
        cleanedComments := cleanedComments + [cleaned];
      }
      PrefixGrows(firstThree, k);
      KeptAppend(firstThree[..k], firstThree[k]);
    }
    PrefixGrows(firstThree, |firstThree|);
    if cleanedComments != [] {
      answer := Join(cleanedComments, Separator);
    } else {
      answer := Placeholder;
    }
  }

  lemma KeptAppend(comments: seq<string>, c: string)
    ensures Kept(comments + [c]) == Kept(comments) + (if |CleanComment(c)| > 10 then [CleanComment(c)] else [])
  {
    assert (comments + [c])[..|comments|] == comments;
  }

  /** The first pass: the table of entries and the order their keys were inserted. */
  method CollectEntries(contributors: seq<Contributor>) returns (contributorMap: map<string, Entry>, order: seq<string>)
    ensures Table(contributorMap, order) == Collect(contributors)
  {
    contributorMap, order := map[], [];
    for i := 0 to |contributors|
      invariant Table(contributorMap, order) == Collect(contributors[..i])
    {
      var contributor := contributors[i];
      assert contributors[..i + 1][..i] == contributors[..i];
      assert Collect(contributors[..i + 1]) == Step(Collect(contributors[..i]), contributor);
      var coreUrl := CoreId(contributor.linkedinProfile);
      var likes := DigitsToNat(contributor.likes);
      if coreUrl != [] {
        if coreUrl in contributorMap {
          var existing := contributorMap[coreUrl];
          var title := existing.record.title;
          if |contributor.title| > |title| {
            title := contributor.title;
          }
          var mentions := existing.record.mentionsEncryption;
          if contributor.mentionsEncryption {
            mentions := true;
          }
          existing := Entry(
            existing.record.(title := title, mentionsEncryption := mentions),
            existing.commentCount + 1,
            existing.allComments + [contributor.answer],
            existing.allLikes + likes,
            existing.allReplies + [contributor.replies],
            existing.totalEngagement + likes);
          contributorMap := contributorMap[coreUrl := existing];
        } else {
          contributorMap := contributorMap[coreUrl := Entry(contributor, 1, [contributor.answer], likes, [contributor.replies], likes)];
          order := order + [coreUrl];
        }
      } else {
        var key := NoUrlKey(|contributorMap|);
        if key !in contributorMap {
          order := order + [key];
        }
        contributorMap := contributorMap[key := Entry(contributor, 1, [contributor.answer], likes, [contributor.replies], likes)];
      }
    }
    PrefixGrows(contributors, |contributors|);
  }

  /** The body of the second pass: one entry becomes one merged record. */
  method MergeEntry(e: Entry) returns (merged: MergedContributor)
    ensures merged == Finalize(e)
  {
    var answer := CombineComments(e.allComments);
    var level := SingleComment;
    if e.commentCount >= 3 {
      level := VeryActive;
    } else if e.commentCount == 2 {
      level := Active;
    }
    merged := MergedContributor(
      e.record.(answer := answer, likes := NatToStr(e.totalEngagement)),
      e.commentCount, e.allComments, e.allLikes, e.allReplies, e.totalEngagement, level);
    FinalizeParts(e, merged);
  }

  lemma FinalizeParts(e: Entry, m: MergedContributor)
    requires m.record == e.record.(answer := MergedAnswer(e.allComments), likes := NatToStr(e.totalEngagement))
    requires m.commentCount == e.commentCount && m.allComments == e.allComments && m.allLikes == e.allLikes
    requires m.allReplies == e.allReplies && m.totalEngagement == e.totalEngagement
    requires m.activityLevel == Activity(e.commentCount)
    ensures m == Finalize(e)
  {
  }

  /** The second pass: each entry, in insertion order, becomes a merged record. */
  method FinalizeEntries(contributorMap: map<string, Entry>, order: seq<string>) returns (unique: seq<MergedContributor>)
    requires forall i :: 0 <= i < |order| ==> order[i] in contributorMap
    ensures unique == Finalized(order, contributorMap)
  {
    unique := [];
    for j := 0 to |order|
      invariant unique == Finalized(order[..j], contributorMap)
    {
      var merged := MergeEntry(contributorMap[order[j]]);
      FinalizedStep(order, contributorMap, j, unique, merged);
      unique := unique + [merged];
    }
    PrefixGrows(order, |order|);
  }

  /** `_remove_duplicates`: the first pass builds the table, the second finalizes each entry. */
  method RemoveDuplicates(contributors: seq<Contributor>) returns (unique: seq<MergedContributor>)
    ensures unique == Dedup(contributors)
  {
    var contributorMap, order := CollectEntries(contributors);
    CollectKeysOf(contributors, contributorMap, order);
    unique := FinalizeEntries(contributorMap, order);
  }

  /**
   * What `_remove_duplicates` leaves in the list it was given: each record
   * the table holds is rewritten with its merged title, answer, likes and
   * encryption flag, in the order the list holds them.
   */
  method SettleRecords(contributors: seq<Contributor>) returns (settled: seq<Contributor>)
    ensures settled == Settle(contributors)
  {
    var contributorMap, order := CollectEntries(contributors);
    var seen: set<string> := {};
    settled := [];
    for i := 0 to |contributors|
      invariant settled == Settle(contributors)[..i]
      invariant forall k :: k in seen <==> exists j :: 0 <= j < i && Key(contributors[j]) == k
    {
      var contributor := contributors[i];
      var coreUrl := CoreId(contributor.linkedinProfile);
      SettledStep(contributors, i, seen);
      var next := contributor;
      if coreUrl == [] {
        var merged := MergeEntry(FirstComment(contributor));
        next := merged.record;
      } else if coreUrl !in seen {
        var merged := MergeEntry(contributorMap[coreUrl]);
        next := merged.record;
      }
      SettleGrows(contributors, i);
      settled := settled + [next];
      SeenStep(contributors, i, seen);
      seen := seen + {coreUrl};
    }
    assert Settle(contributors)[..|contributors|] == Settle(contributors);
  }

  lemma SettleGrows(cs: seq<Contributor>, i: nat)
    requires i < |cs|
    ensures Settle(cs)[..i + 1] == Settle(cs)[..i] + [Settled(cs, i)]
  {
  }

  /** One step of `SettleRecords`: `seen` holds the ids of the records before `i`. */
  lemma SettledStep(cs: seq<Contributor>, i: nat, seen: set<string>)
    requires i < |cs|
    requires forall k :: k in seen <==> exists j :: 0 <= j < i && Key(cs[j]) == k
    ensures Key(cs[i]) != [] && Key(cs[i]) !in seen ==>
              Key(cs[i]) in Collect(cs).entries && Settled(cs, i) == Finalize(Collect(cs).entries[Key(cs[i])]).record
    ensures Key(cs[i]) != [] && Key(cs[i]) in seen ==> Settled(cs, i) == cs[i]
    ensures Key(cs[i]) == [] ==> Settled(cs, i) == Finalize(FirstComment(cs[i])).record
  {
    var k := Key(cs[i]);
    if k == [] {
    } else {
      if k !in seen {
        assert FirstWithId(cs, i);
        EntryAt(cs, i);
      } else {
        var j :| 0 <= j < i && Key(cs[j]) == k;
        assert !FirstWithId(cs, i);
      }
    }
  }

  lemma SeenStep(cs: seq<Contributor>, i: nat, seen: set<string>)
    requires i < |cs|
    requires forall k :: k in seen <==> exists j :: 0 <= j < i && Key(cs[j]) == k
    ensures forall k :: k in seen + {Key(cs[i])} <==> exists j :: 0 <= j < i + 1 && Key(cs[j]) == k
  {
  }

  /** The table's entry for the id of a record is the entry of that id's whole group. */
  lemma EntryAt(cs: seq<Contributor>, p: nat)
    requires p < |cs| && Key(cs[p]) != []
    ensures Group(cs, Key(cs[p])) != [] && Key(cs[p]) in Collect(cs).entries
    ensures Collect(cs).entries[Key(cs[p])] == GroupEntry(Group(cs, Key(cs[p])))
  {
    CollectOk(cs);
    GroupWitness(cs, Key(cs[p]));
  }

  lemma FinalizedStep(keys: seq<string>, m: map<string, Entry>, j: nat, done: seq<MergedContributor>, next: MergedContributor)
    requires forall i :: 0 <= i < |keys| ==> keys[i] in m
    requires j < |keys|
    requires done == Finalized(keys[..j], m) && next == Finalize(m[keys[j]])
    ensures done + [next] == Finalized(keys[..j + 1], m)
  {
    MapKeysAppend(keys[..j], m, Finalize, keys[j]);
    PrefixGrows(keys, j);
  }

  lemma {:induction false} MapKeysIndex<V, W>(keys: seq<string>, m: map<string, V>, f: V -> W, i: nat)
    requires forall j :: 0 <= j < |keys| ==> keys[j] in m
    requires i < |keys|
    ensures |MapKeys(keys, m, f)| == |keys|
    ensures MapKeys(keys, m, f)[i] == f(m[keys[i]])
    decreases |keys|
  {
    var pre := keys[..|keys| - 1];
    if i < |pre| {
      MapKeysIndex(pre, m, f, i);
      assert pre[i] == keys[i];
    } else if pre != [] {
      MapKeysIndex(pre, m, f, 0);
    }
  }

  lemma MapKeysAppend<V, W>(keys: seq<string>, m: map<string, V>, f: V -> W, k: string)
    requires forall i :: 0 <= i < |keys| ==> keys[i] in m
    requires k in m
    ensures MapKeys(keys + [k], m, f) == MapKeys(keys, m, f) + [f(m[k])]
  {
    assert (keys + [k])[..|keys|] == keys;
  }

  lemma {:induction false} MapKeysLength<V, W>(keys: seq<string>, m: map<string, V>, f: V -> W)
    requires forall i :: 0 <= i < |keys| ==> keys[i] in m
    ensures |MapKeys(keys, m, f)| == |keys|
    decreases |keys|
  {
    if keys != [] {
      MapKeysLength(keys[..|keys| - 1], m, f);
    }
  }

  lemma FinalizedIndex(keys: seq<string>, m: map<string, Entry>, i: nat)
    requires forall j :: 0 <= j < |keys| ==> keys[j] in m
    requires i < |keys|
    ensures |Finalized(keys, m)| == |keys|
    ensures Finalized(keys, m)[i] == Finalize(m[keys[i]])
  {
    MapKeysIndex(keys, m, Finalize, i);
  }

  // ---------------------------------------------------------------- reference: one group

  /** The records whose profile id is `k`, in input order. */
  function Group(cs: seq<Contributor>, k: string): seq<Contributor>
    decreases |cs|
  {
    if cs == [] then []
    else Group(cs[..|cs| - 1], k) + (if Key(cs[|cs| - 1]) == k then [cs[|cs| - 1]] else [])
  }

  function Answers(g: seq<Contributor>): seq<string> { seq(|g|, i requires 0 <= i < |g| => g[i].answer) }
  function Replies(g: seq<Contributor>): seq<string> { seq(|g|, i requires 0 <= i < |g| => g[i].replies) }
  function Titles(g: seq<Contributor>): seq<string> { seq(|g|, i requires 0 <= i < |g| => g[i].title) }

  function SumLikes(g: seq<Contributor>): nat
    decreases |g|
  {
    if g == [] then 0 else SumLikes(g[..|g| - 1]) + Likes(g[|g| - 1])
  }

  predicate AnyMentionsEncryption(g: seq<Contributor>)
  {
    exists i :: 0 <= i < |g| && g[i].mentionsEncryption
  }

  /** The longest of `titles`; of several longest, the earliest. */
  function Longest(titles: seq<string>): string
    requires titles != []
    decreases |titles|
  {
    if |titles| == 1 then titles[0]
    else
      var rest := Longest(titles[1..]);
      if |rest| > |titles[0]| then rest else titles[0]
  }

  /** What one person's entry should hold, stated on the whole group at once. */
  function GroupEntry(g: seq<Contributor>): Entry
    requires g != []
  {
    Entry(g[0].(title := Longest(Titles(g)), mentionsEncryption := AnyMentionsEncryption(g)),
          |g|, Answers(g), SumLikes(g), Replies(g), SumLikes(g))
  }

  // ---------------------------------------------------------------- table invariant

  ghost predicate TableOk(t: Table)
  {
    && |t.entries| == |t.order|
    && (forall i :: 0 <= i < |t.order| ==> t.order[i] in t.entries)
    && (forall k :: k in t.entries ==> k in t.order)
    && (forall i, j :: 0 <= i < j < |t.order| ==> t.order[i] != t.order[j])
    && (forall k :: k in t.entries ==> IsId(k) || exists n: nat :: n < |t.order| && k == NoUrlKey(n))
    && (forall k :: k in t.entries ==> Key(t.entries[k].record) == if IsId(k) then k else [])
    && (forall k :: k in t.entries && !IsId(k) ==> t.entries[k] == FirstComment(t.entries[k].record))
  }

  lemma NoUrlKeyIsNotId(n: nat)
    ensures !IsId(NoUrlKey(n))
  {
    assert NoUrlKey(n)[2] == '_';
  }

  lemma NoUrlKeyInjective(m: nat, n: nat)
    ensures NoUrlKey(m) == NoUrlKey(n) ==> m == n
  {
    if NoUrlKey(m) == NoUrlKey(n) {
      assert NoUrlKey(m)[7..] == NatToStr(m);
      assert NoUrlKey(n)[7..] == NatToStr(n);
      NatToStrInjective(m, n);
    }
  }

  /** `f"no_url_{len(contributor_map)}"` is never a key already in the table. */
  lemma NoUrlKeyFresh(t: Table)
    requires TableOk(t)
    ensures NoUrlKey(|t.entries|) !in t.entries
  {
    var newKey := NoUrlKey(|t.entries|);
    NoUrlKeyIsNotId(|t.entries|);
    forall k | k in t.entries ensures k != newKey {
      if !IsId(k) {
        var n: nat :| n < |t.order| && k == NoUrlKey(n);
        NoUrlKeyInjective(n, |t.entries|);
      }
    }
  }

  lemma GroupAppend(cs: seq<Contributor>, k: string)
    requires cs != []
    ensures Group(cs, k) == Group(cs[..|cs| - 1], k) + (if Key(cs[|cs| - 1]) == k then [cs[|cs| - 1]] else [])
  {
  }

  lemma {:induction false} LongestAppend(titles: seq<string>, t: string)
    requires titles != []
    ensures Longest(titles + [t]) == if |t| > |Longest(titles)| then t else Longest(titles)
    decreases |titles|
  {
    if |titles| > 1 {
      assert (titles + [t])[1..] == titles[1..] + [t];
      LongestAppend(titles[1..], t);
    } else {
      assert (titles + [t])[1..] == [t];
    }
  }

  lemma GroupEntryAppend(g: seq<Contributor>, c: Contributor)
    requires g != []
    ensures GroupEntry(g + [c]) == Absorb(GroupEntry(g), c)
  {
    var h := g + [c];
    assert Titles(h) == Titles(g) + [c.title];
    assert Answers(h) == Answers(g) + [c.answer];
    assert Replies(h) == Replies(g) + [c.replies];
    assert h[..|h| - 1] == g;
    LongestAppend(Titles(g), c.title);
    if c.mentionsEncryption {
      assert h[|g|].mentionsEncryption;
    } else if AnyMentionsEncryption(h) {
      var i :| 0 <= i < |h| && h[i].mentionsEncryption;
      assert g[i].mentionsEncryption;
    }
  }

  lemma GroupEntrySingle(c: Contributor)
    ensures GroupEntry([c]) == FirstComment(c)
  {
    assert [c][..0] == [];
    assert Titles([c]) == [c.title];
    assert Answers([c]) == [c.answer];
    assert Replies([c]) == [c.replies];
    assert SumLikes([c]) == Likes(c);
    if c.mentionsEncryption {
      assert [c][0].mentionsEncryption;
    }
  }

  ghost predicate GroupsMatch(cs: seq<Contributor>, t: Table)
  {
    && (forall k :: IsId(k) ==> (k in t.entries <==> Group(cs, k) != []))
    && (forall k :: IsId(k) && k in t.entries ==> t.entries[k] == GroupEntry(Group(cs, k)))
  }

  lemma StepKeepsTableOk(t: Table, c: Contributor)
    requires TableOk(t)
    ensures TableOk(Step(t, c))
  {
    var id := Key(c);
    if id != [] && id in t.entries {
      AbsorbKeepsTableOk(t, c);
    } else if id != [] {
      NewIdKeepsTableOk(t, c);
    } else {
      KeylessKeepsTableOk(t, c);
    }
  }

  lemma AbsorbKeepsTableOk(t: Table, c: Contributor)
    requires TableOk(t) && Key(c) != [] && Key(c) in t.entries
    ensures TableOk(Step(t, c))
  {
    var id := Key(c);
    var t' := Step(t, c);
    assert t' == Table(t.entries[id := Absorb(t.entries[id], c)], t.order);
    assert Key(t'.entries[id].record) == Key(t.entries[id].record);
    assert IsId(id);
  }

  lemma NewIdKeepsTableOk(t: Table, c: Contributor)
    requires TableOk(t) && Key(c) != [] && Key(c) !in t.entries
    ensures TableOk(Step(t, c))
  {
    var id := Key(c);
    assert Step(t, c) == Table(t.entries[id := FirstComment(c)], t.order + [id]);
    InsertKeepsTableOk(t, id, FirstComment(c));
  }

  lemma KeylessKeepsTableOk(t: Table, c: Contributor)
    requires TableOk(t) && Key(c) == []
    ensures TableOk(Step(t, c))
  {
    NoUrlKeyFresh(t);
    NoUrlKeyIsNotId(|t.entries|);
    var k := NoUrlKey(|t.entries|);
    assert Step(t, c) == Table(t.entries[k := FirstComment(c)], t.order + [k]);
    InsertKeepsTableOk(t, k, FirstComment(c));
  }

  /** A fresh key whose entry fits it may be appended to a sound table. */
  lemma InsertKeepsTableOk(t: Table, k: string, e: Entry)
    requires TableOk(t) && k !in t.entries
    requires Key(e.record) == if IsId(k) then k else []
    requires !IsId(k) ==> e == FirstComment(e.record) && k == NoUrlKey(|t.order|)
    ensures TableOk(Table(t.entries[k := e], t.order + [k]))
  {
    var t' := Table(t.entries[k := e], t.order + [k]);
    assert k !in t.order;
    forall key | key in t'.entries ensures IsId(key) || exists n: nat :: n < |t'.order| && key == NoUrlKey(n) {
      if key == k {
        if !IsId(k) {
          assert |t.order| < |t'.order|;
        }
      } else if !IsId(key) {
        var n: nat :| n < |t.order| && key == NoUrlKey(n);
        assert n < |t'.order|;
      }
    }
  }

  lemma StepKeepsGroups(pre: seq<Contributor>, c: Contributor)
    requires TableOk(Collect(pre)) && GroupsMatch(pre, Collect(pre))
    ensures GroupsMatch(pre + [c], Collect(pre + [c]))
  {
    var cs := pre + [c];
    assert cs[..|cs| - 1] == pre;
    var t := Collect(pre);
    assert Collect(cs) == Step(t, c);
    var id := Key(c);
    forall k ensures Group(cs, k) == Group(pre, k) + (if id == k then [c] else []) {
      GroupAppend(cs, k);
    }
    if id != [] && id in t.entries {
      AbsorbKeepsGroups(pre, c, t, Step(t, c));
    } else if id != [] {
      NewIdKeepsGroups(pre, c, t, Step(t, c));
    } else {
      NoUrlKeyIsNotId(|t.entries|);
      KeylessKeepsGroups(pre, c, t, Step(t, c));
    }
  }

  lemma AbsorbKeepsGroups(pre: seq<Contributor>, c: Contributor, t: Table, t': Table)
    requires GroupsMatch(pre, t) && Key(c) != [] && Key(c) in t.entries
    requires t'.entries == t.entries[Key(c) := Absorb(t.entries[Key(c)], c)]
    requires forall k :: Group(pre + [c], k) == Group(pre, k) + (if Key(c) == k then [c] else [])
    ensures GroupsMatch(pre + [c], t')
  {
    var id := Key(c);
    var cs := pre + [c];
    forall k | IsId(k)
      ensures (k in t'.entries <==> Group(cs, k) != [])
      ensures k in t'.entries ==> t'.entries[k] == GroupEntry(Group(cs, k))
    {
      if k == id {
        assert Group(cs, k) == Group(pre, k) + [c];
        GroupEntryAppend(Group(pre, k), c);
      } else {
        assert Group(cs, k) == Group(pre, k);
      }
    }
  }

  lemma NewIdKeepsGroups(pre: seq<Contributor>, c: Contributor, t: Table, t': Table)
    requires GroupsMatch(pre, t) && Key(c) != [] && Key(c) !in t.entries
    requires t'.entries == t.entries[Key(c) := FirstComment(c)]
    requires forall k :: Group(pre + [c], k) == Group(pre, k) + (if Key(c) == k then [c] else [])
    ensures GroupsMatch(pre + [c], t')
  {
    var id := Key(c);
    var cs := pre + [c];
    forall k | IsId(k)
      ensures (k in t'.entries <==> Group(cs, k) != [])
      ensures k in t'.entries ==> t'.entries[k] == GroupEntry(Group(cs, k))
    {
      if k == id {
        assert Group(pre, k) == [];
        assert Group(cs, k) == [c];
        GroupEntrySingle(c);
      } else {
        assert Group(cs, k) == Group(pre, k);
      }
    }
  }

  lemma KeylessKeepsGroups(pre: seq<Contributor>, c: Contributor, t: Table, t': Table)
    requires GroupsMatch(pre, t) && Key(c) == []
    requires !IsId(NoUrlKey(|t.entries|))
    requires t'.entries == t.entries[NoUrlKey(|t.entries|) := FirstComment(c)]
    requires forall k :: Group(pre + [c], k) == Group(pre, k) + (if Key(c) == k then [c] else [])
    ensures GroupsMatch(pre + [c], t')
  {
    forall k | IsId(k) ensures Group(pre + [c], k) == Group(pre, k) {
      assert Group(pre + [c], k) == Group(pre, k) + (if Key(c) == k then [c] else []);
    }
  }

  /** The first pass keeps the table well formed, and each id's entry is its group's entry. */
  lemma {:induction false} CollectOk(cs: seq<Contributor>)
    ensures TableOk(Collect(cs))
    ensures GroupsMatch(cs, Collect(cs))
    decreases |cs|
  {
    if cs != [] {
      var pre := cs[..|cs| - 1];
      assert cs == pre + [cs[|cs| - 1]];
      CollectOk(pre);
      StepKeepsTableOk(Collect(pre), cs[|cs| - 1]);
      StepKeepsGroups(pre, cs[|cs| - 1]);
    }
  }

  lemma CollectKeys(cs: seq<Contributor>)
    ensures forall i :: 0 <= i < |Collect(cs).order| ==> Collect(cs).order[i] in Collect(cs).entries
  {
    CollectOk(cs);
  }

  lemma CollectKeysOf(cs: seq<Contributor>, m: map<string, Entry>, order: seq<string>)
    requires Table(m, order) == Collect(cs)
    ensures forall i :: 0 <= i < |order| ==> order[i] in m
  {
    CollectKeys(cs);
  }

  lemma {:induction false} GroupWitness(cs: seq<Contributor>, k: string)
    ensures Group(cs, k) != [] <==> exists p :: 0 <= p < |cs| && Key(cs[p]) == k
    decreases |cs|
  {
    if cs != [] {
      var pre := cs[..|cs| - 1];
      GroupWitness(pre, k);
      if exists p :: 0 <= p < |cs| && Key(cs[p]) == k {
        var p :| 0 <= p < |cs| && Key(cs[p]) == k;
        if p < |pre| { assert Key(pre[p]) == k; }
      }
      if exists p :: 0 <= p < |pre| && Key(pre[p]) == k {
        var p :| 0 <= p < |pre| && Key(pre[p]) == k;
        assert Key(cs[p]) == k;
      }
    }
  }

  // ---------------------------------------------------------------- totals

  function CountOf(e: Entry): nat { e.commentCount }
  function EngagementOf(e: Entry): nat { e.totalEngagement }
  function KeylessOf(e: Entry): nat { if Key(e.record) == [] then 1 else 0 }

  function SumOver(keys: seq<string>, m: map<string, Entry>, f: Entry -> nat): nat
    requires forall i :: 0 <= i < |keys| ==> keys[i] in m
    decreases |keys|
  {
    if keys == [] then 0 else SumOver(keys[..|keys| - 1], m, f) + f(m[keys[|keys| - 1]])
  }

  lemma {:induction false} SumOverOther(keys: seq<string>, m: map<string, Entry>, k: string, e: Entry, f: Entry -> nat)
    requires forall i :: 0 <= i < |keys| ==> keys[i] in m
    requires k !in keys
    ensures SumOver(keys, m[k := e], f) == SumOver(keys, m, f)
    decreases |keys|
  {
    if keys != [] {
      SumOverOther(keys[..|keys| - 1], m, k, e, f);
    }
  }

  lemma {:induction false} SumOverUpdate(keys: seq<string>, m: map<string, Entry>, k: string, e: Entry, f: Entry -> nat)
    requires forall i :: 0 <= i < |keys| ==> keys[i] in m
    requires forall i, j :: 0 <= i < j < |keys| ==> keys[i] != keys[j]
    requires k in keys
    ensures SumOver(keys, m[k := e], f) + f(m[k]) == SumOver(keys, m, f) + f(e)
    decreases |keys|
  {
    var pre := keys[..|keys| - 1];
    if keys[|keys| - 1] == k {
      assert k !in pre;
      SumOverOther(pre, m, k, e, f);
    } else {
      assert k in pre;
      SumOverUpdate(pre, m, k, e, f);
    }
  }

  lemma SumOverAppend(keys: seq<string>, m: map<string, Entry>, k: string, e: Entry, f: Entry -> nat)
    requires forall i :: 0 <= i < |keys| ==> keys[i] in m
    requires k !in keys
    ensures SumOver(keys + [k], m[k := e], f) == SumOver(keys, m, f) + f(e)
  {
    assert (keys + [k])[..|keys|] == keys;
    SumOverOther(keys, m, k, e, f);
  }

  /** `g` summed over the records, last one added last. */
  function SumC(cs: seq<Contributor>, g: Contributor -> nat): nat
    decreases |cs|
  {
    if cs == [] then 0 else SumC(cs[..|cs| - 1], g) + g(cs[|cs| - 1])
  }

  function One(c: Contributor): nat { 1 }
  function KeylessOne(c: Contributor): nat { if Key(c) == [] then 1 else 0 }

  /** The number of records without a profile id. */
  function KeylessCount(cs: seq<Contributor>): nat
  {
    SumC(cs, KeylessOne)
  }

  lemma {:induction false} SumCOne(cs: seq<Contributor>)
    ensures SumC(cs, One) == |cs|
    decreases |cs|
  {
    if cs != [] { SumCOne(cs[..|cs| - 1]); }
  }

  lemma {:induction false} SumCLikes(cs: seq<Contributor>)
    ensures SumC(cs, Likes) == SumLikes(cs)
    decreases |cs|
  {
    if cs != [] { SumCLikes(cs[..|cs| - 1]); }
  }

  /** The order's keys are present and distinct. */
  ghost predicate OrderOk(t: Table)
  {
    && (forall i :: 0 <= i < |t.order| ==> t.order[i] in t.entries)
    && (forall i, j :: 0 <= i < j < |t.order| ==> t.order[i] != t.order[j])
  }

  /** A per-entry measure `f` that every step of the first pass raises by `g` of the record. */
  ghost predicate Additive(f: Entry -> nat, g: Contributor -> nat)
  {
    && (forall c :: f(FirstComment(c)) == g(c))
    && (forall e: Entry, c :: Key(c) != [] && Key(e.record) == Key(c) ==> f(Absorb(e, c)) == f(e) + g(c))
  }

  lemma StepSum(t: Table, c: Contributor, f: Entry -> nat, g: Contributor -> nat)
    requires TableOk(t) && Additive(f, g)
    ensures OrderOk(Step(t, c))
    ensures SumOver(Step(t, c).order, Step(t, c).entries, f) == SumOver(t.order, t.entries, f) + g(c)
  {
    StepKeepsTableOk(t, c);
    var id := Key(c);
    if id != [] && id in t.entries {
      assert IsId(id) && Key(t.entries[id].record) == id;
      SumOverUpdate(t.order, t.entries, id, Absorb(t.entries[id], c), f);
    } else if id != [] {
      assert id !in t.order;
      SumOverAppend(t.order, t.entries, id, FirstComment(c), f);
    } else {
      NoUrlKeyFresh(t);
      var k := NoUrlKey(|t.entries|);
      assert k !in t.order;
      SumOverAppend(t.order, t.entries, k, FirstComment(c), f);
    }
  }

  lemma {:induction false} CollectSum(cs: seq<Contributor>, f: Entry -> nat, g: Contributor -> nat)
    requires Additive(f, g)
    ensures OrderOk(Collect(cs))
    ensures SumOver(Collect(cs).order, Collect(cs).entries, f) == SumC(cs, g)
    decreases |cs|
  {
    if cs != [] {
      var pre := cs[..|cs| - 1];
      CollectSum(pre, f, g);
      CollectOk(pre);
      StepSum(Collect(pre), cs[|cs| - 1], f, g);
    }
  }

  lemma AdditiveMeasures()
    ensures Additive(CountOf, One)
    ensures Additive(EngagementOf, Likes)
    ensures Additive(KeylessOf, KeylessOne)
  {
    forall e: Entry, c | Key(c) != [] && Key(e.record) == Key(c)
      ensures KeylessOf(Absorb(e, c)) == KeylessOf(e) + KeylessOne(c)
    {
      assert Absorb(e, c).record.linkedinProfile == e.record.linkedinProfile;
    }
  }

  function TotalComments(ms: seq<MergedContributor>): nat
    decreases |ms|
  {
    if ms == [] then 0 else TotalComments(ms[..|ms| - 1]) + ms[|ms| - 1].commentCount
  }

  function TotalEngagement(ms: seq<MergedContributor>): nat
    decreases |ms|
  {
    if ms == [] then 0 else TotalEngagement(ms[..|ms| - 1]) + ms[|ms| - 1].totalEngagement
  }

  function KeylessMerged(ms: seq<MergedContributor>): nat
    decreases |ms|
  {
    if ms == [] then 0 else KeylessMerged(ms[..|ms| - 1]) + (if Key(ms[|ms| - 1].record) == [] then 1 else 0)
  }

  lemma {:induction false} FinalizedTotals(keys: seq<string>, m: map<string, Entry>)
    requires forall i :: 0 <= i < |keys| ==> keys[i] in m
    ensures TotalComments(Finalized(keys, m)) == SumOver(keys, m, CountOf)
    ensures TotalEngagement(Finalized(keys, m)) == SumOver(keys, m, EngagementOf)
    ensures KeylessMerged(Finalized(keys, m)) == SumOver(keys, m, KeylessOf)
    decreases |keys|
  {
    if keys != [] {
      var pre := keys[..|keys| - 1];
      FinalizedTotals(pre, m);
      var ms := Finalized(keys, m);
      assert ms[..|ms| - 1] == Finalized(pre, m);
      assert ms[|ms| - 1].record.linkedinProfile == m[keys[|keys| - 1]].record.linkedinProfile;
    }
  }


  /**
   * Nothing is lost: the merged records hold one comment per input record,
   * all of the input's likes, and one record per input record without an id.
   */
  lemma DedupConserves(cs: seq<Contributor>)
    ensures TotalComments(Dedup(cs)) == |cs|
    ensures TotalEngagement(Dedup(cs)) == SumLikes(cs)
    ensures KeylessMerged(Dedup(cs)) == KeylessCount(cs)
  {
    AdditiveMeasures();
    CollectSum(cs, CountOf, One);
    CollectSum(cs, EngagementOf, Likes);
    CollectSum(cs, KeylessOf, KeylessOne);
    SumCOne(cs);
    SumCLikes(cs);
    FinalizedTotals(Collect(cs).order, Collect(cs).entries);
  }

  // ---------------------------------------------------------------- per record

  /** The first longest title: no title is longer, and every earlier one is shorter. */
  lemma {:induction false} LongestIsFirstLongest(titles: seq<string>)
    requires titles != []
    ensures exists i :: 0 <= i < |titles| && Longest(titles) == titles[i]
                        && (forall j :: 0 <= j < i ==> |titles[j]| < |titles[i]|)
    ensures forall j :: 0 <= j < |titles| ==> |titles[j]| <= |Longest(titles)|
    decreases |titles|
  {
    if |titles| > 1 {
      var rest := titles[1..];
      LongestIsFirstLongest(rest);
      var i :| 0 <= i < |rest| && Longest(rest) == rest[i] && (forall j :: 0 <= j < i ==> |rest[j]| < |rest[i]|);
      if |Longest(rest)| > |titles[0]| {
        assert Longest(titles) == titles[i + 1];
        forall j | 0 <= j < i + 1 ensures |titles[j]| < |titles[i + 1]| {
          if j > 0 { assert titles[j] == rest[j - 1]; }
        }
      } else {
        assert Longest(titles) == titles[0];
      }
      forall j | 0 <= j < |titles| ensures |titles[j]| <= |Longest(titles)| {
        if j > 0 { assert titles[j] == rest[j - 1]; }
      }
    } else {
      assert Longest(titles) == titles[0];
    }
  }

  /**
   * Each merged record with a profile id is its group's entry; each one
   * without an id is a single comment. In both, the likes text reads back
   * as the total engagement.
   */
  lemma DedupLength(cs: seq<Contributor>)
    ensures |Dedup(cs)| == |Collect(cs).order|
  {
    CollectKeys(cs);
    MapKeysLength(Collect(cs).order, Collect(cs).entries, Finalize);
  }

  /** The `i`-th merged record is the finalized entry of the `i`-th key. */
  lemma DedupAt(cs: seq<Contributor>, i: nat)
    requires i < |Collect(cs).order|
    ensures |Dedup(cs)| == |Collect(cs).order|
    ensures Collect(cs).order[i] in Collect(cs).entries
    ensures Dedup(cs)[i] == Finalize(Collect(cs).entries[Collect(cs).order[i]])
  {
    CollectKeys(cs);
    FinalizedIndex(Collect(cs).order, Collect(cs).entries, i);
  }

  lemma DedupKeyAt(cs: seq<Contributor>, i: nat)
    requires i < |Collect(cs).order|
    ensures |Dedup(cs)| == |Collect(cs).order|
    ensures Key(Dedup(cs)[i].record) == if IsId(Collect(cs).order[i]) then Collect(cs).order[i] else []
  {
    DedupAt(cs, i);
    var t := Collect(cs);
    FinalizeKeepsKey(t.entries[t.order[i]]);
    EntryKey(cs, t.order[i]);
  }

  lemma FinalizeKeepsKey(e: Entry)
    ensures Key(Finalize(e).record) == Key(e.record)
  {
    assert Finalize(e).record.linkedinProfile == e.record.linkedinProfile;
  }

  /** An entry's record has its key's profile id, or none for a placeholder key. */
  lemma EntryKey(cs: seq<Contributor>, k: string)
    requires k in Collect(cs).entries
    ensures Key(Collect(cs).entries[k].record) == if IsId(k) then k else []
  {
    CollectOk(cs);
  }

  lemma DedupRecord(cs: seq<Contributor>, i: nat)
    requires i < |Dedup(cs)|
    ensures var m := Dedup(cs)[i];
            && (Key(m.record) != [] ==> Group(cs, Key(m.record)) != []
                                        && m == Finalize(GroupEntry(Group(cs, Key(m.record)))))
            && (Key(m.record) == [] ==> m.commentCount == 1 && m.activityLevel == SingleComment)
            && DigitsToNat(m.record.likes) == m.totalEngagement == m.allLikes
  {
    if Key(Dedup(cs)[i].record) != [] {
      DedupRecordKeyed(cs, i);
    } else {
      DedupRecordKeyless(cs, i);
    }
    DedupRecordEngagement(cs, i);
  }

  lemma DedupRecordKeyed(cs: seq<Contributor>, i: nat)
    requires i < |Dedup(cs)| && Key(Dedup(cs)[i].record) != []
    ensures var m := Dedup(cs)[i];
            Group(cs, Key(m.record)) != [] && m == Finalize(GroupEntry(Group(cs, Key(m.record))))
  {
    DedupLength(cs);
    DedupKeyAt(cs, i);
    CollectOk(cs);
    DedupAt(cs, i);
  }

  lemma DedupRecordKeyless(cs: seq<Contributor>, i: nat)
    requires i < |Dedup(cs)| && Key(Dedup(cs)[i].record) == []
    ensures Dedup(cs)[i].commentCount == 1 && Dedup(cs)[i].activityLevel == SingleComment
  {
    DedupLength(cs);
    DedupKeyAt(cs, i);
    DedupAt(cs, i);
    EntryKeyless(cs, Collect(cs).order[i]);
  }

  /** A placeholder key holds a single comment. */
  lemma EntryKeyless(cs: seq<Contributor>, k: string)
    requires k in Collect(cs).entries && Key(Collect(cs).entries[k].record) == []
    ensures Collect(cs).entries[k].commentCount == 1
  {
    CollectOk(cs);
  }

  lemma DedupRecordEngagement(cs: seq<Contributor>, i: nat)
    requires i < |Dedup(cs)|
    ensures var m := Dedup(cs)[i];
            DigitsToNat(m.record.likes) == m.totalEngagement == m.allLikes
  {
    var t := Collect(cs);
    DedupLength(cs);
    DedupAt(cs, i);
    EntryEngagement(cs, t.order[i]);
    ReadBack(t.entries[t.order[i]].totalEngagement);
  }

  /** Every entry's engagement is the sum of its likes. */
  lemma EntryEngagement(cs: seq<Contributor>, k: string)
    requires k in Collect(cs).entries
    ensures Collect(cs).entries[k].totalEngagement == Collect(cs).entries[k].allLikes
  {
    CollectOk(cs);
    if IsId(k) {
      assert Collect(cs).entries[k] == GroupEntry(Group(cs, k));
    } else {
      assert Collect(cs).entries[k] == FirstComment(Collect(cs).entries[k].record);
    }
  }

  /** One merged record per profile id, and every id of the input has one. */
  lemma DedupOnePerId(cs: seq<Contributor>)
    ensures forall i, j :: 0 <= i < j < |Dedup(cs)| && Key(Dedup(cs)[i].record) != []
              ==> Key(Dedup(cs)[i].record) != Key(Dedup(cs)[j].record)
    ensures forall p :: 0 <= p < |cs| && Key(cs[p]) != []
              ==> exists i :: 0 <= i < |Dedup(cs)| && Key(Dedup(cs)[i].record) == Key(cs[p])
  {
    DedupIdsDistinct(cs);
    DedupCoversIds(cs);
  }

  /** The merged records' ids, read off the first pass's keys. */
  lemma DedupKeys(cs: seq<Contributor>)
    ensures |Dedup(cs)| == |Collect(cs).order|
    ensures forall i :: 0 <= i < |Dedup(cs)| ==>
              Key(Dedup(cs)[i].record) == if IsId(Collect(cs).order[i]) then Collect(cs).order[i] else []
  {
    DedupLength(cs);
    forall i | 0 <= i < |Dedup(cs)|
      ensures Key(Dedup(cs)[i].record) == if IsId(Collect(cs).order[i]) then Collect(cs).order[i] else []
    {
      DedupKeyAt(cs, i);
    }
  }

  lemma DedupIdsDistinct(cs: seq<Contributor>)
    ensures forall i, j :: 0 <= i < j < |Dedup(cs)| && Key(Dedup(cs)[i].record) != []
              ==> Key(Dedup(cs)[i].record) != Key(Dedup(cs)[j].record)
  {
    DedupKeys(cs);
    CollectOk(cs);
  }

  lemma DedupCoversIds(cs: seq<Contributor>)
    ensures forall p :: 0 <= p < |cs| && Key(cs[p]) != []
              ==> exists i :: 0 <= i < |Dedup(cs)| && Key(Dedup(cs)[i].record) == Key(cs[p])
  {
    DedupKeys(cs);
    var t := Collect(cs);
    var d := Dedup(cs);
    forall p | 0 <= p < |cs| && Key(cs[p]) != []
      ensures exists i :: 0 <= i < |d| && Key(d[i].record) == Key(cs[p])
    {
      var k := Key(cs[p]);
      SeenIdCollected(cs, p);
      var i :| 0 <= i < |t.order| && t.order[i] == k;
      assert Key(d[i].record) == k;
    }
  }

  /** The id of any record is one of the first pass's keys. */
  lemma SeenIdCollected(cs: seq<Contributor>, p: nat)
    requires p < |cs| && Key(cs[p]) != []
    ensures IsId(Key(cs[p])) && Key(cs[p]) in Collect(cs).order
  {
    CollectOk(cs);
    GroupWitness(cs, Key(cs[p]));
  }

  /** Some record has profile id `k`. */
  ghost predicate Seen(cs: seq<Contributor>, k: string)
  {
    exists p :: 0 <= p < |cs| && Key(cs[p]) == k
  }

  /** `b` is never seen before `a`: each record with id `b` has a record with id `a` before it. */
  ghost predicate SeenBefore(cs: seq<Contributor>, a: string, b: string)
  {
    forall q :: 0 <= q < |cs| && Key(cs[q]) == b ==> exists p :: 0 <= p < q && Key(cs[p]) == a
  }

  ghost predicate FirstSeenOrder(cs: seq<Contributor>, order: seq<string>)
  {
    forall i, j :: 0 <= i < j < |order| && IsId(order[i]) && IsId(order[j]) ==> SeenBefore(cs, order[i], order[j])
  }

  /** The ids in the first pass's order are exactly the ids of the records. */
  lemma CollectSeen(cs: seq<Contributor>)
    ensures forall k :: IsId(k) ==> (k in Collect(cs).order <==> Seen(cs, k))
  {
    CollectOk(cs);
    forall k | IsId(k) ensures k in Collect(cs).order <==> Seen(cs, k) {
      GroupWitness(cs, k);
    }
  }

  lemma FirstSeenStep(pre: seq<Contributor>, c: Contributor, order: seq<string>, order': seq<string>)
    requires forall k :: IsId(k) ==> (k in order <==> Seen(pre, k))
    requires FirstSeenOrder(pre, order)
    requires order' == order || (|order'| == |order| + 1 && order'[..|order|] == order
                                 && (IsId(order'[|order|]) ==> order'[|order|] == Key(c) && order'[|order|] !in order))
    ensures FirstSeenOrder(pre + [c], order')
  {
    var cs := pre + [c];
    forall i, j | 0 <= i < j < |order'| && IsId(order'[i]) && IsId(order'[j])
      ensures SeenBefore(cs, order'[i], order'[j])
    {
      var a, b := order'[i], order'[j];
      assert a == order[i];
      assert Seen(pre, a);
      var pa :| 0 <= pa < |pre| && Key(pre[pa]) == a;
      assert Key(cs[pa]) == a;
      if j < |order| {
        assert b == order[j];
        assert SeenBefore(pre, a, b);
        forall q | 0 <= q < |cs| && Key(cs[q]) == b ensures exists p :: 0 <= p < q && Key(cs[p]) == a {
          if q < |pre| {
            assert Key(pre[q]) == b;
            var p :| 0 <= p < q && Key(pre[p]) == a;
            assert Key(cs[p]) == a;
          }
        }
      } else {
        // `b` is the id this step added, so no earlier record has it
        assert !Seen(pre, b);
        forall q | 0 <= q < |pre| ensures Key(cs[q]) != b {
          assert cs[q] == pre[q];
        }
        forall q | 0 <= q < |cs| && Key(cs[q]) == b ensures exists p :: 0 <= p < q && Key(cs[p]) == a {
          assert pa < q;
        }
      }
    }
  }

  lemma {:induction false} CollectFirstSeen(cs: seq<Contributor>)
    ensures FirstSeenOrder(cs, Collect(cs).order)
    decreases |cs|
  {
    if cs != [] {
      var pre := cs[..|cs| - 1];
      var c := cs[|cs| - 1];
      assert cs == pre + [c];
      CollectFirstSeen(pre);
      CollectSeen(pre);
      CollectOk(pre);
      var t := Collect(pre);
      var t' := Step(t, c);
      if Key(c) == [] {
        NoUrlKeyIsNotId(|t.entries|);
      }
      assert t'.order == t.order || (|t'.order| == |t.order| + 1 && t'.order[..|t.order|] == t.order
                                     && (IsId(t'.order[|t.order|]) ==> t'.order[|t.order|] == Key(c) && t'.order[|t.order|] !in t.order));
      FirstSeenStep(pre, c, t.order, t'.order);
    }
  }

  /** Merged records come in the order their ids were first seen. */
  lemma DedupFirstSeen(cs: seq<Contributor>)
    ensures forall i, j :: 0 <= i < j < |Dedup(cs)| && Key(Dedup(cs)[i].record) != [] && Key(Dedup(cs)[j].record) != []
              ==> SeenBefore(cs, Key(Dedup(cs)[i].record), Key(Dedup(cs)[j].record))
  {
    CollectOk(cs);
    CollectFirstSeen(cs);
    var t := Collect(cs);
    assert FirstSeenOrder(cs, t.order);
    DedupLength(cs);
    var d := Dedup(cs);
    forall i | 0 <= i < |d| ensures Key(d[i].record) == if IsId(t.order[i]) then t.order[i] else [] {
      DedupKeyAt(cs, i);
    }
  }

  // ---------------------------------------------------------------- the list after the merge

  /**
   * The record that opens a person's group becomes that person's merged
   * record, the one the result lists, so it now carries the likes of the
   * whole group; a later merge over the same list counts them again.
   */
  lemma SettleOpensWithMerged(cs: seq<Contributor>, i: nat)
    requires i < |cs| && Key(cs[i]) != [] && FirstWithId(cs, i)
    ensures |Settle(cs)| == |cs|
    ensures exists p :: 0 <= p < |Dedup(cs)| && Dedup(cs)[p].record == Settle(cs)[i]
    ensures Likes(Settle(cs)[i]) == SumLikes(Group(cs, Key(cs[i])))
  {
    var k := Key(cs[i]);
    DedupCoversIds(cs);
    var p :| 0 <= p < |Dedup(cs)| && Key(Dedup(cs)[p].record) == k;
    DedupRecordKeyed(cs, p);
    GroupWitness(cs, k);
    assert Settle(cs)[i] == Finalize(GroupEntry(Group(cs, k))).record;
    ReadBack(SumLikes(Group(cs, k)));
  }

  /**
   * The merge rewrites records but never their profile or name, and a
   * later record of a person is left untouched, so a second merge over the
   * list groups the same records again.
   */
  lemma SettleKeepsIds(cs: seq<Contributor>)
    ensures |Settle(cs)| == |cs|
    ensures forall i :: 0 <= i < |cs| ==>
              Settle(cs)[i].linkedinProfile == cs[i].linkedinProfile && Settle(cs)[i].name == cs[i].name
    ensures forall i :: 0 <= i < |cs| && Key(cs[i]) != [] && !FirstWithId(cs, i) ==> Settle(cs)[i] == cs[i]
  {
    forall i | 0 <= i < |cs|
      ensures Settle(cs)[i].linkedinProfile == cs[i].linkedinProfile && Settle(cs)[i].name == cs[i].name
    {
      SettledKeepsId(cs, i);
    }
  }

  lemma SettledKeepsId(cs: seq<Contributor>, i: nat)
    requires i < |cs|
    ensures Settled(cs, i).linkedinProfile == cs[i].linkedinProfile && Settled(cs, i).name == cs[i].name
  {
    if Key(cs[i]) != [] && FirstWithId(cs, i) {
      GroupHead(cs, i);
    }
  }

  /** A person's group opens with the first record that has their id. */
  lemma {:induction false} GroupHead(cs: seq<Contributor>, i: nat)
    requires i < |cs| && FirstWithId(cs, i)
    ensures Group(cs, Key(cs[i])) != [] && Group(cs, Key(cs[i]))[0] == cs[i]
    decreases |cs|
  {
    var k := Key(cs[i]);
    var pre := cs[..|cs| - 1];
    if i == |cs| - 1 {
      assert forall p :: 0 <= p < |pre| ==> pre[p] == cs[p];
      GroupWitness(pre, k);
    } else {
      assert forall j :: 0 <= j < i ==> pre[j] == cs[j];
      GroupHead(pre, i);
    }
  }

  // ---------------------------------------------------------------- merged answer

  lemma {:induction false} KeptFacts(comments: seq<string>)
    ensures |Kept(comments)| <= |comments|
    ensures forall i :: 0 <= i < |Kept(comments)| ==>
              |Kept(comments)[i]| > 10 && exists c :: c in comments && Kept(comments)[i] == CleanComment(c)
    decreases |comments|
  {
    if comments != [] {
      var pre := comments[..|comments| - 1];
      KeptFacts(pre);
      forall i | 0 <= i < |Kept(comments)|
        ensures |Kept(comments)[i]| > 10 && exists c :: c in comments && Kept(comments)[i] == CleanComment(c)
      {
        if i < |Kept(pre)| {
          var c :| c in pre && Kept(pre)[i] == CleanComment(c);
          assert c in comments;
        } else {
          assert Kept(comments)[i] == CleanComment(comments[|comments| - 1]);
        }
      }
    }
  }

  /** Cleaning leaves single spaces between words and no HTML tag. */
  lemma CleanCommentFacts(c: string)
    ensures SingleSpaced(CleanComment(c))
    ensures NoTag(CleanComment(c))
  {
    CollapseSpaceSingleSpaced(StripTags(c));
    StripSingleSpaced(CollapseSpace(StripTags(c)));
    StripTagsLeavesNoTag(c);
    CollapseSpaceKeepsNoTag(StripTags(c));
    StripKeepsNoTag(CollapseSpace(StripTags(c)));
  }

  /**
   * The merged answer is the placeholder, or one to three cleaned comments
   * of more than ten characters, taken from the first three substantive ones.
   */
  lemma MergedAnswerShape(comments: seq<string>)
    ensures var first := Take(Substantive(comments), 3);
            var kept := Kept(first);
            && (MergedAnswer(comments) == Placeholder <==> kept == [] || Join(kept, Separator) == Placeholder)
            && |kept| <= 3
            && forall i :: 0 <= i < |kept| ==>
                 |kept[i]| > 10 && exists c :: c in first && c in comments && c != [] && c != Placeholder
                                                && kept[i] == CleanComment(c)
  {
    var subst := Substantive(comments);
    var first := Take(subst, 3);
    KeptFacts(first);
    forall c | c in first ensures c in subst { }
  }
}
