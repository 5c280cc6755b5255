/**
 * The handful of Python `str` operations the pipeline relies on, written out
 * over `seq<char>`: whitespace (as `str.isspace` and the regex class `\s`
 * define it), `strip`, `lower`, `in`, `startswith`, `split`, `join`,
 * `replace`, slicing with Python's clamping, `isdigit`/`int`/`str` for
 * non-negative numbers, `isupper`, `isalpha` and `title`.
 *
 * Case mapping and the letter/digit classes are ASCII only; `str.lower()`
 * and friends also map non-ASCII letters, which the model leaves unchanged.
 */
module Strings {

  // ---------------------------------------------------------------- characters

  /** The characters for which Python's `str.isspace()` holds (and which `\s` matches). */
  predicate IsSpace(c: char)
  {
    c == ' ' || ('\t' <= c <= '\r') || ('\U{1C}' <= c <= '\U{1F}')
    || c == '\U{85}' || c == '\U{A0}' || c == '\U{1680}'
    || ('\U{2000}' <= c <= '\U{200A}') || c == '\U{2028}' || c == '\U{2029}'
    || c == '\U{202F}' || c == '\U{205F}' || c == '\U{3000}'
  }

  predicate IsUpperChar(c: char) { 'A' <= c <= 'Z' }
  predicate IsLowerChar(c: char) { 'a' <= c <= 'z' }
  predicate IsLetter(c: char) { IsUpperChar(c) || IsLowerChar(c) }
  predicate IsDigitChar(c: char) { '0' <= c <= '9' }

  function LowerChar(c: char): char
  {
    if IsUpperChar(c) then (c as int + 32) as char else c
  }

  function UpperChar(c: char): char
  {
    if IsLowerChar(c) then (c as int - 32) as char else c
  }

  // ---------------------------------------------------------------- substrings

  predicate StartsWith(s: string, prefix: string)
  {
    |prefix| <= |s| && s[..|prefix|] == prefix
  }

  predicate EndsWith(s: string, suffix: string)
  {
    |suffix| <= |s| && s[|s| - |suffix|..] == suffix
  }

  /** `t` occurs in `s` starting at index `i`. */
  predicate OccursAt(s: string, t: string, i: int)
  {
    0 <= i && i + |t| <= |s| && s[i..i + |t|] == t
  }

  /** Python's `t in s`. */
  predicate Contains(s: string, t: string)
  {
    exists i :: 0 <= i <= |s| - |t| && OccursAt(s, t, i)
  }

  /** Python's `any(k in s for k in keywords)`. */
  predicate ContainsAny(s: string, keywords: seq<string>)
  {
    exists k :: 0 <= k < |keywords| && Contains(s, keywords[k])
  }

  /** Python's `s.startswith(tuple(prefixes))`. */
  predicate StartsWithAny(s: string, prefixes: seq<string>)
  {
    exists k :: 0 <= k < |prefixes| && StartsWith(s, prefixes[k])
  }

  lemma ContainsShorter(s: string, t: string, n: nat)
    requires Contains(s, t) && n <= |t|
    ensures Contains(s, t[..n])
  {
    var i :| 0 <= i <= |s| - |t| && OccursAt(s, t, i);
    assert s[i..i + n] == t[..n];
    assert OccursAt(s, t[..n], i);
  }

  lemma ContainsWitness(s: string, t: string, i: int)
    requires OccursAt(s, t, i)
    ensures Contains(s, t)
  {
  }

  lemma ContainsInPrefix(s: string, t: string, n: nat)
    requires n <= |s| && Contains(s[..n], t)
    ensures Contains(s, t)
  {
    var i :| 0 <= i <= n - |t| && OccursAt(s[..n], t, i);
    assert s[..n][i..i + |t|] == s[i..i + |t|];
    assert OccursAt(s, t, i);
  }

  /** A text that contains `t` contains every piece of `t`. */
  lemma ContainsPiece(s: string, t: string, u: string, j: nat)
    requires Contains(s, t) && OccursAt(t, u, j)
    ensures Contains(s, u)
  {
    var i :| 0 <= i <= |s| - |t| && OccursAt(s, t, i);
    forall k | 0 <= k < |u| ensures s[i + j + k] == u[k] {
      assert u[k] == t[j..j + |u|][k] == t[j + k];
      assert t[j + k] == s[i..i + |t|][j + k];
    }
    assert s[i + j..i + j + |u|] == u;
    assert OccursAt(s, u, i + j);
  }

  lemma ContainsAnyAppend(s: string, a: seq<string>, b: seq<string>)
    ensures ContainsAny(s, a + b) <==> ContainsAny(s, a) || ContainsAny(s, b)
  {
    if ContainsAny(s, a + b) {
      var k :| 0 <= k < |a + b| && Contains(s, (a + b)[k]);
      if k >= |a| { assert (a + b)[k] == b[k - |a|]; }
    }
    if ContainsAny(s, a) {
      var k :| 0 <= k < |a| && Contains(s, a[k]);
      assert (a + b)[k] == a[k];
    }
    if ContainsAny(s, b) {
      var k :| 0 <= k < |b| && Contains(s, b[k]);
      assert (a + b)[|a| + k] == b[k];
    }
  }

  // ---------------------------------------------------------------- case

  /** Python's `s.lower()` (ASCII letters). */
  function Lower(s: string): string
  {
    seq(|s|, i requires 0 <= i < |s| => LowerChar(s[i]))
  }

  /** Python's `s.isupper()`: some cased character, and none of them lower-case. */
  predicate IsUpper(s: string)
  {
    (exists i :: 0 <= i < |s| && IsUpperChar(s[i]))
    && forall i :: 0 <= i < |s| ==> !IsLowerChar(s[i])
  }

  /** Python's `s.isalpha()`: non-empty and every character a letter. */
  predicate IsAlpha(s: string)
  {
    |s| > 0 && forall i :: 0 <= i < |s| ==> IsLetter(s[i])
  }

  /** Python's `s.title()`: a letter after a letter is lowered, any other letter raised. */
  function Title(s: string): string
  {
    seq(|s|, i requires 0 <= i < |s| =>
      if i > 0 && IsLetter(s[i - 1]) then LowerChar(s[i]) else UpperChar(s[i]))
  }

  lemma LowerIdempotent(s: string)
    ensures Lower(Lower(s)) == Lower(s)
  {
  }

  /** A lowered string holds no upper-case letter, so it contains no text that has one. */
  lemma LowerHasNoUpper(s: string, t: string, j: nat)
    requires j < |t| && IsUpperChar(t[j])
    ensures !Contains(Lower(s), t)
  {
  }

  // ---------------------------------------------------------------- whitespace

  predicate AllSpace(s: string)
  {
    forall i :: 0 <= i < |s| ==> IsSpace(s[i])
  }

  predicate NoSpace(s: string)
  {
    forall i :: 0 <= i < |s| ==> !IsSpace(s[i])
  }

  function LStrip(s: string): (r: string)
    ensures |r| <= |s|
    ensures r == [] || !IsSpace(r[0])
  {
    if s != [] && IsSpace(s[0]) then LStrip(s[1..]) else s
  }

  function RStrip(s: string): (r: string)
    ensures |r| <= |s|
    ensures r == [] || !IsSpace(r[|r| - 1])
  {
    if s != [] && IsSpace(s[|s| - 1]) then RStrip(s[..|s| - 1]) else s
  }

  /** The left strip is a suffix of `s`, and what it drops is whitespace. */
  lemma {:induction false} LStripSuffix(s: string)
    ensures LStrip(s) == s[|s| - |LStrip(s)|..]
    ensures AllSpace(s[..|s| - |LStrip(s)|])
  {
    if s != [] && IsSpace(s[0]) {
      LStripSuffix(s[1..]);
      var n := |s| - |LStrip(s)|;
      assert s[1..][|s| - 1 - |LStrip(s)|..] == s[n..];
      forall i | 0 <= i < n ensures IsSpace(s[..n][i]) {
        if i > 0 {
          assert s[..n][i] == s[1..][..n - 1][i - 1];
        }
      }
    }
  }

  /** The right strip is a prefix of `s`, and what it drops is whitespace. */
  lemma {:induction false} RStripPrefix(s: string)
    ensures RStrip(s) == s[..|RStrip(s)|]
    ensures AllSpace(s[|RStrip(s)|..])
  {
    if s != [] && IsSpace(s[|s| - 1]) {
      var t := s[..|s| - 1];
      RStripPrefix(t);
      var n := |RStrip(s)|;
      assert t[..n] == s[..n];
      forall i | 0 <= i < |s| - n ensures IsSpace(s[n..][i]) {
        if n + i < |s| - 1 {
          assert s[n..][i] == t[n..][i];
        }
      }
    }
  }

  /** Python's `s.strip()`. */
  function Strip(s: string): (r: string)
    ensures |r| <= |s|
    ensures r == [] || (!IsSpace(r[0]) && !IsSpace(r[|r| - 1]))
  {
    RStripPrefix(LStrip(s));
    RStrip(LStrip(s))
  }

  /** The stripped text is the slice of `s` between whitespace at both ends. */
  lemma StripSlice(s: string)
    ensures var a := |s| - |LStrip(s)|;
            && a + |Strip(s)| <= |s| && Strip(s) == s[a..a + |Strip(s)|]
            && AllSpace(s[..a]) && AllSpace(s[a + |Strip(s)|..])
  {
    StripSliceText(s);
    StripSliceRight(s);
  }

  lemma StripSliceText(s: string)
    ensures var a := |s| - |LStrip(s)|;
            a + |Strip(s)| <= |s| && Strip(s) == s[a..a + |Strip(s)|]
  {
    var l := LStrip(s);
    LStripSuffix(s);
    RStripPrefix(l);
    SuffixPrefix(s, l, RStrip(l));
  }

  lemma StripSliceRight(s: string)
    ensures var a := |s| - |LStrip(s)|;
            a + |Strip(s)| <= |s| && AllSpace(s[a + |Strip(s)|..])
  {
    var l := LStrip(s);
    LStripSuffix(s);
    RStripPrefix(l);
    SuffixPrefix(s, l, RStrip(l));
  }

  lemma SuffixPrefix<T>(s: seq<T>, l: seq<T>, r: seq<T>)
    requires |l| <= |s| && l == s[|s| - |l|..]
    requires |r| <= |l| && r == l[..|r|]
    ensures var a := |s| - |l|; r == s[a..a + |r|] && s[a + |r|..] == l[|r|..]
  {
  }

  lemma SliceOfSuffix<T>(s: seq<T>, a: nat, n: nat)
    requires a + n <= |s|
    ensures s[a..][..n] == s[a..a + n] && s[a..][n..] == s[a + n..]
  {
  }

  lemma {:induction false} LStripAllSpace(s: string)
    requires AllSpace(s)
    ensures LStrip(s) == []
  {
    if s != [] {
      assert AllSpace(s[1..]) by {
        forall i | 0 <= i < |s| - 1 ensures IsSpace(s[1..][i]) { assert s[1..][i] == s[i + 1]; }
      }
      LStripAllSpace(s[1..]);
    }
  }

  /** Stripping adds no character. */
  lemma StripKeepsAbsent(s: string, c: char)
    requires c !in s
    ensures c !in Strip(s)
  {
    StripSlice(s);
  }

  lemma StripAllSpace(s: string)
    ensures Strip(s) == [] <==> AllSpace(s)
  {
    var l := LStrip(s);
    LStripSuffix(s);
    RStripPrefix(l);
    if Strip(s) == [] {
      // nothing survives the right strip, so the left strip left nothing either
      assert l[|RStrip(l)|..] == l;
      assert l == [];
      assert s[..|s|] == s;
    }
    if AllSpace(s) {
      LStripAllSpace(s);
    }
  }

  /** Python's `s.strip(chars)` for a set of characters `cs`. */
  function StripChars(s: string, cs: set<char>): (r: string)
    ensures |r| <= |s|
    ensures r == [] || (r[0] !in cs && r[|r| - 1] !in cs)
  {
    if s != [] && s[0] in cs then StripChars(s[1..], cs)
    else if s != [] && s[|s| - 1] in cs then StripChars(s[..|s| - 1], cs)
    else s
  }

  // ---------------------------------------------------------------- slicing

  /** Python's `s[:n]` for `n >= 0`. */
  function Take<T>(s: seq<T>, n: nat): (r: seq<T>)
    ensures |r| == if n < |s| then n else |s|
    ensures r == s[..|r|]
  {
    if n < |s| then s[..n] else s
  }

  lemma PrefixGrows<T>(s: seq<T>, k: nat)
    requires k <= |s|
    ensures k < |s| ==> s[..k + 1] == s[..k] + [s[k]]
    ensures k == |s| ==> s[..k] == s
  {
  }

  /** Python's `s[a:b]` for `0 <= a`, `0 <= b`. */
  function Slice<T>(s: seq<T>, a: nat, b: nat): (r: seq<T>)
    ensures |r| <= |s|
  {
    if a >= |s| || a >= b then [] else s[a..if b < |s| then b else |s|]
  }

  // ---------------------------------------------------------------- split and join

  function IndexOfChar(s: string, c: char): (i: nat)
    requires c in s
    ensures i < |s| && s[i] == c && c !in s[..i]
  {
    if s[0] == c then 0 else 1 + IndexOfChar(s[1..], c)
  }

  /** Python's `s.split(sep)` for a one-character separator. */
  function Split(s: string, sep: char): (r: seq<string>)
    ensures |r| >= 1
    ensures forall k :: 0 <= k < |r| ==> sep !in r[k]
    decreases |s|
  {
    if sep !in s then [s]
    else
      var i := IndexOfChar(s, sep);
      [s[..i]] + Split(s[i + 1..], sep)
  }

  /** Python's `sep.join(parts)`. */
  function Join(parts: seq<string>, sep: string): string
  {
    if parts == [] then []
    else if |parts| == 1 then parts[0]
    else parts[0] + sep + Join(parts[1..], sep)
  }

  lemma {:induction false} SplitJoin(s: string, sep: char)
    ensures Join(Split(s, sep), [sep]) == s
    decreases |s|
  {
    if sep in s {
      var i := IndexOfChar(s, sep);
      var head, tail := s[..i], s[i + 1..];
      SplitJoin(tail, sep);
      JoinCons(head, Split(tail, sep), [sep]);
      assert Split(s, sep) == [head] + Split(tail, sep);
      SplitAround(s, i);
    }
  }

  /** A sequence is what lies before position `i`, the element at `i`, and what lies after. */
  lemma SplitAround<T>(s: seq<T>, i: nat)
    requires i < |s|
    ensures s == s[..i] + [s[i]] + s[i + 1..]
  {
  }

  /** Joining a first part in front of a non-empty list puts one separator between them. */
  lemma JoinCons(head: string, rest: seq<string>, sep: string)
    requires rest != []
    ensures Join([head] + rest, sep) == head + sep + Join(rest, sep)
  {
    assert ([head] + rest)[1..] == rest;
  }

  /** The first occurrence is the one with no earlier occurrence. */
  lemma IndexOfCharAt(s: string, c: char, i: nat)
    requires i < |s| && s[i] == c && c !in s[..i]
    ensures IndexOfChar(s, c) == i
  {
  }

  /** `s.split(sep)` on `head + sep + tail` with no separator in `head`. */
  lemma SplitCons(head: string, tail: string, sep: char)
    requires sep !in head
    ensures Split(head + [sep] + tail, sep) == [head] + Split(tail, sep)
  {
    var s := head + [sep] + tail;
    assert s[|head|] == sep && s[..|head|] == head;
    IndexOfCharAt(s, sep, |head|);
    assert s[|head| + 1..] == tail;
  }

  /** Splitting a join of separator-free parts gives the parts back. */
  lemma {:induction false} JoinSplit(parts: seq<string>, sep: char)
    requires |parts| >= 1 && forall k :: 0 <= k < |parts| ==> sep !in parts[k]
    ensures Split(Join(parts, [sep]), sep) == parts
    decreases |parts|
  {
    if |parts| > 1 {
      JoinSplit(parts[1..], sep);
      SplitCons(parts[0], Join(parts[1..], [sep]), sep);
      assert parts == [parts[0]] + parts[1..];
    }
  }

  function IndexOfSpace(s: string): (i: nat)
    ensures i <= |s| && NoSpace(s[..i])
    ensures i < |s| ==> IsSpace(s[i])
  {
    if s == [] || IsSpace(s[0]) then 0 else 1 + IndexOfSpace(s[1..])
  }

  /** Python's `s.split()`: the maximal runs of non-whitespace, in order. */
  function Words(s: string): (r: seq<string>)
    ensures forall k :: 0 <= k < |r| ==> r[k] != [] && NoSpace(r[k])
    decreases |s|
  {
    var t := LStrip(s);
    if t == [] then []
    else
      var i := IndexOfSpace(t);
      [t[..i]] + Words(t[i..])
  }

  lemma {:induction false} WordsEmpty(s: string)
    ensures Words(s) == [] <==> AllSpace(s)
  {
    var t := LStrip(s);
    LStripSuffix(s);
    if t == [] {
      assert s[..|s|] == s;
    }
  }

  /** The first word starts where the leading whitespace ends. */
  lemma FirstWordIsPrefixOfStrip(s: string)
    requires Words(s) != []
    ensures StartsWith(LStrip(s), Words(s)[0])
  {
  }

  /** `s.replace(pat, rep)`: occurrences of `pat`, leftmost first and not overlapping, become `rep`. */
  function Replace(s: string, pat: string, rep: string): string
    requires |pat| > 0
    decreases |s|
  {
    if |s| < |pat| then s
    else if s[..|pat|] == pat then rep + Replace(s[|pat|..], pat, rep)
    else [s[0]] + Replace(s[1..], pat, rep)
  }

  lemma {:induction false} ReplaceRemoves(s: string, pat: string, rep: string)
    requires |pat| == 1 && pat[0] !in rep
    ensures pat[0] !in Replace(s, pat, rep)
    decreases |s|
  {
    if |s| < |pat| {
    } else if s[..|pat|] == pat {
      ReplaceRemoves(s[|pat|..], pat, rep);
    } else {
      ReplaceRemoves(s[1..], pat, rep);
    }
  }

  /** Replacing one character by another keeps the length. */
  lemma {:induction false} ReplaceCharLength(s: string, pat: string, rep: string)
    requires |pat| == 1 && |rep| == 1
    ensures |Replace(s, pat, rep)| == |s|
    decreases |s|
  {
    if |s| >= 1 {
      if s[..1] == pat { ReplaceCharLength(s[1..], pat, rep); } else { ReplaceCharLength(s[1..], pat, rep); }
    }
  }

  /** A character in neither the text nor the replacement does not appear. */
  lemma {:induction false} ReplaceKeepsAbsent(s: string, pat: string, rep: string, c: char)
    requires |pat| > 0 && c !in s && c !in rep
    ensures c !in Replace(s, pat, rep)
    decreases |s|
  {
    if |s| < |pat| {
    } else if s[..|pat|] == pat {
      assert forall i :: 0 <= i < |s| - |pat| ==> s[|pat|..][i] == s[|pat| + i];
      ReplaceKeepsAbsent(s[|pat|..], pat, rep, c);
    } else {
      assert forall i :: 0 <= i < |s| - 1 ==> s[1..][i] == s[1 + i];
      ReplaceKeepsAbsent(s[1..], pat, rep, c);
    }
  }

  /** Deleting a one-character pattern keeps every other character and only those. */
  lemma {:induction false} ReplaceDeletes(s: string, pat: string, c: char)
    requires |pat| == 1
    ensures c in Replace(s, pat, "") <==> c in s && c != pat[0]
    decreases |s|
  {
    if |s| >= 1 {
      ReplaceDeletes(s[1..], pat, c);
      assert s == [s[0]] + s[1..];
      if s[..1] == pat {
        assert s[0] == pat[0];
      }
    }
  }

  /** Title case changes letters only. */
  lemma TitleKeepsNonLetters(s: string, c: char)
    requires !IsLetter(c)
    ensures c in Title(s) <==> c in s
  {
    if c in Title(s) {
      var i :| 0 <= i < |s| && Title(s)[i] == c;
      assert s[i] == c;
    }
    if c in s {
      var i :| 0 <= i < |s| && s[i] == c;
      assert Title(s)[i] == c;
    }
  }

  // ---------------------------------------------------------------- two regex substitutions

  /** `re.sub(r'\s+', ' ', s)`: every run of whitespace becomes one space. */
  function CollapseSpace(s: string): string
    decreases |s|
  {
    if s == [] then []
    else if IsSpace(s[0]) then
      var rest := LStrip(s);
      " " + CollapseSpace(rest)
    else [s[0]] + CollapseSpace(s[1..])
  }

  /** The only whitespace is a single ' ' between two other characters' runs. */
  predicate SingleSpaced(s: string)
  {
    forall i :: 0 <= i < |s| && IsSpace(s[i]) ==> s[i] == ' ' && (i + 1 < |s| ==> !IsSpace(s[i + 1]))
  }

  lemma {:induction false} CollapseSpaceSingleSpaced(s: string)
    ensures SingleSpaced(CollapseSpace(s))
    ensures s != [] && !IsSpace(s[0]) ==> CollapseSpace(s) != [] && CollapseSpace(s)[0] == s[0]
    decreases |s|
  {
    if s == [] {
    } else if IsSpace(s[0]) {
      var rest := LStrip(s);
      CollapseSpaceSingleSpaced(rest);
      var r := CollapseSpace(s);
      assert r == " " + CollapseSpace(rest);
      forall i | 0 <= i < |r| && IsSpace(r[i]) ensures r[i] == ' ' && (i + 1 < |r| ==> !IsSpace(r[i + 1])) {
        if i > 0 { assert r[i] == CollapseSpace(rest)[i - 1]; }
        if i + 1 < |r| { assert r[i + 1] == CollapseSpace(rest)[i]; }
      }
    } else {
      CollapseSpaceSingleSpaced(s[1..]);
      var r := CollapseSpace(s);
      forall i | 0 <= i < |r| && IsSpace(r[i]) ensures r[i] == ' ' && (i + 1 < |r| ==> !IsSpace(r[i + 1])) {
        assert r[i] == CollapseSpace(s[1..])[i - 1];
        if i + 1 < |r| { assert r[i + 1] == CollapseSpace(s[1..])[i]; }
      }
    }
  }

  lemma SliceSingleSpaced(s: string, a: nat, b: nat)
    requires SingleSpaced(s) && a <= b <= |s|
    ensures SingleSpaced(s[a..b])
  {
    var r := s[a..b];
    forall i | 0 <= i < |r| && IsSpace(r[i]) ensures r[i] == ' ' && (i + 1 < |r| ==> !IsSpace(r[i + 1])) {
      assert r[i] == s[a + i];
      if i + 1 < |r| { assert r[i + 1] == s[a + i + 1]; }
    }
  }

  lemma StripSingleSpaced(s: string)
    requires SingleSpaced(s)
    ensures SingleSpaced(Strip(s))
  {
    var l := LStrip(s);
    LStripSuffix(s);
    RStripPrefix(l);
    SliceSingleSpaced(s, |s| - |l|, |s|);
    SliceSingleSpaced(l, 0, |RStrip(l)|);
  }

  /** What `<[^>]+>` matches at `i`: a '<', then at least one character, up to the next '>'. */
  predicate TagAt(s: string, i: int)
  {
    0 <= i && i + 1 < |s| && s[i] == '<' && s[i + 1] != '>' && '>' in s[i + 1..]
  }

  ghost predicate NoTag(s: string)
  {
    forall i :: !TagAt(s, i)
  }

  /** `re.sub(r'<[^>]+>', '', s)`, scanning left to right. */
  function StripTags(s: string): (r: string)
    ensures forall c :: c in r ==> c in s
    decreases |s|
  {
    if s == [] then []
    else if TagAt(s, 0) then
      var close := 1 + IndexOfChar(s[1..], '>');
      StripTags(s[close + 1..])
    else [s[0]] + StripTags(s[1..])
  }

  lemma TagAtShift(s: string, i: int)
    requires s != [] && i >= 0
    ensures TagAt(s, i + 1) <==> TagAt(s[1..], i)
  {
    if i + 2 < |s| {
      assert s[i + 2..] == s[1..][i + 1..];
    }
  }

  /** No tag survives: removing one never lets a new one form. */
  lemma {:induction false} StripTagsLeavesNoTag(s: string)
    ensures NoTag(StripTags(s))
    decreases |s|
  {
    if s == [] {
    } else if TagAt(s, 0) {
      var close := 1 + IndexOfChar(s[1..], '>');
      StripTagsLeavesNoTag(s[close + 1..]);
    } else {
      var rest := StripTags(s[1..]);
      StripTagsLeavesNoTag(s[1..]);
      var r := [s[0]] + rest;
      assert r[1..] == rest;
      forall i ensures !TagAt(r, i) {
        if i >= 1 {
          TagAtShift(r, i - 1);
        } else if i == 0 && s[0] == '<' && |s| > 1 {
          if s[1] == '>' {
            assert !TagAt(s[1..], 0);
            assert rest == [s[1]] + StripTags(s[2..]);
            assert r[1] == '>';
          } else {
            assert '>' !in s[1..];
            assert '>' !in rest;
            assert r[1..] == rest;
          }
        }
      }
    }
  }

  lemma {:induction false} StripTagsKeepsTagFree(s: string)
    requires NoTag(s)
    ensures StripTags(s) == s
    decreases |s|
  {
    if s != [] {
      assert !TagAt(s, 0);
      forall i ensures !TagAt(s[1..], i) { if i >= 0 { TagAtShift(s, i); } }
      StripTagsKeepsTagFree(s[1..]);
    }
  }

  /** A tag in a slice of `s` is a tag in `s`: its closing '>' is still there. */
  lemma SliceTagAt(s: string, a: nat, b: nat, i: int)
    requires a <= b <= |s|
    ensures TagAt(s[a..b], i) ==> TagAt(s, a + i)
  {
    var r := s[a..b];
    if TagAt(r, i) {
      var k :| 0 <= k < |r[i + 1..]| && r[i + 1..][k] == '>';
      assert s[a + i + 1..][k] == '>';
    }
  }

  lemma SliceNoTag(s: string, a: nat, b: nat)
    requires NoTag(s) && a <= b <= |s|
    ensures NoTag(s[a..b])
  {
    forall i ensures !TagAt(s[a..b], i) {
      SliceTagAt(s, a, b, i);
    }
  }

  lemma StripKeepsNoTag(s: string)
    requires NoTag(s)
    ensures NoTag(Strip(s))
  {
    StripSliceText(s);
    var a := |s| - |LStrip(s)|;
    SliceNoTag(s, a, a + |Strip(s)|);
  }

  /** Collapsing whitespace brings in no character but ' '. */
  lemma {:induction false} CollapseSpaceChars(s: string)
    ensures forall c :: c in CollapseSpace(s) ==> c == ' ' || c in s
    decreases |s|
  {
    if s != [] {
      if IsSpace(s[0]) {
        var rest := LStrip(s);
        LStripSuffix(s);
        CollapseSpaceChars(rest);
        forall c | c in rest ensures c in s {
          var k :| 0 <= k < |rest| && rest[k] == c;
          assert s[|s| - |rest| + k] == c;
        }
      } else {
        CollapseSpaceChars(s[1..]);
      }
    }
  }

  /**
   * Collapsing whitespace forms no tag: it keeps every other character and
   * turns a run of whitespace into one space, never into nothing.
   */
  lemma {:induction false} CollapseSpaceKeepsNoTag(s: string)
    requires NoTag(s)
    ensures NoTag(CollapseSpace(s))
    decreases |s|
  {
    if s != [] {
      var r := CollapseSpace(s);
      if IsSpace(s[0]) {
        var rest := LStrip(s);
        LStripSuffix(s);
        SliceNoTag(s, |s| - |rest|, |s|);
        assert s[|s| - |rest|..|s|] == rest;
        CollapseSpaceKeepsNoTag(rest);
        assert r[1..] == CollapseSpace(rest);
        forall i ensures !TagAt(r, i) {
          if i >= 1 {
            TagAtShift(r, i - 1);
          }
        }
      } else {
        SliceNoTag(s, 1, |s|);
        assert s[1..|s|] == s[1..];
        CollapseSpaceKeepsNoTag(s[1..]);
        assert r[1..] == CollapseSpace(s[1..]);
        forall i ensures !TagAt(r, i) {
          if i >= 1 {
            TagAtShift(r, i - 1);
          } else if i == 0 && s[0] == '<' && |s| > 1 {
            assert !TagAt(s, 0);
            if s[1] == '>' {
              CollapseSpaceSingleSpaced(s[1..]);
            } else {
              assert '>' !in s[1..];
              CollapseSpaceChars(s[1..]);
            }
          }
        }
      }
    }
  }

  // ---------------------------------------------------------------- numbers

  /** Python's `s.isdigit()` (ASCII digits): non-empty and digits only. */
  predicate IsDigits(s: string)
  {
    |s| > 0 && forall i :: 0 <= i < |s| ==> IsDigitChar(s[i])
  }

  /** A string that `int()` accepts: what a `(\d+)` group captures or `str(n)` renders. */
  type DigitString = s: string | IsDigits(s) witness "0"

  function DigitChar(d: nat): (c: char)
    requires d < 10
    ensures IsDigitChar(c)
  {
    ('0' as int + d) as char
  }

  /** Python's `int(s)` on a string of digits. */
  function DigitsToNat(s: string): nat
    requires forall i :: 0 <= i < |s| ==> IsDigitChar(s[i])
  {
    if s == [] then 0
    else assert IsDigitChar(s[|s| - 1]); 10 * DigitsToNat(s[..|s| - 1]) + (s[|s| - 1] as int - '0' as int)
  }

  /** Python's `str(n)` for `n >= 0`. */
  function NatToStr(n: nat): (r: string)
    ensures IsDigits(r)
  {
    if n < 10 then [DigitChar(n)] else NatToStr(n / 10) + [DigitChar(n % 10)]
  }

  /** `int(str(n)) == n`. */
  lemma {:induction false} ReadBack(n: nat)
    ensures DigitsToNat(NatToStr(n)) == n
  {
    if n >= 10 {
      var s := NatToStr(n);
      assert s[..|s| - 1] == NatToStr(n / 10);
      ReadBack(n / 10);
    }
  }

  lemma NatToStrInjective(a: nat, b: nat)
    requires NatToStr(a) == NatToStr(b)
    ensures a == b
  {
    ReadBack(a);
    ReadBack(b);
  }
}
