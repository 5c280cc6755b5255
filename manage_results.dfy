/**
 * The results-management script: filing result files into `YYYY-MM-DD`
 * directories by the date in their names, listing those directories newest
 * first, and choosing which of them to archive. The file system is left to
 * the caller: the operations take the names a directory listing returns
 * and give back the moves to make.
 */
module ManageResults {
  import opened Wrappers
  import opened Strings
  import opened Seqs

  // ---------------------------------------------------------------- organize_results_by_date

  /** A date piece of a file name: eight digits (`len(part) == 8 and part.isdigit()`). */
  predicate IsDatePart(part: string)
  {
    |part| == 8 && IsDigits(part)
  }

  /** The first date piece, as the loop with `break` finds it. */
  method FindDatePart(parts: seq<string>) returns (datePart: Option<string>)
    ensures datePart.None? <==> forall k :: 0 <= k < |parts| ==> !IsDatePart(parts[k])
    ensures datePart.Some? ==> exists i :: 0 <= i < |parts| && parts[i] == datePart.value
                                           && IsDatePart(parts[i])
                                           && forall k :: 0 <= k < i ==> !IsDatePart(parts[k])
  {
    datePart := None;
    var i := 0;
    while i < |parts|
      invariant 0 <= i <= |parts|
      invariant forall k :: 0 <= k < i ==> !IsDatePart(parts[k])
    {
      if IsDatePart(parts[i]) {
        datePart := Some(parts[i]);
        break;
      }
      i := i + 1;
    }
  }

  /** The first date piece of the `_`-separated pieces of a file name, if any. */
  function DatePartOf(filename: string): (r: Option<string>)
    ensures r.Some? ==> IsDatePart(r.value) && r.value in Split(filename, '_')
    ensures r.None? <==> forall k :: 0 <= k < |Split(filename, '_')| ==> !IsDatePart(Split(filename, '_')[k])
  {
    FirstDatePart(Split(filename, '_'))
  }

  function FirstDatePart(parts: seq<string>): (r: Option<string>)
    ensures r.Some? ==> IsDatePart(r.value) && r.value in parts
    ensures r.None? <==> forall k :: 0 <= k < |parts| ==> !IsDatePart(parts[k])
  {
    if parts == [] then None
    else if IsDatePart(parts[0]) then Some(parts[0])
    else
      var r := FirstDatePart(parts[1..]);
      assert forall k :: 1 <= k < |parts| ==> parts[k] == parts[1..][k - 1];
      r
  }

  /** The loop's answer is the first date piece. */
  lemma FindDatePartIsFirst(parts: seq<string>, i: nat)
    requires i < |parts| && IsDatePart(parts[i])
    requires forall k :: 0 <= k < i ==> !IsDatePart(parts[k])
    ensures FirstDatePart(parts) == Some(parts[i])
  {
    if i > 0 {
      assert parts[1..][i - 1] == parts[i];
      assert forall k :: 0 <= k < i - 1 ==> parts[1..][k] == parts[k + 1];
      FindDatePartIsFirst(parts[1..], i - 1);
    }
  }

  /** `f"{year}-{month}-{day}"` from `YYYYMMDD`. */
  function DateDirName(datePart: string): string
    requires IsDatePart(datePart)
  {
    datePart[..4] + "-" + datePart[4..6] + "-" + datePart[6..8]
  }

  /**
   * The directory name has ten characters, dashes after the year and the
   * month, and the eight digits in their original order around them.
   */
  lemma DateDirNameSpec(datePart: string)
    requires IsDatePart(datePart)
    ensures var r := DateDirName(datePart);
            && |r| == 10 && r[4] == '-' && r[7] == '-'
            && r[..4] + r[5..7] + r[8..] == datePart
  {
    var r := DateDirName(datePart);
    assert r[..4] == datePart[..4];
    assert r[5..7] == datePart[4..6];
    assert r[8..] == datePart[6..8];
  }

  /** One file to move: its name and the date directory it goes to. */
  datatype Move = Move(filename: string, dateDir: string)

  predicate HasDatePart(filename: string)
  {
    DatePartOf(filename).Some?
  }

  function MoveOf(filename: string): Move
  {
    match DatePartOf(filename)
    case None => Move(filename, "")
    case Some(p) => Move(filename, DateDirName(p))
  }

  /** The moves for a list of file names: one per name with a date piece, in order. */
  function Moves(filenames: seq<string>): seq<Move>
  {
    if filenames == [] then []
    else
      var last := filenames[|filenames| - 1];
      Moves(filenames[..|filenames| - 1]) + if HasDatePart(last) then [MoveOf(last)] else []
  }

  /**
   * `organize_results_by_date` over the base names the three patterns
   * list, in order: the moves to make, and `files_moved`.
   */
  method OrganizeResultsByDate(filenames: seq<string>) returns (moves: seq<Move>, filesMoved: nat)
    ensures moves == Moves(filenames)
    ensures filesMoved == |moves|
  {
    moves := [];
    filesMoved := 0;
    for i := 0 to |filenames|
      invariant moves == Moves(filenames[..i])
      invariant filesMoved == |moves|
    {
      assert filenames[..i + 1][..i] == filenames[..i];
      var parts := Split(filenames[i], '_');
      var datePart := FindDatePart(parts);
      if datePart.Some? {
        var w :| 0 <= w < |parts| && parts[w] == datePart.value && IsDatePart(parts[w])
                 && forall k :: 0 <= k < w ==> !IsDatePart(parts[k]);
        FindDatePartIsFirst(parts, w);
        moves := moves + [Move(filenames[i], DateDirName(datePart.value))];
        filesMoved := filesMoved + 1;
      }
    }
    assert filenames[..|filenames|] == filenames;
  }

  /**
   * The moves are exactly the names with a date piece, in order, each to
   * the directory of its first date piece; `files_moved` counts them.
   */
  lemma {:induction false} MovesAreFiltered(filenames: seq<string>)
    ensures Moves(filenames) == Map(Filter(filenames, HasDatePart), MoveOf)
  {
    if filenames != [] {
      MovesAreFiltered(filenames[..|filenames| - 1]);
      MapFilterSnoc(filenames, HasDatePart, MoveOf);
    }
  }

  /** A name without a date piece is never moved. */
  lemma UndatedNotMoved(filenames: seq<string>, f: string)
    requires !HasDatePart(f)
    ensures forall m :: m in Moves(filenames) ==> m.filename != f
  {
    MovesAreFiltered(filenames);
    forall m | m in Moves(filenames) ensures m.filename != f {
      var ms := Moves(filenames);
      var k :| 0 <= k < |ms| && ms[k] == m;
      var kept := Filter(filenames, HasDatePart);
      FilterMembers(filenames, HasDatePart, kept[k]);
    }
  }

  // ---------------------------------------------------------------- list_results_by_date

  /** Python's `a <= b` on strings: code points compared left to right. */
  predicate StrLeq(a: string, b: string)
    decreases |a|
  {
    a == [] || (b != [] && (a[0] < b[0] || (a[0] == b[0] && StrLeq(a[1..], b[1..]))))
  }

  lemma {:induction false} StrLeqTotal(a: string, b: string)
    ensures StrLeq(a, b) || StrLeq(b, a)
    decreases |a|
  {
    if a != [] && b != [] && a[0] == b[0] {
      StrLeqTotal(a[1..], b[1..]);
    }
  }

  lemma {:induction false} StrLeqTrans(a: string, b: string, c: string)
    requires StrLeq(a, b) && StrLeq(b, c)
    ensures StrLeq(a, c)
    decreases |a|
  {
    if a != [] && a[0] == b[0] && b[0] == c[0] {
      StrLeqTrans(a[1..], b[1..], c[1..]);
    }
  }

  /** Newest first: each name is at least every name after it. */
  predicate SortedDesc(s: seq<string>)
  {
    forall i, j :: 0 <= i < j < |s| ==> StrLeq(s[j], s[i])
  }

  /** Put `x` before the first name not above it. */
  function InsertDesc(x: string, s: seq<string>): (r: seq<string>)
    ensures multiset(r) == multiset(s) + multiset{x}
    ensures |r| == |s| + 1
  {
    if s == [] || StrLeq(s[0], x) then [x] + s
    else
      var r := InsertDesc(x, s[1..]);
      assert s == [s[0]] + s[1..];
      [s[0]] + r
  }

  lemma {:induction false} InsertDescSorted(x: string, s: seq<string>)
    requires SortedDesc(s)
    ensures SortedDesc(InsertDesc(x, s))
  {
    var r := InsertDesc(x, s);
    if s == [] {
    } else if StrLeq(s[0], x) {
      forall i, j | 0 <= i < j < |r| ensures StrLeq(r[j], r[i]) {
        if i == 0 && j > 1 {
          StrLeqTrans(r[j], s[0], x);
        }
      }
    } else {
      StrLeqTotal(s[0], x);
      var t := InsertDesc(x, s[1..]);
      assert SortedDesc(s[1..]) by {
        forall i, j | 0 <= i < j < |s| - 1 ensures StrLeq(s[1..][j], s[1..][i]) {
          assert s[1..][j] == s[j + 1] && s[1..][i] == s[i + 1];
        }
      }
      InsertDescSorted(x, s[1..]);
      forall y | y in t ensures StrLeq(y, s[0]) {
        assert y in multiset(t);
        if y != x {
          assert y in multiset(s[1..]);
          var k :| 0 <= k < |s| - 1 && s[1..][k] == y;
          assert s[k + 1] == y;
        }
      }
      forall i, j | 0 <= i < j < |r| ensures StrLeq(r[j], r[i]) {
        if i == 0 {
          assert r[j] == t[j - 1] && r[j] in t;
        } else {
          assert r[i] == t[i - 1] && r[j] == t[j - 1];
        }
      }
    }
  }

  /** `date_dirs.sort(reverse=True)`, by insertion. */
  method SortDescending(xs: seq<string>) returns (r: seq<string>)
    ensures SortedDesc(r)
    ensures multiset(r) == multiset(xs)
  {
    r := [];
    for i := 0 to |xs|
      invariant SortedDesc(r)
      invariant multiset(r) == multiset(xs[..i])
    {
      assert xs[..i + 1] == xs[..i] + [xs[i]];
      InsertDescSorted(xs[i], r);
      r := InsertDesc(xs[i], r);
    }
    assert xs[..|xs|] == xs;
  }

  lemma {:induction false} StrLeqRefl(a: string)
    ensures StrLeq(a, a)
    decreases |a|
  {
    if a != [] {
      StrLeqRefl(a[1..]);
    }
  }

  lemma {:induction false} StrLeqAntisym(a: string, b: string)
    requires StrLeq(a, b) && StrLeq(b, a)
    ensures a == b
    decreases |a|
  {
    if a != [] {
      StrLeqAntisym(a[1..], b[1..]);
      assert a == [a[0]] + a[1..] && b == [b[0]] + b[1..];
    }
  }

  lemma SortedTail(s: seq<string>)
    requires SortedDesc(s) && s != []
    ensures SortedDesc(s[1..])
  {
    forall i, j | 0 <= i < j < |s| - 1 ensures StrLeq(s[1..][j], s[1..][i]) {
      assert s[1..][j] == s[j + 1] && s[1..][i] == s[i + 1];
    }
  }

  /** The head of a list sorted newest first is at least every element. */
  lemma SortedHeadIsMax(s: seq<string>, x: string)
    requires SortedDesc(s) && x in s
    ensures StrLeq(x, s[0])
  {
    var k :| 0 <= k < |s| && s[k] == x;
    if k == 0 {
      StrLeqRefl(x);
    }
  }

  lemma SameTails(s: seq<string>, t: seq<string>)
    requires s != [] && t != [] && s[0] == t[0] && multiset(s) == multiset(t)
    ensures multiset(s[1..]) == multiset(t[1..])
  {
    assert s == [s[0]] + s[1..] && t == [t[0]] + t[1..];
    assert multiset(s) == multiset{s[0]} + multiset(s[1..]);
    assert multiset(t) == multiset{s[0]} + multiset(t[1..]);
    assert multiset(s[1..]) == multiset(s) - multiset{s[0]};
    assert multiset(t[1..]) == multiset(t) - multiset{s[0]};
  }

  /**
   * Only one ordering of a list is sorted newest first, so the sort's
   * result is the one Python's `sort(reverse=True)` gives.
   */
  lemma {:induction false} SortedDescUnique(s: seq<string>, t: seq<string>)
    requires SortedDesc(s) && SortedDesc(t) && multiset(s) == multiset(t)
    ensures s == t
  {
    if s != [] {
      assert s[0] in multiset(t);
      assert t != [] && t[0] in multiset(s);
      SortedHeadIsMax(s, t[0]);
      SortedHeadIsMax(t, s[0]);
      StrLeqAntisym(s[0], t[0]);
      SameTails(s, t);
      SortedTail(s);
      SortedTail(t);
      SortedDescUnique(s[1..], t[1..]);
    }
  }

  /** An entry of `results/`: its name and whether it is a directory. */
  datatype Entry = Entry(name: string, isDir: bool)

  /** `os.path.isdir(item_path) and item.startswith("20")`. */
  predicate IsDateDirEntry(e: Entry)
  {
    e.isDir && StartsWith(e.name, "20")
  }

  /** The names the listing keeps, in listing order. */
  function DateDirNames(entries: seq<Entry>): seq<string>
  {
    if entries == [] then []
    else
      var last := entries[|entries| - 1];
      DateDirNames(entries[..|entries| - 1]) + if IsDateDirEntry(last) then [last.name] else []
  }

  lemma {:induction false} DateDirNamesMembers(entries: seq<Entry>, n: string)
    ensures n in DateDirNames(entries) <==> exists e :: e in entries && IsDateDirEntry(e) && e.name == n
  {
    if entries != [] {
      var init := entries[..|entries| - 1];
      var last := entries[|entries| - 1];
      DateDirNamesMembers(init, n);
      assert entries == init + [last];
      if exists e :: e in entries && IsDateDirEntry(e) && e.name == n {
        var e :| e in entries && IsDateDirEntry(e) && e.name == n;
        if e != last {
          assert e in init;
        }
      }
    }
  }

  /** The directory names of `list_results_by_date`, newest first. */
  method ListResultsByDate(entries: seq<Entry>) returns (dateDirs: seq<string>)
    ensures SortedDesc(dateDirs)
    ensures multiset(dateDirs) == multiset(DateDirNames(entries))
  {
    var found: seq<string> := [];
    for i := 0 to |entries|
      invariant found == DateDirNames(entries[..i])
    {
      assert entries[..i + 1][..i] == entries[..i];
      if entries[i].isDir && StartsWith(entries[i].name, "20") {
        found := found + [entries[i].name];
      }
    }
    assert entries[..|entries|] == entries;
    dateDirs := SortDescending(found);
  }

  /** A name is listed iff it is a directory whose name starts with "20". */
  lemma ListedNames(entries: seq<Entry>, dateDirs: seq<string>, n: string)
    requires multiset(dateDirs) == multiset(DateDirNames(entries))
    ensures n in dateDirs <==> exists e :: e in entries && e.isDir && StartsWith(e.name, "20") && e.name == n
  {
    DateDirNamesMembers(entries, n);
    assert n in dateDirs <==> n in multiset(dateDirs);
    assert n in DateDirNames(entries) <==> n in multiset(DateDirNames(entries));
  }

  // ---------------------------------------------------------------- cleanup_old_results

  /** A calendar date as `datetime.strptime` accepts it. */
  datatype Date = Date(year: int, month: int, day: int)

  predicate IsLeapYear(y: int)
  {
    y % 4 == 0 && (y % 100 != 0 || y % 400 == 0)
  }

  function DaysInMonth(y: int, m: int): int
    requires 1 <= m <= 12
  {
    if m == 2 then (if IsLeapYear(y) then 29 else 28)
    else if m == 4 || m == 6 || m == 9 || m == 11 then 30
    else 31
  }

  /** A date `datetime` accepts: year from 1, month 1 to 12, day within the month. */
  predicate ValidDate(y: int, m: int, d: int)
  {
    1 <= y && 1 <= m <= 12 && 1 <= d <= DaysInMonth(y, m)
  }

  function DigitValue(c: char): int
  {
    c as int - '0' as int
  }

  /** `%m`, the regular expression `1[0-2]|0[1-9]|[1-9]`: the month and the characters taken. */
  function MonthField(t: string): (r: Option<(int, nat)>)
    ensures r.Some? ==> 1 <= r.value.0 <= 12 && 1 <= r.value.1 <= 2 && r.value.1 <= |t|
  {
    if |t| >= 2 && t[0] == '1' && '0' <= t[1] <= '2' then Some((10 + DigitValue(t[1]), 2))
    else if |t| >= 2 && t[0] == '0' && '1' <= t[1] <= '9' then Some((DigitValue(t[1]), 2))
    else if |t| >= 1 && '1' <= t[0] <= '9' then Some((DigitValue(t[0]), 1))
    else None
  }

  /** `%d`, the regular expression `3[01]|[12]\d|0[1-9]|[1-9]| [1-9]`: the day and the characters taken. */
  function DayField(u: string): (r: Option<(int, nat)>)
    ensures r.Some? ==> 1 <= r.value.0 <= 31 && 1 <= r.value.1 <= 2 && r.value.1 <= |u|
  {
    if |u| >= 2 && u[0] == '3' && '0' <= u[1] <= '1' then Some((30 + DigitValue(u[1]), 2))
    else if |u| >= 2 && '1' <= u[0] <= '2' && IsDigitChar(u[1]) then Some((10 * DigitValue(u[0]) + DigitValue(u[1]), 2))
    else if |u| >= 2 && u[0] == '0' && '1' <= u[1] <= '9' then Some((DigitValue(u[1]), 2))
    else if |u| >= 1 && '1' <= u[0] <= '9' then Some((DigitValue(u[0]), 1))
    else if |u| >= 2 && u[0] == ' ' && '1' <= u[1] <= '9' then Some((DigitValue(u[1]), 2))
    else None
  }

  /**
   * `datetime.strptime(name, "%Y-%m-%d")`, `None` where it raises
   * `ValueError`: four digits, a dash, a month, a dash, a day that ends
   * the name, and a real calendar date.
   */
  function ParseDate(name: string): (r: Option<Date>)
    ensures r.Some? ==> ValidDate(r.value.year, r.value.month, r.value.day)
  {
    if |name| < 5 || !IsDigits(name[..4]) || name[4] != '-' then None
    else
      var y := DigitsToNat(name[..4]);
      match MonthField(name[5..])
      case None => None
      case Some(mk) =>
        var rest := name[5 + mk.1..];
        if rest == [] || rest[0] != '-' then None
        else
          match DayField(rest[1..])
          case None => None
          case Some(dk) =>
            if dk.1 != |rest| - 1 then None
            else if ValidDate(y, mk.0, dk.0) then Some(Date(y, mk.0, dk.0))
            else None
  }

  /** `cutoff_date`: a date and the microseconds past its midnight. */
  datatype Instant = Instant(date: Date, microsecond: nat)

  predicate DateLess(a: Date, b: Date)
  {
    a.year < b.year || (a.year == b.year && (a.month < b.month || (a.month == b.month && a.day < b.day)))
  }

  /** `dir_date < cutoff_date`, where `dir_date` is at midnight. */
  predicate BeforeCutoff(d: Date, cutoff: Instant)
  {
    DateLess(d, cutoff.date) || (d == cutoff.date && cutoff.microsecond > 0)
  }

  /** A directory is archived iff its name parses and that date is before the cutoff. */
  predicate ShouldArchive(name: string, cutoff: Instant)
  {
    ParseDate(name).Some? && BeforeCutoff(ParseDate(name).value, cutoff)
  }

  /** The directories archived from a list of names, in order. */
  function Archived(names: seq<string>, cutoff: Instant): seq<string>
  {
    if names == [] then []
    else
      var last := names[|names| - 1];
      Archived(names[..|names| - 1], cutoff) + if ShouldArchive(last, cutoff) then [last] else []
  }

  /** `cleanup_old_results` over the base names `results/20*` lists: the names to archive and `moved_count`. */
  method CleanupOldResults(names: seq<string>, cutoff: Instant) returns (archived: seq<string>, movedCount: nat)
    ensures archived == Archived(names, cutoff)
    ensures movedCount == |archived|
  {
    archived := [];
    movedCount := 0;
    for i := 0 to |names|
      invariant archived == Archived(names[..i], cutoff)
      invariant movedCount == |archived|
    {
      assert names[..i + 1][..i] == names[..i];
      var dirDate := ParseDate(names[i]);
      if dirDate.Some? && BeforeCutoff(dirDate.value, cutoff) {
        archived := archived + [names[i]];
        movedCount := movedCount + 1;
      }
    }
    assert names[..|names|] == names;
  }

  /** A name is archived iff it is listed, parses as a date, and that date is before the cutoff. */
  lemma {:induction false} ArchivedMembers(names: seq<string>, cutoff: Instant, n: string)
    ensures n in Archived(names, cutoff) <==> n in names && ShouldArchive(n, cutoff)
    ensures |Archived(names, cutoff)| <= |names|
  {
    if names != [] {
      var init := names[..|names| - 1];
      ArchivedMembers(init, cutoff, n);
      assert names == init + [names[|names| - 1]];
    }
  }

  /** A name that does not parse is skipped, whatever the cutoff. */
  lemma UnparsableSkipped(names: seq<string>, cutoff: Instant, n: string)
    requires ParseDate(n).None?
    ensures n !in Archived(names, cutoff)
  {
    ArchivedMembers(names, cutoff, n);
  }

  /** Two-digit month text is accepted iff its value is 1 to 12. */
  lemma TwoDigitMonth(a: char, b: char, tail: string)
    requires IsDigitChar(a) && IsDigitChar(b) && tail != [] && tail[0] == '-'
    ensures var t := [a, b] + tail;
            var m := 10 * DigitValue(a) + DigitValue(b);
            && (MonthField(t).Some? && MonthField(t).value.1 == 2 <==> 1 <= m <= 12)
            && (1 <= m <= 12 ==> MonthField(t).value.0 == m)
            && (MonthField(t).Some? && MonthField(t).value.1 == 1 ==> t[1] != '-')
  {
  }

  /** Two-digit day text is read whole iff its value is 1 to 31. */
  lemma TwoDigitDay(a: char, b: char)
    requires IsDigitChar(a) && IsDigitChar(b)
    ensures var d := 10 * DigitValue(a) + DigitValue(b);
            && (DayField([a, b]).Some? && DayField([a, b]).value.1 == 2 <==> 1 <= d <= 31)
            && (1 <= d <= 31 ==> DayField([a, b]).value.0 == d)
  {
  }

  /** `int()` of two digits. */
  lemma TwoDigits(s: string)
    requires |s| == 2 && IsDigits(s)
    ensures DigitsToNat(s) == 10 * DigitValue(s[0]) + DigitValue(s[1])
  {
    assert s[..1][..0] == [] && s[..1][0] == s[0];
    assert DigitsToNat(s[..1]) == DigitValue(s[0]);
  }

  /**
   * A directory made by `organize_results_by_date` parses back to the
   * date its digits spell, exactly when they spell a real calendar date.
   */
  lemma DateDirRoundTrip(datePart: string)
    requires IsDatePart(datePart)
    ensures var y := DigitsToNat(datePart[..4]);
            var m := DigitsToNat(datePart[4..6]);
            var d := DigitsToNat(datePart[6..8]);
            ParseDate(DateDirName(datePart)) == if ValidDate(y, m, d) then Some(Date(y, m, d)) else None
  {
    var name := DateDirName(datePart);
    DateDirNameSpec(datePart);
    assert name[..4] == datePart[..4];
    assert name[5..] == [datePart[4], datePart[5]] + ("-" + datePart[6..8]);
    TwoDigits(datePart[4..6]);
    TwoDigits(datePart[6..8]);
    TwoDigitMonth(datePart[4], datePart[5], "-" + datePart[6..8]);
    var m := 10 * DigitValue(datePart[4]) + DigitValue(datePart[5]);
    if 1 <= m <= 12 {
      assert name[7..] == "-" + datePart[6..8];
      assert name[8..] == [datePart[6], datePart[7]];
      TwoDigitDay(datePart[6], datePart[7]);
    }
  }
}
