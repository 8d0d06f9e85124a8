/**
 The append-only event log: an active file, and segments that rotation seals. A sealed segment is taken as the text
 that was compressed into it, and sealing as one step.
 */
module PersistLog {
  import opened Base
  import opened Decimal
  import opened Text
  import U = UrlEncoded

  const WAL := "wal.ndjson"
  const PREFIX := "seg-"
  const SUFFIX := ".ndjson.gz"

  const ROTATE_BYTES := 8 * 1024 * 1024
  const ROTATE_SEC := 60.0

  function SegName(n: nat): string {
    PREFIX + PadStart(Print(n), 6, '0') + SUFFIX
  }

  /** `startsWith("seg-") && endsWith(".ndjson.gz")`. */
  predicate LooksSealed(name: string) {
    PREFIX <= name && |name| >= |SUFFIX| && name[|name| - |SUFFIX|..] == SUFFIX
  }

  /** The number in a name of the form `/^seg-(\d+)\.ndjson\.gz$/`. */
  function SegNumber(name: string): Option<nat> {
    if LooksSealed(name) && |name| > |PREFIX| + |SUFFIX| && AllDigits(name[|PREFIX|..|name| - |SUFFIX|])
    then Some(Parse(name[|PREFIX|..|name| - |SUFFIX|])) else None
  }

  function NumberOr0(name: string): nat {
    SegNumber(name).GetOr(0)
  }

  lemma SegNameReads(n: nat)
    ensures LooksSealed(SegName(n)) && SegNumber(SegName(n)) == Some(n)
    ensures SegName(n) != WAL
  {
    PrintParses(n);
    PadStartParses(Print(n), 6);
    var name := SegName(n);
    assert name[|PREFIX|..|name| - |SUFFIX|] == PadStart(Print(n), 6, '0');
    assert name[|name| - |SUFFIX|..] == SUFFIX;
    assert name[0] == 's' && WAL[0] == 'w';
  }

  // ----- Lines -----

  /** What `JSON.stringify` gives for an event: one line, from brace to brace. */
  predicate EventLine(s: string) {
    |s| > 0 && Trimmed(s) && Free(s, '\n')
  }

  function Lines(events: seq<string>): string {
    if |events| == 0 then "" else Lines(events[..|events| - 1]) + events[|events| - 1] + "\n"
  }

  /** The lines that are not blank, trimmed. */
  function Kept(lines: seq<string>): seq<string> {
    if |lines| == 0 then []
    else Kept(lines[..|lines| - 1]) + if Trim(lines[|lines| - 1]) == "" then [] else [Trim(lines[|lines| - 1])]
  }

  ghost predicate AllEventLines(events: seq<string>) {
    forall i :: 0 <= i < |events| ==> EventLine(events[i])
  }

  lemma {:induction false} LinesAreJoined(events: seq<string>)
    ensures Lines(events) == Join(events + [""], '\n')
  {
    if |events| > 0 {
      var front, last := events[..|events| - 1], events[|events| - 1];
      LinesAreJoined(front);
      JoinEnds(front, last);
      assert front + [last, ""] == events + [""];
    }
  }

  lemma {:induction false} JoinEnds(front: seq<string>, last: string)
    ensures Join(front + [last, ""], '\n') == Join(front + [""], '\n') + last + "\n"
  {
    if |front| == 0 {
      assert Join([last, ""], '\n') == last + "\n" + Join([""], '\n');
    } else {
      JoinEnds(front[1..], last);
      assert (front + [last, ""])[1..] == front[1..] + [last, ""];
      assert (front + [""])[1..] == front[1..] + [""];
    }
  }

  lemma {:induction false} KeptEvents(events: seq<string>)
    requires AllEventLines(events)
    ensures Kept(events) == events
  {
    if |events| > 0 {
      KeptEvents(events[..|events| - 1]);
      assert EventLine(events[|events| - 1]);
      TrimmedStays(events[|events| - 1]);
      assert events == events[..|events| - 1] + [events[|events| - 1]];
    }
  }

  /** Reading a file undoes writing it line by line. */
  lemma LinesReadBack(events: seq<string>)
    requires AllEventLines(events)
    ensures Kept(Split(Lines(events), '\n')) == events
  {
    LinesAreJoined(events);
    SplitJoin(events + [""], '\n');
    KeptEvents(events);
    assert (events + [""])[..|events|] == events;
    assert Trim("") == "";
    assert events + [] == events;
  }

  // ----- The order of names -----

  /** `sort()` of strings: by code units. */
  predicate LexLess(a: string, b: string) {
    if |b| == 0 then false
    else if |a| == 0 then true
    else a[0] < b[0] || (a[0] == b[0] && LexLess(a[1..], b[1..]))
  }

  lemma {:induction false} LexAsymmetric(a: string, b: string)
    requires LexLess(a, b)
    ensures !LexLess(b, a) && a != b
  {
    if |a| > 0 && a[0] == b[0] {
      LexAsymmetric(a[1..], b[1..]);
    }
  }

  lemma {:induction false} LexTotal(a: string, b: string)
    ensures LexLess(a, b) || a == b || LexLess(b, a)
  {
    if |a| > 0 && |b| > 0 && a[0] == b[0] {
      LexTotal(a[1..], b[1..]);
      assert a == [a[0]] + a[1..] && b == [b[0]] + b[1..];
    }
  }

  lemma {:induction false} LexTransitive(a: string, b: string, c: string)
    requires LexLess(a, b) && LexLess(b, c)
    ensures LexLess(a, c)
  {
    if |a| > 0 && a[0] == b[0] && b[0] == c[0] {
      LexTransitive(a[1..], b[1..], c[1..]);
    }
  }

  lemma {:induction false} LexBehindPrefix(prefix: string, a: string, b: string)
    ensures LexLess(prefix + a, prefix + b) == LexLess(a, b)
  {
    if |prefix| == 0 {
      assert prefix + a == a && prefix + b == b;
    } else {
      LexBehindPrefix(prefix[1..], a, b);
      assert (prefix + a)[1..] == prefix[1..] + a && (prefix + b)[1..] == prefix[1..] + b;
    }
  }

  lemma {:induction false} LexBeforeSuffix(a: string, b: string, suffix: string)
    requires |a| == |b| && a != b
    ensures LexLess(a + suffix, b + suffix) == LexLess(a, b)
  {
    assert (a + suffix)[1..] == a[1..] + suffix && (b + suffix)[1..] == b[1..] + suffix;
    if a[0] == b[0] {
      assert a == [a[0]] + a[1..] && b == [b[0]] + b[1..];
      LexBeforeSuffix(a[1..], b[1..], suffix);
    }
  }

  /** Digits of one length are ordered as text the way they are as numbers. */
  lemma {:induction false} LexIsNumeric(a: string, b: string)
    requires AllDigits(a) && AllDigits(b) && |a| == |b|
    ensures LexLess(a, b) <==> Parse(a) < Parse(b)
  {
    if |a| > 0 {
      LexIsNumeric(a[1..], b[1..]);
      FirstDigit(a);
      FirstDigit(b);
      ParseBound(a[1..]);
      ParseBound(b[1..]);
      DigitsCompare(DigitValue(a[0]), DigitValue(b[0]), Pow10(|a| - 1), Parse(a[1..]), Parse(b[1..]));
    }
  }

  lemma ParseOne(c: char)
    requires IsDigit(c)
    ensures Parse([c]) == DigitValue(c)
  {
    assert [c][..0] == [];
  }

  lemma FirstDigit(s: string)
    requires AllDigits(s) && |s| > 0
    ensures Parse(s) == DigitValue(s[0]) * Pow10(|s| - 1) + Parse(s[1..])
  {
    ParseOne(s[0]);
    ParseAppends([s[0]], s[1..]);
    assert [s[0]] + s[1..] == s;
  }

  lemma DigitsCompare(d: nat, e: nat, p: nat, x: nat, y: nat)
    requires x < p && y < p
    ensures d * p + x < e * p + y <==> d < e || (d == e && x < y)
  {
    if d < e {
      assert e * p >= (d + 1) * p;
    } else if d > e {
      assert d * p >= (e + 1) * p;
    }
  }

  lemma NumberedNames(m: nat, n: nat)
    requires m < n <= 999999
    ensures LexLess(SegName(m), SegName(n))
  {
    assert Pow10(6) == 1000000;
    PrintLength(m, 6);
    PrintLength(n, 6);
    var a, b := PadStart(Print(m), 6, '0'), PadStart(Print(n), 6, '0');
    PadStartParses(Print(m), 6);
    PadStartParses(Print(n), 6);
    PrintParses(m);
    PrintParses(n);
    LexIsNumeric(a, b);
    LexBeforeSuffix(a, b, SUFFIX);
    LexBehindPrefix(PREFIX, a + SUFFIX, b + SUFFIX);
    assert SegName(m) == PREFIX + (a + SUFFIX) && SegName(n) == PREFIX + (b + SUFFIX);
  }

  lemma {:induction false} LeadingDigit(n: nat, d: nat, k: nat)
    requires 1 <= d < 10 && d * Pow10(k) <= n < (d + 1) * Pow10(k)
    ensures Print(n)[0] == DigitChar(d)
  {
    if k > 0 {
      TenTimes(d, Pow10(k - 1));
      TenTimes(d + 1, Pow10(k - 1));
      var low, high := d * Pow10(k - 1), (d + 1) * Pow10(k - 1);
      assert 10 * low <= n < 10 * high;
      assert high >= low + 1 && low >= 1 by { Positive(d, Pow10(k - 1)); }
      LeadingDigit(n / 10, d, k - 1);
    }
  }

  lemma Positive(d: nat, p: nat)
    requires d >= 1 && p >= 1
    ensures d * p >= 1 && (d + 1) * p >= d * p + 1
  {
    assert (d + 1) * p == d * p + p;
    assert d * p >= p;
  }

  /** One segment more and the newest name sorts before an older one. */
  lemma MillionthNameIsOutOfOrder()
    ensures LexLess(SegName(1000000), SegName(999999))
  {
    LeadingDigit(1000000, 1, 6);
    LeadingDigit(999999, 9, 5);
    var a, b := PadStart(Print(1000000), 6, '0') + SUFFIX, PadStart(Print(999999), 6, '0') + SUFFIX;
    LexBehindPrefix(PREFIX, a, b);
    assert SegName(1000000) == PREFIX + a && SegName(999999) == PREFIX + b;
  }

  /** The names of `k` segments sort by number exactly up to 999999 of them. */
  lemma NamesInOrderIff(k: nat)
    ensures (forall m, n :: 1 <= m < n <= k ==> LexLess(SegName(m), SegName(n))) <==> k <= 999999
  {
    if k <= 999999 {
      forall m, n | 1 <= m < n <= k ensures LexLess(SegName(m), SegName(n)) {
        NumberedNames(m, n);
      }
    } else {
      MillionthNameIsOutOfOrder();
      LexAsymmetric(SegName(1000000), SegName(999999));
    }
  }

  // ----- Sorting -----

  ghost predicate Increasing(names: seq<string>) {
    forall i, j :: 0 <= i < j < |names| ==> LexLess(names[i], names[j])
  }

  function Insert(names: seq<string>, x: string): seq<string> {
    if |names| == 0 || LexLess(names[|names| - 1], x) then names + [x]
    else Insert(names[..|names| - 1], x) + [names[|names| - 1]]
  }

  /** `names.sort()`. */
  function Sort(names: seq<string>): seq<string> {
    if |names| == 0 then [] else Insert(Sort(names[..|names| - 1]), names[|names| - 1])
  }

  lemma {:induction false} InsertHas(names: seq<string>, x: string, y: string)
    ensures y in Insert(names, x) <==> y in names || y == x
  {
    if !(|names| == 0 || LexLess(names[|names| - 1], x)) {
      InsertHas(names[..|names| - 1], x, y);
      assert names == names[..|names| - 1] + [names[|names| - 1]];
    }
  }

  lemma {:induction false} InsertIncreases(names: seq<string>, x: string)
    requires Increasing(names) && x !in names
    ensures Increasing(Insert(names, x))
  {
    if |names| > 0 {
      var front, last := names[..|names| - 1], names[|names| - 1];
      if LexLess(last, x) {
        forall i | 0 <= i < |front| ensures LexLess(names[i], x) { LexTransitive(names[i], last, x); }
      } else {
        LexTotal(last, x);
        InsertIncreases(front, x);
        forall y | y in Insert(front, x) ensures LexLess(y, last) { InsertHas(front, x, y); }
      }
    }
  }

  ghost predicate Distinct(names: seq<string>) {
    forall i, j :: 0 <= i < j < |names| ==> names[i] != names[j]
  }

  lemma {:induction false} SortHas(names: seq<string>, y: string)
    ensures y in Sort(names) <==> y in names
  {
    if |names| > 0 {
      SortHas(names[..|names| - 1], y);
      InsertHas(Sort(names[..|names| - 1]), names[|names| - 1], y);
      assert names == names[..|names| - 1] + [names[|names| - 1]];
    }
  }

  lemma {:induction false} SortIncreases(names: seq<string>)
    requires Distinct(names)
    ensures Increasing(Sort(names))
  {
    if |names| > 0 {
      SortIncreases(names[..|names| - 1]);
      SortHas(names[..|names| - 1], names[|names| - 1]);
      InsertIncreases(Sort(names[..|names| - 1]), names[|names| - 1]);
    }
  }

  ghost predicate SameNames(a: seq<string>, b: seq<string>) {
    forall x :: x in a <==> x in b
  }

  lemma LastIsGreatest(a: seq<string>, x: string)
    requires Increasing(a) && x in a && x != a[|a| - 1]
    ensures LexLess(x, a[|a| - 1]) && x in a[..|a| - 1]
  {
    var i :| 0 <= i < |a| && a[i] == x;
    assert a[..|a| - 1][i] == x;
  }

  lemma LastNotBefore(a: seq<string>)
    requires Increasing(a) && |a| > 0
    ensures a[|a| - 1] !in a[..|a| - 1]
  {
    forall i | 0 <= i < |a| - 1 ensures a[i] != a[|a| - 1] { LexAsymmetric(a[i], a[|a| - 1]); }
  }

  lemma HasFirst(a: seq<string>)
    ensures |a| > 0 ==> a[0] in a
  {
  }

  /** There is one increasing list of a set of names. */
  lemma {:induction false} IncreasingIsUnique(a: seq<string>, b: seq<string>)
    requires Increasing(a) && Increasing(b) && SameNames(a, b)
    ensures a == b
  {
    if |a| > 0 {
      assert a[0] in b;
      var (x, y) := (a[|a| - 1], b[|b| - 1]);
      assert x in a && y in b;
      if x != y {
        LastIsGreatest(b, x);
        LastIsGreatest(a, y);
        LexAsymmetric(x, y);
      }
      LastNotBefore(a);
      LastNotBefore(b);
      var (front, front') := (a[..|a| - 1], b[..|b| - 1]);
      forall z ensures z in front <==> z in front' {
        if z in front { LastIsGreatest(b, z); }
        if z in front' { LastIsGreatest(a, z); }
      }
      IncreasingIsUnique(a[..|a| - 1], b[..|b| - 1]);
      assert a == a[..|a| - 1] + [x] && b == b[..|b| - 1] + [y];
    } else {
      HasFirst(b);
    }
  }

  function Names(k: nat): (names: seq<string>)
    ensures |names| == k
  {
    seq(k, i requires 0 <= i => SegName(i + 1))
  }

  /** Up to 999999 segments, sorting any listing of their names puts them in the order they were sealed. */
  lemma SortedNames(listing: seq<string>, k: nat)
    requires k <= 999999 && Distinct(listing) && SameNames(listing, Names(k))
    ensures Sort(listing) == Names(k)
  {
    SortIncreases(listing);
    forall x ensures x in Sort(listing) <==> x in Names(k) { SortHas(listing, x); }
    forall i, j | 0 <= i < j < k ensures LexLess(Names(k)[i], Names(k)[j]) { NumberedNames(i + 1, j + 1); }
    IncreasingIsUnique(Sort(listing), Names(k));
  }

  // ----- The log -----

  function Flat(segments: seq<seq<string>>): seq<string> {
    if |segments| == 0 then [] else Flat(segments[..|segments| - 1]) + segments[|segments| - 1]
  }

  /** Sealed segment `k` is in its file. */
  ghost predicate Stored(files: map<string, string>, segments: seq<seq<string>>, k: nat) {
    && k < |segments|
    && SegName(k + 1) in files && files[SegName(k + 1)] == Lines(segments[k]) && AllEventLines(segments[k])
  }

  ghost predicate OneOf(name: string, count: nat) {
    exists k :: 0 <= k < count && Named(name, k)
  }

  predicate Named(name: string, k: nat) {
    name == SegName(k + 1)
  }

  /** The files hold these sealed segments and this active part, and no other name looks like a segment. */
  ghost predicate Holds(files: map<string, string>, segments: seq<seq<string>>, active: seq<string>) {
    && (forall k :: 0 <= k < |segments| ==> Stored(files, segments, k))
    && (forall n :: n in files && LooksSealed(n) ==> OneOf(n, |segments|))
    && AllEventLines(active) && Get(files, WAL).GetOr("") == Lines(active)
  }

  lemma OneOfNames(name: string, count: nat)
    requires OneOf(name, count)
    ensures name in Names(count)
  {
    var k :| 0 <= k < count && Named(name, k);
    assert Names(count)[k] == name;
  }

  /** A segment number read off any file is that of a sealed segment. */
  lemma NumbersInUse(files: map<string, string>, segments: seq<seq<string>>, active: seq<string>, name: string)
    requires Holds(files, segments, active) && name in files && SegNumber(name).Some?
    ensures 1 <= SegNumber(name).value <= |segments|
  {
    var k :| 0 <= k < |segments| && Named(name, k);
    SegNameReads(k + 1);
  }

  /** A file that is not a segment may be changed freely. */
  lemma StaysStored(files: map<string, string>, after: map<string, string>, segments: seq<seq<string>>)
    requires forall k :: 0 <= k < |segments| ==> Stored(files, segments, k)
    requires forall n :: n in files && LooksSealed(n) ==> n in after && after[n] == files[n]
    ensures forall k :: 0 <= k < |segments| ==> Stored(after, segments, k)
  {
    forall k | 0 <= k < |segments| ensures Stored(after, segments, k) {
      assert Stored(files, segments, k);
      SegNameReads(k + 1);
    }
  }

  lemma SpecialNames()
    ensures !LooksSealed(WAL) && !LooksSealed("wal.rotating")
  {
    assert WAL[0] == 'w' && "wal.rotating"[0] == 'w';
  }

  lemma OneMoreName(name: string, n: nat)
    requires OneOf(name, n) || Named(name, n)
    ensures OneOf(name, n + 1)
  {
  }

  /** Sealing writes one new segment and the emptied active file, and leaves every sealed file alone. */
  ghost predicate Sealed(files: map<string, string>, after: map<string, string>, dest: string) {
    && WAL in files && dest in after && after[dest] == files[WAL] && WAL in after && after[WAL] == ""
    && (forall n :: n in after && LooksSealed(n) && n != dest ==> n in files)
    && (forall n :: n in files && LooksSealed(n) ==> n in after && after[n] == files[n])
  }

  lemma SealHolds(
    files: map<string, string>, after: map<string, string>, segments: seq<seq<string>>, active: seq<string>)
    requires Holds(files, segments, active) && Sealed(files, after, SegName(|segments| + 1))
    ensures Holds(after, segments + [active], [])
  {
    var n, all := |segments|, segments + [active];
    StaysStored(files, after, segments);
    assert Stored(after, all, n);
    forall k | 0 <= k < n ensures Stored(after, all, k) {
      assert Stored(after, segments, k);
    }
    forall name | name in after && LooksSealed(name) ensures OneOf(name, n + 1) {
      assert name in files || Named(name, n);
      OneMoreName(name, n);
    }
  }

  lemma SealedFiles(before: map<string, string>, after: map<string, string>, n: nat)
    requires WAL in before && SegName(n) !in before
    requires after ==
             ((before["wal.rotating" := before[WAL]] - {WAL})[SegName(n) := before[WAL]] - {"wal.rotating"})[WAL := ""]
    ensures Sealed(before, after, SegName(n))
  {
    SegNameReads(n);
    SpecialNames();
  }

  /** The listing's highest number is not below the number of segments. */
  lemma HighestListed(
    files: map<string, string>, segments: seq<seq<string>>, active: seq<string>, listing: seq<string>, max: nat)
    requires Holds(files, segments, active) && forall n :: n in files ==> n in listing
    requires forall j :: 0 <= j < |listing| ==> NumberOr0(listing[j]) <= max
    ensures |segments| <= max
  {
    if |segments| > 0 {
      assert Stored(files, segments, |segments| - 1);
      SegNameReads(|segments|);
      var j :| 0 <= j < |listing| && listing[j] == SegName(|segments|);
      assert NumberOr0(listing[j]) == |segments|;
    }
  }

  lemma NewNameIsNew(files: map<string, string>, segments: seq<seq<string>>, active: seq<string>)
    requires Holds(files, segments, active)
    ensures SegName(|segments| + 1) !in files
  {
    SegNameReads(|segments| + 1);
    if SegName(|segments| + 1) in files {
      NumbersInUse(files, segments, active, SegName(|segments| + 1));
    }
  }

  lemma AppendHolds(
    files: map<string, string>, after: map<string, string>, segments: seq<seq<string>>, active: seq<string>,
    line: string)
    requires Holds(files, segments, active) && EventLine(line)
    requires after == files[WAL := Get(files, WAL).GetOr("") + line + "\n"]
    ensures Holds(after, segments, active + [line])
  {
    SpecialNames();
    StaysStored(files, after, segments);
    LinesGrow(active, line);
    forall name | name in after && LooksSealed(name) ensures OneOf(name, |segments|) {
      assert name in files;
    }
  }

  lemma LinesGrow(active: seq<string>, line: string)
    requires AllEventLines(active) && EventLine(line)
    ensures Lines(active + [line]) == Lines(active) + line + "\n" && AllEventLines(active + [line])
  {
    assert (active + [line])[..|active|] == active;
  }

  /** A line adds its bytes and one for the line feed. */
  lemma LineBytes(active: seq<string>, line: string)
    ensures |U.Utf8(Lines(active + [line]))| == |U.Utf8(Lines(active))| + |U.Utf8(line)| + 1
  {
    assert (active + [line])[..|active|] == active;
    Utf8Joins(Lines(active) + line, "\n");
    Utf8Joins(Lines(active), line);
    assert Lines(active + [line]) == Lines(active) + line + "\n";
    assert U.Utf8("\n") == U.Utf8Char('\n') + U.Utf8("\n"[1..]);
  }

  lemma {:induction false} Utf8Joins(a: string, b: string)
    ensures |U.Utf8(a + b)| == |U.Utf8(a)| + |U.Utf8(b)|
  {
    if |a| == 0 {
      assert a + b == b;
    } else {
      Utf8Joins(a[1..], b);
      assert (a + b)[1..] == a[1..] + b;
    }
  }

  /** The directory of one stream; the ghost fields say what has been appended and where it is. */
  class Stream {
    var files: map<string, string>
    ghost var segments: seq<seq<string>>
    ghost var active: seq<string>

    ghost predicate Valid()
      reads this
    {
      |segments| <= 999999 && Holds(files, segments, active)
    }

    ghost function Events(): seq<string>
      reads this
    {
      Flat(segments) + active
    }

    constructor ()
      ensures Valid() && Events() == [] && segments == []
    {
      files, segments, active := map[], [], [];
    }

    /** The directory's names, in whatever order the file system gives them. */
    method ReadDir() returns (listing: seq<string>)
      ensures Distinct(listing) && forall n :: n in listing <==> n in files
    {
      listing := [];
      var rest := files.Keys;
      while rest != {}
        invariant Distinct(listing) && rest <= files.Keys
        invariant forall n :: n in files <==> n in listing || n in rest
        invariant forall n :: n in listing ==> n !in rest
        decreases |rest|
      {
        var n :| n in rest;
        listing, rest := listing + [n], rest - {n};
      }
    }

    /** The highest segment number in use. */
    method LastSegment() returns (maxSeg: nat)
      requires Valid()
      ensures maxSeg == |segments|
    {
      var listing := ReadDir();
      maxSeg := 0;
      for i := 0 to |listing|
        invariant maxSeg <= |segments|
        invariant forall j :: 0 <= j < i ==> NumberOr0(listing[j]) <= maxSeg
      {
        var number := SegNumber(listing[i]);
        if number.Some? {
          NumbersInUse(files, segments, active, listing[i]);
          if number.value > maxSeg { maxSeg := number.value; }
        }
      }
      HighestListed(files, segments, active, listing, maxSeg);
    }

    method Seal()
      requires Valid() && WAL in files && |segments| < 999999
      modifies this
      ensures Valid() && Events() == old(Events()) && segments == old(segments) + [old(active)] && active == []
    {
      var maxSeg := LastSegment();
      ghost var before := files;
      var dest := SegName(maxSeg + 1);
      files := files["wal.rotating" := files[WAL]] - {WAL};
      files := files[dest := files["wal.rotating"]];
      files := files - {"wal.rotating"};
      files := files[WAL := ""];
      NewNameIsNew(before, segments, active);
      SealedFiles(before, files, maxSeg + 1);
      SealHolds(before, files, segments, active);
      assert (segments + [active])[..|segments|] == segments;
      segments, active := segments + [active], [];
      assert Events() == old(Events());
    }

    /** The size of the active file. */
    ghost function ActiveBytes(): nat
      reads this
    {
      |U.Utf8(Lines(active))|
    }

    /** One event; `age` is the active file's, in seconds. The file is sealed as soon as it is large or old enough. */
    method AppendSync(line: string, age: real)
      requires Valid() && EventLine(line) && |segments| < 999999
      modifies this
      ensures Valid() && Events() == old(Events()) + [line]
      ensures var filled := old(ActiveBytes()) + |U.Utf8(line)| + 1;
              if filled >= 8 * 1024 * 1024 || age >= 60.0 then
                segments == old(segments) + [old(active) + [line]] && active == []
              else segments == old(segments) && ActiveBytes() == filled
      ensures ActiveBytes() < 8 * 1024 * 1024
    {
      ghost var before := files;
      files := files[WAL := Get(files, WAL).GetOr("") + line + "\n"];
      AppendHolds(before, files, segments, active, line);
      active := active + [line];
      assert Events() == old(Events()) + [line];
      LineBytes(old(active), line);
      assert files[WAL] == Lines(active);
      if |U.Utf8(files[WAL])| == 0 { return; }
      if |U.Utf8(files[WAL])| < ROTATE_BYTES && age < ROTATE_SEC { return; }
      Seal();
    }

    method ReadFile(text: string) returns (lines: seq<string>)
      ensures lines == Kept(Split(text, '\n'))
    {
      lines := [];
      var parts := Split(text, '\n');
      for i := 0 to |parts|
        invariant lines == Kept(parts[..i])
      {
        assert parts[..i + 1][..i] == parts[..i];
        var trimmed := Trim(parts[i]);
        if trimmed != "" { lines := lines + [trimmed]; }
      }
      assert parts[..|parts|] == parts;
    }

    method SealedListing() returns (names: seq<string>)
      requires Valid()
      ensures names == Names(|segments|)
    {
      var listing := ReadDir();
      names := [];
      for i := 0 to |listing|
        invariant forall n :: n in names <==> n in listing[..i] && LooksSealed(n)
        invariant Distinct(names)
      {
        assert listing[..i + 1] == listing[..i] + [listing[i]];
        if LooksSealed(listing[i]) { names := names + [listing[i]]; }
      }
      assert listing[..|listing|] == listing;
      forall n ensures n in names <==> n in Names(|segments|) {
        if n in names {
          OneOfNames(n, |segments|);
        } else if n in Names(|segments|) {
          var k :| 0 <= k < |segments| && Names(|segments|)[k] == n;
          assert Stored(files, segments, k);
          SegNameReads(k + 1);
        }
      }
      SortedNames(names, |segments|);
      names := Sort(names);
    }

    /** Sealed segments by name, then the active file: every appended event once, in order. */
    method IterPersistEvents() returns (events: seq<string>)
      requires Valid()
      ensures events == Events()
    {
      var names := SealedListing();
      events := [];
      for i := 0 to |names|
        invariant events == Flat(segments[..i])
      {
        assert Stored(files, segments, i);
        var lines := ReadFile(files[names[i]]);
        LinesReadBack(segments[i]);
        assert segments[..i + 1][..i] == segments[..i];
        events := events + lines;
      }
      assert segments[..|segments|] == segments;
      LinesReadBack(active);
      if WAL in files {
        var lines := ReadFile(files[WAL]);
        events := events + lines;
      }
    }
  }
}
