/** Destination ranges of an LDR image: the sweep that looks for overlaps and the bisecting lookups.
    tools/gpu_ldr_inspect.py:90-146. */
module Ranges {
  import opened Common
  import opened Ldr

  /** A nonempty destination, and whether a load (0) or a zero (4) record writes it. */
  datatype Range = Range(start: nat, end: nat, kind: nat)

  predicate Nonempty(s: seq<Range>) {
    forall i :: 0 <= i < |s| ==> s[i].start < s[i].end
  }

  predicate Meet(a: Range, b: Range) {
    a.start < b.end && b.start < a.end
  }

  predicate Holds(r: Range, v: nat) {
    r.start <= v < r.end
  }

  /** Two of the ranges, counted with their repetitions, intersect. */
  ghost predicate Overlap(m: multiset<Range>) {
    exists a, b :: multiset{a, b} <= m && Meet(a, b)
  }

  // ---- Sorting ----------------------------------------------------------------------------------------------

  /** The order of Python tuples. */
  predicate Before(a: Range, b: Range) {
    a.start < b.start || (a.start == b.start && (a.end < b.end || (a.end == b.end && a.kind <= b.kind)))
  }

  predicate Sorted(s: seq<Range>) {
    forall i, j :: 0 <= i < j < |s| ==> Before(s[i], s[j])
  }

  method Insert(s: seq<Range>, r: Range) returns (t: seq<Range>)
    requires Sorted(s)
    ensures Sorted(t) && multiset(t) == multiset(s) + multiset{r}
  {
    hide Before;
    var k := |s|;
    while k > 0 && !Before(s[k - 1], r)
      invariant 0 <= k <= |s|
      invariant forall j :: k <= j < |s| ==> Before(r, s[j])
    {
      BeforeTotal(s[k - 1], r);
      k := k - 1;
    }
    forall i | 0 <= i < k ensures Before(s[i], r) {
      BeforeChain(s[i], s[k - 1], r);
    }
    assert s == s[..k] + s[k..];
    t := s[..k] + [r] + s[k..];
  }

  lemma BeforeTotal(a: Range, b: Range)
    ensures Before(a, b) || Before(b, a)
  {
  }

  lemma BeforeChain(a: Range, b: Range, c: Range)
    ensures (a == b || Before(a, b)) && Before(b, c) ==> Before(a, c)
  {
  }

  /** `list.sort`, as a stable insertion sort: only its contract is used. */
  method Sort(ranges: seq<Range>) returns (s: seq<Range>)
    ensures Sorted(s) && multiset(s) == multiset(ranges)
  {
    hide Sorted;
    NoneSorted();
    s := [];
    var i := 0;
    while i < |ranges|
      invariant 0 <= i <= |ranges| && Sorted(s) && multiset(s) == multiset(ranges[..i])
    {
      assert ranges[..i + 1] == ranges[..i] + [ranges[i]];
      s := Insert(s, ranges[i]);
      i := i + 1;
    }
    assert ranges[..|ranges|] == ranges;
  }

  lemma NoneSorted()
    ensures Sorted([])
  {
  }

  // ---- The sweep --------------------------------------------------------------------------------------------

  /** In sorted order, some range starts before an earlier one has ended. */
  predicate Behind(s: seq<Range>) {
    exists i, j :: 0 <= i < j < |s| && s[j].start < s[i].end
  }

  method Sweep(s: seq<Range>) returns (overlapping: bool)
    ensures overlapping <==> Behind(s)
  {
    var furthest := 0;
    overlapping := false;
    var k := 0;
    while k < |s|
      invariant 0 <= k <= |s|
      invariant forall i :: 0 <= i < k ==> s[i].end <= furthest
      invariant furthest == 0 || exists i :: 0 <= i < k && s[i].end == furthest
      invariant overlapping <==> exists i, j :: 0 <= i < j < k && s[j].start < s[i].end
    {
      if s[k].start < furthest {
        var i :| 0 <= i < k && s[i].end == furthest;
        assert s[k].start < s[i].end;
        overlapping := true;
      }
      if s[k].end > furthest {
        furthest := s[k].end;
        assert s[k].end == furthest;
      }
      k := k + 1;
    }
  }

  lemma PairInMultiset(s: seq<Range>, i: nat, j: nat)
    requires i < j < |s|
    ensures multiset{s[i], s[j]} <= multiset(s)
  {
    assert s == s[..i] + [s[i]] + s[i + 1..j] + [s[j]] + s[j + 1..];
  }

  lemma PairAtIndices(s: seq<Range>, a: Range, b: Range) returns (i: nat, j: nat)
    requires multiset{a, b} <= multiset(s)
    ensures i < |s| && j < |s| && i != j && s[i] == a && s[j] == b
  {
    assert a in multiset(s);
    i :| 0 <= i < |s| && s[i] == a;
    var rest := s[..i] + s[i + 1..];
    assert s == s[..i] + [s[i]] + s[i + 1..];
    assert multiset(s) == multiset(rest) + multiset{a};
    assert multiset{a, b}[b] <= multiset(s)[b];
    assert b in multiset(rest);
    var k :| 0 <= k < |rest| && rest[k] == b;
    j := if k < i then k else k + 1;
  }

  /** The sweep over the sorted list reports an overlap exactly when two of the ranges intersect. */
  lemma SweepIsOverlap(s: seq<Range>)
    requires Sorted(s) && Nonempty(s)
    ensures Behind(s) <==> Overlap(multiset(s))
  {
    if Behind(s) {
      var i, j :| 0 <= i < j < |s| && s[j].start < s[i].end;
      PairInMultiset(s, i, j);
      assert Meet(s[i], s[j]);
    }
    if Overlap(multiset(s)) {
      var a, b :| multiset{a, b} <= multiset(s) && Meet(a, b);
      var i, j := PairAtIndices(s, a, b);
      if i < j {
        assert Before(s[i], s[j]) && s[j].start < s[i].end;
      } else {
        assert Before(s[j], s[i]) && s[i].start < s[j].end;
      }
    }
  }

  // ---- Lookups ----------------------------------------------------------------------------------------------

  method BisectRight(s: seq<Range>, v: nat) returns (n: nat)
    requires Sorted(s)
    ensures n <= |s|
    ensures forall i :: 0 <= i < n ==> s[i].start <= v
    ensures forall i :: n <= i < |s| ==> v < s[i].start
  {
    var lo, hi := 0, |s|;
    while lo < hi
      invariant 0 <= lo <= hi <= |s|
      invariant forall i :: 0 <= i < lo ==> s[i].start <= v
      invariant forall i :: hi <= i < |s| ==> v < s[i].start
    {
      var mid := (lo + hi) / 2;
      if v < s[mid].start {
        forall i | mid <= i < |s| ensures v < s[i].start {
          assert mid < i ==> Before(s[mid], s[i]);
        }
        hi := mid;
      } else {
        forall i | 0 <= i <= mid ensures s[i].start <= v {
          assert i < mid ==> Before(s[i], s[mid]);
        }
        lo := mid + 1;
      }
    }
    n := lo;
  }

  /** Some range of the list that satisfies `p` holds the value: what a linear scan would answer. */
  predicate Scan(s: seq<Range>, v: nat, p: Range -> bool) {
    exists i :: 0 <= i < |s| && p(s[i]) && Holds(s[i], v)
  }

  /** Among ranges that do not overlap, the bisecting lookup agrees with the linear scan for every value. */
  method Lookup(s: seq<Range>, v: nat, p: Range -> bool) returns (found: bool)
    requires Sorted(s) && !Behind(s)
    ensures found <==> Scan(s, v, p)
  {
    var n := BisectRight(s, v);
    if n == 0 {
      return false;
    }
    found := p(s[n - 1]) && v < s[n - 1].end;
    forall i | 0 <= i < |s| && Holds(s[i], v) ensures i == n - 1 {
      assert i < n && !(s[n - 1].start < s[i].end && i < n - 1);
    }
  }

  // ---- Counting ---------------------------------------------------------------------------------------------

  function Count<T>(s: seq<T>, p: T -> bool): nat {
    if s == [] then 0 else Count(s[..|s| - 1], p) + if p(s[|s| - 1]) then 1 else 0
  }

  lemma {:induction false} CountSplit<T>(a: seq<T>, b: seq<T>, p: T -> bool)
    ensures Count(a + b, p) == Count(a, p) + Count(b, p)
    decreases |b|
  {
    if b == [] {
      assert a + b == a;
    } else {
      CountSplit(a, b[..|b| - 1], p);
      assert (a + b)[..|a + b| - 1] == a + b[..|b| - 1];
    }
  }

  lemma CountOne<T>(x: T, p: T -> bool)
    ensures Count([x], p) == if p(x) then 1 else 0
  {
    assert [x][..0] == [];
  }

  function Without(s: seq<Range>, k: nat): seq<Range>
    requires k < |s|
  {
    s[..k] + s[k + 1..]
  }

  lemma WithoutIsOneLess(s: seq<Range>, k: nat)
    requires k < |s|
    ensures multiset(Without(s, k)) == multiset(s) - multiset{s[k]}
  {
    assert s == s[..k] + [s[k]] + s[k + 1..];
  }

  lemma CountWithout(s: seq<Range>, k: nat, p: Range -> bool)
    requires k < |s|
    ensures Count(s, p) == Count(Without(s, k), p) + if p(s[k]) then 1 else 0
  {
    hide Count;
    var a, x, b := s[..k], [s[k]], s[k + 1..];
    assert s == a + x + b;
    CountSplit(a + x, b, p);
    CountSplit(a, x, p);
    CountSplit(a, b, p);
    CountOne(s[k], p);
  }

  /** Counting does not depend on the order. */
  lemma {:induction false} CountPermuted(a: seq<Range>, b: seq<Range>, p: Range -> bool)
    requires multiset(a) == multiset(b)
    ensures Count(a, p) == Count(b, p)
    decreases |a|
  {
    hide Count, Without;
    if a == [] {
      assert |multiset(b)| == 0;
    } else {
      assert a[0] in multiset(b);
      var k :| 0 <= k < |b| && b[k] == a[0];
      WithoutIsOneLess(a, 0);
      WithoutIsOneLess(b, k);
      WithoutShorter(a, 0);
      CountPermuted(Without(a, 0), Without(b, k), p);
      CountWithout(a, 0, p);
      CountWithout(b, k, p);
    }
  }

  lemma WithoutShorter(s: seq<Range>, k: nat)
    requires k < |s|
    ensures |Without(s, k)| == |s| - 1
  {
  }

  lemma {:induction false} CountWeaker<T>(s: seq<T>, p: T -> bool, q: T -> bool)
    requires forall i :: 0 <= i < |s| && p(s[i]) ==> q(s[i])
    ensures Count(s, p) <= Count(s, q)
  {
    if s != [] {
      CountWeaker(s[..|s| - 1], p, q);
    }
  }

  method CountRanges(s: seq<Range>, p: Range -> bool) returns (n: nat)
    ensures n == Count(s, p)
  {
    n := 0;
    var i := 0;
    while i < |s|
      invariant 0 <= i <= |s| && n == Count(s[..i], p)
    {
      assert s[..i + 1][..i] == s[..i];
      if p(s[i]) {
        n := n + 1;
      }
      i := i + 1;
    }
    assert s[..|s|] == s;
  }

  method CountFields(s: seq<Range>, values: seq<nat>, p: Range -> bool) returns (n: nat)
    requires Sorted(s) && !Behind(s)
    ensures n == Count(values, v => Scan(s, v, p))
  {
    n := 0;
    var i := 0;
    while i < |values|
      invariant 0 <= i <= |values| && n == Count(values[..i], v => Scan(s, v, p))
    {
      assert values[..i + 1][..i] == values[..i];
      var found := Lookup(s, values[i], p);
      if found {
        n := n + 1;
      }
      i := i + 1;
    }
    assert values[..|values|] == values;
  }

  // ---- The summary ------------------------------------------------------------------------------------------

  const MAX_ENTRIES := 65536

  const ZEROED := (r: Range) => r.kind == 4
  const LOADED := (r: Range) => r.kind == 0
  const CORE_ZERO := (r: Range) => r.kind == 4 && Apple81Skips(r.start)
  const CORE_ZERO_CROSS := (r: Range) => r.kind == 4 && Apple81Skips(r.start) && 0x8000_c000 < r.end
  const IOS15_ZERO := (r: Range) => r.kind == 4 && Apple15Skips(r.start)

  function RangesWith(ranges: seq<Range>, r: Record): seq<Range> {
    if r.Load? && r.length > 0 then ranges + [Range(r.address, r.address + r.length, 0)]
    else if r.Zero? && r.length > 0 then ranges + [Range(r.address, r.address + r.length, 4)]
    else ranges
  }

  /** The nonempty destinations, in chain order. */
  function RangesOf(rs: seq<Record>): seq<Range> {
    if rs == [] then [] else RangesWith(RangesOf(rs[..|rs| - 1]), rs[|rs| - 1])
  }

  function ThreadsOf(rs: seq<Record>): seq<Thread> {
    if rs == [] then []
    else ThreadsOf(rs[..|rs| - 1]) + if rs[|rs| - 1].Start? then rs[|rs| - 1].threads else []
  }

  function Seconds(ts: seq<Thread>): seq<nat> {
    seq(|ts|, i requires 0 <= i < |ts| => ts[i].second)
  }

  function Thirds(ts: seq<Thread>): seq<nat> {
    seq(|ts|, i requires 0 <= i < |ts| => ts[i].third)
  }

  datatype Summary = Summary(regions: nat, overlapping: bool, threadEntries: nat,
                             field1Zero: Option<nat>, field2Load: Option<nat>,
                             coreZero: nat, coreZeroCross: nat, ios15CoreZero: nat,
                             field1Skipped81: Option<nat>, field1Skipped15: Option<nat>)

  lemma {:induction false} RangesBound(rs: seq<Record>)
    ensures |RangesOf(rs)| <= |rs| && Nonempty(RangesOf(rs))
  {
    if rs != [] {
      RangesBound(rs[..|rs| - 1]);
    }
  }

  lemma {:induction false} ThreadsGrow(rs: seq<Record>, n: nat)
    requires n <= |rs|
    ensures |ThreadsOf(rs[..n])| <= |ThreadsOf(rs)|
    decreases |rs| - n
  {
    if n < |rs| {
      ThreadsGrow(rs, n + 1);
      assert rs[..n + 1][..n] == rs[..n];
    } else {
      assert rs[..n] == rs;
    }
  }

  /** One record of the unchecked walk. */
  method TakeRecord(d: Data, position: nat, ranges: seq<Range>, threads: seq<Thread>)
      returns (r: Result<(seq<Range>, seq<Thread>)>)
    requires RecordOk(d, position) && |ranges| < MAX_ENTRIES && |threads| <= MAX_ENTRIES
    ensures var record := RecordAt(d, position);
            var more := if record.Start? then threads + record.threads else threads;
            && (r.Ok? <==> |more| <= MAX_ENTRIES)
            && (r.Ok? ==> r.value == (RangesWith(ranges, record), more))
  {
    hide U32, ThreadAt;
    var command := U16(d, position);
    var kind := command % 16;
    if command / 16 % 2 == 0 && (kind == 0 || kind == 4) {
      var address, arg := U32(d, position + 8), U32(d, position + 12);
      var length := if kind == 0 then U16(d, arg + 2) - 6 else arg;
      if length > 0 {
        if |ranges| >= MAX_ENTRIES {
          return Err;
        }
        return Ok((ranges + [Range(address, address + length, kind)], threads));
      }
    } else if command / 16 % 2 == 0 && kind == 3 {
      var block := U32(d, position + 8);
      var length := U16(d, block + 2) - 6;
      if |threads| + length / 16 > MAX_ENTRIES {
        return Err;
      }
      var more := [];
      var offset := 0;
      while offset < length
        invariant offset == 16 * |more| <= length && more == ThreadsAt(d, block)[..|more|]
      {
        more := more + [ThreadAt(d, block + 4 + offset)];
        offset := offset + 16;
      }
      assert more == ThreadsAt(d, block);
      return Ok((ranges, threads + more));
    }
    return Ok((ranges, threads));
  }

  /** The walk: in bounds throughout, and refused only for its thread entries: the limit on regions is never
      reached, because there is at most one to a record. */
  method Collect(d: Data, ghost chain: seq<nat>) returns (r: Result<(seq<Range>, seq<Thread>)>)
    requires Accepted(d, chain)
    ensures r.Ok? <==> |ThreadsOf(RecordsOf(d, chain))| <= MAX_ENTRIES
    ensures r.Ok? ==> r.value == (RangesOf(RecordsOf(d, chain)), ThreadsOf(RecordsOf(d, chain)))
  {
    hide U32, U16, PayloadOk, HeaderOk, RecordAt, RangesWith;
    ghost var rs := RecordsOf(d, chain);
    var ranges, threads := [], [];
    var position := U32(d, 8);
    ghost var rest := chain;
    ghost var n := 0;
    while position != END
      invariant IsChain(d, position, rest) && n + |rest| == |chain| && rest == chain[n..]
      invariant ranges == RangesOf(rs[..n]) && threads == ThreadsOf(rs[..n]) && |threads| <= MAX_ENTRIES
      decreases |rest|
    {
      assert position == chain[n] && rs[n] == RecordAt(d, position);
      assert rs[..n + 1][..n] == rs[..n] && rs[..n + 1][n] == rs[n];
      RangesBound(rs[..n]);
      var next := TakeRecord(d, position, ranges, threads);
      if next.Err? {
        ThreadsGrow(rs, n + 1);
        return Err;
      }
      ranges, threads := next.value.0, next.value.1;
      position := U32(d, position + 4);
      rest := rest[1..];
      n := n + 1;
    }
    assert rs[..n] == rs;
    r := Ok((ranges, threads));
  }

  lemma ScanPermuted(a: seq<Range>, b: seq<Range>, v: nat, p: Range -> bool)
    requires multiset(a) == multiset(b)
    ensures Scan(a, v, p) <==> Scan(b, v, p)
  {
    if Scan(a, v, p) {
      var i :| 0 <= i < |a| && p(a[i]) && Holds(a[i], v);
      assert a[i] in multiset(b);
      var j :| 0 <= j < |b| && b[j] == a[i];
    }
    if Scan(b, v, p) {
      var i :| 0 <= i < |b| && p(b[i]) && Holds(b[i], v);
      assert b[i] in multiset(a);
      var j :| 0 <= j < |a| && a[j] == b[i];
    }
  }

  /** How many of the values a linear scan finds in a range that satisfies `p`. */
  function FoundBy(ranges: seq<Range>, values: seq<nat>, p: Range -> bool): nat {
    Count(values, v => Scan(ranges, v, p))
  }

  lemma FoundPermuted(a: seq<Range>, b: seq<Range>, values: seq<nat>, p: Range -> bool)
    requires multiset(a) == multiset(b)
    ensures FoundBy(a, values, p) == FoundBy(b, values, p)
  {
    forall v ensures Scan(a, v, p) <==> Scan(b, v, p) {
      ScanPermuted(a, b, v, p);
    }
    CountWeaker(values, v => Scan(a, v, p), v => Scan(b, v, p));
    CountWeaker(values, v => Scan(b, v, p), v => Scan(a, v, p));
  }

  /** The counts for 15.8.8 never exceed those for 8.1. */
  lemma FewerSkippedOn15(ranges: seq<Range>, values: seq<nat>)
    requires forall i :: 0 <= i < |ranges| ==> ranges[i].start < SPACE
    ensures Count(ranges, IOS15_ZERO) <= Count(ranges, CORE_ZERO)
    ensures FoundBy(ranges, values, IOS15_ZERO) <= FoundBy(ranges, values, CORE_ZERO)
  {
    forall i | 0 <= i < |ranges| && IOS15_ZERO(ranges[i]) ensures CORE_ZERO(ranges[i]) {
      Apple15SkipsIff(ranges[i].start);
    }
    CountWeaker(ranges, IOS15_ZERO, CORE_ZERO);
    forall v | Scan(ranges, v, IOS15_ZERO) ensures Scan(ranges, v, CORE_ZERO) {
      var i :| 0 <= i < |ranges| && IOS15_ZERO(ranges[i]) && Holds(ranges[i], v);
      assert CORE_ZERO(ranges[i]);
    }
    CountWeaker(values, v => Scan(ranges, v, IOS15_ZERO), v => Scan(ranges, v, CORE_ZERO));
  }

  /** What the summary says of the ranges and threads of the image: the overlap flag is whether two ranges
      intersect, the counts are over all ranges whatever their order, and each lookup count is what linear
      scans would give. */
  ghost predicate Describes(y: Summary, ranges: seq<Range>, ts: seq<Thread>) {
    && y.regions == |ranges| && y.threadEntries == |ts|
    && (y.overlapping <==> Overlap(multiset(ranges)))
    && y.coreZero == Count(ranges, CORE_ZERO) && y.coreZeroCross == Count(ranges, CORE_ZERO_CROSS)
    && y.ios15CoreZero == Count(ranges, IOS15_ZERO)
    && if y.overlapping then y.field1Zero == y.field2Load == y.field1Skipped81 == y.field1Skipped15 == None
       else
         && y.field1Zero == Some(FoundBy(ranges, Seconds(ts), ZEROED))
         && y.field2Load == Some(FoundBy(ranges, Thirds(ts), LOADED))
         && y.field1Skipped81 == Some(FoundBy(ranges, Seconds(ts), CORE_ZERO))
         && y.field1Skipped15 == Some(FoundBy(ranges, Seconds(ts), IOS15_ZERO))
  }

  method Summarize(ranges: seq<Range>, ts: seq<Thread>) returns (y: Summary)
    requires Nonempty(ranges)
    ensures Describes(y, ranges, ts)
  {
    hide Count, Sorted, Behind, Overlap, Scan;
    var s := Sort(ranges);
    assert Nonempty(s) by { NonemptyPermuted(ranges, s); }
    assert |s| == |multiset(s)| == |ranges|;
    var core := CountRanges(s, CORE_ZERO);
    var cross := CountRanges(s, CORE_ZERO_CROSS);
    var ios15 := CountRanges(s, IOS15_ZERO);
    CountPermuted(s, ranges, CORE_ZERO);
    CountPermuted(s, ranges, CORE_ZERO_CROSS);
    CountPermuted(s, ranges, IOS15_ZERO);
    var overlapping := Sweep(s);
    SweepIsOverlap(s);
    if overlapping {
      return Summary(|s|, true, |ts|, None, None, core, cross, ios15, None, None);
    }
    var zero := CountFields(s, Seconds(ts), ZEROED);
    var load := CountFields(s, Thirds(ts), LOADED);
    var skip81 := CountFields(s, Seconds(ts), CORE_ZERO);
    var skip15 := CountFields(s, Seconds(ts), IOS15_ZERO);
    FoundPermuted(s, ranges, Seconds(ts), ZEROED);
    FoundPermuted(s, ranges, Thirds(ts), LOADED);
    FoundPermuted(s, ranges, Seconds(ts), CORE_ZERO);
    FoundPermuted(s, ranges, Seconds(ts), IOS15_ZERO);
    y := Summary(|s|, false, |ts|, Some(zero), Some(load), core, cross, ios15, Some(skip81), Some(skip15));
  }

  lemma NonemptyPermuted(a: seq<Range>, b: seq<Range>)
    requires multiset(a) == multiset(b) && Nonempty(a)
    ensures Nonempty(b)
  {
    forall i | 0 <= i < |b| ensures b[i].start < b[i].end {
      assert b[i] in multiset(a);
    }
  }

  /** `summarize_ranges`: refuses what `inspect` refuses and images with over 65536 thread entries, and
      describes every other image. */
  method SummarizeRanges(d: Data) returns (r: Result<Summary>)
    ensures r.Ok? ==> WellFormed(d)
    ensures forall chain | Accepted(d, chain) ::
              && (r.Ok? <==> |ThreadsOf(RecordsOf(d, chain))| <= MAX_ENTRIES)
              && (r.Ok? ==> Describes(r.value, RangesOf(RecordsOf(d, chain)), ThreadsOf(RecordsOf(d, chain))))
  {
    hide Accepted, RecordsOf, Total, ThreadsOf, RangesOf, Describes, RecordOk;
    var checked := Inspect(d);
    if checked.Err? {
      return Err;
    }
    ghost var chain :| Accepted(d, chain);
    forall other | Accepted(d, other) ensures other == chain {
      OneChain(d, chain, other);
    }
    AcceptedRecords(d, chain);
    var collected := Collect(d, chain);
    if collected.Err? {
      return Err;
    }
    RangesBound(RecordsOf(d, chain));
    var y := Summarize(collected.value.0, collected.value.1);
    r := Ok(y);
  }
}
