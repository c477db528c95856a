/** Packing the destinations of an LDR image into the four layout slots and the core-code object.
    tools/gpu_g4g_apple_model.py:39-101. */
module Layout {
  import opened Common
  import opened Ldr

  datatype Extent = Extent(min: nat, maxEnd: nat)

  predicate Placed(r: Record) {
    r.Load? || r.Zero?
  }

  predicate IsCoreCode(address: nat) {
    0x8000_0000 <= address < 0x8200_0000
  }

  /** `apple_segment_index`: 4 stands for None. */
  function SlotOf(address: nat): (k: nat)
    ensures k <= 4
  {
    if address < 0x0800_0000 || 0x8000_0000 <= address < 0x8800_0000 then 4 else address / 0x2000_0000 % 4
  }

  /** The slot of an address: each takes one interval below 0x80000000 and the same one above, without what the host
      and the core memory take. */
  lemma SlotIs(address: nat)
    requires address < SPACE
    ensures SlotOf(address) == 0 <==> 0x0800_0000 <= address < 0x2000_0000 || 0x8800_0000 <= address < 0xa000_0000
    ensures SlotOf(address) == 1 <==> 0x2000_0000 <= address < 0x4000_0000 || 0xa000_0000 <= address < 0xc000_0000
    ensures SlotOf(address) == 2 <==> 0x4000_0000 <= address < 0x6000_0000 || 0xc000_0000 <= address < 0xe000_0000
    ensures SlotOf(address) == 3 <==> 0x6000_0000 <= address < 0x8000_0000 || 0xe000_0000 <= address
    ensures SlotOf(address) == 4 <==> address < 0x0800_0000 || 0x8000_0000 <= address < 0x8800_0000
  {
  }

  /** `address & 0x7fffffff` */
  function Normal(address: nat): nat {
    address % 0x8000_0000
  }

  /** The slot a record falls in. */
  function SlotIn(r: Record): nat {
    if Placed(r) then SlotOf(r.address) else 4
  }

  predicate InSlot(r: Record, k: nat) {
    k < 4 && SlotIn(r) == k
  }

  /** Where a record's bytes go, normalised. */
  function NStart(r: Record): nat {
    if Placed(r) then Normal(r.address) else 0
  }

  function NEnd(r: Record): nat {
    if Placed(r) then Normal(r.address) + r.length else 0
  }

  function AlignUp(n: nat): (m: nat)
    ensures m % 0x1000 == 0 && n <= m < n + 0x1000
  {
    (n + 0xfff) / 0x1000 * 0x1000
  }

  type Extents = map<nat, Extent>

  ghost predicate Starts(rs: seq<Record>, k: nat, at: nat) {
    exists i :: 0 <= i < |rs| && InSlot(rs[i], k) && NStart(rs[i]) == at
  }

  ghost predicate Ends(rs: seq<Record>, k: nat, at: nat) {
    exists i :: 0 <= i < |rs| && InSlot(rs[i], k) && NEnd(rs[i]) == at
  }

  /** The least normalised start and the greatest end of the records in a slot. */
  ghost predicate Bounds(x: Extent, rs: seq<Record>, k: nat) {
    && x.min <= x.maxEnd
    && (forall i :: 0 <= i < |rs| && InSlot(rs[i], k) ==> x.min <= NStart(rs[i]) && NEnd(rs[i]) <= x.maxEnd)
    && Starts(rs, k, x.min) && Ends(rs, k, x.maxEnd)
  }

  /** Exactly the slots some record falls in, each with its bounds. */
  ghost predicate ExtentsOk(m: Extents, rs: seq<Record>) {
    && (forall k :: k in m ==> k < 4 && Bounds(m[k], rs, k))
    && (forall i :: 0 <= i < |rs| && SlotIn(rs[i]) < 4 ==> SlotIn(rs[i]) in m)
  }

  method Measure(rs: seq<Record>) returns (m: Extents)
    ensures ExtentsOk(m, rs)
  {
    hide SlotOf, Normal, Bounds;
    m := map[];
    var i := 0;
    while i < |rs|
      invariant 0 <= i <= |rs| && ExtentsOk(m, rs[..i])
    {
      ghost var was := m;
      if Placed(rs[i]) && SlotOf(rs[i].address) != 4 {
        var k := SlotOf(rs[i].address);
        var start := Normal(rs[i].address);
        var end := start + rs[i].length;
        var x := if k in m then m[k] else Extent(start, end);
        m := m[k := Extent(if start < x.min then start else x.min, if end > x.maxEnd then end else x.maxEnd)];
        if k in was {
          Grows(was[k], rs, i, k, m[k]);
        } else {
          Begins(rs, i, k, m[k]);
        }
      }
      forall k | k in was && !InSlot(rs[i], k) ensures Bounds(was[k], rs[..i + 1], k) {
        Unaffected(was[k], rs, i, k);
      }
      assert rs[..i + 1][..i] == rs[..i];
      i := i + 1;
    }
    assert rs[..|rs|] == rs;
  }

  lemma StillThere(rs: seq<Record>, i: nat, k: nat, at: nat)
    requires i < |rs|
    ensures Starts(rs[..i], k, at) ==> Starts(rs[..i + 1], k, at)
    ensures Ends(rs[..i], k, at) ==> Ends(rs[..i + 1], k, at)
  {
    hide InSlot, NStart, NEnd;
    if Starts(rs[..i], k, at) {
      var j :| 0 <= j < i && InSlot(rs[..i][j], k) && NStart(rs[..i][j]) == at;
      assert rs[..i + 1][j] == rs[..i][j];
    }
    if Ends(rs[..i], k, at) {
      var j :| 0 <= j < i && InSlot(rs[..i][j], k) && NEnd(rs[..i][j]) == at;
      assert rs[..i + 1][j] == rs[..i][j];
    }
  }

  lemma Unaffected(x: Extent, rs: seq<Record>, i: nat, k: nat)
    requires i < |rs| && Bounds(x, rs[..i], k) && !InSlot(rs[i], k)
    ensures Bounds(x, rs[..i + 1], k)
  {
    hide InSlot, NStart, NEnd, Starts, Ends;
    StillThere(rs, i, k, x.min);
    StillThere(rs, i, k, x.maxEnd);
    assert forall j :: 0 <= j < i ==> rs[..i + 1][j] == rs[..i][j];
  }

  lemma Grows(x: Extent, rs: seq<Record>, i: nat, k: nat, y: Extent)
    requires i < |rs| && Bounds(x, rs[..i], k) && InSlot(rs[i], k)
    requires y.min == (if NStart(rs[i]) < x.min then NStart(rs[i]) else x.min)
    requires y.maxEnd == (if NEnd(rs[i]) > x.maxEnd then NEnd(rs[i]) else x.maxEnd)
    ensures Bounds(y, rs[..i + 1], k)
  {
    hide InSlot, NStart, NEnd, Starts, Ends;
    StillThere(rs, i, k, x.min);
    StillThere(rs, i, k, x.maxEnd);
    NewBounds(rs, i, k);
    assert forall j :: 0 <= j < i ==> rs[..i + 1][j] == rs[..i][j];
  }

  lemma NewBounds(rs: seq<Record>, i: nat, k: nat)
    requires i < |rs| && InSlot(rs[i], k)
    ensures Starts(rs[..i + 1], k, NStart(rs[i])) && Ends(rs[..i + 1], k, NEnd(rs[i]))
  {
    hide NStart, NEnd;
    assert rs[..i + 1][i] == rs[i];
  }

  lemma Begins(rs: seq<Record>, i: nat, k: nat, y: Extent)
    requires i < |rs| && InSlot(rs[i], k) && forall j :: 0 <= j < i ==> !InSlot(rs[j], k)
    requires y.min == NStart(rs[i]) && y.maxEnd == NEnd(rs[i]) && NStart(rs[i]) <= NEnd(rs[i])
    ensures Bounds(y, rs[..i + 1], k)
  {
    hide InSlot, NStart, NEnd, Starts, Ends;
    NewBounds(rs, i, k);
    assert forall j :: 0 <= j < i ==> rs[..i + 1][j] == rs[j];
  }

  // ---- Packing ----------------------------------------------------------------------------------------------

  function Span(x: Extent): nat {
    AlignUp(if x.maxEnd >= x.min then x.maxEnd - x.min else 0)
  }

  /** What the slots below `k` take. */
  function OffsetOf(m: Extents, k: nat): nat {
    if k == 0 then 0 else OffsetOf(m, k - 1) + if k - 1 in m then Span(m[k - 1]) else 0
  }

  method Pack(m: Extents) returns (offsets: map<nat, nat>)
    requires forall k :: k in m ==> k < 4
    ensures offsets.Keys == m.Keys
    ensures forall k :: k in m ==> offsets[k] == OffsetOf(m, k)
  {
    offsets := map[];
    var packed := 0;
    for k := 0 to 4
      invariant packed == OffsetOf(m, k)
      invariant forall j :: j in offsets <==> j in m && j < k
      invariant forall j :: j in offsets ==> offsets[j] == OffsetOf(m, j)
    {
      if k in m {
        offsets := offsets[k := packed];
        packed := packed + Span(m[k]);
      }
    }
  }

  /** Allocations start on 4 KiB boundaries and follow one another, so those of two slots are disjoint. */
  lemma {:induction false} PackedInOrder(m: Extents, j: nat, k: nat)
    requires j <= k
    ensures OffsetOf(m, k) % 0x1000 == 0
    ensures j < k && j in m ==> OffsetOf(m, j) + Span(m[j]) <= OffsetOf(m, k)
    ensures OffsetOf(m, j) <= OffsetOf(m, k)
    decreases k
  {
    if k > 0 {
      PackedInOrder(m, if j < k then j else k - 1, k - 1);
    }
  }

  // ---- The fit check ----------------------------------------------------------------------------------------

  /** The greatest end of a core-code record. */
  function CoreEnd(rs: seq<Record>): (e: nat)
    ensures e >= 0x8000_0000
    ensures forall i :: 0 <= i < |rs| && Placed(rs[i]) && IsCoreCode(rs[i].address) ==> rs[i].address + rs[i].length <= e
  {
    if rs == [] then 0x8000_0000
    else
      var n := |rs| - 1;
      var e := CoreEnd(rs[..n]);
      assert forall i :: 0 <= i < n ==> rs[..n][i] == rs[i];
      if Placed(rs[n]) && IsCoreCode(rs[n].address) && rs[n].address + rs[n].length > e then rs[n].address + rs[n].length else e
  }

  method FindCoreEnd(rs: seq<Record>) returns (e: nat)
    ensures e == CoreEnd(rs)
  {
    e := 0x8000_0000;
    var i := 0;
    while i < |rs|
      invariant 0 <= i <= |rs| && e == CoreEnd(rs[..i])
    {
      assert rs[..i + 1][..i] == rs[..i] && rs[..i + 1][i] == rs[i];
      if Placed(rs[i]) && IsCoreCode(rs[i].address) && rs[i].address + rs[i].length > e {
        e := rs[i].address + rs[i].length;
      }
      i := i + 1;
    }
    assert rs[..|rs|] == rs;
  }

  /** What becomes of a record; entry 4 is the core-code object. */
  datatype Fit = Skip | Unmapped | Map(entry: nat, offset: int, length: nat, fits: bool)

  function Entry(address: nat): nat {
    if IsCoreCode(address) then 4 else SlotOf(address)
  }

  function FitOf(m: Extents, coreEnd: nat, r: Record): Fit
    requires Placed(r) && coreEnd >= 0x8000_0000
  {
    if r.Zero? && Apple81Skips(r.address) then Skip
    else if IsCoreCode(r.address) then
      var offset := r.address - 0x8000_0000;
      Map(4, offset, r.length, 0 <= offset && offset + r.length <= AlignUp(coreEnd - 0x8000_0000))
    else
      var k := SlotOf(r.address);
      if k !in m then Unmapped
      else
        var offset := OffsetOf(m, k) + Normal(r.address) - m[k].min;
        Map(k, offset, r.length, 0 <= offset && offset + r.length <= OffsetOf(m, k) + Span(m[k]))
  }

  predicate Fits(f: Fit) {
    match f
    case Skip => true
    case Unmapped => false
    case Map(_, _, _, fits) => fits
  }

  function PlacedOf(rs: seq<Record>): (ps: seq<Record>)
    ensures forall i :: 0 <= i < |ps| ==> Placed(ps[i])
  {
    if rs == [] then []
    else PlacedOf(rs[..|rs| - 1]) + if Placed(rs[|rs| - 1]) then [rs[|rs| - 1]] else []
  }

  function FitsOf(m: Extents, coreEnd: nat, ps: seq<Record>): seq<Fit>
    requires coreEnd >= 0x8000_0000 && forall i :: 0 <= i < |ps| ==> Placed(ps[i])
  {
    seq(|ps|, i requires 0 <= i < |ps| => FitOf(m, coreEnd, ps[i]))
  }

  /** Every record that is mapped at all fits its allocation. */
  lemma MappedFits(m: Extents, rs: seq<Record>, i: nat)
    requires ExtentsOk(m, rs) && i < |rs| && Placed(rs[i])
    ensures var f := FitOf(m, CoreEnd(rs), rs[i]); f.Map? ==> f.fits
  {
    var r := rs[i];
    if !IsCoreCode(r.address) && SlotOf(r.address) in m {
      assert InSlot(r, SlotOf(r.address));
    }
  }

  /** The starts no slot and no core-code object takes. */
  predicate Orphan(address: nat) {
    address < 0x0800_0000 || 0x8200_0000 <= address < 0x8800_0000
  }

  /** A record fits unless it starts where nothing takes it. */
  lemma FitsIff(m: Extents, rs: seq<Record>, i: nat)
    requires ExtentsOk(m, rs) && i < |rs| && Placed(rs[i])
    ensures Fits(FitOf(m, CoreEnd(rs), rs[i])) <==> !Orphan(rs[i].address)
  {
    hide CoreEnd, OffsetOf, Span, AlignUp, Normal;
    MappedFits(m, rs, i);
    var r := rs[i];
    if SlotOf(r.address) < 4 {
      assert InSlot(r, SlotOf(r.address));
    }
  }

  /** The layout of an image's records. Everything fits exactly when no load or zero record starts in
      [0, 0x08000000) or [0x82000000, 0x88000000). */
  method CheckLayout(rs: seq<Record>) returns (fits: seq<Fit>, allFit: bool, m: Extents, offsets: map<nat, nat>)
    ensures ExtentsOk(m, rs) && offsets.Keys == m.Keys && forall k :: k in m ==> offsets[k] == OffsetOf(m, k)
    ensures fits == FitsOf(m, CoreEnd(rs), PlacedOf(rs))
    ensures allFit <==> forall j :: 0 <= j < |rs| && Placed(rs[j]) ==> !Orphan(rs[j].address)
  {
    hide ExtentsOk, AlignUp, OffsetOf, CoreEnd, PlacedOf, SlotOf, FitOf, Orphan, Fits;
    m := Measure(rs);
    assert forall k :: k in m ==> k < 4 by { SlotsBelow4(m, rs); }
    NonePlaced(rs[..0]);
    offsets := Pack(m);
    var coreEnd := FindCoreEnd(rs);
    fits := [];
    allFit := true;
    var i := 0;
    while i < |rs|
      invariant 0 <= i <= |rs|
      invariant |fits| == |PlacedOf(rs[..i])|
      invariant fits == FitsOf(m, coreEnd, PlacedOf(rs[..i]))
      invariant allFit <==> forall j :: 0 <= j < i && Placed(rs[j]) ==> Fits(FitOf(m, coreEnd, rs[j]))
    {
      PlacedNext(rs, i);
      if Placed(rs[i]) {
        var f := MapRecord(m, offsets, coreEnd, rs[i]);
        assert fits + [f] == FitsOf(m, coreEnd, PlacedOf(rs[..i]) + [rs[i]]);
        fits := fits + [f];
        allFit := allFit && Fits(f);
      }
      i := i + 1;
    }
    assert rs[..|rs|] == rs;
    forall j | 0 <= j < |rs| && Placed(rs[j]) ensures Fits(FitOf(m, coreEnd, rs[j])) <==> !Orphan(rs[j].address) {
      FitsIff(m, rs, j);
    }
  }

  lemma SlotsBelow4(m: Extents, rs: seq<Record>)
    requires ExtentsOk(m, rs)
    ensures forall k :: k in m ==> k < 4
  {
  }

  lemma NonePlaced(rs: seq<Record>)
    requires rs == []
    ensures PlacedOf(rs) == []
  {
  }

  lemma PlacedNext(rs: seq<Record>, i: nat)
    requires i < |rs|
    ensures PlacedOf(rs[..i + 1]) == if Placed(rs[i]) then PlacedOf(rs[..i]) + [rs[i]] else PlacedOf(rs[..i])
  {
    assert rs[..i + 1][..i] == rs[..i];
  }

  method MapRecord(m: Extents, offsets: map<nat, nat>, coreEnd: nat, r: Record) returns (f: Fit)
    requires Placed(r) && coreEnd >= 0x8000_0000
    requires offsets.Keys == m.Keys && forall k :: k in m ==> offsets[k] == OffsetOf(m, k)
    ensures f == FitOf(m, coreEnd, r)
  {
    if r.Zero? && Apple81Skips(r.address) {
      return Skip;
    }
    if IsCoreCode(r.address) {
      var offset := r.address - 0x8000_0000;
      return Map(4, offset, r.length, 0 <= offset && offset + r.length <= AlignUp(coreEnd - 0x8000_0000));
    }
    var k := SlotOf(r.address);
    if k !in m {
      return Unmapped;
    }
    assert k in offsets.Keys;
    var offset := offsets[k] + Normal(r.address) - m[k].min;
    return Map(k, offset, r.length, 0 <= offset && offset + r.length <= offsets[k] + Span(m[k]));
  }

  /** The place a mapped record's bytes start from: two records of one entry with disjoint places get disjoint
      offsets, and so do any two records of different slots. The core-code object is another allocation. */
  function Place(address: nat): nat {
    if IsCoreCode(address) then address else Normal(address)
  }

  lemma DisjointOffsets(m: Extents, rs: seq<Record>, i: nat, j: nat)
    requires ExtentsOk(m, rs) && i < |rs| && j < |rs| && Placed(rs[i]) && Placed(rs[j])
    requires FitOf(m, CoreEnd(rs), rs[i]).Map? && FitOf(m, CoreEnd(rs), rs[j]).Map?
    ensures var f, g := FitOf(m, CoreEnd(rs), rs[i]), FitOf(m, CoreEnd(rs), rs[j]);
            && (f.entry == g.entry ==>
                  (Place(rs[i].address) + rs[i].length <= Place(rs[j].address) <==> f.offset + f.length <= g.offset))
            && (f.entry < g.entry < 4 ==> f.offset + f.length <= g.offset)
  {
    hide CoreEnd, AlignUp, SlotOf, Normal;
    MappedFits(m, rs, i);
    MappedFits(m, rs, j);
    var f, g := FitOf(m, CoreEnd(rs), rs[i]), FitOf(m, CoreEnd(rs), rs[j]);
    if f.entry < g.entry < 4 {
      PackedInOrder(m, f.entry, g.entry);
      assert InSlot(rs[j], g.entry);
    }
  }

  /** The layout of an image: extents and offsets by slot, what becomes of each placed record, and `all_fit`. */
  datatype Model = Model(extents: Extents, offsets: map<nat, nat>, fits: seq<Fit>, allFit: bool)

  /** The model is the layout of these records. */
  ghost predicate LaysOut(x: Model, rs: seq<Record>) {
    && ExtentsOk(x.extents, rs)
    && x.offsets.Keys == x.extents.Keys && (forall k :: k in x.extents ==> x.offsets[k] == OffsetOf(x.extents, k))
    && x.fits == FitsOf(x.extents, CoreEnd(rs), PlacedOf(rs))
    && (x.allFit <==> forall j :: 0 <= j < |rs| && Placed(rs[j]) ==> !Orphan(rs[j].address))
  }

  /** `build_model` on an image: refused exactly when `inspect` refuses it, and otherwise the layout of its records. */
  method BuildModel(d: Data) returns (r: Result<Model>)
    ensures r.Ok? <==> WellFormed(d)
    ensures r.Ok? ==> forall chain | Accepted(d, chain) :: LaysOut(r.value, RecordsOf(d, chain))
  {
    hide WellFormed, Accepted, RecordsOf, Total, PlacedOf, FitsOf, ExtentsOk, FitOf, RecordOk, OffsetOf, CoreEnd;
    var report := HostReport(d);
    if report.Err? {
      return Err;
    }
    var fits, allFit, m, offsets := CheckLayout(report.value.records);
    r := Ok(Model(m, offsets, fits, allFit));
  }
}
