/** The META LDR record chain: the checking walker, and the reporting walker whose unchecked reads rest on it.
    tools/gpu_ldr_inspect.py:10-87, 149-221. */
module Ldr {
  import opened Common

  const END := 0xffff_ffff
  const SPACE := 0x1_0000_0000
  const MAX_RECORDS := 65536

  /** `struct.unpack_from`: raises outside the image, so a read is only written where it is in bounds. */
  function U16(d: Data, o: nat): (v: nat)
    requires o + 2 <= |d|
    ensures v < 0x1_0000
  {
    d[o] as int + 0x100 * d[o + 1] as int
  }

  function U32(d: Data, o: nat): (v: nat)
    requires o + 4 <= |d|
    ensures v < SPACE
  {
    d[o] as int + 0x100 * d[o + 1] as int + 0x1_0000 * d[o + 2] as int + 0x100_0000 * d[o + 3] as int
  }

  // ---- Well-formed records --------------------------------------------------------------------------------

  function Kind(d: Data, p: nat): nat
    requires p + 8 <= |d|
  {
    U16(d, p) % 16
  }

  predicate IsComment(d: Data, p: nat)
    requires p + 8 <= |d|
  {
    U16(d, p) / 16 % 2 == 1
  }

  /** Where the payload of a load, start or config record is. */
  function Block(d: Data, p: nat): nat
    requires p + 16 <= |d|
  {
    if Kind(d, p) == 0 then U32(d, p + 12) else U32(d, p + 8)
  }

  predicate BlockIn(d: Data, b: nat) {
    b + 4 <= |d| && U16(d, b + 2) >= 6 && b + U16(d, b + 2) <= |d|
  }

  function BlockSize(d: Data, b: nat): nat
    requires BlockIn(d, b)
  {
    U16(d, b + 2) - 6
  }

  /** The header of a record and the room its kind needs. */
  predicate HeaderOk(d: Data, p: nat) {
    && p + 8 <= |d| && U16(d, p + 2) >= 8 && p + U16(d, p + 2) <= |d|
    && (!IsComment(d, p) ==>
          && Kind(d, p) in {0, 3, 4, 5}
          && U16(d, p + 2) >= if Kind(d, p) == 0 then 20 else 16)
  }

  predicate PayloadOk(d: Data, p: nat)
    requires HeaderOk(d, p) && !IsComment(d, p)
  {
    if Kind(d, p) == 4 then U32(d, p + 8) + U32(d, p + 12) <= SPACE
    else
      var b := Block(d, p);
      BlockIn(d, b) &&
      var size := BlockSize(d, b);
      if Kind(d, p) == 0 then U32(d, p + 8) + size <= SPACE
      else if Kind(d, p) == 3 then size % 16 == 0
      else size % 12 == 0 && forall j :: 0 <= j < size / 12 ==> U32(d, b + 4 + 12 * j) == 2
  }

  predicate RecordOk(d: Data, p: nat) {
    HeaderOk(d, p) && (!IsComment(d, p) ==> PayloadOk(d, p))
  }

  /** `chain` lists the records from `p` on, up to the end mark. */
  predicate IsChain(d: Data, p: nat, chain: seq<nat>)
    decreases |chain|
  {
    if chain == [] then p == END
    else p != END && p == chain[0] && p + 8 <= |d| && IsChain(d, U32(d, p + 4), chain[1..])
  }

  /** A chain of at most 65536 records that reaches the end mark, every record of it well formed. */
  predicate Accepted(d: Data, chain: seq<nat>) {
    && |d| >= 16 && IsChain(d, U32(d, 8), chain) && |chain| <= MAX_RECORDS
    && forall i :: 0 <= i < |chain| ==> RecordOk(d, chain[i])
  }

  ghost predicate WellFormed(d: Data) {
    exists chain :: Accepted(d, chain)
  }

  lemma {:induction false} ChainUnique(d: Data, p: nat, a: seq<nat>, b: seq<nat>)
    requires IsChain(d, p, a) && IsChain(d, p, b)
    ensures a == b
    decreases |a|
  {
    if a != [] {
      ChainUnique(d, U32(d, p + 4), a[1..], b[1..]);
      assert a == [a[0]] + a[1..] && b == [b[0]] + b[1..];
    }
  }

  lemma {:induction false} ChainTail(d: Data, p: nat, chain: seq<nat>, i: nat)
    requires IsChain(d, p, chain) && i < |chain|
    decreases i
    ensures IsChain(d, chain[i], chain[i..]) && chain[i] + 8 <= |d|
  {
    if i > 0 {
      ChainTail(d, U32(d, p + 4), chain[1..], i - 1);
      assert chain[1..][i - 1..] == chain[i..];
    } else {
      assert chain[0..] == chain;
    }
  }

  /** A chain that ends never visits a record twice, so the cycle check refuses no chain that would end. */
  lemma ChainDistinct(d: Data, p: nat, chain: seq<nat>, i: nat, j: nat)
    requires IsChain(d, p, chain) && i < j < |chain|
    ensures chain[i] != chain[j]
  {
    ChainTail(d, p, chain, i);
    ChainTail(d, p, chain, j);
    if chain[i] == chain[j] {
      ChainUnique(d, chain[i], chain[i..], chain[j..]);
    }
  }

  // ---- What a chain adds up to ------------------------------------------------------------------------------

  /** The counters of `inspect`. */
  datatype Totals = Totals(comments: nat, loads: nat, starts: nat, zeros: nat, configs: nat,
                           copied: nat, zeroed: nat, config: nat, threads: nat)

  const NOTHING := Totals(0, 0, 0, 0, 0, 0, 0, 0, 0)

  function Add(t: Totals, d: Data, p: nat): Totals
    requires RecordOk(d, p)
  {
    if IsComment(d, p) then t.(comments := t.comments + 1)
    else if Kind(d, p) == 4 then t.(zeros := t.zeros + 1, zeroed := t.zeroed + U32(d, p + 12))
    else
      var size := BlockSize(d, Block(d, p));
      if Kind(d, p) == 0 then t.(loads := t.loads + 1, copied := t.copied + size)
      else if Kind(d, p) == 3 then t.(starts := t.starts + 1, threads := t.threads + size / 16)
      else t.(configs := t.configs + 1, config := t.config + size / 12)
  }

  function Total(d: Data, chain: seq<nat>): Totals
    requires forall i :: 0 <= i < |chain| ==> RecordOk(d, chain[i])
  {
    if chain == [] then NOTHING else Add(Total(d, chain[..|chain| - 1]), d, chain[|chain| - 1])
  }

  function RecordCount(t: Totals): nat {
    t.comments + t.loads + t.starts + t.zeros + t.configs
  }

  // ---- The checking walker ----------------------------------------------------------------------------------

  /** `require(offset, length)` */
  predicate InImage(d: Data, offset: int, length: int) {
    !(offset < 0 || length < 0 || offset > |d| || length > |d| - offset)
  }

  /** The body of the loop of `inspect`, after the position itself has been checked. */
  method InspectRecord(d: Data, position: nat, t: Totals) returns (r: Result<Totals>)
    requires position + 8 <= |d|
    ensures r.Ok? <==> RecordOk(d, position)
    ensures r.Ok? ==> r.value == Add(t, d, position)
  {
    var command, recordLength := U16(d, position), U16(d, position + 2);
    if recordLength < 8 || !InImage(d, position, recordLength) {
      return Err;
    }
    var kind := command % 16;
    if command / 16 % 2 == 1 {
      return Ok(t.(comments := t.comments + 1));
    }
    if kind !in {0, 3, 4, 5} || recordLength < (if kind == 0 then 20 else 16) {
      return Err;
    }
    if kind == 4 {
      var length := U32(d, position + 12);
      if U32(d, position + 8) + length > SPACE {
        return Err;
      }
      return Ok(t.(zeros := t.zeros + 1, zeroed := t.zeroed + length));
    }
    var block := U32(d, position + if kind == 0 then 12 else 8);
    if !InImage(d, block + 2, 2) {
      return Err;
    }
    var length := U16(d, block + 2);
    if length < 6 || !InImage(d, block, length) {
      return Err;
    }
    var size := length - 6;
    if kind == 0 {
      if U32(d, position + 8) + size > SPACE {
        return Err;
      }
      return Ok(t.(loads := t.loads + 1, copied := t.copied + size));
    }
    if kind == 3 {
      if size % 16 != 0 {
        return Err;
      }
      return Ok(t.(starts := t.starts + 1, threads := t.threads + size / 16));
    }
    if size % 12 != 0 {
      return Err;
    }
    var bad := ConfigCommands(d, block, size);
    if bad {
      return Err;
    }
    return Ok(t.(configs := t.configs + 1, config := t.config + size / 12));
  }

  method ConfigCommands(d: Data, block: nat, size: nat) returns (bad: bool)
    requires BlockIn(d, block) && size == BlockSize(d, block) && size % 12 == 0
    ensures !bad <==> forall j :: 0 <= j < size / 12 ==> U32(d, block + 4 + 12 * j) == 2
  {
    hide U32;
    var i := 0;
    while i < size / 12
      invariant 0 <= i <= size / 12
      invariant forall j :: 0 <= j < i ==> U32(d, block + 4 + 12 * j) == 2
    {
      if U32(d, block + 4 + 12 * i) != 2 {
        return true;
      }
      i := i + 1;
    }
    return false;
  }

  lemma {:induction false} StepForward(d: Data, from: nat, walked: seq<nat>, p: nat, rest: seq<nat>)
    requires forall i :: 0 <= i < |walked| ==> walked[i] != END && walked[i] + 8 <= |d|
    requires Linked(d, from, walked, p)
    ensures IsChain(d, from, walked + rest) <==> IsChain(d, p, rest)
    decreases |walked|
  {
    if walked == [] {
      assert walked + rest == rest;
    } else {
      StepForward(d, U32(d, walked[0] + 4), walked[1..], p, rest);
      assert (walked + rest)[1..] == walked[1..] + rest;
    }
  }

  /** The records walked are linked to one another and the last to `p`. */
  predicate Linked(d: Data, from: nat, walked: seq<nat>, p: nat)
    decreases |walked|
  {
    if walked == [] then from == p
    else from == walked[0] && walked[0] + 8 <= |d| && Linked(d, U32(d, walked[0] + 4), walked[1..], p)
  }

  lemma {:induction false} LinkedNext(d: Data, from: nat, walked: seq<nat>, p: nat)
    requires Linked(d, from, walked, p) && p + 8 <= |d|
    ensures Linked(d, from, walked + [p], U32(d, p + 4))
    decreases |walked|
  {
    if walked == [] {
      assert [p][1..] == [];
    } else {
      LinkedNext(d, U32(d, walked[0] + 4), walked[1..], p);
      assert (walked + [p])[1..] == walked[1..] + [p];
    }
  }

  /** What `inspect` knows after the records `walked`. */
  ghost predicate Walked(d: Data, from: nat, walked: seq<nat>, p: nat, t: Totals) {
    && |walked| <= MAX_RECORDS
    && (forall i :: 0 <= i < |walked| ==> walked[i] != END && walked[i] + 8 <= |d| && RecordOk(d, walked[i]))
    && Linked(d, from, walked, p)
    && t == Total(d, walked)
  }

  lemma WalkedStart(d: Data, from: nat)
    ensures Walked(d, from, [], from, NOTHING)
  {
  }

  lemma WalkedNext(d: Data, from: nat, walked: seq<nat>, p: nat, t: Totals)
    requires Walked(d, from, walked, p, t) && |walked| < MAX_RECORDS && p != END && p + 8 <= |d| && RecordOk(d, p)
    ensures Walked(d, from, walked + [p], U32(d, p + 4), Add(t, d, p))
  {
    hide RecordOk, U32, Add;
    LinkedNext(d, from, walked, p);
    assert (walked + [p])[..|walked|] == walked;
  }

  lemma WalkedAll(d: Data, walked: seq<nat>, t: Totals)
    requires |d| >= 16 && Walked(d, U32(d, 8), walked, END, t)
    ensures WellFormed(d) && forall chain :: Accepted(d, chain) ==> t == Total(d, chain)
  {
    hide RecordOk, U32, Add;
    var from := U32(d, 8);
    StepForward(d, from, walked, END, []);
    assert walked + [] == walked;
    assert Accepted(d, walked);
    forall chain | Accepted(d, chain) ensures chain == walked {
      ChainUnique(d, from, chain, walked);
    }
  }

  /** For every byte string `inspect` comes to an end, accepts exactly the images with a well-formed chain, and
      then reports what the records of the chain add up to. */
  method Inspect(d: Data) returns (r: Result<Totals>)
    ensures r.Ok? <==> WellFormed(d)
    ensures r.Ok? ==> forall chain :: Accepted(d, chain) ==> r.value == Total(d, chain)
  {
    hide RecordOk, U32, U16, Add, Walked, IsChain, Total;
    if !InImage(d, 0, 16) {
      return Err;
    }
    hide WellFormed, Accepted;
    var position := U32(d, 8);
    ghost var walked: seq<nat> := [];
    var seen: set<nat> := {};
    var t := NOTHING;
    WalkedStart(d, position);
    while position != END
      invariant |seen| == |walked| <= MAX_RECORDS
      invariant forall q :: q in seen <==> q in walked
      invariant Walked(d, U32(d, 8), walked, position, t)
      decreases MAX_RECORDS - |seen|
    {
      if !InImage(d, position, 8) {
        RefusedHere(d, walked, position, t);
        return Err;
      }
      if position in seen {
        RefusedCycle(d, walked, position, t);
        return Err;
      }
      if |seen| >= MAX_RECORDS {
        RefusedHere(d, walked, position, t);
        return Err;
      }
      var next := InspectRecord(d, position, t);
      if next.Err? {
        RefusedHere(d, walked, position, t);
        return Err;
      }
      WalkedNext(d, U32(d, 8), walked, position, t);
      seen := seen + {position};
      walked := walked + [position];
      t := next.value;
      position := U32(d, position + 4);
    }
    WalkedAll(d, walked, t);
    r := Ok(t);
  }

  /** A chain through `walked` to `p` has a valid record at `p`, and there is room for it. */
  lemma RefusedHere(d: Data, walked: seq<nat>, p: nat, t: Totals)
    requires |d| >= 16 && Walked(d, U32(d, 8), walked, p, t) && p != END
    requires p + 8 > |d| || |walked| >= MAX_RECORDS || !RecordOk(d, p)
    ensures !WellFormed(d)
  {
    hide RecordOk, U32, Total;
    var from := U32(d, 8);
    forall chain | IsChain(d, from, chain) ensures !Accepted(d, chain) {
      ChainExtends(d, from, walked, p, chain);
      var rest := chain[|walked|..];
      assert chain == walked + rest;
      StepForward(d, from, walked, p, rest);
      if rest != [] {
        assert chain[|walked|] == p;
      }
    }
  }

  lemma {:induction false} ChainExtends(d: Data, from: nat, walked: seq<nat>, p: nat, chain: seq<nat>)
    requires Linked(d, from, walked, p) && IsChain(d, from, chain)
    requires forall i :: 0 <= i < |walked| ==> walked[i] != END
    ensures |walked| <= |chain| && chain[..|walked|] == walked
    decreases |walked|
  {
    if walked != [] {
      ChainExtends(d, U32(d, walked[0] + 4), walked[1..], p, chain[1..]);
      assert chain[..|walked|] == [chain[0]] + chain[1..][..|walked[1..]|];
      assert walked == [walked[0]] + walked[1..];
    }
  }

  lemma RefusedCycle(d: Data, walked: seq<nat>, p: nat, t: Totals)
    requires |d| >= 16 && Walked(d, U32(d, 8), walked, p, t) && p in walked
    ensures !WellFormed(d)
  {
    hide U32, RecordOk, Total;
    var from := U32(d, 8);
    forall chain | IsChain(d, from, chain) ensures false {
      ChainExtends(d, from, walked, p, chain);
      var rest := chain[|walked|..];
      assert chain == walked + rest;
      StepForward(d, from, walked, p, rest);
      var i :| 0 <= i < |walked| && walked[i] == p;
      assert chain[i] == p && chain[|walked|] == p;
      ChainDistinct(d, from, chain, i, |walked|);
    }
  }

  // ---- The reporting walker ---------------------------------------------------------------------------------

  /** Four words of a thread entry. */
  datatype Thread = Thread(id: nat, second: nat, third: nat, flags: nat)

  datatype Write = Write(address: nat, value: nat)

  datatype Record =
    | Comment
    | Load(address: nat, length: nat)
    | Start(threads: seq<Thread>)
    | Zero(address: nat, length: nat)
    | Config(writes: seq<Write>)

  function ThreadAt(d: Data, o: nat): Thread
    requires o + 16 <= |d|
  {
    Thread(U32(d, o), U32(d, o + 4), U32(d, o + 8), U32(d, o + 12))
  }

  function ThreadsAt(d: Data, b: nat): (ts: seq<Thread>)
    requires BlockIn(d, b) && BlockSize(d, b) % 16 == 0
    ensures |ts| == BlockSize(d, b) / 16
  {
    seq(BlockSize(d, b) / 16, j requires 0 <= j < BlockSize(d, b) / 16 => ThreadAt(d, b + 4 + 16 * j))
  }

  function WritesAt(d: Data, b: nat): (ws: seq<Write>)
    requires BlockIn(d, b) && BlockSize(d, b) % 12 == 0
    ensures |ws| == BlockSize(d, b) / 12
  {
    seq(BlockSize(d, b) / 12, j requires 0 <= j < BlockSize(d, b) / 12 =>
      Write(U32(d, b + 4 + 12 * j + 4), U32(d, b + 4 + 12 * j + 8)))
  }

  /** What the report says of a valid record. */
  function RecordAt(d: Data, p: nat): Record
    requires RecordOk(d, p)
  {
    if IsComment(d, p) then Comment
    else if Kind(d, p) == 4 then Zero(U32(d, p + 8), U32(d, p + 12))
    else
      var b := Block(d, p);
      if Kind(d, p) == 0 then Load(U32(d, p + 8), BlockSize(d, b))
      else if Kind(d, p) == 3 then Start(ThreadsAt(d, b))
      else Config(WritesAt(d, b))
  }

  function RecordsOf(d: Data, chain: seq<nat>): seq<Record>
    requires forall i :: 0 <= i < |chain| ==> RecordOk(d, chain[i])
  {
    seq(|chain|, i requires 0 <= i < |chain| => RecordAt(d, chain[i]))
  }

  datatype Report = Report(records: seq<Record>, loadBytes: nat, zeroBytes: nat, configWrites: nat, threadEntries: nat,
                           needsSegments: bool, needsThreads: bool, needsZeroReview: bool)

  function LoadBytes(rs: seq<Record>): nat {
    if rs == [] then 0 else LoadBytes(rs[..|rs| - 1]) + if rs[|rs| - 1].Load? then rs[|rs| - 1].length else 0
  }

  function ZeroBytes(rs: seq<Record>): nat {
    if rs == [] then 0 else ZeroBytes(rs[..|rs| - 1]) + if rs[|rs| - 1].Zero? then rs[|rs| - 1].length else 0
  }

  function ConfigWrites(rs: seq<Record>): nat {
    if rs == [] then 0 else ConfigWrites(rs[..|rs| - 1]) + if rs[|rs| - 1].Config? then |rs[|rs| - 1].writes| else 0
  }

  function ThreadEntries(rs: seq<Record>): nat {
    if rs == [] then 0 else ThreadEntries(rs[..|rs| - 1]) + if rs[|rs| - 1].Start? then |rs[|rs| - 1].threads| else 0
  }

  lemma OneRecord(t: Totals, d: Data, p: nat)
    requires RecordOk(d, p)
    ensures var r, u := RecordAt(d, p), Add(t, d, p);
            && RecordCount(u) == RecordCount(t) + 1
            && u.copied == t.copied + (if r.Load? then r.length else 0)
            && u.zeroed == t.zeroed + (if r.Zero? then r.length else 0)
            && u.config == t.config + (if r.Config? then |r.writes| else 0)
            && u.threads == t.threads + (if r.Start? then |r.threads| else 0)
  {
    hide U32, U16, ThreadAt;
  }

  lemma SumsLast(rs: seq<Record>, r: Record)
    requires rs != [] && r == rs[|rs| - 1]
    ensures LoadBytes(rs) == LoadBytes(rs[..|rs| - 1]) + if r.Load? then r.length else 0
    ensures ZeroBytes(rs) == ZeroBytes(rs[..|rs| - 1]) + if r.Zero? then r.length else 0
    ensures ConfigWrites(rs) == ConfigWrites(rs[..|rs| - 1]) + if r.Config? then |r.writes| else 0
    ensures ThreadEntries(rs) == ThreadEntries(rs[..|rs| - 1]) + if r.Start? then |r.threads| else 0
  {
  }

  lemma RecordsLast(d: Data, chain: seq<nat>)
    requires chain != [] && forall i :: 0 <= i < |chain| ==> RecordOk(d, chain[i])
    ensures var n := |chain| - 1;
            |RecordsOf(d, chain)| == n + 1 && RecordsOf(d, chain)[..n] == RecordsOf(d, chain[..n])
            && RecordsOf(d, chain)[n] == RecordAt(d, chain[n])
  {
    hide RecordAt, RecordOk;
  }

  lemma TotalNext(d: Data, chain: seq<nat>)
    requires chain != [] && forall i :: 0 <= i < |chain| ==> RecordOk(d, chain[i])
    ensures var n := |chain| - 1; Total(d, chain) == Add(Total(d, chain[..n]), d, chain[n])
  {
    hide Add, RecordOk;
  }

  predicate Agree(rs: seq<Record>, t: Totals) {
    && |rs| == RecordCount(t)
    && LoadBytes(rs) == t.copied && ZeroBytes(rs) == t.zeroed
    && ConfigWrites(rs) == t.config && ThreadEntries(rs) == t.threads
  }

  lemma NoneAgree(d: Data, chain: seq<nat>)
    requires chain == []
    ensures Agree(RecordsOf(d, chain), Total(d, chain))
  {
  }

  /** The report's totals are those of `inspect`. */
  lemma {:induction false} SameTotals(d: Data, chain: seq<nat>)
    requires forall i :: 0 <= i < |chain| ==> RecordOk(d, chain[i])
    ensures Agree(RecordsOf(d, chain), Total(d, chain))
  {
    hide RecordAt, Add, RecordOk, RecordsOf, Total, LoadBytes, ZeroBytes, ConfigWrites, ThreadEntries;
    if chain == [] {
      NoneAgree(d, chain);
    } else {
      var n := |chain| - 1;
      SameTotals(d, chain[..n]);
      RecordsLast(d, chain);
      TotalNext(d, chain);
      OneRecord(Total(d, chain[..n]), d, chain[n]);
      SumsLast(RecordsOf(d, chain), RecordAt(d, chain[n]));
    }
  }

  /** The guard of the 15.8.8 loader on the start of a zeroed range. */
  function Apple15Skips(address: nat): bool {
    (address + 0x7fff_ff80) % SPACE / 128 < 0x17f
  }

  predicate Apple81Skips(address: nat) {
    0x8000_0000 <= address < 0x8000_c000
  }

  /** The guard is an interval, inside the one of 8.1. */
  lemma Apple15SkipsIff(address: nat)
    requires address < SPACE
    ensures Apple15Skips(address) <==> 0x8000_0080 <= address < 0x8000_c000
    ensures Apple15Skips(address) ==> Apple81Skips(address)
  {
    if address < 0x8000_0080 {
      assert (address + 0x7fff_ff80) % SPACE == address + 0x7fff_ff80;
    } else {
      assert (address + 0x7fff_ff80) % SPACE == address - 0x8000_0080;
    }
  }

  predicate NeedsReview(r: Record) {
    r.Zero? && (Apple81Skips(r.address) || Apple15Skips(r.address))
  }

  /** The unchecked walk over an accepted image: every read is in bounds and it ends. */
  method ReadRecords(d: Data, ghost chain: seq<nat>) returns (records: seq<Record>)
    requires Accepted(d, chain)
    ensures records == RecordsOf(d, chain)
  {
    hide U32, U16, PayloadOk, ThreadAt;
    records := [];
    var position := U32(d, 8);
    ghost var rest := chain;
    while position != END
      invariant IsChain(d, position, rest) && |records| + |rest| == |chain| && rest == chain[|records|..]
      invariant records == RecordsOf(d, chain)[..|records|]
      decreases |rest|
    {
      assert position == chain[|records|];
      var record := ReadRecord(d, position);
      records := records + [record];
      position := U32(d, position + 4);
      rest := rest[1..];
    }
  }

  method ReadRecord(d: Data, position: nat) returns (record: Record)
    requires RecordOk(d, position)
    ensures record == RecordAt(d, position)
  {
    hide U32, ThreadAt;
    var command := U16(d, position);
    var kind := command % 16;
    if command / 16 % 2 == 1 {
      return Comment;
    } else if kind == 0 {
      var block := U32(d, position + 12);
      return Load(U32(d, position + 8), U16(d, block + 2) - 6);
    } else if kind == 3 {
      var block := U32(d, position + 8);
      var length := U16(d, block + 2) - 6;
      var threads := [];
      var offset := 0;
      while offset < length
        invariant offset == 16 * |threads| <= length && threads == ThreadsAt(d, block)[..|threads|]
      {
        threads := threads + [ThreadAt(d, block + 4 + offset)];
        offset := offset + 16;
      }
      return Start(threads);
    } else if kind == 4 {
      return Zero(U32(d, position + 8), U32(d, position + 12));
    } else {
      var block := U32(d, position + 8);
      var length := U16(d, block + 2) - 6;
      var writes := [];
      var offset := 0;
      while offset < length
        invariant offset == 12 * |writes| <= length && writes == WritesAt(d, block)[..|writes|]
      {
        writes := writes + [Write(U32(d, block + 4 + offset + 4), U32(d, block + 4 + offset + 8))];
        offset := offset + 12;
      }
      return Config(writes);
    }
  }

  /** The report of an accepted image: one entry a record, in chain order, with the totals of `inspect`.
      Nothing but `inspect` refuses an image. */
  method HostReport(d: Data) returns (r: Result<Report>)
    ensures r.Ok? <==> WellFormed(d)
    ensures r.Ok? ==> forall chain | Accepted(d, chain) ::
              && r.value.records == RecordsOf(d, chain)
              && |r.value.records| == RecordCount(Total(d, chain))
              && r.value.loadBytes == Total(d, chain).copied && r.value.zeroBytes == Total(d, chain).zeroed
              && r.value.configWrites == Total(d, chain).config && r.value.threadEntries == Total(d, chain).threads
    ensures r.Ok? ==>
              && (r.value.needsSegments <==> exists i :: 0 <= i < |r.value.records| && r.value.records[i].Load?)
              && (r.value.needsThreads <==> exists i :: 0 <= i < |r.value.records| && r.value.records[i].Start?)
              && (r.value.needsZeroReview <==> exists i :: 0 <= i < |r.value.records| && NeedsReview(r.value.records[i]))
  {
    hide Accepted, RecordsOf, Total, Apple15Skips, RecordOk, NeedsReview;
    var checked := Inspect(d);
    if checked.Err? {
      return Err;
    }
    ghost var chain :| Accepted(d, chain);
    forall other | Accepted(d, other) ensures other == chain {
      OneChain(d, chain, other);
    }
    AcceptedRecords(d, chain);
    SameTotals(d, chain);
    var rs := ReadRecords(d, chain);
    var report := Summed(rs);
    r := Ok(report);
  }

  /** The sums over the report's own entries. */
  method Summed(rs: seq<Record>) returns (r: Report)
    ensures r.records == rs
    ensures r.loadBytes == LoadBytes(rs) && r.zeroBytes == ZeroBytes(rs)
    ensures r.configWrites == ConfigWrites(rs) && r.threadEntries == ThreadEntries(rs)
    ensures r.needsSegments <==> exists i :: 0 <= i < |rs| && rs[i].Load?
    ensures r.needsThreads <==> exists i :: 0 <= i < |rs| && rs[i].Start?
    ensures r.needsZeroReview <==> exists i :: 0 <= i < |rs| && NeedsReview(rs[i])
  {
    hide Apple15Skips;
    var loads, zeros, writes, threads := 0, 0, 0, 0;
    var anyLoad, anyStart, anyReview := false, false, false;
    var i := 0;
    while i < |rs|
      invariant 0 <= i <= |rs|
      invariant loads == LoadBytes(rs[..i]) && zeros == ZeroBytes(rs[..i])
      invariant writes == ConfigWrites(rs[..i]) && threads == ThreadEntries(rs[..i])
      invariant anyLoad <==> exists k :: 0 <= k < i && rs[k].Load?
      invariant anyStart <==> exists k :: 0 <= k < i && rs[k].Start?
      invariant anyReview <==> exists k :: 0 <= k < i && NeedsReview(rs[k])
    {
      assert rs[..i + 1][..i] == rs[..i] && rs[..i + 1][i] == rs[i];
      match rs[i] {
        case Load(_, length) => loads, anyLoad := loads + length, true;
        case Zero(address, length) =>
          zeros := zeros + length;
          anyReview := anyReview || Apple81Skips(address) || Apple15Skips(address);
        case Start(entries) => threads, anyStart := threads + |entries|, true;
        case Config(entries) => writes := writes + |entries|;
        case Comment =>
      }
      i := i + 1;
    }
    assert rs[..|rs|] == rs;
    r := Report(rs, loads, zeros, writes, threads, anyLoad, anyStart, anyReview);
  }

  lemma OneChain(d: Data, a: seq<nat>, b: seq<nat>)
    requires Accepted(d, a) && Accepted(d, b)
    ensures a == b
  {
    ChainUnique(d, U32(d, 8), a, b);
  }

  lemma AcceptedRecords(d: Data, chain: seq<nat>)
    requires Accepted(d, chain)
    ensures forall i :: 0 <= i < |chain| ==> RecordOk(d, chain[i])
  {
  }
}
