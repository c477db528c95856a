/** A writer of LDR images, and the round trip through the reporting walker: what is written, little-endian as the tool
    unpacks it, is what is reported. tools/gpu_ldr_inspect.py:19-87, 149-215. */
module LdrImage {
  import opened Common
  import opened Ldr

  // ---- Bytes ------------------------------------------------------------------------------------------------

  function Bytes16(v: nat): (b: Data)
    requires v < 0x1_0000
    ensures |b| == 2
  {
    [v % 0x100, v / 0x100]
  }

  function Bytes32(v: nat): (b: Data)
    requires v < SPACE
    ensures |b| == 4
  {
    [v % 0x100, v / 0x100 % 0x100, v / 0x1_0000 % 0x100, v / 0x100_0000]
  }

  function Zeros(n: nat): (z: Data)
    ensures |z| == n
  {
    seq(n, i => 0)
  }

  /** The image holds these bytes at this offset. */
  predicate Has(d: Data, o: nat, x: Data) {
    o + |x| <= |d| && d[o..o + |x|] == x
  }

  lemma HasParts(d: Data, o: nat, a: Data, b: Data)
    requires Has(d, o, a + b)
    ensures Has(d, o, a) && Has(d, o + |a|, b)
  {
    assert d[o..o + |a|] == (a + b)[..|a|];
    assert d[o + |a|..o + |a| + |b|] == (a + b)[|a|..];
  }

  lemma Read16(d: Data, o: nat, v: nat)
    requires v < 0x1_0000 && Has(d, o, Bytes16(v))
    ensures U16(d, o) == v
  {
    var b := Bytes16(v);
    assert d[o] == d[o..o + 2][0] == b[0] && d[o + 1] == d[o..o + 2][1] == b[1];
  }

  lemma Digits(v: nat)
    requires v < SPACE
    ensures v % 0x100 + 0x100 * (v / 0x100 % 0x100) + 0x1_0000 * (v / 0x1_0000 % 0x100) + 0x100_0000 * (v / 0x100_0000) == v
  {
    assert v == v % 0x100 + 0x100 * (v / 0x100);
    assert v / 0x100 == v / 0x100 % 0x100 + 0x100 * (v / 0x1_0000);
    assert v / 0x1_0000 == v / 0x1_0000 % 0x100 + 0x100 * (v / 0x100_0000);
  }

  lemma BytesAt(d: Data, o: nat, b: Data)
    requires Has(d, o, b)
    ensures o + |b| <= |d| && forall i :: 0 <= i < |b| ==> d[o + i] == b[i]
  {
    forall i | 0 <= i < |b| ensures d[o + i] == b[i] {
      assert d[o..o + |b|][i] == d[o + i];
    }
  }

  lemma Read32(d: Data, o: nat, v: nat)
    requires v < SPACE && Has(d, o, Bytes32(v))
    ensures U32(d, o) == v
  {
    hide Has;
    BytesAt(d, o, Bytes32(v));
    Digits(v);
    var b := Bytes32(v);
    assert d[o + 0] == b[0] && d[o + 1] == b[1] && d[o + 2] == b[2] && d[o + 3] == b[3];
  }

  // ---- The writer -------------------------------------------------------------------------------------------

  function ThreadBytes(ts: seq<Thread>): (b: Data)
    requires forall i :: 0 <= i < |ts| ==> ThreadFits(ts[i])
    ensures |b| == 16 * |ts|
  {
    if ts == [] then []
    else
      var t := ts[0];
      assert ThreadFits(t);
      Bytes32(t.id) + (Bytes32(t.second) + (Bytes32(t.third) + (Bytes32(t.flags) + ThreadBytes(ts[1..]))))
  }

  /** Each configuration entry is command 2 with its address and value. */
  function WriteBytes(ws: seq<Write>): (b: Data)
    requires forall i :: 0 <= i < |ws| ==> WriteFits(ws[i])
    ensures |b| == 12 * |ws|
  {
    if ws == [] then []
    else
      assert WriteFits(ws[0]);
      Bytes32(2) + (Bytes32(ws[0].address) + (Bytes32(ws[0].value) + WriteBytes(ws[1..])))
  }

  predicate ThreadFits(t: Thread) {
    t.id < SPACE && t.second < SPACE && t.third < SPACE && t.flags < SPACE
  }

  predicate WriteFits(w: Write) {
    w.address < SPACE && w.value < SPACE
  }

  /** What an image can hold of a record: words of 32 bits, payloads whose length fits 16 bits, ranges that do not wrap. */
  predicate Writable(r: Record) {
    match r
    case Comment => true
    case Load(address, length) => address < SPACE && length + 6 < 0x1_0000 && address + length <= SPACE
    case Start(threads) => 16 * |threads| + 6 < 0x1_0000 && forall i :: 0 <= i < |threads| ==> ThreadFits(threads[i])
    case Zero(address, length) => address < SPACE && length < SPACE && address + length <= SPACE
    case Config(writes) => 12 * |writes| + 6 < 0x1_0000 && forall i :: 0 <= i < |writes| ==> WriteFits(writes[i])
  }

  function Content(r: Record): Data
    requires Writable(r)
  {
    match r
    case Load(_, length) => Zeros(length)
    case Start(threads) => ThreadBytes(threads)
    case Config(writes) => WriteBytes(writes)
    case _ => []
  }

  /** A payload block: two bytes, its length with everything, the content, two bytes. */
  function Payload(r: Record): Data
    requires Writable(r)
  {
    if r.Comment? || r.Zero? then []
    else Zeros(2) + (Bytes16(|Content(r)| + 6) + (Content(r) + Zeros(2)))
  }

  /** The kind and the size of the record proper. */
  function KindOf(r: Record): nat {
    match r case Comment => 16 case Load(_, _) => 0 case Start(_) => 3 case Zero(_, _) => 4 case Config(_) => 5
  }

  function HeadSize(r: Record): nat {
    match r case Comment => 8 case Load(_, _) => 20 case _ => 16
  }

  /** What follows kind, size and link in the record proper; `block` is where its payload is. */
  function Arguments(r: Record, block: nat): (b: Data)
    requires Writable(r) && block < SPACE
    ensures |b| == HeadSize(r) - 8
  {
    match r
    case Comment => []
    case Load(address, _) => Bytes32(address) + (Bytes32(block) + Zeros(4))
    case Zero(address, length) => Bytes32(address) + Bytes32(length)
    case _ => Bytes32(block) + Zeros(4)
  }

  function Size(r: Record): nat
    requires Writable(r)
  {
    HeadSize(r) + |Payload(r)|
  }

  /** A record at an offset, its payload right behind it. */
  function RecordBytes(r: Record, at: nat, next: nat): (b: Data)
    requires Writable(r) && at + HeadSize(r) < SPACE && next < SPACE
    ensures |b| == Size(r)
  {
    Bytes16(KindOf(r)) + (Bytes16(HeadSize(r)) + (Bytes32(next) + (Arguments(r, at + HeadSize(r)) + Payload(r))))
  }

  predicate AllWritable(rs: seq<Record>) {
    forall i :: 0 <= i < |rs| ==> Writable(rs[i])
  }

  function TotalSize(rs: seq<Record>): nat
    requires AllWritable(rs)
  {
    if rs == [] then 0 else Size(rs[0]) + TotalSize(rs[1..])
  }

  function Link(rs: seq<Record>, at: nat): nat {
    if rs == [] then END else at
  }

  /** The records one behind the other, each linked to the next. */
  function Body(rs: seq<Record>, at: nat): (b: Data)
    requires AllWritable(rs) && at + TotalSize(rs) < END
    ensures |b| == TotalSize(rs)
  {
    if rs == [] then []
    else
      var next := at + Size(rs[0]);
      RecordBytes(rs[0], at, Link(rs[1..], next)) + Body(rs[1..], next)
  }

  function Positions(rs: seq<Record>, at: nat): (ps: seq<nat>)
    requires AllWritable(rs)
    ensures |ps| == |rs|
  {
    if rs == [] then [] else [at] + Positions(rs[1..], at + Size(rs[0]))
  }

  /** The whole image: sixteen bytes with the offset of the first record at 8, then the records. */
  function Image(rs: seq<Record>): Data
    requires AllWritable(rs) && 16 + TotalSize(rs) < END
  {
    Zeros(8) + (Bytes32(Link(rs, 16)) + (Zeros(4) + Body(rs, 16)))
  }

  // ---- Reading it back --------------------------------------------------------------------------------------

  lemma {:induction false} ThreadsBack(d: Data, o: nat, ts: seq<Thread>, j: nat)
    requires (forall i :: 0 <= i < |ts| ==> ThreadFits(ts[i])) && Has(d, o, ThreadBytes(ts)) && j < |ts|
    ensures o + 16 * j + 16 <= |d| && ThreadAt(d, o + 16 * j) == ts[j]
    decreases |ts|
  {
    hide Bytes32, U32, Has;
    var t, rest := ts[0], ThreadBytes(ts[1..]);
    assert ThreadFits(t);
    InBounds(d, o, ThreadBytes(ts));
    HasParts(d, o, Bytes32(t.id), Bytes32(t.second) + (Bytes32(t.third) + (Bytes32(t.flags) + rest)));
    HasParts(d, o + 4, Bytes32(t.second), Bytes32(t.third) + (Bytes32(t.flags) + rest));
    HasParts(d, o + 8, Bytes32(t.third), Bytes32(t.flags) + rest);
    HasParts(d, o + 12, Bytes32(t.flags), rest);
    if j == 0 {
      Read32(d, o, t.id);
      Read32(d, o + 4, t.second);
      Read32(d, o + 8, t.third);
      Read32(d, o + 12, t.flags);
    } else {
      ThreadsBack(d, o + 16, ts[1..], j - 1);
    }
  }

  lemma {:induction false} WritesBack(d: Data, o: nat, ws: seq<Write>, j: nat)
    requires (forall i :: 0 <= i < |ws| ==> WriteFits(ws[i])) && Has(d, o, WriteBytes(ws)) && j < |ws|
    ensures o + 12 * j + 12 <= |d| && U32(d, o + 12 * j) == 2
    ensures Write(U32(d, o + 12 * j + 4), U32(d, o + 12 * j + 8)) == ws[j]
    decreases |ws|
  {
    hide Bytes32, U32, Has;
    var w, rest := ws[0], WriteBytes(ws[1..]);
    assert WriteFits(w);
    InBounds(d, o, WriteBytes(ws));
    HasParts(d, o, Bytes32(2), Bytes32(w.address) + (Bytes32(w.value) + rest));
    HasParts(d, o + 4, Bytes32(w.address), Bytes32(w.value) + rest);
    HasParts(d, o + 8, Bytes32(w.value), rest);
    if j == 0 {
      Read32(d, o, 2);
      Read32(d, o + 4, w.address);
      Read32(d, o + 8, w.value);
    } else {
      WritesBack(d, o + 12, ws[1..], j - 1);
    }
  }

  lemma InBounds(d: Data, o: nat, x: Data)
    requires Has(d, o, x)
    ensures o + |x| <= |d|
  {
  }

  /** Kind, size and link are read back, and the arguments and the payload are where they were put. */
  lemma HeadBack(d: Data, r: Record, at: nat, next: nat)
    requires Writable(r) && at + HeadSize(r) < SPACE && next < SPACE && Has(d, at, RecordBytes(r, at, next))
    ensures at + Size(r) <= |d| && U16(d, at) == KindOf(r) && U16(d, at + 2) == HeadSize(r) && U32(d, at + 4) == next
    ensures Has(d, at + 8, Arguments(r, at + HeadSize(r))) && Has(d, at + HeadSize(r), Payload(r))
  {
    hide Bytes16, Bytes32, U16, U32, Has, Arguments, Payload;
    var args, payload := Arguments(r, at + HeadSize(r)), Payload(r);
    InBounds(d, at, RecordBytes(r, at, next));
    HasParts(d, at, Bytes16(KindOf(r)), Bytes16(HeadSize(r)) + (Bytes32(next) + (args + payload)));
    HasParts(d, at + 2, Bytes16(HeadSize(r)), Bytes32(next) + (args + payload));
    HasParts(d, at + 4, Bytes32(next), args + payload);
    HasParts(d, at + 8, args, payload);
    Read16(d, at, KindOf(r));
    Read16(d, at + 2, HeadSize(r));
    Read32(d, at + 4, next);
  }

  /** A payload block is read back: its size, and its content behind the first four bytes. */
  lemma BlockBack(d: Data, r: Record, b: nat)
    requires Writable(r) && !r.Comment? && !r.Zero? && Has(d, b, Payload(r))
    ensures BlockIn(d, b) && BlockSize(d, b) == |Content(r)| && Has(d, b + 4, Content(r))
  {
    var content := Content(r);
    assert |content| + 6 < 0x1_0000;
    hide Bytes16, U16, Has, Content;
    InBounds(d, b, Payload(r));
    HasParts(d, b, Zeros(2), Bytes16(|content| + 6) + (content + Zeros(2)));
    HasParts(d, b + 2, Bytes16(|content| + 6), content + Zeros(2));
    HasParts(d, b + 4, content, Zeros(2));
    Read16(d, b + 2, |content| + 6);
  }

  lemma FirstArgument(d: Data, o: nat, v: nat, rest: Data)
    requires v < SPACE && Has(d, o, Bytes32(v) + rest)
    ensures U32(d, o) == v && Has(d, o + 4, rest)
  {
    hide Bytes32, U32, Has;
    HasParts(d, o, Bytes32(v), rest);
    Read32(d, o, v);
  }

  lemma ThreadsAtBack(d: Data, b: nat, threads: seq<Thread>)
    requires Writable(Start(threads)) && BlockIn(d, b) && BlockSize(d, b) == 16 * |threads| && Has(d, b + 4, ThreadBytes(threads))
    ensures ThreadsAt(d, b) == threads
  {
    hide BlockIn, BlockSize, ThreadAt, ThreadBytes, Has;
    assert BlockSize(d, b) / 16 == |threads| && BlockSize(d, b) % 16 == 0;
    forall j | 0 <= j < |threads| ensures b + 4 + 16 * j + 16 <= |d| && ThreadAt(d, b + 4 + 16 * j) == threads[j] {
      ThreadsBack(d, b + 4, threads, j);
    }
  }

  lemma WritesAtBack(d: Data, b: nat, writes: seq<Write>)
    requires Writable(Config(writes)) && BlockIn(d, b) && BlockSize(d, b) == 12 * |writes| && Has(d, b + 4, WriteBytes(writes))
    ensures WritesAt(d, b) == writes
    ensures forall j :: 0 <= j < |writes| ==> b + 4 + 12 * j + 4 <= |d| && U32(d, b + 4 + 12 * j) == 2
  {
    hide BlockIn, BlockSize, U32, WriteBytes, Has;
    assert BlockSize(d, b) / 12 == |writes| && BlockSize(d, b) % 12 == 0;
    forall j | 0 <= j < |writes|
      ensures b + 4 + 12 * j + 12 <= |d| && U32(d, b + 4 + 12 * j) == 2
      ensures Write(U32(d, b + 4 + 12 * j + 4), U32(d, b + 4 + 12 * j + 8)) == writes[j]
    {
      WritesBack(d, b + 4, writes, j);
    }
  }

  /** Every written record is accepted by the checking walker and reported as itself. */
  lemma RecordBack(d: Data, r: Record, at: nat, next: nat)
    requires Writable(r) && at + HeadSize(r) < SPACE && next < SPACE && Has(d, at, RecordBytes(r, at, next))
    ensures RecordOk(d, at) && RecordAt(d, at) == r && U32(d, at + 4) == next
  {
    hide Bytes32, U32, U16, Has, RecordBytes, ThreadsAt, WritesAt, ThreadBytes, WriteBytes, Payload, BlockIn, BlockSize;
    var block := at + HeadSize(r);
    HeadBack(d, r, at, next);
    match r
    case Comment =>
    case Zero(address, length) =>
      FirstArgument(d, at + 8, address, Bytes32(length));
      assert Bytes32(length) + [] == Bytes32(length);
      FirstArgument(d, at + 12, length, []);
    case Load(address, length) =>
      FirstArgument(d, at + 8, address, Bytes32(block) + Zeros(4));
      FirstArgument(d, at + 12, block, Zeros(4));
      BlockBack(d, r, block);
    case Start(threads) =>
      FirstArgument(d, at + 8, block, Zeros(4));
      BlockBack(d, r, block);
      ThreadsAtBack(d, block, threads);
    case Config(writes) =>
      FirstArgument(d, at + 8, block, Zeros(4));
      BlockBack(d, r, block);
      WritesAtBack(d, block, writes);
  }

  lemma {:induction false} BodyBack(d: Data, rs: seq<Record>, at: nat)
    requires AllWritable(rs) && at + TotalSize(rs) < END && Has(d, at, Body(rs, at))
    ensures var ps := Positions(rs, at);
            && IsChain(d, Link(rs, at), ps)
            && forall i :: 0 <= i < |rs| ==> RecordOk(d, ps[i]) && RecordAt(d, ps[i]) == rs[i]
    decreases |rs|
  {
    hide RecordOk, RecordAt, RecordBytes, Has, Writable, Size, U32;
    if rs != [] {
      HeadFits(rs[0]);
      var next := at + Size(rs[0]);
      var link := Link(rs[1..], next);
      HasParts(d, at, RecordBytes(rs[0], at, link), Body(rs[1..], next));
      RecordBack(d, rs[0], at, link);
      RoomBehind(d, at);
      BodyBack(d, rs[1..], next);
      assert Positions(rs, at)[1..] == Positions(rs[1..], next);
    }
  }

  lemma HeadFits(r: Record)
    requires Writable(r)
    ensures 8 <= HeadSize(r) <= Size(r)
  {
  }

  lemma RoomBehind(d: Data, p: nat)
    requires RecordOk(d, p)
    ensures p + 8 <= |d|
  {
  }

  /** An image written from at most 65536 records is accepted with its records in order, addresses, lengths, thread words
      and write pairs included. */
  lemma ImageBack(rs: seq<Record>)
    requires AllWritable(rs) && 16 + TotalSize(rs) < END && |rs| <= MAX_RECORDS
    ensures Accepted(Image(rs), Positions(rs, 16)) && RecordsOf(Image(rs), Positions(rs, 16)) == rs
  {
    hide RecordOk, RecordAt, Image;
    BodyOfImage(rs);
    BodyBack(Image(rs), rs, 16);
    hide IsChain, U32;
  }

  lemma BodyOfImage(rs: seq<Record>)
    requires AllWritable(rs) && 16 + TotalSize(rs) < END
    ensures var d := Image(rs); |d| >= 16 && U32(d, 8) == Link(rs, 16) && Has(d, 16, Body(rs, 16))
  {
    hide Bytes32, U32, Body, Writable, Has;
    var d := Image(rs);
    HasAll(d);
    HasParts(d, 0, Zeros(8), Bytes32(Link(rs, 16)) + (Zeros(4) + Body(rs, 16)));
    HasParts(d, 8, Bytes32(Link(rs, 16)), Zeros(4) + Body(rs, 16));
    HasParts(d, 12, Zeros(4), Body(rs, 16));
    Read32(d, 8, Link(rs, 16));
  }

  lemma HasAll(d: Data)
    ensures Has(d, 0, d)
  {
  }

  /** The report of a written image is what was written. */
  method ReportBack(rs: seq<Record>) returns (r: Result<Report>)
    requires AllWritable(rs) && 16 + TotalSize(rs) < END && |rs| <= MAX_RECORDS
    ensures r.Ok? && r.value.records == rs
    ensures r.value.loadBytes == LoadBytes(rs) && r.value.zeroBytes == ZeroBytes(rs)
    ensures r.value.configWrites == ConfigWrites(rs) && r.value.threadEntries == ThreadEntries(rs)
  {
    hide Accepted, RecordsOf, Total, Image, AllWritable;
    ImageBack(rs);
    var chain := Positions(rs, 16);
    AcceptedRecords(Image(rs), chain);
    assert Accepted(Image(rs), chain);
    assert WellFormed(Image(rs));
    r := HostReport(Image(rs));
    SameTotals(Image(rs), chain);
  }

  /** The image of a single comment record, byte by byte. */
  lemma OneComment()
    ensures Image([Comment]) == [0, 0, 0, 0, 0, 0, 0, 0, 0x10, 0, 0, 0, 0, 0, 0, 0,
                                 0x10, 0, 8, 0, 0xff, 0xff, 0xff, 0xff]
  {
    assert [Comment][1..] == [];
  }
}
