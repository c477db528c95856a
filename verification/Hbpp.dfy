/** Apple HBPP data packets and N1 command frames: the builder, the parser, the slicer, the capture analyser, and
    the frames the diagnostic sends. boot/touch_fw_rebuild.py:19-75, boot/analyze_touch_capture.py:23-36, 96-140,
    boot/touch-diag.c:631-649, 754-804, 884-889. */
module Hbpp {
  import opened Common

  const SPACE := 0x1_0000_0000

  function Sum(s: Data): nat {
    if s == [] then 0 else Sum(s[..|s| - 1]) + s[|s| - 1] as int
  }

  lemma {:induction false} SumBound(s: Data)
    ensures Sum(s) <= 255 * |s|
  {
    if s != [] {
      SumBound(s[..|s| - 1]);
    }
  }

  function Be16(s: Data): (v: nat)
    requires |s| == 2
    ensures v < 0x1_0000
  {
    0x100 * s[0] as int + s[1] as int
  }

  function ToBe16(v: nat): (s: Data)
    requires v < 0x1_0000
    ensures |s| == 2 && Be16(s) == v
  {
    [v / 0x100, v % 0x100]
  }

  lemma ToBe16OfBe16(s: Data)
    requires |s| == 2
    ensures ToBe16(Be16(s)) == s
  {
  }

  function Be32(s: Data): (v: nat)
    requires |s| == 4
    ensures v < SPACE
  {
    0x1_0000 * Be16(s[..2]) + Be16(s[2..])
  }

  function ToBe32(v: nat): (s: Data)
    requires v < SPACE
    ensures |s| == 4
  {
    ToBe16(v / 0x1_0000) + ToBe16(v % 0x1_0000)
  }

  lemma Be32Inverts(v: nat, s: Data)
    requires v < SPACE && |s| == 4
    ensures Be32(ToBe32(v)) == v && ToBe32(Be32(s)) == s
  {
    var t := ToBe32(v);
    assert t[..2] == ToBe16(v / 0x1_0000) && t[2..] == ToBe16(v % 0x1_0000);
    ToBe16OfBe16(s[..2]);
    ToBe16OfBe16(s[2..]);
    assert Be32(s) / 0x1_0000 == Be16(s[..2]) && Be32(s) % 0x1_0000 == Be16(s[2..]);
    assert s == s[..2] + s[2..];
  }

  function SwapHalves(v: nat): (r: nat)
    requires v < SPACE
    ensures r < SPACE
  {
    v % 0x1_0000 * 0x1_0000 + v / 0x1_0000
  }

  /** Swapping the halves twice is the identity. */
  lemma SwapSwap(v: nat)
    requires v < SPACE
    ensures SwapHalves(SwapHalves(v)) == v
  {
    var r := SwapHalves(v);
    assert r % 0x1_0000 == v / 0x1_0000 && r / 0x1_0000 == v % 0x1_0000;
  }

  function AddrBytes(addr: nat): Data
    requires addr < SPACE
  {
    ToBe32(SwapHalves(addr))
  }

  // ---- Data packets -----------------------------------------------------------------------------------------

  const MAX_PAYLOAD := 0xfff0

  function Prefix(): Data {
    [0x18, 0xe1, 0x30, 0x01]
  }

  function Body(payload: Data, addr: nat): (s: Data)
    requires |payload| <= MAX_PAYLOAD && addr < SPACE
    ensures |s| == 6
  {
    ToBe16(|payload| / 4) + AddrBytes(addr)
  }

  function Trailer(payload: Data): (s: Data)
    ensures |s| == 4
  {
    ToBe32(SwapHalves(Sum(payload) % SPACE))
  }

  function Packet(payload: Data, addr: nat): Data
    requires |payload| <= MAX_PAYLOAD && addr < SPACE
  {
    Prefix() + Body(payload, addr) + ToBe16(Sum(Body(payload, addr)) % 0x1_0000) + payload + Trailer(payload)
  }

  /** `build` */
  function Build(payload: Data, addr: nat): Result<Data>
    requires addr < SPACE
  {
    if |payload| % 4 != 0 || payload == [] || |payload| > MAX_PAYLOAD then Err else Ok(Packet(payload, addr))
  }

  /** `parse` */
  function Parse(p: Data): Result<(Data, nat)> {
    if |p| < 16 || p[..4] != Prefix() then Err
    else if |p| != Be16(p[4..6]) * 4 + 16 then Err
    else if Be16(p[10..12]) != Sum(p[4..10]) % 0x1_0000 then Err
    else
      var payload := p[12..|p| - 4];
      if p[|p| - 4..] != Trailer(payload) then Err else Ok((payload, SwapHalves(Be32(p[6..10]))))
  }

  predicate Sized(payload: Data) {
    4 <= |payload| <= MAX_PAYLOAD && |payload| % 4 == 0
  }

  lemma PacketParts(payload: Data, addr: nat)
    requires |payload| <= MAX_PAYLOAD && addr < SPACE
    ensures var p, body := Packet(payload, addr), Body(payload, addr);
            && |p| == |payload| + 16 && p[..4] == Prefix() && p[4..10] == body
            && p[10..12] == ToBe16(Sum(body) % 0x1_0000) && p[12..|p| - 4] == payload && p[|p| - 4..] == Trailer(payload)
            && p[4..6] == ToBe16(|payload| / 4) && p[6..10] == AddrBytes(addr)
  {
    hide Sum, ToBe16, ToBe32, SwapHalves, Trailer;
    var p, body := Packet(payload, addr), Body(payload, addr);
    assert p[4..10] == body;
    assert p[4..6] == body[..2] && p[6..10] == body[2..];
  }

  /** A built packet parses to what it was built from. */
  lemma ParseBuild(payload: Data, addr: nat)
    requires Sized(payload) && addr < SPACE
    ensures Parse(Packet(payload, addr)) == Ok((payload, addr))
  {
    hide Sum, Packet, Body, Trailer;
    var p := Packet(payload, addr);
    PacketParts(payload, addr);
    Be32Inverts(SwapHalves(addr), p[6..10]);
    SwapSwap(addr);
    hide ToBe16, ToBe32, Be32, SwapHalves;
  }

  /** A packet that parses to a payload within the limits is exactly what building it gives, so the self-check
      of `rebuild` never fails there. */
  lemma BuildParse(p: Data)
    requires Parse(p).Ok? && Sized(Parse(p).value.0)
    ensures Build(Parse(p).value.0, Parse(p).value.1) == Ok(p)
  {
    hide Sum, Trailer, ToBe16, ToBe32, Be32, SwapHalves, Prefix;
    var payload, addr := Parse(p).value.0, Parse(p).value.1;
    SwapSwap(Be32(p[6..10]));
    Be32Inverts(0, p[6..10]);
    ToBe16OfBe16(p[4..6]);
    ToBe16OfBe16(p[10..12]);
    assert Be16(p[4..6]) == |payload| / 4;
    assert p[4..10] == p[4..6] + p[6..10] == Body(payload, addr);
    assert p == p[..4] + p[4..10] + p[10..12] + p[12..|p| - 4] + p[|p| - 4..];
  }

  // ---- Slicing ----------------------------------------------------------------------------------------------

  /** `rebuild`, for addresses that stay below 2^32. */
  function Rebuild(p: Data, size: nat, offset: nat): Result<Data>
    requires Parse(p).Ok? ==> Parse(p).value.1 + offset < SPACE
  {
    match Parse(p)
    case Err => Err
    case Ok((payload, addr)) =>
      if Build(payload, addr) != Ok(p) then Err
      else if size % 4 != 0 || offset % 4 != 0 || offset + size > |payload| then Err
      else Build(payload[offset..offset + size], addr + offset)
  }

  /** On a packet with a payload within the limits, rebuilding succeeds exactly for nonempty word-aligned slices
      inside the payload, and gives the packet of the slice. */
  lemma RebuildIs(payload: Data, addr: nat, size: nat, offset: nat)
    requires Sized(payload) && addr + offset < SPACE
    ensures Parse(Packet(payload, addr)) == Ok((payload, addr))
    ensures var r := Rebuild(Packet(payload, addr), size, offset);
            if size > 0 && size % 4 == 0 && offset % 4 == 0 && offset + size <= |payload|
            then r == Ok(Packet(payload[offset..offset + size], addr + offset))
            else r == Err
  {
    hide Parse, Packet;
    ParseBuild(payload, addr);
    BuildParse(Packet(payload, addr));
  }

  /** A slice of a slice is one slice at the summed offset. */
  lemma RebuildComposes(payload: Data, addr: nat, size: nat, offset: nat, size2: nat, offset2: nat)
    requires Sized(payload) && addr + |payload| <= SPACE
    requires 0 < size && size % 4 == 0 && offset % 4 == 0 && offset + size <= |payload|
    requires offset2 + size2 <= size
    ensures var p := Packet(payload, addr);
            && Parse(p) == Ok((payload, addr))
            && Rebuild(p, size, offset).Ok?
            && Parse(Rebuild(p, size, offset).value) == Ok((payload[offset..offset + size], addr + offset))
            && (addr + offset + offset2 < SPACE ==>
                  Rebuild(Rebuild(p, size, offset).value, size2, offset2) == Rebuild(p, size2, offset + offset2))
  {
    hide Parse, Packet, Rebuild;
    RebuildIs(payload, addr, size, offset);
    var slice := payload[offset..offset + size];
    ParseBuild(slice, addr + offset);
    if addr + offset + offset2 < SPACE {
      RebuildIs(slice, addr + offset, size2, offset2);
      RebuildIs(payload, addr, size2, offset + offset2);
      SliceOfSlice(payload, offset, size, offset2, size2);
      AlignedSum(offset, offset2);
    }
  }

  lemma SliceOfSlice(s: Data, offset: nat, size: nat, offset2: nat, size2: nat)
    requires offset + size <= |s| && offset2 + size2 <= size
    ensures s[offset..offset + size][offset2..offset2 + size2] == s[offset + offset2..offset + offset2 + size2]
  {
    var a, b := s[offset..offset + size][offset2..offset2 + size2], s[offset + offset2..offset + offset2 + size2];
    assert |a| == |b| && forall i :: 0 <= i < |a| ==> a[i] == b[i];
  }

  lemma AlignedSum(a: nat, b: nat)
    requires a % 4 == 0
    ensures (a + b) % 4 == 0 <==> b % 4 == 0
  {
  }

  type Memory = map<nat, Byte>

  /** The controller stores a packet's payload at its address. */
  function Store(m: Memory, addr: nat, payload: Data): Memory
    decreases |payload|
  {
    if payload == [] then m else Store(m[addr := payload[0]], addr + 1, payload[1..])
  }

  function LoadPacket(m: Memory, p: Data): Memory {
    match Parse(p)
    case Err => m
    case Ok((payload, addr)) => Store(m, addr, payload)
  }

  /** Sends the slices of the given sizes one after the other, from `offset` on. */
  function LoadSlices(m: Memory, p: Data, sizes: seq<nat>, offset: nat): Memory
    requires Parse(p).Ok? && Parse(p).value.1 + |Parse(p).value.0| <= SPACE
    decreases |sizes|
  {
    if sizes == [] then m
    else if Parse(p).value.1 + offset >= SPACE then m
    else
      var r := Rebuild(p, sizes[0], offset);
      LoadSlices(if r.Ok? then LoadPacket(m, r.value) else m, p, sizes[1..], offset + sizes[0])
  }

  function Total(sizes: seq<nat>): nat {
    if sizes == [] then 0 else sizes[0] + Total(sizes[1..])
  }

  lemma {:induction false} StoreSplit(m: Memory, addr: nat, a: Data, b: Data)
    ensures Store(m, addr, a + b) == Store(Store(m, addr, a), addr + |a|, b)
    decreases |a|
  {
    if a == [] {
      assert a + b == b;
    } else {
      StoreSplit(m[addr := a[0]], addr + 1, a[1..], b);
      assert (a + b)[1..] == a[1..] + b;
    }
  }

  lemma {:induction false} SlicesStore(m: Memory, payload: Data, addr: nat, sizes: seq<nat>, offset: nat)
    requires Sized(payload) && addr + |payload| <= SPACE
    requires forall i :: 0 <= i < |sizes| ==> sizes[i] > 0 && sizes[i] % 4 == 0
    requires offset % 4 == 0 && offset + Total(sizes) == |payload|
    requires Parse(Packet(payload, addr)) == Ok((payload, addr))
    ensures LoadSlices(m, Packet(payload, addr), sizes, offset) == Store(m, addr + offset, payload[offset..])
    decreases |sizes|
  {
    hide Parse, Packet, Rebuild, Store;
    if sizes == [] {
      NothingStored(m, addr + offset, payload[offset..]);
    } else {
      var n := sizes[0];
      RebuildIs(payload, addr, n, offset);
      var slice, rest := payload[offset..offset + n], payload[offset + n..];
      ParseBuild(slice, addr + offset);
      var m1 := Store(m, addr + offset, slice);
      AlignedSum(offset, n);
      SlicesStore(m1, payload, addr, sizes[1..], offset + n);
      assert payload[offset..] == slice + rest;
      StoreSplit(m, addr + offset, slice, rest);
    }
  }

  lemma NothingStored(m: Memory, addr: nat, payload: Data)
    requires payload == []
    ensures Store(m, addr, payload) == m
  {
  }

  /** Loading any partition of a packet into consecutive slices writes the same memory as the whole packet. */
  lemma PartitionLoads(m: Memory, payload: Data, addr: nat, sizes: seq<nat>)
    requires Sized(payload) && addr + |payload| <= SPACE
    requires forall i :: 0 <= i < |sizes| ==> sizes[i] > 0 && sizes[i] % 4 == 0
    requires Total(sizes) == |payload|
    ensures Parse(Packet(payload, addr)) == Ok((payload, addr))
    ensures LoadSlices(m, Packet(payload, addr), sizes, 0) == LoadPacket(m, Packet(payload, addr))
  {
    hide Parse, Packet, Rebuild;
    ParseBuild(payload, addr);
    SlicesStore(m, payload, addr, sizes, 0);
    assert payload[0..] == payload;
  }

  // ---- The capture analyser ---------------------------------------------------------------------------------

  datatype Reading =
    | AckQuery
    | ReadRequest(checksum: bool)
    | WriteRequest(checksum: bool)
    | ExecuteRequest(checksum: bool, tail: bool)
    | CalibrationRequest
    | WakeCommand
    | LongQuery
    | Truncated
    | OutsideCountDomain
    | LengthMismatch
    | MatchesLegacyLayout
    | ChecksumMismatch
    | Opaque18e1
    | Opaque

  function WakeFrame(): Data {
    [0xee, 0, 0, 0, 0, 0, 0, 0, 0, 0, 0, 0, 0, 0, 0xee, 0]
  }

  /** `summarize`, on the transmitted bytes. */
  function Summarize(tx: Data): Reading {
    if tx == [0x1a, 0xa1] then AckQuery
    else if |tx| == 8 && tx[..2] == [0x1c, 0x73] then ReadRequest(Be16(tx[6..]) == Sum(tx[2..6]))
    else if |tx| == 16 && tx[..2] == [0x1e, 0x33] then WriteRequest(Be16(tx[14..]) == Sum(tx[2..14]))
    else if |tx| == 12 && tx[..2] == [0x1d, 0x53] then
      ExecuteRequest(Be16(tx[10..]) == Sum(tx[2..10]), tx[6..10] == [0x00, 0x01, 0x00, 0x00])
    else if tx == [0x1f, 0x01] then CalibrationRequest
    else if tx == WakeFrame() then WakeCommand
    else if tx == [0x1a, 0xa1, 0x18, 0xe1, 0x18, 0xe1, 0x18, 0xe1] then LongQuery
    else if |tx| >= 4 && tx[..4] == Prefix() then
      if |tx| < 16 then Truncated
      else if tx[4] != 0 || !(1 <= tx[5] <= 252) then OutsideCountDomain
      else if |tx| != tx[5] as int * 4 + 16 then LengthMismatch
      else
        var checksum := Be16(tx[|tx| - 4..|tx| - 2]) + Be16(tx[|tx| - 2..]) * 0x1_0000;
        if Be16(tx[10..12]) == Sum(tx[4..10]) && checksum == Sum(tx[12..|tx| - 4]) then MatchesLegacyLayout else ChecksumMismatch
    else if |tx| >= 2 && tx[..2] == [0x18, 0xe1] then Opaque18e1
    else Opaque
  }

  predicate HasPrefix(tx: Data) {
    |tx| >= 4 && tx[..4] == Prefix()
  }

  /** A transfer with the data prefix is judged by the data branch. */
  lemma DataBranch(tx: Data)
    requires HasPrefix(tx)
    ensures tx[0] == 0x18 && tx[1] == 0xe1
    ensures Summarize(tx) in {Truncated, OutsideCountDomain, LengthMismatch, MatchesLegacyLayout, ChecksumMismatch}
  {
    hide Sum, Be16;
    assert tx[0] == tx[..4][0] && tx[1] == tx[..4][1];
    assert |tx| >= 2 ==> tx[..2][0] == tx[0];
    assert WakeFrame()[0] == 0xee;
  }

  lemma SmallSums(tx: Data)
    requires |tx| >= 16 && |tx| <= 252 * 4 + 16
    ensures Sum(tx[4..10]) < 0x1_0000 && Sum(tx[12..|tx| - 4]) < SPACE
  {
    SumBound(tx[4..10]);
    SumBound(tx[12..|tx| - 4]);
  }

  /** The trailer holds the sum's low half first. */
  lemma TrailerIs(t: Data, sum: nat)
    requires |t| == 4 && sum < SPACE
    ensures t == ToBe32(SwapHalves(sum)) <==> Be16(t[..2]) + Be16(t[2..]) * 0x1_0000 == sum
  {
    var v := SwapHalves(sum);
    Be32Inverts(v, t);
    SwapSwap(sum);
    assert Be32(t) == 0x1_0000 * Be16(t[..2]) + Be16(t[2..]);
    assert SwapHalves(Be32(t)) == Be16(t[2..]) * 0x1_0000 + Be16(t[..2]) by {
      var b := Be32(t);
      assert b % 0x1_0000 == Be16(t[2..]) && b / 0x1_0000 == Be16(t[..2]);
    }
    SwapSwap(Be32(t));
  }

  predicate ReviewedCount(tx: Data) {
    |tx| >= 6 && 1 <= Be16(tx[4..6]) <= 252
  }

  /** The two decoders agree: the analyser finds a matching layout exactly when the parser accepts the packet and
      its word count is 1 to 252. */
  lemma DecodersAgree(tx: Data)
    ensures Summarize(tx) == MatchesLegacyLayout <==> Parse(tx).Ok? && ReviewedCount(tx)
  {
    hide Sum, ToBe32, SwapHalves, WakeFrame;
    if HasPrefix(tx) {
      DataBranch(tx);
      if |tx| >= 16 {
        assert Be16(tx[4..6]) == 0x100 * tx[4] as int + tx[5] as int;
        if ReviewedCount(tx) && |tx| == Be16(tx[4..6]) * 4 + 16 {
          SmallSums(tx);
          var t := tx[|tx| - 4..];
          TrailerIs(t, Sum(tx[12..|tx| - 4]));
          assert t[..2] == tx[|tx| - 4..|tx| - 2] && t[2..] == tx[|tx| - 2..];
        }
      }
    }
  }

  // ---- N1 frames --------------------------------------------------------------------------------------------

  /** `n1_put32`: two big-endian halves, low half first. */
  function Put32(v: nat): Data
    requires v < SPACE
  {
    [v / 0x100 % 0x100, v % 0x100, v / 0x100_0000, v / 0x1_0000 % 0x100]
  }

  /** The diagnostic and the packet builder write addresses alike. */
  lemma Put32IsAddrBytes(v: nat)
    requires v < SPACE
    ensures Put32(v) == AddrBytes(v)
  {
    var r := SwapHalves(v);
    assert r / 0x1_0000 == v % 0x1_0000 && r % 0x1_0000 == v / 0x1_0000;
    assert v % 0x1_0000 / 0x100 == v / 0x100 % 0x100 && v % 0x1_0000 % 0x100 == v % 0x100;
    assert v / 0x1_0000 / 0x100 == v / 0x100_0000;
  }

  /** `n1_sum`, with its 16-bit accumulator. */
  method SumFrame(s: Data) returns (r: nat)
    ensures r == Sum(s) % 0x1_0000
  {
    r := 0;
    var i := 0;
    while i < |s|
      invariant 0 <= i <= |s| && r == Sum(s[..i]) % 0x1_0000
    {
      assert s[..i + 1][..i] == s[..i];
      r := (r + s[i] as int) % 0x1_0000;
      i := i + 1;
    }
    assert s[..|s|] == s;
  }

  /** An opcode, its operands and the 16-bit byte sum of the operands. */
  function Frame(opcode: Data, operands: Data): Data {
    opcode + operands + ToBe16(Sum(operands) % 0x1_0000)
  }

  /** The frame as the diagnostic fills it in, in place. */
  method FillFrame(tx: array<Byte>, opcode: Data, operands: Data)
    requires |opcode| == 2 && tx.Length == |operands| + 4
    modifies tx
    ensures tx[..] == Frame(opcode, operands)
  {
    hide Sum;
    tx[0], tx[1] := opcode[0], opcode[1];
    var i := 0;
    while i < |operands|
      invariant 0 <= i <= |operands| && tx[0] == opcode[0] && tx[1] == opcode[1]
      invariant forall k :: 0 <= k < i ==> tx[2 + k] == operands[k]
    {
      tx[2 + i] := operands[i];
      i := i + 1;
    }
    var s := SumFrame(operands);
    tx[tx.Length - 2] := s / 0x100;
    tx[tx.Length - 1] := s % 0x100;
    assert tx[..] == opcode + operands + [s / 0x100, s % 0x100];
  }

  function ReadFrame(addr: nat): Data
    requires addr < SPACE
  {
    Frame([0x1c, 0x73], Put32(addr))
  }

  function WriteFrame(addr: nat, value: nat): Data
    requires addr < SPACE && value < SPACE
  {
    Frame([0x1e, 0x33], Put32(addr) + Put32(0xffff_ffff) + Put32(value))
  }

  function ExecuteFrame(addr: nat): Data
    requires addr < SPACE
  {
    Frame([0x1d, 0x53], Put32(addr) + [0x00, 0x01, 0x00, 0x00])
  }

  lemma FrameParts(opcode: Data, operands: Data)
    requires |opcode| == 2 && |operands| <= 14
    ensures var f, n := Frame(opcode, operands), |operands|;
            && |f| == n + 4 && f[..2] == opcode && f[2..n + 2] == operands
            && Be16(f[n + 2..]) == Sum(operands)
  {
    SumBound(operands);
    hide Sum;
    var f, n := Frame(opcode, operands), |operands|;
    assert f[n + 2..] == ToBe16(Sum(operands) % 0x1_0000);
  }

  /** Every frame the diagnostic builds is classified as what it is, with a matching checksum. */
  lemma FramesClassified(addr: nat, value: nat)
    requires addr < SPACE && value < SPACE
    ensures Summarize(ReadFrame(addr)) == ReadRequest(true)
    ensures Summarize(WriteFrame(addr, value)) == WriteRequest(true)
    ensures Summarize(ExecuteFrame(addr)) == ExecuteRequest(true, true)
  {
    hide Sum, Frame, Be16, WakeFrame;
    FrameParts([0x1c, 0x73], Put32(addr));
    FrameParts([0x1e, 0x33], Put32(addr) + Put32(0xffff_ffff) + Put32(value));
    var operands := Put32(addr) + [0x00, 0x01, 0x00, 0x00];
    FrameParts([0x1d, 0x53], operands);
    var f := ExecuteFrame(addr);
    assert f[6..10] == f[2..10][4..8];
    assert operands[4..8] == [0x00, 0x01, 0x00, 0x00];
  }

  /** A value as `n1_read_reg` takes it out of a reply: two big-endian halves, low half first. */
  function Get32(b: Data): nat
    requires |b| == 4
  {
    Be16(b[..2]) + Be16(b[2..]) * 0x1_0000
  }

  /** Such a value written is read back. */
  lemma GetPut(v: nat)
    requires v < SPACE
    ensures Get32(Put32(v)) == v
  {
    var b := Put32(v);
    assert b[..2] == [v / 0x100 % 0x100, v % 0x100] && b[2..] == [v / 0x100_0000, v / 0x1_0000 % 0x100];
    assert Be16(b[..2]) == v % 0x1_0000;
    assert Be16(b[2..]) == v / 0x1_0000;
  }

  /** Where the frames carry what: the address behind the opcode in all three, then in a write the full mask and the
      value, in this order. */
  lemma FramesCarry(addr: nat, value: nat)
    requires addr < SPACE && value < SPACE
    ensures var r, w, x := ReadFrame(addr), WriteFrame(addr, value), ExecuteFrame(addr);
            && |r| == 8 && r[..2] == [0x1c, 0x73] && Get32(r[2..6]) == addr
            && |w| == 16 && w[..2] == [0x1e, 0x33] && Get32(w[2..6]) == addr && Get32(w[6..10]) == 0xffff_ffff
            && Get32(w[10..14]) == value
            && |x| == 12 && x[..2] == [0x1d, 0x53] && Get32(x[2..6]) == addr
  {
    hide Sum, Frame, Be16, Get32, Put32;
    GetPut(addr);
    GetPut(value);
    GetPut(0xffff_ffff);
    PutSize(addr);
    PutSize(value);
    PutSize(0xffff_ffff);
    var a, m, v := Put32(addr), Put32(0xffff_ffff), Put32(value);
    FrameParts([0x1c, 0x73], a);
    FrameParts([0x1e, 0x33], a + m + v);
    FrameParts([0x1d, 0x53], a + [0x00, 0x01, 0x00, 0x00]);
    var w, x := WriteFrame(addr, value), ExecuteFrame(addr);
    Thirds(w, a, m, v);
    assert x[2..6] == x[2..10][..4] == a;
  }

  lemma Thirds(w: Data, a: Data, m: Data, v: Data)
    requires |w| == 16 && |a| == |m| == |v| == 4 && w[2..14] == a + m + v
    ensures w[2..6] == a && w[6..10] == m && w[10..14] == v
  {
    var s := w[2..14];
    assert w[2..6] == s[..4] && w[6..10] == s[4..8] && w[10..14] == s[8..12];
  }

  lemma PutSize(v: nat)
    requires v < SPACE
    ensures |Put32(v)| == 4
  {
  }

  // ---- The chunked upload -----------------------------------------------------------------------------------

  function Concat(parts: seq<Data>): Data {
    if parts == [] then [] else Concat(parts[..|parts| - 1]) + parts[|parts| - 1]
  }

  /** The transfers of a chunked upload: the byte stream is unchanged, and every transfer but the last has the
      chunk size. */
  method ChunkTransfers(fw: Data, chunk: nat) returns (parts: seq<Data>)
    requires 0 < chunk < |fw|
    ensures Concat(parts) == fw
    ensures |parts| == (|fw| + chunk - 1) / chunk
    ensures forall i :: 0 <= i < |parts| ==> 0 < |parts[i]| <= chunk && (i < |parts| - 1 ==> |parts[i]| == chunk)
  {
    var fn := |fw|;
    var nx := (fn + chunk - 1) / chunk;
    CeilBounds(fn, chunk);
    parts := [];
    var i := 0;
    while i < nx
      invariant 0 <= i <= nx && |parts| == i
      invariant i * chunk <= fn + chunk - 1 && (i < nx ==> i * chunk < fn)
      invariant Concat(parts) == fw[..if i * chunk < fn then i * chunk else fn]
      invariant forall k :: 0 <= k < i ==> 0 < |parts[k]| <= chunk && (k < nx - 1 ==> |parts[k]| == chunk)
    {
      var off := i * chunk;
      var len := if fn - off < chunk then fn - off else chunk;
      StepBounds(fn, chunk, nx, i);
      var part := fw[off..off + len];
      assert (parts + [part])[..|parts|] == parts;
      assert fw[..off] + part == fw[..off + len];
      parts := parts + [part];
      i := i + 1;
    }
    assert fw[..fn] == fw;
  }

  lemma CeilBounds(fn: nat, chunk: nat)
    requires 0 < chunk < fn
    ensures var nx := (fn + chunk - 1) / chunk; nx >= 1 && (nx - 1) * chunk < fn <= nx * chunk
  {
    var nx := (fn + chunk - 1) / chunk;
    assert fn + chunk - 1 == chunk * nx + (fn + chunk - 1) % chunk;
    assert (nx - 1) * chunk == chunk * nx - chunk;
  }

  lemma StepBounds(fn: nat, chunk: nat, nx: nat, i: nat)
    requires 0 < chunk < fn && i < nx && (nx - 1) * chunk < fn <= nx * chunk
    ensures (i + 1) * chunk == i * chunk + chunk
    ensures i * chunk < fn
    ensures i + 1 < nx ==> (i + 1) * chunk < fn
    ensures i + 1 == nx ==> (i + 1) * chunk >= fn
  {
    MulOrder(i, nx - 1, chunk);
    if i + 1 < nx {
      MulOrder(i + 1, nx - 1, chunk);
    }
  }

  lemma MulOrder(a: nat, b: nat, c: nat)
    requires a <= b
    ensures a * c <= b * c
  {
  }
}
