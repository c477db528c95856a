/** cpio newc archives: the writer of the private overlay, the reader of concatenated archives, and the round
    trip between them. A byte is a char here, and names are taken to be their own encoding.
    boot/assemble_private_wifi_payload.py:114-163, 324-332, boot/verify_pcie_j81_reg_on_payload.py:62-78. */
module Cpio {
  import opened Common

  type Bytes = string

  const NUL := '\0'
  const MAGIC := "070701"

  /** An archive member: name, mode, contents and link count. */
  datatype Entry = Entry(name: Bytes, mode: nat, data: Bytes, nlink: nat)

  function Trailer(): Bytes {
    "TRAILER!!!"
  }

  /** What the reader reports of a name. */
  type Entries = map<Bytes, (nat, Bytes)>

  // ---- Numbers ----------------------------------------------------------------------------------------------

  function HexDigit(d: nat): (c: char)
    requires d < 16
    ensures IsHex(c) && Value(c) == d && c != NUL
  {
    if d < 10 then ('0' as int + d) as char else ('A' as int + d - 10) as char
  }

  predicate IsHex(c: char) {
    '0' <= c <= '9' || 'A' <= c <= 'F' || 'a' <= c <= 'f'
  }

  function Value(c: char): nat
    requires IsHex(c)
  {
    if c <= '9' then c as int - '0' as int else if c <= 'F' then c as int - 'A' as int + 10 else c as int - 'a' as int + 10
  }

  /** `f"{v:08X}"` of a value that fits. */
  function UpperHex(v: nat, width: nat): (s: string)
    ensures |s| == width && forall i :: 0 <= i < |s| ==> IsHex(s[i])
  {
    if width == 0 then "" else UpperHex(v / 16, width - 1) + [HexDigit(v % 16)]
  }

  function Number(s: string): nat
    requires forall i :: 0 <= i < |s| ==> IsHex(s[i])
  {
    if s == "" then 0 else 16 * Number(s[..|s| - 1]) + Value(s[|s| - 1])
  }

  /** `int(field, 16)` on hexadecimal digits. */
  function ParseField(s: string): Option<nat> {
    if s != "" && forall i :: 0 <= i < |s| ==> IsHex(s[i]) then Some(Number(s)) else None
  }

  lemma {:induction false} NumberOfHex(v: nat, width: nat)
    requires v < Pow16(width)
    ensures Number(UpperHex(v, width)) == v
  {
    if width > 0 {
      NumberOfHex(v / 16, width - 1);
      var s := UpperHex(v, width);
      assert s[..|s| - 1] == UpperHex(v / 16, width - 1);
    }
  }

  const LIMIT := 0x1_0000_0000

  lemma ParseOfHex(v: nat)
    requires v < LIMIT
    ensures ParseField(UpperHex(v, 8)) == Some(v)
  {
    assert Pow16(4) == 0x1_0000;
    assert Pow16(8) == LIMIT;
    NumberOfHex(v, 8);
  }

  // ---- The writer -------------------------------------------------------------------------------------------

  function Zeros(n: nat): (z: Bytes)
    ensures |z| == n && forall i :: 0 <= i < n ==> z[i] == NUL
  {
    seq(n, i => NUL)
  }

  predicate Aligned(n: nat) {
    n % 4 == 0
  }

  /** `-len % 4` */
  function Pad(n: nat): (p: nat)
    ensures p < 4 && Aligned(n + p)
  {
    (4 - n % 4) % 4
  }

  lemma AlignedSum(a: nat, b: nat)
    requires Aligned(a) && Aligned(b)
    ensures Aligned(a + b)
  {
  }

  function FieldValue(e: Entry, i: nat): nat {
    if i == 1 then e.mode
    else if i == 4 then e.nlink
    else if i == 6 then |e.data|
    else if i == 11 then |e.name| + 1
    else 0
  }

  /** The fields from number `i` on. */
  function FieldsFrom(e: Entry, i: nat): (s: Bytes)
    requires i <= 13
    ensures |s| == 8 * (13 - i)
    decreases 13 - i
  {
    if i == 13 then "" else UpperHex(FieldValue(e, i), 8) + FieldsFrom(e, i + 1)
  }

  function Header(e: Entry): (s: Bytes)
    ensures |s| == 110
  {
    MAGIC + FieldsFrom(e, 0)
  }

  function HeadAndName(e: Entry): Bytes {
    var out := Header(e) + e.name + [NUL];
    out + Zeros(Pad(|out|))
  }

  /** `newc_entry` */
  function NewcEntry(e: Entry): Bytes {
    HeadAndName(e) + e.data + Zeros(Pad(|e.data|))
  }

  function Archive(es: seq<Entry>): Bytes {
    if es == [] then "" else NewcEntry(es[0]) + Archive(es[1..])
  }

  predicate Writable(e: Entry) {
    e.mode < LIMIT && e.nlink < LIMIT && |e.data| < LIMIT && |e.name| + 1 < LIMIT
  }

  lemma HeadLength(e: Entry)
    ensures |HeadAndName(e)| == 111 + |e.name| + Pad(111 + |e.name|) && Aligned(|HeadAndName(e)|)
  {
    hide Header, Zeros, Aligned, Pad;
    var out := Header(e) + e.name + [NUL];
    assert |out| == 111 + |e.name|;
  }

  lemma EntryLength(e: Entry)
    ensures |NewcEntry(e)| == |HeadAndName(e)| + |e.data| + Pad(|e.data|) && Aligned(|NewcEntry(e)|)
  {
    hide HeadAndName, Zeros, Aligned, Pad;
    HeadLength(e);
    AlignedSum(|HeadAndName(e)|, |e.data| + Pad(|e.data|));
  }

  // ---- The reader -------------------------------------------------------------------------------------------

  /** `d[a:b]` */
  function Slice(d: Bytes, a: nat, b: int): Bytes {
    var hi := if b < 0 then 0 else if b > |d| then |d| else b;
    if a >= hi then "" else d[a..hi]
  }

  function FieldAt(d: Bytes, offset: nat, i: nat): Option<nat> {
    ParseField(Slice(d, offset + 6 + i * 8, offset + 14 + i * 8))
  }

  predicate HeaderAt(d: Bytes, offset: nat) {
    Slice(d, offset, offset + 6) == MAGIC && forall i :: 0 <= i < 13 ==> FieldAt(d, offset, i).Some?
  }

  /** `name.removeprefix("./")` */
  function Relative(name: Bytes): Bytes {
    if |name| >= 2 && name[0] == '.' && name[1] == '/' then name[2..] else name
  }

  /** A leading "./" is dropped once, and nothing else. */
  lemma RelativeDrops(name: Bytes)
    ensures Relative("./" + name) == name
    ensures (|name| < 2 || name[0] != '.' || name[1] != '/') ==> Relative(name) == name
  {
    assert ("./" + name)[2..] == name;
  }

  /** `(n + 3) & ~3` */
  function Align(n: nat): (m: nat)
    ensures n <= m < n + 4 && Aligned(m)
  {
    n + Pad(n)
  }

  function Put(m: Entries, name: Bytes, mode: nat, data: Bytes): Entries {
    if name != Trailer() then m[name := (mode, data)] else m
  }

  function NameAt(d: Bytes, offset: nat): Bytes
    requires HeaderAt(d, offset)
  {
    Relative(Slice(d, offset + 110, offset + 110 + FieldAt(d, offset, 11).value - 1))
  }

  function DataStart(d: Bytes, offset: nat): nat
    requires HeaderAt(d, offset)
  {
    Align(offset + 110 + FieldAt(d, offset, 11).value)
  }

  function Next(d: Bytes, offset: nat): (n: nat)
    requires HeaderAt(d, offset)
    ensures n >= offset + 110
  {
    Align(DataStart(d, offset) + FieldAt(d, offset, 6).value)
  }

  function Step(d: Bytes, offset: nat, m: Entries): Entries
    requires HeaderAt(d, offset)
  {
    var start := DataStart(d, offset);
    Put(m, NameAt(d, offset), FieldAt(d, offset, 1).value, Slice(d, start, start + FieldAt(d, offset, 6).value))
  }

  /** The walk from `offset`: the map and where it ends, or None where the reader raises. */
  function Walk(d: Bytes, offset: nat, m: Entries): Option<(Entries, nat)>
    decreases |d| - offset
  {
    if offset >= |d| then Some((m, offset))
    else if d[offset] == NUL then Walk(d, offset + 1, m)
    else if !HeaderAt(d, offset) then None
    else Walk(d, Next(d, offset), Step(d, offset, m))
  }

  method ReadHeader(d: Bytes, offset: nat) returns (fields: Option<seq<nat>>)
    ensures fields.Some? <==> HeaderAt(d, offset)
    ensures fields.Some? ==> |fields.value| == 13 && forall i :: 0 <= i < 13 ==> FieldAt(d, offset, i) == Some(fields.value[i])
  {
    hide ParseField, Slice;
    if Slice(d, offset, offset + 6) != MAGIC {
      return None;
    }
    var values := [];
    var i := 0;
    while i < 13
      invariant 0 <= i <= 13 && |values| == i
      invariant forall k :: 0 <= k < i ==> FieldAt(d, offset, k) == Some(values[k])
    {
      var value := ParseField(Slice(d, offset + 6 + i * 8, offset + 14 + i * 8));
      if value.None? {
        assert FieldAt(d, offset, i).None?;
        return None;
      }
      values := values + [value.value];
      i := i + 1;
    }
    fields := Some(values);
  }

  /** `cpio_entries` */
  method CpioEntries(d: Bytes) returns (r: Option<Entries>)
    ensures var w := Walk(d, 0, map[]); r == if w.Some? then Some(w.value.0) else None
  {
    hide HeaderAt, FieldAt, Slice, Relative, Pad;
    var result: Entries, offset := map[], 0;
    while offset < |d|
      invariant Walk(d, 0, map[]) == Walk(d, offset, result)
      decreases |d| - offset
    {
      if d[offset] == NUL {
        offset := offset + 1;
        continue;
      }
      var fields := ReadHeader(d, offset);
      if fields.None? {
        return None;
      }
      var mode, size, namesize := fields.value[1], fields.value[6], fields.value[11];
      var start := offset + 110;
      var name := Relative(Slice(d, start, start + namesize - 1));
      start := Align(start + namesize);
      if name != Trailer() {
        result := result[name := (mode, Slice(d, start, start + size))];
      }
      offset := Align(start + size);
    }
    r := Some(result);
  }

  // ---- Reading what was written -----------------------------------------------------------------------------

  lemma SliceInside(pre: Bytes, x: Bytes, post: Bytes, a: nat, b: nat)
    requires a == |pre| && b == |pre| + |x|
    ensures Slice(pre + x + post, a, b) == x
  {
  }

  lemma {:induction false} FieldsSplit(e: Entry, from: nat, i: nat) returns (before: Bytes)
    requires from <= i < 13
    ensures |before| == 8 * (i - from) && FieldsFrom(e, from) == before + UpperHex(FieldValue(e, i), 8) + FieldsFrom(e, i + 1)
    decreases i - from
  {
    hide UpperHex, FieldValue;
    if from == i {
      before := "";
    } else {
      var rest := FieldsSplit(e, from + 1, i);
      before := UpperHex(FieldValue(e, from), 8) + rest;
    }
  }

  lemma FieldWritten(pre: Bytes, e: Entry, post: Bytes, i: nat)
    requires Writable(e) && i < 13
    ensures FieldAt(pre + Header(e) + post, |pre|, i) == Some(FieldValue(e, i))
  {
    hide UpperHex, FieldsFrom, ParseField, Slice;
    var before := FieldsSplit(e, 0, i);
    var x := UpperHex(FieldValue(e, i), 8);
    var after := FieldsFrom(e, i + 1) + post;
    var p := pre + MAGIC + before;
    assert pre + Header(e) + post == p + x + after;
    SliceInside(p, x, after, |pre| + 6 + i * 8, |pre| + 14 + i * 8);
    ParseOfHex(FieldValue(e, i));
  }

  lemma HeaderWritten(pre: Bytes, e: Entry, post: Bytes)
    requires Writable(e)
    ensures var d := pre + Header(e) + post;
            HeaderAt(d, |pre|) && forall i :: 0 <= i < 13 ==> FieldAt(d, |pre|, i) == Some(FieldValue(e, i))
  {
    hide FieldsFrom, FieldAt, Slice;
    var d := pre + Header(e) + post;
    var fields := FieldsFrom(e, 0);
    assert d == pre + MAGIC + (fields + post);
    SliceInside(pre, MAGIC, fields + post, |pre|, |pre| + 6);
    forall i | 0 <= i < 13 ensures FieldAt(d, |pre|, i) == Some(FieldValue(e, i)) {
      FieldWritten(pre, e, post, i);
    }
  }

  lemma AlignShift(base: nat, n: nat)
    requires Aligned(base)
    ensures Align(base + n) == base + n + Pad(n)
  {
  }

  /** The parts of a written member, where the reader looks for them. */
  lemma EntryParts(pre: Bytes, e: Entry, post: Bytes)
    requires Writable(e)
    ensures var d := pre + NewcEntry(e) + post;
            var o, h := |pre|, |HeadAndName(e)|;
            && o < |d| && d[o] != NUL && HeaderAt(d, o)
            && (forall i :: 0 <= i < 13 ==> FieldAt(d, o, i) == Some(FieldValue(e, i)))
            && Slice(d, o + 110, o + 110 + |e.name|) == e.name
            && Slice(d, o + h, o + h + |e.data|) == e.data
  {
    hide HeaderAt, FieldAt, Slice, Header, Pad, Zeros, FieldValue, Aligned;
    var d := pre + NewcEntry(e) + post;
    var z1, z2 := Zeros(Pad(111 + |e.name|)), Zeros(Pad(|e.data|));
    var tail := e.name + [NUL] + z1 + e.data + z2 + post;
    assert |Header(e) + e.name + [NUL]| == 111 + |e.name|;
    assert d == pre + Header(e) + tail;
    HeaderWritten(pre, e, tail);
    FirstByte(pre, e, tail);
    var o := |pre|;
    SliceInside(pre + Header(e), e.name, [NUL] + z1 + e.data + z2 + post, o + 110, o + 110 + |e.name|);
    assert d == pre + Header(e) + e.name + ([NUL] + z1 + e.data + z2 + post);
    SliceInside(pre + HeadAndName(e), e.data, z2 + post, o + |HeadAndName(e)|, o + |HeadAndName(e)| + |e.data|);
    assert d == pre + HeadAndName(e) + e.data + (z2 + post);
  }

  /** One step of the walk over a member found at an aligned offset. */
  lemma StepOver(d: Bytes, o: nat, m: Entries, name: Bytes, mode: nat, data: Bytes)
    requires o < |d| && d[o] != NUL && HeaderAt(d, o) && Aligned(o)
    requires FieldAt(d, o, 11) == Some(|name| + 1) && FieldAt(d, o, 6) == Some(|data|) && FieldAt(d, o, 1) == Some(mode)
    requires Slice(d, o + 110, o + 110 + |name|) == name
    requires var h := 111 + |name| + Pad(111 + |name|); Aligned(h) && Slice(d, o + h, o + h + |data|) == data
    ensures var h := 111 + |name| + Pad(111 + |name|);
            Walk(d, o, m) == Walk(d, o + h + |data| + Pad(|data|), Put(m, Relative(name), mode, data))
  {
    hide HeaderAt, FieldAt, Slice, Relative, Pad, Align, Aligned, Put;
    var h := 111 + |name| + Pad(111 + |name|);
    AlignShift(o, 111 + |name|);
    AlignedSum(o, h);
    AlignShift(o + h, |data|);
  }

  /** A member written at a multiple of four is read back, and the reader goes on right behind it. */
  lemma EntryRead(pre: Bytes, e: Entry, post: Bytes, m: Entries)
    requires Writable(e) && Aligned(|pre|)
    ensures var d := pre + NewcEntry(e) + post;
            Walk(d, |pre|, m) == Walk(d, |pre| + |NewcEntry(e)|, Put(m, Relative(e.name), e.mode, e.data))
  {
    hide HeaderAt, FieldAt, Slice, NewcEntry, HeadAndName, Relative, Pad, Align, Aligned, Put, Walk, Writable;
    var d := pre + NewcEntry(e) + post;
    EntryParts(pre, e, post);
    HeadLength(e);
    EntryLength(e);
    StepOver(d, |pre|, m, e.name, e.mode, e.data);
  }

  lemma FirstByte(pre: Bytes, e: Entry, post: Bytes)
    ensures (pre + Header(e) + post)[|pre|] == '0' && '0' != NUL
  {
    hide FieldsFrom;
  }

  /** The map the members of an archive leave behind, later ones winning. */
  function PutAll(m: Entries, es: seq<Entry>): Entries
    decreases |es|
  {
    if es == [] then m else PutAll(Put(m, Relative(es[0].name), es[0].mode, es[0].data), es[1..])
  }

  lemma Regroup(pre: Bytes, x: Bytes, rest: Bytes, post: Bytes)
    ensures pre + (x + rest) + post == pre + x + (rest + post)
    ensures pre + (x + rest) + post == (pre + x) + rest + post
  {
  }

  lemma ArchiveCons(es: seq<Entry>, m: Entries)
    requires es != []
    ensures Archive(es) == NewcEntry(es[0]) + Archive(es[1..])
    ensures PutAll(m, es) == PutAll(Put(m, Relative(es[0].name), es[0].mode, es[0].data), es[1..])
  {
    hide NewcEntry, Put, Relative;
  }

  lemma ArchiveNone(pre: Bytes, es: seq<Entry>, post: Bytes, m: Entries)
    requires es == []
    ensures |Archive(es)| == 0 && PutAll(m, es) == m
  {
  }

  lemma {:induction false} ArchiveRead(pre: Bytes, es: seq<Entry>, post: Bytes, m: Entries)
    requires Aligned(|pre|) && forall i :: 0 <= i < |es| ==> Writable(es[i])
    ensures var d := pre + Archive(es) + post;
            Walk(d, |pre|, m) == Walk(d, |pre| + |Archive(es)|, PutAll(m, es))
    decreases |es|
  {
    hide Walk, NewcEntry, Put, Relative, Aligned, Writable, Archive, PutAll;
    if es == [] {
      ArchiveNone(pre, es, post, m);
    } else {
      var x, rest := NewcEntry(es[0]), Archive(es[1..]);
      var m1 := Put(m, Relative(es[0].name), es[0].mode, es[0].data);
      ArchiveCons(es, m);
      Regroup(pre, x, rest, post);
      EntryLength(es[0]);
      AlignedSum(|pre|, |x|);
      EntryRead(pre, es[0], rest + post, m);
      ArchiveRead(pre + x, es[1..], post, m1);
    }
  }

  /** Reading a written archive gives exactly its members. */
  lemma RoundTrip(es: seq<Entry>)
    requires forall i :: 0 <= i < |es| ==> Writable(es[i])
    ensures Walk(Archive(es), 0, map[]) == Some((PutAll(map[], es), |Archive(es)|))
  {
    hide HeaderAt, PutAll, Archive, Writable;
    var d := Archive(es);
    assert "" + d + "" == d;
    ArchiveRead("", es, "", map[]);
  }

  // ---- Appending --------------------------------------------------------------------------------------------

  lemma {:induction false} WalkGoesOn(d: Bytes, o: nat, m: Entries)
    requires Walk(d, o, m).Some?
    ensures Walk(d, o, m).value.1 >= o
    decreases |d| - o
  {
    hide HeaderAt, Step;
    if o < |d| {
      if d[o] == NUL {
        WalkGoesOn(d, o + 1, m);
      } else {
        WalkGoesOn(d, Next(d, o), Step(d, o, m));
      }
    }
  }

  lemma SliceStable(d: Bytes, x: Bytes, a: nat, b: int)
    requires b <= |d|
    ensures Slice(d + x, a, b) == Slice(d, a, b)
  {
  }

  /** A header that lies in the archive reads the same with more behind it. */
  lemma HeaderStable(d: Bytes, x: Bytes, o: nat)
    requires o + 110 <= |d|
    ensures HeaderAt(d + x, o) <==> HeaderAt(d, o)
    ensures forall i :: 0 <= i < 13 ==> FieldAt(d + x, o, i) == FieldAt(d, o, i)
  {
    hide ParseField, Slice;
    SliceStable(d, x, o, o + 6);
    forall i | 0 <= i < 13 ensures FieldAt(d + x, o, i) == FieldAt(d, o, i) {
      SliceStable(d, x, o + 6 + i * 8, o + 14 + i * 8);
    }
  }

  lemma HeaderFields(d: Bytes, o: nat)
    requires HeaderAt(d, o)
    ensures FieldAt(d, o, 6).Some? && FieldAt(d, o, 11).Some?
  {
    hide FieldAt, Slice;
  }

  /** An archive the reader leaves exactly at its end is read the same way with more behind it. */
  lemma {:induction false} BaseRead(d: Bytes, x: Bytes, o: nat, m: Entries)
    requires o <= |d| && Walk(d, o, m).Some? && Walk(d, o, m).value.1 == |d|
    ensures Walk(d + x, o, m) == Walk(d + x, |d|, Walk(d, o, m).value.0)
    decreases |d| - o
  {
    hide HeaderAt, FieldAt, Slice, Relative, Put, Pad;
    if o < |d| {
      assert (d + x)[o] == d[o];
      if d[o] == NUL {
        BaseRead(d, x, o + 1, m);
      } else {
        WalkGoesOn(d, Next(d, o), Step(d, o, m));
        HeaderStable(d, x, o);
        HeaderFields(d, o);
        var start, size := DataStart(d, o), FieldAt(d, o, 6).value;
        SliceStable(d, x, start, start + size);
        SliceStable(d, x, o + 110, o + 110 + FieldAt(d, o, 11).value - 1);
        BaseRead(d, x, Next(d, o), Step(d, o, m));
      }
    }
  }

  lemma {:induction false} PutAllKeys(m: Entries, es: seq<Entry>)
    ensures PutAll(m, es) == m + PutAll(map[], es)
    decreases |es|
  {
    hide Relative;
    if es != [] {
      var e := es[0];
      var one := Put(map[], Relative(e.name), e.mode, e.data);
      PutAllKeys(Put(m, Relative(e.name), e.mode, e.data), es[1..]);
      PutAllKeys(one, es[1..]);
      assert Put(m, Relative(e.name), e.mode, e.data) == m + one;
    }
  }

  /** Appending an overlay to a complete base archive whose length is a multiple of four gives the base's map
      overridden by the overlay's. */
  lemma OverlayOverrides(base: Bytes, es: seq<Entry>)
    requires Aligned(|base|) && forall i :: 0 <= i < |es| ==> Writable(es[i])
    requires Walk(base, 0, map[]).Some? && Walk(base, 0, map[]).value.1 == |base|
    ensures var d := base + Archive(es);
            Walk(d, 0, map[]) == Some((Walk(base, 0, map[]).value.0 + PutAll(map[], es), |d|))
  {
    hide Walk, PutAll, Archive, Aligned, Writable;
    var overlay := Archive(es);
    BaseRead(base, overlay, 0, map[]);
    var mb := Walk(base, 0, map[]).value.0;
    assert base + overlay + "" == base + overlay;
    ArchiveRead(base, es, "", mb);
    PutAllKeys(mb, es);
    WalkEnds(base + overlay, PutAll(mb, es));
  }

  lemma WalkEnds(d: Bytes, m: Entries)
    ensures Walk(d, |d|, m) == Some((m, |d|))
  {
  }
}
