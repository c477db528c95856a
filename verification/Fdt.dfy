/** Flattened device trees: the verifier's reader against the serialisation of sections 5.4 and 5.5 of the
    Devicetree Specification. boot/verify_pcie_j81_reg_on_payload.py:81-105. */
module Fdt {
  import opened Common

  const SPACE := 0x1_0000_0000
  const MAGIC := 0xd00dfeed

  /** A property and its value. */
  datatype Prop = Prop(name: Data, value: Data)

  /** A node with its properties before its children, as the structure block has them. */
  datatype Node = Node(name: Data, props: seq<Prop>, children: seq<Node>)

  type Props = map<Data, Data>
  type Nodes = map<Data, Props>

  // ---- Paths ------------------------------------------------------------------------------------------------

  const SLASH := 47

  /** `"/".join(path)` */
  function Join(path: seq<Data>): Data {
    if path == [] then []
    else if |path| == 1 then path[0]
    else Join(path[..|path| - 1]) + [SLASH] + path[|path| - 1]
  }

  /** `"/".join(path) or "/"` */
  function Key(path: seq<Data>): Data {
    if Join(path) == [] then [SLASH] else Join(path)
  }

  // ---- The reader -------------------------------------------------------------------------------------------

  function Be32(d: Data, o: nat): (v: nat)
    requires o + 4 <= |d|
    ensures v < SPACE
  {
    0x100_0000 * d[o] as int + 0x1_0000 * d[o + 1] as int + 0x100 * d[o + 2] as int + d[o + 3] as int
  }

  /** `blob.index(b"\0", from)`, or the length when there is none. */
  function FirstNul(d: Data, from: nat): (i: nat)
    ensures from <= |d| ==> from <= i <= |d|
    ensures forall j :: from <= j < i && j < |d| ==> d[j] != 0
    ensures from <= |d| && i < |d| ==> d[i] == 0
    decreases |d| - from
  {
    if from >= |d| || d[from] == 0 then from else FirstNul(d, from + 1)
  }

  function Align(n: nat): (m: nat)
    ensures n <= m < n + 4 && m % 4 == 0
  {
    (n + 3) / 4 * 4
  }

  /** `blob[a:b]` */
  function Slice(d: Data, a: nat, b: nat): Data {
    var hi := if b > |d| then |d| else b;
    if a >= hi then [] else d[a..hi]
  }

  function CString(d: Data, from: nat): Option<Data> {
    if from > |d| || FirstNul(d, from) == |d| then None else Some(d[from..FirstNul(d, from)])
  }

  /** The loop of `fdt_nodes`; None is an exception. */
  function Parse(d: Data, strings: nat, pos: nat, path: seq<Data>, m: Nodes): Option<Nodes>
    decreases |d| - pos
  {
    if pos + 4 > |d| then None
    else
      var tag, p := Be32(d, pos), pos + 4;
      if tag == 1 then
        if CString(d, p).None? then None
        else
          var name := CString(d, p).value;
          Parse(d, strings, Align(p + |name| + 1), path + [name], m[Key(path + [name]) := map[]])
      else if tag == 2 then
        if path == [] then None else Parse(d, strings, p, path[..|path| - 1], m)
      else if tag == 3 then
        if p + 8 > |d| || CString(d, strings + Be32(d, p + 4)).None? || Key(path) !in m then None
        else
          var length, name := Be32(d, p), CString(d, strings + Be32(d, p + 4)).value;
          Parse(d, strings, Align(p + 8 + length), path,
                m[Key(path) := m[Key(path)][name := Slice(d, p + 8, p + 8 + length)]])
      else if tag == 9 then Some(m)
      else Parse(d, strings, p, path, m)
  }

  method FdtNodes(d: Data) returns (r: Option<Nodes>)
    ensures r == if |d| < 16 || Be32(d, 0) != MAGIC then None else Parse(d, Be32(d, 12), Be32(d, 8), [], map[])
  {
    hide Be32, CString, Slice, Align, Key;
    if |d| < 16 || Be32(d, 0) != MAGIC {
      return None;
    }
    var pos, strings := Be32(d, 8), Be32(d, 12);
    var path: seq<Data>, nodes: Nodes := [], map[];
    while pos + 4 <= |d|
      invariant Parse(d, Be32(d, 12), Be32(d, 8), [], map[]) == Parse(d, strings, pos, path, nodes)
      decreases |d| - pos
    {
      var tag := Be32(d, pos);
      pos := pos + 4;
      if tag == 1 {
        var name := CString(d, pos);
        if name.None? {
          return None;
        }
        path := path + [name.value];
        pos := Align(pos + |name.value| + 1);
        nodes := nodes[Key(path) := map[]];
      } else if tag == 2 {
        if path == [] {
          return None;
        }
        path := path[..|path| - 1];
      } else if tag == 3 {
        if pos + 8 > |d| {
          return None;
        }
        var length, nameoff := Be32(d, pos), Be32(d, pos + 4);
        pos := pos + 8;
        var name := CString(d, strings + nameoff);
        if name.None? || Key(path) !in nodes {
          return None;
        }
        nodes := nodes[Key(path) := nodes[Key(path)][name.value := Slice(d, pos, pos + length)]];
        pos := Align(pos + length);
      } else if tag == 9 {
        return Some(nodes);
      }
    }
    r := None;
  }

  // ---- Tokens -----------------------------------------------------------------------------------------------

  datatype Token = Begin(name: Data) | End | Property(name: Data, value: Data) | Nop | Stop

  /** What the reader does with a stream of tokens. */
  function Exec(ts: seq<Token>, path: seq<Data>, m: Nodes): Option<Nodes>
    decreases |ts|
  {
    if ts == [] then None
    else
      match ts[0]
      case Begin(name) => Exec(ts[1..], path + [name], m[Key(path + [name]) := map[]])
      case End => if path == [] then None else Exec(ts[1..], path[..|path| - 1], m)
      case Property(name, value) =>
        if Key(path) !in m then None else Exec(ts[1..], path, m[Key(path) := m[Key(path)][name := value]])
      case Nop => Exec(ts[1..], path, m)
      case Stop => Some(m)
  }

  function NoNops(ts: seq<Token>): seq<Token> {
    if ts == [] then [] else (if ts[0].Nop? then [] else [ts[0]]) + NoNops(ts[1..])
  }

  /** NOP tokens change nothing, wherever they are. */
  lemma {:induction false} NopsIgnored(ts: seq<Token>, path: seq<Data>, m: Nodes)
    ensures Exec(ts, path, m) == Exec(NoNops(ts), path, m)
    decreases |ts|
  {
    hide Key;
    if ts != [] {
      assert ts[0].Nop? ==> NoNops(ts) == NoNops(ts[1..]);
      assert !ts[0].Nop? ==> NoNops(ts)[0] == ts[0] && NoNops(ts)[1..] == NoNops(ts[1..]);
      match ts[0]
      case Begin(name) => NopsIgnored(ts[1..], path + [name], m[Key(path + [name]) := map[]]);
      case End => if path != [] { NopsIgnored(ts[1..], path[..|path| - 1], m); }
      case Property(name, value) =>
        if Key(path) in m { NopsIgnored(ts[1..], path, m[Key(path) := m[Key(path)][name := value]]); }
      case Nop => NopsIgnored(ts[1..], path, m);
      case Stop =>
    }
  }

  // ---- Token encodings --------------------------------------------------------------------------------------

  function ToBe32(v: nat): (s: Data)
    requires v < SPACE
    ensures |s| == 4
  {
    [v / 0x100_0000, v / 0x1_0000 % 0x100, v / 0x100 % 0x100, v % 0x100]
  }

  function Zeros(n: nat): (z: Data)
    ensures |z| == n && forall i :: 0 <= i < n ==> z[i] == 0
  {
    seq(n, i => 0)
  }

  function Padded(s: Data): Data {
    s + Zeros(Align(|s|) - |s|)
  }

  predicate NoNul(s: Data) {
    forall i :: 0 <= i < |s| ==> s[i] != 0
  }

  /** A token with its name in the string table at `offsets`. */
  predicate Encodable(t: Token, offsets: map<Data, nat>) {
    match t
    case Begin(name) => NoNul(name)
    case Property(name, value) => name in offsets && offsets[name] < SPACE && |value| < SPACE
    case _ => true
  }

  function Encode(t: Token, offsets: map<Data, nat>): Data
    requires Encodable(t, offsets)
  {
    match t
    case Begin(name) => ToBe32(1) + Padded(name + [0])
    case End => ToBe32(2)
    case Property(name, value) => ToBe32(3) + ToBe32(|value|) + ToBe32(offsets[name]) + Padded(value)
    case Nop => ToBe32(4)
    case Stop => ToBe32(9)
  }

  function EncodeAll(ts: seq<Token>, offsets: map<Data, nat>): Data
    requires forall i :: 0 <= i < |ts| ==> Encodable(ts[i], offsets)
  {
    if ts == [] then [] else Encode(ts[0], offsets) + EncodeAll(ts[1..], offsets)
  }

  /** The bytes `x` are at `pos`. */
  predicate At(d: Data, pos: nat, x: Data) {
    pos + |x| <= |d| && d[pos..pos + |x|] == x
  }

  lemma AtSplit(d: Data, pos: nat, x: Data, y: Data)
    requires At(d, pos, x + y)
    ensures At(d, pos, x) && At(d, pos + |x|, y)
  {
    assert d[pos..pos + |x + y|][..|x|] == d[pos..pos + |x|];
    assert d[pos..pos + |x + y|][|x|..] == d[pos + |x|..pos + |x + y|];
    assert (x + y)[..|x|] == x && (x + y)[|x|..] == y;
  }

  lemma ReadBe32(d: Data, pos: nat, v: nat)
    requires v < SPACE && At(d, pos, ToBe32(v))
    ensures Be32(d, pos) == v
  {
    var s := d[pos..pos + 4];
    assert s == ToBe32(v);
    assert d[pos] == s[0] && d[pos + 1] == s[1] && d[pos + 2] == s[2] && d[pos + 3] == s[3];
    Digits(v);
  }

  lemma Digits(v: nat)
    requires v < SPACE
    ensures v == 0x100_0000 * (v / 0x100_0000) + 0x1_0000 * (v / 0x1_0000 % 0x100) + 0x100 * (v / 0x100 % 0x100) + v % 0x100
  {
    var a := v / 0x100;
    var b := a / 0x100;
    assert b == v / 0x1_0000 && b / 0x100 == v / 0x100_0000;
  }

  lemma ReadName(d: Data, pos: nat, name: Data)
    requires NoNul(name) && At(d, pos, name + [0])
    ensures CString(d, pos) == Some(name)
  {
    AtSplit(d, pos, name, [0]);
    var e := pos + |name|;
    assert d[e..e + 1][0] == d[e];
    assert forall i :: pos <= i < e ==> d[i] == d[pos..e][i - pos];
    var f := FirstNul(d, pos);
    assert f <= e;
  }

  /** Every name of the table is where its offset says. */
  predicate StringsOk(d: Data, strings: nat, offsets: map<Data, nat>) {
    forall name :: name in offsets ==> CString(d, strings + offsets[name]) == Some(name)
  }

  lemma PaddedLength(s: Data)
    ensures |Padded(s)| == Align(|s|)
  {
  }

  lemma AlignFrom(base: nat, n: nat)
    requires base % 4 == 0
    ensures Align(base + n) == base + Align(n)
  {
  }

  lemma EncodedLength(t: Token, offsets: map<Data, nat>)
    requires Encodable(t, offsets)
    ensures |Encode(t, offsets)| % 4 == 0 && |Encode(t, offsets)| >= 4
  {
    hide Align, ToBe32, Padded;
    match t
    case Begin(name) => PaddedLength(name + [0]);
    case Property(name, value) => PaddedLength(value);
    case _ =>
  }

  // ---- Reading the tokens -----------------------------------------------------------------------------------

  /** What reading one token leads to. */
  function After(d: Data, strings: nat, t: Token, next: nat, path: seq<Data>, m: Nodes): Option<Nodes> {
    match t
    case Begin(name) => Parse(d, strings, next, path + [name], m[Key(path + [name]) := map[]])
    case End => if path == [] then None else Parse(d, strings, next, path[..|path| - 1], m)
    case Property(name, value) =>
      if Key(path) !in m then None else Parse(d, strings, next, path, m[Key(path) := m[Key(path)][name := value]])
    case Nop => Parse(d, strings, next, path, m)
    case Stop => Some(m)
  }

  lemma SliceAt(d: Data, pos: nat, x: Data)
    requires At(d, pos, x)
    ensures Slice(d, pos, pos + |x|) == x
  {
  }

  lemma BeginParts(d: Data, offsets: map<Data, nat>, pos: nat, t: Token)
    requires t.Begin? && Encodable(t, offsets) && pos % 4 == 0 && At(d, pos, Encode(t, offsets))
    ensures pos + 4 <= |d| && Be32(d, pos) == 1 && CString(d, pos + 4) == Some(t.name)
    ensures Align(pos + 4 + |t.name| + 1) == pos + |Encode(t, offsets)|
  {
    hide ToBe32, Be32, Align, NoNul, CString, Padded, At;
    var s := t.name + [0];
    var pad := Zeros(Align(|s|) - |s|);
    AtSplit(d, pos, ToBe32(1), Padded(s));
    AtInside(d, pos, ToBe32(1));
    ReadBe32(d, pos, 1);
    PaddedIs(s);
    AtSplit(d, pos + 4, s, pad);
    ReadName(d, pos + 4, t.name);
    PaddedLength(s);
    AlignFrom(pos + 4, |s|);
  }

  lemma AtInside(d: Data, pos: nat, x: Data)
    requires At(d, pos, x)
    ensures pos + |x| <= |d|
  {
  }

  lemma ReadBegin(d: Data, strings: nat, offsets: map<Data, nat>, pos: nat, t: Token, path: seq<Data>, m: Nodes)
    requires t.Begin? && Encodable(t, offsets) && pos % 4 == 0 && At(d, pos, Encode(t, offsets))
    ensures Parse(d, strings, pos, path, m) == After(d, strings, t, pos + |Encode(t, offsets)|, path, m)
  {
    hide Be32, Align, Key, CString, At, Encode, Encodable, Slice;
    BeginParts(d, offsets, pos, t);
  }

  lemma PropertyParts(d: Data, strings: nat, offsets: map<Data, nat>, pos: nat, t: Token)
    requires t.Property? && Encodable(t, offsets) && pos % 4 == 0 && At(d, pos, Encode(t, offsets))
    ensures pos + 12 <= |d| && Be32(d, pos) == 3 && Be32(d, pos + 4) == |t.value| && Be32(d, pos + 8) == offsets[t.name]
    ensures Slice(d, pos + 12, pos + 12 + |t.value|) == t.value
    ensures Align(pos + 12 + |t.value|) == pos + |Encode(t, offsets)|
  {
    hide ToBe32, Be32, Align, Padded, Slice, At;
    var a, b, c, v := ToBe32(3), ToBe32(|t.value|), ToBe32(offsets[t.name]), Padded(t.value);
    AtSplit(d, pos, a + b + c, v);
    AtSplit(d, pos, a + b, c);
    AtSplit(d, pos, a, b);
    AtInside(d, pos, a + b + c);
    ReadBe32(d, pos, 3);
    ReadBe32(d, pos + 4, |t.value|);
    ReadBe32(d, pos + 8, offsets[t.name]);
    PaddedIs(t.value);
    AtSplit(d, pos + 12, t.value, Zeros(Align(|t.value|) - |t.value|));
    SliceAt(d, pos + 12, t.value);
    PaddedLength(t.value);
    AlignFrom(pos + 12, |t.value|);
  }

  lemma ReadProperty(d: Data, strings: nat, offsets: map<Data, nat>, pos: nat, t: Token, path: seq<Data>, m: Nodes)
    requires t.Property? && Encodable(t, offsets) && pos % 4 == 0 && At(d, pos, Encode(t, offsets)) && StringsOk(d, strings, offsets)
    ensures Parse(d, strings, pos, path, m) == After(d, strings, t, pos + |Encode(t, offsets)|, path, m)
  {
    hide Be32, Align, Key, CString, At, Encode, Slice;
    PropertyParts(d, strings, offsets, pos, t);
    assert CString(d, strings + offsets[t.name]) == Some(t.name);
  }

  lemma PaddedIs(s: Data)
    ensures Padded(s) == s + Zeros(Align(|s|) - |s|)
  {
  }

  lemma ReadToken(d: Data, strings: nat, offsets: map<Data, nat>, pos: nat, t: Token, path: seq<Data>, m: Nodes)
    requires Encodable(t, offsets) && pos % 4 == 0 && At(d, pos, Encode(t, offsets)) && StringsOk(d, strings, offsets)
    ensures Parse(d, strings, pos, path, m) == After(d, strings, t, pos + |Encode(t, offsets)|, path, m)
  {
    hide ToBe32, Be32, Align, Key, CString, Slice, StringsOk;
    match t
    case Begin(_) => ReadBegin(d, strings, offsets, pos, t, path, m);
    case Property(_, _) => ReadProperty(d, strings, offsets, pos, t, path, m);
    case End => ReadBe32(d, pos, 2);
    case Nop => ReadBe32(d, pos, 4);
    case Stop => ReadBe32(d, pos, 9);
  }

  /** Reading encoded tokens is running them. */
  lemma {:induction false} ReadAll(d: Data, strings: nat, offsets: map<Data, nat>, pos: nat, ts: seq<Token>, path: seq<Data>, m: Nodes)
    requires forall i :: 0 <= i < |ts| ==> Encodable(ts[i], offsets)
    requires Stop in ts && pos % 4 == 0 && At(d, pos, EncodeAll(ts, offsets)) && StringsOk(d, strings, offsets)
    ensures Parse(d, strings, pos, path, m) == Exec(ts, path, m)
    decreases |ts|
  {
    hide Encode, Key, Parse, StringsOk, Encodable;
    var t := ts[0];
    var next := pos + |Encode(t, offsets)|;
    AtSplit(d, pos, Encode(t, offsets), EncodeAll(ts[1..], offsets));
    ReadToken(d, strings, offsets, pos, t, path, m);
    EncodedLength(t, offsets);
    assert ts == [t] + ts[1..];
    match t
    case Begin(name) => ReadAll(d, strings, offsets, next, ts[1..], path + [name], m[Key(path + [name]) := map[]]);
    case End => if path != [] { ReadAll(d, strings, offsets, next, ts[1..], path[..|path| - 1], m); }
    case Property(name, value) =>
      if Key(path) in m { ReadAll(d, strings, offsets, next, ts[1..], path, m[Key(path) := m[Key(path)][name := value]]); }
    case Nop => ReadAll(d, strings, offsets, next, ts[1..], path, m);
    case Stop =>
  }

  // ---- Trees ------------------------------------------------------------------------------------------------

  function PropTokens(ps: seq<Prop>): seq<Token> {
    seq(|ps|, i requires 0 <= i < |ps| => Property(ps[i].name, ps[i].value))
  }

  /** The structure block of a node, and of consecutive siblings. */
  function Flatten(n: Node): seq<Token>
    decreases n, 0
  {
    [Begin(n.name)] + PropTokens(n.props) + FlattenAll(n.children) + [End]
  }

  function FlattenAll(ns: seq<Node>): seq<Token>
    decreases ns, 1
  {
    if ns == [] then [] else Flatten(ns[0]) + FlattenAll(ns[1..])
  }

  function AddProps(p: Props, ps: seq<Prop>): Props
    decreases |ps|
  {
    if ps == [] then p else AddProps(p[ps[0].name := ps[0].value], ps[1..])
  }

  function PropMap(ps: seq<Prop>): Props {
    AddProps(map[], ps)
  }

  type Listed = (seq<Data>, Props)

  /** Every node with its full path and its properties. */
  function Listing(n: Node, parent: seq<Data>): seq<Listed>
    decreases n, 0
  {
    [(parent + [n.name], PropMap(n.props))] + ListingAll(n.children, parent + [n.name])
  }

  function ListingAll(ns: seq<Node>, path: seq<Data>): seq<Listed>
    decreases ns, 1
  {
    if ns == [] then [] else Listing(ns[0], path) + ListingAll(ns[1..], path)
  }

  function PutList(m: Nodes, l: seq<Listed>): Nodes
    decreases |l|
  {
    if l == [] then m else PutList(m[Key(l[0].0) := l[0].1], l[1..])
  }

  lemma {:induction false} PutListAppend(m: Nodes, a: seq<Listed>, b: seq<Listed>)
    ensures PutList(m, a + b) == PutList(PutList(m, a), b)
    decreases |a|
  {
    hide Key;
    if a == [] {
      assert a + b == b;
    } else {
      PutListAppend(m[Key(a[0].0) := a[0].1], a[1..], b);
      assert (a + b)[1..] == a[1..] + b;
    }
  }

  lemma {:induction false} ExecProps(ps: seq<Prop>, rest: seq<Token>, path: seq<Data>, m: Nodes)
    requires Key(path) in m
    ensures Exec(PropTokens(ps) + rest, path, m) == Exec(rest, path, m[Key(path) := AddProps(m[Key(path)], ps)])
    decreases |ps|
  {
    hide Key;
    if ps == [] {
      assert PropTokens(ps) + rest == rest && m[Key(path) := m[Key(path)]] == m;
    } else {
      var m1 := m[Key(path) := m[Key(path)][ps[0].name := ps[0].value]];
      assert (PropTokens(ps) + rest)[1..] == PropTokens(ps[1..]) + rest;
      assert (PropTokens(ps) + rest)[0] == Property(ps[0].name, ps[0].value);
      ExecProps(ps[1..], rest, path, m1);
      assert m1[Key(path) := AddProps(m1[Key(path)], ps[1..])] == m[Key(path) := AddProps(m[Key(path)], ps)];
    }
  }

  /** Running the structure block of a node records the node and everything below it. */
  lemma {:induction false} ExecNode(n: Node, rest: seq<Token>, parent: seq<Data>, m: Nodes)
    ensures Exec(Flatten(n) + rest, parent, m) == Exec(rest, parent, PutList(m, Listing(n, parent)))
    decreases n, 0
  {
    hide Key, AddProps;
    var path := parent + [n.name];
    var m1 := m[Key(path) := map[]];
    var m2 := m[Key(path) := PropMap(n.props)];
    var below := FlattenAll(n.children) + ([End] + rest);
    var ts := Flatten(n) + rest;
    assert ts == [Begin(n.name)] + (PropTokens(n.props) + below);
    assert ts[1..] == PropTokens(n.props) + below;
    ExecProps(n.props, below, path, m1);
    assert m1[Key(path) := AddProps(m1[Key(path)], n.props)] == m2;
    ExecAll(n.children, [End] + rest, path, m2);
    assert ([End] + rest)[1..] == rest && path[..|path| - 1] == parent;
    var l := ListingAll(n.children, path);
    assert Listing(n, parent)[1..] == l;
  }

  lemma {:induction false} ExecAll(ns: seq<Node>, rest: seq<Token>, path: seq<Data>, m: Nodes)
    ensures Exec(FlattenAll(ns) + rest, path, m) == Exec(rest, path, PutList(m, ListingAll(ns, path)))
    decreases ns, 1
  {
    hide Key, Flatten, Listing;
    if ns == [] {
      assert FlattenAll(ns) + rest == rest;
    } else {
      assert FlattenAll(ns) + rest == Flatten(ns[0]) + (FlattenAll(ns[1..]) + rest);
      ExecNode(ns[0], FlattenAll(ns[1..]) + rest, path, m);
      ExecAll(ns[1..], rest, path, PutList(m, Listing(ns[0], path)));
      PutListAppend(m, Listing(ns[0], path), ListingAll(ns[1..], path));
    }
  }

  // ---- Distinct paths ---------------------------------------------------------------------------------------

  predicate Plain(name: Data) {
    forall i :: 0 <= i < |name| ==> name[i] != SLASH
  }

  /** Names below the root are nonempty and without slashes, and siblings have different names. */
  predicate GoodChildren(ns: seq<Node>)
    decreases ns
  {
    && (forall i :: 0 <= i < |ns| ==> ns[i].name != [] && Plain(ns[i].name) && GoodChildren(ns[i].children))
    && (forall i, j :: 0 <= i < j < |ns| ==> ns[i].name != ns[j].name)
  }

  /** A path from the root: its empty name, then plain nonempty ones. */
  predicate GoodPath(p: seq<Data>) {
    && p != [] && p[0] == []
    && forall i :: 1 <= i < |p| ==> p[i] != [] && Plain(p[i])
  }

  lemma SplitAtSlash(a: Data, x: Data, b: Data, y: Data)
    requires Plain(x) && Plain(y) && a + [SLASH] + x == b + [SLASH] + y
    ensures a == b && x == y
  {
    var s := a + [SLASH] + x;
    var t := b + [SLASH] + y;
    assert forall i :: |a| < i < |s| ==> s[i] == x[i - |a| - 1];
    assert forall i :: |b| < i < |t| ==> t[i] == y[i - |b| - 1];
    assert s[|a|] == SLASH && t[|b|] == SLASH;
    assert |a| == |b|;
    assert s[..|a|] == a && t[..|b|] == b && s[|a| + 1..] == x && t[|b| + 1..] == y;
  }

  lemma {:induction false} JoinInjective(p: seq<Data>, q: seq<Data>)
    requires GoodPath(p) && GoodPath(q) && Join(p) == Join(q)
    ensures p == q
    decreases |p|
  {
    var m, n := |p| - 1, |q| - 1;
    if m > 0 && n > 0 {
      SplitAtSlash(Join(p[..m]), p[m], Join(q[..n]), q[n]);
      JoinInjective(p[..m], q[..n]);
      assert p == p[..m] + [p[m]] && q == q[..n] + [q[n]];
    }
  }

  /** Different paths have different keys. */
  lemma KeyInjective(p: seq<Data>, q: seq<Data>)
    requires GoodPath(p) && GoodPath(q) && Key(p) == Key(q)
    ensures p == q
  {
    JoinLength(p);
    JoinLength(q);
    if Join(p) == Join(q) {
      JoinInjective(p, q);
    }
  }

  lemma JoinLength(p: seq<Data>)
    requires GoodPath(p)
    ensures |p| == 1 ==> Join(p) == []
    ensures |p| > 1 ==> |Join(p)| >= 2
  {
  }

  predicate Below(p: seq<Data>, path: seq<Data>) {
    |path| < |p| && p[..|path|] == path
  }

  lemma {:induction false} ListingBelow(n: Node, parent: seq<Data>, i: nat)
    requires GoodChildren([n]) && i < |Listing(n, parent)|
    ensures var p := Listing(n, parent)[i].0;
            Below(p, parent) && p[|parent|] == n.name && (i > 0 ==> Below(p, parent + [n.name]))
    ensures GoodPath(parent) ==> GoodPath(Listing(n, parent)[i].0)
    decreases n, 0
  {
    hide AddProps, GoodChildren, Plain;
    assert n.name != [] && Plain(n.name) && GoodChildren(n.children) by { OneGood(n); }
    if i > 0 {
      ListingAllBelow(n.children, parent + [n.name], i - 1);
      var p := Listing(n, parent)[i].0;
      assert p == ListingAll(n.children, parent + [n.name])[i - 1].0;
      assert p[..|parent|] == p[..|parent| + 1][..|parent|];
    }
  }

  lemma OneGood(n: Node)
    requires GoodChildren([n])
    ensures n.name != [] && Plain(n.name) && GoodChildren(n.children)
  {
    assert [n][0] == n;
  }

  lemma FirstGood(ns: seq<Node>)
    requires GoodChildren(ns) && ns != []
    ensures GoodChildren([ns[0]]) && GoodChildren(ns[1..])
  {
  }

  lemma {:induction false} ListingAllBelow(ns: seq<Node>, path: seq<Data>, i: nat)
    requires GoodChildren(ns) && i < |ListingAll(ns, path)|
    ensures var p := ListingAll(ns, path)[i].0;
            Below(p, path) && exists k :: 0 <= k < |ns| && ns[k].name == p[|path|]
    ensures GoodPath(path) ==> GoodPath(ListingAll(ns, path)[i].0)
    decreases ns, 1
  {
    hide GoodChildren, Listing, Below, GoodPath;
    FirstGood(ns);
    var here := Listing(ns[0], path);
    if i < |here| {
      ListingBelow(ns[0], path, i);
      assert ns[0].name == ListingAll(ns, path)[i].0[|path|] by { BelowLonger(here[i].0, path); }
    } else {
      ListingAllBelow(ns[1..], path, i - |here|);
      BelowLonger(ListingAll(ns[1..], path)[i - |here|].0, path);
      var k :| 0 <= k < |ns[1..]| && ns[1..][k].name == ListingAll(ns, path)[i].0[|path|];
      assert ns[k + 1].name == ListingAll(ns, path)[i].0[|path|];
    }
  }

  lemma BelowLonger(p: seq<Data>, path: seq<Data>)
    requires Below(p, path)
    ensures |p| > |path|
  {
  }

  lemma {:induction false} ListingDistinct(n: Node, parent: seq<Data>, i: nat, j: nat)
    requires GoodChildren([n]) && i < j < |Listing(n, parent)|
    ensures Listing(n, parent)[i].0 != Listing(n, parent)[j].0
    decreases n, 0
  {
    hide GoodChildren, AddProps;
    OneGood(n);
    var path := parent + [n.name];
    if i == 0 {
      ListingBelow(n, parent, j);
    } else {
      ListingAllDistinct(n.children, path, i - 1, j - 1);
      assert Listing(n, parent)[i] == ListingAll(n.children, path)[i - 1];
      assert Listing(n, parent)[j] == ListingAll(n.children, path)[j - 1];
    }
  }

  lemma {:induction false} ListingAllDistinct(ns: seq<Node>, path: seq<Data>, i: nat, j: nat)
    requires GoodChildren(ns) && i < j < |ListingAll(ns, path)|
    ensures ListingAll(ns, path)[i].0 != ListingAll(ns, path)[j].0
    decreases ns, 1
  {
    hide GoodChildren, Listing, Below;
    FirstGood(ns);
    var here, rest := Listing(ns[0], path), ListingAll(ns[1..], path);
    if j < |here| {
      ListingDistinct(ns[0], path, i, j);
    } else if i >= |here| {
      ListingAllDistinct(ns[1..], path, i - |here|, j - |here|);
    } else {
      ListingBelow(ns[0], path, i);
      ListingAllBelow(ns[1..], path, j - |here|);
      BelowLonger(here[i].0, path);
      BelowLonger(rest[j - |here|].0, path);
      var k :| 0 <= k < |ns[1..]| && ns[1..][k].name == rest[j - |here|].0[|path|];
      SiblingsDiffer(ns, k + 1);
    }
  }

  lemma SiblingsDiffer(ns: seq<Node>, k: nat)
    requires GoodChildren(ns) && 0 < k < |ns|
    ensures ns[0].name != ns[k].name
  {
  }

  lemma {:induction false} PutListKeeps(m: Nodes, l: seq<Listed>, key: Data)
    requires key in m && forall i :: 0 <= i < |l| ==> Key(l[i].0) != key
    ensures key in PutList(m, l) && PutList(m, l)[key] == m[key]
    decreases |l|
  {
    hide Key;
    if l != [] {
      PutListKeeps(m[Key(l[0].0) := l[0].1], l[1..], key);
    }
  }

  lemma {:induction false} PutListHas(m: Nodes, l: seq<Listed>, i: nat)
    requires i < |l| && forall j :: i < j < |l| ==> Key(l[j].0) != Key(l[i].0)
    ensures Key(l[i].0) in PutList(m, l) && PutList(m, l)[Key(l[i].0)] == l[i].1
    decreases |l|
  {
    hide Key;
    var m1 := m[Key(l[0].0) := l[0].1];
    if i > 0 {
      PutListHas(m1, l[1..], i - 1);
    } else {
      PutListKeeps(m1, l[1..], Key(l[0].0));
    }
  }

  lemma {:induction false} PutListOnly(m: Nodes, l: seq<Listed>, key: Data)
    requires key in PutList(m, l)
    ensures key in m || exists i :: 0 <= i < |l| && Key(l[i].0) == key
    decreases |l|
  {
    hide Key;
    if l != [] {
      var m1 := m[Key(l[0].0) := l[0].1];
      PutListOnly(m1, l[1..], key);
      if key !in m1 {
        var i :| 0 <= i < |l[1..]| && Key(l[1..][i].0) == key;
        assert Key(l[i + 1].0) == key;
      }
    }
  }

  /** The listing of a tree: its paths are good and have different keys. */
  lemma TreeKeys(root: Node, i: nat, j: nat)
    requires root.name == [] && GoodChildren(root.children) && i < j < |Listing(root, [])|
    ensures Key(Listing(root, [])[i].0) != Key(Listing(root, [])[j].0)
  {
    hide GoodChildren, Key, AddProps, Plain;
    var path := [root.name];
    var below := ListingAll(root.children, path);
    var l := Listing(root, []);
    assert [] + [root.name] == path;
    assert GoodPath(path);
    ListingAllBelow(root.children, path, j - 1);
    if i == 0 {
      assert l[0].0 == path && l[j] == below[j - 1];
    } else {
      ListingAllBelow(root.children, path, i - 1);
      ListingAllDistinct(root.children, path, i - 1, j - 1);
      assert l[i] == below[i - 1] && l[j] == below[j - 1];
    }
    if Key(l[i].0) == Key(l[j].0) {
      KeyInjective(l[i].0, l[j].0);
    }
  }

  lemma {:induction false} StopSurvives(ts: seq<Token>)
    requires Stop in NoNops(ts)
    ensures Stop in ts
  {
    if ts[0] != Stop {
      StopSurvives(ts[1..]);
    }
  }

  /** A device tree serialised in `d`: the header, the encoded structure block with NOP tokens anywhere between
      its tokens, and the strings its properties are named by. */
  predicate Serialised(d: Data, root: Node, ts: seq<Token>, offsets: map<Data, nat>) {
    && |d| >= 16 && Be32(d, 0) == MAGIC && Be32(d, 8) % 4 == 0
    && (forall i :: 0 <= i < |ts| ==> Encodable(ts[i], offsets))
    && NoNops(ts) == Flatten(root) + [Stop]
    && At(d, Be32(d, 8), EncodeAll(ts, offsets))
    && StringsOk(d, Be32(d, 12), offsets)
  }

  /** What the reader makes of a serialised tree, whatever NOPs are in it. */
  lemma ReadsTree(d: Data, root: Node, ts: seq<Token>, offsets: map<Data, nat>)
    requires Serialised(d, root, ts, offsets)
    ensures Parse(d, Be32(d, 12), Be32(d, 8), [], map[]) == Some(PutList(map[], Listing(root, [])))
  {
    hide Be32, EncodeAll, Flatten, Listing, StringsOk, Encodable, At, Parse, PutList;
    assert (Flatten(root) + [Stop])[|Flatten(root)|] == Stop;
    StopSurvives(ts);
    ReadAll(d, Be32(d, 12), offsets, Be32(d, 8), ts, [], map[]);
    NopsIgnored(ts, [], map[]);
    ExecNode(root, [Stop], [], map[]);
  }

  /** For every serialised tree whose sibling names differ, the reader returns exactly the map from each node's
      full path to that node's properties. */
  lemma ReadsExactlyTheTree(d: Data, root: Node, ts: seq<Token>, offsets: map<Data, nat>)
    requires Serialised(d, root, ts, offsets) && root.name == [] && GoodChildren(root.children)
    ensures var r, l := Parse(d, Be32(d, 12), Be32(d, 8), [], map[]), Listing(root, []);
            && r.Some?
            && (forall i :: 0 <= i < |l| ==> Key(l[i].0) in r.value && r.value[Key(l[i].0)] == l[i].1)
            && (forall key :: key in r.value ==> exists i :: 0 <= i < |l| && Key(l[i].0) == key)
  {
    hide Serialised, Parse, Be32, Listing, PutList, GoodChildren, Key;
    ReadsTree(d, root, ts, offsets);
    var l := Listing(root, []);
    var m := PutList(map[], l);
    forall i | 0 <= i < |l| ensures Key(l[i].0) in m && m[Key(l[i].0)] == l[i].1 {
      forall j | i < j < |l| ensures Key(l[j].0) != Key(l[i].0) {
        TreeKeys(root, i, j);
      }
      PutListHas(map[], l, i);
    }
    forall key | key in m ensures exists i :: 0 <= i < |l| && Key(l[i].0) == key {
      PutListOnly(map[], l, key);
    }
  }
}
