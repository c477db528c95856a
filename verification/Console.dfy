/** Telnet stripping and the charging-current code of the iPad console.
    boot/ipad_console.py:68-87, 419-425, 492-502. */
module Console {
  import opened Common

  const IAC := 0xff

  // ---- Telnet -----------------------------------------------------------------------------------------------

  /** What a Telnet stream is made of ('TELNET COMMAND STRUCTURE' in RFC 854): a data byte, IAC IAC for the data
      byte 255, a three-byte option negotiation, or a two-byte command. */
  datatype Token = Plain(b: Byte) | Doubled | Negotiation(verb: Byte, option: Byte) | Command(code: Byte)

  predicate IsVerb(b: Byte) {
    b in {0xfb, 0xfc, 0xfd, 0xfe}
  }

  predicate Proper(t: Token) {
    match t
    case Plain(b) => b != IAC
    case Doubled => true
    case Negotiation(verb, _) => IsVerb(verb)
    case Command(code) => code != IAC && !IsVerb(code)
  }

  function Encode(t: Token): Data {
    match t
    case Plain(b) => [b]
    case Doubled => [IAC, IAC]
    case Negotiation(verb, option) => [IAC, verb, option]
    case Command(code) => [IAC, code]
  }

  function EncodeAll(ts: seq<Token>): Data {
    if ts == [] then [] else Encode(ts[0]) + EncodeAll(ts[1..])
  }

  /** The data bytes of a stream. */
  function DataOf(ts: seq<Token>): Data {
    if ts == [] then [] else Datum(ts[0]) + DataOf(ts[1..])
  }

  function Datum(t: Token): Data {
    match t
    case Plain(b) => [b]
    case Doubled => [IAC]
    case _ => []
  }

  /** `_strip_iac` from position `i`. */
  function Strip(data: Data, i: nat): Data
    decreases |data| - i
  {
    if i >= |data| then []
    else if data[i] == IAC then
      if i + 1 < |data| && IsVerb(data[i + 1]) then Strip(data, i + 3)
      else if i + 1 < |data| && data[i + 1] == IAC then [IAC] + Strip(data, i + 2)
      else Strip(data, i + 2)
    else [data[i]] + Strip(data, i + 1)
  }

  method StripIac(data: Data) returns (out: Data)
    ensures out == Strip(data, 0)
  {
    out := [];
    var i := 0;
    while i < |data|
      invariant i >= 0 && out + Strip(data, i) == Strip(data, 0)
      decreases |data| - i
    {
      ghost var was := out;
      ghost var rest := Strip(data, i);
      if data[i] == IAC {
        if i + 1 < |data| && IsVerb(data[i + 1]) {
          i := i + 3;
          continue;
        }
        if i + 1 < |data| && data[i + 1] == IAC {
          out := out + [IAC];
          i := i + 2;
          assert out + Strip(data, i) == was + rest;
          continue;
        }
        i := i + 2;
        continue;
      }
      out := out + [data[i]];
      i := i + 1;
      assert out + Strip(data, i) == was + rest;
    }
  }

  /** One round of the loop. */
  lemma StripRound(data: Data, i: nat)
    ensures i >= |data| ==> Strip(data, i) == []
    ensures i < |data| && data[i] != IAC ==> Strip(data, i) == [data[i]] + Strip(data, i + 1)
    ensures i < |data| && data[i] == IAC ==>
              Strip(data, i) == if i + 1 < |data| && IsVerb(data[i + 1]) then Strip(data, i + 3)
                                else if i + 1 < |data| && data[i + 1] == IAC then [IAC] + Strip(data, i + 2)
                                else Strip(data, i + 2)
  {
    hide IsVerb;
  }

  /** Stripping depends only on the bytes from the position on. */
  lemma {:induction false} StripSame(a: Data, i: nat, b: Data, j: nat)
    requires |a| - i == |b| - j && forall k :: i <= k < |a| ==> a[k] == b[k - i + j]
    ensures Strip(a, i) == Strip(b, j)
    decreases |a| - i
  {
    hide Strip, IsVerb;
    StripRound(a, i);
    StripRound(b, j);
    if i < |a| {
      assert a[i] == b[j];
      if a[i] != IAC {
        StripSame(a, i + 1, b, j + 1);
      } else {
        assert i + 1 < |a| ==> a[i + 1] == b[j + 1];
        if i + 1 < |a| && IsVerb(a[i + 1]) {
          StripSame(a, i + 3, b, j + 3);
        } else {
          StripSame(a, i + 2, b, j + 2);
        }
      }
    }
  }

  lemma StripShift(pre: Data, data: Data, i: nat)
    ensures Strip(pre + data, |pre| + i) == Strip(data, i)
  {
    hide Strip;
    StripSame(pre + data, |pre| + i, data, i);
  }

  lemma StripOne(t: Token, rest: Data)
    requires Proper(t)
    ensures Strip(Encode(t) + rest, 0) == Datum(t) + Strip(rest, 0)
  {
    var x := Encode(t);
    var all := x + rest;
    StripShift(x, rest, 0);
    assert all[0] == x[0] && (|x| > 1 ==> all[1] == x[1]);
    match t
    case Plain(b) => assert Strip(all, 0) == [b] + Strip(all, 1);
    case Doubled => assert Strip(all, 0) == [IAC] + Strip(all, 2);
    case Negotiation(_, _) => assert Strip(all, 0) == Strip(all, 3);
    case Command(_) => assert Strip(all, 0) == Strip(all, 2);
  }

  lemma Regroup(a: Data, b: Data, c: Data)
    ensures a + b + c == a + (b + c)
  {
  }

  /** Stripping a stream of tokens followed by anything gives the tokens' data bytes, then what stripping the rest
      alone gives. */
  lemma {:induction false} StripTokens(ts: seq<Token>, rest: Data)
    requires forall i :: 0 <= i < |ts| ==> Proper(ts[i])
    ensures Strip(EncodeAll(ts) + rest, 0) == DataOf(ts) + Strip(rest, 0)
  {
    hide Strip, Encode, Datum, Proper;
    if ts == [] {
      assert EncodeAll(ts) + rest == rest;
    } else {
      StripTokens(ts[1..], rest);
      Regroup(Encode(ts[0]), EncodeAll(ts[1..]), rest);
      StripOne(ts[0], EncodeAll(ts[1..]) + rest);
      Regroup(Datum(ts[0]), DataOf(ts[1..]), Strip(rest, 0));
    }
  }

  /** Exactly the data bytes of any stream of tokens. */
  lemma StripIsData(ts: seq<Token>)
    requires forall i :: 0 <= i < |ts| ==> Proper(ts[i])
    ensures Strip(EncodeAll(ts), 0) == DataOf(ts)
  {
    StripTokens(ts, []);
    assert EncodeAll(ts) + [] == EncodeAll(ts);
  }

  /** Cutting a stream between tokens changes nothing: the parts are stripped independently. */
  lemma StripHomomorphic(a: seq<Token>, b: seq<Token>)
    requires forall i :: 0 <= i < |a| ==> Proper(a[i])
    ensures Strip(EncodeAll(a) + EncodeAll(b), 0) == Strip(EncodeAll(a), 0) + Strip(EncodeAll(b), 0)
  {
    StripTokens(a, EncodeAll(b));
    StripIsData(a);
  }

  /** A stream cut inside a token: what is left over. */
  predicate CutShort(tail: Data) {
    tail == [] || tail == [IAC] || (|tail| == 2 && tail[0] == IAC && IsVerb(tail[1]))
  }

  /** Every byte string is a stream of tokens with at most one cut token at the end, whose bytes are dropped. */
  lemma {:induction false} EveryStream(data: Data) returns (ts: seq<Token>, tail: Data)
    ensures forall i :: 0 <= i < |ts| ==> Proper(ts[i])
    ensures data == EncodeAll(ts) + tail && CutShort(tail)
    ensures Strip(data, 0) == DataOf(ts)
    decreases |data|
  {
    if CutShort(data) {
      ts, tail := [], data;
      assert EncodeAll([]) + tail == data;
      CutIsDropped(data);
    } else {
      var t := FirstToken(data);
      FirstTokenIs(data);
      hide Strip, CutShort, FirstToken, Encode, Proper, Datum;
      var n := |Encode(t)|;
      var more;
      more, tail := EveryStream(data[n..]);
      ts := [t] + more;
      assert ts[0] == t && ts[1..] == more;
      Regroup(Encode(t), EncodeAll(more), tail);
      StripTokens(ts, tail);
      CutIsDropped(tail);
    }
  }

  /** The token a stream starts with. */
  function FirstToken(data: Data): Token
    requires !CutShort(data)
  {
    if data[0] != IAC then Plain(data[0])
    else if data[1] == IAC then Doubled
    else if IsVerb(data[1]) then Negotiation(data[1], data[2])
    else Command(data[1])
  }

  lemma FirstTokenIs(data: Data)
    requires !CutShort(data)
    ensures var t := FirstToken(data);
            Proper(t) && 0 < |Encode(t)| <= |data| && data == Encode(t) + data[|Encode(t)|..]
  {
  }

  lemma CutIsDropped(tail: Data)
    requires CutShort(tail)
    ensures Strip(tail, 0) == []
  {
  }

  // ---- Charging current -------------------------------------------------------------------------------------

  const MAX_CODE := 0xfd
  const MAX_MA := 2400

  /** `_charging_current_ma` */
  function Current(code: int): int {
    if code >= 0xfe then 3262 else 75 + (100 * code + 7) / 8
  }

  /** Python's `round(n / 100)`: to nearest, ties to even. */
  function RoundHundredths(n: int): int {
    var q, r := n / 100, n % 100;
    if r < 50 || (r == 50 && q % 2 == 0) then q else q + 1
  }

  function Hundredths(ma: int): int {
    (ma - 75) * 8 - 7
  }

  /** `_charging_current_code` */
  function Code(ma: int): (code: int)
    ensures 0 <= code <= MAX_CODE
  {
    var code := RoundHundredths(Hundredths(ma));
    if code < 0 then 0 else if code > MAX_CODE then MAX_CODE else code
  }

  /** No target is halfway between two codes, so the rule for ties never matters. */
  lemma NoTie(ma: int)
    ensures Hundredths(ma) % 100 != 50
    ensures RoundHundredths(Hundredths(ma)) == (Hundredths(ma) + 50) / 100
  {
    var n := Hundredths(ma);
    assert n == 2 * (4 * (ma - 75) - 4) + 1;
    assert n == 2 * (50 * (n / 100)) + n % 100;
  }

  /** Encoding undoes decoding on every code below the cap. */
  lemma CodeInverts(code: int)
    requires 0 <= code <= MAX_CODE
    ensures Code(Current(code)) == code
  {
    var ma := Current(code);
    NoTie(ma);
    var r := (100 * code + 7) % 8;
    assert 8 * (ma - 75) == 100 * code + 7 - r;
    assert Hundredths(ma) + 50 == 100 * code + 50 - r;
  }

  /** A larger target never gets a smaller code, and a larger code never a smaller current. */
  lemma Monotone(a: int, b: int)
    requires a <= b
    ensures Code(a) <= Code(b)
    ensures 0 <= a ==> Current(a) <= Current(b)
  {
    NoTie(a);
    NoTie(b);
  }

  /** Between the ends, the current a code gives is at most 7 mA below and 6 mA above the target. */
  lemma CodeError(ma: int)
    requires 0 <= RoundHundredths(Hundredths(ma)) <= MAX_CODE
    ensures -7 <= Current(Code(ma)) - ma <= 6
  {
    NoTie(ma);
    var n, code := Hundredths(ma), Code(ma);
    assert 100 * code <= n + 50 < 100 * code + 100;
    var t := 100 * code + 7;
    assert 8 * (t / 8) <= t < 8 * (t / 8) + 8;
  }

  /** The custom entry of the charging menu: refused above the validated maximum. */
  function Custom(target: int): Option<int> {
    if target > MAX_MA then None else Some(Code(target))
  }

  /** No accepted custom target is set above the validated maximum. */
  lemma CustomWithinLimit(target: int)
    requires Custom(target).Some?
    ensures Current(Custom(target).value) <= MAX_MA
  {
    Monotone(target, MAX_MA);
    NoTie(MAX_MA);
    assert Code(MAX_MA) == 186;
    Monotone(Code(target), 186);
    assert Current(186) == 2400;
  }
}
