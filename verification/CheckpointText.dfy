/** The text of the checkpoint protocol: how a probe prints a stage line, how the watchdog supervisor
    classifies it, and how the host cuts a byte stream back into lines.
    boot/gpu-bridge-once.c, boot/gpu-gpc-init.c, boot/gpu-pmgr-peek.c, boot/gpu-watchdog-supervisor.c. */
module CheckpointText {
  import opened Common

  type Word = x: int | 0 <= x < 0x1_0000_0000

  // ---- Numbers as printf and Python format them -------------------------------------------------

  predicate IsHexChar(c: char) {
    '0' <= c <= '9' || 'a' <= c <= 'f'
  }

  function HexDigit(d: nat): (c: char)
    requires d < 16
    ensures IsHexChar(c) && DigitValue(c) == d
  {
    if d < 10 then ('0' as int + d) as char else ('a' as int + d - 10) as char
  }

  /** `%0<width>x` of a value that fits the width. */
  function Hex(v: nat, width: nat): (s: string)
    ensures |s| == width
    ensures forall i :: 0 <= i < |s| ==> IsHexChar(s[i])
  {
    if width == 0 then "" else Hex(v / 16, width - 1) + [HexDigit(v % 16)]
  }

  /** `%x`: no leading zeros. */
  function MinHex(v: nat): (s: string)
    ensures |s| > 0
    ensures forall i :: 0 <= i < |s| ==> IsHexChar(s[i])
  {
    if v < 16 then [HexDigit(v)] else MinHex(v / 16) + [HexDigit(v % 16)]
  }

  function Dec(n: nat): (s: string)
    ensures |s| > 0
    ensures forall i :: 0 <= i < |s| ==> IsHexChar(s[i])
  {
    if n < 10 then [HexDigit(n)] else Dec(n / 10) + [HexDigit(n % 10)]
  }

  /** `%02u` */
  function Dec2(n: nat): (s: string)
    ensures |s| > 0
    ensures forall i :: 0 <= i < |s| ==> IsHexChar(s[i])
  {
    if n < 10 then "0" + Dec(n) else Dec(n)
  }

  function DigitValue(c: char): (d: nat)
    ensures d < 16
  {
    if '0' <= c <= '9' then (c as int) - ('0' as int)
    else if 'a' <= c <= 'f' then (c as int) - ('a' as int) + 10
    else 0
  }

  /** `int(text, 16)` on lower-case digits. */
  function ParseHex(s: string): nat {
    if s == "" then 0 else 16 * ParseHex(s[..|s| - 1]) + DigitValue(s[|s| - 1])
  }

  lemma {:induction false} ParseHexInvertsHex(v: nat, width: nat)
    requires v < Pow16(width)
    ensures ParseHex(Hex(v, width)) == v
  {
    if width > 0 {
      ParseHexInvertsHex(v / 16, width - 1);
      var s := Hex(v, width);
      assert s[..|s| - 1] == Hex(v / 16, width - 1);
      assert s[|s| - 1] == HexDigit(v % 16);
    }
  }

  /** Lower-case digits are reproduced from their value. */
  lemma {:induction false} HexInvertsParse(s: string)
    requires forall i :: 0 <= i < |s| ==> IsHexChar(s[i])
    ensures ParseHex(s) < Pow16(|s|) && Hex(ParseHex(s), |s|) == s
  {
    if s != "" {
      var front := s[..|s| - 1];
      var last := s[|s| - 1];
      HexInvertsParse(front);
      var v := ParseHex(s);
      assert v / 16 == ParseHex(front) && v % 16 == DigitValue(last);
      assert HexDigit(DigitValue(last)) == last;
      assert s == front + [last];
    }
  }

  lemma Pow16Of8()
    ensures Pow16(8) == 0x1_0000_0000
  {
    assert Pow16(4) == 0x1_0000;
    assert Pow16(6) == 0x100_0000;
  }

  lemma HexWordInjective(a: Word, b: Word)
    requires Hex(a, 8) == Hex(b, 8)
    ensures a == b
  {
    Pow16Of8();
    ParseHexInvertsHex(a, 8);
    ParseHexInvertsHex(b, 8);
  }

  // ---- Stage lines --------------------------------------------------------------------------------

  datatype Line =
    | WatchdogOpen
    | WatchdogArmed
    | WatchdogDisarmed
    | BeforePmgr
    | AfterPmgr(raw: Word)
    | Before(name: string, address: nat, op: string, value: Word)
    | After(name: string, value: Word)
    | Finished(rc: nat)

  /** `value & 0xf`, `(value >> 4) & 0xf`, `(value >> 28) & 1` and `value >> 31` */
  function PmgrTail(raw: Word): string {
    " target=" + Dec(raw % 16) + " actual=" + Dec(raw / 16 % 16) +
    " auto=" + Dec(raw / 0x1000_0000 % 2) + " reset=" + Dec(raw / 0x8000_0000)
  }

  /** The printed line, without its newline. */
  function Text(line: Line): string {
    match line
    case WatchdogOpen => "stage=before-watchdog-open"
    case WatchdogArmed => "stage=watchdog-armed timeout=20"
    case WatchdogDisarmed => "stage=watchdog-disarmed"
    case BeforePmgr => "stage=before-" + "pmgr-read " + "address=0x20e020320" + " width=32"
    case AfterPmgr(raw) => "stage=after-" + "pmgr-read raw=0x" + Hex(raw, 8) + PmgrTail(raw)
    case Before(name, address, op, value) =>
      "stage=before-" + name + " address=0x" + MinHex(address) + " op=" + op + " value=0x" + Hex(value, 8)
    case After(name, value) => "stage=after-" + name + " value=0x" + Hex(value, 8)
    case Finished(rc) => "stage=finished rc=" + Dec(rc)
  }

  predicate StartsWith(s: string, prefix: string) {
    prefix <= s
  }

  /** `strstr` / Python's `in` on strings. */
  predicate Contains(s: string, sub: string) {
    exists i {:trigger s[i..]} :: 0 <= i <= |s| && sub <= s[i..]
  }

  /** A line the host compares equal was printed with the same value. */
  lemma BeforeTextInjective(name: string, address: nat, op: string, a: Word, b: Word)
    requires Text(Before(name, address, op, a)) == Text(Before(name, address, op, b))
    ensures a == b
  {
    SuffixInjective("stage=before-" + name + " address=0x" + MinHex(address) + " op=" + op + " value=0x", a, b);
  }

  lemma SuffixInjective(p: string, a: Word, b: Word)
    requires p + Hex(a, 8) == p + Hex(b, 8)
    ensures a == b
  {
    assert (p + Hex(a, 8))[|p|..] == Hex(a, 8);
    assert (p + Hex(b, 8))[|p|..] == Hex(b, 8);
    HexWordInjective(a, b);
  }

  lemma MiddleInjective(p: string, a: Word, s: string, b: Word, t: string)
    requires p + Hex(a, 8) + s == p + Hex(b, 8) + t
    ensures a == b
  {
    assert (p + Hex(a, 8) + s)[|p|..|p| + 8] == Hex(a, 8);
    assert (p + Hex(b, 8) + t)[|p|..|p| + 8] == Hex(b, 8);
    HexWordInjective(a, b);
  }

  lemma AfterPmgrTextInjective(a: Word, b: Word)
    requires Text(AfterPmgr(a)) == Text(AfterPmgr(b))
    ensures a == b
  {
    MiddleInjective("stage=after-" + "pmgr-read raw=0x", a, PmgrTail(a), b, PmgrTail(b));
  }
}
