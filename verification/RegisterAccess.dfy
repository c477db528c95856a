/** One checkpointed register access, as both one-shot GPC programs do it, and what the host makes of the
    lines it prints. boot/gpu-gpc-init.c:17-35, boot/gpu-fender-wake.c:15-31. */
module RegisterAccess {
  import opened Common
  import opened CheckpointText
  import opened CheckpointFraming
  import opened BridgeHost

  datatype Register = Register(name: string, offset: nat, op: string, value: Word)

  const GPC_BASE := 0x2_01e0_0000

  predicate Busy(value: Word) {
    value / 16 % 2 == 1
  }

  /** It is bit 4, whatever the others are. */
  lemma BusyIsBit4(value: Word, high: nat, low: nat)
    requires low < 16
    ensures value == 32 * high + 16 + low ==> Busy(value)
    ensures value == 32 * high + low ==> !Busy(value)
  {
    assert (32 * high + 16 + low) / 16 == 2 * high + 1 && (32 * high + low) / 16 == 2 * high;
  }

  function BeforeReg(r: Register): Line {
    Before(r.name, GPC_BASE + r.offset, r.op, r.value)
  }

  datatype Touch = Touch(offset: nat, op: string, value: Word)

  /** What one run prints, does to the registers and returns. */
  datatype Trace = Trace(lines: seq<Line>, touches: seq<Touch>, rc: nat)

  function Then(lines: seq<Line>, touches: seq<Touch>, rest: Trace): Trace {
    Trace(lines + rest.lines, touches + rest.touches, rest.rc)
  }

  const FAILED := Trace([Finished(1)], [], 1)

  /** `access_reg` followed by `rest`: without an ACCESS answer the program finishes with status 1. */
  function AccessThen(r: Register, value: Word, acks: nat, rest: Trace): Trace {
    if acks == 0 then Then([BeforeReg(r)], [], FAILED)
    else Then([BeforeReg(r), After(r.name, value)], [Touch(r.offset, r.op, value)], rest)
  }

  lemma ThenThen(a: seq<Line>, b: seq<Touch>, c: seq<Line>, d: seq<Touch>, rest: Trace)
    ensures Then(a, b, Then(c, d, rest)) == Then(a + c, b + d, rest)
  {
    assert a + (c + rest.lines) == a + c + rest.lines;
    assert b + (d + rest.touches) == b + d + rest.touches;
  }

  /** One access as the program does it: print, wait, access, print. */
  method AccessReg(r: Register, reading: Word, acks: nat) returns (ok: bool, lines: seq<Line>, touches: seq<Touch>, value: Word)
    ensures ok <==> acks > 0
    ensures value == if ok && r.op != "write" then reading else r.value
    ensures ok ==> lines == [BeforeReg(r), After(r.name, value)] && touches == [Touch(r.offset, r.op, value)]
    ensures !ok ==> lines == [BeforeReg(r)] && touches == []
  {
    value := r.value;
    lines, touches := [BeforeReg(r)], [];
    if acks == 0 {
      return false, lines, touches, value;
    }
    if r.op != "write" {
      value := reading;
    }
    touches := [Touch(r.offset, r.op, value)];
    lines := lines + [After(r.name, value)];
    ok := true;
  }

  // ---- What the host makes of the lines -------------------------------------------------------------------

  /** `re.fullmatch(rb"stage=after-<name> value=0x([0-9a-f]{8})", line)` */
  function MatchAfter(name: string, line: string): (m: Option<nat>) {
    var prefix := "stage=after-" + name + " value=0x";
    if |line| == |prefix| + 8 && prefix <= line && forall i :: |prefix| <= i < |line| ==> IsHexChar(line[i])
    then Some(ParseHex(line[|prefix|..])) else None
  }

  lemma MatchAfterText(name: string, value: Word)
    ensures MatchAfter(name, Text(After(name, value))) == Some(value)
  {
    var prefix := "stage=after-" + name + " value=0x";
    var line := prefix + Hex(value, 8);
    assert line[..|prefix|] == prefix && line[|prefix|..] == Hex(value, 8);
    assert forall i :: |prefix| <= i < |line| ==> line[i] == Hex(value, 8)[i - |prefix|];
    Pow16Of8();
    ParseHexInvertsHex(value, 8);
  }

  /** Only the printed "after" line matches. */
  lemma MatchAfterOnly(name: string, line: string)
    requires MatchAfter(name, line).Some?
    ensures MatchAfter(name, line).value < 0x1_0000_0000
    ensures line == Text(After(name, MatchAfter(name, line).value))
  {
    var prefix := "stage=after-" + name + " value=0x";
    var digits := line[|prefix|..];
    assert forall i :: 0 <= i < |digits| ==> digits[i] == line[|prefix| + i];
    HexInvertsParse(digits);
    Pow16Of8();
    assert line == prefix + digits;
  }

  function Exchange(r: Register, value: Word): seq<Line> {
    [BeforeReg(r), After(r.name, value)]
  }

  predicate AllBusy(values: seq<Word>) {
    forall i :: 0 <= i < |values| ==> Busy(values[i])
  }

  function TextsOf(lines: seq<Line>): seq<string> {
    seq(|lines|, i requires 0 <= i < |lines| => Text(lines[i]))
  }

  lemma TextsOfAppend(a: seq<Line>, b: seq<Line>)
    ensures TextsOf(a + b) == TextsOf(a) + TextsOf(b)
  {
    hide Text;
  }

  lemma FinishedIsNotAfter(name: string, rc: nat)
    ensures MatchAfter(name, Text(Finished(rc))) == None
  {
    var prefix := "stage=after-" + name + " value=0x";
    var line := Text(Finished(rc));
    assert line[6] == 'f' && prefix[6] == 'a';
    if prefix <= line {
      PrefixAgrees(prefix, line);
    }
  }

  lemma PrefixAgrees(a: string, b: string)
    requires a <= b
    ensures forall i :: 0 <= i < |a| ==> a[i] == b[i]
  {
  }

  lemma DeviceLinesAreStage(name: string, address: nat, op: string, value: Word, rc: nat)
    ensures StartsWith(Text(Before(name, address, op, value)), "stage=")
    ensures StartsWith(Text(After(name, value)), "stage=") && StartsWith(Text(Finished(rc)), "stage=")
    ensures StartsWith(Text(WatchdogDisarmed), "stage=")
  {
    BeforeIsStage(name, address, op, value);
    FinishedIsPlain(rc);
    WatchdogIsPlain(WatchdogDisarmed);
    assert "stage=after-"[..6] == "stage=";
    PrefixConcat("stage=", "stage=after-", name);
    PrefixConcat("stage=", "stage=after-" + name, " value=0x");
    PrefixConcat("stage=", "stage=after-" + name + " value=0x", Hex(value, 8));
  }

  lemma NotFinished(rc: nat)
    requires rc > 0
    ensures Text(Finished(rc)) != Text(Finished(0))
  {
    CueOfFinished(rc);
    CueOfFinished(0);
    hide CueOf, Text;
  }

  function PollTouches(values: seq<Word>): seq<Touch> {
    seq(|values|, j requires 0 <= j < |values| => Touch(0x1000, "read", values[j]))
  }
}
