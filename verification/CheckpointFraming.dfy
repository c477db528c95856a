/** Cutting the host's byte stream back into lines, and the supervisor's reading of one line.
    boot/gpu_bridge_capture.py:63-75, boot/gpu-watchdog-supervisor.c:94-108. */
module CheckpointFraming {
  import opened CheckpointText

  /** What the host sends back, one line each. */
  datatype Reply = ARM | READ | ACCESS | FEED(n: nat)

  predicate Plain(s: string) {
    forall i :: 0 <= i < |s| ==> s[i] != '\n' && s[i] != '\r'
  }

  // ---- `line.strip(b"\r")` ------------------------------------------------------------------------

  function StripRight(s: string): string {
    if s != "" && s[|s| - 1] == '\r' then StripRight(s[..|s| - 1]) else s
  }

  function StripLeft(s: string): string {
    if s != "" && s[0] == '\r' then StripLeft(s[1..]) else s
  }

  function Strip(s: string): string {
    StripLeft(StripRight(s))
  }

  /** A tty may turn the newline into CR LF: either way the host sees the printed text. */
  lemma StripTerminal(text: string)
    requires Plain(text)
    ensures Strip(text) == text && Strip(text + "\r") == text
  {
    assert (text + "\r")[..|text|] == text;
    assert StripRight(text) == text;
    assert StripRight(text + "\r") == text;
  }

  // ---- Lines in a byte stream ---------------------------------------------------------------------

  function Join(lines: seq<string>): string {
    if lines == [] then "" else lines[0] + "\n" + Join(lines[1..])
  }

  ghost predicate Clean(lines: seq<string>) {
    forall i :: 0 <= i < |lines| ==> '\n' !in lines[i]
  }

  lemma {:induction false} JoinAppend(lines: seq<string>, raw: string)
    ensures Join(lines + [raw]) == Join(lines) + raw + "\n"
  {
    if lines == [] {
      assert Join([raw]) == raw + "\n" + Join([]);
      assert lines + [raw] == [raw];
    } else {
      JoinAppend(lines[1..], raw);
      assert (lines + [raw])[1..] == lines[1..] + [raw];
      assert Join(lines + [raw]) == lines[0] + "\n" + (Join(lines[1..]) + raw + "\n");
    }
  }

  /** `buffer.split(b"\n", 1)` cuts at the first newline. */
  function FirstNewline(buffer: string): (i: nat)
    requires '\n' in buffer
    ensures i < |buffer| && buffer[i] == '\n' && '\n' !in buffer[..i]
  {
    if buffer[0] == '\n' then 0
    else
      assert buffer == [buffer[0]] + buffer[1..];
      var j := FirstNewline(buffer[1..]);
      assert buffer[..j + 1] == [buffer[0]] + buffer[1..][..j];
      j + 1
  }

  /** However the stream was cut into chunks, the first buffered line is the first line written. */
  lemma SplitFirst(lines: seq<string>, buffer: string, wire: string)
    requires Clean(lines) && buffer + wire == Join(lines) && '\n' in buffer
    ensures lines != []
    ensures var i := FirstNewline(buffer);
            buffer[..i] == lines[0] && buffer[i + 1..] + wire == Join(lines[1..])
  {
    var i := FirstNewline(buffer);
    var all := Join(lines);
    assert all[i] == buffer[i] == '\n';
    var n := |lines[0]|;
    assert all == lines[0] + "\n" + Join(lines[1..]);
    assert all[n] == '\n' && all[..n] == lines[0];
    assert forall k :: 0 <= k < |buffer| && k < n ==> buffer[k] == all[k] == lines[0][k] != '\n';
    assert i >= n;
    assert forall k :: 0 <= k < i ==> buffer[..i][k] == buffer[k] == all[k] != '\n';
    assert buffer[..i] == all[..i] && all[i + 1..] == Join(lines[1..]);
    assert buffer[i + 1..] + wire == all[i + 1..];
  }

  /** No newline buffered: the host holds at most the start of the first unread line. */
  lemma PartialLine(lines: seq<string>, buffer: string, wire: string)
    requires buffer + wire == Join(lines) && '\n' !in buffer
    ensures buffer == "" || (lines != [] && |buffer| <= |lines[0]|)
  {
    if buffer != "" {
      var all := Join(lines);
      assert all == lines[0] + "\n" + Join(lines[1..]);
      assert all[|lines[0]|] == '\n';
      assert forall k :: 0 <= k < |buffer| ==> all[k] == buffer[k] != '\n';
    }
  }

  lemma ContainsPrefix(s: string, t: string, sub: string)
    requires Contains(s, sub)
    ensures Contains(s + t, sub)
  {
    var i :| 0 <= i <= |s| && sub <= s[i..];
    assert (s + t)[i..] == s[i..] + t;
  }

  /** A pattern found in `a + "\n" + b` lies in `a`, or in `b`, or holds the newline. */
  lemma ContainsAcrossNewline(a: string, b: string, sub: string)
    requires Contains(a + "\n" + b, sub)
    ensures Contains(a, sub) || Contains(b, sub) || '\n' in sub
  {
    var s := a + "\n" + b;
    var i :| 0 <= i <= |s| && sub <= s[i..];
    if i + |sub| <= |a| {
      assert s[i..i + |sub|] == a[i..i + |sub|];
      assert sub <= a[i..];
    } else if i > |a| {
      assert s[i..] == b[i - |a| - 1..];
    } else {
      assert s[|a|] == '\n' && s[i..][|a| - i] == sub[|a| - i];
    }
  }

  lemma {:induction false} NoneInJoin(lines: seq<string>, sub: string)
    requires forall i :: 0 <= i < |lines| ==> !Contains(lines[i], sub)
    requires sub != "" && '\n' !in sub
    ensures !Contains(Join(lines), sub)
  {
    if lines != [] {
      NoneInJoin(lines[1..], sub);
      if Contains(Join(lines), sub) {
        ContainsAcrossNewline(lines[0], Join(lines[1..]), sub);
      }
    }
  }

  /** While only terminal echo is in flight, the host's `b"stage=" in buffer` test is false. */
  lemma NoneInBuffer(lines: seq<string>, buffer: string, wire: string, sub: string)
    requires forall i :: 0 <= i < |lines| ==> !Contains(lines[i], sub)
    requires sub != "" && '\n' !in sub && buffer + wire == Join(lines)
    ensures !Contains(buffer, sub)
  {
    NoneInJoin(lines, sub);
    if Contains(buffer, sub) {
      ContainsPrefix(buffer, wire, sub);
    }
  }

  // ---- Stage lines among the lines in flight --------------------------------------------------------

  /** The texts the host will look at, in order: lines that do not start with `stage=` are skipped. */
  function StageTexts(lines: seq<string>): seq<string> {
    if lines == [] then []
    else (if StartsWith(Strip(lines[0]), "stage=") then [Strip(lines[0])] else []) + StageTexts(lines[1..])
  }

  lemma {:induction false} StageTextsAppend(lines: seq<string>, raw: string)
    ensures StageTexts(lines + [raw]) ==
            StageTexts(lines) + (if StartsWith(Strip(raw), "stage=") then [Strip(raw)] else [])
  {
    if lines == [] {
      assert lines + [raw] == [raw];
    } else {
      StageTextsAppend(lines[1..], raw);
      assert (lines + [raw])[1..] == lines[1..] + [raw];
    }
  }

  /** Terminal echo, prompts and error messages: anything without the marker. */
  predicate Echo(raw: string) {
    '\n' !in raw && !Contains(raw, "stage=")
  }

  lemma {:induction false} StripIsSlice(s: string) returns (i: nat, j: nat)
    ensures i <= j <= |s| && Strip(s) == s[i..j]
  {
    i, j := 0, |s|;
    assert s[..j] == s;
    while j > 0 && s[j - 1] == '\r'
      invariant 0 <= j <= |s| && StripRight(s) == StripRight(s[..j])
    {
      assert s[..j][..j - 1] == s[..j - 1];
      j := j - 1;
    }
    var t := s[..j];
    while i < j && t[i] == '\r'
      invariant 0 <= i <= j && StripLeft(t) == StripLeft(t[i..])
    {
      assert t[i..][1..] == t[i + 1..];
      i := i + 1;
    }
  }

  lemma MarkerSurvivesStrip(raw: string)
    requires StartsWith(Strip(raw), "stage=")
    ensures Contains(raw, "stage=")
  {
    var i, j := StripIsSlice(raw);
    assert "stage=" <= raw[i..j] <= raw[i..];
  }

  lemma EchoIsSkipped(raw: string)
    requires Echo(raw)
    ensures !StartsWith(Strip(raw), "stage=")
  {
    if StartsWith(Strip(raw), "stage=") {
      MarkerSurvivesStrip(raw);
    }
  }

  lemma {:induction false} OnlyEcho(lines: seq<string>)
    requires StageTexts(lines) == []
    requires forall i :: 0 <= i < |lines| ==> Echo(lines[i]) || StartsWith(Strip(lines[i]), "stage=")
    ensures forall i :: 0 <= i < |lines| ==> Echo(lines[i])
  {
    if lines != [] {
      OnlyEcho(lines[1..]);
      assert lines == [lines[0]] + lines[1..];
    }
  }

  // ---- The supervisor's view of a child line --------------------------------------------------------

  datatype Cue = NeedAck(reply: Reply) | NeedFeed | FinishedOk | FinishedBad | NoCue

  function CueOf(text: string): Cue {
    if StartsWith(text, "stage=before-") then
      if StartsWith(text, "stage=before-pmgr-read ") || StartsWith(text, "stage=before-mcc-read ")
         || Contains(text, " width=32")
      then NeedAck(READ) else NeedAck(ACCESS)
    else if StartsWith(text, "stage=after-") then NeedFeed
    else if text == "stage=finished rc=0" then FinishedOk
    else if StartsWith(text, "stage=finished") then FinishedBad
    else NoCue
  }

  predicate NoWi(s: string) {
    forall i :: 0 <= i < |s| - 1 ==> !(s[i] == 'w' && s[i + 1] == 'i')
  }

  lemma NoWiConcat(a: string, b: string)
    requires NoWi(a) && NoWi(b) && (a == "" || a[|a| - 1] != 'w')
    ensures NoWi(a + b)
  {
  }

  lemma WidthHasWi(s: string)
    requires Contains(s, " width=32")
    ensures !NoWi(s)
  {
    var i :| 0 <= i <= |s| && " width=32" <= s[i..];
    assert s[i..][1] == 'w' && s[i..][2] == 'i';
    assert s[i + 1] == 'w' && s[i + 2] == 'i';
  }

  /** Step names the probes use. */
  predicate StepName(name: string) {
    && Plain(name) && NoWi(name) && |name| >= 2
    && name[|name| - 1] != 'w'
    && !(name[0] == 'p' && name[1] == 'm') && !(name[0] == 'm' && name[1] == 'c')
  }

  predicate WellNamed(line: Line) {
    match line
    case Before(name, _, op, _) => StepName(name) && (op == "read" || op == "write")
    case After(name, _) => StepName(name)
    case _ => true
  }

  lemma PlainConcat(a: string, b: string)
    requires Plain(a) && Plain(b)
    ensures Plain(a + b)
  {
  }

  lemma HexIsPlain(s: string)
    requires forall i :: 0 <= i < |s| ==> IsHexChar(s[i])
    ensures Plain(s) && NoWi(s)
  {
  }

  lemma BothConcat(a: string, b: string)
    requires Plain(a) && NoWi(a) && Plain(b) && NoWi(b) && (a == "" || a[|a| - 1] != 'w')
    ensures Plain(a + b) && NoWi(a + b)
  {
    NoWiConcat(a, b);
  }

  lemma BeforeTextFacts(name: string, address: nat, op: string, value: Word)
    requires StepName(name) && (op == "read" || op == "write")
    ensures Plain(Text(Before(name, address, op, value))) && NoWi(Text(Before(name, address, op, value)))
  {
    HexIsPlain(MinHex(address));
    HexIsPlain(Hex(value, 8));
    var p1 := "stage=before-" + name;
    BothConcat("stage=before-", name);
    var p2 := p1 + " address=0x";
    BothConcat(p1, " address=0x");
    var p3 := p2 + MinHex(address);
    BothConcat(p2, MinHex(address));
    var p4 := p3 + " op=";
    BothConcat(p3, " op=");
    BothConcat(p4, op);
    BothConcat(p4 + op, " value=0x");
    BothConcat(p4 + op + " value=0x", Hex(value, 8));
  }

  lemma PmgrTailIsPlain(raw: Word)
    ensures Plain(PmgrTail(raw))
  {
    HexIsPlain(Dec(raw % 16));
    HexIsPlain(Dec(raw / 16 % 16));
    HexIsPlain(Dec(raw / 0x1000_0000 % 2));
    HexIsPlain(Dec(raw / 0x8000_0000));
    var a := " target=" + Dec(raw % 16);
    PlainConcat(" target=", Dec(raw % 16));
    var b := a + " actual=" + Dec(raw / 16 % 16);
    PlainConcat(a, " actual=");
    PlainConcat(a + " actual=", Dec(raw / 16 % 16));
    PlainConcat(b, " auto=");
    PlainConcat(b + " auto=", Dec(raw / 0x1000_0000 % 2));
    PlainConcat(b + " auto=" + Dec(raw / 0x1000_0000 % 2), " reset=");
    PlainConcat(b + " auto=" + Dec(raw / 0x1000_0000 % 2) + " reset=", Dec(raw / 0x8000_0000));
  }

  lemma PrefixConcat(p: string, a: string, b: string)
    requires p <= a
    ensures p <= a + b
  {
    assert (a + b)[..|p|] == a[..|p|];
  }

  lemma StartPlainHex(head: string, digits: string, tail: string)
    requires Plain(head) && Plain(tail) && "stage=" <= head
    requires forall i :: 0 <= i < |digits| ==> IsHexChar(digits[i])
    ensures Plain(head + digits + tail) && StartsWith(head + digits + tail, "stage=")
    ensures Plain(head + digits) && StartsWith(head + digits, "stage=")
  {
    HexIsPlain(digits);
    PlainConcat(head, digits);
    PlainConcat(head + digits, tail);
    PrefixConcat("stage=", head, digits);
    PrefixConcat("stage=", head + digits, tail);
  }

  lemma AfterPmgrIsPlain(raw: Word)
    ensures Plain(Text(AfterPmgr(raw))) && StartsWith(Text(AfterPmgr(raw)), "stage=")
  {
    var head := "stage=after-" + "pmgr-read raw=0x";
    PlainConcat("stage=after-", "pmgr-read raw=0x");
    assert "stage=after-"[..6] == "stage=";
    PrefixConcat("stage=", "stage=after-", "pmgr-read raw=0x");
    PmgrTailIsPlain(raw);
    hide Hex, PmgrTail, Plain;
    StartPlainHex(head, Hex(raw, 8), PmgrTail(raw));
  }

  lemma BeforePmgrIsPlain()
    ensures Plain(Text(BeforePmgr)) && StartsWith(Text(BeforePmgr), "stage=")
  {
    PlainConcat("stage=before-", "pmgr-read ");
    PlainConcat("stage=before-" + "pmgr-read ", "address=0x20e020320");
    PlainConcat("stage=before-" + "pmgr-read " + "address=0x20e020320", " width=32");
    assert "stage=before-"[..6] == "stage=";
    PrefixConcat("stage=", "stage=before-", "pmgr-read ");
    PrefixConcat("stage=", "stage=before-" + "pmgr-read ", "address=0x20e020320");
    PrefixConcat("stage=", "stage=before-" + "pmgr-read " + "address=0x20e020320", " width=32");
  }

  lemma AfterIsPlain(name: string, value: Word)
    requires Plain(name)
    ensures Plain(Text(After(name, value))) && StartsWith(Text(After(name, value)), "stage=")
  {
    PlainConcat("stage=after-", name);
    PlainConcat("stage=after-" + name, " value=0x");
    assert "stage=after-"[..6] == "stage=";
    PrefixConcat("stage=", "stage=after-", name);
    PrefixConcat("stage=", "stage=after-" + name, " value=0x");
    hide Hex;
    StartPlainHex("stage=after-" + name + " value=0x", Hex(value, 8), "");
  }

  lemma FinishedIsPlain(rc: nat)
    ensures Plain(Text(Finished(rc))) && StartsWith(Text(Finished(rc)), "stage=")
  {
    assert Plain("stage=finished rc=") && "stage=finished rc="[..6] == "stage=";
    StartPlainHex("stage=finished rc=", Dec(rc), "");
  }

  lemma WatchdogIsPlain(line: Line)
    requires line.WatchdogOpen? || line.WatchdogArmed? || line.WatchdogDisarmed?
    ensures Plain(Text(line)) && StartsWith(Text(line), "stage=")
  {
    assert Text(line)[..6] == "stage=";
  }

  lemma BeforeIsStage(name: string, address: nat, op: string, value: Word)
    ensures StartsWith(Text(Before(name, address, op, value)), "stage=before-")
    ensures StartsWith(Text(Before(name, address, op, value)), "stage=")
  {
    var head := "stage=before-";
    assert head[..6] == "stage=";
    hide MinHex, Hex;
    PrefixConcat(head, head, name);
    PrefixConcat(head, head + name, " address=0x");
    PrefixConcat(head, head + name + " address=0x", MinHex(address));
    PrefixConcat(head, head + name + " address=0x" + MinHex(address), " op=");
    PrefixConcat(head, head + name + " address=0x" + MinHex(address) + " op=", op);
    PrefixConcat(head, head + name + " address=0x" + MinHex(address) + " op=" + op, " value=0x");
    PrefixConcat(head, head + name + " address=0x" + MinHex(address) + " op=" + op + " value=0x", Hex(value, 8));
    PrefixConcat("stage=", head, Text(Before(name, address, op, value))[13..]);
    assert head + Text(Before(name, address, op, value))[13..] == Text(Before(name, address, op, value));
  }

  lemma TextIsPlain(line: Line)
    requires WellNamed(line)
    ensures Plain(Text(line)) && StartsWith(Text(line), "stage=")
  {
    match line {
      case Before(name, address, op, value) =>
        BeforeTextFacts(name, address, op, value);
        BeforeIsStage(name, address, op, value);
      case After(name, value) => AfterIsPlain(name, value);
      case AfterPmgr(raw) => AfterPmgrIsPlain(raw);
      case Finished(rc) => FinishedIsPlain(rc);
      case BeforePmgr => BeforePmgrIsPlain();
      case _ => WatchdogIsPlain(line);
    }
  }

  lemma CueOfBefore(name: string, address: nat, op: string, value: Word)
    requires StepName(name) && (op == "read" || op == "write")
    ensures CueOf(Text(Before(name, address, op, value))) == NeedAck(ACCESS)
  {
    var t := Text(Before(name, address, op, value));
    BeforeTextFacts(name, address, op, value);
    BeforeIsStage(name, address, op, value);
    assert t[13] == name[0] && t[14] == name[1];
    hide Text, NoWi, MinHex, Hex;
    if Contains(t, " width=32") {
      WidthHasWi(t);
    }
  }

  lemma CueOfAfterText(t: string)
    requires "stage=after-" <= t
    ensures CueOf(t) == NeedFeed
  {
    assert t[6] == 'a';
  }

  lemma CueOfFinished(rc: nat)
    ensures CueOf(Text(Finished(rc))) == if rc == 0 then FinishedOk else FinishedBad
  {
    var head := "stage=finished rc=";
    var t := head + Dec(rc);
    assert t[6] == 'f' && head[..14] == "stage=finished";
    assert t[..14] == head[..14] && t[18..] == Dec(rc);
    assert Dec(0) == "0";
    if t == "stage=finished rc=0" {
      assert "stage=finished rc=0"[18..] == "0";
      DecZero(rc);
    }
  }

  lemma CueOfBeforePmgr()
    ensures CueOf(Text(BeforePmgr)) == NeedAck(READ)
  {
    var a := "stage=before-";
    var b := a + "pmgr-read ";
    assert "stage=before-pmgr-read " == b;
    PrefixConcat(a, a, "pmgr-read ");
    PrefixConcat(a, b, "address=0x20e020320");
    PrefixConcat(a, b + "address=0x20e020320", " width=32");
    PrefixConcat(b, b, "address=0x20e020320");
    PrefixConcat(b, b + "address=0x20e020320", " width=32");
    hide Contains;
  }

  /** The supervisor reads every probe line as the step that it is. */
  lemma CueOfLine(line: Line)
    requires WellNamed(line)
    ensures match line
            case BeforePmgr => CueOf(Text(line)) == NeedAck(READ)
            case Before(_, _, _, _) => CueOf(Text(line)) == NeedAck(ACCESS)
            case After(_, _) => CueOf(Text(line)) == NeedFeed
            case AfterPmgr(_) => CueOf(Text(line)) == NeedFeed
            case Finished(rc) => CueOf(Text(line)) == if rc == 0 then FinishedOk else FinishedBad
            case _ => true
  {
    hide CueOf, Hex, PmgrTail;
    match line {
      case Before(name, address, op, value) => CueOfBefore(name, address, op, value);
      case After(name, value) =>
        var head := "stage=after-";
        PrefixConcat(head, head, name);
        PrefixConcat(head, head + name, " value=0x");
        PrefixConcat(head, head + name + " value=0x", Hex(value, 8));
        CueOfAfterText(Text(line));
      case AfterPmgr(raw) =>
        var head := "stage=after-" + "pmgr-read raw=0x";
        PrefixConcat("stage=after-", "stage=after-", "pmgr-read raw=0x");
        PrefixConcat("stage=after-", head, Hex(raw, 8));
        PrefixConcat("stage=after-", head + Hex(raw, 8), PmgrTail(raw));
        CueOfAfterText(Text(line));
      case Finished(rc) => CueOfFinished(rc);
      case BeforePmgr => CueOfBeforePmgr();
      case _ =>
    }
  }

  lemma DecZero(n: nat)
    requires Dec(n) == "0"
    ensures n == 0
  {
    if n >= 10 {
      DecLong(n);
    }
  }

  lemma DecLong(n: nat)
    requires n >= 10
    ensures |Dec(n)| >= 2
  {
  }
}
