/** With a responsive device the supervised bridge run always completes, however the byte stream is cut. */
module BridgeLiveness {
  import opened Common
  import opened CheckpointText
  import opened CheckpointFraming
  import opened BridgeHost
  import opened BridgeSystem
  import opened BridgeInvariant
  import opened BridgeSteps
  import opened BridgeSafety

  const MAX_ECHO := 4096

  /** Nobody gives up or crashes, the PMGR word is the expected one, the GPC gate reads 0, and the terminal
      echoes a bounded number of bounded lines. */
  predicate Responsive(s: Sys, a: Action) {
    match a
    case HostAbort => false
    case SupFault => false
    case ChildCrash(_) => false
    case SupArm(ok, _) => ok
    case SupReply(ok) => ok
    case SupFinish(ok, _) => ok
    case ChildAccess(value) => (s.dev.child.k == 0 ==> value == 0x3ff) && (s.dev.child.k == 1 ==> value == 0)
    case TerminalEcho(text) => s.echoes > 0 && |text| <= MAX_ECHO
    case _ => true
  }

  ghost predicate ResponsiveRun(s: Sys, actions: seq<Action>, t: Sys)
    decreases |actions|
  {
    if actions == [] then t == s
    else Enabled(s, actions[0]) && Responsive(s, actions[0]) && ResponsiveRun(Do(s, actions[0]), actions[1..], t)
  }

  /** What holds besides the invariant while everything is responsive. */
  ghost predicate Healthy(d: Device, plan: Table) {
    && d.table == plan
    && !d.sup.pc.Stuck? && !d.sup.pc.SetupFailed?
    && (d.child.phase.Finishing? ==> d.child.phase.rc == 0)
    && (d.child.phase.Gone? ==> d.child.phase.code == 0)
    && (d.accesses != [] ==> d.raw == 0x3ff)
    && d.gpc == 0
  }

  ghost predicate Short(lines: seq<string>) {
    forall i :: 0 <= i < |lines| ==> |lines[i]| <= MAX_ECHO
  }

  ghost predicate Good(s: Sys) {
    Inv(s) && Healthy(s.dev, s.plan) && s.host.status != Failed && Short(s.pending)
  }

  // ---- Line lengths ---------------------------------------------------------------------------------

  lemma {:induction false} MinHexLength(v: nat, n: nat)
    requires n > 0 && v < Pow16(n)
    ensures |MinHex(v)| <= n
  {
    if v >= 16 {
      assert n > 1 by { assert Pow16(1) == 16 * Pow16(0) == 16; }
      MinHexLength(v / 16, n - 1);
    }
  }

  lemma DecLength(n: nat)
    requires n < 100
    ensures |Dec(n)| <= 2
  {
    assert |Dec(n / 10)| == 1;
  }

  lemma StepLengths(table: Table, k: nat)
    requires k < 67
    ensures |StepAt(table, k).name| <= 20 && |StepAt(table, k).op| <= 5 && |MinHex(StepAt(table, k).address)| <= 9
  {
    var address := StepAt(table, k).address;
    assert address < Pow16(9) by {
      Pow16Of8();
      assert Pow16(9) == 16 * Pow16(8);
    }
    MinHexLength(address, 9);
    if k > 0 {
      DecLength(TableOf(k - 1) + 9);
      DecLength(IndexIn(k - 1));
    }
    hide MinHex, Pow16;
  }

  lemma LineIsShort(table: Table, raw: Word, gpc: Word, j: nat)
    requires j < 136
    ensures |Text(ScriptLine(table, raw, gpc, j))| <= 120
  {
    var k := j / 2;
    if k > 0 {
      StepLengths(table, k - 1);
    } else {
      DecLength(raw % 16);
      DecLength(raw / 16 % 16);
      DecLength(raw / 0x1000_0000 % 2);
      DecLength(raw / 0x8000_0000);
    }
    hide MinHex, Dec, StepAt, Hex;
  }

  // ---- The host never fails ---------------------------------------------------------------------------

  /** Everything the supervisor wrote is what the host expects, word for word. */
  lemma OutIsExpected(d: Device, plan: Table, i: nat)
    requires DeviceOk(d) && Healthy(d, plan) && i < |d.out|
    ensures i < 140 && d.out[i] == ExpectedLine(plan, i)
  {
    hide ScriptLine, MemAfter, Accessed, AcksAre, Scripted, AckOk;
    if Launched(d.sup.pc) {
      HealthyCounts(d, plan);
      var t := Count(d);
      hide SupOk, ChildOk, Count;
      if 2 <= i < 2 + t.forwarded && i - 2 < t.scripted {
        PrintedIsExpected(d, plan, i - 2);
      }
    }
  }

  lemma HealthyCounts(d: Device, plan: Table)
    requires DeviceOk(d) && Launched(d.sup.pc) && Healthy(d, plan)
    ensures var t := Count(d);
            && t.forwarded == |d.printed| - |d.fromChild| && t.scripted <= 136
            && (t.scripted < t.forwarded ==> t.scripted == 136 && t.forwarded == 137 && d.printed[136] == Finished(0))
            && (d.sup.pc.Exited? ==> t.forwarded == 137)
  {
    hide ScriptLine, MemAfter, Accessed, AcksAre, Scripted, AckOk, Written;
  }

  lemma PrintedIsExpected(d: Device, plan: Table, j: nat)
    requires DeviceOk(d) && Launched(d.sup.pc) && Healthy(d, plan) && j < Count(d).scripted
    ensures j < 136 && d.printed[j] == ScriptLine(plan, 0x3ff, 0, j)
  {
    hide MemAfter, Accessed, AcksAre, Written, SupOk, AckOk;
    assert j >= 1 ==> |d.accesses| > 0;
    assert d.printed[j] == ScriptLine(plan, d.raw, 0, j);
    hide StepAt;
  }

  /** Before the host answers, the supervisor has written nothing after a line that must be last. */
  lemma NothingFollows(s: Sys)
    requires Inv(s) && Healthy(s.dev, s.plan) && MustBeLast(Accepted(s.host))
    ensures |s.dev.out| <= Accepted(s.host) + 1
  {
    hide ScriptLine, MemAfter, Accessed, AcksAre, Text, StageTexts, Texts, Framed, Scripted;
    var a := Accepted(s.host);
    assert s.dev.sup.taken <= GrantCount(a);
    if Launched(s.dev.sup.pc) {
      var t := Count(s.dev);
      assert a >= 2;
      assert |s.dev.out| == 2 + t.forwarded + (if s.dev.sup.pc.Exited? then 1 else 0);
      assert t.finish.Some? ==> t.scripted == 136;
    }
  }

  lemma QuietTail(pending: seq<string>, buffer: string, wire: string)
    requires Framed(buffer, wire, pending) && StageTexts(pending) == []
    ensures !Contains(buffer, "stage=")
  {
    OnlyEcho(pending);
    hide Strip, StartsWith, Contains, StageTexts, Join;
    NoneInBuffer(pending, buffer, wire, "stage=");
  }

  /** The host takes the line it looks at: it never aborts and never finds a second checkpoint behind it. */
  lemma HostAccepts(s: Sys)
    requires Good(s) && Enabled(s, HostProcess)
    ensures DoHostProcess(s).host.status != Failed
    ensures Accepted(DoHostProcess(s).host) == Accepted(s.host) || Accepted(DoHostProcess(s).host) == Accepted(s.host) + 1
  {
    hide Text, ExpectedLine, OnLine, StageTexts, Texts, Contains, StartsWith, Strip, Granted, DeviceOk, Framed;
    HostSeesFirst(s.plan, s.host, s.wire, s.pending);
    var i := FirstNewline(s.host.buffer);
    var rest := s.host.buffer[i + 1..];
    var h := s.host.(buffer := rest);
    var line := Strip(s.host.buffer[..i]);
    var a := Accepted(s.host);
    HostTakesNextOnly(s.plan, h, line);
    FirstInFlight(s.dev.out, a, s.pending);
    if StartsWith(line, "stage=") {
      OutIsExpected(s.dev, s.plan, a);
      if MustBeLast(a) {
        NothingFollows(s);
        assert StageTexts(s.pending[1..]) == Texts(s.dev.out, a + 1) == [];
        RestIsFramed(s, i);
        QuietTail(s.pending[1..], rest, s.wire);
      }
    }
  }

  lemma RestIsFramed(s: Sys, i: nat)
    requires Framed(s.host.buffer, s.wire, s.pending) && '\n' in s.host.buffer && i == FirstNewline(s.host.buffer)
    ensures s.pending != [] && Framed(s.host.buffer[i + 1..], s.wire, s.pending[1..])
  {
    SplitFirst(s.pending, s.host.buffer, s.wire);
    hide Join, Echo, Strip, StartsWith;
  }

  /** A received chunk never overflows the buffer: the host holds at most one unfinished line. */
  lemma ChunkFits(s: Sys, count: nat)
    requires Good(s) && Enabled(s, HostRecv(count))
    ensures DoHostRecv(s, count).host.status == s.host.status
  {
    hide Join, Text, Granted, DeviceOk, InFlight, Clean, Echo, Strip, StartsWith;
    PartialLine(s.pending, s.host.buffer, s.wire);
  }

  // ---- Health is kept -------------------------------------------------------------------------------

  lemma HealthyStep(s: Sys, a: Action)
    requires Inv(s) && Healthy(s.dev, s.plan) && Enabled(s, a) && Responsive(s, a)
    requires a.ChildAnnounce? || a.ChildAccess? || a.ChildReport? || a.ChildFinish?
    ensures Healthy(ChildStep(s.dev, a), s.plan)
  {
    hide Framed, InFlight, Granted, AccessAt, BeforeLine, AfterLine, Written, Scripted, Accessed, MemAfter, SupOk, AckOk;
    if a.ChildAccess? {
      NotExited(s.dev);
      RightAck(s.dev);
    }
  }

  lemma HealthyForward(s: Sys, cr: bool)
    requires Inv(s) && Healthy(s.dev, s.plan) && Enabled(s, SupForward(cr))
    ensures Healthy(DoSupForward(s, cr).dev, s.plan)
  {
    hide Framed, InFlight, Granted, Written, Scripted, Accessed, MemAfter, SupOk, AckOk, CueOf, Text, AcksAre, RawLine;
    ForwardedCue(s.dev);
  }

  lemma HealthyReply(s: Sys)
    requires Inv(s) && Healthy(s.dev, s.plan) && Enabled(s, SupReply(true))
    ensures Healthy(DoSupReply(s, true).dev, s.plan)
  {
    hide Framed, InFlight, Granted, Accepted, Written, Scripted, Accessed, MemAfter, AckOk, AcksAre, SupOk;
    TakenReply(s.plan, Accepted(s.host), s.granted, s.down, s.dev.sup.taken);
    ReplyIsRight(s.dev.sup, Count(s.dev), s.down[0]);
  }

  lemma HealthyArm(s: Sys, cr: bool)
    requires Inv(s) && Healthy(s.dev, s.plan) && Enabled(s, SupArm(true, cr))
    ensures Healthy(DoSupArm(s, true, cr).dev, s.plan)
  {
    hide Framed, InFlight, Granted, Accepted, Text, RawLine;
    TakenReply(s.plan, Accepted(s.host), s.granted, s.down, s.dev.sup.taken);
    hide ScriptLine, MemAfter;
  }

  lemma HealthyFinish(s: Sys, cr: bool)
    requires Inv(s) && Healthy(s.dev, s.plan) && Enabled(s, SupFinish(true, cr))
    ensures DoSupFinish(s, true, cr).dev.sup.pc.Exited? && Healthy(DoSupFinish(s, true, cr).dev, s.plan)
  {
    hide Framed, InFlight, Granted, Written, Scripted, Accessed, MemAfter, AckOk, AcksAre, Text, RawLine;
  }

  lemma EmitIsShort(s: Sys, line: Line, cr: bool)
    requires Short(s.pending) && |Text(line)| <= 120
    ensures Short(Emit(s, line, cr).pending) && |Emit(s, line, cr).wire| <= |s.wire| + 122
  {
    hide Text;
  }

  lemma OtherLinesShort()
    ensures |Text(WatchdogOpen)| <= 120 && |Text(WatchdogArmed)| <= 120 && |Text(WatchdogDisarmed)| <= 120
    ensures |Text(Finished(0))| <= 120
  {
  }

  lemma NextLineShort(d: Device, plan: Table)
    requires DeviceOk(d) && Healthy(d, plan) && Launched(d.sup.pc) && d.fromChild != []
    ensures |Text(d.fromChild[0])| <= 120
  {
    hide MemAfter, Accessed, AcksAre, Text;
    var t := Count(d);
    assert d.fromChild[0] == d.printed[t.forwarded];
    OtherLinesShort();
    if t.forwarded < t.scripted {
      LineIsShort(d.table, d.raw, d.gpc, t.forwarded);
    }
  }

  // ---- The measure ----------------------------------------------------------------------------------

  const WEIGHT := 10000

  /** Protocol events still to come: lines to accept, to write and to print, answers to take, accesses. */
  function Remaining(s: Sys): int {
    (140 - Accepted(s.host)) + (140 - |s.dev.out|) + (137 - s.dev.sup.taken) + (137 - |s.dev.printed|)
    + (68 - |s.dev.accesses|)
  }

  function Measure(s: Sys): int {
    WEIGHT * (Remaining(s) + s.echoes) + 2 * |s.wire| + |s.host.buffer|
  }

  lemma MeasureIsNat(s: Sys)
    requires Inv(s)
    ensures Remaining(s) >= 0 && Measure(s) >= 0
  {
    hide ScriptLine, MemAfter, Accessed, AcksAre, Text, StageTexts, Texts, Framed, Scripted, AckOk;
    if Launched(s.dev.sup.pc) {
      var t := Count(s.dev);
      assert |s.dev.printed| <= 137;
      assert |s.dev.out| == 2 + t.forwarded + (if s.dev.sup.pc.Exited? then 1 else 0);
    }
  }

  lemma ProcessGood(s: Sys)
    requires Good(s) && Enabled(s, HostProcess)
    ensures Good(DoHostProcess(s)) && Measure(DoHostProcess(s)) < Measure(s)
  {
    HostAccepts(s);
    HostProcessKeeps(s);
    hide Inv, Healthy, ProcessLine, Accepted;
    BufferShrinks(s);
  }

  lemma RecvGood(s: Sys, count: nat)
    requires Good(s) && Enabled(s, HostRecv(count))
    ensures Good(DoHostRecv(s, count)) && Measure(DoHostRecv(s, count)) < Measure(s)
  {
    ChunkFits(s, count);
    HostRecvKeeps(s, count);
    hide Inv, Healthy, Short;
  }

  lemma BufferShrinks(s: Sys)
    requires Enabled(s, HostProcess)
    ensures |DoHostProcess(s).host.buffer| < |s.host.buffer|
  {
    ProcessShrinks(s.plan, true, s.host);
    hide OnLine, Strip;
  }

  lemma EchoGood(s: Sys, text: string)
    requires Good(s) && Enabled(s, TerminalEcho(text)) && Responsive(s, TerminalEcho(text))
    ensures Good(Do(s, TerminalEcho(text))) && Measure(Do(s, TerminalEcho(text))) < Measure(s)
  {
    EchoKeeps(s, text);
    hide Inv, Healthy, Accepted, Echo;
  }

  lemma AnnounceGood(s: Sys, cr: bool)
    requires Good(s) && Enabled(s, SupAnnounce(cr))
    ensures Good(Do(s, SupAnnounce(cr))) && Measure(Do(s, SupAnnounce(cr))) < Measure(s)
  {
    SupAnnounceKeeps(s, cr);
    OtherLinesShort();
    hide Inv, Accepted, Text, RawLine, Short;
    EmitIsShort(WithSup(s, s.dev.sup.(pc := AwaitArm)), WatchdogOpen, cr);
  }

  lemma ChildGood(s: Sys, a: Action)
    requires Good(s) && ChildEnabled(s.dev, a) && Responsive(s, a) && Enabled(s, a)
    ensures var t := s.(dev := ChildStep(s.dev, a));
            Healthy(t.dev, t.plan) && Measure(t) < Measure(s)
  {
    HealthyStep(s, a);
    if a.ChildAccess? {
      InvParts(s);
      NotExited(s.dev);
      RightAck(s.dev);
    }
    hide Inv, Healthy, Accepted, AccessAt, BeforeLine, AfterLine, NextChild, Short;
  }

  lemma DeviceStepGood(s: Sys, a: Action)
    requires Good(s) && Enabled(s, a) && Responsive(s, a) && !a.HostRecv? && !a.HostProcess?
    ensures Good(Do(s, a)) && Measure(Do(s, a)) < Measure(s)
  {
    StepKeeps(s, a);
    hide Inv, Measure, Healthy, Short, DoSupArm, DoSupForward, DoSupReply, DoSupFinish, ChildStep, Emit;
    match a {
      case TerminalEcho(text) => EchoGood(s, text);
      case SupAnnounce(cr) => AnnounceGood(s, cr);
      case SupArm(ok, cr) => ArmGood(s, cr);
      case SupForward(cr) => ForwardGood(s, cr);
      case SupReply(ok) => ReplyGood(s);
      case SupFinish(ok, cr) => FinishGood(s, cr);
      case _ => ChildGood(s, a);
    }
  }

  lemma ArmGood(s: Sys, cr: bool)
    requires Good(s) && Enabled(s, SupArm(true, cr))
    ensures var t := DoSupArm(s, true, cr);
            Healthy(t.dev, t.plan) && t.host == s.host && Short(t.pending) && Measure(t) < Measure(s)
  {
    HealthyArm(s, cr);
    hide Inv, Text, Healthy, RawLine, Short;
    OtherLinesShort();
    var t := DoSupArm(s, true, cr);
    if s.down[0] == ARM {
      var sup := s.dev.sup.(taken := s.dev.sup.taken + 1);
      EmitIsShort(s.(down := s.down[1..], dev := s.dev.(sup := sup.(pc := Reading, watchdog := Armed), child := Child(0, Announce))),
                  WatchdogArmed, cr);
    }
  }

  lemma ForwardGood(s: Sys, cr: bool)
    requires Good(s) && Enabled(s, SupForward(cr))
    ensures var t := DoSupForward(s, cr);
            Healthy(t.dev, t.plan) && t.host == s.host && Short(t.pending) && Measure(t) < Measure(s)
  {
    hide Inv, Text, Healthy, RawLine, Short, CueOf, AfterCue, Accepted;
    HealthyForward(s, cr);
    ForwardedIsShort(s);
    var line := s.dev.fromChild[0];
    EmitIsShort(s.(dev := s.dev.(fromChild := s.dev.fromChild[1..], sup := AfterCue(s.dev.sup, CueOf(Text(line))))), line, cr);
    CueKeepsTaken(s.dev.sup, CueOf(Text(line)));
  }

  lemma ForwardedIsShort(s: Sys)
    requires Inv(s) && Healthy(s.dev, s.plan) && s.dev.sup.pc.Reading? && s.dev.fromChild != []
    ensures |Text(s.dev.fromChild[0])| <= 120
  {
    hide Text, Healthy, Framed, InFlight, Granted, DeviceOk;
    NextLineShort(s.dev, s.plan);
  }

  lemma CueKeepsTaken(sup: Supervisor, cue: Cue)
    ensures AfterCue(sup, cue).taken == sup.taken
  {
  }

  lemma ReplyGood(s: Sys)
    requires Good(s) && Enabled(s, SupReply(true))
    ensures var t := DoSupReply(s, true);
            Healthy(t.dev, t.plan) && t.host == s.host && Measure(t) < Measure(s)
  {
    hide Inv, Healthy, Short, Accepted, TakeReply;
    HealthyReply(s);
    TakeReplyFrame(s.dev, s.down[0]);
  }

  lemma TakeReplyFrame(d: Device, reply: Reply)
    requires d.sup.pc.AwaitAck? || d.sup.pc.AwaitFeed?
    ensures var e := TakeReply(d, reply, true);
            e.sup.taken == d.sup.taken + 1 && e.out == d.out && e.printed == d.printed && e.accesses == d.accesses
  {
  }

  lemma FinishGood(s: Sys, cr: bool)
    requires Good(s) && Enabled(s, SupFinish(true, cr))
    ensures var t := DoSupFinish(s, true, cr);
            Healthy(t.dev, t.plan) && t.host == s.host && Short(t.pending) && Measure(t) < Measure(s)
  {
    HealthyFinish(s, cr);
    OtherLinesShort();
    hide Inv, Text, Healthy, RawLine, Short;
    EmitIsShort(WithSup(s, s.dev.sup.(pc := Exited, watchdog := Disarmed)), WatchdogDisarmed, cr);
  }

  lemma HostActions(s: Sys, a: Action)
    requires Enabled(s, a)
    ensures a.HostProcess? ==> Do(s, a) == DoHostProcess(s)
    ensures a.HostRecv? ==> Do(s, a) == DoHostRecv(s, a.count)
  {
    hide DoHostProcess, DoHostRecv;
  }

  /** Every responsive step keeps the run healthy and brings it nearer to its end. */
  lemma ResponsiveStep(s: Sys, a: Action)
    requires Good(s) && Enabled(s, a) && Responsive(s, a)
    ensures Good(Do(s, a)) && 0 <= Measure(Do(s, a)) < Measure(s)
  {
    hide Do, Measure;
    if a.HostRecv? {
      HostActions(s, a);
      RecvGood(s, a.count);
    } else if a.HostProcess? {
      HostActions(s, a);
      ProcessGood(s);
    } else {
      DeviceStepGood(s, a);
    }
    hide Inv;
    MeasureIsNat(Do(s, a)) by { assert Good(Do(s, a)); }
  }

  // ---- Progress ---------------------------------------------------------------------------------------

  ghost predicate CanMove(s: Sys) {
    exists a :: Enabled(s, a) && Responsive(s, a)
  }

  lemma JoinHasNewline(lines: seq<string>)
    requires lines != []
    ensures '\n' in Join(lines)
  {
    assert Join(lines)[|lines[0]|] == '\n';
  }

  /** With no byte in flight the host has accepted every line written, so its answer is on its way. */
  lemma AnswerIsThere(s: Sys)
    requires Good(s) && s.host.status == Running && s.wire == "" && '\n' !in s.host.buffer
    ensures Accepted(s.host) == |s.dev.out|
  {
    hide Text, ExpectedLine, Granted, DeviceOk, Echo, Strip, StartsWith;
    PartialLine(s.pending, s.host.buffer, s.wire);
    assert s.host.buffer + s.wire == s.host.buffer;
    if s.pending != [] {
      JoinHasNewline(s.pending);
    }
    assert StageTexts(s.pending) == [];
  }

  lemma DeviceMoves(s: Sys)
    requires Good(s) && s.host.status == Running && Accepted(s.host) == |s.dev.out|
    ensures CanMove(s)
  {
    hide Text, ExpectedLine, StageTexts, Texts, Framed, Written, Scripted, Accessed, AcksAre, ScriptLine, MemAfter;
    OutLength(s.dev);
    var d := s.dev;
    var t := Count(d);
    match d.sup.pc {
      case Start => assert Enabled(s, SupAnnounce(false)) && Responsive(s, SupAnnounce(false));
      case AwaitArm => assert Enabled(s, SupArm(true, false)) && Responsive(s, SupArm(true, false));
      case AwaitAck(_) => assert Enabled(s, SupReply(true)) && Responsive(s, SupReply(true));
      case AwaitFeed => assert Enabled(s, SupReply(true)) && Responsive(s, SupReply(true));
      case Reading => ChildOrSupMoves(s);
      case _ => assert false;
    }
  }

  lemma OutLength(d: Device)
    requires DeviceOk(d)
    ensures Launched(d.sup.pc) ==> |d.out| == 2 + Count(d).forwarded + (if d.sup.pc.Exited? then 1 else 0)
    ensures d.sup.pc.Start? ==> |d.out| == 0 && d.sup.taken == 0
    ensures d.sup.pc.AwaitArm? ==> |d.out| == 1 && d.sup.taken == 0
  {
    hide Scripted, Accessed, AcksAre, ScriptLine, MemAfter, SupOk, AckOk, ChildOk;
  }

  lemma ChildOrSupMoves(s: Sys)
    requires Good(s) && s.dev.sup.pc.Reading?
    ensures CanMove(s)
  {
    hide Text, InFlight, Granted, Framed, Written, Scripted, Accessed, AcksAre, ScriptLine, MemAfter;
    var d := s.dev;
    var t := Count(d);
    if d.fromChild != [] {
      assert Enabled(s, SupForward(false)) && Responsive(s, SupForward(false));
    } else {
      match d.child.phase {
        case Announce => assert Enabled(s, ChildAnnounce) && Responsive(s, ChildAnnounce);
        case Await =>
          var value: Word := if d.child.k == 0 then 0x3ff else 0;
          assert t.acks > 0;
          assert Enabled(s, ChildAccess(value)) && Responsive(s, ChildAccess(value));
        case Report => assert Enabled(s, ChildReport) && Responsive(s, ChildReport);
        case Finishing(_) => assert Enabled(s, ChildFinish) && Responsive(s, ChildFinish);
        case Gone(_) => assert Enabled(s, SupFinish(true, false)) && Responsive(s, SupFinish(true, false));
        case Unborn => assert false;
      }
    }
  }

  /** No deadlock: until the host has returned, some responsive step is possible. */
  lemma Progress(s: Sys)
    requires Good(s) && s.host.status != Returned
    ensures CanMove(s)
  {
    hide Inv, Healthy, Short;
    if '\n' in s.host.buffer {
      assert Enabled(s, HostProcess) && Responsive(s, HostProcess);
    } else if s.wire != "" {
      assert Enabled(s, HostRecv(1)) && Responsive(s, HostRecv(1));
    } else {
      AnswerIsThere(s);
      DeviceMoves(s);
    }
  }

  lemma StartIsGood(plan: Table, initial: map<nat, Word>, echoes: nat)
    ensures Good(Initially(plan, plan, initial, echoes))
    ensures Measure(Initially(plan, plan, initial, echoes)) == WEIGHT * (622 + echoes)
  {
    StartInv(plan, plan, initial, echoes);
    hide Inv;
  }

  lemma {:induction false} ResponsiveRunStaysGood(s: Sys, actions: seq<Action>, t: Sys)
    requires Good(s) && ResponsiveRun(s, actions, t)
    ensures Good(t) && Measure(t) + |actions| <= Measure(s)
    decreases |actions|
  {
    hide Good, Measure, Do, Enabled, Responsive;
    if actions != [] {
      ResponsiveStep(s, actions[0]);
      ResponsiveRunStaysGood(Do(s, actions[0]), actions[1..], t);
    }
  }

  lemma {:induction false} ResponsiveRunIsRun(s: Sys, actions: seq<Action>, t: Sys)
    requires ResponsiveRun(s, actions, t)
    ensures Run(s, actions, t)
    decreases |actions|
  {
    hide Do, Enabled, Responsive;
    if actions != [] {
      ResponsiveRunIsRun(Do(s, actions[0]), actions[1..], t);
    }
  }

  /** Every responsive run is bounded, the host never aborts in it, and a run that cannot be continued ends
      with the host returned: 68 accesses, 68 feeds, all 66 writes in place and the watchdog disarmed. */
  lemma ResponsiveRunsComplete(plan: Table, initial: map<nat, Word>, echoes: nat, actions: seq<Action>, t: Sys)
    requires ResponsiveRun(Initially(plan, plan, initial, echoes), actions, t)
    ensures |actions| <= WEIGHT * (622 + echoes)
    ensures t.host.status != Failed
    ensures CanMove(t) || t.host.status == Returned
    ensures t.host.status == Returned ==>
              && |t.dev.accesses| == 68 && t.dev.sup.keepalives == t.host.feeds == 68
              && t.dev.sup.pc == Exited && t.dev.sup.watchdog == Disarmed
              && Updated(t.dev.initial, plan, 66, t.dev.mem)
  {
    var s := Initially(plan, plan, initial, echoes);
    StartIsGood(plan, initial, echoes);
    hide Measure;
    ResponsiveRunStaysGood(s, actions, t);
    MeasureIsNat(t);
    if t.host.status == Returned {
      ResponsiveRunIsRun(s, actions, t);
      assert Reachable(t);
      SamePlan(s, actions, t);
      SuccessMeansComplete(t);
      FeedsAtEnd(t);
    } else {
      Progress(t);
    }
  }

  lemma FeedsAtEnd(t: Sys)
    requires Inv(t) && t.host.status == Returned
    ensures t.host.feeds == 68
  {
    hide Framed, Granted, DeviceOk, AllExpected, StageTexts, Texts;
  }

  lemma {:induction false} SamePlan(s: Sys, actions: seq<Action>, t: Sys)
    requires ResponsiveRun(s, actions, t)
    ensures t.plan == s.plan
    decreases |actions|
  {
    hide ChildStep, AfterCue, CueOf, Text, RawLine, TakeReply, Responsive, ProcessLine, Strip;
    if actions != [] {
      SamePlan(Do(s, actions[0]), actions[1..], t);
    }
  }

  /** Whenever no answer is in flight and the supervisor reads on, both sides have counted the same feeds. */
  lemma FeedCountsAgree(s: Sys)
    requires Reachable(s) && s.dev.sup.pc.Reading? && s.down == []
    ensures s.dev.sup.n == s.host.feeds == s.host.stage / 2
  {
    ReachableInv(s);
    AcceptedWerePrinted(s);
    hide Text, ExpectedLine, StageTexts, Texts, Framed, Written, Scripted, Accessed, AcksAre, ScriptLine, MemAfter, AllExpected, AckOk, ChildOk;
    assert s.dev.sup.taken == GrantCount(Accepted(s.host));
  }
}
