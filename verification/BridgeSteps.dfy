/** One lemma for each kind of step: it keeps the invariant of the supervised bridge run. */
module BridgeSteps {
  import opened Common
  import opened CheckpointText
  import opened CheckpointFraming
  import opened BridgeHost
  import opened BridgeSystem
  import opened BridgeInvariant

  // ---- Host ---------------------------------------------------------------------------------------

  lemma HostRecvKeeps(s: Sys, count: nat)
    requires Inv(s) && Enabled(s, HostRecv(count))
    ensures Inv(DoHostRecv(s, count))
  {
    ReceiveKeepsFrame(s.host.buffer, s.wire, s.pending, count);
    var h := DoHostRecv(s, count).host;
    BufferIsNotProgress(s.plan, s.host, h.buffer, h.status, s.dev.out, s.pending);
    hide Framed, InFlight, Accepted, Granted, DeviceOk;
  }

  lemma BufferIsNotProgress(plan: Table, host: Host, buffer: string, status: Status, out: seq<Line>, pending: seq<string>)
    requires InFlight(plan, host, out, pending) && host.status == Running && status != Returned
    ensures InFlight(plan, host.(buffer := buffer, status := status), out, pending)
    ensures Accepted(host.(buffer := buffer, status := status)) == Accepted(host)
  {
    hide StageTexts, Texts, AllExpected;
  }

  lemma ReceiveKeepsFrame(buffer: string, wire: string, pending: seq<string>, count: nat)
    requires Framed(buffer, wire, pending) && count <= |wire|
    ensures Framed(buffer + wire[..count], wire[count..], pending)
  {
    hide Clean, Join, Echo, StartsWith, Strip;
    assert buffer + wire[..count] + wire[count..] == buffer + wire;
  }

  lemma HostAbortKeeps(s: Sys)
    requires Inv(s) && Enabled(s, HostAbort)
    ensures Inv(Do(s, HostAbort))
  {
    BufferIsNotProgress(s.plan, s.host, s.host.buffer, Failed, s.dev.out, s.pending);
    hide Framed, InFlight, Accepted, Granted, DeviceOk;
  }

  lemma EchoKeeps(s: Sys, text: string)
    requires Inv(s) && Enabled(s, TerminalEcho(text))
    ensures Inv(Do(s, TerminalEcho(text)))
  {
    StageTextsAppend(s.pending, text);
    EchoIsSkipped(text);
    EmitKeepsFrame(s.host.buffer, s.wire, s.pending, text);
    hide StageTexts, Texts, AllExpected, Framed, Granted, DeviceOk, Strip, StartsWith;
  }

  lemma OnLineKeepsBuffer(values: Table, h: Host, line: string)
    ensures OnLine(values, true, h, line).0.buffer == h.buffer
  {
    hide Text, StartsWith, Contains, PmgrAfterText, StepAt;
  }

  /** The host looks at the first line in flight, whatever the chunks were. */
  lemma HostSeesFirst(plan: Table, h: Host, wire: string, pending: seq<string>)
    requires Framed(h.buffer, wire, pending) && '\n' in h.buffer
    ensures pending != [] && Strip(h.buffer[..FirstNewline(h.buffer)]) == Strip(pending[0])
    ensures Framed(ProcessLine(plan, true, h).0.buffer, wire, pending[1..])
    ensures StageTexts(pending) ==
            (if StartsWith(Strip(pending[0]), "stage=") then [Strip(pending[0])] else []) + StageTexts(pending[1..])
  {
    SplitFirst(pending, h.buffer, wire);
    var i := FirstNewline(h.buffer);
    OnLineKeepsBuffer(plan, h.(buffer := h.buffer[i + 1..]), Strip(h.buffer[..i]));
    hide OnLine, Text, Join, Echo, Strip, StartsWith;
  }

  lemma TextsFirst(out: seq<Line>, from: nat)
    requires from < |out|
    ensures Texts(out, from) == [Text(out[from])] + Texts(out, from + 1)
  {
    hide Text;
  }

  /** The line the host cuts off, and what the collector makes of it. */
  function NextText(h: Host): string
    requires '\n' in h.buffer
  {
    Strip(h.buffer[..FirstNewline(h.buffer)])
  }

  ghost predicate Outcome(plan: Table, h: Host, text: string, h': Host, reply: Option<Reply>) {
    var a := Accepted(h);
    && a < 140 && HostOk(h')
    && if !StartsWith(text, "stage=") then Accepted(h') == a && h'.status != Failed && reply == None
       else if h'.status == Failed then Accepted(h') == a && reply == None
       else Accepted(h') == a + 1 && text == Text(ExpectedLine(plan, a)) && reply == ReplyAt(a)
  }

  lemma ProcessOutcome(plan: Table, h: Host)
    requires HostOk(h) && HasLine(h)
    ensures Outcome(plan, h, NextText(h), ProcessLine(plan, true, h).0, ProcessLine(plan, true, h).1)
  {
    var i := FirstNewline(h.buffer);
    var h1 := h.(buffer := h.buffer[i + 1..]);
    HostTakesNextOnly(plan, h1, NextText(h));
    hide OnLine, Text, ExpectedLine, Strip, StartsWith, MustBeLast, Contains, ReplyAt;
  }

  lemma FirstInFlight(out: seq<Line>, a: nat, pending: seq<string>)
    requires a <= |out| && pending != [] && StageTexts(pending) == Texts(out, a)
    ensures var first := Strip(pending[0]);
            if StartsWith(first, "stage=")
            then a < |out| && Text(out[a]) == first && StageTexts(pending[1..]) == Texts(out, a + 1)
            else StageTexts(pending[1..]) == Texts(out, a)
  {
    var first := Strip(pending[0]);
    assert StageTexts(pending) == (if StartsWith(first, "stage=") then [first] else []) + StageTexts(pending[1..]);
    hide StageTexts, Strip, StartsWith, Text;
    if StartsWith(first, "stage=") {
      assert |Texts(out, a)| >= 1;
      TextsFirst(out, a);
      hide Texts;
      assert ([first] + StageTexts(pending[1..]))[0] == first;
      assert ([first] + StageTexts(pending[1..]))[1..] == StageTexts(pending[1..]);
    }
  }

  lemma FlightAfter(plan: Table, host: Host, h': Host, reply: Option<Reply>, out: seq<Line>, pending: seq<string>)
    requires InFlight(plan, host, out, pending) && host.status == Running && pending != []
    requires Outcome(plan, host, Strip(pending[0]), h', reply)
    ensures InFlight(plan, h', out, pending[1..])
  {
    var a := Accepted(host);
    FirstInFlight(out, a, pending);
    if Accepted(h') == a + 1 && a < |out| && Text(out[a]) == Text(ExpectedLine(plan, a)) {
      NextExpected(plan, out, a);
    }
    hide StageTexts, Strip, StartsWith, Text, Texts, ExpectedLine, ReplyAt, HostOk, AllExpected, Accepted;
  }

  lemma NextExpected(plan: Table, out: seq<Line>, a: nat)
    requires a < |out| && a < 140 && AllExpected(plan, out, a) && Text(out[a]) == Text(ExpectedLine(plan, a))
    ensures AllExpected(plan, out, a + 1)
  {
    hide Text, ExpectedLine;
  }

  lemma GrantOne(plan: Table, accepted: nat, granted: seq<(string, Reply)>, down: seq<Reply>, taken: nat,
                 line: string, reply: Option<Reply>)
    requires accepted < 140 && Granted(plan, accepted, granted, down, taken)
    requires line == Text(ExpectedLine(plan, accepted)) && reply == ReplyAt(accepted)
    ensures reply.Some? ==> Granted(plan, accepted + 1, granted + [(line, reply.value)], down + [reply.value], taken)
    ensures reply.None? ==> Granted(plan, accepted + 1, granted, down, taken)
  {
    hide Text, ExpectedLine;
    if reply.Some? {
      assert GrantLine(|granted|) == accepted;
      assert GrantIs(plan, (line, reply.value), |granted|);
    }
  }

  lemma GrantsAfter(plan: Table, host: Host, h': Host, text: string, reply: Option<Reply>,
                    granted: seq<(string, Reply)>, down: seq<Reply>, taken: nat)
    requires Granted(plan, Accepted(host), granted, down, taken) && Outcome(plan, host, text, h', reply)
    ensures reply.Some? ==> Granted(plan, Accepted(h'), granted + [(text, reply.value)], down + [reply.value], taken)
    ensures reply.None? ==> Granted(plan, Accepted(h'), granted, down, taken)
  {
    hide Text, ExpectedLine, StartsWith, Granted, ReplyAt;
    if Accepted(h') == Accepted(host) + 1 {
      GrantOne(plan, Accepted(host), granted, down, taken, text, reply);
    }
  }

  lemma HostProcessKeeps(s: Sys)
    requires Inv(s) && Enabled(s, HostProcess)
    ensures Inv(DoHostProcess(s))
  {
    var (h, reply) := ProcessLine(s.plan, true, s.host);
    var text := NextText(s.host);
    assert HostOk(s.host);
    HostSeesFirst(s.plan, s.host, s.wire, s.pending);
    ProcessOutcome(s.plan, s.host);
    FlightAfter(s.plan, s.host, h, reply, s.dev.out, s.pending);
    GrantsAfter(s.plan, s.host, h, text, reply, s.granted, s.down, s.dev.sup.taken);
    hide ProcessLine, Framed, InFlight, Granted, DeviceOk, Strip, StartsWith, StageTexts, Outcome;
  }

  // ---- Child ----------------------------------------------------------------------------------------

  lemma WrittenGrows(sup: Supervisor, out: seq<Line>, printed: seq<Line>, fromChild: seq<Line>, line: Line)
    requires Written(sup, out, printed, fromChild)
    ensures Written(sup, out, printed + [line], fromChild + [line])
  {
    var f := |printed| - |fromChild|;
    assert (printed + [line])[..f] == printed[..f];
    assert (printed + [line])[f..] == printed[f..] + [line];
  }

  lemma ScriptedGrows(table: Table, raw: Word, gpc: Word, printed: seq<Line>, line: Line)
    requires Scripted(table, raw, gpc, printed, |printed|) && |printed| < 136
    requires line == ScriptLine(table, raw, gpc, |printed|)
    ensures Scripted(table, raw, gpc, printed + [line], |printed| + 1)
  {
    hide ScriptLine;
  }

  lemma SupOkPrinted(sup: Supervisor, t: Tally)
    requires SupOk(sup, t) && t.finish.None? && t.forwarded <= t.scripted == t.printed
    ensures SupOk(sup, t.(scripted := t.scripted + 1, printed := t.printed + 1)) || sup.pc.Exited?
    ensures forall rc :: SupOk(sup, t.(printed := t.printed + 1, finish := Some(rc))) || sup.pc.Exited?
  {
  }

  lemma PrintScriptLine(d: Device, line: Line, child: Child)
    requires DeviceOk(d) && Launched(d.sup.pc) && !d.sup.pc.Exited? && FinishOf(d.printed).None? && |d.printed| < 136
    requires line == ScriptLine(d.table, d.raw, d.gpc, |d.printed|) && !line.Finished?
    requires var t := Count(d);
             ChildOk(child, d.gpc, t.(scripted := t.scripted + 1, printed := t.printed + 1)) && !child.phase.Unborn?
    ensures DeviceOk(Print(d.(child := child), line))
  {
    hide ScriptLine, Accessed, AcksAre, ChildOk, MemAfter, Written, Scripted, SupOk;
    var t := Count(d);
    assert Count(Print(d.(child := child), line)) == t.(scripted := t.scripted + 1, printed := t.printed + 1);
    WrittenGrows(d.sup, d.out, d.printed, d.fromChild, line);
    ScriptedGrows(d.table, d.raw, d.gpc, d.printed, line);
    UnfinishedCount(d);
    SupOkPrinted(d.sup, t);
  }

  /** A supervisor that exited had a child that exited. */
  lemma NotExited(d: Device)
    requires DeviceOk(d) && ChildRunning(d.child.phase)
    ensures Launched(d.sup.pc) && !d.sup.pc.Exited? && FinishOf(d.printed).None?
  {
    hide ScriptLine, Accessed, AcksAre, MemAfter, Written, Scripted;
  }

  lemma ChildAnnounceKeeps(d: Device)
    requires DeviceOk(d) && ChildEnabled(d, ChildAnnounce)
    ensures DeviceOk(ChildStep(d, ChildAnnounce))
  {
    var k := d.child.k;
    NotExited(d);
    ScriptLineCases(d.table, d.raw, d.gpc, k);
    ScriptLineIsWellNamed(d.table, d.raw, d.gpc, 2 * k);
    hide ScriptLine, BeforeLine, AfterLine, WellNamed, MemAfter, Accessed, AcksAre, Written, Scripted, SupOk;
    PrintScriptLine(d, BeforeLine(d.table, k), d.child.(phase := Await));
  }

  lemma NextChildOk(child: Child, gpc: Word, t: Tally)
    requires ChildOk(child, gpc, t) && child.phase.Report? && t.finish.None? && t.printed == t.scripted
    ensures ChildOk(NextChild(child.k, gpc), gpc, t.(scripted := t.scripted + 1, printed := t.printed + 1))
  {
  }

  lemma ReportCount(d: Device)
    requires DeviceOk(d) && Launched(d.sup.pc) && d.child.phase.Report?
    ensures Count(d).scripted == Count(d).printed == |d.printed| == 2 * d.child.k + 1 && d.child.k < 68
  {
    hide ScriptLine, MemAfter, Accessed, AcksAre, Written, Scripted, SupOk, AckOk;
  }

  lemma ChildReportKeeps(d: Device)
    requires DeviceOk(d) && ChildEnabled(d, ChildReport)
    ensures DeviceOk(ChildStep(d, ChildReport))
  {
    hide ScriptLine, BeforeLine, AfterLine, WellNamed, MemAfter, Accessed, AcksAre, Written, Scripted, SupOk, ChildOk, AckOk;
    var k := d.child.k;
    NotExited(d);
    ReportCount(d);
    NextChildOk(d.child, d.gpc, Count(d));
    ScriptLineCases(d.table, d.raw, d.gpc, k);
    ScriptLineIsWellNamed(d.table, d.raw, d.gpc, 2 * k + 1);
    PrintScriptLine(d, AfterLine(d.table, d.raw, d.gpc, k), NextChild(k, d.gpc));
  }

  lemma FinishedChildOk(child: Child, gpc: Word, t: Tally)
    requires ChildOk(child, gpc, t) && child.phase.Finishing? && t.finish.None?
    ensures ChildOk(child.(phase := Gone(child.phase.rc)), gpc, t.(printed := t.printed + 1, finish := Some(child.phase.rc)))
  {
  }

  lemma ScriptedKept(table: Table, raw: Word, gpc: Word, printed: seq<Line>, line: Line, n: nat)
    requires Scripted(table, raw, gpc, printed, n)
    ensures Scripted(table, raw, gpc, printed + [line], n)
  {
    hide ScriptLine;
  }

  lemma ChildFinishKeeps(d: Device)
    requires DeviceOk(d) && ChildEnabled(d, ChildFinish)
    ensures DeviceOk(ChildStep(d, ChildFinish))
  {
    hide ScriptLine, MemAfter, Accessed, AcksAre, Written, Scripted, SupOk, ChildOk;
    NotExited(d);
    var rc := d.child.phase.rc;
    var t := Count(d);
    var e := ChildStep(d, ChildFinish);
    assert Count(e) == t.(printed := t.printed + 1, finish := Some(rc));
    WrittenGrows(d.sup, d.out, d.printed, d.fromChild, Finished(rc));
    UnfinishedCount(d);
    SupOkPrinted(d.sup, t);
    FinishedChildOk(d.child, d.gpc, t);
    ScriptedKept(d.table, d.raw, d.gpc, d.printed, Finished(rc), t.scripted);
  }

  lemma UnfinishedCount(d: Device)
    requires DeviceOk(d) && Launched(d.sup.pc) && FinishOf(d.printed).None?
    ensures Count(d).forwarded <= Count(d).scripted == Count(d).printed
  {
    hide ScriptLine, MemAfter, Accessed, AcksAre, Scripted, ChildOk, SupOk;
  }

  lemma CrashedChildOk(child: Child, gpc: Word, t: Tally, phase: Phase)
    requires ChildOk(child, gpc, t) && t.finish.None? && (phase == Finishing(1) || phase == Gone(1))
    ensures ChildOk(child.(phase := phase), gpc, t)
  {
  }

  lemma ChildCrashKeeps(d: Device, reports: bool)
    requires DeviceOk(d) && ChildEnabled(d, ChildCrash(reports))
    ensures DeviceOk(ChildStep(d, ChildCrash(reports)))
  {
    NotExited(d);
    var e := ChildStep(d, ChildCrash(reports));
    assert Count(e) == Count(d);
    CrashedChildOk(d.child, d.gpc, Count(d), e.child.phase);
    hide ScriptLine, MemAfter, Accessed, AcksAre, Written, Scripted, SupOk, ChildOk, AckOk, Count;
  }

  lemma RightAck(d: Device)
    requires DeviceOk(d) && Launched(d.sup.pc) && d.child.phase.Await? && d.toChild != []
    ensures d.toChild[0] == NeededAck(d.child.k) && |d.accesses| == d.child.k
  {
    hide ScriptLine, MemAfter, Accessed, Written, Scripted;
  }

  lemma AccessCounts(sup: Supervisor, child: Child, gpc: Word, value: Word, t: Tally)
    requires ChildOk(child, gpc, t) && child.phase.Await? && t.finish.None? && t.printed == t.scripted
    requires AckOk(sup, t) && SupOk(sup, t) && t.acks > 0
    ensures var u := t.(acks := t.acks - 1, accessed := t.accessed + 1);
            AckOk(sup, u) && SupOk(sup, u) &&
            ChildOk(child.(phase := Report), if child.k == 1 then value else gpc, u)
  {
  }

  lemma AcksShift(toChild: seq<Reply>, first: nat)
    requires AcksAre(toChild, first) && toChild != []
    ensures AcksAre(toChild[1..], first + 1)
  {
    assert forall j :: 0 <= j < |toChild| - 1 ==> toChild[1..][j] == toChild[j + 1];
  }

  lemma ChildAccessKeeps(d: Device, value: Word)
    requires DeviceOk(d) && ChildEnabled(d, ChildAccess(value))
    ensures DeviceOk(ChildStep(d, ChildAccess(value)))
  {
    hide AccessAt, Touch, ScriptLine, Accessed, Scripted, Written, AcksAre, SupOk, ChildOk, AckOk, MemAfter;
    NotExited(d);
    RightAck(d);
    AwaitCount(d);
    var e := ChildStep(d, ChildAccess(value));
    var t := Count(d);
    assert Count(e) == t.(acks := t.acks - 1, accessed := t.accessed + 1);
    AccessCounts(d.sup, d.child, d.gpc, value, t);
    AcksShift(d.toChild, |d.accesses|);
    AccessKeepsScript(d, e.raw, e.gpc);
    AccessedGrows(d, value);
    MemAfterAppend(d.initial, d.accesses, AccessAt(d.table, d.child.k, value));
  }

  lemma AwaitCount(d: Device)
    requires DeviceOk(d) && Launched(d.sup.pc) && d.child.phase.Await?
    ensures Count(d).scripted == |d.printed| == 2 * d.child.k + 1 && d.child.k < 68
  {
    hide AccessAt, Touch, ScriptLine, Accessed, Scripted, Written, AcksAre, SupOk, AckOk, MemAfter;
  }

  lemma MemAfterAppend(initial: map<nat, Word>, accesses: seq<Access>, access: Access)
    ensures MemAfter(initial, accesses + [access]) == Touch(MemAfter(initial, accesses), access)
  {
    assert (accesses + [access])[..|accesses|] == accesses;
  }

  /** The value read at stage 0 or 1 is printed only afterwards, so earlier lines do not depend on it. */
  lemma AccessKeepsScript(d: Device, raw: Word, gpc: Word)
    requires Scripted(d.table, d.raw, d.gpc, d.printed, |d.printed|)
    requires |d.printed| > 1 ==> raw == d.raw
    requires |d.printed| > 3 ==> gpc == d.gpc
    ensures Scripted(d.table, raw, gpc, d.printed, |d.printed|)
  {
    forall j | 0 <= j < |d.printed|
      ensures ScriptLine(d.table, raw, gpc, j) == ScriptLine(d.table, d.raw, d.gpc, j)
    {
      hide StepAt;
    }
  }

  lemma AccessedGrows(d: Device, value: Word)
    requires Accessed(d.table, d.raw, d.gpc, d.accesses) && |d.accesses| < 68
    ensures var k := |d.accesses|;
            Accessed(d.table, if k == 0 then value else d.raw, if k == 1 then value else d.gpc,
                     d.accesses + [AccessAt(d.table, k, value)])
  {
    hide StepAt;
    if |d.accesses| > 1 {
      forall v1: Word, v2: Word ensures AccessAt(d.table, |d.accesses|, v1) == AccessAt(d.table, |d.accesses|, v2) {
        WriteIgnoresValue(d.table, |d.accesses|, v1, v2);
      }
    }
  }

  lemma WriteIgnoresValue(table: Table, k: nat, v1: Word, v2: Word)
    requires 2 <= k < 68
    ensures AccessAt(table, k, v1) == AccessAt(table, k, v2) == Write(WriteAddress(k - 2), table[k - 2])
  {
    hide WriteAddress, WriteName;
  }

  // ---- Supervisor -----------------------------------------------------------------------------------

  lemma SupAnnounceKeeps(s: Sys, cr: bool)
    requires Inv(s) && Enabled(s, SupAnnounce(cr))
    ensures Inv(Do(s, SupAnnounce(cr)))
  {
    var s1 := WithSup(s, s.dev.sup.(pc := AwaitArm));
    EmitKeeps(s1, WatchdogOpen, cr);
    hide Framed, InFlight, Granted, RawLine, Text;
  }

  lemma TakenReply(plan: Table, accepted: nat, granted: seq<(string, Reply)>, down: seq<Reply>, taken: nat)
    requires Granted(plan, accepted, granted, down, taken) && down != []
    ensures Granted(plan, accepted, granted, down[1..], taken + 1)
    ensures GrantLine(taken) < 138 && taken < GrantCount(accepted) && Some(down[0]) == ReplyAt(GrantLine(taken))
  {
    hide Text, ExpectedLine;
    assert GrantIs(plan, granted[taken], taken);
  }

  lemma ArmedDevice(d: Device)
    requires DeviceOk(d) && d.sup.pc.AwaitArm?
    ensures d.sup.taken == 0
    ensures DeviceOk(d.(sup := d.sup.(taken := 1, pc := Reading, watchdog := Armed), child := Child(0, Announce),
                        out := d.out + [WatchdogArmed]))
  {
    hide ScriptLine, MemAfter;
  }

  lemma UnarmedDevice(d: Device, watchdog: Watchdog)
    requires DeviceOk(d) && d.sup.pc.AwaitArm? && (watchdog == d.sup.watchdog || watchdog == SetupClosed)
    ensures DeviceOk(d.(sup := d.sup.(taken := 1, pc := SetupFailed, watchdog := watchdog)))
  {
    hide ScriptLine, MemAfter;
  }

  lemma SupArmKeeps(s: Sys, ok: bool, cr: bool)
    requires Inv(s) && Enabled(s, SupArm(ok, cr))
    ensures Inv(DoSupArm(s, ok, cr))
  {
    hide Framed, InFlight, Granted, Accepted, RawLine, Text, DeviceOk;
    TakenReply(s.plan, Accepted(s.host), s.granted, s.down, s.dev.sup.taken);
    ArmedDevice(s.dev);
    UnarmedDevice(s.dev, s.dev.sup.watchdog);
    UnarmedDevice(s.dev, SetupClosed);
    if ok {
      var sup := s.dev.sup.(taken := 1, pc := Reading, watchdog := Armed);
      EmitKeeps(s.(dev := s.dev.(sup := sup, child := Child(0, Announce))), WatchdogArmed, cr);
    }
  }

  lemma SupFaultKeeps(s: Sys)
    requires Inv(s) && Enabled(s, SupFault)
    ensures Inv(Do(s, SupFault))
  {
    hide Framed, InFlight, Granted, DeviceOk;
    StuckDevice(s.dev);
  }

  lemma ForwardWritten(sup: Supervisor, sup': Supervisor, out: seq<Line>, printed: seq<Line>, fromChild: seq<Line>)
    requires Written(sup, out, printed, fromChild) && fromChild != []
    requires !sup.pc.Exited? && !sup'.pc.Exited? && sup'.watchdog == sup.watchdog
    ensures Written(sup', out + [fromChild[0]], printed, fromChild[1..])
  {
    var f := |printed| - |fromChild|;
    assert printed[..f + 1] == printed[..f] + [fromChild[0]];
  }

  lemma ScriptLineKind(table: Table, raw: Word, gpc: Word, j: nat)
    requires j < 136
    ensures var line := ScriptLine(table, raw, gpc, j);
            if j % 2 == 1 then line.AfterPmgr? || line.After? else if j == 0 then line == BeforePmgr else line.Before?
  {
    hide StepAt;
  }

  ghost predicate CueFits(t: Tally, cue: Cue) {
    if t.forwarded < t.scripted then
      if t.forwarded % 2 == 0 then cue == NeedAck(if t.forwarded == 0 then READ else ACCESS) else cue == NeedFeed
    else t.finish.Some? && cue == (if t.finish.value == 0 then FinishedOk else FinishedBad)
  }

  /** The supervisor reads each line as the step the child is at. */
  lemma ForwardedCue(d: Device)
    requires DeviceOk(d) && d.sup.pc.Reading? && d.fromChild != []
    ensures WellNamed(d.fromChild[0]) && CueFits(Count(d), CueOf(Text(d.fromChild[0])))
  {
    var t := Count(d);
    var line := d.fromChild[0];
    assert line == d.printed[t.forwarded];
    if t.forwarded < t.scripted {
      assert line == ScriptLine(d.table, d.raw, d.gpc, t.forwarded);
      ScriptLineIsWellNamed(d.table, d.raw, d.gpc, t.forwarded);
      ScriptLineKind(d.table, d.raw, d.gpc, t.forwarded);
    }
    hide CueOf, Text, ScriptLine, Accessed, AcksAre, MemAfter, Written;
    CueOfLine(line);
  }

  lemma ForwardCounts(sup: Supervisor, t: Tally, cue: Cue)
    requires SupOk(sup, t) && AckOk(sup, t) && sup.pc.Reading? && t.forwarded < t.printed && CueFits(t, cue)
    requires t.printed == t.scripted + (if t.finish.Some? then 1 else 0)
    ensures SupOk(AfterCue(sup, cue), t.(forwarded := t.forwarded + 1))
    ensures AckOk(AfterCue(sup, cue), t.(forwarded := t.forwarded + 1))
    ensures Launched(AfterCue(sup, cue).pc) && !AfterCue(sup, cue).pc.Exited?
    ensures AfterCue(sup, cue).watchdog == sup.watchdog && AfterCue(sup, cue).taken == sup.taken
  {
  }

  lemma SupForwardKeeps(s: Sys, cr: bool)
    requires Inv(s) && Enabled(s, SupForward(cr))
    ensures Inv(DoSupForward(s, cr))
  {
    hide Framed, InFlight, Granted, Accepted, RawLine, Text, CueOf, AfterCue, MemAfter, Accessed, Scripted, Written, SupOk, AckOk, ChildOk, AcksAre, CueFits;
    var d := s.dev;
    var line := d.fromChild[0];
    var cue := CueOf(Text(line));
    var sup := AfterCue(d.sup, cue);
    ForwardedCue(d);
    ForwardCounts(d.sup, Count(d), cue);
    ForwardDoesNotMatter(d.child, d.gpc, Count(d), Count(d).forwarded + 1);
    ForwardWritten(d.sup, sup, d.out, d.printed, d.fromChild);
    var s1 := s.(dev := d.(fromChild := d.fromChild[1..], sup := sup));
    EmitKeeps(s1, line, cr);
    assert Count(DoSupForward(s, cr).dev) == Count(d).(forwarded := Count(d).forwarded + 1);
  }

  lemma ReplyIsRight(sup: Supervisor, t: Tally, reply: Reply)
    requires SupOk(sup, t) && (sup.pc.AwaitAck? || sup.pc.AwaitFeed?) && sup.taken < 137
    requires Some(reply) == ReplyAt(GrantLine(sup.taken))
    ensures reply == if sup.pc.AwaitAck? then sup.pc.ack else FEED(sup.n)
  {
  }

  lemma ReplyCounts(d: Device, reply: Reply, ok: bool)
    requires SupOk(d.sup, Count(d)) && AckOk(d.sup, Count(d)) && AcksAre(d.toChild, |d.accesses|)
    requires d.sup.pc.AwaitAck? || d.sup.pc.AwaitFeed?
    requires reply == if d.sup.pc.AwaitAck? then d.sup.pc.ack else FEED(d.sup.n)
    ensures var e := TakeReply(d, reply, ok);
            && SupOk(e.sup, Count(e)) && AckOk(e.sup, Count(e)) && AcksAre(e.toChild, |e.accesses|)
            && Launched(e.sup.pc) && !e.sup.pc.Exited? && e.sup.watchdog == d.sup.watchdog && e.sup.taken == d.sup.taken + 1
            && e == d.(sup := e.sup, toChild := e.toChild)
  {
    hide FinishOf;
  }

  lemma SupReplyKeeps(s: Sys, ok: bool)
    requires Inv(s) && Enabled(s, SupReply(ok))
    ensures Inv(DoSupReply(s, ok))
  {
    hide Framed, InFlight, Granted, Accepted, MemAfter, Accessed, Scripted, Written, SupOk, AckOk, ChildOk, AcksAre, TakeReply;
    var d := s.dev;
    TakenReply(s.plan, Accepted(s.host), s.granted, s.down, d.sup.taken);
    ReplyIsRight(d.sup, Count(d), s.down[0]);
    ReplyCounts(d, s.down[0], ok);
    var e := TakeReply(d, s.down[0], ok);
    assert Count(e) == Count(d).(acks := |e.toChild|);
    AcksDoNotMatter(e.child, e.gpc, Count(d), |e.toChild|);
    WrittenSame(d.sup, e.sup, d.out, d.printed, d.fromChild);
  }

  lemma AcksDoNotMatter(child: Child, gpc: Word, t: Tally, acks: nat)
    requires ChildOk(child, gpc, t)
    ensures ChildOk(child, gpc, t.(acks := acks))
  {
  }

  lemma ForwardDoesNotMatter(child: Child, gpc: Word, t: Tally, forwarded: int)
    requires ChildOk(child, gpc, t)
    ensures ChildOk(child, gpc, t.(forwarded := forwarded))
  {
  }

  lemma WrittenSame(sup: Supervisor, sup': Supervisor, out: seq<Line>, printed: seq<Line>, fromChild: seq<Line>)
    requires Written(sup, out, printed, fromChild)
    requires sup'.pc.Exited? == sup.pc.Exited? && sup'.watchdog == sup.watchdog
    ensures Written(sup', out, printed, fromChild)
  {
  }

  lemma StuckDevice(d: Device)
    requires DeviceOk(d) && (d.sup.pc.Reading? || d.sup.pc.AwaitAck? || d.sup.pc.AwaitFeed?)
    ensures DeviceOk(d.(sup := d.sup.(pc := Stuck)))
  {
    hide ScriptLine, MemAfter, Scripted, Accessed, AcksAre, ChildOk, Written;
    WrittenSame(d.sup, d.sup.(pc := Stuck), d.out, d.printed, d.fromChild);
  }

  lemma DisarmedDevice(d: Device)
    requires DeviceOk(d) && d.sup.pc.Reading? && d.fromChild == [] && d.child.phase == Gone(0) && d.sup.sawFinish
    ensures DeviceOk(d.(sup := d.sup.(pc := Exited, watchdog := Disarmed), out := d.out + [WatchdogDisarmed]))
  {
    hide ScriptLine, MemAfter, Scripted, Accessed, AcksAre;
  }

  lemma SupFinishKeeps(s: Sys, ok: bool, cr: bool)
    requires Inv(s) && Enabled(s, SupFinish(ok, cr))
    ensures Inv(DoSupFinish(s, ok, cr))
  {
    hide Framed, InFlight, Granted, RawLine, Text, DeviceOk;
    StuckDevice(s.dev);
    var t := DoSupFinish(s, ok, cr);
    if t.dev.sup.pc.Exited? {
      DisarmedDevice(s.dev);
      EmitKeeps(WithSup(s, s.dev.sup.(pc := Exited, watchdog := Disarmed)), WatchdogDisarmed, cr);
    }
  }

  // ---- Every step -------------------------------------------------------------------------------------

  lemma StepKeeps(s: Sys, a: Action)
    requires Inv(s) && Enabled(s, a)
    ensures Inv(Do(s, a))
  {
    hide Inv, DoHostRecv, DoHostProcess, DoSupArm, DoSupForward, DoSupReply, DoSupFinish, ChildStep, Emit;
    match a {
      case HostRecv(count) => HostRecvKeeps(s, count);
      case HostProcess => HostProcessKeeps(s);
      case HostAbort => HostAbortKeeps(s);
      case TerminalEcho(text) => EchoKeeps(s, text);
      case SupAnnounce(cr) => SupAnnounceKeeps(s, cr);
      case SupArm(ok, cr) => SupArmKeeps(s, ok, cr);
      case SupForward(cr) => SupForwardKeeps(s, cr);
      case SupReply(ok) => SupReplyKeeps(s, ok);
      case SupFinish(ok, cr) => SupFinishKeeps(s, ok, cr);
      case SupFault => SupFaultKeeps(s);
      case ChildAnnounce => InvParts(s); ChildAnnounceKeeps(s.dev); ChildKeepsOutside(s, a);
      case ChildAccess(value) => InvParts(s); ChildAccessKeeps(s.dev, value); ChildKeepsOutside(s, a);
      case ChildReport => InvParts(s); ChildReportKeeps(s.dev); ChildKeepsOutside(s, a);
      case ChildFinish => InvParts(s); ChildFinishKeeps(s.dev); ChildKeepsOutside(s, a);
      case ChildCrash(reports) => InvParts(s); ChildCrashKeeps(s.dev, reports); ChildKeepsOutside(s, a);
    }
  }

  lemma InvParts(s: Sys)
    requires Inv(s)
    ensures DeviceOk(s.dev)
  {
  }

  lemma ChildKeepsOutside(s: Sys, a: Action)
    requires Inv(s) && ChildEnabled(s.dev, a) && DeviceOk(ChildStep(s.dev, a))
    ensures Inv(s.(dev := ChildStep(s.dev, a)))
  {
    hide Framed, InFlight, Granted, DeviceOk, Accepted, BeforeLine, AfterLine;
  }

  lemma {:induction false} RunKeeps(s: Sys, actions: seq<Action>, t: Sys)
    requires Inv(s) && Run(s, actions, t)
    ensures Inv(t)
    decreases |actions|
  {
    if actions != [] {
      StepKeeps(s, actions[0]);
      RunKeeps(Do(s, actions[0]), actions[1..], t);
    }
  }
}
