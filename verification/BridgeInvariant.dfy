/** What every step of the supervised bridge run keeps. */
module BridgeInvariant {
  import opened Common
  import opened CheckpointText
  import opened CheckpointFraming
  import opened BridgeHost
  import opened BridgeSystem

  // ---- Counters read off the histories --------------------------------------------------------------

  /** The exit status of a final `stage=finished` line. */
  function FinishOf(printed: seq<Line>): Option<nat> {
    if printed != [] && printed[|printed| - 1].Finished? then Some(printed[|printed| - 1].rc) else None
  }

  /** Counters: stage lines printed (the final `stage=finished` apart), all lines printed, lines forwarded,
      acknowledgements on their way to the child, accesses done. */
  datatype Tally = Tally(scripted: nat, printed: nat, forwarded: int, acks: nat, accessed: nat, finish: Option<nat>)

  function Count(d: Device): Tally {
    Tally(if FinishOf(d.printed).Some? then |d.printed| - 1 else |d.printed|, |d.printed|,
          |d.printed| - |d.fromChild|, |d.toChild|, |d.accesses|, FinishOf(d.printed))
  }

  function Texts(out: seq<Line>, from: nat): (texts: seq<string>)
    requires from <= |out|
    ensures |texts| == |out| - from
  {
    seq(|out| - from, i requires 0 <= i < |out| - from => Text(out[from + i]))
  }

  /** Answers sent once `accepted` lines have been accepted, and the line each of them answers. */
  function GrantCount(accepted: nat): nat {
    if accepted == 0 then 0 else if accepted <= 2 then 1 else if accepted <= 138 then accepted - 1 else 137
  }

  function GrantLine(i: nat): nat {
    if i == 0 then 0 else i + 1
  }

  function MemAfter(initial: map<nat, Word>, accesses: seq<Access>): map<nat, Word> {
    if accesses == [] then initial
    else Touch(MemAfter(initial, accesses[..|accesses| - 1]), accesses[|accesses| - 1])
  }

  // ---- The invariant ----------------------------------------------------------------------------------

  /** The bytes the host holds or will receive are exactly the pending lines. */
  ghost predicate Framed(buffer: string, wire: string, pending: seq<string>) {
    && Clean(pending)
    && buffer + wire == Join(pending)
    && forall i :: 0 <= i < |pending| ==> Echo(pending[i]) || StartsWith(Strip(pending[i]), "stage=")
  }

  /** Every line the host accepted is the expected one; the stage lines it has not seen are in flight. */
  ghost predicate InFlight(plan: Table, host: Host, out: seq<Line>, pending: seq<string>) {
    && HostOk(host)
    && Accepted(host) <= |out|
    && (host.status != Failed ==> StageTexts(pending) == Texts(out, Accepted(host)))
    && AllExpected(plan, out, Accepted(host))
  }

  ghost predicate AllExpected(plan: Table, out: seq<Line>, accepted: nat) {
    accepted <= |out| && forall i :: 0 <= i < accepted && i < 140 ==> Text(out[i]) == Text(ExpectedLine(plan, i))
  }

  /** The host answered exactly the accepted lines; the supervisor took the first `taken` answers. */
  ghost predicate Granted(plan: Table, accepted: nat, granted: seq<(string, Reply)>, down: seq<Reply>, taken: nat) {
    && |granted| == GrantCount(accepted) == taken + |down|
    && (forall i :: 0 <= i < |granted| ==> GrantIs(plan, granted[i], i))
    && (forall j :: 0 <= j < |down| ==> down[j] == granted[taken + j].1)
  }

  ghost predicate GrantIs(plan: Table, grant: (string, Reply), i: nat) {
    GrantLine(i) < 138 && grant.0 == Text(ExpectedLine(plan, GrantLine(i))) && Some(grant.1) == ReplyAt(GrantLine(i))
  }

  predicate Launched(pc: SupPc) {
    pc.Reading? || pc.AwaitAck? || pc.AwaitFeed? || pc.Stuck? || pc.Exited?
  }

  /** The supervisor's counters. `q` answers were taken after `ARM`; one line at most is unanswered. */
  predicate SupOk(sup: Supervisor, t: Tally) {
    var q := sup.taken - 1;
    && 0 <= q && 0 <= t.forwarded <= t.printed
    && (sup.sawFinish ==> t.forwarded == t.scripted + 1 && t.finish == Some(0))
    && match sup.pc
       case Reading => && q == (if t.forwarded <= t.scripted then t.forwarded else t.scripted)
                       && sup.n == sup.keepalives && 2 * sup.n <= q <= 2 * sup.n + 1
                       && (t.forwarded == t.scripted + 1 ==> sup.sawFinish)
       case AwaitAck(ack) => && q == t.forwarded - 1 && t.forwarded <= t.scripted
                             && q == 2 * sup.n && sup.n == sup.keepalives && ack == NeededAck(sup.n)
       case AwaitFeed => && q == t.forwarded - 1 && t.forwarded <= t.scripted
                         && q == 2 * sup.keepalives + 1 && sup.n == sup.keepalives + 1
       case Exited => t.forwarded == 137 && t.scripted == 136 && q == 136 && sup.n == sup.keepalives == 68 && sup.sawFinish
       case _ => q <= t.forwarded && q <= t.scripted && 2 * sup.keepalives <= q
  }

  /** Every acknowledgement the supervisor took was passed on, and no other. */
  predicate AckOk(sup: Supervisor, t: Tally) {
    && 2 * (t.acks + t.accessed) <= sup.taken
    && (!sup.pc.Stuck? ==> sup.taken <= 2 * (t.acks + t.accessed) + 1)
  }

  predicate ChildOk(child: Child, gpc: Word, t: Tally) {
    && child.k < 68 && t.scripted <= 136 && t.accessed <= 68
    && 2 * t.accessed <= t.scripted + 1 && t.scripted <= 2 * t.accessed + 1
    && (t.finish.Some? ==> child.phase == Gone(t.finish.value))
    && (t.finish == Some(0) ==> t.scripted == 136)
    && (t.accessed > 2 ==> gpc == 0)
    && match child.phase
       case Unborn => true
       case Announce => t.printed == 2 * child.k && t.accessed == child.k && (child.k >= 2 ==> gpc == 0)
       case Await => t.printed == 2 * child.k + 1 && t.accessed == child.k && (child.k >= 2 ==> gpc == 0)
       case Report => t.printed == 2 * child.k + 1 && t.accessed == child.k + 1 && (child.k >= 2 ==> gpc == 0)
       case Finishing(rc) => rc == 0 ==> t.scripted == 136
       case Gone(code) => code == 0 ==> t.scripted == 136 && t.finish == Some(0)
  }

  ghost predicate QuietBefore(d: Device) {
    && d.sup.n == 0 && d.sup.keepalives == 0 && !d.sup.sawFinish
    && d.child == Child(0, Unborn) && d.printed == [] && d.fromChild == [] && d.toChild == [] && d.accesses == []
    && match d.sup.pc
       case Start => d.out == [] && d.sup.taken == 0 && d.sup.watchdog == Unopened
       case AwaitArm => d.out == [WatchdogOpen] && d.sup.taken == 0 && d.sup.watchdog == Unopened
       case _ => d.out == [WatchdogOpen] && d.sup.taken == 1 && (d.sup.watchdog == Unopened || d.sup.watchdog == SetupClosed)
  }

  /** Pipes and terminal carry the printed lines in order. */
  ghost predicate Written(sup: Supervisor, out: seq<Line>, printed: seq<Line>, fromChild: seq<Line>) {
    && |fromChild| <= |printed|
    && fromChild == printed[|printed| - |fromChild|..]
    && out == [WatchdogOpen, WatchdogArmed] + printed[..|printed| - |fromChild|]
              + (if sup.pc.Exited? then [WatchdogDisarmed] else [])
    && sup.watchdog == (if sup.pc.Exited? then Disarmed else Armed)
  }

  predicate AcksAre(toChild: seq<Reply>, first: nat) {
    forall j :: 0 <= j < |toChild| ==> toChild[j] == NeededAck(first + j)
  }

  ghost predicate Scripted(table: Table, raw: Word, gpc: Word, printed: seq<Line>, n: nat) {
    n <= |printed| && n <= 136 && forall j :: 0 <= j < n ==> printed[j] == ScriptLine(table, raw, gpc, j)
  }

  ghost predicate Accessed(table: Table, raw: Word, gpc: Word, accesses: seq<Access>) {
    |accesses| <= 68 && forall k :: 0 <= k < |accesses| ==> accesses[k] == AccessAt(table, k, if k == 0 then raw else gpc)
  }

  ghost predicate DeviceOk(d: Device) {
    && d.mem == MemAfter(d.initial, d.accesses)
    && if !Launched(d.sup.pc) then QuietBefore(d)
       else && Written(d.sup, d.out, d.printed, d.fromChild)
            && SupOk(d.sup, Count(d)) && AckOk(d.sup, Count(d))
            && ChildOk(d.child, d.gpc, Count(d)) && !d.child.phase.Unborn?
            && AcksAre(d.toChild, |d.accesses|)
            && Scripted(d.table, d.raw, d.gpc, d.printed, Count(d).scripted)
            && Accessed(d.table, d.raw, d.gpc, d.accesses)
  }

  ghost predicate Inv(s: Sys) {
    && Framed(s.host.buffer, s.wire, s.pending)
    && InFlight(s.plan, s.host, s.dev.out, s.pending)
    && Granted(s.plan, Accepted(s.host), s.granted, s.down, s.dev.sup.taken)
    && DeviceOk(s.dev)
  }

  lemma ScriptLineCases(table: Table, raw: Word, gpc: Word, k: nat)
    requires k < 68
    ensures ScriptLine(table, raw, gpc, 2 * k) == BeforeLine(table, k)
    ensures ScriptLine(table, raw, gpc, 2 * k + 1) == AfterLine(table, raw, gpc, k)
  {
    assert 2 * k / 2 == k && (2 * k + 1) / 2 == k;
  }

  lemma StartInv(plan: Table, table: Table, initial: map<nat, Word>, echoes: nat)
    ensures Inv(Initially(plan, table, initial, echoes))
  {
    hide Text;
    assert Join([]) == "";
  }

  // ---- Lines the supervisor writes keep the stream in order -------------------------------------------

  lemma WriteNameIsStepName(w: nat)
    requires w < 66
    ensures StepName(WriteName(w))
  {
    var a := Dec(TableOf(w) + 9);
    var b := Dec2(IndexIn(w));
    HexIsPlain(a);
    HexIsPlain(b);
    BothConcat("bridge-", a);
    BothConcat("bridge-" + a, "-");
    BothConcat("bridge-" + a + "-", b);
    var name := "bridge-" + a + "-" + b;
    assert name[0] == 'b' && name[|name| - 1] == b[|b| - 1];
  }

  lemma ScriptLineIsWellNamed(table: Table, raw: Word, gpc: Word, j: nat)
    requires j < 136
    ensures WellNamed(ScriptLine(table, raw, gpc, j)) && !ScriptLine(table, raw, gpc, j).Finished?
  {
    var k := j / 2;
    if k >= 2 {
      WriteNameIsStepName(k - 2);
    } else {
      assert StepName("gpc-state");
    }
    hide StepName, WriteName, WriteAddress;
  }

  lemma TextsAppend(out: seq<Line>, line: Line, from: nat)
    requires from <= |out|
    ensures Texts(out + [line], from) == Texts(out, from) + [Text(line)]
  {
    hide Text;
  }

  lemma RawLineFacts(line: Line, cr: bool)
    requires WellNamed(line)
    ensures var raw := RawLine(line, cr);
            '\n' !in raw && Strip(raw) == Text(line) && StartsWith(Text(line), "stage=")
  {
    TextIsPlain(line);
    StripTerminal(Text(line));
    hide Text, Strip, StartsWith;
    assert '\n' !in Text(line);
  }

  lemma Regroup4(a: string, b: string, c: string, d: string)
    ensures a + (b + c + d) == a + b + c + d
  {
  }

  lemma EmitKeepsFrame(buffer: string, wire: string, pending: seq<string>, raw: string)
    requires Framed(buffer, wire, pending)
    requires '\n' !in raw && (Echo(raw) || StartsWith(Strip(raw), "stage="))
    ensures Framed(buffer, wire + raw + "\n", pending + [raw])
  {
    JoinAppend(pending, raw);
    Regroup4(buffer, wire, raw, "\n");
    hide Strip, StartsWith, Echo, Join;
  }

  lemma EmitKeepsFlight(plan: Table, host: Host, out: seq<Line>, pending: seq<string>, line: Line, raw: string)
    requires InFlight(plan, host, out, pending)
    requires Strip(raw) == Text(line) && StartsWith(Text(line), "stage=")
    ensures InFlight(plan, host, out + [line], pending + [raw])
  {
    TextsAppend(out, line, Accepted(host));
    StageTextsAppend(pending, raw);
    hide Text, ExpectedLine, Strip, StartsWith, StageTexts, Texts;
  }

  lemma EmitKeeps(s: Sys, line: Line, cr: bool)
    requires Framed(s.host.buffer, s.wire, s.pending) && InFlight(s.plan, s.host, s.dev.out, s.pending) && WellNamed(line)
    ensures var t := Emit(s, line, cr);
            Framed(t.host.buffer, t.wire, t.pending) && InFlight(t.plan, t.host, t.dev.out, t.pending)
  {
    RawLineFacts(line, cr);
    hide Text, Strip, StartsWith, RawLine, Framed, InFlight, WellNamed;
    EmitKeepsFrame(s.host.buffer, s.wire, s.pending, RawLine(line, cr));
    EmitKeepsFlight(s.plan, s.host, s.dev.out, s.pending, line, RawLine(line, cr));
  }
}
