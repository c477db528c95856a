/** The supervised bridge run as one transition system: host collector, watchdog supervisor and the
    child (PMGR peek, then the bridge probe), joined by a byte stream and FIFO pipes.
    boot/gpu_bridge_capture.py:49-113, boot/gpu-watchdog-supervisor.c:52-115,
    boot/gpu-pmgr-peek.c:33-49, boot/gpu-bridge-once.c:17-78. */
module BridgeSystem {
  import opened Common
  import opened CheckpointText
  import opened CheckpointFraming
  import opened BridgeHost

  // ---- Supervisor -----------------------------------------------------------------------------------

  /** Where `main` of the supervisor is. `Reading` waits for a child line, `AwaitAck` and `AwaitFeed` wait
      for the host, `Stuck` is `fail_closed`, which never returns. */
  datatype SupPc = Start | AwaitArm | Reading | AwaitAck(ack: Reply) | AwaitFeed | Stuck | SetupFailed | Exited

  /** The watchdog device: never opened, armed, or disarmed by the magic close. */
  datatype Watchdog = Unopened | Armed | Disarmed | SetupClosed

  datatype Supervisor = Supervisor(pc: SupPc, n: nat, sawFinish: bool, watchdog: Watchdog,
                                   keepalives: nat, taken: nat)

  // ---- Child ----------------------------------------------------------------------------------------

  /** Stage `k` is the PMGR read (0), the GPC gate (1) or write `k - 2`. */
  datatype Phase = Unborn | Announce | Await | Report | Finishing(rc: nat) | Gone(code: nat)

  datatype Child = Child(k: nat, phase: Phase)

  datatype Access = Read(address: nat, value: Word) | Write(address: nat, value: Word)

  const PMGR_ADDRESS := 0x2_0e02_0320

  // ---- The whole system -----------------------------------------------------------------------------

  /** Supervisor, child, the pipes between them and the registers. */
  datatype Device = Device(
    table: Table,                         // the values the probe holds
    sup: Supervisor,
    out: seq<Line>,                       // history: stage lines the supervisor wrote
    toChild: seq<Reply>,
    fromChild: seq<Line>,
    child: Child,
    printed: seq<Line>,                   // history: stage lines the child wrote
    raw: Word,                            // PMGR word the child read
    gpc: Word,                            // GPC state the child read
    accesses: seq<Access>,                // history
    initial: map<nat, Word>,              // registers before the run
    mem: map<nat, Word>)

  datatype Sys = Sys(
    plan: Table,                          // the values the host was given
    host: Host,
    granted: seq<(string, Reply)>,        // history: each answer with the line it answers
    down: seq<Reply>,                     // host to supervisor
    wire: string,                         // supervisor to host, not yet received
    pending: seq<string>,                 // history: the lines behind host.buffer + wire
    dev: Device,
    echoes: nat)                          // terminal lines still allowed in a bounded run

  function Initially(plan: Table, table: Table, initial: map<nat, Word>, echoes: nat): Sys {
    Sys(plan, FRESH_HOST, [], [], "", [],
        Device(table, Supervisor(Start, 0, false, Unopened, 0, 0), [], [], [], Child(0, Unborn), [], 0, 0, [], initial, initial),
        echoes)
  }

  /** `cr` says whether the terminal turned the newline into CR LF. */
  datatype Action =
    | HostRecv(count: nat)
    | HostProcess
    | HostAbort
    | TerminalEcho(text: string)
    | SupAnnounce(cr: bool)
    | SupArm(ok: bool, cr: bool)
    | SupForward(cr: bool)
    | SupReply(ok: bool)
    | SupFinish(ok: bool, cr: bool)
    | SupFault
    | ChildAnnounce
    | ChildAccess(value: Word)
    | ChildReport
    | ChildFinish
    | ChildCrash(reports: bool)

  function RawLine(line: Line, cr: bool): string {
    if cr then Text(line) + "\r" else Text(line)
  }

  /** The supervisor writes one line to the terminal. */
  function Emit(s: Sys, line: Line, cr: bool): Sys {
    s.(wire := s.wire + RawLine(line, cr) + "\n", pending := s.pending + [RawLine(line, cr)],
        dev := s.dev.(out := s.dev.out + [line]))
  }

  function BeforeLine(table: Table, k: nat): Line
    requires k < 68
  {
    if k == 0 then BeforePmgr
    else var step := StepAt(table, k - 1); Before(step.name, step.address, step.op, step.value)
  }

  function AfterLine(table: Table, raw: Word, gpc: Word, k: nat): Line
    requires k < 68
  {
    if k == 0 then AfterPmgr(raw)
    else var step := StepAt(table, k - 1); After(step.name, if k == 1 then gpc else step.value)
  }

  function NeededAck(k: nat): Reply {
    if k == 0 then READ else ACCESS
  }

  /** What the child does to the hardware at stage `k` once it is allowed to. */
  function AccessAt(table: Table, k: nat, value: Word): Access
    requires k < 68
  {
    if k == 0 then Read(PMGR_ADDRESS, value)
    else
      var step := StepAt(table, k - 1);
      if step.op == "read" then Read(step.address, value) else Write(step.address, step.value)
  }

  function Touch(mem: map<nat, Word>, access: Access): map<nat, Word> {
    match access
    case Read(_, _) => mem
    case Write(address, value) => mem[address := value]
  }

  predicate ChildRunning(phase: Phase) {
    phase.Announce? || phase.Await? || phase.Report? || phase.Finishing?
  }

  predicate ChildEnabled(d: Device, a: Action) {
    match a
    case ChildAnnounce => d.child.phase.Announce? && d.child.k < 68
    case ChildAccess(_) => d.child.phase.Await? && d.child.k < 68 && d.toChild != []
    case ChildReport => d.child.phase.Report? && d.child.k < 68
    case ChildFinish => d.child.phase.Finishing?
    case ChildCrash(_) => ChildRunning(d.child.phase)
    case _ => false
  }

  predicate Enabled(s: Sys, a: Action) {
    match a
    case HostRecv(count) => s.host.status == Running && '\n' !in s.host.buffer && 0 < count <= |s.wire| && count <= 4096
    case HostProcess => HasLine(s.host)
    case HostAbort => s.host.status == Running
    case TerminalEcho(text) => Echo(text)
    case SupAnnounce(_) => s.dev.sup.pc.Start?
    case SupArm(_, _) => s.dev.sup.pc.AwaitArm? && s.down != []
    case SupForward(_) => s.dev.sup.pc.Reading? && s.dev.fromChild != []
    case SupReply(_) => (s.dev.sup.pc.AwaitAck? || s.dev.sup.pc.AwaitFeed?) && s.down != []
    case SupFinish(_, _) => s.dev.sup.pc.Reading? && s.dev.fromChild == [] && s.dev.child.phase.Gone?
    case SupFault => s.dev.sup.pc.Reading? || s.dev.sup.pc.AwaitAck? || s.dev.sup.pc.AwaitFeed?
    case _ => ChildEnabled(s.dev, a)
  }

  // ---- Host steps -----------------------------------------------------------------------------------

  function DoHostRecv(s: Sys, count: nat): Sys
    requires Enabled(s, HostRecv(count))
  {
    var h := s.host.(buffer := s.host.buffer + s.wire[..count]);
    s.(host := if |h.buffer| > MAX_CAPTURE then h.(status := Failed) else h, wire := s.wire[count..])
  }

  function DoHostProcess(s: Sys): Sys
    requires Enabled(s, HostProcess)
  {
    var (h, reply) := ProcessLine(s.plan, true, s.host);
    var line := Strip(s.host.buffer[..FirstNewline(s.host.buffer)]);
    var s1 := s.(host := h, pending := if s.pending == [] then [] else s.pending[1..]);
    match reply
    case None => s1
    case Some(r) => s1.(down := s.down + [r], granted := s.granted + [(line, r)])
  }

  // ---- Supervisor steps -----------------------------------------------------------------------------

  function WithSup(s: Sys, sup: Supervisor): Sys {
    s.(dev := s.dev.(sup := sup))
  }

  /** `ARM` opens and arms the watchdog and forks the child; anything else, or a device without magic
      close, ends the supervisor before the watchdog is in use. */
  function DoSupArm(s: Sys, ok: bool, cr: bool): Sys
    requires Enabled(s, SupArm(ok, cr))
  {
    var s1 := s.(down := s.down[1..]);
    var sup := s.dev.sup.(taken := s.dev.sup.taken + 1);
    if s.down[0] != ARM then WithSup(s1, sup.(pc := SetupFailed))
    else if !ok then WithSup(s1, sup.(pc := SetupFailed, watchdog := SetupClosed))
    else Emit(s1.(dev := s.dev.(sup := sup.(pc := Reading, watchdog := Armed), child := Child(0, Announce))),
              WatchdogArmed, cr)
  }

  function AfterCue(sup: Supervisor, cue: Cue): Supervisor {
    match cue
    case NeedAck(ack) => sup.(pc := AwaitAck(ack))
    case NeedFeed => sup.(pc := AwaitFeed, n := sup.n + 1)
    case FinishedOk => sup.(sawFinish := true)
    case FinishedBad => sup.(pc := Stuck)
    case NoCue => sup
  }

  function DoSupForward(s: Sys, cr: bool): Sys
    requires Enabled(s, SupForward(cr))
  {
    var line := s.dev.fromChild[0];
    Emit(s.(dev := s.dev.(fromChild := s.dev.fromChild[1..], sup := AfterCue(s.dev.sup, CueOf(Text(line))))), line, cr)
  }

  /** `ok` is whether the pipe write or the keepalive ioctl succeeds. */
  function TakeReply(d: Device, reply: Reply, ok: bool): Device
    requires d.sup.pc.AwaitAck? || d.sup.pc.AwaitFeed?
  {
    var sup := d.sup.(taken := d.sup.taken + 1);
    if d.sup.pc.AwaitAck? then
      if reply != d.sup.pc.ack || !ok then d.(sup := sup.(pc := Stuck))
      else d.(sup := sup.(pc := Reading), toChild := d.toChild + [reply])
    else
      if reply != FEED(d.sup.n) || !ok then d.(sup := sup.(pc := Stuck))
      else d.(sup := sup.(pc := Reading, keepalives := sup.keepalives + 1))
  }

  function DoSupReply(s: Sys, ok: bool): Sys
    requires Enabled(s, SupReply(ok))
  {
    s.(down := s.down[1..], dev := TakeReply(s.dev, s.down[0], ok))
  }

  function DoSupFinish(s: Sys, ok: bool, cr: bool): Sys
    requires Enabled(s, SupFinish(ok, cr))
  {
    var sup := s.dev.sup;
    if s.dev.child.phase.code != 0 || !sup.sawFinish || sup.n == 0 || !ok then WithSup(s, sup.(pc := Stuck))
    else Emit(WithSup(s, sup.(pc := Exited, watchdog := Disarmed)), WatchdogDisarmed, cr)
  }

  // ---- Child steps ----------------------------------------------------------------------------------

  function Print(d: Device, line: Line): Device {
    d.(fromChild := d.fromChild + [line], printed := d.printed + [line])
  }

  /** A wrong answer ends the peek at once and the probe through `stage=finished rc=1`. */
  function AccessStep(d: Device, value: Word): Device
    requires ChildEnabled(d, ChildAccess(value))
  {
    var k := d.child.k;
    var d1 := d.(toChild := d.toChild[1..]);
    if d.toChild[0] != NeededAck(k) then d1.(child := d.child.(phase := if k == 0 then Gone(1) else Finishing(1)))
    else
      var access := AccessAt(d.table, k, value);
      d1.(child := d.child.(phase := Report), accesses := d.accesses + [access], mem := Touch(d.mem, access),
          raw := if k == 0 then value else d.raw, gpc := if k == 1 then value else d.gpc)
  }

  function NextChild(k: nat, gpc: Word): Child {
    if k == 1 && gpc != 0 then Child(k, Finishing(1))
    else if k == 67 then Child(k, Finishing(0))
    else Child(k + 1, Announce)
  }

  function ChildStep(d: Device, a: Action): Device
    requires ChildEnabled(d, a)
  {
    match a
    case ChildAnnounce => Print(d.(child := d.child.(phase := Await)), BeforeLine(d.table, d.child.k))
    case ChildAccess(value) => AccessStep(d, value)
    case ChildReport => Print(d.(child := NextChild(d.child.k, d.gpc)), AfterLine(d.table, d.raw, d.gpc, d.child.k))
    case ChildFinish => Print(d.(child := d.child.(phase := Gone(d.child.phase.rc))), Finished(d.child.phase.rc))
    case ChildCrash(reports) =>
      d.(child := d.child.(phase := if reports && d.child.k > 0 && !d.child.phase.Finishing? then Finishing(1) else Gone(1)))
  }

  function Do(s: Sys, a: Action): Sys
    requires Enabled(s, a)
  {
    match a
    case HostRecv(count) => DoHostRecv(s, count)
    case HostProcess => DoHostProcess(s)
    case HostAbort => s.(host := s.host.(status := Failed))
    case TerminalEcho(text) =>
      s.(wire := s.wire + text + "\n", pending := s.pending + [text], echoes := if s.echoes > 0 then s.echoes - 1 else 0)
    case SupAnnounce(cr) => Emit(WithSup(s, s.dev.sup.(pc := AwaitArm)), WatchdogOpen, cr)
    case SupArm(ok, cr) => DoSupArm(s, ok, cr)
    case SupForward(cr) => DoSupForward(s, cr)
    case SupReply(ok) => DoSupReply(s, ok)
    case SupFinish(ok, cr) => DoSupFinish(s, ok, cr)
    case SupFault => WithSup(s, s.dev.sup.(pc := Stuck))
    case _ => s.(dev := ChildStep(s.dev, a))
  }

  /** A run is a sequence of actions, each enabled where it happens. */
  ghost predicate Run(s: Sys, actions: seq<Action>, t: Sys)
    decreases |actions|
  {
    if actions == [] then t == s
    else Enabled(s, actions[0]) && Run(Do(s, actions[0]), actions[1..], t)
  }
}
