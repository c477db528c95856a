/** The host side of the bridge write sequence: the plan it was given and the collector loop.
    boot/gpu_bridge_capture.py:14-113. */
module BridgeHost {
  import opened Common
  import opened CheckpointText
  import opened CheckpointFraming

  /** The 66 values of the two 33-entry tables, in plan order. */
  type Table = t: seq<Word> | |t| == 66 witness seq(66, _ => 0)

  datatype Step = Step(name: string, address: nat, op: string, value: Word)

  datatype Pair = Pair(offset: nat, value: Word)

  const TABLE_BASES: seq<nat> := [0x2_01f0_0000, 0x2_01f8_0000]

  function OffsetOf(i: nat): nat {
    if i == 0 then 0x18 else 0x40000 + (i - 1) * 4
  }

  /** Write `w` is entry `IndexIn(w)` of table `TableOf(w)`. */
  function TableOf(w: nat): nat
    requires w < 66
  {
    if w < 33 then 0 else 1
  }

  function IndexIn(w: nat): nat
    requires w < 66
  {
    if w < 33 then w else w - 33
  }

  function WriteAddress(w: nat): nat
    requires w < 66
  {
    TABLE_BASES[TableOf(w)] + OffsetOf(IndexIn(w))
  }

  function WriteName(w: nat): string
    requires w < 66
  {
    "bridge-" + Dec(TableOf(w) + 9) + "-" + Dec2(IndexIn(w))
  }

  /** Step `k` of the plan: the GPC gate, then the 66 writes. */
  function StepAt(values: Table, k: nat): Step
    requires k < 67
  {
    if k == 0 then Step("gpc-state", 0x2_01e0_1000, "read", 0)
    else Step(WriteName(k - 1), WriteAddress(k - 1), "write", values[k - 1])
  }

  function Values(data: seq<Pair>): (values: Table)
    requires |data| == 66
  {
    seq(66, w requires 0 <= w < 66 => data[w].value)
  }

  /** `plan_steps`: the checksum is left out, the layout check is not. */
  method PlanSteps(data: seq<Pair>) returns (steps: Option<seq<Step>>)
    ensures steps.Some? <==> |data| == 66 && forall w :: 0 <= w < 66 ==> data[w].offset == OffsetOf(IndexIn(w))
    ensures steps.Some? ==> |steps.value| == 67 && forall k :: 0 <= k < 67 ==> steps.value[k] == StepAt(Values(data), k)
  {
    hide Dec, Dec2;
    if |data| != 66 {
      return None;
    }
    var list := [Step("gpc-state", 0x2_01e0_1000, "read", 0)];
    for t := 0 to 2
      invariant |list| == 1 + 33 * t
      invariant forall w :: 0 <= w < 33 * t ==> data[w].offset == OffsetOf(IndexIn(w))
      invariant forall k :: 0 <= k < |list| ==> list[k] == StepAt(Values(data), k)
    {
      for i := 0 to 33
        invariant |list| == 1 + 33 * t + i
        invariant forall w :: 0 <= w < 33 * t + i ==> data[w].offset == OffsetOf(IndexIn(w))
        invariant forall k :: 0 <= k < |list| ==> list[k] == StepAt(Values(data), k)
      {
        var pair := data[33 * t + i];
        assert IndexIn(33 * t + i) == i && TableOf(33 * t + i) == t;
        if pair.offset != (if i > 0 then 0x40000 + (i - 1) * 4 else 0x18) {
          assert data[33 * t + i].offset != OffsetOf(i);
          return None;
        }
        list := list + [Step("bridge-" + Dec(t + 9) + "-" + Dec2(i), TABLE_BASES[t] + pair.offset, "write", pair.value)];
      }
    }
    steps := Some(list);
  }

  /** The two mapped windows overlap, but no two plan writes share an address. */
  lemma AddressesDistinct(v: nat, w: nat)
    requires v < 66 && w < 66 && WriteAddress(v) == WriteAddress(w)
    ensures v == w
  {
    assert OffsetOf(IndexIn(v)) < 0x80000 && OffsetOf(IndexIn(w)) < 0x80000;
  }

  // ---- The collector ------------------------------------------------------------------------------

  datatype Status = Running | Returned | Failed

  /** The local variables of `capture`. */
  datatype Host = Host(wd: nat, stage: nat, feeds: nat, buffer: string, status: Status)

  const FRESH_HOST := Host(0, 0, 0, "", Running)

  /** PMGR_AFTER, as the host spells it. */
  function PmgrAfterText(): string {
    "stage=after-" + "pmgr-read raw=0x" + "000003ff" + " target=15" + " actual=15" + " auto=0" + " reset=0"
  }

  function Feed(h: Host, supervised: bool): (Host, Option<Reply>) {
    if supervised then (h.(feeds := h.feeds + 1), Some(FEED(h.feeds + 1))) else (h, None)
  }

  /** One pass of the loop body on a stripped line; `h.buffer` already holds what follows it. */
  function OnLine(values: Table, supervised: bool, h: Host, line: string): (Host, Option<Reply>) {
    var fail := (h.(status := Failed), None);
    if !StartsWith(line, "stage=") then (h, None)
    else if supervised && h.wd < 2 then
      if h.wd == 0 && line == Text(WatchdogOpen) then
        if Contains(h.buffer, "stage=") then fail else (h.(wd := 1), Some(ARM))
      else if h.wd == 1 && line == Text(WatchdogArmed) then (h.(wd := 2), None)
      else fail
    else if supervised && h.wd == 3 then
      if line != Text(WatchdogDisarmed) then fail else (h.(status := Returned), None)
    else if h.stage == 0 then
      if line != Text(BeforePmgr) || Contains(h.buffer, "stage=") then fail else (h.(stage := 1), Some(READ))
    else if h.stage == 1 then
      if line != PmgrAfterText() then fail else Feed(h.(stage := 2), supervised)
    else
      var index := (h.stage - 2) / 2;
      if index >= 67 then
        if line != Text(Finished(0)) then fail
        else if supervised then (h.(wd := 3), None)
        else (h.(status := Returned), None)
      else
        var step := StepAt(values, index);
        if h.stage % 2 == 0 then
          if line != Text(Before(step.name, step.address, step.op, step.value)) || Contains(h.buffer, "stage=")
          then fail
          else (h.(stage := h.stage + 1), Some(ACCESS))
        else
          if line != Text(After(step.name, step.value)) then fail
          else Feed(h.(stage := h.stage + 1), supervised)
  }

  /** `line, buffer = buffer.split(b"\n", 1)` and the body. */
  function ProcessLine(values: Table, supervised: bool, h: Host): (Host, Option<Reply>)
    requires '\n' in h.buffer
  {
    var i := FirstNewline(h.buffer);
    OnLine(values, supervised, h.(buffer := h.buffer[i + 1..]), Strip(h.buffer[..i]))
  }

  predicate HasLine(h: Host) {
    h.status == Running && '\n' in h.buffer
  }

  lemma ProcessShrinks(values: Table, supervised: bool, h: Host)
    requires '\n' in h.buffer
    ensures |ProcessLine(values, supervised, h).0.buffer| < |h.buffer|
  {
  }

  /** The inner `while`: every buffered line in turn. */
  function Drain(values: Table, supervised: bool, h: Host): (Host, seq<Reply>)
    decreases |h.buffer|
  {
    if !HasLine(h) then (h, [])
    else
      ProcessShrinks(values, supervised, h);
      var (h1, reply) := ProcessLine(values, supervised, h);
      var (h2, replies) := Drain(values, supervised, h1);
      (h2, (if reply.Some? then [reply.value] else []) + replies)
  }

  const MAX_CAPTURE := 65536

  function Receive(values: Table, supervised: bool, h: Host, chunk: string): (Host, seq<Reply>)
    requires h.status == Running
  {
    var h1 := h.(buffer := h.buffer + chunk);
    if |h1.buffer| > MAX_CAPTURE then (h1.(status := Failed), []) else Drain(values, supervised, h1)
  }

  /** The collector as it runs: one object, updated by every received chunk. */
  class Collector {
    const values: Table
    const supervised: bool
    var watchdogStage: nat
    var stage: nat
    var feedCount: nat
    var buffer: string
    var status: Status
    var sent: seq<Reply>

    constructor (values: Table, supervised: bool)
      ensures this.values == values && this.supervised == supervised
      ensures View() == FRESH_HOST && sent == []
    {
      this.values, this.supervised := values, supervised;
      watchdogStage, stage, feedCount, buffer, status, sent := 0, 0, 0, "", Running, [];
    }

    function View(): Host
      reads this
    {
      Host(watchdogStage, stage, feedCount, buffer, status)
    }

    method OnFeedPoint()
      modifies this`feedCount, this`sent
      ensures feedCount == old(feedCount) + (if supervised then 1 else 0)
      ensures sent == old(sent) + (if supervised then [FEED(feedCount)] else [])
    {
      if supervised {
        feedCount := feedCount + 1;
        sent := sent + [FEED(feedCount)];
      }
    }

    method Handle(line: string)
      modifies this
      ensures var (h, reply) := OnLine(values, supervised, old(View()), line);
              View() == h && sent == old(sent) + (if reply.Some? then [reply.value] else [])
    {
      hide Text, StartsWith, Contains, StepAt, PmgrAfterText;
      if !StartsWith(line, "stage=") {
        return;
      }
      if supervised && watchdogStage < 2 {
        if watchdogStage == 0 && line == Text(WatchdogOpen) {
          if Contains(buffer, "stage=") {
            status := Failed;
            return;
          }
          sent := sent + [ARM];
          watchdogStage := 1;
          return;
        }
        if watchdogStage == 1 && line == Text(WatchdogArmed) {
          watchdogStage := 2;
          return;
        }
        status := Failed;
        return;
      }
      if supervised && watchdogStage == 3 {
        status := if line != Text(WatchdogDisarmed) then Failed else Returned;
        return;
      }
      if stage == 0 {
        if line != Text(BeforePmgr) || Contains(buffer, "stage=") {
          status := Failed;
          return;
        }
        sent := sent + [READ];
        stage := 1;
        return;
      }
      if stage == 1 {
        if line != PmgrAfterText() {
          status := Failed;
          return;
        }
        stage := 2;
        OnFeedPoint();
        return;
      }
      var index := (stage - 2) / 2;
      if index >= 67 {
        if line != Text(Finished(0)) {
          status := Failed;
        } else if supervised {
          watchdogStage := 3;
        } else {
          status := Returned;
        }
        return;
      }
      var step := StepAt(values, index);
      if stage % 2 == 0 {
        if line != Text(Before(step.name, step.address, step.op, step.value)) || Contains(buffer, "stage=") {
          status := Failed;
          return;
        }
        sent := sent + [ACCESS];
      } else {
        if line != Text(After(step.name, step.value)) {
          status := Failed;
          return;
        }
        OnFeedPoint();
      }
      stage := stage + 1;
    }

    method OnChunk(chunk: string)
      requires status == Running
      modifies this
      ensures View() == Receive(values, supervised, old(View()), chunk).0
      ensures sent == old(sent) + Receive(values, supervised, old(View()), chunk).1
    {
      hide OnLine, Text;
      buffer := buffer + chunk;
      if |buffer| > MAX_CAPTURE {
        status := Failed;
        return;
      }
      ghost var goal := Drain(values, supervised, View());
      ghost var first := sent;
      while status == Running && '\n' in buffer
        invariant Drain(values, supervised, View()).0 == goal.0
        invariant sent + Drain(values, supervised, View()).1 == first + goal.1
        decreases |buffer|
      {
        ghost var here := View();
        ProcessShrinks(values, supervised, here);
        var i := FirstNewline(buffer);
        var line := Strip(buffer[..i]);
        buffer := buffer[i + 1..];
        Handle(line);
      }
    }
  }

  // ---- What the host accepts, as positions in one script ------------------------------------------

  /** Line `j` a probe prints when it holds `values` and reads `raw` and `gpc`. */
  function ScriptLine(values: Table, raw: Word, gpc: Word, j: nat): Line
    requires j < 136
  {
    var k := j / 2;
    if k == 0 then (if j % 2 == 0 then BeforePmgr else AfterPmgr(raw))
    else
      var step := StepAt(values, k - 1);
      if j % 2 == 0 then Before(step.name, step.address, step.op, step.value)
      else After(step.name, if k == 1 then gpc else step.value)
  }

  /** The stage lines of a whole supervised run, in the only order the host takes them. */
  function ExpectedLine(values: Table, i: nat): Line
    requires i < 140
  {
    if i == 0 then WatchdogOpen
    else if i == 1 then WatchdogArmed
    else if i < 138 then ScriptLine(values, 0x3ff, 0, i - 2)
    else if i == 138 then Finished(0)
    else WatchdogDisarmed
  }

  /** Lines after which nothing more may be in the buffer. */
  predicate MustBeLast(i: nat) {
    i == 0 || (2 <= i < 138 && i % 2 == 0)
  }

  /** The answer the host sends when it accepts line `i`. */
  function ReplyAt(i: nat): Option<Reply> {
    if i == 0 then Some(ARM)
    else if i == 1 || i >= 138 then None
    else if i == 2 then Some(READ)
    else if i % 2 == 0 then Some(ACCESS)
    else Some(FEED(i / 2))
  }

  /** How many lines the host has accepted. */
  function Accepted(h: Host): nat {
    if h.wd < 2 then h.wd
    else if h.wd == 2 then 2 + h.stage
    else if h.status == Returned then 140 else 139
  }

  predicate HostOk(h: Host) {
    && h.wd <= 3 && h.stage <= 136
    && (h.wd < 2 ==> h.stage == 0)
    && (h.wd == 3 ==> h.stage == 136)
    && (h.status == Returned ==> h.wd == 3)
    && h.feeds == h.stage / 2
  }

  lemma HexOf3ff()
    ensures Hex(0x3ff, 8) == "000003ff"
  {
    assert Hex(0, 5) == "00000";
    assert Hex(0x3, 6) == "000003";
    assert Hex(0x3f, 7) == "000003f";
  }

  lemma PmgrTailOf3ff()
    ensures PmgrTail(0x3ff) == " target=" + "15" + " actual=" + "15" + " auto=" + "0" + " reset=" + "0"
  {
    assert Dec(15) == "15" by { assert Dec(1) == "1"; }
    assert Dec(0) == "0";
    assert 0x3ff % 16 == 15 && 0x3ff / 16 % 16 == 15 && 0x3ff / 0x1000_0000 % 2 == 0 && 0x3ff / 0x8000_0000 == 0;
  }

  lemma Regroup(a: string, b: string, c: string, d: string, e: string)
    ensures a + (b + c + d + e) == a + b + c + d + e
  {
  }

  /** The constant the host compares with is what the probe prints for the one accepted PMGR word. */
  lemma PmgrAfterTextIs3ff()
    ensures PmgrAfterText() == Text(AfterPmgr(0x3ff))
  {
    HexOf3ff();
    PmgrTailOf3ff();
    hide Hex, PmgrTail;
    assert " target=" + "15" == " target=15";
    assert " actual=" + "15" == " actual=15";
    assert " auto=" + "0" == " auto=0";
    assert " reset=" + "0" == " reset=0";
    Regroup("stage=after-" + "pmgr-read raw=0x" + "000003ff", " target=15", " actual=15", " auto=0", " reset=0");
  }

  /** The supervised loop body in one statement: the host takes the next expected line, alone where it
      must be alone, and fails on anything else that starts with `stage=`. */
  ghost predicate TakesNextOnly(values: Table, h: Host, line: string)
    requires HostOk(h) && h.status == Running
  {
    var a := Accepted(h);
    var (h', reply) := OnLine(values, true, h, line);
    && a < 140 && HostOk(h') && h'.buffer == h.buffer
    && if !StartsWith(line, "stage=") then h' == h && reply == None
       else if line == Text(ExpectedLine(values, a)) && (MustBeLast(a) ==> !Contains(h.buffer, "stage="))
       then h'.status != Failed && (h'.status == Returned <==> a == 139)
            && Accepted(h') == a + 1 && reply == ReplyAt(a)
       else h'.status == Failed && Accepted(h') == a && reply == None
  }

  lemma TakesScriptLine(values: Table, h: Host, line: string)
    requires HostOk(h) && h.status == Running && h.wd == 2 && 2 <= h.stage < 136
    ensures TakesNextOnly(values, h, line)
  {
    GateValue(values);
    hide Text, StartsWith, Contains, PmgrAfterText, StepAt;
    var a := Accepted(h);
    var index := (h.stage - 2) / 2;
    assert (a - 2) / 2 - 1 == index && a % 2 == h.stage % 2 && index < 67;
  }

  lemma GateValue(values: Table)
    ensures StepAt(values, 0).value == 0
  {
  }

  lemma HostTakesNextOnly(values: Table, h: Host, line: string)
    requires HostOk(h) && h.status == Running
    ensures TakesNextOnly(values, h, line)
  {
    if h.wd == 2 && 2 <= h.stage < 136 {
      TakesScriptLine(values, h, line);
    } else if h.wd == 2 && h.stage < 2 {
      TakesPmgrLine(values, h, line);
    } else {
      hide Text, StartsWith, Contains, PmgrAfterText, StepAt, ScriptLine;
    }
  }

  lemma TakesPmgrLine(values: Table, h: Host, line: string)
    requires HostOk(h) && h.status == Running && h.wd == 2 && h.stage < 2
    ensures TakesNextOnly(values, h, line)
  {
    hide Text, StartsWith, Contains, PmgrAfterText, StepAt;
    PmgrAfterTextIs3ff();
  }

  // ---- The same without the supervisor --------------------------------------------------------------

  /** The stage lines of a whole unsupervised run. */
  function ExpectedAlone(values: Table, i: nat): Line
    requires i < 137
  {
    if i < 136 then ScriptLine(values, 0x3ff, 0, i) else Finished(0)
  }

  predicate MustBeLastAlone(i: nat) {
    i < 136 && i % 2 == 0
  }

  /** READ for the PMGR "before" line, ACCESS for each other "before" line, and no FEED. */
  function ReplyAlone(i: nat): Option<Reply> {
    if i == 0 then Some(READ) else if MustBeLastAlone(i) then Some(ACCESS) else None
  }

  function AcceptedAlone(h: Host): nat {
    if h.status == Returned then 137 else h.stage
  }

  predicate AloneOk(h: Host) {
    h.stage <= 136 && h.feeds == 0 && (h.status == Returned ==> h.stage == 136)
  }

  /** The unsupervised loop body in one statement: the host takes the next of the 137 lines, alone where it must be
      alone, answers it, returns exactly on the last, and fails on anything else that starts with `stage=`. */
  ghost predicate AloneTakesNextOnly(values: Table, h: Host, line: string)
    requires AloneOk(h) && h.status == Running
  {
    var a := AcceptedAlone(h);
    var (h', reply) := OnLine(values, false, h, line);
    && a < 137 && AloneOk(h') && h'.buffer == h.buffer && h'.wd == h.wd
    && if !StartsWith(line, "stage=") then h' == h && reply == None
       else if line == Text(ExpectedAlone(values, a)) && (MustBeLastAlone(a) ==> !Contains(h.buffer, "stage="))
       then h'.status != Failed && (h'.status == Returned <==> a == 136)
            && AcceptedAlone(h') == a + 1 && reply == ReplyAlone(a)
       else h'.status == Failed && h'.stage == h.stage && reply == None
  }

  lemma HostAloneTakesNextOnly(values: Table, h: Host, line: string)
    requires AloneOk(h) && h.status == Running
    ensures AloneTakesNextOnly(values, h, line)
  {
    hide Text, StartsWith, Contains, PmgrAfterText, StepAt;
    PmgrAfterTextIs3ff();
    GateValue(values);
    if 2 <= h.stage < 136 {
      var index := (h.stage - 2) / 2;
      assert h.stage / 2 - 1 == index && index < 67;
    }
  }
}
