/** The supervisor's read loop and the bridge probe as the sequential programs they are, each proved to
    take exactly the steps of the transition system.
    boot/gpu-watchdog-supervisor.c:94-112, boot/gpu-bridge-once.c:24-78. */
module BridgeProbe {
  import opened CheckpointText
  import opened CheckpointFraming
  import opened BridgeHost
  import opened BridgeSystem

  // ---- The probe --------------------------------------------------------------------------------------

  predicate AtProbe(d: Device) {
    d.child.phase.Announce? && 1 <= d.child.k < 68
  }

  function GiveUp(d: Device): Device
    requires ChildRunning(d.child.phase) && !d.child.phase.Finishing? && d.child.k > 0
  {
    ChildStep(ChildStep(d, ChildCrash(true)), ChildFinish)
  }

  /** The probe from stage `k` on, answered by `replies`, as child steps; no answer left means end of file. */
  function ProbeFrom(d: Device, replies: seq<Reply>, gpc: Word): Device
    requires AtProbe(d)
    decreases 68 - d.child.k
  {
    var d1 := ChildStep(d, ChildAnnounce);
    if replies == [] then GiveUp(d1)
    else
      var d2 := ChildStep(d1.(toChild := [replies[0]]), ChildAccess(gpc));
      if d2.child.phase.Finishing? then ChildStep(d2, ChildFinish)
      else
        var d3 := ChildStep(d2, ChildReport);
        if d3.child.phase.Finishing? then ChildStep(d3, ChildFinish) else ProbeFrom(d3, replies[1..], gpc)
  }

  /** A probe that starts after the PMGR peek: nothing printed or touched by it yet. */
  function ProbeStart(table: Table, mem: map<nat, Word>): Device {
    Device(table, Supervisor(Reading, 0, false, Armed, 0, 1), [], [], [], Child(1, Announce), [], 0, 0, [], mem, mem)
  }

  lemma ProbeStep(d: Device, replies: seq<Reply>, gpc: Word)
    requires AtProbe(d) && d.toChild == []
    ensures var k := d.child.k;
            var shown := d.(fromChild := d.fromChild + [BeforeLine(d.table, k)], printed := d.printed + [BeforeLine(d.table, k)]);
            var done := ProbeFrom(d, replies, gpc);
            if replies == [] || replies[0] != ACCESS then
              done.printed == shown.printed + [Finished(1)] && done.accesses == d.accesses && done.mem == d.mem
              && done.child.phase == Gone(1)
            else
              var access := AccessAt(d.table, k, gpc);
              var after := AfterLine(d.table, d.raw, if k == 1 then gpc else d.gpc, k);
              var d3 := shown.(fromChild := shown.fromChild + [after], printed := shown.printed + [after],
                               accesses := d.accesses + [access], mem := Touch(d.mem, access),
                               gpc := if k == 1 then gpc else d.gpc, child := NextChild(k, if k == 1 then gpc else d.gpc));
              if d3.child.phase.Announce? then done == ProbeFrom(d3, replies[1..], gpc)
              else done.printed == d3.printed + [Finished(d3.child.phase.rc)] && done.accesses == d3.accesses
                   && done.mem == d3.mem && done.child.phase == Gone(d3.child.phase.rc)
  {
    hide AccessAt, BeforeLine, AfterLine, Touch;
  }

  /** What `main` of the bridge probe prints, writes and returns for a plan file that was read in full. */
  method BridgeOnce(pairs: seq<Pair>, replies: seq<Reply>, gpc: Word, before: map<nat, Word>)
      returns (rc: nat, printed: seq<Line>, mem: map<nat, Word>)
    requires |pairs| == 66
    ensures (exists w :: 0 <= w < 66 && pairs[w].offset != OffsetOf(IndexIn(w))) ==>
              rc == 1 && printed == [] && mem == before
    ensures (forall w :: 0 <= w < 66 ==> pairs[w].offset == OffsetOf(IndexIn(w))) ==>
              var done := ProbeFrom(ProbeStart(Values(pairs), before), replies, gpc);
              done.child.phase == Gone(rc) && printed == done.printed && mem == done.mem
  {
    hide ProbeFrom, Dec, Dec2;
    rc, printed, mem := 1, [], before;
    for w := 0 to 66
      invariant forall v :: 0 <= v < w ==> pairs[v].offset == OffsetOf(IndexIn(v))
    {
      if pairs[w].offset != OffsetOf(IndexIn(w)) {
        return;
      }
    }
    var values := Values(pairs);
    ghost var d := ProbeStart(values, before);
    ghost var goal := ProbeFrom(d, replies, gpc);
    var left := replies;
    ProbeStep(d, left, gpc);
    printed := printed + [Before("gpc-state", 0x2_01e0_1000, "read", 0)];
    if left == [] || left[0] != ACCESS {
      printed := printed + [Finished(1)];
      return;
    }
    left := left[1..];
    printed := printed + [After("gpc-state", gpc)];
    if gpc != 0 {
      printed := printed + [Finished(1)];
      return;
    }
    d := After1(d, gpc);
    for t := 0 to 2
      invariant AtProbe(d) || t == 2
      invariant t < 2 ==> d.child.k == 2 + 33 * t
      invariant d.table == values && d.toChild == [] && d.printed == printed && d.mem == mem && d.gpc == 0
      invariant if t < 2 then goal == ProbeFrom(d, left, gpc)
                else goal.printed == printed + [Finished(0)] && goal.mem == mem && goal.child.phase == Gone(0)
    {
      for i := 0 to 33
        invariant AtProbe(d) || (t == 1 && i == 33)
        invariant t == 0 || i < 33 ==> d.child.k == 2 + 33 * t + i
        invariant d.table == values && d.toChild == [] && d.printed == printed && d.mem == mem && d.gpc == 0
        invariant if t == 0 || i < 33 then goal == ProbeFrom(d, left, gpc)
                  else goal.printed == printed + [Finished(0)] && goal.mem == mem && goal.child.phase == Gone(0)
      {
        var w := 33 * t + i;
        assert TableOf(w) == t && IndexIn(w) == i;
        var name := "bridge-" + Dec(t + 9) + "-" + Dec2(i);
        var address := TABLE_BASES[t] + pairs[w].offset;
        assert StepAt(values, w + 1) == Step(name, address, "write", pairs[w].value);
        ProbeStep(d, left, gpc);
        printed := printed + [Before(name, address, "write", pairs[w].value)];
        if left == [] || left[0] != ACCESS {
          printed := printed + [Finished(1)];
          return;
        }
        left := left[1..];
        mem := mem[address := pairs[w].value];
        printed := printed + [After(name, pairs[w].value)];
        d := After1(d, gpc);
      }
    }
    rc := 0;
    printed := printed + [Finished(0)];
  }

  /** The device after one allowed access was reported. */
  ghost function After1(d: Device, gpc: Word): Device
    requires AtProbe(d)
  {
    var k := d.child.k;
    var g := if k == 1 then gpc else d.gpc;
    var access := AccessAt(d.table, k, gpc);
    d.(fromChild := d.fromChild + [BeforeLine(d.table, k)] + [AfterLine(d.table, d.raw, g, k)],
       printed := d.printed + [BeforeLine(d.table, k)] + [AfterLine(d.table, d.raw, g, k)],
       accesses := d.accesses + [access], mem := Touch(d.mem, access), gpc := g, child := NextChild(k, g))
  }

  // ---- The supervisor's loop --------------------------------------------------------------------------

  /** `while (fgets(line, ..., out))` as supervisor steps: `lines` from the child, `replies` from the host. */
  function Supervised(d: Device, lines: seq<string>, replies: seq<Reply>): Device
    requires d.sup.pc.Reading?
    decreases |lines|
  {
    if lines == [] then d
    else
      var d1 := d.(sup := AfterCue(d.sup, CueOf(lines[0])));
      if d1.sup.pc.Stuck? then d1
      else if d1.sup.pc.AwaitAck? || d1.sup.pc.AwaitFeed? then
        if replies == [] then d1.(sup := d1.sup.(pc := Stuck))
        else
          var d2 := TakeReply(d1, replies[0], true);
          if d2.sup.pc.Stuck? then d2 else Supervised(d2, lines[1..], replies[1..])
      else Supervised(d1, lines[1..], replies)
  }

  /** The loop with its counter and flag; `stuck` is `fail_closed`. */
  method ReadLoop(lines: seq<string>, replies: seq<Reply>)
      returns (n: nat, sawFinish: bool, keepalives: nat, acks: seq<Reply>, stuck: bool)
    ensures var start := ProbeStart(seq(66, _ => 0), map[]);
            var done := Supervised(start, lines, replies);
            && n == done.sup.n && sawFinish == done.sup.sawFinish && keepalives == done.sup.keepalives
            && acks == done.toChild && stuck == done.sup.pc.Stuck?
  {
    hide CueOf;
    n, sawFinish, keepalives, acks, stuck := 0, false, 0, [], false;
    ghost var d := ProbeStart(seq(66, _ => 0), map[]);
    ghost var goal := Supervised(d, lines, replies);
    var i, used := 0, 0;
    while i < |lines|
      invariant 0 <= i <= |lines| && 0 <= used <= |replies|
      invariant d.sup.pc.Reading? && Supervised(d, lines[i..], replies[used..]) == goal
      invariant n == d.sup.n && sawFinish == d.sup.sawFinish && keepalives == d.sup.keepalives
      invariant acks == d.toChild && !stuck
    {
      assert lines[i..][0] == lines[i] && lines[i..][1..] == lines[i + 1..];
      ghost var d1 := d.(sup := AfterCue(d.sup, CueOf(lines[i])));
      match CueOf(lines[i]) {
        case NeedAck(ack) =>
          if used == |replies| || replies[used] != ack {
            stuck := true;
            return;
          }
          assert replies[used..][0] == replies[used] && replies[used..][1..] == replies[used + 1..];
          d := TakeReply(d1, replies[used], true);
          used := used + 1;
          acks := acks + [ack];
        case NeedFeed =>
          n := n + 1;
          if used == |replies| || replies[used] != FEED(n) {
            stuck := true;
            return;
          }
          assert replies[used..][0] == replies[used] && replies[used..][1..] == replies[used + 1..];
          d := TakeReply(d1, replies[used], true);
          used := used + 1;
          keepalives := keepalives + 1;
        case FinishedOk =>
          d := d1;
          sawFinish := true;
        case FinishedBad =>
          stuck := true;
          return;
        case NoCue =>
          d := d1;
      }
      i := i + 1;
    }
    assert lines[i..] == [];
  }

  // ---- The folds as runs of the system ------------------------------------------------------------------

  function Texts(lines: seq<Line>): (ts: seq<string>)
    ensures |ts| == |lines|
  {
    seq(|lines|, i requires 0 <= i < |lines| => Text(lines[i]))
  }

  lemma OneStep(s: Sys, a: Action, more: seq<Action>, t: Sys)
    requires Enabled(s, a) && Run(Do(s, a), more, t)
    ensures Run(s, [a] + more, t)
  {
    hide Enabled, Do;
    assert ([a] + more)[1..] == more;
  }

  lemma NoStep(s: Sys)
    ensures Run(s, [], s)
  {
  }

  /** What the supervisor makes of a line of the child. */
  lemma Forwarded(s: Sys)
    requires s.dev.sup.pc.Reading? && s.dev.fromChild != []
    ensures Enabled(s, SupForward(false))
    ensures var s1 := Do(s, SupForward(false));
            && s1.dev.sup == AfterCue(s.dev.sup, CueOf(Text(s.dev.fromChild[0]))) && s1.dev.toChild == s.dev.toChild
            && s1.dev.fromChild == s.dev.fromChild[1..] && s1.down == s.down
  {
    hide Text, CueOf;
  }

  lemma Replied(s: Sys, d: Device)
    requires (s.dev.sup.pc.AwaitAck? || s.dev.sup.pc.AwaitFeed?) && s.down != [] && d.sup == s.dev.sup && d.toChild == s.dev.toChild
    ensures Enabled(s, SupReply(true))
    ensures var s1, d1 := Do(s, SupReply(true)), TakeReply(d, s.down[0], true);
            && s1.dev.sup == d1.sup && s1.dev.toChild == d1.toChild && s1.dev.fromChild == s.dev.fromChild && s1.down == s.down[1..]
            && (d1.sup.pc.Stuck? || d1.sup.pc.Reading?)
  {
  }

  lemma Faulted(s: Sys)
    requires s.dev.sup.pc.AwaitAck? || s.dev.sup.pc.AwaitFeed?
    ensures Enabled(s, SupFault)
    ensures var s1 := Do(s, SupFault); s1.dev.sup == s.dev.sup.(pc := Stuck) && s1.dev.toChild == s.dev.toChild
  {
  }

  predicate SupervisorActions(actions: seq<Action>) {
    forall i :: 0 <= i < |actions| ==> actions[i].SupForward? || actions[i].SupReply? || actions[i].SupFault?
  }

  /** The supervisor's loop is a run of its own steps: forward a line, then take the answer it needs, and stop for good
      where the loop does. */
  lemma {:induction false} SupervisedIsRun(s: Sys, d: Device) returns (actions: seq<Action>, t: Sys)
    requires s.dev.sup.pc.Reading? && d.sup == s.dev.sup && d.toChild == s.dev.toChild
    ensures Run(s, actions, t) && SupervisorActions(actions)
    ensures var done := Supervised(d, Texts(s.dev.fromChild), s.down);
            t.dev.sup == done.sup && t.dev.toChild == done.toChild
    decreases |s.dev.fromChild|
  {
    hide Text, CueOf, Do, Enabled, Run, TakeReply, AfterCue;
    var lines := Texts(s.dev.fromChild);
    actions, t := [], s;
    if lines == [] {
      NoStep(s);
    } else {
      assert lines[1..] == Texts(s.dev.fromChild[1..]) && lines[0] == Text(s.dev.fromChild[0]);
      Forwarded(s);
      var s1 := Do(s, SupForward(false));
      var d1 := d.(sup := AfterCue(d.sup, CueOf(lines[0])));
      CueCases(d.sup, CueOf(lines[0]));
      var more := [];
      t := s1;
      NoStep(s1);
      if d1.sup.pc.Reading? {
        more, t := SupervisedIsRun(s1, d1);
      } else if !d1.sup.pc.Stuck? && s.down == [] {
        Faulted(s1);
        t := Do(s1, SupFault);
        NoStep(t);
        OneStep(s1, SupFault, [], t);
        more := [SupFault] + [];
      } else if !d1.sup.pc.Stuck? {
        Replied(s1, d1);
        var s2, d2 := Do(s1, SupReply(true)), TakeReply(d1, s.down[0], true);
        var rest := [];
        t := s2;
        NoStep(s2);
        if !d2.sup.pc.Stuck? {
          rest, t := SupervisedIsRun(s2, d2);
        }
        OneStep(s1, SupReply(true), rest, t);
        more := [SupReply(true)] + rest;
      }
      OneStep(s, SupForward(false), more, t);
      actions := [SupForward(false)] + more;
    }
  }

  lemma CueCases(sup: Supervisor, cue: Cue)
    requires sup.pc.Reading?
    ensures var pc := AfterCue(sup, cue).pc; pc.Reading? || pc.Stuck? || pc.AwaitAck? || pc.AwaitFeed?
  {
  }

  lemma Processed(s: Sys)
    requires HasLine(s.host)
    ensures Enabled(s, HostProcess)
    ensures var s1, p := Do(s, HostProcess), ProcessLine(s.plan, true, s.host);
            && s1.host == p.0 && s1.down == s.down + (if p.1.Some? then [p.1.value] else [])
            && s1.dev == s.dev && s1.wire == s.wire && s1.plan == s.plan
  {
    hide OnLine, Text;
  }

  /** Draining the buffer is a run of one host step for each line. */
  lemma {:induction false} DrainIsRun(s: Sys) returns (actions: seq<Action>, t: Sys)
    ensures Run(s, actions, t) && forall i :: 0 <= i < |actions| ==> actions[i] == HostProcess
    ensures t.host == Drain(s.plan, true, s.host).0 && t.down == s.down + Drain(s.plan, true, s.host).1
    ensures t.dev == s.dev && t.wire == s.wire
    decreases |s.host.buffer|
  {
    hide ProcessLine, Do, Enabled, Run;
    actions, t := [], s;
    if HasLine(s.host) {
      ProcessShrinks(s.plan, true, s.host);
      Processed(s);
      var s1 := Do(s, HostProcess);
      var more;
      more, t := DrainIsRun(s1);
      OneStep(s, HostProcess, more, t);
      actions := [HostProcess] + more;
    } else {
      NoStep(s);
    }
  }

  /** What the collector does with a chunk is a run: receive it, then take it line by line. */
  lemma ReceiveIsRun(s: Sys, count: nat) returns (actions: seq<Action>, t: Sys)
    requires Enabled(s, HostRecv(count))
    ensures Run(s, actions, t) && actions != [] && actions[0] == HostRecv(count)
    ensures forall i :: 1 <= i < |actions| ==> actions[i] == HostProcess
    ensures var (h, replies) := Receive(s.plan, true, s.host, s.wire[..count]);
            t.host == h && t.down == s.down + replies && t.wire == s.wire[count..] && t.dev == s.dev
  {
    hide OnLine, Text, Drain, ProcessLine;
    var s1 := Do(s, HostRecv(count));
    var more := [];
    t := s1;
    if s1.host.status == Running {
      more, t := DrainIsRun(s1);
    }
    actions := [HostRecv(count)] + more;
    assert actions[1..] == more;
  }
}
