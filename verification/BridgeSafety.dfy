/** Safety of the supervised bridge run, over every interleaving and every failure. */
module BridgeSafety {
  import opened Common
  import opened CheckpointText
  import opened CheckpointFraming
  import opened BridgeHost
  import opened BridgeSystem
  import opened BridgeInvariant
  import opened BridgeSteps

  /** `s` is reached by some run of the system. */
  ghost predicate Reachable(s: Sys) {
    exists plan, table, initial, echoes, actions :: Run(Initially(plan, table, initial, echoes), actions, s)
  }

  lemma ReachableInv(s: Sys)
    requires Reachable(s)
    ensures Inv(s)
  {
    var plan, table, initial, echoes, actions :| Run(Initially(plan, table, initial, echoes), actions, s);
    StartInv(plan, table, initial, echoes);
    RunKeeps(Initially(plan, table, initial, echoes), actions, s);
  }

  // ---- Accesses follow the host's plan ----------------------------------------------------------------

  lemma AccessWasGranted(s: Sys, k: nat)
    requires Inv(s) && k < |s.dev.accesses|
    ensures Launched(s.dev.sup.pc) && k < 68
    ensures 2 * k + 1 < |s.granted| && 2 * k + 2 < Accepted(s.host)
    ensures GrantIs(s.plan, s.granted[2 * k + 1], 2 * k + 1)
    ensures Text(s.dev.out[2 * k + 2]) == Text(ExpectedLine(s.plan, 2 * k + 2))
    ensures 2 * k < |s.dev.printed| && s.dev.out[2 * k + 2] == s.dev.printed[2 * k]
    ensures s.dev.printed[2 * k] == BeforeLine(s.dev.table, k)
  {
    hide Text, ExpectedLine, ScriptLine, BeforeLine, AfterLine, MemAfter, StageTexts, Texts, Framed, Accessed, AcksAre;
    var d := s.dev;
    var t := Count(d);
    assert 2 * (t.acks + t.accessed) <= d.sup.taken <= |s.granted| == GrantCount(Accepted(s.host));
    assert 2 * k + 1 < |s.granted|;
    assert d.sup.taken - 1 <= t.forwarded;
    assert 2 * k < t.scripted;
    ScriptLineCases(d.table, d.raw, d.gpc, k);
  }

  /** The same text was printed from the same table entry. */
  lemma SameLineSameValue(plan: Table, table: Table, k: nat)
    requires k < 68 && Text(BeforeLine(table, k)) == Text(BeforeLine(plan, k))
    ensures BeforeLine(table, k) == BeforeLine(plan, k)
    ensures k >= 2 ==> table[k - 2] == plan[k - 2]
  {
    if k >= 2 {
      var a := StepAt(table, k - 1);
      var b := StepAt(plan, k - 1);
      hide WriteName, WriteAddress, Text;
      BeforeTextInjective(a.name, a.address, a.op, a.value, b.value);
    }
  }

  lemma SameAccess(plan: Table, table: Table, k: nat, value: Word)
    requires k < 68 && (k >= 2 ==> table[k - 2] == plan[k - 2])
    ensures AccessAt(table, k, value) == AccessAt(plan, k, value)
  {
    hide WriteName, WriteAddress;
  }

  /** Access `k` is the plan's access `k`: with the plan's address, the plan's operation and, for a write,
      the plan's value, whatever table the device holds. The host had answered READ or ACCESS to that very
      stage line; that answer is number `2k + 1` of the run. */
  lemma AccessFollowsPlan(s: Sys, k: nat)
    requires Reachable(s) && k < |s.dev.accesses|
    ensures k < 68
    ensures s.dev.accesses[k] == AccessAt(s.plan, k, if k == 0 then s.dev.raw else s.dev.gpc)
    ensures 2 * k + 1 < |s.granted| && s.granted[2 * k + 1] == (Text(BeforeLine(s.plan, k)), NeededAck(k))
    ensures k >= 2 ==> s.dev.gpc == 0
  {
    hide Text, ExpectedLine, BeforeLine, ScriptLine, AccessAt, Inv, ReplyAt, Reachable;
    ReachableInv(s);
    AccessWasGranted(s, k);
    BeforeExpected(s.plan, k);
    SameLineSameValue(s.plan, s.dev.table, k);
    SameAccess(s.plan, s.dev.table, k, if k == 0 then s.dev.raw else s.dev.gpc);
    AccessValue(s, k);
  }

  lemma BeforeExpected(plan: Table, k: nat)
    requires k < 68
    ensures ExpectedLine(plan, 2 * k + 2) == BeforeLine(plan, k) && ReplyAt(2 * k + 2) == Some(NeededAck(k))
  {
    ScriptLineCases(plan, 0x3ff, 0, k);
    hide ScriptLine, BeforeLine, AfterLine;
  }

  lemma AccessValue(s: Sys, k: nat)
    requires Inv(s) && Launched(s.dev.sup.pc) && k < |s.dev.accesses|
    ensures k < 68 && s.dev.accesses[k] == AccessAt(s.dev.table, k, if k == 0 then s.dev.raw else s.dev.gpc)
    ensures k >= 2 ==> s.dev.gpc == 0
  {
    hide AccessAt, MemAfter, Framed, InFlight, Granted, Written, SupOk, AckOk, AcksAre, Scripted;
  }

  // ---- Aborts -----------------------------------------------------------------------------------------

  lemma FinishedIsNoStep(line: Line, rc: nat)
    requires WellNamed(line) && (line.BeforePmgr? || line.AfterPmgr? || line.Before? || line.After?)
    ensures Text(line) != Text(Finished(rc))
  {
    CueOfLine(line);
    CueOfLine(Finished(rc));
    hide CueOf, Text, StepName;
  }

  /** The host takes the final line for no step line, so it never accepts more steps than were printed. */
  lemma AcceptedWerePrinted(s: Sys)
    requires Inv(s) && Launched(s.dev.sup.pc)
    ensures s.host.stage <= Count(s.dev).scripted
  {
    hide Text, ScriptLine, MemAfter, StageTexts, Texts, Framed, Granted, Accessed, AcksAre, Scripted, CueOf;
    var d := s.dev;
    var t := Count(d);
    if s.host.wd >= 2 && s.host.stage > t.scripted {
      assert t.forwarded == t.scripted + 1 && t.scripted < 136;
      assert d.out[2 + t.scripted] == d.printed[t.scripted] == Finished(t.finish.value);
      assert Text(d.out[2 + t.scripted]) == Text(ExpectedLine(s.plan, 2 + t.scripted));
      ScriptLineIsWellNamed(s.plan, 0x3ff, 0, t.scripted);
      ScriptLineKind(s.plan, 0x3ff, 0, t.scripted);
      FinishedIsNoStep(ScriptLine(s.plan, 0x3ff, 0, t.scripted), t.finish.value);
    }
  }

  /** At every moment, and for ever after an abort, the device has done exactly the accesses whose "after"
      line the host accepted, or one more: the one whose answer is already on its way. */
  lemma AbortLeavesAtMostOne(s: Sys)
    requires Reachable(s)
    ensures s.host.stage / 2 <= |s.dev.accesses| <= (s.host.stage + 1) / 2
  {
    ReachableInv(s);
    hide Text, ExpectedLine, ScriptLine, MemAfter, StageTexts, Texts, Framed, Accessed, AcksAre, Scripted, Written;
    if Launched(s.dev.sup.pc) {
      AcceptedWerePrinted(s);
      var t := Count(s.dev);
      assert s.dev.sup.taken <= GrantCount(Accepted(s.host));
    }
  }

  lemma {:induction false} RunAppend(s: Sys, first: seq<Action>, m: Sys, second: seq<Action>, t: Sys)
    requires Run(s, first, m) && Run(m, second, t)
    ensures Run(s, first + second, t)
    decreases |first|
  {
    hide Do, Enabled;
    if first == [] {
      assert first + second == second;
    } else {
      RunAppend(Do(s, first[0]), first[1..], m, second, t);
      assert (first + second)[1..] == first[1..] + second;
    }
  }

  lemma ReachableThrough(s: Sys, actions: seq<Action>, t: Sys)
    requires Reachable(s) && Run(s, actions, t)
    ensures Reachable(t)
  {
    hide Run;
    var plan, table, initial, echoes, before :| Run(Initially(plan, table, initial, echoes), before, s);
    RunAppend(Initially(plan, table, initial, echoes), before, s, actions, t);
  }

  lemma {:induction false} FailedHostStays(s: Sys, actions: seq<Action>, t: Sys)
    requires s.host.status == Failed && Run(s, actions, t)
    ensures t.host == s.host
    decreases |actions|
  {
    if actions != [] {
      FailedHostStep(s, actions[0]);
      FailedHostStays(Do(s, actions[0]), actions[1..], t);
    }
  }

  lemma FailedHostStep(s: Sys, a: Action)
    requires s.host.status == Failed && Enabled(s, a)
    ensures Do(s, a).host == s.host
  {
    hide ChildStep, AfterCue, CueOf, Text, RawLine, TakeReply;
  }

  /** After the host gave up, in whatever way and at whatever moment, the device does at most one more
      access, and none when every answer the host sent had been reported back. */
  lemma AbortIsFinal(s: Sys, actions: seq<Action>, t: Sys)
    requires Reachable(s) && s.host.status == Failed && Run(s, actions, t)
    ensures |t.dev.accesses| <= |s.dev.accesses| + 1
    ensures s.host.stage % 2 == 0 ==> |t.dev.accesses| == |s.dev.accesses| == s.host.stage / 2
  {
    ReachableThrough(s, actions, t);
    FailedHostStays(s, actions, t);
    AbortLeavesAtMostOne(s);
    AbortLeavesAtMostOne(t);
    hide Reachable, Run;
  }

  // ---- Success ----------------------------------------------------------------------------------------

  /** Registers after the first `n` plan accesses: the first `n - 2` writes have been done. */
  ghost predicate Updated(initial: map<nat, Word>, plan: Table, n: nat, mem: map<nat, Word>)
    requires n <= 66
  {
    && (forall w :: 0 <= w < n ==> WriteAddress(w) in mem && mem[WriteAddress(w)] == plan[w])
    && (forall address :: (forall w :: 0 <= w < n ==> address != WriteAddress(w)) ==>
          ((address in mem <==> address in initial) && (address in mem ==> mem[address] == initial[address])))
  }

  lemma UpdatedNext(initial: map<nat, Word>, plan: Table, n: nat, mem: map<nat, Word>)
    requires n < 66 && Updated(initial, plan, n, mem)
    ensures Updated(initial, plan, n + 1, mem[WriteAddress(n) := plan[n]])
  {
    hide WriteAddress;
    forall w | 0 <= w < n ensures WriteAddress(w) != WriteAddress(n) {
      if WriteAddress(w) == WriteAddress(n) {
        AddressesDistinct(w, n);
      }
    }
    var mem' := mem[WriteAddress(n) := plan[n]];
    forall address | forall w :: 0 <= w < n + 1 ==> address != WriteAddress(w)
      ensures (address in mem' <==> address in initial) && (address in mem' ==> mem'[address] == initial[address])
    {
      assert address != WriteAddress(n);
    }
  }

  /** The two gate reads leave the registers alone. */
  lemma {:induction false} MemAfterPlan(initial: map<nat, Word>, plan: Table, accesses: seq<Access>, v: Word, w: Word)
    requires |accesses| <= 68
    requires forall k :: 0 <= k < |accesses| ==> accesses[k] == AccessAt(plan, k, if k == 0 then v else w)
    ensures Updated(initial, plan, if |accesses| < 2 then 0 else |accesses| - 2, MemAfter(initial, accesses))
  {
    hide WriteAddress, WriteName, Updated;
    if accesses == [] {
      assert Updated(initial, plan, 0, initial) by { NothingUpdated(initial, plan); }
    } else {
      var front := accesses[..|accesses| - 1];
      MemAfterPlan(initial, plan, front, v, w);
      if |accesses| > 2 {
        WriteIgnoresValue(plan, |accesses| - 1, w, w);
        UpdatedNext(initial, plan, |accesses| - 3, MemAfter(initial, front));
      }
    }
  }

  lemma NothingUpdated(initial: map<nat, Word>, plan: Table)
    ensures Updated(initial, plan, 0, initial)
  {
  }

  /** When the collector returns, every plan access was done, the registers are the initial ones with
      exactly the 66 plan addresses set to the plan's values, the device held the plan's values, and the
      watchdog was fed 68 times and disarmed. */
  lemma SuccessMeansComplete(s: Sys)
    requires Reachable(s) && s.host.status == Returned
    ensures |s.dev.accesses| == 68
    ensures Updated(s.dev.initial, s.plan, 66, s.dev.mem)
    ensures s.dev.table == s.plan && s.dev.gpc == 0 && s.dev.raw == 0x3ff
    ensures s.dev.sup.pc == Exited && s.dev.sup.watchdog == Disarmed && s.dev.sup.keepalives == s.dev.sup.n == 68
    ensures s.dev.child.phase == Gone(0)
  {
    ReachableInv(s);
    ReturnedState(s);
    hide Inv, Text, AccessAt, ExpectedLine, Reachable, Updated;
    forall k | 0 <= k < |s.dev.accesses|
      ensures s.dev.accesses[k] == AccessAt(s.plan, k, if k == 0 then s.dev.raw else s.dev.gpc)
    {
      AccessFollowsPlan(s, k);
    }
    forall w | 0 <= w < 66 ensures s.dev.table[w] == s.plan[w] {
      WriteValueAgrees(s, w);
    }
    assert s.dev.table == s.plan;
    MemAfterPlan(s.dev.initial, s.plan, s.dev.accesses, s.dev.raw, s.dev.gpc);
  }

  lemma WriteValueAgrees(s: Sys, w: nat)
    requires Inv(s) && w < 66 && w + 2 < |s.dev.accesses|
    ensures s.dev.table[w] == s.plan[w]
  {
    AccessWasGranted(s, w + 2);
    BeforeExpected(s.plan, w + 2);
    hide BeforeLine, ScriptLine, Inv, AfterLine, Text, ExpectedLine;
    SameLineSameValue(s.plan, s.dev.table, w + 2);
  }

  lemma ReturnedState(s: Sys)
    requires Inv(s) && s.host.status == Returned
    ensures |s.dev.accesses| == 68 && s.dev.mem == MemAfter(s.dev.initial, s.dev.accesses)
    ensures s.dev.gpc == 0 && s.dev.raw == 0x3ff && s.dev.child.phase == Gone(0)
    ensures s.dev.sup.pc == Exited && s.dev.sup.watchdog == Disarmed && s.dev.sup.keepalives == s.dev.sup.n == 68
  {
    hide Text, MemAfter, StageTexts, Texts, Framed, Granted, Accessed, AcksAre, ScriptLine;
    var d := s.dev;
    assert |d.out| >= 140;
    assert d.sup.pc.Exited?;
    assert d.out[3] == d.printed[1] == ScriptLine(d.table, d.raw, d.gpc, 1);
    assert Text(d.out[3]) == Text(ExpectedLine(s.plan, 3));
    PmgrLine(d.table, d.raw, d.gpc);
    PmgrLine(s.plan, 0x3ff, 0);
    AfterPmgrTextInjective(d.raw, 0x3ff);
  }

  lemma PmgrLine(table: Table, raw: Word, gpc: Word)
    ensures ScriptLine(table, raw, gpc, 1) == AfterPmgr(raw)
  {
  }

  // ---- Watchdog ---------------------------------------------------------------------------------------

  /** The `k`-th keepalive came after the host's `FEED k`, which the host sent when it accepted the `k`-th
      "after" line. */
  lemma KeepaliveWasFed(s: Sys, k: nat)
    requires Reachable(s) && 1 <= k <= s.dev.sup.keepalives
    ensures k <= s.host.feeds && k <= 68
    ensures 2 * k < |s.granted|
    ensures s.granted[2 * k] == (Text(AfterLine(s.plan, 0x3ff, 0, k - 1)), FEED(k))
  {
    ReachableInv(s);
    KeepaliveGrant(s, k);
    hide Inv, Reachable, GrantIs;
    FeedGrant(s.plan, s.granted[2 * k], k);
  }

  lemma FeedGrant(plan: Table, grant: (string, Reply), k: nat)
    requires 1 <= k <= 68 && GrantIs(plan, grant, 2 * k)
    ensures grant == (Text(AfterLine(plan, 0x3ff, 0, k - 1)), FEED(k))
  {
    FeedLine(plan, k);
    hide Text, ScriptLine, AfterLine, BeforeLine, ExpectedLine, ReplyAt;
  }

  lemma FeedLine(plan: Table, k: nat)
    requires 1 <= k <= 68
    ensures ReplyAt(2 * k + 1) == Some(FEED(k))
    ensures ExpectedLine(plan, 2 * k + 1) == AfterLine(plan, 0x3ff, 0, k - 1)
  {
    hide ScriptLine, AfterLine, BeforeLine;
    var j := k - 1;
    assert 2 * k + 1 - 2 == 2 * j + 1 && (2 * k + 1) % 2 == 1 && (2 * k + 1) / 2 == k;
    ScriptLineCases(plan, 0x3ff, 0, j);
  }

  lemma KeepaliveGrant(s: Sys, k: nat)
    requires Inv(s) && 1 <= k <= s.dev.sup.keepalives
    ensures k <= s.host.feeds && k <= 68 && 2 * k < |s.granted| && GrantIs(s.plan, s.granted[2 * k], 2 * k)
  {
    hide Text, ScriptLine, MemAfter, StageTexts, Texts, Framed, AcksAre, Scripted, Written, Accessed, GrantIs;
    assert 2 * s.dev.sup.keepalives <= s.dev.sup.taken - 1;
    assert s.dev.sup.taken <= GrantCount(Accepted(s.host));
  }

  lemma PcStep(s: Sys, a: Action)
    requires Enabled(s, a) && Launched(s.dev.sup.pc)
    ensures var t := Do(s, a);
            && Launched(t.dev.sup.pc)
            && (s.dev.sup.pc.Stuck? ==> t.dev.sup.pc.Stuck?)
            && (s.dev.sup.pc.Exited? ==> t.dev.sup.pc.Exited?)
            && (t.dev.sup.pc.Exited? && !s.dev.sup.pc.Exited? ==>
                  a.SupFinish? && s.dev.child.phase == Gone(0) && s.dev.sup.sawFinish && s.dev.sup.n > 0)
  {
    hide Text, CueOf, RawLine, ProcessLine, AccessAt, BeforeLine, AfterLine, Strip;
  }

  lemma WatchdogOf(s: Sys)
    requires Inv(s) && Launched(s.dev.sup.pc)
    ensures s.dev.sup.watchdog == if s.dev.sup.pc.Exited? then Disarmed else Armed
  {
    hide Text, ScriptLine, MemAfter, Framed, InFlight, Granted, AcksAre, Scripted, Accessed, SupOk, ChildOk, AckOk;
  }

  /** Once armed the watchdog stays armed, except through the one step that disarms it: the child exited
      with status 0, `stage=finished rc=0` was seen and at least one stage was fed. A supervisor that gave
      up stays up, so its descriptor is never closed. */
  lemma WatchdogStep(s: Sys, a: Action)
    requires Reachable(s) && Enabled(s, a) && Launched(s.dev.sup.pc)
    ensures var t := Do(s, a);
            && Launched(t.dev.sup.pc)
            && (s.dev.sup.pc.Stuck? ==> t.dev.sup.pc.Stuck? && t.dev.sup.watchdog == Armed)
            && (t.dev.sup.watchdog == Armed
                || s.dev.sup.watchdog == Disarmed == t.dev.sup.watchdog
                || (a.SupFinish? && s.dev.child.phase == Gone(0) && s.dev.sup.sawFinish && s.dev.sup.n > 0))
  {
    ReachableInv(s);
    StepKeeps(s, a);
    PcStep(s, a);
    hide Inv, Do, Enabled, Reachable;
    WatchdogOf(s);
    WatchdogOf(Do(s, a));
  }
}
