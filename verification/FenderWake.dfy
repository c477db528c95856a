/** Fender wake: eight fixed accesses interleaved with three bounded poll loops, run without the supervisor.
    boot/gpu-fender-wake.c:15-73, boot/gpu_fender_wake_capture.py:7-66. */
module FenderWake {
  import opened Common
  import opened CheckpointText
  import opened CheckpointFraming
  import opened BridgeHost
  import opened RegisterAccess

  const POLL_LIMIT := 64

  type Polls = s: seq<Word> | |s| == POLL_LIMIT witness seq(64, i => 0)

  datatype Kind = ResetClear | ResetZero | Wake

  function KindName(kind: Kind): string {
    match kind
    case ResetClear => "reset-clear"
    case ResetZero => "reset-zero"
    case Wake => "wake"
  }

  function Fixed(i: nat): Register
    requires i < 8
  {
    match i
    case 0 => Register("initial-state", 0x1000, "read", 0)
    case 1 => Register("reset", 0x20000, "write", 0)
    case 2 => Register("reset-state", 0x1000, "write", 0x10)
    case 3 => Register("hold", 0x20000, "write", 0x20)
    case 4 => Register("hold-confirm", 0x20000, "read", 0)
    case 5 => Register("setup-mask", 0x10000, "write", 0xffff0000)
    case 6 => Register("setup-control", 0, "write", 0x40000000)
    case _ => Register("request-state", 0x1000, "write", 0x11)
  }

  /** What the "after" line of a fixed access has to show. */
  function Expected(i: nat): Word
    requires i < 8
  {
    if i == 4 then 0x20 else Fixed(i).value
  }

  function Poll(kind: Kind, i: nat): Register {
    Register(KindName(kind) + "-" + Dec2(i), 0x1000, "read", 0)
  }

  predicate Reached(kind: Kind, value: int) {
    if kind == ResetZero then value == 0 else value / 16 % 2 == 0
  }

  // ---- The device program -----------------------------------------------------------------------------

  /** Everything the hardware answers in one run. */
  datatype Readings = Readings(initial: Word, clear: Polls, zero: Polls, hold: Word, wake: Polls)

  function PollsOf(kind: Kind, r: Readings): Polls {
    match kind
    case ResetClear => r.clear
    case ResetZero => r.zero
    case Wake => r.wake
  }

  function Reading(i: nat, r: Readings): Word
    requires i < 8
  {
    if i == 0 then r.initial else if i == 4 then r.hold else Fixed(i).value
  }

  /** A stretch of the run: what it printed and touched, whether it went well, and the answers left. */
  datatype Part = Part(lines: seq<Line>, touches: seq<Touch>, ok: bool, left: nat)

  function Join(a: Part, b: Part): Part {
    Part(a.lines + b.lines, a.touches + b.touches, b.ok, b.left)
  }

  function Access(r: Register, value: Word, acks: nat): Part {
    if acks == 0 then Part([BeforeReg(r)], [], false, 0)
    else Part(Exchange(r, value), [Touch(r.offset, r.op, value)], true, acks - 1)
  }

  /** `poll_state` from iteration `i`. */
  function PollPart(kind: Kind, i: nat, polls: Polls, acks: nat): Part
    requires i <= POLL_LIMIT
    decreases POLL_LIMIT - i
  {
    if i == POLL_LIMIT then Part([], [], false, acks)
    else
      var a := Access(Poll(kind, i), polls[i], acks);
      if !a.ok || Reached(kind, polls[i]) then a else Join(a, PollPart(kind, i + 1, polls, a.left))
  }

  /** The eleven stages of `main`: a fixed access or a poll loop. */
  datatype Item = Reg(i: nat) | Loop(kind: Kind)

  const ITEMS := 11

  function ItemAt(k: nat): (item: Item)
    requires k < ITEMS
    ensures item.Reg? ==> item.i < 8
  {
    if k < 2 then Reg(k)
    else if k == 2 then Loop(ResetClear)
    else if k == 3 then Reg(2)
    else if k == 4 then Loop(ResetZero)
    else if k < 10 then Reg(k - 2)
    else Loop(Wake)
  }

  predicate ItemGood(k: nat, r: Readings)
    requires k < ITEMS
  {
    match ItemAt(k)
    case Reg(i) => Reading(i, r) == Expected(i)
    case Loop(kind) => FirstReached(kind, 0, PollsOf(kind, r)) < POLL_LIMIT
  }

  function ItemPart(k: nat, r: Readings, acks: nat): Part
    requires k < ITEMS
  {
    match ItemAt(k)
    case Reg(i) =>
      var p := Access(Fixed(i), Reading(i, r), acks);
      if Reading(i, r) == Expected(i) then p else p.(ok := false)
    case Loop(kind) => PollPart(kind, 0, PollsOf(kind, r), acks)
  }

  /** The run from stage `k`, up to the first that does not go well. */
  function RunFrom(k: nat, r: Readings, acks: nat): Part
    requires k <= ITEMS
    decreases ITEMS - k
  {
    if k == ITEMS then Part([], [], true, acks)
    else
      var p := ItemPart(k, r, acks);
      if !p.ok then p else Join(p, RunFrom(k + 1, r, p.left))
  }

  function Ended(p: Part): Trace {
    var rc := if p.ok then 0 else 1;
    Trace(p.lines + [Finished(rc)], p.touches, rc)
  }

  function DeviceTrace(r: Readings, acks: nat): Trace {
    Ended(RunFrom(0, r, acks))
  }

  function FirstReached(kind: Kind, i: nat, polls: Polls): (k: nat)
    requires i <= POLL_LIMIT
    ensures i <= k <= POLL_LIMIT
    ensures forall j :: i <= j < k ==> !Reached(kind, polls[j])
    ensures k < POLL_LIMIT ==> Reached(kind, polls[k])
    decreases POLL_LIMIT - i
  {
    if i == POLL_LIMIT || Reached(kind, polls[i]) then i else FirstReached(kind, i + 1, polls)
  }

  // ---- The program as it is written -------------------------------------------------------------------

  lemma JoinJoin(a: Part, b: Part, c: Part)
    ensures Join(Join(a, b), c) == Join(a, Join(b, c))
  {
    assert a.lines + b.lines + c.lines == a.lines + (b.lines + c.lines);
    assert a.touches + b.touches + c.touches == a.touches + (b.touches + c.touches);
  }

  lemma PollUnfolds(kind: Kind, i: nat, polls: Polls, acks: nat)
    requires i < POLL_LIMIT
    ensures var a := Access(Poll(kind, i), polls[i], acks);
            PollPart(kind, i, polls, acks) ==
            if !a.ok || Reached(kind, polls[i]) then a else Join(a, PollPart(kind, i + 1, polls, a.left))
  {
  }

  lemma PollIsRead(kind: Kind, i: nat)
    ensures Poll(kind, i).op == "read" && "read" != "write" && Poll(kind, i).offset == 0x1000
  {
    assert "read"[0] != "write"[0];
  }

  method PollState(kind: Kind, polls: Polls, acks: nat) returns (ok: bool, lines: seq<Line>, touches: seq<Touch>, left: nat)
    ensures Part(lines, touches, ok, left) == PollPart(kind, 0, polls, acks)
  {
    hide PollPart, Poll, Access, BeforeReg, Exchange;
    lines, touches, left := [], [], acks;
    for i := 0 to POLL_LIMIT
      invariant PollPart(kind, 0, polls, acks) == Join(Part(lines, touches, true, left), PollPart(kind, i, polls, left))
    {
      PollUnfolds(kind, i, polls, left);
      PollIsRead(kind, i);
      ghost var had := Part(lines, touches, true, left);
      ghost var here := Access(Poll(kind, i), polls[i], left);
      AccessAsPart(Poll(kind, i), polls[i], left);
      JoinJoin(had, here, PollPart(kind, i + 1, polls, here.left));
      var more, did, value;
      ok, more, did, value := AccessReg(Poll(kind, i), polls[i], left);
      lines, touches := lines + more, touches + did;
      left := if ok then left - 1 else 0;
      if !ok {
        return;
      }
      if (if kind == ResetZero then value == 0 else value / 16 % 2 == 0) {
        return;
      }
    }
    PollEnds(kind, polls, left);
    ok := false;
  }

  lemma PollEnds(kind: Kind, polls: Polls, acks: nat)
    ensures PollPart(kind, POLL_LIMIT, polls, acks) == Part([], [], false, acks)
  {
  }

  /** `AccessReg`'s contract, as a part. */
  lemma AccessAsPart(r: Register, value: Word, acks: nat)
    ensures Access(r, value, acks) ==
            if acks == 0 then Part([BeforeReg(r)], [], false, 0)
            else Part([BeforeReg(r), After(r.name, value)], [Touch(r.offset, r.op, value)], true, acks - 1)
  {
  }

  /** Where the program stands: `done` happened, stage `k` is next. */
  ghost predicate Standing(k: nat, r: Readings, acks: nat, lines: seq<Line>, touches: seq<Touch>, left: nat)
    requires k <= ITEMS
  {
    RunFrom(0, r, acks) == Join(Part(lines, touches, true, left), RunFrom(k, r, left))
  }

  lemma StandingNext(k: nat, r: Readings, acks: nat, lines: seq<Line>, touches: seq<Touch>, left: nat)
    requires k < ITEMS && Standing(k, r, acks, lines, touches, left)
    ensures var p := ItemPart(k, r, left);
            if p.ok then Standing(k + 1, r, acks, lines + p.lines, touches + p.touches, p.left)
            else RunFrom(0, r, acks) == Part(lines + p.lines, touches + p.touches, false, p.left)
  {
    hide ItemPart;
    var p := ItemPart(k, r, left);
    JoinJoin(Part(lines, touches, true, left), p, RunFrom(k + 1, r, p.left));
  }

  /** A fixed access at its place in `main`, followed by the test of the value where `main` has one. */
  method FixedAccess(k: nat, ghost i: nat, reg: Register, reading: Word, expected: Word, ghost r: Readings, ghost acks: nat,
                     lines: seq<Line>, touches: seq<Touch>, left: nat)
      returns (ok: bool, lines': seq<Line>, touches': seq<Touch>, left': nat)
    requires k < ITEMS && ItemAt(k) == Reg(i) && reg == Fixed(i) && expected == Expected(i)
    requires reg.op == "read" ==> reading == Reading(i, r)
    requires Standing(k, r, acks, lines, touches, left)
    ensures ok ==> Standing(k + 1, r, acks, lines', touches', left')
    ensures !ok ==> RunFrom(0, r, acks) == Part(lines', touches', false, left')
  {
    hide RunFrom, Access, BeforeReg, Standing;
    StandingNext(k, r, acks, lines, touches, left);
    AccessAsPart(reg, Reading(i, r), left);
    var more, did, value;
    ok, more, did, value := AccessReg(reg, reading, left);
    assert ok ==> value == Reading(i, r) by { FixedOps(i); }
    lines', touches' := lines + more, touches + did;
    left' := if ok then left - 1 else 0;
    ok := ok && value == expected;
  }

  lemma FixedOps(i: nat)
    requires i < 8
    ensures Fixed(i).op == (if i == 0 || i == 4 then "read" else "write")
    ensures Fixed(i).op != "write" <==> i == 0 || i == 4
  {
    assert "read"[0] != "write"[0];
  }

  method PollAt(k: nat, kind: Kind, polls: Polls, ghost r: Readings, ghost acks: nat,
                lines: seq<Line>, touches: seq<Touch>, left: nat)
      returns (ok: bool, lines': seq<Line>, touches': seq<Touch>, left': nat)
    requires k < ITEMS && ItemAt(k) == Loop(kind) && polls == PollsOf(kind, r)
    requires Standing(k, r, acks, lines, touches, left)
    ensures ok ==> Standing(k + 1, r, acks, lines', touches', left')
    ensures !ok ==> RunFrom(0, r, acks) == Part(lines', touches', false, left')
  {
    hide RunFrom, PollPart, Standing;
    StandingNext(k, r, acks, lines, touches, left);
    var more, did;
    ok, more, did, left' := PollState(kind, polls, left);
    lines', touches' := lines + more, touches + did;
  }

  /** `main` after the mapping is made. */
  method FenderMain(r: Readings, acks: nat) returns (rc: nat, lines: seq<Line>, touches: seq<Touch>)
    ensures Trace(lines, touches, rc) == DeviceTrace(r, acks)
  {
    hide RunFrom, Standing;
    rc := 1;
    lines, touches := [], [];
    var left := acks;
    StandingStart(r, acks);
    var ok;
    ok, lines, touches, left := FixedAccess(0, 0, Fixed(0), r.initial, 0, r, acks, lines, touches, left);
    if !ok { lines := lines + [Finished(rc)]; return; }
    ok, lines, touches, left := FixedAccess(1, 1, Fixed(1), 0, 0, r, acks, lines, touches, left);
    if !ok { lines := lines + [Finished(rc)]; return; }
    ok, lines, touches, left := PollAt(2, ResetClear, r.clear, r, acks, lines, touches, left);
    if !ok { lines := lines + [Finished(rc)]; return; }
    ok, lines, touches, left := FixedAccess(3, 2, Fixed(2), 0, 0x10, r, acks, lines, touches, left);
    if !ok { lines := lines + [Finished(rc)]; return; }
    ok, lines, touches, left := PollAt(4, ResetZero, r.zero, r, acks, lines, touches, left);
    if !ok { lines := lines + [Finished(rc)]; return; }
    ok, lines, touches, left := FixedAccess(5, 3, Fixed(3), 0, 0x20, r, acks, lines, touches, left);
    if !ok { lines := lines + [Finished(rc)]; return; }
    ok, lines, touches, left := FixedAccess(6, 4, Fixed(4), r.hold, 0x20, r, acks, lines, touches, left);
    if !ok { lines := lines + [Finished(rc)]; return; }
    ok, lines, touches, left := FixedAccess(7, 5, Fixed(5), 0, 0xffff0000, r, acks, lines, touches, left);
    if !ok { lines := lines + [Finished(rc)]; return; }
    ok, lines, touches, left := FixedAccess(8, 6, Fixed(6), 0, 0x40000000, r, acks, lines, touches, left);
    if !ok { lines := lines + [Finished(rc)]; return; }
    ok, lines, touches, left := FixedAccess(9, 7, Fixed(7), 0, 0x11, r, acks, lines, touches, left);
    if !ok { lines := lines + [Finished(rc)]; return; }
    ok, lines, touches, left := PollAt(10, Wake, r.wake, r, acks, lines, touches, left);
    if !ok { lines := lines + [Finished(rc)]; return; }
    StandingEnd(r, acks, lines, touches, left);
    rc := 0;
    lines := lines + [Finished(rc)];
  }

  lemma StandingStart(r: Readings, acks: nat)
    ensures Standing(0, r, acks, [], [], acks)
  {
  }

  lemma StandingEnd(r: Readings, acks: nat, lines: seq<Line>, touches: seq<Touch>, left: nat)
    requires Standing(ITEMS, r, acks, lines, touches, left)
    ensures RunFrom(0, r, acks) == Part(lines, touches, true, left)
  {
  }

  // ---- What the device does to the registers -------------------------------------------------------------

  /** The polls a loop makes: up to the first value that ends it, or all 64. */
  function Polled(kind: Kind, i: nat, polls: Polls): seq<Word>
    requires i <= POLL_LIMIT
  {
    var k := FirstReached(kind, i, polls);
    polls[i..if k < POLL_LIMIT then k + 1 else POLL_LIMIT]
  }

  function ItemTouches(k: nat, r: Readings): seq<Touch>
    requires k < ITEMS
  {
    match ItemAt(k)
    case Reg(i) => [Touch(Fixed(i).offset, Fixed(i).op, Reading(i, r))]
    case Loop(kind) => PollTouches(Polled(kind, 0, PollsOf(kind, r)))
  }

  function AllTouches(k: nat, end: nat, r: Readings): seq<Touch>
    requires k <= end <= ITEMS
    decreases end - k
  {
    if k == end then [] else ItemTouches(k, r) + AllTouches(k + 1, end, r)
  }

  /** `Polled`, one poll at a time. */
  lemma PolledUnfolds(kind: Kind, i: nat, polls: Polls)
    requires i < POLL_LIMIT
    ensures Polled(kind, i, polls) ==
            [polls[i]] + if Reached(kind, polls[i]) then [] else Polled(kind, i + 1, polls)
    ensures FirstReached(kind, i, polls) == if Reached(kind, polls[i]) then i else FirstReached(kind, i + 1, polls)
  {
    hide Reached;
    var k := FirstReached(kind, i + 1, polls);
    var end := if k < POLL_LIMIT then k + 1 else POLL_LIMIT;
    assert polls[i..end] == [polls[i]] + polls[i + 1..end];
    assert polls[i..i + 1] == [polls[i]] + [];
  }

  lemma PolledEnds(kind: Kind, polls: Polls)
    ensures Polled(kind, POLL_LIMIT, polls) == [] && FirstReached(kind, POLL_LIMIT, polls) == POLL_LIMIT
  {
  }

  lemma {:induction false} PollTouched(kind: Kind, i: nat, polls: Polls, acks: nat)
    requires i <= POLL_LIMIT
    ensures var p := PollPart(kind, i, polls, acks);
            var all := PollTouches(Polled(kind, i, polls));
            && p.touches <= all
            && (p.ok <==> FirstReached(kind, i, polls) < POLL_LIMIT && acks >= |all|)
            && (acks >= |all| ==> p.touches == all && p.left == acks - |all|)
    decreases POLL_LIMIT - i
  {
    hide PollPart, Poll, BeforeReg, Exchange, PollTouches, Reached, Polled, FirstReached;
    NoTouches();
    if i == POLL_LIMIT {
      PollEnds(kind, polls, acks);
      PolledEnds(kind, polls);
    } else {
      PollUnfolds(kind, i, polls, acks);
      PolledUnfolds(kind, i, polls);
      PollIsRead(kind, i);
      AccessAsPart(Poll(kind, i), polls[i], acks);
      TouchFirst(polls[i], if Reached(kind, polls[i]) then [] else Polled(kind, i + 1, polls));
      PollTouched(kind, i + 1, polls, if acks == 0 then 0 else acks - 1);
    }
  }

  lemma NoTouches()
    ensures PollTouches([]) == []
  {
  }

  lemma TouchFirst(v: Word, rest: seq<Word>)
    ensures PollTouches([v] + rest) == [Touch(0x1000, "read", v)] + PollTouches(rest)
    ensures [v] + [] == [v]
  {
  }

  lemma ItemTouched(k: nat, r: Readings, acks: nat)
    requires k < ITEMS
    ensures var p := ItemPart(k, r, acks);
            var all := ItemTouches(k, r);
            && p.touches <= all
            && (p.ok <==> ItemGood(k, r) && acks >= |all|)
            && (acks >= |all| ==> p.touches == all && p.left == acks - |all|)
  {
    hide Fixed, BeforeReg, Exchange, PollPart, FirstReached, Polled, Expected, Reading, PollTouches;
    match ItemAt(k)
    case Reg(i) => AccessAsPart(Fixed(i), Reading(i, r), acks);
    case Loop(kind) => PollTouched(kind, 0, PollsOf(kind, r), acks);
  }

  predicate AllGood(k: nat, end: nat, r: Readings)
    requires k <= end <= ITEMS
  {
    forall j :: k <= j < end ==> ItemGood(j, r)
  }

  lemma {:induction false} RunTouched(k: nat, r: Readings, acks: nat)
    requires k <= ITEMS
    ensures var p := RunFrom(k, r, acks);
            var all := AllTouches(k, ITEMS, r);
            && p.touches <= all
            && (p.ok <==> AllGood(k, ITEMS, r) && acks >= |all|)
            && (p.ok ==> p.touches == all)
    decreases ITEMS - k
  {
    hide ItemPart, ItemTouches, ItemGood;
    if k < ITEMS {
      ItemTouched(k, r, acks);
      var p := ItemPart(k, r, acks);
      if p.ok {
        RunTouched(k + 1, r, p.left);
      }
    }
  }

  const REQUEST := Touch(0x1000, "write", 0x11)

  lemma RequestIsStage9(k: nat, r: Readings)
    requires k < ITEMS
    ensures REQUEST in ItemTouches(k, r) ==> k == 9
  {
    hide Polled;
    FixedOps(0);
    assert "read"[0] != "write"[0];
  }

  lemma {:induction false} RequestReached(k: nat, r: Readings, acks: nat)
    requires k <= ITEMS
    requires REQUEST in RunFrom(k, r, acks).touches
    ensures k <= 9 && AllGood(k, 10, r)
    ensures AllTouches(k, 10, r) <= RunFrom(k, r, acks).touches
    decreases ITEMS - k
  {
    hide ItemPart, ItemTouches, ItemGood;
    if k < ITEMS {
      RequestIsStage9(k, r);
      ItemTouched(k, r, acks);
      var p := ItemPart(k, r, acks);
      if REQUEST !in p.touches {
        assert REQUEST in RunFrom(k + 1, r, p.left).touches;
        RequestReached(k + 1, r, p.left);
      } else {
        assert REQUEST in ItemTouches(k, r);
        assert k == 9 && ItemTouches(9, r) == [REQUEST] by { OneRequest(r); }
        assert |p.touches| >= 1;
        RequestIsGood(r);
        assert AllTouches(10, 10, r) == [];
        assert AllTouches(9, 10, r) == ItemTouches(9, r) + AllTouches(10, 10, r);
      }
    }
  }

  lemma OneRequest(r: Readings)
    ensures ItemTouches(9, r) == [REQUEST]
  {
  }

  lemma RequestIsGood(r: Readings)
    ensures ItemGood(9, r)
  {
  }

  /** Everything that precedes the request, and the request. */
  function Prelude(r: Readings): seq<Touch> {
    [Touch(0x1000, "read", 0), Touch(0x20000, "write", 0)]
    + PollTouches(Polled(ResetClear, 0, r.clear))
    + [Touch(0x1000, "write", 0x10)]
    + PollTouches(Polled(ResetZero, 0, r.zero))
    + [Touch(0x20000, "write", 0x20), Touch(0x20000, "read", 0x20), Touch(0x10000, "write", 0xffff0000),
       Touch(0, "write", 0x40000000), REQUEST]
  }

  predicate Prepared(r: Readings) {
    && r.initial == 0 && r.hold == 0x20
    && FirstReached(ResetClear, 0, r.clear) < POLL_LIMIT
    && FirstReached(ResetZero, 0, r.zero) < POLL_LIMIT
  }

  lemma PreparedIsGood(r: Readings)
    ensures Prepared(r) <==> AllGood(0, 10, r)
    ensures AllGood(0, ITEMS, r) <==> Prepared(r) && FirstReached(Wake, 0, r.wake) < POLL_LIMIT
  {
    hide FirstReached;
    if AllGood(0, 10, r) {
      assert ItemGood(0, r) && ItemGood(2, r) && ItemGood(4, r) && ItemGood(6, r);
    }
    if AllGood(0, ITEMS, r) {
      assert ItemGood(0, r) && ItemGood(2, r) && ItemGood(4, r) && ItemGood(6, r) && ItemGood(10, r);
    }
  }

  lemma PreludeIsItems(r: Readings)
    requires r.initial == 0 && r.hold == 0x20
    ensures AllTouches(0, 10, r) == Prelude(r)
  {
    hide Polled, PollTouches;
    var clear := PollTouches(Polled(ResetClear, 0, r.clear));
    var zero := PollTouches(Polled(ResetZero, 0, r.zero));
    assert AllTouches(8, 10, r) == [Touch(0, "write", 0x40000000), REQUEST];
    assert AllTouches(6, 10, r) == [Touch(0x20000, "read", 0x20), Touch(0x10000, "write", 0xffff0000)] + AllTouches(8, 10, r);
    assert AllTouches(4, 10, r) == zero + [Touch(0x20000, "write", 0x20)] + AllTouches(6, 10, r);
    assert AllTouches(2, 10, r) == clear + [Touch(0x1000, "write", 0x10)] + AllTouches(4, 10, r);
    assert AllTouches(0, 10, r) == [Touch(0x1000, "read", 0), Touch(0x20000, "write", 0)] + AllTouches(2, 10, r);
  }

  /** In every run, whatever the hardware reads and whenever the answers stop, the request 0x11 is written
      only after the state read 0, each reset poll loop came to its end within 64 reads, the hold read back
      0x20 and both setup writes were made; nothing else was done before it. */
  lemma RequestGuarded(r: Readings, acks: nat)
    requires REQUEST in DeviceTrace(r, acks).touches
    ensures Prepared(r) && Prelude(r) <= DeviceTrace(r, acks).touches
  {
    hide RunFrom, AllTouches, Prelude, Prepared, AllGood;
    RequestReached(0, r, acks);
    PreparedIsGood(r);
    assert r.initial == 0 && r.hold == 0x20 by { PreparedStart(r); }
    PreludeIsItems(r);
  }

  lemma PreparedStart(r: Readings)
    ensures Prepared(r) ==> r.initial == 0 && r.hold == 0x20
  {
  }

  lemma {:induction false} AllTouchesSplit(k: nat, mid: nat, r: Readings)
    requires k <= mid <= ITEMS
    ensures AllTouches(k, ITEMS, r) == AllTouches(k, mid, r) + AllTouches(mid, ITEMS, r)
    decreases mid - k
  {
    hide ItemTouches;
    if k < mid {
      AllTouchesSplit(k + 1, mid, r);
    }
  }

  /** Status 0 exactly when everything was as required and the wake poll ended within its 64 reads, with an
      answer for every access; the run is then the prelude followed by the wake polls. */
  lemma DeviceSucceeds(r: Readings, acks: nat)
    ensures var t := DeviceTrace(r, acks);
            var all := Prelude(r) + PollTouches(Polled(Wake, 0, r.wake));
            && (t.rc == 0 <==> Prepared(r) && FirstReached(Wake, 0, r.wake) < POLL_LIMIT && acks >= |all|)
            && (t.rc == 0 ==> t.touches == all)
  {
    hide RunFrom, Prelude, AllGood, FirstReached, Polled, PollTouches, ItemGood;
    RunTouched(0, r, acks);
    PreparedIsGood(r);
    if Prepared(r) {
      AllTouchesSplit(0, 10, r);
      PreludeIsItems(r);
      LastItem(r);
    }
  }

  lemma LastItem(r: Readings)
    ensures AllTouches(10, ITEMS, r) == PollTouches(Polled(Wake, 0, r.wake))
  {
    hide Polled, PollTouches;
    assert AllTouches(11, ITEMS, r) == [];
  }

  // ---- The host -----------------------------------------------------------------------------------------

  predicate IsSpace(c: char) {
    c == ' ' || '\t' <= c <= '\r'
  }

  function TrimLeft(s: string): string {
    if s != "" && IsSpace(s[0]) then TrimLeft(s[1..]) else s
  }

  function TrimRight(s: string): string {
    if s != "" && IsSpace(s[|s| - 1]) then TrimRight(s[..|s| - 1]) else s
  }

  predicate IsDigit16(c: char) {
    IsHexChar(c) || 'A' <= c <= 'F'
  }

  /** Digits with single underscores between them. */
  predicate Digits16(s: string) {
    && s != "" && IsDigit16(s[0]) && IsDigit16(s[|s| - 1])
    && forall i :: 0 < i < |s| ==> IsDigit16(s[i]) || (s[i] == '_' && s[i - 1] != '_')
  }

  function Value16(s: string): nat {
    if s == "" then 0
    else
      var c := s[|s| - 1];
      if c == '_' then Value16(s[..|s| - 1])
      else 16 * Value16(s[..|s| - 1]) + DigitValue(if 'A' <= c <= 'F' then (c as int + 32) as char else c)
  }

  function Unprefixed(s: string): string {
    if |s| >= 2 && s[0] == '0' && (s[1] == 'x' || s[1] == 'X') then
      if |s| >= 3 && s[2] == '_' then s[3..] else s[2..]
    else s
  }

  /** Python's `int(text, 16)`; None is its ValueError. */
  function PyInt16(text: string): Option<int> {
    var s := TrimRight(TrimLeft(text));
    var signed := s != "" && (s[0] == '+' || s[0] == '-');
    var digits := Unprefixed(if signed then s[1..] else s);
    var v: int := Value16(digits);
    if !Digits16(digits) then None else Some(if signed && s[0] == '-' then -v else v)
  }

  /** `line.rsplit(b"=", 1)[1]`, for a line with an equals sign. */
  function AfterLastEquals(s: string): string {
    if s == "" || s[|s| - 1] == '=' then "" else AfterLastEquals(s[..|s| - 1]) + [s[|s| - 1]]
  }

  /** The local variables of `capture`. */
  datatype FenderHost = FenderHost(step: nat, kind: Option<Kind>, count: nat, status: Status)

  const FRESH := FenderHost(0, None, 0, Running)

  function BeforePrefix(kind: Kind): string {
    "stage=before-" + KindName(kind) + "-"
  }

  function AfterPrefix(kind: Kind): string {
    "stage=after-" + KindName(kind) + "-"
  }

  function OnPollLine(h: FenderHost, kind: Kind, line: string): (FenderHost, Option<Reply>) {
    var fail := (h.(status := Failed), None);
    if StartsWith(line, BeforePrefix(kind)) then (h, Some(ACCESS))
    else if StartsWith(line, AfterPrefix(kind)) then
      match PyInt16(AfterLastEquals(line))
      case None => fail
      case Some(value) =>
        if Reached(kind, value) then (h.(kind := None, count := 0), None)
        else if h.count >= 63 then fail
        else (h.(count := h.count + 1), None)
    else fail
  }

  function KindAfter(i: nat): Option<Kind> {
    if i == 1 then Some(ResetClear) else if i == 2 then Some(ResetZero) else if i == 7 then Some(Wake) else None
  }

  function OnFixedLine(h: FenderHost, line: string): (FenderHost, Option<Reply>)
    requires h.step < 16
  {
    var r := Fixed(h.step / 2);
    var fail := (h.(status := Failed), None);
    if h.step % 2 == 0 then
      if line != Text(BeforeReg(r)) then fail else (h.(step := h.step + 1), Some(ACCESS))
    else
      if MatchAfter(r.name, line) != Some(Expected(h.step / 2)) then fail
      else (h.(step := h.step + 1, kind := KindAfter(h.step / 2)), None)
  }

  /** One pass of the loop over the buffered lines. */
  function OnLine(h: FenderHost, line: string): (FenderHost, Option<Reply>) {
    if !StartsWith(line, "stage=") then (h, None)
    else if h.kind.Some? then OnPollLine(h, h.kind.value, line)
    else if h.step < 16 then OnFixedLine(h, line)
    else (h.(status := if line == Text(Finished(0)) then Returned else Failed), None)
  }

  function Follow(h: FenderHost, lines: seq<string>): FenderHost
    decreases |lines|
  {
    if lines == [] || h.status != Running then h else Follow(OnLine(h, lines[0]).0, lines[1..])
  }

  /** What the collector sends while it follows the lines. */
  function Answers(h: FenderHost, lines: seq<string>): seq<Reply>
    decreases |lines|
  {
    if lines == [] || h.status != Running then []
    else
      var (h', reply) := OnLine(h, lines[0]);
      (if reply.Some? then [reply.value] else []) + Answers(h', lines[1..])
  }

  /** `capture`, with its local variables and its loop. */
  method Capture(lines: seq<string>) returns (returned: bool, sent: seq<Reply>)
    ensures returned <==> Follow(FRESH, lines).status == Returned
    ensures sent == Answers(FRESH, lines)
  {
    hide OnLine;
    var h := FRESH;
    var i := 0;
    sent := [];
    while i < |lines| && h.status == Running
      invariant 0 <= i <= |lines| && Follow(FRESH, lines) == Follow(h, lines[i..])
      invariant sent + Answers(h, lines[i..]) == Answers(FRESH, lines)
    {
      assert lines[i..][0] == lines[i] && lines[i..][1..] == lines[i + 1..];
      var (h', reply) := OnLine(h, lines[i]);
      ghost var was, rest := sent, Answers(h', lines[i + 1..]);
      if reply.Some? {
        sent := sent + [reply.value];
      }
      assert sent + rest == was + ((if reply.Some? then [reply.value] else []) + rest);
      h := h';
      i := i + 1;
    }
    returned := h.status == Returned;
  }

  // ---- What the host accepts ------------------------------------------------------------------------------

  /** A line the host takes inside a poll loop without leaving it. */
  predicate StaysIn(kind: Kind, line: string) {
    StartsWith(line, BeforePrefix(kind)) || Shows(kind, line, false)
  }

  /** An "after" line of the loop whose value does, or does not, end it. */
  predicate Shows(kind: Kind, line: string, done: bool) {
    && !StartsWith(line, BeforePrefix(kind)) && StartsWith(line, AfterPrefix(kind))
    && var v := PyInt16(AfterLastEquals(line)); v.Some? && (Reached(kind, v.value) <==> done)
  }

  function Afters(kind: Kind, lines: seq<string>): nat {
    if lines == [] then 0
    else Afters(kind, lines[..|lines| - 1]) + if StartsWith(lines[|lines| - 1], BeforePrefix(kind)) then 0 else 1
  }

  /** The lines of a poll loop that has not ended: at most 63 values so far, none that ends it. */
  predicate OpenLoop(kind: Kind, lines: seq<string>, count: nat) {
    && (forall i :: 0 <= i < |lines| ==> StaysIn(kind, lines[i]))
    && Afters(kind, lines) == count <= 63
  }

  /** The lines of a completed poll loop: the last one ends it, and it is among the first 64 values. */
  predicate ClosedLoop(kind: Kind, lines: seq<string>) {
    && lines != [] && Shows(kind, lines[|lines| - 1], true)
    && OpenLoop(kind, lines[..|lines| - 1], Afters(kind, lines[..|lines| - 1]))
  }

  function FixedText(n: nat): string
    requires n < 16
  {
    if n % 2 == 0 then Text(BeforeReg(Fixed(n / 2))) else Text(After(Fixed(n / 2).name, Expected(n / 2)))
  }

  /** The stage lines up to step `n`, with the lines of the three poll loops in their places. */
  function Script(n: nat, clear: seq<string>, zero: seq<string>, wake: seq<string>): seq<string>
    requires n <= 16
  {
    if n == 0 then []
    else
      Script(n - 1, clear, zero, wake) + [FixedText(n - 1)]
      + (if n == 4 then clear else if n == 6 then zero else if n == 16 then wake else [])
  }

  predicate LoopOk(kind: Kind, start: nat, h: FenderHost, lines: seq<string>) {
    if h.step < start then lines == []
    else if h.kind == Some(kind) then OpenLoop(kind, lines, h.count)
    else ClosedLoop(kind, lines)
  }

  predicate HostOk(h: FenderHost) {
    && h.step <= 16
    && (h.kind.None? ==> h.count == 0)
    && (h.kind.Some? ==> h.step == (match h.kind.value case ResetClear => 4 case ResetZero => 6 case Wake => 16))
    && (h.status == Returned ==> h.step == 16 && h.kind.None?)
  }

  ghost predicate Taken(h: FenderHost, seen: seq<string>, clear: seq<string>, zero: seq<string>, wake: seq<string>) {
    && HostOk(h)
    && LoopOk(ResetClear, 4, h, clear) && LoopOk(ResetZero, 6, h, zero) && LoopOk(Wake, 16, h, wake)
    && seen == Script(h.step, clear, zero, wake) + (if h.status == Returned then [Text(Finished(0))] else [])
  }

  lemma {:induction false} ScriptIgnores(n: nat, c: seq<string>, z: seq<string>, w: seq<string>,
                                        c': seq<string>, z': seq<string>, w': seq<string>)
    requires n <= 16
    requires n >= 4 ==> c == c'
    requires n >= 6 ==> z == z'
    requires n >= 16 ==> w == w'
    ensures Script(n, c, z, w) == Script(n, c', z', w')
  {
    hide FixedText;
    if n > 0 {
      ScriptIgnores(n - 1, c, z, w, c', z', w');
    }
  }

  lemma ScriptGrows(n: nat, c: seq<string>, z: seq<string>, w: seq<string>, line: string)
    requires n == 4 || n == 6 || n == 16
    ensures Script(n, c, z, w) + [line] ==
            Script(n, if n == 4 then c + [line] else c, if n == 6 then z + [line] else z, if n == 16 then w + [line] else w)
  {
    hide FixedText;
    var c', z', w' := if n == 4 then c + [line] else c, if n == 6 then z + [line] else z, if n == 16 then w + [line] else w;
    ScriptIgnores(n - 1, c, z, w, c', z', w');
    var mine := if n == 4 then c else if n == 6 then z else w;
    assert Script(n - 1, c, z, w) + [FixedText(n - 1)] + (mine + [line])
        == Script(n - 1, c, z, w) + [FixedText(n - 1)] + mine + [line];
  }

  lemma LoopGrows(kind: Kind, h: FenderHost, lines: seq<string>, line: string)
    requires h.kind == Some(kind) && OpenLoop(kind, lines, h.count)
    ensures var h' := OnPollLine(h, kind, line).0;
            || h'.status == Failed
            || (h' == h.(kind := h'.kind, count := h'.count)
                && if h'.kind == Some(kind) then OpenLoop(kind, lines + [line], h'.count)
                   else h'.kind == None && h'.count == 0 && ClosedLoop(kind, lines + [line]))
  {
    hide StartsWith, BeforePrefix, AfterPrefix, PyInt16, AfterLastEquals, Reached;
    assert (lines + [line])[..|lines|] == lines;
  }

  lemma PollStepTaken(h: FenderHost, seen: seq<string>, c: seq<string>, z: seq<string>, w: seq<string>, line: string)
      returns (c': seq<string>, z': seq<string>, w': seq<string>)
    requires Taken(h, seen, c, z, w) && h.status == Running && h.kind.Some?
    ensures var h' := OnPollLine(h, h.kind.value, line).0;
            h'.status == Failed || Taken(h', seen + [line], c', z', w')
  {
    hide Script, OpenLoop, ClosedLoop, OnPollLine;
    c', z', w' := c, z, w;
    var lines := match h.kind.value case ResetClear => c case ResetZero => z case Wake => w;
    LoopGrows(h.kind.value, h, lines, line);
    ScriptGrows(h.step, c, z, w, line);
    match h.kind.value
    case ResetClear => c' := c + [line];
    case ResetZero => z' := z + [line];
    case Wake => w' := w + [line];
  }

  lemma FixedStepTaken(h: FenderHost, seen: seq<string>, c: seq<string>, z: seq<string>, w: seq<string>, line: string)
    requires Taken(h, seen, c, z, w) && h.status == Running && h.kind.None? && h.step < 16
    ensures var h' := OnFixedLine(h, line).0;
            h'.status == Failed || Taken(h', seen + [line], c, z, w)
  {
    hide Script, ClosedLoop, MatchAfter, Text, Fixed, Expected;
    var h' := OnFixedLine(h, line).0;
    if h.step % 2 == 1 && MatchAfter(Fixed(h.step / 2).name, line).Some? {
      MatchAfterOnly(Fixed(h.step / 2).name, line);
    }
    if h'.status != Failed {
      assert line == FixedText(h.step);
      ScriptNext(h.step, c, z, w);
      LoopsStart(ResetClear);
      LoopsStart(ResetZero);
      LoopsStart(Wake);
    }
  }

  lemma ScriptNext(n: nat, c: seq<string>, z: seq<string>, w: seq<string>)
    requires n < 16 && (n == 3 ==> c == []) && (n == 5 ==> z == []) && (n == 15 ==> w == [])
    ensures Script(n + 1, c, z, w) == Script(n, c, z, w) + [FixedText(n)]
  {
    hide FixedText;
  }

  lemma LoopsStart(kind: Kind)
    ensures OpenLoop(kind, [], 0)
  {
  }

  /** ACCESS for a "before" line, nothing for any other. */
  function AnswerTo(line: string): seq<Reply> {
    if StartsWith(line, "stage=before-") then [ACCESS] else []
  }

  function AnswersTo(lines: seq<string>): seq<Reply> {
    if lines == [] then [] else AnswerTo(lines[0]) + AnswersTo(lines[1..])
  }

  lemma AfterIsNotBefore(rest: string)
    ensures !StartsWith("stage=after-" + rest, "stage=before-")
  {
    var line := "stage=after-" + rest;
    assert line[6] == 'a' && "stage=before-"[6] == 'b';
    if "stage=before-" <= line {
      PrefixAgrees("stage=before-", line);
    }
  }

  lemma BeforeIsBefore(rest: string)
    ensures StartsWith("stage=before-" + rest, "stage=before-")
  {
  }

  /** The kind's prefixes are those of "before" and "after" lines. */
  lemma PollPrefixes(kind: Kind, line: string)
    ensures StartsWith(line, BeforePrefix(kind)) ==> StartsWith(line, "stage=before-")
    ensures StartsWith(line, AfterPrefix(kind)) ==> !StartsWith(line, "stage=before-")
  {
    var name := KindName(kind);
    if StartsWith(line, BeforePrefix(kind)) {
      var rest := line[|BeforePrefix(kind)|..];
      assert line == "stage=before-" + (name + "-" + rest);
      BeforeIsBefore(name + "-" + rest);
    }
    if StartsWith(line, AfterPrefix(kind)) {
      var rest := line[|AfterPrefix(kind)|..];
      assert line == "stage=after-" + (name + "-" + rest);
      AfterIsNotBefore(name + "-" + rest);
    }
  }

  lemma AfterText(name: string, value: Word)
    ensures !StartsWith(Text(After(name, value)), "stage=before-")
  {
    var digits := Hex(value, 8);
    assert "stage=after-" + name + " value=0x" + digits == "stage=after-" + (name + " value=0x" + digits);
    AfterIsNotBefore(name + " value=0x" + digits);
  }

  lemma FixedPrefixes(n: nat)
    requires n < 16
    ensures StartsWith(FixedText(n), "stage=before-") <==> n % 2 == 0
  {
    hide Text, StartsWith, Fixed, Expected;
    var r := Fixed(n / 2);
    if n % 2 == 0 {
      BeforeIsStage(r.name, GPC_BASE + r.offset, r.op, r.value);
    } else {
      AfterText(r.name, Expected(n / 2));
    }
  }

  /** A line that is taken is answered for what it is, and one that is refused is not answered. */
  lemma Answered(h: FenderHost, line: string)
    requires HostOk(h) && h.status == Running && StartsWith(line, "stage=")
    ensures var (h', reply) := OnLine(h, line);
            (if reply.Some? then [reply.value] else []) == if h'.status == Failed then [] else AnswerTo(line)
  {
    hide StartsWith, BeforePrefix, AfterPrefix, PyInt16, AfterLastEquals, Reached, MatchAfter, Text, Fixed, Expected;
    if h.kind.Some? {
      PollPrefixes(h.kind.value, line);
    } else if h.step < 16 {
      if h.step % 2 == 1 && MatchAfter(Fixed(h.step / 2).name, line).Some? {
        MatchAfterOnly(Fixed(h.step / 2).name, line);
      }
      FixedPrefixes(h.step);
    } else {
      FinishedIsNotBefore();
    }
  }

  lemma FinishedIsNotBefore()
    ensures !StartsWith(Text(Finished(0)), "stage=before-")
  {
    CueOfFinished(0);
    hide CueOf, Text;
  }

  lemma StepTaken(h: FenderHost, seen: seq<string>, c: seq<string>, z: seq<string>, w: seq<string>, line: string)
      returns (c': seq<string>, z': seq<string>, w': seq<string>)
    requires Taken(h, seen, c, z, w) && h.status == Running && StartsWith(line, "stage=")
    ensures var h' := OnLine(h, line).0;
            h'.status == Failed || Taken(h', seen + [line], c', z', w')
  {
    hide Script, OpenLoop, ClosedLoop, OnPollLine, OnFixedLine, StartsWith, Text;
    c', z', w' := c, z, w;
    if h.kind.Some? {
      c', z', w' := PollStepTaken(h, seen, c, z, w, line);
    } else if h.step < 16 {
      FixedStepTaken(h, seen, c, z, w, line);
    }
  }

  function StageOnly(lines: seq<string>): seq<string> {
    if lines == [] then []
    else (if StartsWith(lines[0], "stage=") then [lines[0]] else []) + StageOnly(lines[1..])
  }

  /** What is known of a collector that ran on from a state that had taken `seen`: it took the stage lines among the
      first `n` lines and answered exactly those, and stopped there on its own only by failing at the next line or by
      returning. */
  ghost predicate RanOn(h: FenderHost, seen: seq<string>, lines: seq<string>,
                        n: nat, c: seq<string>, z: seq<string>, w: seq<string>) {
    && n <= |lines| && Answers(h, lines) == AnswersTo(StageOnly(lines[..n]))
    && var h' := Follow(h, lines);
       if h'.status == Failed then h.status == Failed || n < |lines|
       else Taken(h', seen + StageOnly(lines[..n]), c, z, w) && (h'.status == Returned || n == |lines|)
  }

  lemma {:induction false} FollowTakes(h: FenderHost, seen: seq<string>, c: seq<string>, z: seq<string>, w: seq<string>,
                                      lines: seq<string>)
      returns (n: nat, c': seq<string>, z': seq<string>, w': seq<string>)
    requires Taken(h, seen, c, z, w)
    ensures RanOn(h, seen, lines, n, c', z', w')
    decreases |lines|
  {
    hide OnLine, Taken, StartsWith, AnswerTo, AnswersTo, StageOnly, Text;
    n, c', z', w' := 0, c, z, w;
    NothingTaken(seen, lines);
    if lines != [] && h.status == Running {
      var line := lines[0];
      var h1 := OnLine(h, line).0;
      if StartsWith(line, "stage=") {
        TakenIsOk(h, seen, c, z, w);
        Answered(h, line);
        var c1, z1, w1 := StepTaken(h, seen, c, z, w, line);
        if h1.status != Failed {
          var m;
          m, c', z', w' := FollowTakes(h1, seen + [line], c1, z1, w1, lines[1..]);
          n := m + 1;
          TakeFirst(lines, m);
          assert seen + [line] + StageOnly(lines[1..][..m]) == seen + ([line] + StageOnly(lines[1..][..m]));
        } else {
          assert Answers(h1, lines[1..]) == [] && Follow(h1, lines[1..]) == h1;
        }
      } else {
        SkippedLine(h, line);
        var m;
        m, c', z', w' := FollowTakes(h, seen, c, z, w, lines[1..]);
        n := m + 1;
        TakeFirst(lines, m);
      }
    }
  }

  lemma NothingTaken(seen: seq<string>, lines: seq<string>)
    ensures seen + StageOnly(lines[..0]) == seen && AnswersTo(StageOnly(lines[..0])) == []
  {
  }

  lemma TakenIsOk(h: FenderHost, seen: seq<string>, c: seq<string>, z: seq<string>, w: seq<string>)
    requires Taken(h, seen, c, z, w)
    ensures HostOk(h)
  {
    hide HostOk;
  }

  lemma TakeFirst(lines: seq<string>, m: nat)
    requires lines != [] && m <= |lines[1..]|
    ensures var rest := StageOnly(lines[1..][..m]);
            if StartsWith(lines[0], "stage=") then
              StageOnly(lines[..m + 1]) == [lines[0]] + rest && AnswersTo([lines[0]] + rest) == AnswerTo(lines[0]) + AnswersTo(rest)
            else StageOnly(lines[..m + 1]) == rest
  {
    hide StartsWith, AnswerTo;
    assert lines[..m + 1][1..] == lines[1..][..m];
    var rest := StageOnly(lines[1..][..m]);
    assert ([lines[0]] + rest)[1..] == rest;
  }

  lemma SkippedLine(h: FenderHost, line: string)
    requires !StartsWith(line, "stage=")
    ensures OnLine(h, line) == (h, None)
  {
    hide StartsWith;
  }

  /** From any received text whatever, the host returns only when the stage lines it took are the eight
      fixed exchanges in order, each showing its expected value, with a completed poll loop of at most 64
      values after the reset, after the reset state and after the request, and the end with status 0. */
  lemma HostReturnsOnlyOnScript(lines: seq<string>)
      returns (n: nat, clear: seq<string>, zero: seq<string>, wake: seq<string>)
    ensures n <= |lines|
    ensures Follow(FRESH, lines).status == Returned ==>
              && StageOnly(lines[..n]) == Script(16, clear, zero, wake) + [Text(Finished(0))]
              && ClosedLoop(ResetClear, clear) && ClosedLoop(ResetZero, zero) && ClosedLoop(Wake, wake)
  {
    hide Script, ClosedLoop, OnLine, Text;
    FreshTaken();
    n, clear, zero, wake := FollowTakes(FRESH, [], [], [], [], lines);
    assert [] + StageOnly(lines[..n]) == StageOnly(lines[..n]);
  }

  /** From any received text whatever, failing or not, the answers sent are one ACCESS for each "before" line taken, in
      order, and nothing else. */
  lemma AnswersFollowLines(lines: seq<string>) returns (n: nat)
    ensures n <= |lines| && Answers(FRESH, lines) == AnswersTo(StageOnly(lines[..n]))
    ensures Follow(FRESH, lines).status == Failed ==> n < |lines|
    ensures Follow(FRESH, lines).status == Running ==> n == |lines|
  {
    hide Taken;
    FreshTaken();
    var c, z, w;
    n, c, z, w := FollowTakes(FRESH, [], [], [], [], lines);
  }

  lemma FreshTaken()
    ensures Taken(FRESH, [], [], [], [])
  {
  }

  // ---- Host and device together ---------------------------------------------------------------------------

  lemma {:induction false} HexHasNoEquals(p: string, s: string)
    requires p != "" && p[|p| - 1] == '='
    requires forall i :: 0 <= i < |s| ==> s[i] != '='
    ensures AfterLastEquals(p + s) == s
    decreases |s|
  {
    if s == "" {
      assert p + s == p;
    } else {
      var last := |s| - 1;
      HexHasNoEquals(p, s[..last]);
      assert (p + s)[..|p + s| - 1] == p + s[..last];
      assert s == s[..last] + [s[last]];
    }
  }

  lemma {:induction false} Value16OfHex(s: string)
    requires forall i :: 0 <= i < |s| ==> IsHexChar(s[i])
    ensures Value16(s) == ParseHex(s)
  {
    if s != "" {
      Value16OfHex(s[..|s| - 1]);
    }
  }

  lemma PyInt16OfHex(v: Word)
    ensures PyInt16("0x" + Hex(v, 8)) == Some(v)
  {
    hide Hex;
    var digits := Hex(v, 8);
    var s := "0x" + digits;
    assert s[0] == '0' && s[|s| - 1] == digits[7];
    assert TrimLeft(s) == s && TrimRight(s) == s;
    assert s[2] == digits[0] && s[2..] == digits;
    Value16OfHex(digits);
    Pow16Of8();
    ParseHexInvertsHex(v, 8);
  }

  lemma AfterLineValue(name: string, v: Word)
    ensures PyInt16(AfterLastEquals(Text(After(name, v)))) == Some(v)
  {
    hide PyInt16, Hex, AfterLastEquals;
    var p := "stage=after-" + name + " value=";
    var s := "0x" + Hex(v, 8);
    assert p[|p| - 1] == '=';
    HexHasNoEquals(p, s);
    assert "stage=after-" + name + " value=0x" + Hex(v, 8) == p + s by {
      assert " value=0x" == " value=" + "0x";
    }
    PyInt16OfHex(v);
  }

  lemma PollTexts(kind: Kind, i: nat, value: Word, rc: nat)
    ensures StartsWith(Text(BeforeReg(Poll(kind, i))), BeforePrefix(kind))
    ensures var t := Text(After(Poll(kind, i).name, value));
            !StartsWith(t, BeforePrefix(kind)) && StartsWith(t, AfterPrefix(kind))
    ensures var t := Text(Finished(rc));
            !StartsWith(t, BeforePrefix(kind)) && !StartsWith(t, AfterPrefix(kind))
  {
    hide Hex, MinHex, Dec2, KindName, Dec;
    var n := KindName(kind);
    var d := Dec2(i);
    assert "stage=before-" + (n + "-" + d) == BeforePrefix(kind) + d;
    assert "stage=after-" + (n + "-" + d) == AfterPrefix(kind) + d;
    var b := BeforePrefix(kind);
    var a := AfterPrefix(kind);
    assert b[6] == 'b' && a[6] == 'a';
    PrefixConcat(b, b, d);
    PrefixConcat(b, b + d, " address=0x");
    PrefixConcat(b, b + d + " address=0x", MinHex(GPC_BASE + 0x1000));
    PrefixConcat(b, b + d + " address=0x" + MinHex(GPC_BASE + 0x1000), " op=");
    PrefixConcat(b, b + d + " address=0x" + MinHex(GPC_BASE + 0x1000) + " op=", "read");
    PrefixConcat(b, b + d + " address=0x" + MinHex(GPC_BASE + 0x1000) + " op=" + "read", " value=0x");
    PrefixConcat(b, b + d + " address=0x" + MinHex(GPC_BASE + 0x1000) + " op=" + "read" + " value=0x", Hex(0, 8));
    PrefixConcat(a, a, d);
    PrefixConcat(a, a + d, " value=0x");
    PrefixConcat(a, a + d + " value=0x", Hex(value, 8));
    var t := Text(After(n + "-" + d, value));
    assert t[6] == 'a';
    var f := Text(Finished(rc));
    assert f[6] == 'f';
  }

  lemma {:induction false} FollowAppend(h: FenderHost, a: seq<string>, b: seq<string>)
    ensures Follow(h, a + b) == Follow(Follow(h, a), b)
    decreases |a|
  {
    hide OnLine;
    if a == [] {
      assert a + b == b;
    } else if h.status == Running {
      FollowAppend(OnLine(h, a[0]).0, a[1..], b);
      assert (a + b)[1..] == a[1..] + b;
    }
  }

  lemma FollowOne(h: FenderHost, text: string)
    requires h.status == Running
    ensures Follow(h, [text]) == OnLine(h, text).0
  {
    hide OnLine;
    assert [text][1..] == [];
    FollowNone(OnLine(h, text).0);
  }

  lemma FollowNone(h: FenderHost)
    ensures Follow(h, []) == h
  {
  }

  lemma FailedStays(h: FenderHost, lines: seq<string>)
    requires h.status == Failed
    ensures Follow(h, lines) == h
  {
  }

  /** The host reads the lines of a printed sequence one after the other. */
  lemma FollowPair(h: FenderHost, a: Line, b: Line)
    requires h.status == Running && OnLine(h, Text(a)).0.status == Running
    ensures Follow(h, TextsOf([a, b])) == OnLine(OnLine(h, Text(a)).0, Text(b)).0
  {
    hide OnLine, Text, Follow;
    assert TextsOf([a, b]) == [Text(a)] + [Text(b)];
    FollowAppend(h, [Text(a)], [Text(b)]);
    FollowOne(h, Text(a));
    FollowOne(OnLine(h, Text(a)).0, Text(b));
  }

  lemma RegLines(h: FenderHost, value: Word)
    requires h.status == Running && h.kind.None? && h.step < 16 && h.step % 2 == 0
    ensures var r := Fixed(h.step / 2);
            var h1 := h.(step := h.step + 1);
            && OnLine(h, Text(BeforeReg(r))).0 == h1
            && OnLine(h1, Text(Finished(1))).0.status == Failed
            && OnLine(h1, Text(After(r.name, value))).0 ==
               if value == Expected(h.step / 2) then h.(step := h.step + 2, kind := KindAfter(h.step / 2))
               else h1.(status := Failed)
  {
    hide Text, StartsWith, MatchAfter, Fixed, Expected;
    var r := Fixed(h.step / 2);
    DeviceLinesAreStage(r.name, GPC_BASE + r.offset, r.op, r.value, 1);
    DeviceLinesAreStage(r.name, 0, "", value, 1);
    MatchAfterText(r.name, value);
    FinishedIsNotAfter(r.name, 1);
  }

  /** A fixed access, as the host sees it. */
  lemma RegSeen(h: FenderHost, value: Word, acks: nat)
    requires h.status == Running && h.kind.None? && h.step < 16 && h.step % 2 == 0
    ensures var i := h.step / 2;
            var p := Access(Fixed(i), value, acks);
            if p.ok && value == Expected(i) then
              Follow(h, TextsOf(p.lines)) == h.(step := h.step + 2, kind := KindAfter(i))
            else Follow(h, TextsOf(p.lines + [Finished(1)])).status == Failed
  {
    hide Text, OnLine, Fixed, Expected, BeforeReg, Follow;
    var i := h.step / 2;
    var r := Fixed(i);
    RegLines(h, value);
    FollowPair(h, BeforeReg(r), After(r.name, value));
    FollowPair(h, BeforeReg(r), Finished(1));
    AccessAsPart(r, value, acks);
    var p := Access(r, value, acks);
    if acks > 0 {
      TextsOfAppend(p.lines, [Finished(1)]);
      FollowAppend(h, TextsOf(p.lines), TextsOf([Finished(1)]));
      if value != Expected(i) {
        FailedStays(Follow(h, TextsOf(p.lines)), TextsOf([Finished(1)]));
      }
    } else {
      assert p.lines + [Finished(1)] == [BeforeReg(r), Finished(1)];
    }
  }

  lemma PollLinesSeen(h: FenderHost, kind: Kind, i: nat, value: Word)
    requires h.status == Running && h.kind == Some(kind)
    ensures var r := Poll(kind, i);
            && OnLine(h, Text(BeforeReg(r))).0 == h
            && OnLine(h, Text(Finished(1))).0.status == Failed
            && OnLine(h, Text(After(r.name, value))).0 ==
               if Reached(kind, value) then h.(kind := None, count := 0)
               else if h.count >= 63 then h.(status := Failed)
               else h.(count := h.count + 1)
  {
    hide Text, StartsWith, Poll, PyInt16, AfterLastEquals, Reached, BeforePrefix, AfterPrefix;
    var r := Poll(kind, i);
    DeviceLinesAreStage(r.name, GPC_BASE + r.offset, r.op, r.value, 1);
    DeviceLinesAreStage(r.name, 0, "", value, 1);
    PollTexts(kind, i, value, 1);
    AfterLineValue(r.name, value);
  }

  /** From poll `i` on, with the host's counter at `i` too. */
  lemma {:induction false} PollsSeen(h: FenderHost, kind: Kind, i: nat, polls: Polls, acks: nat)
    requires i < POLL_LIMIT
    requires h.status == Running && h.kind == Some(kind) && h.count == i
    ensures var p := PollPart(kind, i, polls, acks);
            if p.ok then Follow(h, TextsOf(p.lines)) == h.(kind := None, count := 0)
            else Follow(h, TextsOf(p.lines + [Finished(1)])).status == Failed
    decreases POLL_LIMIT - i
  {
    hide Text, OnLine, Poll, BeforeReg, Follow, Reached, TextsOf, PollPart, Exchange;
    var r := Poll(kind, i);
    PollLinesSeen(h, kind, i, polls[i]);
    FollowPair(h, BeforeReg(r), After(r.name, polls[i]));
    FollowPair(h, BeforeReg(r), Finished(1));
    PollUnfolds(kind, i, polls, acks);
    AccessAsPart(r, polls[i], acks);
    var a := Access(r, polls[i], acks);
    if acks > 0 && !Reached(kind, polls[i]) {
      var rest := PollPart(kind, i + 1, polls, a.left);
      TextsOfAppend(a.lines, rest.lines);
      FollowAppend(h, TextsOf(a.lines), TextsOf(rest.lines));
      assert a.lines + rest.lines + [Finished(1)] == a.lines + (rest.lines + [Finished(1)]);
      TextsOfAppend(a.lines, rest.lines + [Finished(1)]);
      FollowAppend(h, TextsOf(a.lines), TextsOf(rest.lines + [Finished(1)]));
      if i + 1 < POLL_LIMIT {
        PollsSeen(h.(count := i + 1), kind, i + 1, polls, a.left);
      } else {
        PollEnds(kind, polls, a.left);
        FailedStays(Follow(h, TextsOf(a.lines)), TextsOf(rest.lines + [Finished(1)]));
      }
    } else if acks == 0 {
      assert a.lines + [Finished(1)] == [BeforeReg(r), Finished(1)];
    }
  }

  /** The host's variables when the program stands before stage `k`. */
  function HostAt(k: nat): FenderHost
    requires k <= ITEMS
  {
    var step := if k <= 2 then 2 * k else if k == 3 then 4 else if k <= 5 then 6 else if k < 10 then 2 * k - 4 else 16;
    FenderHost(step, if k < ITEMS && ItemAt(k).Loop? then Some(ItemAt(k).kind) else None, 0, Running)
  }

  lemma ItemSeen(k: nat, r: Readings, acks: nat)
    requires k < ITEMS
    ensures var p := ItemPart(k, r, acks);
            if p.ok then Follow(HostAt(k), TextsOf(p.lines)) == HostAt(k + 1)
            else Follow(HostAt(k), TextsOf(p.lines + [Finished(1)])).status == Failed
  {
    hide Follow, TextsOf, Access, Fixed, Expected, Reading, PollPart;
    match ItemAt(k)
    case Reg(i) =>
      RegSeen(HostAt(k), Reading(i, r), acks);
    case Loop(kind) =>
      PollsSeen(HostAt(k), kind, 0, PollsOf(kind, r), acks);
  }

  lemma {:induction false} RunSeen(k: nat, r: Readings, acks: nat)
    requires k <= ITEMS
    ensures var t := Ended(RunFrom(k, r, acks));
            Follow(HostAt(k), TextsOf(t.lines)).status == if t.rc == 0 then Returned else Failed
    decreases ITEMS - k
  {
    hide Follow, TextsOf, ItemPart, OnLine, HostAt;
    if k == ITEMS {
      assert RunFrom(k, r, acks).lines + [Finished(0)] == [Finished(0)];
      EndSeen();
    } else {
      ItemSeen(k, r, acks);
      var p := ItemPart(k, r, acks);
      if p.ok {
        RunSeen(k + 1, r, p.left);
        var rest := Ended(RunFrom(k + 1, r, p.left));
        assert Ended(RunFrom(k, r, acks)).lines == p.lines + rest.lines;
        TextsOfAppend(p.lines, rest.lines);
        FollowAppend(HostAt(k), TextsOf(p.lines), TextsOf(rest.lines));
      }
    }
  }

  lemma EndSeen()
    ensures Follow(HostAt(ITEMS), TextsOf([Finished(0)])).status == Returned
  {
    hide Text, StartsWith;
    DeviceLinesAreStage("", 0, "", 0, 0);
    assert TextsOf([Finished(0)]) == [Text(Finished(0))];
    FollowOne(HostAt(ITEMS), Text(Finished(0)));
  }

  /** Host and device agree on every run: for every reading the hardware gives and however many answers
      arrive, the host returns exactly when the program exits with status 0. The two poll counters are equal
      at every poll (`PollsSeen`), so both give up at the same 64th value. */
  lemma HostAgreesWithDevice(r: Readings, acks: nat)
    ensures var t := DeviceTrace(r, acks);
            Follow(FRESH, TextsOf(t.lines)).status == if t.rc == 0 then Returned else Failed
  {
    hide Follow, TextsOf, RunFrom;
    RunSeen(0, r, acks);
    assert HostAt(0) == FRESH;
  }

  /** A returned host has seen what happened: the program then did the whole prelude of `RequestGuarded` and the wake
      polls up to the first that ended the loop, and nothing else. */
  lemma ReturnedMeansDone(r: Readings, acks: nat)
    requires Follow(FRESH, TextsOf(DeviceTrace(r, acks).lines)).status == Returned
    ensures Prepared(r) && FirstReached(Wake, 0, r.wake) < POLL_LIMIT
    ensures DeviceTrace(r, acks).touches == Prelude(r) + PollTouches(Polled(Wake, 0, r.wake))
  {
    hide Follow, TextsOf, DeviceTrace, Prelude, Prepared, FirstReached, Polled, PollTouches;
    HostAgreesWithDevice(r, acks);
    DeviceSucceeds(r, acks);
  }
}
