/** GPC state-1 request: the device program with its bounded poll loop, and the host collector that
    follows it. boot/gpu-gpc-init.c:15-90, boot/gpu_gpc_init_capture.py:10-127. */
module GpcInit {
  import opened Common
  import opened CheckpointText
  import opened CheckpointFraming
  import opened BridgeHost
  import opened RegisterAccess

  const POLL_LIMIT := 64

  function Fixed(i: nat): Register
    requires i < 4
  {
    if i == 0 then Register("initial-state", 0x1000, "read", 0)
    else if i == 1 then Register("setup-mask", 0x10000, "write", 0xffff0000)
    else if i == 2 then Register("setup-control", 0, "write", 0x40000000)
    else Register("request-state", 0x1000, "write", 0x11)
  }

  function Poll(i: nat): Register {
    Register("poll-" + Dec2(i), 0x1000, "read", 0)
  }

  predicate Granted(value: Word) {
    !Busy(value) && value % 16 == 1
  }

  /** Bit 4 clear and the low nibble 1. */
  lemma GrantedIs(value: Word)
    ensures Granted(value) <==> value % 32 == 1
  {
    BusyIsBit4(value, value / 32, value % 16);
  }

  // ---- The device program -----------------------------------------------------------------------------

  /** The poll loop from iteration `i`, reading `polls[i]` each time. */
  function PollTrace(i: nat, polls: seq<Word>, acks: nat): Trace
    requires |polls| == POLL_LIMIT && i <= POLL_LIMIT
    decreases POLL_LIMIT - i
  {
    if i == POLL_LIMIT then FAILED
    else
      AccessThen(Poll(i), polls[i], acks,
        if !Busy(polls[i]) then
          var rc := if polls[i] % 16 == 1 then 0 else 1;
          Trace([Finished(rc)], [], rc)
        else PollTrace(i + 1, polls, if acks == 0 then 0 else acks - 1))
  }

  /** The three setup writes from number `i`, then the polls. */
  function SetupTrace(i: nat, polls: seq<Word>, acks: nat): Trace
    requires |polls| == POLL_LIMIT && 1 <= i <= 4
    decreases 4 - i
  {
    if i == 4 then PollTrace(0, polls, acks)
    else AccessThen(Fixed(i), Fixed(i).value, acks, SetupTrace(i + 1, polls, if acks == 0 then 0 else acks - 1))
  }

  /** The whole program: `initial` and `polls` are what the state register reads, `acks` how many ACCESS
      answers arrive before the input ends. */
  function DeviceTrace(initial: Word, polls: seq<Word>, acks: nat): Trace
    requires |polls| == POLL_LIMIT
  {
    AccessThen(Fixed(0), initial, acks,
      if initial != 0 then FAILED else SetupTrace(1, polls, if acks == 0 then 0 else acks - 1))
  }

  method GpcInitMain(initial: Word, polls: seq<Word>, acks: nat) returns (rc: nat, lines: seq<Line>, touches: seq<Touch>)
    requires |polls| == POLL_LIMIT
    ensures Trace(lines, touches, rc) == DeviceTrace(initial, polls, acks)
  {
    hide PollTrace, SetupTrace, Dec2;
    ghost var goal := DeviceTrace(initial, polls, acks);
    rc := 1;
    var left := acks;
    var ok, value;
    ok, lines, touches, value := AccessReg(Fixed(0), initial, left);
    if !ok || value != 0 {
      lines := lines + [Finished(1)];
      return;
    }
    left := left - 1;
    assert goal == Then(lines, touches, SetupTrace(1, polls, left));
    var more, done;
    SetupStep(goal, lines, touches, 1, polls, left);
    ok, more, done, value := AccessReg(Fixed(1), 0, left);
    lines, touches := lines + more, touches + done;
    if !ok {
      lines := lines + [Finished(1)];
      return;
    }
    left := left - 1;
    SetupStep(goal, lines, touches, 2, polls, left);
    ok, more, done, value := AccessReg(Fixed(2), 0, left);
    lines, touches := lines + more, touches + done;
    if !ok {
      lines := lines + [Finished(1)];
      return;
    }
    left := left - 1;
    SetupStep(goal, lines, touches, 3, polls, left);
    ok, more, done, value := AccessReg(Fixed(3), 0, left);
    lines, touches := lines + more, touches + done;
    if !ok {
      lines := lines + [Finished(1)];
      return;
    }
    left := left - 1;
    SetupUnfolds(4, polls, left);
    for i := 0 to POLL_LIMIT
      invariant goal == Then(lines, touches, PollTrace(i, polls, left))
    {
      PollUnfolds(i, polls, left);
      ok, more, done, value := AccessReg(Poll(i), polls[i], left);
      ghost var rest := if !Busy(polls[i]) then
                          var status := if polls[i] % 16 == 1 then 0 else 1; Trace([Finished(status)], [], status)
                        else PollTrace(i + 1, polls, if left == 0 then 0 else left - 1);
      ThenThen(lines, touches, more, done, rest);
      ThenThen(lines, touches, more, done, FAILED);
      lines, touches := lines + more, touches + done;
      if !ok {
        lines := lines + [Finished(1)];
        return;
      }
      left := left - 1;
      if value / 16 % 2 == 0 {
        if value % 16 == 1 {
          rc := 0;
        }
        lines := lines + [Finished(rc)];
        return;
      }
    }
    PollUnfolds(POLL_LIMIT, polls, left);
    lines := lines + [Finished(1)];
  }

  /** The next setup write, in the position the program has reached. */
  lemma SetupStep(goal: Trace, lines: seq<Line>, touches: seq<Touch>, i: nat, polls: seq<Word>, left: nat)
    requires |polls| == POLL_LIMIT && 1 <= i < 4
    requires goal == Then(lines, touches, SetupTrace(i, polls, left))
    ensures left == 0 ==> goal == Then(lines + [BeforeReg(Fixed(i))], touches, FAILED)
    ensures left > 0 ==>
              goal == Then(lines + Exchange(Fixed(i), Fixed(i).value),
                           touches + [Touch(Fixed(i).offset, Fixed(i).op, Fixed(i).value)], SetupTrace(i + 1, polls, left - 1))
  {
    hide PollTrace, Fixed;
    SetupUnfolds(i, polls, left);
    var r := Fixed(i);
    ThenThen(lines, touches, [BeforeReg(r)], [], FAILED);
    ThenThen(lines, touches, Exchange(r, r.value), [Touch(r.offset, r.op, r.value)],
             SetupTrace(i + 1, polls, if left == 0 then 0 else left - 1));
    assert touches + [] == touches;
  }

  lemma SetupUnfolds(i: nat, polls: seq<Word>, acks: nat)
    requires |polls| == POLL_LIMIT && 1 <= i <= 4
    ensures SetupTrace(i, polls, acks) ==
            if i == 4 then PollTrace(0, polls, acks)
            else AccessThen(Fixed(i), Fixed(i).value, acks, SetupTrace(i + 1, polls, if acks == 0 then 0 else acks - 1))
  {
  }

  lemma PollUnfolds(i: nat, polls: seq<Word>, acks: nat)
    requires |polls| == POLL_LIMIT && i <= POLL_LIMIT
    ensures PollTrace(i, polls, acks) ==
            if i == POLL_LIMIT then FAILED
            else AccessThen(Poll(i), polls[i], acks,
              if !Busy(polls[i]) then
                var rc := if polls[i] % 16 == 1 then 0 else 1; Trace([Finished(rc)], [], rc)
              else PollTrace(i + 1, polls, if acks == 0 then 0 else acks - 1))
  {
  }

  // ---- The host -----------------------------------------------------------------------------------------

  /** The local variables of `capture`. */
  datatype GpcHost = GpcHost(wd: nat, stage: nat, poll: nat, feeds: nat, value: Word, status: Status)

  const FRESH := GpcHost(0, 0, 0, 0, 0, Running)
  const DONE_STAGE := 1000

  function Current(h: GpcHost): Register
    requires h.stage >= 2
  {
    var index := (h.stage - 2) / 2;
    if index < 4 then Fixed(index) else Poll(h.poll)
  }

  function Fed(supervised: bool, h: GpcHost): (GpcHost, Option<Reply>) {
    if supervised then (h.(feeds := h.feeds + 1), Some(FEED(h.feeds + 1))) else (h, None)
  }

  /** What an accepted "after" line does to the collector. */
  function OnAfter(supervised: bool, h: GpcHost, value: Word): (GpcHost, Option<Reply>)
    requires h.stage >= 2
  {
    var index := (h.stage - 2) / 2;
    var h1 := h.(value := value);
    if index < 4 then
      if value != Current(h).value then (h1.(status := Failed), None) else Fed(supervised, h1.(stage := h.stage + 1))
    else if Busy(value) then
      if h.poll + 1 >= POLL_LIMIT then (h1.(poll := h.poll + 1, status := Failed), None)
      else Fed(supervised, h1.(poll := h.poll + 1, stage := h.stage - 2 + 1))
    else if value % 16 != 1 then (h1.(status := Failed), None)
    else Fed(supervised, h1.(stage := DONE_STAGE))
  }

  /** One pass of the loop body; `quiet` says that no further stage text was buffered. */
  function OnLine(supervised: bool, h: GpcHost, line: string, quiet: bool): (GpcHost, Option<Reply>) {
    var fail := (h.(status := Failed), None);
    if !StartsWith(line, "stage=") then (h, None)
    else if supervised && h.wd < 2 then
      if h.wd == 0 && line == Text(WatchdogOpen) then (h.(wd := 1), Some(ARM))
      else if h.wd == 1 && line == Text(WatchdogArmed) then (h.(wd := 2), None)
      else fail
    else if supervised && h.wd >= 3 then
      if line != Text(WatchdogDisarmed) then fail else (h.(status := Returned), None)
    else if h.stage == 0 then
      if line != Text(BeforePmgr) || !quiet then fail else (h.(stage := 1), Some(READ))
    else if h.stage == 1 then
      if line != PmgrAfterText() then fail else Fed(supervised, h.(stage := 2))
    else if h.stage == DONE_STAGE then
      if line != Text(Finished(0)) then fail
      else if supervised then (h.(wd := 3), None)
      else (h.(status := Returned), None)
    else
      var r := Current(h);
      if h.stage % 2 == 0 then
        if line != Text(BeforeReg(r)) || !quiet then fail else (h.(stage := h.stage + 1), Some(ACCESS))
      else
        match MatchAfter(r.name, line)
        case None => fail
        case Some(value) => if value >= 0x1_0000_0000 then fail else OnAfter(supervised, h, value)
  }

  /** A line as received, with the buffer test that goes with it. */
  type Received = (string, bool)

  function Follow(supervised: bool, h: GpcHost, lines: seq<Received>): GpcHost
    decreases |lines|
  {
    if lines == [] || h.status != Running then h
    else Follow(supervised, OnLine(supervised, h, lines[0].0, lines[0].1).0, lines[1..])
  }

  /** What the collector sends while it follows the lines. */
  function Answers(supervised: bool, h: GpcHost, lines: seq<Received>): seq<Reply>
    decreases |lines|
  {
    if lines == [] || h.status != Running then []
    else
      var (h', reply) := OnLine(supervised, h, lines[0].0, lines[0].1);
      (if reply.Some? then [reply.value] else []) + Answers(supervised, h', lines[1..])
  }

  /** `capture`, with its local variables and its loop. */
  method Capture(supervised: bool, lines: seq<Received>) returns (result: Option<Word>, sent: seq<Reply>)
    ensures var h := Follow(supervised, FRESH, lines);
            result == if h.status == Returned then Some(h.value) else None
    ensures sent == Answers(supervised, FRESH, lines)
  {
    hide OnLine;
    var h := FRESH;
    var i := 0;
    sent := [];
    while i < |lines| && h.status == Running
      invariant 0 <= i <= |lines| && Follow(supervised, FRESH, lines) == Follow(supervised, h, lines[i..])
      invariant sent + Answers(supervised, h, lines[i..]) == Answers(supervised, FRESH, lines)
    {
      assert lines[i..][0] == lines[i] && lines[i..][1..] == lines[i + 1..];
      var (h', reply) := OnLine(supervised, h, lines[i].0, lines[i].1);
      ghost var was, rest := sent, Answers(supervised, h', lines[i + 1..]);
      if reply.Some? {
        sent := sent + [reply.value];
      }
      assert sent + rest == was + ((if reply.Some? then [reply.value] else []) + rest);
      h := h';
      i := i + 1;
    }
    result := if h.status == Returned then Some(h.value) else None;
  }

  // ---- What the host accepts --------------------------------------------------------------------------

  function PollLines(i: nat, values: seq<Word>): seq<Line>
    decreases |values|
  {
    if values == [] then [] else Exchange(Poll(i), values[0]) + PollLines(i + 1, values[1..])
  }

  lemma {:induction false} PollLinesAppend(i: nat, values: seq<Word>, v: Word)
    ensures PollLines(i, values + [v]) == PollLines(i, values) + Exchange(Poll(i + |values|), v)
    decreases |values|
  {
    hide Poll;
    if values == [] {
      assert values + [v] == [v] && PollLines(i + 1, []) == [];
    } else {
      PollLinesAppend(i + 1, values[1..], v);
      assert (values + [v])[1..] == values[1..] + [v];
    }
  }

  function Opening(supervised: bool): seq<Line> {
    if supervised then [WatchdogOpen, WatchdogArmed] else []
  }

  /** The twelve lines before the polls: PMGR, then the initial state and the three setup writes. */
  function SetupLines(): seq<Line> {
    [BeforePmgr, AfterPmgr(0x3ff)] + Exchange(Fixed(0), 0) + Exchange(Fixed(1), 0xffff0000) + Exchange(Fixed(2), 0x40000000)
    + Exchange(Fixed(3), 0x11)
  }

  /** The stage lines the collector has taken, as a function of its variables and the values polled. */
  ghost predicate Taken(supervised: bool, h: GpcHost, seen: seq<Line>, polled: seq<Word>) {
    && HostInRange(supervised, h)
    && h.feeds == (if supervised then AfterCount(h, polled) else 0)
    && if supervised && h.wd < 2 then seen == Opening(true)[..h.wd] && polled == [] && h.poll == 0
       else if h.stage < 10 then seen == Opening(supervised) + SetupLines()[..h.stage] && polled == [] && h.poll == 0
       else if h.stage == DONE_STAGE then
         && polled != [] && |polled| <= POLL_LIMIT && AllBusy(polled[..|polled| - 1])
         && h.value == polled[|polled| - 1] && Granted(h.value)
         && seen == Opening(supervised) + SetupLines() + PollLines(0, polled) + Ending(supervised, h)
       else
         && AllBusy(polled) && h.poll == |polled| < POLL_LIMIT
         && seen == Opening(supervised) + SetupLines() + PollLines(0, polled)
                    + (if h.stage == 11 then [BeforeReg(Poll(h.poll))] else [])
  }

  function Ending(supervised: bool, h: GpcHost): seq<Line> {
    if !supervised then (if h.status == Returned then [Finished(0)] else [])
    else (if h.wd >= 3 then [Finished(0)] else []) + (if h.status == Returned then [WatchdogDisarmed] else [])
  }

  /** "After" lines accepted so far. */
  function AfterCount(h: GpcHost, polled: seq<Word>): nat {
    if h.stage < 10 then h.stage / 2 else 5 + |polled|
  }

  /** `stage` is 0..11 or the sentinel. */
  predicate HostInRange(supervised: bool, h: GpcHost) {
    && (h.stage <= 11 || h.stage == DONE_STAGE)
    && (supervised ==> h.wd <= 3 && (h.wd < 2 ==> h.stage == 0) && (h.wd == 3 ==> h.stage == DONE_STAGE))
    && (!supervised ==> h.wd == 0)
    && (h.status == Returned ==> h.stage == DONE_STAGE && (supervised ==> h.wd == 3))
  }

  lemma SetupLineAt(k: nat)
    requires k < 10
    ensures |SetupLines()| == 10
    ensures SetupLines()[..k + 1] == SetupLines()[..k] + [SetupLines()[k]]
    ensures SetupLines()[k] == if k == 0 then BeforePmgr else if k == 1 then AfterPmgr(0x3ff)
                               else if k % 2 == 0 then BeforeReg(Fixed((k - 2) / 2))
                               else After(Fixed((k - 2) / 2).name, Fixed((k - 2) / 2).value)
  {
    assert |SetupLines()| == 10;
  }

  predicate IsAfter(line: Line) {
    line.AfterPmgr? || line.After?
  }

  /** The answer to an accepted line, when `fed` "after" lines have been accepted before it. */
  function AnswerTo(supervised: bool, line: Line, fed: nat): seq<Reply> {
    match line
    case WatchdogOpen => [ARM]
    case BeforePmgr => [READ]
    case Before(_, _, _, _) => [ACCESS]
    case AfterPmgr(_) => if supervised then [FEED(fed + 1)] else []
    case After(_, _) => if supervised then [FEED(fed + 1)] else []
    case _ => []
  }

  /** The answers to a transcript, line by line: ARM, READ, ACCESS after each other "before" line, and FEED 1, 2, 3 and
      so on after the "after" lines. */
  function AnswersTo(supervised: bool, lines: seq<Line>, fed: nat): seq<Reply>
    decreases |lines|
  {
    if lines == [] then []
    else AnswerTo(supervised, lines[0], fed) + AnswersTo(supervised, lines[1..], if IsAfter(lines[0]) then fed + 1 else fed)
  }

  /** One line: refused without an answer, or the text is a printed line, and it is the next one, and the answer is the
      one to it. */
  ghost predicate StepTaken(supervised: bool, h: GpcHost, seen: seq<Line>, polled: seq<Word>, text: string, quiet: bool,
                            line: Line, polled': seq<Word>) {
    var (h', reply) := OnLine(supervised, h, text, quiet);
    if h'.status == Failed then reply == None
    else
      && text == Text(line) && Taken(supervised, h', seen + [line], polled')
      && (if reply.Some? then [reply.value] else []) == AnswerTo(supervised, line, AfterCount(h, polled))
      && AfterCount(h', polled') == AfterCount(h, polled) + if IsAfter(line) then 1 else 0
  }

  lemma OpeningStep(h: GpcHost, seen: seq<Line>, polled: seq<Word>, text: string, quiet: bool) returns (line: Line)
    requires Taken(true, h, seen, polled) && h.status == Running && h.wd < 2 && StartsWith(text, "stage=")
    ensures StepTaken(true, h, seen, polled, text, quiet, line, polled)
  {
    hide Text, StartsWith, MatchAfter, Fixed, SetupLines, PollLines;
    line := if h.wd == 0 then WatchdogOpen else WatchdogArmed;
    SetupLineAt(0);
  }

  lemma PmgrStep(supervised: bool, h: GpcHost, seen: seq<Line>, polled: seq<Word>, text: string, quiet: bool)
      returns (line: Line)
    requires Taken(supervised, h, seen, polled) && h.status == Running && h.stage < 2 && (supervised ==> h.wd == 2)
    requires StartsWith(text, "stage=")
    ensures StepTaken(supervised, h, seen, polled, text, quiet, line, polled)
  {
    hide Text, StartsWith, MatchAfter, PmgrAfterText, Fixed, SetupLines, PollLines;
    SetupLineAt(h.stage);
    PmgrAfterTextIs3ff();
    line := SetupLines()[h.stage];
    assert seen + [line] == Opening(supervised) + SetupLines()[..h.stage + 1];
    var h' := OnLine(supervised, h, text, quiet).0;
    if h'.status != Failed {
      assert h'.stage == h.stage + 1 < 10 && polled == [];
      assert text == Text(line);
      assert h'.feeds == (if supervised then AfterCount(h', []) else 0);
    }
  }

  lemma FixedStep(supervised: bool, h: GpcHost, seen: seq<Line>, polled: seq<Word>, text: string, quiet: bool)
      returns (line: Line)
    requires Taken(supervised, h, seen, polled) && h.status == Running && 2 <= h.stage < 10 && (supervised ==> h.wd == 2)
    requires StartsWith(text, "stage=")
    ensures StepTaken(supervised, h, seen, polled, text, quiet, line, polled)
  {
    hide Text, StartsWith, MatchAfter, Dec2, Fixed, SetupLines, PollLines;
    SetupLineAt(h.stage);
    line := SetupLines()[h.stage];
    var name := Current(h).name;
    if h.stage % 2 == 1 && MatchAfter(name, text).Some? {
      MatchAfterOnly(name, text);
    }
    assert seen + [line] == Opening(supervised) + SetupLines()[..h.stage + 1];
    assert SetupLines()[..10] == SetupLines() && PollLines(0, []) == [] by {
      SetupLineAt(0);
      PollLinesNone();
    }
  }

  lemma PollLinesNone()
    ensures PollLines(0, []) == []
  {
  }

  lemma PollBeforeStep(supervised: bool, h: GpcHost, seen: seq<Line>, polled: seq<Word>, text: string, quiet: bool)
    requires Taken(supervised, h, seen, polled) && h.status == Running && h.stage == 10 && (supervised ==> h.wd == 2)
    requires StartsWith(text, "stage=")
    ensures StepTaken(supervised, h, seen, polled, text, quiet, BeforeReg(Poll(h.poll)), polled)
  {
    hide Text, StartsWith, MatchAfter, Dec2, Fixed, SetupLines, PollLines, Poll, OnAfter;
  }

  lemma PollAfterStep(supervised: bool, h: GpcHost, seen: seq<Line>, polled: seq<Word>, text: string, quiet: bool)
      returns (line: Line, polled': seq<Word>)
    requires Taken(supervised, h, seen, polled) && h.status == Running && h.stage == 11 && (supervised ==> h.wd == 2)
    requires StartsWith(text, "stage=")
    ensures StepTaken(supervised, h, seen, polled, text, quiet, line, polled')
  {
    hide Text, StartsWith, MatchAfter, Dec2, Fixed, SetupLines, PollLines, Poll;
    var name := Current(h).name;
    line, polled' := BeforeReg(Poll(h.poll)), polled;
    if MatchAfter(name, text).Some? {
      MatchAfterOnly(name, text);
      var v := MatchAfter(name, text).value;
      line, polled' := After(name, v), polled + [v];
      PollLinesAppend(0, polled, v);
      assert polled'[..|polled'| - 1] == polled;
    }
  }

  lemma PollStep(supervised: bool, h: GpcHost, seen: seq<Line>, polled: seq<Word>, text: string, quiet: bool)
      returns (line: Line, polled': seq<Word>)
    requires Taken(supervised, h, seen, polled) && h.status == Running && 10 <= h.stage <= 11 && (supervised ==> h.wd == 2)
    requires StartsWith(text, "stage=")
    ensures StepTaken(supervised, h, seen, polled, text, quiet, line, polled')
  {
    hide StepTaken, Taken, StartsWith, Poll;
    if h.stage == 10 {
      PollBeforeStep(supervised, h, seen, polled, text, quiet);
      line, polled' := BeforeReg(Poll(h.poll)), polled;
    } else {
      line, polled' := PollAfterStep(supervised, h, seen, polled, text, quiet);
    }
  }

  lemma EndStep(supervised: bool, h: GpcHost, seen: seq<Line>, polled: seq<Word>, text: string, quiet: bool)
      returns (line: Line)
    requires Taken(supervised, h, seen, polled) && h.status == Running && h.stage == DONE_STAGE
    requires StartsWith(text, "stage=")
    ensures StepTaken(supervised, h, seen, polled, text, quiet, line, polled)
  {
    hide Text, StartsWith, MatchAfter, Fixed, SetupLines, PollLines;
    line := if supervised && h.wd == 3 then WatchdogDisarmed else Finished(0);
  }

  lemma HostStep(supervised: bool, h: GpcHost, seen: seq<Line>, polled: seq<Word>, text: string, quiet: bool)
      returns (line: Line, polled': seq<Word>)
    requires Taken(supervised, h, seen, polled) && h.status == Running && StartsWith(text, "stage=")
    ensures StepTaken(supervised, h, seen, polled, text, quiet, line, polled')
  {
    hide StepTaken, Opening, SetupLines, PollLines, StartsWith, Ending;
    polled' := polled;
    if supervised && h.wd < 2 {
      line := OpeningStep(h, seen, polled, text, quiet);
    } else if h.stage < 2 {
      line := PmgrStep(supervised, h, seen, polled, text, quiet);
    } else if h.stage < 10 {
      line := FixedStep(supervised, h, seen, polled, text, quiet);
    } else if h.stage <= 11 {
      line, polled' := PollStep(supervised, h, seen, polled, text, quiet);
    } else {
      line := EndStep(supervised, h, seen, polled, text, quiet);
    }
  }

  /** The stage lines among what was received: everything else is skipped. */
  function StageOnly(lines: seq<Received>): seq<string> {
    if lines == [] then []
    else (if StartsWith(lines[0].0, "stage=") then [lines[0].0] else []) + StageOnly(lines[1..])
  }

  /** What is known of a collector that ran on from a state that had taken `seen`: it looked at the first `n` lines and
      took `more` of them, and answered exactly those; it stopped there on its own only by failing at the next line
      or by returning. */
  ghost predicate RanOn(supervised: bool, h: GpcHost, seen: seq<Line>, polled: seq<Word>, lines: seq<Received>,
                        n: nat, more: seq<Line>, polled': seq<Word>) {
    && n <= |lines| && StageOnly(lines[..n]) == TextsOf(more)
    && Answers(supervised, h, lines) == AnswersTo(supervised, more, AfterCount(h, polled))
    && var h' := Follow(supervised, h, lines);
       if h'.status == Failed then h.status == Failed || n < |lines|
       else Taken(supervised, h', seen + more, polled') && (h'.status == Returned || n == |lines|)
  }

  lemma NothingTaken(supervised: bool, lines: seq<Received>, fed: nat)
    ensures StageOnly(lines[..0]) == TextsOf([]) && AnswersTo(supervised, [], fed) == []
  {
  }

  lemma {:induction false} FollowTakes(supervised: bool, h: GpcHost, seen: seq<Line>, polled: seq<Word>, lines: seq<Received>)
      returns (n: nat, more: seq<Line>, polled': seq<Word>)
    requires Taken(supervised, h, seen, polled)
    ensures RanOn(supervised, h, seen, polled, lines, n, more, polled')
    decreases |lines|
  {
    hide Text, OnLine, Taken, StartsWith, AfterCount, AnswerTo, StageOnly, TextsOf, AnswersTo;
    n, more, polled' := 0, [], polled;
    NothingTaken(supervised, lines, AfterCount(h, polled));
    assert seen + [] == seen;
    if lines != [] && h.status == Running {
      var text, quiet := lines[0].0, lines[0].1;
      var h1 := OnLine(supervised, h, text, quiet).0;
      if StartsWith(text, "stage=") {
        var l, p := HostStep(supervised, h, seen, polled, text, quiet);
        if h1.status != Failed {
          var m, rest;
          m, rest, polled' := FollowTakes(supervised, h1, seen + [l], p, lines[1..]);
          n, more := m + 1, [l] + rest;
          TookFirst(supervised, lines, m, l, rest, AfterCount(h, polled));
          assert seen + more == seen + [l] + rest;
        } else {
          assert Answers(supervised, h1, lines[1..]) == [] && Follow(supervised, h1, lines[1..]) == h1;
        }
      } else {
        SkippedLine(supervised, h, text, quiet);
        var m;
        m, more, polled' := FollowTakes(supervised, h, seen, polled, lines[1..]);
        n := m + 1;
        SkippedFirst(lines, m);
      }
    } else if lines == [] {
      assert lines[..0] == lines;
    }
  }

  lemma TookFirst(supervised: bool, lines: seq<Received>, m: nat, l: Line, rest: seq<Line>, fed: nat)
    requires lines != [] && m <= |lines[1..]| && StartsWith(lines[0].0, "stage=") && lines[0].0 == Text(l)
    requires StageOnly(lines[1..][..m]) == TextsOf(rest)
    ensures StageOnly(lines[..m + 1]) == TextsOf([l] + rest)
    ensures AnswersTo(supervised, [l] + rest, fed) ==
            AnswerTo(supervised, l, fed) + AnswersTo(supervised, rest, if IsAfter(l) then fed + 1 else fed)
  {
    hide Text, StartsWith;
    assert lines[..m + 1][1..] == lines[1..][..m];
    TextsOfAppend([l], rest);
    assert TextsOf([l]) == [Text(l)];
    assert ([l] + rest)[1..] == rest;
  }

  lemma SkippedFirst(lines: seq<Received>, m: nat)
    requires lines != [] && m <= |lines[1..]| && !StartsWith(lines[0].0, "stage=")
    ensures StageOnly(lines[..m + 1]) == StageOnly(lines[1..][..m])
  {
    hide StartsWith;
    assert lines[..m + 1][1..] == lines[1..][..m];
  }

  lemma SkippedLine(supervised: bool, h: GpcHost, text: string, quiet: bool)
    requires !StartsWith(text, "stage=")
    ensures OnLine(supervised, h, text, quiet) == (h, None)
  {
    hide Text, StartsWith, MatchAfter;
  }

  /** The whole transcript of a completed run with these poll values. */
  function Transcript(supervised: bool, polled: seq<Word>): seq<Line> {
    Opening(supervised) + SetupLines() + PollLines(0, polled)
    + (if supervised then [Finished(0), WatchdogDisarmed] else [Finished(0)])
  }

  /** Values a completed poll loop may have read: busy up to the last, which shows state 1. */
  predicate PolledToState1(polled: seq<Word>) {
    1 <= |polled| <= POLL_LIMIT && AllBusy(polled[..|polled| - 1]) && Granted(polled[|polled| - 1])
  }

  lemma FreshTaken(supervised: bool)
    ensures Taken(supervised, FRESH, [], [])
  {
    hide SetupLines, PollLines;
    SetupLineAt(0);
  }

  /** From any received text whatever, the collector returns `v` only on the exact transcript of a run that
      read 0, made the three setup writes and the request in order, and polled one to 64 times, busy until
      the last poll, which read `v` in state 1. The feeds it sent are the "after" lines it accepted. */
  lemma HostReturnsOnlyOnTranscript(supervised: bool, lines: seq<Received>) returns (n: nat, polled: seq<Word>)
    ensures var h := Follow(supervised, FRESH, lines);
            h.status == Returned ==>
              && n <= |lines| && PolledToState1(polled) && h.value == polled[|polled| - 1]
              && StageOnly(lines[..n]) == TextsOf(Transcript(supervised, polled))
              && h.feeds == (if supervised then 5 + |polled| else 0)
  {
    var more;
    FreshTaken(supervised);
    n, more, polled := FollowTakes(supervised, FRESH, [], [], lines);
    hide Follow, StageOnly, TextsOf, SetupLines, PollLines, Answers, AnswersTo;
    assert [] + more == more;
    var h := Follow(supervised, FRESH, lines);
    if h.status == Returned {
      assert more == Transcript(supervised, polled);
    }
  }

  /** From any received text whatever, failing or not, the answers sent are exactly those to the stage lines taken, in
      order: ARM after the open line, READ after the PMGR "before" line, ACCESS after each other "before" line, FEED 1,
      2, 3 and so on after the "after" lines when supervised, and nothing else. When the collector returns, those lines
      are the whole transcript. */
  lemma AnswersFollowLines(supervised: bool, lines: seq<Received>) returns (n: nat, taken: seq<Line>, polled: seq<Word>)
    ensures n <= |lines| && StageOnly(lines[..n]) == TextsOf(taken)
    ensures Answers(supervised, FRESH, lines) == AnswersTo(supervised, taken, 0)
    ensures Follow(supervised, FRESH, lines).status == Failed ==> n < |lines|
    ensures Follow(supervised, FRESH, lines).status == Running ==> n == |lines|
    ensures Follow(supervised, FRESH, lines).status == Returned ==> taken == Transcript(supervised, polled) && PolledToState1(polled)
  {
    hide Follow, StageOnly, TextsOf, SetupLines, PollLines, Answers, AnswersTo;
    FreshTaken(supervised);
    n, taken, polled := FollowTakes(supervised, FRESH, [], [], lines);
    assert [] + taken == taken;
    assert AfterCount(FRESH, []) == 0;
  }

  // ---- Host and device together -------------------------------------------------------------------------

  function Rec(lines: seq<Line>): seq<Received> {
    seq(|lines|, i requires 0 <= i < |lines| => (Text(lines[i]), true))
  }

  /** What reaches the host: the device's lines and, from the supervisor, the end of a clean run. */
  function Wire(supervised: bool, t: Trace): seq<Line> {
    t.lines + (if supervised && t.rc == 0 then [WatchdogDisarmed] else [])
  }

  lemma FollowFirst(supervised: bool, h: GpcHost, lines: seq<Line>)
    requires lines != [] && h.status == Running
    ensures Follow(supervised, h, Rec(lines)) ==
            Follow(supervised, OnLine(supervised, h, Text(lines[0]), true).0, Rec(lines[1..]))
  {
    hide Text, OnLine;
    assert Rec(lines)[1..] == Rec(lines[1..]);
  }

  predicate Listening(supervised: bool, h: GpcHost) {
    h.status == Running && (if supervised then h.wd == 2 else h.wd == 0)
  }

  /** The host takes the device's "before" line of its current register. */
  lemma TakesBefore(supervised: bool, h: GpcHost)
    requires Listening(supervised, h) && 2 <= h.stage <= 11 && h.stage % 2 == 0
    ensures OnLine(supervised, h, Text(BeforeReg(Current(h))), true).0 == h.(stage := h.stage + 1)
  {
    hide Text, StartsWith, MatchAfter, Current, Fixed, Poll, Hex, MinHex, PmgrTail, OnAfter;
    var r := Current(h);
    DeviceLinesAreStage(r.name, GPC_BASE + r.offset, r.op, r.value, 0);
  }

  lemma TakesAfter(supervised: bool, h: GpcHost, value: Word)
    requires Listening(supervised, h) && 2 <= h.stage <= 11 && h.stage % 2 == 1
    ensures OnLine(supervised, h, Text(After(Current(h).name, value)), true).0 == OnAfter(supervised, h, value).0
  {
    hide Text, StartsWith, MatchAfter, Current, OnAfter, Fixed, Poll;
    var r := Current(h);
    DeviceLinesAreStage(r.name, 0, r.op, value, 0);
    MatchAfterText(r.name, value);
  }

  lemma RefusesFinish(supervised: bool, h: GpcHost, rc: nat)
    requires Listening(supervised, h) && 2 <= h.stage <= 11 && h.stage % 2 == 1
    ensures OnLine(supervised, h, Text(Finished(rc)), true).0.status == Failed
  {
    hide Text, StartsWith, MatchAfter, Current, Fixed, Poll;
    FinishedIsNotAfter(Current(h).name, rc);
    DeviceLinesAreStage("", 0, "", 0, rc);
  }

  /** The end of the script: only status 0 is accepted. */
  lemma TakesEnd(supervised: bool, h: GpcHost, rc: nat)
    requires Listening(supervised, h) && h.stage == DONE_STAGE
    ensures var t := Trace([Finished(rc)], [], rc);
            var h' := Follow(supervised, h, Rec(Wire(supervised, t)));
            h'.value == h.value && h'.status == (if rc == 0 then Returned else Failed)
  {
    hide Text, StartsWith, MatchAfter, Current, Fixed, Poll;
    DeviceLinesAreStage("", 0, "", 0, rc);
    if rc > 0 {
      NotFinished(rc);
    }
    var lines := Wire(supervised, Trace([Finished(rc)], [], rc));
    FollowFirst(supervised, h, lines);
    var h1 := OnLine(supervised, h, Text(Finished(rc)), true).0;
    if supervised && rc == 0 {
      assert lines[1..] == [WatchdogDisarmed];
      FollowFirst(supervised, h1, lines[1..]);
    }
  }

  lemma FailedStays(supervised: bool, h: GpcHost, lines: seq<Received>)
    requires h.status == Failed
    ensures Follow(supervised, h, lines) == h
  {
  }

  lemma SameRegister(h: GpcHost)
    requires h.stage >= 2 && h.stage % 2 == 0
    ensures Current(h.(stage := h.stage + 1)) == Current(h)
  {
    hide Poll, Fixed;
  }

  /** One access of the script seen by the host: refused when the device got no answer, otherwise the host
      goes on with the value it read. */
  lemma AccessSeen(supervised: bool, h: GpcHost, value: Word, acks: nat, rest: Trace)
    requires Listening(supervised, h) && 2 <= h.stage <= 11 && h.stage % 2 == 0
    ensures var t := AccessThen(Current(h), value, acks, rest);
            var h' := Follow(supervised, h, Rec(Wire(supervised, t)));
            if acks == 0 then t.rc == 1 && h'.status == Failed
            else t.rc == rest.rc && var h2 := OnAfter(supervised, h.(stage := h.stage + 1), value).0;
                 h' == Follow(supervised, h2, Rec(Wire(supervised, rest)))
  {
    hide Text, OnLine, OnAfter, Current, StartsWith, Follow, Rec;
    var r := Current(h);
    var h1 := h.(stage := h.stage + 1);
    TakesBefore(supervised, h);
    SameRegister(h);
    TakesAfter(supervised, h1, value);
    RefusesFinish(supervised, h1, 1);
    var lines := Wire(supervised, AccessThen(r, value, acks, rest));
    FollowFirst(supervised, h, lines);
    FollowFirst(supervised, h1, lines[1..]);
    if acks > 0 {
      assert lines[1..][1..] == Wire(supervised, rest);
    } else {
      FailedStays(supervised, OnLine(supervised, h1, Text(lines[1]), true).0, Rec(lines[1..][1..]));
    }
  }

  /** From poll `i` on, host and device agree: the host returns exactly when the program exits with status
      0, and fails in every other case, the 64th busy poll included. */
  lemma {:induction false} PollsAgree(supervised: bool, h: GpcHost, i: nat, polls: seq<Word>, acks: nat)
    requires |polls| == POLL_LIMIT && i < POLL_LIMIT
    requires Listening(supervised, h) && h.stage == 10 && h.poll == i
    ensures var t := PollTrace(i, polls, acks);
            var h' := Follow(supervised, h, Rec(Wire(supervised, t)));
            h'.status == (if t.rc == 0 then Returned else Failed)
            && (t.rc == 0 ==> i <= FirstIdle(i, polls) < POLL_LIMIT && h'.value == polls[FirstIdle(i, polls)])
    decreases POLL_LIMIT - i
  {
    hide Dec2, Text, OnLine, Follow, Rec, Wire, PollTrace;
    PollUnfolds(i, polls, acks);
    var rest := if !Busy(polls[i]) then
                  var rc := if polls[i] % 16 == 1 then 0 else 1; Trace([Finished(rc)], [], rc)
                else PollTrace(i + 1, polls, if acks == 0 then 0 else acks - 1);
    AccessSeen(supervised, h, polls[i], acks, rest);
    var h2 := OnAfter(supervised, h.(stage := 11), polls[i]).0;
    if acks > 0 {
      if h2.status == Failed {
        FailedStays(supervised, h2, Rec(Wire(supervised, rest)));
        if i + 1 == POLL_LIMIT {
          PollUnfolds(POLL_LIMIT, polls, acks - 1);
        }
      } else if Busy(polls[i]) {
        PollsAgree(supervised, h2, i + 1, polls, acks - 1);
      } else {
        TakesEnd(supervised, h2, 0);
      }
    }
  }

  /** The first poll that shows the request no longer pending. */
  function FirstIdle(i: nat, polls: seq<Word>): (k: nat)
    requires i <= |polls|
    ensures i <= k <= |polls| && AllBusy(polls[i..k]) && (k < |polls| ==> !Busy(polls[k]))
    decreases |polls| - i
  {
    if i == |polls| || !Busy(polls[i]) then i
    else
      var k := FirstIdle(i + 1, polls);
      assert polls[i..k] == [polls[i]] + polls[i + 1..k];
      k
  }

  lemma {:induction false} SetupAgrees(supervised: bool, h: GpcHost, i: nat, polls: seq<Word>, acks: nat)
    requires |polls| == POLL_LIMIT && 1 <= i <= 4
    requires Listening(supervised, h) && h.stage == 2 + 2 * i && h.poll == 0
    ensures var t := SetupTrace(i, polls, acks);
            var h' := Follow(supervised, h, Rec(Wire(supervised, t)));
            h'.status == (if t.rc == 0 then Returned else Failed)
            && (t.rc == 0 ==> FirstIdle(0, polls) < POLL_LIMIT && h'.value == polls[FirstIdle(0, polls)])
    decreases 4 - i
  {
    hide Dec2, Text, OnLine, PollTrace, Follow, Rec, Wire;
    SetupUnfolds(i, polls, acks);
    if i == 4 {
      PollsAgree(supervised, h, 0, polls, acks);
    } else {
      AccessSeen(supervised, h, Fixed(i).value, acks, SetupTrace(i + 1, polls, if acks == 0 then 0 else acks - 1));
      if acks > 0 {
        SetupAgrees(supervised, OnAfter(supervised, h.(stage := h.stage + 1), Fixed(i).value).0, i + 1, polls, acks - 1);
      }
    }
  }

  /** Host and device agree on every run after the PMGR read: for every initial state, every sequence of
      register values and every number of answers, the host returns exactly when the program exits with
      status 0, with the value of the first poll that was not busy. */
  lemma HostAgreesWithDevice(supervised: bool, h: GpcHost, initial: Word, polls: seq<Word>, acks: nat)
    requires |polls| == POLL_LIMIT
    requires Listening(supervised, h) && h.stage == 2 && h.poll == 0
    ensures var t := DeviceTrace(initial, polls, acks);
            var h' := Follow(supervised, h, Rec(Wire(supervised, t)));
            h'.status == (if t.rc == 0 then Returned else Failed)
            && (t.rc == 0 ==> FirstIdle(0, polls) < POLL_LIMIT && h'.value == polls[FirstIdle(0, polls)])
  {
    hide Dec2, Text, OnLine, SetupTrace;
    var rest := if initial != 0 then FAILED else SetupTrace(1, polls, if acks == 0 then 0 else acks - 1);
    AccessSeen(supervised, h, initial, acks, rest);
    if acks > 0 {
      var h2 := OnAfter(supervised, h.(stage := 3), initial).0;
      if initial != 0 {
        FailedStays(supervised, h2, Rec(Wire(supervised, rest)));
      } else {
        SetupAgrees(supervised, h2, 1, polls, acks - 1);
      }
    }
  }

  // ---- What the device did --------------------------------------------------------------------------------

  /** The initial read, then the three setup writes with the request last. */
  function SetupTouches(): seq<Touch> {
    [Touch(0x1000, "read", 0), Touch(0x10000, "write", 0xffff0000), Touch(0, "write", 0x40000000),
     Touch(0x1000, "write", 0x11)]
  }

  lemma OneTouch(v: Word)
    ensures PollTouches([v]) == [Touch(0x1000, "read", v)]
  {
  }

  lemma MoreTouches(polls: seq<Word>, i: nat, k: nat)
    requires i < k <= |polls|
    ensures PollTouches(polls[i..k]) == [Touch(0x1000, "read", polls[i])] + PollTouches(polls[i + 1..k])
  {
    assert polls[i..k] == [polls[i]] + polls[i + 1..k];
  }

  lemma {:induction false} SetupDone(i: nat, polls: seq<Word>, acks: nat)
    requires |polls| == POLL_LIMIT && 1 <= i <= 4
    ensures var t := SetupTrace(i, polls, acks);
            var k := FirstIdle(0, polls);
            && (t.rc == 0 <==> k < POLL_LIMIT && Granted(polls[k]) && acks >= 5 - i + k)
            && (t.rc == 0 ==> t.touches == SetupTouches()[i..] + PollTouches(polls[0..k + 1]))
    decreases 4 - i
  {
    hide PollTrace, AllBusy, PollTouches, BeforeReg, FirstIdle;
    SetupUnfolds(i, polls, acks);
    if i == 4 {
      PollsDone(0, polls, acks);
    } else {
      SetupDone(i + 1, polls, if acks == 0 then 0 else acks - 1);
      SetupTouchAt(i);
    }
  }

  lemma SetupTouchAt(i: nat)
    requires 1 <= i < 4
    ensures SetupTouches()[i..] == [Touch(Fixed(i).offset, Fixed(i).op, Fixed(i).value)] + SetupTouches()[i + 1..]
  {
  }

  lemma {:induction false} PollsDone(i: nat, polls: seq<Word>, acks: nat)
    requires |polls| == POLL_LIMIT && i <= POLL_LIMIT
    ensures var t := PollTrace(i, polls, acks);
            var k := FirstIdle(i, polls);
            && (t.rc == 0 <==> k < POLL_LIMIT && Granted(polls[k]) && acks > k - i)
            && (t.rc == 0 ==> t.touches == PollTouches(polls[i..k + 1]))
            && (t.rc != 0 ==> t.rc == 1)
    decreases POLL_LIMIT - i
  {
    hide Dec2, PollTrace, AllBusy, PollTouches, BeforeReg;
    PollUnfolds(i, polls, acks);
    if i < POLL_LIMIT {
      OneTouch(polls[i]);
      if Busy(polls[i]) {
        PollsDone(i + 1, polls, if acks == 0 then 0 else acks - 1);
        var k := FirstIdle(i, polls);
        if k < POLL_LIMIT {
          MoreTouches(polls, i, k + 1);
        }
      } else {
        assert polls[i..i + 1] == [polls[i]];
      }
    }
  }

  /** The program exits with status 0 exactly when the state register read 0 at first and some poll within
      the limit was the first idle one and showed state 1, with an answer for each access; then it did one
      read, the three setup writes with the request last, and those polls, in this order and nothing else. */
  lemma DeviceSucceeds(initial: Word, polls: seq<Word>, acks: nat)
    requires |polls| == POLL_LIMIT
    ensures var t := DeviceTrace(initial, polls, acks);
            var k := FirstIdle(0, polls);
            && (t.rc == 0 <==> initial == 0 && k < POLL_LIMIT && Granted(polls[k]) && acks >= 5 + k)
            && (t.rc == 0 ==> PolledToState1(polls[..k + 1]))
            && (t.rc == 0 ==> t.touches == SetupTouches() + PollTouches(polls[..k + 1]))
  {
    hide SetupTrace, PollTouches, BeforeReg;
    var k := FirstIdle(0, polls);
    SetupDone(1, polls, if acks == 0 then 0 else acks - 1);
    assert SetupTouches() == [Touch(0x1000, "read", 0)] + SetupTouches()[1..];
    if k < POLL_LIMIT {
      assert polls[0..k + 1] == polls[..k + 1] && polls[..k + 1][..k] == polls[0..k];
    }
  }

  /** A returned host has seen what happened: whatever the readings and however many answers, the program then did
      the initial read of 0, the three setup writes, and the polls up to the first idle one, which showed state 1
      and whose value the host returns. */
  lemma ReturnedMeansDone(supervised: bool, h: GpcHost, initial: Word, polls: seq<Word>, acks: nat)
    requires |polls| == POLL_LIMIT
    requires Listening(supervised, h) && h.stage == 2 && h.poll == 0
    requires Follow(supervised, h, Rec(Wire(supervised, DeviceTrace(initial, polls, acks)))).status == Returned
    ensures var k := FirstIdle(0, polls);
            && initial == 0 && k < POLL_LIMIT && Granted(polls[k])
            && Follow(supervised, h, Rec(Wire(supervised, DeviceTrace(initial, polls, acks)))).value == polls[k]
            && DeviceTrace(initial, polls, acks).touches == SetupTouches() + PollTouches(polls[..k + 1])
  {
    hide Follow, Rec, Wire, SetupTouches, PollTouches, DeviceTrace;
    HostAgreesWithDevice(supervised, h, initial, polls, acks);
    DeviceSucceeds(initial, polls, acks);
  }

  // ---- The loop closed --------------------------------------------------------------------------------------

  /** How many ACCESS answers the host sends while it follows the lines. */
  function Grants(supervised: bool, h: GpcHost, lines: seq<Received>): nat
    decreases |lines|
  {
    if lines == [] || h.status != Running then 0
    else
      var (h', reply) := OnLine(supervised, h, lines[0].0, lines[0].1);
      (if reply == Some(ACCESS) then 1 else 0) + Grants(supervised, h', lines[1..])
  }

  lemma GrantsFirst(supervised: bool, h: GpcHost, lines: seq<Line>)
    requires lines != [] && h.status == Running
    ensures var r := OnLine(supervised, h, Text(lines[0]), true);
            Grants(supervised, h, Rec(lines)) ==
              (if r.1 == Some(ACCESS) then 1 else 0) + Grants(supervised, r.0, Rec(lines[1..]))
  {
    hide Text, OnLine;
    assert Rec(lines)[1..] == Rec(lines[1..]);
  }

  lemma GrantsBefore(supervised: bool, h: GpcHost)
    requires Listening(supervised, h) && 2 <= h.stage <= 11 && h.stage % 2 == 0
    ensures OnLine(supervised, h, Text(BeforeReg(Current(h))), true).1 == Some(ACCESS)
  {
    hide Text, StartsWith, MatchAfter, Current, Fixed, Poll, Hex, MinHex, PmgrTail, OnAfter;
    var r := Current(h);
    DeviceLinesAreStage(r.name, GPC_BASE + r.offset, r.op, r.value, 0);
  }

  lemma GrantsNoneAfter(supervised: bool, h: GpcHost, line: string)
    requires h.stage >= 2 && (h.stage == DONE_STAGE || h.stage % 2 == 1)
    ensures OnLine(supervised, h, line, true).1 != Some(ACCESS)
  {
    hide Text, StartsWith, MatchAfter, Current, Busy;
  }

  /** An answered access is answered by the host itself, once. */
  lemma AccessGranted(supervised: bool, h: GpcHost, value: Word, acks: nat, rest: Trace)
    requires Listening(supervised, h) && 2 <= h.stage <= 11 && h.stage % 2 == 0 && acks > 0
    ensures var t := AccessThen(Current(h), value, acks, rest);
            var h2 := OnAfter(supervised, h.(stage := h.stage + 1), value).0;
            && Grants(supervised, h, Rec(Wire(supervised, t))) == 1 + Grants(supervised, h2, Rec(Wire(supervised, rest)))
            && |t.touches| == 1 + |rest.touches|
  {
    hide Text, OnLine, OnAfter, Current, StartsWith, Grants, Rec;
    var h1 := h.(stage := h.stage + 1);
    TakesBefore(supervised, h);
    GrantsBefore(supervised, h);
    SameRegister(h);
    TakesAfter(supervised, h1, value);
    var lines := Wire(supervised, AccessThen(Current(h), value, acks, rest));
    GrantsNoneAfter(supervised, h1, Text(lines[1]));
    GrantsFirst(supervised, h, lines);
    GrantsFirst(supervised, h1, lines[1..]);
    assert lines[1..][1..] == Wire(supervised, rest);
  }

  lemma NoMoreGrants(supervised: bool, h: GpcHost, rc: nat)
    requires h.status == Failed || (Listening(supervised, h) && h.stage == DONE_STAGE)
    ensures Grants(supervised, h, Rec(Wire(supervised, Trace([Finished(rc)], [], rc)))) == 0
  {
    hide Text, StartsWith, MatchAfter, Current, Fixed, Poll;
    var lines := Wire(supervised, Trace([Finished(rc)], [], rc));
    if h.status == Running {
      GrantsNoneAfter(supervised, h, Text(lines[0]));
      GrantsFirst(supervised, h, lines);
      var h1 := OnLine(supervised, h, Text(lines[0]), true).0;
      if h1.status == Running && |lines| > 1 {
        GrantsFirst(supervised, h1, lines[1..]);
        GrantsNoneAfter(supervised, h1, Text(lines[1]));
      }
    }
  }

  lemma {:induction false} PollsGranted(supervised: bool, h: GpcHost, i: nat, polls: seq<Word>, acks: nat)
    requires |polls| == POLL_LIMIT && i < POLL_LIMIT && acks >= POLL_LIMIT - i
    requires Listening(supervised, h) && h.stage == 10 && h.poll == i
    ensures var t := PollTrace(i, polls, acks); Grants(supervised, h, Rec(Wire(supervised, t))) == |t.touches|
    decreases POLL_LIMIT - i
  {
    hide Dec2, Text, OnLine, Grants, Rec, Wire, PollTrace;
    PollUnfolds(i, polls, acks);
    var rc := if polls[i] % 16 == 1 then 0 else 1;
    var rest := if !Busy(polls[i]) then Trace([Finished(rc)], [], rc) else PollTrace(i + 1, polls, acks - 1);
    AccessGranted(supervised, h, polls[i], acks, rest);
    var h2 := OnAfter(supervised, h.(stage := 11), polls[i]).0;
    if !Busy(polls[i]) {
      NoMoreGrants(supervised, h2, rc);
    } else if i + 1 == POLL_LIMIT {
      PollUnfolds(POLL_LIMIT, polls, acks - 1);
      NoMoreGrants(supervised, h2, 1);
    } else {
      PollsGranted(supervised, h2, i + 1, polls, acks - 1);
    }
  }

  lemma {:induction false} SetupGranted(supervised: bool, h: GpcHost, i: nat, polls: seq<Word>, acks: nat)
    requires |polls| == POLL_LIMIT && 1 <= i <= 4 && acks >= POLL_LIMIT + 4 - i
    requires Listening(supervised, h) && h.stage == 2 + 2 * i && h.poll == 0
    ensures var t := SetupTrace(i, polls, acks); Grants(supervised, h, Rec(Wire(supervised, t))) == |t.touches|
    decreases 4 - i
  {
    hide Dec2, Text, OnLine, PollTrace, Grants, Rec, Wire;
    SetupUnfolds(i, polls, acks);
    if i == 4 {
      PollsGranted(supervised, h, 0, polls, acks);
    } else {
      AccessGranted(supervised, h, Fixed(i).value, acks, SetupTrace(i + 1, polls, acks - 1));
      SetupGranted(supervised, OnAfter(supervised, h.(stage := h.stage + 1), Fixed(i).value).0, i + 1, polls, acks - 1);
    }
  }

  /** With the host itself at the other end the program never waits in vain: following a run in which every access
      was answered, whatever the readings, the host sends exactly one ACCESS for each access made. */
  lemma ClosedLoop(supervised: bool, h: GpcHost, initial: Word, polls: seq<Word>, acks: nat)
    requires |polls| == POLL_LIMIT && acks >= POLL_LIMIT + 4
    requires Listening(supervised, h) && h.stage == 2 && h.poll == 0
    ensures var t := DeviceTrace(initial, polls, acks); Grants(supervised, h, Rec(Wire(supervised, t))) == |t.touches|
  {
    hide Dec2, Text, OnLine, SetupTrace, Grants, Rec, Wire;
    var rest := if initial != 0 then FAILED else SetupTrace(1, polls, acks - 1);
    AccessGranted(supervised, h, initial, acks, rest);
    var h2 := OnAfter(supervised, h.(stage := 3), initial).0;
    if initial != 0 {
      NoMoreGrants(supervised, h2, 1);
    } else {
      SetupGranted(supervised, h2, 1, polls, acks - 1);
    }
  }

  lemma {:induction false} PollsPrefix(i: nat, polls: seq<Word>, acks: nat)
    requires |polls| == POLL_LIMIT && i <= POLL_LIMIT
    ensures PollTrace(i, polls, acks).touches <= PollTouches(polls[i..])
    decreases POLL_LIMIT - i
  {
    hide PollTrace, BeforeReg, Busy, PollTouches;
    PollUnfolds(i, polls, acks);
    if i < POLL_LIMIT {
      MoreTouches(polls, i, POLL_LIMIT);
      assert polls[i..POLL_LIMIT] == polls[i..] && polls[i + 1..POLL_LIMIT] == polls[i + 1..];
      PollsPrefix(i + 1, polls, if acks == 0 then 0 else acks - 1);
    }
  }

  lemma {:induction false} SetupPrefix(i: nat, polls: seq<Word>, acks: nat)
    requires |polls| == POLL_LIMIT && 1 <= i <= 4
    ensures SetupTrace(i, polls, acks).touches <= SetupTouches()[i..] + PollTouches(polls)
    decreases 4 - i
  {
    hide PollTrace, BeforeReg, PollTouches, SetupTouches;
    SetupUnfolds(i, polls, acks);
    if i == 4 {
      PollsPrefix(0, polls, acks);
      assert polls[0..] == polls;
      assert |SetupTouches()| == 4 by { FourTouches(); }
    } else {
      SetupPrefix(i + 1, polls, if acks == 0 then 0 else acks - 1);
      SetupTouchAt(i);
    }
  }

  lemma FourTouches()
    ensures |SetupTouches()| == 4
    ensures forall j :: 0 <= j < 4 && SetupTouches()[j] == Touch(0x1000, "write", 0x11) ==> j == 3
  {
  }

  lemma PollsAreReads(polls: seq<Word>)
    ensures Touch(0x1000, "write", 0x11) !in PollTouches(polls)
  {
    assert "read"[0] != "write"[0];
  }

  /** In every run, whatever the hardware reads and whenever the answers stop, the request 0x11 is written only
      after the state read 0 and both setup writes were made, and nothing else was done before it. */
  lemma RequestGuarded(initial: Word, polls: seq<Word>, acks: nat)
    requires |polls| == POLL_LIMIT
    requires Touch(0x1000, "write", 0x11) in DeviceTrace(initial, polls, acks).touches
    ensures initial == 0 && SetupTouches() <= DeviceTrace(initial, polls, acks).touches
  {
    hide SetupTrace, PollTouches, BeforeReg;
    var t := DeviceTrace(initial, polls, acks).touches;
    SetupPrefix(1, polls, if acks == 0 then 0 else acks - 1);
    PollsAreReads(polls);
    FourTouches();
    assert "read"[0] != "write"[0];
    assert SetupTouches() == [Touch(0x1000, "read", 0)] + SetupTouches()[1..];
    var all := SetupTouches() + PollTouches(polls);
    if initial == 0 {
      assert t <= all;
      var j :| 0 <= j < |t| && t[j] == Touch(0x1000, "write", 0x11);
      assert all[j] == t[j];
      assert j >= 3;
    }
  }

  /** From any received text whatever, the stage counter stays in 0..11 or at the sentinel, and the poll counter
      below the limit until the collector gives up. */
  lemma {:induction false} StageInRange(supervised: bool, h: GpcHost, lines: seq<Received>)
    requires (h.stage <= 11 || h.stage == DONE_STAGE) && (h.status == Failed || h.poll < POLL_LIMIT)
    ensures var h' := Follow(supervised, h, lines);
            (h'.stage <= 11 || h'.stage == DONE_STAGE) && (h'.status == Failed || h'.poll < POLL_LIMIT)
    decreases |lines|
  {
    if lines != [] && h.status == Running {
      StageStep(supervised, h, lines[0].0, lines[0].1);
      hide OnLine;
      StageInRange(supervised, OnLine(supervised, h, lines[0].0, lines[0].1).0, lines[1..]);
    }
  }

  lemma StageStep(supervised: bool, h: GpcHost, text: string, quiet: bool)
    requires (h.stage <= 11 || h.stage == DONE_STAGE) && h.poll < POLL_LIMIT
    ensures var h' := OnLine(supervised, h, text, quiet).0;
            (h'.stage <= 11 || h'.stage == DONE_STAGE) && (h'.status == Failed || h'.poll < POLL_LIMIT)
  {
    hide Text, StartsWith, MatchAfter, Fixed, Poll, PmgrAfterText;
  }
}
