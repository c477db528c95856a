/** The touch power sequence of touch-diag and its unwind. What the hardware answers is an input: `Attempt` says how
    each access on the way up turns out and when a signal arrives, `Undoing` says the same of unwind's own accesses.
    A failing PMU write may still have reached the PMU.
    boot/touch-diag.c:57-82, 116-122, 228-335, 1005-1112, 1193-1356. */
module TouchDiag {

  type Word = bv32

  const LDO14_ENABLE_BIT: bv8 := 0x04
  const LDO14_VOLTAGE_EXPECTED: bv8 := 0x14
  const CLK_GATE_OFF: Word := 0x8000_0000
  const CLK_APPLY: Word := 0x0008_0000
  const CLK_BUSY: Word := 0x0004_0000
  const CLK_DIVIDER: Word := 0x2dc
  const PINMUX_MASK: Word := 0x260
  const PINMUX_PERIPH1: Word := 0x220
  const PINMUX_PERIPH_FIELD: Word := 0x60

  predicate Gated(clk: Word) {
    clk & CLK_GATE_OFF != 0
  }

  predicate Busy(clk: Word) {
    clk & CLK_BUSY != 0
  }

  predicate LdoOn(ldo: bv8) {
    ldo & LDO14_ENABLE_BIT != 0
  }

  // Words the program writes, and what the hardware makes of the busy bit.

  function Raised(v: Word): Word {
    v | CLK_BUSY
  }

  function Cleared(v: Word): Word {
    v & !CLK_BUSY
  }

  /** The second word of `clock_enable`. */
  function EnableWord(r: Word): Word {
    (r & 0x7ff7_fc00) | CLK_DIVIDER | CLK_APPLY
  }

  function Ungated(r: Word): Word {
    r & 0x7fff_ffff
  }

  function Unapplied(r: Word): Word {
    r & !CLK_APPLY
  }

  function DisableWord(r: Word): Word {
    (r & !CLK_APPLY) | CLK_GATE_OFF
  }

  function WithLdo(v: bv8): bv8 {
    v | LDO14_ENABLE_BIT
  }

  predicate Muxed(w: Word) {
    w & PINMUX_PERIPH_FIELD != 0
  }

  predicate Routed(w: Word) {
    w & PINMUX_MASK == PINMUX_PERIPH1
  }

  /** It opens the gate, selects the divider, asks for it to be applied and keeps the other bits. */
  lemma EnableWordOpens(r: Word)
    ensures EnableWord(r) & 0x3ff == CLK_DIVIDER && EnableWord(r) & CLK_APPLY != 0
    ensures EnableWord(r) & 0x7ff7_fc00 == r & 0x7ff7_fc00
    ensures !Gated(EnableWord(r)) && Gated(DisableWord(r))
  {
    assert EnableWord(r) & 0x3ff == CLK_DIVIDER;
  }

  /** The busy bit is not the gate. */
  lemma RaisedKeepsGate(v: Word)
    ensures Gated(Raised(v)) == Gated(v)
  {
    assert (v | CLK_BUSY) & CLK_GATE_OFF == v & CLK_GATE_OFF;
  }

  lemma ClearedKeepsGate(v: Word)
    ensures Gated(Cleared(v)) == Gated(v)
  {
    assert (v & !CLK_BUSY) & CLK_GATE_OFF == v & CLK_GATE_OFF;
  }

  lemma ClearedIsNotBusy(v: Word)
    ensures !Busy(Cleared(v)) && Cleared(Cleared(v)) == Cleared(v)
  {
    assert (v & !CLK_BUSY) & CLK_BUSY == 0;
  }

  function Peripheral1(saved: Word): Word {
    (saved & !PINMUX_MASK) | PINMUX_PERIPH1
  }

  /** The routed word reads back as routed and keeps every other bit; no unmuxed word is left as it was. */
  lemma Peripheral1Routes(saved: Word)
    ensures Routed(Peripheral1(saved))
    ensures Peripheral1(saved) & !PINMUX_MASK == saved & !PINMUX_MASK
    ensures !Muxed(saved) ==> Peripheral1(saved) != saved
  {
    assert Peripheral1(saved) & PINMUX_MASK == PINMUX_PERIPH1;
  }

  /** The enable bit is on in the word written, and nothing else differs from the snapshot. */
  lemma WithLdoIsOn(v: bv8)
    ensures LdoOn(WithLdo(v)) && WithLdo(v) != 0
    ensures !LdoOn(v) ==> WithLdo(v) != v
  {
    assert (v | LDO14_ENABLE_BIT) & LDO14_ENABLE_BIT == LDO14_ENABLE_BIT;
  }

  lemma RoutedIsMuxed(w: Word)
    ensures Routed(w) ==> Muxed(w)
  {
    assert w & PINMUX_PERIPH_FIELD == (w & PINMUX_MASK) & PINMUX_PERIPH_FIELD;
  }

  // ---- What the hardware answers ----------------------------------------------------------------------------

  /** How often the busy bit is looked at. */
  const POLLS: nat := 10000

  /** A PMU write reports success, or fails and has reached the PMU or not. */
  datatype PmuWrite = PmuWrite(ok: bool, reached: bool) {
    predicate Lands() {
      ok || reached
    }
  }

  /** A clock write raises the busy bit or not, and the bit stays for `polls` looks at it. */
  datatype ClockWrite = ClockWrite(raises: bool, polls: nat) {
    /** The write does not leave the busy bit behind. */
    predicate Settles() {
      !raises || polls < POLLS
    }
  }

  /** The way up. The k-th check for a signal sees one exactly when `signalAt <= k`. */
  datatype Attempt = Attempt(opens: bool, ldoSnap: bool, voltSnap: bool, spiOpens: bool, created: bool, saved: bool,
                             resetLine: bool, irqLine: bool, clock: ClockWrite, ldo: PmuWrite, ldoBack: bool,
                             powerLine: bool, powerSet: bool, pin: bool, wake: bool, dummy: bool, release: bool,
                             exchange: bool, signalAt: nat) {
    predicate Signalled(k: nat) {
      signalAt <= k
    }

    predicate LdoComes() {
      ldo.ok && ldoBack
    }
  }

  /** Unwind: reset, GPIO55, GPIO95 and LDO14 are written once each; the clock is written without its apply bit,
      then gated, then as in the snapshot. */
  datatype Undoing = Undoing(reset: bool, pin: bool, power: bool, ldo: PmuWrite, unapply: ClockWrite, gateRaises: bool,
                             restore: ClockWrite) {
    /** Every write of unwind takes effect. */
    predicate Works() {
      reset && pin && power && ldo.Lands() && restore.Settles()
    }
  }

  function Written(v: Word, raises: bool): Word {
    if raises then Raised(v) else v
  }

  /** What the wait leaves of a word, and whether it gives up. */
  function Settled(v: Word, polls: nat): Word {
    if Busy(v) && polls < POLLS then Cleared(v) else v
  }

  predicate GivesUp(v: Word, polls: nat) {
    Busy(v) && POLLS - 1 <= polls
  }

  function AfterWrite(v: Word, c: ClockWrite): Word {
    Settled(Written(v, c.raises), c.polls)
  }

  predicate Stuck(v: Word, c: ClockWrite) {
    GivesUp(Written(v, c.raises), c.polls)
  }

  function Disabled(d: Undoing, r: Word): Word {
    if Stuck(Unapplied(r), d.unapply) then AfterWrite(Unapplied(r), d.unapply) else Written(DisableWord(r), d.gateRaises)
  }

  /** The clock word after unwind. */
  function ClockBack(d: Undoing, r: Word, orig: Word): Word {
    if Disabled(d, r) == orig then orig else AfterWrite(orig, d.restore)
  }

  /** The supply after unwind. */
  function LdoBack(d: Undoing, ldo: bv8, orig: bv8): bv8 {
    if d.ldo.Lands() then orig else ldo
  }

  lemma BusyBits(v: Word)
    ensures Busy(Raised(v)) && (Raised(v) == v <==> Busy(v))
    ensures !Busy(Cleared(v)) && (Cleared(v) == v <==> !Busy(v))
    ensures !Busy(v) ==> Cleared(Raised(v)) == v
  {
    RaisedBits(v);
    ClearedIsNotBusy(v);
    if !Busy(v) {
      ClearedBits(v);
    }
    hide Busy, Raised, Cleared;
  }

  lemma RaisedBits(v: Word)
    ensures Busy(Raised(v)) && (Raised(v) == v <==> Busy(v))
  {
    if Busy(v) {
      assert v & CLK_BUSY == CLK_BUSY;
    }
  }

  lemma ClearedBits(v: Word)
    requires !Busy(v)
    ensures Cleared(v) == v && Cleared(Raised(v)) == v
  {
    NoBusyBit(v);
    BusyDropped(v);
    hide Busy, Raised, Cleared;
  }

  lemma NoBusyBit(v: Word)
    requires !Busy(v)
    ensures Cleared(v) == v
  {
  }

  lemma BusyDropped(v: Word)
    ensures Cleared(Raised(v)) == Cleared(v)
  {
  }

  /** When a written snapshot stays: one without the busy bit unless that bit is raised and never drops, one with it
      only if the bit never drops. */
  lemma AfterWriteIff(v: Word, c: ClockWrite)
    ensures AfterWrite(v, c) == v <==> if Busy(v) then POLLS <= c.polls else c.Settles()
  {
    BusyBits(v);
    hide Busy, Raised, Cleared;
  }

  /** The clock word is back exactly when gating already gave the snapshot or the last write stays. */
  lemma ClockBackIff(d: Undoing, r: Word, orig: Word)
    ensures ClockBack(d, r, orig) == orig <==>
              Disabled(d, r) == orig || if Busy(orig) then POLLS <= d.restore.polls else d.restore.Settles()
  {
    AfterWriteIff(orig, d.restore);
    hide AfterWrite, Disabled, Busy;
  }

  /** An enabled clock is ungated whatever the busy bit does. */
  lemma EnabledIsOpen(r: Word, c: ClockWrite)
    ensures !Gated(AfterWrite(EnableWord(r), c))
  {
    hide Gated, Busy, EnableWord, DisableWord, Raised, Cleared;
    EnableWordOpens(r);
    RaisedKeepsGate(EnableWord(r));
    ClearedKeepsGate(EnableWord(r));
    ClearedKeepsGate(Raised(EnableWord(r)));
  }

  /** The state file of `hold`: none, cut short, or the two values to put back. */
  datatype HoldFile = Absent | CutShort | Saved(ldo: bv8, clk: Word)

  /** The value a PMU read leaves in a variable that started at zero. */
  function ReadValue(ok: bool, value: bv8): bv8 {
    if ok then value else 0
  }

  // ---- When the sequences succeed ---------------------------------------------------------------------------

  /** `hold` and `run` get as far as changing something. */
  predicate Snapshots(up: Attempt, ldo: bv8, voltage: bv8) {
    up.opens && up.ldoSnap && up.voltSnap && !LdoOn(ldo) && voltage == LDO14_VOLTAGE_EXPECTED
  }

  predicate Starts(up: Attempt, spi: bool, ldo: bv8, voltage: bv8) {
    Snapshots(up, ldo, voltage) && (spi ==> up.spiOpens) && up.resetLine
  }

  predicate PowersUp(up: Attempt, appleOrder: bool, spi: bool, clk: Word) {
    && up.LdoComes() && !Stuck(EnableWord(clk), up.clock) && up.powerLine && up.powerSet
    && (appleOrder && spi ==> up.wake) && !up.Signalled(3)
  }

  /** Everything a run needs to come to its end; the last check for a signal is the sixth after the first. */
  predicate Completes(up: Attempt, appleOrder: bool, pinmux: bool, spi: bool, clk: Word, gpio55: Word) {
    && up.irqLine && PowersUp(up, appleOrder, spi, clk) && (pinmux ==> !Muxed(gpio55) && up.pin)
    && (spi ==> up.dummy && up.exchange) && up.release && !up.Signalled(6)
  }

  // ---- The order of the steps -------------------------------------------------------------------------------

  datatype Rail = Clock | Supply | Line | Pin | Reset

  /** A write that turns a rail on, or puts it back. */
  datatype Event = On(rail: Rail) | Off(rail: Rail)

  /** The clock, LDO14, GPIO95; or in Apple's order LDO14, GPIO95, the clock. */
  function Order(appleOrder: bool): (o: seq<Event>)
    ensures |o| == 3
  {
    if appleOrder then [On(Supply), On(Line), On(Clock)] else [On(Clock), On(Supply), On(Line)]
  }

  /** Where a step stands in the order. */
  function Place(appleOrder: bool, rail: Rail): (k: nat)
    requires rail.Clock? || rail.Supply? || rail.Line?
    ensures k < 3 && Order(appleOrder)[k] == On(rail)
  {
    if rail.Clock? then (if appleOrder then 2 else 0)
    else if rail.Supply? then (if appleOrder then 0 else 1)
    else (if appleOrder then 1 else 2)
  }

  predicate StepWorks(up: Attempt, clk: Word, e: Event) {
    match e.rail
    case Clock => !Stuck(EnableWord(clk), up.clock)
    case Supply => up.LdoComes()
    case _ => up.powerLine && up.powerSet
  }

  /** Nothing stops the sequence between step `k` and the next: the step works and no signal is seen behind it. In
      Apple's order there is no check behind the first. */
  predicate GoesOn(up: Attempt, appleOrder: bool, clk: Word, k: nat)
    requires k < 3
  {
    StepWorks(up, clk, Order(appleOrder)[k]) && if appleOrder then k == 0 || !up.Signalled(k) else !up.Signalled(k + 1)
  }

  /** How many of the three steps are begun, once the first is. */
  function Begun(up: Attempt, appleOrder: bool, clk: Word): (n: nat)
    ensures 1 <= n <= 3
  {
    if !GoesOn(up, appleOrder, clk, 0) then 1 else if !GoesOn(up, appleOrder, clk, 1) then 2 else 3
  }

  function Steps(up: Attempt, appleOrder: bool, clk: Word): (n: nat)
    ensures n <= 3
  {
    if !up.irqLine || up.Signalled(0) then 0 else Begun(up, appleOrder, clk)
  }

  predicate Powers(up: Attempt, appleOrder: bool, spi: bool, clk: Word) {
    up.irqLine && !up.Signalled(0) && PowersUp(up, appleOrder, spi, clk)
  }

  /** The pin is written to. */
  predicate Routes(up: Attempt, appleOrder: bool, pinmux: bool, spi: bool, clk: Word, gpio55: Word) {
    Powers(up, appleOrder, spi, clk) && pinmux && !Muxed(gpio55)
  }

  /** Reset is written to. */
  predicate Releases(up: Attempt, appleOrder: bool, pinmux: bool, spi: bool, clk: Word, gpio55: Word) {
    && Powers(up, appleOrder, spi, clk) && (pinmux ==> !Muxed(gpio55) && up.pin && !up.Signalled(4))
    && (spi ==> up.dummy && !up.Signalled(5))
  }

  function Once(happens: bool, e: Event): seq<Event> {
    if happens then [e] else []
  }

  /** The first steps of the order. */
  function First(appleOrder: bool, n: nat): seq<Event>
    requires n <= 3
  {
    Order(appleOrder)[..n]
  }

  /** Every write on the way up, in order. */
  function WayUp(up: Attempt, appleOrder: bool, pinmux: bool, spi: bool, clk: Word, gpio55: Word): seq<Event> {
    First(appleOrder, Steps(up, appleOrder, clk))
    + Once(Routes(up, appleOrder, pinmux, spi, clk, gpio55), On(Pin))
    + Once(Releases(up, appleOrder, pinmux, spi, clk, gpio55), On(Reset))
  }

  function BackFrom(pin: bool, line: bool, supply: bool, clock: bool): seq<Event> {
    Once(pin, Off(Pin)) + Once(line, Off(Line)) + Once(supply, Off(Supply)) + Once(clock, Off(Clock))
  }

  /** Every write of unwind, in order: reset first, then the pin, GPIO95, LDO14, and the clock last. */
  function WayDown(reset: bool, pin: bool, line: bool, supply: bool, clock: bool): seq<Event> {
    Once(reset, Off(Reset)) + BackFrom(pin, line, supply, clock)
  }

  lemma WayUpIs(l: seq<Event>, up: Attempt, appleOrder: bool, pinmux: bool, spi: bool, clk: Word, gpio55: Word)
    ensures !up.irqLine || up.Signalled(0) ==> l == l + WayUp(up, appleOrder, pinmux, spi, clk, gpio55)
    ensures up.irqLine && !up.Signalled(0) ==>
              if !PowersUp(up, appleOrder, spi, clk) then
                l + First(appleOrder, Begun(up, appleOrder, clk)) == l + WayUp(up, appleOrder, pinmux, spi, clk, gpio55)
              else
                var on := (pinmux ==> !Muxed(gpio55) && up.pin && !up.Signalled(4)) && (spi ==> up.dummy && !up.Signalled(5));
                l + First(appleOrder, Begun(up, appleOrder, clk)) + Once(pinmux && !Muxed(gpio55), On(Pin)) + Once(on, On(Reset))
                == l + WayUp(up, appleOrder, pinmux, spi, clk, gpio55)
  {
    hide PowersUp, Muxed, Begun;
    assert First(appleOrder, 0) == [];
  }

  lemma JoinedDown(l: seq<Event>, reset: bool, pin: bool, line: bool, supply: bool, clock: bool)
    ensures l + Once(reset, Off(Reset)) + BackFrom(pin, line, supply, clock) == l + WayDown(reset, pin, line, supply, clock)
  {
    hide Once, BackFrom;
  }

  lemma JoinedBack(l: seq<Event>, pin: bool, line: bool, supply: bool, clock: bool)
    ensures l + Once(pin, Off(Pin)) + (Once(line, Off(Line)) + Once(supply, Off(Supply))) + Once(clock, Off(Clock))
         == l + BackFrom(pin, line, supply, clock)
  {
    hide Once;
  }

  lemma FirstSteps(l: seq<Event>)
    ensures l + [On(Clock)] == l + First(false, 1) && l + [On(Clock)] + [On(Supply)] == l + First(false, 2)
    ensures l + [On(Clock)] + [On(Supply)] + [On(Line)] == l + First(false, 3)
    ensures l + [On(Supply)] == l + First(true, 1) && l + [On(Supply)] + [On(Line)] == l + First(true, 2)
    ensures l + [On(Supply)] + [On(Line)] + [On(Clock)] == l + First(true, 3)
  {
  }

  function Reversed(es: seq<Event>): seq<Event> {
    if es == [] then [] else [Off(es[|es| - 1].rail)] + Reversed(es[..|es| - 1])
  }

  /** A run that gets as far as releasing reset has done its writes in the order of the flag. Unwind takes them back in
      reverse exactly in the default order: its own order does not depend on the flag. */
  lemma FullOrder(up: Attempt, appleOrder: bool, pinmux: bool, spi: bool, clk: Word, gpio55: Word)
    requires Releases(up, appleOrder, pinmux, spi, clk, gpio55)
    ensures var all := WayUp(up, appleOrder, pinmux, spi, clk, gpio55);
            && all == (if appleOrder then [On(Supply), On(Line), On(Clock)] else [On(Clock), On(Supply), On(Line)])
                      + (if pinmux then [On(Pin)] else []) + [On(Reset)]
            && (WayDown(true, pinmux, true, true, true) == Reversed(all) <==> !appleOrder)
  {
    hide Stuck, Muxed, EnableWord;
    assert Steps(up, appleOrder, clk) == 3 && First(appleOrder, 3) == Order(appleOrder);
    var all := WayUp(up, appleOrder, pinmux, spi, clk, gpio55);
    var rest := if pinmux then [On(Pin), On(Reset)] else [On(Reset)];
    if !appleOrder {
      ReversedTwice(On(Clock), On(Supply), On(Line), rest);
      assert all == [On(Clock), On(Supply), On(Line)] + rest;
    } else {
      ReversedTwice(On(Supply), On(Line), On(Clock), rest);
      assert all == [On(Supply), On(Line), On(Clock)] + rest;
      var down := WayDown(true, pinmux, true, true, true);
      assert down[|down| - 1] == Off(Clock) && Reversed(all)[|down| - 1] == Off(Supply);
    }
  }

  lemma ReversedTwice(a: Event, b: Event, c: Event, rest: seq<Event>)
    requires rest == [On(Pin), On(Reset)] || rest == [On(Reset)]
    ensures Reversed([a, b, c] + rest) == Reversed(rest) + [Off(c.rail), Off(b.rail), Off(a.rail)]
    ensures Reversed([On(Pin), On(Reset)]) == [Off(Reset), Off(Pin)] && Reversed([On(Reset)]) == [Off(Reset)]
  {
    var all := [a, b, c] + rest;
    assert [a, b, c][..2] == [a, b] && [a, b][..1] == [a] && [a][..0] == [];
    assert [On(Pin), On(Reset)][..1] == [On(Pin)] && [On(Pin)][..0] == [] && [On(Reset)][..0] == [];
    assert Reversed([a]) == [Off(a.rail)];
    assert Reversed([a, b]) == [Off(b.rail), Off(a.rail)];
    assert Reversed([a, b, c]) == [Off(c.rail), Off(b.rail), Off(a.rail)];
    if |rest| == 1 {
      assert all[..3] == [a, b, c];
    } else {
      assert all[..4] == [a, b, c, On(Pin)] && [a, b, c, On(Pin)][..3] == [a, b, c];
      assert Reversed([a, b, c, On(Pin)]) == [Off(Pin)] + Reversed([a, b, c]);
    }
  }

  predicate Holds(up: Attempt, ldo: bv8, voltage: bv8, clk: Word, file: HoldFile) {
    && Snapshots(up, ldo, voltage) && Gated(clk) && file == Absent && up.created && up.saved
    && up.LdoComes() && !Stuck(EnableWord(clk), up.clock)
  }

  /** Every write of a run that starts: up in the order of the flag as far as it gets, then down what was begun. */
  function Whole(up: Attempt, appleOrder: bool, pinmux: bool, spi: bool, clk: Word, gpio55: Word): seq<Event> {
    var n := Steps(up, appleOrder, clk);
    WayUp(up, appleOrder, pinmux, spi, clk, gpio55)
    + WayDown(true, Routes(up, appleOrder, pinmux, spi, clk, gpio55), Place(appleOrder, Line) < n && up.powerLine && up.powerSet,
              Place(appleOrder, Supply) < n, Place(appleOrder, Clock) < n)
  }

  lemma WholeIs(l: seq<Event>, up: Attempt, appleOrder: bool, pinmux: bool, spi: bool, clk: Word, gpio55: Word)
    ensures var n := Steps(up, appleOrder, clk);
            l + WayUp(up, appleOrder, pinmux, spi, clk, gpio55)
            + WayDown(true, Routes(up, appleOrder, pinmux, spi, clk, gpio55), Place(appleOrder, Line) < n && up.powerLine && up.powerSet,
                      Place(appleOrder, Supply) < n, Place(appleOrder, Clock) < n)
            == l + Whole(up, appleOrder, pinmux, spi, clk, gpio55)
  {
    hide WayUp, WayDown, Routes, Steps, Place;
  }

  // ---- release ----------------------------------------------------------------------------------------------

  /** What `release` leaves behind. */
  datatype Released = Released(rc: int, ldo: bv8, clk: Word, file: HoldFile)

  function ReleaseResult(file: HoldFile, ldo: bv8, clk: Word, opens: bool, d: Undoing, readback: bool): Released {
    if !file.Saved? || !opens then Released(1, ldo, clk, file)
    else
      var ldo', clk' := LdoBack(d, ldo, file.ldo), ClockBack(d, clk, file.clk);
      if ReadValue(readback, ldo') == file.ldo && clk' == file.clk then Released(0, ldo', clk', Absent)
      else Released(1, ldo', clk', file)
  }

  /** `release` looks at the value of its readback but not at whether the read worked. It reports success with the
      supply changed in exactly one case: a saved zero whose write and readback both failed. */
  lemma ReleaseMissesIff(file: HoldFile, ldo: bv8, clk: Word, opens: bool, d: Undoing, readback: bool)
    requires file.Saved?
    ensures var r := ReleaseResult(file, ldo, clk, opens, d, readback);
            r.rc == 0 && r.ldo != file.ldo <==>
              opens && r.clk == file.clk && file.ldo == 0 && ldo != 0 && !d.ldo.Lands() && !readback
  {
    hide ClockBack;
  }

  /** So its result can be trusted for every supply, clock and behaviour of the other accesses exactly when the saved
      value is not zero or the readback works. */
  lemma ReleaseTellsIff(saved: bv8, orig: Word, readback: bool)
    ensures (forall ldo, clk, opens, d ::
               var r := ReleaseResult(Saved(saved, orig), ldo, clk, opens, d, readback);
               r.rc == 0 ==> r.ldo == saved && r.clk == orig)
            <==> saved != 0 || readback
  {
    forall ldo, clk, opens, d
      ensures var r := ReleaseResult(Saved(saved, orig), ldo, clk, opens, d, readback);
              r.rc == 0 ==> r.clk == orig && (saved != 0 || readback ==> r.ldo == saved)
    {
      ReleaseMissesIff(Saved(saved, orig), ldo, clk, opens, d, readback);
      hide ClockBack;
    }
    var d := Lossy(orig);
    var r := ReleaseResult(Saved(saved, orig), 4, orig, true, d, readback);
    LossyKeepsClock(orig);
    if saved == 0 && !readback {
      assert r.rc == 0 && r.ldo != saved;
    }
  }

  /** An unwind that loses its write to the PMU and keeps the clock word, busy or not. */
  function Lossy(orig: Word): Undoing {
    Undoing(true, true, true, PmuWrite(false, false), ClockWrite(false, 0), false,
            if Busy(orig) then ClockWrite(false, POLLS) else ClockWrite(false, 0))
  }

  lemma LossyKeepsClock(orig: Word)
    ensures ClockBack(Lossy(orig), orig, orig) == orig
  {
    ClockBackIff(Lossy(orig), orig, orig);
    hide ClockBack, Disabled, Busy;
  }

  /** When its accesses work, `release` succeeds and puts both values back. */
  lemma ReleaseWorks(file: HoldFile, ldo: bv8, clk: Word, d: Undoing)
    requires file.Saved? && d.Works() && !Busy(file.clk)
    ensures ReleaseResult(file, ldo, clk, true, d, true) == Released(0, file.ldo, file.clk, Absent)
  {
    ClockBackIff(d, clk, file.clk);
    hide ClockBack, Disabled, Busy;
  }

  class Board {
    // The hardware.
    var ldo: bv8
    var voltage: bv8
    var clk: Word
    var gpio55: Word
    var power: bool
    var resetAsserted: bool
    var file: HoldFile
    // The program: descriptors, and the state needed to unwind.
    var resetFd: bool
    var powerFd: bool
    var ldoChanged: bool
    var powerOn: bool
    var clockChanged: bool
    var resetReleased: bool
    var dsChanged: bool
    var dsSaved: Word
    var ldoOrig: bv8
    var clkOrig: Word
    var restoreFailed: bool
    /** Unwind could not assert reset. */
    ghost var resetStuck: bool
    /** The writes to the rails, in order. */
    ghost var log: seq<Event>

    /** A board before the program starts. */
    constructor (ldo: bv8, voltage: bv8, clk: Word, gpio55: Word, power: bool, resetAsserted: bool, file: HoldFile)
      ensures Idle() && !restoreFailed && log == []
      ensures this.ldo == ldo && this.voltage == voltage && this.clk == clk && this.gpio55 == gpio55
      ensures this.power == power && this.resetAsserted == resetAsserted && this.file == file
    {
      this.ldo, this.voltage, this.clk, this.gpio55 := ldo, voltage, clk, gpio55;
      this.power, this.resetAsserted, this.file := power, resetAsserted, file;
      resetFd, powerFd, ldoChanged, powerOn, clockChanged, resetReleased := false, false, false, false, false, false;
      dsChanged, restoreFailed, resetStuck, log := false, false, false, [];
    }

    /** No line is held and nothing is to be unwound. */
    ghost predicate Idle()
      reads this
    {
      !resetFd && !powerFd && !powerOn && !ldoChanged && !clockChanged && !dsChanged && !resetReleased && !resetStuck
    }

    predicate Powered()
      reads `ldo, `power, `clk
    {
      LdoOn(ldo) && power && !Gated(clk)
    }

    /** Reset is out only while the supply, GPIO95 and the clock are on. Every access below keeps this, so it
        holds between any two of them. */
    ghost predicate Safe()
      reads `ldo, `power, `clk, `resetFd, `resetAsserted, `resetStuck
    {
      resetFd && !resetAsserted && !resetStuck ==> Powered()
    }

    /** A step may move the rails as long as reset is asserted or not ours. */
    ghost predicate Free()
      reads `resetFd, `resetAsserted, `resetStuck
    {
      !resetFd || resetAsserted || resetStuck
    }

    // ---- Accesses -------------------------------------------------------------------------------------------

    method PmuWriteLdo(value: bv8, w: PmuWrite) returns (ok: bool)
      requires Free()
      modifies this`ldo
      ensures Safe() && ok == w.ok && ldo == if w.Lands() then value else old(ldo)
    {
      ok := w.ok;
      if ok || w.reached {
        ldo := value;
      }
    }

    /** A write to the clock register; the hardware may raise its busy bit. */
    method WriteClock(value: Word, raises: bool)
      requires Free()
      modifies this`clk
      ensures Safe() && clk == Written(value, raises)
    {
      clk := Written(value, raises);
    }

    /** The busy bit drops while it is looked at for the `polls`-th time; dropping at the last look is too late. */
    method WaitNotBusy(polls: nat) returns (failed: bool)
      requires Free()
      modifies this`clk
      ensures Safe() && clk == Settled(old(clk), polls) && failed == GivesUp(old(clk), polls)
    {
      BusyBits(clk);
      hide Gated, Busy, LdoOn, Raised, Cleared;
      var i := 0;
      while i < POLLS
        invariant 0 <= i <= POLLS
        invariant clk == if Busy(old(clk)) && polls < i then Cleared(old(clk)) else old(clk)
        invariant Busy(old(clk)) && polls < i ==> i == polls + 1
        invariant !Busy(old(clk)) ==> i == 0
      {
        if !Busy(clk) {
          return false;
        }
        if i == polls {
          clk := Cleared(clk);
        }
        i := i + 1;
      }
      return true;
    }

    method WriteGpio55(value: Word, takes: bool)
      modifies this`gpio55
      ensures gpio55 == if takes then value else old(gpio55)
    {
      if takes {
        gpio55 := value;
      }
    }

    method SetReset(asserted: bool, ok: bool)
      requires resetFd && (asserted || Powered())
      modifies this`resetAsserted
      ensures resetAsserted == if ok then asserted else old(resetAsserted)
      ensures ok || Free() || old(Safe()) ==> Safe()
    {
      if ok {
        resetAsserted := asserted;
      }
    }

    method SetPower(high: bool, ok: bool)
      requires powerFd && Free()
      modifies this`power
      ensures Safe() && power == if ok then high else old(power)
    {
      if ok {
        power := high;
      }
    }

    method WriteAndWait(value: Word, c: ClockWrite) returns (failed: bool)
      requires Free()
      modifies this`clk
      ensures Safe() && clk == AfterWrite(value, c) && failed == Stuck(value, c)
    {
      hide Gated, Busy, LdoOn, Powered, Safe, Written, Settled;
      WriteClock(value, c.raises);
      failed := WaitNotBusy(c.polls);
    }

    // ---- Steps ----------------------------------------------------------------------------------------------

    /** Ungates the clock, then sets divider and apply bit; the busy bit of the first write is overwritten. */
    method ClockEnable(c: ClockWrite) returns (failed: bool)
      requires Free()
      modifies this`clk
      ensures Safe() && !Gated(clk)
      ensures clk == AfterWrite(EnableWord(old(clk)), c) && failed == Stuck(EnableWord(old(clk)), c)
    {
      hide Gated, Busy, LdoOn, Powered, EnableWord, Ungated, AfterWrite, Stuck;
      var r := clk;
      var raised: bool := *;
      WriteClock(Ungated(r), raised);
      failed := WriteAndWait(EnableWord(r), c);
      EnabledIsOpen(r, c);
    }

    method ClockDisable(d: Undoing) returns (failed: bool)
      requires Free()
      modifies this`clk
      ensures Safe() && clk == Disabled(d, old(clk))
    {
      hide Gated, Busy, LdoOn, Powered, Safe, Unapplied, DisableWord, AfterWrite, Stuck;
      var r := clk;
      failed := WriteAndWait(Unapplied(r), d.unapply);
      if failed {
        return;
      }
      WriteClock(DisableWord(r), d.gateRaises);
    }

    method StepClock(up: Attempt) returns (failed: bool)
      requires Free()
      modifies this`clk, this`clockChanged, this`log
      ensures Safe() && clockChanged && !Gated(clk) && log == old(log) + [On(Clock)]
      ensures clk == AfterWrite(EnableWord(old(clk)), up.clock) && failed == Stuck(EnableWord(old(clk)), up.clock)
    {
      clockChanged := true;
      log := log + [On(Clock)];
      failed := ClockEnable(up.clock);
    }

    /** The change is flagged before it is made; it succeeds exactly when the write and the readback work. */
    method StepLdo(up: Attempt) returns (failed: bool)
      requires Free()
      modifies this`ldo, this`ldoChanged, this`log
      ensures Safe() && ldoChanged && failed == !up.LdoComes() && log == old(log) + [On(Supply)]
      ensures ldo == if up.ldo.Lands() then WithLdo(ldoOrig) else old(ldo)
      ensures up.ldo.Lands() ==> LdoOn(ldo)
    {
      WithLdoIsOn(ldoOrig);
      hide LdoOn, WithLdo;
      ldoChanged := true;
      log := log + [On(Supply)];
      var written := PmuWriteLdo(WithLdo(ldoOrig), up.ldo);
      if !written {
        return true;
      }
      var v := ReadValue(up.ldoBack, ldo);
      failed := !up.ldoBack || !LdoOn(v);
    }

    /** Requesting the line drives it low; only then is it set. */
    method StepPower(up: Attempt) returns (failed: bool)
      requires Free() && !powerFd && !powerOn
      modifies this`power, this`powerFd, this`powerOn, this`log
      ensures log == old(log) + [On(Line)]
      ensures Safe() && failed == !(up.powerLine && up.powerSet) && powerFd == up.powerLine && powerOn == !failed
      ensures power == if powerFd then powerOn else old(power)
    {
      log := log + [On(Line)];
      if !up.powerLine {
        return true;
      }
      powerFd, power := true, false;
      SetPower(true, up.powerSet);
      if !up.powerSet {
        return true;
      }
      powerOn := true;
      failed := false;
    }

    // ---- Unwind ---------------------------------------------------------------------------------------------

    /** The descriptors agree with the flags, and nothing has moved that is not flagged. */
    ghost predicate Tracked(ldo0: bv8, clk0: Word, gpio0: Word, power0: bool)
      reads this
    {
      && ldoOrig == ldo0 && clkOrig == clk0
      && (!ldoChanged ==> ldo == ldo0)
      && (!clockChanged ==> clk == clk0)
      && (if dsChanged then dsSaved == gpio0 else gpio55 == gpio0)
      && (if powerFd then power == powerOn else power == power0 && !powerOn)
    }

    /** Reset first, then the rest in reverse; every step is best effort. Each value that was changed is what its
        own write makes of it, and a clock or pinmux word that is not back raises `restoreFailed`. */
    method Unwind(d: Undoing)
      requires Safe() && !resetStuck && (powerFd ==> power == powerOn) && (!powerFd ==> !powerOn)
      modifies this`resetAsserted, this`resetStuck, this`gpio55, this`dsChanged, this`power, this`powerOn, this`ldo,
               this`ldoChanged, this`clk, this`clockChanged, this`restoreFailed, this`log
      ensures Safe()
      ensures log == old(log) + WayDown(resetFd, old(dsChanged), old(powerOn), old(ldoChanged), old(clockChanged))
      ensures resetAsserted == ((resetFd && d.reset) || old(resetAsserted))
      ensures gpio55 == if old(dsChanged) && d.pin then dsSaved else old(gpio55)
      ensures power == (old(power) && (!powerFd || !d.power))
      ensures ldo == if old(ldoChanged) then LdoBack(d, old(ldo), ldoOrig) else old(ldo)
      ensures clk == if old(clockChanged) then ClockBack(d, old(clk), clkOrig) else old(clk)
      ensures old(clockChanged) && !Busy(clkOrig) && d.restore.Settles() ==> clk == clkOrig
      ensures restoreFailed ==
                (old(restoreFailed) || (old(dsChanged) && gpio55 != dsSaved) || (old(clockChanged) && clk != clkOrig))
      ensures !dsChanged && !ldoChanged && !clockChanged && !powerOn
      ensures !resetFd ==> !resetStuck
    {
      hide Gated, Busy, LdoOn, Powered, Safe, ClockBack, LdoBack, Once, WayDown, BackFrom;
      JoinedDown(log, resetFd, dsChanged, powerOn, ldoChanged, clockChanged);
      UnwindReset(d.reset);
      UnwindRest(d);
    }

    /** Everything after reset. */
    method UnwindRest(d: Undoing)
      requires Free() && (powerFd ==> power == powerOn) && (!powerFd ==> !powerOn)
      modifies this`gpio55, this`dsChanged, this`power, this`powerOn, this`ldo, this`ldoChanged, this`clk, this`clockChanged,
               this`restoreFailed, this`log
      ensures Safe() && log == old(log) + BackFrom(old(dsChanged), old(powerOn), old(ldoChanged), old(clockChanged))
      ensures gpio55 == if old(dsChanged) && d.pin then dsSaved else old(gpio55)
      ensures power == (old(power) && (!powerFd || !d.power))
      ensures ldo == if old(ldoChanged) then LdoBack(d, old(ldo), ldoOrig) else old(ldo)
      ensures clk == if old(clockChanged) then ClockBack(d, old(clk), clkOrig) else old(clk)
      ensures old(clockChanged) && !Busy(clkOrig) && d.restore.Settles() ==> clk == clkOrig
      ensures restoreFailed ==
                (old(restoreFailed) || (old(dsChanged) && gpio55 != dsSaved) || (old(clockChanged) && clk != clkOrig))
      ensures !dsChanged && !ldoChanged && !clockChanged && !powerOn
    {
      hide Gated, Busy, LdoOn, Powered, Safe, ClockBack, LdoBack, Once, BackFrom;
      JoinedBack(log, dsChanged, powerOn, ldoChanged, clockChanged);
      UnwindPinmux(d.pin);
      UnwindSupplies(d);
      UnwindClock(d);
    }

    /** GPIO95 low, then the supply as in the snapshot; the readback is only reported. */
    method UnwindSupplies(d: Undoing)
      requires Free() && (powerFd ==> power == powerOn)
      modifies this`power, this`powerOn, this`ldo, this`ldoChanged, this`log
      ensures log == old(log) + (Once(old(powerOn) && powerFd, Off(Line)) + Once(old(ldoChanged), Off(Supply)))
      ensures Safe() && !ldoChanged && powerOn == (old(powerOn) && !powerFd)
      ensures power == (old(power) && (!powerFd || !d.power))
      ensures ldo == if old(ldoChanged) then LdoBack(d, old(ldo), ldoOrig) else old(ldo)
    {
      hide LdoOn, Gated;
      if powerOn && powerFd {
        SetPower(false, d.power);
        log := log + [Off(Line)];
        powerOn := false;
      }
      if ldoChanged {
        var written := PmuWriteLdo(ldoOrig, d.ldo);
        log := log + [Off(Supply)];
        ldoChanged := false;
      }
    }

    method UnwindReset(ok: bool)
      requires Safe() && !resetStuck
      modifies this`resetAsserted, this`resetStuck, this`log
      ensures Safe() && Free() && (!resetFd ==> !resetStuck) && resetAsserted == ((resetFd && ok) || old(resetAsserted))
      ensures log == old(log) + Once(resetFd, Off(Reset))
    {
      hide LdoOn, Gated;
      if resetFd {
        AssertReset(ok);
        log := log + [Off(Reset)];
      }
    }

    method UnwindPinmux(takes: bool)
      modifies this`gpio55, this`dsChanged, this`restoreFailed, this`log
      ensures log == old(log) + Once(old(dsChanged), Off(Pin))
      ensures !dsChanged && gpio55 == if old(dsChanged) && takes then dsSaved else old(gpio55)
      ensures restoreFailed == (old(restoreFailed) || (old(dsChanged) && gpio55 != dsSaved))
    {
      if dsChanged {
        WriteGpio55(dsSaved, takes);
        log := log + [Off(Pin)];
        var rb := gpio55;
        if rb != dsSaved {
          restoreFailed := true;
        }
        dsChanged := false;
      }
    }

    /** Gates the clock, then puts the snapshot back word for word, gated or not. */
    method UnwindClock(d: Undoing)
      requires Free()
      modifies this`clk, this`clockChanged, this`restoreFailed, this`log
      ensures log == old(log) + Once(old(clockChanged), Off(Clock))
      ensures Safe() && !clockChanged
      ensures clk == if old(clockChanged) then ClockBack(d, old(clk), clkOrig) else old(clk)
      ensures old(clockChanged) && !Busy(clkOrig) && d.restore.Settles() ==> clk == clkOrig
      ensures restoreFailed == (old(restoreFailed) || (old(clockChanged) && clk != clkOrig))
    {
      ClockBackIff(d, clk, clkOrig);
      hide Gated, Busy, LdoOn, Powered, Disabled, AfterWrite, Stuck;
      if clockChanged {
        var failed := ClockDisable(d);
        log := log + [Off(Clock)];
        if clk != clkOrig {
          failed := WriteAndWait(clkOrig, d.restore);
        }
        if clk != clkOrig {
          restoreFailed := true;
        }
        clockChanged := false;
      }
    }

    /** The first step of unwind, whose failure is not looked at. */
    method AssertReset(ok: bool)
      requires resetFd && Safe() && !resetStuck
      modifies this`resetAsserted, this`resetStuck
      ensures Safe() && Free() && resetAsserted == (ok || old(resetAsserted))
    {
      if ok {
        resetAsserted := true;
      } else {
        resetStuck := !resetAsserted;
      }
    }

    // ---- run ------------------------------------------------------------------------------------------------

    /** Exactly the first `n` steps of the order have been begun. */
    ghost predicate Flagged(appleOrder: bool, n: nat, up: Attempt)
      reads this
    {
      && clockChanged == (Place(appleOrder, Clock) < n) && ldoChanged == (Place(appleOrder, Supply) < n)
      && powerFd == (Place(appleOrder, Line) < n && up.powerLine) && powerOn == (powerFd && up.powerSet)
    }

    /** The supply, GPIO95 and the clock, in the order of the flag; `stop` is a jump to `out`. */
    method PowerUp(appleOrder: bool, spi: bool, up: Attempt,
                   ghost ldo0: bv8, ghost clk0: Word, ghost gpio0: Word, ghost power0: bool) returns (stop: bool, rc: int)
      requires resetFd && resetAsserted && !resetStuck && !powerFd && !powerOn && !ldoChanged && !clockChanged
      requires Tracked(ldo0, clk0, gpio0, power0)
      modifies this`ldo, this`ldoChanged, this`clk, this`clockChanged, this`power, this`powerFd, this`powerOn, this`log
      ensures Tracked(ldo0, clk0, gpio0, power0)
      ensures log == old(log) + First(appleOrder, Begun(up, appleOrder, clk0))
      ensures Flagged(appleOrder, Begun(up, appleOrder, clk0), up)
      ensures stop == !PowersUp(up, appleOrder, spi, clk0)
      ensures stop ==> rc == 1 || (rc == 3 && up.Signalled(3))
      ensures !stop ==> Powered() && power && powerFd && ldoChanged && clockChanged && ldo == WithLdo(ldo0)
    {
      hide Powered, Tracked, Flagged, PowersUp, First, Begun;
      if !appleOrder {
        stop, rc := DefaultOrder(spi, up, ldo0, clk0, gpio0, power0);
      } else {
        stop, rc := AppleOrder(spi, up, ldo0, clk0, gpio0, power0);
      }
    }

    /** The clock first. */
    method DefaultOrder(spi: bool, up: Attempt,
                   ghost ldo0: bv8, ghost clk0: Word, ghost gpio0: Word, ghost power0: bool) returns (stop: bool, rc: int)
      requires resetFd && resetAsserted && !resetStuck && !powerFd && !powerOn && !ldoChanged && !clockChanged
      requires Tracked(ldo0, clk0, gpio0, power0)
      modifies this`ldo, this`ldoChanged, this`clk, this`clockChanged, this`power, this`powerFd, this`powerOn, this`log
      ensures Tracked(ldo0, clk0, gpio0, power0)
      ensures log == old(log) + First(false, Begun(up, false, clk0))
      ensures Flagged(false, Begun(up, false, clk0), up)
      ensures stop == !PowersUp(up, false, spi, clk0)
      ensures stop ==> rc == 1 || (rc == 3 && up.Signalled(3))
      ensures !stop ==> Powered() && power && powerFd && ldoChanged && clockChanged && ldo == WithLdo(ldo0)
    {
      hide Gated, Busy, LdoOn, Raised, Cleared, ReadValue, WithLdo, EnableWord, AfterWrite, Stuck, First;
      FirstSteps(log);
      stop, rc := true, 1;
      var failed := StepClock(up);
      if failed { return; }
      if up.Signalled(1) { return true, 3; }
      failed := StepLdo(up);
      if failed { return; }
      if up.Signalled(2) { return true, 3; }
      failed := StepPower(up);
      if failed { return; }
      if up.Signalled(3) { return true, 3; }
      stop := false;
    }

    /** Apple's order: the clock last, and a wake frame behind it. */
    method AppleOrder(spi: bool, up: Attempt,
                   ghost ldo0: bv8, ghost clk0: Word, ghost gpio0: Word, ghost power0: bool) returns (stop: bool, rc: int)
      requires resetFd && resetAsserted && !resetStuck && !powerFd && !powerOn && !ldoChanged && !clockChanged
      requires Tracked(ldo0, clk0, gpio0, power0)
      modifies this`ldo, this`ldoChanged, this`clk, this`clockChanged, this`power, this`powerFd, this`powerOn, this`log
      ensures Tracked(ldo0, clk0, gpio0, power0)
      ensures log == old(log) + First(true, Begun(up, true, clk0))
      ensures Flagged(true, Begun(up, true, clk0), up)
      ensures stop == !PowersUp(up, true, spi, clk0)
      ensures stop ==> rc == 1 || (rc == 3 && up.Signalled(3))
      ensures !stop ==> Powered() && power && powerFd && ldoChanged && clockChanged && ldo == WithLdo(ldo0)
    {
      hide Gated, Busy, LdoOn, Raised, Cleared, ReadValue, WithLdo, EnableWord, AfterWrite, Stuck, First;
      FirstSteps(log);
      stop, rc := true, 1;
      var failed := StepLdo(up);
      if failed { return; }
      failed := StepPower(up);
      if failed { return; }
      if up.Signalled(1) { return true, 3; }
      failed := StepClock(up);
      if failed { return; }
      if up.Signalled(2) { return true, 3; }
      if spi {
        if !up.wake { return; }
      }
      if up.Signalled(3) { return true, 3; }
      stop := false;
    }

    /** The optional display-sync pinmux; the flag is set before the write, so that every exit restores. */
    method RoutePinmux(up: Attempt, ghost ldo0: bv8, ghost clk0: Word, ghost gpio0: Word, ghost power0: bool)
      returns (stop: bool, rc: int)
      requires Tracked(ldo0, clk0, gpio0, power0) && !dsChanged
      modifies this`gpio55, this`dsChanged, this`dsSaved, this`log
      ensures log == old(log) + (if Muxed(gpio0) then [] else [On(Pin)]) && dsChanged == !Muxed(gpio0)
      ensures Tracked(ldo0, clk0, gpio0, power0)
      ensures stop == !(!Muxed(gpio0) && up.pin && !up.Signalled(4))
      ensures stop ==> rc == 1 || (rc == 3 && up.Signalled(4))
      ensures !stop ==> dsChanged && Routed(gpio55) && gpio55 != gpio0
      ensures Muxed(gpio0) ==> gpio55 == gpio0 && !dsChanged
    {
      Peripheral1Routes(gpio55);
      RoutedIsMuxed(gpio55);
      hide Muxed, Routed, Peripheral1;
      var saved := gpio55;
      if Muxed(saved) { return true, 1; }
      dsSaved := saved;
      dsChanged := true;
      WriteGpio55(Peripheral1(saved), up.pin);
      log := log + [On(Pin)];
      if !Routed(gpio55) { return true, 1; }
      if up.Signalled(4) { return true, 3; }
      return false, 0;
    }

    /** Everything between the request of the reset line and `out`. It comes to its end exactly when nothing on the
        way fails and no signal arrives; reset is released only at the end, with everything on; and the writes are
        those of `WayUp`, in its order. */
    method Sequence(appleOrder: bool, pinmux: bool, spi: bool, up: Attempt,
                    ghost ldo0: bv8, ghost clk0: Word, ghost gpio0: Word, ghost power0: bool) returns (rc: int)
      requires resetFd && resetAsserted && !resetStuck && !powerFd && !powerOn && !dsChanged && !ldoChanged && !clockChanged
      requires Tracked(ldo0, clk0, gpio0, power0) && !resetReleased
      modifies this`ldo, this`ldoChanged, this`clk, this`clockChanged, this`power, this`powerFd, this`powerOn, this`gpio55,
               this`dsChanged, this`dsSaved, this`resetAsserted, this`resetReleased, this`log
      ensures Tracked(ldo0, clk0, gpio0, power0) && Safe()
      ensures log == old(log) + WayUp(up, appleOrder, pinmux, spi, clk0, gpio0)
      ensures Flagged(appleOrder, Steps(up, appleOrder, clk0), up) && dsChanged == Routes(up, appleOrder, pinmux, spi, clk0, gpio0)
      ensures rc == 0 <==> Completes(up, appleOrder, pinmux, spi, clk0, gpio0)
      ensures rc == 0 || rc == 1 || (rc == 3 && up.Signalled(6))
      ensures resetReleased == !resetAsserted && (rc == 0 ==> resetReleased)
      ensures resetReleased ==> Powered() && power && powerFd && ldoChanged && ldo == WithLdo(ldo0)
      ensures resetReleased && pinmux ==> dsChanged && gpio55 != gpio0
    {
      hide Gated, Busy, LdoOn, Muxed, Powered, WithLdo, First, Once, PowersUp, Begun, WayUp, Tracked;
      WayUpIs(log, up, appleOrder, pinmux, spi, clk0, gpio0);
      rc := 1;
      if !up.irqLine { return; }
      if up.Signalled(0) { return 3; }
      var stop;
      stop, rc := PowerUp(appleOrder, spi, up, ldo0, clk0, gpio0, power0);
      if stop { return; }
      rc := PinAndReset(pinmux, spi, up, ldo0, clk0, gpio0, power0);
    }

    /** From the power to `out`: the pin, the dummy frame, the release of reset and what follows it. */
    method PinAndReset(pinmux: bool, spi: bool, up: Attempt,
                    ghost ldo0: bv8, ghost clk0: Word, ghost gpio0: Word, ghost power0: bool) returns (rc: int)
      requires resetFd && resetAsserted && !resetStuck && !dsChanged && !resetReleased && Powered()
      requires Tracked(ldo0, clk0, gpio0, power0)
      modifies this`gpio55, this`dsChanged, this`dsSaved, this`resetAsserted, this`resetReleased, this`log
      ensures Tracked(ldo0, clk0, gpio0, power0) && Safe() && Powered()
      ensures var on := (pinmux ==> !Muxed(gpio0) && up.pin && !up.Signalled(4)) && (spi ==> up.dummy && !up.Signalled(5));
              && log == old(log) + Once(pinmux && !Muxed(gpio0), On(Pin)) + Once(on, On(Reset))
              && (rc == 0 <==> on && up.release && !up.Signalled(6) && (spi ==> up.exchange))
              && resetReleased == (on && up.release)
      ensures dsChanged == (pinmux && !Muxed(gpio0))
      ensures rc == 0 || rc == 1 || (rc == 3 && up.Signalled(6))
      ensures resetReleased == !resetAsserted
      ensures resetReleased && pinmux ==> gpio55 != gpio0
    {
      hide Gated, Busy, LdoOn, Muxed, Routed, Powered;
      rc := 1;
      if pinmux {
        var stop;
        stop, rc := RoutePinmux(up, ldo0, clk0, gpio0, power0);
        if stop { return; }
      }
      rc := 1;
      if spi {
        if !up.dummy { return; }
        if up.Signalled(5) { return 3; }
      }
      SetReset(false, up.release);
      log := log + [On(Reset)];
      if !up.release { return; }
      resetReleased := true;
      if up.Signalled(6) { return 3; }
      if spi {
        if !up.exchange { return; }
      }
      rc := 0;
    }

    /** Snapshot and reset line; where it refuses, nothing is touched. */
    method TakeSnapshot(spi: bool, up: Attempt) returns (started: bool)
      requires Idle()
      modifies this`ldoOrig, this`clkOrig, this`resetFd, this`resetAsserted
      ensures started == Starts(up, spi, ldo, voltage) && resetFd == started && Safe()
      ensures resetAsserted == (started || old(resetAsserted))
      ensures started ==> ldoOrig == ldo && clkOrig == clk
    {
      hide LdoOn;
      started := false;
      if !up.opens { return; }
      if !up.ldoSnap { return; }
      ldoOrig := ldo;
      if !up.voltSnap { return; }
      if spi {
        if !up.spiOpens { return; }
      }
      clkOrig := clk;
      if LdoOn(ldoOrig) || voltage != LDO14_VOLTAGE_EXPECTED { return; }
      if !up.resetLine { return; }
      resetFd, resetAsserted := true, true;
      started := true;
    }

    /** Each value is as it was once unwind's own write to it works, and `restoreFailed` is raised exactly for a clock
        or pinmux word that is not. */
    ghost predicate PutBack(d: Undoing, ldo0: bv8, clk0: Word, gpio0: Word, power0: bool, failed0: bool)
      reads this
    {
      && (d.ldo.Lands() ==> ldo == ldo0)
      && (!Busy(clk0) && d.restore.Settles() ==> clk == clk0)
      && (d.pin ==> gpio55 == gpio0)
      && (if powerFd then d.power ==> !power else power == power0)
      && (resetFd && d.reset ==> resetAsserted)
      && restoreFailed == (failed0 || clk != clk0 || gpio55 != gpio0)
    }

    /** A rail whose step was not begun is as it was. */
    ghost predicate OnlyBegun(appleOrder: bool, n: nat, ldo0: bv8, clk0: Word, power0: bool)
      reads this
    {
      && (n <= Place(appleOrder, Clock) ==> clk == clk0) && (n <= Place(appleOrder, Supply) ==> ldo == ldo0)
      && (n <= Place(appleOrder, Line) ==> !powerFd && power == power0)
    }

    /** From the request of the reset line to the end of unwind. Where reset was released, unwind's writes are the
        only way back. */
    method SequenceAndUnwind(appleOrder: bool, pinmux: bool, spi: bool, up: Attempt, d: Undoing,
                             ghost ldo0: bv8, ghost clk0: Word, ghost gpio0: Word, ghost power0: bool) returns (rc: int)
      requires resetFd && resetAsserted && !resetStuck && !powerFd && !powerOn && !dsChanged && !ldoChanged && !clockChanged
      requires Tracked(ldo0, clk0, gpio0, power0) && !resetReleased && !LdoOn(ldo0)
      modifies this`ldo, this`ldoChanged, this`clk, this`clockChanged, this`power, this`powerFd, this`powerOn, this`gpio55,
               this`dsChanged, this`dsSaved, this`resetAsserted, this`resetReleased, this`resetStuck, this`restoreFailed, this`log
      ensures log == old(log) + Whole(up, appleOrder, pinmux, spi, clk0, gpio0)
      ensures OnlyBegun(appleOrder, Steps(up, appleOrder, clk0), ldo0, clk0, power0)
      ensures Safe() && PutBack(d, ldo0, clk0, gpio0, power0, old(restoreFailed))
      ensures rc == 0 <==> Completes(up, appleOrder, pinmux, spi, clk0, gpio0)
      ensures rc == 0 || rc == 1 || (rc == 3 && up.Signalled(6))
      ensures rc == 0 ==> resetReleased
      ensures resetReleased ==> (d.ldo.Lands() <==> ldo == ldo0) && (d.power <==> !power) && (d.reset <==> resetAsserted)
      ensures resetReleased && pinmux ==> (d.pin <==> gpio55 == gpio0)
    {
      hide Gated, Busy, LdoOn, Completes, Powered, Safe, ClockBack, WithLdo, WayUp, WayDown, Routes, Steps, Place, Whole;
      WholeIs(log, up, appleOrder, pinmux, spi, clk0, gpio0);
      rc := Sequence(appleOrder, pinmux, spi, up, ldo0, clk0, gpio0, power0);
      WithLdoIsOn(ldoOrig);
      Unwind(d);
    }

    /** `run`: for either power order, every failure point and every signal, everything is put back. Nothing is
        touched where it refuses to start. The snapshot of the clock may be ungated: the code only notes it. */
    method Run(appleOrder: bool, pinmux: bool, spi: bool, up: Attempt, d: Undoing) returns (rc: int)
      requires Idle()
      modifies this
      ensures Safe() && PutBack(d, old(ldo), old(clk), old(gpio55), old(power), old(restoreFailed))
      ensures d.Works() && !Busy(old(clk)) ==>
                && ldo == old(ldo) && clk == old(clk) && gpio55 == old(gpio55) && (powerFd ==> !power)
                && (resetFd ==> resetAsserted) && restoreFailed == old(restoreFailed)
      ensures rc == 0 <==> Starts(up, spi, old(ldo), old(voltage)) && Completes(up, appleOrder, pinmux, spi, old(clk), old(gpio55))
      ensures rc == 0 ==> resetReleased
      ensures log == old(log) + if Starts(up, spi, old(ldo), old(voltage)) then Whole(up, appleOrder, pinmux, spi, old(clk), old(gpio55)) else []
      ensures Starts(up, spi, old(ldo), old(voltage)) ==>
                OnlyBegun(appleOrder, Steps(up, appleOrder, old(clk)), old(ldo), old(clk), old(power))
      ensures resetReleased ==>
                (d.ldo.Lands() <==> ldo == old(ldo)) && (d.power <==> !power) && (d.reset <==> resetAsserted)
      ensures resetReleased && pinmux ==> (d.pin <==> gpio55 == old(gpio55))
      ensures !Starts(up, spi, old(ldo), old(voltage)) ==>
                rc == 1 && !resetFd && !powerFd && ldo == old(ldo) && clk == old(clk) && gpio55 == old(gpio55)
      ensures !resetFd ==> resetAsserted == old(resetAsserted)
      ensures file == old(file) && voltage == old(voltage)
    {
      hide Gated, Busy, LdoOn, Completes, Powered, Safe, Whole, Steps;
      rc := 1;
      var started := TakeSnapshot(spi, up);
      if started {
        rc := SequenceAndUnwind(appleOrder, pinmux, spi, up, d, old(ldo), old(clk), old(gpio55), old(power));
      }
    }

    // ---- hold and release -----------------------------------------------------------------------------------

    /** Everything `hold` and `release` can change, as it was. */
    twostate predicate Unmoved()
      reads this
    {
      ldo == old(ldo) && clk == old(clk) && file == old(file)
    }

    method HoldSteps(up: Attempt) returns (failed: bool)
      requires Free() && !ldoChanged && !clockChanged
      modifies this`ldo, this`ldoChanged, this`clk, this`clockChanged, this`log
      ensures log == old(log) + (if up.LdoComes() then [On(Supply), On(Clock)] else [On(Supply)])
      ensures Safe() && ldoChanged && clockChanged == up.LdoComes() && (!clockChanged ==> clk == old(clk))
      ensures failed == !(up.LdoComes() && !Stuck(EnableWord(old(clk)), up.clock))
      ensures !failed ==> ldo == WithLdo(ldoOrig) && LdoOn(ldo) && !Gated(clk)
    {
      hide Gated, LdoOn, Powered, WithLdo, EnableWord, AfterWrite, Stuck;
      failed := StepLdo(up);
      if !failed {
        failed := StepClock(up);
      }
    }

    /** Snapshot and state file: nothing but the file is changed, and that only from the off state. */
    method OpenHold(up: Attempt) returns (ready: bool)
      requires Idle()
      modifies this`ldoOrig, this`clkOrig, this`file
      ensures ready == (Snapshots(up, ldo, voltage) && Gated(clk) && old(file) == Absent && up.created && up.saved)
      ensures ready ==> ldoOrig == ldo && clkOrig == clk && file == Saved(ldo, clk)
      ensures !ready ==> file == old(file) || (old(file) == Absent && file == CutShort)
      ensures LdoOn(ldo) || !Gated(clk) || voltage != LDO14_VOLTAGE_EXPECTED ==> file == old(file)
    {
      hide Gated, LdoOn;
      ready := false;
      if !up.opens { return; }
      if !up.ldoSnap { return; }
      ldoOrig := ldo;
      if !up.voltSnap { return; }
      clkOrig := clk;
      if LdoOn(ldoOrig) || voltage != LDO14_VOLTAGE_EXPECTED || !Gated(clkOrig) { return; }
      if file != Absent { return; }
      if !up.created { return; }
      if !up.saved {
        file := CutShort;
        return;
      }
      file := Saved(ldoOrig, clkOrig);
      ready := true;
    }

    /** `hold` succeeds exactly from the off state with nothing held and every access working; then the supply and
        the clock are on and the file has the values to put back. It refuses and changes nothing outside that
        state; when a step fails, each value is as it was once unwind's own write to it works. */
    method Hold(up: Attempt, d: Undoing) returns (rc: int)
      requires Idle()
      modifies this
      ensures rc == 0 <==> Holds(up, old(ldo), old(voltage), old(clk), old(file))
      ensures LdoOn(old(ldo)) || !Gated(old(clk)) || old(voltage) != LDO14_VOLTAGE_EXPECTED || old(file) != Absent ==>
                rc == 1 && Unmoved()
      ensures rc == 0 ==> LdoOn(ldo) && ldo == WithLdo(old(ldo)) && !Gated(clk) && file == Saved(old(ldo), old(clk))
      ensures rc != 0 && d.ldo.Lands() ==> ldo == old(ldo)
      ensures rc != 0 && !Busy(old(clk)) && d.restore.Settles() ==> clk == old(clk)
      ensures rc != 0 ==> restoreFailed == (old(restoreFailed) || clk != old(clk))
      ensures rc == 0 ==> restoreFailed == old(restoreFailed)
      ensures rc != 0 && old(file) == Absent ==> file == Absent || (file == CutShort && ldo == old(ldo) && clk == old(clk))
      ensures rc == 0 ==> log == old(log) + [On(Supply), On(Clock)]
      ensures rc == 0 || rc == 1
      ensures gpio55 == old(gpio55) && power == old(power) && resetAsserted == old(resetAsserted) && voltage == old(voltage)
      ensures !resetFd && !powerFd && !resetStuck && !dsChanged && !powerOn && !resetReleased
    {
      hide Gated, Busy, LdoOn, Powered, Safe, WithLdo, EnableWord, Stuck, ClockBack, WayDown;
      rc := 1;
      var ready := OpenHold(up);
      if !ready { return; }
      var failed := HoldSteps(up);
      if failed {
        Unwind(d);
        file := Absent;
        return;
      }
      rc := 0;
    }

    /** The saved values become those to unwind to. */
    method PutBackSaved(d: Undoing)
      requires !resetFd && !powerFd && !powerOn && !dsChanged && !resetStuck && file.Saved?
      modifies this
      ensures file == old(file) && ldoOrig == file.ldo && clkOrig == file.clk
      ensures ldo == LdoBack(d, old(ldo), file.ldo) && clk == ClockBack(d, old(clk), file.clk)
      ensures restoreFailed == (old(restoreFailed) || clk != file.clk)
      ensures gpio55 == old(gpio55) && power == old(power) && resetAsserted == old(resetAsserted) && voltage == old(voltage)
    {
      hide Gated, Busy, LdoOn, Powered, ClockBack, LdoBack, WayDown;
      ldoOrig, clkOrig := file.ldo, file.clk;
      ldoChanged, clockChanged := true, true;
      Unwind(d);
    }

    /** `release` does what `ReleaseResult` says and touches nothing else. */
    method Release(opens: bool, d: Undoing, readback: bool) returns (rc: int)
      requires !resetFd && !powerFd && !powerOn && !dsChanged && !resetStuck
      modifies this
      ensures Released(rc, ldo, clk, file) == ReleaseResult(old(file), old(ldo), old(clk), opens, d, readback)
      ensures restoreFailed == (old(restoreFailed) || (old(file).Saved? && opens && clk != old(file).clk))
      ensures gpio55 == old(gpio55) && power == old(power) && resetAsserted == old(resetAsserted) && voltage == old(voltage)
    {
      hide Gated, Busy, LdoOn, Powered, ClockBack, LdoBack, Safe;
      rc := 1;
      if !file.Saved? { return; }
      if !opens { return; }
      PutBackSaved(d);
      var v := ReadValue(readback, ldo);
      if v != ldoOrig || clk != clkOrig { return; }
      file := Absent;
      rc := 0;
    }

    /** `hold` followed by `release` is the identity when the accesses of the release work, and whenever it reports
        success it is the identity but for the one case of `ReleaseMissesIff`. */
    method HoldThenRelease(up: Attempt, unwinding: Undoing, opens: bool, d: Undoing, readback: bool)
      returns (held: int, released: int)
      requires Idle()
      modifies this
      ensures held == 0 <==> Holds(up, old(ldo), old(voltage), old(clk), old(file))
      ensures held == 0 && opens && d.Works() && readback && !Busy(old(clk)) ==>
                released == 0 && Unmoved() && restoreFailed == old(restoreFailed)
      ensures held == 0 && released == 0 ==> clk == old(clk) && file == old(file)
      ensures held == 0 && released == 0 ==> (ldo == old(ldo) <==> old(ldo) != 0 || d.ldo.Lands() || readback)
      ensures gpio55 == old(gpio55) && power == old(power) && resetAsserted == old(resetAsserted)
    {
      hide Gated, Busy, Stuck, EnableWord, ReleaseResult;
      WithLdoIsOn(ldo);
      hide LdoOn, WithLdo;
      held := Hold(up, unwinding);
      released := 1;
      if held == 0 {
        ghost var h, l, c := file, ldo, clk;
        released := Release(opens, d, readback);
        ReleaseMissesIff(h, l, c, opens, d, readback);
        ReleaseCleans(h, l, c, opens, d, readback);
        if d.Works() && !Busy(h.clk) {
          ReleaseWorks(h, l, c, d);
        }
      }
    }
  }

  /** A result of 0 means that the clock word is the saved one and the file is gone. */
  lemma ReleaseCleans(file: HoldFile, ldo: bv8, clk: Word, opens: bool, d: Undoing, readback: bool)
    requires file.Saved?
    ensures var r := ReleaseResult(file, ldo, clk, opens, d, readback);
            r.rc == 0 ==> opens && r.clk == file.clk && r.file == Absent
  {
    hide ClockBack;
  }

  /** A run into that case: held from a supply word of zero, then released with write and readback both failing. The
      release reports success and the supply stays on. */
  method ReleaseGap() returns (b: Board, held: int, released: int)
    ensures held == 0 && released == 0 && b.ldo == LDO14_ENABLE_BIT && b.file == Absent
  {
    b := new Board(0, LDO14_VOLTAGE_EXPECTED, CLK_GATE_OFF, 0, false, true, Absent);
    var up := Attempt(true, true, true, true, true, true, true, true, ClockWrite(false, 0), PmuWrite(true, true), true,
                      true, true, true, true, true, true, true, 9);
    assert !Busy(EnableWord(CLK_GATE_OFF));
    assert !LdoOn(0) && Gated(CLK_GATE_OFF);
    held := b.Hold(up, Lossy(CLK_GATE_OFF));
    assert b.ldo == LDO14_ENABLE_BIT;
    ghost var clk := b.clk;
    assert !Busy(CLK_GATE_OFF);
    ClockBackIff(Lossy(CLK_GATE_OFF), clk, CLK_GATE_OFF);
    hide ClockBack, Disabled;
    released := b.Release(true, Lossy(CLK_GATE_OFF), false);
  }
}
