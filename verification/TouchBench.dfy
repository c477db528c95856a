/** A run of touchdemo with one finger that ends with a wrong pixel: a target whose mean offset leaves the rows it marks
    has its dot drawn where no frame looks. boot/touchdemo.c:1036-1055, 1220-1278. */
module TouchBench {
  import opened Common
  import opened Raster
  import opened Dirty
  import opened Marker
  import opened Compositor
  import opened TouchModel
  import opened TouchDemo

  const PLAIN_FONT := Font(8, 16, false, (c, x, y) => false)

  function RoundLook(x: int, y: int): Look {
    Look(x, y, 12, 0, 0xffffff, Circle)
  }

  /** One finger on the GRID screen of an iPad. */
  ghost predicate Bench(a: App)
    reads a, a.d, a.d.canvas, a.d.back, a.d.screen
  {
    && a.Valid() && a.Tables() && a.d.Shape() && a.d.w == 1536 && a.d.h == 2048 && a.d.font == PLAIN_FONT && a.d.mode == GRID
    && a.d.hud == Rect(136, 892, 1400, 1028) && a.d.bar == Rect(136, 1028, 1400, 1156)
    && a.gcols == 12 && a.grows == 16 && |a.d.con| == 1 && Fitting(a.d.font, a.d.con) && a.d.smear * Pixels(1536, 2048) == iset{}
  }

  lemma RoundLookFits(x: int, y: int)
    ensures WellFormed(RoundLook(x, y)) && Fits(PLAIN_FONT, RoundLook(x, y))
  {
    OrdinaryContactFits(PLAIN_FONT, RoundLook(x, y));
  }

  /** The first target once a contact has been dragged from it to row 1000. */
  function DraggedTarget(): Target {
    Target(96, 96, true, 0.0, 452.0, 2)
  }

  lemma TheCell(a: App, x: int, y: int, cell: nat)
    requires Bench(a) && 0 <= x < 128 * 12 && 0 <= y < 128 * 16 && cell == y / 128 * 12 + x / 128
    requires y < 892 - 128 || x < 128
    ensures CellAt(a.G(), x, y) == Some(cell)
  {
    GlyphPixel(y / 128, x / 128, 12, cell);
  }

  /** The screen just started. */
  method NewBench() returns (a: App)
    ensures fresh(a) && fresh(a.d) && fresh(a.d.canvas) && fresh(a.d.back) && fresh(a.d.screen) && Bench(a)
    ensures a.targets == Targets(1536, 2048) && !a.d.con[0].active
    ensures a.hits[1] == a.level[1] == a.hits[48] == a.level[48] == 0
  {
    hide DirtyOk, Covered, Fits, WellFormed, App.StraysSpill;
    var d := new Display(1536, 2048, PLAIN_FONT, (mode, hud) => (x, y) => 0, GRID, 1, NoContact());
    a := new App(d, (dx, dy, n) => ("", ""));
  }

  /** A contact lands on the first target, or moves while it is held there. */
  method Drag(a: App, x: int, y: int, cell: nat)
    requires Bench(a) && a.targets == Targets(1536, 2048) && cell != 1 && cell != 48
    requires 0 <= x < 1536 && 0 <= y < 2048 && cell == y / 128 * 12 + x / 128 && x < 128
    requires if a.d.con[0].active then a.d.con[0].owner == OwnDraw && a.d.con[0].target == 0 else x == y == 96
    requires a.hits[1] == a.level[1] == a.hits[48] == a.level[48] == 0
    modifies a`hits, a`level, a.d.canvas, a.d`dirty, a.d`con
    ensures Bench(a) && a.hits[1] == a.level[1] == a.hits[48] == a.level[48] == 0
    ensures var was, c := old(a.d.con[0]), a.d.con[0];
            && c.active && c.owner == OwnDraw && c.target == 0
            && c.sumX == x + (if was.active then was.sumX else 0) && c.sumY == y + (if was.active then was.sumY else 0)
            && c.samples == 1 + (if was.active then was.samples else 0)
  {
    RoundLookFits(x, y);
    TheCell(a, x, y, cell);
    AtFirstTarget(a);
    hide App.Valid, NearestAmong, DirtyOk, Covered, MarkList, Fits, WellFormed, AfterHit, MarksAfterHit, CellAt,
         Level, Targets, Pixels;
    a.Hold(0, RoundLook(x, y), true, true);
  }

  lemma AtFirstTarget(a: App)
    requires a.targets == Targets(1536, 2048)
    ensures NearestAmong(a.targets, NTARGETS, 96, 96) == 0
  {
    NearestIs(a.targets, NTARGETS, 96, 96);
    assert Dist(a.targets, 0, 96, 96) == 0;
    assert forall i :: 1 <= i < NTARGETS ==> Dist(a.targets, i, 96, 96) > 0;
  }

  /** Nothing is marked and no contact is live. */
  predicate Idle(a: App)
    reads a, a.d
  {
    !a.d.fullDirty && a.d.dirty == [] && |a.d.con| == 1 && !a.d.con[0].active && !a.d.con[0].markerDrawn
  }

  /** A frame of the bench. */
  method BenchFrame(a: App)
    requires Bench(a)
    modifies a.d`dirty, a.d`fullDirty, a.d`con, a.d`shownHud, a.d`shownEvents, a.d`copied, a.d`smear, a.d.back, a.d.screen
    ensures Bench(a) && !a.d.fullDirty && a.d.dirty == []
    ensures var c := old(a.d.con[0]);
            a.d.con[0] == c.(marker := a.d.con[0].marker, markerDrawn := Live(c))
    ensures old(Marked(a.d.fullDirty, a.d.dirty, 96, 548)) ==> a.d.copied(96, 548) == a.d.canvas[548, 96]
    ensures a.d.copied(96, 548) ==
              if Marked(old(a.d.fullDirty), old(a.d.FrameMarks(false)), 96, 548) then a.d.canvas[548, 96] else old(a.d.copied)(96, 548)
    ensures a.d.screen[548, 96] == a.d.Composed(96, 548, a.d.copied(96, 548))
  {
    hide App.Valid, DirtyOk, Covered, MarkList, MarkerMarks, MarkersOver, MarkerRect, Fits, WellFormed, Targets,
         App.Shows, Fitting;
    ghost var smear := a.d.smear;
    assert (96, 548) in Pixels(1536, 2048) && Has(a.d.back, 96, 548);
    a.Frame(false, (x, y) => 0, (x, y) => 0);
    hide Pixels;
    SmearStays(a.d.smear, smear, Pixels(1536, 2048));
    assert (96, 548) !in a.d.smear * Pixels(1536, 2048);
  }

  lemma SmearStays(after: iset<(int, int)>, before: iset<(int, int)>, pixels: iset<(int, int)>)
    requires after * pixels <= before && before * pixels == iset{}
    ensures after * pixels == iset{}
  {
    forall p ensures p !in after * pixels {
      assert p !in before * pixels;
    }
  }

  lemma FirstTarget()
    ensures Targets(1536, 2048)[0] == Target(96, 96, false, 0.0, 0.0, 0)
  {
  }

  /** Dragged to row 1000 and lifted: the mean position is 452 rows below the target. */
  method DragFromTarget() returns (a: App)
    ensures fresh(a) && fresh(a.d) && fresh(a.d.canvas) && fresh(a.d.back) && fresh(a.d.screen) && Bench(a) && Idle(a)
    ensures a.targets == Targets(1536, 2048)[0 := DraggedTarget()]
    ensures a.hits[1] == a.level[1] == a.hits[48] == a.level[48] == 0
  {
    hide App.Valid, DirtyOk, Covered, MarkList, MarkerMarks, MarkersOver, MarkerRect, Fits, WellFormed, Targets,
         App.Shows, Pixels;
    a := NewBench();
    Drag(a, 96, 96, 0);
    Drag(a, 96, 1000, 84);
    ghost var c := a.d.con[0];
    a.Lift(0);
    FirstTarget();
    BenchFrame(a);
  }

  // What the two touches of the bench do to the dot.

  function BenchTargets(): (ts: seq<Target>)
    ensures |ts| == NTARGETS
  {
    Targets(1536, 2048)[0 := DraggedTarget()]
  }

  lemma {:induction false} OnlyNear(n: nat, k: nat, targets: seq<Target>, cell: nat, f: Font, caption: Caption,
                                    x: int, y: int, under: Color, d: seq<Rect>)
    requires k <= n <= |targets| && forall i :: k <= i < n ==> !Near(targets[i], cell, 12)
    ensures NearOver(n, targets, cell, 12, f, 1536, 2048, caption, x, y, under)
         == NearOver(k, targets, cell, 12, f, 1536, 2048, caption, x, y, under)
    ensures NearMarks(n, targets, cell, 12, false, d, 1536, 2048) == NearMarks(k, targets, cell, 12, false, d, 1536, 2048)
    decreases n - k
  {
    hide Near, TargetColor;
    if k < n {
      OnlyNear(n - 1, k, targets, cell, f, caption, x, y, under, d);
    }
  }

  lemma NearCells()
    ensures forall i :: 0 <= i < NTARGETS ==> !Near(BenchTargets()[i], 48, 12)
    ensures Near(BenchTargets()[0], 1, 12) && forall i :: 1 <= i < NTARGETS ==> !Near(BenchTargets()[i], 1, 12)
  {
  }

  /** A cell far from the targets is drawn over the dot, and marked. */
  lemma CellOverDot(a: App, was: seq<nat>, under: Color)
    requires a.Tables() && a.gcols == 12 && a.grows == 16 && a.d.w == 1536 && a.d.h == 2048 && a.targets == BenchTargets()
    requires |was| == |a.level| && was[48] == 0 && a.level[48] == a.hits[48] == 1
    ensures AfterHit(a.G(), a.hits, a.level, a.targets, Some(48), was, 96, 548, under) == Heat(1)
    ensures Covered(MarksAfterHit(a.G(), a.hits, a.level, a.targets, Some(48), was, false, []), 96, 548)
  {
    NearCells();
    var d := MarkList(false, [], CellRect(48, 12), 1536, 2048);
    assert CellRect(48, 12) == Rect(0, 512, 128, 640);
    assert In(d[0], 96, 548);
    OnlyNear(NTARGETS, 0, BenchTargets(), 48, a.d.font, a.caption, 96, 548, Heat(1), d);
  }

  /** The dragged target is near the cell next to it; its dot is drawn again, 52 rows below the rows it marks. */
  lemma DotDrawnAgain(a: App, was: seq<nat>, under: Color)
    requires a.Tables() && a.gcols == 12 && a.grows == 16 && a.d.w == 1536 && a.d.h == 2048 && a.targets == BenchTargets()
    requires |was| == |a.level| && was[1] == 0 && a.level[1] == a.hits[1] == 1
    ensures AfterHit(a.G(), a.hits, a.level, a.targets, Some(1), was, 96, 548, under) == C_WARN
    ensures forall i :: 0 <= i < |MarksAfterHit(a.G(), a.hits, a.level, a.targets, Some(1), was, false, [])| ==>
                          Within(MarksAfterHit(a.G(), a.hits, a.level, a.targets, Some(1), was, false, [])[i], Rect(0, 0, 1536, 496))
  {
    NearCells();
    var d := MarkList(false, [], CellRect(1, 12), 1536, 2048);
    DotColor(a.d.font, a.caption);
    BandsAtTop();
    assert !In(CellRect(1, 12), 96, 548);
    hide TargetColor, MarkList, CellRect, Band, Near, Targets;
    OnlyNear(NTARGETS, 1, BenchTargets(), 1, a.d.font, a.caption, 96, 548, under, d);
  }

  lemma DotColor(f: Font, caption: Caption)
    ensures TargetColor(f, 1536, 2048, caption, DraggedTarget(), 96, 548) == Some(C_WARN)
  {
    assert InDisk(96, 548, 8, 96, 548);
    hide InText, Cross;
  }

  lemma BandsAtTop()
    ensures var d := MarkList(false, [], CellRect(1, 12), 1536, 2048);
            forall i :: 0 <= i < |MarkList(false, d, Band(1536, DraggedTarget()), 1536, 2048)| ==>
              Within(MarkList(false, d, Band(1536, DraggedTarget()), 1536, 2048)[i], Rect(0, 0, 1536, 496))
  {
    var d := MarkList(false, [], CellRect(1, 12), 1536, 2048);
    MarkIsTight(false, [], CellRect(1, 12), 1536, 2048, Rect(0, 0, 1536, 496));
    hide MarkList;
    MarkIsTight(false, d, Band(1536, DraggedTarget()), 1536, 2048, Rect(0, 0, 1536, 496));
  }

  lemma FarFromTargets(a: App)
    requires a.targets == BenchTargets()
    ensures NearestAmong(a.targets, NTARGETS, 127, 639) == -1
  {
    NearestIs(a.targets, NTARGETS, 127, 639);
    assert forall i :: 0 <= i < NTARGETS ==> Dist(a.targets, i, 127, 639) >= 200 * 200;
  }

  /** A touch outside the panels lands in its cell. */
  method Touch(a: App, x: int, y: int, cell: nat)
    requires Bench(a) && Idle(a) && a.targets == BenchTargets()
    requires 0 <= x < 1536 && 0 <= y < 892 - 128 && cell == y / 128 * 12 + x / 128
    modifies a`hits, a`level, a.d.canvas, a.d`dirty, a.d`con
    ensures Bench(a) && !a.d.fullDirty && !a.d.con[0].markerDrawn
    ensures a.hits == Bumped(old(a.hits), Some(cell)) && a.level == Relevelled(old(a.level), a.hits, Some(cell))
    ensures a.d.canvas[548, 96] == AfterHit(a.G(), a.hits, a.level, a.targets, Some(cell), old(a.level), 96, 548, old(a.d.canvas[548, 96]))
    ensures a.d.dirty == MarksAfterHit(a.G(), a.hits, a.level, a.targets, Some(cell), old(a.level), false, [])
    ensures var c := a.d.con[0];
            c.active && c.owner == OwnDraw && c.look == RoundLook(x, y) && c.target == NearestAmong(a.targets, NTARGETS, x, y)
  {
    RoundLookFits(x, y);
    TheCell(a, x, y, cell);
    assert Has(a.d.canvas, 96, 548);
    a.OkNow();
    LandsOnGrid(a.G(), a.Now(), 0, RoundLook(x, y));
    hide App.Valid, DirtyOk, Covered, MarkList, Fits, WellFormed, CellAt, AfterHit, MarksAfterHit, Level, BenchTargets, NearestAmong,
         Pixels, Take, TakePixel, Settle, OwnerAt, Bumped, Relevelled, StateOk;
    a.Hold(0, RoundLook(x, y), true, true);
  }

  /** A second touch in the cell of the dot, far from any target, paints the cell over the dot. */
  method TouchDot(a: App)
    requires Bench(a) && Idle(a) && a.targets == BenchTargets()
    requires a.hits[1] == a.level[1] == a.hits[48] == a.level[48] == 0
    modifies a`hits, a`level, a.d.canvas, a.d`dirty, a.d`con
    ensures Bench(a) && a.hits[1] == a.level[1] == 0 && a.d.canvas[548, 96] == Heat(1)
    ensures Covered(a.d.dirty, 96, 548) && a.d.con[0].active && a.d.con[0].owner == OwnDraw && a.d.con[0].target == -1
  {
    FarFromTargets(a);
    assert Level(1, 0) == 1;
    hide Bench, Covered, AfterHit, MarksAfterHit, Level, Heat, BenchTargets, NearestAmong;
    ghost var was, under := a.level, a.d.canvas[548, 96];
    Touch(a, 127, 639, 48);
    CellOverDot(a, was, under);
  }

  /** The next frames show it, and the touch is lifted. */
  method PaintOverDot(a: App)
    requires Bench(a) && Idle(a) && a.targets == BenchTargets()
    requires a.hits[1] == a.level[1] == a.hits[48] == a.level[48] == 0
    modifies a`hits, a`level, a`targets, a.d, a.d.canvas, a.d.back, a.d.screen
    ensures Bench(a) && Idle(a) && a.targets == old(a.targets) && a.hits[1] == a.level[1] == 0
    ensures a.d.copied(96, 548) == a.d.canvas[548, 96] == Heat(1)
  {
    TouchDot(a);
    hide App.Valid, DirtyOk, Covered, MarkList, MarkerMarks, MarkersOver, MarkerRect, Fits, WellFormed, Pixels, Heat, BenchTargets;
    BenchFrame(a);
    a.Lift(0);
    BenchFrame(a);
  }

  /** A third touch beside the target draws its dot again, and the next frame does not show it: the screen keeps the
      colour of the cell where the recomposition has the dot. */
  method StaleTarget() returns (a: App)
    ensures fresh(a) && Bench(a) && !a.d.fullDirty && a.d.dirty == []
    ensures a.d.screen[548, 96] == Heat(1) && a.d.Scene(96, 548) == C_WARN
  {
    a := DragFromTarget();
    PaintOverDot(a);
    assert Level(1, 0) == 1;
    hide App.Valid, DirtyOk, Covered, MarkList, MarkersOver, MarkerRect, Fits, WellFormed, Targets,
         App.Shows, Pixels, AfterHit, MarksAfterHit, Level, Heat, BenchTargets, NearestAmong;
    ghost var was, under := a.level, a.d.canvas[548, 96];
    Touch(a, 200, 96, 1);
    DotDrawnAgain(a, was, under);
    NextMarks(a);
    BenchFrame(a);
    BenchMarker(a, a.d.copied(96, 548));
    BenchMarker(a, a.d.canvas[548, 96]);
  }

  /** The third touch's marker is in the marked rows too. */
  lemma NextMarks(a: App)
    requires Bench(a) && !a.d.fullDirty && !a.d.con[0].markerDrawn && a.d.con[0].look == RoundLook(200, 96)
    requires forall i :: 0 <= i < |a.d.dirty| ==> Within(a.d.dirty[i], Rect(0, 0, 1536, 496))
    ensures !Covered(a.d.FrameMarks(false), 96, 548)
  {
    hide App.Valid, MarkList, Fits, WellFormed, Pixels;
    MarkIsTight(false, a.d.dirty, MarkerRect(PLAIN_FONT, RoundLook(200, 96)), 1536, 2048, Rect(0, 0, 1536, 496));
    var d := a.d.FrameMarks(false);
    var none := MarkerMarks(PLAIN_FONT, a.d.con, 0, false, false, a.d.dirty, 1536, 2048);
    assert none == a.d.dirty;
    assert d == MarkerMarks(PLAIN_FONT, a.d.con, 1, false, false, a.d.dirty, 1536, 2048);
    assert forall i :: 0 <= i < |d| ==> Within(d[i], Rect(0, 0, 1536, 496));
  }

  /** No marker and no panel is at the dot. */
  lemma BenchMarker(a: App, base: Color)
    requires Bench(a) && a.d.con[0].look == RoundLook(200, 96)
    ensures a.d.Composed(96, 548, base) == base
  {
    hide App.Valid, Fits, WellFormed, Pixels, MarkerColor, MarkersOver;
    if Inked(a.d.font, a.d.con, 96, 548) {
      FittingInk(a.d.font, a.d.con, 96, 548);
    }
    NoInkHere(a.d.font, a.d.con, 1, 96, 548, base);
  }
}
