/** Contacts, buttons and the GRID screen of touchdemo over the renderer: each method against the model of what it does.
    boot/touchdemo.c:1024-1126, 1158-1278, 1289-1386. */
module TouchDemo {
  import opened Common
  import opened Raster
  import opened Dirty
  import opened Marker
  import opened Compositor
  import opened TouchModel

  class App {
    const d: Display
    const caption: Caption
    const gcols: nat
    const grows: nat
    var hits: seq<nat>
    var level: seq<nat>
    var targets: seq<Target>

    /** `grid_setup` and the first canvas. */
    constructor (d: Display, caption: Caption)
      requires d.Valid() && d.w > 0
      requires forall s :: 0 <= s < |d.con| ==> d.con[s].target < NTARGETS
      requires d.hud == HudRect(d.font, d.w, d.h, d.mode, d.hudVisible) && d.bar == BarRect(d.font, d.w, d.h, d.mode)
      modifies d`dirty, d`fullDirty, d.canvas
      ensures this.d == d && this.caption == caption && Valid() && TargetsFit() && d.fullDirty
      ensures gcols == d.w / CELL && (gcols * (d.h / CELL) <= MAX_CELLS ==> grows == d.h / CELL)
      ensures |hits| == |level| && forall c :: 0 <= c < |hits| ==> hits[c] == level[c] == 0
      ensures targets == Targets(d.w, d.h)
      ensures forall v, u | Has(d.canvas, u, v) :: d.canvas[v, u] == ResetPixel(G(), Now(), u, v)
    {
      var cols, rows := d.w / CELL, d.h / CELL;
      if cols * rows > MAX_CELLS {
        rows := MAX_CELLS / cols;
      }
      this.d, this.caption := d, caption;
      gcols, grows := cols, rows;
      hits, level := seq(cols * rows, i => 0), seq(cols * rows, i => 0);
      targets := Targets(d.w, d.h);
      new;
      SomeColumnsIfCells();
      CanvasReset();
      d.FullIsValid();
    }

    ghost function G(): Setting {
      Setting(d.font, d.w, d.h, gcols, grows, caption)
    }

    /** The state the program is in, without the canvas and what the renderer keeps. */
    ghost function Now(): State
      reads this, d
    {
      State(d.mode, d.hudVisible, d.fullDirty, hits, level, targets, Bares(d.con))
    }

    predicate Tables()
      reads this
    {
      && |hits| == |level| == gcols * grows && (hits != [] ==> gcols > 0) && |targets| == NTARGETS
      && d.w > 0
    }

    /** Some target draws at the pixel outside the rows it marks. */
    predicate Spill(x: int, y: int)
      reads `targets
    {
      exists i :: 0 <= i < |targets| && Spills(d.font, d.w, d.h, caption, targets[i], x, y)
    }

    /** The canvas changes unmarked only where a target of the GRID screen is drawn outside its rows. */
    ghost predicate StraysSpill()
      requires d.Shape()
      reads this, d, d.canvas
    {
      forall v, u | Has(d.canvas, u, v) && d.Stray(u, v) :: d.mode == GRID && Spill(u, v)
    }

    ghost predicate Valid()
      reads this, d, d.canvas, d.back, d.screen
    {
      && Tables() && d.Valid() && StraysSpill() && (forall s :: 0 <= s < |d.con| ==> d.con[s].target < NTARGETS)
      && d.hud == HudRect(d.font, d.w, d.h, d.mode, d.hudVisible) && d.bar == BarRect(d.font, d.w, d.h, d.mode)
    }

    /** Where every target fits, none does. */
    lemma NoSpill(x: int, y: int)
      requires TargetsFit() && 0 <= x < d.w
      ensures !Spill(x, y)
    {
      hide TargetFits, TargetColor, Band;
      if Spill(x, y) {
        var i :| 0 <= i < |targets| && Spills(d.font, d.w, d.h, caption, targets[i], x, y);
        TargetConfined(d.font, d.w, d.h, caption, targets[i], x, y);
      }
    }

    /** Every finished target can be redrawn in place. */
    predicate TargetsFit()
      reads this
    {
      forall i :: 0 <= i < |targets| ==> TargetFits(d.font, targets[i])
    }

    lemma SomeColumns(c: nat)
      requires c < gcols * grows
      ensures gcols > 0
    {
    }

    method DrawCell(c: nat)
      requires Tables() && c < |hits| && gcols > 0 && d.Shape() && d.ListOk()
      modifies d.canvas, d`dirty
      ensures d.ListOk() && d.dirty == MarkList(d.fullDirty, old(d.dirty), CellRect(c, gcols), d.w, d.h)
      ensures forall v, u | Has(d.canvas, u, v) ::
                d.canvas[v, u] == if In(CellRect(c, gcols), u, v) then
                                    CellPixel(CellRect(c, gcols), level[c], IsEdge(c, gcols, grows) && hits[c] == 0, u, v)
                                  else old(d.canvas[v, u])
      ensures forall x, y | old(Marked(d.fullDirty, d.dirty, x, y)) :: Marked(d.fullDirty, d.dirty, x, y)
      ensures forall v, u | Has(d.canvas, u, v) && In(CellRect(c, gcols), u, v) :: Marked(d.fullDirty, d.dirty, u, v)
    {
      hide DirtyOk, Covered, MarkList, Heat, IsEdge;
      var r := CellRect(c, gcols);
      assert r.x1 == r.x0 + CELL && r.y1 == r.y0 + CELL by { CellSize(c, gcols); }
      hide CellRect;
      Fill(d.canvas, r, Heat(level[c]));
      FrameRect(d.canvas, r, 1, 0x303030);
      if IsEdge(c, gcols, grows) && hits[c] == 0 {
        FrameRect(d.canvas, Inner(r), 3, 0xa05010);
      }
      d.Mark(r);
    }

    method DrawTarget(i: nat)
      requires Tables() && i < NTARGETS && d.Shape() && d.ListOk()
      modifies d.canvas, d`dirty
      ensures d.ListOk() && d.dirty == MarkList(d.fullDirty, old(d.dirty), Band(d.w, targets[i]), d.w, d.h)
      ensures forall v, u | Has(d.canvas, u, v) ::
                d.canvas[v, u] == Over(TargetColor(d.font, d.w, d.h, caption, targets[i], u, v), old(d.canvas[v, u]))
      ensures forall x, y | old(Marked(d.fullDirty, d.dirty, x, y)) :: Marked(d.fullDirty, d.dirty, x, y)
      ensures forall v, u | Has(d.canvas, u, v) && In(Band(d.w, targets[i]), u, v) :: Marked(d.fullDirty, d.dirty, u, v)
    {
      hide DirtyOk, Covered, MarkList, InDisk, InRing, InText, LRound, TextX, TextY;
      var t := targets[i];
      var c := if t.done then C_OK else 0xffffff;
      Ring(d.canvas, t.x, t.y, 60, 4, c);
      Ring(d.canvas, t.x, t.y, 20, 3, c);
      HLine(d.canvas, t.x - 80, t.x + 81, t.y, 3, c);
      VLine(d.canvas, t.x, t.y - 80, t.y + 81, 3, c);
      if t.done {
        var lines := caption(t.dx, t.dy, t.samples);
        var lx, ly := TextX(d.font, d.w, t), TextY(d.font, d.h, t);
        DrawText(d.canvas, d.font, lx, ly, lines.0, C_OK);
        DrawText(d.canvas, d.font, lx, ly + d.font.lh, lines.1, C_DIM);
        Disk(d.canvas, t.x + LRound(t.dx), t.y + LRound(t.dy), 8, C_WARN);
      }
      d.Mark(Band(d.w, t));
    }

    method PaintGridLines()
      requires d.Shape()
      modifies d.canvas
      ensures forall v, u | Has(d.canvas, u, v) :: d.canvas[v, u] == if OnGridLine(u, v) then C_GRIDLN else old(d.canvas[v, u])
    {
      var x := CELL;
      while x < d.w
        invariant x > 0 && x % CELL == 0
        invariant forall v, u | Has(d.canvas, u, v) ::
            d.canvas[v, u] == if 0 < u < x && u % CELL == 0 then C_GRIDLN else old(d.canvas[v, u])
      {
        VLine(d.canvas, x, 0, d.h, 1, C_GRIDLN);
        x := x + CELL;
      }
      label Columns:
      var y := CELL;
      while y < d.h
        invariant y > 0 && y % CELL == 0
        invariant forall v, u | Has(d.canvas, u, v) ::
            d.canvas[v, u] == if 0 < v < y && v % CELL == 0 then C_GRIDLN else old@Columns(d.canvas[v, u])
      {
        HLine(d.canvas, 0, d.w, y, 1, C_GRIDLN);
        y := y + CELL;
      }
    }

    method PaintGridScreen()
      requires Tables() && d.Shape() && d.ListOk()
      modifies d.canvas, d`dirty
      ensures d.ListOk()
      ensures forall v, u | Has(d.canvas, u, v) ::
                d.canvas[v, u] == TargetsOver(NTARGETS, targets, d.font, d.w, d.h, caption, u, v,
                                    CellsOver(|hits|, hits, level, gcols, grows, u, v, old(d.canvas[v, u])))
    {
      hide DirtyOk, TargetColor, CellPixel, CellRect, IsEdge;
      var c := 0;
      while c < gcols * grows
        invariant 0 <= c <= |hits| && d.ListOk() && (c > 0 ==> gcols > 0)
        invariant forall v, u | Has(d.canvas, u, v) ::
            d.canvas[v, u] == CellsOver(c, hits, level, gcols, grows, u, v, old(d.canvas[v, u]))
      {
        SomeColumns(c);
        DrawCell(c);
        c := c + 1;
      }
      label Cells:
      var i := 0;
      while i < NTARGETS
        invariant 0 <= i <= NTARGETS && d.ListOk()
        invariant forall v, u | Has(d.canvas, u, v) ::
            d.canvas[v, u] == TargetsOver(i, targets, d.font, d.w, d.h, caption, u, v, old@Cells(d.canvas[v, u]))
      {
        DrawTarget(i);
        i := i + 1;
      }
    }

    lemma SomeColumnsIfCells()
      ensures gcols * grows > 0 ==> gcols > 0
    {
    }

    method CanvasReset()
      requires Tables() && d.Shape() && d.ListOk()
      modifies d.canvas, d`dirty, d`fullDirty
      ensures d.fullDirty && d.dirty == []
      ensures forall v, u | Has(d.canvas, u, v) :: d.canvas[v, u] == ResetPixel(G(), Now(), u, v)
    {
      hide TargetsOver, CellsOver, DirtyOk, OnGridLine;
      SomeColumnsIfCells();
      Fill(d.canvas, Rect(0, 0, d.w, d.h), C_BG);
      if d.mode == PAINT {
        PaintGridLines();
      } else if d.mode == GRID {
        PaintGridScreen();
      }
      d.MarkFull();
    }

    /** No mark is lost, and a pixel goes stray only where a target spills. */
    twostate predicate OnlySpills()
      requires d.Shape()
      reads this, d, d.canvas
    {
      && (forall x, y | old(Marked(d.fullDirty, d.dirty, x, y)) :: Marked(d.fullDirty, d.dirty, x, y))
      && forall v, u | Has(d.canvas, u, v) && d.Stray(u, v) :: old(d.Stray(u, v)) || Spill(u, v)
    }

    /** The targets near a redrawn cell are redrawn over it. */
    method RedrawTargets(cell: nat, cx: int, cy: int)
      requires Tables() && d.Shape() && d.ListOk() && gcols > 0 && cx == cell % gcols && cy == cell / gcols
      modifies d.canvas, d`dirty
      ensures d.ListOk() && OnlySpills()
      ensures d.dirty == NearMarks(NTARGETS, targets, cell, gcols, d.fullDirty, old(d.dirty), d.w, d.h)
      ensures forall v, u | Has(d.canvas, u, v) ::
                d.canvas[v, u] == NearOver(NTARGETS, targets, cell, gcols, d.font, d.w, d.h, caption, u, v, old(d.canvas[v, u]))
    {
      hide DirtyOk, Covered, MarkList, TargetColor, Band;
      var t := 0;
      while t < NTARGETS
        invariant 0 <= t <= NTARGETS && d.ListOk() && OnlySpills()
        invariant d.dirty == NearMarks(t, targets, cell, gcols, d.fullDirty, old(d.dirty), d.w, d.h)
        invariant forall v, u | Has(d.canvas, u, v) ::
            d.canvas[v, u] == NearOver(t, targets, cell, gcols, d.font, d.w, d.h, caption, u, v, old(d.canvas[v, u]))
      {
        if Abs(TDiv(targets[t].x, CELL) - cx) <= 1 && Abs(TDiv(targets[t].y, CELL) - cy) <= 1 {
          label Before:
          DrawTarget(t);
          forall v, u | Has(d.canvas, u, v) && d.Stray(u, v) ensures old@Before(d.Stray(u, v)) || Spill(u, v) {
            if d.canvas[v, u] != old@Before(d.canvas[v, u]) {
              assert Spills(d.font, d.w, d.h, caption, targets[t], u, v);
            }
          }
        }
        t := t + 1;
      }
    }

    /** A touch counts for its cell; the cell and the targets near it are redrawn when its colour changes. */
    method HitCell(sx: int, sy: int)
      requires Tables() && d.Shape() && d.ListOk()
      modifies this`hits, this`level, d.canvas, d`dirty
      ensures Tables() && d.ListOk() && OnlySpills()
      ensures hits == Bumped(old(hits), CellAt(G(), sx, sy)) && level == Relevelled(old(level), hits, CellAt(G(), sx, sy))
      ensures d.dirty == MarksAfterHit(G(), hits, level, targets, CellAt(G(), sx, sy), old(level), d.fullDirty, old(d.dirty))
      ensures forall v, u | Has(d.canvas, u, v) ::
                d.canvas[v, u] == AfterHit(G(), hits, level, targets, CellAt(G(), sx, sy), old(level), u, v, old(d.canvas[v, u]))
    {
      hide DirtyOk, Covered, MarkList, Excluded, Level, AfterHit, MarksAfterHit;
      var cx, cy := TDiv(sx, CELL), TDiv(sy, CELL);
      ghost var at := CellAt(G(), sx, sy);
      NoHit(G(), hits, level, targets, at);
      if gcols > 0 && 0 <= cx < gcols && 0 <= cy < grows {
        CellInTable(G(), cx, cy);
        var cell := cy * gcols + cx;
        if !Excluded(Setting(d.font, d.w, d.h, gcols, grows, caption), cell) {
          assert at == Some(cell);
          GlyphPixel(cy, cx, gcols, cell);
          Recolour(cell, cx, cy);
        }
      }
    }

    method Recolour(cell: nat, cx: int, cy: int)
      requires Tables() && d.Shape() && d.ListOk() && cell < |hits| && gcols > 0 && cx == cell % gcols && cy == cell / gcols
      modifies this`hits, this`level, d.canvas, d`dirty
      ensures Tables() && d.ListOk() && OnlySpills()
      ensures hits == Bumped(old(hits), Some(cell)) && level == Relevelled(old(level), hits, Some(cell))
      ensures d.dirty == MarksAfterHit(G(), hits, level, targets, Some(cell), old(level), d.fullDirty, old(d.dirty))
      ensures forall v, u | Has(d.canvas, u, v) :: d.canvas[v, u] == AfterHit(G(), hits, level, targets, Some(cell), old(level), u, v, old(d.canvas[v, u]))
    {
      hide DirtyOk, Covered, MarkList, Level, CellPixel, CellRect, IsEdge, NearOver, NearMarks;
      hits := hits[cell := (hits[cell] + 1) % 0x1_0000_0000];
      var lvl := LevelOf(hits[cell]);
      if lvl != level[cell] {
        level := level[cell := lvl];
        DrawCell(cell);
        RedrawTargets(cell, cx, cy);
      }
    }

    /** `contact_move` in GRID mode. */
    method GridMove(s: nat)
      requires Valid() && s < |d.con| && d.mode == GRID && d.con[s].owner == OwnDraw && gcols > 0
      modifies this`hits, this`level, d.canvas, d`dirty, d`con
      ensures Valid() && d.con == old(d.con)[s := Moved(Counted(old(d.con)[s]))]
      ensures var at := CellAt(G(), old(d.con)[s].look.sx, old(d.con)[s].look.sy);
              && hits == Bumped(old(hits), at) && level == Relevelled(old(level), hits, at)
              && d.dirty == MarksAfterHit(G(), hits, level, targets, at, old(level), d.fullDirty, old(d.dirty))
              && forall v, u | Has(d.canvas, u, v) ::
                   d.canvas[v, u] == AfterHit(G(), hits, level, targets, at, old(level), u, v, old(d.canvas[v, u]))
    {
      hide DirtyOk, Covered, MarkList, CellAt, Bumped, Relevelled, AfterHit, MarksAfterHit, Spill;
      var c := d.con[s];
      HitCell(c.look.sx, c.look.sy);
      if c.target >= 0 {
        c := c.(sumX := c.sumX + c.look.sx, sumY := c.sumY + c.look.sy, samples := c.samples + 1);
      }
      d.con := d.con[s := c.(psx := c.look.sx, psy := c.look.sy, hasPrev := true)];
      d.StillValid();
    }

    // ---- Buttons --------------------------------------------------------------------------------------------

    /** Whatever a button does, the next frame redraws everything. */
    method DoButton(b: int)
      requires Valid()
      modifies this`hits, this`level, this`targets, d`mode, d`hudVisible, d`hud, d`bar, d`dirty, d`fullDirty, d.canvas
      ensures Valid() && Now() == Press(old(Now()), b)
      ensures forall v, u | Has(d.canvas, u, v) :: d.canvas[v, u] == if 0 <= b <= 4 then ResetPixel(G(), Now(), u, v) else old(d.canvas[v, u])
      ensures !(0 <= b <= 4) ==> d.dirty == old(d.dirty) && d.hud == old(d.hud) && d.bar == old(d.bar)
    {
      hide DirtyOk, Covered, ResetPixel, Spill;
      if 0 <= b <= 2 {
        d.mode := if b == 0 then PAINT else if b == 1 then GRID else EVENTS;
        d.Layout();
        CanvasReset();
        d.FullIsValid();
      } else if b == 3 {
        if d.mode == GRID {
          hits, level := seq(|hits|, i => 0), seq(|level|, i => 0);
          var was := targets;
          targets := seq(|was|, i requires 0 <= i < |was| => was[i].(done := false, samples := 0));
        }
        CanvasReset();
        d.FullIsValid();
      } else if b == 4 {
        d.hudVisible := !d.hudVisible;
        d.Layout();
        CanvasReset();
        d.FullIsValid();
      }
    }

    // ---- Contacts coming, moving and going --------------------------------------------------------------------

    method NearestTarget(x: int, y: int) returns (best: int)
      requires Tables()
      ensures best == NearestAmong(targets, NTARGETS, x, y)
    {
      hide Sq;
      best := -1;
      var bd := 200 * 200;
      var i := 0;
      while i < NTARGETS
        invariant 0 <= i <= NTARGETS && best == NearestAmong(targets, i, x, y)
        invariant bd == if best == -1 then 200 * 200 else Dist(targets, best, x, y)
      {
        var dist := Sq(x - targets[i].x) + Sq(y - targets[i].y);
        if dist < bd {
          bd := dist;
          best := i;
        }
        i := i + 1;
      }
    }

    method ContactDown(s: nat, known: bool)
      requires Valid() && s < |d.con|
      modifies d`con
      ensures Valid() && d.con == old(d.con)[s := Landed(G(), old(Now()), old(d.con)[s], known)]
      ensures Now() == old(Now()).(con := old(Now()).con[s := Landed(G(), old(Now()), old(Now()).con[s], known)])
    {
      hide DirtyOk, Covered, Dist, NearestAmong, ButtonAt, BarRect, HudRect;
      BareLanded(G(), Now(), d.con[s], known);
      var c := d.con[s].(owner := OwnDraw, target := -1, hasPrev := false, sumX := 0, sumY := 0, samples := 0);
      if !known {
        c := c.(owner := OwnHud);
      } else if In(d.bar, c.look.sx, c.look.sy) {
        c := c.(owner := OwnBar, button := ButtonAt(d.bar, c.look.sx, c.look.sy));
      } else if In(d.hud, c.look.sx, c.look.sy) && d.mode != PAINT {
        c := c.(owner := OwnHud);
      } else if d.mode == GRID {
        var best := NearestTarget(c.look.sx, c.look.sy);
        c := c.(target := best);
      }
      SetContact(s, c);
    }

    /** Replacing a contact keeps the invariant when its marker is left alone. */
    method SetContact(s: nat, c: Contact)
      requires Valid() && s < |d.con| && c.marker == d.con[s].marker && c.markerDrawn == d.con[s].markerDrawn && c.target < NTARGETS
      modifies d`con
      ensures Valid() && d.con == old(d.con)[s := c] && Now() == old(Now()).(con := old(Now()).con[s := Bare(c)])
    {
      hide DirtyOk, Covered, Spill;
      BaresUpdate(d.con, s, c);
      d.con := d.con[s := c];
      d.StillValid();
    }

    method ContactMove(s: nat)
      requires Valid() && s < |d.con| && d.con[s].look.r >= 0
      modifies this`hits, this`level, d.canvas, d`dirty, d`con
      ensures Valid() && Now() == Move(G(), old(Now()), s)
      ensures d.con == old(d.con)[s := MovedAs(G(), d.mode, old(d.con)[s])]
      ensures forall v, u | Has(d.canvas, u, v) :: d.canvas[v, u] == MovePixel(G(), old(Now()), s, u, v, old(d.canvas[v, u]))
      ensures d.mode != PAINT || old(d.con)[s].owner != OwnDraw ==>
                d.dirty == MarksAfterHit(G(), hits, level, targets, CountsFor(G(), d.mode, old(d.con)[s]), old(level), d.fullDirty, old(d.dirty))
    {
      hide DirtyOk, Covered, MarkList, AfterHit, MarksAfterHit, Spill, CellAt, Bumped, Relevelled, Segment.Inks, Move, MovePixel,
           Display.Valid, StraysSpill, StateOk;
      BaresUpdate(d.con, s, MovedAs(G(), d.mode, d.con[s]));
      BareMoved(G(), d.mode, d.con[s]);
      assert StateOk(G(), Now()) by { OkNow(); }
      if d.con[s].owner == OwnDraw && d.mode == GRID {
        MoveCounted(G(), Now(), s);
      }
      NoColumns(G(), d.con[s].look.sx, d.con[s].look.sy);
      if CountsFor(G(), d.mode, d.con[s]).None? {
        MoveUncounted(G(), Now(), s);
      }
      if d.con[s].owner != OwnDraw {
        assert d.con[s := d.con[s]] == d.con;
        return;
      }
      if d.mode == PAINT {
        PaintTrail(s);
      } else if d.mode == GRID && gcols > 0 {
        GridMove(s);
      } else {
        SetContact(s, Moved(d.con[s]));
      }
    }

    method PaintTrail(s: nat)
      requires Valid() && s < |d.con| && d.con[s].look.r >= 0 && d.mode == PAINT && d.con[s].owner == OwnDraw
      modifies d.canvas, d`dirty, d`con
      ensures Valid() && d.con == old(d.con)[s := Moved(old(d.con)[s])]
      ensures forall v, u | Has(d.canvas, u, v) ::
                d.canvas[v, u] == if Trail(old(d.con)[s]).Inks(u, v) then old(d.con)[s].look.color else old(d.canvas[v, u])
    {
      hide DirtyOk, Covered, MarkList, Spill, Segment.Inks;
      d.PaintMove(s);
    }

    lemma OkNow()
      requires Valid()
      ensures StateOk(G(), Now())
    {
      hide DirtyOk, Covered, Spill, Display.Valid, StraysSpill;
    }

    lemma NoColumns(g: Setting, x: int, y: int)
      ensures g.gcols == 0 ==> CellAt(g, x, y).None?
    {
    }

    /** A lifted contact presses its button if it is still on it, or reports to its target; either redraws
        everything, and otherwise nothing changes. */
    method ContactUp(s: nat)
      requires Valid() && s < |d.con|
      modifies this`hits, this`level, this`targets, d`mode, d`hudVisible, d`hud, d`bar, d`dirty, d`fullDirty, d.canvas
      ensures Valid() && Now() == Up(G(), old(Now()), s)
      ensures forall v, u | Has(d.canvas, u, v) :: d.canvas[v, u] == UpPixel(G(), old(Now()), s, u, v, old(d.canvas[v, u]))
      ensures !old(Presses(G(), d.mode, d.con[s])) && !old(Finishes(d.mode, d.con[s])) ==> d.dirty == old(d.dirty)
      ensures !old(Presses(G(), d.mode, d.con[s])) ==> d.hud == old(d.hud) && d.bar == old(d.bar)
    {
      hide DirtyOk, Covered, ResetPixel, Spill, ButtonAt;
      var c := d.con[s];
      if c.owner == OwnBar {
        if c.button >= 0 && ButtonAt(d.bar, c.look.sx, c.look.sy) == c.button {
          ButtonRange(d.bar, c.look.sx, c.look.sy);
          DoButton(c.button);
        }
      } else if d.mode == GRID && c.target >= 0 && c.samples > 0 {
        targets := targets[c.target := Finished(targets[c.target], c)];
        CanvasReset();
        d.FullIsValid();
      }
    }

    // ---- One report -------------------------------------------------------------------------------------------

    /** A held slot of a report. */
    method Hold(s: nat, look: Look, changed: bool, known: bool)
      requires Valid() && s < |d.con| && look.r >= 0
      modifies this`hits, this`level, d.canvas, d`dirty, d`con
      ensures Valid() && |d.con| == |old(d.con)| && Now() == Take(G(), old(Now()), s, Held(look, changed, known))
      ensures forall v, u | Has(d.canvas, u, v) ::
                d.canvas[v, u] == TakePixel(G(), old(Now()), s, Held(look, changed, known), u, v, old(d.canvas[v, u]))
      ensures d.con[s].marker == old(d.con)[s].marker && d.con[s].markerDrawn == old(d.con)[s].markerDrawn
      ensures var c := Settle(G(), old(Now()), s, look, known).con[s];
              (changed || !old(d.con)[s].active) && (d.mode != PAINT || c.owner != OwnDraw) ==>
                d.dirty == MarksAfterHit(G(), hits, level, targets, CountsFor(G(), d.mode, c), old(level), d.fullDirty, old(d.dirty))
    {
      hide DirtyOk, Covered, MarkList, Spill, Move, MovePixel, MarksAfterHit, Display.Valid, StraysSpill, OwnerAt, NearestAmong,
           ButtonAt, BarRect;
      var was := d.con[s].active;
      ghost var start := Now();
      SetContact(s, d.con[s].(look := look, active := true));
      if !was {
        ContactDown(s, known);
      }
      assert Now() == Settle(G(), start, s, look, known);
      if !was || changed {
        ContactMove(s);
      }
    }

    /** A lifted slot of a report. */
    method Lift(s: nat)
      requires Valid() && s < |d.con| && d.con[s].active
      modifies this`hits, this`level, this`targets, d`mode, d`hudVisible, d`hud, d`bar, d`dirty, d`fullDirty, d`con, d.canvas
      ensures Valid() && d.con == old(d.con)[s := old(d.con)[s].(active := false)]
      ensures Now() == Take(G(), old(Now()), s, Lifted)
      ensures forall v, u | Has(d.canvas, u, v) :: d.canvas[v, u] == TakePixel(G(), old(Now()), s, Lifted, u, v, old(d.canvas[v, u]))
      ensures !old(Presses(G(), d.mode, d.con[s])) && !old(Finishes(d.mode, d.con[s])) ==> d.dirty == old(d.dirty)
      ensures !old(Presses(G(), d.mode, d.con[s])) ==> d.hud == old(d.hud) && d.bar == old(d.bar)
    {
      hide DirtyOk, Covered, Spill, Presses, Up, UpPixel, Display.Valid, StraysSpill;
      SamePress(G(), d.mode, d.con[s]);
      SetContact(s, d.con[s].(active := false));
      ContactUp(s);
    }

    /** One SYN_REPORT: every slot lands, moves, lifts or stays as it is, in slot order; state and canvas become what
        the slots make of them one after the other. */
    method Commit(slots: seq<Slot>)
      requires Valid() && |slots| == |d.con| && forall s :: 0 <= s < |slots| ==> Reportable(slots[s])
      modifies this`hits, this`level, this`targets, d`mode, d`hudVisible, d`hud, d`bar, d`dirty, d`fullDirty, d`con, d.canvas
      ensures Valid() && |d.con| == |slots|
      ensures Now() == After(G(), old(Now()), slots, |slots|)
      ensures forall v, u | Has(d.canvas, u, v) ::
                d.canvas[v, u] == AfterPixel(G(), old(Now()), slots, |slots|, u, v, old(d.canvas[v, u]))
      ensures forall s :: 0 <= s < |slots| ==> d.con[s].active == slots[s].Held?
      ensures forall s :: 0 <= s < |slots| && slots[s].Held? ==> d.con[s].look == slots[s].look
    {
      hide DirtyOk, Covered, WellFormed, Spill, Take, TakePixel, Display.Valid, StraysSpill;
      var s := 0;
      while s < |slots|
        invariant 0 <= s <= |slots| == |d.con| && Valid()
        invariant Now() == After(G(), old(Now()), slots, s)
        invariant forall v, u | Has(d.canvas, u, v) ::
            d.canvas[v, u] == AfterPixel(G(), old(Now()), slots, s, u, v, old(d.canvas[v, u]))
      {
        match slots[s] {
          case Held(look, changed, known) =>
            assert Reportable(slots[s]);
            assert look.r >= 0 by { LookRadius(look); }
            Hold(s, look, changed, known);
          case Lifted =>
            if d.con[s].active {
              Lift(s);
            } else {
              StaysLifted(G(), Now(), s);
            }
        }
        s := s + 1;
      }
      forall i | 0 <= i < |slots|
        ensures d.con[i].active == slots[i].Held? && (slots[i].Held? ==> d.con[i].look == slots[i].look)
      {
        SlotSettles(G(), old(Now()), slots, i);
      }
    }

    /** Every pixel of the screen shows the full recomposition, but for those of both panels of a short screen, those a
        marker drew outside the rectangle that erases it, and stray ones, which are only where a target of the GRID
        screen spills out of its rows. */
    ghost predicate Shows()
      requires d.Shape()
      reads this, d, d.canvas, d.back, d.screen
    {
      forall v, u | Has(d.back, u, v) && !d.Both(u, v) && (u, v) !in d.smear ::
        && d.screen[v, u] == d.back[v, u] == d.Composed(u, v, d.copied(u, v))
        && if d.Stray(u, v) then d.mode == GRID && Spill(u, v) else d.screen[v, u] == d.Scene(u, v)
    }

    /** Any sequence of reports, Home presses and frames. State and canvas become what the inputs make of them, the
        invariant holds throughout, after every frame the screen is as `Shows` says, and as long as every reported
        contact fits no marker pixel is left behind. */
    method Run(inputs: seq<Input>)
      requires Valid() && Fitted(inputs, |Now().con|)
      requires forall k :: 0 <= k < |inputs| && inputs[k].Report? ==>
                 |inputs[k].slots| == |d.con| && forall s :: 0 <= s < |d.con| ==> Reportable(inputs[k].slots[s])
      modifies this`hits, this`level, this`targets, d, d.canvas, d.back, d.screen
      ensures Valid()
      ensures Now() == Ran(G(), old(Now()), inputs, |inputs|)
      ensures forall v, u | Has(d.canvas, u, v) ::
                d.canvas[v, u] == RanPixel(G(), old(Now()), inputs, |inputs|, u, v, old(d.canvas[v, u]))
      ensures inputs != [] && inputs[|inputs| - 1].Frame? ==> Shows()
      ensures old(d.smear) == iset{} && Fitting(d.font, old(d.con)) && (forall k :: 0 <= k < |inputs| ==> InputFits(d.font, inputs[k])) ==>
                d.smear * Pixels(d.w, d.h) == iset{}
    {
      assert d.Shape();
      OkNow();
      hide WellFormed, Fits, Fitting, Pixels, Handled, HandledPixel, Valid, StateOk, Shows;
      var k := 0;
      ghost var fitting := old(d.smear) == iset{} && Fitting(d.font, d.con) && forall k :: 0 <= k < |inputs| ==> InputFits(d.font, inputs[k]);
      while k < |inputs|
        invariant 0 <= k <= |inputs| && Valid() && |d.con| == |old(d.con)|
        invariant Now() == Ran(G(), old(Now()), inputs, k)
        invariant forall v, u | Has(d.canvas, u, v) ::
            d.canvas[v, u] == RanPixel(G(), old(Now()), inputs, k, u, v, old(d.canvas[v, u]))
        invariant d.Shape()
        invariant k > 0 && inputs[k - 1].Frame? ==> Shows()
        invariant fitting ==> Fitting(d.font, d.con) && d.smear * Pixels(d.w, d.h) == iset{}
      {
        Handle(inputs[k]);
        k := k + 1;
      }
    }

    /** One input. */
    method Handle(input: Input)
      requires Valid()
      requires input.Report? ==> |input.slots| == |d.con| && forall s :: 0 <= s < |d.con| ==> Reportable(input.slots[s])
      modifies this`hits, this`level, this`targets, d, d.canvas, d.back, d.screen
      ensures Valid() && |d.con| == |old(d.con)| && Now() == Handled(G(), old(Now()), input)
      ensures forall v, u | Has(d.canvas, u, v) :: d.canvas[v, u] == HandledPixel(G(), old(Now()), input, u, v, old(d.canvas[v, u]))
      ensures input.Frame? ==> Shows()
      ensures InputFits(d.font, input) && Fitting(d.font, old(d.con)) && old(d.smear) * Pixels(d.w, d.h) == iset{} ==>
                Fitting(d.font, d.con) && d.smear * Pixels(d.w, d.h) == iset{}
    {
      assert d.Shape();
      hide DirtyOk, Covered, WellFormed, Fits, Spill, MarkersOver, After, AfterPixel, ResetPixel, Display.Valid, StraysSpill;
      match input {
        case Report(slots) =>
          Commit(slots);
        case Home =>
          ghost var st := Now();
          assert (if d.mode == PAINT then 1 else if d.mode == GRID then 2 else 0) == HomeButton(st.mode);
          hide Press;
          DoButton(if d.mode == PAINT then 1 else if d.mode == GRID then 2 else 0);
        case Frame(hudNow, hudLook, eventsLook) =>
          Frame(hudNow, hudLook, eventsLook);
      }
    }

    /** One frame. */
    method Frame(hudNow: bool, hudLook: Picture, eventsLook: Picture)
      requires Valid()
      modifies d`dirty, d`fullDirty, d`con, d`shownHud, d`shownEvents, d`copied, d`smear, d.back, d.screen
      ensures Valid() && Shows() && !d.fullDirty && d.dirty == []
      ensures forall v, u | Has(d.back, u, v) && (u, v) !in d.smear && !d.Both(u, v) ::
                d.screen[v, u] == d.back[v, u] == d.Composed(u, v, d.copied(u, v))
      ensures forall v, u | Has(d.back, u, v) ::
                d.copied(u, v) == if Marked(old(d.fullDirty), old(d.FrameMarks(hudNow)), u, v) then d.canvas[v, u] else old(d.copied)(u, v)
      ensures forall v, u | Has(d.back, u, v) && old(Marked(d.fullDirty, d.dirty, u, v)) :: d.copied(u, v) == d.canvas[v, u]
      ensures |d.con| == |old(d.con)| && Now() == old(Now()).(full := false)
      ensures forall s | 0 <= s < |d.con| :: d.con[s] == old(d.con[s]).(marker := d.con[s].marker, markerDrawn := d.con[s].markerDrawn)
      ensures forall s | 0 <= s < |d.con| :: d.con[s].markerDrawn == (d.mode != EVENTS && Live(d.con[s]))
      ensures Fitting(d.font, old(d.con)) ==> Fitting(d.font, d.con) && d.smear * Pixels(d.w, d.h) <= old(d.smear)
    {
      hide DirtyOk, Covered, WellFormed, Fits, Spill, MarkersOver, MarkerRect, MarkList, MarkerMarks, Display.Spilt;
      ghost var was := d.con;
      d.Render(hudNow, hudLook, eventsLook);
      SameBares(was, d.con);
      if Fitting(d.font, was) {
        FitsKept(d.font, was, d.con);
        forall x, y ensures !d.Spilt(x, y) {
          NothingSpilt(d, x, y);
        }
      }
    }
  }

  ghost function Pixels(w: nat, h: nat): iset<(int, int)> {
    iset x: int, y: int | 0 <= x < w && 0 <= y < h :: (x, y)
  }

  lemma FitsKept(font: Font, was: seq<Contact>, con: seq<Contact>)
    requires Fitting(font, was) && |con| == |was|
    requires forall s | 0 <= s < |con| :: con[s] == was[s].(marker := con[s].marker, markerDrawn := con[s].markerDrawn)
    ensures Fitting(font, con)
  {
    hide Fits, WellFormed;
  }
}
