/** The incremental renderer of touchdemo. The invariant says which pixels of the back buffer may be out of
    date; a frame brings every one of them to what a full recomposition would show. Three families of pixels are
    followed exactly, because the code does get them wrong: those of both panels on a short screen (`Both`), those
    a marker drew outside the rectangle that erases it (`smear`), and those whose canvas changed unmarked (`Stray`).
    boot/touchdemo.c:659-704, 972-982, 1220-1236, 1400-1462, 1511-1569. */
module Compositor {
  import opened Common
  import opened Raster
  import opened Dirty
  import opened Marker

  datatype Mode = PAINT | GRID | EVENTS

  datatype Owner = OwnDraw | OwnBar | OwnHud

  datatype Contact = Contact(active: bool, owner: Owner, look: Look, marker: Rect, markerDrawn: bool,
                             hasPrev: bool, psx: int, psy: int, button: int,
                             target: int, sumX: int, sumY: int, samples: nat)

  /** What a panel shows at each pixel; the wording is not part of the model. */
  type Picture = (int, int) -> Color

  const BAR_H := 128
  const CELL := 128

  predicate Live(c: Contact) {
    c.active && c.owner == OwnDraw
  }

  /** A marker drawn by the last frame may still be at the pixel. */
  predicate OldMarker(con: seq<Contact>, x: int, y: int) {
    exists s :: 0 <= s < |con| && con[s].markerDrawn && In(con[s].marker, x, y)
  }

  /** A marker this frame draws may be at the pixel. */
  predicate NewMarker(font: Font, con: seq<Contact>, x: int, y: int) {
    exists s :: 0 <= s < |con| && Live(con[s]) && In(MarkerRect(font, con[s].look), x, y)
  }

  predicate Fitting(font: Font, con: seq<Contact>) {
    forall s :: 0 <= s < |con| && Live(con[s]) ==> WellFormed(con[s].look) && Fits(font, con[s].look)
  }

  /** The live markers of the first `n` slots, drawn in slot order. */
  function MarkersOver(font: Font, con: seq<Contact>, n: nat, x: int, y: int, under: Color): Color
    requires n <= |con|
  {
    if n == 0 then under
    else
      var below := MarkersOver(font, con, n - 1, x, y, under);
      if Live(con[n - 1]) then Over(MarkerColor(font, con[n - 1].look, x, y), below) else below
  }

  /** Some live marker draws at the pixel. */
  predicate Inked(font: Font, con: seq<Contact>, x: int, y: int) {
    exists s :: 0 <= s < |con| && Live(con[s]) && MarkerColor(font, con[s].look, x, y).Some?
  }

  lemma {:induction false} NoInkHere(font: Font, con: seq<Contact>, n: nat, x: int, y: int, under: Color)
    requires n <= |con| && !Inked(font, con, x, y)
    ensures MarkersOver(font, con, n, x, y, under) == under
  {
    hide MarkerColor;
    if n > 0 {
      NoInkHere(font, con, n - 1, x, y, under);
    }
  }

  /** Markers that fit draw only where they are erased. */
  lemma FittingInk(font: Font, con: seq<Contact>, x: int, y: int)
    requires Fitting(font, con) && Inked(font, con, x, y)
    ensures NewMarker(font, con, x, y)
  {
    hide MarkerColor, MarkerRect, WellFormed, Fits;
    var s :| 0 <= s < |con| && Live(con[s]) && MarkerColor(font, con[s].look, x, y).Some?;
    MarkerConfined(font, con[s].look, x, y);
  }

  /** The dirty list once the old and the new markers of the first `n` slots are marked. */
  function MarkerMarks(font: Font, con: seq<Contact>, n: nat, events: bool, full: bool, d: seq<Rect>, w: nat, h: nat): seq<Rect>
    requires n <= |con|
  {
    if n == 0 then d
    else
      var c := con[n - 1];
      var e := MarkerMarks(font, con, n - 1, events, full, d, w, h);
      var f := if c.markerDrawn then MarkList(full, e, c.marker, w, h) else e;
      if Live(c) && !events then MarkList(full, f, MarkerRect(font, c.look), w, h) else f
  }

  // ---- Panels -----------------------------------------------------------------------------------------------

  function HudHeight(font: Font): nat {
    font.lh * 7 + 24
  }

  /** The panels of a mode: status at the top and buttons at the bottom, or both in the middle for GRID. */
  function HudRect(font: Font, w: nat, h: nat, mode: Mode, hudVisible: bool): Rect {
    if mode == GRID then
      var y0 := h / 2 - (HudHeight(font) + BAR_H) / 2;
      Rect(CELL + 8, y0, w - CELL - 8, y0 + HudHeight(font))
    else Rect(0, 0, w, if hudVisible || mode == EVENTS then HudHeight(font) else 0)
  }

  function BarRect(font: Font, w: nat, h: nat, mode: Mode): Rect {
    if mode == GRID then
      var y0 := h / 2 - (HudHeight(font) + BAR_H) / 2 + HudHeight(font);
      Rect(CELL + 8, y0, w - CELL - 8, y0 + BAR_H)
    else Rect(0, h - BAR_H, w, h)
  }

  predicate Apart(hud: Rect, bar: Rect, w: nat, h: nat) {
    forall x, y | 0 <= x < w && 0 <= y < h :: !(In(hud, x, y) && In(bar, x, y))
  }

  /** The two panels of a layout share no pixel of the screen exactly when the mode is GRID, the status panel
      is hidden, or the screen is tall enough for both. */
  lemma PanelsApartIff(font: Font, w: nat, h: nat, mode: Mode, hudVisible: bool)
    requires w > 0 && h > 0
    ensures Apart(HudRect(font, w, h, mode, hudVisible), BarRect(font, w, h, mode), w, h)
            <==> mode == GRID || (mode == PAINT && !hudVisible) || h >= HudHeight(font) + BAR_H
  {
    var hud, bar := HudRect(font, w, h, mode, hudVisible), BarRect(font, w, h, mode);
    if mode != GRID && (mode == EVENTS || hudVisible) && h < HudHeight(font) + BAR_H {
      var y := if h > BAR_H then h - BAR_H else 0;
      assert In(hud, 0, y) && In(bar, 0, y);
    }
  }

  /** A pixel after the panels that need it have been redrawn, status panel first. */
  function PanelPixel(overHud: bool, overBar: bool, inHud: bool, inBar: bool, hudC: Color, barC: Color, under: Color): Color {
    if overBar && inBar then barC else if overHud && inHud then hudC else under
  }

  // ---- Copying ----------------------------------------------------------------------------------------------

  method CopyRect(dst: array2<Color>, src: array2<Color>, r: Rect)
    requires dst != src && dst.Length0 == src.Length0 && dst.Length1 == src.Length1
    requires Within(r, Rect(0, 0, dst.Length1, dst.Length0))
    modifies dst
    ensures forall v, u | Has(dst, u, v) :: dst[v, u] == if In(r, u, v) then src[v, u] else old(dst[v, u])
  {
    var y := r.y0;
    while y < r.y1
      invariant y >= r.y0
      invariant forall v, u | Has(dst, u, v) :: dst[v, u] == if In(r, u, v) && v < y then src[v, u] else old(dst[v, u])
    {
      var x := r.x0;
      while x < r.x1
        invariant x >= r.x0
        invariant forall v, u | Has(dst, u, v) ::
            dst[v, u] == if In(r, u, v) && (v < y || (v == y && u < x)) then src[v, u] else old(dst[v, u])
      {
        dst[y, x] := src[y, x];
        x := x + 1;
      }
      y := y + 1;
    }
  }

  /** The marked pixels of one buffer copied to another: everything, or rectangle by rectangle. */
  method CopyMarked(dst: array2<Color>, src: array2<Color>, full: bool, d: seq<Rect>)
    requires dst != src && dst.Length0 == src.Length0 && dst.Length1 == src.Length1
    requires DirtyOk(d, dst.Length1, dst.Length0)
    modifies dst
    ensures forall v, u | Has(dst, u, v) :: dst[v, u] == if Marked(full, d, u, v) then src[v, u] else old(dst[v, u])
  {
    if full {
      CopyRect(dst, src, Rect(0, 0, dst.Length1, dst.Length0));
      return;
    }
    var i := 0;
    while i < |d|
      invariant 0 <= i <= |d|
      invariant forall v, u | Has(dst, u, v) :: dst[v, u] == if Covered(d[..i], u, v) then src[v, u] else old(dst[v, u])
    {
      CopyRect(dst, src, d[i]);
      forall u, v ensures Covered(d[..i + 1], u, v) <==> Covered(d[..i], u, v) || In(d[i], u, v) {
        CoveredNext(d, i, u, v);
      }
      i := i + 1;
    }
    assert d[..|d|] == d;
  }

  lemma CoveredNext(d: seq<Rect>, i: nat, u: int, v: int)
    requires i < |d|
    ensures Covered(d[..i + 1], u, v) <==> Covered(d[..i], u, v) || In(d[i], u, v)
  {
    if Covered(d[..i], u, v) {
      var j :| 0 <= j < |d[..i]| && In(d[..i][j], u, v);
      assert d[..i + 1][j] == d[..i][j];
    }
    if In(d[i], u, v) {
      assert d[..i + 1][i] == d[i];
    }
  }

  method PaintPicture(buf: array2<Color>, r: Rect, picture: Picture)
    modifies buf
    ensures forall v, u | Has(buf, u, v) :: buf[v, u] == if In(r, u, v) then picture(u, v) else old(buf[v, u])
  {
    var k := Clip(r, buf.Length1, buf.Length0);
    var y := k.y0;
    while y < k.y1
      invariant y >= k.y0
      invariant forall v, u | Has(buf, u, v) :: buf[v, u] == if In(k, u, v) && v < y then picture(u, v) else old(buf[v, u])
    {
      var x := k.x0;
      while x < k.x1
        invariant x >= k.x0
        invariant forall v, u | Has(buf, u, v) ::
            buf[v, u] == if In(k, u, v) && (v < y || (v == y && u < x)) then picture(u, v) else old(buf[v, u])
      {
        buf[y, x] := picture(x, y);
        x := x + 1;
      }
      y := y + 1;
    }
  }

  /** The trail of a contact up to its position: from the last point, or a first dot. */
  function Trail(c: Contact): Segment {
    var r := c.look.r / 6;
    var k := if r < 4 then 4 else if r > 14 then 14 else r;
    if c.hasPrev then Segment(c.psx, c.psy, c.look.sx, c.look.sy, k)
    else Segment(c.look.sx, c.look.sy, c.look.sx, c.look.sy, k)
  }

  // ---- The display ------------------------------------------------------------------------------------------

  class Display {
    const w: nat
    const h: nat
    const font: Font
    const barLook: (Mode, bool) -> Picture
    const canvas: array2<Color>
    const back: array2<Color>
    const screen: array2<Color>
    var mode: Mode
    var hudVisible: bool
    var hud: Rect
    var bar: Rect
    var dirty: seq<Rect>
    var fullDirty: bool
    var con: seq<Contact>
    /** The canvas colour each pixel of the back buffer was last copied from. */
    ghost var copied: (int, int) -> Color
    /** Pixels a marker drew at outside every rectangle that erases markers, since they were last copied. */
    ghost var smear: iset<(int, int)>
    /** What the status panel and the EVENTS screen were last drawn with. */
    ghost var shownHud: Picture
    ghost var shownEvents: Picture

    constructor (w: nat, h: nat, font: Font, barLook: (Mode, bool) -> Picture, mode: Mode, nslots: nat, empty: Contact)
      requires w > 0 && !empty.active && !empty.markerDrawn
      ensures Valid() && fullDirty && this.w == w && this.h == h && this.font == font && this.mode == mode
      ensures this.barLook == barLook && hudVisible && smear == iset{}
      ensures hud == HudRect(font, w, h, mode, true) && bar == BarRect(font, w, h, mode)
      ensures con == seq(nslots, i => empty)
      ensures fresh(canvas) && fresh(back) && fresh(screen)
    {
      this.w, this.h, this.font, this.barLook, this.mode := w, h, font, barLook, mode;
      hudVisible := true;
      hud, bar := HudRect(font, w, h, mode, true), BarRect(font, w, h, mode);
      canvas := new Color[h, w]((y, x) => 0);
      back := new Color[h, w]((y, x) => 0);
      screen := new Color[h, w]((y, x) => 0);
      dirty, fullDirty := [], true;
      con := seq(nslots, i => empty);
      copied, smear := (x, y) => 0, iset{};
      shownHud := (x, y) => 0;
      shownEvents := (x, y) => 0;
    }

    predicate Shape() {
      && canvas.Length0 == h && canvas.Length1 == w
      && back.Length0 == h && back.Length1 == w
      && screen.Length0 == h && screen.Length1 == w
      && canvas != back && back != screen && screen != canvas
    }

    predicate ListOk()
      reads this
    {
      DirtyOk(dirty, w, h) && (fullDirty ==> dirty == [])
    }

    function EventsArea(): Rect
      reads this
    {
      Rect(0, hud.y1, w, bar.y0)
    }

    /** What is under the markers: the panels over the EVENTS screen over the canvas. */
    ghost function Under(x: int, y: int, base: Color): Color
      reads this
    {
      if In(bar, x, y) then barLook(mode, hudVisible)(x, y)
      else if In(hud, x, y) then shownHud(x, y)
      else if mode == EVENTS && In(EventsArea(), x, y) then shownEvents(x, y)
      else base
    }

    ghost predicate Stale(x: int, y: int)
      reads this
    {
      Marked(fullDirty, dirty, x, y) || OldMarker(con, x, y)
    }

    /** The two panels of a short screen. */
    predicate Both(x: int, y: int)
      reads `hud, `bar
    {
      In(hud, x, y) && In(bar, x, y)
    }

    /** The pixels no frame is sure of. */
    ghost predicate Unsure(x: int, y: int)
      reads this
    {
      Both(x, y) || (x, y) in smear
    }

    /** The canvas has changed at the pixel since it was copied, and nothing marks it. */
    ghost predicate Stray(x: int, y: int)
      requires Shape() && Has(canvas, x, y)
      reads this, canvas
    {
      !Marked(fullDirty, dirty, x, y) && copied(x, y) != canvas[y, x]
    }

    twostate predicate NoNewStray()
      requires Shape()
      reads this, canvas
    {
      forall v, u | Has(canvas, u, v) && Stray(u, v) :: old(Stray(u, v))
    }

    /** A back-buffer pixel differs from its background only where it is marked, under an old marker or unsure. */
    ghost predicate Fresh()
      requires Shape()
      reads this, back
    {
      forall v, u | Has(back, u, v) && !Stale(u, v) && !Unsure(u, v) :: back[v, u] == Under(u, v, copied(u, v))
    }

    /** A marker pixel outside every marked rectangle is in the back buffer only. */
    ghost predicate Synced()
      requires Shape()
      reads `smear, back, screen
    {
      forall v, u | Has(back, u, v) && (u, v) !in smear :: screen[v, u] == back[v, u]
    }

    ghost predicate Valid()
      reads this, back, screen
    {
      && Shape() && ListOk()
      && (mode == EVENTS && !fullDirty ==> dirty == [] && forall s :: 0 <= s < |con| ==> !con[s].markerDrawn)
      && Synced()
      && Fresh()
    }

    /** A pixel composed anew from a canvas colour: canvas, live markers in slot order, panels. */
    ghost function Composed(x: int, y: int, base: Color): Color
      reads this
    {
      Under(x, y, if mode == EVENTS then base else MarkersOver(font, con, |con|, x, y, base))
    }

    /** The full recomposition. */
    ghost function Scene(x: int, y: int): Color
      requires Shape() && Has(canvas, x, y)
      reads this, canvas
    {
      Composed(x, y, canvas[y, x])
    }

    /** The dirty list a frame copies. */
    function FrameMarks(hudNow: bool): seq<Rect>
      reads this
    {
      var d := MarkerMarks(font, con, |con|, mode == EVENTS, fullDirty, dirty, w, h);
      if mode == EVENTS && hudNow then MarkList(fullDirty, d, EventsArea(), w, h) else d
    }

    method Mark(r: Rect)
      requires Shape() && ListOk()
      modifies this`dirty
      ensures ListOk() && dirty == MarkList(fullDirty, old(dirty), r, w, h)
      ensures forall x, y | old(Marked(fullDirty, dirty, x, y)) :: Marked(fullDirty, dirty, x, y)
      ensures forall x, y | In(r, x, y) && 0 <= x < w && 0 <= y < h :: Marked(fullDirty, dirty, x, y)
    {
      MarkCovers(fullDirty, dirty, r, w, h);
      hide DirtyOk, UnionAll, Covered;
      var k := Clip(r, w, h);
      if Empty(k) || fullDirty {
        return;
      }
      ghost var was := dirty;
      var i := 0;
      while i < |dirty|
        invariant 0 <= i <= |dirty| && dirty == was && FirstHit(was, k) == i + FirstHit(was[i..], k)
      {
        assert was[i..][0] == was[i] && was[i..][1..] == was[i + 1..];
        if Hit(dirty[i], k) {
          dirty := dirty[i := Union(dirty[i], k)];
          return;
        }
        i := i + 1;
      }
      if |dirty| == MAX_DIRTY {
        Collapse(k);
        return;
      }
      dirty := dirty + [k];
    }

    /** The full list becomes one rectangle. */
    method Collapse(k: Rect)
      requires |dirty| == MAX_DIRTY
      modifies this`dirty
      ensures dirty == [Union(UnionAll(old(dirty)), k)]
    {
      ghost var was := dirty;
      var i := 1;
      while i < |dirty|
        invariant 1 <= i <= |dirty| == |was| && dirty[1..] == was[1..]
        invariant dirty[0] == UnionAll(was[..i])
      {
        assert was[..i + 1][..i] == was[..i];
        assert dirty[i] == was[i] by { assert dirty[1..][i - 1] == was[1..][i - 1]; }
        dirty := dirty[0 := Union(dirty[0], dirty[i])];
        i := i + 1;
      }
      assert was[..|was|] == was;
      dirty := [dirty[0]];
      dirty := dirty[0 := Union(dirty[0], k)];
    }

    method MarkFull()
      modifies this`dirty, this`fullDirty
      ensures fullDirty && dirty == []
    {
      fullDirty := true;
      dirty := [];
    }

    /** The invariant does not depend on the canvas, and further marks leave it intact. */
    twostate lemma StillValid()
      requires old(Valid()) && ListOk()
      requires mode == old(mode) && hud == old(hud) && bar == old(bar) && hudVisible == old(hudVisible)
      requires shownHud == old(shownHud) && shownEvents == old(shownEvents)
      requires copied == old(copied) && smear == old(smear)
      requires fullDirty || mode != EVENTS || (dirty == old(dirty) && fullDirty == old(fullDirty))
      requires |con| == |old(con)|
      requires forall s | 0 <= s < |con| :: con[s].marker == old(con)[s].marker && con[s].markerDrawn == old(con)[s].markerDrawn
      requires forall x, y | old(Marked(fullDirty, dirty, x, y)) :: Marked(fullDirty, dirty, x, y)
      requires forall v, u | Has(back, u, v) :: back[v, u] == old(back[v, u]) && screen[v, u] == old(screen[v, u])
      ensures Valid()
    {
      hide Covered, DirtyOk;
      forall x, y | old(OldMarker(con, x, y)) ensures OldMarker(con, x, y) {
        var s :| 0 <= s < |old(con)| && old(con)[s].markerDrawn && In(old(con)[s].marker, x, y);
        assert con[s].markerDrawn;
      }
    }

    /** Once everything is marked, the canvas and the layout may be anything. */
    twostate lemma FullIsValid()
      requires Shape() && old(Synced()) && fullDirty && dirty == [] && smear == old(smear)
      requires forall v, u | Has(back, u, v) :: back[v, u] == old(back[v, u]) && screen[v, u] == old(screen[v, u])
      ensures Valid()
    {
    }

    method Layout()
      modifies this`hud, this`bar
      ensures hud == HudRect(font, w, h, mode, hudVisible) && bar == BarRect(font, w, h, mode)
    {
      var hudH, barH := HudHeight(font), BAR_H;
      if mode == GRID {
        var y0 := h / 2 - (hudH + barH) / 2;
        hud := Rect(CELL + 8, y0, w - CELL - 8, y0 + hudH);
        bar := Rect(CELL + 8, y0 + hudH, w - CELL - 8, y0 + hudH + barH);
      } else {
        hud := Rect(0, 0, w, if hudVisible || mode == EVENTS then hudH else 0);
        bar := Rect(0, h - barH, w, h);
      }
    }

    /** `contact_move` in PAINT mode. */
    method PaintMove(s: nat)
      requires Valid() && s < |con| && mode == PAINT && con[s].owner == OwnDraw && con[s].look.r >= 0
      modifies canvas, this`dirty, this`con
      ensures Valid() && NoNewStray()
      ensures con == old(con)[s := old(con[s]).(psx := old(con[s].look.sx), psy := old(con[s].look.sy), hasPrev := true)]
      ensures forall v, u | Has(canvas, u, v) ::
                canvas[v, u] == if Trail(old(con[s])).Inks(u, v) then old(con[s].look.color) else old(canvas[v, u])
    {
      hide DirtyOk, Covered, MarkList, InDisk;
      var c := con[s];
      var sx, sy := c.look.sx, c.look.sy;
      var r := c.look.r / 6;
      r := if r < 4 then 4 else if r > 14 then 14 else r;
      if c.hasPrev {
        ThickLine(canvas, Segment(c.psx, c.psy, sx, sy, r), c.look.color);
      } else {
        Disk(canvas, sx, sy, r, c.look.color);
        assert forall u, v :: Trail(c).Inks(u, v) <==> InDisk(sx, sy, r, u, v);
      }
      forall u, v | Trail(c).Inks(u, v) ensures In(Trail(c).Box(), u, v) {
        TrailInBox(Trail(c), u, v);
      }
      hide Segment.Inks;
      Mark(Rect(Min(c.psx, sx) - r - 1, Min(c.psy, sy) - r - 1, Max(c.psx, sx) + r + 2, Max(c.psy, sy) + r + 2));
      if !c.hasPrev {
        Mark(Rect(sx - r - 1, sy - r - 1, sx + r + 2, sy + r + 2));
      }
      assert forall u, v | In(Trail(c).Box(), u, v) && Has(canvas, u, v) :: Marked(fullDirty, dirty, u, v);
      con := con[s := c.(psx := sx, psy := sy, hasPrev := true)];
      StillValid();
    }

    // ---- One frame ------------------------------------------------------------------------------------------

    /** Marks where markers were drawn and where they will be. */
    method MarkMarkers()
      requires Shape() && ListOk()
      modifies this`dirty, this`con
      ensures ListOk() && |con| == |old(con)|
      ensures dirty == MarkerMarks(font, old(con), |old(con)|, mode == EVENTS, fullDirty, old(dirty), w, h)
      ensures forall s | 0 <= s < |con| ::
                con[s] == old(con[s]).(markerDrawn := false,
                                       marker := if Live(old(con[s])) && mode != EVENTS then MarkerRect(font, old(con[s]).look)
                                                 else old(con[s]).marker)
      ensures forall x, y | 0 <= x < w && 0 <= y < h && old(Stale(x, y)) :: Marked(fullDirty, dirty, x, y)
      ensures mode != EVENTS ==>
                forall x, y | 0 <= x < w && 0 <= y < h && NewMarker(font, con, x, y) :: Marked(fullDirty, dirty, x, y)
      ensures mode == EVENTS && (forall s | 0 <= s < |old(con)| :: !old(con)[s].markerDrawn) ==> dirty == old(dirty)
    {
      hide MarkerRect, MarkList, DirtyOk, Covered;
      ghost var was := con;
      var s := 0;
      while s < |con|
        invariant 0 <= s <= |con| == |was| && ListOk()
        invariant dirty == MarkerMarks(font, was, s, mode == EVENTS, fullDirty, old(dirty), w, h)
        invariant forall j | s <= j < |con| :: con[j] == was[j]
        invariant forall j | 0 <= j < s ::
            con[j] == was[j].(markerDrawn := false,
                              marker := if Live(was[j]) && mode != EVENTS then MarkerRect(font, was[j].look) else was[j].marker)
        invariant forall x, y | old(Marked(fullDirty, dirty, x, y)) :: Marked(fullDirty, dirty, x, y)
        invariant forall j, x, y | 0 <= j < s && was[j].markerDrawn && In(was[j].marker, x, y) && 0 <= x < w && 0 <= y < h ::
            Marked(fullDirty, dirty, x, y)
        invariant forall j, x, y | 0 <= j < s && mode != EVENTS && Live(was[j]) && In(MarkerRect(font, was[j].look), x, y)
                                   && 0 <= x < w && 0 <= y < h :: Marked(fullDirty, dirty, x, y)
        invariant mode == EVENTS && (forall j | 0 <= j < |was| :: !was[j].markerDrawn) ==> dirty == old(dirty)
      {
        if con[s].markerDrawn {
          Mark(con[s].marker);
          con := con[s := con[s].(markerDrawn := false)];
        }
        if Live(con[s]) && mode != EVENTS {
          con := con[s := con[s].(marker := MarkerRect(font, con[s].look))];
          Mark(con[s].marker);
        }
        s := s + 1;
      }
    }

    /** Draws the live markers over the back buffer. */
    method DrawMarkers()
      requires Shape()
      modifies back, this`con
      ensures |con| == |old(con)|
      ensures forall s | 0 <= s < |con| :: con[s] == old(con[s]).(markerDrawn := Live(old(con[s])) || old(con[s]).markerDrawn)
      ensures forall v, u | Has(back, u, v) ::
                back[v, u] == MarkersOver(font, old(con), |con|, u, v, old(back[v, u]))
    {
      hide MarkerColor;
      ghost var was := con;
      var s := 0;
      while s < |con|
        invariant 0 <= s <= |con| == |was|
        invariant forall j | s <= j < |con| :: con[j] == was[j]
        invariant forall j | 0 <= j < s :: con[j] == was[j].(markerDrawn := Live(was[j]) || was[j].markerDrawn)
        invariant forall v, u | Has(back, u, v) :: back[v, u] == MarkersOver(font, was, s, u, v, old(back[v, u]))
      {
        if Live(con[s]) {
          DrawMarker(back, font, con[s].look);
          con := con[s := con[s].(markerDrawn := true)];
        }
        s := s + 1;
      }
    }

    /** The back buffer differs from the screen only at marked pixels, or where it may stay different. */
    ghost predicate Behind()
      requires Shape()
      reads this, back, screen
    {
      forall v, u | Has(back, u, v) && !Marked(fullDirty, dirty, u, v) && (u, v) !in smear :: screen[v, u] == back[v, u]
    }

    method DrawEvents(picture: Picture)
      requires Shape() && ListOk() && Behind()
      modifies this`dirty, this`shownEvents, back
      ensures ListOk() && Behind() && shownEvents == picture
      ensures fullDirty ==> dirty == old(dirty)
      ensures forall v, u | Has(back, u, v) :: back[v, u] == if In(EventsArea(), u, v) then picture(u, v) else old(back[v, u])
      ensures forall x, y | old(Marked(fullDirty, dirty, x, y)) :: Marked(fullDirty, dirty, x, y)
    {
      hide MarkList, Covered, DirtyOk;
      PaintPicture(back, EventsArea(), picture);
      shownEvents := picture;
      Mark(EventsArea());
    }

    method DrawHud(picture: Picture)
      requires Shape() && ListOk() && Behind()
      modifies this`dirty, this`shownHud, back
      ensures ListOk() && Behind() && shownHud == picture
      ensures forall v, u | Has(back, u, v) :: back[v, u] == if In(hud, u, v) then picture(u, v) else old(back[v, u])
    {
      hide MarkList, Covered, DirtyOk;
      shownHud := picture;
      if Empty(hud) {
        return;
      }
      PaintPicture(back, hud, picture);
      Mark(hud);
    }

    method DrawBar()
      requires Shape() && ListOk() && Behind()
      modifies this`dirty, back
      ensures ListOk() && Behind()
      ensures forall v, u | Has(back, u, v) ::
                back[v, u] == if In(bar, u, v) then barLook(mode, hudVisible)(u, v) else old(back[v, u])
    {
      hide MarkList, Covered, DirtyOk;
      PaintPicture(back, bar, barLook(mode, hudVisible));
      Mark(bar);
    }

    /** Whether some rectangle of the list touches a panel: if not, no marked pixel is in the panel. */
    method Touches(panel: Rect) returns (touches: bool)
      requires ListOk()
      ensures !touches && !fullDirty ==> forall x, y | In(panel, x, y) :: !Covered(dirty, x, y)
      ensures touches ==> dirty != []
    {
      touches := false;
      var i := 0;
      while i < |dirty|
        invariant 0 <= i <= |dirty|
        invariant touches ==> dirty != []
        invariant !touches ==> forall j, x, y | 0 <= j < i && In(panel, x, y) :: !In(dirty[j], x, y)
      {
        if Hit(dirty[i], panel) {
          touches := true;
        }
        i := i + 1;
      }
    }

    /** Panels go on top of whatever touched them; says which were redrawn. */
    method DrawPanels(hudNow: bool, hudLook: Picture) returns (overHud: bool, overBar: bool)
      requires Shape() && ListOk() && Behind()
      modifies this`dirty, this`shownHud, back
      ensures ListOk() && Behind()
      ensures overHud ==> shownHud == hudLook
      ensures !overHud ==> shownHud == old(shownHud) && !hudNow && Untouched(fullDirty, old(dirty), hud)
      ensures !overBar ==> Untouched(fullDirty, old(dirty), bar)
      ensures overBar ==> fullDirty || old(dirty) != []
      ensures forall v, u | Has(back, u, v) ::
                back[v, u] == PanelPixel(overHud, overBar, In(hud, u, v), In(bar, u, v), hudLook(u, v),
                                         barLook(mode, hudVisible)(u, v), old(back[v, u]))
    {
      hide MarkList, Covered, DirtyOk;
      overHud := Touches(hud);
      overBar := Touches(bar);
      overHud := overHud || fullDirty || hudNow;
      overBar := overBar || fullDirty;
      if overHud {
        DrawHud(hudLook);
      }
      if overBar {
        DrawBar();
      }
    }

    /** The frame's dirty list reaches the screen. */
    method Present()
      requires Shape() && ListOk() && Behind()
      modifies screen
      ensures Synced()
    {
      hide DirtyOk, Covered;
      if !fullDirty && dirty == [] {
        EmptyList();
        return;
      }
      CopyMarked(screen, back, fullDirty, dirty);
    }

    // Stages of a frame, as facts about every pixel.

    /** After the copy: the copied canvas where marked, the background of what was copied before elsewhere. */
    ghost predicate Copied()
      requires Shape()
      reads this, back
    {
      forall v, u | Has(back, u, v) ::
        if Marked(fullDirty, dirty, u, v) then back[v, u] == copied(u, v) && (u, v) !in smear
        else Unsure(u, v) || back[v, u] == Under(u, v, copied(u, v))
    }

    ghost predicate MarkersMarked()
      reads this
    {
      forall x, y | 0 <= x < w && 0 <= y < h && NewMarker(font, con, x, y) :: Marked(fullDirty, dirty, x, y)
    }

    /** Before the panels: the scene outside them, and in them what they show, except at marked pixels. */
    ghost predicate Layered()
      requires Shape()
      reads this, back
    {
      forall v, u | Has(back, u, v) && !Unsure(u, v) ::
        if In(bar, u, v) || In(hud, u, v) then
          Marked(fullDirty, dirty, u, v) || back[v, u] == Under(u, v, copied(u, v))
        else back[v, u] == Composed(u, v, copied(u, v))
    }

    /** Some live marker draws at the pixel, outside the rectangles of all of them. */
    predicate Spilt(x: int, y: int)
      reads this
    {
      mode != EVENTS && Inked(font, con, x, y) && !NewMarker(font, con, x, y)
    }

    method CopyCanvas()
      requires Shape() && ListOk() && Synced()
      requires forall v, u | Has(back, u, v) && !Marked(fullDirty, dirty, u, v) && !Unsure(u, v) ::
                 back[v, u] == Under(u, v, copied(u, v))
      modifies back, this`copied, this`smear
      ensures Copied() && Behind()
      ensures forall v, u | Has(back, u, v) ::
                copied(u, v) == if Marked(fullDirty, dirty, u, v) then canvas[v, u] else old(copied)(u, v)
      ensures forall v, u | Has(back, u, v) :: (u, v) in smear <==> (u, v) in old(smear) && !Marked(fullDirty, dirty, u, v)
    {
      hide Covered, DirtyOk;
      CopyMarked(back, canvas, fullDirty, dirty);
      ghost var now := imap x: int, y: int | Has(canvas, x, y) :: (x, y) := canvas[y, x];
      ghost var full, d, before := fullDirty, dirty, copied;
      copied := (x, y) => if Marked(full, d, x, y) && (x, y) in now then now[(x, y)] else before(x, y);
      smear := iset p | p in smear && !Marked(fullDirty, dirty, p.0, p.1);
    }

    method AddMarkers()
      requires Shape() && ListOk() && Behind() && Copied() && MarkersMarked() && mode != EVENTS
      modifies back, this`con, this`smear
      ensures Behind() && Layered() && |con| == |old(con)|
      ensures forall s | 0 <= s < |con| :: con[s] == old(con[s]).(markerDrawn := Live(old(con[s])) || old(con[s]).markerDrawn)
      ensures forall v, u | Has(back, u, v) :: (u, v) in smear <==> (u, v) in old(smear) || Spilt(u, v)
    {
      hide MarkersOver, NewMarker, Inked, Covered, DirtyOk;
      ghost var was := con;
      DrawMarkers();
      smear := iset p: (int, int) | p in smear || Spilt(p.0, p.1);
      forall v, u | Has(back, u, v)
        ensures (u, v) in smear <==> (u, v) in old(smear) || Spilt(u, v)
        ensures !Marked(fullDirty, dirty, u, v) && (u, v) !in smear ==> back[v, u] == old(back[v, u])
        ensures !Marked(fullDirty, dirty, u, v) && !Unsure(u, v) ==>
                  back[v, u] == Under(u, v, copied(u, v)) == Composed(u, v, copied(u, v))
        ensures Marked(fullDirty, dirty, u, v) ==> back[v, u] == MarkersOver(font, con, |con|, u, v, copied(u, v))
      {
        SameNewMarkers(font, con, was, u, v);
        SameMarkers(font, con, was, |was|, u, v, old(back[v, u]));
        if !Inked(font, con, u, v) {
          NoInkHere(font, con, |con|, u, v, old(back[v, u]));
          NoInkHere(font, con, |con|, u, v, copied(u, v));
        }
      }
    }

    method AddEvents(hudNow: bool, eventsLook: Picture)
      requires Shape() && ListOk() && Behind() && Copied() && mode == EVENTS
      requires hudNow ==> forall x, y | 0 <= x < w && 0 <= y < h && In(EventsArea(), x, y) :: Marked(fullDirty, dirty, x, y)
      requires !hudNow && !fullDirty ==> dirty == []
      modifies this`dirty, this`shownEvents, back
      ensures ListOk() && Behind() && Layered()
    {
      hide Covered, DirtyOk, MarkersOver;
      EmptyList();
      if hudNow || fullDirty {
        DrawEvents(eventsLook);
      }
    }

    /** A frame up to the panels. */
    method Compose(hudNow: bool, eventsLook: Picture)
      requires Valid()
      modifies this`dirty, this`con, this`shownEvents, this`copied, this`smear, back
      ensures ListOk() && Behind() && Layered()
      ensures forall x, y | 0 <= x < w && 0 <= y < h && old(Marked(fullDirty, dirty, x, y)) ::
                Marked(fullDirty, old(FrameMarks(hudNow)), x, y)
      ensures mode != EVENTS ==> dirty == old(FrameMarks(hudNow))
      ensures forall v, u | Has(back, u, v) ::
                copied(u, v) == if Marked(fullDirty, old(FrameMarks(hudNow)), u, v) then canvas[v, u] else old(copied)(u, v)
      ensures forall v, u | Has(back, u, v) ::
                (u, v) in smear <==>
                  ((u, v) in old(smear) && !Marked(fullDirty, old(FrameMarks(hudNow)), u, v)) || Spilt(u, v)
      ensures |con| == |old(con)|
      ensures forall s | 0 <= s < |con| :: con[s] == old(con[s]).(marker := con[s].marker, markerDrawn := con[s].markerDrawn)
      ensures forall s | 0 <= s < |con| ::
                con[s].markerDrawn == (mode != EVENTS && Live(con[s])) && (con[s].markerDrawn ==> con[s].marker == MarkerRect(font, con[s].look))
    {
      hide MarkersOver, NewMarker, Inked, Covered, DirtyOk, MarkerRect, Layered, MarkList;
      MarkMarkers();
      if mode == EVENTS && hudNow {
        Mark(EventsArea());
      }
      CopyCanvas();
      if mode == EVENTS {
        AddEvents(hudNow, eventsLook);
      } else {
        AddMarkers();
      }
    }

    /** The new back buffer. */
    method Draw(hudNow: bool, hudLook: Picture, eventsLook: Picture)
      requires Valid()
      modifies this`dirty, this`con, this`shownHud, this`shownEvents, this`copied, this`smear, back
      ensures ListOk() && Behind()
      ensures forall x, y | 0 <= x < w && 0 <= y < h && old(Marked(fullDirty, dirty, x, y)) ::
                Marked(fullDirty, old(FrameMarks(hudNow)), x, y)
      ensures forall v, u | Has(back, u, v) && !Unsure(u, v) :: back[v, u] == Composed(u, v, copied(u, v))
      ensures forall v, u | Has(back, u, v) ::
                copied(u, v) == if Marked(fullDirty, old(FrameMarks(hudNow)), u, v) then canvas[v, u] else old(copied)(u, v)
      ensures forall v, u | Has(back, u, v) ::
                (u, v) in smear <==>
                  ((u, v) in old(smear) && !Marked(fullDirty, old(FrameMarks(hudNow)), u, v)) || Spilt(u, v)
      ensures mode != EVENTS && !fullDirty && old(FrameMarks(hudNow)) == [] && hudNow ==>
                forall v, u | Has(back, u, v) && Both(u, v) :: back[v, u] == hudLook(u, v)
      ensures shownHud == hudLook || (shownHud == old(shownHud) && !hudNow && !fullDirty)
      ensures |con| == |old(con)|
      ensures forall s | 0 <= s < |con| :: con[s] == old(con[s]).(marker := con[s].marker, markerDrawn := con[s].markerDrawn)
      ensures forall s | 0 <= s < |con| ::
                con[s].markerDrawn == (mode != EVENTS && Live(con[s])) && (con[s].markerDrawn ==> con[s].marker == MarkerRect(font, con[s].look))
    {
      hide MarkersOver, Covered, DirtyOk, MarkerRect, MarkList, MarkerMarks, Inked, NewMarker;
      Compose(hudNow, eventsLook);
      var overHud, overBar := DrawPanels(hudNow, hudLook);
    }

    /** One frame. Whatever was marked, moved, drawn or switched since the last one, every pixel that is not unsure
        becomes what a full recomposition would show from the canvas as it was last copied, which is the canvas now
        wherever it is marked; and the screen becomes the back buffer. The status panel shows this frame's text if
        it was redrawn at all, and the one shown before otherwise. */
    method Render(hudNow: bool, hudLook: Picture, eventsLook: Picture)
      requires Valid()
      modifies this`dirty, this`fullDirty, this`con, this`shownHud, this`shownEvents, this`copied, this`smear, back, screen
      ensures Valid() && !fullDirty && dirty == [] && NoNewStray()
      ensures forall x, y | 0 <= x < w && 0 <= y < h && old(Marked(fullDirty, dirty, x, y)) ::
                Marked(old(fullDirty), old(FrameMarks(hudNow)), x, y)
      ensures forall v, u | Has(back, u, v) && (u, v) !in smear :: screen[v, u] == back[v, u]
      ensures forall v, u | Has(back, u, v) && !Unsure(u, v) :: back[v, u] == Composed(u, v, copied(u, v))
      ensures forall v, u | Has(back, u, v) && !Unsure(u, v) && !Stray(u, v) :: back[v, u] == Scene(u, v)
      ensures forall v, u | Has(back, u, v) ::
                copied(u, v) == if Marked(old(fullDirty), old(FrameMarks(hudNow)), u, v) then canvas[v, u] else old(copied)(u, v)
      ensures forall v, u | Has(back, u, v) ::
                (u, v) in smear <==>
                  ((u, v) in old(smear) && !Marked(old(fullDirty), old(FrameMarks(hudNow)), u, v)) || Spilt(u, v)
      ensures mode != EVENTS && !old(fullDirty) && old(FrameMarks(hudNow)) == [] && hudNow ==>
                forall v, u | Has(back, u, v) && Both(u, v) :: back[v, u] == hudLook(u, v)
      ensures shownHud == hudLook || (shownHud == old(shownHud) && !hudNow && !old(fullDirty))
      ensures |con| == |old(con)|
      ensures forall s | 0 <= s < |con| :: con[s] == old(con[s]).(marker := con[s].marker, markerDrawn := con[s].markerDrawn)
      ensures forall s | 0 <= s < |con| ::
                con[s].markerDrawn == (mode != EVENTS && Live(con[s])) && (con[s].markerDrawn ==> con[s].marker == MarkerRect(font, con[s].look))
    {
      hide MarkersOver, Covered, DirtyOk, MarkerRect, MarkList, MarkerMarks, Inked;
      Draw(hudNow, hudLook, eventsLook);
      Present();
      dirty := [];
      fullDirty := false;
      EmptyIsOk(w, h);
      EmptyList();
      forall v, u | Has(back, u, v) && !OldMarker(con, u, v) && !Unsure(u, v)
        ensures mode != EVENTS ==> MarkersOver(font, con, |con|, u, v, copied(u, v)) == copied(u, v)
      {
        if mode != EVENTS {
          NoInkHere(font, con, |con|, u, v, copied(u, v));
        }
      }
    }

    /** Where nothing covers the canvas, a frame shows the right colour exactly when the pixel is not stray. */
    lemma ShownIff(x: int, y: int)
      requires Shape() && Has(canvas, x, y) && !fullDirty && dirty == []
      requires mode == EVENTS || !Inked(font, con, x, y)
      requires !In(hud, x, y) && !In(bar, x, y) && !(mode == EVENTS && In(EventsArea(), x, y))
      ensures Composed(x, y, copied(x, y)) == Scene(x, y) <==> !Stray(x, y)
    {
      hide MarkersOver, Inked;
      EmptyList();
      if mode != EVENTS {
        NoInkHere(font, con, |con|, x, y, copied(x, y));
        NoInkHere(font, con, |con|, x, y, canvas[y, x]);
      }
    }
  }

  /** Frames of markers that fit leave no pixel behind. */
  lemma NothingSpilt(d: Display, x: int, y: int)
    requires Fitting(d.font, d.con)
    ensures !d.Spilt(x, y)
  {
    hide Fitting, NewMarker, Inked;
    if Inked(d.font, d.con, x, y) {
      FittingInk(d.font, d.con, x, y);
    }
  }

  /** A slot before any contact. */
  function NoContact(): (c: Contact)
    ensures !c.active && !c.markerDrawn
  {
    Contact(false, OwnDraw, Look(0, 0, 12, 0, 0, Circle), Rect(0, 0, 0, 0), false, false, 0, 0, -1, -1, 0, 0, 0)
  }

  /** On a screen of 256 rows, which the options accept, the second frame redraws the status panel over the buttons:
      eight rows of the bar are lost although nothing changed there. */
  method ShortScreen() returns (d: Display)
    ensures fresh(d) && d.Valid() && d.h == d.w == 256 && d.Shape()
    ensures d.Both(0, 130) && d.screen[130, 0] == d.back[130, 0] == 1 && d.Scene(0, 130) == 2
  {
    var font := Font(8, 16, false, (c, x, y) => false);
    d := new Display(256, 256, font, (mode, hud) => (x, y) => 2, PAINT, 0, NoContact());
    d.Render(false, (x, y) => 0, (x, y) => 0);
    assert d.FrameMarks(true) == [];
    d.Render(true, (x, y) => 1, (x, y) => 0);
    assert Has(d.back, 0, 130) && (0, 130) !in d.smear;
  }

  lemma EmptyIsOk(w: nat, h: nat)
    ensures DirtyOk([], w, h)
  {
  }

  lemma {:induction false} SameMarkers(font: Font, a: seq<Contact>, b: seq<Contact>, n: nat, x: int, y: int, under: Color)
    requires |a| == |b| && n <= |a|
    requires forall s | 0 <= s < |a| :: Live(a[s]) == Live(b[s]) && a[s].look == b[s].look
    ensures MarkersOver(font, a, n, x, y, under) == MarkersOver(font, b, n, x, y, under)
  {
    hide MarkerColor;
    if n > 0 {
      SameMarkers(font, a, b, n - 1, x, y, under);
    }
  }

  lemma SameNewMarkers(font: Font, a: seq<Contact>, b: seq<Contact>, x: int, y: int)
    requires |a| == |b|
    requires forall s | 0 <= s < |a| :: Live(a[s]) == Live(b[s]) && a[s].look == b[s].look
    ensures NewMarker(font, a, x, y) == NewMarker(font, b, x, y)
  {
    hide MarkerRect;
    if NewMarker(font, a, x, y) {
      var s :| 0 <= s < |a| && Live(a[s]) && In(MarkerRect(font, a[s].look), x, y);
      assert Live(b[s]);
    }
    if NewMarker(font, b, x, y) {
      var s :| 0 <= s < |b| && Live(b[s]) && In(MarkerRect(font, b[s].look), x, y);
      assert Live(a[s]);
    }
  }

  ghost predicate Untouched(full: bool, d: seq<Rect>, panel: Rect) {
    !full && forall x, y | In(panel, x, y) :: !Covered(d, x, y)
  }

  lemma EmptyList()
    ensures forall x, y :: !Covered([], x, y)
  {
  }
}
