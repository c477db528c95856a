/** What touchdemo makes of its reports: the mapping to the screen, the GRID screen, and the state that reports, buttons
    and frames lead to, as functions, with what they promise.
    boot/touchdemo.c:908-942, 984-1126, 1158-1278, 1289-1386. */
module TouchModel {
  import opened Common
  import opened Raster
  import opened Dirty
  import opened Marker
  import opened Compositor

  // ---- From the digitizer to the screen -----------------------------------------------------------------

  /** `map_axis` with the range in use. */
  function MapAxis(v: int, min: int, max: int, size: int): int {
    if max <= min then TDiv(size, 2)
    else
      var k := if v < min then min else if v > max then max else v;
      TDiv((k - min) * (size - 1), max - min)
  }

  /** Every touch lands on the screen, whatever the range and however far outside it the value is. */
  lemma MapAxisOnScreen(v: int, min: int, max: int, size: int)
    requires size >= 1
    ensures 0 <= MapAxis(v, min, max, size) < size
  {
    if max > min {
      var k := if v < min then min else if v > max then max else v;
      ProductBound(size - 1, k - min, max - min);
      assert (size - 1) * (k - min) == (k - min) * (size - 1);
    }
  }

  /** The ends of the range are the ends of the screen. */
  lemma MapAxisEnds(min: int, max: int, size: int, v: int)
    requires size >= 1 && min < max
    ensures v <= min ==> MapAxis(v, min, max, size) == 0
    ensures v >= max ==> MapAxis(v, min, max, size) == size - 1
  {
    if v >= max {
      var n, d := size - 1, max - min;
      var q := d * n / d;
      assert d * n == d * q + d * n % d;
      assert (n - q) * d == d * n - d * q;
      if q != n {
        Multiple(n - q, d);
      }
    } else if v <= min {
      assert 0 * (size - 1) == 0;
    }
  }

  lemma QuotientOrder(a: int, b: int, d: int)
    requires 0 <= a <= b && d > 0
    ensures a / d <= b / d
  {
    var p, q := a / d, b / d;
    assert a == d * p + a % d && b == d * q + b % d;
    assert (p - q) * d == d * p - d * q;
    if p > q {
      Multiple(p - q, d);
    }
  }

  lemma MapAxisMonotone(a: int, b: int, min: int, max: int, size: int)
    requires size >= 1 && a <= b
    ensures MapAxis(a, min, max, size) <= MapAxis(b, min, max, size)
  {
    if max > min {
      var j := if a < min then min else if a > max then max else a;
      var k := if b < min then min else if b > max then max else b;
      var n := size - 1;
      ProductSign(k - j, n);
      ProductSign(j - min, n);
      assert (k - min) * n == (j - min) * n + (k - j) * n;
      QuotientOrder((j - min) * n, (k - min) * n, max - min);
    }
  }

  datatype Axis = Axis(min: int, max: int)

  function ToScreen(vx: int, vy: int, ax: Axis, ay: Axis, swap: bool, flipX: bool, flipY: bool, w: int, h: int): (int, int) {
    var x := if swap then MapAxis(vy, ay.min, ay.max, w) else MapAxis(vx, ax.min, ax.max, w);
    var y := if swap then MapAxis(vx, ax.min, ax.max, h) else MapAxis(vy, ay.min, ay.max, h);
    (if flipX then w - 1 - x else x, if flipY then h - 1 - y else y)
  }

  /** Whatever is reported, with any axes, swap and flips, the contact is on the screen. */
  lemma ToScreenOnScreen(vx: int, vy: int, ax: Axis, ay: Axis, swap: bool, flipX: bool, flipY: bool, w: int, h: int)
    requires w >= 1 && h >= 1
    ensures var p := ToScreen(vx, vy, ax, ay, swap, flipX, flipY, w, h); 0 <= p.0 < w && 0 <= p.1 < h
  {
    hide MapAxis;
    MapAxisOnScreen(if swap then vy else vx, if swap then ay.min else ax.min, if swap then ay.max else ax.max, w);
    MapAxisOnScreen(if swap then vx else vy, if swap then ax.min else ay.min, if swap then ax.max else ay.max, h);
  }

  // ---- GRID -------------------------------------------------------------------------------------------------

  const NTARGETS := 8
  const MAX_CELLS := 1024
  const C_BG := 0x000000
  const C_GRIDLN := 0x141414
  const C_OK := 0x40e060
  const C_DIM := 0x808080
  const C_WARN := 0xffb000

  datatype Target = Target(x: int, y: int, done: bool, dx: real, dy: real, samples: int)

  function Level(hits: nat, l: nat): (r: nat)
    requires l <= 6
    ensures r <= 6
    decreases 6 - l
  {
    if hits > 0 && l < 6 then Level(hits / 4, l + 1) else l
  }

  /** More hits never make a cell cooler, and only an untouched cell is black. */
  lemma {:induction false} LevelMonotone(a: nat, b: nat, l: nat)
    requires a <= b && l <= 6
    ensures Level(a, l) <= Level(b, l)
    ensures l < 6 ==> (Level(a, l) == l <==> a == 0)
    decreases 6 - l
  {
    if l < 6 {
      LevelMonotone(a / 4, b / 4, l + 1);
      LevelAtLeast(a / 4, l + 1);
      LevelAtLeast(b / 4, l + 1);
    }
  }

  lemma {:induction false} LevelAtLeast(a: nat, l: nat)
    requires l <= 6
    ensures Level(a, l) >= l
    decreases 6 - l
  {
    if l < 6 {
      LevelAtLeast(a / 4, l + 1);
    }
  }

  method LevelOf(hits: nat) returns (l: nat)
    ensures l == Level(hits, 0)
  {
    l := 0;
    var rest := hits;
    while rest > 0 && l < 6
      invariant l <= 6 && Level(rest, l) == Level(hits, 0)
    {
      l := l + 1;
      rest := rest / 4;
    }
  }

  function Heat(level: nat): Color {
    match level
    case 0 => 0x000000
    case 1 => 0x103060
    case 2 => 0x105080
    case 3 => 0x107060
    case 4 => 0x40a030
    case 5 => 0xa0b020
    case _ => 0xe0c020
  }

  function CellRect(c: nat, gcols: nat): Rect
    requires gcols > 0
  {
    Rect(c % gcols * CELL, c / gcols * CELL, (c % gcols + 1) * CELL, (c / gcols + 1) * CELL)
  }

  function Inner(r: Rect): Rect {
    Rect(r.x0 + 4, r.y0 + 4, r.x1 - 4, r.y1 - 4)
  }

  /** A cell's pixel: the open-edge outline over the border over the heat colour. */
  function CellPixel(r: Rect, level: nat, openEdge: bool, x: int, y: int): Color {
    if openEdge && InFrame(Inner(r), 3, x, y) then 0xa05010
    else if InFrame(r, 1, x, y) then 0x303030
    else Heat(level)
  }

  /** The two lines printed beside a finished target; their wording is not part of the model. */
  type Caption = (real, real, int) -> (string, string)

  function TextX(f: Font, w: nat, t: Target): int {
    if t.x < w / 2 then t.x + 70 else t.x - 70 - 15 * f.cw
  }

  function TextY(f: Font, h: nat, t: Target): int {
    if t.y < h / 2 then t.y + 70 else t.y - 70 - 2 * f.lh
  }

  function MeanX(t: Target): int {
    t.x + LRound(t.dx)
  }

  function MeanY(t: Target): int {
    t.y + LRound(t.dy)
  }

  predicate Cross(t: Target, x: int, y: int) {
    || InRing(t.x, t.y, 60, 4, x, y) || InRing(t.x, t.y, 20, 3, x, y)
    || In(Rect(t.x - 80, t.y - 1, t.x + 81, t.y + 2), x, y) || In(Rect(t.x - 1, t.y - 80, t.x + 2, t.y + 81), x, y)
  }

  /** What `draw_target` leaves at a pixel, where it draws: where the touches landed over the two lines over
      the cross-hair. */
  function TargetColor(f: Font, w: nat, h: nat, caption: Caption, t: Target, x: int, y: int): Option<Color> {
    var lines := caption(t.dx, t.dy, t.samples);
    if t.done && InDisk(MeanX(t), MeanY(t), 8, x, y) then Some(C_WARN)
    else if t.done && InText(f, TextX(f, w, t), TextY(f, h, t) + f.lh, lines.1, x, y) then Some(C_DIM)
    else if t.done && InText(f, TextX(f, w, t), TextY(f, h, t), lines.0, x, y) then Some(C_OK)
    else if Cross(t, x, y) then Some(if t.done then C_OK else 0xffffff)
    else None
  }

  /** The rows a redrawn target marks. */
  function Band(w: nat, t: Target): Rect {
    Rect(0, t.y - 400, w, t.y + 400)
  }

  /** What a caller can check about a finished target: the mean offset it shows is at most 392 rows up or 391
      rows down, and two text lines fit. */
  predicate TargetFits(f: Font, t: Target) {
    t.done ==> f.lh <= 165 && -392 <= LRound(t.dy) <= 391
  }

  /** A target draws at the pixel, outside the rows it marks. */
  predicate Spills(f: Font, w: nat, h: nat, caption: Caption, t: Target, x: int, y: int) {
    TargetColor(f, w, h, caption, t, x, y).Some? && !In(Band(w, t), x, y)
  }

  lemma CrossInBand(w: nat, t: Target, x: int, y: int)
    requires Cross(t, x, y) && 0 <= x < w
    ensures In(Band(w, t), x, y)
  {
    hide InDisk;
    if InDisk(t.x, t.y, 60, x, y) {
      DiskInSquare(t.x, t.y, 60, x, y);
    }
    if InDisk(t.x, t.y, 20, x, y) {
      DiskInSquare(t.x, t.y, 20, x, y);
    }
  }

  lemma LineRows(f: Font, x: int, y: int, s: string, u: int, v: int)
    requires InText(f, x, y, s, u, v)
    ensures y <= v < y + f.lh
  {
  }

  /** A fitting target is drawn inside the rows it marks. */
  lemma TargetConfined(f: Font, w: nat, h: nat, caption: Caption, t: Target, x: int, y: int)
    requires TargetFits(f, t) && 0 <= x < w
    ensures !Spills(f, w, h, caption, t, x, y)
  {
    hide InDisk, InText, LRound, Cross;
    var lines := caption(t.dx, t.dy, t.samples);
    var lx, ly := TextX(f, w, t), TextY(f, h, t);
    if t.done && InDisk(MeanX(t), MeanY(t), 8, x, y) {
      DiskInSquare(MeanX(t), MeanY(t), 8, x, y);
    } else if t.done && InText(f, lx, ly + f.lh, lines.1, x, y) {
      LineRows(f, lx, ly + f.lh, lines.1, x, y);
    } else if t.done && InText(f, lx, ly, lines.0, x, y) {
      LineRows(f, lx, ly, lines.0, x, y);
    } else if Cross(t, x, y) {
      CrossInBand(w, t, x, y);
    }
  }

  /** The code does not bound the offset. For a finished target whose mean position is on the screen with room
      for the dot, redrawing it stays inside the marked rows exactly when the offset is in range. */
  lemma TargetConfinedIff(f: Font, w: nat, h: nat, caption: Caption, t: Target)
    requires t.done && f.lh <= 165 && 0 <= MeanX(t) < w && 8 <= MeanY(t) < h - 8
    ensures -392 <= LRound(t.dy) <= 391 <==>
            forall x, y | 0 <= x < w && 0 <= y < h && TargetColor(f, w, h, caption, t, x, y).Some? :: In(Band(w, t), x, y)
  {
    hide InText, LRound, Cross;
    if -392 <= LRound(t.dy) <= 391 {
      forall x, y | 0 <= x < w && 0 <= y < h && TargetColor(f, w, h, caption, t, x, y).Some? ensures In(Band(w, t), x, y) {
        TargetConfined(f, w, h, caption, t, x, y);
      }
    } else {
      var y := if LRound(t.dy) < 0 then MeanY(t) - 8 else MeanY(t) + 8;
      assert InDisk(MeanX(t), MeanY(t), 8, MeanX(t), y);
      assert TargetColor(f, w, h, caption, t, MeanX(t), y).Some? && !In(Band(w, t), MeanX(t), y);
    }
  }

  // ---- The canvas after a reset -----------------------------------------------------------------------------

  predicate OnGridLine(x: int, y: int) {
    (x > 0 && x % CELL == 0) || (y > 0 && y % CELL == 0)
  }

  predicate IsEdge(c: nat, gcols: nat, grows: nat)
    requires gcols > 0
  {
    c % gcols == 0 || c / gcols == 0 || c % gcols == gcols - 1 || c / gcols == grows - 1
  }

  /** The first `n` cells drawn over a colour. */
  function CellsOver(n: nat, hits: seq<nat>, level: seq<nat>, gcols: nat, grows: nat, x: int, y: int, under: Color): Color
    requires n <= |hits| == |level| && (n > 0 ==> gcols > 0)
  {
    if n == 0 then under
    else if In(CellRect(n - 1, gcols), x, y) then
      CellPixel(CellRect(n - 1, gcols), level[n - 1], IsEdge(n - 1, gcols, grows) && hits[n - 1] == 0, x, y)
    else CellsOver(n - 1, hits, level, gcols, grows, x, y, under)
  }

  /** The eight targets of `grid_setup`, clockwise from the top left. */
  function Targets(w: nat, h: nat): (ts: seq<Target>)
    ensures |ts| == NTARGETS
  {
    var xs := [96, w / 2, w - 96, w - 96, w - 96, w / 2, 96, 96];
    var ys := [96, 96, 96, h / 2, h - 96, h - 96, h - 96, h / 2];
    seq(NTARGETS, i requires 0 <= i < NTARGETS => Target(xs[i], ys[i], false, 0.0, 0.0, 0))
  }

  function TargetsOver(n: nat, targets: seq<Target>, f: Font, w: nat, h: nat, caption: Caption, x: int, y: int, under: Color): Color
    requires n <= |targets|
  {
    if n == 0 then under
    else Over(TargetColor(f, w, h, caption, targets[n - 1], x, y),
              TargetsOver(n - 1, targets, f, w, h, caption, x, y, under))
  }

  /** The targets near a cell, which are redrawn with it. */
  predicate Near(t: Target, cell: nat, gcols: nat)
    requires gcols > 0
  {
    Abs(TDiv(t.x, CELL) - cell % gcols) <= 1 && Abs(TDiv(t.y, CELL) - cell / gcols) <= 1
  }

  function NearOver(n: nat, targets: seq<Target>, cell: nat, gcols: nat, f: Font, w: nat, h: nat, caption: Caption,
                    x: int, y: int, under: Color): Color
    requires n <= |targets| && gcols > 0
  {
    if n == 0 then under
    else
      var below := NearOver(n - 1, targets, cell, gcols, f, w, h, caption, x, y, under);
      if Near(targets[n - 1], cell, gcols) then Over(TargetColor(f, w, h, caption, targets[n - 1], x, y), below) else below
  }

  /** The dirty list after their rows are marked. */
  function NearMarks(n: nat, targets: seq<Target>, cell: nat, gcols: nat, full: bool, d: seq<Rect>, w: nat, h: nat): seq<Rect>
    requires n <= |targets| && gcols > 0
  {
    if n == 0 then d
    else
      var e := NearMarks(n - 1, targets, cell, gcols, full, d, w, h);
      if Near(targets[n - 1], cell, gcols) then MarkList(full, e, Band(w, targets[n - 1]), w, h) else e
  }

  /** One reported slot: lifted, or held with its new look and whether anything about it changed; `known` says
      that the axis ranges are known. */
  datatype Slot = Lifted | Held(look: Look, changed: bool, known: bool)

  /** What `to_screen` and `marker_radius` give: a look on the screen with a radius in range. */
  predicate Reportable(slot: Slot) {
    slot.Held? ==> WellFormed(slot.look) && slot.look.sx >= 0 && slot.look.sy >= 0
  }

  predicate InputFits(f: Font, input: Input) {
    input.Report? ==> forall s :: 0 <= s < |input.slots| && input.slots[s].Held? ==> Fits(f, input.slots[s].look)
  }

  lemma LookRadius(k: Look)
    requires WellFormed(k)
    ensures k.r >= 0
  {
  }

  function ModeAfter(b: int, mode: Mode): Mode {
    if b == 0 then PAINT else if b == 1 then GRID else if b == 2 then EVENTS else mode
  }

  datatype Input = Report(slots: seq<Slot>) | Home | Frame(hudNow: bool, hudLook: Picture, eventsLook: Picture)

  /** The button under a point of the bar. */
  function ButtonAt(bar: Rect, x: int, y: int): (b: int)
    ensures -1 <= b <= 4
  {
    var bw := TDiv(bar.x1 - bar.x0, 5);
    if !In(bar, x, y) || bw <= 0 then -1
    else
      var k := (x - bar.x0) / bw;
      if k < 5 then k else 4
  }

  /** The target with the mean offset of a contact that started on it. */
  function Finished(t: Target, c: Contact): Target
    requires c.samples > 0
  {
    t.(dx := c.sumX as real / c.samples as real - t.x as real, dy := c.sumY as real / c.samples as real - t.y as real,
       samples := c.samples, done := true)
  }

  /** A button is the fifth of the bar the point is in; the last one also takes what the division leaves over. */
  lemma ButtonUnder(bar: Rect, x: int, y: int)
    requires ButtonAt(bar, x, y) >= 0
    ensures var b, bw := ButtonAt(bar, x, y), TDiv(bar.x1 - bar.x0, 5);
            In(bar, x, y) && bar.x0 + b * bw <= x && (b < 4 ==> x < bar.x0 + (b + 1) * bw)
  {
    var bw := TDiv(bar.x1 - bar.x0, 5);
    var d := x - bar.x0;
    var k, b := d / bw, ButtonAt(bar, x, y);
    assert d == bw * k + d % bw && (b + 1) * bw == b * bw + bw && bw * k == k * bw;
    ProductSign(k - b, bw);
    assert (k - b) * bw == k * bw - b * bw;
  }

  function Bumped(hits: seq<nat>, cell: Option<nat>): seq<nat> {
    if cell.Some? && cell.value < |hits| then hits[cell.value := (hits[cell.value] + 1) % 0x1_0000_0000] else hits
  }

  function Relevelled(level: seq<nat>, hits: seq<nat>, cell: Option<nat>): seq<nat> {
    if cell.Some? && cell.value < |level| && cell.value < |hits| then level[cell.value := Level(hits[cell.value], 0)] else level
  }

  /** A contact that started on a target adds its position to the mean. */
  function Counted(c: Contact): Contact {
    if c.target >= 0 then c.(sumX := c.sumX + c.look.sx, sumY := c.sumY + c.look.sy, samples := c.samples + 1) else c
  }

  function Moved(c: Contact): Contact {
    c.(psx := c.look.sx, psy := c.look.sy, hasPrev := true)
  }

  lemma CellSize(c: nat, gcols: nat)
    requires gcols > 0
    ensures var r := CellRect(c, gcols); r.x1 == r.x0 + CELL && r.y1 == r.y0 + CELL
  {
  }

  // ---- The state --------------------------------------------------------------------------------------------

  /** What does not change while the program runs. */
  datatype Setting = Setting(font: Font, w: nat, h: nat, gcols: nat, grows: nat, caption: Caption)

  /** What does, without the canvas; `full` says that the next frame redraws everything. */
  datatype State = State(mode: Mode, hudVisible: bool, full: bool, hits: seq<nat>, level: seq<nat>, targets: seq<Target>,
                         con: seq<Contact>)

  predicate StateOk(g: Setting, st: State) {
    && |st.hits| == |st.level| && (st.hits != [] ==> g.gcols > 0) && |st.targets| == NTARGETS
    && forall s :: 0 <= s < |st.con| ==> st.con[s].target < NTARGETS
  }

  /** A contact without what the renderer keeps about its marker. */
  function Bare(c: Contact): Contact {
    c.(marker := Rect(0, 0, 0, 0), markerDrawn := false)
  }

  function Bares(con: seq<Contact>): (bs: seq<Contact>)
    ensures |bs| == |con| && forall s :: 0 <= s < |con| ==> bs[s] == Bare(con[s])
  {
    seq(|con|, s requires 0 <= s < |con| => Bare(con[s]))
  }

  lemma BaresUpdate(con: seq<Contact>, s: nat, c: Contact)
    requires s < |con|
    ensures Bares(con[s := c]) == Bares(con)[s := Bare(c)]
  {
  }

  lemma BaresTargets(con: seq<Contact>)
    requires forall s :: 0 <= s < |con| ==> con[s].target < NTARGETS
    ensures forall s :: 0 <= s < |con| ==> Bares(con)[s].target < NTARGETS
  {
  }

  lemma SameBares(a: seq<Contact>, b: seq<Contact>)
    requires |a| == |b| && forall s | 0 <= s < |b| :: b[s] == a[s].(marker := b[s].marker, markerDrawn := b[s].markerDrawn)
    ensures Bares(a) == Bares(b)
  {
  }

  lemma BareLanded(g: Setting, st: State, c: Contact, known: bool)
    requires |st.targets| == NTARGETS
    ensures Bare(Landed(g, st, c, known)) == Landed(g, st, Bare(c), known)
  {
  }

  lemma BareMoved(g: Setting, mode: Mode, c: Contact)
    ensures Bare(MovedAs(g, mode, c)) == MovedAs(g, mode, Bare(c))
  {
  }

  // ---- Where a contact is -----------------------------------------------------------------------------------

  function Excluded(g: Setting, c: nat): bool
    requires g.gcols > 0
  {
    var r := CellRect(c, g.gcols);
    var p := Union(HudRect(g.font, g.w, g.h, GRID, true), BarRect(g.font, g.w, g.h, GRID));
    Within(r, p)
  }

  /** The cell under a contact, if it is one that counts. */
  function CellAt(g: Setting, sx: int, sy: int): (cell: Option<nat>)
    ensures cell.Some? ==> cell.value < g.gcols * g.grows
  {
    var cx, cy := TDiv(sx, CELL), TDiv(sy, CELL);
    if g.gcols > 0 && 0 <= cx < g.gcols && 0 <= cy < g.grows then
      CellInTable(g, cx, cy);
      if Excluded(g, cy * g.gcols + cx) then None else Some(cy * g.gcols + cx)
    else None
  }

  lemma CellInTable(g: Setting, cx: int, cy: int)
    requires 0 <= cx < g.gcols && 0 <= cy < g.grows
    ensures 0 <= cy * g.gcols + cx < g.gcols * g.grows
  {
    ProductSign(cy, g.gcols);
    ProductSign(g.grows - 1 - cy, g.gcols);
    assert g.gcols * g.grows == cy * g.gcols + g.gcols + (g.grows - 1 - cy) * g.gcols;
  }

  /** The cell counted for a touch is the one drawn under it. */
  lemma CellUnderTouch(g: Setting, sx: int, sy: int)
    requires sx >= 0 && sy >= 0 && CellAt(g, sx, sy).Some?
    ensures g.gcols > 0 && In(CellRect(CellAt(g, sx, sy).value, g.gcols), sx, sy)
  {
    hide Excluded;
    var cx, cy := sx / CELL, sy / CELL;
    CellInTable(g, cx, cy);
    GlyphPixel(cy, cx, g.gcols, cy * g.gcols + cx);
  }

  function OwnerAt(g: Setting, mode: Mode, hudVisible: bool, x: int, y: int, known: bool): Owner {
    if !known then OwnHud
    else if In(BarRect(g.font, g.w, g.h, mode), x, y) then OwnBar
    else if In(HudRect(g.font, g.w, g.h, mode, hudVisible), x, y) && mode != PAINT then OwnHud
    else OwnDraw
  }

  function Dist(targets: seq<Target>, i: nat, x: int, y: int): int
    requires i < |targets|
  {
    Sq(x - targets[i].x) + Sq(y - targets[i].y)
  }

  function NearestAmong(targets: seq<Target>, n: nat, x: int, y: int): (best: int)
    requires n <= |targets|
    ensures -1 <= best < n
  {
    if n == 0 then -1
    else
      var b := NearestAmong(targets, n - 1, x, y);
      if Dist(targets, n - 1, x, y) < (if b == -1 then 200 * 200 else Dist(targets, b, x, y)) then n - 1 else b
  }

  /** The target a touch belongs to: the nearest within 200 pixels, the first of equals, or none. */
  lemma {:induction false} NearestIs(targets: seq<Target>, n: nat, x: int, y: int)
    requires n <= |targets|
    ensures var best := NearestAmong(targets, n, x, y);
            if best == -1 then forall i :: 0 <= i < n ==> Dist(targets, i, x, y) >= 200 * 200
            else Dist(targets, best, x, y) < 200 * 200 && forall i :: 0 <= i < n ==>
                   if i < best then Dist(targets, best, x, y) < Dist(targets, i, x, y)
                   else Dist(targets, best, x, y) <= Dist(targets, i, x, y)
  {
    hide Dist;
    if n > 0 {
      NearestIs(targets, n - 1, x, y);
    }
  }

  // ---- The canvas -------------------------------------------------------------------------------------------

  /** The canvas of a freshly reset screen. */
  function ResetPixel(g: Setting, st: State, x: int, y: int): Color
    requires |st.hits| == |st.level| && (st.hits != [] ==> g.gcols > 0) && |st.targets| == NTARGETS
  {
    match st.mode
    case PAINT => if OnGridLine(x, y) then C_GRIDLN else C_BG
    case GRID =>
      TargetsOver(NTARGETS, st.targets, g.font, g.w, g.h, g.caption, x, y,
        CellsOver(|st.hits|, st.hits, st.level, g.gcols, g.grows, x, y, C_BG))
    case EVENTS => C_BG
  }

  /** What a hit on a cell leaves at a pixel, given the levels before: the cell in its new colour under the targets
      near it, or nothing new. */
  function AfterHit(g: Setting, hits: seq<nat>, level: seq<nat>, targets: seq<Target>, at: Option<nat>, was: seq<nat>,
                    x: int, y: int, under: Color): Color
    requires |hits| == |level| == |was| && (hits != [] ==> g.gcols > 0) && |targets| == NTARGETS
  {
    if at.Some? && at.value < |level| && level[at.value] != was[at.value] then
      NearOver(NTARGETS, targets, at.value, g.gcols, g.font, g.w, g.h, g.caption, x, y,
        if In(CellRect(at.value, g.gcols), x, y) then
          CellPixel(CellRect(at.value, g.gcols), level[at.value], IsEdge(at.value, g.gcols, g.grows) && hits[at.value] == 0, x, y)
        else under)
    else under
  }

  function MarksAfterHit(g: Setting, hits: seq<nat>, level: seq<nat>, targets: seq<Target>, at: Option<nat>, was: seq<nat>,
                         full: bool, dirty: seq<Rect>): seq<Rect>
    requires |hits| == |level| == |was| && (hits != [] ==> g.gcols > 0) && |targets| == NTARGETS
  {
    if at.Some? && at.value < |level| && level[at.value] != was[at.value] then
      NearMarks(NTARGETS, targets, at.value, g.gcols, full, MarkList(full, dirty, CellRect(at.value, g.gcols), g.w, g.h), g.w, g.h)
    else dirty
  }

  /** Without a cell nothing changes. */
  lemma NoHit(g: Setting, hits: seq<nat>, level: seq<nat>, targets: seq<Target>, at: Option<nat>)
    requires |hits| == |level| && (hits != [] ==> g.gcols > 0) && |targets| == NTARGETS
    ensures at.None? ==> forall u, v, c :: AfterHit(g, hits, level, targets, at, level, u, v, c) == c
    ensures at.None? ==> forall full, ds :: MarksAfterHit(g, hits, level, targets, at, level, full, ds) == ds
  {
  }

  // ---- Buttons, landings, moves and lifts -------------------------------------------------------------------

  /** `do_button` */
  function Press(st: State, b: int): (r: State)
    ensures |r.hits| == |st.hits| && |r.level| == |st.level| && |r.targets| == |st.targets| && r.con == st.con
  {
    if 0 <= b <= 2 then st.(mode := ModeAfter(b, st.mode), full := true)
    else if b == 3 then
      if st.mode == GRID then
        st.(full := true, hits := seq(|st.hits|, i => 0), level := seq(|st.level|, i => 0),
            targets := seq(|st.targets|, i requires 0 <= i < |st.targets| => st.targets[i].(done := false, samples := 0)))
      else st.(full := true)
    else if b == 4 then st.(hudVisible := !st.hudVisible, full := true)
    else st
  }

  /** `contact_down` */
  function Landed(g: Setting, st: State, c: Contact, known: bool): Contact
    requires |st.targets| == NTARGETS
  {
    var x, y := c.look.sx, c.look.sy;
    var owner := OwnerAt(g, st.mode, st.hudVisible, x, y, known);
    c.(owner := owner, hasPrev := false, sumX := 0, sumY := 0, samples := 0,
       button := if owner == OwnBar then ButtonAt(BarRect(g.font, g.w, g.h, st.mode), x, y) else c.button,
       target := if owner == OwnDraw && st.mode == GRID then NearestAmong(st.targets, NTARGETS, x, y) else -1)
  }

  /** The contact after `contact_move`. */
  function MovedAs(g: Setting, mode: Mode, c: Contact): Contact {
    if c.owner != OwnDraw then c
    else if mode == GRID && g.gcols > 0 then Moved(Counted(c))
    else Moved(c)
  }

  /** The cell a move counts for. */
  function CountsFor(g: Setting, mode: Mode, c: Contact): Option<nat> {
    if c.owner == OwnDraw && mode == GRID then CellAt(g, c.look.sx, c.look.sy) else None
  }

  /** `contact_move` */
  function Move(g: Setting, st: State, s: nat): (r: State)
    requires StateOk(g, st) && s < |st.con|
    ensures StateOk(g, r) && |r.con| == |st.con|
  {
    var c := st.con[s];
    var hits := Bumped(st.hits, CountsFor(g, st.mode, c));
    st.(hits := hits, level := Relevelled(st.level, hits, CountsFor(g, st.mode, c)), con := st.con[s := MovedAs(g, st.mode, c)])
  }

  function MovePixel(g: Setting, st: State, s: nat, x: int, y: int, under: Color): Color
    requires StateOk(g, st) && s < |st.con|
  {
    var c, r := st.con[s], Move(g, st, s);
    if c.owner == OwnDraw && st.mode == PAINT then (if Trail(c).Inks(x, y) then c.look.color else under)
    else AfterHit(g, r.hits, r.level, r.targets, CountsFor(g, st.mode, c), st.level, x, y, under)
  }

  /** A move that counts for no cell changes nothing but the contact. */
  lemma MoveUncounted(g: Setting, st: State, s: nat)
    requires StateOk(g, st) && s < |st.con| && CountsFor(g, st.mode, st.con[s]).None?
    ensures Move(g, st, s) == st.(con := st.con[s := MovedAs(g, st.mode, st.con[s])])
    ensures forall x, y, under :: MovePixel(g, st, s, x, y, under) ==
              if st.con[s].owner == OwnDraw && st.mode == PAINT && Trail(st.con[s]).Inks(x, y) then st.con[s].look.color else under
    ensures forall full, ds :: MarksAfterHit(g, st.hits, st.level, st.targets, None, st.level, full, ds) == ds
  {
    hide Segment.Inks, CellAt;
  }

  /** A move on the GRID screen is a hit. */
  lemma MoveCounted(g: Setting, st: State, s: nat)
    requires StateOk(g, st) && s < |st.con| && st.mode == GRID && st.con[s].owner == OwnDraw
    ensures var at := CellAt(g, st.con[s].look.sx, st.con[s].look.sy);
            var hits := Bumped(st.hits, at);
            var level := Relevelled(st.level, hits, at);
            && CountsFor(g, st.mode, st.con[s]) == at && |hits| == |level| == |st.hits|
            && Move(g, st, s) == st.(hits := hits, level := level, con := st.con[s := MovedAs(g, st.mode, st.con[s])])
            && forall x, y, under ::
                 MovePixel(g, st, s, x, y, under) == AfterHit(g, hits, level, st.targets, at, st.level, x, y, under)
  {
    hide AfterHit, CellAt, Level;
  }

  /** The lifted contact is still on the button it landed on. */
  predicate Presses(g: Setting, mode: Mode, c: Contact) {
    c.owner == OwnBar && c.button >= 0 && ButtonAt(BarRect(g.font, g.w, g.h, mode), c.look.sx, c.look.sy) == c.button
  }

  predicate Finishes(mode: Mode, c: Contact) {
    c.owner != OwnBar && mode == GRID && c.target >= 0 && c.samples > 0
  }

  /** `contact_up` */
  function Up(g: Setting, st: State, s: nat): (r: State)
    requires StateOk(g, st) && s < |st.con|
    ensures StateOk(g, r) && |r.con| == |st.con|
  {
    var c := st.con[s];
    if Presses(g, st.mode, c) then Press(st, c.button)
    else if Finishes(st.mode, c) then st.(full := true, targets := st.targets[c.target := Finished(st.targets[c.target], c)])
    else st
  }

  function UpPixel(g: Setting, st: State, s: nat, x: int, y: int, under: Color): Color
    requires StateOk(g, st) && s < |st.con|
  {
    if Presses(g, st.mode, st.con[s]) || Finishes(st.mode, st.con[s]) then ResetPixel(g, Up(g, st, s), x, y) else under
  }

  // ---- A report ---------------------------------------------------------------------------------------------

  /** A held slot once `contact_down` has been called if it is new. */
  function Settle(g: Setting, st: State, s: nat, look: Look, known: bool): (r: State)
    requires StateOk(g, st) && s < |st.con|
    ensures StateOk(g, r) && |r.con| == |st.con|
  {
    var c := st.con[s].(look := look, active := true);
    st.(con := st.con[s := if st.con[s].active then c else Landed(g, st, c, known)])
  }

  /** One slot of a report. */
  function Take(g: Setting, st: State, s: nat, slot: Slot): (r: State)
    requires StateOk(g, st) && s < |st.con|
    ensures StateOk(g, r) && |r.con| == |st.con|
  {
    match slot
    case Held(look, changed, known) =>
      var held := Settle(g, st, s, look, known);
      if !st.con[s].active || changed then Move(g, held, s) else held
    case Lifted =>
      if st.con[s].active then Up(g, st.(con := st.con[s := st.con[s].(active := false)]), s) else st
  }

  function TakePixel(g: Setting, st: State, s: nat, slot: Slot, x: int, y: int, under: Color): Color
    requires StateOk(g, st) && s < |st.con|
  {
    match slot
    case Held(look, changed, known) =>
      if !st.con[s].active || changed then MovePixel(g, Settle(g, st, s, look, known), s, x, y, under) else under
    case Lifted =>
      if st.con[s].active then UpPixel(g, st.(con := st.con[s := st.con[s].(active := false)]), s, x, y, under) else under
  }

  /** The state after the first `n` slots. */
  function After(g: Setting, st: State, slots: seq<Slot>, n: nat): (r: State)
    requires StateOk(g, st) && n <= |slots| == |st.con|
    ensures StateOk(g, r) && |r.con| == |st.con|
  {
    if n == 0 then st else Take(g, After(g, st, slots, n - 1), n - 1, slots[n - 1])
  }

  function AfterPixel(g: Setting, st: State, slots: seq<Slot>, n: nat, x: int, y: int, under: Color): Color
    requires StateOk(g, st) && n <= |slots| == |st.con|
  {
    if n == 0 then under
    else TakePixel(g, After(g, st, slots, n - 1), n - 1, slots[n - 1], x, y, AfterPixel(g, st, slots, n - 1, x, y, under))
  }

  // ---- What a report does -----------------------------------------------------------------------------------

  /** Each slot is handled with the contact as it was before the report, and what it becomes stays. */
  lemma {:induction false} OwnSlotOnly(g: Setting, st: State, slots: seq<Slot>, n: nat, s: nat)
    requires StateOk(g, st) && n <= |slots| == |st.con| && s < |st.con|
    ensures n <= s ==> After(g, st, slots, n).con[s] == st.con[s]
    ensures n > s ==> After(g, st, slots, n).con[s] == After(g, st, slots, s + 1).con[s]
    decreases n
  {
    hide OwnerAt, NearestAmong, Bumped, Relevelled, CellAt, Presses, Finished, ButtonAt, BarRect;
    if n > 0 && n != s + 1 {
      OwnSlotOnly(g, st, slots, n - 1, s);
    }
  }

  /** Once something asks for a full redraw, it stays asked for. */
  lemma {:induction false} FullStays(g: Setting, st: State, slots: seq<Slot>, m: nat, n: nat)
    requires StateOk(g, st) && m <= n <= |slots| == |st.con| && After(g, st, slots, m).full
    ensures After(g, st, slots, n).full
    decreases n
  {
    hide OwnerAt, NearestAmong, Bumped, Relevelled, CellAt, Presses, Finished, ButtonAt, BarRect;
    if n > m {
      FullStays(g, st, slots, m, n - 1);
    }
  }

  /** A slot reported as held for the first time: it has the owner of the layout at that moment, its button if it
      landed on the bar, and its first point and the target nearest to it if it draws. */
  lemma LandingEnds(g: Setting, st: State, slots: seq<Slot>, s: nat)
    requires StateOk(g, st) && s < |slots| == |st.con| && slots[s].Held? && !st.con[s].active
    ensures var here, c, k := After(g, st, slots, s), After(g, st, slots, |slots|).con[s], slots[s].look;
            && c.active && c.look == k
            && c.owner == (if !slots[s].known then OwnHud
                           else if In(BarRect(g.font, g.w, g.h, here.mode), k.sx, k.sy) then OwnBar
                           else if here.mode != PAINT && In(HudRect(g.font, g.w, g.h, here.mode, here.hudVisible), k.sx, k.sy) then OwnHud
                           else OwnDraw)
            && (c.owner == OwnBar ==> c.button == ButtonAt(BarRect(g.font, g.w, g.h, here.mode), k.sx, k.sy))
            && (c.owner == OwnDraw ==> c.hasPrev && c.psx == k.sx && c.psy == k.sy)
            && (c.owner == OwnDraw && here.mode == GRID && g.gcols > 0 && c.target >= 0 ==>
                  c.samples == 1 && c.sumX == k.sx && c.sumY == k.sy)
            && (c.owner != OwnDraw ==> !c.hasPrev && c.target == -1 && c.samples == 0)
            && (c.owner == OwnDraw ==>
                  c.target == if here.mode == GRID then NearestAmong(here.targets, NTARGETS, k.sx, k.sy) else -1)
  {
    OwnSlotOnly(g, st, slots, s, s);
    OwnSlotOnly(g, st, slots, |slots|, s);
    hide NearestAmong, Bumped, Relevelled, CellAt, ButtonAt, BarRect, HudRect, Press, Up;
  }

  /** A slot that goes on being held keeps owner, button and target; if it draws and has changed it has moved on to the
      new point, and counts for its target. */
  lemma HeldEnds(g: Setting, st: State, slots: seq<Slot>, s: nat)
    requires StateOk(g, st) && s < |slots| == |st.con| && slots[s].Held? && st.con[s].active
    ensures var here, was, c, k := After(g, st, slots, s), st.con[s], After(g, st, slots, |slots|).con[s], slots[s].look;
            && c.active && c.look == k && c.owner == was.owner && c.button == was.button && c.target == was.target
            && (was.owner == OwnDraw && slots[s].changed ==>
                  && c.hasPrev && c.psx == k.sx && c.psy == k.sy
                  && (here.mode == GRID && g.gcols > 0 && was.target >= 0 ==>
                        c.samples == was.samples + 1 && c.sumX == was.sumX + k.sx && c.sumY == was.sumY + k.sy))
            && (was.owner != OwnDraw || !slots[s].changed ==> c == was.(look := k))
  {
    OwnSlotOnly(g, st, slots, s, s);
    OwnSlotOnly(g, st, slots, |slots|, s);
    hide NearestAmong, Bumped, Relevelled, CellAt, ButtonAt, BarRect, HudRect, Press, Up;
  }

  /** A lifted contact and the button it is still on: mode, panel, counts and targets after it. */
  predicate PressedFrom(here: State, next: State, button: int) {
    && next.full && next.con == here.con
    && next.mode == (if button == 0 then PAINT else if button == 1 then GRID else if button == 2 then EVENTS else here.mode)
    && next.hudVisible == (if button == 4 then !here.hudVisible else here.hudVisible)
    && if button == 3 && here.mode == GRID then Cleared(next)
       else next.hits == here.hits && next.level == here.level && next.targets == here.targets
  }

  /** A lifted contact and the target it finishes: nothing else changes. */
  predicate FinishedFrom(here: State, next: State, c: Contact) {
    && 0 <= c.target < |here.targets| == |next.targets| && next == here.(full := true, targets := next.targets)
    && next.targets[c.target].done && next.targets[c.target].samples == c.samples && Mean(next.targets[c.target], c)
    && forall i :: 0 <= i < |here.targets| && i != c.target ==> next.targets[i] == here.targets[i]
  }

  lemma ButtonRange(bar: Rect, x: int, y: int)
    ensures -1 <= ButtonAt(bar, x, y) <= 4
  {
  }

  lemma UpEnds(g: Setting, here: State, s: nat)
    requires StateOk(g, here) && s < |here.con|
    ensures var c := here.con[s];
            if c.owner == OwnBar && c.button >= 0
               && ButtonAt(BarRect(g.font, g.w, g.h, here.mode), c.look.sx, c.look.sy) == c.button then
              PressedFrom(here, Up(g, here, s), c.button) && Up(g, here, s).full
            else if c.owner != OwnBar && here.mode == GRID && c.target >= 0 && c.samples > 0 then
              FinishedFrom(here, Up(g, here, s), c) && Up(g, here, s).full
            else Up(g, here, s) == here
  {
    hide ButtonAt, BarRect;
    var c := here.con[s];
    ButtonRange(BarRect(g.font, g.w, g.h, here.mode), c.look.sx, c.look.sy);
    if c.samples > 0 && 0 <= c.target {
      MeanOfFinished(here.targets[c.target], c);
    }
  }

  lemma MeanOfFinished(t: Target, c: Contact)
    requires c.samples > 0
    ensures Mean(Finished(t, c), c)
  {
    var n := c.samples as real;
    assert (t.x as real + (c.sumX as real / n - t.x as real)) * n == c.sumX as real;
    assert (t.y as real + (c.sumY as real / n - t.y as real)) * n == c.sumY as real;
  }

  /** A lifted slot: it is no longer active, and the state right after it is that of the button it is still on, or of
      the target it finishes, and a full redraw is asked for to the end of the report; otherwise nothing changes. */
  lemma LiftEnds(g: Setting, st: State, slots: seq<Slot>, s: nat)
    requires StateOk(g, st) && s < |slots| == |st.con| && slots[s].Lifted? && st.con[s].active
    ensures var was, here, next := st.con[s], After(g, st, slots, s), After(g, st, slots, s + 1);
            var lifted := here.(con := here.con[s := was.(active := false)]);
            && After(g, st, slots, |slots|).con[s] == was.(active := false)
            && if was.owner == OwnBar && was.button >= 0
                  && ButtonAt(BarRect(g.font, g.w, g.h, here.mode), was.look.sx, was.look.sy) == was.button then
                 PressedFrom(lifted, next, was.button) && After(g, st, slots, |slots|).full
               else if was.owner != OwnBar && here.mode == GRID && was.target >= 0 && was.samples > 0 then
                 FinishedFrom(lifted, next, was.(active := false)) && After(g, st, slots, |slots|).full
               else next == lifted
  {
    hide ButtonAt, BarRect, After, Take, Up, PressedFrom, FinishedFrom, StateOk;
    TakesLift(g, st, slots, s);
    var here := After(g, st, slots, s);
    var lifted := here.(con := here.con[s := st.con[s].(active := false)]);
    UpEnds(g, lifted, s);
    if Up(g, lifted, s).full {
      FullStays(g, st, slots, s + 1, |slots|);
    }
  }

  lemma TakesLift(g: Setting, st: State, slots: seq<Slot>, s: nat)
    requires StateOk(g, st) && s < |slots| == |st.con| && slots[s].Lifted? && st.con[s].active
    ensures var here, gone := After(g, st, slots, s), st.con[s].(active := false);
            && StateOk(g, here.(con := here.con[s := gone])) && here.con[s] == st.con[s]
            && After(g, st, slots, s + 1) == Up(g, here.(con := here.con[s := gone]), s)
            && After(g, st, slots, |slots|).con[s] == gone
  {
    OwnSlotOnly(g, st, slots, s, s);
    OwnSlotOnly(g, st, slots, |slots|, s);
    AfterNext(g, st, slots, s);
    hide After, Press, Presses, Finishes, Finished;
  }

  lemma AfterNext(g: Setting, st: State, slots: seq<Slot>, s: nat)
    requires StateOk(g, st) && s < |slots| == |st.con|
    ensures After(g, st, slots, s + 1) == Take(g, After(g, st, slots, s), s, slots[s])
  {
  }

  /** No cell has been touched and no target is finished. */
  predicate Cleared(st: State) {
    && (forall c :: 0 <= c < |st.hits| ==> st.hits[c] == 0) && (forall c :: 0 <= c < |st.level| ==> st.level[c] == 0)
    && forall i :: 0 <= i < |st.targets| ==> !st.targets[i].done && st.targets[i].samples == 0
  }

  /** The target shows how far the mean of the contact's points is from it. */
  predicate Mean(t: Target, c: Contact) {
    (t.x as real + t.dx) * c.samples as real == c.sumX as real && (t.y as real + t.dy) * c.samples as real == c.sumY as real
  }

  /** After a report exactly the held slots are active, each where it was reported. */
  lemma SlotSettles(g: Setting, st: State, slots: seq<Slot>, s: nat)
    requires StateOk(g, st) && s < |slots| == |st.con|
    ensures var c := After(g, st, slots, |slots|).con[s];
            c.active == slots[s].Held? && (slots[s].Held? ==> c.look == slots[s].look)
  {
    hide After;
    if slots[s].Held? && st.con[s].active {
      HeldEnds(g, st, slots, s);
    } else if slots[s].Held? {
      LandingEnds(g, st, slots, s);
    } else if st.con[s].active {
      TakesLift(g, st, slots, s);
    } else {
      OwnSlotOnly(g, st, slots, s, s);
      OwnSlotOnly(g, st, slots, |slots|, s);
      AfterNext(g, st, slots, s);
    }
  }

  /** A slot that was not held and is not reported changes nothing. */
  lemma StaysLifted(g: Setting, st: State, s: nat)
    requires StateOk(g, st) && s < |st.con| && !st.con[s].active
    ensures Take(g, st, s, Lifted) == st && forall x, y, under :: TakePixel(g, st, s, Lifted, x, y, under) == under
  {
  }

  // ---- Drawing ----------------------------------------------------------------------------------------------

  /** None of the first `n` slots lifts a contact off the button it is on. */
  predicate Quiet(g: Setting, st: State, slots: seq<Slot>, n: nat)
    requires n <= |slots| == |st.con|
  {
    forall i :: 0 <= i < n && slots[i].Lifted? && st.con[i].active ==> !Presses(g, st.mode, st.con[i])
  }

  /** The slot is held by a drawing contact that is new or has changed. */
  predicate Draws(g: Setting, st: State, slots: seq<Slot>, s: nat)
    requires s < |slots| == |st.con|
  {
    && slots[s].Held?
    && if st.con[s].active then slots[s].changed && st.con[s].owner == OwnDraw
       else OwnerAt(g, st.mode, st.hudVisible, slots[s].look.sx, slots[s].look.sy, slots[s].known) == OwnDraw
  }

  /** From the contact's last point to the new one, or a first dot. */
  function Stroke(st: State, slots: seq<Slot>, s: nat): Segment
    requires s < |slots| == |st.con| && slots[s].Held?
  {
    var c, k := st.con[s], slots[s].look;
    var r := k.r / 6;
    var width := if r < 4 then 4 else if r > 14 then 14 else r;
    if c.active && c.hasPrev then Segment(c.psx, c.psy, k.sx, k.sy, width) else Segment(k.sx, k.sy, k.sx, k.sy, width)
  }

  predicate Inks(g: Setting, st: State, slots: seq<Slot>, s: nat, x: int, y: int)
    requires s < |slots| == |st.con|
  {
    Draws(g, st, slots, s) && Stroke(st, slots, s).Inks(x, y)
  }

  /** Without a button the layout stays what it was. */
  lemma {:induction false} QuietLayout(g: Setting, st: State, slots: seq<Slot>, n: nat)
    requires StateOk(g, st) && n <= |slots| == |st.con| && Quiet(g, st, slots, n)
    ensures var r := After(g, st, slots, n); r.mode == st.mode && r.hudVisible == st.hudVisible
    decreases n
  {
    hide OwnerAt, NearestAmong, Bumped, Relevelled, CellAt, Presses, Finished, ButtonAt, BarRect;
    if n > 0 {
      QuietLayout(g, st, slots, n - 1);
      OwnSlotOnly(g, st, slots, n - 1, n - 1);
      SamePress(g, st.mode, st.con[n - 1]);
    }
  }

  lemma SamePress(g: Setting, mode: Mode, c: Contact)
    ensures Presses(g, mode, c.(active := false)) == Presses(g, mode, c)
    ensures Finishes(mode, c.(active := false)) == Finishes(mode, c)
  {
  }

  /** A slot paints exactly its stroke, if it draws at all. */
  lemma PaintSlot(g: Setting, st: State, slots: seq<Slot>, n: nat, x: int, y: int, under: Color)
    requires StateOk(g, st) && n < |slots| == |st.con| && st.mode == PAINT && Quiet(g, st, slots, n + 1)
    ensures TakePixel(g, After(g, st, slots, n), n, slots[n], x, y, under) ==
            if Inks(g, st, slots, n, x, y) then slots[n].look.color else under
  {
    QuietLayout(g, st, slots, n);
    OwnSlotOnly(g, st, slots, n, n);
    SamePress(g, st.mode, st.con[n]);
    hide NearestAmong, CellAt, ButtonAt, BarRect, HudRect, After, OwnerAt, Segment.Inks, ResetPixel, Presses, CellPixel, NearOver;
  }

  /** On the PAINT screen every pixel has the colour of the last slot, in slot order, whose stroke covers it, and the
      colour it had where none does. */
  lemma {:induction false} PaintReport(g: Setting, st: State, slots: seq<Slot>, n: nat, x: int, y: int, under: Color)
    requires StateOk(g, st) && n <= |slots| == |st.con| && st.mode == PAINT && Quiet(g, st, slots, n)
    ensures (forall s | 0 <= s < n :: !Inks(g, st, slots, s, x, y)) ==> AfterPixel(g, st, slots, n, x, y, under) == under
    ensures forall s | 0 <= s < n && Inks(g, st, slots, s, x, y) && (forall t | s < t < n :: !Inks(g, st, slots, t, x, y)) ::
              AfterPixel(g, st, slots, n, x, y, under) == slots[s].look.color
    decreases n
  {
    hide Inks, TakePixel, Presses;
    if n > 0 {
      PaintReport(g, st, slots, n - 1, x, y, under);
      PaintSlot(g, st, slots, n - 1, x, y, AfterPixel(g, st, slots, n - 1, x, y, under));
    }
  }

  // ---- Counting ---------------------------------------------------------------------------------------------

  /** How many of the first `n` slots count for the cell. */
  function Touches(g: Setting, st: State, slots: seq<Slot>, n: nat, cell: nat): nat
    requires n <= |slots| == |st.con|
  {
    if n == 0 then 0
    else
      Touches(g, st, slots, n - 1, cell)
      + if slots[n - 1].Held? && Draws(g, st, slots, n - 1) && CellAt(g, slots[n - 1].look.sx, slots[n - 1].look.sy) == Some(cell) then 1 else 0
  }

  lemma CountSlot(g: Setting, st: State, slots: seq<Slot>, n: nat)
    requires StateOk(g, st) && n < |slots| == |st.con| && st.mode == GRID && Quiet(g, st, slots, n + 1)
    ensures var here, next := After(g, st, slots, n), After(g, st, slots, n + 1);
            var at := if slots[n].Held? && Draws(g, st, slots, n) then CellAt(g, slots[n].look.sx, slots[n].look.sy) else None;
            next.hits == Bumped(here.hits, at) && next.level == Relevelled(here.level, next.hits, at)
  {
    QuietLayout(g, st, slots, n);
    OwnSlotOnly(g, st, slots, n, n);
    SamePress(g, st.mode, st.con[n]);
    AfterNext(g, st, slots, n);
    hide NearestAmong, CellAt, ButtonAt, BarRect, HudRect, After, OwnerAt, Presses, Bumped, Relevelled;
    NoCell(After(g, st, slots, n));
  }

  lemma NoCell(st: State)
    ensures Bumped(st.hits, None) == st.hits && Relevelled(st.level, st.hits, None) == st.level
  {
  }

  lemma OneMore(a: nat, k: nat)
    ensures ((a + k) % 0x1_0000_0000 + 1) % 0x1_0000_0000 == (a + k + 1) % 0x1_0000_0000
  {
  }

  /** On the GRID screen every cell has grown by the number of drawing contacts over it that are new or have changed,
      modulo 2^32, and has the level of its count; the others are as they were. */
  lemma {:induction false} GridReport(g: Setting, st: State, slots: seq<Slot>, n: nat, cell: nat)
    requires StateOk(g, st) && n <= |slots| == |st.con| && st.mode == GRID && Quiet(g, st, slots, n) && cell < |st.hits|
    ensures var r, k := After(g, st, slots, n), Touches(g, st, slots, n, cell);
            && |r.hits| == |r.level| == |st.hits|
            && if k == 0 then r.hits[cell] == st.hits[cell] && r.level[cell] == st.level[cell]
               else r.hits[cell] == (st.hits[cell] + k) % 0x1_0000_0000 && r.level[cell] == Level(r.hits[cell], 0)
    decreases n
  {
    hide After, Draws, CellAt, Level, Presses, Bumped, Relevelled;
    if n > 0 {
      GridReport(g, st, slots, n - 1, cell);
      CountSlot(g, st, slots, n - 1);
      var here := After(g, st, slots, n - 1);
      var at := if slots[n - 1].Held? && Draws(g, st, slots, n - 1) then CellAt(g, slots[n - 1].look.sx, slots[n - 1].look.sy) else None;
      BumpedAt(here.hits, here.level, at, cell);
      OneMore(st.hits[cell], Touches(g, st, slots, n - 1, cell));
    } else {
      AfterNone(g, st, slots);
    }
  }

  lemma AfterNone(g: Setting, st: State, slots: seq<Slot>)
    requires StateOk(g, st) && |slots| == |st.con|
    ensures After(g, st, slots, 0) == st
  {
  }

  lemma BumpedAt(hits: seq<nat>, level: seq<nat>, at: Option<nat>, cell: nat)
    requires |hits| == |level| && cell < |hits|
    ensures var h, l := Bumped(hits, at), Relevelled(level, Bumped(hits, at), at);
            && |h| == |hits| && |l| == |level|
            && h[cell] == (if at == Some(cell) then (hits[cell] + 1) % 0x1_0000_0000 else hits[cell])
            && l[cell] == (if at == Some(cell) then Level(h[cell], 0) else level[cell])
  {
    hide Level;
  }

  /** A first touch on the GRID screen, in the terms of its cell. */
  lemma LandsOnGrid(g: Setting, st: State, s: nat, look: Look)
    requires StateOk(g, st) && s < |st.con| && st.mode == GRID && g.gcols > 0 && !st.con[s].active
    requires OwnerAt(g, GRID, st.hudVisible, look.sx, look.sy, true) == OwnDraw
    ensures var r, c, at := Take(g, st, s, Held(look, true, true)), Settle(g, st, s, look, true).con[s], CellAt(g, look.sx, look.sy);
            && CountsFor(g, GRID, c) == at && c.owner == OwnDraw
            && r == st.(hits := Bumped(st.hits, at), level := Relevelled(st.level, Bumped(st.hits, at), at), con := r.con)
            && r.con == st.con[s := Moved(Counted(c))] && c.active && c.look == look && c.samples == 0 && c.sumX == c.sumY == 0
            && c.target == NearestAmong(st.targets, NTARGETS, look.sx, look.sy)
            && forall x, y, under ::
                 TakePixel(g, st, s, Held(look, true, true), x, y, under)
                 == AfterHit(g, r.hits, r.level, st.targets, at, st.level, x, y, under)
  {
    hide AfterHit, CellAt, NearestAmong, Bumped, Relevelled, OwnerAt;
  }

  // ---- A run ------------------------------------------------------------------------------------------------

  function HomeButton(mode: Mode): int {
    match mode case PAINT => 1 case GRID => 2 case EVENTS => 0
  }

  predicate Fitted(inputs: seq<Input>, n: nat) {
    forall k :: 0 <= k < |inputs| && inputs[k].Report? ==> |inputs[k].slots| == n
  }

  /** The state after one input. */
  function Handled(g: Setting, st: State, input: Input): (r: State)
    requires StateOk(g, st) && (input.Report? ==> |input.slots| == |st.con|)
    ensures StateOk(g, r) && |r.con| == |st.con|
  {
    match input
    case Report(slots) => After(g, st, slots, |slots|)
    case Home => Press(st, HomeButton(st.mode))
    case Frame(_, _, _) => st.(full := false)
  }

  function HandledPixel(g: Setting, st: State, input: Input, x: int, y: int, under: Color): Color
    requires StateOk(g, st) && (input.Report? ==> |input.slots| == |st.con|)
  {
    match input
    case Report(slots) => AfterPixel(g, st, slots, |slots|, x, y, under)
    case Home => ResetPixel(g, Press(st, HomeButton(st.mode)), x, y)
    case Frame(_, _, _) => under
  }

  /** The state after the first `n` inputs. */
  function Ran(g: Setting, st: State, inputs: seq<Input>, n: nat): (r: State)
    requires StateOk(g, st) && n <= |inputs| && Fitted(inputs, |st.con|)
    ensures StateOk(g, r) && |r.con| == |st.con|
  {
    if n == 0 then st else Handled(g, Ran(g, st, inputs, n - 1), inputs[n - 1])
  }

  function RanPixel(g: Setting, st: State, inputs: seq<Input>, n: nat, x: int, y: int, under: Color): Color
    requires StateOk(g, st) && n <= |inputs| && Fitted(inputs, |st.con|)
  {
    if n == 0 then under
    else HandledPixel(g, Ran(g, st, inputs, n - 1), inputs[n - 1], x, y, RanPixel(g, st, inputs, n - 1, x, y, under))
  }

  /** Home goes from PAINT to GRID, from there to EVENTS and back to PAINT, and changes nothing else; after it the next
      frame redraws everything. */
  lemma HomeCycles(st: State)
    ensures var a := Press(st, HomeButton(st.mode));
            var b := Press(a, HomeButton(a.mode));
            && a.full && a == st.(mode := a.mode, full := true)
            && a.mode == (if st.mode == PAINT then GRID else if st.mode == GRID then EVENTS else PAINT)
            && Press(b, HomeButton(b.mode)) == st.(full := true)
  {
  }

  /** Clearing the GRID screen forgets every hit and every finished target; a target stays where it is, so that
      afterwards its mean can be taken anew. */
  lemma ClearForgets(st: State)
    requires st.mode == GRID
    ensures var r := Press(st, 3);
            && Cleared(r) && r.full && r.mode == GRID && |r.hits| == |st.hits| && |r.targets| == |st.targets|
            && forall i :: 0 <= i < |st.targets| ==> r.targets[i].x == st.targets[i].x && r.targets[i].y == st.targets[i].y
  {
  }
}
