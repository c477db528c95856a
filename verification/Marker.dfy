/** The marker touchdemo draws for a live contact, the rectangle it erases it with, and when the first stays
    inside the second. boot/touchdemo.c:331-406, 944-958, 1130-1156. */
module Marker {
  import opened Common
  import opened CheckpointText
  import opened Raster

  type Positive = x: int | x >= 1 witness 1

  /** The console font at the scale in use: cell size and the set pixels of each glyph. Without glyph data
      the cell counts as 8x16 and no text is drawn. */
  datatype Font = Font(cw: Positive, lh: Positive, loaded: bool, bit: (char, int, int) -> bool)

  /** Cosine and sine of an angle. */
  datatype Turn = Turn(cos: real, sin: real)

  function Mul(x: real, y: real): real {
    x * y
  }

  function RSq(x: real): real {
    x * x
  }

  predicate Unit(t: Turn) {
    RSq(t.cos) + RSq(t.sin) == 1.0
  }

  /** The point (x, y) turned by `t`. */
  function TurnX(x: real, y: real, t: Turn): real {
    x * t.cos - y * t.sin
  }

  function TurnY(x: real, y: real, t: Turn): real {
    x * t.sin + y * t.cos
  }

  /** A ring, or an outline stamped at `points` of an ellipse with semi-axes r and r*minor/major. */
  datatype Shape = Circle | Ellipse(minor: Positive, major: Positive, tilt: Turn, points: seq<Turn>)

  /** What `draw_marker` draws: the position, the radius of `marker_radius`, the tracking ID, its colour. */
  datatype Look = Look(sx: int, sy: int, r: int, id: nat, color: Color, shape: Shape)

  predicate WellFormed(k: Look) {
    && 12 <= k.r <= 220
    && (k.shape.Ellipse? ==> Unit(k.shape.tilt) && forall i :: 0 <= i < |k.shape.points| ==> Unit(k.shape.points[i]))
  }

  /** `marker_radius`: half the contact's diameter, between 12 and 220. */
  function MarkerRadius(diameter: real): (r: int)
    ensures 12 <= r <= 220
  {
    var d := diameter / 2.0;
    if d < 12.0 then 12 else if d > 220.0 then 220 else d.Floor
  }

  function MarkerRect(f: Font, k: Look): Rect {
    var r := k.r + 24;
    Rect(k.sx - r - 40, k.sy - r - 40, k.sx + r + 40 + 8 * f.cw, k.sy + r + 40 + f.lh)
  }

  // ---- The ellipse ----------------------------------------------------------------------------------------

  /** Nearest integer, halves away from zero. */
  function LRound(x: real): int {
    if x >= 0.0 then (x + 0.5).Floor else -((-x + 0.5).Floor)
  }

  function MinorAxis(k: Look): real
    requires k.shape.Ellipse?
  {
    var b := k.r as real * k.shape.minor as real / k.shape.major as real;
    if b < 6.0 then 6.0 else b
  }

  function PointX(k: Look, i: nat): real
    requires k.shape.Ellipse? && i < |k.shape.points|
  {
    TurnX(Mul(k.r as real, k.shape.points[i].cos), Mul(MinorAxis(k), k.shape.points[i].sin), k.shape.tilt)
  }

  function PointY(k: Look, i: nat): real
    requires k.shape.Ellipse? && i < |k.shape.points|
  {
    TurnY(Mul(k.r as real, k.shape.points[i].cos), Mul(MinorAxis(k), k.shape.points[i].sin), k.shape.tilt)
  }

  function StampX(k: Look, i: nat): int
    requires k.shape.Ellipse? && i < |k.shape.points|
  {
    LRound(PointX(k, i))
  }

  function StampY(k: Look, i: nat): int
    requires k.shape.Ellipse? && i < |k.shape.points|
  {
    LRound(PointY(k, i))
  }

  lemma SquareSign(x: real)
    ensures RSq(x) >= 0.0
  {
  }

  lemma LargerSquare(x: real, m: real)
    requires x > m >= 0.0
    ensures RSq(x) > RSq(m)
  {
    var d := x - m;
    assert x * x == m * m + 2.0 * (m * d) + d * d;
    assert d * d > 0.0 && m * d >= 0.0;
  }

  lemma SquareOrder(x: real, m: real)
    requires m >= 0.0 && RSq(x) <= RSq(m)
    ensures -m <= x <= m
  {
    assert RSq(-x) == RSq(x);
    hide RSq;
    if x > m {
      LargerSquare(x, m);
    } else if -x > m {
      LargerSquare(-x, m);
    }
  }

  /** A turn keeps the length. */
  lemma TurnKeepsLength(a: real, b: real, t: Turn)
    requires Unit(t)
    ensures RSq(TurnX(a, b, t)) + RSq(TurnY(a, b, t)) == RSq(a) + RSq(b)
  {
    var p, q := t.cos, t.sin;
    calc {
      RSq(a * p - b * q) + RSq(a * q + b * p);
      (a * a) * (p * p) + (b * b) * (q * q) + (a * a) * (q * q) + (b * b) * (p * p);
      (a * a + b * b) * (p * p + q * q);
      a * a + b * b;
    }
  }

  lemma TurnBound(a: real, b: real, t: Turn, m: real)
    requires Unit(t) && m >= 0.0 && RSq(a) + RSq(b) <= RSq(m)
    ensures -m <= TurnX(a, b, t) <= m && -m <= TurnY(a, b, t) <= m
  {
    hide RSq, TurnX, TurnY, Unit;
    TurnKeepsLength(a, b, t);
    SquareSign(TurnX(a, b, t));
    SquareSign(TurnY(a, b, t));
    SquareOrder(TurnX(a, b, t), m);
    SquareOrder(TurnY(a, b, t), m);
  }

  lemma ScaledSquare(a: real, c: real, m: real)
    requires 0.0 <= a <= m
    ensures RSq(Mul(a, c)) <= Mul(RSq(m), RSq(c))
  {
    var k := c * c;
    SquareSign(c);
    assert a * a <= m * m by {
      assert a * a <= a * m <= m * m;
    }
    assert (a * c) * (a * c) == (a * a) * k;
    assert (a * a) * k <= (m * m) * k;
  }

  lemma Weighted(m2: real, c2: real, s2: real)
    requires c2 + s2 == 1.0
    ensures Mul(m2, c2) + Mul(m2, s2) == m2
  {
    assert m2 * c2 + m2 * s2 == m2 * (c2 + s2);
  }

  /** Every point of an ellipse with semi-axes at most m lies within m of the centre. */
  lemma EllipseBound(a: real, b: real, m: real, t: Turn)
    requires 0.0 <= a <= m && 0.0 <= b <= m && Unit(t)
    ensures RSq(Mul(a, t.cos)) + RSq(Mul(b, t.sin)) <= RSq(m)
  {
    hide RSq, Mul;
    ScaledSquare(a, t.cos, m);
    ScaledSquare(b, t.sin, m);
    Weighted(RSq(m), RSq(t.cos), RSq(t.sin));
  }

  lemma RoundBound(x: real, m: real)
    requires -m <= x <= m
    ensures -LRound(m) <= LRound(x) <= LRound(m)
  {
  }

  lemma RoundInt(n: int)
    ensures LRound(n as real) == n
  {
  }

  lemma Positives(a: real, b: real)
    requires a > 0.0 && b > 0.0
    ensures a * b > 0.0
  {
  }

  lemma RealQuotient(r: real, p: real, d: real)
    requires r >= 0.0 && 0.0 <= p <= d && d > 0.0
    ensures r * p / d <= r
  {
    var q := r * p / d;
    assert q * d == r * p;
    assert r * p <= r * d by {
      assert r * (d - p) >= 0.0;
      assert r * (d - p) == r * d - r * p;
    }
    assert (q - r) * d == q * d - r * d;
    if q > r {
      Positives(q - r, d);
    }
  }

  lemma MinorAtMostMajor(k: Look)
    requires WellFormed(k) && k.shape.Ellipse? && k.shape.minor <= k.shape.major
    ensures MinorAxis(k) <= k.r as real
  {
    RealQuotient(k.r as real, k.shape.minor as real, k.shape.major as real);
  }

  /** The points lie within the larger semi-axis, whatever the tilt. */
  lemma PointBound(k: Look, i: nat, m: real)
    requires WellFormed(k) && k.shape.Ellipse? && i < |k.shape.points|
    requires k.r as real <= m && MinorAxis(k) <= m
    ensures -m <= PointX(k, i) <= m && -m <= PointY(k, i) <= m
  {
    hide RSq, TurnX, TurnY, Unit, Mul;
    var t := k.shape.points[i];
    EllipseBound(k.r as real, MinorAxis(k), m, t);
    TurnBound(Mul(k.r as real, t.cos), Mul(MinorAxis(k), t.sin), k.shape.tilt, m);
  }

  /** So do the stamps, rounded. */
  lemma StampBound(k: Look, i: nat)
    requires WellFormed(k) && k.shape.Ellipse? && i < |k.shape.points|
    ensures var m := if MinorAxis(k) <= k.r as real then k.r else LRound(MinorAxis(k));
            -m <= StampX(k, i) <= m && -m <= StampY(k, i) <= m
  {
    hide Unit, LRound, PointX, PointY, MinorAxis;
    var b := MinorAxis(k);
    var m := if b <= k.r as real then k.r as real else b;
    PointBound(k, i, m);
    RoundBound(PointX(k, i), m);
    RoundBound(PointY(k, i), m);
    RoundInt(k.r);
  }

  // ---- The pixels of a marker -------------------------------------------------------------------------------

  function IdText(id: nat): string {
    "ID " + Dec(id)
  }

  predicate InText(f: Font, x: int, y: int, s: string, u: int, v: int) {
    && f.loaded && 0 <= u - x < |s| * f.cw && 0 <= v - y < f.lh
    && (u - x) / f.cw < |s| && f.bit(s[(u - x) / f.cw], (u - x) % f.cw, v - y)
  }

  predicate InShape(k: Look, u: int, v: int) {
    match k.shape
    case Circle => InRing(k.sx, k.sy, k.r, 5, u, v)
    case Ellipse(_, _, _, points) =>
      exists i :: 0 <= i < |points| && Stamped(k, i, u, v)
  }

  predicate Stamped(k: Look, i: nat, u: int, v: int)
    requires k.shape.Ellipse? && i < |k.shape.points|
  {
    InDisk(k.sx + StampX(k, i), k.sy + StampY(k, i), 2, u, v)
  }

  function HBar(k: Look): Rect {
    Rect(k.sx - k.r - 30, k.sy - 1, k.sx + k.r + 31, k.sy + 1)
  }

  function VBar(k: Look): Rect {
    Rect(k.sx - 1, k.sy - k.r - 30, k.sx + 1, k.sy + k.r + 31)
  }

  function Label(f: Font, k: Look): Rect {
    Rect(k.sx + k.r + 12, k.sy - k.r - 12 - f.lh, k.sx + k.r + 20 + 8 * f.cw, k.sy - k.r - 8)
  }

  function TextBox(f: Font, k: Look): Rect {
    Rect(k.sx + k.r + 16, k.sy - k.r - 10 - f.lh, k.sx + k.r + 16 + |IdText(k.id)| * f.cw, k.sy - k.r - 10)
  }

  /** The colour a marker leaves at a pixel, where it draws at all: the text over its black label over the
      cross over the outline. */
  function MarkerColor(f: Font, k: Look, u: int, v: int): Option<Color> {
    if InText(f, k.sx + k.r + 16, k.sy - k.r - 10 - f.lh, IdText(k.id), u, v) then Some(k.color)
    else if In(Label(f, k), u, v) then Some(0)
    else if In(VBar(k), u, v) || In(HBar(k), u, v) || InShape(k, u, v) then Some(k.color)
    else None
  }

  function Over(top: Option<Color>, under: Color): Color {
    if top.Some? then top.value else under
  }

  // ---- Drawing it -------------------------------------------------------------------------------------------

  lemma GlyphPixel(i: nat, gx: nat, cw: Positive, n: int)
    requires gx < cw && n == i * cw + gx
    ensures n / cw == i && n % cw == gx
  {
    var q := n / cw;
    assert n == cw * q + n % cw;
    assert (q - i) * cw == gx - n % cw;
    if q != i {
      Multiple(q - i, cw);
    }
  }

  /** Glyph `i` of the text covers the pixel. */
  predicate InGlyph(f: Font, x: int, y: int, c: char, u: int, v: int) {
    0 <= u - x < f.cw && 0 <= v - y < f.lh && f.bit(c, u - x, v - y)
  }

  method DrawGlyph(buf: array2<Color>, f: Font, x: int, y: int, c: char, color: Color)
    modifies buf
    ensures forall v, u | Has(buf, u, v) :: buf[v, u] == if InGlyph(f, x, y, c, u, v) then color else old(buf[v, u])
  {
    var gy := 0;
    while gy < f.lh
      invariant gy >= 0
      invariant forall v, u | Has(buf, u, v) ::
          buf[v, u] == if InGlyph(f, x, y, c, u, v) && v - y < gy then color else old(buf[v, u])
    {
      var gx := 0;
      while gx < f.cw
        invariant gx >= 0
        invariant forall v, u | Has(buf, u, v) ::
            buf[v, u] == if InGlyph(f, x, y, c, u, v) && (v - y < gy || (v - y == gy && u - x < gx)) then color
                         else old(buf[v, u])
      {
        if f.bit(c, gx, gy) {
          Px(buf, x + gx, y + gy, color);
        }
        gx := gx + 1;
      }
      gy := gy + 1;
    }
  }

  /** A pixel of the first `i + 1` glyphs is one of the first `i` or one of glyph `i`. */
  lemma NextGlyph(f: Font, x: int, y: int, s: string, i: nat, u: int, v: int)
    requires f.loaded && i < |s|
    ensures InText(f, x, y, s[..i + 1], u, v) <==>
            InText(f, x, y, s[..i], u, v) || InGlyph(f, x + i * f.cw, y, s[i], u, v)
    ensures InGlyph(f, x + i * f.cw, y, s[i], u, v) ==> !InText(f, x, y, s[..i], u, v)
  {
    var n := u - x;
    var cw := f.cw;
    assert (i + 1) * cw == i * cw + cw;
    if i * cw <= n < i * cw + cw {
      GlyphPixel(i, n - i * cw, cw, n);
    } else if 0 <= n < i * cw {
      GlyphBelow(n, i, cw);
      assert s[..i][n / cw] == s[..i + 1][n / cw];
    }
  }

  lemma GlyphBelow(n: nat, i: nat, cw: Positive)
    requires n < i * cw
    ensures n / cw < i
  {
    var q := n / cw;
    assert n == cw * q + n % cw;
    assert (q - i) * cw == q * cw - i * cw;
    if q != i {
      Multiple(q - i, cw);
    }
  }

  method DrawText(buf: array2<Color>, f: Font, x: int, y: int, s: string, color: Color)
    modifies buf
    ensures forall v, u | Has(buf, u, v) :: buf[v, u] == if InText(f, x, y, s, u, v) then color else old(buf[v, u])
  {
    hide InText, InGlyph;
    if !f.loaded {
      NoText(f, x, y, s);
      return;
    }
    EmptyText(f, x, y, s);
    var i, at := 0, x;
    while i < |s|
      invariant 0 <= i <= |s| && at == x + i * f.cw
      invariant forall v, u | Has(buf, u, v) :: buf[v, u] == if InText(f, x, y, s[..i], u, v) then color else old(buf[v, u])
    {
      forall u, v ensures InText(f, x, y, s[..i + 1], u, v) <==> InText(f, x, y, s[..i], u, v) || InGlyph(f, at, y, s[i], u, v) {
        NextGlyph(f, x, y, s, i, u, v);
      }
      DrawGlyph(buf, f, at, y, s[i], color);
      at := at + f.cw;
      i := i + 1;
    }
    assert s[..|s|] == s;
  }

  lemma NoText(f: Font, x: int, y: int, s: string)
    requires !f.loaded
    ensures forall u, v :: !InText(f, x, y, s, u, v)
  {
  }

  lemma EmptyText(f: Font, x: int, y: int, s: string)
    ensures forall u, v :: !InText(f, x, y, s[..0], u, v)
  {
  }

  method DrawEllipse(buf: array2<Color>, k: Look)
    requires k.shape.Ellipse?
    modifies buf
    ensures forall v, u | Has(buf, u, v) :: buf[v, u] == if InShape(k, u, v) then k.color else old(buf[v, u])
  {
    hide StampX, StampY, InDisk;
    var i := 0;
    while i < |k.shape.points|
      invariant 0 <= i <= |k.shape.points|
      invariant forall v, u | Has(buf, u, v) ::
          buf[v, u] == if exists j :: 0 <= j < i && Stamped(k, j, u, v) then k.color else old(buf[v, u])
    {
      Disk(buf, k.sx + StampX(k, i), k.sy + StampY(k, i), 2, k.color);
      forall v, u | Has(buf, u, v)
        ensures buf[v, u] == if exists j :: 0 <= j < i + 1 && Stamped(k, j, u, v) then k.color else old(buf[v, u])
      {
        if Stamped(k, i, u, v) {
          assert 0 <= i < i + 1 && Stamped(k, i, u, v);
        }
      }
      i := i + 1;
    }
  }

  method DrawMarker(back: array2<Color>, f: Font, k: Look)
    modifies back
    ensures forall v, u | Has(back, u, v) :: back[v, u] == Over(MarkerColor(f, k, u, v), old(back[v, u]))
  {
    hide InText, InShape, IdText, StampX, StampY;
    if k.shape.Ellipse? {
      DrawEllipse(back, k);
    } else {
      Ring(back, k.sx, k.sy, k.r, 5, k.color);
      CircleShape(k);
    }
    HLine(back, k.sx - k.r - 30, k.sx + k.r + 31, k.sy, 2, k.color);
    VLine(back, k.sx, k.sy - k.r - 30, k.sy + k.r + 31, 2, k.color);
    Fill(back, Label(f, k), 0);
    DrawText(back, f, k.sx + k.r + 16, k.sy - k.r - 10 - f.lh, IdText(k.id), k.color);
  }

  lemma CircleShape(k: Look)
    requires k.shape.Circle?
    ensures forall u, v :: InShape(k, u, v) <==> InRing(k.sx, k.sy, k.r, 5, u, v)
  {
  }

  // ---- Confinement ------------------------------------------------------------------------------------------

  /** What a caller can check about a contact: the font is at most 52 pixels tall, the ID is not too long for
      the width set aside for five digits, and every stamp of the outline is near enough. */
  predicate Fits(f: Font, k: Look) {
    && f.lh <= 52
    && (f.loaded ==> (|IdText(k.id)| - 8) * f.cw <= 48)
    && (k.shape.Ellipse? ==> forall i :: 0 <= i < |k.shape.points| ==> StampFits(f, k, i))
  }

  predicate StampFits(f: Font, k: Look, i: nat)
    requires k.shape.Ellipse? && i < |k.shape.points|
  {
    && -k.r - 62 <= StampX(k, i) <= k.r + 61 + 8 * f.cw
    && -k.r - 62 <= StampY(k, i) <= k.r + 61 + f.lh
  }

  lemma TextInBox(f: Font, k: Look, u: int, v: int)
    requires InText(f, k.sx + k.r + 16, k.sy - k.r - 10 - f.lh, IdText(k.id), u, v)
    ensures In(TextBox(f, k), u, v)
  {
    hide IdText;
  }

  lemma ShapeInRect(f: Font, k: Look, u: int, v: int)
    requires Fits(f, k) && k.r >= 0 && InShape(k, u, v)
    ensures In(MarkerRect(f, k), u, v)
  {
    hide InDisk, StampX, StampY, IdText;
    match k.shape
    case Circle =>
      DiskInSquare(k.sx, k.sy, k.r, u, v);
    case Ellipse(_, _, _, points) =>
      var i :| 0 <= i < |points| && Stamped(k, i, u, v);
      assert StampFits(f, k, i);
      DiskInSquare(k.sx + StampX(k, i), k.sy + StampY(k, i), 2, u, v);
  }

  lemma BarsInRect(f: Font, k: Look, u: int, v: int)
    requires k.r >= 0 && (In(VBar(k), u, v) || In(HBar(k), u, v))
    ensures In(MarkerRect(f, k), u, v)
  {
  }

  lemma LabelInRect(f: Font, k: Look)
    requires k.r >= 0
    ensures f.lh <= 52 ==> Within(Label(f, k), MarkerRect(f, k))
    ensures f.lh <= 52 && (|IdText(k.id)| - 8) * f.cw <= 48 ==> Within(TextBox(f, k), MarkerRect(f, k))
  {
    hide IdText;
    assert |IdText(k.id)| * f.cw == (|IdText(k.id)| - 8) * f.cw + 8 * f.cw;
  }

  /** Every pixel a fitting marker draws lies in the rectangle it is erased with. */
  lemma MarkerConfined(f: Font, k: Look, u: int, v: int)
    requires WellFormed(k) && Fits(f, k) && MarkerColor(f, k, u, v).Some?
    ensures In(MarkerRect(f, k), u, v)
  {
    hide InText, InShape, IdText, StampFits;
    LabelInRect(f, k);
    if InText(f, k.sx + k.r + 16, k.sy - k.r - 10 - f.lh, IdText(k.id), u, v) {
      TextInBox(f, k, u, v);
      assert f.loaded by { TextLoaded(f, k, u, v); }
    } else if In(VBar(k), u, v) || In(HBar(k), u, v) {
      BarsInRect(f, k, u, v);
    } else if InShape(k, u, v) {
      ShapeInRect(f, k, u, v);
    }
  }

  lemma TextLoaded(f: Font, k: Look, u: int, v: int)
    requires InText(f, k.sx + k.r + 16, k.sy - k.r - 10 - f.lh, IdText(k.id), u, v)
    ensures f.loaded
  {
  }

  lemma DecDigits(n: nat)
    requires n < 100000
    ensures |Dec(n)| <= 5
  {
    var a, b, c, d := n / 10, n / 10 / 10, n / 10 / 10 / 10, n / 10 / 10 / 10 / 10;
    assert d < 10 && |Dec(d)| == 1;
    assert |Dec(c)| <= 2;
    assert |Dec(b)| <= 3;
    assert |Dec(a)| <= 4;
  }

  /** A contact no wider than long, with an ID of at most five digits and a font of at most 52 rows, fits. */
  lemma OrdinaryContactFits(f: Font, k: Look)
    requires WellFormed(k) && f.lh <= 52 && k.id < 100000
    requires k.shape.Ellipse? ==> k.shape.minor <= k.shape.major
    ensures Fits(f, k)
  {
    hide Unit, Dec, LRound;
    DecDigits(k.id);
    assert (|IdText(k.id)| - 8) * f.cw <= 0 by {
      ProductSign(8 - |IdText(k.id)|, f.cw);
      assert (|IdText(k.id)| - 8) * f.cw == -((8 - |IdText(k.id)|) * f.cw);
    }
    if k.shape.Ellipse? {
      forall i | 0 <= i < |k.shape.points| ensures StampFits(f, k, i) {
        MinorAtMostMajor(k);
        StampBound(k, i);
      }
    }
  }

  // ---- Exactly when it is confined --------------------------------------------------------------------------

  /** The label leaves the rectangle exactly when the font is taller than 52 rows. */
  lemma LabelFitsIff(f: Font, k: Look)
    requires k.r >= 0
    ensures f.lh <= 52 <==>
            forall u, v | In(Label(f, k), u, v) :: In(MarkerRect(f, k), u, v)
  {
    if f.lh > 52 {
      assert In(Label(f, k), k.sx + k.r + 12, k.sy - k.r - 12 - f.lh);
      assert !In(MarkerRect(f, k), k.sx + k.r + 12, k.sy - k.r - 12 - f.lh);
    }
  }

  /** A stamp too far out puts one of its four outermost pixels outside. */
  lemma StampSpills(f: Font, k: Look, i: nat) returns (u: int, v: int)
    requires k.shape.Ellipse? && i < |k.shape.points| && !StampFits(f, k, i)
    ensures InShape(k, u, v) && !In(MarkerRect(f, k), u, v)
  {
    hide StampX, StampY;
    var x, y := k.sx + StampX(k, i), k.sy + StampY(k, i);
    assert InDisk(x, y, 2, x - 2, y) && InDisk(x, y, 2, x + 2, y) && InDisk(x, y, 2, x, y - 2) && InDisk(x, y, 2, x, y + 2);
    u := if StampX(k, i) < -k.r - 62 then x - 2 else if StampX(k, i) > k.r + 61 + 8 * f.cw then x + 2 else x;
    v := if u != x then y else if StampY(k, i) < -k.r - 62 then y - 2 else y + 2;
    hide InDisk;
    assert Stamped(k, i, u, v);
  }

  /** The code does not check that minor is at most major. Whatever the tilt, the axes and the stamps, the outline
      stays inside exactly when every stamp is near enough. */
  lemma EllipseFitsIff(f: Font, k: Look)
    requires k.shape.Ellipse?
    ensures (forall i :: 0 <= i < |k.shape.points| ==> StampFits(f, k, i)) <==>
            forall u, v | InShape(k, u, v) :: In(MarkerRect(f, k), u, v)
  {
    hide StampFits, InShape;
    if i :| 0 <= i < |k.shape.points| && !StampFits(f, k, i) {
      var u, v := StampSpills(f, k, i);
    } else {
      forall u, v | InShape(k, u, v) ensures In(MarkerRect(f, k), u, v) {
        StampsInRect(f, k, u, v);
      }
    }
  }

  lemma StampsInRect(f: Font, k: Look, u: int, v: int)
    requires k.shape.Ellipse? && (forall i :: 0 <= i < |k.shape.points| ==> StampFits(f, k, i)) && InShape(k, u, v)
    ensures In(MarkerRect(f, k), u, v)
  {
    hide InDisk, StampX, StampY;
    var i :| 0 <= i < |k.shape.points| && Stamped(k, i, u, v);
    assert StampFits(f, k, i);
    DiskInSquare(k.sx + StampX(k, i), k.sy + StampY(k, i), 2, u, v);
  }

  /** An outline whose rounded minor semi-axis is at most the radius plus 61 fits, whatever its tilt. */
  lemma SmallEnoughFits(f: Font, k: Look)
    requires WellFormed(k) && k.shape.Ellipse? && LRound(MinorAxis(k)) <= k.r + 61
    ensures forall i :: 0 <= i < |k.shape.points| ==> StampFits(f, k, i)
  {
    hide LRound, Unit, StampX, StampY, MinorAxis;
    forall i | 0 <= i < |k.shape.points| ensures StampFits(f, k, i) {
      StampBound(k, i);
    }
  }

  /** A font with every pixel of every glyph set. */
  function Solid(cw: Positive, lh: Positive): Font {
    Font(cw, lh, true, (c, x, y) => true)
  }

  /** The text stays inside, whatever the glyphs look like, exactly when the font has at most 54 rows and the ID is
      not too long. */
  lemma TextFitsIff(cw: Positive, lh: Positive, k: Look)
    requires k.r >= 0
    ensures lh <= 54 && (|IdText(k.id)| - 8) * cw <= 48 <==>
            forall bit, u, v | InText(Font(cw, lh, true, bit), k.sx + k.r + 16, k.sy - k.r - 10 - lh, IdText(k.id), u, v) ::
              In(MarkerRect(Font(cw, lh, true, bit), k), u, v)
  {
    hide IdText;
    assert |IdText(k.id)| * cw == (|IdText(k.id)| - 8) * cw + 8 * cw;
    if lh <= 54 && (|IdText(k.id)| - 8) * cw <= 48 {
      forall bit, u, v | InText(Font(cw, lh, true, bit), k.sx + k.r + 16, k.sy - k.r - 10 - lh, IdText(k.id), u, v)
        ensures In(MarkerRect(Font(cw, lh, true, bit), k), u, v)
      {
        TextInBox(Font(cw, lh, true, bit), k, u, v);
      }
    } else {
      var f := Solid(cw, lh);
      var n := |IdText(k.id)|;
      IdIsLong(k.id);
      ProductSign(n - 4, cw);
      assert n * cw == (n - 4) * cw + 4 * cw;
      var u, v := k.sx + k.r + 16 + (if lh > 54 then 0 else n * cw - 1), k.sy - k.r - 10 - lh;
      if lh <= 54 {
        GlyphBelow(n * cw - 1, n, cw);
      }
      assert InText(f, k.sx + k.r + 16, k.sy - k.r - 10 - lh, IdText(k.id), u, v);
      assert !In(MarkerRect(f, k), u, v);
    }
  }

  lemma IdIsLong(id: nat)
    ensures |IdText(id)| >= 4
  {
  }

  /** All together: a marker stays inside the rectangle that erases it, whatever the glyphs look like, exactly when
      it fits. */
  lemma MarkerConfinedIff(f: Font, k: Look)
    requires WellFormed(k)
    ensures Fits(f, k) <==>
            forall bit, u, v | MarkerColor(f.(bit := bit), k, u, v).Some? :: In(MarkerRect(f, k), u, v)
  {
    hide IdText, InText, InShape, StampFits, InDisk;
    if Fits(f, k) {
      forall bit, u, v | MarkerColor(f.(bit := bit), k, u, v).Some? ensures In(MarkerRect(f, k), u, v) {
        FitsAnyGlyphs(f, k, bit);
        MarkerConfined(f.(bit := bit), k, u, v);
      }
    } else if f.lh > 52 {
      LabelFitsIff(f, k);
      var u, v :| In(Label(f, k), u, v) && !In(MarkerRect(f, k), u, v);
      assert MarkerColor(f.(bit := f.bit), k, u, v).Some?;
    } else if f.loaded && (|IdText(k.id)| - 8) * f.cw > 48 {
      TextFitsIff(f.cw, f.lh, k);
      var bit, u, v :| InText(Font(f.cw, f.lh, true, bit), k.sx + k.r + 16, k.sy - k.r - 10 - f.lh, IdText(k.id), u, v)
                       && !In(MarkerRect(Font(f.cw, f.lh, true, bit), k), u, v);
      assert f.(bit := bit) == Font(f.cw, f.lh, true, bit);
      assert MarkerColor(f.(bit := bit), k, u, v).Some?;
    } else {
      EllipseFitsIff(f, k);
      var u, v :| InShape(k, u, v) && !In(MarkerRect(f, k), u, v);
      assert MarkerColor(f.(bit := f.bit), k, u, v).Some?;
    }
  }

  lemma FitsAnyGlyphs(f: Font, k: Look, bit: (char, int, int) -> bool)
    requires Fits(f, k)
    ensures Fits(f.(bit := bit), k) && MarkerRect(f.(bit := bit), k) == MarkerRect(f, k)
  {
    hide StampX, StampY, IdText;
    if k.shape.Ellipse? {
      forall i | 0 <= i < |k.shape.points| ensures StampFits(f.(bit := bit), k, i) {
        assert StampFits(f, k, i);
      }
    }
  }

  // ---- Markers that are not erased --------------------------------------------------------------------------

  /** A contact of minor axis 102 and major axis 12 at the least radius has a minor semi-axis of 102 and 336 stamps,
      the 253rd at the top of the ellipse: it is 28 rows above the rectangle. */
  lemma WideContactSpills(f: Font, id: nat, color: Color, points: seq<Turn>)
    requires |points| == 336 && points[252] == Turn(0.0, -1.0)
    ensures var k := Look(500, 500, 12, id, color, Ellipse(102, 12, Turn(1.0, 0.0), points));
            MarkerColor(f, k, 500, 396).Some? && !In(MarkerRect(f, k), 500, 396)
  {
    hide IdText, InText;
    var k := Look(500, 500, 12, id, color, Ellipse(102, 12, Turn(1.0, 0.0), points));
    assert MinorAxis(k) == 102.0;
    assert StampX(k, 252) == 0 && StampY(k, 252) == -102;
    assert Stamped(k, 252, 500, 396);
    assert InShape(k, 500, 396);
  }

  /** A font of 53 rows: the top row of the label is one above the rectangle. */
  lemma TallFontSpills(f: Font, id: nat, color: Color)
    requires f.lh == 53
    ensures var k := Look(500, 500, 40, id, color, Circle);
            MarkerColor(f, k, 552, 395).Some? && !In(MarkerRect(f, k), 552, 395)
  {
    hide IdText, InText;
  }

  /** An ID of seven digits in a font 25 pixels wide: the text ends two columns to the right of the rectangle. */
  lemma LongIdSpills(f: Font, color: Color)
    requires f == Solid(25, 50)
    ensures var k := Look(500, 500, 40, 1000000, color, Circle);
            MarkerColor(f, k, 805, 400).Some? && !In(MarkerRect(f, k), 805, 400)
  {
    assert |Dec(1000000)| == 7 by { SevenDigits(); }
    hide Dec;
  }

  lemma SevenDigits()
    ensures |Dec(1000000)| == 7
  {
    assert Dec(1) == "1" && |Dec(10)| == 2 && |Dec(100)| == 3 && |Dec(1000)| == 4;
    assert |Dec(10000)| == 5 && |Dec(100000)| == 6;
  }
}
