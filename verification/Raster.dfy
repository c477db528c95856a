/** Rectangles and the drawing primitives of touchdemo, on a buffer of pixels: each method states the new
    colour of every pixel. boot/touchdemo.c:213-359. */
module Raster {

  type Color = int

  datatype Rect = Rect(x0: int, y0: int, x1: int, y1: int)

  predicate In(r: Rect, x: int, y: int) {
    r.x0 <= x < r.x1 && r.y0 <= y < r.y1
  }

  predicate Empty(r: Rect) {
    r.x0 >= r.x1 || r.y0 >= r.y1
  }

  function Clip(r: Rect, w: nat, h: nat): Rect {
    Rect(if r.x0 < 0 then 0 else r.x0, if r.y0 < 0 then 0 else r.y0, if r.x1 > w then w else r.x1, if r.y1 > h then h else r.y1)
  }

  predicate Hit(a: Rect, b: Rect) {
    a.x0 < b.x1 && b.x0 < a.x1 && a.y0 < b.y1 && b.y0 < a.y1
  }

  function Union(a: Rect, b: Rect): Rect {
    Rect(if b.x0 < a.x0 then b.x0 else a.x0, if b.y0 < a.y0 then b.y0 else a.y0,
         if b.x1 > a.x1 then b.x1 else a.x1, if b.y1 > a.y1 then b.y1 else a.y1)
  }

  predicate Within(a: Rect, b: Rect) {
    b.x0 <= a.x0 && a.x1 <= b.x1 && b.y0 <= a.y0 && a.y1 <= b.y1
  }

  /** Clipping keeps exactly the pixels on the screen. */
  lemma ClipIsScreen(r: Rect, w: nat, h: nat, x: int, y: int)
    ensures In(Clip(r, w, h), x, y) <==> In(r, x, y) && 0 <= x < w && 0 <= y < h
  {
  }

  /** Two nonempty rectangles hit exactly when they share a pixel. */
  lemma HitIsSharedPixel(a: Rect, b: Rect)
    requires !Empty(a) && !Empty(b)
    ensures Hit(a, b) <==> exists x, y :: In(a, x, y) && In(b, x, y)
  {
    if Hit(a, b) {
      var x := if a.x0 > b.x0 then a.x0 else b.x0;
      var y := if a.y0 > b.y0 then a.y0 else b.y0;
      assert In(a, x, y) && In(b, x, y);
    }
  }

  /** The union is the least rectangle around both. */
  lemma UnionIsLeast(a: Rect, b: Rect, c: Rect)
    ensures Within(a, Union(a, b)) && Within(b, Union(a, b))
    ensures Within(a, c) && Within(b, c) ==> Within(Union(a, b), c)
  {
  }

  // ---- Primitives ---------------------------------------------------------------------------------------

  predicate Has(buf: array2<Color>, x: int, y: int) {
    0 <= x < buf.Length1 && 0 <= y < buf.Length0
  }

  method Fill(buf: array2<Color>, r: Rect, c: Color)
    modifies buf
    ensures forall y, x | Has(buf, x, y) :: buf[y, x] == if In(r, x, y) then c else old(buf[y, x])
  {
    var k := Clip(r, buf.Length1, buf.Length0);
    var y := k.y0;
    while y < k.y1
      invariant y >= k.y0
      invariant forall v, u | Has(buf, u, v) :: buf[v, u] == if In(k, u, v) && v < y then c else old(buf[v, u])
    {
      var x := k.x0;
      while x < k.x1
        invariant x >= k.x0
        invariant forall v, u | Has(buf, u, v) ::
            buf[v, u] == if In(k, u, v) && (v < y || (v == y && u < x)) then c else old(buf[v, u])
      {
        buf[y, x] := c;
        x := x + 1;
      }
      y := y + 1;
    }
  }

  method Px(buf: array2<Color>, x: int, y: int, c: Color)
    modifies buf
    ensures forall v, u | Has(buf, u, v) :: buf[v, u] == if u == x && v == y then c else old(buf[v, u])
  {
    if 0 <= x < buf.Length1 && 0 <= y < buf.Length0 {
      buf[y, x] := c;
    }
  }

  function Sq(a: int): int {
    a * a
  }

  lemma SqGrows(r: int, k: int)
    requires r >= 0 && k >= 1
    ensures Sq(r + k) > Sq(r)
  {
    assert (r + k) * (r + k) == r * r + 2 * (r * k) + k * k;
    assert r * k >= 0 && k * k >= 1;
  }

  lemma SqBound(a: int, r: int)
    requires r >= 0 && Sq(a) <= Sq(r)
    ensures -r <= a <= r
  {
    assert Sq(-a) == Sq(a);
    if a > r {
      SqGrows(r, a - r);
    } else if -a > r {
      SqGrows(r, -a - r);
    }
  }

  lemma SqSign(a: int)
    ensures Sq(a) >= 0
  {
  }

  predicate InDisk(cx: int, cy: int, r: int, x: int, y: int) {
    r >= 0 && Sq(x - cx) + Sq(y - cy) <= Sq(r)
  }

  predicate InRing(cx: int, cy: int, r: int, t: int, x: int, y: int) {
    InDisk(cx, cy, r, x, y) && (r - t >= 0 ==> Sq(x - cx) + Sq(y - cy) >= Sq(r - t))
  }

  /** The square of side 2r+1 around a centre. */
  function Square(cx: int, cy: int, r: int): Rect {
    Rect(cx - r, cy - r, cx + r + 1, cy + r + 1)
  }

  lemma DiskInSquare(cx: int, cy: int, r: int, x: int, y: int)
    requires InDisk(cx, cy, r, x, y)
    ensures In(Square(cx, cy, r), x, y)
  {
    hide Sq;
    SqSign(x - cx);
    SqSign(y - cy);
    SqBound(x - cx, r);
    SqBound(y - cy, r);
  }

  method Disk(buf: array2<Color>, cx: int, cy: int, r: int, c: Color)
    modifies buf
    ensures forall v, u | Has(buf, u, v) :: buf[v, u] == if InDisk(cx, cy, r, u, v) then c else old(buf[v, u])
  {
    hide Sq;
    forall u, v | InDisk(cx, cy, r, u, v) ensures In(Square(cx, cy, r), u, v) {
      DiskInSquare(cx, cy, r, u, v);
    }
    var y := -r;
    while y <= r
      invariant y >= -r
      invariant forall v, u | Has(buf, u, v) ::
          buf[v, u] == if InDisk(cx, cy, r, u, v) && v - cy < y then c else old(buf[v, u])
    {
      var x := -r;
      while x <= r
        invariant x >= -r
        invariant forall v, u | Has(buf, u, v) ::
            buf[v, u] == if InDisk(cx, cy, r, u, v) && (v - cy < y || (v - cy == y && u - cx < x)) then c else old(buf[v, u])
      {
        if Sq(x) + Sq(y) <= Sq(r) {
          Px(buf, cx + x, cy + y, c);
        }
        x := x + 1;
      }
      y := y + 1;
    }
  }

  method Ring(buf: array2<Color>, cx: int, cy: int, r: int, t: int, c: Color)
    modifies buf
    ensures forall v, u | Has(buf, u, v) :: buf[v, u] == if InRing(cx, cy, r, t, u, v) then c else old(buf[v, u])
  {
    hide Sq;
    forall u, v | InDisk(cx, cy, r, u, v) ensures In(Square(cx, cy, r), u, v) {
      DiskInSquare(cx, cy, r, u, v);
    }
    var ro, ri := Sq(r), Sq(r - t);
    if r - t < 0 {
      ri := 0;
    }
    var y := -r;
    while y <= r
      invariant y >= -r
      invariant forall v, u | Has(buf, u, v) ::
          buf[v, u] == if InRing(cx, cy, r, t, u, v) && v - cy < y then c else old(buf[v, u])
    {
      var x := -r;
      while x <= r
        invariant x >= -r
        invariant forall v, u | Has(buf, u, v) ::
            buf[v, u] == if InRing(cx, cy, r, t, u, v) && (v - cy < y || (v - cy == y && u - cx < x)) then c else old(buf[v, u])
      {
        var d := Sq(x) + Sq(y);
        SqSign(x);
        SqSign(y);
        if d <= ro && d >= ri {
          Px(buf, cx + x, cy + y, c);
        }
        x := x + 1;
      }
      y := y + 1;
    }
  }

  /** C's division of an int by a positive int: towards zero. */
  function TDiv(a: int, b: int): int
    requires b > 0
  {
    if a >= 0 then a / b else -(-a / b)
  }

  function Abs(a: int): nat {
    if a < 0 then -a else a
  }

  function Min(a: int, b: int): int {
    if a < b then a else b
  }

  function Max(a: int, b: int): int {
    if a > b then a else b
  }

  datatype Segment = Segment(x0: int, y0: int, x1: int, y1: int, r: int) {
    function Steps(): nat {
      if Abs(x1 - x0) > Abs(y1 - y0) then Abs(x1 - x0) else Abs(y1 - y0)
    }
    function Stride(): int {
      if r > 1 then r / 2 else 1
    }
    /** Whether the disk stamped at step `i` covers the pixel. */
    predicate Stamps(i: int, x: int, y: int)
      requires Steps() > 0
    {
      InDisk(x0 + TDiv((x1 - x0) * i, Steps()), y0 + TDiv((y1 - y0) * i, Steps()), r, x, y)
    }
    predicate Inks(x: int, y: int) {
      if Steps() == 0 then InDisk(x0, y0, r, x, y)
      else InDisk(x1, y1, r, x, y) || exists i :: 0 <= i <= Steps() && i % Stride() == 0 && Stamps(i, x, y)
    }
    /** Both ends with the disks around them. */
    function Box(): Rect {
      Rect(Min(x0, x1) - r, Min(y0, y1) - r, Max(x0, x1) + r + 1, Max(y0, y1) + r + 1)
    }
  }

  lemma FractionBound(d: int, i: int, n: int)
    requires 0 <= i <= n && n > 0
    ensures if d >= 0 then 0 <= TDiv(d * i, n) <= d else d <= TDiv(d * i, n) <= 0
  {
    if d >= 0 {
      ProductBound(d, i, n);
    } else {
      ProductBound(-d, i, n);
      assert -(d * i) == -d * i;
    }
  }

  lemma ProductBound(d: int, i: int, n: int)
    requires 0 <= i <= n && n > 0 && d >= 0
    ensures 0 <= d * i && 0 <= d * i / n <= d
  {
    assert 0 <= d * i <= d * n;
    QuotientBound(d * i, d, n);
  }

  lemma QuotientBound(p: int, d: int, n: int)
    requires 0 <= p <= d * n && n > 0
    ensures 0 <= p / n <= d
  {
    var q := p / n;
    assert p == n * q + p % n;
    if q != d {
      Multiple(q - d, n);
      assert (q - d) * n == q * n - d * n;
    }
  }

  lemma ProductSign(a: nat, b: nat)
    ensures a * b >= 0
  {
  }

  /** A multiple other than zero is at least one step away. */
  lemma Multiple(m: int, step: int)
    requires step > 0 && m != 0
    ensures if m > 0 then m * step >= step else m * step <= -step
  {
    if m > 0 {
      ProductSign(m - 1, step);
      assert (m - 1) * step == m * step - step;
    } else {
      ProductSign(-m - 1, step);
      assert (-m - 1) * step == -(m * step) - step;
    }
  }

  /** Every stamp of a trail lies between its ends. */
  lemma TrailInBox(s: Segment, x: int, y: int)
    requires s.Inks(x, y)
    ensures In(s.Box(), x, y)
  {
    hide InDisk, TDiv;
    if s.Steps() == 0 {
      DiskInSquare(s.x0, s.y0, s.r, x, y);
    } else if InDisk(s.x1, s.y1, s.r, x, y) {
      DiskInSquare(s.x1, s.y1, s.r, x, y);
    } else {
      var i :| 0 <= i <= s.Steps() && i % s.Stride() == 0 && s.Stamps(i, x, y);
      FractionBound(s.x1 - s.x0, i, s.Steps());
      FractionBound(s.y1 - s.y0, i, s.Steps());
      DiskInSquare(s.x0 + TDiv((s.x1 - s.x0) * i, s.Steps()), s.y0 + TDiv((s.y1 - s.y0) * i, s.Steps()), s.r, x, y);
    }
  }

  method ThickLine(buf: array2<Color>, s: Segment, c: Color)
    modifies buf
    ensures forall v, u | Has(buf, u, v) :: buf[v, u] == if s.Inks(u, v) then c else old(buf[v, u])
  {
    hide InDisk, TDiv;
    var dx, dy, steps, step := s.x1 - s.x0, s.y1 - s.y0, s.Steps(), s.Stride();
    if steps == 0 {
      Disk(buf, s.x0, s.y0, s.r, c);
      return;
    }
    var i := 0;
    while i <= steps
      invariant i >= 0 && i % step == 0
      invariant forall v, u | Has(buf, u, v) ::
          buf[v, u] == if exists k :: 0 <= k < i && k <= steps && k % step == 0 && s.Stamps(k, u, v) then c else old(buf[v, u])
    {
      label Before:
      Disk(buf, s.x0 + TDiv(dx * i, steps), s.y0 + TDiv(dy * i, steps), s.r, c);
      NextMultiple(i, step);
      forall v, u | Has(buf, u, v)
        ensures buf[v, u] == if exists k :: 0 <= k < i + step && k <= steps && k % step == 0 && s.Stamps(k, u, v)
                             then c else old(buf[v, u])
      {
        if s.Stamps(i, u, v) {
          assert 0 <= i < i + step && i <= steps && i % step == 0 && s.Stamps(i, u, v);
        }
      }
      i := i + step;
    }
    Disk(buf, s.x1, s.y1, s.r, c);
  }

  lemma NextMultiple(i: int, step: int)
    requires step > 0 && i >= 0 && i % step == 0
    ensures (i + step) % step == 0
    ensures forall k :: i <= k < i + step && k % step == 0 ==> k == i
  {
    var p := i / step;
    forall k | i <= k < i + step && k % step == 0 ensures k == i {
      var q := k / step;
      assert k == step * q && i == step * p;
      assert (q - p) * step == k - i;
      if q != p {
        Multiple(q - p, step);
      }
    }
    var q := (i + step) / step;
    assert i + step == step * q + (i + step) % step && i == step * p;
    assert (p + 1 - q) * step == (i + step) % step;
    if q != p + 1 {
      Multiple(p + 1 - q, step);
    }
  }

  method HLine(buf: array2<Color>, x0: int, x1: int, y: int, t: nat, c: Color)
    modifies buf
    ensures forall v, u | Has(buf, u, v) ::
              buf[v, u] == if In(Rect(x0, y - t / 2, x1, y - t / 2 + t), u, v) then c else old(buf[v, u])
  {
    Fill(buf, Rect(x0, y - t / 2, x1, y - t / 2 + t), c);
  }

  method VLine(buf: array2<Color>, x: int, y0: int, y1: int, t: nat, c: Color)
    modifies buf
    ensures forall v, u | Has(buf, u, v) ::
              buf[v, u] == if In(Rect(x - t / 2, y0, x - t / 2 + t, y1), u, v) then c else old(buf[v, u])
  {
    Fill(buf, Rect(x - t / 2, y0, x - t / 2 + t, y1), c);
  }

  /** The four bars of a frame of thickness `t`. */
  predicate InFrame(r: Rect, t: int, x: int, y: int) {
    || In(Rect(r.x0, r.y0, r.x1, r.y0 + t), x, y) || In(Rect(r.x0, r.y1 - t, r.x1, r.y1), x, y)
    || In(Rect(r.x0, r.y0, r.x0 + t, r.y1), x, y) || In(Rect(r.x1 - t, r.y0, r.x1, r.y1), x, y)
  }

  method FrameRect(buf: array2<Color>, r: Rect, t: int, c: Color)
    modifies buf
    ensures forall v, u | Has(buf, u, v) :: buf[v, u] == if InFrame(r, t, u, v) then c else old(buf[v, u])
  {
    Fill(buf, Rect(r.x0, r.y0, r.x1, r.y0 + t), c);
    Fill(buf, Rect(r.x0, r.y1 - t, r.x1, r.y1), c);
    Fill(buf, Rect(r.x0, r.y0, r.x0 + t, r.y1), c);
    Fill(buf, Rect(r.x1 - t, r.y0, r.x1, r.y1), c);
  }
}
