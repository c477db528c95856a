/** The dirty list of touchdemo: at most 32 clipped rectangles, merged when they touch and collapsed when the
    list is full. boot/touchdemo.c:55, 157-158, 247-270. */
module Dirty {
  import opened Raster

  const MAX_DIRTY := 32

  /** A list `mark` may leave behind. */
  predicate DirtyOk(d: seq<Rect>, w: nat, h: nat) {
    |d| <= MAX_DIRTY && forall i :: 0 <= i < |d| ==> !Empty(d[i]) && Within(d[i], Rect(0, 0, w, h))
  }

  predicate Covered(d: seq<Rect>, x: int, y: int) {
    exists i :: 0 <= i < |d| && In(d[i], x, y)
  }

  /** Whether the next frame redraws the pixel. */
  predicate Marked(full: bool, d: seq<Rect>, x: int, y: int) {
    full || Covered(d, x, y)
  }

  function FirstHit(d: seq<Rect>, r: Rect): (i: nat)
    ensures i <= |d| && (i < |d| ==> Hit(d[i], r)) && forall j :: 0 <= j < i ==> !Hit(d[j], r)
  {
    if d == [] || Hit(d[0], r) then 0 else 1 + FirstHit(d[1..], r)
  }

  function UnionAll(d: seq<Rect>): Rect
    requires d != []
  {
    if |d| == 1 then d[0] else Union(UnionAll(d[..|d| - 1]), d[|d| - 1])
  }

  /** The list after `mark(r)`. */
  function MarkList(full: bool, d: seq<Rect>, r: Rect, w: nat, h: nat): seq<Rect> {
    var k := Clip(r, w, h);
    if Empty(k) || full then d
    else
      var i := FirstHit(d, k);
      if i < |d| then d[i := Union(d[i], k)]
      else if |d| == MAX_DIRTY then [Union(UnionAll(d), k)]
      else d + [k]
  }

  lemma {:induction false} UnionAllCovers(d: seq<Rect>, c: Rect)
    requires d != []
    ensures forall i :: 0 <= i < |d| ==> Within(d[i], UnionAll(d))
    ensures (forall i :: 0 <= i < |d| ==> Within(d[i], c)) ==> Within(UnionAll(d), c)
  {
    if |d| > 1 {
      UnionAllCovers(d[..|d| - 1], c);
    }
  }

  lemma {:induction false} UnionAllOk(d: seq<Rect>, w: nat, h: nat)
    requires d != [] && forall i :: 0 <= i < |d| ==> !Empty(d[i]) && Within(d[i], Rect(0, 0, w, h))
    ensures !Empty(UnionAll(d)) && Within(UnionAll(d), Rect(0, 0, w, h))
  {
    if |d| > 1 {
      UnionAllOk(d[..|d| - 1], w, h);
    }
  }

  /** Marking keeps the list within its bounds, forgets no pixel already marked and marks every on-screen
      pixel of the new rectangle, through a merge and through the collapse of a full list alike. */
  lemma MarkCovers(full: bool, d: seq<Rect>, r: Rect, w: nat, h: nat)
    requires DirtyOk(d, w, h)
    ensures DirtyOk(MarkList(full, d, r, w, h), w, h)
    ensures forall x, y :: Marked(full, d, x, y) ==> Marked(full, MarkList(full, d, r, w, h), x, y)
    ensures forall x, y | In(r, x, y) && 0 <= x < w && 0 <= y < h :: Marked(full, MarkList(full, d, r, w, h), x, y)
  {
    hide UnionAll;
    var k := Clip(r, w, h);
    var e := MarkList(full, d, r, w, h);
    if !full && !Empty(k) {
      var i := FirstHit(d, k);
      if i < |d| {
        forall x, y | Covered(d, x, y) ensures Covered(e, x, y) {
          var j :| 0 <= j < |d| && In(d[j], x, y);
          assert In(e[j], x, y);
        }
        forall x, y | In(k, x, y) ensures Covered(e, x, y) {
          assert In(e[i], x, y);
        }
      } else if |d| == MAX_DIRTY {
        UnionAllCovers(d, Rect(0, 0, w, h));
        UnionAllOk(d, w, h);
        forall x, y | Covered(d, x, y) || In(k, x, y) ensures Covered(e, x, y) {
          if Covered(d, x, y) {
            var j :| 0 <= j < |d| && In(d[j], x, y);
          }
          assert In(e[0], x, y);
        }
      } else {
        forall x, y | Covered(d, x, y) ensures Covered(e, x, y) {
          var j :| 0 <= j < |d| && In(d[j], x, y);
          assert e[j] == d[j];
        }
        forall x, y | In(k, x, y) ensures Covered(e, x, y) {
          assert e[|d|] == k;
        }
      }
    }
    forall x, y | In(r, x, y) && 0 <= x < w && 0 <= y < h ensures Marked(full, e, x, y) {
      ClipIsScreen(r, w, h, x, y);
    }
  }

  /** Marking never spills: any rectangle around the old list and the new rectangle is around the new list. */
  lemma MarkIsTight(full: bool, d: seq<Rect>, r: Rect, w: nat, h: nat, c: Rect)
    requires forall i :: 0 <= i < |d| ==> Within(d[i], c)
    requires Within(Clip(r, w, h), c)
    ensures forall i :: 0 <= i < |MarkList(full, d, r, w, h)| ==> Within(MarkList(full, d, r, w, h)[i], c)
  {
    hide UnionAll;
    if d != [] {
      UnionAllCovers(d, c);
    }
  }

  /** A rectangle that touches nothing in a list with room left is added alone. */
  lemma MarkApart(d: seq<Rect>, r: Rect, w: nat, h: nat)
    requires DirtyOk(d, w, h) && |d| < MAX_DIRTY && !Empty(Clip(r, w, h))
    requires forall x, y :: In(Clip(r, w, h), x, y) ==> !Covered(d, x, y)
    ensures MarkList(false, d, r, w, h) == d + [Clip(r, w, h)]
  {
    var k := Clip(r, w, h);
    forall j | 0 <= j < |d| ensures !Hit(d[j], k) {
      HitIsSharedPixel(d[j], k);
      assert forall x, y :: In(d[j], x, y) ==> Covered(d, x, y);
    }
  }
}
