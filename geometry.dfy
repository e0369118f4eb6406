/** Integer screen geometry: points, Win32-style rectangles, pixel counting over
    a rectangle, and an exact region algebra.  A region is a sequence of
    pairwise disjoint, non-empty rectangles; subtracting a rectangle from it
    splits each member into at most four pieces, which is what the window
    manager's region difference does for the occlusion computation. */
module Geometry {

  datatype Point = Point(x: int, y: int)

  /** A RECT: left and top are inclusive, right and bottom exclusive. */
  datatype Rect = Rect(left: int, top: int, right: int, bottom: int)

  function Min(a: int, b: int): int { if a <= b then a else b }
  function Max(a: int, b: int): int { if a >= b then a else b }

  predicate Inside(r: Rect, x: int, y: int) {
    r.left <= x < r.right && r.top <= y < r.bottom
  }

  predicate IsEmpty(r: Rect) {
    r.right <= r.left || r.bottom <= r.top
  }

  function Area(r: Rect): nat {
    if IsEmpty(r) then 0 else (r.right - r.left) * (r.bottom - r.top)
  }

  /** a lies inside b. */
  predicate Within(a: Rect, b: Rect) {
    b.left <= a.left && a.right <= b.right && b.top <= a.top && a.bottom <= b.bottom
  }

  /** The two rectangles share no pixel (stated on coordinates). */
  predicate Disjoint(a: Rect, b: Rect) {
    a.right <= b.left || b.right <= a.left || a.bottom <= b.top || b.bottom <= a.top
  }

  /** Two non-empty rectangles that are not disjoint share a pixel. */
  lemma SharedPixel(a: Rect, b: Rect)
    requires !IsEmpty(a) && !IsEmpty(b) && !Disjoint(a, b)
    ensures Inside(a, Max(a.left, b.left), Max(a.top, b.top))
    ensures Inside(b, Max(a.left, b.left), Max(a.top, b.top))
  {
  }

  // ---------------------------------------------------------------------
  // Pixel counting

  /** Number of pixels (x, y) of row y with x0 <= x < x1 at which p holds. */
  ghost function RowCount(p: (int, int) -> bool, y: int, x0: int, x1: int): nat
    decreases x1 - x0
  {
    if x1 <= x0 then 0 else RowCount(p, y, x0, x1 - 1) + (if p(x1 - 1, y) then 1 else 0)
  }

  /** Number of pixels of r's columns in rows r.top <= y < y1 at which p holds. */
  ghost function RowsCount(p: (int, int) -> bool, r: Rect, y1: int): nat
    decreases y1 - r.top
  {
    if y1 <= r.top then 0 else RowsCount(p, r, y1 - 1) + RowCount(p, y1 - 1, r.left, r.right)
  }

  /** Number of pixels of r at which p holds. */
  ghost function PixelCount(r: Rect, p: (int, int) -> bool): nat {
    RowsCount(p, r, r.bottom)
  }

  lemma {:induction false} RowCountBound(p: (int, int) -> bool, y: int, x0: int, x1: int)
    requires x0 <= x1
    ensures RowCount(p, y, x0, x1) <= x1 - x0
    ensures (forall x :: x0 <= x < x1 ==> p(x, y)) ==> RowCount(p, y, x0, x1) == x1 - x0
    ensures (forall x :: x0 <= x < x1 ==> !p(x, y)) ==> RowCount(p, y, x0, x1) == 0
    decreases x1 - x0
  {
    if x0 < x1 {
      RowCountBound(p, y, x0, x1 - 1);
    }
  }

  lemma {:induction false} RowCountSplit(p: (int, int) -> bool, y: int, a: int, b: int, c: int)
    requires a <= b <= c
    ensures RowCount(p, y, a, c) == RowCount(p, y, a, b) + RowCount(p, y, b, c)
    decreases c - b
  {
    if b < c {
      RowCountSplit(p, y, a, b, c - 1);
    }
  }

  /** Counting is additive over a pointwise disjoint split s = p or q. */
  lemma {:induction false} RowCountAdd(s: (int, int) -> bool, p: (int, int) -> bool, q: (int, int) -> bool,
                                       y: int, x0: int, x1: int)
    requires forall x :: x0 <= x < x1 ==> (s(x, y) <==> p(x, y) || q(x, y)) && !(p(x, y) && q(x, y))
    ensures RowCount(s, y, x0, x1) == RowCount(p, y, x0, x1) + RowCount(q, y, x0, x1)
    decreases x1 - x0
  {
    if x0 < x1 {
      RowCountAdd(s, p, q, y, x0, x1 - 1);
    }
  }

  lemma {:induction false} RowsCountBound(p: (int, int) -> bool, r: Rect, y1: int)
    requires r.left <= r.right && r.top <= y1
    ensures RowsCount(p, r, y1) <= (y1 - r.top) * (r.right - r.left)
    ensures (forall x, y :: r.left <= x < r.right && r.top <= y < y1 ==> p(x, y)) ==>
              RowsCount(p, r, y1) == (y1 - r.top) * (r.right - r.left)
    decreases y1 - r.top
  {
    if r.top < y1 {
      RowsCountBound(p, r, y1 - 1);
      RowCountBound(p, y1 - 1, r.left, r.right);
      assert (y1 - r.top) * (r.right - r.left) == (y1 - 1 - r.top) * (r.right - r.left) + (r.right - r.left);
    }
  }

  lemma {:induction false} RowsCountAdd(s: (int, int) -> bool, p: (int, int) -> bool, q: (int, int) -> bool,
                                        r: Rect, y1: int)
    requires forall x, y :: Inside(r, x, y) ==> (s(x, y) <==> p(x, y) || q(x, y)) && !(p(x, y) && q(x, y))
    requires y1 <= r.bottom
    ensures RowsCount(s, r, y1) == RowsCount(p, r, y1) + RowsCount(q, r, y1)
    decreases y1 - r.top
  {
    if r.top < y1 {
      RowsCountAdd(s, p, q, r, y1 - 1);
      RowCountAdd(s, p, q, y1 - 1, r.left, r.right);
    }
  }

  /** Pixel count of a non-empty-or-degenerate rectangle is bounded by its area,
      and equals it when the predicate holds everywhere on the rectangle. */
  lemma PixelCountBound(r: Rect, p: (int, int) -> bool)
    ensures PixelCount(r, p) <= Area(r)
    ensures (forall x, y :: Inside(r, x, y) ==> p(x, y)) ==> PixelCount(r, p) == Area(r)
  {
    if IsEmpty(r) {
      if r.right <= r.left {
        ZeroWidth(p, r, r.bottom);
      } else {
        assert r.bottom <= r.top;
      }
    } else {
      RowsCountBound(p, r, r.bottom);
    }
  }

  lemma {:induction false} ZeroWidth(p: (int, int) -> bool, r: Rect, y1: int)
    requires r.right <= r.left
    ensures RowsCount(p, r, y1) == 0
    decreases y1 - r.top
  {
    if r.top < y1 {
      ZeroWidth(p, r, y1 - 1);
    }
  }

  lemma PixelCountAdd(r: Rect, s: (int, int) -> bool, p: (int, int) -> bool, q: (int, int) -> bool)
    requires forall x, y :: Inside(r, x, y) ==> (s(x, y) <==> p(x, y) || q(x, y)) && !(p(x, y) && q(x, y))
    ensures PixelCount(r, s) == PixelCount(r, p) + PixelCount(r, q)
  {
    if r.top < r.bottom {
      RowsCountAdd(s, p, q, r, r.bottom);
    }
  }

  /** Two predicates that agree on r count the same pixels. */
  lemma PixelCountSame(r: Rect, p: (int, int) -> bool, q: (int, int) -> bool)
    requires forall x, y :: Inside(r, x, y) ==> (p(x, y) <==> q(x, y))
    ensures PixelCount(r, p) == PixelCount(r, q)
  {
    var none: (int, int) -> bool := (x, y) => false;
    PixelCountAdd(r, p, q, none);
    PixelCountBound(r, none);
    assert forall x, y :: Inside(r, x, y) ==> !none(x, y);
    NoneCount(r, none);
  }

  lemma NoneCount(r: Rect, p: (int, int) -> bool)
    requires forall x, y :: Inside(r, x, y) ==> !p(x, y)
    ensures PixelCount(r, p) == 0
  {
    var all: (int, int) -> bool := (x, y) => true;
    var ornot: (int, int) -> bool := (x, y) => !p(x, y);
    PixelCountAdd(r, all, p, ornot);
    PixelCountBound(r, all);
    PixelCountBound(r, ornot);
  }

  /** Counting over a box b a predicate that holds only inside q (q inside b)
      is the same as counting it over q. */
  lemma {:induction false} RowsCountRestrict(p: (int, int) -> bool, b: Rect, q: Rect, y1: int)
    requires Within(q, b) && q.left <= q.right && q.top <= q.bottom
    requires forall x, y :: Inside(b, x, y) && !Inside(q, x, y) ==> !p(x, y)
    requires b.top <= y1 <= b.bottom
    ensures RowsCount(p, b, y1) == RowsCount(p, q, Max(q.top, Min(y1, q.bottom)))
    decreases y1 - b.top
  {
    if b.top < y1 {
      RowsCountRestrict(p, b, q, y1 - 1);
      RowRestrict(p, b, q, y1 - 1);
    }
  }

  /** One row of the box counts what the same row of q counts when the row
      crosses q, and nothing otherwise. */
  lemma RowRestrict(p: (int, int) -> bool, b: Rect, q: Rect, y: int)
    requires Within(q, b) && q.left <= q.right && q.top <= q.bottom
    requires forall x, y :: Inside(b, x, y) && !Inside(q, x, y) ==> !p(x, y)
    requires b.top <= y < b.bottom
    ensures RowCount(p, y, b.left, b.right) == if q.top <= y < q.bottom then RowCount(p, y, q.left, q.right) else 0
  {
    RowCountSplit(p, y, b.left, q.left, b.right);
    RowCountSplit(p, y, q.left, q.right, b.right);
    RowCountBound(p, y, b.left, q.left);
    RowCountBound(p, y, q.right, b.right);
    if !(q.top <= y < q.bottom) {
      RowCountBound(p, y, q.left, q.right);
    }
  }

  lemma PixelCountRestrict(b: Rect, q: Rect, p: (int, int) -> bool)
    requires Within(q, b) && !IsEmpty(q)
    requires forall x, y :: Inside(b, x, y) && !Inside(q, x, y) ==> !p(x, y)
    ensures PixelCount(b, p) == PixelCount(q, p)
  {
    RowsCountRestrict(p, b, q, b.bottom);
  }

  // ---------------------------------------------------------------------
  // Regions

  /** The pixel lies in some rectangle of rs. */
  predicate InAny(rs: seq<Rect>, x: int, y: int) {
    exists k :: 0 <= k < |rs| && Inside(rs[k], x, y)
  }

  function InsideP(r: Rect): (int, int) -> bool { (x, y) => Inside(r, x, y) }
  function InAnyP(rs: seq<Rect>): (int, int) -> bool { (x, y) => InAny(rs, x, y) }
  function UncoveredP(rs: seq<Rect>): (int, int) -> bool { (x, y) => !InAny(rs, x, y) }

  lemma InAnyAppend(a: seq<Rect>, b: seq<Rect>)
    ensures forall x, y :: InAny(a + b, x, y) <==> InAny(a, x, y) || InAny(b, x, y)
  {
    forall x, y ensures InAny(a + b, x, y) <==> InAny(a, x, y) || InAny(b, x, y) {
      if InAny(a + b, x, y) {
        var k :| 0 <= k < |a + b| && Inside((a + b)[k], x, y);
        if k < |a| { assert Inside(a[k], x, y); } else { assert Inside(b[k - |a|], x, y); }
      }
      if InAny(a, x, y) {
        var k :| 0 <= k < |a| && Inside(a[k], x, y);
        assert Inside((a + b)[k], x, y);
      }
      if InAny(b, x, y) {
        var k :| 0 <= k < |b| && Inside(b[k], x, y);
        assert Inside((a + b)[|a| + k], x, y);
      }
    }
  }

  /** A region inside box b: non-empty members inside b, pairwise disjoint. */
  predicate IsRegionIn(g: seq<Rect>, b: Rect) {
    (forall k :: 0 <= k < |g| ==> !IsEmpty(g[k]) && Within(g[k], b)) &&
    (forall i, j :: 0 <= i < j < |g| ==> Disjoint(g[i], g[j]))
  }

  /** Total area of the members of a region (the sum over the rectangles that
      describe it). */
  function RegionArea(g: seq<Rect>): nat {
    if g == [] then 0 else RegionArea(g[..|g| - 1]) + Area(g[|g| - 1])
  }

  /** Two regions in the same box whose pixels do not meet form one region. */
  lemma RegionConcat(g: seq<Rect>, h: seq<Rect>, b: Rect)
    requires IsRegionIn(g, b) && IsRegionIn(h, b)
    requires forall x, y :: !(InAny(g, x, y) && InAny(h, x, y))
    ensures IsRegionIn(g + h, b)
  {
    forall i, j | 0 <= i < |g| && 0 <= j < |h| ensures Disjoint(g[i], h[j]) {
      if !Disjoint(g[i], h[j]) {
        SharedPixel(g[i], h[j]);
        var x, y := Max(g[i].left, h[j].left), Max(g[i].top, h[j].top);
        assert InAny(g, x, y) && InAny(h, x, y);
      }
    }
    RegionConcatCross(g, h, b);
  }

  /** Every member of g is disjoint from every member of h. */
  predicate CrossDisjoint(g: seq<Rect>, h: seq<Rect>) {
    forall i, j :: 0 <= i < |g| && 0 <= j < |h| ==> Disjoint(g[i], h[j])
  }

  lemma CrossAppend(g1: seq<Rect>, g2: seq<Rect>, h: seq<Rect>)
    requires CrossDisjoint(g1, h) && CrossDisjoint(g2, h)
    ensures CrossDisjoint(g1 + g2, h)
  {
    forall i, j | 0 <= i < |g1 + g2| && 0 <= j < |h| ensures Disjoint((g1 + g2)[i], h[j]) {
      if i >= |g1| {
        assert (g1 + g2)[i] == g2[i - |g1|];
      }
    }
  }

  /** Two regions in the same box whose members do not meet form one region. */
  lemma RegionConcatCross(g: seq<Rect>, h: seq<Rect>, b: Rect)
    requires IsRegionIn(g, b) && IsRegionIn(h, b) && CrossDisjoint(g, h)
    ensures IsRegionIn(g + h, b)
  {
    var gh := g + h;
    forall i, j | 0 <= i < j < |gh| ensures Disjoint(gh[i], gh[j]) {
      if j < |g| {
      } else if i < |g| {
        assert Disjoint(g[i], h[j - |g|]);
      } else {
        assert Disjoint(h[i - |g|], h[j - |g|]);
      }
    }
  }

  /** The area of a region is the number of pixels it covers. */
  lemma {:induction false} RegionPixels(g: seq<Rect>, b: Rect)
    requires IsRegionIn(g, b)
    ensures PixelCount(b, InAnyP(g)) == RegionArea(g)
    decreases |g|
  {
    if g == [] {
      NoneCount(b, InAnyP(g));
    } else {
      var h, q := g[..|g| - 1], g[|g| - 1];
      assert g == h + [q];
      InAnyAppend(h, [q]);
      assert IsRegionIn(h, b);
      assert forall x, y :: !(InAny(h, x, y) && Inside(q, x, y));
      PixelCountAdd(b, InAnyP(g), InAnyP(h), InsideP(q));
      RegionPixels(h, b);
      PixelCountRestrict(b, q, InsideP(q));
      PixelCountBound(q, InsideP(q));
    }
  }

  /** q minus a: at most four non-empty pieces of q (the band above a, the band
      below a, and the parts left and right of a within a's rows). */
  function Subtract(q: Rect, a: Rect): seq<Rect> {
    if IsEmpty(a) || Disjoint(q, a) then [q]
    else AbovePiece(q, a) + BelowPiece(q, a) + LeftPiece(q, a) + RightPiece(q, a)
  }

  function AbovePiece(q: Rect, a: Rect): seq<Rect> {
    if q.top < a.top then [Rect(q.left, q.top, q.right, a.top)] else []
  }

  function BelowPiece(q: Rect, a: Rect): seq<Rect> {
    if a.bottom < q.bottom then [Rect(q.left, a.bottom, q.right, q.bottom)] else []
  }

  function LeftPiece(q: Rect, a: Rect): seq<Rect> {
    if q.left < a.left then [Rect(q.left, Max(q.top, a.top), a.left, Min(q.bottom, a.bottom))] else []
  }

  function RightPiece(q: Rect, a: Rect): seq<Rect> {
    if a.right < q.right then [Rect(a.right, Max(q.top, a.top), q.right, Min(q.bottom, a.bottom))] else []
  }

  /** The pieces of q minus a form a region inside q and cover exactly the
      pixels of q outside a. */
  lemma SubtractSpec(q: Rect, a: Rect)
    requires !IsEmpty(q)
    ensures IsRegionIn(Subtract(q, a), q)
    ensures forall x, y :: InAny(Subtract(q, a), x, y) <==> Inside(q, x, y) && !Inside(a, x, y)
  {
    if IsEmpty(a) || Disjoint(q, a) {
      assert Subtract(q, a) == [q];
      forall x, y ensures InAny([q], x, y) <==> Inside(q, x, y) {
        if Inside(q, x, y) { assert Inside([q][0], x, y); }
      }
    } else {
      SubtractRegion(q, a);
      forall x, y ensures InAny(Subtract(q, a), x, y) <==> Inside(q, x, y) && !Inside(a, x, y) {
        SubtractPixel(q, a, x, y);
      }
    }
  }

  lemma SubtractPixel(q: Rect, a: Rect, x: int, y: int)
    requires !IsEmpty(q) && !IsEmpty(a) && !Disjoint(q, a)
    ensures InAny(Subtract(q, a), x, y) <==> Inside(q, x, y) && !Inside(a, x, y)
  {
    var t, u, l, r := AbovePiece(q, a), BelowPiece(q, a), LeftPiece(q, a), RightPiece(q, a);
    InAnyAppend(t, u);
    InAnyAppend(t + u, l);
    InAnyAppend(t + u + l, r);
    PieceSpec(t); PieceSpec(u); PieceSpec(l); PieceSpec(r);
  }

  lemma SubtractRegion(q: Rect, a: Rect)
    requires !IsEmpty(q) && !IsEmpty(a) && !Disjoint(q, a)
    ensures IsRegionIn(Subtract(q, a), q)
  {
    var t, u, l, r := AbovePiece(q, a), BelowPiece(q, a), LeftPiece(q, a), RightPiece(q, a);
    PiecesInside(q, a);
    PiecesApart(q, a);
    RegionConcatCross(t, u, q);
    CrossAppend(t, u, l);
    RegionConcatCross(t + u, l, q);
    CrossAppend(t, u, r);
    CrossAppend(t + u, l, r);
    RegionConcatCross(t + u + l, r, q);
  }

  lemma PiecesInside(q: Rect, a: Rect)
    requires !IsEmpty(q) && !IsEmpty(a) && !Disjoint(q, a)
    ensures IsRegionIn(AbovePiece(q, a), q) && IsRegionIn(BelowPiece(q, a), q)
    ensures IsRegionIn(LeftPiece(q, a), q) && IsRegionIn(RightPiece(q, a), q)
  {
  }

  /** The band above lies over a's rows and the band below under them; the
      left and right parts lie within a's rows on either side of a. */
  lemma PiecesApart(q: Rect, a: Rect)
    requires !IsEmpty(a)
    ensures CrossDisjoint(AbovePiece(q, a), BelowPiece(q, a))
    ensures CrossDisjoint(AbovePiece(q, a), LeftPiece(q, a)) && CrossDisjoint(BelowPiece(q, a), LeftPiece(q, a))
    ensures CrossDisjoint(AbovePiece(q, a), RightPiece(q, a)) && CrossDisjoint(BelowPiece(q, a), RightPiece(q, a))
    ensures CrossDisjoint(LeftPiece(q, a), RightPiece(q, a))
  {
  }

  lemma PieceSpec(s: seq<Rect>)
    requires |s| <= 1
    ensures forall x, y :: InAny(s, x, y) <==> |s| == 1 && Inside(s[0], x, y)
  {
    forall x, y | |s| == 1 && Inside(s[0], x, y) ensures InAny(s, x, y) {
    }
  }

  /** g minus a, member by member. */
  function RegionMinus(g: seq<Rect>, a: Rect): seq<Rect> {
    if g == [] then [] else RegionMinus(g[..|g| - 1], a) + Subtract(g[|g| - 1], a)
  }

  lemma {:induction false} RegionMinusSpec(g: seq<Rect>, a: Rect, b: Rect)
    requires IsRegionIn(g, b)
    ensures IsRegionIn(RegionMinus(g, a), b)
    ensures forall x, y :: InAny(RegionMinus(g, a), x, y) <==> InAny(g, x, y) && !Inside(a, x, y)
    decreases |g|
  {
    RegionMinusPixels(g, a);
    if g != [] {
      var h, q := g[..|g| - 1], g[|g| - 1];
      assert g == h + [q];
      assert IsRegionIn(h, b);
      RegionMinusSpec(h, a, b);
      MinusAppend(h, q, a, b);
    }
  }

  /** Subtracting a member by member removes exactly the pixels of a. */
  lemma {:induction false} RegionMinusPixels(g: seq<Rect>, a: Rect)
    requires forall k :: 0 <= k < |g| ==> !IsEmpty(g[k])
    ensures forall x, y :: InAny(RegionMinus(g, a), x, y) <==> InAny(g, x, y) && !Inside(a, x, y)
    decreases |g|
  {
    if g != [] {
      var h, q := g[..|g| - 1], g[|g| - 1];
      assert g == h + [q];
      RegionMinusPixels(h, a);
      SubtractSpec(q, a);
      InAnyAppend(h, [q]);
      InAnyAppend(RegionMinus(h, a), Subtract(q, a));
    }
  }

  /** One step of RegionMinus keeps the pieces disjoint and inside b. */
  lemma MinusAppend(h: seq<Rect>, q: Rect, a: Rect, b: Rect)
    requires IsRegionIn(h + [q], b) && IsRegionIn(RegionMinus(h, a), b)
    requires forall x, y :: InAny(RegionMinus(h, a), x, y) ==> InAny(h, x, y)
    ensures IsRegionIn(RegionMinus(h, a) + Subtract(q, a), b)
  {
    var r, s := RegionMinus(h, a), Subtract(q, a);
    LastApart(h, q, b);
    SubtractSpec(q, a);
    RegionWithin(s, q, b);
    assert forall x, y :: InAny(s, x, y) ==> Inside(q, x, y);
    assert forall x, y :: !(InAny(r, x, y) && InAny(s, x, y));
    RegionConcat(r, s, b);
  }

  /** The last member of a region shares no pixel with the ones before it. */
  lemma LastApart(h: seq<Rect>, q: Rect, b: Rect)
    requires IsRegionIn(h + [q], b)
    ensures !IsEmpty(q) && Within(q, b)
    ensures forall x, y :: InAny(h, x, y) ==> !Inside(q, x, y)
  {
    var g := h + [q];
    assert g[|h|] == q;
    forall x, y | InAny(h, x, y) ensures !Inside(q, x, y) {
      var k :| 0 <= k < |h| && Inside(h[k], x, y);
      assert g[k] == h[k];
      assert Disjoint(g[k], g[|h|]);
    }
  }

  /** A region inside q is inside any rectangle holding q. */
  lemma RegionWithin(s: seq<Rect>, q: Rect, b: Rect)
    requires IsRegionIn(s, q) && Within(q, b)
    ensures IsRegionIn(s, b)
  {
  }

  /** Pixels of r that no rectangle of above covers: the visible part of a
      window r under the windows above it. */
  ghost function VisiblePixels(r: Rect, above: seq<Rect>): nat {
    PixelCount(r, UncoveredP(above))
  }

  /** A window nothing is above shows its whole area; in general its visible
      pixels lie between 0 and its area. */
  lemma VisiblePixelsBounds(r: Rect, above: seq<Rect>)
    ensures VisiblePixels(r, above) <= Area(r)
    ensures above == [] ==> VisiblePixels(r, above) == Area(r)
  {
    PixelCountBound(r, UncoveredP(above));
  }
}
