/** Which top-level windows the switcher offers, how visible each one is,
    in what order they are ranked, and the search filter over their titles. */
module Windows {
  import opened Geometry

  /** What the OS reports about one top-level window; a snapshot lists them
      front to back (Z-order). */
  datatype WindowInfo = WindowInfo(hwnd: int, rect: Rect, title: string,
                                   visible: bool, toolWindow: bool, iconic: bool)

  /** A window the switcher can highlight, with its visible pixel count. */
  datatype AppWindow = AppWindow(hwnd: int, rect: Rect, title: string, visibleArea: int)

  /** The title buffer holds 256 wide characters including the terminator. */
  const TitleCapacity := 256

  /** The title as read into the fixed buffer: at most 255 characters. */
  function FetchTitle(t: string): (s: string)
    ensures |s| < TitleCapacity && s <= t
    ensures |t| < TitleCapacity ==> s == t
  {
    if |t| < TitleCapacity then t else t[..TitleCapacity - 1]
  }

  // ---------------------------------------------------------------------
  // The inclusion rule

  datatype Verdict = Skip | Normal(w: AppWindow) | Minimized(w: AppWindow)

  /** The enumeration callback's decision for one window, checked in the
      source's order: own windows, invisible windows, untitled windows and
      tool windows are skipped; a minimized window goes to the minimized
      list with no visible area; any other window is kept when its rectangle
      has positive width and height. */
  function Classify(info: WindowInfo, own: set<int>): (v: Verdict)
    ensures v.Skip? <==>
      info.hwnd in own || !info.visible || FetchTitle(info.title) == [] || info.toolWindow ||
      (!info.iconic && IsEmpty(info.rect))
    ensures v.Minimized? <==> !v.Skip? && info.iconic
    ensures !v.Skip? ==> v.w == AppWindow(info.hwnd, info.rect, FetchTitle(info.title), 0)
  {
    if info.hwnd in own then Skip
    else if !info.visible then Skip
    else if FetchTitle(info.title) == [] then Skip
    else if info.toolWindow then Skip
    else if info.iconic then Minimized(AppWindow(info.hwnd, info.rect, FetchTitle(info.title), 0))
    else if IsEmpty(info.rect) then Skip
    else Normal(AppWindow(info.hwnd, info.rect, FetchTitle(info.title), 0))
  }

  datatype Lists = Lists(normal: seq<AppWindow>, minimized: seq<AppWindow>)

  /** The two lists the callback fills over a snapshot, in Z-order. */
  function Collected(ws: seq<WindowInfo>, own: set<int>): Lists {
    if ws == [] then Lists([], [])
    else
      var front := Collected(ws[..|ws| - 1], own);
      match Classify(ws[|ws| - 1], own)
      case Skip => front
      case Normal(w) => front.(normal := front.normal + [w])
      case Minimized(w) => front.(minimized := front.minimized + [w])
  }

  /** A window is collected exactly when the rule accepts some window of the
      snapshot as it; collected normal windows are never the application's
      own, are titled and have a non-empty rectangle. */
  lemma CollectedMembers(ws: seq<WindowInfo>, own: set<int>)
    ensures forall w :: w in Collected(ws, own).normal <==>
      exists i :: 0 <= i < |ws| && Classify(ws[i], own) == Normal(w)
    ensures forall w :: w in Collected(ws, own).minimized <==>
      exists i :: 0 <= i < |ws| && Classify(ws[i], own) == Minimized(w)
    ensures |Collected(ws, own).normal| + |Collected(ws, own).minimized| <= |ws|
  {
    CollectedNormal(ws, own);
    CollectedMinimized(ws, own);
    CollectedCount(ws, own);
  }

  lemma {:induction false} CollectedNormal(ws: seq<WindowInfo>, own: set<int>)
    ensures forall w :: w in Collected(ws, own).normal <==>
      exists i :: 0 <= i < |ws| && Classify(ws[i], own) == Normal(w)
  {
    if ws != [] {
      var n := |ws| - 1;
      var front := ws[..n];
      CollectedNormal(front, own);
      forall w ensures w in Collected(ws, own).normal <==> exists i :: 0 <= i < |ws| && Classify(ws[i], own) == Normal(w) {
        if exists i :: 0 <= i < |ws| && Classify(ws[i], own) == Normal(w) {
          var i :| 0 <= i < |ws| && Classify(ws[i], own) == Normal(w);
          if i < n { assert Classify(front[i], own) == Normal(w); }
        }
        if w in Collected(front, own).normal {
          var i :| 0 <= i < |front| && Classify(front[i], own) == Normal(w);
          assert Classify(ws[i], own) == Normal(w);
        }
      }
    }
  }

  lemma {:induction false} CollectedMinimized(ws: seq<WindowInfo>, own: set<int>)
    ensures forall w :: w in Collected(ws, own).minimized <==>
      exists i :: 0 <= i < |ws| && Classify(ws[i], own) == Minimized(w)
  {
    if ws != [] {
      var n := |ws| - 1;
      var front := ws[..n];
      CollectedMinimized(front, own);
      forall w ensures w in Collected(ws, own).minimized <==> exists i :: 0 <= i < |ws| && Classify(ws[i], own) == Minimized(w) {
        if exists i :: 0 <= i < |ws| && Classify(ws[i], own) == Minimized(w) {
          var i :| 0 <= i < |ws| && Classify(ws[i], own) == Minimized(w);
          if i < n { assert Classify(front[i], own) == Minimized(w); }
        }
        if w in Collected(front, own).minimized {
          var i :| 0 <= i < |front| && Classify(front[i], own) == Minimized(w);
          assert Classify(ws[i], own) == Minimized(w);
        }
      }
    }
  }

  lemma {:induction false} CollectedCount(ws: seq<WindowInfo>, own: set<int>)
    ensures |Collected(ws, own).normal| + |Collected(ws, own).minimized| <= |ws|
  {
    if ws != [] {
      CollectedCount(ws[..|ws| - 1], own);
    }
  }

  /** What the source's collected windows look like. */
  lemma CollectedWindows(ws: seq<WindowInfo>, own: set<int>)
    ensures forall w :: w in Collected(ws, own).normal ==>
      w.hwnd !in own && w.title != [] && !IsEmpty(w.rect) && w.visibleArea == 0
    ensures forall w :: w in Collected(ws, own).minimized ==>
      w.hwnd !in own && w.title != [] && w.visibleArea == 0
  {
    CollectedMembers(ws, own);
  }

  /** The enumeration: the OS calls the rule once per window, front to back. */
  method CollectWindows(ws: seq<WindowInfo>, own: set<int>) returns (normal: seq<AppWindow>, minimized: seq<AppWindow>)
    ensures Lists(normal, minimized) == Collected(ws, own)
  {
    normal, minimized := [], [];
    for i := 0 to |ws|
      invariant Lists(normal, minimized) == Collected(ws[..i], own)
    {
      assert ws[..i + 1][..i] == ws[..i];
      match Classify(ws[i], own)
      case Skip =>
      case Normal(w) => normal := normal + [w];
      case Minimized(w) => minimized := minimized + [w];
    }
    assert ws[..|ws|] == ws;
  }

  // ---------------------------------------------------------------------
  // Visible area

  function Rects(ws: seq<AppWindow>): (rs: seq<Rect>)
    ensures |rs| == |ws| && forall k :: 0 <= k < |ws| ==> rs[k] == ws[k].rect
  {
    seq(|ws|, k requires 0 <= k < |ws| => ws[k].rect)
  }

  /** The region left of r after removing each rectangle above it in turn,
      as the sequence of disjoint rectangles the region is made of. */
  function VisibleRegion(r: Rect, above: seq<Rect>): seq<Rect> {
    if above == [] then (if IsEmpty(r) then [] else [r])
    else RegionMinus(VisibleRegion(r, above[..|above| - 1]), above[|above| - 1])
  }

  /** The region is the pixels of r covered by none of the rectangles above. */
  lemma {:induction false} VisibleRegionSpec(r: Rect, above: seq<Rect>)
    ensures IsRegionIn(VisibleRegion(r, above), r)
    ensures forall x, y :: InAny(VisibleRegion(r, above), x, y) <==> Inside(r, x, y) && !InAny(above, x, y)
  {
    if above == [] {
      forall x, y ensures InAny(VisibleRegion(r, above), x, y) <==> Inside(r, x, y) {
        if Inside(r, x, y) { assert Inside(VisibleRegion(r, above)[0], x, y); }
      }
    } else {
      var front := above[..|above| - 1];
      var a := above[|above| - 1];
      VisibleRegionSpec(r, front);
      RegionMinusSpec(VisibleRegion(r, front), a, r);
      InAnyAppend(front, [a]);
      assert above == front + [a];
      forall x, y ensures InAny([a], x, y) <==> Inside(a, x, y) {
        if Inside(a, x, y) { assert Inside([a][0], x, y); }
      }
    }
  }

  /** Summing the region's rectangles counts exactly the visible pixels. */
  lemma VisibleRegionArea(r: Rect, above: seq<Rect>)
    ensures RegionArea(VisibleRegion(r, above)) == VisiblePixels(r, above)
  {
    var g := VisibleRegion(r, above);
    VisibleRegionSpec(r, above);
    RegionPixels(g, r);
    PixelCountSame(r, InAnyP(g), UncoveredP(above));
  }

  /** The visible pixels of a stack of rectangles, front first, each counted
      under the rectangles before it. */
  ghost function SumVisible(rs: seq<Rect>): nat {
    if rs == [] then 0 else SumVisible(rs[..|rs| - 1]) + VisiblePixels(rs[|rs| - 1], rs[..|rs| - 1])
  }

  /** Occlusion hides each pixel exactly once: over a box b holding every
      rectangle, the visible areas of the stack add up to the number of
      pixels of their union, so never to more than the area of b. */
  lemma {:induction false} VisibleAreasSum(rs: seq<Rect>, b: Rect)
    requires forall k :: 0 <= k < |rs| ==> Within(rs[k], b)
    ensures SumVisible(rs) == PixelCount(b, InAnyP(rs))
    ensures SumVisible(rs) <= Area(b)
  {
    if rs == [] {
      NoneCount(b, InAnyP(rs));
    } else {
      var front, r := rs[..|rs| - 1], rs[|rs| - 1];
      VisibleAreasSum(front, b);
      var newly: (int, int) -> bool := (x, y) => Inside(r, x, y) && !InAny(front, x, y);
      assert rs == front + [r];
      InAnyAppend(front, [r]);
      assert forall x, y :: InAny([r], x, y) <==> Inside(r, x, y) by {
        forall x, y ensures InAny([r], x, y) <==> Inside(r, x, y) {
          if Inside(r, x, y) { assert Inside([r][0], x, y); }
        }
      }
      PixelCountAdd(b, InAnyP(rs), InAnyP(front), newly);
      PixelCountSame(r, UncoveredP(front), newly);
      if IsEmpty(r) {
        VisiblePixelsBounds(r, front);
        NoneCount(b, newly);
      } else {
        PixelCountRestrict(b, r, newly);
      }
    }
    PixelCountBound(b, InAnyP(rs));
  }

  /** Each window with its visible area: the pixels of its rectangle that no
      window in front of it covers. */
  ghost function WithVisibleAreas(ws: seq<AppWindow>): (out: seq<AppWindow>)
    ensures |out| == |ws|
  {
    seq(|ws|, i requires 0 <= i < |ws| => ws[i].(visibleArea := VisiblePixels(ws[i].rect, Rects(ws)[..i])))
  }

  /** The frontmost window is fully visible; every area lies between zero
      and the window's own rectangle area; only the area field changes. */
  lemma VisibleAreaBounds(ws: seq<AppWindow>)
    ensures forall i :: 0 <= i < |ws| ==>
      0 <= WithVisibleAreas(ws)[i].visibleArea <= Area(ws[i].rect) &&
      WithVisibleAreas(ws)[i].(visibleArea := ws[i].visibleArea) == ws[i]
    ensures |ws| > 0 ==> WithVisibleAreas(ws)[0].visibleArea == Area(ws[0].rect)
  {
    forall i | 0 <= i < |ws|
      ensures 0 <= WithVisibleAreas(ws)[i].visibleArea <= Area(ws[i].rect)
    {
      VisiblePixelsBounds(ws[i].rect, Rects(ws)[..i]);
    }
    if |ws| > 0 {
      VisiblePixelsBounds(ws[0].rect, Rects(ws)[..0]);
    }
  }

  /** One window of the area pass: start from its rectangle, subtract every
      window in front of it, then add up the areas of the rectangles the
      remaining region is made of. */
  method VisibleAreaOf(r: Rect, above: seq<Rect>) returns (area: int)
    ensures area == VisiblePixels(r, above)
  {
    var region := SubtractAll(r, above);
    area := SumAreas(region);
    VisibleRegionArea(r, above);
  }

  /** The subtraction loop: r minus each rectangle above it, in order. */
  method SubtractAll(r: Rect, above: seq<Rect>) returns (region: seq<Rect>)
    ensures region == VisibleRegion(r, above)
  {
    region := if IsEmpty(r) then [] else [r];
    for j := 0 to |above|
      invariant region == VisibleRegion(r, above[..j])
    {
      assert above[..j + 1][..j] == above[..j];
      region := RegionMinus(region, above[j]);
    }
    assert above[..|above|] == above;
  }

  /** The summing loop over the rectangles of a region. */
  method SumAreas(region: seq<Rect>) returns (area: int)
    ensures area == RegionArea(region)
  {
    area := 0;
    for k := 0 to |region|
      invariant area == RegionArea(region[..k])
    {
      assert region[..k + 1][..k] == region[..k];
      area := area + Area(region[k]);
    }
    assert region[..|region|] == region;
  }

  /** The area pass of the enumeration, window by window. */
  method ComputeVisibleAreas(ws: seq<AppWindow>) returns (out: seq<AppWindow>)
    ensures out == WithVisibleAreas(ws)
  {
    var rects := Rects(ws);
    out := [];
    for i := 0 to |ws|
      invariant |out| == i
      invariant forall k :: 0 <= k < i ==> out[k] == WithVisibleAreas(ws)[k]
    {
      var area := VisibleAreaOf(ws[i].rect, rects[..i]);
      out := out + [ws[i].(visibleArea := area)];
    }
  }

  /** Cutting a 100 x 100 window at the origin out of one at (50, 50)
      leaves its lower band and the right part of its upper band. */
  lemma SubtractExample(a: Rect, b: Rect)
    requires a == Rect(0, 0, 100, 100) && b == Rect(50, 50, 150, 150)
    ensures Subtract(b, a) == [Rect(50, 100, 150, 150), Rect(100, 50, 150, 100)]
  {
    assert !IsEmpty(a) && !Disjoint(b, a);
    assert Max(b.top, a.top) == 50 && Min(b.bottom, a.bottom) == 100;
  }

  lemma SquareArea(a: Rect)
    requires a == Rect(0, 0, 100, 100)
    ensures Area(a) == 10000
  {
  }

  lemma PiecesArea(g: seq<Rect>)
    requires g == [Rect(50, 100, 150, 150), Rect(100, 50, 150, 100)]
    ensures RegionArea(g) == 7500
  {
    assert g[..1][..0] == [];
    assert RegionArea(g[..1]) == 5000;
  }

  /** The back window of the example keeps exactly the two pieces. */
  lemma BackRegion(a: Rect, b: Rect)
    requires a == Rect(0, 0, 100, 100) && b == Rect(50, 50, 150, 150)
    ensures VisibleRegion(b, [a]) == [Rect(50, 100, 150, 150), Rect(100, 50, 150, 100)]
  {
    assert [a][..0] == [];
    assert RegionMinus([], a) == [];
    assert [b][..0] == [];
    assert VisibleRegion(b, [a]) == RegionMinus([b], a) == Subtract(b, a);
    SubtractExample(a, b);
  }

  /** A window in front of another that it half overlaps: 100 x 100 at the
      origin, then 100 x 100 at (50, 50); the front one shows 10000 pixels,
      the back one 7500. */
  lemma OverlapExample(a: Rect, b: Rect)
    requires a == Rect(0, 0, 100, 100) && b == Rect(50, 50, 150, 150)
    ensures VisiblePixels(a, []) == 10000
    ensures VisiblePixels(b, [a]) == 7500
  {
    VisiblePixelsBounds(a, []);
    SquareArea(a);
    VisibleRegionArea(b, [a]);
    BackRegion(a, b);
    PiecesArea(VisibleRegion(b, [a]));
  }

  // ---------------------------------------------------------------------
  // Ranking

  /** Non-increasing visible area, front to back of the list. */
  predicate SortedDesc(ws: seq<AppWindow>) {
    forall i, j :: 0 <= i < j < |ws| ==> ws[i].visibleArea >= ws[j].visibleArea
  }

  /** Insertion of one window before the first that is less visible. */
  function Insert(x: AppWindow, s: seq<AppWindow>): seq<AppWindow> {
    if s == [] then [x]
    else if x.visibleArea >= s[0].visibleArea then [x] + s
    else [s[0]] + Insert(x, s[1..])
  }

  /** Inserting adds exactly the one window. */
  lemma {:induction false} InsertPerm(x: AppWindow, s: seq<AppWindow>)
    ensures multiset(Insert(x, s)) == multiset(s) + multiset{x}
  {
    if s != [] && x.visibleArea < s[0].visibleArea {
      InsertPerm(x, s[1..]);
      var rest := Insert(x, s[1..]);
      assert Insert(x, s) == [s[0]] + rest;
      assert multiset(Insert(x, s)) == multiset{s[0]} + multiset(rest);
      assert s == [s[0]] + s[1..];
      assert multiset(s) == multiset{s[0]} + multiset(s[1..]);
    }
  }

  /** The inserted list starts with the new window or with the old head. */
  lemma InsertHead(x: AppWindow, s: seq<AppWindow>)
    ensures Insert(x, s)[0] == x || Insert(x, s)[0] == s[0]
  {
  }

  /** Inserting into a ranked list keeps it ranked. */
  lemma {:induction false} InsertSorted(x: AppWindow, s: seq<AppWindow>)
    requires SortedDesc(s)
    ensures SortedDesc(Insert(x, s))
  {
    if s == [] {
    } else if x.visibleArea >= s[0].visibleArea {
      ConsSorted(x, s);
    } else {
      InsertSorted(x, s[1..]);
      InsertHead(x, s[1..]);
      ConsSorted(s[0], Insert(x, s[1..]));
    }
  }

  /** A window at least as visible as the head of a ranked list can go in
      front of it. */
  lemma ConsSorted(h: AppWindow, t: seq<AppWindow>)
    requires SortedDesc(t) && (t != [] ==> h.visibleArea >= t[0].visibleArea)
    ensures SortedDesc([h] + t)
  {
    var u := [h] + t;
    forall i, j | 0 <= i < j < |u| ensures u[i].visibleArea >= u[j].visibleArea {
      assert u[j] == t[j - 1];
      if i > 0 {
        assert u[i] == t[i - 1];
      }
    }
  }

  /** The sort of the enumeration: a permutation of its input ordered by
      visible area, most visible first. No order is promised among windows
      of equal area. */
  method SortByVisibleArea(ws: seq<AppWindow>) returns (sorted: seq<AppWindow>)
    ensures SortedDesc(sorted)
    ensures multiset(sorted) == multiset(ws)
  {
    sorted := [];
    for i := 0 to |ws|
      invariant SortedDesc(sorted)
      invariant multiset(sorted) == multiset(ws[..i])
    {
      InsertSorted(ws[i], sorted);
      InsertPerm(ws[i], sorted);
      assert ws[..i + 1] == ws[..i] + [ws[i]];
      sorted := Insert(ws[i], sorted);
    }
    assert ws[..|ws|] == ws;
  }

  /** The list t without its element i. */
  function Without(t: seq<AppWindow>, i: int): (u: seq<AppWindow>)
    requires 0 <= i < |t|
    ensures |u| == |t| - 1
    ensures forall k :: 0 <= k < |u| ==> u[k] == if k < i then t[k] else t[k + 1]
  {
    t[..i] + t[i + 1..]
  }

  /** Removing one window from a ranked list leaves it ranked, and takes
      just that window out of the multiset. */
  lemma RemoveAt(t: seq<AppWindow>, i: int)
    requires SortedDesc(t) && 0 <= i < |t|
    ensures SortedDesc(Without(t, i))
    ensures multiset(Without(t, i)) == multiset(t) - multiset{t[i]}
  {
    assert t == t[..i] + [t[i]] + t[i + 1..];
    var u := Without(t, i);
    forall a, b | 0 <= a < b < |u| ensures u[a].visibleArea >= u[b].visibleArea {
      assert u[a] == if a < i then t[a] else t[a + 1];
      assert u[b] == if b < i then t[b] else t[b + 1];
    }
  }

  /** The head of a ranked list is at least as visible as any member. */
  lemma HeadIsMost(s: seq<AppWindow>, x: AppWindow)
    requires SortedDesc(s) && x in s
    ensures s[0].visibleArea >= x.visibleArea
  {
  }

  /** The last step of the ranking proof: the tail of s matches t with its
      element i removed, and t's first i + 1 elements tie with s's head. */
  lemma TieShift(s: seq<AppWindow>, t: seq<AppWindow>, i: int)
    requires SortedDesc(t) && |s| == |t| && 0 <= i < |t|
    requires s[0].visibleArea == t[0].visibleArea == t[i].visibleArea
    requires forall k :: 0 <= k < |t| - 1 ==> s[1..][k].visibleArea == Without(t, i)[k].visibleArea
    ensures forall k :: 0 <= k < |s| ==> s[k].visibleArea == t[k].visibleArea
  {
    var u := Without(t, i);
    forall k | 1 <= k < |s| ensures s[k].visibleArea == t[k].visibleArea {
      assert s[k] == s[1..][k - 1];
      assert s[k].visibleArea == u[k - 1].visibleArea;
      if k <= i {
        assert u[k - 1] == t[k - 1];
        assert t[0].visibleArea >= t[k - 1].visibleArea;
        assert t[k].visibleArea >= t[i].visibleArea;
      } else {
        assert u[k - 1] == t[k];
      }
    }
  }

  /** Whatever order ties are left in, two rankings of the same windows list
      the same areas in the same order. */
  lemma {:induction false} RankingAreasDetermined(s: seq<AppWindow>, t: seq<AppWindow>)
    requires SortedDesc(s) && SortedDesc(t) && multiset(s) == multiset(t)
    ensures |s| == |t|
    ensures forall k :: 0 <= k < |s| ==> s[k].visibleArea == t[k].visibleArea
  {
    assert |s| == |multiset(s)| == |multiset(t)| == |t|;
    if s != [] {
      var i := HeadMatch(s, t);
      RankingAreasDetermined(s[1..], Without(t, i));
      TieShift(s, t, i);
    }
  }

  /** The head of one ranking sits at some position i of another ranking of
      the same windows, with the same area as that ranking's head; the rest
      of the first ranking and the second without position i are again two
      rankings of the same windows. */
  lemma HeadMatch(s: seq<AppWindow>, t: seq<AppWindow>) returns (i: int)
    requires SortedDesc(s) && SortedDesc(t) && multiset(s) == multiset(t) && s != []
    ensures 0 <= i < |t| && t[i] == s[0]
    ensures s[0].visibleArea == t[0].visibleArea == t[i].visibleArea
    ensures SortedDesc(s[1..]) && SortedDesc(Without(t, i))
    ensures multiset(s[1..]) == multiset(Without(t, i))
  {
    assert s[0] in multiset(t) && t[0] in multiset(s);
    HeadIsMost(s, t[0]);
    HeadIsMost(t, s[0]);
    i :| 0 <= i < |t| && t[i] == s[0];
    RemoveAt(t, i);
    assert s == [s[0]] + s[1..];
    assert multiset(s) == multiset{s[0]} + multiset(s[1..]);
  }

  // ---------------------------------------------------------------------
  // Order-preserving filters

  /** The elements of s satisfying p, in their order in s. */
  function Keep<T>(s: seq<T>, p: T -> bool): seq<T> {
    if s == [] then []
    else if p(s[|s| - 1]) then Keep(s[..|s| - 1], p) + [s[|s| - 1]]
    else Keep(s[..|s| - 1], p)
  }

  /** The filter keeps exactly the elements satisfying p, and no more of
      them than there are. */
  lemma {:induction false} KeepMembers<T>(s: seq<T>, p: T -> bool)
    ensures forall x :: x in Keep(s, p) <==> x in s && p(x)
    ensures |Keep(s, p)| <= |s|
  {
    if s != [] {
      KeepMembers(s[..|s| - 1], p);
      assert s == s[..|s| - 1] + [s[|s| - 1]];
    }
  }

  /** The filter is an order-preserving subsequence: its elements sit at
      strictly increasing positions of s. */
  lemma {:induction false} KeepIsSubsequence<T>(s: seq<T>, p: T -> bool) returns (idx: seq<nat>)
    ensures |idx| == |Keep(s, p)|
    ensures forall k :: 0 <= k < |idx| ==> idx[k] < |s| && Keep(s, p)[k] == s[idx[k]]
    ensures forall a, b :: 0 <= a < b < |idx| ==> idx[a] < idx[b]
  {
    if s == [] {
      idx := [];
    } else {
      var n := |s| - 1;
      var front := KeepIsSubsequence(s[..n], p);
      if p(s[n]) {
        idx := front + [n];
      } else {
        idx := front;
      }
    }
  }

  /** Filtering twice by the same test is filtering once. */
  lemma {:induction false} KeepIdempotent<T>(s: seq<T>, p: T -> bool)
    ensures Keep(Keep(s, p), p) == Keep(s, p)
  {
    if s != [] {
      var front := s[..|s| - 1];
      KeepIdempotent(front, p);
      if p(s[|s| - 1]) {
        var k := Keep(front, p) + [s[|s| - 1]];
        assert k[..|k| - 1] == Keep(front, p);
      }
    }
  }

  /** Filtering a ranked list leaves it ranked. */
  lemma {:induction false} KeepSorted(s: seq<AppWindow>, p: AppWindow -> bool)
    requires SortedDesc(s)
    ensures SortedDesc(Keep(s, p))
  {
    if s != [] {
      var front := s[..|s| - 1];
      KeepSorted(front, p);
      KeepMembers(front, p);
      var k := Keep(front, p);
      forall a | 0 <= a < |k| ensures k[a].visibleArea >= s[|s| - 1].visibleArea {
        assert k[a] in front;
      }
    }
  }

  /** The cycling list keeps windows with some visible area. */
  predicate Shown(w: AppWindow) { w.visibleArea > 0 }

  /** The erase/remove_if pass: the windows that are shown, in list order. */
  method KeepShown(all: seq<AppWindow>) returns (app: seq<AppWindow>)
    ensures app == Keep(all, Shown)
  {
    app := [];
    for i := 0 to |all|
      invariant app == Keep(all[..i], Shown)
    {
      assert all[..i + 1][..i] == all[..i];
      if all[i].visibleArea > 0 {
        app := app + [all[i]];
      }
    }
    assert all[..|all|] == all;
  }

  // ---------------------------------------------------------------------
  // Title search

  /** Lower-casing, for the letters A to Z. */
  function LowerChar(c: char): (d: char)
    ensures 'A' <= c <= 'Z' ==> d as int == c as int + 32
    ensures !('A' <= c <= 'Z') ==> d == c
    ensures !('A' <= d <= 'Z')
  {
    if 'A' <= c <= 'Z' then (c as int + 32) as char else c
  }

  function Lower(s: string): (t: string)
    ensures |t| == |s| && forall k :: 0 <= k < |s| ==> t[k] == LowerChar(s[k])
  {
    seq(|s|, k requires 0 <= k < |s| => LowerChar(s[k]))
  }

  lemma LowerIdempotent(s: string)
    ensures Lower(Lower(s)) == Lower(s)
  {
  }

  /** Substring search, scanning start positions left to right. */
  function Contains(t: string, q: string): bool
    decreases |t|
  {
    |q| <= |t| && (t[..|q|] == q || Contains(t[1..], q))
  }

  /** q occurs in t starting at position i. */
  predicate OccursAt(t: string, q: string, i: int) {
    0 <= i <= |t| - |q| && t[i..i + |q|] == q
  }

  /** The scan finds q exactly when q occurs at some position of t. */
  lemma ContainsSpec(t: string, q: string)
    ensures Contains(t, q) <==> exists i :: OccursAt(t, q, i)
  {
    if Contains(t, q) {
      var i := ContainsWitness(t, q);
    } else {
      forall i ensures !OccursAt(t, q, i) {
        if OccursAt(t, q, i) {
          OccursContains(t, q, i);
        }
      }
    }
  }

  /** Where the scan stops: the first position at which q occurs. */
  lemma {:induction false} ContainsWitness(t: string, q: string) returns (i: int)
    requires Contains(t, q)
    ensures OccursAt(t, q, i)
    decreases |t|
  {
    if t[..|q|] == q {
      i := 0;
    } else {
      var j := ContainsWitness(t[1..], q);
      assert t[1..][j..j + |q|] == t[j + 1..j + 1 + |q|];
      i := j + 1;
    }
  }

  /** An occurrence anywhere is found by the scan. */
  lemma {:induction false} OccursContains(t: string, q: string, i: int)
    requires OccursAt(t, q, i)
    ensures Contains(t, q)
    decreases |t|
  {
    if i > 0 {
      assert t[1..][i - 1..i - 1 + |q|] == t[i..i + |q|];
      OccursContains(t[1..], q, i - 1);
    }
  }

  /** The search test: the lower-cased title contains the lower-cased query. */
  function TitleMatches(query: string): AppWindow -> bool {
    (w: AppWindow) => Contains(Lower(w.title), Lower(query))
  }

  /** The test ignores the case of the query's letters. */
  lemma TitleMatchesIgnoresCase(query: string, w: AppWindow)
    ensures TitleMatches(query)(w) == TitleMatches(Lower(query))(w)
  {
    LowerIdempotent(query);
  }

  /** An empty query matches every window. */
  lemma EmptyQueryMatchesAll(w: AppWindow)
    ensures TitleMatches("")(w)
  {
    assert Lower(w.title)[..0] == "";
  }

  /** One refill loop of the search: the windows of the list whose titles
      match, in list order. */
  method FilterByTitle(ws: seq<AppWindow>, query: string) returns (out: seq<AppWindow>)
    ensures out == Keep(ws, TitleMatches(query))
  {
    var q := Lower(query);
    out := [];
    for i := 0 to |ws|
      invariant out == Keep(ws[..i], TitleMatches(query))
    {
      assert ws[..i + 1][..i] == ws[..i];
      if Contains(Lower(ws[i].title), q) {
        out := out + [ws[i]];
      }
    }
    assert ws[..|ws|] == ws;
  }

  // ---------------------------------------------------------------------
  // The whole enumeration

  /** The four lists the enumeration fills. */
  datatype Enumeration = Enumeration(all: seq<AppWindow>, app: seq<AppWindow>,
                                     allMinimized: seq<AppWindow>, minimized: seq<AppWindow>)

  /** Enumerate, measure, rank and split: the full list is the collected
      windows with their visible areas, most visible first; the cycling list
      is its shown part in the same order; both minimized lists are the
      collected minimized windows. */
  method EnumerateAppWindows(snapshot: seq<WindowInfo>, own: set<int>) returns (e: Enumeration)
    ensures var c := Collected(snapshot, own);
      multiset(e.all) == multiset(WithVisibleAreas(c.normal)) && SortedDesc(e.all) &&
      e.app == Keep(e.all, Shown) && SortedDesc(e.app) &&
      e.allMinimized == c.minimized && e.minimized == c.minimized
  {
    var normal, minimized := CollectWindows(snapshot, own);
    var measured := ComputeVisibleAreas(normal);
    var all := SortByVisibleArea(measured);
    var app := KeepShown(all);
    KeepSorted(all, Shown);
    e := Enumeration(all, app, minimized, minimized);
  }
}
