/** What the reactors say about a line and the form the renderer reads it in (decoration.h,
    decoration.cpp): nested, overlapping spans swept into one flat list. What the sweep has to show at an
    offset is what painting every span in the order it was emitted shows there: the last that covers it.
    The flat list for that is unique, and so is the stable sort of the texts beside it. */
module Decorating {
  /** A half-open range of the buffer and its style; style 0 is "no style". */
  datatype Span = Span(start: nat, end: nat, style: nat) {
    predicate Covers(x: nat) {
      start <= x < end
    }
  }

  datatype VirtualText = VirtualText(at: nat, bytes: string, style: nat)

  /** One reactor's last word. */
  datatype Layer = Layer(reactor: string, spans: seq<Span>, texts: seq<VirtualText>)

  // ----- what is meant: paint in order and look -----

  function Emitted(layers: seq<Layer>): seq<Span> {
    if layers == [] then [] else Emitted(layers[..|layers| - 1]) + layers[|layers| - 1].spans
  }

  /** The style seen at an offset after painting every span in turn. */
  function Look(spans: seq<Span>, x: nat): nat {
    if spans == [] then 0
    else
      var last := spans[|spans| - 1];
      if last.style != 0 && last.Covers(x) then last.style else Look(spans[..|spans| - 1], x)
  }

  /** Two neighbours the renderer could not tell from one span. */
  predicate Seam(a: Span, b: Span) {
    a.end == b.start && a.style == b.style
  }

  /** Sorted, non-empty, disjoint and merged wherever two spans could be one. */
  ghost predicate Tidy(spans: seq<Span>) {
    && (forall i :: 0 <= i < |spans| ==> spans[i].start < spans[i].end && spans[i].style != 0)
    && (forall i, j :: 0 <= i < j < |spans| ==> spans[i].end <= spans[j].start && !Seam(spans[i], spans[j]))
  }

  ghost predicate CoveredBy(spans: seq<Span>, x: nat) {
    exists i :: 0 <= i < |spans| && spans[i].Covers(x)
  }

  /** Each span shows what painting shows, and nothing painted below the limit is missing. */
  ghost predicate Shows(painted: seq<Span>, spans: seq<Span>, limit: nat) {
    && (forall i, x: nat :: 0 <= i < |painted| && painted[i].Covers(x) ==> painted[i].style == Look(spans, x))
    && (forall x: nat :: x < limit && Look(spans, x) != 0 ==> CoveredBy(painted, x))
  }

  /** The renderer's list: tidy, and at every offset what painting in order shows. */
  ghost predicate Normal(painted: seq<Span>, spans: seq<Span>) {
    && Tidy(painted)
    && (forall i, x: nat :: 0 <= i < |painted| && painted[i].Covers(x) ==> painted[i].style == Look(spans, x))
    && (forall x: nat :: Look(spans, x) != 0 ==> CoveredBy(painted, x))
  }

  /** There is only one such list: what is rendered depends on nothing but what painting shows. */
  lemma NormalIsUnique(a: seq<Span>, b: seq<Span>, left: seq<Span>, right: seq<Span>)
    requires Normal(a, left) && Normal(b, right)
    requires forall x: nat :: Look(left, x) == Look(right, x)
    ensures a == b
  {
    hide Look;
    var k := 0;
    while k < |a| && k < |b| && a[k] == b[k]
      invariant k <= |a| && k <= |b| && a[..k] == b[..k]
    {
      k := k + 1;
    }
    if k < |a| { GoesOn(a, b, left, right, k); }
    if k < |b| { GoesOn(b, a, right, left, k); }
    if k < |a| { SameSpan(a, b, left, right, k); }
  }

  /** A list does not end while the other still shows something. */
  lemma GoesOn(a: seq<Span>, b: seq<Span>, left: seq<Span>, right: seq<Span>, k: nat)
    requires Normal(a, left) && Normal(b, right)
    requires forall x: nat :: Look(left, x) == Look(right, x)
    requires k < |a| && k <= |b| && a[..k] == b[..k]
    ensures k < |b|
  {
    hide Look;
    var x := a[k].start;
    assert a[k].Covers(x) && CoveredBy(b, x);
    var i :| 0 <= i < |b| && b[i].Covers(x);
    assert forall j :: 0 <= j < k ==> a[j] == a[..k][j] == b[..k][j] == b[j];
  }

  /** Behind equal spans both lists go on at the same offset. */
  lemma StartsNoLater(a: seq<Span>, b: seq<Span>, left: seq<Span>, right: seq<Span>, k: nat)
    requires Normal(a, left) && Normal(b, right)
    requires forall x: nat :: Look(left, x) == Look(right, x)
    requires k < |a| && k < |b| && a[..k] == b[..k]
    ensures b[k].start <= a[k].start
  {
    hide Look;
    var x := a[k].start;
    assert a[k].Covers(x) && CoveredBy(b, x);
    var i :| 0 <= i < |b| && b[i].Covers(x);
    assert forall j :: 0 <= j < k ==> a[j] == a[..k][j] == b[..k][j] == b[j];
    assert i > k ==> b[k].end <= b[i].start;
  }

  /** Where a span ends the look changes. */
  lemma LookChanges(a: seq<Span>, left: seq<Span>, k: nat)
    requires Normal(a, left) && k < |a|
    ensures Look(left, a[k].start) != Look(left, a[k].end)
  {
    hide Look;
    var x := a[k].end;
    assert a[k].Covers(a[k].start);
    if i :| 0 <= i < |a| && a[i].Covers(x) {
      assert forall j :: 0 <= j < k ==> a[j].end <= a[k].start;
      assert a[i].start == a[k].end && !Seam(a[k], a[i]);
    }
  }

  lemma EndsNoEarlier(a: seq<Span>, b: seq<Span>, left: seq<Span>, right: seq<Span>, k: nat)
    requires Normal(a, left) && Normal(b, right)
    requires forall x: nat :: Look(left, x) == Look(right, x)
    requires k < |a| && k < |b| && a[k].start == b[k].start
    ensures b[k].end <= a[k].end
  {
    hide Look;
    LookChanges(a, left, k);
    assert b[k].Covers(b[k].start);
    assert forall x: nat :: b[k].Covers(x) ==> Look(right, x) == b[k].style;
  }

  lemma SameSpan(a: seq<Span>, b: seq<Span>, left: seq<Span>, right: seq<Span>, k: nat)
    requires Normal(a, left) && Normal(b, right)
    requires forall x: nat :: Look(left, x) == Look(right, x)
    requires k < |a| && k < |b| && a[..k] == b[..k]
    ensures a[k] == b[k]
  {
    hide Look;
    StartsNoLater(a, b, left, right, k);
    StartsNoLater(b, a, right, left, k);
    EndsNoEarlier(a, b, left, right, k);
    EndsNoEarlier(b, a, right, left, k);
    var x := a[k].start;
    assert a[k].Covers(x) && b[k].Covers(x);
    assert a[k].style == Look(left, x) == Look(right, x) == b[k].style;
  }

  /** A span that paints something. */
  predicate Says(s: Span) {
    s.start < s.end && s.style != 0
  }

  /** The spans that enter the sweep. */
  function Flat(spans: seq<Span>): (flat: seq<Span>)
    ensures forall i :: 0 <= i < |flat| ==> Says(flat[i])
  {
    if spans == [] then []
    else
      var last := spans[|spans| - 1];
      Flat(spans[..|spans| - 1]) + if Says(last) then [last] else []
  }

  lemma {:induction false} FlatLooksTheSame(spans: seq<Span>, x: nat)
    ensures Look(Flat(spans), x) == Look(spans, x)
  {
    if spans != [] {
      var init, last := spans[..|spans| - 1], spans[|spans| - 1];
      FlatLooksTheSame(init, x);
      if Says(last) {
        assert (Flat(init) + [last])[..|Flat(init)|] == Flat(init);
      } else {
        assert Flat(init) + [] == Flat(init);
      }
    }
  }

  /** The last span over an offset is the one seen. */
  lemma {:induction false} LookIsLast(flat: seq<Span>, w: nat, x: nat)
    requires w < |flat| && flat[w].Covers(x) && flat[w].style != 0
    requires forall j :: w < j < |flat| ==> !flat[j].Covers(x)
    ensures Look(flat, x) == flat[w].style
    decreases |flat|
  {
    if w < |flat| - 1 {
      LookIsLast(flat[..|flat| - 1], w, x);
    }
  }

  lemma {:induction false} LookIsNothing(flat: seq<Span>, x: nat)
    requires forall j :: 0 <= j < |flat| ==> !flat[j].Covers(x)
    ensures Look(flat, x) == 0
    decreases |flat|
  {
    if flat != [] {
      LookIsNothing(flat[..|flat| - 1], x);
    }
  }

  // ----- the edges -----

  /** One end of one span; `which` is its place in emission order. */
  datatype Edge = Edge(at: nat, which: nat, opening: bool)

  predicate Before(a: Edge, b: Edge) {
    if a.at != b.at then a.at < b.at else !a.opening && b.opening
  }

  ghost predicate Ordered(edges: seq<Edge>) {
    forall j, k :: 0 <= j < k < |edges| ==> !Before(edges[k], edges[j])
  }

  function EdgeOf(flat: seq<Span>, w: nat, opening: bool): Edge
    requires w < |flat|
  {
    Edge(if opening then flat[w].start else flat[w].end, w, opening)
  }

  /** Both ends of the first `n` spans, each once. */
  ghost predicate EdgesUpTo(edges: seq<Edge>, flat: seq<Span>, n: nat)
    requires n <= |flat|
  {
    && (forall k :: 0 <= k < |edges| ==>
      edges[k].which < n && edges[k] == EdgeOf(flat, edges[k].which, edges[k].opening))
    && (forall w: nat, opening :: 0 <= w < n ==> EdgeOf(flat, w, opening) in edges)
    && (forall j, k :: 0 <= j < k < |edges| ==> edges[j] != edges[k])
  }

  ghost predicate EdgesOf(edges: seq<Edge>, flat: seq<Span>) {
    EdgesUpTo(edges, flat, |flat|)
  }

  lemma AddEdges(edges: seq<Edge>, flat: seq<Span>, n: nat)
    requires n < |flat| && EdgesUpTo(edges, flat, n)
    ensures EdgesUpTo(edges + [EdgeOf(flat, n, true), EdgeOf(flat, n, false)], flat, n + 1)
  {
    var more := edges + [EdgeOf(flat, n, true), EdgeOf(flat, n, false)];
    assert more[|edges|] == EdgeOf(flat, n, true) && more[|edges| + 1] == EdgeOf(flat, n, false);
    forall w: nat, opening | w < n
      ensures EdgeOf(flat, w, opening) in more
    {
      assert EdgeOf(flat, w, opening) in edges;
    }
  }

  lemma OrderedAt(edges: seq<Edge>, j: nat, k: nat)
    requires Ordered(edges) && j <= k < |edges|
    ensures edges[j].at <= edges[k].at
  {
    assert j < k ==> !Before(edges[k], edges[j]);
  }

  lemma OnceEach<T>(s: seq<T>, x: T)
    requires forall j, k :: 0 <= j < k < |s| ==> s[j] != s[k]
    ensures multiset(s)[x] <= 1
  {
    if s != [] {
      OnceEach(s[1..], x);
      assert s == [s[0]] + s[1..];
    }
  }

  lemma TwiceIsTwo<T>(s: seq<T>, i: nat, j: nat)
    requires i < j < |s| && s[i] == s[j]
    ensures multiset(s)[s[i]] >= 2
  {
    assert s == s[..i] + [s[i]] + s[i + 1..j] + [s[j]] + s[j + 1..];
  }

  lemma SortedEdges(edges: seq<Edge>, sorted: seq<Edge>, flat: seq<Span>)
    requires EdgesOf(edges, flat) && multiset(sorted) == multiset(edges)
    ensures EdgesOf(sorted, flat) && (flat != [] ==> sorted != [])
  {
    forall k | 0 <= k < |sorted|
      ensures sorted[k].which < |flat| && sorted[k] == EdgeOf(flat, sorted[k].which, sorted[k].opening)
    {
      assert sorted[k] in multiset(sorted);
      assert sorted[k] in edges;
    }
    forall w: nat, opening | 0 <= w < |flat|
      ensures EdgeOf(flat, w, opening) in sorted
    {
      assert EdgeOf(flat, w, opening) in multiset(edges);
    }
    assert flat != [] ==> EdgeOf(flat, 0, true) in sorted;
    forall j, k | 0 <= j < k < |sorted|
      ensures sorted[j] != sorted[k]
    {
      OnceEach(edges, sorted[j]);
      if sorted[j] == sorted[k] {
        TwiceIsTwo(sorted, j, k);
      }
    }
  }

  /** `std::sort`: the order is all it promises. */
  method SortEdges(edges: seq<Edge>) returns (sorted: seq<Edge>)
    ensures multiset(sorted) == multiset(edges) && Ordered(sorted)
  {
    hide Ordered, Before;
    sorted := [];
    var k := 0;
    assert Ordered([]) by { NothingOrdered(); }
    while k < |edges|
      invariant k <= |edges| && multiset(sorted) == multiset(edges[..k]) && Ordered(sorted)
    {
      var e, i := edges[k], |sorted|;
      while i > 0 && Before(e, sorted[i - 1])
        invariant 0 <= i <= |sorted| && forall j :: i <= j < |sorted| ==> Before(e, sorted[j])
      {
        i := i - 1;
      }
      assert edges[..k + 1] == edges[..k] + [e];
      InsertCounts(sorted, i, e);
      InsertOrdered(sorted, i, e);
      sorted := sorted[..i] + [e] + sorted[i..];
      k := k + 1;
    }
    assert edges[..k] == edges;
  }

  lemma NothingOrdered()
    ensures Ordered([])
  {
  }

  lemma InsertCounts(s: seq<Edge>, i: nat, e: Edge)
    requires i <= |s|
    ensures multiset(s[..i] + [e] + s[i..]) == multiset(s) + multiset{e}
  {
    assert s == s[..i] + s[i..];
  }

  lemma InsertOrdered(sorted: seq<Edge>, i: nat, e: Edge)
    requires Ordered(sorted) && i <= |sorted|
    requires forall j :: i <= j < |sorted| ==> Before(e, sorted[j])
    requires i > 0 ==> !Before(e, sorted[i - 1])
    ensures Ordered(sorted[..i] + [e] + sorted[i..])
  {
    var s := sorted[..i] + [e] + sorted[i..];
    forall j, k | 0 <= j < k < |s|
      ensures !Before(s[k], s[j])
    {
      if k == i {
        assert !Before(sorted[i - 1], sorted[j]) || j == i - 1;
      } else {
        var jj, kk := if j <= i then j else j - 1, if k < i then k else k - 1;
        assert j != i ==> s[j] == sorted[jj] && s[k] == sorted[kk];
      }
    }
  }

  // ----- the open set -----

  ghost predicate OpenAfter(flat: seq<Span>, edges: seq<Edge>, k: nat, w: nat)
    requires k <= |edges|
  {
    && w < |flat|
    && EdgeOf(flat, w, true) in edges[..k]
    && EdgeOf(flat, w, false) !in edges[..k]
  }

  ghost predicate Distinct(active: seq<nat>) {
    forall i, j :: 0 <= i < j < |active| ==> active[i] != active[j]
  }

  /** `active` is the set of spans open after the first `k` edges. */
  ghost predicate ActiveIs(active: seq<nat>, flat: seq<Span>, edges: seq<Edge>, k: nat)
    requires k <= |edges|
  {
    && Distinct(active)
    && (forall w: nat :: w in active <==> OpenAfter(flat, edges, k, w))
  }

  /** Between two offsets that hold edges, the open spans are those that cover the interval. */
  lemma OpenIsCovering(flat: seq<Span>, edges: seq<Edge>, k: nat, w: nat, x: nat)
    requires EdgesOf(edges, flat) && k <= |edges|
    requires forall j :: 0 <= j < k ==> edges[j].at <= x
    requires forall j :: k <= j < |edges| ==> x < edges[j].at
    ensures OpenAfter(flat, edges, k, w) <==> w < |flat| && flat[w].Covers(x)
  {
    if w < |flat| {
      InFirst(edges, k, x, EdgeOf(flat, w, true));
      InFirst(edges, k, x, EdgeOf(flat, w, false));
    }
  }

  lemma InFirst(edges: seq<Edge>, k: nat, x: nat, e: Edge)
    requires k <= |edges| && e in edges
    requires forall j :: 0 <= j < k ==> edges[j].at <= x
    requires forall j :: k <= j < |edges| ==> x < edges[j].at
    ensures e in edges[..k] <==> e.at <= x
  {
    var i :| 0 <= i < |edges| && edges[i] == e;
    if i < k {
      assert edges[..k][i] == e;
    }
  }

  /** What an edge does to the open set: an opening edge adds its span. */
  lemma OpeningStep(flat: seq<Span>, edges: seq<Edge>, k: nat, active: seq<nat>)
    requires EdgesOf(edges, flat) && Ordered(edges) && k < |edges| && edges[k].opening
    requires forall i :: 0 <= i < |flat| ==> Says(flat[i])
    requires ActiveIs(active, flat, edges, k)
    ensures ActiveIs(active + [edges[k].which], flat, edges, k + 1)
  {
    var v := edges[k].which;
    assert edges[..k + 1] == edges[..k] + [edges[k]];
    assert edges[k] !in edges[..k];
    assert v !in active;
    var closing := EdgeOf(flat, v, false);
    assert Before(edges[k], closing) && forall i :: 0 <= i < k ==> !Before(edges[k], edges[i]);
    forall w: nat
      ensures OpenAfter(flat, edges, k + 1, w) <==> w == v || OpenAfter(flat, edges, k, w)
    {
      if w < |flat| && w != v {
        assert EdgeOf(flat, w, true) != edges[k] && EdgeOf(flat, w, false) != edges[k];
      }
    }
  }

  /** A closing edge takes its span out, and finds it there. */
  lemma ClosingStep(flat: seq<Span>, edges: seq<Edge>, k: nat, active: seq<nat>, i: nat)
    requires EdgesOf(edges, flat) && Ordered(edges) && k < |edges| && !edges[k].opening
    requires ActiveIs(active, flat, edges, k)
    requires i < |active| && active[i] == edges[k].which
    ensures ActiveIs(active[..i] + active[i + 1..], flat, edges, k + 1)
  {
    var v, left := edges[k].which, active[..i] + active[i + 1..];
    assert edges[..k + 1] == edges[..k] + [edges[k]];
    forall w: nat
      ensures OpenAfter(flat, edges, k + 1, w) <==> w != v && OpenAfter(flat, edges, k, w)
    {
      if w < |flat| && w != v {
        assert EdgeOf(flat, w, false) != edges[k] && EdgeOf(flat, w, true) != edges[k];
      }
    }
    Removed(active, i);
  }

  lemma Removed(active: seq<nat>, i: nat)
    requires Distinct(active) && i < |active|
    ensures var left := active[..i] + active[i + 1..];
      Distinct(left) && forall w: nat :: w in left <==> w in active && w != active[i]
  {
    var left := active[..i] + active[i + 1..];
    forall w: nat | w in active && w != active[i]
      ensures w in left
    {
      var j :| 0 <= j < |active| && active[j] == w;
      assert left[if j < i then j else j - 1] == w;
    }
  }

  lemma ClosingFindsOpen(flat: seq<Span>, edges: seq<Edge>, k: nat, active: seq<nat>)
    requires EdgesOf(edges, flat) && Ordered(edges) && k < |edges| && !edges[k].opening
    requires forall i :: 0 <= i < |flat| ==> Says(flat[i])
    requires ActiveIs(active, flat, edges, k)
    ensures edges[k].which in active
  {
    var v := edges[k].which;
    var opening := EdgeOf(flat, v, true);
    var i :| 0 <= i < |edges| && edges[i] == opening;
    if i > k {
      assert Before(edges[i], edges[k]);
    }
    assert edges[..k][i] == opening;
    assert edges[k] !in edges[..k];
  }

  function Highest(active: seq<nat>): (m: nat)
    requires active != []
    ensures m in active && forall w: nat :: w in active ==> w <= m
  {
    if |active| == 1 then active[0]
    else
      var m := Highest(active[1..]);
      assert forall w: nat :: w in active ==> w == active[0] || w in active[1..];
      if active[0] > m then active[0] else m
  }

  /** What painting shows between the edges: the last emitted of the open spans. */
  lemma LookBetween(flat: seq<Span>, edges: seq<Edge>, k: nat, active: seq<nat>, x: nat)
    requires EdgesOf(edges, flat) && k <= |edges| && ActiveIs(active, flat, edges, k)
    requires forall i :: 0 <= i < |flat| ==> Says(flat[i])
    requires forall j :: 0 <= j < k ==> edges[j].at <= x
    requires forall j :: k <= j < |edges| ==> x < edges[j].at
    ensures active == [] ==> Look(flat, x) == 0
    ensures active != [] ==> Highest(active) < |flat| && Look(flat, x) == flat[Highest(active)].style
  {
    hide EdgesOf, Look, OpenAfter;
    forall w: nat
      ensures w in active <==> w < |flat| && flat[w].Covers(x)
    {
      OpenIsCovering(flat, edges, k, w, x);
    }
    if active == [] {
      LookIsNothing(flat, x);
    } else {
      LookIsLast(flat, Highest(active), x);
    }
  }

  // ----- painting an interval -----

  /** Painted up to an offset. */
  ghost predicate PaintedTo(painted: seq<Span>, flat: seq<Span>, limit: nat) {
    && Tidy(painted) && Shows(painted, flat, limit)
    && forall i :: 0 <= i < |painted| ==> painted[i].end <= limit
  }

  function Paint(painted: seq<Span>, previous: nat, at: nat, style: nat): seq<Span> {
    var n := |painted|;
    if n > 0 && painted[n - 1].end == previous && painted[n - 1].style == style then
      painted[..n - 1] + [painted[n - 1].(end := at)]
    else painted + [Span(previous, at, style)]
  }

  lemma PaintTidy(painted: seq<Span>, previous: nat, at: nat, style: nat)
    requires Tidy(painted) && previous < at && style != 0
    requires forall i :: 0 <= i < |painted| ==> painted[i].end <= previous
    ensures var p := Paint(painted, previous, at, style);
      Tidy(p) && forall i :: 0 <= i < |p| ==> p[i].end <= at
  {
    var n, p := |painted|, Paint(painted, previous, at, style);
    forall i, j | 0 <= i < j < |p|
      ensures p[i].end <= p[j].start && !Seam(p[i], p[j])
    {
      if j < n {
        assert painted[i].end <= painted[j].start && !Seam(painted[i], painted[j]);
      } else if i < n - 1 {
        assert painted[i].end <= painted[n - 1].start && painted[n - 1].start < painted[n - 1].end;
      }
    }
  }

  lemma PaintCovers(painted: seq<Span>, previous: nat, at: nat, style: nat, x: nat)
    requires Tidy(painted) && previous < at
    requires forall i :: 0 <= i < |painted| ==> painted[i].end <= previous
    ensures CoveredBy(painted, x) || previous <= x < at ==> CoveredBy(Paint(painted, previous, at, style), x)
  {
    var n, p := |painted|, Paint(painted, previous, at, style);
    if previous <= x < at {
      assert p[|p| - 1].Covers(x);
    } else if CoveredBy(painted, x) {
      var i :| 0 <= i < n && painted[i].Covers(x);
      assert p[i].Covers(x);
    }
  }

  /** The interval `[previous, at)` shows one style. */
  lemma PaintStep(painted: seq<Span>, flat: seq<Span>, previous: nat, at: nat, style: nat)
    requires PaintedTo(painted, flat, previous) && previous < at
    requires forall x: nat :: previous <= x < at ==> Look(flat, x) == style
    ensures PaintedTo(if style == 0 then painted else Paint(painted, previous, at, style), flat, at)
  {
    hide Look, Tidy, Paint, CoveredBy;
    var p := if style == 0 then painted else Paint(painted, previous, at, style);
    if style != 0 {
      PaintTidy(painted, previous, at, style);
      forall i, x: nat | 0 <= i < |p| && p[i].Covers(x)
        ensures p[i].style == Look(flat, x)
      {
        PaintOnly(painted, previous, at, style, i, x);
      }
      forall x: nat | x < at && Look(flat, x) != 0
        ensures CoveredBy(p, x)
      {
        PaintCovers(painted, previous, at, style, x);
      }
    }
  }

  lemma PaintOnly(painted: seq<Span>, previous: nat, at: nat, style: nat, i: nat, x: nat)
    requires previous < at && i < |Paint(painted, previous, at, style)|
    requires Paint(painted, previous, at, style)[i].Covers(x)
    ensures var p := Paint(painted, previous, at, style)[i];
      (previous <= x < at && p.style == style) || (i < |painted| && painted[i].Covers(x) && painted[i].style == p.style)
  {
  }

  /** Later wins: a batch painted on top shows wherever it says anything. */
  lemma {:induction false} LaterWins(under: seq<Span>, over: seq<Span>, x: nat)
    ensures Look(under + over, x) == if Look(over, x) != 0 then Look(over, x) else Look(under, x)
    decreases |over|
  {
    if over == [] {
      assert under + over == under;
    } else {
      var init := over[..|over| - 1];
      assert (under + over)[..|under + over| - 1] == under + init;
      LaterWins(under, init, x);
    }
  }

  // ----- texts, by offset and then as emitted -----

  function Drawn(texts: seq<VirtualText>): seq<VirtualText> {
    if texts == [] then []
    else Drawn(texts[..|texts| - 1]) + if texts[|texts| - 1].bytes == [] then [] else [texts[|texts| - 1]]
  }

  function AllTexts(layers: seq<Layer>): seq<VirtualText> {
    if layers == [] then [] else AllTexts(layers[..|layers| - 1]) + layers[|layers| - 1].texts
  }

  function At(texts: seq<VirtualText>, a: nat): seq<VirtualText> {
    if texts == [] then []
    else (if texts[0].at == a then [texts[0]] else []) + At(texts[1..], a)
  }

  ghost predicate SortedTo(texts: seq<VirtualText>, n: nat)
    requires n <= |texts|
  {
    forall i, j :: 0 <= i < j < n ==> texts[i].at <= texts[j].at
  }

  /** Sorted by offset, and at each offset the same texts in the same order. */
  ghost predicate StableSortOf(sorted: seq<VirtualText>, texts: seq<VirtualText>) {
    SortedTo(sorted, |sorted|) && forall a: nat :: At(sorted, a) == At(texts, a)
  }

  lemma {:induction false} AtJoin(s: seq<VirtualText>, t: seq<VirtualText>, a: nat)
    ensures At(s + t, a) == At(s, a) + At(t, a)
  {
    if s == [] {
      assert s + t == t;
    } else {
      var head := if s[0].at == a then [s[0]] else [];
      assert (s + t)[1..] == s[1..] + t;
      AtJoin(s[1..], t, a);
      assert head + (At(s[1..], a) + At(t, a)) == head + At(s[1..], a) + At(t, a);
    }
  }

  lemma {:induction false} AtNothing(s: seq<VirtualText>, a: nat)
    requires forall i :: 0 <= i < |s| ==> a != s[i].at
    ensures At(s, a) == []
  {
    if s != [] {
      AtNothing(s[1..], a);
    }
  }

  /** Sorted but for the element on its way down, which everything it passed is behind. */
  ghost predicate SortedBut(texts: seq<VirtualText>, j: nat, n: nat)
    requires j < n <= |texts|
  {
    && (forall p, q :: 0 <= p < q < n && p != j && q != j ==> texts[p].at <= texts[q].at)
    && (forall q :: j < q < n ==> texts[j].at < texts[q].at)
  }

  lemma SwapSorts(texts: seq<VirtualText>, j: nat, n: nat)
    requires 0 < j < n <= |texts| && SortedBut(texts, j, n) && texts[j].at < texts[j - 1].at
    ensures SortedBut(Swapped(texts, j), j - 1, n)
  {
  }

  lemma SettledSorts(texts: seq<VirtualText>, j: nat, n: nat)
    requires j < n <= |texts| && SortedBut(texts, j, n) && (j > 0 ==> texts[j - 1].at <= texts[j].at)
    ensures SortedTo(texts, n)
  {
    forall p, q | 0 <= p < q < n
      ensures texts[p].at <= texts[q].at
    {
      if q == j && p < j - 1 {
        assert texts[p].at <= texts[j - 1].at;
      }
    }
  }

  /** There is only one stable sort. */
  lemma {:induction false} StableSortIsUnique(s: seq<VirtualText>, t: seq<VirtualText>)
    requires SortedTo(s, |s|) && SortedTo(t, |t|) && forall a: nat :: At(s, a) == At(t, a)
    ensures s == t
  {
    if s == [] || t == [] {
      if s != [] { assert At(t, s[0].at) == []; }
      if t != [] { assert At(s, t[0].at) == []; }
    } else {
      HeadsAgree(s, t);
      HeadsAgree(t, s);
      assert At(s, s[0].at)[0] == s[0] && At(t, t[0].at)[0] == t[0];
      assert s[0] == t[0];
      forall a: nat
        ensures At(s[1..], a) == At(t[1..], a)
      {
        var h := if s[0].at == a then [s[0]] else [];
        assert At(s, a) == h + At(s[1..], a) && At(t, a) == h + At(t[1..], a);
        assert At(s[1..], a) == At(s, a)[|h|..] && At(t[1..], a) == At(t, a)[|h|..];
      }
      StableSortIsUnique(s[1..], t[1..]);
    }
  }

  lemma HeadsAgree(s: seq<VirtualText>, t: seq<VirtualText>)
    requires s != [] && t != [] && SortedTo(t, |t|) && At(s, s[0].at) == At(t, s[0].at)
    ensures t[0].at <= s[0].at
  {
    if s[0].at < t[0].at {
      AtNothing(t, s[0].at);
    }
  }

  function Swapped(texts: seq<VirtualText>, j: nat): (s: seq<VirtualText>)
    requires 0 < j < |texts|
    ensures |s| == |texts| && s[j - 1] == texts[j] && s[j] == texts[j - 1]
  {
    texts[j := texts[j - 1]][j - 1 := texts[j]]
  }

  /** Neighbours at different offsets may trade places. */
  lemma SwapKeeps(texts: seq<VirtualText>, j: nat, a: nat)
    requires 0 < j < |texts| && texts[j].at != texts[j - 1].at
    ensures At(Swapped(texts, j), a) == At(texts, a)
  {
    var front, back, u, v := texts[..j - 1], texts[j + 1..], texts[j - 1], texts[j];
    assert texts == front + ([u] + ([v] + back));
    assert Swapped(texts, j) == front + ([v] + ([u] + back));
    AtJoin(front, [u] + ([v] + back), a);
    AtJoin(front, [v] + ([u] + back), a);
    AtJoin([u], [v] + back, a);
    AtJoin([v], [u] + back, a);
    AtJoin([v], back, a);
    AtJoin([u], back, a);
    assert At([], a) == [] && [u][1..] == [] && [v][1..] == [];
    assert At([u], a) == [] || At([v], a) == [];
  }

  // ----- the layers -----

  /** The layer of a reactor, or the number of layers. */
  function IndexOf(layers: seq<Layer>, reactor: string): (i: nat)
    ensures i <= |layers|
    ensures i < |layers| ==> layers[i].reactor == reactor
    ensures forall j :: 0 <= j < i ==> layers[j].reactor != reactor
  {
    if layers == [] || layers[0].reactor == reactor then 0 else 1 + IndexOf(layers[1..], reactor)
  }

  /** One layer a reactor. */
  ghost predicate OneEach(layers: seq<Layer>) {
    forall i, j :: 0 <= i < j < |layers| ==> layers[i].reactor != layers[j].reactor
  }

  class Decorations {
    var layers: seq<Layer>
    var painted: seq<Span>
    var texts: seq<VirtualText>
    // The sweep's working memory.
    var flat: seq<Span>
    var edges: seq<Edge>
    var active: seq<nat>

    /** The two lists are always the normal forms of what the layers say. */
    ghost predicate Valid()
      reads this
    {
      && OneEach(layers)
      && Normal(painted, Emitted(layers))
      && StableSortOf(texts, Drawn(AllTexts(layers)))
    }

    constructor ()
      ensures Valid() && layers == []
    {
      layers, painted, texts, flat, edges, active := [], [], [], [], [], [];
    }

    /** A batch replaces what its reactor said, where it said it, and touches no other layer; the old
        batch goes back out. */
    method Apply(reactor: string, spans: seq<Span>, drawn: seq<VirtualText>)
      returns (oldSpans: seq<Span>, oldTexts: seq<VirtualText>)
      requires Valid()
      modifies this
      ensures Valid()
      ensures var i, batch := IndexOf(old(layers), reactor), Layer(reactor, spans, drawn);
        if i < |old(layers)| then
          layers == old(layers)[i := batch] && oldSpans == old(layers)[i].spans && oldTexts == old(layers)[i].texts
        else layers == old(layers) + [batch] && oldSpans == [] && oldTexts == []
    {
      hide Normal, StableSortOf, Emitted, Drawn, AllTexts;
      var i := 0;
      while i < |layers|
        invariant i <= |layers| && unchanged(this)
        invariant forall j :: 0 <= j < i ==> layers[j].reactor != reactor
      {
        if layers[i].reactor == reactor {
          oldSpans, oldTexts := layers[i].spans, layers[i].texts;
          layers := layers[i := Layer(reactor, spans, drawn)];
          Rebuild();
          return;
        }
        i := i + 1;
      }
      layers := layers + [Layer(reactor, spans, drawn)];
      oldSpans, oldTexts := [], [];
      Rebuild();
    }

    /** A dismissal: the reactor's whole layer goes, and the others stay as they were. */
    method Forget(reactor: string) returns (found: bool)
      requires Valid()
      modifies this
      ensures Valid()
      ensures var i := IndexOf(old(layers), reactor);
        && (found <==> i < |old(layers)|)
        && layers == if found then old(layers)[..i] + old(layers)[i + 1..] else old(layers)
    {
      hide Normal, StableSortOf, Emitted, Drawn, AllTexts;
      var i := 0;
      while i < |layers|
        invariant i <= |layers| && unchanged(this)
        invariant forall j :: 0 <= j < i ==> layers[j].reactor != reactor
      {
        if layers[i].reactor == reactor {
          layers := layers[..i] + layers[i + 1..];
          Rebuild();
          return true;
        }
        i := i + 1;
      }
      return false;
    }

    method Clear()
      modifies this
      ensures Valid() && layers == [] && painted == [] && texts == []
    {
      layers, painted, texts := [], [], [];
    }

    /** Both lists anew, whatever they held. */
    method Rebuild()
      requires OneEach(layers)
      modifies this`painted, this`texts, this`flat, this`edges, this`active
      ensures Valid()
    {
      hide Normal, StableSortOf, Emitted, Drawn, AllTexts, Look, EdgesUpTo, Ordered;
      painted, flat, edges, active := [], [], [], [];
      Gather();
      SortTexts();
      if flat != [] {
        BuildEdges();
        ghost var built := edges;
        edges := SortEdges(edges);
        SortedEdges(built, edges, flat);
        Sweep();
      }
      assert Normal(painted, flat) by {
        if flat == [] { NothingIsNormal(); }
      }
      forall x: nat
        ensures Look(flat, x) == Look(Emitted(layers), x)
      {
        FlatLooksTheSame(Emitted(layers), x);
      }
      SameNormal(painted, flat, Emitted(layers));
    }

    /** Emission order across the layers. */
    method Gather()
      requires flat == []
      modifies this`flat, this`texts
      ensures flat == Flat(Emitted(layers)) && texts == Drawn(AllTexts(layers))
    {
      hide Flat, Drawn;
      var written: nat := 0;
      GatherNothing();
      for l := 0 to |layers|
        invariant flat == Flat(Emitted(layers[..l]))
        invariant written <= |texts| && texts[..written] == Drawn(AllTexts(layers[..l]))
      {
        ghost var before := layers[..l];
        GatherSpans(Emitted(before), layers[l].spans);
        written := GatherTexts(AllTexts(before), layers[l].texts, written);
        assert layers[..l + 1][..l] == before && layers[..l + 1][l] == layers[l];
      }
      assert layers[..|layers|] == layers;
      texts := texts[..written];
    }

    /** What paints nothing is left out: in the sweep it would occlude. */
    method GatherSpans(ghost before: seq<Span>, spans: seq<Span>)
      requires flat == Flat(before)
      modifies this`flat
      ensures flat == Flat(before + spans)
    {
      hide Flat;
      assert before + spans[..0] == before;
      for k := 0 to |spans|
        invariant flat == Flat(before + spans[..k])
      {
        FlatStep(before, spans, k);
        if spans[k].end <= spans[k].start || spans[k].style == 0 {
          continue;
        }
        flat := flat + [spans[k]];
      }
      assert spans[..|spans|] == spans;
    }

    /** Texts are written over the old ones as far as there are any. */
    method GatherTexts(ghost before: seq<VirtualText>, drawn: seq<VirtualText>, start: nat) returns (written: nat)
      requires start <= |texts| && texts[..start] == Drawn(before)
      modifies this`texts
      ensures written <= |texts| && texts[..written] == Drawn(before + drawn)
    {
      hide Drawn;
      written := start;
      assert before + drawn[..0] == before;
      for k := 0 to |drawn|
        invariant written <= |texts| && texts[..written] == Drawn(before + drawn[..k])
      {
        DrawnStep(before, drawn, k);
        var text := drawn[k];
        if text.bytes == [] {
          continue;
        }
        ghost var kept := texts[..written];
        texts := if written < |texts| then texts[written := text] else texts + [text];
        written := written + 1;
        assert texts[..written] == kept + [text];
      }
      assert drawn[..|drawn|] == drawn;
    }

    /** The insertion sort, in place. */
    method SortTexts()
      modifies this`texts
      ensures StableSortOf(texts, old(texts))
    {
      hide At, SortedBut, Swapped;
      ghost var start := texts;
      var i := 1;
      while i < |texts|
        invariant 1 <= i && |texts| == |start|
        invariant if |texts| < i then |texts| == 0 else SortedTo(texts, i)
        invariant forall a: nat :: At(texts, a) == At(start, a)
      {
        var j := i;
        assert SortedBut(texts, i, i + 1) by { LastToSettle(texts, i); }
        while j > 0 && texts[j].at < texts[j - 1].at
          invariant 0 <= j <= i < |texts| == |start|
          invariant SortedBut(texts, j, i + 1)
          invariant forall a: nat :: At(texts, a) == At(start, a)
        {
          SwapSorts(texts, j, i + 1);
          forall a: nat
            ensures At(Swapped(texts, j), a) == At(texts, a)
          {
            SwapKeeps(texts, j, a);
          }
          texts := Swapped(texts, j);
          j := j - 1;
        }
        SettledSorts(texts, j, i + 1);
        i := i + 1;
      }
    }

    method BuildEdges()
      requires edges == []
      modifies this`edges
      ensures EdgesOf(edges, flat)
    {
      hide EdgesUpTo, EdgeOf;
      assert EdgesUpTo([], flat, 0) by { NoEdges(flat); }
      for i := 0 to |flat|
        invariant EdgesUpTo(edges, flat, i)
      {
        AddEdges(edges, flat, i);
        edges := edges + [EdgeOf(flat, i, true), EdgeOf(flat, i, false)];
      }
    }

    method Sweep()
      requires EdgesOf(edges, flat) && Ordered(edges) && edges != []
      requires forall i :: 0 <= i < |flat| ==> Says(flat[i])
      requires painted == [] && active == []
      modifies this`painted, this`active
      ensures Normal(painted, flat)
    {
      hide EdgesOf, Ordered, ActiveIs, PaintedTo, Normal, Paint, Says, Look;
      var previous := edges[0].at;
      var i := 0;
      NothingPainted(flat, edges);
      while i < |edges|
        invariant i <= |edges| && previous == edges[if i == 0 then 0 else i - 1].at
        invariant 0 < i < |edges| ==> previous < edges[i].at
        invariant ActiveIs(active, flat, edges, i)
        invariant PaintedTo(painted, flat, previous)
      {
        var at := edges[i].at;
        if at > previous {
          ghost var style := Between(flat, edges, i, active, previous, at);
          PaintStep(painted, flat, previous, at, style);
          if active != [] {
            painted := Paint(painted, previous, at, flat[Highest(active)].style);
          }
        }
        ghost var shown := painted;
        while i < |edges| && edges[i].at == at
          invariant painted == shown
          invariant i <= |edges| && ActiveIs(active, flat, edges, i)
          invariant i == 0 ==> edges[0].at == at
          invariant i > 0 && edges[i - 1].at != at ==> i < |edges| && edges[i].at == at
        {
          var e := edges[i];
          if e.opening {
            OpeningStep(flat, edges, i, active);
            active := active + [e.which];
          } else {
            ClosingFindsOpen(flat, edges, i, active);
            var found := 0;
            while active[found] != e.which
              invariant found < |active| && e.which in active[found..]
              decreases |active| - found
            {
              found := found + 1;
            }
            ClosingStep(flat, edges, i, active, found);
            active := active[..found] + active[found + 1..];
          }
          i := i + 1;
        }
        previous := at;
        if i < |edges| { OrderedAt(edges, i - 1, i); }
      }
      AllPainted(flat, edges, active, painted, previous);
    }
  }

  lemma LastToSettle(texts: seq<VirtualText>, i: nat)
    requires i < |texts| && SortedTo(texts, i)
    ensures SortedBut(texts, i, i + 1)
  {
  }

  lemma GatherNothing()
    ensures Flat(Emitted([])) == [] && Drawn(AllTexts([])) == []
  {
  }

  lemma NoEdges(flat: seq<Span>)
    ensures EdgesUpTo([], flat, 0)
  {
  }

  lemma FlatStep(before: seq<Span>, spans: seq<Span>, k: nat)
    requires k < |spans|
    ensures Flat(before + spans[..k + 1]) == Flat(before + spans[..k]) + if Says(spans[k]) then [spans[k]] else []
  {
    assert (before + spans[..k + 1])[..|before| + k] == before + spans[..k];
  }

  lemma DrawnStep(before: seq<VirtualText>, texts: seq<VirtualText>, k: nat)
    requires k < |texts|
    ensures Drawn(before + texts[..k + 1]) == Drawn(before + texts[..k]) + if texts[k].bytes == [] then []
      else [texts[k]]
  {
    assert (before + texts[..k + 1])[..|before| + k] == before + texts[..k];
  }

  /** Before the first edge nothing is open and nothing shows. */
  lemma NothingPainted(flat: seq<Span>, edges: seq<Edge>)
    requires EdgesOf(edges, flat) && Ordered(edges) && edges != []
    requires forall i :: 0 <= i < |flat| ==> Says(flat[i])
    ensures ActiveIs([], flat, edges, 0) && PaintedTo([], flat, edges[0].at)
  {
    hide EdgesOf, Look, Ordered;
    assert ActiveIs([], flat, edges, 0);
    forall x: nat | x < edges[0].at
      ensures Look(flat, x) == 0
    {
      forall j | 0 <= j < |edges|
        ensures x < edges[j].at
      {
        OrderedAt(edges, 0, j);
      }
      LookBetween(flat, edges, 0, [], x);
    }
  }

  /** The one style of an interval between two groups of edges. */
  lemma Between(flat: seq<Span>, edges: seq<Edge>, k: nat, active: seq<nat>, previous: nat,
      at: nat) returns (style: nat)
    requires EdgesOf(edges, flat) && Ordered(edges) && 0 < k < |edges| && ActiveIs(active, flat, edges, k)
    requires forall i :: 0 <= i < |flat| ==> Says(flat[i])
    requires edges[k - 1].at == previous < at == edges[k].at
    ensures active == [] ==> style == 0
    ensures active != [] ==> Highest(active) < |flat| && style == flat[Highest(active)].style && style != 0
    ensures forall x: nat :: previous <= x < at ==> Look(flat, x) == style
  {
    hide EdgesOf, Look, Ordered, ActiveIs;
    forall j | 0 <= j < |edges|
      ensures j < k ==> edges[j].at <= previous
      ensures k <= j ==> at <= edges[j].at
    {
      if j < k { OrderedAt(edges, j, k - 1); } else { OrderedAt(edges, k, j); }
    }
    LookBetween(flat, edges, k, active, previous);
    style := if active == [] then 0 else flat[Highest(active)].style;
    forall x: nat | previous <= x < at
      ensures Look(flat, x) == style
    {
      LookBetween(flat, edges, k, active, x);
    }
  }

  /** Behind the last edge nothing shows: the list is finished. */
  lemma AllPainted(flat: seq<Span>, edges: seq<Edge>, active: seq<nat>, painted: seq<Span>, previous: nat)
    requires EdgesOf(edges, flat) && Ordered(edges) && edges != [] && ActiveIs(active, flat, edges, |edges|)
    requires forall i :: 0 <= i < |flat| ==> Says(flat[i])
    requires previous == edges[|edges| - 1].at && PaintedTo(painted, flat, previous)
    ensures Normal(painted, flat)
  {
    hide Look, Ordered, Tidy, CoveredBy;
    forall x: nat | previous <= x
      ensures Look(flat, x) == 0
    {
      forall j | 0 <= j < |flat|
        ensures !flat[j].Covers(x)
      {
        var e := EdgeOf(flat, j, false);
        var k :| 0 <= k < |edges| && edges[k] == e;
        OrderedAt(edges, k, |edges| - 1);
      }
      LookIsNothing(flat, x);
    }
  }

  lemma NothingIsNormal()
    ensures Normal([], [])
  {
  }

  lemma SameNormal(painted: seq<Span>, a: seq<Span>, b: seq<Span>)
    requires Normal(painted, a) && forall x: nat :: Look(a, x) == Look(b, x)
    ensures Normal(painted, b)
  {
    hide Look;
  }
}
