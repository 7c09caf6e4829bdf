/** The edge extractor: the edges a face set's loops use, with repetitions, so that
    the edge-use rule can count how often each edge is referenced.

    `GetEdges` is the specification; `ExtractEdges` walks the loops, triangles and
    faces the way the extractor does and is proved to produce the same result. */
module Edges {
  import opened Ifc

  /** An edge as the extractor yields it: an unordered pair of points (a frozenset, so a
      degenerate edge has a single end) or an ordered one. */
  datatype Edge = Undirected(ends: set<Point>) | Directed(start: Point, end: Point)

  /** Why extraction stops: a geometry kind it does not handle, or an index (or an empty
      loop's first point) that is out of range. */
  datatype EdgeError = NotImplemented | IndexOutOfRange

  type EdgesResult = Result<seq<Edge>, EdgeError>

  /** `edge_type((a, b))`: a tuple when oriented, a frozenset otherwise. */
  function MakeEdge(a: Point, b: Point, oriented: bool): (r: Edge)
    ensures r.Directed? <==> oriented
    ensures oriented ==> r.start == a && r.end == b
    ensures !oriented ==> r.ends == {a, b} && |r.ends| <= 2
  {
    if oriented then Directed(a, b) else Undirected({a, b})
  }

  /** An unoriented edge is the same edge whichever end comes first. */
  lemma UnorientedIgnoresOrder(a: Point, b: Point)
    ensures MakeEdge(a, b, false) == MakeEdge(b, a, false)
  {
  }

  /** An oriented edge tells its two directions apart unless both ends are the same point. */
  lemma OrientedKeepsOrder(a: Point, b: Point)
    ensures MakeEdge(a, b, true) == MakeEdge(b, a, true) <==> a == b
  {
  }

  /** `s[k]` with Python's reading of a negative index (counted from the end); `None`
      where Python raises IndexError. */
  function PyIndex<T>(s: seq<T>, k: int): (r: Option<T>)
    ensures r.Some? <==> -|s| <= k < |s|
    ensures 0 <= k < |s| ==> r == Some(s[k])
    ensures -|s| <= k < 0 ==> r == Some(s[|s| + k])
  {
    if 0 <= k < |s| then Some(s[k]) else if -|s| <= k < 0 then Some(s[|s| + k]) else None
  }

  /** `[coords[i - 1] for i in idx]`: 1-based indices resolved to points. */
  function Resolve(coords: seq<Point>, idx: seq<int>): (r: Option<seq<Point>>)
    ensures r.Some? <==> forall j :: 0 <= j < |idx| ==> -|coords| < idx[j] <= |coords|
    ensures r.Some? ==> |r.value| == |idx| &&
                        forall j :: 0 <= j < |idx| ==> PyIndex(coords, idx[j] - 1) == Some(r.value[j])
  {
    if idx == [] then Some([])
    else match PyIndex(coords, idx[0] - 1)
      case None => None
      case Some(p) =>
        match Resolve(coords, idx[1..])
        case None => None
        case Some(ps) => Some([p] + ps)
  }

  /** The edges of a closed loop: each point to the next, and the last point back to the first. */
  function RingEdges(pts: seq<Point>, oriented: bool): (es: seq<Edge>)
    requires |pts| > 0
    ensures |es| == |pts|
    ensures forall k :: 0 <= k < |pts| - 1 ==> es[k] == MakeEdge(pts[k], pts[k + 1], oriented)
    ensures es[|pts| - 1] == MakeEdge(pts[|pts| - 1], pts[0], oriented)
  {
    var shifted := pts[1..] + [pts[0]];
    seq(|pts|, k requires 0 <= k < |pts| => MakeEdge(pts[k], shifted[k], oriented))
  }

  /** A loop of points; an empty one fails where its first point is read. */
  function LoopEdges(pts: seq<Point>, oriented: bool): (r: EdgesResult)
    ensures r.Ok? <==> pts != []
    ensures r.Ok? ==> |r.value| == |pts| && r.value[|pts| - 1] == MakeEdge(pts[|pts| - 1], pts[0], oriented)
  {
    if pts == [] then Err(IndexOutOfRange) else Ok(RingEdges(pts, oriented))
  }

  function LoopFn(oriented: bool): seq<Point> -> EdgesResult
  {
    pts => LoopEdges(pts, oriented)
  }

  /** A loop given by 1-based indices into `coords`. */
  function IndexedLoopEdges(coords: seq<Point>, loop: seq<int>, oriented: bool): (r: EdgesResult)
    ensures r.Ok? <==> loop != [] && forall j :: 0 <= j < |loop| ==> -|coords| < loop[j] <= |coords|
    ensures r.Ok? ==> |r.value| == |loop|
  {
    match Resolve(coords, loop)
    case None => Err(IndexOutOfRange)
    case Some(pts) => LoopEdges(pts, oriented)
  }

  function IndexedLoopFn(coords: seq<Point>, oriented: bool): seq<int> -> EdgesResult
  {
    loop => IndexedLoopEdges(coords, loop, oriented)
  }

  /** A triangle: its first three indices, closed into a ring of three edges. */
  function TriangleEdges(coords: seq<Point>, tri: seq<int>, oriented: bool): (r: EdgesResult)
    ensures |tri| < 3 ==> r.Err?
    ensures r.Ok? ==> |r.value| == 3
  {
    if |tri| < 3 then Err(IndexOutOfRange) else IndexedLoopEdges(coords, tri[..3], oriented)
  }

  function TriangleFn(coords: seq<Point>, oriented: bool): seq<int> -> EdgesResult
  {
    tri => TriangleEdges(coords, tri, oriented)
  }

  /** The outer loop of a face, then the loops of its voids. */
  function FaceEdges(coords: seq<Point>, f: Face, oriented: bool): (r: EdgesResult)
    ensures IndexedLoopEdges(coords, f.coordIndex, oriented).Err? ==> r.Err?
    ensures r.Ok? ==> |f.coordIndex| <= |r.value| &&
                      r.value[..|f.coordIndex|] == IndexedLoopEdges(coords, f.coordIndex, oriented).value
  {
    match f
    case IndexedPolygonalFace(outer) => IndexedLoopEdges(coords, outer, oriented)
    case IndexedPolygonalFaceWithVoids(outer, inner) =>
      Append(IndexedLoopEdges(coords, outer, oriented), ConcatAll(inner, IndexedLoopFn(coords, oriented)))
  }

  function FaceFn(coords: seq<Point>, oriented: bool): Face -> EdgesResult
  {
    f => FaceEdges(coords, f, oriented)
  }

  /** The edge of an IfcOrientedEdge: start to end, reversed when its orientation is false.
      Unoriented, the orientation makes no difference. */
  function OrientedEdgeOf(ed: OrientedEdge, oriented: bool): (r: Edge)
    ensures oriented && ed.orientation ==> r == Directed(ed.edgeStart, ed.edgeEnd)
    ensures oriented && !ed.orientation ==> r == Directed(ed.edgeEnd, ed.edgeStart)
    ensures !oriented ==> r == Undirected({ed.edgeStart, ed.edgeEnd})
  {
    if ed.orientation then MakeEdge(ed.edgeStart, ed.edgeEnd, oriented)
    else
      assert {ed.edgeEnd, ed.edgeStart} == {ed.edgeStart, ed.edgeEnd};
      MakeEdge(ed.edgeEnd, ed.edgeStart, oriented)
  }

  /** The edges of `a` followed by those of `b`; the first failure wins. */
  function Append(a: EdgesResult, b: EdgesResult): EdgesResult
  {
    match a
    case Err(e) => Err(e)
    case Ok(x) => (match b case Err(e) => Err(e) case Ok(y) => Ok(x + y))
  }

  /** The edges of every item in turn; the first item that fails decides the result. */
  function ConcatAll<T>(items: seq<T>, f: T -> EdgesResult): EdgesResult
  {
    if items == [] then Ok([]) else Append(f(items[0]), ConcatAll(items[1..], f))
  }

  /** Every edge is of the kind the extractor was asked for: a tuple when oriented, a
      frozenset otherwise. */
  predicate OfKind(es: seq<Edge>, oriented: bool)
  {
    forall i :: 0 <= i < |es| ==> (es[i].Directed? <==> oriented)
  }

  lemma AppendKind(a: EdgesResult, b: EdgesResult, oriented: bool)
    requires a.Ok? ==> OfKind(a.value, oriented)
    requires b.Ok? ==> OfKind(b.value, oriented)
    ensures Append(a, b).Ok? ==> OfKind(Append(a, b).value, oriented)
  {
    if a.Ok? && b.Ok? {
      assert forall i :: |a.value| <= i < |a.value| + |b.value| ==>
               Append(a, b).value[i] == b.value[i - |a.value|];
    }
  }

  lemma {:induction false} ConcatAllKind<T>(items: seq<T>, f: T -> EdgesResult, oriented: bool)
    requires forall i :: 0 <= i < |items| ==> f(items[i]).Ok? ==> OfKind(f(items[i]).value, oriented)
    ensures ConcatAll(items, f).Ok? ==> OfKind(ConcatAll(items, f).value, oriented)
  {
    if items != [] {
      assert forall i :: 0 <= i < |items| - 1 ==> items[1..][i] == items[i + 1];
      ConcatAllKind(items[1..], f, oriented);
      AppendKind(f(items[0]), ConcatAll(items[1..], f), oriented);
    }
  }

  lemma LoopKind(pts: seq<Point>, oriented: bool)
    ensures LoopEdges(pts, oriented).Ok? ==> OfKind(LoopEdges(pts, oriented).value, oriented)
  {
  }

  lemma IndexedLoopsKind(coords: seq<Point>, loops: seq<seq<int>>, oriented: bool)
    ensures ConcatAll(loops, IndexedLoopFn(coords, oriented)).Ok? ==>
              OfKind(ConcatAll(loops, IndexedLoopFn(coords, oriented)).value, oriented)
  {
    forall i | 0 <= i < |loops|
      ensures IndexedLoopFn(coords, oriented)(loops[i]).Ok? ==>
                OfKind(IndexedLoopFn(coords, oriented)(loops[i]).value, oriented)
    {
      match Resolve(coords, loops[i])
      case None =>
      case Some(pts) => LoopKind(pts, oriented);
    }
    ConcatAllKind(loops, IndexedLoopFn(coords, oriented), oriented);
  }

  lemma LoopsKind(loops: seq<seq<Point>>, oriented: bool)
    ensures ConcatAll(loops, LoopFn(oriented)).Ok? ==> OfKind(ConcatAll(loops, LoopFn(oriented)).value, oriented)
  {
    forall i | 0 <= i < |loops|
      ensures LoopFn(oriented)(loops[i]).Ok? ==> OfKind(LoopFn(oriented)(loops[i]).value, oriented)
    {
      LoopKind(loops[i], oriented);
    }
    ConcatAllKind(loops, LoopFn(oriented), oriented);
  }

  lemma TrianglesKind(coords: seq<Point>, idx: seq<seq<int>>, oriented: bool)
    ensures ConcatAll(idx, TriangleFn(coords, oriented)).Ok? ==>
              OfKind(ConcatAll(idx, TriangleFn(coords, oriented)).value, oriented)
  {
    forall i | 0 <= i < |idx|
      ensures TriangleFn(coords, oriented)(idx[i]).Ok? ==> OfKind(TriangleFn(coords, oriented)(idx[i]).value, oriented)
    {
      if |idx[i]| >= 3 {
        match Resolve(coords, idx[i][..3])
        case None =>
        case Some(pts) => LoopKind(pts, oriented);
      }
    }
    ConcatAllKind(idx, TriangleFn(coords, oriented), oriented);
  }

  lemma FacesKind(coords: seq<Point>, faces: seq<Face>, oriented: bool)
    ensures ConcatAll(faces, FaceFn(coords, oriented)).Ok? ==>
              OfKind(ConcatAll(faces, FaceFn(coords, oriented)).value, oriented)
  {
    forall i | 0 <= i < |faces|
      ensures FaceFn(coords, oriented)(faces[i]).Ok? ==> OfKind(FaceFn(coords, oriented)(faces[i]).value, oriented)
    {
      FaceKind(coords, faces[i], oriented);
    }
    ConcatAllKind(faces, FaceFn(coords, oriented), oriented);
  }

  lemma FaceKind(coords: seq<Point>, f: Face, oriented: bool)
    ensures FaceEdges(coords, f, oriented).Ok? ==> OfKind(FaceEdges(coords, f, oriented).value, oriented)
  {
    match Resolve(coords, f.coordIndex)
    case None =>
    case Some(pts) => LoopKind(pts, oriented);
    if f.IndexedPolygonalFaceWithVoids? {
      IndexedLoopsKind(coords, f.innerCoordIndices, oriented);
      AppendKind(IndexedLoopEdges(coords, f.coordIndex, oriented),
                 ConcatAll(f.innerCoordIndices, IndexedLoopFn(coords, oriented)), oriented);
    }
  }

  /** The edge sequence of a shape, in the order the extractor yields it; every edge is a
      tuple when oriented and a frozenset otherwise. */
  function GetEdges(shape: Shape, oriented: bool): (r: EdgesResult)
    ensures r.Ok? ==> OfKind(r.value, oriented)
  {
    match shape
    case ConnectedFaceSet(loops, oes) =>
      var tail := seq(|oes|, i requires 0 <= i < |oes| => OrientedEdgeOf(oes[i], oriented));
      LoopsKind(loops, oriented);
      AppendKind(ConcatAll(loops, LoopFn(oriented)), Ok(tail), oriented);
      Append(ConcatAll(loops, LoopFn(oriented)), Ok(tail))
    case TriangulatedFaceSet(coords, idx) =>
      TrianglesKind(coords, idx, oriented);
      ConcatAll(idx, TriangleFn(coords, oriented))
    case PolygonalFaceSet(coords, faces) =>
      FacesKind(coords, faces, oriented);
      ConcatAll(faces, FaceFn(coords, oriented))
    case OtherShape => Err(NotImplemented)
  }

  // ---------------------------------------------------------------------------
  // The extractor's loops

  /** One step of a loop over items: the edges gathered so far, then the rest. */
  lemma AppendAssoc(acc: seq<Edge>, x: EdgesResult, rest: EdgesResult)
    ensures Append(Ok(acc), Append(x, rest)) ==
            (match x case Err(e) => Err(e) case Ok(g) => Append(Ok(acc + g), rest))
  {
    match x
    case Err(_) =>
    case Ok(g) =>
      match rest
      case Err(_) =>
      case Ok(y) => assert acc + (g + y) == (acc + g) + y;
  }

  lemma AppendUnit(x: EdgesResult, acc: seq<Edge>)
    ensures Append(Ok([]), x) == x
    ensures Append(Ok(acc), Ok([])) == Ok(acc)
  {
    assert acc + [] == acc;
    match x
    case Err(_) =>
    case Ok(y) => assert [] + y == y;
  }

  /** Gathers the edges of each item in turn, stopping at the first failure. */
  method ConcatLoop<T>(items: seq<T>, f: T -> EdgesResult) returns (r: EdgesResult)
    ensures r == ConcatAll(items, f)
  {
    var acc: seq<Edge> := [];
    var i := 0;
    AppendUnit(ConcatAll(items, f), acc);
    while i < |items|
      invariant 0 <= i <= |items|
      invariant ConcatAll(items, f) == Append(Ok(acc), ConcatAll(items[i..], f))
    {
      assert items[i..][1..] == items[i + 1..];
      AppendAssoc(acc, f(items[i]), ConcatAll(items[i + 1..], f));
      match f(items[i]) {
        case Err(e) =>
          return Err(e);
        case Ok(g) =>
          acc := acc + g;
      }
      i := i + 1;
    }
    assert items[i..] == [];
    AppendUnit(Ok([]), acc);
    r := Ok(acc);
  }

  /** The edges of one face: its outer loop, then the loops of its voids. */
  method CollectFaceEdges(coords: seq<Point>, f: Face, oriented: bool) returns (r: EdgesResult)
    ensures r == FaceEdges(coords, f, oriented)
  {
    r := IndexedLoopEdges(coords, f.coordIndex, oriented);
    if r.Ok? && f.IndexedPolygonalFaceWithVoids? {
      var voids := ConcatLoop(f.innerCoordIndices, IndexedLoopFn(coords, oriented));
      if voids.Err? {
        return Err(voids.error);
      }
      r := Ok(r.value + voids.value);
    }
  }

  /** The loop over a polygonal face set's faces, with the inner loop over each face's voids. */
  method PolygonalEdges(coords: seq<Point>, faces: seq<Face>, oriented: bool) returns (r: EdgesResult)
    ensures r == ConcatAll(faces, FaceFn(coords, oriented))
  {
    var acc: seq<Edge> := [];
    var i := 0;
    AppendUnit(ConcatAll(faces, FaceFn(coords, oriented)), acc);
    while i < |faces|
      invariant 0 <= i <= |faces|
      invariant ConcatAll(faces, FaceFn(coords, oriented)) ==
                Append(Ok(acc), ConcatAll(faces[i..], FaceFn(coords, oriented)))
    {
      assert faces[i..][1..] == faces[i + 1..];
      var g := CollectFaceEdges(coords, faces[i], oriented);
      AppendAssoc(acc, g, ConcatAll(faces[i + 1..], FaceFn(coords, oriented)));
      if g.Err? {
        return Err(g.error);
      }
      acc := acc + g.value;
      i := i + 1;
    }
    assert faces[i..] == [];
    AppendUnit(Ok([]), acc);
    r := Ok(acc);
  }

  /** `get_edges`: the edges of the shape, or why they cannot be extracted. */
  method ExtractEdges(shape: Shape, oriented: bool) returns (r: EdgesResult)
    ensures r == GetEdges(shape, oriented)
  {
    match shape {
      case ConnectedFaceSet(loops, oes) =>
        r := ConcatLoop(loops, LoopFn(oriented));
        if r.Ok? {
          var acc := r.value;
          var i := 0;
          while i < |oes|
            invariant 0 <= i <= |oes|
            invariant acc == r.value + seq(i, k requires 0 <= k < i => OrientedEdgeOf(oes[k], oriented))
          {
            acc := acc + [OrientedEdgeOf(oes[i], oriented)];
            i := i + 1;
          }
          assert seq(|oes|, k requires 0 <= k < |oes| => OrientedEdgeOf(oes[k], oriented)) ==
                 seq(i, k requires 0 <= k < i => OrientedEdgeOf(oes[k], oriented));
          r := Ok(acc);
        }
      case TriangulatedFaceSet(coords, idx) =>
        r := ConcatLoop(idx, TriangleFn(coords, oriented));
      case PolygonalFaceSet(coords, faces) =>
        r := PolygonalEdges(coords, faces, oriented);
      case OtherShape =>
        r := Err(NotImplemented);
    }
  }

  // ---------------------------------------------------------------------------
  // What the extracted edges are

  /** Total number of entries over a sequence of loops. */
  function TotalLength<T>(loops: seq<seq<T>>): nat
  {
    if loops == [] then 0 else |loops[0]| + TotalLength(loops[1..])
  }

  /** Number of loop entries over the outer and inner loops of polygonal faces. */
  function FacesLength(faces: seq<Face>): nat
  {
    if faces == [] then 0
    else
      |faces[0].coordIndex| +
      (if faces[0].IndexedPolygonalFaceWithVoids? then TotalLength(faces[0].innerCoordIndices) else 0) +
      FacesLength(faces[1..])
  }

  /** Gathering fails exactly when some item fails, and then with that item's error. */
  lemma {:induction false} ConcatAllFailure<T>(items: seq<T>, f: T -> EdgesResult)
    ensures ConcatAll(items, f).Ok? <==> forall i :: 0 <= i < |items| ==> f(items[i]).Ok?
    ensures ConcatAll(items, f).Err? ==> exists i :: 0 <= i < |items| && f(items[i]) == ConcatAll(items, f)
  {
    if items != [] {
      ConcatAllFailure(items[1..], f);
      assert forall i :: 1 <= i < |items| ==> items[1..][i - 1] == items[i];
    }
  }

  /** A loop with k points yields exactly k edges, the closing edge included. */
  lemma {:induction false} LoopsEdgeCount(loops: seq<seq<Point>>, oriented: bool)
    ensures ConcatAll(loops, LoopFn(oriented)).Ok? ==>
              |ConcatAll(loops, LoopFn(oriented)).value| == TotalLength(loops)
  {
    if loops != [] {
      LoopsEdgeCount(loops[1..], oriented);
    }
  }

  lemma {:induction false} IndexedLoopsEdgeCount(coords: seq<Point>, loops: seq<seq<int>>, oriented: bool)
    ensures ConcatAll(loops, IndexedLoopFn(coords, oriented)).Ok? ==>
              |ConcatAll(loops, IndexedLoopFn(coords, oriented)).value| == TotalLength(loops)
  {
    if loops != [] {
      IndexedLoopsEdgeCount(coords, loops[1..], oriented);
    }
  }

  /** Each face of a polygonal face set yields one edge per index of its outer loop and of
      each of its voids. */
  lemma {:induction false} PolygonalEdgeCount(coords: seq<Point>, faces: seq<Face>, oriented: bool)
    ensures GetEdges(PolygonalFaceSet(coords, faces), oriented).Ok? ==>
              |GetEdges(PolygonalFaceSet(coords, faces), oriented).value| == FacesLength(faces)
  {
    if faces != [] {
      PolygonalEdgeCount(coords, faces[1..], oriented);
      if faces[0].IndexedPolygonalFaceWithVoids? {
        IndexedLoopsEdgeCount(coords, faces[0].innerCoordIndices, oriented);
      }
    }
  }

  /** A connected face set yields one edge per point of each poly loop, then one per oriented edge. */
  lemma ConnectedEdgeCount(loops: seq<seq<Point>>, oes: seq<OrientedEdge>, oriented: bool)
    ensures GetEdges(ConnectedFaceSet(loops, oes), oriented).Ok? ==>
              |GetEdges(ConnectedFaceSet(loops, oes), oriented).value| == TotalLength(loops) + |oes|
  {
    LoopsEdgeCount(loops, oriented);
  }

  /** The first three indices of a triangle are 1-based positions in `coords`. */
  predicate InRangeTriangle(coords: seq<Point>, tri: seq<int>)
  {
    |tri| >= 3 && 1 <= tri[0] <= |coords| && 1 <= tri[1] <= |coords| && 1 <= tri[2] <= |coords|
  }

  /** The three edges of a triangle whose corners are the points at its first three
      1-based indices. */
  function Triangle(coords: seq<Point>, tri: seq<int>, oriented: bool): seq<Edge>
    requires InRangeTriangle(coords, tri)
  {
    var p, q, r := coords[tri[0] - 1], coords[tri[1] - 1], coords[tri[2] - 1];
    [MakeEdge(p, q, oriented), MakeEdge(q, r, oriented), MakeEdge(r, p, oriented)]
  }

  /** A triangle whose first three indices are in range yields (v0,v1), (v1,v2), (v2,v0). */
  lemma TriangleRing(coords: seq<Point>, tri: seq<int>, oriented: bool)
    requires InRangeTriangle(coords, tri)
    ensures TriangleEdges(coords, tri, oriented) == Ok(Triangle(coords, tri, oriented))
  {
    var pts := Resolve(coords, tri[..3]).value;
    assert PyIndex(coords, tri[..3][0] - 1) == Some(pts[0]);
    assert PyIndex(coords, tri[..3][1] - 1) == Some(pts[1]);
    assert PyIndex(coords, tri[..3][2] - 1) == Some(pts[2]);
    var es := RingEdges(pts, oriented);
    assert es[0] == MakeEdge(pts[0], pts[1], oriented);
    assert es[1] == MakeEdge(pts[1], pts[2], oriented);
    assert es[2] == MakeEdge(pts[2], pts[0], oriented);
    assert es == Triangle(coords, tri, oriented);
    assert TriangleEdges(coords, tri, oriented) == LoopEdges(pts, oriented);
  }

  lemma SliceAfterHead(head: seq<Edge>, tail: seq<Edge>, t: int)
    requires |head| == 3 && 1 <= t && 3 * t + 3 <= |head| + |tail|
    ensures (head + tail)[3 * t..3 * t + 3] == tail[3 * (t - 1)..3 * (t - 1) + 3]
  {
  }

  lemma {:induction false} TrianglesEdges(coords: seq<Point>, idx: seq<seq<int>>, oriented: bool)
    requires forall t :: 0 <= t < |idx| ==> InRangeTriangle(coords, idx[t])
    ensures ConcatAll(idx, TriangleFn(coords, oriented)).Ok?
    ensures var es := ConcatAll(idx, TriangleFn(coords, oriented)).value;
            |es| == 3 * |idx| &&
            forall t :: 0 <= t < |idx| ==>
              es[3 * t..3 * t + 3] == Triangle(coords, idx[t], oriented)
  {
    if idx != [] {
      var rest := idx[1..];
      TrianglesEdges(coords, rest, oriented);
      TriangleRing(coords, idx[0], oriented);
      var head := Triangle(coords, idx[0], oriented);
      var tail := ConcatAll(rest, TriangleFn(coords, oriented)).value;
      var es := ConcatAll(idx, TriangleFn(coords, oriented)).value;
      assert es == head + tail;
      forall t | 0 <= t < |idx|
        ensures es[3 * t..3 * t + 3] == Triangle(coords, idx[t], oriented)
      {
        if t > 0 {
          SliceAfterHead(head, tail, t);
          assert idx[t] == rest[t - 1];
        }
      }
    }
  }

  /** A triangulated face set yields, for triangle t, the edges (v0,v1), (v1,v2), (v2,v0) at
      positions 3t, 3t+1 and 3t+2, with the 1-based indices resolved; so there are exactly
      three edge references per triangle. */
  lemma TriangulatedEdges(coords: seq<Point>, idx: seq<seq<int>>, oriented: bool)
    requires forall t :: 0 <= t < |idx| ==> InRangeTriangle(coords, idx[t])
    ensures GetEdges(TriangulatedFaceSet(coords, idx), oriented).Ok?
    ensures var es := GetEdges(TriangulatedFaceSet(coords, idx), oriented).value;
            |es| == 3 * |idx| &&
            forall t :: 0 <= t < |idx| ==>
              es[3 * t..3 * t + 3] == Triangle(coords, idx[t], oriented)
  {
    TrianglesEdges(coords, idx, oriented);
  }

  /** Only a shape of another kind is reported as not implemented: the known kinds fail,
      if at all, on an index. */
  lemma NotImplementedOnlyForOtherShapes(shape: Shape, oriented: bool)
    ensures GetEdges(shape, oriented) == Err(NotImplemented) <==> shape.OtherShape?
  {
    match shape
    case ConnectedFaceSet(loops, oes) =>
      ConcatAllFailure(loops, LoopFn(oriented));
    case TriangulatedFaceSet(coords, idx) =>
      ConcatAllFailure(idx, TriangleFn(coords, oriented));
    case PolygonalFaceSet(coords, faces) =>
      ConcatAllFailure(faces, FaceFn(coords, oriented));
      forall f | f in faces ensures FaceEdges(coords, f, oriented) != Err(NotImplemented) {
        if f.IndexedPolygonalFaceWithVoids? {
          ConcatAllFailure(f.innerCoordIndices, IndexedLoopFn(coords, oriented));
        }
      }
    case OtherShape =>
  }
}
