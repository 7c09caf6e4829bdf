/** The building model the rules are evaluated against, as plain values.

    An entity carries its id, its inheritance chain (so that `is_a` is a membership
    test), its attributes, its `ContainedInStructure` and `Decomposes` relations and,
    for geometry, the data the edge extractor reads. Relations hold the entities they
    point at, so every chain of relations is finite. */
module Ifc {

  datatype Option<+T> = None | Some(value: T)

  datatype Result<+T, +E> = Ok(value: T) | Err(error: E)

  /** A coordinate tuple; points are only ever compared for equality. */
  datatype Point = Point(coordinates: seq<real>)

  /** An attribute value, or a literal written in a rule; compared for equality only. */
  datatype Value = Value(literal: string)

  datatype Entity = Entity(
    id: nat,
    /** type names from the root of the hierarchy down to the entity's own type */
    lineage: seq<string>,
    attributes: map<string, Value>,
    containedInStructure: seq<ContainmentRel>,
    decomposes: seq<AggregationRel>,
    shape: Shape)

  /** IfcRelContainedInSpatialStructure, seen from the contained element. */
  datatype ContainmentRel = ContainmentRel(relatingStructure: Entity)

  /** IfcRelAggregates, seen from one of its related objects. `relatedObjects` holds the
      relation's other related objects; the object it is seen from is not repeated there. */
  datatype AggregationRel = AggregationRel(relatingObject: Entity, relatedObjects: seq<Entity>)

  datatype OrientedEdge = OrientedEdge(edgeStart: Point, edgeEnd: Point, orientation: bool)

  /** IfcIndexedPolygonalFace and IfcIndexedPolygonalFaceWithVoids: 1-based indices into the point list. */
  datatype Face =
    | IndexedPolygonalFace(coordIndex: seq<int>)
    | IndexedPolygonalFaceWithVoids(coordIndex: seq<int>, innerCoordIndices: seq<seq<int>>)

  /** The geometry kinds the edge extractor knows. A connected face set holds the poly loops
      (their point lists) and oriented edges reachable from it, in traversal order. */
  datatype Shape =
    | ConnectedFaceSet(polyLoops: seq<seq<Point>>, orientedEdges: seq<OrientedEdge>)
    | TriangulatedFaceSet(coordList: seq<Point>, coordIndex: seq<seq<int>>)
    | PolygonalFaceSet(coordList: seq<Point>, faces: seq<Face>)
    | OtherShape

  /** A loaded file: its schema name, its model view definition (absent when the header
      does not carry one), the entity names its schema knows, and its entities in file order. */
  datatype IfcFile = IfcFile(
    schema: string,
    mvd: Option<string>,
    schemaTypes: set<string>,
    entities: seq<Entity>)

  /** `inst.is_a(t)`: `t` is the entity's type or one of its supertypes. */
  predicate IsA(e: Entity, t: string)
  {
    t in e.lineage
  }

  /** The elements of `s` that satisfy `p`, in their original order. */
  function Filter<T(!new)>(s: seq<T>, p: T -> bool): (r: seq<T>)
    ensures |r| <= |s|
    ensures forall x :: x in r <==> x in s && p(x)
  {
    if s == [] then [] else (if p(s[0]) then [s[0]] else []) + Filter(s[1..], p)
  }

  /** Filtering distributes over concatenation, so the kept elements keep their order. */
  lemma {:induction false} FilterAppend<T(!new)>(s: seq<T>, t: seq<T>, p: T -> bool)
    ensures Filter(s + t, p) == Filter(s, p) + Filter(t, p)
  {
    if s == [] {
      assert s + t == t;
    } else {
      assert (s + t)[0] == s[0] && (s + t)[1..] == s[1..] + t;
      FilterAppend(s[1..], t, p);
    }
  }

  /** Filtering a sequence extended by one element. */
  lemma FilterSnoc<T(!new)>(s: seq<T>, x: T, p: T -> bool)
    ensures Filter(s + [x], p) == Filter(s, p) + (if p(x) then [x] else [])
  {
    FilterAppend(s, [x], p);
    assert [x][1..] == [];
  }

  /** Filtering twice keeps the same elements as filtering once. */
  lemma {:induction false} FilterIdempotent<T(!new)>(s: seq<T>, p: T -> bool)
    ensures Filter(Filter(s, p), p) == Filter(s, p)
  {
    if s != [] {
      FilterIdempotent(s[1..], p);
      var r := Filter(s, p);
      if p(s[0]) {
        assert r == [s[0]] + Filter(s[1..], p);
        assert r[0] == s[0] && r[1..] == Filter(s[1..], p);
        assert Filter(r, p) == [r[0]] + Filter(r[1..], p);
      } else {
        assert r == Filter(s[1..], p);
      }
    }
  }

  /** Every kept element is kept as often as it occurs; every other element is dropped. */
  lemma {:induction false} FilterCount<T(!new)>(s: seq<T>, p: T -> bool, x: T)
    ensures multiset(Filter(s, p))[x] == if p(x) then multiset(s)[x] else 0
  {
    if s != [] {
      FilterCount(s[1..], p, x);
      assert s == [s[0]] + s[1..];
    }
  }

  /** `model.by_type(t)`: the instances of `t` and of its subtypes, in file order; `None` when
      the schema has no entity of that name (the library raises). */
  function ByType(f: IfcFile, t: string): (r: Option<seq<Entity>>)
    ensures r.Some? <==> t in f.schemaTypes
    ensures r.Some? ==> forall e :: e in r.value <==> e in f.entities && IsA(e, t)
  {
    if t in f.schemaTypes then Some(Filter(f.entities, e => IsA(e, t))) else None
  }

  /** Index in `lineage` of the most derived type among `candidates`, or -1 when none of
      them occurs in it: nothing deeper in the chain is a candidate. */
  function MostDerivedIndex(lineage: seq<string>, candidates: set<string>): (k: int)
    ensures -1 <= k < |lineage|
    ensures k >= 0 ==> lineage[k] in candidates
    ensures forall j :: k < j < |lineage| ==> lineage[j] !in candidates
    decreases |lineage|
  {
    if lineage == [] then -1
    else if lineage[|lineage| - 1] in candidates then |lineage| - 1
    else MostDerivedIndex(lineage[..|lineage| - 1], candidates)
  }

  /** `order_by_ifc_inheritance(candidates, base_class_last=True)[0]` for candidates the entity
      is an instance of: the candidate every other candidate is a supertype of. */
  function OrderByInheritance(e: Entity, candidates: set<string>): (r: Option<string>)
    ensures r.None? <==> forall c :: c in candidates ==> !IsA(e, c)
    ensures r.Some? ==> r.value in candidates && IsA(e, r.value)
    ensures r.Some? ==> exists k :: 0 <= k < |e.lineage| && e.lineage[k] == r.value &&
                                    forall c :: c in candidates && IsA(e, c) ==> c in e.lineage[..k + 1]
  {
    var k := MostDerivedIndex(e.lineage, candidates);
    if k < 0 then None
    else
      assert forall c :: c in candidates && IsA(e, c) ==> c in e.lineage[..k + 1] by {
        forall c | c in candidates && IsA(e, c) ensures c in e.lineage[..k + 1] {
          var j :| 0 <= j < |e.lineage| && e.lineage[j] == c;
          assert j <= k;
          assert e.lineage[..k + 1][j] == c;
        }
      }
      Some(e.lineage[k])
  }
}
