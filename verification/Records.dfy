/** The outcome records a rule step produces, and the sentences the error records
    render to. */
module Records {
  import opened Ifc
  import opened Text
  import opened Edges

  /** The modal verb of a rule: "must" or "must not". */
  datatype Condition = Must | MustNot

  /** How a containment rule phrases the directness it asks for. */
  datatype Directness = Directly | Indirectly | DirectlyOrIndirectly | IndirectlyOrDirectly

  function DirectnessText(d: Directness): string
  {
    match d
    case Directly => "directly"
    case Indirectly => "indirectly"
    case DirectlyOrIndirectly => "directly or indirectly"
    case IndirectlyOrDirectly => "indirectly or directly"
  }

  /** What an error names on its "relating" side: an entity, an entity type name, or the
      set of type names a table allows. */
  datatype Ref = EntityRef(entity: Entity) | TypeRef(name: string) | TypeSetRef(names: set<string>)

  /** One outcome of a rule: an error, or (when passed rules are reported) a success. */
  datatype Record =
    | EdgeUseError(inst: Entity, edge: Edge, count: nat)
    | InstanceCountError(insts: seq<Entity>, typeName: string)
    | InstanceStructureError(related: Entity, relating: seq<Ref>, relationshipType: string,
                             condition: Option<Condition>, directness: Option<Directness>)
    | RuleSuccess(inst: Entity)
    | RuleSuccessInst(inst: Entity)
    | RuleSuccessInsts(inst: Entity)
  {
    predicate IsError()
    {
      EdgeUseError? || InstanceCountError? || InstanceStructureError?
    }
  }

  /** What a Then step hands to the reporter: its records, or nothing because it stopped
      on an exception (an entity name the schema does not know, an index out of range, an
      unsupported geometry kind). */
  datatype StepResult = Done(records: seq<Record>) | Aborted

  /** `rs` lists every record of `items` exactly once, in some order. */
  ghost predicate IsListing(rs: seq<Record>, items: set<Record>)
  {
    (forall i, j :: 0 <= i < j < |rs| ==> rs[i] != rs[j]) &&
    (forall i :: 0 <= i < |rs| ==> rs[i] in items) &&
    (forall r :: r in items ==> r in rs)
  }

  /** A listing has as many entries as the set has elements. */
  lemma {:induction false} ListingSize(rs: seq<Record>, items: set<Record>)
    requires IsListing(rs, items)
    ensures |rs| == |items|
    decreases |rs|
  {
    if rs != [] {
      var last := rs[|rs| - 1];
      var front := rs[..|rs| - 1];
      assert last !in front by {
        forall i | 0 <= i < |front| ensures front[i] != last {
          assert front[i] == rs[i];
        }
      }
      forall r | r in items - {last} ensures r in front {
        var i :| 0 <= i < |rs| && rs[i] == r;
        assert i < |rs| - 1;
        assert front[i] == r;
      }
      ListingSize(front, items - {last});
    }
  }

  // ---------------------------------------------------------------------------
  // Messages

  predicate StartsWith(s: string, prefix: string)
  {
    |prefix| <= |s| && s[..|prefix|] == prefix
  }

  /** `str` and `repr` of the values a message shows, which this model does not spell out. */
  datatype Renderer = Renderer(entity: Entity -> string, point: Point -> string,
                               strRef: Ref -> string, reprRef: Ref -> string)

  /** `fmt` of an edge. A pair of two points is shown as "p -- q" (unordered, in the set's
      iteration order, which is not fixed) or "p -> q" (ordered), and is never shortened;
      a degenerate unordered edge is shown as the set it is, shortened like any value. */
  ghost function EdgeText(e: Edge, show: Renderer): (r: string)
    ensures e.Directed? ==> r == show.point(e.start) + " -> " + show.point(e.end)
    ensures e.Undirected? && |e.ends| == 2 ==>
              exists a, b :: a in e.ends && b in e.ends && a != b && r == show.point(a) + " -- " + show.point(b)
    ensures e.Undirected? && |e.ends| != 2 ==> |r| <= MaxShown
  {
    match e
    case Directed(a, b) => show.point(a) + " -> " + show.point(b)
    case Undirected(ends) =>
      if |ends| == 2 then
        var a :| a in ends;
        assert |ends - {a}| == 1;
        var b :| b in ends - {a};
        show.point(a) + " -- " + show.point(b)
      else if ends != {} then
        var a :| a in ends;
        Fmt("frozenset({" + show.point(a) + "})")
      else Fmt("frozenset()")
  }

  /** `edge_use_error.__str__`. */
  ghost function EdgeUseMessage(inst: Entity, edge: Edge, count: nat, show: Renderer): (r: string)
    ensures StartsWith(r, "On instance " + Fmt(show.entity(inst)) + " the edge ")
    ensures |r| >= 6 && r[|r| - 6..] == " times"
  {
    "On instance " + Fmt(show.entity(inst)) + " the edge " + EdgeText(edge, show) +
    " was referenced " + Fmt(NatToString(count)) + " times"
  }

  function FmtEntities(insts: seq<Entity>, show: Renderer): (r: seq<string>)
    ensures |r| == |insts|
    ensures forall i :: 0 <= i < |insts| ==> r[i] == Fmt(show.entity(insts[i])) && |r[i]| <= MaxShown
  {
    seq(|insts|, i requires 0 <= i < |insts| => Fmt(show.entity(insts[i])))
  }

  /** `instance_count_error.__str__`: a fixed sentence when no instance was found, otherwise
      the count and the shortened instances separated by ";". */
  function CountMessage(insts: seq<Entity>, typeName: string, show: Renderer): (r: string)
    ensures insts == [] ==> r == "No instances of type " + typeName + " were encountered"
    ensures insts != [] ==>
              StartsWith(r, "The following " + NatToString(|insts|) + " instances of type " + typeName + " were encountered: ")
  {
    if |insts| > 0 then
      "The following " + NatToString(|insts|) + " instances of type " + typeName + " were encountered: " +
      Join(";", FmtEntities(insts, show))
    else
      "No instances of type " + typeName + " were encountered"
  }

  /** The verb of a single-target structure error: "is not" exactly when the rule said "must". */
  function PosNeg(condition: Option<Condition>): (r: string)
    ensures r == "is not" <==> condition == Some(Must)
    ensures r != "is not" ==> r == "is"
  {
    if condition == Some(Must) then "is not" else "is"
  }

  /** `instance_structure_error.__str__`: several targets are listed, a single one is named
      with the rule's verb and directness (empty when the rule gave none), and no target at
      all reads "is not ... anything" with the instance shown in full. */
  function StructureMessage(related: Entity, relating: seq<Ref>, relationshipType: string,
                            condition: Option<Condition>, directness: Option<Directness>,
                            show: Renderer): (r: string)
    ensures |relating| > 1 ==>
              StartsWith(r, "The instance " + Fmt(show.entity(related)) + " is " + relationshipType +
                            " the following " + NatToString(|relating|) + " instances: ")
    ensures |relating| == 1 ==>
              StartsWith(r, "The instance " + Fmt(show.entity(related)) + " " + PosNeg(condition) + " ")
    ensures |relating| == 0 ==> r == "This instance " + show.entity(related) + " is not " + relationshipType + " anything"
  {
    var d := match directness case Some(x) => DirectnessText(x) case None => "";
    if |relating| > 1 then
      "The instance " + Fmt(show.entity(related)) + " is " + relationshipType + " the following " +
      NatToString(|relating|) + " instances: " +
      Join(";", seq(|relating|, i requires 0 <= i < |relating| => Fmt(show.strRef(relating[i]))))
    else if |relating| == 1 then
      "The instance " + Fmt(show.entity(related)) + " " + PosNeg(condition) + " " + d + " " +
      relationshipType + " in " + Fmt("[" + show.reprRef(relating[0]) + "]")
    else
      "This instance " + show.entity(related) + " is not " + relationshipType + " anything"
  }
}
