/** The older containment step of the main step module, as written: it keeps the
    "indirectly contained" flag in one variable for the whole loop, so an element whose
    containing structure decomposes nothing is judged with the previous element's flag (or
    the step fails on the first element, when the flag was never set), and it records the
    target type name itself, not a one-element list, as the relating side. */
module LegacyContainment {
  import opened Ifc
  import opened Text
  import opened Records
  import opened Relations

  /** The flag after the element's turn, given its value before (`None`: never set). */
  function IndirectAfter(e: Entity, other: string, before: Option<bool>): (r: Option<bool>)
    ensures |e.containedInStructure| == 0 ==> r == Some(false)
    ensures r.None? <==> before.None? && |e.containedInStructure| > 0 &&
                         |e.containedInStructure[0].relatingStructure.decomposes| == 0
  {
    if |e.containedInStructure| == 0 then Some(false)
    else
      var s := e.containedInStructure[0].relatingStructure;
      if |s.decomposes| == 0 then before
      else Some(exists a :: a in Ancestors(s) && IsA(a, other))
  }

  function DirectlyIn(e: Entity, other: string): bool
  {
    |e.containedInStructure| > 0 && IsA(e.containedInStructure[0].relatingStructure, other)
  }

  /** Whether the element is reported, evaluating the flag only where the condition chain
      reaches it; `None` when it reads a flag that was never set. */
  function LegacyFails(direct: bool, indirect: Option<bool>, cond: Condition, d: Directness): (r: Option<bool>)
    ensures r.None? <==> indirect.None? && d != Directly && (d == Indirectly || !direct)
    ensures d == Directly ==> r == Some((cond == Must) != direct)
  {
    match d
    case Directly => Some(if cond == Must then !direct else direct)
    case Indirectly =>
      if indirect.None? then None else Some(if cond == Must then !indirect.value else indirect.value)
    case _ =>
      if direct then Some(cond == MustNot)
      else if indirect.None? then None
      else Some(if cond == Must then !indirect.value else indirect.value)
  }

  /** The target as the older step records it: the type name, whose characters a message
      then counts and lists one by one. */
  function NameAsTargets(other: string): (r: seq<Ref>)
    ensures |r| == |other|
  {
    seq(|other|, i requires 0 <= i < |other| => TypeRef([other[i]]))
  }

  /** The records of the older step over `es`, starting with the flag `before`; `None` when
      the step fails on an unset flag. */
  function LegacyRecords(es: seq<Entity>, cond: Condition, d: Directness, relType: string, other: string,
                         before: Option<bool>): (r: Option<seq<Record>>)
    ensures d == Directly ==> r.Some?
    ensures r.Some? ==> |r.value| <= |es|
    ensures r.Some? ==> forall x :: x in r.value ==>
              x.InstanceStructureError? && x.related in es && x.relating == NameAsTargets(other) &&
              x.relationshipType == relType && x.condition == Some(cond) && x.directness == Some(d)
    decreases |es|
  {
    if es == [] then Some([])
    else
      var flag := IndirectAfter(es[0], other, before);
      var fails := LegacyFails(DirectlyIn(es[0], other), flag, cond, d);
      var rest := LegacyRecords(es[1..], cond, d, relType, other, flag);
      if fails.None? || rest.None? then None
      else
        var err := InstanceStructureError(es[0], NameAsTargets(other), relType, Some(cond), Some(d));
        Some(if fails.value then [err] + rest.value else rest.value)
  }

  /** A type with no supertypes known to the example. */
  function Plain(id: nat, t: string, decomposes: seq<AggregationRel>): Entity
  {
    Entity(id, [t], map[], [], decomposes, OtherShape)
  }

  /** Two walls: the first sits in a storey of a building, the second in a storey that is
      part of nothing. "Each wall must be indirectly contained in a building" holds for the
      first only, yet the older step reports neither, because the second inherits the
      first's flag; the relation rule reports the second. */
  lemma StaleIndirectFlag()
    ensures var building := Plain(1, "IfcBuilding", []);
            var storey := Plain(2, "IfcBuildingStorey", [AggregationRel(building, [])]);
            var loose := Plain(3, "IfcBuildingStorey", []);
            var w1 := Entity(4, ["IfcWall"], map[], [ContainmentRel(storey)], [], OtherShape);
            var w2 := Entity(5, ["IfcWall"], map[], [ContainmentRel(loose)], [], OtherShape);
            LegacyRecords([w1, w2], Must, Indirectly, "contained", "IfcBuilding", None) == Some([]) &&
            !ContainmentFails(w1, Must, Indirectly, "IfcBuilding") &&
            ContainmentFails(w2, Must, Indirectly, "IfcBuilding") &&
            ContainmentRecords([w1, w2], Must, Indirectly, "IfcBuilding", false) ==
              [InstanceStructureError(w2, [TypeRef("IfcBuilding")], "contained", Some(Must), Some(Indirectly))]
  {
    var building := Plain(1, "IfcBuilding", []);
    var storey := Plain(2, "IfcBuildingStorey", [AggregationRel(building, [])]);
    var loose := Plain(3, "IfcBuildingStorey", []);
    var w1 := Entity(4, ["IfcWall"], map[], [ContainmentRel(storey)], [], OtherShape);
    var w2 := Entity(5, ["IfcWall"], map[], [ContainmentRel(loose)], [], OtherShape);
    assert Ancestors(storey) == [building];
    assert building in Ancestors(storey) && IsA(building, "IfcBuilding");
    assert Ancestors(loose) == [];
    assert [w1, w2][1..] == [w2];
    assert [w1, w2][..1] == [w1];
    assert Observed(w2, "IfcBuilding") == {};
    assert IndirectAfter(w1, "IfcBuilding", None) == Some(true);
    assert IndirectAfter(w2, "IfcBuilding", Some(true)) == Some(true);
    assert !DirectlyIn(w2, "IfcBuilding") by {
      assert |"IfcBuilding"| != |"IfcBuildingStorey"|;
    }
    assert [w2][0] == w2 && [w2][1..] == [];
    assert LegacyRecords([w2], Must, Indirectly, "contained", "IfcBuilding", Some(true)) == Some([]);
    assert !DirectlyIn(w1, "IfcBuilding") by {
      assert |"IfcBuilding"| != |"IfcBuildingStorey"|;
    }
    assert [w1, w2][0] == w1;
    assert ContainmentRecords([w1], Must, Indirectly, "IfcBuilding", false) == [] by {
      assert [w1][..0] == [];
    }
  }

  /** On the very first element the flag may never have been set: the older step then fails
      outright instead of reporting the element. */
  lemma UnsetIndirectFlag()
    ensures var loose := Plain(3, "IfcBuildingStorey", []);
            var w := Entity(5, ["IfcWall"], map[], [ContainmentRel(loose)], [], OtherShape);
            LegacyRecords([w], Must, Indirectly, "contained", "IfcBuilding", None).None?
  {
  }

  /** Setting the flag afresh for every element (false unless the chain is walked) turns the
      older step's decision into the relation rule's. */
  lemma FreshFlagAgreesWithRelations(e: Entity, cond: Condition, d: Directness, other: string)
    ensures LegacyFails(DirectlyIn(e, other), IndirectAfter(e, other, Some(false)), cond, d) ==
            Some(ContainmentFails(e, cond, d, other))
  {
    if |e.containedInStructure| > 0 {
      var s := e.containedInStructure[0].relatingStructure;
      if |s.decomposes| == 0 {
        assert Ancestors(s) == [];
      }
      assert Indirect in Observed(e, other) <==> exists a :: a in Ancestors(s) && IsA(a, other);
    }
    ModesIntersect(RequiredModes(d), Observed(e, other));
  }

  /** The older step's error names a multi-letter target type by its letters: the message
      says the element "is contained the following N instances", N the length of the name. */
  lemma LegacyMessageCountsLetters(e: Entity, cond: Condition, d: Directness, relType: string, other: string,
                                   show: Renderer)
    requires |other| > 1
    ensures StartsWith(StructureMessage(e, NameAsTargets(other), relType, Some(cond), Some(d), show),
                       "The instance " + Fmt(show.entity(e)) + " is " + relType + " the following " +
                       NatToString(|other|) + " instances: ")
  {
  }

  /** Recorded as a one-element list, the target gives the sentence the message was written
      for: "is not" exactly when the rule said "must", then the directness and the target. */
  lemma ListedTargetMessage(e: Entity, cond: Condition, d: Directness, relType: string, other: string,
                            show: Renderer)
    ensures var msg := StructureMessage(e, [TypeRef(other)], relType, Some(cond), Some(d), show);
            StartsWith(msg, "The instance " + Fmt(show.entity(e)) + " " + PosNeg(Some(cond)) + " ") &&
            (PosNeg(Some(cond)) == "is not" <==> cond == Must)
  {
  }
}
