/** The relation rules: containment with a required directness, aggregation as per a
    table of allowed parent types, and the assigned-to rule that can report passed checks. */
module Relations {
  import opened Ifc
  import opened Records
  import opened Steps

  // ---------------------------------------------------------------------------
  // Containment

  /** The two ways an element can be contained in something: its own containing
      structure is one, or a structure further up the Decomposes chain is. */
  datatype Mode = Direct | Indirect

  /** The modes a rule's directness accepts: "directly or indirectly" (in either word
      order) accepts both. */
  function RequiredModes(d: Directness): (r: set<Mode>)
    ensures Direct in r <==> d != Indirectly
    ensures Indirect in r <==> d != Directly
  {
    match d
    case Directly => {Direct}
    case Indirectly => {Indirect}
    case DirectlyOrIndirectly => {Direct, Indirect}
    case IndirectlyOrDirectly => {Direct, Indirect}
  }

  /** Two sets of modes share one exactly when both contain `Direct` or both contain `Indirect`. */
  lemma ModesIntersect(a: set<Mode>, b: set<Mode>)
    ensures a * b != {} <==> (Direct in a && Direct in b) || (Indirect in a && Indirect in b)
  {
    if a * b != {} {
      var m :| m in a * b;
      match m
      case Direct =>
      case Indirect =>
    }
    if Direct in a && Direct in b {
      assert Direct in a * b;
    }
    if Indirect in a && Indirect in b {
      assert Indirect in a * b;
    }
  }

  /** The structures above `s`, nearest first, each reached through the first Decomposes
      relation of the one before; the chain ends at a structure that decomposes nothing. */
  function Ancestors(s: Entity): (r: seq<Entity>)
    ensures r == [] <==> |s.decomposes| == 0
    ensures r != [] ==> r[0] == s.decomposes[0].relatingObject
    decreases s
  {
    if |s.decomposes| == 0 then []
    else
      assert s.decomposes[0] in s.decomposes;
      [s.decomposes[0].relatingObject] + Ancestors(s.decomposes[0].relatingObject)
  }

  /** The parent of a structure along the chain, if it has one. */
  function Parent(s: Entity): Option<Entity>
  {
    if |s.decomposes| == 0 then None else Some(s.decomposes[0].relatingObject)
  }

  /** `Ancestors` is the chain of parents: its first element is the parent of `s`, each
      further one the parent of the one before, and the last has no parent. */
  lemma {:induction false} AncestorsAreParentChain(s: Entity)
    ensures Ancestors(s) == [] <==> Parent(s).None?
    ensures Ancestors(s) != [] ==> Some(Ancestors(s)[0]) == Parent(s)
    ensures forall k :: 0 < k < |Ancestors(s)| ==> Some(Ancestors(s)[k]) == Parent(Ancestors(s)[k - 1])
    ensures Ancestors(s) != [] ==> Parent(Ancestors(s)[|Ancestors(s)| - 1]).None?
    decreases s
  {
    if |s.decomposes| > 0 {
      var p := s.decomposes[0].relatingObject;
      assert s.decomposes[0] in s.decomposes;
      AncestorsAreParentChain(p);
      var a := Ancestors(s);
      assert a == [p] + Ancestors(p);
      forall k | 0 < k < |a| ensures Some(a[k]) == Parent(a[k - 1]) {
        assert a[k] == Ancestors(p)[k - 1];
        if k > 1 {
          assert a[k - 1] == Ancestors(p)[k - 2];
        }
      }
    }
  }

  /** Which modes of containment in `other` the element shows: direct when its first
      containing structure is an `other`, indirect when some structure up the chain from
      there is. An element contained in nothing shows neither. */
  function Observed(e: Entity, other: string): (r: set<Mode>)
    ensures |e.containedInStructure| == 0 ==> r == {}
    ensures Direct in r <==> |e.containedInStructure| > 0 && IsA(e.containedInStructure[0].relatingStructure, other)
  {
    if |e.containedInStructure| == 0 then {}
    else
      var s := e.containedInStructure[0].relatingStructure;
      (if IsA(s, other) then {Direct} else {}) +
      (if exists a :: a in Ancestors(s) && IsA(a, other) then {Indirect} else {})
  }

  /** Walks up the chain from the containing structure, stopping at the first `other`. */
  method ObserveContainment(e: Entity, other: string) returns (observed: set<Mode>)
    ensures observed == Observed(e, other)
  {
    observed := {};
    if |e.containedInStructure| > 0 {
      var s := e.containedInStructure[0].relatingStructure;
      if IsA(s, other) {
        observed := {Direct};
      }
      var cur := s;
      ghost var seen: seq<Entity> := [];
      while |cur.decomposes| > 0
        invariant Ancestors(s) == seen + Ancestors(cur)
        invariant forall a :: a in seen ==> !IsA(a, other)
        invariant observed == (if IsA(s, other) then {Direct} else {})
        decreases cur
      {
        assert cur.decomposes[0] in cur.decomposes;
        var next := cur.decomposes[0].relatingObject;
        assert Ancestors(cur) == [next] + Ancestors(next);
        seen := seen + [next];
        cur := next;
        if IsA(cur, other) {
          assert cur in Ancestors(s);
          observed := observed + {Indirect};
          break;
        }
      }
    }
  }

  /** The rule fails for the element when whether it shows an accepted mode differs from
      whether the rule says "must". */
  function ContainmentFails(e: Entity, cond: Condition, d: Directness, other: string): (fails: bool)
    ensures fails <==> (cond == Must) != ((d != Indirectly && Direct in Observed(e, other)) ||
                                         (d != Directly && Indirect in Observed(e, other)))
  {
    ModesIntersect(RequiredModes(d), Observed(e, other));
    (RequiredModes(d) * Observed(e, other) != {}) != (cond == Must)
  }

  /** For any element, exactly one of "must" and "must not" holds; an element contained in
      nothing fails every "must" and passes every "must not". */
  lemma ContainmentConditionsOpposite(e: Entity, d: Directness, other: string)
    ensures ContainmentFails(e, Must, d, other) != ContainmentFails(e, MustNot, d, other)
    ensures |e.containedInStructure| == 0 ==> ContainmentFails(e, Must, d, other) && !ContainmentFails(e, MustNot, d, other)
  {
  }

  /** Indirect containment is an `other` somewhere on the chain above the containing structure. */
  lemma IndirectMeaning(e: Entity, other: string)
    requires |e.containedInStructure| > 0
    ensures var s := e.containedInStructure[0].relatingStructure;
            Indirect in Observed(e, other) <==> exists k :: 0 <= k < |Ancestors(s)| && IsA(Ancestors(s)[k], other)
  {
    var s := e.containedInStructure[0].relatingStructure;
    var up := Ancestors(s);
    assert Indirect in Observed(e, other) <==> exists a :: a in up && IsA(a, other);
    if exists k :: 0 <= k < |up| && IsA(up[k], other) {
      var k :| 0 <= k < |up| && IsA(up[k], other);
      assert up[k] in up;
    }
    if exists a :: a in up && IsA(a, other) {
      var a :| a in up && IsA(a, other);
      var k :| 0 <= k < |up| && up[k] == a;
      assert 0 <= k < |Ancestors(s)| && IsA(Ancestors(s)[k], other);
    }
  }

  /** What "must be directly / indirectly / directly or indirectly contained" asks, in terms
      of the containing structure and the chain above it. */
  lemma ContainmentMustMeaning(e: Entity, d: Directness, other: string)
    requires |e.containedInStructure| > 0
    ensures var s := e.containedInStructure[0].relatingStructure;
            var indirect := exists k :: 0 <= k < |Ancestors(s)| && IsA(Ancestors(s)[k], other);
            !ContainmentFails(e, Must, d, other) <==>
              match d
              case Directly => IsA(s, other)
              case Indirectly => indirect
              case _ => IsA(s, other) || indirect
  {
    IndirectMeaning(e, other);
    ModesIntersect(RequiredModes(d), Observed(e, other));
  }

  /** The records of the containment rule for one element: an error naming the element and
      `other` when it fails, otherwise a success when passed rules are reported. */
  function ContainmentOutcome(e: Entity, cond: Condition, d: Directness, other: string, successes: bool): (r: seq<Record>)
    ensures |r| <= 1
    ensures ContainmentFails(e, cond, d, other) <==>
              r == [InstanceStructureError(e, [TypeRef(other)], "contained", Some(cond), Some(d))]
  {
    if ContainmentFails(e, cond, d, other) then
      [InstanceStructureError(e, [TypeRef(other)], "contained", Some(cond), Some(d))]
    else if successes then [RuleSuccess(e)]
    else []
  }

  /** The records of the containment rule over `es`, element by element. */
  function ContainmentRecords(es: seq<Entity>, cond: Condition, d: Directness, other: string, successes: bool): (r: seq<Record>)
    ensures |r| <= |es|
    ensures successes ==> |r| == |es|
    decreases |es|
  {
    if es == [] then []
    else ContainmentRecords(es[..|es| - 1], cond, d, other, successes) +
         ContainmentOutcome(es[|es| - 1], cond, d, other, successes)
  }

  /** Without success reporting the records are exactly the errors of the failing elements. */
  lemma {:induction false} ContainmentErrorsExact(es: seq<Entity>, cond: Condition, d: Directness, other: string)
    ensures forall r :: r in ContainmentRecords(es, cond, d, other, false) <==>
              exists e :: e in es && ContainmentFails(e, cond, d, other) &&
                          r == InstanceStructureError(e, [TypeRef(other)], "contained", Some(cond), Some(d))
    decreases |es|
  {
    if es != [] {
      var front, last := es[..|es| - 1], es[|es| - 1];
      ContainmentErrorsExact(front, cond, d, other);
      assert es == front + [last];
    }
  }

  /** With success reporting there is one record per element, and its errors are the
      records reported without it. */
  lemma {:induction false} ContainmentSuccessesOnlyAdd(es: seq<Entity>, cond: Condition, d: Directness, other: string)
    ensures |ContainmentRecords(es, cond, d, other, true)| == |es|
    ensures Filter(ContainmentRecords(es, cond, d, other, true), IsErrorFn()) == ContainmentRecords(es, cond, d, other, false)
    decreases |es|
  {
    if es != [] {
      var front, last := es[..|es| - 1], es[|es| - 1];
      ContainmentSuccessesOnlyAdd(front, cond, d, other);
      FilterAppend(ContainmentRecords(front, cond, d, other, true), ContainmentOutcome(last, cond, d, other, true), IsErrorFn());
    }
  }

  /** Runs the containment check over `es`. */
  method CollectContainment(es: seq<Entity>, cond: Condition, d: Directness, other: string, successes: bool)
    returns (records: seq<Record>)
    ensures records == ContainmentRecords(es, cond, d, other, successes)
  {
    records := [];
    var i := 0;
    while i < |es|
      invariant 0 <= i <= |es|
      invariant records == ContainmentRecords(es[..i], cond, d, other, successes)
    {
      var observed := ObserveContainment(es[i], other);
      assert es[..i + 1][..i] == es[..i];
      if (RequiredModes(d) * observed != {}) != (cond == Must) {
        records := records + [InstanceStructureError(es[i], [TypeRef(other)], "contained", Some(cond), Some(d))];
      } else if successes {
        records := records + [RuleSuccess(es[i])];
      }
      i := i + 1;
    }
    assert es[..i] == es;
  }

  /** "Each {entity} must / must not be {directness} contained in {other}": checked only
      when something is selected and the rule applies; then every instance of `entity` is
      checked (a failed step when the schema has no such entity). */
  method ThenContained(ctx: Context, entity: string, cond: Condition, d: Directness, other: string)
    returns (res: StepResult)
    ensures ctx.instances == [] || !ctx.applicable ==> res == Done([])
    ensures ctx.instances != [] && ctx.applicable ==> (res.Aborted? <==> entity !in ctx.model.schemaTypes)
    ensures ctx.instances != [] && ctx.applicable && entity in ctx.model.schemaTypes ==>
              res == Done(ContainmentRecords(ByType(ctx.model, entity).value, cond, d, other, ctx.errorOnPassedRule))
  {
    if ctx.instances == [] || !ctx.applicable {
      return Done([]);
    }
    var es := ByType(ctx.model, entity);
    if es.None? {
      return Aborted;
    }
    var records := CollectContainment(es.value, cond, d, other, ctx.errorOnPassedRule);
    return Done(records);
  }

  // ---------------------------------------------------------------------------
  // Aggregation as per a table

  /** The column of the table that names the expected objects of the first Decomposes
      relation: its parent, or its siblings. */
  datatype TargetAttribute = RelatingObject | RelatedObjects

  /** The objects named by `attr` on the first Decomposes relation of `e`: its parent, or
      every related object of that relation, `e` itself included. */
  function Targets(e: Entity, attr: TargetAttribute): (r: seq<Entity>)
    requires |e.decomposes| > 0
    ensures attr == RelatingObject ==> r == [e.decomposes[0].relatingObject]
    ensures attr == RelatedObjects ==> e in r && |r| == |e.decomposes[0].relatedObjects| + 1 &&
                                       forall t :: t in e.decomposes[0].relatedObjects ==> t in r
  {
    match attr
    case RelatingObject => [e.decomposes[0].relatingObject]
    case RelatedObjects => [e] + e.decomposes[0].relatedObjects
  }

  /** `t` is an instance of one of the allowed types. */
  function Allowed(t: Entity, expected: set<string>): (b: bool)
    ensures b <==> exists x :: x in t.lineage && x in expected
    ensures expected == {} ==> !b
  {
    exists x :: x in expected && IsA(t, x)
  }

  function NotAllowed(expected: set<string>): Entity -> bool
  {
    (t: Entity) => !Allowed(t, expected)
  }

  /** The table rows that apply to `e`: the types it is an instance of. */
  function ApplicableKeys(e: Entity, table: map<string, set<string>>): (r: set<string>)
    ensures forall k :: k in r <==> k in table && IsA(e, k)
  {
    set k | k in table && IsA(e, k)
  }

  /** One error per target that is not allowed, each naming the allowed types. */
  function TargetErrors(ts: seq<Entity>, expected: set<string>, err: Record): (r: seq<Record>)
    ensures |r| <= |ts|
    ensures forall x :: x in r ==> x == err
    decreases |ts|
  {
    if ts == [] then []
    else TargetErrors(ts[..|ts| - 1], expected, err) + (if Allowed(ts[|ts| - 1], expected) then [] else [err])
  }

  /** There are as many errors as targets that are not allowed. */
  lemma {:induction false} TargetErrorsCount(ts: seq<Entity>, expected: set<string>, err: Record)
    ensures |TargetErrors(ts, expected, err)| == |Filter(ts, NotAllowed(expected))|
    decreases |ts|
  {
    if ts != [] {
      var front, last := ts[..|ts| - 1], ts[|ts| - 1];
      TargetErrorsCount(front, expected, err);
      assert ts == front + [last];
      FilterAppend(front, [last], NotAllowed(expected));
      assert [last][1..] == [];
    }
  }

  /** There are no errors exactly when every target is allowed. */
  lemma {:induction false} TargetErrorsNone(ts: seq<Entity>, expected: set<string>, err: Record)
    ensures TargetErrors(ts, expected, err) == [] <==> forall t :: t in ts ==> Allowed(t, expected)
    decreases |ts|
  {
    if ts != [] {
      var front, last := ts[..|ts| - 1], ts[|ts| - 1];
      TargetErrorsNone(front, expected, err);
      assert ts == front + [last];
      if !Allowed(last, expected) {
        assert TargetErrors(ts, expected, err) != [];
      }
    }
  }

  /** The error the table rule reports for `e`. */
  function TableError(e: Entity, expected: set<string>): (r: Record)
    ensures r.IsError() && r.InstanceStructureError? && r.related == e
    ensures r.relating == [TypeSetRef(expected)] && r.relationshipType == "related to"
    ensures r.condition == Some(Must) && r.directness.None?
  {
    InstanceStructureError(e, [TypeSetRef(expected)], "related to", Some(Must), None)
  }

  /** The records of the table rule for one instance. Only the row of its most specific
      applicable type counts; an instance no row applies to is not checked. With no
      Decomposes relation it gets one error; otherwise one error per target of its first
      relation that is not allowed, followed by a success when there was at least one
      target and all were allowed. */
  function TableOutcome(e: Entity, table: map<string, set<string>>, attr: TargetAttribute): (r: seq<Record>)
    ensures r == [] <==> forall k :: k in table ==> !IsA(e, k)
  {
    match OrderByInheritance(e, ApplicableKeys(e, table))
    case None => []
    case Some(key) =>
      var expected := table[key];
      if |e.decomposes| == 0 then [TableError(e, expected)]
      else
        var ts := Targets(e, attr);
        TargetErrorsNone(ts, expected, TableError(e, expected));
        TargetErrors(ts, expected, TableError(e, expected)) +
        (if |ts| > 0 && forall t :: t in ts ==> Allowed(t, expected) then [RuleSuccessInsts(e)] else [])
  }

  /** What one instance gets from the table rule: nothing when no row applies; otherwise the
      row used is the most specific applicable one, and the instance gets either errors only
      or a single success, the success exactly when its first relation has targets and all
      of them are allowed by that row. */
  lemma TableOutcomeMeaning(e: Entity, table: map<string, set<string>>, attr: TargetAttribute)
    ensures (forall k :: k in table ==> !IsA(e, k)) ==> TableOutcome(e, table, attr) == []
    ensures OrderByInheritance(e, ApplicableKeys(e, table)).Some? ==>
              var key := OrderByInheritance(e, ApplicableKeys(e, table)).value;
              var expected := table[key];
              var out := TableOutcome(e, table, attr);
              key in table && IsA(e, key) &&
              (forall k :: k in table && IsA(e, k) ==> exists j :: 0 <= j < |e.lineage| && e.lineage[j] == key &&
                                                          k in e.lineage[..j + 1]) &&
              (|e.decomposes| == 0 ==> out == [TableError(e, expected)]) &&
              (|e.decomposes| > 0 ==>
                 var ts := Targets(e, attr);
                 (out == [RuleSuccessInsts(e)] <==> |ts| > 0 && forall t :: t in ts ==> Allowed(t, expected)) &&
                 (out != [RuleSuccessInsts(e)] ==>
                    |out| == |Filter(ts, NotAllowed(expected))| && forall r :: r in out ==> r == TableError(e, expected)))
  {
    if OrderByInheritance(e, ApplicableKeys(e, table)).Some? {
      var key := OrderByInheritance(e, ApplicableKeys(e, table)).value;
      var expected := table[key];
      if |e.decomposes| > 0 {
        var ts := Targets(e, attr);
        var errs := TargetErrors(ts, expected, TableError(e, expected));
        TargetErrorsCount(ts, expected, TableError(e, expected));
        TargetErrorsNone(ts, expected, TableError(e, expected));
        if |ts| > 0 && forall t :: t in ts ==> Allowed(t, expected) {
          assert errs == [];
          assert TableOutcome(e, table, attr) == errs + [RuleSuccessInsts(e)];
        } else {
          assert TableOutcome(e, table, attr) == errs;
          assert RuleSuccessInsts(e) !in errs;
        }
      }
    }
  }

  /** With the parent column, an instance some row applies to gets exactly one record. */
  lemma RelatingObjectOneRecord(e: Entity, table: map<string, set<string>>)
    requires exists k :: k in table && IsA(e, k)
    ensures |TableOutcome(e, table, RelatingObject)| == 1
  {
    var k :| k in table && IsA(e, k);
    assert k in ApplicableKeys(e, table);
    if |e.decomposes| > 0 {
      var key := OrderByInheritance(e, ApplicableKeys(e, table)).value;
      var expected := table[key];
      var ts := Targets(e, RelatingObject);
      TargetErrorsCount(ts, expected, TableError(e, expected));
      TargetErrorsNone(ts, expected, TableError(e, expected));
      assert ts == [e.decomposes[0].relatingObject];
      assert ts[..0] == [];
    }
  }

  /** The records of the table rule over `insts`, instance by instance. */
  function TableRecords(insts: seq<Entity>, table: map<string, set<string>>, attr: TargetAttribute): (r: seq<Record>)
    ensures r == [] <==> forall i :: 0 <= i < |insts| ==> forall k :: k in table ==> !IsA(insts[i], k)
    decreases |insts|
  {
    if insts == [] then []
    else TableRecords(insts[..|insts| - 1], table, attr) + TableOutcome(insts[|insts| - 1], table, attr)
  }

  /** Collects the table rows that apply to `e`, one key at a time. */
  method FindApplicableKeys(e: Entity, table: map<string, set<string>>) returns (applicable: set<string>)
    ensures applicable == ApplicableKeys(e, table)
  {
    var remaining := table.Keys;
    applicable := {};
    while remaining != {}
      invariant remaining <= table.Keys
      invariant applicable == set k | k in table.Keys - remaining && IsA(e, k)
      decreases remaining
    {
      var k :| k in remaining;
      if IsA(e, k) {
        applicable := applicable + {k};
      }
      remaining := remaining - {k};
    }
  }

  /** The loop over the targets of a relation: one error per target that is not allowed,
      and whether there were targets and all of them were allowed. */
  method CheckTargets(ts: seq<Entity>, expected: set<string>, err: Record) returns (records: seq<Record>, allCorrect: bool)
    ensures records == TargetErrors(ts, expected, err)
    ensures allCorrect <==> |ts| > 0 && forall t :: t in ts ==> Allowed(t, expected)
  {
    allCorrect := |ts| > 0;
    records := [];
    var i := 0;
    while i < |ts|
      invariant 0 <= i <= |ts|
      invariant records == TargetErrors(ts[..i], expected, err)
      invariant allCorrect <==> |ts| > 0 && forall t :: t in ts[..i] ==> Allowed(t, expected)
    {
      assert ts[..i + 1][..i] == ts[..i];
      assert ts[..i + 1] == ts[..i] + [ts[i]];
      if !Allowed(ts[i], expected) {
        allCorrect := false;
        records := records + [err];
      }
      i := i + 1;
    }
    assert ts[..i] == ts;
  }

  /** Checks one instance against the table. */
  method CheckAgainstTable(e: Entity, table: map<string, set<string>>, attr: TargetAttribute)
    returns (records: seq<Record>)
    ensures records == TableOutcome(e, table, attr)
  {
    var applicable := FindApplicableKeys(e, table);
    var chosen := OrderByInheritance(e, applicable);
    if chosen.None? {
      return [];
    }
    var expected := table[chosen.value];
    var err := TableError(e, expected);
    if |e.decomposes| == 0 {
      return [err];
    }
    var allCorrect;
    records, allCorrect := CheckTargets(Targets(e, attr), expected, err);
    if allCorrect {
      records := records + [RuleSuccessInsts(e)];
    }
  }

  /** Checks every instance of `insts` against the table, in order. */
  method CheckAllAgainstTable(insts: seq<Entity>, table: map<string, set<string>>, attr: TargetAttribute)
    returns (records: seq<Record>)
    ensures records == TableRecords(insts, table, attr)
  {
    records := [];
    var i := 0;
    while i < |insts|
      invariant 0 <= i <= |insts|
      invariant records == TableRecords(insts[..i], table, attr)
    {
      var rs := CheckAgainstTable(insts[i], table, attr);
      assert insts[..i + 1][..i] == insts[..i];
      records := records + rs;
      i := i + 1;
    }
    assert insts[..i] == insts;
  }

  /** "It must be aggregated as per {table}": when the rule applies, every selected instance
      is checked against the table, in selection order. */
  method ThenAggregatedAsPerTable(ctx: Context, table: map<string, set<string>>, attr: TargetAttribute)
    returns (records: seq<Record>)
    ensures !ctx.applicable ==> records == []
    ensures ctx.applicable ==> records == TableRecords(ctx.instances, table, attr)
  {
    if !ctx.applicable {
      return [];
    }
    records := CheckAllAgainstTable(ctx.instances, table, attr);
  }

  // ---------------------------------------------------------------------------
  // Assigned to

  /** "The {related} must be assigned to the {relating} if {other} is / is not present":
      the same check as the older step, reporting a success for every relation that passes
      when passed rules are reported. */
  method ThenAssignedTo(ctx: Context, related: string, relating: string, other: string, presence: Presence)
    returns (res: StepResult)
    ensures res == AssignedStep(ctx.model, ctx.applicable, related, relating, other, presence, ctx.errorOnPassedRule)
    ensures res.Done? && res.records != [] ==>
              Filter(res.records, IsErrorFn()) ==
              AssignedStep(ctx.model, ctx.applicable, related, relating, other, presence, false).records
  {
    res := RunAssigned(ctx, related, relating, other, presence, ctx.errorOnPassedRule);
    if res.Done? && res.records != [] {
      var insts := ByType(ctx.model, related).value;
      AssignedRecordsShape(insts, relating);
      FilterIdempotent(AssignedRecords(insts, relating, true), IsErrorFn());
    }
  }
}
