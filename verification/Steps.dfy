/** The rule context and the steps of the main step module: selecting instances, the
    file-level applicability checks, and the edge-use, instance-count and (older)
    assigned-to rules. */
module Steps {
  import opened Ifc
  import opened Text
  import opened Edges
  import opened Records

  /** The state one rule's steps share: the model under check, whether passed rules are
      reported, the currently selected instances and whether the rule applies to the file
      at all (it does until a file-level check says otherwise). */
  class Context {
    const model: IfcFile
    const errorOnPassedRule: bool
    var instances: seq<Entity>
    var applicable: bool

    constructor (model: IfcFile, errorOnPassedRule: bool)
      ensures this.model == model && this.errorOnPassedRule == errorOnPassedRule
      ensures instances == [] && applicable
    {
      this.model := model;
      this.errorOnPassedRule := errorOnPassedRule;
      instances := [];
      applicable := true;
    }
  }

  // ---------------------------------------------------------------------------
  // Given steps

  /** The instances "An {entity}" selects: those of the type and its subtypes, or none
      when the schema has no entity of that name. */
  function Selected(model: IfcFile, entity: string): (r: seq<Entity>)
    ensures forall e :: e in r <==> entity in model.schemaTypes && e in model.entities && IsA(e, entity)
  {
    match ByType(model, entity)
    case Some(es) => es
    case None => []
  }

  /** "An {entity}". */
  method GivenEntity(ctx: Context, entity: string)
    modifies ctx
    ensures ctx.instances == Selected(ctx.model, entity)
    ensures ctx.applicable == old(ctx.applicable)
  {
    var found := ByType(ctx.model, entity);
    if found.Some? {
      ctx.instances := found.value;
    } else {
      ctx.instances := [];
    }
  }

  predicate HasValue(e: Entity, attribute: string, value: Value)
  {
    attribute in e.attributes && e.attributes[attribute] == value
  }

  function Matches(attribute: string, value: Value): Entity -> bool
  {
    e => HasValue(e, attribute, value)
  }

  predicate AllHave(insts: seq<Entity>, attribute: string)
  {
    forall k :: 0 <= k < |insts| ==> attribute in insts[k].attributes
  }

  lemma AllHaveSnoc(insts: seq<Entity>, e: Entity, attribute: string)
    requires AllHave(insts, attribute) && attribute in e.attributes
    ensures AllHave(insts + [e], attribute)
  {
  }

  /** "{attribute} = {value}" on a selection: the instances whose attribute equals the
      value, in their order; `None` when some instance has no such attribute (the lookup
      raises and the step fails). */
  function AttributeFilter(insts: seq<Entity>, attribute: string, value: Value): (r: Option<seq<Entity>>)
    ensures r.Some? <==> forall e :: e in insts ==> attribute in e.attributes
    ensures r.Some? ==> forall e :: e in r.value <==> e in insts && e.attributes[attribute] == value
  {
    if AllHave(insts, attribute) then Some(Filter(insts, Matches(attribute, value)))
    else None
  }

  /** Filtering a selection keeps each matching instance as often as it was selected and in
      the same relative order: the kept instances of a concatenation are the kept instances
      of each part, concatenated. */
  lemma AttributeFilterSplits(s: seq<Entity>, t: seq<Entity>, attribute: string, value: Value)
    requires AttributeFilter(s + t, attribute, value).Some?
    ensures AttributeFilter(s, attribute, value).Some? && AttributeFilter(t, attribute, value).Some?
    ensures AttributeFilter(s + t, attribute, value).value ==
            AttributeFilter(s, attribute, value).value + AttributeFilter(t, attribute, value).value
  {
    FilterAppend(s, t, Matches(attribute, value));
  }

  /** Goes through the selection once, keeping the matching instances; stops at the
      first instance without the attribute. */
  method KeepMatching(insts: seq<Entity>, attribute: string, value: Value) returns (r: Option<seq<Entity>>)
    ensures r == AttributeFilter(insts, attribute, value)
  {
    var kept := [];
    var i := 0;
    while i < |insts|
      invariant 0 <= i <= |insts|
      invariant AllHave(insts[..i], attribute)
      invariant kept == Filter(insts[..i], Matches(attribute, value))
    {
      if attribute !in insts[i].attributes {
        return None;
      }
      FilterSnoc(insts[..i], insts[i], Matches(attribute, value));
      assert insts[..i + 1] == insts[..i] + [insts[i]];
      AllHaveSnoc(insts[..i], insts[i], attribute);
      if HasValue(insts[i], attribute, value) {
        kept := kept + [insts[i]];
      }
      i := i + 1;
    }
    assert insts[..i] == insts;
    return Some(kept);
  }

  /** "{attribute} = {value}": narrows the selection, or fails leaving it as it was. */
  method GivenAttribute(ctx: Context, attribute: string, value: Value) returns (ok: bool)
    modifies ctx
    ensures ok <==> AttributeFilter(old(ctx.instances), attribute, value).Some?
    ensures ok ==> ctx.instances == AttributeFilter(old(ctx.instances), attribute, value).value
    ensures !ok ==> ctx.instances == old(ctx.instances)
    ensures ctx.applicable == old(ctx.applicable)
  {
    var kept := KeepMatching(ctx.instances, attribute, value);
    if kept.None? {
      return false;
    }
    ctx.instances := kept.value;
    return true;
  }

  /** The header fields a file-level check can name. */
  datatype FileField = ModelViewDefinition | SchemaIdentifier | OtherField(name: string)

  /** A value as the file check compares it: no upper-case letter, no double quote at
      either end. */
  predicate Normalised(v: string)
  {
    (forall j :: 0 <= j < |v| ==> !('A' <= v[j] <= 'Z')) && (v == [] || (v[0] != '"' && v[|v| - 1] != '"'))
  }

  /** One alternative: surrounding double quotes stripped, then lower-cased. */
  function Normalise(piece: string): (v: string)
    ensures Normalised(v)
    ensures |v| <= |piece|
  {
    Lower(Strip(piece, '"'))
  }

  /** The value of a piece is the lower-cased slice left once the runs of double quotes at
      either end are taken away. */
  lemma NormaliseMeaning(piece: string)
    ensures var v := Normalise(piece);
            var i := RunEnd(piece, '"', 0);
            LowerOfSlice(v, piece, i) && OnlyAround(piece, '"', i, |v|)
  {
    LowerStrip(piece, '"');
  }

  /** The alternatives of 'A file with {field} "{values}"': one normalised value per piece of
      the text between occurrences of " or ". */
  function AcceptedValues(values: string): (vs: seq<string>)
    ensures |vs| == |Split(values, " or ")|
    ensures forall v :: v in vs ==> Normalised(v)
    ensures forall x :: x in vs <==> exists p :: p in Split(values, " or ") && x == Normalise(p)
  {
    var parts := Split(values, " or ");
    var vs := seq(|parts|, i requires 0 <= i < |parts| => Normalise(parts[i]));
    assert forall p :: p in parts ==> Normalise(p) in vs by {
      forall p | p in parts ensures Normalise(p) in vs {
        var i :| 0 <= i < |parts| && parts[i] == p;
        assert vs[i] == Normalise(p);
      }
    }
    vs
  }

  /** Whether the file passes the check; `None` for a field the step does not support. A
      missing or empty model view definition matches nothing. */
  function FileCheck(model: IfcFile, field: FileField, values: string): (r: Option<bool>)
    ensures r.None? <==> field.OtherField?
    ensures field.ModelViewDefinition? ==>
              (r == Some(true) <==> model.mvd.Some? && model.mvd.value != [] &&
                                    Lower(model.mvd.value) in AcceptedValues(values))
    ensures field.SchemaIdentifier? ==> (r == Some(true) <==> Lower(model.schema) in AcceptedValues(values))
  {
    match field
    case ModelViewDefinition =>
      Some(model.mvd.Some? && model.mvd.value != [] && Lower(model.mvd.value) in AcceptedValues(values))
    case SchemaIdentifier => Some(Lower(model.schema) in AcceptedValues(values))
    case OtherField(_) => None
  }

  /** Case does not matter on either side: a file value is accepted exactly when its
      lower-cased form is, whatever case the rule wrote the alternatives in. */
  lemma SchemaCheckIgnoresCase(model: IfcFile, values: string)
    ensures FileCheck(model, SchemaIdentifier, values) ==
            FileCheck(model.(schema := Lower(model.schema)), SchemaIdentifier, values)
  {
    LowerIdempotent(model.schema);
  }

  /** A value list without " or " is a single alternative. */
  lemma OnePiece(v: string)
    requires !Contains(v, " or ")
    ensures Split(v, " or ") == [v]
  {
  }

  /** An alternative, written with or without surrounding double quotes. */
  function Quoted(written: string, quoted: bool): string
  {
    if quoted then "\"" + written + "\"" else written
  }

  /** Quotes add no occurrence of " or ". */
  lemma QuotedNoSeparator(written: string, quoted: bool)
    requires !Contains(written, " or ")
    ensures !Contains(Quoted(written, quoted), " or ")
  {
    if quoted {
      var q := Quoted(written, quoted);
      forall j: nat | OccursAt(q, " or ", j) ensures false {
        assert q[j..j + 4][0] == ' ' && q[j..j + 4][3] == ' ';
        assert j != 0 && j + 3 != |q| - 1;
        assert written[j - 1..j + 3] == q[j..j + 4];
        assert OccursAt(written, " or ", j - 1);
      }
    }
  }

  /** Stripping the quotes of a quoted alternative gives it back. */
  lemma StripQuoted(written: string, quoted: bool)
    requires written == [] || (written[0] != '"' && written[|written| - 1] != '"')
    ensures Strip(Quoted(written, quoted), '"') == written
  {
    var v := Quoted(written, quoted);
    var i := if quoted then 1 else 0;
    assert v[i..i + |written|] == written;
    StripExact(v, '"', i, |written|);
  }

  /** A rule naming the file's schema accepts it: in any case, with or without surrounding
      double quotes, as long as the name itself has no quote at either end and no " or ". */
  lemma NamedSchemaAccepted(model: IfcFile, written: string, quoted: bool)
    requires Lower(written) == Lower(model.schema)
    requires written == [] || (written[0] != '"' && written[|written| - 1] != '"')
    requires !Contains(written, " or ")
    ensures FileCheck(model, SchemaIdentifier, Quoted(written, quoted)) == Some(true)
  {
    var v := Quoted(written, quoted);
    QuotedNoSeparator(written, quoted);
    OnePiece(v);
    StripQuoted(written, quoted);
    OneAlternative(v);
    assert Normalise(v) == Lower(written);
  }

  lemma OneAlternative(v: string)
    requires Split(v, " or ") == [v]
    ensures AcceptedValues(v) == [Normalise(v)]
  {
  }

  /** " or " separates alternatives: the file passes a two-part list exactly when it passes
      one of the parts. */
  lemma AlternativesDisjoin(model: IfcFile, field: FileField, a: string, b: string)
    requires !field.OtherField?
    requires FindFrom(a + " or " + b, " or ", 0) == |a|
    ensures FileCheck(model, field, a + " or " + b) ==
            Some(FileCheck(model, field, a).value || FileCheck(model, field, b).value)
  {
    var v := a + " or " + b;
    assert v[..|a|] == a && v[|a| + 4..] == b;
    assert Split(v, " or ") == [a] + Split(b, " or ");
    assert v == a + (" or " + b);
    PrefixFree(a, " or " + b, " or ");
    OnePiece(a);
    forall x ensures x in AcceptedValues(v) <==> x in AcceptedValues(a) || x in AcceptedValues(b) {
      if x in AcceptedValues(b) {
        var p :| p in Split(b, " or ") && x == Normalise(p);
        assert p in Split(v, " or ");
      }
      if x in AcceptedValues(a) {
        assert a in Split(v, " or ");
      }
    }
  }

  /** 'A file with {field} "{values}"': the rule stays applicable only while every file
      check so far has passed; an unsupported field fails the step. */
  method GivenFile(ctx: Context, field: FileField, values: string) returns (ok: bool)
    modifies ctx
    ensures ok <==> !field.OtherField?
    ensures ok ==> ctx.applicable == (old(ctx.applicable) && FileCheck(ctx.model, field, values) == Some(true))
    ensures !ok ==> ctx.applicable == old(ctx.applicable)
    ensures ctx.instances == old(ctx.instances)
  {
    var accepted := AcceptedValues(values);
    var passes: bool;
    match field {
      case ModelViewDefinition =>
        passes := ctx.model.mvd.Some? && ctx.model.mvd.value != [] && Lower(ctx.model.mvd.value) in accepted;
      case SchemaIdentifier =>
        passes := Lower(ctx.model.schema) in accepted;
      case OtherField(_) =>
        return false;
    }
    ctx.applicable := ctx.applicable && passes;
    return true;
  }

  // ---------------------------------------------------------------------------
  // Edge use

  /** The errors for one instance: one per distinct edge whose number of references is not
      the required one, carrying that number. */
  ghost function EdgeUseErrors(inst: Entity, counts: multiset<Edge>, num: int): (r: set<Record>)
    ensures forall x :: x in r ==> x.EdgeUseError? && x.inst == inst && x.count == counts[x.edge] != num
  {
    set ed | ed in counts && counts[ed] != num :: EdgeUseError(inst, ed, counts[ed])
  }

  /** An instance yields no edge-use error exactly when each of its edges is referenced the
      required number of times; every error names an edge and its true count. */
  lemma EdgeUseErrorsExact(inst: Entity, counts: multiset<Edge>, num: int)
    ensures EdgeUseErrors(inst, counts, num) == {} <==> forall ed :: ed in counts ==> counts[ed] == num
    ensures forall r :: r in EdgeUseErrors(inst, counts, num) <==>
              r.EdgeUseError? && r.inst == inst && r.edge in counts && r.count == counts[r.edge] && r.count != num
  {
    if !(forall ed :: ed in counts ==> counts[ed] == num) {
      var ed :| ed in counts && counts[ed] != num;
      assert EdgeUseError(inst, ed, counts[ed]) in EdgeUseErrors(inst, counts, num);
    }
  }

  /** Reports the invalid edges of one instance, in whatever order the set of them yields. */
  method ReportEdgeUse(inst: Entity, counts: multiset<Edge>, num: int) returns (errs: seq<Record>)
    ensures IsListing(errs, EdgeUseErrors(inst, counts, num))
  {
    var invalid := set ed | ed in counts && counts[ed] != num;
    ghost var all := invalid;
    ghost var done: set<Edge> := {};
    errs := [];
    while invalid != {}
      invariant invalid !! done && invalid + done == all
      invariant IsListing(errs, set ed | ed in done :: EdgeUseError(inst, ed, counts[ed]))
      decreases invalid
    {
      var ed :| ed in invalid;
      var r := EdgeUseError(inst, ed, counts[ed]);
      assert r !in errs;
      errs := errs + [r];
      invalid := invalid - {ed};
      done := done + {ed};
    }
    assert done == all;
  }

  function Flatten(blocks: seq<seq<Record>>): seq<Record>
  {
    if blocks == [] then [] else Flatten(blocks[..|blocks| - 1]) + blocks[|blocks| - 1]
  }

  /** `block` lists the edge-use errors of `inst`, whose edges can be extracted. */
  ghost predicate ReportsEdgeUse(inst: Entity, oriented: bool, num: int, block: seq<Record>)
  {
    GetEdges(inst.shape, oriented).Ok? &&
    IsListing(block, EdgeUseErrors(inst, multiset(GetEdges(inst.shape, oriented).value), num))
  }

  /** The edge-use errors of one instance, or `None` when its edges cannot be extracted. */
  method InstanceEdgeUse(inst: Entity, oriented: bool, num: int) returns (r: Option<seq<Record>>)
    ensures r.Some? <==> GetEdges(inst.shape, oriented).Ok?
    ensures r.Some? ==> ReportsEdgeUse(inst, oriented, num, r.value)
  {
    var es := ExtractEdges(inst.shape, oriented);
    if es.Err? {
      return None;
    }
    var errs := ReportEdgeUse(inst, multiset(es.value), num);
    return Some(errs);
  }

  /** The edges of every instance can be extracted. */
  predicate AllExtractable(insts: seq<Entity>, oriented: bool)
  {
    forall i :: 0 <= i < |insts| ==> GetEdges(insts[i].shape, oriented).Ok?
  }

  /** The edge-use check over `insts`, one instance after the other. */
  method EdgeUseOver(insts: seq<Entity>, oriented: bool, num: int) returns (res: StepResult, ghost blocks: seq<seq<Record>>)
    ensures res.Aborted? <==> !AllExtractable(insts, oriented)
    ensures res.Done? ==>
              |blocks| == |insts| && res.records == Flatten(blocks) &&
              forall i :: 0 <= i < |blocks| ==> ReportsEdgeUse(insts[i], oriented, num, blocks[i])
  {
    var records := [];
    blocks := [];
    var i := 0;
    while i < |insts|
      invariant 0 <= i <= |insts|
      invariant |blocks| == i && records == Flatten(blocks)
      invariant forall k :: 0 <= k < i ==> ReportsEdgeUse(insts[k], oriented, num, blocks[k])
    {
      var errs := InstanceEdgeUse(insts[i], oriented, num);
      if errs.None? {
        return Aborted, blocks;
      }
      ghost var extended := blocks + [errs.value];
      forall k | 0 <= k < i + 1 ensures ReportsEdgeUse(insts[k], oriented, num, extended[k]) {
        if k < i {
          assert extended[k] == blocks[k];
        }
      }
      assert extended[..i] == blocks;
      records := records + errs.value;
      blocks := extended;
      i := i + 1;
    }
    res := Done(records);
  }

  /** "Every edge / oriented edge shall be referenced exactly {num} times by the loops of
      the face": the records are, instance by instance, a listing of that instance's
      edge-use errors; the step fails if any selected instance's edges cannot be extracted. */
  method ThenEdgeUse(ctx: Context, oriented: bool, num: int) returns (res: StepResult, ghost blocks: seq<seq<Record>>)
    ensures res.Aborted? <==> !AllExtractable(ctx.instances, oriented)
    ensures res.Done? ==>
              |blocks| == |ctx.instances| && res.records == Flatten(blocks) &&
              forall i :: 0 <= i < |blocks| ==> ReportsEdgeUse(ctx.instances[i], oriented, num, blocks[i])
  {
    res, blocks := EdgeUseOver(ctx.instances, oriented, num);
  }

  // ---------------------------------------------------------------------------
  // Instance count

  datatype CountConstraint = AtLeast | AtMost

  /** "at least" compares the count with `>=`, "at most" with `<=`; the exact count meets
      both bounds, and any count meets "at least" a bound of zero or less. */
  function CountHolds(constraint: CountConstraint, n: nat, num: int): (b: bool)
    ensures constraint == AtLeast ==> (b <==> !(n < num))
    ensures constraint == AtMost ==> (b <==> !(n > num))
    ensures n == num ==> b
    ensures constraint == AtLeast && num <= 0 ==> b
  {
    match constraint
    case AtLeast => n >= num
    case AtMost => n <= num
  }

  /** The outcome of "There shall be at least / at most {num} instance(s) of {entity}":
      nothing is checked when the rule does not apply; otherwise a single error listing all
      instances when their number breaks the bound, and a failed step when the schema lacks
      the entity. */
  function InstanceCountStep(model: IfcFile, applicable: bool, constraint: CountConstraint, num: int,
                             entity: string): (res: StepResult)
    ensures !applicable ==> res == Done([])
    ensures applicable ==> (res.Aborted? <==> entity !in model.schemaTypes)
    ensures res.Done? ==> |res.records| <= 1
    ensures res.Done? && res.records != [] ==>
              applicable && res.records == [InstanceCountError(ByType(model, entity).value, entity)]
    ensures res.Done? ==>
              (res.records == [] <==> !applicable || CountHolds(constraint, |ByType(model, entity).value|, num))
  {
    if !applicable then Done([])
    else match ByType(model, entity)
      case None => Aborted
      case Some(insts) =>
        if CountHolds(constraint, |insts|, num) then Done([]) else Done([InstanceCountError(insts, entity)])
  }

  /** "There shall be at least / at most {num} instance(s) of {entity}". */
  method ThenInstanceCount(ctx: Context, constraint: CountConstraint, num: int, entity: string)
    returns (res: StepResult)
    ensures res == InstanceCountStep(ctx.model, ctx.applicable, constraint, num, entity)
  {
    if !ctx.applicable {
      return Done([]);
    }
    var found := ByType(ctx.model, entity);
    if found.None? {
      return Aborted;
    }
    var n := |found.value|;
    var holds: bool;
    match constraint {
      case AtLeast => holds := n >= num;
      case AtMost => holds := n <= num;
    }
    if holds {
      return Done([]);
    }
    return Done([InstanceCountError(found.value, entity)]);
  }

  lemma FirstIsMember<T>(s: seq<T>)
    requires s != []
    ensures s[0] in s
  {
  }

  /** A type the schema knows but the file has no instance of breaks "at least 1": the step
      reports a single error, and its message is the fixed "No instances" sentence. */
  lemma MissingTypeReported(model: IfcFile, entity: string, show: Renderer)
    requires entity in model.schemaTypes
    requires forall e :: e in model.entities ==> !IsA(e, entity)
    ensures InstanceCountStep(model, true, AtLeast, 1, entity) == Done([InstanceCountError([], entity)])
    ensures CountMessage(InstanceCountStep(model, true, AtLeast, 1, entity).records[0].insts, entity, show) ==
            "No instances of type " + entity + " were encountered"
  {
    var found := ByType(model, entity).value;
    if found != [] {
      FirstIsMember(found);
      assert false;
    }
  }

  // ---------------------------------------------------------------------------
  // Assigned to (shared by the older step here and the newer one of the relation rules)

  /** The records one Decomposes relation of `inst` yields: an error naming the relating
      object when it is not a `relating`, otherwise a success when successes are reported. */
  function RelationOutcome(inst: Entity, rel: AggregationRel, relating: string, successes: bool): (r: seq<Record>)
    ensures |r| <= 1
    ensures !IsA(rel.relatingObject, relating) <==>
              r == [InstanceStructureError(inst, [EntityRef(rel.relatingObject)], "assigned to", None, None)]
  {
    if !IsA(rel.relatingObject, relating) then
      [InstanceStructureError(inst, [EntityRef(rel.relatingObject)], "assigned to", None, None)]
    else if successes then [RuleSuccessInst(inst)]
    else []
  }

  /** The records of the relations `rels` of `inst`, in order. */
  function RelationRecords(inst: Entity, rels: seq<AggregationRel>, relating: string, successes: bool): (r: seq<Record>)
    ensures |r| <= |rels|
    ensures successes ==> |r| == |rels|
    ensures forall x :: x in r ==> x.InstanceStructureError? || (successes && x == RuleSuccessInst(inst))
    decreases |rels|
  {
    if rels == [] then []
    else RelationRecords(inst, rels[..|rels| - 1], relating, successes) +
         RelationOutcome(inst, rels[|rels| - 1], relating, successes)
  }

  /** The records of the assigned-to check over `insts`, instance by instance. */
  function AssignedRecords(insts: seq<Entity>, relating: string, successes: bool): (r: seq<Record>)
    ensures (forall i :: 0 <= i < |insts| ==> insts[i].decomposes == []) ==> r == []
    ensures forall x :: x in r ==> x.InstanceStructureError? || (successes && x.RuleSuccessInst? && x.inst in insts)
    decreases |insts|
  {
    if insts == [] then []
    else AssignedRecords(insts[..|insts| - 1], relating, successes) +
         RelationRecords(insts[|insts| - 1], insts[|insts| - 1].decomposes, relating, successes)
  }

  /** Runs the assigned-to check over the relations of one instance. */
  method CollectRelations(inst: Entity, relating: string, successes: bool) returns (records: seq<Record>)
    ensures records == RelationRecords(inst, inst.decomposes, relating, successes)
  {
    var rels := inst.decomposes;
    records := [];
    var j := 0;
    while j < |rels|
      invariant 0 <= j <= |rels|
      invariant records == RelationRecords(inst, rels[..j], relating, successes)
    {
      var rel := rels[j];
      assert rels[..j + 1][..j] == rels[..j];
      if !IsA(rel.relatingObject, relating) {
        records := records + [InstanceStructureError(inst, [EntityRef(rel.relatingObject)], "assigned to", None, None)];
      } else if successes {
        records := records + [RuleSuccessInst(inst)];
      }
      j := j + 1;
    }
    assert rels[..j] == rels;
  }

  /** Runs the assigned-to check over `insts`. */
  method CollectAssigned(insts: seq<Entity>, relating: string, successes: bool) returns (records: seq<Record>)
    ensures records == AssignedRecords(insts, relating, successes)
  {
    records := [];
    var i := 0;
    while i < |insts|
      invariant 0 <= i <= |insts|
      invariant records == AssignedRecords(insts[..i], relating, successes)
    {
      var rs := CollectRelations(insts[i], relating, successes);
      assert insts[..i + 1][..i] == insts[..i];
      records := records + rs;
      i := i + 1;
    }
    assert insts[..i] == insts;
  }

  function IsErrorFn(): Record -> bool
  {
    (r: Record) => r.IsError()
  }

  /** A relation whose relating object is not a `relating`. */
  function WrongParent(relating: string): AggregationRel -> bool
  {
    (rel: AggregationRel) => !IsA(rel.relatingObject, relating)
  }

  /** Number of relations in `insts` whose relating object is not a `relating`. */
  function FailingRelations(insts: seq<Entity>, relating: string): nat
    decreases |insts|
  {
    if insts == [] then 0
    else FailingRelations(insts[..|insts| - 1], relating) +
         |Filter(insts[|insts| - 1].decomposes, WrongParent(relating))|
  }

  function RelationCount(insts: seq<Entity>): nat
  {
    if insts == [] then 0 else RelationCount(insts[..|insts| - 1]) + |insts[|insts| - 1].decomposes|
  }

  lemma {:induction false} RelationErrorsSame(inst: Entity, rels: seq<AggregationRel>, relating: string)
    ensures Filter(RelationRecords(inst, rels, relating, true), IsErrorFn()) == RelationRecords(inst, rels, relating, false)
    decreases |rels|
  {
    if rels != [] {
      var front, last := rels[..|rels| - 1], rels[|rels| - 1];
      RelationErrorsSame(inst, front, relating);
      FilterAppend(RelationRecords(inst, front, relating, true), RelationOutcome(inst, last, relating, true), IsErrorFn());
    }
  }

  lemma {:induction false} RelationRecordsFailing(inst: Entity, rels: seq<AggregationRel>, relating: string)
    ensures |RelationRecords(inst, rels, relating, false)| == |Filter(rels, WrongParent(relating))|
    decreases |rels|
  {
    if rels != [] {
      var front, last := rels[..|rels| - 1], rels[|rels| - 1];
      RelationRecordsFailing(inst, front, relating);
      assert rels == front + [last];
      FilterAppend(front, [last], WrongParent(relating));
    }
  }

  /** Reporting passed checks only adds successes: the errors are the same either way, one
      per relation whose relating object has the wrong type; with successes on there is one
      record per relation. */
  lemma {:induction false} AssignedRecordsShape(insts: seq<Entity>, relating: string)
    ensures Filter(AssignedRecords(insts, relating, true), IsErrorFn()) == AssignedRecords(insts, relating, false)
    ensures |AssignedRecords(insts, relating, true)| == RelationCount(insts)
    ensures |AssignedRecords(insts, relating, false)| == FailingRelations(insts, relating)
    decreases |insts|
  {
    if insts != [] {
      var front, last := insts[..|insts| - 1], insts[|insts| - 1];
      AssignedRecordsShape(front, relating);
      RelationErrorsSame(last, last.decomposes, relating);
      RelationRecordsFailing(last, last.decomposes, relating);
      FilterAppend(AssignedRecords(front, relating, true), RelationRecords(last, last.decomposes, relating, true), IsErrorFn());
    }
  }

  /** Every error of the assigned-to check names a selected instance and the relating object
      of one of its relations, which is not a `relating`. */
  lemma {:induction false} AssignedErrorsAreWrongParents(insts: seq<Entity>, relating: string, successes: bool)
    ensures forall r :: r in AssignedRecords(insts, relating, successes) && r.IsError() ==>
              r.InstanceStructureError? && r.related in insts && |r.relating| == 1 && r.relating[0].EntityRef? &&
              !IsA(r.relating[0].entity, relating) &&
              exists rel :: rel in r.related.decomposes && rel.relatingObject == r.relating[0].entity
    decreases |insts|
  {
    if insts != [] {
      var front, last := insts[..|insts| - 1], insts[|insts| - 1];
      AssignedErrorsAreWrongParents(front, relating, successes);
      RelationErrorsAreWrongParents(last, last.decomposes, relating, successes);
      forall r | r in AssignedRecords(insts, relating, successes) && r.IsError()
        ensures r.related in insts
      {
        if r in AssignedRecords(front, relating, successes) {
          assert r.related in front;
        }
      }
    }
  }

  lemma {:induction false} RelationErrorsAreWrongParents(inst: Entity, rels: seq<AggregationRel>, relating: string, successes: bool)
    ensures forall r :: r in RelationRecords(inst, rels, relating, successes) && r.IsError() ==>
              r.InstanceStructureError? && r.related == inst && |r.relating| == 1 && r.relating[0].EntityRef? &&
              !IsA(r.relating[0].entity, relating) &&
              exists rel :: rel in rels && rel.relatingObject == r.relating[0].entity
    decreases |rels|
  {
    if rels != [] {
      var front, last := rels[..|rels| - 1], rels[|rels| - 1];
      RelationErrorsAreWrongParents(inst, front, relating, successes);
      forall r | r in RelationRecords(inst, rels, relating, successes) && r.IsError()
        ensures exists rel :: rel in rels && rel.relatingObject == r.relating[0].entity
      {
        if r in RelationRecords(inst, front, relating, successes) {
          var rel :| rel in front && rel.relatingObject == r.relating[0].entity;
          assert rel in rels;
        } else {
          assert last in rels;
        }
      }
    }
  }

  /** "is present" / "is not present". */
  datatype Presence = IsPresent | IsNotPresent

  /** The guard of an assigned-to rule: "is present" holds when there is at least one
      instance of the other entity, "is not present" when there is none. */
  function PresenceHolds(p: Presence, n: nat): (b: bool)
    ensures p == IsPresent ==> (b <==> n > 0)
    ensures p == IsNotPresent ==> (b <==> n == 0)
    ensures b <==> (p == IsPresent <==> n > 0)
  {
    match p
    case IsPresent => n != 0
    case IsNotPresent => n == 0
  }

  /** The outcome of an assigned-to rule: nothing when the rule does not apply or the
      presence guard is false, a failed step when either entity name is unknown to the
      schema (the guard's first), otherwise the records of the check over every instance of
      `related`. */
  function AssignedStep(model: IfcFile, applicable: bool, related: string, relating: string,
                        other: string, presence: Presence, successes: bool): (res: StepResult)
    ensures !applicable ==> res == Done([])
    ensures applicable && other !in model.schemaTypes ==> res.Aborted?
    ensures applicable && other in model.schemaTypes && !PresenceHolds(presence, |ByType(model, other).value|) ==>
              res == Done([])
    ensures applicable && other in model.schemaTypes && PresenceHolds(presence, |ByType(model, other).value|) ==>
              res == (if related in model.schemaTypes then Done(AssignedRecords(ByType(model, related).value, relating, successes))
                      else Aborted)
  {
    if !applicable then Done([])
    else match ByType(model, other)
      case None => Aborted
      case Some(others) =>
        if !PresenceHolds(presence, |others|) then Done([])
        else match ByType(model, related)
          case None => Aborted
          case Some(insts) => Done(AssignedRecords(insts, relating, successes))
  }

  /** "The {related} shall be assigned to the {relating} if {other} is / is not present":
      the older form, which reports errors only. */
  method ThenAssignedToLegacy(ctx: Context, related: string, relating: string, other: string, presence: Presence)
    returns (res: StepResult)
    ensures res == AssignedStep(ctx.model, ctx.applicable, related, relating, other, presence, false)
    ensures res.Done? ==> forall r :: r in res.records ==> r.IsError()
  {
    res := RunAssigned(ctx, related, relating, other, presence, false);
    if res.Done? && res.records != [] {
      AssignedRecordsShape(ByType(ctx.model, related).value, relating);
    }
  }

  method RunAssigned(ctx: Context, related: string, relating: string, other: string, presence: Presence,
                     successes: bool) returns (res: StepResult)
    ensures res == AssignedStep(ctx.model, ctx.applicable, related, relating, other, presence, successes)
  {
    if !ctx.applicable {
      return Done([]);
    }
    var others := ByType(ctx.model, other);
    if others.None? {
      return Aborted;
    }
    if !PresenceHolds(presence, |others.value|) {
      return Done([]);
    }
    var insts := ByType(ctx.model, related);
    if insts.None? {
      return Aborted;
    }
    var records := CollectAssigned(insts.value, relating, successes);
    return Done(records);
  }
}
