# IFC rule evaluation, modelled in Dafny

This project models the rule-evaluation core of an IFC conformance checker. It covers the
Gherkin step implementations that check a building model (an IFC file) against rules such as
"Each IfcWall must be indirectly contained in IfcBuilding".

- **The model.** A file is a plain value (`Ifc.IfcFile`). It holds a schema name, an optional
  model view definition, the entity names its schema knows, and its entities. Each entity
  carries:
  - its inheritance chain, so `is_a` is a membership test;
  - its attributes;
  - its `ContainedInStructure` and `Decomposes` relations;
  - the geometry the edge extractor reads.
- **The rule state.** `Steps.Context` is a class. It holds the currently selected instances
  and the applicability flag, which the Given steps update in place.
- **The Then steps.** Each is a method that walks its instances and appends records. Most walk
  the selection; the containment step and the assigned-to steps walk `by_type` of the entity
  they name. Each method is proved equal to a specification function, except the edge-use
  step, which is proved to list exactly the errors that function defines (`IsListing`). The
  rule each one states is then proved about that function: when an error or success is
  appended, how many, and what it names.
- **Edge extraction.** `Edges.ExtractEdges` is the `get_edges` generator written as loops. It
  is proved to produce the sequence `Edges.GetEdges` defines, and the edge counts per loop and
  per triangle are proved about that sequence.
- **Messages.** The `fmt` shortening and the `__str__` sentences of the error records are
  pure functions (`Text`, `Records`), with exact length and shape results.

Modules:

| module | file | contents |
|---|---|---|
| `Ifc` | Ifc.dfy | entities, files, `is_a`, `by_type`, the most-derived chooser used by the table rule |
| `Text` | Text.dfy | `fmt`, decimal rendering, `join`, `split`, `strip`, ASCII `lower` |
| `Edges` | Edges.dfy | `get_edges` for connected, triangulated and polygonal face sets |
| `Records` | Records.dfy | error and success records, and their messages |
| `Steps` | Steps.dfy | the context, the Given steps, and the edge-use, instance-count and older assigned-to Then steps |
| `Relations` | Relations.dfy | the containment, aggregation-table and assigned-to Then steps of the relation rules |
| `LegacyContainment` | LegacyContainment.dfy | the older containment step, as written (see Findings) |

A step either hands back its records (`Done(records)`) or fails with an exception
(`Aborted`). A Then step fails when `by_type` is given an entity name the schema does not
know, when a geometry index is out of range, or when the shape kind is not handled. The Given
steps report failure as `ok == false` instead, with the selection left as it was: when the
attribute it reads is missing from a selected instance (`GivenAttribute`) or when the file
field it compares is not handled (`GivenFile`). The aggregation-table step needs no `by_type` and
reads only relations every modelled entity has, so it returns its records directly.

## Model

| member | source | states |
|---|---|---|
| Ifc.ByType | features/steps/steps.py:156 | `by_type(t)` is defined exactly when the schema knows `t`. It then holds exactly the file's instances of `t` or of a subtype. |
| Ifc.OrderByInheritance | features/steps/thens/relations.py:66 | The chosen row key is one of the candidates the entity is an instance of. Every other such candidate lies at or above it in the inheritance chain. There is no choice exactly when no candidate applies. |
| Ifc.FilterAppend | features/steps/steps.py:187-189 | Filtering distributes over concatenation, so the kept instances stay in their original order. |
| Ifc.FilterCount | features/steps/steps.py:187-189 | A kept element occurs in the result as often as in the input. A dropped element does not occur at all. |
| Text.Fmt | features/steps/steps.py:45-49 | The result has at most 35 characters. A value of at most 35 characters is kept unchanged. A longer one becomes its first 25 characters, "...", and its last 7 characters, 35 in all. |
| Text.FmtIdempotent | features/steps/steps.py:45-49 | Shortening an already shortened rendering changes nothing. |
| Text.NatToString | features/steps/steps.py:69 | A count renders as a non-empty string of decimal digits whose value is the count, with no leading zero. |
| Text.Join | features/steps/steps.py:69 | Joining a single part gives that part, with no separator. |
| Text.Split | features/steps/steps.py:193 | Splitting on " or " gives at least one piece, and no piece contains the separator. |
| Text.JoinSplit | features/steps/steps.py:193 | Joining the pieces of a split with the separator gives back the original text. |
| Text.FindFrom | features/steps/steps.py:193 | The position found is the first occurrence of the separator at or after the start, or the end of the text when there is none. |
| Text.RunEnd | features/steps/steps.py:193 | The leading run of the quote character ends at the first position that does not hold it. |
| Text.RunStart | features/steps/steps.py:193 | The trailing run of the quote character starts after the last position that does not hold it. |
| Text.Strip | features/steps/steps.py:193 | The stripped value is the slice of the input that starts after its leading run of the quote character. It neither starts nor ends with that character, and only copies of it lie around the slice. |
| Text.StripExact | features/steps/steps.py:193 | Conversely, a slice with only quote characters around it, and none at either of its ends, is exactly what stripping leaves. |
| Text.LowerChar | features/steps/steps.py:193 | An upper-case ASCII letter becomes its lower-case letter, 32 code points further on. Any other character is kept. |
| Text.Lower | features/steps/steps.py:193 | The result has the same length and no upper-case ASCII letter. At every position an upper-case letter becomes its lower-case letter, 32 code points further on, and every other character is kept. |
| Text.LowerIdempotent | features/steps/steps.py:198 | Lower-casing twice is the same as lower-casing once. |
| Edges.MakeEdge | features/steps/steps.py:99 | `edge_type` gives an ordered pair from the first point to the second when oriented, and the set of the two points otherwise. |
| Edges.UnorientedIgnoresOrder | features/steps/steps.py:99 | An unoriented edge (a frozenset) is the same edge whichever end comes first. |
| Edges.OrientedKeepsOrder | features/steps/steps.py:99 | An oriented edge (a tuple) equals its reverse only when both ends are the same point. |
| Edges.PyIndex | features/steps/steps.py:133 | Indexing succeeds exactly for indices from -len to len-1. A non-negative index k reads element k, and a negative index k reads element len+k. Otherwise it is an IndexError. |
| Edges.Resolve | features/steps/steps.py:133 | 1-based indices resolve exactly when every index minus one is a valid Python index. Each resolved point is the one at that index. |
| Edges.LoopEdges | features/steps/steps.py:106-108 | A loop yields edges exactly when it has a point, since `coords[0]` fails on an empty one. It then yields one edge per point, the last closing back to the first point. |
| Edges.IndexedLoopEdges | features/steps/steps.py:132-135 | A loop of 1-based indices yields edges exactly when it is non-empty and every index resolves, one edge per index. |
| Edges.RingEdges | features/steps/steps.py:106-108 | A loop of k points yields k edges: each point to the next, and the closing edge from the last point back to the first. |
| Edges.ConcatLoop | features/steps/steps.py:105-108 | The loop over items yields the edges of each item in turn, and stops at the first item whose edges cannot be extracted. |
| Edges.PolygonalEdges | features/steps/steps.py:129-141 | The loop over a polygonal face set yields each face's outer loop, then its voids, and stops at the first index out of range. |
| Edges.OrientedEdgeOf | features/steps/steps.py:110-122 | An oriented edge goes from the edge's start to its end, reversed when its orientation is false. An unoriented edge is the set of its two ends, whatever the orientation. |
| Edges.GetEdges | features/steps/steps.py:98-146 | Every extracted edge is of the requested kind: a tuple when oriented, a frozenset otherwise. |
| Edges.FaceEdges | features/steps/steps.py:131-141 | A face fails when its outer loop fails. When it succeeds, its outer loop's edges come first, before those of any void. |
| Edges.CollectFaceEdges | features/steps/steps.py:131-141 | One face yields its outer loop, then the loops of its voids, and fails at the first index out of range. |
| Edges.ExtractEdges | features/steps/steps.py:98-146 | `get_edges` gives exactly the specified edge sequence for each shape kind, including the failures. |
| Edges.ConcatAllFailure | features/steps/steps.py:105-141 | Extraction over several loops or faces fails exactly when one of them fails, and with that one's error. |
| Edges.LoopsEdgeCount | features/steps/steps.py:105-108 | Poly loops yield as many edges as they have points in total. |
| Edges.IndexedLoopsEdgeCount | features/steps/steps.py:140-141 | Void loops yield as many edges as they have indices in total. |
| Edges.PolygonalEdgeCount | features/steps/steps.py:129-141 | A polygonal face set yields one edge per index of each face's outer loop and of each of its voids. |
| Edges.ConnectedEdgeCount | features/steps/steps.py:102-122 | A connected face set yields one edge per poly-loop point, then one per oriented edge. |
| Edges.TriangleEdges | features/steps/steps.py:126-128 | A triangle with fewer than three indices fails. A triangle that succeeds yields exactly three edges. |
| Edges.TriangleRing | features/steps/steps.py:126-128 | A triangle whose first three indices are in range yields (v0,v1), (v1,v2) and (v2,v0). |
| Edges.TriangulatedEdges | features/steps/steps.py:123-128 | For triangle t, positions 3t to 3t+2 hold its three edges, so there are exactly 3 edges per triangle. |
| Edges.NotImplementedOnlyForOtherShapes | features/steps/steps.py:143-144 | Extraction reports "not implemented" exactly for shapes of another kind. The known kinds fail only on an index. |
| Records.ListingSize | features/steps/steps.py:177-179 | A listing of a set of errors has exactly one entry per element of the set. |
| Records.EdgeText | features/steps/steps.py:41-44 | A two-point frozenset renders as "p -- q" in some order of its two points. A tuple renders as "p -> q". A degenerate frozenset is shortened like any value. |
| Records.EdgeUseMessage | features/steps/steps.py:58-59 | The edge-use message starts "On instance ... the edge " and ends " times". |
| Records.FmtEntities | features/steps/steps.py:69 | Entry i is the `fmt` rendering of instance i, of at most 35 characters, one entry per instance. |
| Records.CountMessage | features/steps/steps.py:67-71 | No instances gives "No instances of type T were encountered". Otherwise the message starts with the count and the type name. |
| Records.PosNeg | features/steps/steps.py:82 | The verb is "is not" exactly when the rule's condition was "must", and "is" otherwise. |
| Records.StructureMessage | features/steps/steps.py:81-91 | Several targets are listed with their number. A single target gets the rule's verb. No target reads "This instance ... is not ... anything". |
| Steps.Context.constructor | features/steps/steps.py:202 | A fresh context has nothing selected, and its rule is applicable. |
| Steps.Selected | features/steps/steps.py:153-158 | "An {entity}" selects exactly the file's instances of the type and its subtypes. It selects none when the schema lacks the name. |
| Steps.GivenEntity | features/steps/steps.py:153-158 | The selection becomes `Selected`, and applicability is untouched. |
| Steps.AttributeFilter | features/steps/steps.py:184-189 | The filter is defined exactly when every selected instance has the attribute. It then keeps exactly the instances whose attribute equals the literal. |
| Steps.AttributeFilterSplits | features/steps/steps.py:187-189 | The kept instances of a concatenation are those of each part in turn, so the relative order is preserved. |
| Steps.KeepMatching | features/steps/steps.py:187-189 | The loop over the selection computes `AttributeFilter`, failing at an instance without the attribute. |
| Steps.GivenAttribute | features/steps/steps.py:184-189 | On success the selection becomes the filtered one. On failure (a missing attribute) it is unchanged. Applicability never changes. |
| Steps.Normalise | features/steps/steps.py:193 | A normalised alternative has no upper-case letter and no double quote at either end, and is no longer than the piece. |
| Steps.NormaliseMeaning | features/steps/steps.py:193 | The value is, character by character, the lower-cased slice of the piece after its leading run of double quotes. Only double quotes lie around that slice. |
| Steps.AcceptedValues | features/steps/steps.py:193 | There is one value per piece of the " or " split. A value is accepted exactly when it is the normalisation of some piece. |
| Steps.FileCheck | features/steps/steps.py:194-200 | An unsupported field has no outcome. The MVD check passes exactly when the file has a non-empty MVD whose lower-case form is an accepted value. The schema check passes exactly when the lower-cased schema name is accepted. |
| Steps.NamedSchemaAccepted | features/steps/steps.py:193-198 | A rule naming the file's schema, in any case, with or without surrounding double quotes, passes the schema check. |
| Steps.AlternativesDisjoin | features/steps/steps.py:193-198 | A file passes "a or b" exactly when it passes "a" or passes "b". |
| Steps.SchemaCheckIgnoresCase | features/steps/steps.py:193-198 | The case of the schema name in the file does not change the outcome. |
| Steps.GivenFile | features/steps/steps.py:191-202 | Applicability becomes the old applicability and this check's outcome, so once false it stays false. An unsupported field fails the step and changes nothing. |
| Steps.EdgeUseErrors | features/steps/steps.py:177-179 | Every error names the instance, an edge, and that edge's count, which differs from `num`. |
| Steps.EdgeUseErrorsExact | features/steps/steps.py:177-179 | There is exactly one error per distinct edge whose count differs from `num`, carrying that count. There are none when every count equals `num`. |
| Steps.ReportEdgeUse | features/steps/steps.py:177-179 | The records of one instance list each of its edge-use errors exactly once. |
| Steps.InstanceEdgeUse | features/steps/steps.py:173-179 | An instance yields records exactly when its edges can be extracted. The records then list its edge-use errors. |
| Steps.EdgeUseOver | features/steps/steps.py:172-179 | The records are, instance by instance, the listings of each instance's edge-use errors. The step fails exactly when some instance's edges cannot be extracted. |
| Steps.ThenEdgeUse | features/steps/steps.py:166-181 | The same, over the current selection. |
| Steps.CountHolds | features/steps/steps.py:206-214 | "at least" compares the number of instances with `>=` and "at most" with `<=`. The exact count meets either bound, and any count meets "at least" a bound of zero or less. |
| Steps.InstanceCountStep | features/steps/steps.py:204-217 | There is at most one error, listing all instances of the type. There is one exactly when the rule applies and the bound fails (`CountHolds`: "at least" is `>=`, "at most" is `<=`). The step fails exactly when the rule applies and the schema lacks the type. |
| Steps.ThenInstanceCount | features/steps/steps.py:204-217 | The step computes `InstanceCountStep` from the context. |
| Steps.MissingTypeReported | features/steps/steps.py:67-71 | "At least 1" of a type the schema knows but the file lacks gives exactly one error, whose message is "No instances of type T were encountered". |
| Steps.RelationOutcome | features/steps/thens/relations.py:105-109 | A relation yields an error naming its relating object exactly when that object is not a `relating`. Otherwise it yields at most a success. |
| Steps.CollectRelations | features/steps/thens/relations.py:105-109 | The loop over one instance's Decomposes relations gives its relation records. |
| Steps.CollectAssigned | features/steps/thens/relations.py:104-109 | The loop over the instances gives the assigned-to records. |
| Steps.RelationErrorsSame | features/steps/thens/relations.py:106-109 | For one instance, reporting successes adds only successes. |
| Steps.RelationRecords | features/steps/thens/relations.py:105-109 | One instance yields at most one record per Decomposes relation, and exactly one when successes are reported. Every record is a structure error or, when successes are reported, a success for that instance. |
| Steps.AssignedRecords | features/steps/thens/relations.py:104-109 | Instances that decompose nothing yield no record. Every record is a structure error or, when successes are reported, a success for one of the instances. |
| Steps.RelationRecordsFailing | features/steps/steps.py:234-236 | Without successes, there is one error per relation whose relating object is of the wrong type. |
| Steps.AssignedRecordsShape | features/steps/thens/relations.py:104-109 | Over all instances, reporting successes adds only successes. There is one record per relation when they are reported, and one error per wrong parent otherwise. |
| Steps.AssignedErrorsAreWrongParents | features/steps/steps.py:233-236 | Every error names a checked instance and the relating object of one of its relations, which is not a `relating`. |
| Steps.RelationErrorsAreWrongParents | features/steps/steps.py:234-236 | The same for the relations of one instance. |
| Steps.PresenceHolds | features/steps/steps.py:222-231 | The guard `not pred(n, 0)`: "is present" holds exactly when there is an instance (n != 0), "is not present" exactly when there is none. |
| Steps.AssignedStep | features/steps/thens/relations.py:100-109 | Nothing happens when the rule does not apply or the presence guard is false (`PresenceHolds`: "is present" needs an instance of the other entity, "is not present" needs none). The step fails on an unknown name for the other entity. When the guard holds, it fails on an unknown `related`, and otherwise gives exactly the assigned-to records of every instance of `related`. |
| Steps.RunAssigned | features/steps/thens/relations.py:98-111 | The step's control flow computes `AssignedStep`. |
| Steps.ThenAssignedToLegacy | features/steps/steps.py:220-238 | The older assigned-to step is `AssignedStep` without successes, and all its records are errors. |
| Relations.RequiredModes | features/steps/thens/relations.py:11-13 | "Directly" is accepted unless the rule says only "indirectly", and "indirectly" unless it says only "directly". |
| Relations.ModesIntersect | features/steps/thens/relations.py:34-35 | The required and observed directness have a common value exactly when both hold "directly", or both hold "indirectly". |
| Relations.Ancestors | features/steps/thens/relations.py:26-28 | A structure has ancestors exactly when it decomposes something, and the first is the relating object of its first Decomposes relation. |
| Relations.AncestorsAreParentChain | features/steps/thens/relations.py:26-28 | The ascent visits the first Decomposes parent of each structure in turn. It ends at a structure that decomposes nothing. |
| Relations.Observed | features/steps/thens/relations.py:19-32 | An element contained in nothing observes no directness. It observes "directly" exactly when its containing structure is an `other`. |
| Relations.ObserveContainment | features/steps/thens/relations.py:19-32 | The ascent loop stops at the first `other` and computes `Observed`. |
| Relations.ContainmentFails | features/steps/thens/relations.py:34-37 | An element fails exactly when "must" differs from whether it shows an accepted directness. |
| Relations.ContainmentConditionsOpposite | features/steps/thens/relations.py:34-38 | For any element exactly one of "must" and "must not" fails. An element contained in nothing fails every "must" and passes every "must not". |
| Relations.IndirectMeaning | features/steps/thens/relations.py:26-31 | "Indirectly" is observed exactly when some structure up the chain is an `other`. |
| Relations.ContainmentMustMeaning | features/steps/thens/relations.py:12-37 | "Must be directly / indirectly / directly or indirectly" is stated in terms of the containing structure and the chain above it. |
| Relations.ContainmentOutcome | features/steps/thens/relations.py:34-40 | An element yields an error exactly when it fails. Otherwise it yields at most a success. |
| Relations.ContainmentRecords | features/steps/thens/relations.py:18-40 | The elements yield at most one record each, and exactly one each when successes are reported. |
| Relations.ContainmentErrorsExact | features/steps/thens/relations.py:37-38 | Without successes, the records are exactly the errors of the failing elements. |
| Relations.ContainmentSuccessesOnlyAdd | features/steps/thens/relations.py:37-40 | With successes there is exactly one record per element, and its errors are those reported without successes. |
| Relations.CollectContainment | features/steps/thens/relations.py:18-40 | The loop over the instances computes the containment records. |
| Relations.ThenContained | features/steps/thens/relations.py:5-42 | An empty selection or an inapplicable rule gives nothing. Otherwise the step fails exactly on an unknown entity name, and otherwise gives exactly the containment records of every instance of the entity. |
| Relations.ApplicableKeys | features/steps/thens/relations.py:58-61 | The applicable rows are exactly the table keys the instance is an instance of. |
| Relations.FindApplicableKeys | features/steps/thens/relations.py:58-61 | The loop over the table keys collects exactly the applicable rows. |
| Relations.Targets | features/steps/thens/relations.py:69-75 | The parent column gives the relation's one relating object. The related-objects column gives every related object of the relation, the instance itself included. |
| Relations.Allowed | features/steps/thens/relations.py:80 | A target is allowed exactly when some type on its inheritance chain is one of the row's allowed types. No target is allowed by an empty row. |
| Relations.TableError | features/steps/thens/relations.py:71-83 | The table rule's error names the instance, the row's set of allowed types as its one target, "related to" and the condition "must", with no directness. |
| Relations.TargetErrors | features/steps/thens/relations.py:79-83 | Every error is the instance's table error, and there are no more errors than targets. |
| Relations.TargetErrorsCount | features/steps/thens/relations.py:79-83 | There is one error per target that matches no allowed type. |
| Relations.TargetErrorsNone | features/steps/thens/relations.py:77-86 | There are no target errors exactly when every target is allowed. |
| Relations.TableOutcome | features/steps/thens/relations.py:57-86 | An instance gets no record exactly when no row of the table applies to it. |
| Relations.TableOutcomeMeaning | features/steps/thens/relations.py:57-86 | No matching row gives nothing. Otherwise the most specific row is used. No Decomposes relation gives exactly one error. Otherwise there is a success exactly when there are targets and all are allowed, else one error per disallowed target. |
| Relations.RelatingObjectOneRecord | features/steps/thens/relations.py:73-86 | With the parent column, which is a scalar treated as a 1-tuple, a checked instance gets exactly one record. |
| Relations.CheckTargets | features/steps/thens/relations.py:77-83 | The loop over targets gives one error per disallowed target. Its `all_correct` flag ends true exactly when there were targets and all were allowed. |
| Relations.TableRecords | features/steps/thens/relations.py:57-86 | The instances yield no record exactly when no row of the table applies to any of them. |
| Relations.CheckAllAgainstTable | features/steps/thens/relations.py:57-86 | The loop over the instances gives each instance's table outcome, in order. |
| Relations.CheckAgainstTable | features/steps/thens/relations.py:58-86 | One instance's check (applicable rows, most specific row, first Decomposes relation, targets) computes the table outcome. |
| Relations.ThenAggregatedAsPerTable | features/steps/thens/relations.py:44-88 | An inapplicable rule gives nothing. Otherwise the records are each selected instance's table outcome, in order. |
| Relations.ThenAssignedTo | features/steps/thens/relations.py:91-111 | The step is `AssignedStep` with successes as configured. Its errors are those of the errors-only step. |
| LegacyContainment.IndirectAfter | features/steps/steps.py:253-264 | An element contained in nothing sets the flag to false. The flag stays unset exactly when it was unset and the element's containing structure decomposes nothing. |
| LegacyContainment.LegacyFails | features/steps/steps.py:265-279 | The decision reads an unset flag exactly when the rule is not "directly" and either is "indirectly" or the element is not directly contained. For "directly", the element fails exactly when "must" differs from direct containment. |
| LegacyContainment.NameAsTargets | features/steps/steps.py:268 | The type name passed as the relating side counts as one target per letter. |
| LegacyContainment.LegacyRecords | features/steps/steps.py:253-279 | The older step never fails for "directly". Its records are errors only, at most one per element, each naming a checked element, the type name as targets, and the rule's condition and directness. |
| LegacyContainment.StaleIndirectFlag | features/steps/steps.py:253-270 | A concrete two-wall model where the older step reports nothing. The relation rule reports the second wall. |
| LegacyContainment.UnsetIndirectFlag | features/steps/steps.py:253-270 | A first element whose containing structure decomposes nothing makes the older step fail on an unset flag. |
| LegacyContainment.FreshFlagAgreesWithRelations | features/steps/steps.py:253-279 | With the flag reset for each element, the older decision equals the relation rule's for every element, condition and directness. |
| LegacyContainment.LegacyMessageCountsLetters | features/steps/steps.py:85-87 | With the name as the relating side, the message says "the following N instances", N being the name's length. |
| LegacyContainment.ListedTargetMessage | features/steps/steps.py:88-89 | With a one-element list as the relating side, the message uses the rule's verb ("is not" exactly for "must"). |

## Left out

- Cyclic relation graphs. Entities are nested values, so every Decomposes chain is finite and the ascent terminates. A cycle, on which the ascent would not stop, cannot be expressed.
- ifcopenshell itself. `by_type` is a filter over the file's entities by inheritance chain. `traverse` is replaced by the poly loops and oriented edges stored with a connected face set. Attribute access is a map lookup.
- The `getattr(..., 'Decomposes', [])` and `getattr(ent, 'Decomposes', True)` defaults. Every modelled entity has a (possibly empty) Decomposes sequence.
- `get_mvd`: reading the header's description is not modelled. The model view definition is a field of the file, absent when the header has none.
- CSV loading, `system.get_csv` and `misc.make_aggregrated_dict`. The aggregation table is given as a map from entity name to the set of allowed type names. Only the `RelatingObject` and `RelatedObjects` columns are modelled.
- `ifc.order_by_ifc_inheritance` is not part of this model. It is replaced by the most derived candidate along the entity's (single) inheritance chain.
- `misc.stmt_to_op` is not part of this model. It is taken to map "is" to equality and "is not" to inequality, as the older step at features/steps/steps.py:222 does, giving the `Presence` guard.
- The `errors` module is not part of this model. Its records are modelled with the record kinds of features/steps/steps.py plus the three success kinds. Its `__str__` renderings are not modelled.
- JSON reporting, `asdict`, `instance_converter` and the `handle_errors` functions. A step's outcome is its list of records, or `Aborted`. Which records make the rule fail is not modelled.
- The behave step dispatch, and the `assert` on step arguments. Steps take already-parsed arguments (`Condition`, `Directness`, `CountConstraint`, `Presence`, `FileField`; the edge kind as a bool).
- A rule without an "An {entity}" step. The source reads `context.instances` before anything sets it, which raises an AttributeError. The model starts every rule with an empty selection instead.
- The shape kind. `get_edges` chooses its branch with `is_a`; the model chooses it by the shape's variant, so a subtype of a handled kind is modelled by giving it that kind's variant.
- Relations.Targets: the position of the instance among the related objects is not modelled; it is put first. Every disallowed target yields the same record, so the records do not depend on that position.
- Relations.ThenContained: entity types without the `ContainedInStructure` inverse are not modelled. The source reads `ent.ContainedInStructure` with no default (features/steps/thens/relations.py:20-21), so on such a type the step aborts with an AttributeError; the model gives every entity a (possibly empty) containment sequence, so its `Aborted` case covers only an unknown type name.
- LegacyContainment.LegacyRecords: the same holds for the older step, which reads `ent.ContainedInStructure` directly (features/steps/steps.py:253-254). Its "never fails for directly" holds only for entity types that have that inverse.
- `ast.literal_eval` and real-valued coordinates. Literals and points are opaque values compared for equality.
- `str` and `repr` of entities, points and targets are parameters (`Renderer`).
- Records.EdgeText: the order in which a frozenset shows its two points follows hashing. The model leaves the order open, so the edge-use message is a ghost function.
- Text.Lower: lower-cases ASCII letters only, not the full Unicode mapping of `str.lower`.
- Steps.ReportEdgeUse: the order of the errors follows the set of invalid edges. The contract fixes the listed errors, not their order.
- The older containment step (features/steps/steps.py:241-281) is modelled only as its record function, `LegacyContainment.LegacyRecords`, to exhibit the findings below. The relation rule is the containment behaviour the rest of the model uses.

## Findings

| source | as written | input that shows it | evidently intended | confidence | as-written member | corrected member |
|---|---|---|---|---|---|---|
| features/steps/steps.py:253-270 | `is_indirectly_contained` is assigned only inside the ascent loop. An element whose containing structure decomposes nothing keeps the previous element's value, or reads an unset name on the first element. | "Each IfcWall must be indirectly contained in IfcBuilding". The first wall is in a storey of a building. The second is in a storey that is part of nothing. No error is reported, though the second wall fails. | The flag is reset for every element, as features/steps/thens/relations.py:19 does. | high; not executed | LegacyContainment.StaleIndirectFlag | LegacyContainment.FreshFlagAgreesWithRelations |
| features/steps/steps.py:268 | The type name itself is passed as the relating side, so the message treats its letters as targets. | Any failing element with `other_entity` "IfcBuilding". The message says "is contained the following 11 instances: I;f;c;...". | A one-element list holding the name, as features/steps/thens/relations.py:38 passes. | high; not executed | LegacyContainment.LegacyMessageCountsLetters | LegacyContainment.ListedTargetMessage |
