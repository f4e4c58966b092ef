# Java 3D picking: PickInfo

This project models `javax.media.j3d.PickInfo` from the Java 3D core. That
class turns the GeometryAtoms whose bounds a pick shape hit into the PickInfo
records that `Locale.pickAll`, `BranchGroup.pickAny` and related methods
return. The model covers four parts of the class:

- **Aggregation** (`getPickInfos`). Atoms outside the picked BranchGroup or
  detached from the scene graph are skipped. Atoms that share one Text3D
  source are merged. A compiled Shape3D fans out to one record per source
  node. Each record is filled with exactly what the flags ask for. PICK_ANY
  stops at the first hit.
- **Scene-graph paths** (`initSceneGraphPath`, `retrievePath`, `mergePath`,
  `createPath`, `inside`). These are the upward walks that collect the
  pick-reporting nodes, going through SharedGroups by the Link ids of a
  HashKey. The two walks are merged into a root-to-leaf SceneGraphPath.
- **Geometry refinement** (`pick`). In PICK_GEOMETRY mode the hits are
  visited from last to first. Each Shape3D or Morph must grant the
  capabilities that let its geometry be read, or a CapabilityNotSetException
  is raised. Its intersect routine then confirms the hit or drops it.
- **Ordering**. The three copies of the insertion-sort/quicksort routine
  (`sortIntersectionInfoArray`, `sortPickInfoArray`, `sortGeomAtoms`) and the
  lazily sorted intersection list behind `getIntersectionInfos`.

Modules:

- `Wrappers`: Option.
- `Ordering`: the sorts on arrays.
- `SceneGraph`: nodes and the path walks.
- `PickRecords`: IntersectionInfo, the PickInfo result fields as a value, and
  the PickInfo class holding the intersection list.
- `Aggregation`: getPickInfos and sortGeomAtoms.
- `Refinement`: capability checks and pick.

The scene graph is a map from node identities to records. Each record holds
the node's parent, its ENABLE_PICK_REPORTING bit, its Link nodeId, its user
Node and its kind. A depth that strictly decreases towards the Locale bounds
the walks. Everything pick cannot see is a parameter: the intersect routines
of Shape3D and Morph, the user Node behind a reference, and each atom's
distance from the pick shape. The graph's kinds are only those getPickInfos
and retrievePath tell apart (Group, SharedGroup, Link, Shape3D and compiled
Shape3D): a Morph is a plain `Group` there. pick meets Morph through the user
Node a hit names, `Refinement.UserNode.MorphNode`, given by `Oracles.nodeOf`.

## Model

| member | source | states |
|---|---|---|
| Ordering.Swap | src/classes/share/javax/media/j3d/PickInfo.java:197-199 | the two elements are exchanged, every other element is unchanged, and the multiset of contents is kept |
| Ordering.InsertSort | src/classes/share/javax/media/j3d/PickInfo.java:193-202 | the array ends sorted by key and is a permutation of what it held |
| Ordering.ScanUp | src/classes/share/javax/media/j3d/PickInfo.java:210 | the unguarded upward scan stops, within the range, at the first key not below the pivot; every key it passed is below the pivot |
| Ordering.ScanDown | src/classes/share/javax/media/j3d/PickInfo.java:211 | the unguarded downward scan stops, within the range, at the first key not above the pivot; every key it passed is above the pivot |
| Ordering.PartitionRound | src/classes/share/javax/media/j3d/PickInfo.java:209-219 | one do-while round permutes only a[l..r]; keys left of i stay at most the pivot and keys right of j at least the pivot; the scans stay in bounds; an uncrossed round makes progress |
| Ordering.Partition | src/classes/share/javax/media/j3d/PickInfo.java:205-219 | the partition permutes a[l..r] and splits it around the pivot value; both ends move inwards, with l < i, j < r, and i <= r whenever l < r |
| Ordering.CombineSorted | src/classes/share/javax/media/j3d/PickInfo.java:221-222 | after the partition, sorting [l..j] and then [i..r] sorts [l..r] and permutes it |
| Ordering.Quicksort | src/classes/share/javax/media/j3d/PickInfo.java:204-223 | quicksort(l, r), including the guard `l < r` on the second call, sorts a[l..r] by key, permutes it, and leaves the rest of the array alone |
| Ordering.SortByKey | src/classes/share/javax/media/j3d/PickInfo.java:182-190 | the length-based dispatch leaves the array sorted by key and a permutation of its contents |
| Ordering.SwapBoth | src/classes/share/javax/media/j3d/PickInfo.java:545-552 | exchanging the same positions in the distance and atom arrays exchanges the (distance, atom) pairs and keeps their multiset |
| Ordering.InsertSortParallel | src/classes/share/javax/media/j3d/PickInfo.java:543-555 | the (distance, atom) pairs end sorted by distance and are a permutation of the original pairs |
| Ordering.PartitionRoundParallel | src/classes/share/javax/media/j3d/PickInfo.java:562-576 | as PartitionRound, on the (distance, atom) pairs |
| Ordering.PartitionParallel | src/classes/share/javax/media/j3d/PickInfo.java:557-576 | as Partition, on the (distance, atom) pairs |
| Ordering.QuicksortParallel | src/classes/share/javax/media/j3d/PickInfo.java:557-580 | as Quicksort, on the (distance, atom) pairs |
| Ordering.SortParallel | src/classes/share/javax/media/j3d/PickInfo.java:534-540 | the pairs end sorted by distance and are a permutation of the original pairs |
| Ordering.MapPermutation | src/classes/share/javax/media/j3d/PickInfo.java:547-552 | two permutations of the same pairs have payloads that are permutations of each other, so the atoms moved alongside the distances are permuted |
| SceneGraph.LastNodeId | src/classes/share/javax/media/j3d/PickInfo.java:450 | an id is returned exactly when the key is not exhausted, and the remaining key followed by that id is the old key |
| SceneGraph.FindLink | src/classes/share/javax/media/j3d/PickInfo.java:454-465 | the result is the first Link in parent order whose nodeId is the key's id; it is None exactly when no Link matches |
| SceneGraph.MatchLink | src/classes/share/javax/media/j3d/PickInfo.java:454-465 | the search loop returns FindLink's answer |
| SceneGraph.StepFrom | src/classes/share/javax/media/j3d/PickInfo.java:443-471 | one pass of the walk moves to a node that exists and lies strictly closer to the Locale, so the walk terminates |
| SceneGraph.Ascend | src/classes/share/javax/media/j3d/PickInfo.java:443-471 | the loop body computes StepFrom |
| SceneGraph.RetrievePath | src/classes/share/javax/media/j3d/PickInfo.java:427-483 | the do-while walk returns Retrieve, the path defined by repeated StepFrom until `end`, a detached SharedGroup, or the Locale |
| SceneGraph.RetrieveMembers | src/classes/share/javax/media/j3d/PickInfo.java:443-462 | every node on a retrieved path exists and either reports picks or is a Link the walk went through |
| SceneGraph.RetrieveDetached | src/classes/share/javax/media/j3d/PickInfo.java:448-469 | a walk that meets a SharedGroup with no Link carrying the key's innermost id returns null |
| SceneGraph.RetrieveNeedsEnd | src/classes/share/javax/media/j3d/PickInfo.java:439-482 | with an end node, retrievePath returns a path exactly when its walk reaches that node |
| SceneGraph.RetrieveKeepsAdded | src/classes/share/javax/media/j3d/PickInfo.java:443-461 | on a successful walk every pick-reporting node before the end and every Link traversed is on the returned path |
| SceneGraph.RetrieveExcludesEnd | src/classes/share/javax/media/j3d/PickInfo.java:440-442 | the end node, when it is not a Link, is never on the path ("up to, but not including") |
| SceneGraph.RetrieveMissesLowerEnd | src/classes/share/javax/media/j3d/PickInfo.java:479-482 | an end node not strictly above the start is never met, and the walk returns null |
| SceneGraph.RetrieveToLocale | src/classes/share/javax/media/j3d/PickInfo.java:474-477 | with no SharedGroup on the way, the walk to the Locale returns what initSceneGraphPath collects |
| SceneGraph.RetrieveThenInit | src/classes/share/javax/media/j3d/PickInfo.java:427-483 | with no SharedGroup on the way, the path up to a BranchGroup followed by that BranchGroup's own path is the path up to the Locale |
| SceneGraph.ReportingPath | src/classes/share/javax/media/j3d/PickInfo.java:375-386 | every node collected exists and has ENABLE_PICK_REPORTING set |
| SceneGraph.InitSceneGraphPath | src/classes/share/javax/media/j3d/PickInfo.java:375-386 | the do-while walk to the Locale returns ReportingPath |
| SceneGraph.MergePath | src/classes/share/javax/media/j3d/PickInfo.java:489-509 | the array has length \|p1\| + \|p2\| (p2 may be null) and holds the user Nodes of p1 then p2 in reverse order |
| SceneGraph.Inside | src/classes/share/javax/media/j3d/PickInfo.java:405-418 | true exactly when bg is null, the cached array is null, or bg is in the array |
| SceneGraph.PathOf | src/classes/share/javax/media/j3d/PickInfo.java:388-399 | a path exists exactly when retrievePath finds one |
| SceneGraph.CreatePath | src/classes/share/javax/media/j3d/PickInfo.java:388-399 | createPath returns PathOf |
| SceneGraph.BranchGroupPathIsLocalePath | src/classes/share/javax/media/j3d/PickInfo.java:388-399 | with no SharedGroup on the way, the path built for a pick from a BranchGroup equals the path built for a pick from the Locale |
| PickRecords.SetIntersectionPoint | src/classes/share/javax/media/j3d/PickInfo.java:1030-1033 | the point is set and no other field changes |
| PickRecords.SetVertexIndices | src/classes/share/javax/media/j3d/PickInfo.java:1039-1045 | the info holds a copy of the array's contents and no other field changes |
| PickRecords.SortPickInfoArray | src/classes/share/javax/media/j3d/PickInfo.java:230-287 | the records end in order of closest distance and are the records the array held |
| PickRecords.PickInfo.constructor | src/classes/share/javax/media/j3d/PickInfo.java:129-132 | a new PickInfo has an empty, unsorted intersection list and no array |
| PickRecords.PickInfo.InsertIntersectionInfo | src/classes/share/javax/media/j3d/PickInfo.java:166-169 | the info is appended and the list is marked unsorted; the sorted-array invariant still holds |
| PickRecords.PickInfo.SortIntersectionInfoArray | src/classes/share/javax/media/j3d/PickInfo.java:171-228 | the array ends sorted by distance and permuted, and the sorted flag is set |
| PickRecords.PickInfo.GetIntersectionInfos | src/classes/share/javax/media/j3d/PickInfo.java:359-368 | after an insert the result is a fresh array holding exactly the inserted infos, sorted by distance; with no insert since the last call it is that call's array, as callers left it; if nobody wrote into it, it is still sorted and holds exactly the inserted infos |
| Aggregation.EntryFollowsFlags | src/classes/share/javax/media/j3d/PickInfo.java:737-781 | a PickInfo is built exactly when some flag sets a field; each field is set exactly when its flag asks; the path and node name the picked node; the references are set exactly when a geometry flag asks |
| Aggregation.FirstGeometry | src/classes/share/javax/media/j3d/PickInfo.java:633-641 | the result is the first non-null geometry, and is None exactly when all are null |
| Aggregation.ScanGeometryList | src/classes/share/javax/media/j3d/PickInfo.java:635-639 | the loop returns FirstGeometry |
| Aggregation.ContainsNode | src/classes/share/javax/media/j3d/PickInfo.java:653-660 | found exactly when the source is already in text3dList |
| Aggregation.VisitAtom | src/classes/share/javax/media/j3d/PickInfo.java:608-786 | an atom is reported exactly when it is in scope, attached, has a non-null geometry, and is not a Text3D source already seen; it then yields one entry per srcList element when compiled, otherwise one entry |
| Aggregation.FanOut | src/classes/share/javax/media/j3d/PickInfo.java:678-733 | the srcList loop builds one entry per element, or only the first under PICK_ANY |
| Aggregation.ReportAtom | src/classes/share/javax/media/j3d/PickInfo.java:669-786 | the entries built for a reported source are those VisitAtom describes, cut to one under PICK_ANY |
| Aggregation.Dedup | src/classes/share/javax/media/j3d/PickInfo.java:628-667 | the atom is skipped exactly when its first geometry is null or is a Text3D already seen; a new Text3D source is remembered |
| Aggregation.ProcessAtom | src/classes/share/javax/media/j3d/PickInfo.java:608-786 | one loop body skips exactly when VisitAtom does, and otherwise yields VisitAtom's entries and seen list |
| Aggregation.VisitStep | src/classes/share/javax/media/j3d/PickInfo.java:608-787 | one iteration adds the records that Collect puts first, and stops exactly where Collect does |
| Aggregation.Advance | src/classes/share/javax/media/j3d/PickInfo.java:608-787 | one iteration keeps the loop invariant: the records gathered so far, followed by what Collect yields for the atoms still to visit, make up the whole result |
| Aggregation.GetPickInfos | src/classes/share/javax/media/j3d/PickInfo.java:595-790 | null for no atoms, otherwise Collect: the present entries of the reported atoms in order, stopping after the first reported node under PICK_ANY |
| Aggregation.CollectFollowsFlags | src/classes/share/javax/media/j3d/PickInfo.java:682-779 | every returned record holds what the flags asked for and nothing else, with closest point and distance still unset |
| Aggregation.NothingAskedNothingReturned | src/classes/share/javax/media/j3d/PickInfo.java:728-729 | with no flag set, the list is empty whatever was hit |
| Aggregation.PickAnyAtMostOne | src/classes/share/javax/media/j3d/PickInfo.java:730-732 | under PICK_ANY at most one record is returned |
| Aggregation.IgnoredAtomsNothingReturned | src/classes/share/javax/media/j3d/PickInfo.java:618-625 | atoms outside the picked BranchGroup or detached from the graph contribute nothing |
| Aggregation.Text3DReportedOnce | src/classes/share/javax/media/j3d/PickInfo.java:628-667 | over any atom list, the records getPickInfos takes from atoms of one Text3D source come from one atom only (at most one record, or one per srcList element when compiled), and none if that source was already seen |
| Aggregation.CompiledFanOut | src/classes/share/javax/media/j3d/PickInfo.java:671-733 | under PICK_ALL with NODE, a compiled Shape3D yields one record per srcList element, naming that element, in order |
| Aggregation.SortedPairsSortPayloads | src/classes/share/javax/media/j3d/PickInfo.java:543-580 | sorting pairs whose key is computed from the payload sorts the payloads by that computation and permutes them |
| Aggregation.SortGeomAtoms | src/classes/share/javax/media/j3d/PickInfo.java:515-584 | the atoms end in ascending order of distance and are the atoms the array held |
| Refinement.ArrayError | src/classes/share/javax/media/j3d/PickInfo.java:935-949 | no error exactly when the GeometryArray grants all capabilities it needs; a missing ALLOW_INTERSECT gives "PickInfo1" |
| Refinement.GeometryError | src/classes/share/javax/media/j3d/PickInfo.java:868-886 | no error exactly when the geometry grants what its class requires; a missing ALLOW_INTERSECT gives "PickInfo1" |
| Refinement.FirstError | src/classes/share/javax/media/j3d/PickInfo.java:861-887 | the error is that of the first non-null geometry that fails, and is None exactly when every non-null geometry passes |
| Refinement.NodeErrorIffNotPermitted | src/classes/share/javax/media/j3d/PickInfo.java:857-950 | pick raises no exception for a node exactly when the node lets its geometry be read and each geometry grants its required capabilities |
| Refinement.ScanForError | src/classes/share/javax/media/j3d/PickInfo.java:928-950 | the geometry loop returns FirstError |
| Refinement.CheckCapabilities | src/classes/share/javax/media/j3d/PickInfo.java:857-950 | the checks raise exactly NodeError's message |
| Refinement.PickNode | src/classes/share/javax/media/j3d/PickInfo.java:829-833 | a node is tested exactly when the record names one directly or through its reference |
| Refinement.VerdictOf | src/classes/share/javax/media/j3d/PickInfo.java:835-962 | a hit is left untested exactly when it names no Shape3D or Morph; otherwise it fails exactly when its node lacks a capability, with that error's key, and else it is a miss or a hit exactly as the node's intersect answers none or an updated record |
| Refinement.GeometryPickFailsOnMissingCapability | src/classes/share/javax/media/j3d/PickInfo.java:817-961 | a geometry pick (not PICK_ANY) with a bounds hit whose node does not grant its capabilities raises CapabilityNotSetException |
| Refinement.Test | src/classes/share/javax/media/j3d/PickInfo.java:826-962 | the loop body computes VerdictOf |
| Refinement.Refine | src/classes/share/javax/media/j3d/PickInfo.java:820-963 | the kept list is never longer than the input |
| Refinement.RefineByGeometry | src/classes/share/javax/media/j3d/PickInfo.java:820-963 | the backward loop, removing misses in place, returns Refine |
| Refinement.ApplyVerdict | src/classes/share/javax/media/j3d/PickInfo.java:889-894 | a miss is removed from position i, a confirmed hit stays there as its updated record, an untested hit stays as it was, and the hits before i are untouched |
| Refinement.RefineStep | src/classes/share/javax/media/j3d/PickInfo.java:826-961 | one pass either ends the pick with the outcome of the whole refinement or leaves the list so that the loop invariant holds one position lower |
| Refinement.RefineKeepsSurvivors | src/classes/share/javax/media/j3d/PickInfo.java:820-963 | with no capability failure and not PICK_ANY, the result keeps, in list order, the updated confirmed hits and the untested hits unchanged, and drops the misses |
| Refinement.RefineFailsAtLastFailure | src/classes/share/javax/media/j3d/PickInfo.java:857-950 | an exception carries the message of the last hit, in list order, that misses a capability |
| Refinement.RefineFailsIfAnyFails | src/classes/share/javax/media/j3d/PickInfo.java:857-950 | unless PICK_ANY returns first, one hit missing a capability raises the exception |
| Refinement.RefineEarlyIsLastHit | src/classes/share/javax/media/j3d/PickInfo.java:895-898 | PICK_ANY returns the last confirmed hit in list order; every later hit was a miss or untested |
| Refinement.InitPath | src/classes/share/javax/media/j3d/PickInfo.java:808-812 | the initial path of a BranchGroup pick lies in the scene graph |
| Refinement.NonEmpty | src/classes/share/javax/media/j3d/PickInfo.java:966-974 | a list is returned as an array exactly when it is non-empty, otherwise null |
| Refinement.Pick | src/classes/share/javax/media/j3d/PickInfo.java:792-975 | pick returns PickSpec: the bounds hits, refined by geometry under PICK_GEOMETRY, or the capability exception |
| Refinement.PickNeverEmpty | src/classes/share/javax/media/j3d/PickInfo.java:966-974 | pick never returns an empty array |
| Refinement.BoundsPickNeverFails | src/classes/share/javax/media/j3d/PickInfo.java:817-819 | outside PICK_GEOMETRY no exception is raised and the bounds hits are returned as they are |
| Refinement.GeometryPickKeepsSurvivors | src/classes/share/javax/media/j3d/PickInfo.java:817-974 | when every hit's node grants its capabilities, a geometry pick returns the surviving hits in getPickInfos' order |
| Refinement.PickAnyReturnsOne | src/classes/share/javax/media/j3d/PickInfo.java:730-732 | under PICK_ANY a non-null result holds exactly one record |

## Left out

- The `synchronized (locale.universe.sceneGraphLock)` block in pick is not modelled. The model is sequential.
- Shape3DRetained.intersect and MorphRetained.intersect are parameters (`Oracles.intersect`). They answer a miss, or the record with the intersection results filled in. Whatever they write into a record they then reject is not modelled.
- PickShape.intersect, which sortGeomAtoms uses for each atom's distance, is the parameter `distanceTo`. A double-valued distance is modelled as a `real`; NaN distances are not modelled.
- Aggregation.SortGeomAtoms: the model assumes every atom's bounds intersect the pick shape. The source ignores intersect's boolean answer and reads pickPos.w regardless, so an atom it misses takes the previous atom's distance (0.0 for the first atom); that stale reuse is not captured.
- Transform3D, Point3d and SceneGraphPath are values. `new Transform3D(l2vw)` and `new Point3d(p)` copies are not distinguished from the original, and the l2vw reference and the l2vw copy hold the same value.
- SceneGraphPath.setTransform and the Locale inside SceneGraphPath are not modelled. A path is its node list and its object.
- J3dI18N.getString is not modelled. An exception carries its message key ("PickInfo0" to "PickInfo6").
- pick on an object that is neither a Locale nor a BranchGroupRetained is not modelled. The source then dereferences a null Locale.
- Java `assert` statements are not modelled. Atoms are non-null with a non-null source, and the indices and points given to the setters are non-null.
- SceneGraph.CreatePath returns None where retrievePath returns null. At PickInfo.java:395 the source asserts that this does not happen; with assertions off, mergePath would then dereference null. getPickInfos then sets no SceneGraphPath.
- HashKey.java is not part of this model. A key is the list of Link ids, innermost last. An exhausted key yields no id and matches no Link.
- PickInfo's result fields are the value `PickRecord`, which getPickInfos builds once per hit. Only the intersection list, which is updated in place, is the class `PickInfo`.
- IntersectionInfo is a value. Its trivial setters (setGeometryIndex, setGeometry, setDistance) and the getters of both classes are not modelled. createIntersectionInfo is the IntersectionInfo constructor.
- The PickInfo setters of PickInfo.java:134-160 are field assignments inside getPickInfos and are not separate members.
- Geometry classes are reduced to what pick tests: GeometryArray (indexed or not), CompressedGeometry, and any other Geometry. By-reference geometry (ALLOW_REF_DATA_READ) is not tested by the source and is not modelled.
- Refinement.Refine: its contract states only the length bound. What it keeps and why it fails are stated by RefineKeepsSurvivors, RefineFailsAtLastFailure, RefineFailsIfAnyFails and RefineEarlyIsLastHit.
