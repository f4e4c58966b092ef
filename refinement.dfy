/**
 * pick: the bounds hits getPickInfos reports are, in PICK_GEOMETRY mode,
 * refined against the actual geometry. Each hit's node must grant the
 * capabilities that let its geometry be read; the node's own intersect
 * routine then either fills the intersection results in or drops the hit.
 */
module Refinement {
  import opened Wrappers
  import opened SceneGraph
  import opened PickRecords
  import opened Aggregation

  /** Pick modes (PickInfo.java:81-89). */
  const PICK_BOUNDS: int := 1
  const PICK_GEOMETRY: int := 2

  /** The capability bits pick looks at. */
  datatype Capability =
    | AllowIntersect            // Geometry.ALLOW_INTERSECT
    | AllowCoordinateRead       // GeometryArray.ALLOW_COORDINATE_READ
    | AllowCountRead            // GeometryArray.ALLOW_COUNT_READ
    | AllowFormatRead           // GeometryArray.ALLOW_FORMAT_READ
    | AllowCoordinateIndexRead  // IndexedGeometryArray.ALLOW_COORDINATE_INDEX_READ
    | AllowGeometryRead         // CompressedGeometry.ALLOW_GEOMETRY_READ

  /** A GeometryArray, indexed or not, with the capabilities it grants. */
  datatype ArrayGeometry = ArrayGeometry(indexed: bool, caps: set<Capability>)

  datatype Geometry =
    | GeometryArray(array: ArrayGeometry)
    | CompressedGeometry(caps: set<Capability>)
    | OtherGeometry(caps: set<Capability>)

  /** The user-side node a hit names: a Shape3D with its geometry list, a
      Morph with its geometry arrays, or any other node, which pick leaves
      as it is. */
  datatype UserNode =
    | Shape3DNode(allowGeometryRead: bool, geometries: seq<Option<Geometry>>)
    | MorphNode(allowGeometryArrayRead: bool, geometryArrays: seq<Option<ArrayGeometry>>)
    | OtherNode

  function CapsOf(geo: Geometry): set<Capability>
  {
    match geo
    case GeometryArray(a) => a.caps
    case CompressedGeometry(caps) => caps
    case OtherGeometry(caps) => caps
  }

  /** The message key of the first capability a GeometryArray lacks, in
      the order PickInfo.java:872-882 and :935-949 test them. */
  function ArrayError(a: ArrayGeometry): (r: Option<string>)
    ensures r.None? <==> ArrayRequired(a) <= a.caps
    ensures AllowIntersect !in a.caps ==> r == Some("PickInfo1")
  {
    if AllowIntersect !in a.caps then Some("PickInfo1")
    else if AllowCoordinateRead !in a.caps then Some("PickInfo2")
    else if AllowCountRead !in a.caps then Some("PickInfo3")
    else if AllowFormatRead !in a.caps then Some("PickInfo4")
    else if a.indexed && AllowCoordinateIndexRead !in a.caps then Some("PickInfo5")
    else None
  }

  /** The capabilities a GeometryArray must grant to be picked by geometry. */
  function ArrayRequired(a: ArrayGeometry): set<Capability>
  {
    {AllowIntersect, AllowCoordinateRead, AllowCountRead, AllowFormatRead} +
    (if a.indexed then {AllowCoordinateIndexRead} else {})
  }

  /** The capabilities any geometry of a Shape3D must grant. */
  function Required(geo: Geometry): set<Capability>
  {
    match geo
    case GeometryArray(a) => ArrayRequired(a)
    case CompressedGeometry(_) => {AllowIntersect, AllowGeometryRead}
    case OtherGeometry(_) => {AllowIntersect}
  }

  /** The message key of the first capability one geometry of a Shape3D
      lacks (PickInfo.java:868-886). */
  function GeometryError(geo: Geometry): (r: Option<string>)
    ensures r.None? <==> Required(geo) <= CapsOf(geo)
    ensures AllowIntersect !in CapsOf(geo) ==> r == Some("PickInfo1")
  {
    match geo
    case GeometryArray(a) => ArrayError(a)
    case CompressedGeometry(caps) =>
      if AllowIntersect !in caps then Some("PickInfo1")
      else if AllowGeometryRead !in caps then Some("PickInfo0")
      else None
    case OtherGeometry(caps) =>
      if AllowIntersect !in caps then Some("PickInfo1") else None
  }

  /** The error of the first non-null element that fails the check. */
  function FirstError<G>(geos: seq<Option<G>>, check: G -> Option<string>): (r: Option<string>)
    ensures r.None? <==> forall j :: 0 <= j < |geos| && geos[j].Some? ==> check(geos[j].value).None?
    ensures r.Some? ==> exists j :: 0 <= j < |geos| && geos[j].Some? && check(geos[j].value) == r &&
                                    forall m :: 0 <= m < j && geos[m].Some? ==> check(geos[m].value).None?
  {
    if |geos| == 0 then None
    else if geos[0].Some? && check(geos[0].value).Some? then check(geos[0].value)
    else
      var rest := FirstError(geos[1..], check);
      assert forall j :: 1 <= j < |geos| ==> geos[j] == geos[1..][j - 1];
      if rest.Some? then
        ghost var j :| 0 <= j < |geos[1..]| && geos[1..][j].Some? && check(geos[1..][j].value) == rest &&
                       forall m :: 0 <= m < j && geos[1..][m].Some? ==> check(geos[1..][m].value).None?;
        assert geos[j + 1].Some? && check(geos[j + 1].value) == rest;
        rest
      else rest
  }

  /** The exception message, if any, pick raises for a hit on this node
      (PickInfo.java:857-887 for a Shape3D, :923-950 for a Morph). */
  function NodeError(n: UserNode): Option<string>
  {
    match n
    case Shape3DNode(read, geos) => if !read then Some("PickInfo0") else FirstError(geos, GeometryError)
    case MorphNode(read, arrays) => if !read then Some("PickInfo6") else FirstError(arrays, ArrayError)
    case OtherNode => None
  }

  /** The capabilities pick needs, stated declaratively: the node lets its
      geometry be read, and every geometry it holds grants what it must. */
  ghost predicate Permits(n: UserNode)
  {
    match n
    case Shape3DNode(read, geos) =>
      read && forall j :: 0 <= j < |geos| && geos[j].Some? ==> Required(geos[j].value) <= CapsOf(geos[j].value)
    case MorphNode(read, arrays) =>
      read && forall j :: 0 <= j < |arrays| && arrays[j].Some? ==> ArrayRequired(arrays[j].value) <= arrays[j].value.caps
    case OtherNode => true
  }

  /** pick raises no exception for a node exactly when the node grants
      every capability it needs. */
  lemma NodeErrorIffNotPermitted(n: UserNode)
    ensures NodeError(n).None? <==> Permits(n)
  {
    match n
    case Shape3DNode(read, geos) =>
      if read {
        assert FirstError(geos, GeometryError).None? <==>
               forall j :: 0 <= j < |geos| && geos[j].Some? ==> GeometryError(geos[j].value).None?;
      }
    case MorphNode(read, arrays) =>
      if read {
        assert FirstError(arrays, ArrayError).None? <==>
               forall j :: 0 <= j < |arrays| && arrays[j].Some? ==> ArrayError(arrays[j].value).None?;
      }
    case OtherNode =>
  }

  /** The geometry loops of PickInfo.java:861-887 and :928-950: they stop
      at the first null-skipping failure. */
  method ScanForError<G>(geos: seq<Option<G>>, check: G -> Option<string>) returns (err: Option<string>)
    ensures err == FirstError(geos, check)
  {
    for j := 0 to |geos|
      invariant FirstError(geos, check) == FirstError(geos[j..], check)
    {
      assert geos[j..][0] == geos[j] && geos[j..][1..] == geos[j + 1..];
      if geos[j].Some? {
        err := check(geos[j].value);
        if err.Some? {
          return;
        }
      }
    }
    assert geos[|geos|..] == [];
    return None;
  }

  /** The capability checks pick makes before intersecting a node. */
  method CheckCapabilities(n: UserNode) returns (err: Option<string>)
    ensures err == NodeError(n)
  {
    match n
    case Shape3DNode(read, geos) =>
      if !read {
        return Some("PickInfo0");
      }
      err := ScanForError(geos, GeometryError);
    case MorphNode(read, arrays) =>
      if !read {
        return Some("PickInfo6");
      }
      err := ScanForError(arrays, ArrayError);
    case OtherNode =>
      err := None;
  }

  /** What pick cannot see: the user node a reference names, and the
      node's intersect routine, which answers None when the pick shape
      misses the geometry and otherwise the record with the intersection
      results filled in. */
  datatype Oracles = Oracles(
    nodeOf: NodeRef -> UserNode,
    intersect: (NodeRef, PickRecord) -> Option<PickRecord>)

  /** What refinement does with one hit. */
  datatype Verdict = Fail(msg: string) | Hit(updated: PickRecord) | Miss | Untested

  /** The node a hit is tested against: the reported node, else the
      reference getPickInfos left for the geometry computation
      (PickInfo.java:829-833). */
  function PickNode(p: PickRecord): (r: Option<NodeRef>)
    ensures r.Some? <==> p.node.Some? || p.nodeRef.Some?
  {
    if p.node.Some? then p.node else p.nodeRef
  }

  /** The verdict on one hit (PickInfo.java:835-962). */
  function VerdictOf(o: Oracles, p: PickRecord): (v: Verdict)
    ensures v.Fail? ==> PickNode(p).Some? && NodeError(o.nodeOf(PickNode(p).value)) == Some(v.msg)
    ensures v.Untested? <==> PickNode(p).None? || o.nodeOf(PickNode(p).value).OtherNode?
    ensures PickNode(p).Some? && !o.nodeOf(PickNode(p).value).OtherNode? ==>
              (v.Fail? <==> NodeError(o.nodeOf(PickNode(p).value)).Some?)
    ensures v.Miss? <==> PickNode(p).Some? && !o.nodeOf(PickNode(p).value).OtherNode? &&
                         NodeError(o.nodeOf(PickNode(p).value)).None? && o.intersect(PickNode(p).value, p).None?
    ensures v.Hit? <==> PickNode(p).Some? && !o.nodeOf(PickNode(p).value).OtherNode? &&
                        NodeError(o.nodeOf(PickNode(p).value)).None? && o.intersect(PickNode(p).value, p).Some?
    ensures v.Hit? ==> Some(v.updated) == o.intersect(PickNode(p).value, p)
  {
    var n := PickNode(p);
    if n.None? then Untested
    else
      var node := o.nodeOf(n.value);
      if node.OtherNode? then Untested
      else
        var err := NodeError(node);
        if err.Some? then Fail(err.value)
        else
          var q := o.intersect(n.value, p);
          if q.None? then Miss else Hit(q.value)
  }

  /** How refinement ends: with an exception, with a single hit under
      PICK_ANY, or with the list of hits kept. */
  datatype Refined = Failed(msg: string) | Early(hit: PickRecord) | Kept(list: seq<PickRecord>)

  /** A refinement that has already produced `tail` for the later hits. */
  function Then(r: Refined, tail: seq<PickRecord>): Refined
  {
    match r
    case Kept(list) => Kept(list + tail)
    case _ => r
  }

  /** What one verdict keeps: the updated hit, nothing, or the hit as it
      was. */
  function Keep(v: Verdict, p: PickRecord): seq<PickRecord>
  {
    match v
    case Hit(q) => [q]
    case Untested => [p]
    case _ => []
  }

  /** The refinement loop of PickInfo.java:820-963, which walks the hits
      from the last to the first: the last hit's verdict comes first. */
  function Refine(o: Oracles, list: seq<PickRecord>, pickType: int): (r: Refined)
    ensures r.Kept? ==> |r.list| <= |list|
  {
    if |list| == 0 then Kept([])
    else
      var last := list[|list| - 1];
      match VerdictOf(o, last)
      case Fail(msg) => Failed(msg)
      case Hit(q) =>
        if pickType == PICK_ANY then Early(q) else Then(Refine(o, list[..|list| - 1], pickType), [q])
      case _ => Then(Refine(o, list[..|list| - 1], pickType), Keep(VerdictOf(o, last), last))
  }

  lemma ThenTwice(r: Refined, a: seq<PickRecord>, b: seq<PickRecord>)
    ensures Then(Then(r, a), b) == Then(r, a + b)
  {
    if r.Kept? {
      assert r.list + a + b == r.list + (a + b);
    }
  }

  /** The verdict on one hit, computed (PickInfo.java:826-962). */
  method Test(o: Oracles, p: PickRecord) returns (v: Verdict)
    ensures v == VerdictOf(o, p)
  {
    var pickNode := p.node;
    if pickNode.None? {
      pickNode := p.nodeRef;
    }
    if pickNode.None? {
      return Untested;
    }
    var node := o.nodeOf(pickNode.value);
    if node.OtherNode? {
      return Untested;
    }
    var err := CheckCapabilities(node);
    if err.Some? {
      return Fail(err.value);
    }
    var q := o.intersect(pickNode.value, p);
    if q.None? {
      return Miss;
    }
    return Hit(q.value);
  }

  /** Refine on the hits up to index i, through the verdict on hit i. */
  lemma RefineAt(o: Oracles, list: seq<PickRecord>, i: nat, pickType: int)
    requires i < |list|
    ensures var v := VerdictOf(o, list[i]);
            Refine(o, list[..i + 1], pickType) ==
              if v.Fail? then Failed(v.msg)
              else if v.Hit? && pickType == PICK_ANY then Early(v.updated)
              else Then(Refine(o, list[..i], pickType), Keep(v, list[i]))
  {
    assert list[..i + 1][..i] == list[..i] && list[..i + 1][i] == list[i];
  }

  /** What the loop body does to the list at position i: a confirmed hit
      stays in place as the record its intersect routine filled in, a miss
      is removed (pickInfoList.remove(i)), an untested hit stays as it was. */
  method ApplyVerdict(list: seq<PickRecord>, i: nat, v: Verdict) returns (r: seq<PickRecord>)
    requires i < |list| && !v.Fail?
    ensures i <= |r| && r[..i] == list[..i] && r[i..] == Keep(v, list[i]) + list[i + 1..]
  {
    if v.Hit? {
      r := list[i := v.updated];
      assert r[i..] == [v.updated] + list[i + 1..];
    } else if v.Miss? {
      r := list[..i] + list[i + 1..];
      assert r[..i] == list[..i];
    } else {
      r := list;
      assert r[i..] == [list[i]] + list[i + 1..];
    }
  }

  /** The refinement loop of PickInfo.java:820-963, removing missed hits
      from the list in place and replacing hits by their updated records. */
  method RefineByGeometry(o: Oracles, pickInfoList: seq<PickRecord>, pickType: int) returns (r: Refined)
    ensures r == Refine(o, pickInfoList, pickType)
  {
    ghost var total := Refine(o, pickInfoList, pickType);
    var list := pickInfoList;
    var i := |list| - 1;
    assert pickInfoList[..|pickInfoList|] == pickInfoList;
    while i >= 0
      invariant -1 <= i < |list| && i < |pickInfoList| && list[..i + 1] == pickInfoList[..i + 1]
      invariant total == Then(Refine(o, pickInfoList[..i + 1], pickType), list[i + 1..])
    {
      var stop;
      stop, list := RefineStep(o, pickInfoList, pickType, list, i, total);
      if stop.Some? {
        return stop.value;
      }
      i := i - 1;
    }
    assert pickInfoList[..0] == [] && list[0..] == list;
    return Kept(list);
  }

  /** One pass of the refinement loop at position i: it either ends the
      pick with `total`, or leaves the list so that the invariant holds
      one position further down. */
  method RefineStep(o: Oracles, pickInfoList: seq<PickRecord>, pickType: int, list: seq<PickRecord>, i: nat,
                    ghost total: Refined)
    returns (stop: Option<Refined>, list': seq<PickRecord>)
    requires i < |list| && i < |pickInfoList| && list[..i + 1] == pickInfoList[..i + 1]
    requires total == Then(Refine(o, pickInfoList[..i + 1], pickType), list[i + 1..])
    ensures stop.Some? ==> stop.value == total
    ensures stop.None? ==> i <= |list'| && list'[..i] == pickInfoList[..i] &&
                           total == Then(Refine(o, pickInfoList[..i], pickType), list'[i..])
  {
    var p := list[i];
    assert p == pickInfoList[..i + 1][i] == pickInfoList[i];
    RefineAt(o, pickInfoList, i, pickType);
    var v := Test(o, p);
    if v.Fail? {
      return Some(Failed(v.msg)), list;
    }
    if v.Hit? && pickType == PICK_ANY {
      return Some(Early(v.updated)), list;
    }
    ThenTwice(Refine(o, pickInfoList[..i], pickType), Keep(v, p), list[i + 1..]);
    assert list[..i] == pickInfoList[..i + 1][..i];
    list' := ApplyVerdict(list, i, v);
    stop := None;
  }

  /** The hits kept, read front to back: the reference the backward loop
      is measured against. */
  function Survivors(o: Oracles, list: seq<PickRecord>): seq<PickRecord>
  {
    if |list| == 0 then [] else Keep(VerdictOf(o, list[0]), list[0]) + Survivors(o, list[1..])
  }

  lemma {:induction false} SurvivorsSnoc(o: Oracles, list: seq<PickRecord>)
    requires |list| > 0
    ensures Survivors(o, list) == Survivors(o, list[..|list| - 1]) + Keep(VerdictOf(o, list[|list| - 1]), list[|list| - 1])
    decreases |list|
  {
    if |list| > 1 {
      var init := list[..|list| - 1];
      assert list[1..][..|list[1..]| - 1] == init[1..];
      assert list[1..][|list[1..]| - 1] == list[|list| - 1];
      SurvivorsSnoc(o, list[1..]);
    } else {
      assert list[..0] == [];
    }
  }

  /** When no hit fails its capability checks and the pick is not
      PICK_ANY, refinement keeps, in their order, the updated records of
      the hits the geometry confirms and the untested hits as they were,
      and drops the rest. */
  lemma {:induction false} RefineKeepsSurvivors(o: Oracles, list: seq<PickRecord>, pickType: int)
    requires pickType != PICK_ANY
    requires forall k :: 0 <= k < |list| ==> !VerdictOf(o, list[k]).Fail?
    ensures Refine(o, list, pickType) == Kept(Survivors(o, list))
    decreases |list|
  {
    if |list| > 0 {
      var init := list[..|list| - 1];
      assert forall k :: 0 <= k < |init| ==> init[k] == list[k];
      RefineKeepsSurvivors(o, init, pickType);
      SurvivorsSnoc(o, list);
    }
  }

  /** An exception names the capability missing from the last hit, in
      list order, that misses one: the loop meets that hit first. */
  lemma {:induction false} RefineFailsAtLastFailure(o: Oracles, list: seq<PickRecord>, pickType: int)
    ensures Refine(o, list, pickType).Failed? ==>
              exists i :: LastFailureAt(o, list, i, Refine(o, list, pickType).msg)
    decreases |list|
  {
    if |list| > 0 {
      var n := |list| - 1;
      var init := list[..n];
      if VerdictOf(o, list[n]).Fail? {
        RefineFailsAtLast(o, list, pickType);
        assert LastFailureAt(o, list, n, Refine(o, list, pickType).msg);
      } else if Refine(o, list, pickType).Failed? {
        RefineFailedBefore(o, list, pickType);
        RefineFailsAtLastFailure(o, init, pickType);
        var i :| LastFailureAt(o, init, i, Refine(o, init, pickType).msg);
        LastFailureExtends(o, list, i, Refine(o, init, pickType).msg);
      }
    }
  }

  /** Hit i fails with msg, and no later hit fails its checks. */
  ghost predicate LastFailureAt(o: Oracles, list: seq<PickRecord>, i: int, msg: string)
  {
    0 <= i < |list| && VerdictOf(o, list[i]) == Fail(msg) &&
    forall k :: i < k < |list| ==> !VerdictOf(o, list[k]).Fail?
  }

  /** Appending a hit that passes its checks keeps the last failure. */
  lemma LastFailureExtends(o: Oracles, list: seq<PickRecord>, i: int, msg: string)
    requires |list| > 0 && !VerdictOf(o, list[|list| - 1]).Fail?
    requires LastFailureAt(o, list[..|list| - 1], i, msg)
    ensures LastFailureAt(o, list, i, msg)
  {
    var init := list[..|list| - 1];
    assert list[i] == init[i];
    forall k | i < k < |list|
      ensures !VerdictOf(o, list[k]).Fail?
    {
      if k < |list| - 1 {
        assert list[k] == init[k];
      }
    }
  }

  /** A last hit that fails its capability checks is tested first, so its
      message is the one raised. */
  lemma RefineFailsAtLast(o: Oracles, list: seq<PickRecord>, pickType: int)
    requires |list| > 0 && VerdictOf(o, list[|list| - 1]).Fail?
    ensures Refine(o, list, pickType) == Failed(VerdictOf(o, list[|list| - 1]).msg)
  {
  }

  /** When the last hit passes its checks, a failure comes from the hits
      before it. */
  lemma RefineFailedBefore(o: Oracles, list: seq<PickRecord>, pickType: int)
    requires |list| > 0 && !VerdictOf(o, list[|list| - 1]).Fail? && Refine(o, list, pickType).Failed?
    ensures Refine(o, list[..|list| - 1], pickType) == Refine(o, list, pickType)
  {
  }

  /** Unless PICK_ANY stops it first, one hit that misses a capability is
      enough for pick to raise the exception. */
  lemma {:induction false} RefineFailsIfAnyFails(o: Oracles, list: seq<PickRecord>, pickType: int, i: int)
    requires pickType != PICK_ANY && 0 <= i < |list| && VerdictOf(o, list[i]).Fail?
    ensures Refine(o, list, pickType).Failed?
    decreases |list|
  {
    var n := |list| - 1;
    if i < n {
      var init := list[..n];
      assert init[i] == list[i];
      RefineFailsIfAnyFails(o, init, pickType, i);
    }
  }

  /** A PICK_ANY refinement stops at the first confirmed hit it meets,
      which is the last one in list order: the result is that hit. */
  lemma {:induction false} RefineEarlyIsLastHit(o: Oracles, list: seq<PickRecord>, pickType: int)
    ensures Refine(o, list, pickType).Early? ==>
              pickType == PICK_ANY && exists i :: LastHitAt(o, list, i, Refine(o, list, pickType).hit)
    decreases |list|
  {
    if |list| > 0 {
      var n := |list| - 1;
      var init := list[..n];
      var v := VerdictOf(o, list[n]);
      if v.Hit? && pickType == PICK_ANY {
        RefineEarlyAtLast(o, list, pickType);
        assert LastHitAt(o, list, n, Refine(o, list, pickType).hit);
      } else if Refine(o, list, pickType).Early? {
        RefineEarlyBefore(o, list, pickType);
        RefineEarlyIsLastHit(o, init, pickType);
        var i :| LastHitAt(o, init, i, Refine(o, init, pickType).hit);
        LastHitExtends(o, list, i, Refine(o, init, pickType).hit);
      }
    }
  }

  /** Hit i is confirmed as q, and every later hit was missed or untested. */
  ghost predicate LastHitAt(o: Oracles, list: seq<PickRecord>, i: int, q: PickRecord)
  {
    0 <= i < |list| && VerdictOf(o, list[i]) == Hit(q) &&
    forall k :: i < k < |list| ==> VerdictOf(o, list[k]).Miss? || VerdictOf(o, list[k]).Untested?
  }

  /** Under PICK_ANY a confirmed last hit ends the pick at once. */
  lemma RefineEarlyAtLast(o: Oracles, list: seq<PickRecord>, pickType: int)
    requires |list| > 0 && VerdictOf(o, list[|list| - 1]).Hit? && pickType == PICK_ANY
    ensures Refine(o, list, pickType) == Early(VerdictOf(o, list[|list| - 1]).updated)
  {
  }

  /** When the last hit does not end the pick early, an early end comes
      from the hits before it, and the last hit passed its checks. */
  lemma RefineEarlyBefore(o: Oracles, list: seq<PickRecord>, pickType: int)
    requires |list| > 0 && !(VerdictOf(o, list[|list| - 1]).Hit? && pickType == PICK_ANY)
    requires Refine(o, list, pickType).Early?
    ensures Refine(o, list[..|list| - 1], pickType) == Refine(o, list, pickType)
    ensures !VerdictOf(o, list[|list| - 1]).Fail?
  {
  }

  /** Appending a hit that was missed or untested keeps the last hit. */
  lemma LastHitExtends(o: Oracles, list: seq<PickRecord>, i: int, q: PickRecord)
    requires |list| > 0 && (VerdictOf(o, list[|list| - 1]).Miss? || VerdictOf(o, list[|list| - 1]).Untested?)
    requires LastHitAt(o, list[..|list| - 1], i, q)
    ensures LastHitAt(o, list, i, q)
  {
    var init := list[..|list| - 1];
    assert list[i] == init[i];
    forall k | i < k < |list|
      ensures VerdictOf(o, list[k]).Miss? || VerdictOf(o, list[k]).Untested?
    {
      if k < |list| - 1 {
        assert list[k] == init[k];
      }
    }
  }

  /** What pick is given: a Locale, or a BranchGroup whose subgraph alone
      is searched. */
  datatype Target = LocaleTarget | BranchGroupTarget(bg: Id)

  /** What pick ends in: a CapabilityNotSetException carrying a message
      key, or the picked records (null when there are none). */
  datatype PickOutcome = CapabilityNotSet(msg: string) | Picked(infos: Option<seq<PickRecord>>)

  function TargetGroup(target: Target): Option<Id>
  {
    if target.BranchGroupTarget? then Some(target.bg) else None
  }

  /** The scene-graph facts pick relies on. */
  ghost predicate PickContext(g: Graph, target: Target, geomAtoms: seq<GeometryAtom>)
  {
    WellFormed(g) && (target.BranchGroupTarget? ==> target.bg in g) && AtomsIn(g, geomAtoms)
  }

  /** The path above a BranchGroup target, down to its Locale. */
  function InitPath(g: Graph, target: Target): (r: Option<seq<Id>>)
    requires WellFormed(g) && (target.BranchGroupTarget? ==> target.bg in g)
    ensures Context(g, TargetGroup(target), r)
  {
    if target.BranchGroupTarget? then Some(ReportingPath(g, target.bg)) else None
  }

  /** The bounds-level hits of a pick (PickInfo.java:808-814). */
  function BoundsHits(g: Graph, target: Target, geomAtoms: seq<GeometryAtom>, flags: bv32, pickType: int): Option<seq<PickRecord>>
    requires PickContext(g, target, geomAtoms)
  {
    if |geomAtoms| == 0 then None
    else Some(Collect(g, geomAtoms, TargetGroup(target), InitPath(g, target), flags, pickType, []))
  }

  /** A list returned as an array, or null when it is empty
      (PickInfo.java:966-974). */
  function NonEmpty(list: seq<PickRecord>): (r: Option<seq<PickRecord>>)
    ensures r.Some? <==> |list| > 0
  {
    if |list| > 0 then Some(list) else None
  }

  /** pick (PickInfo.java:792-975). */
  function PickSpec(g: Graph, target: Target, geomAtoms: seq<GeometryAtom>, mode: int, flags: bv32,
                    pickType: int, o: Oracles): PickOutcome
    requires PickContext(g, target, geomAtoms)
  {
    var hits := BoundsHits(g, target, geomAtoms, flags, pickType);
    if mode == PICK_GEOMETRY && hits.Some? && |hits.value| > 0 then
      match Refine(o, hits.value, pickType)
      case Failed(msg) => CapabilityNotSet(msg)
      case Early(hit) => Picked(Some([hit]))
      case Kept(list) => Picked(NonEmpty(list))
    else Picked(if hits.Some? then NonEmpty(hits.value) else None)
  }

  /** pick (PickInfo.java:792-975): bounds hits from getPickInfos, refined
      by geometry in PICK_GEOMETRY mode. */
  method Pick(g: Graph, target: Target, geomAtoms: seq<GeometryAtom>, mode: int, flags: bv32,
              pickType: int, o: Oracles) returns (r: PickOutcome)
    requires PickContext(g, target, geomAtoms)
    ensures r == PickSpec(g, target, geomAtoms, mode, flags, pickType, o)
  {
    var bgRetained: Option<Id> := None;
    if target.BranchGroupTarget? {
      bgRetained := Some(target.bg);
    }
    var initPath: Option<seq<Id>> := None;
    if bgRetained.Some? {
      var path := InitSceneGraphPath(g, bgRetained.value);
      initPath := Some(path);
    }
    var pickInfoList := GetPickInfos(g, initPath, bgRetained, geomAtoms, flags, pickType);
    if mode == PICK_GEOMETRY && pickInfoList.Some? && |pickInfoList.value| > 0 {
      var refined := RefineByGeometry(o, pickInfoList.value, pickType);
      match refined {
        case Failed(msg) =>
          return CapabilityNotSet(msg);
        case Early(hit) =>
          return Picked(Some([hit]));
        case Kept(list) =>
          pickInfoList := Some(list);
      }
    }
    if pickInfoList.Some? && |pickInfoList.value| > 0 {
      return Picked(pickInfoList);
    }
    return Picked(None);
  }

  /** pick never hands out an empty array: no hits is null. */
  lemma PickNeverEmpty(g: Graph, target: Target, geomAtoms: seq<GeometryAtom>, mode: int, flags: bv32,
                       pickType: int, o: Oracles)
    requires PickContext(g, target, geomAtoms)
    ensures var r := PickSpec(g, target, geomAtoms, mode, flags, pickType, o);
            r.Picked? && r.infos.Some? ==> |r.infos.value| > 0
  {
  }

  /** Only PICK_GEOMETRY can raise CapabilityNotSetException; any other
      mode returns the bounds hits as they are. */
  lemma BoundsPickNeverFails(g: Graph, target: Target, geomAtoms: seq<GeometryAtom>, mode: int, flags: bv32,
                             pickType: int, o: Oracles)
    requires PickContext(g, target, geomAtoms) && mode != PICK_GEOMETRY
    ensures var r := PickSpec(g, target, geomAtoms, mode, flags, pickType, o);
            r.Picked? && (r.infos.Some? ==> r.infos == BoundsHits(g, target, geomAtoms, flags, pickType))
  {
  }

  /** A geometry pick in which every hit grants its capabilities returns
      the surviving hits, in the order getPickInfos reported them. */
  lemma GeometryPickKeepsSurvivors(g: Graph, target: Target, geomAtoms: seq<GeometryAtom>, flags: bv32,
                                   pickType: int, o: Oracles)
    requires PickContext(g, target, geomAtoms) && pickType != PICK_ANY
    requires var hits := BoundsHits(g, target, geomAtoms, flags, pickType);
             hits.Some? ==> forall k :: 0 <= k < |hits.value| && PickNode(hits.value[k]).Some? ==>
                                         Permits(o.nodeOf(PickNode(hits.value[k]).value))
    ensures var hits := BoundsHits(g, target, geomAtoms, flags, pickType);
            PickSpec(g, target, geomAtoms, PICK_GEOMETRY, flags, pickType, o) ==
              Picked(if hits.Some? then NonEmpty(Survivors(o, hits.value)) else None)
  {
    var hits := BoundsHits(g, target, geomAtoms, flags, pickType);
    if hits.Some? {
      forall k | 0 <= k < |hits.value|
        ensures !VerdictOf(o, hits.value[k]).Fail?
      {
        if PickNode(hits.value[k]).Some? {
          NodeErrorIffNotPermitted(o.nodeOf(PickNode(hits.value[k]).value));
        }
      }
      RefineKeepsSurvivors(o, hits.value, pickType);
    }
  }

  /** A geometry pick in which some bounds hit names a node that does not
      grant its capabilities raises CapabilityNotSetException. */
  lemma GeometryPickFailsOnMissingCapability(g: Graph, target: Target, geomAtoms: seq<GeometryAtom>, flags: bv32,
                                             pickType: int, o: Oracles, k: int)
    requires PickContext(g, target, geomAtoms) && pickType != PICK_ANY
    requires var hits := BoundsHits(g, target, geomAtoms, flags, pickType);
             hits.Some? && 0 <= k < |hits.value| && PickNode(hits.value[k]).Some? &&
             !Permits(o.nodeOf(PickNode(hits.value[k]).value))
    ensures PickSpec(g, target, geomAtoms, PICK_GEOMETRY, flags, pickType, o).CapabilityNotSet?
  {
    var hits := BoundsHits(g, target, geomAtoms, flags, pickType).value;
    NodeErrorIffNotPermitted(o.nodeOf(PickNode(hits[k]).value));
    RefineFailsIfAnyFails(o, hits, pickType, k);
  }

  /** Under PICK_ANY pick returns at most one record. */
  lemma PickAnyReturnsOne(g: Graph, target: Target, geomAtoms: seq<GeometryAtom>, mode: int, flags: bv32, o: Oracles)
    requires PickContext(g, target, geomAtoms)
    ensures var r := PickSpec(g, target, geomAtoms, mode, flags, PICK_ANY, o);
            r.Picked? && r.infos.Some? ==> |r.infos.value| == 1
  {
    if |geomAtoms| > 0 {
      PickAnyAtMostOne(g, geomAtoms, TargetGroup(target), InitPath(g, target), flags, []);
    }
  }
}
