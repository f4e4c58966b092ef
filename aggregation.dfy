/**
 * Hit aggregation: getPickInfos turns the GeometryAtoms whose bounds a pick
 * shape hit into PickInfo records, and sortGeomAtoms orders atoms by their
 * distance from the pick shape.
 */
module Aggregation {
  import opened Wrappers
  import opened SceneGraph
  import opened PickRecords
  import Ordering

  /** Pick types (PickInfo.java:53-55). */
  const PICK_ALL: int := 1
  const PICK_ANY: int := 2

  /** Flag bits saying what a PickInfo should hold (PickInfo.java:90-126). */
  const SCENEGRAPHPATH: bv32 := 0x01
  const NODE: bv32 := 0x02
  const LOCAL_TO_VWORLD: bv32 := 0x04
  const CLOSEST_INTERSECTION_POINT: bv32 := 0x08
  const CLOSEST_DISTANCE: bv32 := 0x10
  const CLOSEST_GEOM_INFO: bv32 := 0x20
  const ALL_GEOM_INFO: bv32 := 0x40

  /** A GeometryAtom, as seen through its Shape3DRetained `source`: the
      BranchGroups it was cached under (null when unknown), the retained
      node it stands for (null once detached), its HashKey and its current
      local-to-vworld transform. */
  datatype GeometryAtom = GeometryAtom(
    branchGroupPath: Option<seq<Id>>,
    sourceNode: Option<Id>,
    key: HashKey,
    localToVworld: Transform3D)

  /** Any of the four flags that ask for geometry results, for which the
      caller needs the node and transform references. */
  predicate WantsGeometry(flags: bv32)
  {
    flags & CLOSEST_DISTANCE != 0 || flags & CLOSEST_GEOM_INFO != 0 ||
    flags & CLOSEST_INTERSECTION_POINT != 0 || flags & ALL_GEOM_INFO != 0
  }

  /** The PickInfo built for one picked node (PickInfo.java:684-727 and
      :737-779); EntryFollowsFlags states what it holds. */
  function Entry(flags: bv32, mpath: Option<seq<NodeRef>>, node: NodeRef, l2vw: Transform3D): Option<PickRecord>
  {
    var sgp := if flags & SCENEGRAPHPATH != 0 && mpath.Some? then Some(SceneGraphPath(mpath.value, node)) else None;
    var n := if flags & NODE != 0 then Some(node) else None;
    var t := if flags & LOCAL_TO_VWORLD != 0 then Some(l2vw) else None;
    var refs := WantsGeometry(flags);
    if sgp.None? && n.None? && t.None? && !refs then None
    else
      Some(NewPickRecord.(sgp := sgp, node := n, l2vw := t,
                          nodeRef := if refs then Some(node) else None,
                          l2vwRef := if refs then Some(l2vw) else None))
  }

  /** A record exists exactly when some flag put something in it, each
      field is present exactly when its flag asked for it, the path and
      the node name the picked node, and the transforms are the atom's. */
  lemma EntryFollowsFlags(flags: bv32, mpath: Option<seq<NodeRef>>, node: NodeRef, l2vw: Transform3D)
    ensures var r := Entry(flags, mpath, node, l2vw);
            (r.Some? <==> (flags & SCENEGRAPHPATH != 0 && mpath.Some?) || flags & NODE != 0 ||
                          flags & LOCAL_TO_VWORLD != 0 || WantsGeometry(flags)) &&
            (r.Some? ==> (r.value.sgp.Some? <==> flags & SCENEGRAPHPATH != 0 && mpath.Some?) &&
                         (r.value.sgp.Some? ==> r.value.sgp.value == SceneGraphPath(mpath.value, node)) &&
                         (r.value.node.Some? <==> flags & NODE != 0) &&
                         (r.value.node.Some? ==> r.value.node.value == node) &&
                         (r.value.l2vw.Some? <==> flags & LOCAL_TO_VWORLD != 0) &&
                         (r.value.l2vw.Some? ==> r.value.l2vw.value == l2vw) &&
                         (r.value.nodeRef.Some? <==> WantsGeometry(flags)) &&
                         (r.value.l2vwRef.Some? <==> WantsGeometry(flags)) &&
                         r.value.closestIntersectionPoint.None? && r.value.closestDistance == 0.0)
  {
  }

  /** The first non-null geometry of a Shape3D's list (PickInfo.java:633-639). */
  function FirstGeometry(list: seq<Option<GeometryRetained>>): (r: Option<GeometryRetained>)
    ensures r.None? <==> forall k :: 0 <= k < |list| ==> list[k].None?
    ensures r.Some? ==> exists k :: 0 <= k < |list| && list[k] == r && forall m :: 0 <= m < k ==> list[m].None?
  {
    if |list| == 0 then None
    else if list[0].Some? then list[0]
    else
      var rest := FirstGeometry(list[1..]);
      assert forall k :: 1 <= k < |list| ==> list[k] == list[1..][k - 1];
      rest
  }

  /** The scan of PickInfo.java:633-639. */
  method ScanGeometryList(list: seq<Option<GeometryRetained>>) returns (geomR: Option<GeometryRetained>)
    ensures geomR == FirstGeometry(list)
  {
    geomR := None;
    for cnt := 0 to |list|
      invariant FirstGeometry(list) == FirstGeometry(list[cnt..])
    {
      geomR := list[cnt];
      if geomR.Some? {
        return;
      }
      assert list[cnt..][1..] == list[cnt + 1..];
    }
    geomR := None;
  }

  /** The identity search of PickInfo.java:653-660 through text3dList. */
  method ContainsNode(text3dList: seq<Id>, srcNode: Id) returns (found: bool)
    ensures found <==> srcNode in text3dList
  {
    for j := 0 to |text3dList|
      invariant srcNode !in text3dList[..j]
    {
      if text3dList[j] == srcNode {
        return true;
      }
    }
    return false;
  }

  /** What the loop body of getPickInfos does with one atom: Skip it
      (`continue`), or Report one entry per node it stands for (one for a
      plain source, one per srcList element for a compiled one), an entry
      being None when no flag asked for anything, together with the
      Text3D sources seen so far. */
  datatype Visit = Skip | Report(entries: seq<Option<PickRecord>>, seen: seq<Id>)

  /** The atom's source node exists in the scene graph whenever it is set. */
  ghost predicate AtomsIn(g: Graph, atoms: seq<GeometryAtom>)
  {
    forall k :: 0 <= k < |atoms| && atoms[k].sourceNode.Some? ==> atoms[k].sourceNode.value in g
  }

  /** The scene-graph facts getPickInfos relies on. */
  ghost predicate Context(g: Graph, bg: Option<Id>, initpath: Option<seq<Id>>)
  {
    WellFormed(g) && (forall x :: x in OrEmpty(initpath) ==> x in g)
  }

  /** The first geometry the Text3D test of PickInfo.java:632-667 looks at:
      a node that is not a Shape3D passes with no geometry to test. */
  function LeadGeometry(kind: Kind): Option<GeometryRetained>
  {
    if kind.Shape3D? || kind.Shape3DCompile? then FirstGeometry(kind.geometryList) else Some(OtherGeometryRetained)
  }

  /** One entry per element of a compiled Shape3D's srcList
      (PickInfo.java:678-733), all sharing the one computed path. */
  function FanEntries(flags: bv32, mpath: Option<seq<NodeRef>>, srcList: seq<NodeRef>, l2vw: Transform3D): (r: seq<Option<PickRecord>>)
    ensures |r| == |srcList|
  {
    seq(|srcList|, n requires 0 <= n < |srcList| => Entry(flags, mpath, srcList[n], l2vw))
  }

  /** The entries one reported source node yields (PickInfo.java:671-786):
      the srcList fan-out for a compiled Shape3D, else one entry for the
      node's own source. */
  function AtomEntries(g: Graph, src: Id, atom: GeometryAtom, bg: Option<Id>, initpath: Option<seq<Id>>,
                       flags: bv32): (r: seq<Option<PickRecord>>)
    requires Context(g, bg, initpath) && src in g
    ensures |r| == if g[src].kind.Shape3DCompile? then |g[src].kind.srcList| else 1
  {
    var kind := g[src].kind;
    var mpath := if flags & SCENEGRAPHPATH != 0 then PathOf(g, src, bg, atom.key, initpath) else None;
    if kind.Shape3DCompile? then FanEntries(flags, mpath, kind.srcList, atom.localToVworld)
    else [Entry(flags, mpath, g[src].source, atom.localToVworld)]
  }

  /** One pass of the loop body of PickInfo.java:608-786, as a value. */
  function VisitAtom(g: Graph, atom: GeometryAtom, bg: Option<Id>, initpath: Option<seq<Id>>,
                     flags: bv32, seen: seq<Id>): (v: Visit)
    requires Context(g, bg, initpath)
    requires atom.sourceNode.Some? ==> atom.sourceNode.value in g
    ensures v.Report? <==> atom.sourceNode.Some? && (bg.None? || atom.branchGroupPath.None? || bg.value in atom.branchGroupPath.value) &&
                           LeadGeometry(g[atom.sourceNode.value].kind).Some? &&
                           !(LeadGeometry(g[atom.sourceNode.value].kind) == Some(Text3DRetained) && atom.sourceNode.value in seen)
    ensures v.Report? ==> |v.entries| == (if g[atom.sourceNode.value].kind.Shape3DCompile? then |g[atom.sourceNode.value].kind.srcList| else 1)
    ensures v.Report? ==> |seen| <= |v.seen| <= |seen| + 1 && v.seen[..|seen|] == seen
  {
    if !(bg.None? || atom.branchGroupPath.None? || bg.value in atom.branchGroupPath.value) then Skip
    else if atom.sourceNode.None? then Skip
    else
      var src := atom.sourceNode.value;
      var geomR := LeadGeometry(g[src].kind);
      if geomR.None? then Skip
      else if geomR == Some(Text3DRetained) && src in seen then Skip
      else
        var seen' := if geomR == Some(Text3DRetained) then seen + [src] else seen;
        Report(AtomEntries(g, src, atom, bg, initpath, flags), seen')
  }

  /** The records present among the entries, in order. */
  function Present(entries: seq<Option<PickRecord>>): (r: seq<PickRecord>)
    ensures |r| <= |entries|
    ensures forall p :: p in r ==> Some(p) in entries
  {
    if |entries| == 0 then []
    else (if entries[0].Some? then [entries[0].value] else []) + Present(entries[1..])
  }

  /** The entries getPickInfos adds for a reported atom before it moves on
      or, under PICK_ANY, returns. */
  function Taken(entries: seq<Option<PickRecord>>, pickType: int): seq<Option<PickRecord>>
  {
    if pickType == PICK_ANY && |entries| > 0 then entries[..1] else entries
  }

  /** The list getPickInfos builds from atoms, with `seen` the Text3D
      sources already reported. Under PICK_ANY it stops after the first
      atom that reports a node, with at most that node's record. */
  function Collect(g: Graph, atoms: seq<GeometryAtom>, bg: Option<Id>, initpath: Option<seq<Id>>,
                   flags: bv32, pickType: int, seen: seq<Id>): seq<PickRecord>
    requires Context(g, bg, initpath) && AtomsIn(g, atoms)
    decreases |atoms|
  {
    if |atoms| == 0 then []
    else
      match VisitAtom(g, atoms[0], bg, initpath, flags, seen)
      case Skip => Collect(g, atoms[1..], bg, initpath, flags, pickType, seen)
      case Report(entries, seen') =>
        if pickType == PICK_ANY && |entries| > 0 then Present(entries[..1])
        else Present(entries) + Collect(g, atoms[1..], bg, initpath, flags, pickType, seen')
  }

  /** Collect from atom i on, one atom at a time. */
  lemma CollectAt(g: Graph, atoms: seq<GeometryAtom>, i: nat, bg: Option<Id>, initpath: Option<seq<Id>>,
                  flags: bv32, pickType: int, seen: seq<Id>)
    requires Context(g, bg, initpath) && AtomsIn(g, atoms) && i < |atoms|
    ensures var v := VisitAtom(g, atoms[i], bg, initpath, flags, seen);
            Collect(g, atoms[i..], bg, initpath, flags, pickType, seen) ==
              if v.Skip? then Collect(g, atoms[i + 1..], bg, initpath, flags, pickType, seen)
              else if pickType == PICK_ANY && |v.entries| > 0 then Present(Taken(v.entries, pickType))
              else Present(Taken(v.entries, pickType)) + Collect(g, atoms[i + 1..], bg, initpath, flags, pickType, v.seen)
  {
    assert atoms[i..][0] == atoms[i] && atoms[i..][1..] == atoms[i + 1..];
  }

  /** The srcList loop of PickInfo.java:678-733: under PICK_ANY it stops
      after its first element. */
  method FanOut(flags: bv32, mpath: Option<seq<NodeRef>>, srcList: seq<NodeRef>, l2vw: Transform3D, pickType: int)
    returns (entries: seq<Option<PickRecord>>)
    ensures entries == Taken(FanEntries(flags, mpath, srcList, l2vw), pickType)
  {
    ghost var all := FanEntries(flags, mpath, srcList, l2vw);
    entries := [];
    var n := 0;
    while n < |srcList|
      invariant 0 <= n <= |srcList| && entries == all[..n]
      invariant pickType == PICK_ANY ==> n == 0
    {
      var entry := Entry(flags, mpath, srcList[n], l2vw);
      assert all[n] == entry;
      PrefixGrows(all, n);
      entries := entries + [entry];
      n := n + 1;
      if pickType == PICK_ANY {
        return;
      }
    }
    assert all[..n] == all;
  }

  lemma PrefixGrows<T>(s: seq<T>, n: nat)
    requires n < |s|
    ensures s[..n + 1] == s[..n] + [s[n]]
  {
  }

  /** PickInfo.java:669-786 for a reported source: the path is computed
      once, then the entries are built. */
  method ReportAtom(g: Graph, atom: GeometryAtom, bg: Option<Id>, initpath: Option<seq<Id>>,
                    flags: bv32, pickType: int, src: Id) returns (entries: seq<Option<PickRecord>>)
    requires Context(g, bg, initpath) && src in g
    ensures entries == Taken(AtomEntries(g, src, atom, bg, initpath, flags), pickType)
  {
    var mpath: Option<seq<NodeRef>> := None;
    if flags & SCENEGRAPHPATH != 0 {
      mpath := CreatePath(g, src, bg, atom.key, initpath);
    }
    var kind := g[src].kind;
    if kind.Shape3DCompile? {
      entries := FanOut(flags, mpath, kind.srcList, atom.localToVworld, pickType);
    } else {
      entries := [Entry(flags, mpath, g[src].source, atom.localToVworld)];
    }
  }

  /** The Text3D test of PickInfo.java:628-667: whether the atom is
      skipped, and the Text3D sources seen afterwards. */
  method Dedup(g: Graph, src: Id, text3dList: seq<Id>) returns (skip: bool, seen: seq<Id>)
    requires src in g
    ensures var geomR := LeadGeometry(g[src].kind);
            skip == (geomR.None? || (geomR == Some(Text3DRetained) && src in text3dList)) &&
            (!skip ==> seen == if geomR == Some(Text3DRetained) then text3dList + [src] else text3dList)
  {
    seen := text3dList;
    skip := false;
    var kind := g[src].kind;
    if kind.Shape3D? || kind.Shape3DCompile? {
      var geomR := ScanGeometryList(kind.geometryList);
      if geomR.None? {
        return true, seen;
      }
      if geomR == Some(Text3DRetained) {
        var found := ContainsNode(text3dList, src);
        if found {
          return true, seen;
        }
        seen := text3dList + [src];
      }
    }
  }

  /** The whole loop body of PickInfo.java:608-786 for one atom. */
  method ProcessAtom(g: Graph, atom: GeometryAtom, bg: Option<Id>, initpath: Option<seq<Id>>,
                     flags: bv32, pickType: int, text3dList: seq<Id>)
    returns (skipped: bool, entries: seq<Option<PickRecord>>, seen: seq<Id>)
    requires Context(g, bg, initpath)
    requires atom.sourceNode.Some? ==> atom.sourceNode.value in g
    ensures var v := VisitAtom(g, atom, bg, initpath, flags, text3dList);
            (skipped <==> v.Skip?) && (!skipped ==> entries == Taken(v.entries, pickType) && seen == v.seen)
  {
    entries, seen := [], text3dList;
    var inScope := Inside(atom.branchGroupPath, bg);
    if !inScope || atom.sourceNode.None? {
      return true, entries, seen;
    }
    var src := atom.sourceNode.value;
    skipped, seen := Dedup(g, src, text3dList);
    if !skipped {
      entries := ReportAtom(g, atom, bg, initpath, flags, pickType, src);
    }
  }

  /** One iteration of the loop of PickInfo.java:608-787 at atom i: the
      records it adds are the ones Collect puts first, and it stops the
      loop exactly where Collect stops. */
  method VisitStep(g: Graph, geomAtoms: seq<GeometryAtom>, i: nat, bg: Option<Id>, initpath: Option<seq<Id>>,
                   flags: bv32, pickType: int, text3dList: seq<Id>)
    returns (stop: bool, added: seq<PickRecord>, seen: seq<Id>)
    requires Context(g, bg, initpath) && AtomsIn(g, geomAtoms) && i < |geomAtoms|
    ensures stop ==> Collect(g, geomAtoms[i..], bg, initpath, flags, pickType, text3dList) == added
    ensures !stop ==> Collect(g, geomAtoms[i..], bg, initpath, flags, pickType, text3dList) ==
                      added + Collect(g, geomAtoms[i + 1..], bg, initpath, flags, pickType, seen)
  {
    CollectAt(g, geomAtoms, i, bg, initpath, flags, pickType, text3dList);
    var skipped, entries;
    skipped, entries, seen := ProcessAtom(g, geomAtoms[i], bg, initpath, flags, pickType, text3dList);
    if skipped {
      assert [] + Collect(g, geomAtoms[i + 1..], bg, initpath, flags, pickType, text3dList) ==
             Collect(g, geomAtoms[i + 1..], bg, initpath, flags, pickType, text3dList);
      return false, [], text3dList;
    }
    stop := pickType == PICK_ANY && |entries| > 0;
    added := Present(entries);
  }

  /** VisitStep with the records gathered so far: if those records
      followed by what Collect yields from atom i on make up `total`, then
      so do the list it returns and, when the loop goes on, what Collect
      yields after atom i. */
  method Advance(g: Graph, geomAtoms: seq<GeometryAtom>, i: nat, bg: Option<Id>, initpath: Option<seq<Id>>,
                 flags: bv32, pickType: int, pickInfoList: seq<PickRecord>, text3dList: seq<Id>, ghost total: seq<PickRecord>)
    returns (stop: bool, list: seq<PickRecord>, seen: seq<Id>)
    requires Context(g, bg, initpath) && AtomsIn(g, geomAtoms) && i < |geomAtoms|
    requires total == pickInfoList + Collect(g, geomAtoms[i..], bg, initpath, flags, pickType, text3dList)
    ensures stop ==> total == list
    ensures !stop ==> total == list + Collect(g, geomAtoms[i + 1..], bg, initpath, flags, pickType, seen)
  {
    var added;
    stop, added, seen := VisitStep(g, geomAtoms, i, bg, initpath, flags, pickType, text3dList);
    list := pickInfoList + added;
    if !stop {
      ghost var rest := Collect(g, geomAtoms[i + 1..], bg, initpath, flags, pickType, seen);
      assert pickInfoList + (added + rest) == list + rest;
    }
  }

  /** getPickInfos (PickInfo.java:595-790): None for an empty atom list,
      otherwise the records Collect describes. */
  method GetPickInfos(g: Graph, initpath: Option<seq<Id>>, bg: Option<Id>, geomAtoms: seq<GeometryAtom>,
                      flags: bv32, pickType: int) returns (r: Option<seq<PickRecord>>)
    requires Context(g, bg, initpath) && AtomsIn(g, geomAtoms)
    ensures |geomAtoms| == 0 ==> r == None
    ensures |geomAtoms| > 0 ==> r == Some(Collect(g, geomAtoms, bg, initpath, flags, pickType, []))
  {
    if |geomAtoms| == 0 {
      return None;
    }
    var pickInfoList: seq<PickRecord> := [];
    var text3dList: seq<Id> := [];
    assert geomAtoms[0..] == geomAtoms;
    ghost var total := Collect(g, geomAtoms, bg, initpath, flags, pickType, []);
    for i := 0 to |geomAtoms|
      invariant total == pickInfoList + Collect(g, geomAtoms[i..], bg, initpath, flags, pickType, text3dList)
    {
      var stop;
      stop, pickInfoList, text3dList := Advance(g, geomAtoms, i, bg, initpath, flags, pickType, pickInfoList, text3dList, total);
      if stop {
        return Some(pickInfoList);
      }
    }
    assert geomAtoms[|geomAtoms|..] == [];
    assert pickInfoList + [] == pickInfoList;
    return Some(pickInfoList);
  }

  /** What the flags let into a record: each optional field is there
      exactly when its flag asked for it, and the intersect results are
      still unset. */
  predicate FieldsFollow(flags: bv32, p: PickRecord)
  {
    (p.sgp.Some? ==> flags & SCENEGRAPHPATH != 0) &&
    (p.node.Some? <==> flags & NODE != 0) &&
    (p.l2vw.Some? <==> flags & LOCAL_TO_VWORLD != 0) &&
    (p.nodeRef.Some? <==> WantsGeometry(flags)) &&
    (p.l2vwRef.Some? <==> WantsGeometry(flags)) &&
    p.closestIntersectionPoint.None? && p.closestDistance == 0.0
  }

  /** Whether any flag asks for a field of the PickInfo. */
  predicate AsksForSomething(flags: bv32)
  {
    flags & SCENEGRAPHPATH != 0 || flags & NODE != 0 || flags & LOCAL_TO_VWORLD != 0 || WantsGeometry(flags)
  }

  /** Every record getPickInfos returns holds what the flags asked for
      and nothing else. */
  lemma {:induction false} CollectFollowsFlags(g: Graph, atoms: seq<GeometryAtom>, bg: Option<Id>, initpath: Option<seq<Id>>,
                                               flags: bv32, pickType: int, seen: seq<Id>)
    requires Context(g, bg, initpath) && AtomsIn(g, atoms)
    ensures forall p :: p in Collect(g, atoms, bg, initpath, flags, pickType, seen) ==> FieldsFollow(flags, p)
    decreases |atoms|
  {
    if |atoms| > 0 {
      var v := VisitAtom(g, atoms[0], bg, initpath, flags, seen);
      if v.Skip? {
        CollectFollowsFlags(g, atoms[1..], bg, initpath, flags, pickType, seen);
      } else {
        EntriesFollowFlags(g, atoms[0], bg, initpath, flags, seen);
        if !(pickType == PICK_ANY && |v.entries| > 0) {
          CollectFollowsFlags(g, atoms[1..], bg, initpath, flags, pickType, v.seen);
        }
      }
    }
  }

  /** The entries of one reported atom follow the flags. */
  lemma EntriesFollowFlags(g: Graph, atom: GeometryAtom, bg: Option<Id>, initpath: Option<seq<Id>>,
                           flags: bv32, seen: seq<Id>)
    requires Context(g, bg, initpath) && (atom.sourceNode.Some? ==> atom.sourceNode.value in g)
    requires VisitAtom(g, atom, bg, initpath, flags, seen).Report?
    ensures var e := VisitAtom(g, atom, bg, initpath, flags, seen).entries;
            forall k :: 0 <= k < |e| && e[k].Some? ==> FieldsFollow(flags, e[k].value)
  {
    var src := atom.sourceNode.value;
    var kind := g[src].kind;
    var mpath := if flags & SCENEGRAPHPATH != 0 then PathOf(g, src, bg, atom.key, initpath) else None;
    var e := AtomEntries(g, src, atom, bg, initpath, flags);
    assert VisitAtom(g, atom, bg, initpath, flags, seen).entries == e;
    forall k | 0 <= k < |e| && e[k].Some?
      ensures FieldsFollow(flags, e[k].value)
    {
      var node := if kind.Shape3DCompile? then kind.srcList[k] else g[src].source;
      assert e[k] == Entry(flags, mpath, node, atom.localToVworld);
      EntryFieldsFollow(flags, mpath, node, atom.localToVworld);
    }
  }

  /** A record Entry builds holds what the flags asked for and nothing else. */
  lemma EntryFieldsFollow(flags: bv32, mpath: Option<seq<NodeRef>>, node: NodeRef, l2vw: Transform3D)
    ensures Entry(flags, mpath, node, l2vw).Some? ==> FieldsFollow(flags, Entry(flags, mpath, node, l2vw).value)
  {
    EntryFollowsFlags(flags, mpath, node, l2vw);
  }

  /** When no flag asks for anything, no entry is made. */
  lemma NothingAskedNoEntries(g: Graph, atom: GeometryAtom, bg: Option<Id>, initpath: Option<seq<Id>>,
                              flags: bv32, seen: seq<Id>)
    requires Context(g, bg, initpath) && (atom.sourceNode.Some? ==> atom.sourceNode.value in g)
    requires VisitAtom(g, atom, bg, initpath, flags, seen).Report? && !AsksForSomething(flags)
    ensures Present(VisitAtom(g, atom, bg, initpath, flags, seen).entries) == []
  {
    var e := VisitAtom(g, atom, bg, initpath, flags, seen).entries;
    assert forall k :: 0 <= k < |e| ==> e[k].None?;
    PresentOfNone(e);
  }

  lemma {:induction false} PresentOfNone(e: seq<Option<PickRecord>>)
    requires forall k :: 0 <= k < |e| ==> e[k].None?
    ensures Present(e) == []
  {
    if |e| > 0 {
      PresentOfNone(e[1..]);
    }
  }

  /** With no flag asking for anything, getPickInfos returns an empty
      list, whatever was hit. */
  lemma {:induction false} NothingAskedNothingReturned(g: Graph, atoms: seq<GeometryAtom>, bg: Option<Id>, initpath: Option<seq<Id>>,
                                                       flags: bv32, pickType: int, seen: seq<Id>)
    requires Context(g, bg, initpath) && AtomsIn(g, atoms) && !AsksForSomething(flags)
    ensures Collect(g, atoms, bg, initpath, flags, pickType, seen) == []
    decreases |atoms|
  {
    if |atoms| > 0 {
      var v := VisitAtom(g, atoms[0], bg, initpath, flags, seen);
      if v.Skip? {
        NothingAskedNothingReturned(g, atoms[1..], bg, initpath, flags, pickType, seen);
      } else {
        NothingAskedNoEntries(g, atoms[0], bg, initpath, flags, seen);
        if pickType == PICK_ANY && |v.entries| > 0 {
          assert v.entries == v.entries[..1] + v.entries[1..];
          PresentAppend(v.entries[..1], v.entries[1..]);
        } else {
          NothingAskedNothingReturned(g, atoms[1..], bg, initpath, flags, pickType, v.seen);
        }
      }
    }
  }

  lemma {:induction false} PresentAppend(a: seq<Option<PickRecord>>, b: seq<Option<PickRecord>>)
    ensures Present(a + b) == Present(a) + Present(b)
    decreases |a|
  {
    if |a| > 0 {
      assert (a + b)[0] == a[0] && (a + b)[1..] == a[1..] + b;
      PresentAppend(a[1..], b);
    } else {
      assert a + b == b;
    }
  }

  /** Under PICK_ANY getPickInfos returns at most one record. */
  lemma {:induction false} PickAnyAtMostOne(g: Graph, atoms: seq<GeometryAtom>, bg: Option<Id>, initpath: Option<seq<Id>>,
                                            flags: bv32, seen: seq<Id>)
    requires Context(g, bg, initpath) && AtomsIn(g, atoms)
    ensures |Collect(g, atoms, bg, initpath, flags, PICK_ANY, seen)| <= 1
    decreases |atoms|
  {
    if |atoms| > 0 {
      var v := VisitAtom(g, atoms[0], bg, initpath, flags, seen);
      if v.Skip? {
        PickAnyAtMostOne(g, atoms[1..], bg, initpath, flags, seen);
      } else if |v.entries| == 0 {
        assert Present(v.entries) == [];
        PickAnyAtMostOne(g, atoms[1..], bg, initpath, flags, v.seen);
      }
    }
  }

  /** Atoms outside the picked BranchGroup and atoms whose node was
      detached contribute nothing. */
  lemma {:induction false} IgnoredAtomsNothingReturned(g: Graph, atoms: seq<GeometryAtom>, bg: Option<Id>, initpath: Option<seq<Id>>,
                                                       flags: bv32, pickType: int, seen: seq<Id>)
    requires Context(g, bg, initpath) && AtomsIn(g, atoms)
    requires forall k :: 0 <= k < |atoms| ==>
               atoms[k].sourceNode.None? || (bg.Some? && atoms[k].branchGroupPath.Some? && bg.value !in atoms[k].branchGroupPath.value)
    ensures Collect(g, atoms, bg, initpath, flags, pickType, seen) == []
    decreases |atoms|
  {
    if |atoms| > 0 {
      IgnoredAtomsNothingReturned(g, atoms[1..], bg, initpath, flags, pickType, seen);
    }
  }

  /** How many of the records Collect returns come from atoms that stand
      for src: Collect's own walk, counting only those records. */
  ghost function RecordsFrom(g: Graph, atoms: seq<GeometryAtom>, bg: Option<Id>, initpath: Option<seq<Id>>,
                             flags: bv32, pickType: int, seen: seq<Id>, src: Id): (r: nat)
    requires Context(g, bg, initpath) && AtomsIn(g, atoms)
    ensures r <= |Collect(g, atoms, bg, initpath, flags, pickType, seen)|
    decreases |atoms|
  {
    if |atoms| == 0 then 0
    else
      match VisitAtom(g, atoms[0], bg, initpath, flags, seen)
      case Skip => RecordsFrom(g, atoms[1..], bg, initpath, flags, pickType, seen, src)
      case Report(entries, seen') =>
        var mine := if atoms[0].sourceNode == Some(src) then |Present(Taken(entries, pickType))| else 0;
        if pickType == PICK_ANY && |entries| > 0 then mine
        else mine + RecordsFrom(g, atoms[1..], bg, initpath, flags, pickType, seen', src)
  }

  /** A source whose first geometry is a Text3D is reported for at most one
      of the atoms, whatever the other atoms are: at most one record for a
      plain Shape3D, one per srcList element for a compiled one, and none
      at all if the source was already seen. */
  lemma {:induction false} Text3DReportedOnce(g: Graph, atoms: seq<GeometryAtom>, bg: Option<Id>, initpath: Option<seq<Id>>,
                                              flags: bv32, pickType: int, seen: seq<Id>, src: Id)
    requires Context(g, bg, initpath) && AtomsIn(g, atoms) && src in g
    requires LeadGeometry(g[src].kind) == Some(Text3DRetained)
    ensures src in seen ==> RecordsFrom(g, atoms, bg, initpath, flags, pickType, seen, src) == 0
    ensures RecordsFrom(g, atoms, bg, initpath, flags, pickType, seen, src) <=
              if g[src].kind.Shape3DCompile? then |g[src].kind.srcList| else 1
    decreases |atoms|
  {
    if |atoms| > 0 {
      var v := VisitAtom(g, atoms[0], bg, initpath, flags, seen);
      RecordsFromFirst(g, atoms, bg, initpath, flags, pickType, seen, src);
      if v.Skip? {
        Text3DReportedOnce(g, atoms[1..], bg, initpath, flags, pickType, seen, src);
      } else {
        VisitRemembersText3D(g, atoms[0], bg, initpath, flags, pickType, seen, src);
        Text3DReportedOnce(g, atoms[1..], bg, initpath, flags, pickType, v.seen, src);
      }
    }
  }

  /** RecordsFrom past the first atom. */
  lemma RecordsFromFirst(g: Graph, atoms: seq<GeometryAtom>, bg: Option<Id>, initpath: Option<seq<Id>>,
                         flags: bv32, pickType: int, seen: seq<Id>, src: Id)
    requires Context(g, bg, initpath) && AtomsIn(g, atoms) && |atoms| > 0
    ensures var v := VisitAtom(g, atoms[0], bg, initpath, flags, seen);
            var mine := if v.Report? && atoms[0].sourceNode == Some(src) then |Present(Taken(v.entries, pickType))| else 0;
            RecordsFrom(g, atoms, bg, initpath, flags, pickType, seen, src) ==
              if v.Skip? then RecordsFrom(g, atoms[1..], bg, initpath, flags, pickType, seen, src)
              else if pickType == PICK_ANY && |v.entries| > 0 then mine
              else mine + RecordsFrom(g, atoms[1..], bg, initpath, flags, pickType, v.seen, src)
  {
  }

  /** A reported atom keeps every seen source seen; one standing for the
      Text3D source src is reported only while src is unseen, takes at most
      its entries, and leaves src seen. */
  lemma VisitRemembersText3D(g: Graph, atom: GeometryAtom, bg: Option<Id>, initpath: Option<seq<Id>>,
                             flags: bv32, pickType: int, seen: seq<Id>, src: Id)
    requires Context(g, bg, initpath) && src in g && LeadGeometry(g[src].kind) == Some(Text3DRetained)
    requires atom.sourceNode.Some? ==> atom.sourceNode.value in g
    requires VisitAtom(g, atom, bg, initpath, flags, seen).Report?
    ensures var v := VisitAtom(g, atom, bg, initpath, flags, seen);
            (src in seen ==> src in v.seen) &&
            (atom.sourceNode == Some(src) ==>
               src !in seen && src in v.seen &&
               |Present(Taken(v.entries, pickType))| <= if g[src].kind.Shape3DCompile? then |g[src].kind.srcList| else 1)
  {
    var v := VisitAtom(g, atom, bg, initpath, flags, seen);
    if src in seen {
      var k :| 0 <= k < |seen| && seen[k] == src;
      assert v.seen[k] == src;
    }
    if atom.sourceNode == Some(src) {
      assert v.seen == seen + [src];
      assert |Taken(v.entries, pickType)| <= |v.entries|;
    }
  }

  /** The records of a list of entries that are all present. */
  lemma {:induction false} PresentOfAll(e: seq<Option<PickRecord>>)
    requires forall k :: 0 <= k < |e| ==> e[k].Some?
    ensures |Present(e)| == |e| && forall k :: 0 <= k < |e| ==> Present(e)[k] == e[k].value
  {
    if |e| > 0 {
      PresentOfAll(e[1..]);
    }
  }

  /** Under PICK_ALL with NODE set, a reported compiled Shape3D yields one
      record per element of its srcList, naming that element, in order. */
  lemma CompiledFanOut(g: Graph, atom: GeometryAtom, bg: Option<Id>, initpath: Option<seq<Id>>,
                       flags: bv32, pickType: int, seen: seq<Id>)
    requires Context(g, bg, initpath) && (atom.sourceNode.Some? ==> atom.sourceNode.value in g)
    requires flags & NODE != 0 && pickType != PICK_ANY
    requires VisitAtom(g, atom, bg, initpath, flags, seen).Report?
    requires g[atom.sourceNode.value].kind.Shape3DCompile?
    ensures var srcList := g[atom.sourceNode.value].kind.srcList;
            var r := Collect(g, [atom], bg, initpath, flags, pickType, seen);
            |r| == |srcList| && forall n :: 0 <= n < |r| ==> r[n].node == Some(srcList[n])
  {
    var src := atom.sourceNode.value;
    var srcList := g[src].kind.srcList;
    var mpath := if flags & SCENEGRAPHPATH != 0 then PathOf(g, src, bg, atom.key, initpath) else None;
    var v := VisitAtom(g, atom, bg, initpath, flags, seen);
    assert v.entries == FanEntries(flags, mpath, srcList, atom.localToVworld);
    forall n | 0 <= n < |v.entries|
      ensures v.entries[n].Some? && v.entries[n].value.node == Some(srcList[n])
    {
      EntryFollowsFlags(flags, mpath, srcList[n], atom.localToVworld);
    }
    PresentOfAll(v.entries);
    assert [atom][1..] == [];
    assert Collect(g, [atom], bg, initpath, flags, pickType, seen) == Present(v.entries) + [];
  }

  /** The payload of a (distance, atom) pair. */
  function Payload<T>(p: (real, T)): T { p.1 }

  /** Sorting pairs whose keys are computed from their payloads sorts the
      payloads by that computation and permutes them. */
  lemma {:induction false} SortedPairsSortPayloads<T>(k0: seq<real>, i0: seq<T>, k1: seq<real>, i1: seq<T>, key: T -> real)
    requires |k0| == |i0| && |k1| == |i1|
    requires forall n :: 0 <= n < |k0| ==> k0[n] == key(i0[n])
    requires multiset(Ordering.Zip(k1, i1)) == multiset(Ordering.Zip(k0, i0))
    requires Ordering.Sorted(Ordering.Zip(k1, i1), Ordering.PairKey)
    ensures Ordering.Sorted(i1, key)
    ensures multiset(i1) == multiset(i0)
  {
    var z0, z1 := Ordering.Zip(k0, i0), Ordering.Zip(k1, i1);
    forall n | 0 <= n < |z1|
      ensures z1[n].0 == key(z1[n].1)
    {
      assert z1[n] in multiset(z0);
    }
    Ordering.MapPermutation(z0, z1, Payload);
    assert Ordering.MapSeq(z0, Payload) == i0;
    assert Ordering.MapSeq(z1, Payload) == i1;
  }

  /** sortGeomAtoms (PickInfo.java:515-584): each atom's distance from the
      pick shape is computed once, then atoms and distances are sorted
      together. The atoms end in order of distance, and are the atoms the
      array held. */
  method SortGeomAtoms(geomAtoms: array<GeometryAtom>, distanceTo: GeometryAtom -> real)
    modifies geomAtoms
    ensures Ordering.Sorted(geomAtoms[..], distanceTo)
    ensures multiset(geomAtoms[..]) == multiset(old(geomAtoms[..]))
  {
    var distance := new real[geomAtoms.Length];
    for i := 0 to geomAtoms.Length
      invariant geomAtoms[..] == old(geomAtoms[..])
      invariant forall m :: 0 <= m < i ==> distance[m] == distanceTo(geomAtoms[m])
    {
      distance[i] := distanceTo(geomAtoms[i]);
    }
    ghost var k0, i0 := distance[..], geomAtoms[..];
    Ordering.SortParallel(distance, geomAtoms);
    SortedPairsSortPayloads(k0, i0, distance[..], geomAtoms[..], distanceTo);
  }
}
