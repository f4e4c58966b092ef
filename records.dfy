/**
 * The records a pick produces. A PickInfo object has two sides: the result
 * fields that getPickInfos and the geometry intersect routines fill in once
 * (scene-graph path, node, transforms, closest point and distance), which
 * this model keeps as the value PickRecord, and the list of IntersectionInfo
 * results that it keeps sorted lazily, which is the class PickInfo.
 */
module PickRecords {
  import opened Wrappers
  import opened SceneGraph
  import Ordering

  datatype Point3d = Point3d(x: real, y: real, z: real)

  /** A transform, as its sixteen matrix entries; picking only copies it. */
  datatype Transform3D = Transform3D(matrix: seq<real>)

  /** A SceneGraphPath: the reporting nodes from the root down, and the
      picked node itself. */
  datatype SceneGraphPath = SceneGraphPath(nodes: seq<NodeRef>, object: NodeRef)

  /** Identity of a Geometry object. */
  type GeometryRef = nat

  /** PickInfo.IntersectionInfo (PickInfo.java:997-1092). */
  datatype IntersectionInfo = IntersectionInfo(
    geomIndex: int,
    geom: Option<GeometryRef>,
    intersectionPoint: Option<Point3d>,
    distance: real,
    vertexIndices: Option<seq<int>>)

  /** The sort key of sortIntersectionInfoArray. */
  function InfoDistance(info: IntersectionInfo): real { info.distance }

  /** setIntersectionPoint (PickInfo.java:1030-1033): the info keeps its
      own copy of the point and nothing else changes. */
  function SetIntersectionPoint(info: IntersectionInfo, p: Point3d): (r: IntersectionInfo)
    ensures r.intersectionPoint == Some(p)
    ensures r.(intersectionPoint := info.intersectionPoint) == info
  {
    info.(intersectionPoint := Some(p))
  }

  /** setVertexIndices (PickInfo.java:1039-1045): copies the indices out of
      the caller's array, element by element, so that later writes to that
      array do not reach the info. */
  method SetVertexIndices(info: IntersectionInfo, vertexIndices: array<int>) returns (r: IntersectionInfo)
    ensures r.vertexIndices == Some(vertexIndices[..])
    ensures r.(vertexIndices := info.vertexIndices) == info
  {
    var copy := new int[vertexIndices.Length];
    for i := 0 to vertexIndices.Length
      invariant copy[..i] == vertexIndices[..i]
    {
      copy[i] := vertexIndices[i];
    }
    assert copy[..] == vertexIndices[..];
    r := info.(vertexIndices := Some(copy[..]));
  }

  /** The result fields of a PickInfo. A field that no flag asked for is
      None; closestDistance is 0.0 until an intersect routine sets it. */
  datatype PickRecord = PickRecord(
    sgp: Option<SceneGraphPath>,
    node: Option<NodeRef>,
    l2vw: Option<Transform3D>,
    closestIntersectionPoint: Option<Point3d>,
    closestDistance: real,
    l2vwRef: Option<Transform3D>,
    nodeRef: Option<NodeRef>)

  /** A PickInfo as its constructor leaves it (PickInfo.java:129-132). */
  const NewPickRecord := PickRecord(None, None, None, None, 0.0, None, None)

  /** The sort key of sortPickInfoArray. */
  function ClosestDistance(p: PickRecord): real { p.closestDistance }

  /** sortPickInfoArray (PickInfo.java:230-287): the records end in order
      of closestDistance, and are the records the array held. */
  method SortPickInfoArray(pickInfoArr: array<PickRecord>)
    modifies pickInfoArr
    ensures Ordering.Sorted(pickInfoArr[..], ClosestDistance)
    ensures multiset(pickInfoArr[..]) == multiset(old(pickInfoArr[..]))
  {
    Ordering.SortByKey(pickInfoArr, ClosestDistance);
  }

  /** The intersection-info side of a PickInfo: the unsorted list the
      intersect routines append to, and the sorted array handed out, which
      is rebuilt only after the list has changed. */
  class PickInfo {
    var intersectionInfoList: seq<IntersectionInfo>
    var intersectionInfoListSorted: bool
    var intersectionInfoArr: array?<IntersectionInfo>

    /** Whenever the flag is set, the array holds exactly the listed
        infos, in order of distance. */
    ghost predicate Valid()
      reads this, intersectionInfoArr
    {
      intersectionInfoListSorted ==>
        intersectionInfoArr != null &&
        Ordering.Sorted(intersectionInfoArr[..], InfoDistance) &&
        multiset(intersectionInfoArr[..]) == multiset(intersectionInfoList)
    }

    /** PickInfo() (PickInfo.java:129-132) with the field initialisers of
        PickInfo.java:75-76. */
    constructor ()
      ensures Valid()
      ensures intersectionInfoList == [] && !intersectionInfoListSorted && intersectionInfoArr == null
    {
      intersectionInfoList := [];
      intersectionInfoListSorted := false;
      intersectionInfoArr := null;
    }

    /** insertIntersectionInfo (PickInfo.java:166-169): appends, and marks
        the array stale. */
    method InsertIntersectionInfo(iInfo: IntersectionInfo)
      modifies this
      ensures intersectionInfoList == old(intersectionInfoList) + [iInfo]
      ensures !intersectionInfoListSorted && intersectionInfoArr == old(intersectionInfoArr)
      ensures Valid()
    {
      intersectionInfoList := intersectionInfoList + [iInfo];
      intersectionInfoListSorted := false;
    }

    /** sortIntersectionInfoArray (PickInfo.java:171-228): sorts the given
        array by distance and then sets the flag, whichever array it was. */
    method SortIntersectionInfoArray(iInfoArr: array<IntersectionInfo>)
      modifies this, iInfoArr
      ensures Ordering.Sorted(iInfoArr[..], InfoDistance)
      ensures multiset(iInfoArr[..]) == multiset(old(iInfoArr[..]))
      ensures intersectionInfoListSorted
      ensures intersectionInfoList == old(intersectionInfoList) && intersectionInfoArr == old(intersectionInfoArr)
    {
      Ordering.SortByKey(iInfoArr, InfoDistance);
      intersectionInfoListSorted := true;
    }

    /** getIntersectionInfos (PickInfo.java:359-368). When infos were
        inserted since the last call it builds a new array of them, sorted
        by distance (an empty array when none were inserted); otherwise it
        hands back the array it already holds, as it is now: callers get
        that array itself, so whatever they wrote into it is what the next
        call returns, and the array is sorted only while no caller has
        disturbed it. */
    method GetIntersectionInfos() returns (r: array?<IntersectionInfo>)
      modifies this
      ensures intersectionInfoListSorted && r == intersectionInfoArr
      ensures intersectionInfoList == old(intersectionInfoList)
      ensures old(intersectionInfoListSorted) ==> r == old(intersectionInfoArr) && (r != null ==> r[..] == old(r[..]))
      ensures !old(intersectionInfoListSorted) ==>
                r != null && fresh(r) && r.Length == |intersectionInfoList| &&
                Ordering.Sorted(r[..], InfoDistance) && multiset(r[..]) == multiset(intersectionInfoList)
      ensures old(Valid()) ==> Valid()
    {
      if !intersectionInfoListSorted {
        var list := intersectionInfoList;
        var arr := new IntersectionInfo[|list|](n requires 0 <= n < |list| => list[n]);
        assert arr[..] == list;
        intersectionInfoArr := arr;
        SortIntersectionInfoArray(arr);
        assert |multiset(arr[..])| == |multiset(intersectionInfoList)|;
      }
      r := intersectionInfoArr;
    }
  }
}
