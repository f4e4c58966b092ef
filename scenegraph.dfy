/**
 * The scene-graph path resolution of PickInfo.java: the upward walks that
 * collect the pick-reporting nodes between a picked leaf and the Locale
 * (initSceneGraphPath, retrievePath), the merge of two such walks into one
 * root-to-leaf path (mergePath, createPath) and the scope test that tells
 * whether a leaf lies under the BranchGroup a pick started from (inside).
 *
 * The scene graph is a finite map from node identities to records. Every
 * parent, and every Link that references a SharedGroup, sits strictly less
 * deep than its child, so the upward walks terminate.
 */
module SceneGraph {
  import opened Wrappers

  /** Identity of a retained node (a NodeRetained object). */
  type Id = nat

  /** Identity of the user-visible Node a retained node stands for. */
  type NodeRef = nat

  /** The geometry classes the aggregation distinguishes. */
  datatype GeometryRetained = Text3DRetained | OtherGeometryRetained

  /** The node classes the pick code distinguishes with instanceof. */
  datatype Kind =
    | Group
      /** A SharedGroupRetained, reachable from above only through the
          Links listed in `parents`. */
    | SharedGroup(parents: seq<Id>)
    | Link
    | Shape3D(geometryList: seq<Option<GeometryRetained>>)
      /** A Shape3DCompileRetained: a Shape3DRetained that merged several
          user Shape3D nodes, listed in `srcList`. */
    | Shape3DCompile(geometryList: seq<Option<GeometryRetained>>, srcList: seq<NodeRef>)

  /** The fields of NodeRetained the walks read. `pickReporting` is the
      ENABLE_PICK_REPORTING capability of the node's source. `depth` is the
      distance from the Locale and exists only to bound the walks. */
  datatype NodeRecord = NodeRecord(
    parent: Option<Id>,
    depth: nat,
    pickReporting: bool,
    nodeId: string,
    source: NodeRef,
    kind: Kind)

  type Graph = map<Id, NodeRecord>

  /** Parents and referencing Links exist and are strictly less deep. */
  ghost predicate WellFormed(g: Graph)
  {
    (forall n :: n in g && g[n].parent.Some? ==>
       g[n].parent.value in g && g[g[n].parent.value].depth < g[n].depth) &&
    (forall n, q :: n in g && g[n].kind.SharedGroup? && q in g[n].kind.parents ==>
       q in g && g[q].kind.Link? && g[q].depth < g[n].depth)
  }

  /** A HashKey: the node ids of the Links a path went through, innermost
      last. */
  type HashKey = seq<string>

  /** HashKey.getLastNodeId: the innermost id, if any is left. */
  function LastNodeId(key: HashKey): (r: Option<string>)
    ensures r.Some? <==> |key| > 0
    ensures r.Some? ==> DropLastNodeId(key) + [r.value] == key
  {
    if |key| == 0 then None else Some(key[|key| - 1])
  }

  /** The key left once getLastNodeId has consumed its innermost id. */
  function DropLastNodeId(key: HashKey): (r: HashKey)
    ensures |key| > 0 ==> |r| == |key| - 1
    ensures |key| == 0 ==> r == key
  {
    if |key| == 0 then key else key[..|key| - 1]
  }

  /** The Link among `links` whose nodeId is `id`: the first one in list
      order, or None if there is none (an exhausted key matches no Link). */
  function FindLink(g: Graph, links: seq<Id>, id: Option<string>): (r: Option<Id>)
    requires forall q :: q in links ==> q in g
    ensures r.Some? ==> exists k :: 0 <= k < |links| && links[k] == r.value && id == Some(g[links[k]].nodeId) &&
                          forall m :: 0 <= m < k ==> id != Some(g[links[m]].nodeId)
    ensures r.None? <==> forall k :: 0 <= k < |links| ==> id != Some(g[links[k]].nodeId)
  {
    if |links| == 0 then None
    else if id == Some(g[links[0]].nodeId) then Some(links[0])
    else
      var rest := FindLink(g, links[1..], id);
      assert forall k :: 1 <= k < |links| ==> links[k] == links[1..][k - 1];
      rest
  }

  /** The inner loop of PickInfo.java:454-465: the first Link among the
      SharedGroup's parents whose nodeId matches. */
  method MatchLink(g: Graph, links: seq<Id>, id: Option<string>) returns (r: Option<Id>)
    requires forall q :: q in links ==> q in g
    ensures r == FindLink(g, links, id)
  {
    var i := 0;
    while i < |links|
      invariant 0 <= i <= |links|
      invariant FindLink(g, links, id) == FindLink(g, links[i..], id)
    {
      if id == Some(g[links[i]].nodeId) {
        return Some(links[i]);
      }
      assert links[i..][1..] == links[i + 1..];
      i := i + 1;
    }
    r := None;
  }

  /** Prefixes a partial path to a walk that may have failed. */
  function Prepend(acc: seq<Id>, r: Option<seq<Id>>): Option<seq<Id>>
  {
    match r
    case None => None
    case Some(p) => Some(acc + p)
  }

  /** What one pass of retrievePath's loop body does at a node other than
      `end`: it is Detached when the node is a SharedGroup none of whose
      Links carries the key's innermost id; otherwise it moves Up, having
      added the node if it reports picks and, at a SharedGroup, the Link it
      took, and goes on at `next` with what is left of the key. */
  datatype Step = Detached | Up(added: seq<Id>, next: Option<Id>, key: HashKey)

  function StepFrom(g: Graph, n: Id, key: HashKey): (s: Step)
    requires WellFormed(g) && n in g
    ensures s.Up? && s.next.Some? ==> s.next.value in g && g[s.next.value].depth < g[n].depth
  {
    var here := if g[n].pickReporting then [n] else [];
    if g[n].kind.SharedGroup? then
      match FindLink(g, g[n].kind.parents, LastNodeId(key))
      case None => Detached
      case Some(link) => Up(here + [link], g[link].parent, DropLastNodeId(key))
    else
      Up(here, g[n].parent, key)
  }

  /** The path retrievePath reports from node n upwards: None when the walk
      falls off a detached SharedGroup, or reaches the Locale while `end`
      names a node; otherwise, leaf first, the pick-reporting nodes before
      `end` plus every Link the walk went through. */
  function Retrieve(g: Graph, n: Id, end: Option<Id>, key: HashKey): Option<seq<Id>>
    requires WellFormed(g) && n in g
    decreases g[n].depth
  {
    if end == Some(n) then Some([])
    else
      match StepFrom(g, n, key)
      case Detached => None
      case Up(added, next, key') =>
        if next.None? then
          if end.None? then Some(added) else None
        else
          Prepend(added, Retrieve(g, next.value, end, key'))
  }

  /** The body of retrievePath's loop past the `end` test
      (PickInfo.java:443-471). */
  method Ascend(g: Graph, nodeR: Id, key: HashKey) returns (s: Step)
    requires WellFormed(g) && nodeR in g
    ensures s == StepFrom(g, nodeR, key)
  {
    var added: seq<Id> := if g[nodeR].pickReporting then [nodeR] else [];
    if g[nodeR].kind.SharedGroup? {
      var link := MatchLink(g, g[nodeR].kind.parents, LastNodeId(key));
      if link.None? {
        return Detached;
      }
      return Up(added + [link.value], g[link.value].parent, DropLastNodeId(key));
    }
    return Up(added, g[nodeR].parent, key);
  }

  /** retrievePath (PickInfo.java:427-483): the do-while walk from startNode
      towards the Locale. */
  method RetrievePath(g: Graph, start: Id, end: Option<Id>, key0: HashKey) returns (r: Option<seq<Id>>)
    requires WellFormed(g) && start in g
    ensures r == Retrieve(g, start, end, key0)
  {
    var path: seq<Id> := [];
    var nodeR := start;
    var key := key0;
    PrependNothing(Retrieve(g, start, end, key0));
    while true
      invariant nodeR in g
      invariant Retrieve(g, start, end, key0) == Prepend(path, Retrieve(g, nodeR, end, key))
      decreases g[nodeR].depth
    {
      if end == Some(nodeR) {
        assert path + [] == path;
        return Some(path);
      }
      var step := Ascend(g, nodeR, key);
      if step.Detached? {
        return None;
      }
      PrependTwice(path, step.added, if step.next.Some? then Retrieve(g, step.next.value, end, step.key) else None);
      path := path + step.added;
      if step.next.None? {
        if end.None? {
          return Some(path);
        }
        return None;
      }
      nodeR, key := step.next.value, step.key;
    }
  }

  lemma PrependNothing(r: Option<seq<Id>>)
    ensures Prepend([], r) == r
  {
    if r.Some? {
      assert [] + r.value == r.value;
    }
  }

  lemma PrependTwice(a: seq<Id>, b: seq<Id>, r: Option<seq<Id>>)
    ensures Prepend(a, Prepend(b, r)) == Prepend(a + b, r)
  {
    if r.Some? {
      assert a + (b + r.value) == a + b + r.value;
    }
  }

  /** The pick-reporting nodes from n up to the Locale, leaf first. */
  function ReportingPath(g: Graph, n: Id): (r: seq<Id>)
    requires WellFormed(g) && n in g
    ensures forall x :: x in r ==> x in g && g[x].pickReporting
    decreases g[n].depth
  {
    var here := if g[n].pickReporting then [n] else [];
    if g[n].parent.None? then here else here + ReportingPath(g, g[n].parent.value)
  }

  /** initSceneGraphPath (PickInfo.java:375-386). */
  method InitSceneGraphPath(g: Graph, start: Id) returns (path: seq<Id>)
    requires WellFormed(g) && start in g
    ensures path == ReportingPath(g, start)
  {
    path := [];
    var nodeR := start;
    while true
      invariant nodeR in g
      invariant ReportingPath(g, start) == path + ReportingPath(g, nodeR)
      decreases g[nodeR].depth
    {
      if g[nodeR].pickReporting {
        path := path + [nodeR];
      }
      if g[nodeR].parent.None? {
        return;
      }
      nodeR := g[nodeR].parent.value;
    }
  }

  /** No SharedGroup lies on the parent chain from n to the Locale. */
  ghost predicate Unshared(g: Graph, n: Id)
    requires WellFormed(g) && n in g
    decreases g[n].depth
  {
    !g[n].kind.SharedGroup? &&
    (g[n].parent.Some? ==> Unshared(g, g[n].parent.value))
  }

  /** One step adds the node it stands on, when that node reports picks,
      and otherwise only a Link. */
  lemma StepAdds(g: Graph, n: Id, key: HashKey)
    requires WellFormed(g) && n in g
    ensures StepFrom(g, n, key).Up? ==>
              forall x :: x in StepFrom(g, n, key).added ==>
                (x == n && g[n].pickReporting) || (x in g && g[x].kind.Link?)
  {
    if g[n].kind.SharedGroup? {
      var link := FindLink(g, g[n].kind.parents, LastNodeId(key));
      if link.Some? {
        assert link.value in g[n].kind.parents;
      }
    }
  }

  /** Every node retrievePath reports is pick-reporting or is a Link that
      the walk went through. */
  lemma {:induction false} RetrieveMembers(g: Graph, n: Id, end: Option<Id>, key: HashKey)
    requires WellFormed(g) && n in g
    ensures Retrieve(g, n, end, key).Some? ==>
              forall x :: x in Retrieve(g, n, end, key).value ==> x in g && (g[x].pickReporting || g[x].kind.Link?)
    decreases g[n].depth
  {
    if end != Some(n) {
      var step := StepFrom(g, n, key);
      if step.Up? {
        StepAdds(g, n, key);
        if step.next.Some? {
          RetrieveMembers(g, step.next.value, end, step.key);
        }
      }
    }
  }

  /** The path never contains the node it stops at, as long as that node
      is not a Link (a BranchGroup never is): the walk returns as soon as
      it reaches `end`, and the only nodes it adds without visiting them
      are Links. */
  lemma {:induction false} RetrieveExcludesEnd(g: Graph, n: Id, e: Id, key: HashKey)
    requires WellFormed(g) && n in g
    requires e in g ==> !g[e].kind.Link?
    ensures Retrieve(g, n, Some(e), key).Some? ==> e !in Retrieve(g, n, Some(e), key).value
    decreases g[n].depth
  {
    if n != e {
      var step := StepFrom(g, n, key);
      if step.Up? {
        StepAdds(g, n, key);
        assert e !in step.added;
        if step.next.Some? {
          RetrieveExcludesEnd(g, step.next.value, e, step.key);
        }
      }
    }
  }

  /** A walk that must stop at a node no less deep than where it starts
      (and not the start itself) never meets it and fails: only nodes that
      are strictly above the start can end a path. */
  lemma {:induction false} RetrieveMissesLowerEnd(g: Graph, n: Id, e: Id, key: HashKey)
    requires WellFormed(g) && n in g && e in g
    requires e != n && g[e].depth >= g[n].depth
    ensures Retrieve(g, n, Some(e), key) == None
    decreases g[n].depth
  {
    var step := StepFrom(g, n, key);
    if step.Up? && step.next.Some? {
      RetrieveMissesLowerEnd(g, step.next.value, e, step.key);
    }
  }

  /** A walk that meets no SharedGroup and no `end` reports exactly the
      pick-reporting ancestors that initSceneGraphPath collects. */
  lemma {:induction false} RetrieveToLocale(g: Graph, n: Id, key: HashKey)
    requires WellFormed(g) && n in g && Unshared(g, n)
    ensures Retrieve(g, n, None, key) == Some(ReportingPath(g, n))
    decreases g[n].depth
  {
    if g[n].parent.Some? {
      RetrieveToLocale(g, g[n].parent.value, key);
    }
  }

  /** Below a shared-group-free chain, the path up to a BranchGroup b
      followed by initSceneGraphPath(b) is the path up to the Locale: a
      pick from b and a pick from the Locale report the same nodes. */
  lemma {:induction false} RetrieveThenInit(g: Graph, n: Id, b: Id, key: HashKey)
    requires WellFormed(g) && n in g && b in g && Unshared(g, n)
    ensures Retrieve(g, n, Some(b), key).Some? ==>
              Retrieve(g, n, Some(b), key).value + ReportingPath(g, b) == ReportingPath(g, n)
    decreases g[n].depth
  {
    if n == b {
      assert [] + ReportingPath(g, b) == ReportingPath(g, n);
    } else if g[n].parent.Some? {
      var p := g[n].parent.value;
      var here := if g[n].pickReporting then [n] else [];
      RetrieveUnshared(g, n, b, key);
      RetrieveThenInit(g, p, b, key);
      if Retrieve(g, p, Some(b), key).Some? {
        var q := Retrieve(g, p, Some(b), key).value;
        assert here + q + ReportingPath(g, b) == here + (q + ReportingPath(g, b));
      }
    }
  }

  /** At a node that is not a SharedGroup, the walk adds the node if it
      reports picks and goes on at its parent, as initSceneGraphPath does. */
  lemma RetrieveUnshared(g: Graph, n: Id, b: Id, key: HashKey)
    requires WellFormed(g) && n in g && !g[n].kind.SharedGroup? && n != b && g[n].parent.Some?
    ensures Retrieve(g, n, Some(b), key) ==
              Prepend(if g[n].pickReporting then [n] else [], Retrieve(g, g[n].parent.value, Some(b), key))
    ensures ReportingPath(g, n) == (if g[n].pickReporting then [n] else []) + ReportingPath(g, g[n].parent.value)
  {
  }

  /** The nodes retrievePath's loop stands on, in order, each with the key
      it carries there: from n up to `end`, to the SharedGroup it falls off,
      or to the last node below the Locale. */
  ghost function Walk(g: Graph, n: Id, end: Option<Id>, key: HashKey): (w: seq<(Id, HashKey)>)
    requires WellFormed(g) && n in g
    ensures |w| > 0 && w[0] == (n, key)
    ensures forall i :: 0 <= i < |w| ==> w[i].0 in g
    ensures forall i :: 0 <= i < |w| - 1 ==> end != Some(w[i].0)
    decreases g[n].depth
  {
    [(n, key)] +
      if end == Some(n) then []
      else
        match StepFrom(g, n, key)
        case Detached => []
        case Up(_, next, key') => if next.None? then [] else Walk(g, next.value, end, key')
  }

  /** One node further along the walk. */
  lemma WalkOn(g: Graph, n: Id, end: Option<Id>, key: HashKey, i: nat)
    requires WellFormed(g) && n in g && 0 < i < |Walk(g, n, end, key)|
    ensures end != Some(n) && StepFrom(g, n, key).Up? && StepFrom(g, n, key).next.Some?
    ensures var s := StepFrom(g, n, key);
            Walk(g, n, end, key)[i] == Walk(g, s.next.value, end, s.key)[i - 1] &&
            i - 1 < |Walk(g, s.next.value, end, s.key)|
  {
  }

  /** A walk that meets a SharedGroup none of whose Links carries the key's
      innermost id has found a detached branch: retrievePath returns null
      (PickInfo.java:466-469). */
  lemma {:induction false} RetrieveDetached(g: Graph, n: Id, end: Option<Id>, key: HashKey, i: nat)
    requires WellFormed(g) && n in g && i < |Walk(g, n, end, key)|
    requires var w := Walk(g, n, end, key)[i];
             end != Some(w.0) && g[w.0].kind.SharedGroup? &&
             FindLink(g, g[w.0].kind.parents, LastNodeId(w.1)).None?
    ensures Retrieve(g, n, end, key).None?
    decreases i
  {
    if i == 0 {
      RetrieveStops(g, n, end, key);
    } else {
      WalkOn(g, n, end, key, i);
      var s := StepFrom(g, n, key);
      RetrieveDetached(g, s.next.value, end, s.key, i - 1);
      RetrieveGoesOn(g, n, end, key);
    }
  }

  /** Retrieve at a SharedGroup the key finds no Link in. */
  lemma RetrieveStops(g: Graph, n: Id, end: Option<Id>, key: HashKey)
    requires WellFormed(g) && n in g && end != Some(n) && g[n].kind.SharedGroup?
    requires FindLink(g, g[n].kind.parents, LastNodeId(key)).None?
    ensures Retrieve(g, n, end, key).None?
  {
    assert StepFrom(g, n, key).Detached?;
  }

  /** Retrieve one step on, below both the Locale and `end`. */
  lemma RetrieveGoesOn(g: Graph, n: Id, end: Option<Id>, key: HashKey)
    requires WellFormed(g) && n in g && end != Some(n) && StepFrom(g, n, key).Up? && StepFrom(g, n, key).next.Some?
    ensures var s := StepFrom(g, n, key);
            Retrieve(g, n, end, key) == Prepend(s.added, Retrieve(g, s.next.value, end, s.key))
  {
  }

  /** Given an `end`, retrievePath returns a path exactly when its walk
      ends at `end` (the walk never goes past it, so this is exactly when
      the walk reaches it); reaching the Locale without meeting it yields
      null (PickInfo.java:440-442, 474-482). */
  lemma {:induction false} RetrieveNeedsEnd(g: Graph, n: Id, e: Id, key: HashKey)
    requires WellFormed(g) && n in g
    ensures var w := Walk(g, n, Some(e), key);
            Retrieve(g, n, Some(e), key).Some? <==> w[|w| - 1].0 == e
    decreases g[n].depth
  {
    var w := Walk(g, n, Some(e), key);
    if n == e {
      assert w == [(n, key)];
    } else if |w| == 1 {
      RetrieveWalkEnds(g, n, Some(e), key);
    } else {
      WalkTail(g, n, Some(e), key);
      var s := StepFrom(g, n, key);
      RetrieveNeedsEnd(g, s.next.value, e, s.key);
      RetrieveGoesOn(g, n, Some(e), key);
    }
  }

  /** A walk longer than one node goes on to the next node up. */
  lemma WalkTail(g: Graph, n: Id, end: Option<Id>, key: HashKey)
    requires WellFormed(g) && n in g && |Walk(g, n, end, key)| > 1
    ensures end != Some(n) && StepFrom(g, n, key).Up? && StepFrom(g, n, key).next.Some?
    ensures var s := StepFrom(g, n, key);
            Walk(g, n, end, key) == [(n, key)] + Walk(g, s.next.value, end, s.key)
  {
  }

  /** A walk that stops at its first node, short of `end`, has detached or
      reached the Locale: with an `end`, Retrieve is null. */
  lemma RetrieveWalkEnds(g: Graph, n: Id, end: Option<Id>, key: HashKey)
    requires WellFormed(g) && n in g && |Walk(g, n, end, key)| == 1 && end != Some(n) && end.Some?
    ensures Retrieve(g, n, end, key).None?
  {
  }

  /** Everything a step of a successful walk adds is on the returned path:
      each pick-reporting node before `end` and each Link the walk went
      through (PickInfo.java:444-461). */
  lemma {:induction false} RetrieveKeepsAdded(g: Graph, n: Id, end: Option<Id>, key: HashKey, i: nat)
    requires WellFormed(g) && n in g && i < |Walk(g, n, end, key)|
    requires end != Some(Walk(g, n, end, key)[i].0) && Retrieve(g, n, end, key).Some?
    ensures var w := Walk(g, n, end, key)[i];
            StepFrom(g, w.0, w.1).Up? &&
            forall x :: x in StepFrom(g, w.0, w.1).added ==> x in Retrieve(g, n, end, key).value
    decreases i
  {
    if i > 0 {
      WalkOn(g, n, end, key, i);
      var s := StepFrom(g, n, key);
      RetrieveKeepsAdded(g, s.next.value, end, s.key, i - 1);
      RetrieveGoesOn(g, n, end, key);
    } else {
      RetrieveKeepsFirst(g, n, end, key);
    }
  }

  /** The first step of a successful walk short of `end` moves up, and what
      it adds begins the path. */
  lemma RetrieveKeepsFirst(g: Graph, n: Id, end: Option<Id>, key: HashKey)
    requires WellFormed(g) && n in g && end != Some(n) && Retrieve(g, n, end, key).Some?
    ensures StepFrom(g, n, key).Up?
    ensures forall x :: x in StepFrom(g, n, key).added ==> x in Retrieve(g, n, end, key).value
  {
  }

  /** s back to front. */
  function Reverse<T>(s: seq<T>): (r: seq<T>)
    ensures |r| == |s|
  {
    if |s| == 0 then [] else Reverse(s[1..]) + [s[0]]
  }

  lemma {:induction false} ReverseIndex<T>(s: seq<T>)
    ensures forall i :: 0 <= i < |s| ==> Reverse(s)[i] == s[|s| - 1 - i]
  {
    if |s| > 0 {
      ReverseIndex(s[1..]);
    }
  }

  /** The user Nodes behind a sequence of retained nodes. */
  function Sources(g: Graph, p: seq<Id>): (r: seq<NodeRef>)
    requires forall x :: x in p ==> x in g
    ensures |r| == |p| && forall i :: 0 <= i < |p| ==> r[i] == g[p[i]].source
  {
    seq(|p|, i requires 0 <= i < |p| => g[p[i]].source)
  }

  /** A path that may be null, read as a possibly empty one. */
  function OrEmpty(p: Option<seq<Id>>): seq<Id>
  {
    if p.Some? then p.value else []
  }

  /** mergePath (PickInfo.java:489-509): p1 followed by p2 (which may be
      null), turned into user Nodes and reversed, so that the root comes
      first and the picked leaf's nearest reporting ancestor last. */
  method MergePath(g: Graph, p1: seq<Id>, p2: Option<seq<Id>>) returns (r: seq<NodeRef>)
    requires forall x :: x in p1 + OrEmpty(p2) ==> x in g
    ensures |r| == |p1| + |OrEmpty(p2)|
    ensures r == Reverse(Sources(g, p1 + OrEmpty(p2)))
  {
    ghost var all := Sources(g, p1 + OrEmpty(p2));
    var s := |p1|;
    var len := if p2.None? then s else s + |p2.value|;
    var nodes := new NodeRef[len];
    var l := len - 1;
    var i := 0;
    while i < s
      invariant 0 <= i <= s
      invariant forall m :: 0 <= m < i ==> nodes[l - m] == all[m]
    {
      assert all[i] == g[p1[i]].source;
      nodes[l - i] := g[p1[i]].source;
      i := i + 1;
    }
    var j := 0;
    while i < len
      invariant s <= i <= len && j == i - s
      invariant forall m :: 0 <= m < i ==> nodes[l - m] == all[m]
    {
      assert all[i] == g[p2.value[j]].source;
      nodes[l - i] := g[p2.value[j]].source;
      i, j := i + 1, j + 1;
    }
    ReverseIndex(all);
    assert forall m :: 0 <= m < len ==> nodes[m] == all[l - m];
    r := nodes[..];
  }

  /** inside (PickInfo.java:405-418): whether the BranchGroup bg is one of
      the leaf's cached BranchGroups; trivially so when either is null. */
  method Inside(bgArr: Option<seq<Id>>, bg: Option<Id>) returns (r: bool)
    ensures r <==> bg.None? || bgArr.None? || bg.value in bgArr.value
  {
    if bg.None? || bgArr.None? {
      return true;
    }
    var arr := bgArr.value;
    for i := 0 to |arr|
      invariant bg.value !in arr[..i]
    {
      if arr[i] == bg.value {
        return true;
      }
    }
    return false;
  }

  /** The path createPath reports: the walk from the leaf up to bg (or the
      Locale), merged with initpath. */
  function PathOf(g: Graph, src: Id, bg: Option<Id>, key: HashKey, initpath: Option<seq<Id>>): (r: Option<seq<NodeRef>>)
    requires WellFormed(g) && src in g
    requires forall x :: x in OrEmpty(initpath) ==> x in g
    ensures r.None? <==> Retrieve(g, src, bg, key).None?
  {
    match Retrieve(g, src, bg, key)
    case None => None
    case Some(p) =>
      RetrieveMembers(g, src, bg, key);
      Some(Reverse(Sources(g, p + OrEmpty(initpath))))
  }

  /** createPath (PickInfo.java:388-399). Where the source asserts that
      retrievePath found a path, this model reports None. */
  method CreatePath(g: Graph, src: Id, bg: Option<Id>, key: HashKey, initpath: Option<seq<Id>>) returns (r: Option<seq<NodeRef>>)
    requires WellFormed(g) && src in g
    requires forall x :: x in OrEmpty(initpath) ==> x in g
    ensures r == PathOf(g, src, bg, key, initpath)
  {
    var path := RetrievePath(g, src, bg, key);
    if path.None? {
      return None;
    }
    RetrieveMembers(g, src, bg, key);
    var nodes := MergePath(g, path.value, initpath);
    r := Some(nodes);
  }

  /** Picking under a BranchGroup b reports the same root-to-leaf path as
      picking under the Locale, whenever no SharedGroup is involved and
      the leaf lies under b. */
  lemma BranchGroupPathIsLocalePath(g: Graph, src: Id, b: Id, key: HashKey)
    requires WellFormed(g) && src in g && b in g && Unshared(g, src)
    requires Retrieve(g, src, Some(b), key).Some?
    ensures PathOf(g, src, Some(b), key, Some(ReportingPath(g, b))) == PathOf(g, src, None, key, None)
  {
    RetrieveThenInit(g, src, b, key);
    RetrieveToLocale(g, src, key);
    RetrieveMembers(g, src, Some(b), key);
    RetrieveMembers(g, src, None, key);
    assert OrEmpty(Some(ReportingPath(g, b))) == ReportingPath(g, b);
    assert ReportingPath(g, src) + OrEmpty(None) == ReportingPath(g, src);
  }
}
