/** The scene graph the click router works on, reduced to what the router
    reads: every node has an optional parent link and an `isMesh` flag.
    Nodes are identified by their id, standing in for object identity. */
module SceneGraph {
  import opened Wrappers

  type NodeId = nat

  datatype Node = Node(parent: Option<NodeId>, isMesh: bool)

  /** All nodes that exist, attached to the scene or not. An id that is not
      a key behaves as a detached node that is not a mesh. */
  type Scene = map<NodeId, Node>

  function Parent(s: Scene, n: NodeId): Option<NodeId> {
    if n in s then s[n].parent else None
  }

  predicate IsMesh(s: Scene, n: NodeId) {
    n in s && s[n].isMesh
  }

  /** The number of parent links from `n` up to a parentless node, provided
      that node is reached within `fuel` steps. */
  function HeightWithin(s: Scene, n: NodeId, fuel: nat): Option<nat>
    decreases fuel
  {
    match Parent(s, n)
    case None => Some(0)
    case Some(p) =>
      if fuel == 0 then None
      else
        match HeightWithin(s, p, fuel - 1)
        case None => None
        case Some(h) => Some(h + 1)
  }

  /** Parent links form a forest: from every node a parentless node is
      reached within as many steps as there are nodes. */
  predicate Acyclic(s: Scene) {
    forall n | n in s :: HeightWithin(s, n, |s|).Some?
  }

  /** The termination measure of every upward walk. */
  function Depth(s: Scene, n: NodeId): nat
    requires Acyclic(s)
  {
    HeightWithin(s, n, |s|).value
  }

  lemma {:induction false} HeightWithinMonotone(s: Scene, n: NodeId, fuel: nat, more: nat)
    requires fuel <= more
    requires HeightWithin(s, n, fuel).Some?
    ensures HeightWithin(s, n, more) == HeightWithin(s, n, fuel)
    decreases fuel
  {
    match Parent(s, n)
    case None =>
    case Some(p) =>
      HeightWithinMonotone(s, p, fuel - 1, more - 1);
  }

  /** Stepping to the parent strictly lowers the depth. */
  lemma ParentDepth(s: Scene, n: NodeId, p: NodeId)
    requires Acyclic(s)
    requires Parent(s, n) == Some(p)
    ensures Depth(s, p) + 1 == Depth(s, n)
  {
    assert n in s;
    HeightWithinMonotone(s, p, |s| - 1, |s|);
  }

  /** A scene is acyclic when its nodes can be ranked below the node count
      with every parent ranked strictly below its child. */
  lemma RankedIsAcyclic(s: Scene, rank: map<NodeId, nat>)
    requires forall n | n in s :: n in rank && rank[n] < |s|
    requires forall n | n in s && Parent(s, n).Some? && Parent(s, n).value in s ::
      rank[Parent(s, n).value] < rank[n]
    ensures Acyclic(s)
  {
    forall n | n in s
      ensures HeightWithin(s, n, |s|).Some?
    {
      RankBoundsHeight(s, rank, n);
      HeightWithinMonotone(s, n, rank[n] + 1, |s|);
    }
  }

  lemma {:induction false} RankBoundsHeight(s: Scene, rank: map<NodeId, nat>, n: NodeId)
    requires forall n | n in s :: n in rank && rank[n] < |s|
    requires forall n | n in s && Parent(s, n).Some? && Parent(s, n).value in s ::
      rank[Parent(s, n).value] < rank[n]
    requires n in s
    ensures HeightWithin(s, n, rank[n] + 1).Some?
    decreases rank[n]
  {
    match Parent(s, n)
    case None =>
    case Some(p) =>
      if p in s {
        RankBoundsHeight(s, rank, p);
        HeightWithinMonotone(s, p, rank[p] + 1, rank[n]);
      }
  }

  /** A node that is its own parent is a cycle that the model rules out. */
  lemma SelfParentIsCyclic(s: Scene, n: NodeId)
    requires Parent(s, n) == Some(n)
    ensures !Acyclic(s)
  {
    forall fuel: nat
      ensures HeightWithin(s, n, fuel).None?
    {
      SelfParentNeverReachesRoot(s, n, fuel);
    }
  }

  lemma {:induction false} SelfParentNeverReachesRoot(s: Scene, n: NodeId, fuel: nat)
    requires Parent(s, n) == Some(n)
    ensures HeightWithin(s, n, fuel).None?
    decreases fuel
  {
    if fuel > 0 {
      SelfParentNeverReachesRoot(s, n, fuel - 1);
    }
  }

  /** The self-inclusive list of ancestors of `n`, nearest first, ending at a
      parentless node: the nodes an upward walk from `n` visits. */
  function Chain(s: Scene, n: NodeId): (c: seq<NodeId>)
    requires Acyclic(s)
    ensures |c| == Depth(s, n) + 1
    ensures c[0] == n
    ensures forall i | 0 <= i < |c| - 1 :: Parent(s, c[i]) == Some(c[i + 1])
    ensures Parent(s, c[|c| - 1]).None?
    decreases Depth(s, n)
  {
    match Parent(s, n)
    case None => [n]
    case Some(p) =>
      ParentDepth(s, n, p);
      [n] + Chain(s, p)
  }

  /** `m` lies in the subtree rooted at `root`, `root` itself included: the
      set of nodes that `root.traverse` visits. */
  predicate InSubtree(s: Scene, root: NodeId, m: NodeId)
    requires Acyclic(s)
  {
    root in Chain(s, m)
  }

  /** What `traverse` covers, read downward: the root itself, and every
      child of a covered node. */
  lemma InSubtreeOfSelfAndParent(s: Scene, root: NodeId, m: NodeId, p: NodeId)
    requires Acyclic(s)
    ensures InSubtree(s, m, m)
    ensures InSubtree(s, root, p) && Parent(s, m) == Some(p) ==> InSubtree(s, root, m)
  {
    if Parent(s, m) == Some(p) {
      ParentDepth(s, m, p);
      assert Chain(s, m) == [m] + Chain(s, p);
    }
  }

  /** ... and nothing else: a covered node is the root or the child of a
      covered node. */
  lemma InSubtreeOnlyThroughParent(s: Scene, root: NodeId, m: NodeId)
    requires Acyclic(s)
    ensures InSubtree(s, root, m) ==>
      m == root || (Parent(s, m).Some? && InSubtree(s, root, Parent(s, m).value))
  {
    if Parent(s, m).Some? {
      var p := Parent(s, m).value;
      ParentDepth(s, m, p);
      assert Chain(s, m) == [m] + Chain(s, p);
    }
  }

  /** The chain of a node with a parent is the node followed by the chain of
      its parent. */
  lemma ChainCons(s: Scene, n: NodeId, p: NodeId)
    requires Acyclic(s)
    requires Parent(s, n) == Some(p)
    ensures Chain(s, n) == [n] + Chain(s, p)
  {
    ParentDepth(s, n, p);
  }

  /** Dropping `j > 0` entries of `[x] + t` drops `j - 1` entries of `t`. */
  lemma ConsDrop(x: NodeId, t: seq<NodeId>, j: nat)
    requires 0 < j <= |t|
    ensures ([x] + t)[j..] == t[j - 1..]
    ensures j < |t| + 1 ==> ([x] + t)[j] == t[j - 1]
  {
  }

  /** The ancestor chain of any node on the chain of `n` is the rest of the
      chain of `n` from that node on. */
  lemma {:induction false} ChainSuffix(s: Scene, n: NodeId, j: nat)
    requires Acyclic(s)
    requires j < |Chain(s, n)|
    ensures Chain(s, n)[j..] == Chain(s, Chain(s, n)[j])
    decreases j
  {
    if j == 0 {
      assert Chain(s, n)[0] == n;
    } else {
      match Parent(s, n)
      case Some(p) =>
        ChainCons(s, n, p);
        ChainSuffix(s, p, j - 1);
        ConsDrop(n, Chain(s, p), j);
    }
  }

  /** A subtree of a subtree is a subtree. */
  lemma InSubtreeTransitive(s: Scene, a: NodeId, b: NodeId, m: NodeId)
    requires Acyclic(s)
    requires InSubtree(s, a, b) && InSubtree(s, b, m)
    ensures InSubtree(s, a, m)
  {
    var c := Chain(s, m);
    var j :| 0 <= j < |c| && c[j] == b;
    ChainSuffix(s, m, j);
    assert a in c[j..];
  }
}
