/** `ButtonManager`: a registry from scene node to click callback, and the
    click dispatch that picks at most one registered node to notify. */
module Router {
  import opened Wrappers
  import opened SceneGraph
  import opened Pointer

  /** What `addButton` stored for a node. Only a truthy value is invoked;
      `Falsy` stands for `undefined`/`null` passed as the callback. */
  datatype Callback = Handler(id: nat) | Falsy

  type Registry = map<NodeId, Callback>

  /** One raycaster intersection: how far along the ray, and which mesh. */
  datatype Hit = Hit(distance: real, mesh: NodeId)

  /** `addButton`: `key` now maps to `cb`, replacing any earlier callback;
      every other key keeps its callback. */
  function AddButton(reg: Registry, key: NodeId, cb: Callback): (r: Registry)
    ensures key in r && r[key] == cb
    ensures r.Keys == reg.Keys + {key}
    ensures forall k | k in reg && k != key :: r[k] == reg[k]
  {
    reg[key := cb]
  }

  /** `removeButton`: `key` is gone, every other key keeps its callback, and
      removing an absent key changes nothing. */
  function RemoveButton(reg: Registry, key: NodeId): (r: Registry)
    ensures key !in r
    ensures r.Keys == reg.Keys - {key}
    ensures forall k | k in r :: r[k] == reg[k]
    ensures key !in reg ==> r == reg
  {
    reg - {key}
  }

  /** Registering again overwrites: only the last callback survives. */
  lemma AddButtonOverwrites(reg: Registry, key: NodeId, a: Callback, b: Callback)
    ensures AddButton(AddButton(reg, key, a), key, b) == AddButton(reg, key, b)
  {
  }

  /** Removing a freshly added key restores the registry. */
  lemma RemoveUndoesAdd(reg: Registry, key: NodeId, cb: Callback)
    requires key !in reg
    ensures RemoveButton(AddButton(reg, key, cb), key) == reg
  {
  }

  /** The meshes handed to the raycaster: every mesh in the self-inclusive
      subtree of some registered node. */
  function Candidates(s: Scene, reg: Registry): set<NodeId>
    requires Acyclic(s)
  {
    set m | m in s && s[m].isMesh && exists r | r in reg :: InSubtree(s, r, m)
  }

  /** `buttonObject.traverse`, keeping the meshes: scans the scene for the
      mesh nodes whose ancestor chain passes through `root`. */
  method TraverseMeshes(s: Scene, root: NodeId) returns (found: set<NodeId>)
    requires Acyclic(s)
    ensures forall m :: m in found <==> IsMesh(s, m) && InSubtree(s, root, m)
  {
    found := {};
    var todo := s.Keys;
    while todo != {}
      invariant todo <= s.Keys
      invariant forall m :: m in found <==> m in s && m !in todo && IsMesh(s, m) && InSubtree(s, root, m)
      decreases todo
    {
      var m :| m in todo;
      if s[m].isMesh && root in Chain(s, m) {
        found := found + {m};
      }
      todo := todo - {m};
    }
  }

  /** The mesh collection of `onClick`: for each registered node, every mesh
      in its subtree. An empty registry gives no candidates. */
  method CollectMeshes(s: Scene, reg: Registry) returns (meshes: set<NodeId>)
    requires Acyclic(s)
    ensures meshes == Candidates(s, reg)
    ensures forall m | m in meshes :: IsMesh(s, m)
    ensures reg == map[] ==> meshes == {}
  {
    meshes := {};
    var roots := reg.Keys;
    while roots != {}
      invariant roots <= reg.Keys
      invariant forall m :: m in meshes <==>
        IsMesh(s, m) && exists r | r in reg && r !in roots :: InSubtree(s, r, m)
      decreases roots
    {
      var root :| root in roots;
      var sub := TraverseMeshes(s, root);
      meshes := meshes + sub;
      roots := roots - {root};
    }
  }

  /** The parent walk of `onClick`: climb from `n` while the current node has
      a parent and is not registered. */
  function Owner(s: Scene, reg: Registry, n: NodeId): (o: NodeId)
    requires Acyclic(s)
    ensures o in Chain(s, n)
    ensures o in reg || Parent(s, o).None?
    decreases Depth(s, n)
  {
    match Parent(s, n)
    case Some(p) =>
      if n in reg then n
      else
        ParentDepth(s, n, p);
        Owner(s, reg, p)
    case None => n
  }

  /** The index of the first element of `c` that is registered, or `|c|`. */
  function FirstRegistered(c: seq<NodeId>, reg: Registry): (i: nat)
    ensures i <= |c|
    ensures forall j | 0 <= j < i :: c[j] !in reg
    ensures i < |c| ==> c[i] in reg
  {
    if |c| == 0 then 0
    else if c[0] in reg then 0
    else 1 + FirstRegistered(c[1..], reg)
  }

  /** Reference meaning of the walk: the nearest registered node on the
      ancestor chain, or the top of the chain when none is registered. */
  function ClosestRegistered(s: Scene, reg: Registry, n: NodeId): NodeId
    requires Acyclic(s)
  {
    PickRegistered(Chain(s, n), reg)
  }

  /** The node `ClosestRegistered` picks from a chain: the first registered
      entry, or the last entry when none is registered. */
  function PickRegistered(c: seq<NodeId>, reg: Registry): NodeId
    requires |c| > 0
  {
    var i := FirstRegistered(c, reg);
    if i < |c| then c[i] else c[|c| - 1]
  }

  /** Prefixing an unregistered node does not change the pick. */
  lemma PickSkipsUnregistered(n: NodeId, t: seq<NodeId>, reg: Registry)
    requires |t| > 0 && n !in reg
    ensures PickRegistered([n] + t, reg) == PickRegistered(t, reg)
  {
    var c := [n] + t;
    assert c[1..] == t;
    var i := FirstRegistered(t, reg);
    assert FirstRegistered(c, reg) == 1 + i;
    if i < |t| {
      assert c[1 + i] == t[i];
    } else {
      assert c[|c| - 1] == t[|t| - 1];
    }
  }

  /** One step of the reference definition: a registered node is its own
      closest registered node, and otherwise the search continues at the
      parent. */
  lemma ClosestRegisteredStep(s: Scene, reg: Registry, n: NodeId, p: NodeId)
    requires Acyclic(s)
    requires Parent(s, n) == Some(p)
    ensures ClosestRegistered(s, reg, n) == if n in reg then n else ClosestRegistered(s, reg, p)
  {
    ParentDepth(s, n, p);
    assert Chain(s, n) == [n] + Chain(s, p);
    if n !in reg {
      PickSkipsUnregistered(n, Chain(s, p), reg);
    }
  }

  lemma {:induction false} OwnerIsClosestRegistered(s: Scene, reg: Registry, n: NodeId)
    requires Acyclic(s)
    ensures Owner(s, reg, n) == ClosestRegistered(s, reg, n)
    decreases Depth(s, n)
  {
    match Parent(s, n)
    case None =>
      assert Chain(s, n) == [n];
    case Some(p) =>
      ParentDepth(s, n, p);
      ClosestRegisteredStep(s, reg, n, p);
      if n !in reg {
        OwnerIsClosestRegistered(s, reg, p);
      }
  }

  /** Which registered node's callback `onClick` invokes for the raycaster's
      hit list, nearest first: only the first hit matters, and nothing fires
      when there is no hit, when the walk ends on an unregistered node, or
      when the stored callback is not callable. */
  function Dispatch(s: Scene, reg: Registry, hits: seq<Hit>): (fired: Option<NodeId>)
    requires Acyclic(s)
    ensures |hits| == 0 ==> fired.None?
    ensures fired.Some? ==> fired.value in reg && reg[fired.value].Handler?
    ensures fired.Some? ==> InSubtree(s, fired.value, hits[0].mesh)
  {
    if |hits| == 0 then None
    else
      var o := Owner(s, reg, hits[0].mesh);
      if o in reg && reg[o].Handler? then Some(o) else None
  }

  /** The whole click: normalise the pointer, cast against the candidate
      meshes with the raycaster `cast`, and dispatch on the hits. */
  function OnClick(s: Scene, reg: Registry, clientX: real, clientY: real,
                   width: real, height: real,
                   cast: (Ndc, set<NodeId>) -> seq<Hit>): (fired: Option<NodeId>)
    requires Acyclic(s)
    requires width > 0.0 && height > 0.0
    ensures fired.Some? ==> fired.value in reg && reg[fired.value].Handler?
    ensures reg == map[] ==> fired.None?
  {
    Dispatch(s, reg, cast(ToNdc(clientX, clientY, width, height), Candidates(s, reg)))
  }

  /** Dispatch fires exactly the nearest registered self-or-ancestor of the
      nearest hit, and only when its callback is callable. */
  lemma DispatchFiresClosest(s: Scene, reg: Registry, hits: seq<Hit>, k: NodeId)
    requires Acyclic(s)
    requires |hits| > 0
    ensures Dispatch(s, reg, hits) == Some(k) <==>
      var c := Chain(s, hits[0].mesh);
      var i := FirstRegistered(c, reg);
      i < |c| && c[i] == k && reg[k].Handler?
  {
    OwnerIsClosestRegistered(s, reg, hits[0].mesh);
  }

  /** Hits after the first never influence the outcome. */
  lemma DispatchOnlyFirstHit(s: Scene, reg: Registry, hits: seq<Hit>, other: seq<Hit>)
    requires Acyclic(s)
    requires |hits| > 0 && |other| > 0 && hits[0].mesh == other[0].mesh
    ensures Dispatch(s, reg, hits) == Dispatch(s, reg, other)
  {
  }

  predicate SortedByDistance(hits: seq<Hit>) {
    forall i, j | 0 <= i < j < |hits| :: hits[i].distance <= hits[j].distance
  }

  /** With the raycaster's nearest-first order, the outcome is decided by a
      hit of least distance, whatever registration order was. */
  lemma DispatchNearest(s: Scene, reg: Registry, hits: seq<Hit>)
    requires Acyclic(s)
    requires |hits| > 0 && SortedByDistance(hits)
    ensures forall h | h in hits :: hits[0].distance <= h.distance
    ensures Dispatch(s, reg, hits) == Dispatch(s, reg, [hits[0]])
  {
  }

  /** A hit on a candidate mesh, or on any node below one, always walks up
      to a registered node, so the "no registered ancestor" outcome cannot
      happen for such hits. */
  lemma {:induction false} CandidateReachesRegistered(s: Scene, reg: Registry, g: NodeId, m: NodeId)
    requires Acyclic(s)
    requires g in Candidates(s, reg) && InSubtree(s, g, m)
    ensures Owner(s, reg, m) in reg
  {
    var r :| r in reg && InSubtree(s, r, g);
    InSubtreeTransitive(s, r, g, m);
    var c := Chain(s, m);
    var j :| 0 <= j < |c| && c[j] == r;
    OwnerIsClosestRegistered(s, reg, m);
    assert FirstRegistered(c, reg) <= j;
  }

  /** What the raycaster promises about the hits for `meshes`: they come
      nearest first, and each lies in the self-inclusive subtree of a given
      mesh (the raycaster also descends into the children of what it is
      given). */
  ghost predicate FaithfulHits(s: Scene, meshes: set<NodeId>, hits: seq<Hit>)
    requires Acyclic(s)
  {
    && SortedByDistance(hits)
    && forall i | 0 <= i < |hits| :: exists g | g in meshes :: InSubtree(s, g, hits[i].mesh)
  }

  ghost predicate FaithfulCast(s: Scene, cast: (Ndc, set<NodeId>) -> seq<Hit>)
    requires Acyclic(s)
  {
    forall p, meshes :: FaithfulHits(s, meshes, cast(p, meshes))
  }

  /** With a faithful raycaster and only callable callbacks, a click fires a
      callback exactly when the ray hits something. */
  lemma OnClickFiresIffHit(s: Scene, reg: Registry, clientX: real, clientY: real,
                           width: real, height: real,
                           cast: (Ndc, set<NodeId>) -> seq<Hit>)
    requires Acyclic(s)
    requires width > 0.0 && height > 0.0
    requires FaithfulCast(s, cast)
    requires forall k | k in reg :: reg[k].Handler?
    ensures OnClick(s, reg, clientX, clientY, width, height, cast).Some? <==>
      |cast(ToNdc(clientX, clientY, width, height), Candidates(s, reg))| > 0
  {
    var meshes := Candidates(s, reg);
    var ndc := ToNdc(clientX, clientY, width, height);
    var hits := cast(ndc, meshes);
    if |hits| > 0 {
      assert FaithfulHits(s, meshes, hits);
      var first := hits[0];
      var g :| g in meshes && InSubtree(s, g, first.mesh);
      CandidateReachesRegistered(s, reg, g, first.mesh);
    }
  }

  /** A hit inside the subtree of registered `r`, with no other registered
      node on the way up, fires `r` and nothing else. */
  lemma DispatchFiresOwningButton(s: Scene, reg: Registry, hits: seq<Hit>, r: NodeId)
    requires Acyclic(s)
    requires |hits| > 0
    requires r in reg && reg[r].Handler?
    requires InSubtree(s, r, hits[0].mesh)
    requires forall k | k in reg && k != r :: !InSubtree(s, k, hits[0].mesh)
    ensures Dispatch(s, reg, hits) == Some(r)
  {
    var m := hits[0].mesh;
    OwnerIsClosestRegistered(s, reg, m);
    var c := Chain(s, m);
    var j :| 0 <= j < |c| && c[j] == r;
    var i := FirstRegistered(c, reg);
    assert c[j] in reg;
    assert i <= j;
    assert InSubtree(s, c[i], m);
    assert c[i] == r;
  }
}
