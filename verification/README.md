# Click router and camera fly-to controller of a 3D portfolio page

This project models the page's own logic in the page
scripts `scripts/main_s_v2.js` and `scripts/main_s_clean.js`. The rest of the
scripts calls into the three.js library.

- **`ButtonManager`** is a registry from scene object to click callback. On a
  click it does five things:
  1. It normalises the pointer position.
  2. It collects every mesh under every registered object.
  3. It lets the raycaster find the nearest mesh under the pointer.
  4. It climbs parent links from that mesh to the closest registered object.
  5. It calls that object's callback.

  Both files hold the same code: v2 lines 8-66 and clean lines 127-185.
- **`CameraController`** (v2) and **`CameraMover`** (clean) are a fly-to
  state machine. The state is a target position, a target look-at point and a
  moving flag. Each frame while moving, the camera closes 5% of its gap to the
  target. It then aims at a point that starts one unit ahead of the camera and
  moves 5% of the way toward the target look-at point; that is not a turn by
  5% of the remaining angle. It stops once the distance measured before the
  step is below 0.1 and the orientation error measured before the step is
  below 0.01. `CameraController` adds a fixed
  table of four named views.

Modules:

| file | module | what |
|---|---|---|
| `wrappers.dfy` | `Wrappers` | `Option`, standing in for `null`/`undefined` |
| `scenegraph.dfy` | `SceneGraph` | nodes with a parent link and an `isMesh` flag, acyclicity, depth, ancestor chains, subtrees |
| `pointer.dfy` | `Pointer` | pixel to normalised-device-coordinate mapping and its inverse |
| `router.dfy` | `Router` | registry, mesh collection, parent walk, dispatch, whole click |
| `vectors.dfy` | `Vectors` | `Vec3` over `real`, `lerp`, squared distance |
| `motion.dfy` | `Motion` | controller state, constructors, `moveTo`, `update`, runs of frames, convergence |
| `presets.dfy` | `Presets` | the view table, `moveToAngle`, the four `to*View` shortcuts |
| `scenarios.dfy` | `Scenarios` | concrete clicks and one concrete fly-to |

Modelling choices:

- **Scene graph.** The scene graph is a `map` from node id to
  `Node(parent, isMesh)`. A node id stands in for object identity, which is
  how the JavaScript `Map` keys its entries.
- **Ids outside the map.** An id that is not in the map behaves like a
  detached object with no parent. Such an object is not a mesh.
- **Acyclicity.** `Acyclic` demands that every node reaches a parentless node
  within as many steps as there are nodes. The depth of a node is the measure
  on which the parent walk terminates.
- **Raycaster.** The raycaster is a function parameter `cast`. It takes the
  normalised pointer and the candidate meshes and returns hits. `FaithfulCast`
  says what the library promises about those hits. They are sorted nearest
  first. Every hit lies in the self-inclusive subtree of a mesh it was given,
  because `intersectObjects` also descends into the children of the objects
  it is given. So a hit can be a child of a mesh that is not a mesh itself.
- **Dispatch result.** Dispatch returns the registered node whose callback
  would be called. It does not run a closure.
- **Callbacks.** A stored callback is either `Handler` or `Falsy`. This
  models the `if (callback)` test that follows `buttons.get`. A registered
  node whose stored value is falsy still stops the walk, but nothing fires.
- **Orientation.** Camera orientation is opaque. It is the eye and point of
  the last `lookAt`. Each frame takes two inputs from the library: the
  camera's forward vector and the orientation-error metric.
- **Distance test.** The source tests `distanceTo(target) < 0.1`. The model
  compares squared distance with `0.1 * 0.1`. The two tests agree because a
  distance is never negative.
- **Tolerances and views.**
  - Both files stop at `distanceTo < 0.1`.
  - The view table is filled once in `setupCameraAngles`, and no method adds
    views.
  - `moveToAngle` returns `null` (`None` here) for an unknown name and logs
    nothing.

## Model

| member | source | states |
|---|---|---|
| SceneGraph.ParentDepth | scripts/main_s_v2.js:55-58 | each step of the parent walk lowers the depth by one, so the walk terminates on an acyclic scene |
| SceneGraph.Chain | scripts/main_s_v2.js:55-58 | the nodes the walk can visit: the node itself first, each next one its parent, ending at a node with no parent, one longer than the depth |
| SceneGraph.InSubtreeOfSelfAndParent | scripts/main_s_v2.js:42-46 | `traverse` covers the root itself and every child of a node it covers |
| SceneGraph.InSubtreeOnlyThroughParent | scripts/main_s_v2.js:42-46 | `traverse` covers nothing else: a covered node is the root or a child of a covered node |
| Pointer.ToNdc | scripts/main_s_v2.js:13-16 | x in [0,W] iff ndc x in [-1,1], with 0 to -1 and W to 1; y in [0,H] iff ndc y in [-1,1], flipped: 0 to 1, H to -1 |
| Pointer.ToNdcRoundTrip | scripts/main_s_v2.js:13-16 | the normalisation is invertible: the pixel position is recovered exactly |
| Pointer.ToClientRoundTrip | scripts/main_s_clean.js:132-135 | every normalised point comes from exactly one pixel position |
| Pointer.ToNdcMonotone | scripts/main_s_clean.js:132-135 | moving right strictly raises ndc x and moving down strictly lowers ndc y; with both moves non-strict, neither coordinate goes the other way |
| Router.AddButton | scripts/main_s_v2.js:18-20 | the key maps to the new callback, the key set gains only that key, every other key keeps its callback |
| Router.RemoveButton | scripts/main_s_v2.js:22-24 | the key is gone, no other key or callback changes, removing an absent key is a no-op |
| Router.AddButtonOverwrites | scripts/main_s_clean.js:137-139 | re-adding a key keeps only the last callback |
| Router.RemoveUndoesAdd | scripts/main_s_clean.js:141-143 | removing a freshly added key restores the registry |
| Router.TraverseMeshes | scripts/main_s_v2.js:42-46 | the meshes found under a root are exactly the mesh nodes in its self-inclusive subtree |
| Router.CollectMeshes | scripts/main_s_v2.js:39-47 | the collected meshes are exactly the meshes in the subtrees of registered nodes; an empty registry yields none |
| Router.Owner | scripts/main_s_v2.js:55-58 | the walk ends on a self-or-ancestor of the hit mesh that is registered or has no parent |
| Router.OwnerIsClosestRegistered | scripts/main_s_clean.js:174-177 | the walk ends on the first registered node of the ancestor chain, or on its top when none is registered |
| Router.Dispatch | scripts/main_s_v2.js:51-63 | no hit fires nothing; anything fired is registered, has a callable callback and owns the first hit's mesh |
| Router.DispatchFiresClosest | scripts/main_s_clean.js:174-182 | a node fires iff it is the nearest registered self-or-ancestor of the first hit and its callback is callable |
| Router.DispatchOnlyFirstHit | scripts/main_s_clean.js:168-171 | hits after the first never change the outcome |
| Router.DispatchNearest | scripts/main_s_v2.js:49-52 | with hits sorted by distance, a hit of least distance decides, alone |
| Router.CandidateReachesRegistered | scripts/main_s_v2.js:39-58 | a walk that starts at a collected mesh, or at any node below one, always ends on a registered node |
| Router.OnClick | scripts/main_s_v2.js:26-65 | a click fires at most one node, only a registered one with a callable callback, and nothing with an empty registry |
| Router.OnClickFiresIffHit | scripts/main_s_clean.js:145-184 | with a faithful raycaster and callable callbacks, a click fires a callback iff the raycaster reports a hit |
| Router.DispatchFiresOwningButton | scripts/main_s_clean.js:170-182 | a hit under registered r, with no other registered node on its chain, fires r and only r |
| Vectors.Lerp | scripts/main_s_v2.js:132 | after a lerp the remaining gap is (1 - alpha) of the old gap; alpha 0 stays put, alpha 1 arrives |
| Vectors.LerpDistSq | scripts/main_s_clean.js:409 | a lerp scales the squared distance to the target by (1 - alpha)^2 |
| Motion.NewController | scripts/main_s_v2.js:70-80 | a new controller is idle with both targets at the origin |
| Motion.NewMover | scripts/main_s_clean.js:386-393 | a new mover is idle, its target position is the camera's position and its target look-at is the origin |
| Motion.MoveTo | scripts/main_s_v2.js:118-122 | the targets become exactly the given values, look-at defaulting to 0, and motion starts |
| Motion.MoveToOverwrites | scripts/main_s_v2.js:118-122 | a second move replaces the first completely, and the duration has no effect |
| Motion.Update | scripts/main_s_v2.js:124-146 | idle: nothing changes. Moving: targets kept, position gap scaled by 0.95, squared gap by 0.9025, camera aimed at a point that closed 5% of its gap to the target look-at, and moving stops iff both pre-step errors are under tolerance |
| Motion.RunIdle | scripts/main_s_clean.js:401-402 | any number of updates on an idle controller change nothing |
| Motion.RunNeverMovesAway | scripts/main_s_clean.js:404-409 | over any run the target is kept and the camera never gets farther from it |
| Motion.RunGeometric | scripts/main_s_v2.js:127-132 | while the orientation never settles, the controller keeps moving and the gap after n frames is 0.95^n of the first |
| Motion.StopsWithin | scripts/main_s_v2.js:142-145 | with settled orientation, motion has stopped once the geometric bound on the squared gap drops below 0.01 |
| Motion.Converges | scripts/main_s_clean.js:419-422 | with settled orientation, a move starting at squared distance d has stopped within 1 + 1026 d frames |
| Presets.SetupCameraAngles | scripts/main_s_v2.js:82-103 | exactly four views, with the positions and look-at points in `setupCameraAngles` |
| Presets.MoveToAngle | scripts/main_s_v2.js:105-116 | a known view becomes the target, motion starts and the view is returned; an unknown name returns nothing and changes nothing |
| Presets.MoveToAngleIsMoveTo | scripts/main_s_v2.js:105-122 | moving to a view equals `moveTo` with its stored values, whatever the duration |
| Presets.ToDefaultView | scripts/main_s_v2.js:149 | targets (0,7,0) looking at (0,7,-2) and returns the stored "default" view |
| Presets.ToBuildingView | scripts/main_s_v2.js:150 | targets (0,7,5) looking at (0,6,0) and returns the stored "building" view |
| Presets.ToPhotoCloseup | scripts/main_s_v2.js:151 | targets (0,6.5,1) looking at (0,6.5,0) and returns the stored "photoCloseup" view |
| Presets.ToScreenView | scripts/main_s_v2.js:152 | targets (0,7.3,20) looking at (0,7,-1) and returns the stored "screenView" view |
| Scenarios.ClickOnRegisteredGroup | scripts/main_s_v2.js:51-63 | a hit on a child mesh fires its registered group; no hit, a mesh with no registered ancestor, or a falsy callback fire nothing |
| Scenarios.FlyForward | scripts/main_s_clean.js:401-423 | from (0,7,0) toward (0,7,-2), one frame reaches (0,7,-0.1), and with settled orientation the move has ended after 60 frames |

## Left out

- Ray-versus-mesh intersection (`setFromCamera`, `intersectObjects`) is three.js geometry. It is the `cast` parameter.
- The world-matrix refresh (`scene.traverse` with `updateMatrixWorld`, v2 lines 30-34) only feeds the raycaster. It has no modelled effect.
- Camera orientation math (`getWorldDirection`, `normalize`, `lookAt`) needs square roots and quaternions:
  - The forward vector and the orientation-error metric are per-frame inputs.
  - The resulting orientation is kept as the aimed-at point.
- IEEE floating-point rounding: coordinates are exact `real`s.
- A window of zero width or height is not modelled: the division in `onMouseMove` would give Infinity or NaN there.
- A truthy callback that is not a function is not modelled: calling it would throw a TypeError.
- The iteration order of the JavaScript `Map` is not modelled. Nor are the duplicate meshes collected when registered objects are nested. The collected meshes form a set, because order and duplicates only affect how the library's raycaster orders hits at equal distance.
- Scenes with a cycle of parent links are excluded by `Acyclic`. On such a scene the source's `while` loop can run forever. `SceneGraph.SelfParentIsCyclic` shows that the exclusion covers the smallest such loop, a node that is its own parent.
- Loading manager, loading screen, progress and error handlers: DOM and UI plumbing.
- Texture, skybox and model loading: network and asset I/O.
- Star generation: random placement.
- Lights, tone mapping, the resize handler, the animation loop and the event listeners: host wiring around the modelled entry points.
- `scripts/main_s.js` has no logic of its own, and `vite.config.js` is build configuration.
- The bodies of the callbacks in `setupButtons` are logging and calls into the controller. Dispatch returns the chosen node instead of running them.
- Motion.Converges: the frame bound 1 + 1026 d comes from Bernoulli's inequality and is not tight. The exact count is one more than the least n with 0.9025^n d < 0.01, since `update` stops inside the frame whose squared gap before the step is below 0.01 (60 frames for d = 4).
