/** Concrete runs of both components on small, fixed inputs. */
module Scenarios {
  import opened Wrappers
  import opened SceneGraph
  import opened Router
  import opened Vectors
  import opened Motion

  /** The scene root 0 holds a model group 1 whose geometry is the mesh 2,
      and a stand-alone mesh 3. */
  function ExampleScene(): (s: Scene)
    ensures Acyclic(s)
  {
    var s := map[0 := Node(None, false), 1 := Node(Some(0), false),
                 2 := Node(Some(1), true), 3 := Node(Some(0), true)];
    RankedIsAcyclic(s, map[0 := 0, 1 := 1, 2 := 2, 3 := 1]);
    s
  }

  /** Registering the group makes its child mesh clickable: a hit on that
      mesh fires the group, a miss fires nothing, and a mesh with no
      registered ancestor fires nothing. */
  lemma ClickOnRegisteredGroup()
    ensures Dispatch(ExampleScene(), map[1 := Handler(7)], [Hit(5.0, 2), Hit(9.0, 3)]) == Some(1)
    ensures Dispatch(ExampleScene(), map[1 := Handler(7)], []) == None
    ensures Dispatch(ExampleScene(), map[1 := Handler(7)], [Hit(2.0, 3)]) == None
    ensures Dispatch(ExampleScene(), map[1 := Falsy], [Hit(5.0, 2)]) == None
  {
    var s := ExampleScene();
    assert Parent(s, 2) == Some(1) && Parent(s, 1) == Some(0);
    assert Parent(s, 3) == Some(0) && Parent(s, 0) == None;
    var reg := map[1 := Handler(7)];
    assert Owner(s, reg, 1) == 1;
    assert Owner(s, reg, 2) == 1;
    assert Owner(s, reg, 0) == 0;
    assert Owner(s, reg, 3) == 0;
    assert Owner(s, map[1 := Falsy], 1) == 1;
    assert Owner(s, map[1 := Falsy], 2) == 1;
  }

  lemma {:induction false} PowAdd(x: real, m: nat, n: nat)
    ensures Pow(x, m + n) == Pow(x, m) * Pow(x, n)
    decreases m
  {
    if m > 0 {
      PowAdd(x, m - 1, n);
    }
  }

  /** From (0, 7, 0) toward (0, 7, -2) looking at (0, 7, -4): one frame
      moves the camera to (0, 7, -0.1), and with the orientation settled the
      move is over after 60 frames. */
  lemma FlyForward(frames: seq<Frame>)
    requires |frames| == 60
    requires forall i | 0 <= i < |frames| :: frames[i] == Frame(Vec3(0.0, 0.0, -1.0), 0.0)
    ensures
      var start := Rig(MoveTo(NewController(), 0.0, 7.0, -2.0, 0.0, 7.0, -4.0),
                       Camera(Vec3(0.0, 7.0, 0.0), Initial));
      && Update(start, frames[0]).camera.position == Vec3(0.0, 7.0, -0.1)
      && !Run(start, frames).controller.isMoving
  {
    var start := Rig(MoveTo(NewController(), 0.0, 7.0, -2.0, 0.0, 7.0, -4.0),
                     Camera(Vec3(0.0, 7.0, 0.0), Initial));
    assert DistSq(start.camera.position, start.controller.targetPosition) == 4.0;
    var x := GapSqFactor;
    assert Pow(x, 1) == x;
    PowAdd(x, 1, 1);
    PowAdd(x, 2, 2);
    PowAdd(x, 4, 4);
    PowAdd(x, 8, 8);
    PowAdd(x, 16, 16);
    PowAdd(x, 32, 16);
    PowAdd(x, 48, 8);
    PowAdd(x, 56, 2);
    PowAdd(x, 58, 1);
    assert 4.0 * Pow(x, 59) < 0.01;
    StopsWithin(start, frames);
  }
}
