/** The named camera views of `CameraController` and the moves toward them. */
module Presets {
  import opened Wrappers
  import opened Vectors
  import opened Motion

  datatype Preset = Preset(position: Vec3, lookAt: Vec3)

  /** `setupCameraAngles`: the four fixed views. */
  function SetupCameraAngles(): (angles: map<string, Preset>)
    ensures angles.Keys == {"default", "building", "photoCloseup", "screenView"}
    ensures angles["default"] == Preset(Vec3(0.0, 7.0, 0.0), Vec3(0.0, 7.0, -2.0))
    ensures angles["building"] == Preset(Vec3(0.0, 7.0, 5.0), Vec3(0.0, 6.0, 0.0))
    ensures angles["photoCloseup"] == Preset(Vec3(0.0, 6.5, 1.0), Vec3(0.0, 6.5, 0.0))
    ensures angles["screenView"] == Preset(Vec3(0.0, 7.3, 20.0), Vec3(0.0, 7.0, -1.0))
  {
    map[]
    ["default" := Preset(Vec3(0.0, 7.0, 0.0), Vec3(0.0, 7.0, -2.0))]
    ["building" := Preset(Vec3(0.0, 7.0, 5.0), Vec3(0.0, 6.0, 0.0))]
    ["photoCloseup" := Preset(Vec3(0.0, 6.5, 1.0), Vec3(0.0, 6.5, 0.0))]
    ["screenView" := Preset(Vec3(0.0, 7.3, 20.0), Vec3(0.0, 7.0, -1.0))]
  }

  /** `moveToAngle`: a known view becomes the target and is returned; an
      unknown name returns nothing and leaves the controller as it was. */
  function MoveToAngle(c: Controller, name: string, duration: real := 1000.0): (r: (Controller, Option<Preset>))
    ensures name in SetupCameraAngles() ==>
      var view := SetupCameraAngles()[name];
      && r.1 == Some(view)
      && r.0.targetPosition == view.position
      && r.0.targetLookAt == view.lookAt
      && r.0.isMoving
    ensures name !in SetupCameraAngles() ==> r == (c, None)
  {
    var angles := SetupCameraAngles();
    if name in angles then
      var a := angles[name];
      (MoveTo(c, a.position.x, a.position.y, a.position.z,
              a.lookAt.x, a.lookAt.y, a.lookAt.z, duration), Some(a))
    else
      (c, None)
  }

  /** Moving to a named view is the same as `moveTo` with its stored values,
      whatever move was in flight and whatever duration was asked for. */
  lemma MoveToAngleIsMoveTo(c: Controller, name: string, duration: real)
    requires name in SetupCameraAngles()
    ensures var v := SetupCameraAngles()[name];
      MoveToAngle(c, name, duration).0
      == MoveTo(c, v.position.x, v.position.y, v.position.z, v.lookAt.x, v.lookAt.y, v.lookAt.z)
  {
  }

  /** `toDefaultView`. */
  function ToDefaultView(c: Controller): (r: (Controller, Option<Preset>))
    ensures r.0 == MoveTo(c, 0.0, 7.0, 0.0, 0.0, 7.0, -2.0) && r.1 == Some(SetupCameraAngles()["default"])
  {
    MoveToAngle(c, "default")
  }

  /** `toBuildingView`. */
  function ToBuildingView(c: Controller): (r: (Controller, Option<Preset>))
    ensures r.0 == MoveTo(c, 0.0, 7.0, 5.0, 0.0, 6.0, 0.0) && r.1 == Some(SetupCameraAngles()["building"])
  {
    MoveToAngle(c, "building")
  }

  /** `toPhotoCloseup`. */
  function ToPhotoCloseup(c: Controller): (r: (Controller, Option<Preset>))
    ensures r.0 == MoveTo(c, 0.0, 6.5, 1.0, 0.0, 6.5, 0.0) && r.1 == Some(SetupCameraAngles()["photoCloseup"])
  {
    MoveToAngle(c, "photoCloseup")
  }

  /** `toScreenView`. */
  function ToScreenView(c: Controller): (r: (Controller, Option<Preset>))
    ensures r.0 == MoveTo(c, 0.0, 7.3, 20.0, 0.0, 7.0, -1.0) && r.1 == Some(SetupCameraAngles()["screenView"])
  {
    MoveToAngle(c, "screenView")
  }
}
