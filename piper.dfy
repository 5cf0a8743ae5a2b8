/** The Piper arm driver: its feature maps, and the mapping from an action
    dictionary to the seven joint positions handed to the vendor SDK. The SDK
    is reduced to the status it reports and the positions last commanded. */
module PiperDriver {
  import opened Wrappers
  import opened Json

  /** `f"joint_{i}.pos"` for a one-digit `i`. */
  function JointKey(i: nat): string
    requires i < 10
  {
    "joint_" + [('0' as int + i) as char] + ".pos"
  }

  /** The teleoperator-style key that slot `i` of the position list reads
      first; slot 3 has none. */
  const Aliases: seq<Option<string>> := [
    Some("shoulder_pan"), Some("shoulder_lift"), Some("elbow_flex"), None,
    Some("wrist_flex"), Some("wrist_roll"), Some("gripper")]

  /** A feature's description: the `float` type, or an image shape. */
  datatype Feature = FloatType | ImageShape(height: nat, width: nat, channels: nat)

  /** What the driver reads from a configured camera. */
  datatype CameraInfo = CameraInfo(height: nat, width: nat)

  /** `_motors_ft`, which is also `action_features`. */
  function MotorsFeatures(): (r: map<string, Feature>)
    ensures forall i :: 0 <= i < 7 ==> JointKey(i) in r && r[JointKey(i)] == FloatType
    ensures forall k :: k in r ==> exists i :: 0 <= i < 7 && k == JointKey(i)
  {
    map i | 0 <= i < 7 :: JointKey(i) := FloatType
  }

  /** `_cameras_ft`: one (height, width, 3) entry per camera. */
  function CamerasFeatures(cameras: map<string, CameraInfo>): (r: map<string, Feature>)
    ensures r.Keys == cameras.Keys
    ensures forall cam :: cam in r ==> r[cam] == ImageShape(cameras[cam].height, cameras[cam].width, 3)
  {
    map cam | cam in cameras :: ImageShape(cameras[cam].height, cameras[cam].width, 3)
  }

  /** `Get(d, key, default)` is `d.get(key, default)`. */
  function Get(d: Fields, key: string, default: Value): Value
  {
    if key in d then d[key] else default
  }

  /** The `positions` list that `send_action` builds; Python's None is `Null`. */
  function JointPositions(action: Fields): (r: seq<Value>)
    ensures |r| == 7
    ensures forall i :: 0 <= i < 7 && Aliases[i].Some? && Aliases[i].value in action ==>
      r[i] == action[Aliases[i].value]
    ensures forall i :: 0 <= i < 7 && (Aliases[i].None? || Aliases[i].value !in action) ==>
      r[i] == Get(action, JointKey(i), if i == 3 then Int(0) else Null)
  {
    [
      Get(action, "shoulder_pan", Get(action, JointKey(0), Null)),
      Get(action, "shoulder_lift", Get(action, JointKey(1), Null)),
      Get(action, "elbow_flex", Get(action, JointKey(2), Null)),
      Get(action, JointKey(3), Int(0)),
      Get(action, "wrist_flex", Get(action, JointKey(4), Null)),
      Get(action, "wrist_roll", Get(action, JointKey(5), Null)),
      Get(action, "gripper", Get(action, JointKey(6), Null))
    ]
  }

  /** The seven keys, as the source spells them. */
  const SpelledJointKeys: seq<string> := ["joint_0.pos", "joint_1.pos", "joint_2.pos", "joint_3.pos",
                                          "joint_4.pos", "joint_5.pos", "joint_6.pos"]

  lemma {:induction false} JointKeySpelling(i: nat)
    requires i < 7
    ensures JointKey(i) == SpelledJointKeys[i]
  {
  }

  /** Distinct slots have distinct keys. */
  lemma JointKeyInjective(i: nat, j: nat)
    requires i < 7 && j < 7 && JointKey(i) == JointKey(j)
    ensures i == j
  {
    assert JointKey(i)[6] == JointKey(j)[6];
  }

  /** The action features are exactly `joint_0.pos` .. `joint_6.pos`. */
  lemma ActionFeaturesAreSevenJoints()
    ensures forall k :: k in MotorsFeatures() <==> k in SpelledJointKeys
  {
    forall i | 0 <= i < 7 ensures JointKey(i) == SpelledJointKeys[i] {
      JointKeySpelling(i);
    }
  }

  /** A status in joint form is commanded back as its joint values: when no
      teleoperator-style key is present, slot `i` is `joint_i.pos`, and slot 3
      falls back to 0. */
  lemma StopCommandsStatusJoints(status: Fields)
    requires forall i :: 0 <= i < 7 && Aliases[i].Some? ==> Aliases[i].value !in status
    requires forall i :: 0 <= i < 7 ==> JointKey(i) in status
    ensures JointPositions(status) == seq(7, i requires 0 <= i < 7 => status[JointKey(i)])
  {
  }

  /** The Piper driver. `status` is what the SDK's `get_status()` reports;
      `commanded` is the list last given to `set_joint_positions`. */
  class Piper {
    const cameras: map<string, CameraInfo>
    var status: Fields
    var commanded: seq<Value>

    constructor (cameras: map<string, CameraInfo>, status: Fields)
      ensures this.cameras == cameras && this.status == status && commanded == []
    {
      this.cameras := cameras;
      this.status := status;
      commanded := [];
    }

    /** `{**_motors_ft, **_cameras_ft}`: a camera named like a joint replaces it. */
    function ObservationFeatures(): (r: map<string, Feature>)
      ensures r.Keys == MotorsFeatures().Keys + cameras.Keys
      ensures forall cam :: cam in cameras ==> r[cam] == ImageShape(cameras[cam].height, cameras[cam].width, 3)
      ensures forall k :: k in r && k !in cameras ==> r[k] == FloatType
    {
      MotorsFeatures() + CamerasFeatures(cameras)
    }

    function ActionFeatures(): (r: map<string, Feature>)
      ensures forall i :: 0 <= i < 7 ==> JointKey(i) in r && r[JointKey(i)] == FloatType
      ensures forall k :: k in r ==> exists i :: 0 <= i < 7 && k == JointKey(i)
    {
      MotorsFeatures()
    }

    /** The driver reports itself connected once the SDK is up. */
    function IsConnected(): (r: bool)
      ensures r
    {
      true
    }

    function IsCalibrated(): (r: bool)
      ensures r
    {
      true
    }

    /** `get_observation`: the SDK's status with each camera's latest frame,
        `read(cam)`, added under the camera's name; a frame replaces a status
        entry of the same name. */
    function GetObservation(read: string -> Value): (r: Fields)
      reads this
      ensures r.Keys == status.Keys + cameras.Keys
      ensures forall cam :: cam in cameras ==> r[cam] == read(cam)
      ensures forall k :: k in status && k !in cameras ==> r[k] == status[k]
    {
      status + map cam | cam in cameras :: read(cam)
    }

    method SendAction(action: Fields) returns (sent: Fields)
      modifies this`commanded
      ensures commanded == JointPositions(action)
      ensures sent == action
    {
      var positions := JointPositions(action);
      commanded := positions;
      sent := action;
    }

    /** Re-sends the SDK's current status as the action. */
    method Stop()
      modifies this`commanded
      ensures commanded == JointPositions(status)
    {
      var currentPos := status;
      var _ := SendAction(currentPos);
    }
  }
}
