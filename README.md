# Piper teleoperation bridge, modelled in Dafny

This project models the decision logic of the LeRobot teleoperation bridge for
the AgileX Piper arm. A host process runs next to the robot. It pulls
JSON-encoded action commands from a client, forwards them to the robot driver,
runs a staleness watchdog that stops the robot when commands stop arriving,
pushes the latest observation back, and paces itself to a target loop
frequency. Around that loop sit the following parts:

- the device factories, which pick a robot or teleoperator class from a
  configuration;
- the relative-target safety clamp;
- the Piper driver's mapping from an action dictionary to the seven joint
  positions handed to the vendor SDK;
- the client's connect/disconnect state machine;
- the bimanual SO101 leader, which combines two leader arms into one
  teleoperator with `left_`/`right_`-prefixed keys.

Layout, one module per source file:

| file | module | models |
|---|---|---|
| `wrappers.dfy` | `Wrappers` | `Option`, `Result`, `Outcome` |
| `errors.dfy` | `Errors` | the device errors raised by connect and disconnect |
| `json.dfy` | `Json` | JSON-like values; `Serializable` (what `json.dumps` accepts) |
| `host_loop.dfy` | `HostLoop` | the loop body both host scripts share, as a specification and as imperative `Step`/`Run` methods proved equal to it |
| `piper_host.dfy` | `PiperHostLoop` | the single-arm host's `main` |
| `bimanual_piper_host.dfy` | `BimanualHostLoop` | the bimanual host's `main` |
| `registry.dfy` | `Registry` | the two-pass find-first search both factories perform |
| `robot_utils.dfy` | `RobotUtils` | `make_robot_from_config`, `ensure_safe_goal_position` |
| `teleoperator_utils.dfy` | `TeleoperatorUtils` | `make_teleoperator_from_config` |
| `piper.dfy` | `PiperDriver` | the `Piper` driver class |
| `piper_client.dfy` | `PiperClientModel` | the `PiperClient` class |
| `bimanual_so101_leader.dfy` | `BimanualLeader` | the `BimanualSO101Leader` class |

Time is integer milliseconds. Each loop iteration takes its clock readings
from the `Tick` it is given. A tick also carries the command-socket event
(nothing queued, an undecodable frame, text that does not parse, or a parsed
document) and the robot's observation. Python's `str` is a parameter of the
model. Floats are `real`.

Points where the code's behaviour is easy to misread:

- **Any text message resets the watchdog.** `last_cmd_time` and
  `watchdog_active` are reset before `json.loads` runs
  (src/lerobot/robots/piper/piper_host.py:68-71), so a message that fails to
  parse still counts as a heartbeat (`MalformedCommandStillPushes`). A frame
  that cannot be decoded as text raises inside `recv_string`, before the
  reset, so it does not count.
- **The parsed document is forwarded unfiltered.** It is handed to
  `send_action` as `json.loads` returned it.
- **The bimanual host's threshold is fixed.** It is 50,000,000 seconds and
  cannot be configured.
- **`max_loop_freq_hz = 0` crashes the loop.** The division raises
  ZeroDivisionError, which is neither caught nor interrupted. It escapes after
  the first iteration's observation push, and then the `finally` block runs.

## Model

| member | source | states |
|---|---|---|
| HostLoop.Coerced | src/lerobot/robots/piper/piper_host.py:89-96 | the pushed observation has exactly the robot observation's keys and only JSON-encodable values; an entry is kept unchanged exactly when it encodes, and otherwise becomes `str(value)` |
| HostLoop.CoerceObservation | src/lerobot/robots/piper/piper_host.py:90-96 | the key-by-key loop that fills `serializable_observation` builds exactly `Coerced` |
| HostLoop.PacingSleep | src/lerobot/robots/piper/piper_host.py:109-111 | computing the sleep fails exactly when the frequency is 0; otherwise the sleep is never negative, is 0 exactly when the iteration took at least one period, and when positive it tops the elapsed time up to exactly one period |
| HostLoop.LogAt | src/lerobot/robots/piper/piper_host.py:59-111 | entry `i` of the run's log is iteration `i` run from the watchdog state the earlier iterations left |
| HostLoop.Step | src/lerobot/robots/piper/piper_host.py:60-111 | one pass of the loop body: receive and reset, forward a parsed document, run the watchdog, coerce and push the observation, compute the sleep; the new watchdog variables and the iteration's effects equal the specification `Next`/`Record` |
| HostLoop.Run | src/lerobot/robots/piper/piper_host.py:53-118 | `main` from the watchdog's initial state until the interrupt (or the ZeroDivisionError of a zero frequency after the first push), then `robot.disconnect()` and `host.disconnect()` in that order, equals the specification `Expected` |
| HostLoop.LastHeard | src/lerobot/robots/piper/piper_host.py:62-69 | the latest tick whose message reached the watchdog reset: it was heard, and no later tick was; `None` exactly when no tick was heard |
| HostLoop.WatchdogAfterMatches | src/lerobot/robots/piper/piper_host.py:53-87 | before any message the watchdog variables keep their start values; afterwards `first_command_received` holds, `last_cmd_time` is the latest message's receipt time, and `watchdog_active` holds exactly when some tick since that message was stale |
| HostLoop.RecordStops | src/lerobot/robots/piper/piper_host.py:81-87 | an iteration makes the stop calls exactly when it is the first tick since the latest message at which that message is more than the threshold old (strictly) |
| HostLoop.RunIterations | src/lerobot/robots/piper/piper_host.py:61-111 | every iteration of a run forwards exactly its parsed document, stops exactly when the watchdog fires, pushes the coerced observation, and sleeps by the pacing rule |
| HostLoop.NoStopBeforeFirstCommand | src/lerobot/robots/piper/piper_host.py:82 | an iteration that stops the robot comes at or after a received message |
| HostLoop.StopOncePerEpisode | src/lerobot/robots/piper/piper_host.py:82-87 | between two iterations that stop the robot a message was received: the watchdog stops at most once per staleness episode |
| HostLoop.StaleEpisodeStops | src/lerobot/robots/piper/piper_host.py:81-87 | once the latest message is stale at some tick, the robot has been stopped at some iteration between that message and that tick |
| HostLoop.MalformedCommandStillPushes | src/lerobot/robots/piper/piper_host.py:61-106 | a message that does not parse is not forwarded, still resets `last_cmd_time`, and the iteration still pushes the coerced observation |
| PiperHostLoop.Serve | src/lerobot/robots/piper/piper_host.py:43-118 | the single-arm host stops the robot once per firing of the watchdog at `watchdog_timeout_ms`, forwards every parsed command, pushes every coerced observation, runs until interrupted unless the frequency is 0, and always disconnects robot then host |
| PiperHostLoop.SilentClientStoppedOnce | src/lerobot/robots/piper/piper_host.py:81-87 | with the default 500 ms timeout, a client that sends one command and goes silent is stopped exactly once, at the first tick more than 500 ms later |
| BimanualHostLoop.Serve | src/lerobot/robots/bimanual_piper_follower/bimanual_piper_host.py:45-125 | the bimanual host behaves like the single-arm one with a fixed 50,000,000-second threshold, and stops the left arm then the right arm each time the watchdog fires |
| BimanualHostLoop.NoStopWithinFixedThreshold | src/lerobot/robots/bimanual_piper_follower/bimanual_piper_host.py:89-97 | while no tick is more than 50,000,000 seconds after a message, no arm is ever stopped |
| Registry.FirstWhere | src/lerobot/robots/utils.py:39-43 | one pass returns the first subclass, in order, that matches, and finds none exactly when no subclass matches |
| Registry.Lookup | src/lerobot/robots/utils.py:39-54 | the first subclass, in order, whose `config_class` is the configuration's class; only when there is none, the first whose `name` is the configuration's `type`; ValueError(config.type) exactly when neither pass finds one |
| RobotUtils.MakeRobotFromConfig | src/lerobot/robots/utils.py:28-54 | the first subclass whose `config_class` is the configuration's class wins; the name pass is used only when there is none, and its first match wins; ValueError(config.type) exactly when both passes fail |
| RobotUtils.SafeGoal | src/lerobot/robots/utils.py:74-78 | for a non-negative cap the safe goal is within the cap of the present position; it is the goal itself when the goal is within the cap, and otherwise present ± cap on the goal's side; a negative cap gives present − cap |
| RobotUtils.EnsureSafeGoalPosition | src/lerobot/robots/utils.py:57-92 | TypeError for a cap that is neither float nor dict; ValueError for a dict whose keys differ from the goals'; otherwise the result has exactly the goals' keys, each clamped by `SafeGoal` with its cap |
| TeleoperatorUtils.MakeTeleoperatorFromConfig | src/lerobot/teleoperators/utils.py:23-43 | the same two-pass search over the teleoperator subclasses: first `config_class` match, else first `name` match, else ValueError(config.type), exactly when both fail |
| PiperDriver.MotorsFeatures | src/lerobot/robots/piper/piper.py:31-33 | one `float` entry per joint key `joint_0.pos` … `joint_6.pos`, and nothing else |
| PiperDriver.CamerasFeatures | src/lerobot/robots/piper/piper.py:35-37 | one `(height, width, 3)` entry per camera, and nothing else |
| PiperDriver.JointPositions | src/lerobot/robots/piper/piper.py:84-92 | seven positions; slot `i` takes its teleoperator-style name when the action has it, else `joint_i.pos`, else `None`, with 0 instead of `None` for slot 3, which has no name |
| PiperDriver.JointKeySpelling | src/lerobot/robots/piper/piper.py:33 | the key of slot `i` is spelled `joint_<i>.pos` |
| PiperDriver.JointKeyInjective | src/lerobot/robots/piper/piper.py:33 | distinct slots have distinct keys |
| PiperDriver.ActionFeaturesAreSevenJoints | src/lerobot/robots/piper/piper.py:32-45 | the action features are exactly `joint_0.pos` … `joint_6.pos` |
| PiperDriver.StopCommandsStatusJoints | src/lerobot/robots/piper/piper.py:97-99 | a status with the seven joint keys and no teleoperator-style names is commanded back as its own joint values |
| PiperDriver.Piper.constructor | src/lerobot/robots/piper/piper.py:26-29 | a new driver holds its cameras and the SDK's status and has commanded nothing |
| PiperDriver.Piper.ObservationFeatures | src/lerobot/robots/piper/piper.py:39-41 | the joint keys and the camera names; cameras map to their shapes, and a camera named like a joint replaces it |
| PiperDriver.Piper.ActionFeatures | src/lerobot/robots/piper/piper.py:43-45 | exactly the seven `float` joint keys |
| PiperDriver.Piper.IsConnected | src/lerobot/robots/piper/piper.py:47-50 | always true |
| PiperDriver.Piper.IsCalibrated | src/lerobot/robots/piper/piper.py:63-65 | always true |
| PiperDriver.Piper.GetObservation | src/lerobot/robots/piper/piper.py:73-78 | the SDK's status with each camera's frame added under the camera's name, frames replacing status entries of the same name |
| PiperDriver.Piper.SendAction | src/lerobot/robots/piper/piper.py:80-95 | the SDK is commanded `JointPositions(action)`, and the action is returned unchanged |
| PiperDriver.Piper.Stop | src/lerobot/robots/piper/piper.py:97-99 | the SDK is commanded `JointPositions` of its own current status |
| PiperClientModel.PiperClient.constructor | src/lerobot/robots/piper/piper_client.py:12-18 | a new client is not connected and has no sockets |
| PiperClientModel.PiperClient.IsConnected | src/lerobot/robots/piper/piper_client.py:28-30 | reports exactly the connected flag |
| PiperClientModel.PiperClient.Connect | src/lerobot/robots/piper/piper_client.py:32-57 | when connected: DeviceAlreadyConnectedError and nothing changes; otherwise fresh open sockets (an earlier open set is abandoned), and it connects exactly when the first observation arrives within `connect_timeout_s` seconds, else DeviceNotConnectedError with the client left disconnected |
| PiperClientModel.PiperClient.Disconnect | src/lerobot/robots/piper/piper_client.py:59-63 | before any connect the socket fields do not exist (AttributeError) and nothing changes; otherwise the sockets are closed and the client is not connected |
| PiperClientModel.ConnectTwice | src/lerobot/robots/piper/piper_client.py:35-57 | on a new client, a second connect after a successful one fails with DeviceAlreadyConnectedError; after a failed one it is a fresh attempt |
| BimanualLeader.ReplaceAll | src/lerobot/teleoperators/bimanual_so101_leader/bimanual_so101_leader.py:78-79 | `key.replace(prefix, "")` never lengthens the key |
| BimanualLeader.ReplaceAllShortens | src/lerobot/teleoperators/bimanual_so101_leader/bimanual_so101_leader.py:78-79 | `key.replace(prefix, "")` shortens the key whenever the prefix occurs in it |
| BimanualLeader.ReplaceAllAbsent | src/lerobot/teleoperators/bimanual_so101_leader/bimanual_so101_leader.py:78 | removing a pattern that does not occur leaves the key unchanged |
| BimanualLeader.ReplaceAllPrefixed | src/lerobot/teleoperators/bimanual_so101_leader/bimanual_so101_leader.py:78-79 | stripping the prefix from a prefixed arm key that does not contain the prefix gives back the arm key |
| BimanualLeader.Prefixed | src/lerobot/teleoperators/bimanual_so101_leader/bimanual_so101_leader.py:31-32 | every arm entry appears under prefix + key with its value, and every key is such a prefixed arm key |
| BimanualLeader.Merge | src/lerobot/teleoperators/bimanual_so101_leader/bimanual_so101_leader.py:27-35 | `left_`+k holds the left arm's value for k, `right_`+k the right arm's, and there is no other key |
| BimanualLeader.MergeSize | src/lerobot/teleoperators/bimanual_so101_leader/bimanual_so101_leader.py:66-74 | the combined map has \|left\| + \|right\| entries: no key of one arm hides a key of the other |
| BimanualLeader.CopyPrefixed | src/lerobot/teleoperators/bimanual_so101_leader/bimanual_so101_leader.py:70-71 | one copying loop adds exactly the arm's prefixed entries to the dictionary being filled |
| BimanualLeader.Combine | src/lerobot/teleoperators/bimanual_so101_leader/bimanual_so101_leader.py:69-74 | the two copying loops, left then right, build exactly `Merge` |
| BimanualLeader.Split | src/lerobot/teleoperators/bimanual_so101_leader/bimanual_so101_leader.py:78-79 | the arm's feedback holds exactly the keys of the items that start with the prefix, each with every occurrence of the prefix removed |
| BimanualLeader.SplitLastWins | src/lerobot/teleoperators/bimanual_so101_leader/bimanual_so101_leader.py:78-79 | every feedback item whose key starts with the prefix reaches the arm under its key with every occurrence of the prefix removed, and each arm key carries the value of the last item that strips to it |
| BimanualLeader.SplitRecoversArm | src/lerobot/teleoperators/bimanual_so101_leader/bimanual_so101_leader.py:70-79 | splitting a combined map, in any iteration order, gives back each arm's map when no arm key contains its own prefix |
| BimanualLeader.SplitRemovesEveryOccurrence | src/lerobot/teleoperators/bimanual_so101_leader/bimanual_so101_leader.py:78 | `left_a_left_b` reaches the left arm as `a_b`, not `a_left_b` |
| BimanualLeader.BimanualSO101Leader.constructor | src/lerobot/teleoperators/bimanual_so101_leader/bimanual_so101_leader.py:20-24 | both arms start disconnected, with their features and calibration, and with no feedback |
| BimanualLeader.BimanualSO101Leader.ActionFeatures | src/lerobot/teleoperators/bimanual_so101_leader/bimanual_so101_leader.py:26-35 | the arms' action features combined by `Merge` |
| BimanualLeader.BimanualSO101Leader.FeedbackFeatures | src/lerobot/teleoperators/bimanual_so101_leader/bimanual_so101_leader.py:37-39 | empty |
| BimanualLeader.BimanualSO101Leader.IsConnected | src/lerobot/teleoperators/bimanual_so101_leader/bimanual_so101_leader.py:41-43 | both arms are connected |
| BimanualLeader.BimanualSO101Leader.IsCalibrated | src/lerobot/teleoperators/bimanual_so101_leader/bimanual_so101_leader.py:54-56 | both arms are calibrated |
| BimanualLeader.BimanualSO101Leader.GetAction | src/lerobot/teleoperators/bimanual_so101_leader/bimanual_so101_leader.py:66-74 | the arms' actions combined by `Merge` |
| BimanualLeader.BimanualSO101Leader.SendFeedback | src/lerobot/teleoperators/bimanual_so101_leader/bimanual_so101_leader.py:76-81 | each arm receives the split of the feedback by its own prefix |
| BimanualLeader.BimanualSO101Leader.Connect | src/lerobot/teleoperators/bimanual_so101_leader/bimanual_so101_leader.py:45-52 | DeviceAlreadyConnectedError, with nothing changed, when both arms are connected; otherwise both arms end up connected, and `calibrate` is handed to the arms, whose calibration flags may then change |
| BimanualLeader.BimanualSO101Leader.Disconnect | src/lerobot/teleoperators/bimanual_so101_leader/bimanual_so101_leader.py:83-89 | DeviceNotConnectedError, with nothing changed, unless both arms are connected; otherwise both arms end up disconnected |

## Left out

- ZMQ sockets, contexts, bind/connect, conflation, non-blocking send and the poller are network plumbing. The command socket is a per-tick event and the client's handshake is the arrival time of the first observation.
- Dropping an observation when no client is connected (`zmq.Again` on send) has no effect on the loop's state, so the model records the push unconditionally.
- JSON text is not modelled. That covers the wire encoding, key order and the `json.loads` grammar. Values nested as JSON objects inside an observation are not represented. `Opaque` stands for any value `json.dumps` refuses (an image array, say).
- Float timing is left out. The watchdog compares integer milliseconds rather than float seconds, and `time.sleep` is not executed; the model records the sleep it would request.
- The safety clamp works on `real`, so float rounding is not modelled. The clamp's logging of its warning dictionary is left out too.
- All logging and console messages are left out.
- `connection_time_s` is stored by the host but never read, so there is no duration-based exit.
- An exception raised by `robot.get_observation()` or `robot.stop()`, or an interrupt in the middle of an iteration, is left out. Interrupts are modelled as arriving between iterations only.
- An action document that is not a JSON object makes `send_action` raise, and the loop's generic handler catches it. The model records the document as forwarded and does not model that failed call.
- `Piper.connect`, `disconnect`, `configure` and `calibrate`, the cameras and the vendor SDK are external collaborators. The SDK is reduced to its reported status and the positions last commanded.
- `BimanualLeader.BimanualSO101Leader.Connect`: assumes each arm's own `connect` succeeds. What `calibrate=True` does inside an arm is not modelled: the calibration flags are left unconstrained after a successful connect. An error raised by an SO101Leader arm (for instance, one arm already connected) is not modelled, because SO101Leader is not part of this model. The same goes for `Disconnect`, and for `calibrate` and `configure`, which only delegate to the arms.
- `PiperClientModel.PiperClient.Connect`: the timeout is a natural number. A negative `connect_timeout_s` would make the poll wait without bound.
- `PiperClientModel.PiperClient.Disconnect`: a second `disconnect` closes already-closed sockets again, which ZMQ accepts, so it is modelled as succeeding.
- `PiperClient.observation_features` and `action_features` read `_state_ft`/`_cameras_ft`, which the class never defines, so they have no meaning to model.
- `teleoperate.py`, the configuration dataclasses and the package `__init__` files are CLI wiring and declarations.
