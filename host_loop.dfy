/** One iteration of a teleoperation host's `while True` loop, shared by the
    single-arm Piper host and the bimanual Piper host: receive at most one
    command and forward it, run the staleness watchdog, coerce the robot's
    observation to something `json.dumps` accepts and push it, then pace the
    loop. Time is integer milliseconds; the command socket is an abstract
    per-iteration event. */
module HostLoop {
  import opened Wrappers
  import opened Json

  type Observation = map<string, Value>

  /** What `recv_string(zmq.NOBLOCK)` and `json.loads` make of the command
      socket in one iteration. */
  datatype Incoming =
    | NoMessage                // zmq.Again: nothing queued
    | NotUtf8                  // a frame arrived, but decoding it as text raised
    | Unparsable(text: string) // text arrived, json.loads raised
    | Parsed(doc: Document)    // text arrived and decoded

  /** The message reached the watchdog reset: `recv_string` returned text. */
  predicate Heard(m: Incoming)
  {
    m.Unparsable? || m.Parsed?
  }

  /** The environment of one iteration: the clock readings the loop takes
      (at the top, after the receive, before the watchdog check and before
      pacing), the command event, and what `robot.get_observation()` returns. */
  datatype Tick = Tick(
    start: int,
    received: Incoming,
    recvTime: int,
    now: int,
    observation: Observation,
    end: int)

  /** The loop-carried variables `first_command_received`, `last_cmd_time`
      and `watchdog_active`. */
  datatype Watchdog = Watchdog(firstCommandReceived: bool, lastCmdTime: int, active: bool)

  /** The watchdog before the loop starts, `t0` being the clock at start-up. */
  function Initial(t0: int): Watchdog
  {
    Watchdog(false, t0, false)
  }

  datatype StopCall = StopRobot | StopLeftArm | StopRightArm

  /** What distinguishes one host from another: the staleness threshold, the
      stop calls the watchdog makes, `max_loop_freq_hz`, and Python's `str`. */
  datatype Params = Params(
    thresholdMs: int,
    stopCalls: seq<StopCall>,
    maxLoopFreqHz: int,
    str: Value -> string)

  /** What one iteration did: the document handed to `robot.send_action` (if
      any), the stop calls made, the observation pushed, and the pacing sleep
      in seconds (`None` when computing it raised ZeroDivisionError). */
  datatype Iteration = Iteration(
    forwarded: Option<Document>,
    stops: seq<StopCall>,
    pushed: Observation,
    sleep: Option<real>)

  datatype Exit = Interrupted | Crashed
  datatype Shutdown = DisconnectRobot | DisconnectHost

  /** A whole run of `main`: the iterations, how the loop ended, and the
      cleanup calls of the `finally` block. */
  datatype Session = Session(log: seq<Iteration>, exit: Exit, shutdown: seq<Shutdown>)

  // ---------------------------------------------------------------------
  // Observation coercion

  /** The value stored for one observation entry: kept when it encodes,
      otherwise replaced by its `str`. */
  function CoerceValue(v: Value, str: Value -> string): Value
  {
    if Serializable(v) then v else Str(str(v))
  }

  /** The observation the host pushes for the robot's observation `obs`. */
  function Coerced(obs: Observation, str: Value -> string): (r: Observation)
    ensures r.Keys == obs.Keys
    ensures forall k :: k in r ==> Serializable(r[k])
    ensures forall k :: k in r ==> (r[k] == obs[k] <==> Serializable(obs[k]))
    ensures forall k :: k in r && !Serializable(obs[k]) ==> r[k] == Str(str(obs[k]))
  {
    map k | k in obs :: CoerceValue(obs[k], str)
  }

  /** The loop that fills `serializable_observation` entry by entry. */
  method CoerceObservation(obs: Observation, str: Value -> string) returns (out: Observation)
    ensures out == Coerced(obs, str)
  {
    out := map[];
    var pending := obs.Keys;
    while pending != {}
      invariant pending <= obs.Keys
      invariant out.Keys == obs.Keys - pending
      invariant forall k :: k in out ==> out[k] == CoerceValue(obs[k], str)
      decreases pending
    {
      var key :| key in pending;
      var value := obs[key];
      if Serializable(value) {
        out := out[key := value];
      } else {
        out := out[key := Str(str(value))];
      }
      pending := pending - {key};
    }
  }

  // ---------------------------------------------------------------------
  // Pacing

  function Seconds(ms: int): real
  {
    (ms as real) / 1000.0
  }

  /** `max(1 / max_loop_freq_hz - elapsed, 0)`; `None` for a zero frequency,
      where the division raises. */
  function PacingSleep(freqHz: int, elapsedMs: int): (r: Option<real>)
    ensures r.None? <==> freqHz == 0
    ensures r.Some? ==> r.value >= 0.0
    ensures r.Some? ==> (r.value == 0.0 <==> Seconds(elapsedMs) >= 1.0 / (freqHz as real))
    ensures r.Some? && r.value > 0.0 ==> Seconds(elapsedMs) + r.value == 1.0 / (freqHz as real)
  {
    if freqHz == 0 then None
    else
      var remaining := 1.0 / (freqHz as real) - Seconds(elapsedMs);
      Some(if remaining > 0.0 then remaining else 0.0)
  }

  // ---------------------------------------------------------------------
  // One iteration, as a specification

  /** Any text message resets the watchdog, before it is parsed. */
  function Receive(wd: Watchdog, tick: Tick): Watchdog
  {
    if Heard(tick.received) then Watchdog(true, tick.recvTime, false) else wd
  }

  /** The watchdog condition of the loop. */
  predicate Overdue(wd: Watchdog, now: int, thresholdMs: int)
  {
    wd.firstCommandReceived && now - wd.lastCmdTime > thresholdMs && !wd.active
  }

  function Next(wd: Watchdog, tick: Tick, p: Params): Watchdog
  {
    var w := Receive(wd, tick);
    if Overdue(w, tick.now, p.thresholdMs) then w.(active := true) else w
  }

  function Record(wd: Watchdog, tick: Tick, p: Params): Iteration
  {
    var w := Receive(wd, tick);
    Iteration(
      if tick.received.Parsed? then Some(tick.received.doc) else None,
      if Overdue(w, tick.now, p.thresholdMs) then p.stopCalls else [],
      Coerced(tick.observation, p.str),
      PacingSleep(p.maxLoopFreqHz, tick.end - tick.start))
  }

  /** The watchdog variables after the first `n` iterations. */
  function WatchdogAfter(t0: int, ticks: seq<Tick>, n: nat, p: Params): Watchdog
    requires n <= |ticks|
    decreases n
  {
    if n == 0 then Initial(t0) else Next(WatchdogAfter(t0, ticks, n - 1, p), ticks[n - 1], p)
  }

  /** The records of the first `n` iterations. */
  function Log(t0: int, ticks: seq<Tick>, n: nat, p: Params): (r: seq<Iteration>)
    requires n <= |ticks|
    ensures |r| == n
    decreases n
  {
    if n == 0 then []
    else Log(t0, ticks, n - 1, p) + [Record(WatchdogAfter(t0, ticks, n - 1, p), ticks[n - 1], p)]
  }

  /** Whether the run ends with ZeroDivisionError: the pacing of the first
      iteration divides by `max_loop_freq_hz`. */
  predicate CrashesAtFirstPacing(ticks: seq<Tick>, p: Params)
  {
    p.maxLoopFreqHz == 0 && |ticks| > 0
  }

  /** The run of the loop over `ticks`, ended by an interrupt after the last
      tick or by the exception that escapes the first iteration's pacing. */
  function Expected(t0: int, ticks: seq<Tick>, p: Params): Session
  {
    if CrashesAtFirstPacing(ticks, p) then
      Session(Log(t0, ticks, 1, p), Crashed, [DisconnectRobot, DisconnectHost])
    else
      Session(Log(t0, ticks, |ticks|, p), Interrupted, [DisconnectRobot, DisconnectHost])
  }

  /** Entry `i` of the log is iteration `i` run from the state the earlier
      iterations left. */
  lemma {:induction false} LogAt(t0: int, ticks: seq<Tick>, n: nat, p: Params, i: nat)
    requires i < n <= |ticks|
    ensures Log(t0, ticks, n, p)[i] == Record(WatchdogAfter(t0, ticks, i, p), ticks[i], p)
    decreases n
  {
    if i < n - 1 {
      LogAt(t0, ticks, n - 1, p, i);
    }
  }

  // ---------------------------------------------------------------------
  // The loop, imperatively

  /** One pass through the body of `while True`. */
  method Step(wd: Watchdog, tick: Tick, p: Params) returns (next: Watchdog, it: Iteration)
    ensures next == Next(wd, tick, p)
    ensures it == Record(wd, tick, p)
  {
    var firstCommandReceived, lastCmdTime, watchdogActive := wd.firstCommandReceived, wd.lastCmdTime, wd.active;
    var forwarded: Option<Document> := None;
    match tick.received {
      case NoMessage =>
      case NotUtf8 =>
      case Unparsable(_) =>
        firstCommandReceived, lastCmdTime, watchdogActive := true, tick.recvTime, false;
      case Parsed(doc) =>
        firstCommandReceived, lastCmdTime, watchdogActive := true, tick.recvTime, false;
        forwarded := Some(doc);
    }
    var stops: seq<StopCall> := [];
    if firstCommandReceived && tick.now - lastCmdTime > p.thresholdMs && !watchdogActive {
      watchdogActive := true;
      stops := p.stopCalls;
    }
    var pushed := CoerceObservation(tick.observation, p.str);
    var sleep := PacingSleep(p.maxLoopFreqHz, tick.end - tick.start);
    next := Watchdog(firstCommandReceived, lastCmdTime, watchdogActive);
    it := Iteration(forwarded, stops, pushed, sleep);
  }

  /** `main`'s loop from start-up to exit, with its `finally` block. */
  method Run(t0: int, ticks: seq<Tick>, p: Params) returns (s: Session)
    ensures s == Expected(t0, ticks, p)
  {
    var wd := Initial(t0);
    var log: seq<Iteration> := [];
    var exit := Interrupted;
    var n := 0;
    while n < |ticks|
      invariant 0 <= n <= |ticks|
      invariant p.maxLoopFreqHz != 0 || n == 0
      invariant wd == WatchdogAfter(t0, ticks, n, p)
      invariant log == Log(t0, ticks, n, p)
      invariant exit == Interrupted
    {
      var it;
      wd, it := Step(wd, ticks[n], p);
      log := log + [it];
      n := n + 1;
      if it.sleep.None? {
        exit := Crashed;
        break;
      }
    }
    s := Session(log, exit, [DisconnectRobot, DisconnectHost]);
  }

  // ---------------------------------------------------------------------
  // The watchdog, as a reference definition over the message history

  /** The index of the latest of the first `n` ticks whose message reset the
      watchdog. */
  function LastHeard(ticks: seq<Tick>, n: nat): (r: Option<nat>)
    requires n <= |ticks|
    ensures r.Some? ==> r.value < n && Heard(ticks[r.value].received)
    ensures r.Some? ==> forall k :: r.value < k < n ==> !Heard(ticks[k].received)
    ensures r.None? ==> forall k :: 0 <= k < n ==> !Heard(ticks[k].received)
    decreases n
  {
    if n == 0 then None
    else if Heard(ticks[n - 1].received) then Some(n - 1)
    else LastHeard(ticks, n - 1)
  }

  /** At tick `k`, more than the threshold has passed since message `j`. */
  predicate StaleAt(ticks: seq<Tick>, j: nat, k: nat, thresholdMs: int)
    requires j < |ticks| && k < |ticks|
  {
    ticks[k].now - ticks[j].recvTime > thresholdMs
  }

  /** The watchdog stops the robot at tick `i` exactly when some message has
      been heard and tick `i` is the first tick since the latest one at which
      that message is stale. */
  predicate Fires(ticks: seq<Tick>, i: nat, thresholdMs: int)
    requires i < |ticks|
  {
    match LastHeard(ticks, i + 1)
    case None => false
    case Some(j) =>
      StaleAt(ticks, j, i, thresholdMs) && forall k :: j <= k < i ==> !StaleAt(ticks, j, k, thresholdMs)
  }

  /** The loop-carried watchdog variables after `n` iterations, in terms of the
      message history alone. */
  lemma {:induction false} WatchdogAfterMatches(t0: int, ticks: seq<Tick>, n: nat, p: Params)
    requires n <= |ticks|
    ensures LastHeard(ticks, n).None? ==> WatchdogAfter(t0, ticks, n, p) == Initial(t0)
    ensures LastHeard(ticks, n).Some? ==>
      var j := LastHeard(ticks, n).value;
      var wd := WatchdogAfter(t0, ticks, n, p);
      && wd.firstCommandReceived
      && wd.lastCmdTime == ticks[j].recvTime
      && (wd.active <==> exists k :: j <= k < n && StaleAt(ticks, j, k, p.thresholdMs))
    decreases n
  {
    if n > 0 {
      WatchdogAfterMatches(t0, ticks, n - 1, p);
      var thr := p.thresholdMs;
      if Heard(ticks[n - 1].received) && StaleAt(ticks, n - 1, n - 1, thr) {
        assert n - 1 <= n - 1 < n;
      }
      if !Heard(ticks[n - 1].received) && LastHeard(ticks, n).Some? {
        var j := LastHeard(ticks, n).value;
        assert LastHeard(ticks, n - 1) == Some(j);
        var before := WatchdogAfter(t0, ticks, n - 1, p);
        var wd := WatchdogAfter(t0, ticks, n, p);
        assert wd.active == (before.active || StaleAt(ticks, j, n - 1, thr));
        if wd.active {
          if before.active {
            var k :| j <= k < n - 1 && StaleAt(ticks, j, k, thr);
            assert j <= k < n && StaleAt(ticks, j, k, thr);
          } else {
            assert j <= n - 1 < n && StaleAt(ticks, j, n - 1, thr);
          }
        } else {
          forall k | j <= k < n ensures !StaleAt(ticks, j, k, thr) {
            if k < n - 1 {
              assert !(j <= k < n - 1 && StaleAt(ticks, j, k, thr));
            }
          }
        }
      }
    }
  }

  /** Iteration `i` makes the stop calls exactly when the reference watchdog
      fires at tick `i`. */
  lemma RecordStops(t0: int, ticks: seq<Tick>, i: nat, p: Params)
    requires i < |ticks|
    ensures Record(WatchdogAfter(t0, ticks, i, p), ticks[i], p).stops
            == if Fires(ticks, i, p.thresholdMs) then p.stopCalls else []
  {
    WatchdogAfterMatches(t0, ticks, i, p);
  }

  /** What every logged iteration of a run did, tick by tick. */
  lemma {:induction false} RunIterations(t0: int, ticks: seq<Tick>, p: Params, i: nat)
    requires i < |Expected(t0, ticks, p).log|
    ensures i < |ticks|
    ensures Expected(t0, ticks, p).log[i] == Record(WatchdogAfter(t0, ticks, i, p), ticks[i], p)
    ensures Expected(t0, ticks, p).log[i].stops == if Fires(ticks, i, p.thresholdMs) then p.stopCalls else []
    ensures Expected(t0, ticks, p).log[i].forwarded
            == if ticks[i].received.Parsed? then Some(ticks[i].received.doc) else None
    ensures Expected(t0, ticks, p).log[i].pushed == Coerced(ticks[i].observation, p.str)
    ensures Expected(t0, ticks, p).log[i].sleep == PacingSleep(p.maxLoopFreqHz, ticks[i].end - ticks[i].start)
  {
    LogAt(t0, ticks, |Expected(t0, ticks, p).log|, p, i);
    RecordStops(t0, ticks, i, p);
  }

  /** The watchdog never stops the robot before a command has been received. */
  lemma NoStopBeforeFirstCommand(t0: int, ticks: seq<Tick>, p: Params, i: nat)
    requires i < |Expected(t0, ticks, p).log|
    requires Expected(t0, ticks, p).log[i].stops != []
    ensures exists j :: 0 <= j <= i && Heard(ticks[j].received)
  {
    RunIterations(t0, ticks, p, i);
  }

  /** Between two iterations that stop the robot, a message was received:
      the watchdog fires at most once per staleness episode. */
  lemma StopOncePerEpisode(t0: int, ticks: seq<Tick>, p: Params, i: nat, j: nat)
    requires i < j < |Expected(t0, ticks, p).log|
    requires Expected(t0, ticks, p).log[i].stops != []
    requires Expected(t0, ticks, p).log[j].stops != []
    ensures exists k :: i < k <= j && Heard(ticks[k].received)
  {
    RunIterations(t0, ticks, p, i);
    RunIterations(t0, ticks, p, j);
  }

  /** Once the latest message is stale, the watchdog has stopped the robot at
      some iteration since that message. */
  lemma {:induction false} StaleEpisodeStops(t0: int, ticks: seq<Tick>, p: Params, h: nat, i: nat)
    requires !CrashesAtFirstPacing(ticks, p)
    requires h <= i < |ticks|
    requires LastHeard(ticks, i + 1) == Some(h)
    requires StaleAt(ticks, h, i, p.thresholdMs)
    ensures exists k :: h <= k <= i && Expected(t0, ticks, p).log[k].stops == p.stopCalls
    decreases i
  {
    if forall k :: h <= k < i ==> !StaleAt(ticks, h, k, p.thresholdMs) {
      RunIterations(t0, ticks, p, i);
    } else {
      var k :| h <= k < i && StaleAt(ticks, h, k, p.thresholdMs);
      assert LastHeard(ticks, k + 1) == Some(h);
      StaleEpisodeStops(t0, ticks, p, h, k);
    }
  }

  /** A message that fails to parse is not forwarded, still resets the
      watchdog, and does not keep the observation from being pushed. */
  lemma MalformedCommandStillPushes(t0: int, ticks: seq<Tick>, p: Params, i: nat)
    requires i < |Expected(t0, ticks, p).log|
    requires ticks[i].received.Unparsable?
    ensures Expected(t0, ticks, p).log[i].forwarded == None
    ensures Expected(t0, ticks, p).log[i].pushed == Coerced(ticks[i].observation, p.str)
    ensures WatchdogAfter(t0, ticks, i + 1, p).lastCmdTime == ticks[i].recvTime
  {
    RunIterations(t0, ticks, p, i);
  }
}
