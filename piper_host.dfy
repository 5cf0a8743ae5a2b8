/** The single-arm Piper host script: its `main` runs the shared host loop
    with the configured watchdog timeout and stops the one robot. */
module PiperHostLoop {
  import opened Wrappers
  import opened Json
  import opened HostLoop

  /** The settings of the host that the loop reads. The ports are socket
      plumbing, and `connection_time_s` is stored but never read by the loop. */
  datatype PiperHostConfig = PiperHostConfig(watchdogTimeoutMs: int, maxLoopFreqHz: int)

  function HostParams(cfg: PiperHostConfig, str: Value -> string): Params
  {
    Params(cfg.watchdogTimeoutMs, [StopRobot], cfg.maxLoopFreqHz, str)
  }

  /** `main`: the loop from the first tick until an interrupt after the last
      one, then the `finally` block. */
  method Serve(cfg: PiperHostConfig, t0: int, ticks: seq<Tick>, str: Value -> string) returns (s: Session)
    ensures s == Expected(t0, ticks, HostParams(cfg, str))
    ensures |s.log| == (if cfg.maxLoopFreqHz == 0 && |ticks| > 0 then 1 else |ticks|)
    ensures s.exit == Crashed <==> cfg.maxLoopFreqHz == 0 && |ticks| > 0
    ensures s.shutdown == [DisconnectRobot, DisconnectHost]
    ensures forall i :: 0 <= i < |s.log| ==>
      s.log[i].stops == if Fires(ticks, i, cfg.watchdogTimeoutMs) then [StopRobot] else []
    ensures forall i :: 0 <= i < |s.log| ==>
      s.log[i].forwarded == if ticks[i].received.Parsed? then Some(ticks[i].received.doc) else None
    ensures forall i :: 0 <= i < |s.log| ==> s.log[i].pushed == Coerced(ticks[i].observation, str)
    ensures forall i :: 0 <= i < |s.log| ==>
      s.log[i].sleep == PacingSleep(cfg.maxLoopFreqHz, ticks[i].end - ticks[i].start)
  {
    s := Run(t0, ticks, HostParams(cfg, str));
    forall i | 0 <= i < |s.log|
      ensures s.log[i].stops == if Fires(ticks, i, cfg.watchdogTimeoutMs) then [StopRobot] else []
      ensures s.log[i].forwarded == if ticks[i].received.Parsed? then Some(ticks[i].received.doc) else None
      ensures s.log[i].pushed == Coerced(ticks[i].observation, str)
      ensures s.log[i].sleep == PacingSleep(cfg.maxLoopFreqHz, ticks[i].end - ticks[i].start)
    {
      RunIterations(t0, ticks, HostParams(cfg, str), i);
    }
  }

  /** With the default timeout of 500 ms: a client sends one command, then
      nothing; the first iteration more than 500 ms later stops the robot,
      and it is the only one that does. */
  lemma SilentClientStoppedOnce(t0: int, ticks: seq<Tick>, str: Value -> string, i: nat)
    requires 0 < i < |ticks|
    requires ticks[0].received.Parsed?
    requires forall k :: 0 < k < |ticks| ==> ticks[k].received == NoMessage
    requires forall k :: 0 <= k < i ==> ticks[k].now <= ticks[0].recvTime + 500
    requires ticks[i].now > ticks[0].recvTime + 500
    ensures
      var s := Expected(t0, ticks, HostParams(PiperHostConfig(500, 60), str));
      && s.log[i].stops == [StopRobot]
      && forall k :: 0 <= k < |ticks| && k != i ==> s.log[k].stops == []
  {
    var p := HostParams(PiperHostConfig(500, 60), str);
    var s := Expected(t0, ticks, p);
    assert LastHeard(ticks, i + 1) == Some(0);
    RunIterations(t0, ticks, p, i);
    forall k | 0 <= k < |ticks| && k != i
      ensures s.log[k].stops == []
    {
      RunIterations(t0, ticks, p, k);
      assert LastHeard(ticks, k + 1) == Some(0);
      if k > i {
        assert StaleAt(ticks, 0, i, 500);
      }
    }
  }
}
