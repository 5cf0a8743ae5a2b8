/** The bimanual Piper host script: its `main` runs the shared host loop with
    a staleness threshold fixed in the code and stops both arms. */
module BimanualHostLoop {
  import opened Wrappers
  import opened Json
  import opened HostLoop

  /** The threshold written into the loop: 50,000,000 seconds. */
  const WatchdogThresholdMs: int := 50_000_000 * 1000

  /** The one setting of the script that the loop reads. The arm ports and
      socket ports are configuration of collaborators; there is no watchdog
      setting. */
  datatype BimanualHostConfig = BimanualHostConfig(maxLoopFreqHz: int)

  function HostParams(cfg: BimanualHostConfig, str: Value -> string): Params
  {
    Params(WatchdogThresholdMs, [StopLeftArm, StopRightArm], cfg.maxLoopFreqHz, str)
  }

  /** `main`: the loop from the first tick until an interrupt after the last
      one, then the `finally` block. */
  method Serve(cfg: BimanualHostConfig, t0: int, ticks: seq<Tick>, str: Value -> string) returns (s: Session)
    ensures s == Expected(t0, ticks, HostParams(cfg, str))
    ensures |s.log| == (if cfg.maxLoopFreqHz == 0 && |ticks| > 0 then 1 else |ticks|)
    ensures s.exit == Crashed <==> cfg.maxLoopFreqHz == 0 && |ticks| > 0
    ensures s.shutdown == [DisconnectRobot, DisconnectHost]
    ensures forall i :: 0 <= i < |s.log| ==>
      s.log[i].stops == if Fires(ticks, i, WatchdogThresholdMs) then [StopLeftArm, StopRightArm] else []
    ensures forall i :: 0 <= i < |s.log| ==>
      s.log[i].forwarded == if ticks[i].received.Parsed? then Some(ticks[i].received.doc) else None
    ensures forall i :: 0 <= i < |s.log| ==> s.log[i].pushed == Coerced(ticks[i].observation, str)
    ensures forall i :: 0 <= i < |s.log| ==>
      s.log[i].sleep == PacingSleep(cfg.maxLoopFreqHz, ticks[i].end - ticks[i].start)
  {
    s := Run(t0, ticks, HostParams(cfg, str));
    forall i | 0 <= i < |s.log|
      ensures s.log[i].stops == if Fires(ticks, i, WatchdogThresholdMs) then [StopLeftArm, StopRightArm] else []
      ensures s.log[i].forwarded == if ticks[i].received.Parsed? then Some(ticks[i].received.doc) else None
      ensures s.log[i].pushed == Coerced(ticks[i].observation, str)
      ensures s.log[i].sleep == PacingSleep(cfg.maxLoopFreqHz, ticks[i].end - ticks[i].start)
    {
      RunIterations(t0, ticks, HostParams(cfg, str), i);
    }
  }

  /** While every tick's clock stays within 50,000,000 seconds of the receipt
      of every earlier message, no arm is ever stopped, whatever the
      configuration. A tick that heard nothing has no receipt time. */
  lemma NoStopWithinFixedThreshold(cfg: BimanualHostConfig, t0: int, ticks: seq<Tick>, str: Value -> string, i: nat)
    requires i < |Expected(t0, ticks, HostParams(cfg, str)).log|
    requires forall j, k :: 0 <= j <= k < |ticks| && Heard(ticks[j].received) ==>
      ticks[k].now - ticks[j].recvTime <= WatchdogThresholdMs
    ensures Expected(t0, ticks, HostParams(cfg, str)).log[i].stops == []
  {
    RunIterations(t0, ticks, HostParams(cfg, str), i);
  }
}
