/** The robot factory and the relative-target safety clamp. */
module RobotUtils {
  import opened Wrappers
  import opened Registry

  /** `make_robot_from_config` over `Robot.__subclasses__()` in order: `Ok(i)`
      means the `i`-th subclass is constructed from `config`. */
  function MakeRobotFromConfig(subclasses: seq<Subclass>, config: Config): (r: Result<nat, LookupError>)
    ensures r.Ok? ==> r.value < |subclasses|
    ensures (exists j :: 0 <= j < |subclasses| && MatchesClass(subclasses[j], config)) ==>
      && r.Ok?
      && MatchesClass(subclasses[r.value], config)
      && forall j :: 0 <= j < r.value ==> !MatchesClass(subclasses[j], config)
    ensures (forall j :: 0 <= j < |subclasses| ==> !MatchesClass(subclasses[j], config)) && r.Ok? ==>
      && MatchesName(subclasses[r.value], config)
      && forall j :: 0 <= j < r.value ==> !MatchesName(subclasses[j], config)
    ensures r.Err? <==>
      && (forall j :: 0 <= j < |subclasses| ==> !MatchesClass(subclasses[j], config))
      && (forall j :: 0 <= j < |subclasses| ==> !MatchesName(subclasses[j], config))
    ensures r.Err? ==> r.error == ValueError(config.kind)
  {
    Lookup(subclasses, config)
  }

  // ---------------------------------------------------------------------
  // ensure_safe_goal_position

  /** The `max_relative_target` argument: a float, a dictionary of floats, or
      anything else (an int, None), which the function rejects. */
  datatype MaxRelativeTarget = FloatCap(cap: real) | DictCap(caps: map<string, real>) | OtherCap

  datatype ClampError =
    | KeysMismatch    // ValueError: the dictionary's keys differ from the goals'
    | NotFloatOrDict  // TypeError(max_relative_target)

  function Min(a: real, b: real): real { if a <= b then a else b }
  function Max(a: real, b: real): real { if a >= b then a else b }

  /** One key of the clamp: `present + max(min(goal - present, cap), -cap)`. */
  function SafeGoal(goal: real, present: real, cap: real): (r: real)
    ensures cap >= 0.0 ==> present - cap <= r <= present + cap
    ensures -cap <= goal - present <= cap ==> r == goal
    ensures cap >= 0.0 && goal - present > cap ==> r == present + cap
    ensures cap >= 0.0 && goal - present < -cap ==> r == present - cap
    ensures cap < 0.0 ==> r == present - cap
  {
    var diff := goal - present;
    var safeDiff := Max(Min(diff, cap), -cap);
    present + safeDiff
  }

  /** The cap that applies to `key`. */
  function CapFor(maxRelative: MaxRelativeTarget, key: string): real
    requires maxRelative.DictCap? ==> key in maxRelative.caps
  {
    match maxRelative
    case FloatCap(c) => c
    case DictCap(caps) => caps[key]
    case OtherCap => 0.0
  }

  /** `ensure_safe_goal_position`: `goalPresent` maps each key to its
      (goal, present) pair. */
  method EnsureSafeGoalPosition(goalPresent: map<string, (real, real)>, maxRelative: MaxRelativeTarget)
    returns (r: Result<map<string, real>, ClampError>)
    ensures maxRelative.OtherCap? ==> r == Err(NotFloatOrDict)
    ensures maxRelative.DictCap? && maxRelative.caps.Keys != goalPresent.Keys ==> r == Err(KeysMismatch)
    ensures r.Ok? <==> maxRelative.FloatCap? || (maxRelative.DictCap? && maxRelative.caps.Keys == goalPresent.Keys)
    ensures r.Ok? ==> r.value.Keys == goalPresent.Keys
    ensures r.Ok? ==> forall key :: key in r.value ==>
      r.value[key] == SafeGoal(goalPresent[key].0, goalPresent[key].1, CapFor(maxRelative, key))
    ensures r.Ok? ==> forall key :: key in r.value && CapFor(maxRelative, key) >= 0.0 ==>
      goalPresent[key].1 - CapFor(maxRelative, key) <= r.value[key] <= goalPresent[key].1 + CapFor(maxRelative, key)
  {
    if maxRelative.OtherCap? {
      return Err(NotFloatOrDict);
    }
    if maxRelative.DictCap? && maxRelative.caps.Keys != goalPresent.Keys {
      return Err(KeysMismatch);
    }
    var safe: map<string, real> := map[];
    var pending := goalPresent.Keys;
    while pending != {}
      invariant pending <= goalPresent.Keys
      invariant safe.Keys == goalPresent.Keys - pending
      invariant forall key :: key in safe ==>
        safe[key] == SafeGoal(goalPresent[key].0, goalPresent[key].1, CapFor(maxRelative, key))
      decreases pending
    {
      var key :| key in pending;
      var (goalPos, presentPos) := goalPresent[key];
      var maxDiff := CapFor(maxRelative, key);
      var safeDiff := Min(goalPos - presentPos, maxDiff);
      safeDiff := Max(safeDiff, -maxDiff);
      safe := safe[key := presentPos + safeDiff];
      pending := pending - {key};
    }
    r := Ok(safe);
  }
}
