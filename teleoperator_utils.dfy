/** The teleoperator factory. */
module TeleoperatorUtils {
  import opened Wrappers
  import opened Registry

  /** `make_teleoperator_from_config` over `Teleoperator.__subclasses__()` in
      order: `Ok(i)` means the `i`-th subclass is constructed from `config`. */
  function MakeTeleoperatorFromConfig(subclasses: seq<Subclass>, config: Config): (r: Result<nat, LookupError>)
    ensures r.Ok? ==> r.value < |subclasses|
    ensures (exists j :: 0 <= j < |subclasses| && MatchesClass(subclasses[j], config)) ==>
      && r.Ok?
      && MatchesClass(subclasses[r.value], config)
      && forall j :: 0 <= j < r.value ==> !MatchesClass(subclasses[j], config)
    ensures (forall j :: 0 <= j < |subclasses| ==> !MatchesClass(subclasses[j], config)) && r.Ok? ==>
      && MatchesName(subclasses[r.value], config)
      && forall j :: 0 <= j < r.value ==> !MatchesName(subclasses[j], config)
    ensures r.Err? <==>
      && (forall j :: 0 <= j < |subclasses| ==> !MatchesClass(subclasses[j], config))
      && (forall j :: 0 <= j < |subclasses| ==> !MatchesName(subclasses[j], config))
    ensures r.Err? ==> r.error == ValueError(config.kind)
  {
    Lookup(subclasses, config)
  }
}
