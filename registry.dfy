/** The lookup that both device factories perform over the subclasses of a
    base class: the first subclass whose `config_class` is the class of the
    configuration, otherwise the first whose `name` is the configuration's
    `type`, otherwise ValueError. */
module Registry {
  import opened Wrappers

  /** A subclass as the factory sees it: its `config_class` and `name` class
      attributes, `None` where `getattr` falls back to its default. */
  datatype Subclass = Subclass(configClass: Option<string>, name: Option<string>)

  /** A configuration object: the name of its class and its `type`. */
  datatype Config = Config(cls: string, kind: Option<string>)

  /** `ValueError(config.type)`. */
  datatype LookupError = ValueError(kind: Option<string>)

  /** `getattr(cls, "config_class", None) == config.__class__` */
  predicate MatchesClass(c: Subclass, config: Config)
  {
    c.configClass == Some(config.cls)
  }

  /** `getattr(cls, "name", None) == config.type`; two absent names compare equal. */
  predicate MatchesName(c: Subclass, config: Config)
  {
    c.name == config.kind
  }

  /** One `for` pass with an early `return`: the index of the first subclass
      that passes `test`. */
  function FirstWhere(subclasses: seq<Subclass>, test: Subclass -> bool): (r: Option<nat>)
    ensures r.Some? ==> r.value < |subclasses| && test(subclasses[r.value])
    ensures r.Some? ==> forall j :: 0 <= j < r.value ==> !test(subclasses[j])
    ensures r.None? <==> forall j :: 0 <= j < |subclasses| ==> !test(subclasses[j])
  {
    if subclasses == [] then None
    else if test(subclasses[0]) then Some(0)
    else match FirstWhere(subclasses[1..], test)
      case None => None
      case Some(i) => Some(i + 1)
  }

  /** Both passes; `Ok(i)` means the factory constructs `subclasses[i]`. */
  function Lookup(subclasses: seq<Subclass>, config: Config): (r: Result<nat, LookupError>)
    ensures r.Ok? ==> r.value < |subclasses|
    ensures (exists j :: 0 <= j < |subclasses| && MatchesClass(subclasses[j], config)) ==>
      && r.Ok?
      && MatchesClass(subclasses[r.value], config)
      && forall j :: 0 <= j < r.value ==> !MatchesClass(subclasses[j], config)
    ensures (forall j :: 0 <= j < |subclasses| ==> !MatchesClass(subclasses[j], config)) && r.Ok? ==>
      && MatchesName(subclasses[r.value], config)
      && forall j :: 0 <= j < r.value ==> !MatchesName(subclasses[j], config)
    ensures r.Err? <==>
      && (forall j :: 0 <= j < |subclasses| ==> !MatchesClass(subclasses[j], config))
      && (forall j :: 0 <= j < |subclasses| ==> !MatchesName(subclasses[j], config))
    ensures r.Err? ==> r.error == ValueError(config.kind)
  {
    match FirstWhere(subclasses, c => MatchesClass(c, config))
    case Some(i) => Ok(i)
    case None =>
      match FirstWhere(subclasses, c => MatchesName(c, config))
      case Some(i) => Ok(i)
      case None => Err(ValueError(config.kind))
  }
}
