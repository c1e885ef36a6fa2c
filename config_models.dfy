/**
  `CarConfig`: what the application knows about one vehicle, with the field
  constraints and defaults its validation applies.
*/
module ConfigModels {
  import opened Common
  import opened Ordering
  import opened Timestamps

  /** A file-system path as its components. */
  type Path = seq<string>

  /** The `ge=0.1` bound on `polling_interval`. */
  const MinPollingInterval: real := 0.1
  /** The default of `polling_interval`. */
  const DefaultPollingInterval: real := 1.0

  datatype CarConfig = CarConfig(
    name: string,
    adapterPort: string,
    databasePath: Path,
    supportedPids: seq<string>,
    pollingInterval: real,
    metadata: map<string, string>,
    createdAt: Option<Instant>)

  /** The constraint validation enforces on a constructed config. */
  predicate ValidConfig(c: CarConfig) {
    c.pollingInterval >= MinPollingInterval
  }

  /** The `ValidationError` construction raises. */
  datatype ValidationError = IntervalTooSmall(given: real)

  /** `CarConfig(...)` with every field given: validation accepts the values
      as they are exactly when the interval meets its bound. */
  function NewCarConfig(name: string, adapterPort: string, databasePath: Path, supportedPids: seq<string>,
                        pollingInterval: real, metadata: map<string, string>, createdAt: Option<Instant>)
    : (r: Result<CarConfig, ValidationError>)
    ensures r.Ok? <==> pollingInterval >= MinPollingInterval
    ensures r.Err? ==> r.error == IntervalTooSmall(pollingInterval)
    ensures r.Ok? ==> ValidConfig(r.value)
    ensures r.Ok? ==> r.value == CarConfig(name, adapterPort, databasePath, supportedPids,
                                           pollingInterval, metadata, createdAt)
  {
    if pollingInterval < MinPollingInterval then Err(IntervalTooSmall(pollingInterval))
    else Ok(CarConfig(name, adapterPort, databasePath, supportedPids, pollingInterval, metadata, createdAt))
  }

  /** `CarConfig(name=..., adapter_port=..., database_path=...)`: the other
      fields take their defaults, and the result is valid. */
  function DefaultCarConfig(name: string, adapterPort: string, databasePath: Path): (r: CarConfig)
    ensures ValidConfig(r)
    ensures r.name == name && r.adapterPort == adapterPort && r.databasePath == databasePath
    ensures r.supportedPids == [] && r.metadata == map[] && r.createdAt == None
    ensures r.pollingInterval == 1.0
  {
    var c := NewCarConfig(name, adapterPort, databasePath, [], DefaultPollingInterval, map[], None);
    c.value
  }

  /** `sorted_pids`: an ascending copy of the supported PIDs, duplicates kept;
      the config itself is a value and is not changed. */
  function SortedPids(c: CarConfig): (r: seq<string>)
    ensures Ascending(r)
    ensures multiset(r) == multiset(c.supportedPids) && |r| == |c.supportedPids|
  {
    SortStringsSpec(c.supportedPids);
    SortStrings(c.supportedPids)
  }
}
