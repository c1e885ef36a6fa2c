/**
  `OBDClient`: the adapter connection lifecycle, one polling sweep over the
  configured PIDs, the serialisation of responses into samples, the fan-out
  of a batch to subscriber queues, the DTC operations and one iteration of
  the poll loop. The adapter is an oracle: the outcome of opening a
  connection and the reply to each query are parameters.
*/
module ObdClient {
  import opened Common
  import opened Ordering
  import opened Timestamps
  import opened Samples
  import opened ConfigModels
  import opened DbQueries
  import opened Repository
  import opened Broadcast

  // ---------------------------------------------------------------- the adapter

  /** An entry of the python-OBD command table. */
  datatype Command = Command(name: string, description: string)

  /** How much `float(...)` makes of a quantity's magnitude: a number, or
      nothing where it raises `TypeError` or `ValueError`. */
  type Magnitude = Option<real>

  /** The `value` of a response. `text` is what `str(value)` returns; a
      quantity's `units` is `None` when falsy. */
  datatype PyValue =
    | PyNone
    | PyNumber(n: real, text: string)
    | PyQuantity(magnitude: Magnitude, units: Option<string>, text: string)
    | PyOther(text: string)

  /** `str(value)`. */
  function PyStr(v: PyValue): string {
    if v.PyNone? then "None" else v.text
  }

  /** A response object: `is_null()` and `value`; `hasNull` is false for an
      object without an `is_null` method. */
  datatype Response = Response(hasNull: bool, isNull: bool, value: PyValue)

  /** What `connection.query(command)` does: raise, or return a response or `None`. */
  datatype Reply = Raised | Answered(response: Option<Response>)

  /** What opening a connection does: `obd.OBD(...)` raises, or returns a
      connection that is or is not connected. */
  datatype ConnectOutcome = Connects | NotConnected | ConstructorRaised

  /** The reply to `GET_DTC`: nothing, a response whose value is the list of
      (code, description) pairs when not null, or an exception from `query`. */
  datatype DtcReply = NoDtcResponse | DtcResponse(isNull: bool, codes: seq<(string, string)>) | DtcQueryRaised

  datatype ClientError =
    | ConnectionError(port: string)   // `OBDConnectionError`
    | AdapterRaised                   // whatever `obd.OBD(...)` raised
    | QueryRaised                     // whatever `connection.query` raised
    | Storage(error: StorageError)    // an error of the repository

  // ---------------------------------------------------------------- serialisation

  /** `_extract_unit`: the unit's text when it is truthy. */
  function ExtractUnit(v: PyValue): (r: Value)
    ensures r.Null? || r.Str?
    ensures r.Str? <==> v.PyQuantity? && v.units.Some?
    ensures r.Str? ==> r.s == v.units.value
  {
    if v.PyQuantity? && v.units.Some? then Str(v.units.value) else Null
  }

  /** `_extract_numeric`: the magnitude of a quantity, a plain number, or `None`. */
  function ExtractNumeric(v: PyValue): (r: Value)
    ensures r.Null? || r.Num?
    ensures v.PyNumber? ==> r == Num(v.n)
    ensures v.PyQuantity? ==> r == if v.magnitude.Some? then Num(v.magnitude.value) else Null
    ensures v.PyNone? || v.PyOther? ==> r == Null
  {
    match v
    case PyNumber(n, _) => Num(n)
    case PyQuantity(m, _, _) => if m.Some? then Num(m.value) else Null
    case _ => Null
  }

  /** A response that leaves the sample at `no_data`. */
  predicate NoData(response: Option<Response>) {
    response.None? || !response.value.hasNull || response.value.isNull
  }

  /** The keys every sample has. */
  const BaseKeys: set<string> := {"pid", "description", "recorded_at", "status"}
  /** The keys a sample with data has in addition. */
  const DataKeys: set<string> := {"raw", "unit", "value", "display"}

  /** `_serialize_response` at the instant `now`. */
  function SerializeResponse(command: Command, response: Option<Response>, now: Instant): (r: Sample)
    ensures r.Keys == if NoData(response) then BaseKeys else BaseKeys + DataKeys
    ensures r["pid"] == Str(command.name) && r["description"] == Str(command.description)
    ensures r["recorded_at"] == Str(IsoSeconds(now))
    ensures NoData(response) ==> r["status"] == Str("no_data")
    ensures !NoData(response) ==> (
      var v := response.value.value;
      && r["status"] == Str("ok")
      && r["raw"] == r["display"] == Str(PyStr(v))
      && r["unit"] == ExtractUnit(v) && r["value"] == ExtractNumeric(v))
  {
    var sample := map["pid" := Str(command.name), "description" := Str(command.description),
                      "recorded_at" := Str(IsoSeconds(now)), "status" := Str("ok")];
    if NoData(response) then sample["status" := Str("no_data")]
    else
      var v := response.value.value;
      sample["raw" := Str(PyStr(v))]["unit" := ExtractUnit(v)]["value" := ExtractNumeric(v)]
            ["display" := Str(PyStr(v))]
  }

  // ---------------------------------------------------------------- one sweep

  /** The PIDs of a sweep that produce a sample: those whose command
      resolves and whose query does not raise, in sweep order. */
  function Kept(pids: seq<string>, commands: map<string, Command>, query: Command -> Reply): seq<string>
    decreases |pids|
  {
    if pids == [] then []
    else
      var init := Kept(pids[..|pids| - 1], commands, query);
      var p := pids[|pids| - 1];
      if p in commands && query(commands[p]).Answered? then init + [p] else init
  }

  /** The samples of a sweep over `pids`. */
  function Sweep(pids: seq<string>, commands: map<string, Command>, query: Command -> Reply, now: Instant)
    : seq<Sample>
    decreases |pids|
  {
    if pids == [] then []
    else
      var init := Sweep(pids[..|pids| - 1], commands, query, now);
      var p := pids[|pids| - 1];
      if p in commands && query(commands[p]).Answered? then
        init + [SerializeResponse(commands[p], query(commands[p]).response, now)]
      else init
  }

  /** `Kept` is a sub-sequence of its input, so an ascending input gives an
      ascending result, and a PID is kept exactly when it occurs, resolves
      and its query does not raise. */
  lemma {:induction false} KeptSpec(pids: seq<string>, commands: map<string, Command>, query: Command -> Reply)
    ensures forall p :: p in Kept(pids, commands, query)
              <==> p in pids && p in commands && query(commands[p]).Answered?
    ensures Ascending(pids) ==> Ascending(Kept(pids, commands, query))
    ensures |Kept(pids, commands, query)| <= |pids|
    decreases |pids|
  {
    if pids != [] {
      var init := pids[..|pids| - 1];
      var p := pids[|pids| - 1];
      KeptSpec(init, commands, query);
      assert pids == init + [p];
      var k := Kept(init, commands, query);
      if Ascending(pids) {
        assert Ascending(init);
        forall i | 0 <= i < |k| ensures LessEq(k[i], p) {
          assert k[i] in init;
          var j :| 0 <= j < |init| && init[j] == k[i];
        }
      }
    }
  }

  /** The sweep yields one sample per kept PID, in the same order, each
      serialised from that PID's command and reply. */
  lemma {:induction false} SweepSpec(pids: seq<string>, commands: map<string, Command>, query: Command -> Reply,
                                     now: Instant)
    ensures |Sweep(pids, commands, query, now)| == |Kept(pids, commands, query)|
    ensures forall i :: 0 <= i < |Kept(pids, commands, query)| ==> (
      var p := Kept(pids, commands, query)[i];
      && p in commands && query(commands[p]).Answered?
      && Sweep(pids, commands, query, now)[i] == SerializeResponse(commands[p], query(commands[p]).response, now))
    decreases |pids|
  {
    if pids != [] {
      SweepSpec(pids[..|pids| - 1], commands, query, now);
    }
  }

  /** The PIDs of `pids` that the command table does not know. */
  function Unresolved(pids: seq<string>, commands: map<string, Command>): set<string> {
    set p | p in pids && p !in commands
  }

  /** A sweep over `sorted_pids()` keeps PID-name order and produces a
      sample for exactly the configured PIDs that resolve and answer. */
  lemma SweepInPidOrder(config: CarConfig, commands: map<string, Command>, query: Command -> Reply)
    ensures Ascending(Kept(SortedPids(config), commands, query))
    ensures forall p :: p in Kept(SortedPids(config), commands, query)
              <==> p in config.supportedPids && p in commands && query(commands[p]).Answered?
  {
    var pids := SortedPids(config);
    KeptSpec(pids, commands, query);
    forall p ensures p in pids <==> p in config.supportedPids {
      assert p in pids <==> p in multiset(pids);
      assert p in config.supportedPids <==> p in multiset(config.supportedPids);
    }
  }

  /** How one more PID extends a sweep. */
  lemma SweepStep(pids: seq<string>, i: nat, commands: map<string, Command>, query: Command -> Reply, now: Instant)
    requires i < |pids|
    ensures Sweep(pids[..i + 1], commands, query, now)
         == Sweep(pids[..i], commands, query, now)
            + (if pids[i] in commands && query(commands[pids[i]]).Answered?
               then [SerializeResponse(commands[pids[i]], query(commands[pids[i]]).response, now)] else [])
    ensures Unresolved(pids[..i + 1], commands)
         == Unresolved(pids[..i], commands) + (if pids[i] in commands then {} else {pids[i]})
  {
    assert pids[..i + 1][..i] == pids[..i];
    assert pids[..i + 1] == pids[..i] + [pids[i]];
  }

  // ---------------------------------------------------------------- subscribers

  /** No queue is subscribed twice. */
  predicate Distinct(s: seq<SampleQueue>) {
    forall i, j :: 0 <= i < j < |s| ==> s[i] != s[j]
  }

  /** `list.remove(q)` after the `in` test: the first occurrence removed. */
  function RemoveFirst(s: seq<SampleQueue>, q: SampleQueue): seq<SampleQueue>
    decreases |s|
  {
    if s == [] then [] else if s[0] == q then s[1..] else [s[0]] + RemoveFirst(s[1..], q)
  }

  /** Removing a queue from a list without repeats keeps the other queues in
      their order, takes `q` out and keeps the list free of repeats. */
  lemma {:induction false} RemoveFirstSpec(s: seq<SampleQueue>, q: SampleQueue)
    requires Distinct(s)
    ensures q !in RemoveFirst(s, q) && Distinct(RemoveFirst(s, q))
    ensures forall p :: p in RemoveFirst(s, q) <==> p in s && p != q
    ensures q in s ==> |RemoveFirst(s, q)| == |s| - 1
    ensures q !in s ==> RemoveFirst(s, q) == s
    decreases |s|
  {
    if s != [] {
      assert Distinct(s[1..]) by {
        forall i, j | 0 <= i < j < |s| - 1 ensures s[1..][i] != s[1..][j] {
          assert s[1..][i] == s[i + 1] && s[1..][j] == s[j + 1];
        }
      }
      RemoveFirstSpec(s[1..], q);
      if s[0] == q {
        assert forall i :: 0 < i < |s| ==> s[i] != s[0];
        assert q !in s[1..];
      } else {
        assert s[0] !in s[1..];
        var r := [s[0]] + RemoveFirst(s[1..], q);
        forall i, j | 0 <= i < j < |r| ensures r[i] != r[j] {
          if i == 0 {
            assert r[j] in RemoveFirst(s[1..], q);
          }
        }
      }
    }
  }

  // ---------------------------------------------------------------- the client

  /** The state of the poll task: none, running, or done (the loop ended
      but the task was not cleared by `stop`). */
  datatype PollTask = NoTask | Running | Finished

  class OBDClient {
    const config: CarConfig
    const repository: DataRepository
    /** The python-OBD command table, by name. */
    const commands: map<string, Command>
    /** `MIN_POLL_INTERVAL`. */
    const minPollInterval: real

    /** The open connection, by handle number. */
    var connection: Option<nat>
    var pollTask: PollTask
    /** Whether the stop event is set. */
    var stopSet: bool
    var subscribers: seq<SampleQueue>
    var missingPids: set<string>
    /** Connections opened so far; the next one gets this number. */
    var nextHandle: nat
    /** The handles closed so far, in order. */
    ghost var closed: seq<nat>

    ghost predicate Valid()
      reads this, subscribers
    {
      && (pollTask == Running ==> connection.Some?)
      && (connection.Some? ==> connection.value < nextHandle)
      && Distinct(subscribers)
      && (forall q :: q in subscribers ==> q.Valid())
    }

    constructor (config: CarConfig, repository: DataRepository, commands: map<string, Command>,
                 minPollInterval: real)
      ensures this.config == config && this.repository == repository
      ensures this.commands == commands && this.minPollInterval == minPollInterval
      ensures connection == None && pollTask == NoTask && !stopSet
      ensures subscribers == [] && missingPids == {} && nextHandle == 0 && closed == []
      ensures Valid()
    {
      this.config := config;
      this.repository := repository;
      this.commands := commands;
      this.minPollInterval := minPollInterval;
      connection := None;
      pollTask := NoTask;
      stopSet := false;
      subscribers := [];
      missingPids := {};
      nextHandle := 0;
      closed := [];
    }

    /** `_open_connection`: a connection that is not connected is closed
        again and the error names the port. */
    method OpenConnection(connect: ConnectOutcome) returns (r: Result<nat, ClientError>)
      modifies this`nextHandle, this`closed
      ensures connect == Connects ==> r == Ok(old(nextHandle)) && nextHandle == old(nextHandle) + 1 && closed == old(closed)
      ensures connect == NotConnected ==> (
        && r == Err(ConnectionError(config.adapterPort))
        && nextHandle == old(nextHandle) + 1 && closed == old(closed) + [old(nextHandle)])
      ensures connect == ConstructorRaised ==> r == Err(AdapterRaised) && nextHandle == old(nextHandle) && closed == old(closed)
    {
      if connect == ConstructorRaised {
        return Err(AdapterRaised);
      }
      var handle := nextHandle;
      nextHandle := nextHandle + 1;
      if connect == NotConnected {
        closed := closed + [handle];
        return Err(ConnectionError(config.adapterPort));
      }
      r := Ok(handle);
    }

    /** `_ensure_connection`: opens a connection only when there is none. */
    method EnsureConnection(connect: ConnectOutcome) returns (r: Result<nat, ClientError>)
      requires Valid()
      modifies this`connection, this`nextHandle, this`closed
      ensures Valid()
      ensures old(connection).Some? ==> (
        && r == Ok(old(connection).value) && connection == old(connection)
        && nextHandle == old(nextHandle) && closed == old(closed))
      ensures old(connection).None? && connect == Connects ==> (
        && r == Ok(old(nextHandle)) && connection == Some(old(nextHandle))
        && nextHandle == old(nextHandle) + 1 && closed == old(closed))
      ensures old(connection).None? && connect != Connects ==> (
        && r.Err? && connection == None
        && (connect == NotConnected ==> r.error == ConnectionError(config.adapterPort)
                                         && closed == old(closed) + [old(nextHandle)])
        && (connect == ConstructorRaised ==> r.error == AdapterRaised && closed == old(closed)))
    {
      if connection.Some? {
        return Ok(connection.value);
      }
      r := OpenConnection(connect);
      if r.Ok? {
        connection := Some(r.value);
      }
    }

    /** `start`: nothing happens while a poll task exists; otherwise the
        schema is created, a new connection is opened and the poll task
        starts with the stop event cleared. A failed open leaves no task. */
    method Start(connect: ConnectOutcome) returns (r: Outcome<ClientError>)
      requires Valid()
      modifies this`connection, this`pollTask, this`stopSet, this`nextHandle, this`closed
      modifies repository`connected, repository`schemaReady
      ensures Valid()
      ensures old(pollTask) != NoTask ==> (
        && r == Done && connection == old(connection) && pollTask == old(pollTask)
        && stopSet == old(stopSet) && nextHandle == old(nextHandle) && closed == old(closed)
        && repository.connected == old(repository.connected)
        && repository.schemaReady == old(repository.schemaReady))
      ensures old(pollTask) == NoTask ==> repository.connected && repository.schemaReady
      ensures old(pollTask) == NoTask && connect == Connects ==> (
        && r == Done && connection == Some(old(nextHandle)) && pollTask == Running && !stopSet
        && nextHandle == old(nextHandle) + 1 && closed == old(closed))
      ensures old(pollTask) == NoTask && connect == NotConnected ==> (
        && r == Fail(ConnectionError(config.adapterPort)) && pollTask == NoTask
        && connection == old(connection) && stopSet == old(stopSet)
        && nextHandle == old(nextHandle) + 1 && closed == old(closed) + [old(nextHandle)])
      ensures old(pollTask) == NoTask && connect == ConstructorRaised ==> (
        && r == Fail(AdapterRaised) && pollTask == NoTask
        && connection == old(connection) && stopSet == old(stopSet)
        && nextHandle == old(nextHandle) && closed == old(closed))
    {
      if pollTask != NoTask {
        return Done;
      }
      repository.Initialize();
      var handle := OpenConnection(connect);
      if handle.Err? {
        return Fail(handle.error);
      }
      connection := Some(handle.value);
      stopSet := false;
      pollTask := Running;
      r := Done;
    }

    /** `stop`: the stop event is set and the task awaited and cleared, then
        an open connection is closed. Without a task or a connection
        nothing happens, so a second `stop` changes nothing. */
    method Stop()
      requires Valid()
      modifies this`connection, this`pollTask, this`stopSet, this`closed
      ensures Valid()
      ensures pollTask == NoTask && connection == None
      ensures stopSet == (old(stopSet) || old(pollTask) != NoTask)
      ensures closed == old(closed) + (if old(connection).Some? then [old(connection).value] else [])
    {
      if pollTask != NoTask {
        stopSet := true;
        pollTask := NoTask;
      }
      if connection.Some? {
        closed := closed + [connection.value];
        connection := None;
      }
    }

    /** `stream`, up to the first `await`: a new empty queue is subscribed. */
    method Subscribe() returns (q: SampleQueue)
      requires Valid()
      modifies this`subscribers
      ensures Valid()
      ensures fresh(q) && q.items == [] && subscribers == old(subscribers) + [q]
    {
      q := new SampleQueue();
      subscribers := subscribers + [q];
    }

    /** The `finally` of `stream`: the queue is removed if still subscribed. */
    method Detach(q: SampleQueue)
      requires Valid()
      modifies this`subscribers
      ensures Valid()
      ensures subscribers == RemoveFirst(old(subscribers), q)
      ensures q !in subscribers && forall p :: p in subscribers <==> p in old(subscribers) && p != q
    {
      RemoveFirstSpec(subscribers, q);
      if q in subscribers {
        subscribers := RemoveFirst(subscribers, q);
      }
    }

    /** `_broadcast`: every sample of the batch, in order, is offered to every
        subscriber; the subscriber list itself is not changed. */
    method Broadcast(samples: seq<Sample>)
      requires Valid()
      modifies set q | q in subscribers
      ensures Valid()
      ensures forall q :: q in subscribers ==> q.items == OfferAll(old(q.items), samples)
    {
      if subscribers == [] {
        return;
      }
      var subs := subscribers;
      for s := 0 to |samples|
        invariant forall q :: q in subs ==> q.Valid() && q.items == OfferAll(old(q.items), samples[..s])
      {
        assert samples[..s + 1][..s] == samples[..s];
        for j := 0 to |subs|
          invariant forall k :: 0 <= k < j ==>
            subs[k].Valid() && subs[k].items == OfferAll(old(subs[k].items), samples[..s + 1])
          invariant forall k :: j <= k < |subs| ==>
            subs[k].Valid() && subs[k].items == OfferAll(old(subs[k].items), samples[..s])
        {
          subs[j].Offer(samples[s]);
        }
      }
      assert samples[..|samples|] == samples;
    }

    /** `_resolve_command`: the command of that name, if the table has one.
        An unknown name is recorded, and warned about only when it was not
        recorded before. */
    method ResolveCommand(pidName: string) returns (r: Option<Command>, warned: bool)
      modifies this`missingPids
      ensures r == if pidName in commands then Some(commands[pidName]) else None
      ensures missingPids == old(missingPids) + (if pidName in commands then {} else {pidName})
      ensures warned <==> pidName !in commands && pidName !in old(missingPids)
    {
      if pidName in commands {
        return Some(commands[pidName]), false;
      }
      warned := pidName !in missingPids;
      missingPids := missingPids + {pidName};
      r := None;
    }

    /** `_collect_samples` over an open connection: one sample per PID of
        `sorted_pids()` whose command resolves and whose query returns. */
    method CollectSamples(query: Command -> Reply, now: Instant) returns (samples: seq<Sample>)
      modifies this`missingPids
      ensures samples == Sweep(SortedPids(config), commands, query, now)
      ensures missingPids == old(missingPids) + Unresolved(SortedPids(config), commands)
    {
      var pids := SortedPids(config);
      samples := [];
      for i := 0 to |pids|
        invariant samples == Sweep(pids[..i], commands, query, now)
        invariant missingPids == old(missingPids) + Unresolved(pids[..i], commands)
      {
        SweepStep(pids, i, commands, query, now);
        var command, _ := ResolveCommand(pids[i]);
        if command.Some? {
          var reply := query(command.value);
          if reply.Answered? {
            samples := samples + [SerializeResponse(command.value, reply.response, now)];
          }
        }
      }
      assert pids[..|pids|] == pids;
    }

    /** The wait of the poll loop between sweeps. */
    function PollInterval(): (r: real)
      reads this
      ensures r >= config.pollingInterval && r >= minPollInterval
      ensures r == config.pollingInterval || r == minPollInterval
    {
      if config.pollingInterval >= minPollInterval then config.pollingInterval else minPollInterval
    }

    /** One iteration of `_poll_loop`. A set stop event ends the loop. A
        non-empty sweep is stored first and then broadcast; a storage error
        ends the loop and sets the stop event. The result is the wait before
        the next iteration, `None` when the loop ended. */
    method PollIteration(query: Command -> Reply, now: Instant, fault: bool) returns (wait: Option<real>)
      requires Valid() && pollTask == Running
      modifies this`pollTask, this`stopSet, this`missingPids
      modifies repository`connected, repository`telemetry
      modifies set q | q in subscribers
      ensures Valid()
      ensures old(stopSet) ==> (
        && wait == None && pollTask == Finished && stopSet
        && missingPids == old(missingPids) && repository.telemetry == old(repository.telemetry)
        && forall q :: q in subscribers ==> q.items == old(q.items))
      ensures !old(stopSet) ==> (
        var batch := Sweep(SortedPids(config), commands, query, now);
        && missingPids == old(missingPids) + Unresolved(SortedPids(config), commands)
        && (batch == [] ==> (
             && wait == Some(PollInterval()) && pollTask == Running && !stopSet
             && repository.telemetry == old(repository.telemetry)
             && forall q :: q in subscribers ==> q.items == old(q.items)))
        && (batch != [] && InsertOutcome(batch, now, fault, old(repository.schemaReady)).Done? ==> (
             && wait == Some(PollInterval()) && pollTask == Running && !stopSet
             && repository.telemetry == old(repository.telemetry) + TelemetryRowsFor(batch, now).value
             && forall q :: q in subscribers ==> q.items == OfferAll(old(q.items), batch)))
        && (batch != [] && InsertOutcome(batch, now, fault, old(repository.schemaReady)).Fail? ==> (
             && wait == None && pollTask == Finished && stopSet
             && repository.telemetry == old(repository.telemetry)
             && forall q :: q in subscribers ==> q.items == old(q.items))))
    {
      if stopSet {
        pollTask := Finished;
        return None;
      }
      var samples := CollectSamples(query, now);
      if samples != [] {
        var stored := repository.InsertSamples(samples, now, fault);
        if stored.Fail? {
          stopSet := true;
          pollTask := Finished;
          return None;
        }
        Broadcast(samples);
      }
      wait := Some(PollInterval());
    }

    /** `read_dtcs`: the codes of a non-null, non-empty reply, with empty
        descriptions as `None`, persisted uncleared when `persist` is set.
        An exception from the query propagates and nothing is persisted. */
    method ReadDtcs(persist: bool, connect: ConnectOutcome, reply: DtcReply, now: Instant, fault: bool)
      returns (r: Result<seq<(string, Option<string>)>, ClientError>)
      requires Valid()
      modifies this`connection, this`nextHandle, this`closed, repository`connected, repository`dtcEvents
      ensures Valid()
      ensures old(connection).None? && connect != Connects ==> (
        && r.Err? && connection == None
        && (connect == NotConnected ==> r.error == ConnectionError(config.adapterPort))
        && (connect == ConstructorRaised ==> r.error == AdapterRaised)
        && repository.dtcEvents == old(repository.dtcEvents))
      ensures (old(connection).Some? || connect == Connects) && reply.DtcQueryRaised? ==> (
        && r == Err(QueryRaised) && connection.Some?
        && repository.dtcEvents == old(repository.dtcEvents))
      ensures (old(connection).Some? || connect == Connects) && !reply.DtcQueryRaised? ==> (
        var codes := DtcCodes(reply);
        && connection.Some?
        && (!persist || codes == [] ==> r == Ok(codes) && repository.dtcEvents == old(repository.dtcEvents))
        && (persist && codes != [] ==> (
             var outcome := AppendOutcome(fault, old(repository.schemaReady));
             && (outcome.Done? ==> (
                   && r == Ok(codes)
                   && repository.dtcEvents == old(repository.dtcEvents) + DtcRowsFor(codes, false, IsoSeconds(now))))
             && (outcome.Fail? ==> (
                   && r == Err(Storage(outcome.error))
                   && repository.dtcEvents == old(repository.dtcEvents))))))
    {
      var handle := EnsureConnection(connect);
      if handle.Err? {
        return Err(handle.error);
      }
      if reply.DtcQueryRaised? {
        return Err(QueryRaised);
      }
      var codes := DtcCodes(reply);
      if persist && codes != [] {
        var stored := repository.AppendDtcCodes(codes, false, now, fault);
        if stored.Fail? {
          return Err(Storage(stored.error));
        }
      }
      r := Ok(codes);
    }

    /** `clear_dtcs`: the clear command is sent over an open connection;
        nothing is written to the repository. `clearRaises` is whether the
        `CLEAR_DTC` query raises; its exception propagates. */
    method ClearDtcs(connect: ConnectOutcome, clearRaises: bool) returns (r: Outcome<ClientError>)
      requires Valid()
      modifies this`connection, this`nextHandle, this`closed
      ensures Valid()
      ensures r.Done? <==> (old(connection).Some? || connect == Connects) && !clearRaises
      ensures (old(connection).Some? || connect == Connects) ==> connection.Some?
      ensures (old(connection).Some? || connect == Connects) && clearRaises ==> r == Fail(QueryRaised)
      ensures old(connection).None? && connect != Connects ==> (
        && r.Fail? && connection == None
        && (connect == NotConnected ==> r.error == ConnectionError(config.adapterPort))
        && (connect == ConstructorRaised ==> r.error == AdapterRaised))
    {
      var handle := EnsureConnection(connect);
      if handle.Err? {
        return Fail(handle.error);
      }
      if clearRaises {
        return Fail(QueryRaised);
      }
      r := Done;
    }
  }

  /** The codes `read_dtcs` returns for a reply: none for a missing, null or
      empty reply; otherwise every pair, with an empty description as `None`. */
  function DtcCodes(reply: DtcReply): (r: seq<(string, Option<string>)>)
    requires !reply.DtcQueryRaised?
    ensures reply.NoDtcResponse? || reply.isNull ==> r == []
    ensures reply.DtcResponse? && !reply.isNull ==> (
      && |r| == |reply.codes|
      && forall i :: 0 <= i < |r| ==>
           r[i].0 == reply.codes[i].0
           && r[i].1 == (if reply.codes[i].1 == "" then None else Some(reply.codes[i].1)))
  {
    if reply.NoDtcResponse? || reply.isNull then []
    else seq(|reply.codes|, i requires 0 <= i < |reply.codes| =>
           (reply.codes[i].0, if reply.codes[i].1 == "" then None else Some(reply.codes[i].1)))
  }
}
