/** The agent's loop as a state machine over its steps (internal/agent/agent.go), with a ledger of everything
    that ever happened to a window. */
module AgentModel {
  import opened Wrappers
  import opened Collect
  import opened Windows
  import opened Aggregation
  import opened Encoding
  import opened SpoolModel
  import opened Backoffs
  import opened WireConfig
  import opened Ship

  const DEFAULT_MAX_BATCH: nat := 360

  /** What is fixed for the life of a process. */
  datatype Params = Params(maxBytes: int, backoff: Backoff, maxBatch: int)
  {
    function MaxBytes(): int {
      if maxBytes <= 0 then DEFAULT_MAX_BYTES else maxBytes
    }

    function MaxBatch(): (n: nat)
      ensures n > 0
    {
      if maxBatch <= 0 then DEFAULT_MAX_BATCH else maxBatch
    }
  }

  /** The samples fed to one aggregator: a change of width starts a new one. */
  datatype Generation = Generation(window: int, samples: seq<Sample>)

  /** One request: when it was made, with which windows, how it ended, and, for a failure, when the next attempt
      was scheduled. `last` marks the attempt made at shutdown. */
  datatype SendRecord = SendRecord(
    at: nat, batch: seq<Entry>, exchange: Exchange, failedAt: nat, delay: nat, last: bool)

  /** `raw` lists the windows the aggregators closed, `closed` the same windows as the spool stores them, under
      the names they got. A window that failed before it was named has the empty name. `capFiles` names the files the
      cap removed, and `capDropped` the windows that were in them. */
  datatype Ledger = Ledger(
    generations: seq<Generation>,
    raw: seq<BucketValue>,
    closed: seq<Entry>,
    capDropped: seq<Entry>,
    capFiles: seq<string>,
    replaced: seq<Entry>,
    writeFailed: seq<Entry>,
    sends: seq<SendRecord>)

  datatype AgentState = AgentState(
    agg: AggregatorState, spool: SpoolState, settings: Settings, failures: nat, retryAt: nat, ledger: Ledger)

  /** The state in which the loop starts, over whatever an earlier process left in the directory. */
  function Start(settings: Settings, d: Directory): AgentState {
    AgentState(
      FreshAggregator(settings.window), SpoolState(d, 0, []), settings, 0, 0,
      Ledger([Generation(settings.window, [])], [], [], [], [], [], [], []))
  }

  // ----- Persisting a window -----

  function StoredEntry(s: SpoolState, b: BucketValue, io: WriteIo): Entry {
    if io.fault == BeforeName then Entry("", Stored(b)) else NewEntry(s, b)
  }

  ghost function Recorded(p: Params, s: SpoolState, b: BucketValue, io: WriteIo, l: Ledger): Ledger {
    var e := StoredEntry(s, b, io);
    var all := l.(raw := l.raw + [b], closed := l.closed + [e]);
    if io.fault != NoFault then all.(writeFailed := l.writeFailed + [e])
    else
      var name := NameFor(s.seqNo, b);
      var d := Published(s.dir, name, b, io.size);
      all.(capDropped := l.capDropped + CapLosses(d, p.MaxBytes()),
           capFiles := l.capFiles + Files(d)[..Drops(d, p.MaxBytes())],
           replaced := l.replaced + Replaced(s.dir, name))
  }

  ghost function Persisted(p: Params, a: AgentState, b: BucketValue, io: WriteIo): AgentState {
    a.(spool := AfterAdd(a.spool, p.MaxBytes(), b, io), ledger := Recorded(p, a.spool, b, io, a.ledger))
  }

  /** Persists the window if there is one. */
  ghost function PersistedIfAny(p: Params, a: AgentState, b: Option<BucketValue>, io: WriteIo): AgentState {
    if b.None? then a else Persisted(p, a, b.value, io)
  }

  // ----- Steps -----

  function WithSample(l: Ledger, s: Sample): Ledger
    requires l.generations != []
  {
    var k := |l.generations| - 1;
    l.(generations := l.generations[..k] + [l.generations[k].(samples := l.generations[k].samples + [s])])
  }

  /** One sampling tick; `reading` is nothing when the sample could not be collected. */
  ghost function Sampled(p: Params, a: AgentState, reading: Option<Sample>, io: WriteIo): AgentState
    requires a.ledger.generations != []
  {
    if reading.None? then a
    else
      var (agg, completed) := Added(a.agg, reading.value);
      PersistedIfAny(p, a.(agg := agg, ledger := WithSample(a.ledger, reading.value)), completed, io)
  }

  /** Adopting the schedule of a reply. A new width closes the window in progress and starts a new aggregator. */
  ghost function Configured(p: Params, a: AgentState, c: Config, io: WriteIo): AgentState {
    var next := c.Applied(a.settings);
    if next.None? || next.value == a.settings then a
    else if next.value.window == a.settings.window then a.(settings := next.value)
    else
      var b := PersistedIfAny(p, a.(agg := AfterFlush(a.agg)), Flushed(a.agg), io);
      b.(agg := FreshAggregator(next.value.window), settings := next.value,
         ledger := b.ledger.(generations := b.ledger.generations + [Generation(next.value.window, [])]))
  }

  /** What the world contributes to one upload tick: the clock, the files that cannot be read, how the request
      ends, the clock and the random draw at a failure, and the file system for a window closed by a reply. */
  datatype UploadEnv = UploadEnv(
    now: nat, unreadable: set<string>, exchange: Exchange, failedAt: nat, draw: nat, io: WriteIo)

  function WithDir(a: AgentState, d: Directory): AgentState {
    a.(spool := a.spool.(dir := d))
  }

  function WithSend(a: AgentState, r: SendRecord): AgentState {
    a.(ledger := a.ledger.(sends := a.ledger.sends + [r]))
  }

  function DelayAfter(p: Params, failures: nat, draw: nat): nat {
    Random(p.backoff.Ceiling(failures), draw)
  }

  ghost function Failed(p: Params, a: AgentState, es: seq<Entry>, e: SendError, env: UploadEnv, last: bool): AgentState {
    var delay := DelayAfter(p, a.failures + 1, env.draw);
    var b := WithSend(
      a.(failures := a.failures + 1, retryAt := env.failedAt + delay),
      SendRecord(env.now, es, env.exchange, env.failedAt, delay, last));
    if KindOf(e) == Rejected then WithDir(b, Discarded(b.spool.dir, es)) else b
  }

  ghost function Succeeded(p: Params, a: AgentState, es: seq<Entry>, resp: Response, env: UploadEnv, last: bool)
    : AgentState
  {
    var b := WithSend(
      WithDir(a, Discarded(a.spool.dir, es)).(failures := 0, retryAt := 0),
      SendRecord(env.now, es, env.exchange, 0, 0, last));
    Configured(p, b, resp.config, env.io)
  }

  /** The windows an upload would take from the spool. */
  ghost function Taken(p: Params, a: AgentState, env: UploadEnv): Scan {
    PeekScan(a.spool.dir, p.MaxBatch(), env.unreadable)
  }

  ghost function Uploaded(p: Params, a: AgentState, env: UploadEnv, last: bool): AgentState {
    if env.now < a.retryAt then a
    else
      var scan := Taken(p, a, env);
      var b := WithDir(a, AfterPeek(a.spool.dir, p.MaxBatch(), env.unreadable));
      if scan.failed || scan.entries == [] then b
      else match Send(env.exchange)
        case Failure(e) => Failed(p, b, scan.entries, e, env, last)
        case Success(resp) => Succeeded(p, b, scan.entries, resp, env, last)
  }

  /** Shutdown: the window in progress is persisted and one last upload ignores a pending backoff. */
  ghost function ShutDown(p: Params, a: AgentState, io: WriteIo, env: UploadEnv): AgentState {
    var b := PersistedIfAny(p, a.(agg := AfterFlush(a.agg)), Flushed(a.agg), io);
    Uploaded(p, b.(retryAt := 0), env, true)
  }

  // ----- Runs -----

  datatype Event = SampleTick(reading: Option<Sample>, io: WriteIo) | UploadTick(env: UploadEnv)

  ghost function Stepped(p: Params, a: AgentState, e: Event): AgentState
    requires a.ledger.generations != []
  {
    match e
    case SampleTick(reading, io) => Sampled(p, a, reading, io)
    case UploadTick(env) => Uploaded(p, a, env, false)
  }

  lemma GenerationsStay(p: Params, a: AgentState, e: Event)
    requires a.ledger.generations != []
    ensures Stepped(p, a, e).ledger.generations != []
  {
    hide AfterAdd, CapLosses, Replaced, Send, Config.Applied, Added, PeekScan, AfterPeek, Discarded;
  }

  /** The state after the first `n` events. */
  ghost function RunTo(p: Params, start: AgentState, events: seq<Event>, n: nat): (a: AgentState)
    requires n <= |events|
    requires start.ledger.generations != []
    ensures a.ledger.generations != []
  {
    if n == 0 then start
    else
      var a := RunTo(p, start, events, n - 1);
      GenerationsStay(p, a, events[n - 1]);
      Stepped(p, a, events[n - 1])
  }
}
