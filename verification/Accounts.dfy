/** What the agent closes over a run, against the samples it collected. */
module Accounts {
  import opened Wrappers
  import opened Collect
  import opened Derivation
  import opened Windows
  import opened Aggregation
  import opened Streams
  import opened StreamTheorems
  import opened Encoding
  import opened SpoolModel
  import opened WireConfig
  import opened Ship
  import opened AgentModel
  import opened Conservation

  /** Every window of the given streams, in order. */
  function ClosedBy(gens: seq<Generation>): seq<BucketValue> {
    if gens == [] then []
    else ClosedBy(gens[..|gens| - 1]) + Output(gens[|gens| - 1].window, gens[|gens| - 1].samples)
  }

  /** All samples of the given streams, in order. */
  function SamplesOf(gens: seq<Generation>): seq<Sample> {
    if gens == [] then [] else SamplesOf(gens[..|gens| - 1]) + gens[|gens| - 1].samples
  }

  /** The samples collected by the first `n` events. */
  function Collected(events: seq<Event>, n: nat): seq<Sample>
    requires n <= |events|
  {
    if n == 0 then []
    else Collected(events, n - 1) + match events[n - 1]
      case SampleTick(reading, _) => AsSeq(reading)
      case UploadTick(_) => []
  }

  lemma ClosedByAppend(gens: seq<Generation>, g: Generation)
    ensures ClosedBy(gens + [g]) == ClosedBy(gens) + Output(g.window, g.samples)
    ensures SamplesOf(gens + [g]) == SamplesOf(gens) + g.samples
  {
    hide Output;
    assert (gens + [g])[..|gens|] == gens;
  }

  /** The windows in the ledger are the raw windows as the spool stores them. */
  ghost predicate StoredAlike(l: Ledger) {
    |l.closed| == |l.raw| && forall i | 0 <= i < |l.raw| :: l.closed[i].bucket == Stored(l.raw[i])
  }

  /** The aggregator is where its stream takes it, and the windows closed are those of the finished streams
      followed by those the running one has completed. */
  ghost predicate StreamsAgree(a: AgentState) {
    && a.ledger.generations != []
    && StoredAlike(a.ledger)
    && var k := |a.ledger.generations| - 1;
    var g := a.ledger.generations[k];
    && g.window == a.settings.window
    && a.agg == Fed(g.window, g.samples, |g.samples|)
    && a.ledger.raw == ClosedBy(a.ledger.generations[..k]) + Emitted(g.window, g.samples, |g.samples|)
  }

  /** After the final flush all streams are finished. */
  ghost predicate AllFlushed(a: AgentState) {
    && a.ledger.generations != []
    && StoredAlike(a.ledger)
    && a.agg.current == None
    && a.ledger.raw == ClosedBy(a.ledger.generations)
  }

  // ----- Streams grow at the end -----

  lemma {:induction false} FedPrefix(window: int, ss: seq<Sample>, s: Sample, n: nat)
    requires n <= |ss|
    ensures Fed(window, ss + [s], n) == Fed(window, ss, n)
    ensures Emitted(window, ss + [s], n) == Emitted(window, ss, n)
  {
    hide Added;
    if n > 0 {
      FedPrefix(window, ss, s, n - 1);
      assert (ss + [s])[n - 1] == ss[n - 1];
    }
  }

  lemma FedNext(window: int, ss: seq<Sample>, s: Sample)
    ensures var (next, out) := Added(Fed(window, ss, |ss|), s);
      && Fed(window, ss + [s], |ss| + 1) == next
      && Emitted(window, ss + [s], |ss| + 1) == Emitted(window, ss, |ss|) + AsSeq(out)
  {
    hide Added;
    FedPrefix(window, ss, s, |ss|);
  }

  lemma {:induction false} FedKeepsWindow(window: int, ss: seq<Sample>, n: nat)
    requires n <= |ss|
    ensures Fed(window, ss, n).window == window
  {
    hide Derive, WithReading;
    if n > 0 {
      FedKeepsWindow(window, ss, n - 1);
    }
  }

  // ----- Steps -----

  lemma PersistKeepsAlike(p: Params, a: AgentState, b: Option<BucketValue>, io: WriteIo)
    requires StoredAlike(a.ledger)
    ensures var l := PersistedIfAny(p, a, b, io).ledger;
      StoredAlike(l) && l.raw == a.ledger.raw + AsSeq(b) && l.generations == a.ledger.generations
      && l.sends == a.ledger.sends
  {
    hide AfterAdd, CapLosses, Replaced, Published, NameFor, Stored;
    StoredEntryBucket(a.spool, b, io);
  }

  lemma StoredEntryBucket(s: SpoolState, b: Option<BucketValue>, io: WriteIo)
    ensures b.Some? ==> StoredEntry(s, b.value, io).bucket == Stored(b.value)
  {
    hide Stored, NameFor;
  }

  lemma SampleAgrees(p: Params, a: AgentState, s: Sample, io: WriteIo)
    requires StreamsAgree(a)
    ensures StreamsAgree(Sampled(p, a, Some(s), io))
    ensures SamplesOf(Sampled(p, a, Some(s), io).ledger.generations) == SamplesOf(a.ledger.generations) + [s]
  {
    hide Added, Persisted, ClosedBy, Emitted, Fed, StoredAlike, SamplesOf;
    var k := |a.ledger.generations| - 1;
    var g := a.ledger.generations[k];
    FedNext(g.window, g.samples, s);
    var (agg, out) := Added(a.agg, s);
    var b := a.(agg := agg, ledger := WithSample(a.ledger, s));
    AlikeWithSample(a.ledger, s);
    PersistKeepsAlike(p, b, out, io);
    PersistKeepsAgg(p, b, out, io);
    var after := Sampled(p, a, Some(s), io);
    var h := Generation(g.window, g.samples + [s]);
    assert after.ledger.generations == a.ledger.generations[..k] + [h];
    assert after.ledger.generations[..k] == a.ledger.generations[..k];
    ClosedByAppend(a.ledger.generations[..k], h);
    ClosedByAppend(a.ledger.generations[..k], g);
    assert a.ledger.generations == a.ledger.generations[..k] + [g];
  }

  lemma AlikeWithSample(l: Ledger, s: Sample)
    requires l.generations != []
    ensures StoredAlike(WithSample(l, s)) <==> StoredAlike(l)
  {
    hide Stored;
  }

  /** Flushing the running stream completes its windows. */
  lemma FlushCompletes(gens: seq<Generation>, raw: seq<BucketValue>)
    requires gens != []
    requires var g := gens[|gens| - 1];
      raw == ClosedBy(gens[..|gens| - 1]) + Emitted(g.window, g.samples, |g.samples|)
    ensures var g := gens[|gens| - 1];
      raw + AsSeq(Flushed(Fed(g.window, g.samples, |g.samples|))) == ClosedBy(gens)
  {
    hide Emitted, Fed, Flushed;
  }

  lemma ConfigAgrees(p: Params, a: AgentState, c: Config, io: WriteIo)
    requires StreamsAgree(a)
    ensures StreamsAgree(Configured(p, a, c, io))
    ensures SamplesOf(Configured(p, a, c, io).ledger.generations) == SamplesOf(a.ledger.generations)
  {
    hide Persisted, PersistedIfAny, ClosedBy, Emitted, Fed, StoredAlike, SamplesOf, Config.Applied, Flushed;
    var next := c.Applied(a.settings);
    if next.Some? && next.value.window != a.settings.window {
      var gens := a.ledger.generations;
      FlushCompletes(gens, a.ledger.raw);
      PersistKeepsAlike(p, a.(agg := AfterFlush(a.agg)), Flushed(a.agg), io);
      var g := Generation(next.value.window, []);
      FreshStream(g.window);
      ClosedByAppend(gens, g);
      assert (gens + [g])[..|gens|] == gens;
      AlikeWithGeneration(PersistedIfAny(p, a.(agg := AfterFlush(a.agg)), Flushed(a.agg), io).ledger, g);
    }
  }

  lemma AlikeWithGeneration(l: Ledger, g: Generation)
    ensures StoredAlike(l.(generations := l.generations + [g])) <==> StoredAlike(l)
  {
    hide Stored;
  }

  lemma FreshStream(window: int)
    ensures Fed(window, [], 0) == FreshAggregator(window)
    ensures Emitted(window, [], 0) == []
    ensures Output(window, []) == []
  {
    assert Emitted(window, [], 0) == [];
  }

  /** An upload touches the streams only through the reply's schedule. */
  lemma UploadAgrees(p: Params, a: AgentState, env: UploadEnv, last: bool)
    requires StreamsAgree(a)
    ensures StreamsAgree(Uploaded(p, a, env, last))
    ensures SamplesOf(Uploaded(p, a, env, last).ledger.generations) == SamplesOf(a.ledger.generations)
  {
    hide Taken, AfterPeek, Discarded, Send, Configured, ClosedBy, Emitted, Fed, Stored, SamplesOf, Params.MaxBatch;
    if env.now >= a.retryAt {
      var scan := Taken(p, a, env);
      var b := WithDir(a, AfterPeek(a.spool.dir, p.MaxBatch(), env.unreadable));
      if !scan.failed && scan.entries != [] && Send(env.exchange).Success? {
        var c := WithSend(
          WithDir(b, Discarded(b.spool.dir, scan.entries)).(failures := 0, retryAt := 0),
          SendRecord(env.now, scan.entries, env.exchange, 0, 0, last));
        assert StreamsAgree(c);
        ConfigAgrees(p, c, Send(env.exchange).value.config, env.io);
      }
    }
  }

  lemma {:induction false} RunAgrees(p: Params, settings: Settings, d: Directory, events: seq<Event>, n: nat)
    requires n <= |events|
    ensures StreamsAgree(RunTo(p, Start(settings, d), events, n))
    ensures SamplesOf(RunTo(p, Start(settings, d), events, n).ledger.generations) == Collected(events, n)
  {
    hide Sampled, Uploaded, ClosedBy, Emitted, Fed, Stored;
    var start := Start(settings, d);
    if n == 0 {
      FreshStream(settings.window);
      NoStreams();
    } else {
      RunAgrees(p, settings, d, events, n - 1);
      var a := RunTo(p, start, events, n - 1);
      match events[n - 1] {
        case SampleTick(reading, io) =>
          if reading.Some? {
            SampleAgrees(p, a, reading.value, io);
          } else {
            NoReading(p, a, io);
          }
        case UploadTick(env) => UploadAgrees(p, a, env, false);
      }
    }
  }

  lemma NoStreams()
    ensures ClosedBy([]) == []
    ensures forall g: Generation :: SamplesOf([g]) == g.samples
  {
    forall g: Generation
      ensures SamplesOf([g]) == g.samples
    {
      ClosedByAppend([], g);
      assert [] + [g] == [g];
    }
  }

  lemma NoReading(p: Params, a: AgentState, io: WriteIo)
    requires a.ledger.generations != []
    ensures Sampled(p, a, None, io) == a
  {
  }

  // ----- Shutdown -----

  lemma ShutdownFlushes(p: Params, a: AgentState, io: WriteIo, env: UploadEnv)
    requires StreamsAgree(a)
    ensures AllFlushed(ShutDown(p, a, io, env))
    ensures SamplesOf(ShutDown(p, a, io, env).ledger.generations) == SamplesOf(a.ledger.generations)
  {
    hide Persisted, PersistedIfAny, ClosedBy, Emitted, Fed, StoredAlike, SamplesOf, Flushed, Uploaded;
    FlushCompletes(a.ledger.generations, a.ledger.raw);
    PersistKeepsAlike(p, a.(agg := AfterFlush(a.agg)), Flushed(a.agg), io);
    PersistKeepsAgg(p, a.(agg := AfterFlush(a.agg)), Flushed(a.agg), io);
    var b := PersistedIfAny(p, a.(agg := AfterFlush(a.agg)), Flushed(a.agg), io).(retryAt := 0);
    UploadKeepsFlushed(p, b, env);
  }

  lemma PersistKeepsAgg(p: Params, a: AgentState, b: Option<BucketValue>, io: WriteIo)
    ensures PersistedIfAny(p, a, b, io).agg == a.agg && PersistedIfAny(p, a, b, io).settings == a.settings
  {
    hide AfterAdd, Recorded;
  }

  lemma UploadKeepsFlushed(p: Params, a: AgentState, env: UploadEnv)
    requires AllFlushed(a)
    ensures AllFlushed(Uploaded(p, a, env, true))
    ensures SamplesOf(Uploaded(p, a, env, true).ledger.generations) == SamplesOf(a.ledger.generations)
  {
    hide Taken, AfterPeek, Discarded, Send, Configured, ClosedBy, Stored, SamplesOf, Params.MaxBatch;
    if env.now >= a.retryAt {
      var scan := Taken(p, a, env);
      var b := WithDir(a, AfterPeek(a.spool.dir, p.MaxBatch(), env.unreadable));
      if !scan.failed && scan.entries != [] && Send(env.exchange).Success? {
        var c := WithSend(
          WithDir(b, Discarded(b.spool.dir, scan.entries)).(failures := 0, retryAt := 0),
          SendRecord(env.now, scan.entries, env.exchange, 0, 0, true));
        assert AllFlushed(c);
        ConfigKeepsFlushed(p, c, Send(env.exchange).value.config, env.io);
      }
    }
  }

  lemma ConfigKeepsFlushed(p: Params, a: AgentState, c: Config, io: WriteIo)
    requires AllFlushed(a)
    ensures AllFlushed(Configured(p, a, c, io))
    ensures SamplesOf(Configured(p, a, c, io).ledger.generations) == SamplesOf(a.ledger.generations)
  {
    hide ClosedBy, SamplesOf, Config.Applied, Stored, Output;
    var next := c.Applied(a.settings);
    if next.Some? {
      FreshStream(next.value.window);
      ClosedByAppend(a.ledger.generations, Generation(next.value.window, []));
    }
  }

  // ----- Readings -----

  /** The derivable intervals of the given streams. */
  function Intervals(gens: seq<Generation>): nat {
    if gens == [] then 0
    else Intervals(gens[..|gens| - 1]) + DerivableCount(gens[|gens| - 1].samples, |gens[|gens| - 1].samples|)
  }

  lemma OutputSamples(window: int, ss: seq<Sample>)
    ensures TotalSamples(Output(window, ss)) == DerivableCount(ss, |ss|)
  {
    hide Fed, Emitted, TotalSamples, DerivableCount, Derivable, Runs, AllRuns;
    SamplesAreIntervals(window, ss, |ss|);
    var a := Fed(window, ss, |ss|);
    if a.current.Some? {
      TracksAlways(window, ss, |ss|);
      NothingDerivableYet(ss);
      CurrentStart(window, ss, |ss|, a, Emitted(window, ss, |ss|), Runs(window, ss, |ss|));
    }
  }

  lemma {:induction false} ClosedBySamples(gens: seq<Generation>)
    ensures TotalSamples(ClosedBy(gens)) == Intervals(gens)
  {
    hide Output, DerivableCount;
    if gens != [] {
      var g := gens[|gens| - 1];
      ClosedBySamples(gens[..|gens| - 1]);
      OutputSamples(g.window, g.samples);
      TotalSamplesConcat(ClosedBy(gens[..|gens| - 1]), Output(g.window, g.samples));
    }
  }

  /** In every reachable state the windows closed so far and the one in progress hold one reading for every
      derivable interval of the samples fed so far. */
  lemma ReadingsAccountedFor(p: Params, settings: Settings, d: Directory, events: seq<Event>, n: nat)
    requires n <= |events|
    ensures var a := RunTo(p, Start(settings, d), events, n);
      TotalSamples(a.ledger.raw + AsSeq(a.agg.current)) == Intervals(a.ledger.generations)
  {
    hide RunTo, ClosedBy, Emitted, Fed, TotalSamples, DerivableCount, StoredAlike;
    RunAgrees(p, settings, d, events, n);
    var a := RunTo(p, Start(settings, d), events, n);
    var k := |a.ledger.generations| - 1;
    var g := a.ledger.generations[k];
    var before, now := ClosedBy(a.ledger.generations[..k]), Emitted(g.window, g.samples, |g.samples|);
    ClosedBySamples(a.ledger.generations[..k]);
    SamplesAreIntervals(g.window, g.samples, |g.samples|);
    TotalSamplesConcat(before, now + AsSeq(a.agg.current));
    assert a.ledger.raw + AsSeq(a.agg.current) == before + (now + AsSeq(a.agg.current));
  }

  // ----- The whole run -----

  /** Over any run that starts on any directory and ends with a shutdown: the aggregators were fed exactly the
      samples collected, in order; the windows closed are exactly the windows of these streams, with one reading
      for every derivable interval; what is stored, and uploaded, of a window is the document of the window as it
      was closed; and each window, those found at the start included, is in exactly one place: queued,
      acknowledged, dropped after a rejection, lost to the cap, replaced by name, or never written. */
  lemma EveryWindowAccountedFor(p: Params, settings: Settings, d: Directory, events: seq<Event>, io: WriteIo, env: UploadEnv)
    ensures var z := ShutDown(p, RunTo(p, Start(settings, d), events, |events|), io, env);
      && SamplesOf(z.ledger.generations) == Collected(events, |events|)
      && z.ledger.raw == ClosedBy(z.ledger.generations)
      && TotalSamples(z.ledger.raw) == Intervals(z.ledger.generations)
      && |z.ledger.closed| == |z.ledger.raw|
      && (forall i | 0 <= i < |z.ledger.raw| :: Encode(z.ledger.closed[i].bucket) == Encode(z.ledger.raw[i]))
      && multiset(Queue(d)) + multiset(z.ledger.closed) == Placed(z)
  {
    hide RunTo, ShutDown, Queue, ClosedBy, SamplesOf, TotalSamples, Intervals, StoredAlike, Placed, StreamsAgree, Encode;
    RunAgrees(p, settings, d, events, |events|);
    RunConserves(p, settings, d, events, |events|);
    var a := RunTo(p, Start(settings, d), events, |events|);
    ShutdownFlushes(p, a, io, env);
    ShutdownConserves(p, a, io, env, Queue(d));
    ClosedBySamples(ShutDown(p, a, io, env).ledger.generations);
    StoredEncodesAlike(ShutDown(p, a, io, env).ledger);
  }

  lemma StoredEncodesAlike(l: Ledger)
    requires StoredAlike(l)
    ensures |l.closed| == |l.raw|
    ensures forall i | 0 <= i < |l.raw| :: Encode(l.closed[i].bucket) == Encode(l.raw[i])
  {
    hide Encode, Stored;
    forall i | 0 <= i < |l.raw|
      ensures Encode(l.closed[i].bucket) == Encode(l.raw[i])
    {
      ReEncodesIdentically(l.raw[i]);
    }
  }

  lemma ShutdownConserves(p: Params, a: AgentState, io: WriteIo, env: UploadEnv, init: seq<Entry>)
    requires Conserved(init, a)
    ensures Conserved(init, ShutDown(p, a, io, env))
  {
    hide Queue, BatchesWith, Persisted, Uploaded, Flushed;
    if Flushed(a.agg).Some? {
      PersistConserves(p, a.(agg := AfterFlush(a.agg)), Flushed(a.agg).value, io, init);
    }
    var b := PersistedIfAny(p, a.(agg := AfterFlush(a.agg)), Flushed(a.agg), io);
    assert Conserved(init, b.(retryAt := 0));
    UploadConserves(p, b.(retryAt := 0), env, true, init);
  }
}
