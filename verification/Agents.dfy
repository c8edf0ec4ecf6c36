/** The agent's loop over its objects (internal/agent/agent.go). */
module Agents {
  import opened Wrappers
  import opened Collect
  import opened Windows
  import opened Aggregation
  import opened SpoolModel
  import opened Spooling
  import opened Backoffs
  import opened WireConfig
  import opened Ship
  import opened AgentModel

  class Agent {
    const params: Params
    const spool: Spool
    var settings: Settings
    var agg: Aggregator
    var failures: nat
    var retryAt: nat
    /** What happened so far, for the specification only. */
    ghost var ledger: Ledger

    /** The objects the agent owns. */
    ghost var Repr: set<object>

    ghost predicate Valid()
      reads this, Repr
    {
      && this in Repr && spool in Repr && agg in Repr && agg.Repr() <= Repr
      && spool.maxBytes == params.maxBytes
      && agg.Valid()
      && this !in agg.Repr() && spool !in agg.Repr()
      && ledger.generations != []
    }

    ghost function State(): AgentState
      requires Valid()
      reads this, Repr
    {
      AgentState(agg.State(), spool.State(), settings, failures, retryAt, ledger)
    }

    constructor (params: Params, settings: Settings, d: Directory)
      ensures Valid() && fresh(Repr) && this.params == params
      ensures State() == Start(settings, d)
    {
      this.params, this.settings := params, settings;
      spool := new Spool(params.maxBytes, d);
      agg := new Aggregator(settings.window);
      failures, retryAt := 0, 0;
      ledger := Ledger([Generation(settings.window, [])], [], [], [], [], [], [], []);
      new;
      Repr := {this, spool} + agg.Repr();
    }

    /** Takes one reading and spools the window it completes, if any. */
    method Sample(reading: Option<Sample>, io: WriteIo)
      requires Valid()
      modifies Repr
      ensures Valid() && fresh(Repr - old(Repr))
      ensures State() == Sampled(params, old(State()), reading, io)
    {
      hide Added, AfterAdd, Recorded, Bucket.Valid, Bucket.Value;
      if reading.None? {
        return;
      }
      var b := agg.Add(reading.value);
      Repr := Repr + agg.Repr();
      ledger := WithSample(ledger, reading.value);
      if b != null {
        Persist(b, io);
      }
    }

    method Persist(b: Bucket, io: WriteIo)
      requires Valid() && b.Valid()
      modifies this`ledger, spool
      ensures Valid()
      ensures State() == Persisted(params, old(State()), old(b.Value()), io)
    {
      hide AfterAdd, Recorded, CrashStates, Bucket.Valid, Bucket.Value;
      ghost var before, v := State(), b.Value();
      RecordedGenerations(params, before.spool, v, io, ledger);
      var stored := spool.Add(b, io);
      ledger := Recorded(params, before.spool, v, io, ledger);
      assert agg.State() == before.agg;
      assert spool.State() == AfterAdd(before.spool, params.MaxBytes(), v, io);
    }

    /** Sends the oldest spooled windows and reports whether the schedule changed. */
    method Upload(env: UploadEnv, ghost last: bool) returns (changed: bool)
      requires Valid()
      modifies Repr
      ensures Valid() && fresh(Repr - old(Repr))
      ensures State() == Uploaded(params, old(State()), env, last)
      ensures changed ==> settings != old(settings)
      ensures !changed ==> settings == old(settings)
    {
      hide PeekScan, AfterPeek, Discarded, Configured, Failed, AfterAdd, Recorded, Send, Params.MaxBatch;
      hide Aggregator.Valid, Aggregator.State;
      if env.now < retryAt {
        return false;
      }
      ghost var before := State();
      var peeked := spool.Peek(params.MaxBatch(), env.unreadable);
      ghost var peekedState := WithDir(before, AfterPeek(before.spool.dir, params.MaxBatch(), env.unreadable));
      assert State() == peekedState;
      if peeked.None? {
        return false;
      }
      var entries := peeked.value;
      if entries == [] {
        return false;
      }
      match Send(env.exchange) {
        case Failure(e) =>
          HandleFailure(e, entries, env, last);
          changed := false;
        case Success(resp) =>
          HandleSuccess(entries, env, last);
          changed := ApplyConfig(resp.config, env.io);
      }
    }

    /** Removes the acknowledged windows and clears the backoff. */
    method HandleSuccess(entries: seq<Entry>, env: UploadEnv, ghost last: bool)
      requires Valid()
      modifies this, spool
      ensures Valid()
      ensures Repr == old(Repr) && settings == old(settings)
      ensures State() == WithSend(
        WithDir(old(State()), Discarded(old(spool.dir), entries)).(failures := 0, retryAt := 0),
        SendRecord(env.now, entries, env.exchange, 0, 0, last))
    {
      hide Discarded, Aggregator.Valid, Aggregator.State;
      ghost var before := agg.State();
      spool.Discard(entries);
      failures, retryAt := 0, 0;
      ledger := ledger.(sends := ledger.sends + [SendRecord(env.now, entries, env.exchange, 0, 0, last)]);
      assert agg.State() == before;
    }

    method HandleFailure(e: SendError, entries: seq<Entry>, env: UploadEnv, ghost last: bool)
      requires Valid()
      modifies this, spool
      ensures Valid()
      ensures Repr == old(Repr) && settings == old(settings)
      ensures State() == Failed(params, old(State()), entries, e, env, last)
    {
      hide Discarded, Random, Backoff.Ceiling, Aggregator.Valid, Aggregator.State;
      ghost var before := agg.State();
      failures := failures + 1;
      var delay := params.backoff.Delay(failures, env.draw);
      retryAt := env.failedAt + delay;
      ledger := ledger.(sends := ledger.sends
        + [SendRecord(env.now, entries, env.exchange, env.failedAt, delay, last)]);
      if KindOf(e) == Rejected {
        spool.Discard(entries);
      }
      assert agg.State() == before;
    }

    /** Adopts the platform's schedule if every value it sent is valid. */
    method ApplyConfig(c: Config, io: WriteIo) returns (changed: bool)
      requires Valid()
      modifies Repr
      ensures Valid() && fresh(Repr - old(Repr))
      ensures State() == Configured(params, old(State()), c, io)
      ensures changed ==> settings != old(settings)
      ensures !changed ==> settings == old(settings)
    {
      hide Config.Applied, AfterAdd, Recorded, Bucket.Valid, Bucket.Value, Flushed;
      ghost var before := State();
      var next, refused := c.Apply(settings);
      if refused.Some? {
        return false;
      }
      if next == settings {
        return false;
      }
      if next.window != settings.window {
        var b := agg.Flush();
        if b != null {
          Persist(b, io);
        }
        agg := new Aggregator(next.window);
        Repr := Repr + agg.Repr();
        ledger := ledger.(generations := ledger.generations + [Generation(next.window, [])]);
      }
      settings := next;
      return true;
    }

    /** Persists the window in progress and makes one last attempt to send what is queued. */
    method Shutdown(io: WriteIo, env: UploadEnv) returns (count: nat, bytes: nat)
      requires Valid()
      modifies Repr
      ensures Valid() && fresh(Repr - old(Repr))
      ensures State() == ShutDown(params, old(State()), io, env)
      ensures count == |Files(spool.dir)| && bytes == Total(spool.dir, Files(spool.dir))
    {
      hide AfterAdd, Recorded, Bucket.Valid, Bucket.Value, Flushed, Uploaded, Files, Total;
      var b := agg.Flush();
      if b != null {
        Persist(b, io);
      }
      retryAt := 0;
      var changed := Upload(env, true);
      count, bytes := spool.Stats();
    }

    method Step(e: Event)
      requires Valid()
      modifies Repr
      ensures Valid() && fresh(Repr - old(Repr))
      ensures State() == Stepped(params, old(State()), e)
    {
      hide Sampled, Uploaded, Valid, State;
      match e {
        case SampleTick(reading, io) => Sample(reading, io);
        case UploadTick(env) =>
          var changed := Upload(env, false);
      }
    }

    /** The loop: one event after the other, then shutdown. */
    method Run(events: seq<Event>, io: WriteIo, env: UploadEnv)
      requires Valid()
      modifies Repr
      ensures Valid()
      ensures State() == ShutDown(params, RunTo(params, old(State()), events, |events|), io, env)
    {
      hide ShutDown, RunTo, State;
      Loop(events);
      var count, bytes := Shutdown(io, env);
    }

    method Loop(events: seq<Event>)
      requires Valid()
      modifies Repr
      ensures Valid() && fresh(Repr - old(Repr))
      ensures State() == RunTo(params, old(State()), events, |events|)
    {
      ghost var start := State();
      hide *;
      NoEvents(params, start, events);
      for i := 0 to |events|
        invariant Valid()
        invariant fresh(Repr - old(Repr))
        invariant State() == RunTo(params, start, events, i)
      {
        NextEvent(params, start, events, i);
        Step(events[i]);
      }
    }
  }

  lemma NoEvents(p: Params, start: AgentState, events: seq<Event>)
    requires start.ledger.generations != []
    ensures RunTo(p, start, events, 0) == start
  {
  }

  lemma NextEvent(p: Params, start: AgentState, events: seq<Event>, i: nat)
    requires start.ledger.generations != []
    requires i < |events|
    ensures RunTo(p, start, events, i + 1) == Stepped(p, RunTo(p, start, events, i), events[i])
  {
    hide Stepped;
  }

  lemma RecordedGenerations(p: Params, s: SpoolState, b: BucketValue, io: WriteIo, l: Ledger)
    ensures Recorded(p, s, b, io, l).generations == l.generations
  {
    hide CapLosses, Replaced;
  }
}
