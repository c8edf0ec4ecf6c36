/** A run in which a batch that was kept is not sent again unchanged. */
module Resending {
  import opened Clock
  import opened Aggregation
  import opened SpoolModel
  import opened ByteOrder
  import opened WireConfig
  import opened AgentModel
  import opened Conservation
  import opened AgentTheorems
  import opened Delivery
  import opened Scenarios

  /** An upload whose request is lost too, once the backoff after a first failure is over. */
  function LostAgain(p: Params): UploadEnv {
    LOST.(now := DelayAfter(p, 1, 0))
  }

  /** Four readings, each in a window of its own, with a lost request after the third and another at the end. */
  function ResendingRun(p: Params, t: int, w: int): seq<Event> {
    [Sampling(t, 0), Sampling(t + w, 1), Sampling(t + 2 * w, 2), UploadTick(LOST),
     Sampling(t + 3 * w, 3), UploadTick(LostAgain(p))]
  }

  /** A lost request keeps the queue, the readings and the window in progress. */
  lemma LostRequest(p: Params, a: AgentState, env: UploadEnv)
    requires env == LOST.(now := env.now) && env.now >= a.retryAt
    requires Queue(a.spool.dir) != [] && AllEmpty(a.spool.dir)
    ensures var z := Uploaded(p, a, env, false); var q := Queue(a.spool.dir);
      && z.agg == a.agg && z.settings == a.settings && Queue(z.spool.dir) == q && AllEmpty(z.spool.dir)
      && z.retryAt == DelayAfter(p, a.failures + 1, 0)
      && |z.ledger.sends| == |a.ledger.sends| + 1 && a.ledger.sends <= z.ledger.sends
      && z.ledger == a.ledger.(sends := z.ledger.sends)
      && z.ledger.sends[|a.ledger.sends|].batch == q[..Min(p.MaxBatch(), |q|)]
  {
    hide Queue, Files, PeekScan, Params.MaxBatch, DelayAfter;
    FullBatch(p, a, env, false);
    UploadRetention(p, a, env, false);
  }

  lemma {:induction false} FirstRequestLost(p: Params, settings: Settings, t: int, w: int)
    requires w == Width(settings.window)
    ensures var a := RunTo(p, Start(settings, map[]), ResendingRun(p, t, w), 4);
      && Working(a, t + 2 * w, 2, Truncate(t + 2 * w, w))
      && a.settings == settings && a.retryAt == DelayAfter(p, 1, 0)
      && |a.ledger.closed| == |a.ledger.raw| == 1
      && a.ledger.closed[0] in Queue(a.spool.dir)
      && a.ledger.raw[0].facts.start == Truncate(t + w, w)
      && |a.ledger.sends| == 1 && |a.ledger.sends[0].batch| <= 1
      && RunTo(p, Start(settings, map[]), ResendingRun(p, t, w), 3).ledger.sends == []
  {
    hide Truncate, Width, Stepped, Uploaded, Queue, Tick, DelayAfter, Params.MaxBatch;
    var events, s0 := ResendingRun(p, t, w), Start(settings, map[]);
    var a := RunTo(p, s0, events, 3);
    ThreeReadings(p, settings, events, t, t + w, t + 2 * w);
    StepIsUpload(p, a, LOST);
    LostRequest(p, a, LOST);
    RunConserves(p, settings, map[], events, 3);
    QueueWithinClosed(a);
  }

  /** Over a spool that was empty at the start no more windows are queued than were closed. */
  lemma QueueWithinClosed(a: AgentState)
    requires Conserved(Queue(map[]), a)
    ensures |Queue(a.spool.dir)| <= |a.ledger.closed|
  {
    hide Queue, BatchesWith;
    EmptyQueue();
    assert |Placed(a)| >= |multiset(Queue(a.spool.dir))|;
    assert |multiset(Queue(map[])) + multiset(a.ledger.closed)| == |a.ledger.closed|;
  }

  lemma {:induction false} SecondWindowQueued(p: Params, settings: Settings, t: int, w: int)
    requires w == Width(settings.window)
    requires EPOCH <= t && t + 3 * w < EPOCH + TWO_63
    ensures var a := RunTo(p, Start(settings, map[]), ResendingRun(p, t, w), 5);
      && a.retryAt == DelayAfter(p, 1, 0)
      && Ascending([], a.ledger)
      && AllEmpty(a.spool.dir) && |Queue(a.spool.dir)| >= 2
      && a.ledger.sends == RunTo(p, Start(settings, map[]), ResendingRun(p, t, w), 4).ledger.sends
  {
    hide Added, Truncate, Width, RunTo, Stepped, Persisted, Queue, Tick, WithSample, NewEntry, DelayAfter, Numbered;
    var events, s0 := ResendingRun(p, t, w), Start(settings, map[]);
    var a := RunTo(p, s0, events, 4);
    FirstRequestLost(p, settings, t, w);
    TickAdded(a.agg, t + 2 * w, t + 3 * w, 3);
    ClosingSampling(p, a, t + 3 * w, 3);
    LastGrows(a.ledger, Tick(t + 3 * w, 3));
    var (agg, out) := Added(a.agg, Tick(t + 3 * w, 3));
    LightPersist(p, a.(agg := agg, ledger := WithSample(a.ledger, Tick(t + 3 * w, 3))), out.value);
    RunToNext(p, s0, events, 4);
    RunNumbers(p, settings, map[], events, 5);
    var z := RunTo(p, s0, events, 5);
    WindowFilesHaveNames(a.spool.dir);
    WindowFilesHaveNames(z.spool.dir);
    assert z.ledger.closed == [a.ledger.closed[0], z.ledger.closed[1]];
    TwoInOrder(z);
    TwoMembers(Queue(z.spool.dir), z.ledger.closed[0], z.ledger.closed[1]);
  }

  lemma {:induction false} TwoInOrder(a: AgentState)
    requires AgentNumbers(a)
    requires |a.ledger.closed| == |a.ledger.raw| == 2
    requires a.ledger.closed[0].name != "" && a.ledger.closed[1].name != ""
    requires EPOCH <= a.ledger.raw[0].facts.start < a.ledger.raw[1].facts.start < EPOCH + TWO_63
    ensures Ascending([], a.ledger)
    ensures a.ledger.closed[0].name != a.ledger.closed[1].name
  {
    hide Numbered, Below, UnixNano, SeqOf;
    var l := a.ledger;
    NanosInOrder(l.raw[0].facts.start, l.raw[1].facts.start);
    NamesByKey(l.raw, l.closed, a.spool.seqNo, 0, 1);
    BelowIrreflexive(l.closed[0].name);
  }

  lemma TwoMembers(q: seq<Entry>, e: Entry, f: Entry)
    requires e in q && f in q && e != f
    ensures |q| >= 2
  {
  }

  lemma RunToNext(p: Params, start: AgentState, events: seq<Event>, i: nat)
    requires start.ledger.generations != []
    requires i < |events|
    ensures RunTo(p, start, events, i + 1) == Stepped(p, RunTo(p, start, events, i), events[i])
  {
    hide Stepped;
  }

  /** The kept batch holds one window, the next one two. */
  lemma {:induction false} BatchGrows(p: Params, settings: Settings, t: int, w: int)
    requires w == Width(settings.window)
    requires EPOCH <= t && t + 3 * w < EPOCH + TWO_63
    requires p.MaxBatch() >= 2
    ensures var events := ResendingRun(p, t, w);
      var sends := RunTo(p, Start(settings, map[]), events, 6).ledger.sends;
      && RetriedAt(p, settings, map[], events, 3, 5)
      && |sends| == 2 && sends[1].batch != sends[0].batch
  {
    hide Width, RunTo, Uploaded, Queue, Tick, DelayAfter, Params.MaxBatch, Ascending;
    var events, s0 := ResendingRun(p, t, w), Start(settings, map[]);
    var a := RunTo(p, s0, events, 5);
    FirstRequestLost(p, settings, t, w);
    SecondWindowQueued(p, settings, t, w);
    EmptyQueue();
    RunToNext(p, s0, events, 5);
    StepIsUpload(p, a, LostAgain(p));
    LostRequest(p, a, LostAgain(p));
  }
}
