/** Short runs from the empty spool, with instants to be filled in, from which the counterexamples are built. */
module Scenarios {
  import opened Clock
  import opened Wrappers
  import opened Collect
  import opened Derivation
  import opened Windows
  import opened Aggregation
  import opened Encoding
  import opened ByteOrder
  import opened FileNames
  import opened SpoolModel
  import opened WireConfig
  import opened Ship
  import opened AgentModel
  import opened Delivery

  /** A reading at the given instant, with `k` ticks of CPU time. */
  function Tick(at: int, k: uint32): Sample {
    ZERO_SAMPLE.(at := at, cpu := CpuTimes(k, 0, 0, 0, 0, 0, 0, 0))
  }

  const LIGHT: WriteIo := WriteIo(NoFault, 0, 0, 0)

  function Sampling(at: int, k: uint32): Event {
    SampleTick(Some(Tick(at, k)), LIGHT)
  }

  /** An upload whose request is lost. */
  const LOST: UploadEnv := UploadEnv(0, {}, TransportFails, 0, 0, LIGHT)

  lemma TicksDerivable(before: int, at: int, k: uint32)
    requires 0 < k <= 4 && before < at
    ensures Derive(Tick(before, k - 1), Tick(at, k)).Some?
  {
    hide CpuTimes.Total, Carry, Derive;
    var prev, cur := Tick(before, k - 1), Tick(at, k);
    SmallSums(prev.cpu, cur.cpu);
    DerivableIff(prev, cur);
  }

  /** A reading after the first opens a window or joins the one in progress. */
  lemma TickAdded(a: AggregatorState, before: int, at: int, k: uint32)
    requires 0 < k <= 4 && before < at
    requires a.prev == Some(Tick(before, k - 1))
    requires a.current.Some? ==> a.current.value.facts.samples > 0
    ensures var (next, out) := Added(a, Tick(at, k)); var start := Truncate(at, Width(a.window));
      && next.prev == Some(Tick(at, k)) && next.window == a.window
      && next.current.Some? && next.current.value.facts.samples > 0 && next.current.value.facts.start == start
      && out == if a.current.Some? && a.current.value.facts.start != start then a.current else None
  {
    hide Derive, Truncate, Width;
    TicksDerivable(before, at, k);
  }

  predicate AllEmpty(d: Directory) {
    forall n | n in d :: d[n].size == 0
  }

  lemma {:induction false} NoWeight(d: Directory, names: seq<string>)
    requires AllEmpty(d)
    ensures Total(d, names) == 0
  {
    if names != [] {
      NoWeight(d, names[1..]);
    }
  }

  /** A window of no weight joins the queue and displaces only one of its own name. */
  lemma LightPersist(p: Params, a: AgentState, b: BucketValue)
    requires AllEmpty(a.spool.dir)
    ensures var z := Persisted(p, a, b, LIGHT); var e := NewEntry(a.spool, b);
      && z == a.(spool := z.spool, ledger := z.ledger)
      && AllEmpty(z.spool.dir)
      && e in Queue(z.spool.dir)
      && (forall f | f in Queue(a.spool.dir) && f.name != e.name :: f in Queue(z.spool.dir))
      && z.ledger.closed == a.ledger.closed + [e] && z.ledger.raw == a.ledger.raw + [b]
      && z.ledger.generations == a.ledger.generations && z.ledger.sends == a.ledger.sends
  {
    hide Files, Capped, CapLosses, Drops, Total, Queue, IsWindowFile, Name, UnixNano, NextSeq, Decode, Encode, Replaced;
    var e := NewEntry(a.spool, b);
    var d := Published(a.spool.dir, e.name, b, 0);
    NoWeight(d, Files(d));
    FittingKeepsAll(d, p.MaxBytes());
    NamesAreWindowFiles(UnixNano(b.facts.start), NextSeq(a.spool.seqNo));
    QueueMembers(a.spool.dir);
    QueueMembers(d);
    assert Holds(d, e);
    forall f | f in Queue(a.spool.dir) && f.name != e.name
      ensures f in Queue(d)
    {
      assert Holds(d, f);
    }
  }

  /** A tick that completes no window. */
  lemma QuietSampling(p: Params, a: AgentState, at: int, k: uint32)
    requires a.ledger.generations != []
    requires Added(a.agg, Tick(at, k)).1 == None
    ensures Stepped(p, a, Sampling(at, k))
      == a.(agg := Added(a.agg, Tick(at, k)).0, ledger := WithSample(a.ledger, Tick(at, k)))
  {
    hide Added;
  }

  /** A tick that completes a window. */
  lemma ClosingSampling(p: Params, a: AgentState, at: int, k: uint32)
    requires a.ledger.generations != []
    requires Added(a.agg, Tick(at, k)).1.Some?
    ensures Stepped(p, a, Sampling(at, k)) == Persisted(
      p, a.(agg := Added(a.agg, Tick(at, k)).0, ledger := WithSample(a.ledger, Tick(at, k))),
      Added(a.agg, Tick(at, k)).1.value, LIGHT)
  {
    hide Added, AfterAdd, Recorded;
  }

  /** The agent has just taken reading `k` and works on a window that starts at `start`. */
  ghost predicate Working(a: AgentState, at: int, k: uint32, start: int) {
    && a.agg.prev == Some(Tick(at, k))
    && a.agg.window == a.settings.window
    && a.agg.current.Some? && a.agg.current.value.facts.samples > 0 && a.agg.current.value.facts.start == start
    && AllEmpty(a.spool.dir)
  }

  lemma LastGrows(l: Ledger, s: Sample)
    requires l.generations != []
    ensures var k := |l.generations| - 1; var g := l.generations[k];
      WithSample(l, s) == l.(generations := l.generations[..k] + [Generation(g.window, g.samples + [s])])
  {
  }

  lemma FirstAdded(window: int, s: Sample)
    ensures Added(FreshAggregator(window), s) == (AggregatorState(window, Some(s), None), None)
  {
  }

  lemma StepIsUpload(p: Params, a: AgentState, env: UploadEnv)
    requires a.ledger.generations != []
    ensures Stepped(p, a, UploadTick(env)) == Uploaded(p, a, env, false)
  {
    hide Uploaded;
  }

  lemma {:induction false} TwoReadings(p: Params, settings: Settings, events: seq<Event>, t0: int, t1: int)
    requires |events| >= 2 && events[0] == Sampling(t0, 0) && events[1] == Sampling(t1, 1) && t0 < t1
    ensures var a := RunTo(p, Start(settings, map[]), events, 2);
      && Working(a, t1, 1, Truncate(t1, Width(settings.window)))
      && a.settings == settings && a.retryAt == a.failures == 0
      && a.ledger.generations == [Generation(settings.window, [Tick(t0, 0), Tick(t1, 1)])]
      && a.ledger.closed == [] && a.ledger.raw == [] && a.ledger.sends == []
  {
    hide Added, Truncate, Width, Stepped, Persisted, Tick, WithSample;
    var s0 := Start(settings, map[]);
    var s1 := RunTo(p, s0, events, 1);
    assert RunTo(p, s0, events, 0) == s0;
    FirstAdded(settings.window, Tick(t0, 0));
    LastGrows(s0.ledger, Tick(t0, 0));
    QuietSampling(p, s0, t0, 0);
    assert [] + [Tick(t0, 0)] == [Tick(t0, 0)];
    TickAdded(s1.agg, t0, t1, 1);
    LastGrows(s1.ledger, Tick(t1, 1));
    QuietSampling(p, s1, t1, 1);
    assert [Tick(t0, 0)] + [Tick(t1, 1)] == [Tick(t0, 0), Tick(t1, 1)];
  }

  /** Three readings, the last in a window of its own, leave one closed window, which is queued. */
  lemma {:induction false} ThreeReadings(p: Params, settings: Settings, events: seq<Event>, t0: int, t1: int, t2: int)
    requires |events| >= 3 && t0 < t1 < t2
    requires events[0] == Sampling(t0, 0) && events[1] == Sampling(t1, 1) && events[2] == Sampling(t2, 2)
    requires Truncate(t1, Width(settings.window)) != Truncate(t2, Width(settings.window))
    ensures var a := RunTo(p, Start(settings, map[]), events, 3);
      && Working(a, t2, 2, Truncate(t2, Width(settings.window)))
      && a.settings == settings && a.retryAt == a.failures == 0
      && a.ledger.generations == [Generation(settings.window, [Tick(t0, 0), Tick(t1, 1), Tick(t2, 2)])]
      && |a.ledger.closed| == |a.ledger.raw| == 1 && a.ledger.sends == []
      && a.ledger.closed[0] in Queue(a.spool.dir)
      && a.ledger.raw[0].facts.start == Truncate(t1, Width(settings.window))
  {
    hide Added, Truncate, Width, Stepped, Persisted, Queue, Tick, WithSample, NewEntry;
    var a := RunTo(p, Start(settings, map[]), events, 2);
    TwoReadings(p, settings, events, t0, t1);
    TickAdded(a.agg, t1, t2, 2);
    LastGrows(a.ledger, Tick(t2, 2));
    ClosingSampling(p, a, t2, 2);
    assert [Tick(t0, 0), Tick(t1, 1)] + [Tick(t2, 2)] == [Tick(t0, 0), Tick(t1, 1), Tick(t2, 2)];
    var (agg, out) := Added(a.agg, Tick(t2, 2));
    LightPersist(p, a.(agg := agg, ledger := WithSample(a.ledger, Tick(t2, 2))), out.value);
  }

  lemma TickInstant(at: int, k: uint32)
    ensures Tick(at, k).at == at
  {
  }

  /** Instants from `low` on are in range if the widths leave room above the epoch. */
  lemma InRangeAll(window: int, ss: seq<Sample>, low: int)
    requires EPOCH + Width(window) <= low
    requires forall i | 0 <= i < |ss| :: low <= ss[i].at < EPOCH + TWO_63
    ensures InRange(window, ss)
  {
    hide Truncate, Width;
    forall s | s in ss
      ensures EPOCH <= Truncate(s.at, Width(window)) && s.at < EPOCH + TWO_63
    {
      var i :| 0 <= i < |ss| && ss[i] == s;
      assert Truncate(s.at, Width(window)) > s.at - Width(window);
    }
  }

  lemma EarlierStartListedFirst(raw: seq<BucketValue>, closed: seq<Entry>, seqNo: uint32, x: nat, y: nat)
    requires Numbered(raw, closed, seqNo)
    requires x < |closed| && y < |closed| && closed[x].name != "" && closed[y].name != ""
    requires EPOCH <= raw[y].facts.start < raw[x].facts.start < EPOCH + TWO_63
    ensures Below(closed[y].name, closed[x].name)
  {
    hide NamedRight, Below, UnixNano, SeqOf;
    NanosInOrder(raw[y].facts.start, raw[x].facts.start);
    NamesByKey(raw, closed, seqNo, y, x);
  }

  lemma EmptyQueue()
    ensures Queue(map[]) == []
  {
    assert WindowNames(map[]) == {};
    ListingUnique({}, []);
  }
}
