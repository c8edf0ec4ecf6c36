/** A change to a width that does not divide the one in force reorders windows: the run that shows it, for every such
    pair of widths, and the exact condition over runs. */
module Reordering {
  import opened Clock
  import opened Wrappers
  import opened Aggregation
  import opened ByteOrder
  import opened FileNames
  import opened SpoolModel
  import opened WireConfig
  import opened Ship
  import opened AgentModel
  import opened Accounts
  import opened AgentTheorems
  import opened Delivery
  import opened Scenarios

  // ----- The instant -----

  const LATE: int := EPOCH + 600 * SECOND

  /** Some 36 years: five multiples of such a width fit into the range of 64-bit Unix time. */
  const WIDEST: int := 0x1000_0000_0000_0000

  /** At this instant the width `y` is within its window, and not about to end it. */
  predicate Clashes(m: int, y: int)
    requires y > 0
  {
    0 < m % y && m % y + 2 < y
  }

  /** A multiple of the width `w` that clashes with the width `y`. */
  function Clash(w: int, y: int): int
    requires w > 0 && y > 0
  {
    var m := (LATE / w + 2) * w;
    if Clashes(m, y) then m
    else if Clashes(m + w, y) then m + w
    else if Clashes(m + 2 * w, y) then m + 2 * w
    else m + 3 * w
  }

  lemma AddRemainders(m: int, w: int, y: int)
    requires y > 0
    ensures var sum := m % y + w % y; (m + w) % y == if sum < y then sum else sum - y
  {
    var sum := m % y + w % y;
    var q := m / y + w / y;
    assert m == m / y * y + m % y && w == w / y * y + w % y;
    assert q * y == m / y * y + w / y * y;
    assert (q + 1) * y == q * y + y;
    RemainderUnique(m + w, y, if sum < y then q else q + 1, if sum < y then sum else sum - y);
  }

  /** Of four successive multiples at least one clashes, unless the new width divides the old one. */
  lemma OneClashes(m: int, w: int, y: int)
    requires y > 6 && w % y != 0
    ensures Clashes(m, y) || Clashes(m + w, y) || Clashes(m + 2 * w, y) || Clashes(m + 3 * w, y)
  {
    AddRemainders(m, w, y);
    AddRemainders(m + w, w, y);
    AddRemainders(m + 2 * w, w, y);
    assert m + w + w == m + 2 * w && m + 2 * w + w == m + 3 * w;
  }

  lemma ClashWorks(w: int, y: int)
    requires w > 0 && y > 6 && w % y != 0
    ensures Clashes(Clash(w, y), y)
    ensures Clash(w, y) % w == 0
    ensures LATE + w < Clash(w, y) <= LATE + 5 * w
  {
    hide Clashes;
    var k := LATE / w;
    var m := (k + 2) * w;
    assert LATE == k * w + LATE % w && m == k * w + 2 * w;
    assert m + w == (k + 3) * w && m + 2 * w == (k + 4) * w && m + 3 * w == (k + 5) * w;
    OneClashes(m, w, y);
    MultipleHasNoRemainder(k + 2, w);
    MultipleHasNoRemainder(k + 3, w);
    MultipleHasNoRemainder(k + 4, w);
    MultipleHasNoRemainder(k + 5, w);
  }

  lemma StartBefore(s: int, y: int)
    requires y > 0 && Clashes(s, y)
    ensures Truncate(s + 2, y) < s
  {
    RemainderUnique(s + 2, y, s / y, s % y + 2);
  }

  // ----- The run -----

  /** An upload whose reply names a width of `v` seconds. */
  function Reply(v: int64): UploadEnv {
    UploadEnv(0, {}, Answered(200, Some(Response(1, Config(0, 0, v)))), 0, 0, LIGHT)
  }

  /** Three readings up to the instant, a reply, and two readings after it. */
  function ReorderingRun(s: int, v: int64): seq<Event> {
    [Sampling(s - 2, 0), Sampling(s - 1, 1), Sampling(s, 2), UploadTick(Reply(v)), Sampling(s + 1, 3), Sampling(s + 2, 4)]
  }

  lemma ReplyApplied(s: Settings, v: int64)
    requires 1 <= v <= 300
    ensures Config(0, 0, v).Applied(s) == Some(s.(window := v * SECOND))
  {
    hide Wrap64;
    HonouredIff(Config(0, 0, v), Window);
  }

  /** A change of width with a window in progress. */
  lemma WidthChanged(p: Params, a: AgentState, v: int64)
    requires 1 <= v <= 300 && a.settings.window != v * SECOND
    requires a.agg.current.Some? && a.agg.current.value.facts.samples > 0
    ensures var z := Configured(p, a, Config(0, 0, v), LIGHT);
      var b := Persisted(p, a.(agg := AfterFlush(a.agg)), a.agg.current.value, LIGHT);
      z == b.(agg := FreshAggregator(v * SECOND), settings := a.settings.(window := v * SECOND),
              ledger := b.ledger.(generations := b.ledger.generations + [Generation(v * SECOND, [])]))
  {
    hide Config.Applied, AfterAdd, Recorded;
    ReplyApplied(a.settings, v);
  }

  lemma AcceptedReply(p: Params, a: AgentState, at: int, v: int64, start: int)
    requires Working(a, at, 2, start)
    requires Queue(a.spool.dir) != [] && a.retryAt == 0
    requires 1 <= v <= 300 && a.settings.window != v * SECOND
    ensures var z := Uploaded(p, a, Reply(v), false); var e := NewEntry(a.spool, a.agg.current.value);
      && z.agg == FreshAggregator(v * SECOND)
      && z.settings == a.settings.(window := v * SECOND)
      && z.retryAt == 0 && AllEmpty(z.spool.dir)
      && z.ledger.raw == a.ledger.raw + [a.agg.current.value]
      && z.ledger.closed == a.ledger.closed + [e]
      && z.ledger.generations == a.ledger.generations + [Generation(v * SECOND, [])]
      && e in Queue(z.spool.dir)
  {
    hide Queue, Files, PeekScan, Params.MaxBatch, Config.Applied, Configured, Persisted, Tick, NameFor;
    var env := Reply(v);
    PeekSpecification(a.spool.dir, p.MaxBatch(), {});
    var scan := PeekScan(a.spool.dir, p.MaxBatch(), {});
    var d := Discarded(AfterPeek(a.spool.dir, p.MaxBatch(), {}), scan.entries);
    var r := SendRecord(0, scan.entries, env.exchange, 0, 0, false);
    var s := WithSend(WithDir(a, d).(failures := 0, retryAt := 0), r);
    assert Uploaded(p, a, env, false) == Configured(p, s, Config(0, 0, v), LIGHT);
    WidthChanged(p, s, v);
    LightPersist(p, s.(agg := AfterFlush(s.agg)), a.agg.current.value);
  }

  lemma {:induction false} SixEvents(p: Params, settings: Settings, s: int, v: int64)
    requires Truncate(s, Width(settings.window)) == s
    requires 1 <= v <= 300 && settings.window != v * SECOND
    ensures var a := RunTo(p, Start(settings, map[]), ReorderingRun(s, v), 6);
      && Working(a, s + 2, 4, Truncate(s + 2, v * SECOND))
      && a.ledger.generations == [
           Generation(settings.window, [Tick(s - 2, 0), Tick(s - 1, 1), Tick(s, 2)]),
           Generation(v * SECOND, [Tick(s + 1, 3), Tick(s + 2, 4)])]
      && |a.ledger.closed| == |a.ledger.raw| == 2
      && a.ledger.raw[1].facts.start == s
      && a.ledger.closed[1] in Queue(a.spool.dir)
  {
    hide Added, Truncate, Stepped, Uploaded, Queue, Tick, WithSample, NewEntry, Config.Applied;
    var events, s0 := ReorderingRun(s, v), Start(settings, map[]);
    var s3, s4, s5 := RunTo(p, s0, events, 3), RunTo(p, s0, events, 4), RunTo(p, s0, events, 5);
    ThreeReadings(p, settings, events, s - 2, s - 1, s);
    AcceptedReply(p, s3, s, v, s);
    assert s4 == Uploaded(p, s3, Reply(v), false) by { StepIsUpload(p, s3, Reply(v)); }
    FirstAdded(v * SECOND, Tick(s + 1, 3));
    LastGrows(s4.ledger, Tick(s + 1, 3));
    QuietSampling(p, s4, s + 1, 3);
    assert [] + [Tick(s + 1, 3)] == [Tick(s + 1, 3)];
    TickAdded(s5.agg, s + 1, s + 2, 4);
    LastGrows(s5.ledger, Tick(s + 2, 4));
    QuietSampling(p, s5, s + 2, 4);
    assert [Tick(s + 1, 3)] + [Tick(s + 2, 4)] == [Tick(s + 1, 3), Tick(s + 2, 4)];
  }

  /** The shutdown persists the last window, and its request is lost. */
  lemma LastFlush(p: Params, a: AgentState, at: int, start: int)
    requires Working(a, at, 4, start)
    ensures var z := ShutDown(p, a, LIGHT, LOST); var e := NewEntry(a.spool, a.agg.current.value);
      && z.ledger.closed == a.ledger.closed + [e] && z.ledger.raw == a.ledger.raw + [a.agg.current.value]
      && z.ledger.generations == a.ledger.generations
      && e in Queue(z.spool.dir)
      && forall f | f in Queue(a.spool.dir) && f.name != e.name :: f in Queue(z.spool.dir)
  {
    hide Queue, Uploaded, Persisted, Tick, NewEntry;
    var b := Persisted(p, a.(agg := AfterFlush(a.agg)), a.agg.current.value, LIGHT);
    LightPersist(p, a.(agg := AfterFlush(a.agg)), a.agg.current.value);
    UploadRetention(p, b.(retryAt := 0), LOST, true);
  }

  // ----- The order it ends in -----

  /** If a window closed later is queued and listed before one closed earlier, order is lost. */
  lemma ListedEarlier(z: AgentState, x: nat, y: nat)
    requires x < y < |z.ledger.closed|
    requires z.ledger.closed[x] in Queue(z.spool.dir) && z.ledger.closed[y] in Queue(z.spool.dir)
    requires Below(z.ledger.closed[y].name, z.ledger.closed[x].name)
    ensures !Fifo(z)
  {
    hide Queue, Below, Delivered;
    var q, before := Queue(z.spool.dir), Delivered(z.ledger.sends);
    var i :| 0 <= i < |q| && q[i] == z.ledger.closed[y];
    var j :| 0 <= j < |q| && q[j] == z.ledger.closed[x];
    SortedIff(z.spool.dir, i, j);
    assert Line(z)[|before| + i] == z.ledger.closed[y] && Line(z)[|before| + j] == z.ledger.closed[x];
  }

  /** How the run ends. */
  lemma {:induction false} ReorderingEnd(p: Params, settings: Settings, s: int, v: int64)
    requires Truncate(s, Width(settings.window)) == s
    requires 1 <= v <= 300 && settings.window != v * SECOND
    requires EPOCH <= Truncate(s + 2, v * SECOND) < s < EPOCH + TWO_63
    ensures var z := ShutDown(p, RunTo(p, Start(settings, map[]), ReorderingRun(s, v), 6), LIGHT, LOST);
      && !Fifo(z)
      && |z.ledger.closed| == |z.ledger.raw| == 3
      && z.ledger.generations == [
           Generation(settings.window, [Tick(s - 2, 0), Tick(s - 1, 1), Tick(s, 2)]),
           Generation(v * SECOND, [Tick(s + 1, 3), Tick(s + 2, 4)])]
  {
    hide Truncate, RunTo, ShutDown, Queue, Tick, NewEntry, Numbered, Below, Fifo, NameFor;
    var a := RunTo(p, Start(settings, map[]), ReorderingRun(s, v), 6);
    var z := ShutDown(p, a, LIGHT, LOST);
    SixEvents(p, settings, s, v);
    LastFlush(p, a, s + 2, Truncate(s + 2, v * SECOND));
    RunNumbers(p, settings, map[], ReorderingRun(s, v), 6);
    ShutdownNumbers(p, a, LIGHT, LOST);
    WindowFilesHaveNames(a.spool.dir);
    WindowFilesHaveNames(z.spool.dir);
    EarlierStartListedFirst(z.ledger.raw, z.ledger.closed, z.spool.seqNo, 1, 2);
    BelowIrreflexive(z.ledger.closed[1].name);
    ListedEarlier(z, 1, 2);
  }

  /** The streams are those of a process whose width was `w` all along or was changed once, to `v`. */
  predicate OneChange(gens: seq<Generation>, w: int, v: int) {
    && 0 < |gens| <= 2
    && gens[0].window == w
    && (|gens| == 2 ==> gens[1].window == v)
  }

  lemma {:induction false} ReorderingIsRegular(l: Ledger, s: int, x: int, y: int)
    requires |l.closed| == |l.raw| == 3
    requires l.generations == [
      Generation(x, [Tick(s - 2, 0), Tick(s - 1, 1), Tick(s, 2)]), Generation(y, [Tick(s + 1, 3), Tick(s + 2, 4)])]
    requires EPOCH + Width(x) <= s - 2 && EPOCH + Width(y) <= s - 2 && s + 2 < EPOCH + TWO_63
    ensures Regular([], l) && OneChange(l.generations, x, y)
  {
    hide SeqOf, SeqBefore, SamplesOf, NeverBack, InRange, Below, Width;
    TicksInOrder(l.generations, s);
    FiveTicks(s);
    InRangeAll(x, [Tick(s - 2, 0), Tick(s - 1, 1), Tick(s, 2)], s - 2);
    InRangeAll(y, [Tick(s + 1, 3), Tick(s + 2, 4)], s - 2);
    forall i, j | 0 <= i < j < |l.closed| && l.closed[i].name != "" && l.closed[j].name != ""
      ensures SeqBefore(SeqOf(l.closed, i), SeqOf(l.closed, j))
    {
      FewWindowsInOrder(l.closed, i, j);
    }
  }

  lemma {:induction false} TicksInOrder(gens: seq<Generation>, s: int)
    requires |gens| == 2
    requires gens[0].samples == [Tick(s - 2, 0), Tick(s - 1, 1), Tick(s, 2)]
    requires gens[1].samples == [Tick(s + 1, 3), Tick(s + 2, 4)]
    ensures NeverBack(SamplesOf(gens))
  {
    hide *;
    TwoStreams(gens);
    FiveTicks(s);
    assert SamplesOf(gens) == [Tick(s - 2, 0), Tick(s - 1, 1), Tick(s, 2), Tick(s + 1, 3), Tick(s + 2, 4)];
  }

  lemma {:induction false} TwoStreams(gens: seq<Generation>)
    requires |gens| == 2
    ensures SamplesOf(gens) == gens[0].samples + gens[1].samples
  {
    hide *;
    ClosedByAppend([], gens[0]);
    ClosedByAppend([gens[0]], gens[1]);
    NoStreams();
    assert [] + [gens[0]] == [gens[0]];
    assert gens == [gens[0]] + [gens[1]];
  }

  lemma FiveTicks(s: int)
    ensures NeverBack([Tick(s - 2, 0), Tick(s - 1, 1), Tick(s, 2), Tick(s + 1, 3), Tick(s + 2, 4)])
    ensures Tick(s - 2, 0).at == s - 2 && Tick(s - 1, 1).at == s - 1 && Tick(s, 2).at == s
    ensures Tick(s + 1, 3).at == s + 1 && Tick(s + 2, 4).at == s + 2
  {
    hide Tick;
    TickInstant(s - 2, 0);
    TickInstant(s - 1, 1);
    TickInstant(s, 2);
    TickInstant(s + 1, 3);
    TickInstant(s + 2, 4);
  }

  /** For every width a process may be started with and every width a reply may name that does not divide it there
      is a run, regular and with one change of width, that is not first in, first out. */
  lemma {:induction false} ReorderingRunBreaksFifo(p: Params, settings: Settings, v: int64)
    requires 1 <= v <= 300
    requires Width(settings.window) <= WIDEST && Width(settings.window) % (v * SECOND) != 0
    ensures var s := Clash(Width(settings.window), v * SECOND);
      var z := ShutDown(p, RunTo(p, Start(settings, map[]), ReorderingRun(s, v), 6), LIGHT, LOST);
      && Regular([], z.ledger)
      && OneChange(z.ledger.generations, settings.window, v * SECOND)
      && !Fifo(z)
  {
    hide RunTo, ShutDown, Truncate, Clash, Regular, OneChange, Fifo;
    var w, y := Width(settings.window), v * SECOND;
    var s := Clash(w, y);
    ClashWorks(w, y);
    AlignedInstant(s, w);
    StartBefore(s, y);
    assert settings.window != y by {
      if settings.window == y {
        SelfDivides(y);
      }
    }
    ReorderingEnd(p, settings, s, v);
    var z := ShutDown(p, RunTo(p, Start(settings, map[]), ReorderingRun(s, v), 6), LIGHT, LOST);
    ReorderingIsRegular(z.ledger, s, settings.window, y);
  }

  lemma SelfDivides(w: int)
    requires w > 0
    ensures w % w == 0
  {
  }

  /** A change of width to `v` seconds is safe, for every regular run over any spool, exactly if `v` seconds divide
      the width in force: the platform can tell before it replies. */
  lemma {:induction false} WidthChangeSafeIff(p: Params, settings: Settings, v: int64)
    requires 1 <= v <= 300
    requires Width(settings.window) <= WIDEST
    ensures (forall d, events, io, env :: SafeRun(p, settings, v * SECOND, d, events, io, env)) <==>
      Width(settings.window) % (v * SECOND) == 0
    ensures (forall events, io, env :: SafeRun(p, settings, v * SECOND, map[], events, io, env)) <==>
      Width(settings.window) % (v * SECOND) == 0
  {
    hide RunTo, ShutDown, Regular, OneChange, Fifo, SafeRun;
    if Width(settings.window) % (v * SECOND) == 0 {
      forall d, events, io, env
        ensures SafeRun(p, settings, v * SECOND, d, events, io, env)
      {
        DividingIsSafe(p, settings, v * SECOND, d, events, io, env);
      }
    } else {
      UnsafeRun(p, settings, v);
    }
  }

  /** One run is first in, first out unless it is irregular or changes the width otherwise. */
  ghost predicate SafeRun(p: Params, settings: Settings, v: int, d: Directory, events: seq<Event>, io: WriteIo,
                          env: UploadEnv)
  {
    var z := ShutDown(p, RunTo(p, Start(settings, d), events, |events|), io, env);
    Regular(Queue(d), z.ledger) && OneChange(z.ledger.generations, settings.window, v) ==> Fifo(z)
  }

  /** This half holds for widths of any size. */
  lemma {:induction false} DividingIsSafe(p: Params, settings: Settings, v: int, d: Directory, events: seq<Event>,
                                          io: WriteIo, env: UploadEnv)
    requires v > 0 && Width(settings.window) % v == 0
    ensures SafeRun(p, settings, v, d, events, io, env)
  {
    hide RunTo, ShutDown, Regular, OneChange, Fifo, Queue;
    var z := ShutDown(p, RunTo(p, Start(settings, d), events, |events|), io, env);
    if Regular(Queue(d), z.ledger) && OneChange(z.ledger.generations, settings.window, v) {
      OneChangeDivides(z.ledger.generations, settings.window, v);
      DeliveryIsFifo(p, settings, d, events, io, env);
    }
  }

  lemma {:induction false} UnsafeRun(p: Params, settings: Settings, v: int64)
    requires 1 <= v <= 300
    requires Width(settings.window) <= WIDEST && Width(settings.window) % (v * SECOND) != 0
    ensures !SafeRun(
      p, settings, v * SECOND, map[], ReorderingRun(Clash(Width(settings.window), v * SECOND), v), LIGHT, LOST)
  {
    hide RunTo, ShutDown, Regular, OneChange, Fifo, Clash, Queue;
    EmptyQueue();
    ReorderingRunBreaksFifo(p, settings, v);
  }

  lemma OneChangeDivides(gens: seq<Generation>, w: int, v: int)
    requires OneChange(gens, w, v)
    requires v > 0 && Width(w) % v == 0
    ensures Dividing(gens)
  {
  }
}
