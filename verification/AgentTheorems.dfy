/** What holds after every step of every run: the backoff gate, the retention of windows, the cap and the
    schedule. */
module AgentTheorems {
  import opened Clock
  import opened Wrappers
  import opened Windows
  import opened Aggregation
  import opened Streams
  import opened Encoding
  import opened SpoolModel
  import opened Backoffs
  import opened WireConfig
  import opened Ship
  import opened AgentModel
  import opened Conservation
  import opened Accounts

  // ----- Backoff -----

  predicate Succeeds(r: SendRecord) {
    FateOf(r.exchange) == Acknowledged
  }

  /** The number of requests since the last successful one. */
  function Trailing(sends: seq<SendRecord>): nat {
    if sends == [] || Succeeds(sends[|sends| - 1]) then 0 else 1 + Trailing(sends[..|sends| - 1])
  }

  /** The instant before which no request may follow. */
  function NextAllowed(sends: seq<SendRecord>): nat {
    if sends == [] || Succeeds(sends[|sends| - 1]) then 0
    else sends[|sends| - 1].failedAt + sends[|sends| - 1].delay
  }

  /** A delay drawn from below the ceiling for that many failures; an overflowed ceiling leaves only zero. */
  predicate DrawnFor(p: Params, failures: nat, delay: nat) {
    if p.backoff.Ceiling(failures) > 0 then delay < p.backoff.Ceiling(failures) else delay == 0
  }

  /** The requests of a run respect the backoff: each failure draws its delay below the ceiling for its rank
      since the last success, no request but the one at shutdown is made before the delay is over, and every
      request carries at least one window and at most a full batch. */
  ghost predicate Paced(p: Params, sends: seq<SendRecord>) {
    forall i | 0 <= i < |sends| ::
      && 0 < |sends[i].batch| <= p.MaxBatch()
      && (!Succeeds(sends[i]) ==> DrawnFor(p, Trailing(sends[..i + 1]), sends[i].delay))
      && (!sends[i].last ==> NextAllowed(sends[..i]) <= sends[i].at)
  }

  ghost predicate BackoffAgrees(p: Params, a: AgentState) {
    && a.failures == Trailing(a.ledger.sends)
    && a.retryAt == NextAllowed(a.ledger.sends)
    && Paced(p, a.ledger.sends)
    && forall r | r in a.ledger.sends :: !r.last
  }

  lemma TrailingAppend(sends: seq<SendRecord>, r: SendRecord)
    ensures Trailing(sends + [r]) == if Succeeds(r) then 0 else Trailing(sends) + 1
    ensures NextAllowed(sends + [r]) == if Succeeds(r) then 0 else r.failedAt + r.delay
  {
    assert (sends + [r])[..|sends|] == sends;
  }

  lemma PacedAppend(p: Params, sends: seq<SendRecord>, r: SendRecord)
    requires Paced(p, sends)
    requires 0 < |r.batch| <= p.MaxBatch()
    requires !Succeeds(r) ==> DrawnFor(p, Trailing(sends) + 1, r.delay)
    requires !r.last ==> NextAllowed(sends) <= r.at
    ensures Paced(p, sends + [r])
  {
    hide Succeeds, DrawnFor, NextAllowed, Trailing, Params.MaxBatch;
    TrailingAppend(sends, r);
    var all := sends + [r];
    forall i | 0 <= i < |all|
      ensures 0 < |all[i].batch| <= p.MaxBatch()
      ensures !Succeeds(all[i]) ==> DrawnFor(p, Trailing(all[..i + 1]), all[i].delay)
      ensures !all[i].last ==> NextAllowed(all[..i]) <= all[i].at
    {
      if i < |sends| {
        assert all[..i] == sends[..i] && all[..i + 1] == sends[..i + 1];
      } else {
        assert all[..i] == sends && all[..i + 1] == all;
      }
    }
  }

  lemma DelayIsDrawn(p: Params, failures: nat, draw: nat)
    ensures DrawnFor(p, failures, DelayAfter(p, failures, draw))
  {
    hide Backoff.Ceiling;
  }

  lemma SuccessIsAcknowledged(x: Exchange)
    ensures Send(x).Success? <==> FateOf(x) == Acknowledged
    ensures Send(x).Failure? ==> (KindOf(Send(x).error) == Rejected <==> FateOf(x) == Dropped)
  {
    hide Send;
  }

  lemma ConfigKeepsBackoff(p: Params, a: AgentState, c: Config, io: WriteIo)
    ensures var b := Configured(p, a, c, io);
      b.failures == a.failures && b.retryAt == a.retryAt && b.ledger.sends == a.ledger.sends
  {
    hide Config.Applied, AfterAdd, CapLosses, Replaced;
  }

  /** One request, successful or not, keeps the books of the backoff. */
  lemma UploadKeepsBackoff(p: Params, a: AgentState, env: UploadEnv, last: bool)
    requires a.failures == Trailing(a.ledger.sends) && Paced(p, a.ledger.sends)
    requires if last then a.retryAt == 0 else a.retryAt == NextAllowed(a.ledger.sends)
    ensures var b := Uploaded(p, a, env, last);
      && b.failures == Trailing(b.ledger.sends)
      && Paced(p, b.ledger.sends)
      && (b.ledger.sends == a.ledger.sends || exists r: SendRecord :: r.last == last && b.ledger.sends == a.ledger.sends + [r])
      && (if b.ledger.sends == a.ledger.sends then b.retryAt == a.retryAt else b.retryAt == NextAllowed(b.ledger.sends))
  {
    hide Trailing, NextAllowed, Paced, Taken, AfterPeek, Discarded, Send, Configured, DelayAfter, DrawnFor, FateOf,
      Params.MaxBatch;
    if env.now >= a.retryAt {
      TakenIsHead(p, a, env);
      var scan := Taken(p, a, env);
      if !scan.failed && scan.entries != [] {
        SuccessIsAcknowledged(env.exchange);
        var c := WithDir(a, AfterPeek(a.spool.dir, p.MaxBatch(), env.unreadable));
        match Send(env.exchange) {
          case Failure(e) =>
            var delay := DelayAfter(p, a.failures + 1, env.draw);
            var r := SendRecord(env.now, scan.entries, env.exchange, env.failedAt, delay, last);
            DelayIsDrawn(p, a.failures + 1, env.draw);
            TrailingAppend(a.ledger.sends, r);
            PacedAppend(p, a.ledger.sends, r);
          case Success(resp) =>
            var r := SendRecord(env.now, scan.entries, env.exchange, 0, 0, last);
            TrailingAppend(a.ledger.sends, r);
            PacedAppend(p, a.ledger.sends, r);
            ConfigKeepsBackoff(
              p,
              WithSend(WithDir(c, Discarded(c.spool.dir, scan.entries)).(failures := 0, retryAt := 0), r),
              resp.config, env.io);
        }
      }
    }
  }

  lemma SampleKeepsBackoff(p: Params, a: AgentState, reading: Option<Collect.Sample>, io: WriteIo)
    requires a.ledger.generations != []
    ensures var b := Sampled(p, a, reading, io);
      b.failures == a.failures && b.retryAt == a.retryAt && b.ledger.sends == a.ledger.sends && b.settings == a.settings
  {
    hide Added, AfterAdd, CapLosses, Replaced;
  }

  /** In every reachable state the failure count is the number of failed requests since the last success, the
      gate is the instant of the last failure plus its delay, and all requests were paced accordingly. */
  lemma {:induction false} RunKeepsBackoff(p: Params, settings: Settings, d: Directory, events: seq<Event>, n: nat)
    requires n <= |events|
    ensures BackoffAgrees(p, RunTo(p, Start(settings, d), events, n))
  {
    hide Trailing, NextAllowed, Paced, Uploaded, Sampled;
    if n == 0 {
      NoRequests(p);
    } else {
      RunKeepsBackoff(p, settings, d, events, n - 1);
      var a := RunTo(p, Start(settings, d), events, n - 1);
      match events[n - 1] {
        case SampleTick(reading, io) => SampleKeepsBackoff(p, a, reading, io);
        case UploadTick(env) => UploadKeepsBackoff(p, a, env, false);
      }
    }
  }

  lemma NoRequests(p: Params)
    ensures Trailing([]) == 0 && NextAllowed([]) == 0 && Paced(p, [])
  {
  }

  /** What the wait after a failed request can be: exactly the durations from zero up to, not including, the ceiling
      for that many failures, counted from the failure; and none at all under an overflowed ceiling. */
  lemma WaitsAfterFailure(p: Params, a: AgentState, env: UploadEnv, last: bool, wait: nat)
    requires env.now >= a.retryAt && Send(env.exchange).Failure?
    requires !Taken(p, a, env).failed && Taken(p, a, env).entries != []
    ensures var ceiling := p.backoff.Ceiling(a.failures + 1);
      (exists draw: nat :: Uploaded(p, a, env.(draw := draw), last).retryAt == env.failedAt + wait) <==>
        wait < ceiling || (ceiling <= 0 && wait == 0)
  {
    hide PeekScan, AfterPeek, Discarded, Send, Backoff.Ceiling, Params.MaxBatch, Random;
    var ceiling := p.backoff.Ceiling(a.failures + 1);
    forall draw: nat
      ensures Uploaded(p, a, env.(draw := draw), last).retryAt == env.failedAt + Random(ceiling, draw)
    {
    }
    if wait < ceiling {
      EveryDelayCanBeDrawn(ceiling, wait);
      var draw: nat :| Random(ceiling, draw) == wait;
      assert Uploaded(p, a, env.(draw := draw), last).retryAt == env.failedAt + wait;
    } else if ceiling <= 0 && wait == 0 {
      assert Uploaded(p, a, env.(draw := 0), last).retryAt == env.failedAt + wait;
    }
  }

  /** The attempt at shutdown is exempt from the gate, and everything else about the pacing holds for it too. */
  lemma ShutdownKeepsPacing(p: Params, settings: Settings, d: Directory, events: seq<Event>, io: WriteIo, env: UploadEnv)
    ensures Paced(p, ShutDown(p, RunTo(p, Start(settings, d), events, |events|), io, env).ledger.sends)
  {
    hide Trailing, NextAllowed, Paced, Uploaded, RunTo, Flushed;
    RunKeepsBackoff(p, settings, d, events, |events|);
    var a := RunTo(p, Start(settings, d), events, |events|);
    PersistKeepsBackoff(p, a.(agg := AfterFlush(a.agg)), Flushed(a.agg), io);
    var b := PersistedIfAny(p, a.(agg := AfterFlush(a.agg)), Flushed(a.agg), io);
    UploadKeepsBackoff(p, b.(retryAt := 0), env, true);
  }

  lemma PersistKeepsBackoff(p: Params, a: AgentState, b: Option<BucketValue>, io: WriteIo)
    ensures PersistedIfAny(p, a, b, io).failures == a.failures
    ensures PersistedIfAny(p, a, b, io).ledger.sends == a.ledger.sends
  {
    hide AfterAdd, CapLosses, Replaced;
  }

  // ----- Retention -----

  /** The queue `q` and a window `e` handed to the spool are, in `b`, queued, lost to the cap, replaced or never
      written, and nothing else was added to these places since the ledger was `l`. */
  ghost predicate HandedOver(q: seq<Entry>, e: Entry, l: Ledger, b: AgentState) {
    multiset(q) + multiset{e} + multiset(l.capDropped) + multiset(l.replaced) + multiset(l.writeFailed)
      == multiset(Queue(b.spool.dir))
         + multiset(b.ledger.capDropped) + multiset(b.ledger.replaced) + multiset(b.ledger.writeFailed)
  }

  /** What one upload does to the queue. Without a request nothing changes. With one, the batch is the head of
      the queue; a kept batch leaves the queue as it was, a dropped one takes away exactly its windows, and so
      does an acknowledged one, unless the reply also closed a window: that is then handed over to what is left. */
  lemma UploadRetention(p: Params, a: AgentState, env: UploadEnv, last: bool)
    ensures var b := Uploaded(p, a, env, last); var q, q' := Queue(a.spool.dir), Queue(b.spool.dir);
      if b.ledger.sends == a.ledger.sends then q' == q && b.ledger == a.ledger
      else
        && |b.ledger.sends| == |a.ledger.sends| + 1
        && var r := b.ledger.sends[|a.ledger.sends|];
        && b.ledger.sends == a.ledger.sends + [r]
        && r.exchange == env.exchange && r.last == last && r.at == env.now >= a.retryAt
        && 0 < |r.batch| <= |q| && r.batch == q[..|r.batch|]
        && match FateOf(env.exchange)
           case Kept => q' == q && b.ledger == a.ledger.(sends := b.ledger.sends)
           case Dropped => q' == q[|r.batch|..] && b.ledger == a.ledger.(sends := b.ledger.sends)
           case Acknowledged =>
             if b.settings.window == a.settings.window || Flushed(a.agg).None? then
               q' == q[|r.batch|..] && b.ledger.raw == a.ledger.raw && b.ledger.closed == a.ledger.closed
             else
               && b.ledger.raw == a.ledger.raw + [Flushed(a.agg).value]
               && b.ledger.closed == a.ledger.closed + [StoredEntry(a.spool, Flushed(a.agg).value, env.io)]
               && HandedOver(q[|r.batch|..], StoredEntry(a.spool, Flushed(a.agg).value, env.io), a.ledger, b)
  {
    hide Queue, Taken, AfterPeek, Discarded, Send, Configured, FateOf, DelayAfter, Params.MaxBatch, Flushed,
      HandedOver, StoredEntry;
    if env.now >= a.retryAt {
      TakenIsHead(p, a, env);
      var scan := Taken(p, a, env);
      var c := WithDir(a, AfterPeek(a.spool.dir, p.MaxBatch(), env.unreadable));
      if !scan.failed && scan.entries != [] {
        SuccessIsAcknowledged(env.exchange);
        DiscardDropsHead(c.spool.dir, |scan.entries|);
        if Send(env.exchange).Success? {
          var r := SendRecord(env.now, scan.entries, env.exchange, 0, 0, last);
          var s := WithSend(WithDir(c, Discarded(c.spool.dir, scan.entries)).(failures := 0, retryAt := 0), r);
          ConfigRetention(p, s, Send(env.exchange).value.config, env.io);
          EntryByCounter(a.spool, s.spool, Flushed(a.agg), env.io);
          HandedOverLedger(a, s, Configured(p, s, Send(env.exchange).value.config, env.io));
        }
      }
    }
  }

  lemma EntryByCounter(s: SpoolState, t: SpoolState, b: Option<BucketValue>, io: WriteIo)
    requires s.seqNo == t.seqNo
    ensures b.Some? ==> StoredEntry(s, b.value, io) == StoredEntry(t, b.value, io)
  {
    hide Stored;
  }

  /** Requests are no place of the four. */
  lemma HandedOverLedger(a: AgentState, s: AgentState, b: AgentState)
    requires s.ledger == a.ledger.(sends := s.ledger.sends)
    ensures forall q, e :: HandedOver(q, e, s.ledger, b) <==> HandedOver(q, e, a.ledger, b)
  {
    hide Queue;
  }

  lemma {:induction false} ScanFindsAll(d: Directory, names: seq<string>, n: nat, unreadable: set<string>)
    requires !ScanFiles(d, names, n, unreadable).failed
    ensures var q := Decoded(d, names); ScanFiles(d, names, n, unreadable).entries == q[..Min(n, |q|)]
  {
    hide Readable, EntryOf;
    if names != [] && n > 0 {
      ScanFindsAll(d, names[1..], if Readable(d, names[0]) then n - 1 else n, unreadable);
    }
  }

  /** Every request carries a full batch or the whole queue, whatever files cannot be read; and if the gate is
      open, a window is queued and every listed file can be read, there is a request. */
  lemma FullBatch(p: Params, a: AgentState, env: UploadEnv, last: bool)
    ensures var b := Uploaded(p, a, env, last); var q := Queue(a.spool.dir);
      && (b.ledger.sends != a.ledger.sends ==>
            && |b.ledger.sends| == |a.ledger.sends| + 1
            && b.ledger.sends[|a.ledger.sends|].batch == q[..Min(p.MaxBatch(), |q|)])
      && (env.now >= a.retryAt && q != [] && (forall x | x in Files(a.spool.dir) :: x !in env.unreadable) ==>
            b.ledger.sends != a.ledger.sends)
  {
    hide Queue, AfterPeek, Discarded, Send, Configured, DelayAfter, Params.MaxBatch, Files, Decoded, ScanFiles;
    if env.now >= a.retryAt {
      var scan := PeekScan(a.spool.dir, p.MaxBatch(), env.unreadable);
      QueueIsDecoded(a.spool.dir);
      if forall x | x in Files(a.spool.dir) :: x !in env.unreadable {
        PeekSpecification(a.spool.dir, p.MaxBatch(), env.unreadable);
      }
      if !scan.failed {
        ScanFindsAll(a.spool.dir, Files(a.spool.dir), p.MaxBatch(), env.unreadable);
        if scan.entries != [] && Send(env.exchange).Success? {
          var c := WithDir(a, AfterPeek(a.spool.dir, p.MaxBatch(), env.unreadable));
          var r := SendRecord(env.now, scan.entries, env.exchange, 0, 0, last);
          ConfigKeepsBackoff(
            p, WithSend(WithDir(c, Discarded(c.spool.dir, scan.entries)).(failures := 0, retryAt := 0), r),
            Send(env.exchange).value.config, env.io);
        }
      }
    }
  }

  lemma ConfigRetention(p: Params, a: AgentState, c: Config, io: WriteIo)
    ensures var b := Configured(p, a, c, io);
      && b.ledger.sends == a.ledger.sends
      && if b.settings.window == a.settings.window || Flushed(a.agg).None? then
           b.spool == a.spool && b.ledger == a.ledger.(generations := b.ledger.generations)
         else
           && b.ledger.raw == a.ledger.raw + [Flushed(a.agg).value]
           && b.ledger.closed == a.ledger.closed + [StoredEntry(a.spool, Flushed(a.agg).value, io)]
           && HandedOver(Queue(a.spool.dir), StoredEntry(a.spool, Flushed(a.agg).value, io), a.ledger, b)
  {
    hide Config.Applied, AfterAdd, Recorded, Flushed, Queue, StoredEntry;
    if Flushed(a.agg).Some? {
      RecordedBalance(p, a.spool, Flushed(a.agg).value, io, a.ledger);
    }
  }

  /** A reply that changes the width hands the window in progress to the spool, as it is, and starts over with
      the new width. The window, and every one queued before, is then queued, lost to the cap, replaced or, if
      the write failed, recorded as never written. */
  lemma WidthChangeKeepsReadings(p: Params, a: AgentState, c: Config, io: WriteIo)
    requires c.Applied(a.settings).Some?
    requires c.Applied(a.settings).value.window != a.settings.window
    ensures var b := Configured(p, a, c, io); var w := c.Applied(a.settings).value.window;
      && b.agg == FreshAggregator(w) && b.settings.window == w
      && b.ledger.raw == a.ledger.raw + AsSeq(Flushed(a.agg))
      && match Flushed(a.agg)
         case None => b.spool == a.spool
         case Some(flushed) =>
           var e := StoredEntry(a.spool, flushed, io);
           && e.bucket == Stored(flushed)
           && b.ledger.closed == a.ledger.closed + [e]
           && b.ledger.writeFailed == a.ledger.writeFailed + (if io.fault == NoFault then [] else [e])
           && HandedOver(Queue(a.spool.dir), e, a.ledger, b)
  {
    hide Config.Applied, Queue, CapLosses, Replaced, Published, Drops, Files, Flushed, HandedOver, Stored, AfterAdd,
      NameFor;
    ConfigRetention(p, a, c, io);
  }

  /** The batch of every request, in numbers: the configured size, or 360 windows, or what there is. */
  lemma BatchLimit(p: Params, a: AgentState, env: UploadEnv, last: bool)
    requires Uploaded(p, a, env, last).ledger.sends != a.ledger.sends
    ensures var limit, n := if p.maxBatch > 0 then p.maxBatch else 360, |Queue(a.spool.dir)|;
      && |Uploaded(p, a, env, last).ledger.sends| == |a.ledger.sends| + 1
      && |Uploaded(p, a, env, last).ledger.sends[|a.ledger.sends|].batch| == if n < limit then n else limit
  {
    hide Uploaded, Queue;
    FullBatch(p, a, env, last);
  }

  /** Shutdown does not wait: whatever the gate, if windows are queued once the last one is persisted and their
      files can be read, one more request is made, marked as the last, with the first batch of them; and if none is
      queued there is no request. */
  lemma ShutdownSends(p: Params, a: AgentState, io: WriteIo, env: UploadEnv)
    requires var b := PersistedIfAny(p, a.(agg := AfterFlush(a.agg)), Flushed(a.agg), io);
      forall x | x in Files(b.spool.dir) :: x !in env.unreadable
    ensures var b := PersistedIfAny(p, a.(agg := AfterFlush(a.agg)), Flushed(a.agg), io);
      var q, sends := Queue(b.spool.dir), ShutDown(p, a, io, env).ledger.sends;
      if q == [] then sends == a.ledger.sends
      else
        && |sends| == |a.ledger.sends| + 1
        && var r := sends[|a.ledger.sends|];
        && sends == a.ledger.sends + [r]
        && r.last && r.at == env.now && r.exchange == env.exchange
        && r.batch == q[..Min(p.MaxBatch(), |q|)]
  {
    hide Uploaded, Queue, Files, Flushed, PersistedIfAny, FateOf, Params.MaxBatch, HandedOver;
    PersistKeepsBackoff(p, a.(agg := AfterFlush(a.agg)), Flushed(a.agg), io);
    var b := PersistedIfAny(p, a.(agg := AfterFlush(a.agg)), Flushed(a.agg), io).(retryAt := 0);
    FullBatch(p, b, env, true);
    UploadRetention(p, b, env, true);
  }

  // ----- The cap -----

  /** The cap in numbers: the configured size, or 32 MiB. */
  lemma CapInBytes(p: Params, a: AgentState, b: BucketValue, io: WriteIo)
    requires io.fault == NoFault
    ensures var max := if p.maxBytes > 0 then p.maxBytes else 33_554_432;
      var d := Published(a.spool.dir, NameFor(a.spool.seqNo, b), b, io.size);
      var d' := Persisted(p, a, b, io).spool.dir;
      && (Total(d', Files(d')) <= max || |Files(d')| == 1)
      && (d' == d || Total(d, Files(d)) > max)
  {
    hide Total, Files, Published, NameFor, Recorded, Capped, Drops;
    AddRespectsCap(a.spool, p.MaxBytes(), b, io);
    FittingIsKept(Published(a.spool.dir, NameFor(a.spool.seqNo, b), b, io.size), p.MaxBytes());
  }

  lemma FittingIsKept(d: Directory, max: int)
    ensures Total(d, Files(d)) <= max ==> Capped(d, max) == d
  {
    hide Total, Files, Capped;
    if Total(d, Files(d)) <= max {
      FittingKeepsAll(d, max);
    }
  }

  function SumOf(ns: seq<nat>): nat {
    if ns == [] then 0 else SumOf(ns[..|ns| - 1]) + ns[|ns| - 1]
  }

  lemma SumOfAppend(ns: seq<nat>, n: nat)
    ensures SumOf(ns + [n]) == SumOf(ns) + n
  {
    assert (ns + [n])[..|ns|] == ns;
  }

  /** The spool is within its cap, or a single file, if it was at the start or a write has succeeded since; and the
      drop reports, none of them empty, add up to the number of files the cap removed. */
  ghost predicate CapKept(p: Params, init: Directory, a: AgentState) {
    && |a.ledger.writeFailed| <= |a.ledger.closed|
    && (Fits(init, p.MaxBytes()) || |a.ledger.writeFailed| < |a.ledger.closed| ==> Fits(a.spool.dir, p.MaxBytes()))
    && SumOf(a.spool.drops) == |a.ledger.capFiles|
    && (forall n | n in a.spool.drops :: n > 0)
    && |a.ledger.capDropped| <= |a.ledger.capFiles|
  }

  lemma PersistKeepsCap(p: Params, init: Directory, a: AgentState, b: Option<BucketValue>, io: WriteIo)
    requires CapKept(p, init, a)
    ensures CapKept(p, init, PersistedIfAny(p, a, b, io))
  {
    hide Files, Drops, Total, Capped, Published, NameFor, SumOf, Decoded, Stored;
    if b.Some? && io.fault == NoFault {
      var d := Published(a.spool.dir, NameFor(a.spool.seqNo, b.value), b.value, io.size);
      AddRespectsCap(a.spool, p.MaxBytes(), b.value, io);
      DecodedIsShorter(d, Files(d)[..Drops(d, p.MaxBytes())]);
      SumOfAppend(a.spool.drops, Drops(d, p.MaxBytes()));
    }
  }

  lemma {:induction false} DecodedIsShorter(d: Directory, names: seq<string>)
    ensures |Decoded(d, names)| <= |names|
  {
    if names != [] {
      DecodedIsShorter(d, names[1..]);
    }
  }

  lemma RemovalKeepsCap(p: Params, init: Directory, a: AgentState, removed: set<string>)
    requires CapKept(p, init, a)
    ensures CapKept(p, init, WithDir(a, a.spool.dir - removed))
  {
    hide Fits, SumOf, Params.MaxBytes;
    if Fits(a.spool.dir, p.MaxBytes()) {
      RemovingKeepsFit(a.spool.dir, removed, p.MaxBytes());
    }
  }

  lemma ConfigKeepsCap(p: Params, init: Directory, a: AgentState, c: Config, io: WriteIo)
    requires CapKept(p, init, a)
    ensures CapKept(p, init, Configured(p, a, c, io))
  {
    hide Config.Applied, PersistedIfAny, Fits, SumOf, Flushed;
    PersistKeepsCap(p, init, a.(agg := AfterFlush(a.agg)), Flushed(a.agg), io);
  }

  lemma UploadKeepsCap(p: Params, init: Directory, a: AgentState, env: UploadEnv, last: bool)
    requires CapKept(p, init, a)
    ensures CapKept(p, init, Uploaded(p, a, env, last))
  {
    hide PeekScan, Send, Configured, Fits, SumOf, Params.MaxBatch, NameSet, DelayAfter;
    if env.now >= a.retryAt {
      var scan := Taken(p, a, env);
      RemovalKeepsCap(p, init, a, scan.removed);
      var c := WithDir(a, AfterPeek(a.spool.dir, p.MaxBatch(), env.unreadable));
      if !scan.failed && scan.entries != [] {
        RemovalKeepsCap(p, init, c, NameSet(scan.entries));
        if Send(env.exchange).Success? {
          var r := SendRecord(env.now, scan.entries, env.exchange, 0, 0, last);
          ConfigKeepsCap(
            p, init, WithSend(WithDir(c, Discarded(c.spool.dir, scan.entries)).(failures := 0, retryAt := 0), r),
            Send(env.exchange).value.config, env.io);
        }
      }
    }
  }

  lemma SampleKeepsCap(p: Params, init: Directory, a: AgentState, reading: Option<Collect.Sample>, io: WriteIo)
    requires a.ledger.generations != []
    requires CapKept(p, init, a)
    ensures CapKept(p, init, Sampled(p, a, reading, io))
  {
    hide Added, PersistedIfAny, Fits, SumOf;
    if reading.Some? {
      var (agg, completed) := Added(a.agg, reading.value);
      PersistKeepsCap(p, init, a.(agg := agg, ledger := WithSample(a.ledger, reading.value)), completed, io);
    }
  }

  /** In every reachable state the cap is kept and every file lost to it has been reported. */
  lemma {:induction false} RunKeepsCap(p: Params, settings: Settings, d: Directory, events: seq<Event>, n: nat)
    requires n <= |events|
    ensures CapKept(p, d, RunTo(p, Start(settings, d), events, n))
  {
    hide CapKept, Sampled, Uploaded;
    if n == 0 {
      StartKeepsCap(p, settings, d);
    } else {
      RunKeepsCap(p, settings, d, events, n - 1);
      var a := RunTo(p, Start(settings, d), events, n - 1);
      match events[n - 1] {
        case SampleTick(reading, io) => SampleKeepsCap(p, d, a, reading, io);
        case UploadTick(env) => UploadKeepsCap(p, d, a, env, false);
      }
    }
  }

  lemma StartKeepsCap(p: Params, settings: Settings, d: Directory)
    ensures CapKept(p, d, Start(settings, d))
  {
    hide Fits;
  }

  // ----- Schedule -----

  /** Each field of the schedule is what the process was started with or lies within its bounds. */
  predicate ScheduleSane(start: Settings, s: Settings) {
    && (s.interval == start.interval || InBounds(Interval, s.interval))
    && (s.flush == start.flush || InBounds(Flush, s.flush))
    && (s.window == start.window || InBounds(Window, s.window))
  }

  lemma ConfigKeepsSchedule(p: Params, start: Settings, a: AgentState, c: Config, io: WriteIo)
    requires ScheduleSane(start, a.settings)
    ensures ScheduleSane(start, Configured(p, a, c, io).settings)
    ensures !c.Accepted() ==> Configured(p, a, c, io) == a
  {
    hide AfterAdd, CapLosses, Replaced, Config.Asked, Flushed;
    if c.Accepted() {
      AppliedWithinBounds(c, a.settings, Interval);
      AppliedWithinBounds(c, a.settings, Flush);
      AppliedWithinBounds(c, a.settings, Window);
    }
  }

  lemma UploadKeepsSchedule(p: Params, start: Settings, a: AgentState, env: UploadEnv, last: bool)
    requires ScheduleSane(start, a.settings)
    ensures ScheduleSane(start, Uploaded(p, a, env, last).settings)
  {
    hide Taken, AfterPeek, Discarded, Send, Configured, ScheduleSane, Params.MaxBatch;
    if env.now >= a.retryAt {
      var scan := Taken(p, a, env);
      if !scan.failed && scan.entries != [] && Send(env.exchange).Success? {
        var c := WithDir(a, AfterPeek(a.spool.dir, p.MaxBatch(), env.unreadable));
        var r := SendRecord(env.now, scan.entries, env.exchange, 0, 0, last);
        ConfigKeepsSchedule(
          p, start,
          WithSend(WithDir(c, Discarded(c.spool.dir, scan.entries)).(failures := 0, retryAt := 0), r),
          Send(env.exchange).value.config, env.io);
      }
    }
  }

  /** What a reply asks of one period: nothing if the field is zero, else that many seconds in 64-bit arithmetic. */
  function Wanted(seconds: int64, current: int64): int64 {
    if seconds == 0 then current else Wrap64(seconds * 1_000_000_000)
  }

  predicate Within(seconds: int64, low: int, high: int) {
    seconds == 0 || low * 1_000_000_000 <= Wrap64(seconds * 1_000_000_000) <= high * 1_000_000_000
  }

  /** The schedule a reply leaves: all three periods as it asks, if all are within their limits, or none. */
  function Adopted(s: Settings, c: Config): Settings {
    if Within(c.intervalSeconds, 1, 300) && Within(c.flushSeconds, 10, 3600) && Within(c.windowSeconds, 1, 300) then
      Settings(Wanted(c.intervalSeconds, s.interval), Wanted(c.flushSeconds, s.flush), Wanted(c.windowSeconds, s.window))
    else s
  }

  /** The schedule that the acknowledged requests, in their order, make of the one at the start. */
  function ScheduleAfter(start: Settings, sends: seq<SendRecord>): Settings {
    if sends == [] then start
    else
      var before := ScheduleAfter(start, sends[..|sends| - 1]);
      var x := sends[|sends| - 1].exchange;
      if x.Answered? && 200 <= x.status <= 299 && x.body.Some? then Adopted(before, x.body.value.config) else before
  }

  lemma ScheduleAppend(start: Settings, sends: seq<SendRecord>, r: SendRecord)
    ensures var s := ScheduleAfter(start, sends);
      ScheduleAfter(start, sends + [r])
        == if Send(r.exchange).Success? then Adopted(s, Send(r.exchange).value.config) else s
  {
    hide Adopted;
    assert (sends + [r])[..|sends|] == sends;
  }

  /** Adopting a reply is adopting each period it asks for, whether the width is among them or not. */
  lemma ConfigAdopts(p: Params, a: AgentState, c: Config, io: WriteIo)
    ensures Configured(p, a, c, io).settings == Adopted(a.settings, c)
    ensures Configured(p, a, c, io).ledger.sends == a.ledger.sends
  {
    hide AfterAdd, Recorded, Wrap64, Flushed;
    ConfigKeepsBackoff(p, a, c, io);
  }

  lemma UploadFollowsReplies(p: Params, start: Settings, a: AgentState, env: UploadEnv, last: bool)
    requires a.settings == ScheduleAfter(start, a.ledger.sends)
    ensures var b := Uploaded(p, a, env, last); b.settings == ScheduleAfter(start, b.ledger.sends)
  {
    hide Taken, AfterPeek, Discarded, Send, Configured, ScheduleAfter, Params.MaxBatch, DelayAfter;
    if env.now >= a.retryAt {
      var scan := Taken(p, a, env);
      if !scan.failed && scan.entries != [] {
        var c := WithDir(a, AfterPeek(a.spool.dir, p.MaxBatch(), env.unreadable));
        match Send(env.exchange) {
          case Failure(e) =>
            ScheduleAppend(
              start, a.ledger.sends,
              SendRecord(
                env.now, scan.entries, env.exchange, env.failedAt, DelayAfter(p, a.failures + 1, env.draw), last));
          case Success(reply) =>
            var r := SendRecord(env.now, scan.entries, env.exchange, 0, 0, last);
            ScheduleAppend(start, a.ledger.sends, r);
            ConfigAdopts(
              p, WithSend(WithDir(c, Discarded(c.spool.dir, scan.entries)).(failures := 0, retryAt := 0), r),
              reply.config, env.io);
        }
      }
    }
  }

  /** In every reachable state the schedule is exactly what the replies so far have made of the one the process was
      started with. */
  lemma {:induction false} RunFollowsReplies(p: Params, settings: Settings, d: Directory, events: seq<Event>, n: nat)
    requires n <= |events|
    ensures var a := RunTo(p, Start(settings, d), events, n); a.settings == ScheduleAfter(settings, a.ledger.sends)
  {
    hide Uploaded, Sampled, Adopted;
    if n > 0 {
      RunFollowsReplies(p, settings, d, events, n - 1);
      var a := RunTo(p, Start(settings, d), events, n - 1);
      match events[n - 1] {
        case SampleTick(reading, io) => SampleKeepsBackoff(p, a, reading, io);
        case UploadTick(env) => UploadFollowsReplies(p, settings, a, env, false);
      }
    }
  }

  /** The shutdown included. */
  lemma {:induction false} ShutdownFollowsReplies(p: Params, settings: Settings, d: Directory, events: seq<Event>,
                                                  io: WriteIo, env: UploadEnv)
    ensures var z := ShutDown(p, RunTo(p, Start(settings, d), events, |events|), io, env);
      z.settings == ScheduleAfter(settings, z.ledger.sends)
  {
    hide Uploaded, RunTo, Flushed, ScheduleAfter, PersistedIfAny;
    RunFollowsReplies(p, settings, d, events, |events|);
    var a := RunTo(p, Start(settings, d), events, |events|);
    PersistKeepsBackoff(p, a.(agg := AfterFlush(a.agg)), Flushed(a.agg), io);
    PersistKeepsAgg(p, a.(agg := AfterFlush(a.agg)), Flushed(a.agg), io);
    var b := PersistedIfAny(p, a.(agg := AfterFlush(a.agg)), Flushed(a.agg), io);
    UploadFollowsReplies(p, settings, b.(retryAt := 0), env, true);
  }

  /** Whatever the platform replies, the schedule stays sane and the aggregator works with the width it names. */
  lemma {:induction false} RunKeepsSchedule(p: Params, settings: Settings, d: Directory, events: seq<Event>, n: nat)
    requires n <= |events|
    ensures var a := RunTo(p, Start(settings, d), events, n);
      ScheduleSane(settings, a.settings) && a.agg.window == a.settings.window
  {
    hide Uploaded, Sampled, ScheduleSane;
    RunAgrees(p, settings, d, events, n);
    var a := RunTo(p, Start(settings, d), events, n);
    var g := a.ledger.generations[|a.ledger.generations| - 1];
    FedKeepsWindow(g.window, g.samples, |g.samples|);
    if n == 0 {
      StartIsSane(settings);
    } else {
      RunKeepsSchedule(p, settings, d, events, n - 1);
      var b := RunTo(p, Start(settings, d), events, n - 1);
      match events[n - 1] {
        case SampleTick(reading, io) => SampleKeepsBackoff(p, b, reading, io);
        case UploadTick(env) => UploadKeepsSchedule(p, settings, b, env, false);
      }
    }
  }

  lemma StartIsSane(settings: Settings)
    ensures ScheduleSane(settings, settings)
  {
  }
}
