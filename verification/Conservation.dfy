/** Every window is in exactly one place, over every run. */
module Conservation {
  import opened Windows
  import opened Aggregation
  import opened SpoolModel
  import opened WireConfig
  import opened Ship
  import opened AgentModel

  /** The windows of all requests that ended with the given fate, in order. */
  function BatchesWith(sends: seq<SendRecord>, fate: Fate): seq<Entry> {
    if sends == [] then []
    else
      var r := sends[|sends| - 1];
      BatchesWith(sends[..|sends| - 1], fate) + if FateOf(r.exchange) == fate then r.batch else []
  }

  lemma BatchesWithAppend(sends: seq<SendRecord>, r: SendRecord, fate: Fate)
    ensures BatchesWith(sends + [r], fate)
      == BatchesWith(sends, fate) + if FateOf(r.exchange) == fate then r.batch else []
  {
    assert (sends + [r])[..|sends|] == sends;
  }

  /** Where the windows are: queued, acknowledged by the platform, dropped after a rejection, lost to the cap,
      replaced by a later window of the same name, or never written. */
  ghost function Placed(a: AgentState): multiset<Entry> {
    multiset(Queue(a.spool.dir))
      + multiset(BatchesWith(a.ledger.sends, Acknowledged)) + multiset(BatchesWith(a.ledger.sends, Dropped))
      + multiset(a.ledger.capDropped) + multiset(a.ledger.replaced) + multiset(a.ledger.writeFailed)
  }

  /** The windows found at the start and those closed since are, each as often as it was stored, in one place. */
  ghost predicate Conserved(init: seq<Entry>, a: AgentState) {
    multiset(init) + multiset(a.ledger.closed) == Placed(a)
  }

  lemma PersistConserves(p: Params, a: AgentState, b: BucketValue, io: WriteIo, init: seq<Entry>)
    requires Conserved(init, a)
    ensures Conserved(init, Persisted(p, a, b, io))
  {
    hide Queue, CapLosses, Replaced, Capped, Drops, BatchesWith, NewEntry, NameFor, Published, StoredEntry, AfterAdd,
      Recorded;
    var l, e := Recorded(p, a.spool, b, io, a.ledger), StoredEntry(a.spool, b, io);
    RecordedBalance(p, a.spool, b, io, a.ledger);
    var after := Persisted(p, a, b, io);
    assert multiset(l.closed) == multiset(a.ledger.closed) + multiset{e};
    forall x: Entry
      ensures (multiset(init) + multiset(l.closed))[x] == Placed(after)[x]
    {
      assert (multiset(init) + multiset(a.ledger.closed))[x] == Placed(a)[x];
      assert (multiset(Queue(a.spool.dir)) + multiset{e}
        + multiset(a.ledger.capDropped) + multiset(a.ledger.replaced) + multiset(a.ledger.writeFailed))[x]
        == (multiset(Queue(after.spool.dir)) + multiset(l.capDropped) + multiset(l.replaced) + multiset(l.writeFailed))[x];
    }
  }

  /** The entries a write adds to the ledger balance against the change of the queue. */
  lemma RecordedBalance(p: Params, s: SpoolState, b: BucketValue, io: WriteIo, l: Ledger)
    ensures var l', e := Recorded(p, s, b, io, l), StoredEntry(s, b, io);
      && l'.closed == l.closed + [e] && l'.sends == l.sends && l'.raw == l.raw + [b]
      && l'.generations == l.generations
      && multiset(Queue(s.dir)) + multiset{e}
           + multiset(l.capDropped) + multiset(l.replaced) + multiset(l.writeFailed)
         == multiset(Queue(AfterAdd(s, p.MaxBytes(), b, io).dir))
           + multiset(l'.capDropped) + multiset(l'.replaced) + multiset(l'.writeFailed)
  {
    hide Queue, CapLosses, Replaced, Capped, Drops, NameFor, Published;
    if io.fault == NoFault {
      AddConserves(s, p.MaxBytes(), b, io);
    }
  }

  lemma DiscardConserves(a: AgentState, k: nat, r: SendRecord, init: seq<Entry>)
    requires Conserved(init, a)
    requires k <= |Queue(a.spool.dir)| && r.batch == Queue(a.spool.dir)[..k]
    requires FateOf(r.exchange) != Kept
    ensures Conserved(init, WithDir(WithSend(a, r), Discarded(a.spool.dir, r.batch)))
  {
    hide Queue, Discarded, FateOf, BatchesWith;
    var q := Queue(a.spool.dir);
    DiscardDropsHead(a.spool.dir, k);
    assert q == q[..k] + q[k..];
    BatchesWithAppend(a.ledger.sends, r, Acknowledged);
    BatchesWithAppend(a.ledger.sends, r, Dropped);
  }

  lemma KeepConserves(a: AgentState, r: SendRecord, init: seq<Entry>)
    requires Conserved(init, a)
    requires FateOf(r.exchange) == Kept
    ensures Conserved(init, WithSend(a, r))
  {
    hide Queue, FateOf, BatchesWith;
    BatchesWithAppend(a.ledger.sends, r, Acknowledged);
    BatchesWithAppend(a.ledger.sends, r, Dropped);
  }

  lemma ConfigConserves(p: Params, a: AgentState, c: Config, io: WriteIo, init: seq<Entry>)
    requires Conserved(init, a)
    ensures Conserved(init, Configured(p, a, c, io))
  {
    hide Queue, BatchesWith, Config.Applied, Persisted;
    if Flushed(a.agg).Some? {
      PersistConserves(p, a.(agg := AfterFlush(a.agg)), Flushed(a.agg).value, io, init);
    }
  }

  /** What an upload takes is the head of the queue, also when some files cannot be read. */
  lemma TakenIsHead(p: Params, a: AgentState, env: UploadEnv)
    ensures var scan := Taken(p, a, env); var q := Queue(a.spool.dir);
      && Queue(AfterPeek(a.spool.dir, p.MaxBatch(), env.unreadable)) == q
      && |scan.entries| <= |q| && |scan.entries| <= p.MaxBatch()
      && scan.entries == q[..|scan.entries|]
  {
    hide Queue, Files, Readable;
    PeekKeepsQueue(a.spool.dir, p.MaxBatch(), env.unreadable);
    ScanIsPrefix(a.spool.dir, Files(a.spool.dir), p.MaxBatch(), env.unreadable);
    QueueIsDecoded(a.spool.dir);
  }

  lemma QueueIsDecoded(d: Directory)
    ensures Queue(d) == Decoded(d, Files(d))
  {
  }

  lemma {:induction false} ScanIsPrefix(d: Directory, names: seq<string>, n: nat, unreadable: set<string>)
    ensures var es, q := ScanFiles(d, names, n, unreadable).entries, Decoded(d, names);
      |es| <= |q| && |es| <= n && es == q[..|es|]
  {
    hide Readable, EntryOf;
    if names != [] && n > 0 && names[0] !in unreadable {
      var tail := names[1..];
      if Readable(d, names[0]) {
        ScanIsPrefix(d, tail, n - 1, unreadable);
        PrefixCons(EntryOf(d, names[0]), ScanFiles(d, tail, n - 1, unreadable).entries, Decoded(d, tail));
      } else {
        ScanIsPrefix(d, tail, n, unreadable);
      }
    }
  }

  lemma PrefixCons(e: Entry, es: seq<Entry>, q: seq<Entry>)
    requires |es| <= |q| && es == q[..|es|]
    ensures [e] + es == ([e] + q)[..1 + |es|]
  {
  }

  lemma UploadConserves(p: Params, a: AgentState, env: UploadEnv, last: bool, init: seq<Entry>)
    requires Conserved(init, a)
    ensures Conserved(init, Uploaded(p, a, env, last))
  {
    hide Queue, BatchesWith, Configured, Taken, AfterPeek, Discarded, Send, Params.MaxBatch;
    if env.now >= a.retryAt {
      TakenIsHead(p, a, env);
      var scan := Taken(p, a, env);
      var b := WithDir(a, AfterPeek(a.spool.dir, p.MaxBatch(), env.unreadable));
      assert Conserved(init, b);
      if !scan.failed && scan.entries != [] {
        RequestConserves(p, b, scan.entries, env, last, init);
      }
    }
  }

  lemma RequestConserves(p: Params, b: AgentState, es: seq<Entry>, env: UploadEnv, last: bool, init: seq<Entry>)
    requires Conserved(init, b)
    requires |es| <= |Queue(b.spool.dir)| && es == Queue(b.spool.dir)[..|es|]
    ensures Conserved(init, match Send(env.exchange)
      case Failure(e) => Failed(p, b, es, e, env, last)
      case Success(resp) => Succeeded(p, b, es, resp, env, last))
  {
    hide Queue, BatchesWith, Configured, Discarded, Send;
    match Send(env.exchange) {
      case Failure(e) =>
        var delay := DelayAfter(p, b.failures + 1, env.draw);
        var c := b.(failures := b.failures + 1, retryAt := env.failedAt + delay);
        var r := SendRecord(env.now, es, env.exchange, env.failedAt, delay, last);
        assert Conserved(init, c);
        if KindOf(e) == Rejected {
          DiscardConserves(c, |es|, r, init);
        } else {
          KeepConserves(c, r, init);
        }
      case Success(resp) =>
        var c := b.(failures := 0, retryAt := 0);
        var r := SendRecord(env.now, es, env.exchange, 0, 0, last);
        assert Conserved(init, c);
        DiscardConserves(c, |es|, r, init);
        ConfigConserves(p, WithDir(WithSend(c, r), Discarded(c.spool.dir, es)), resp.config, env.io, init);
    }
  }

  lemma StepConserves(p: Params, a: AgentState, e: Event, init: seq<Entry>)
    requires a.ledger.generations != []
    requires Conserved(init, a)
    ensures Conserved(init, Stepped(p, a, e))
  {
    hide Queue, BatchesWith, Uploaded, Persisted, Added;
    match e {
      case SampleTick(reading, io) =>
        if reading.Some? {
          var (agg, completed) := Added(a.agg, reading.value);
          var b := a.(agg := agg, ledger := WithSample(a.ledger, reading.value));
          assert Conserved(init, b);
          if completed.Some? {
            PersistConserves(p, b, completed.value, io, init);
          }
        }
      case UploadTick(env) =>
        UploadConserves(p, a, env, false, init);
    }
  }

  lemma StartConserves(settings: Settings, d: Directory)
    ensures Conserved(Queue(d), Start(settings, d))
  {
    hide Queue;
  }

  lemma {:induction false} RunConserves(p: Params, settings: Settings, d: Directory, events: seq<Event>, n: nat)
    requires n <= |events|
    ensures Conserved(Queue(d), RunTo(p, Start(settings, d), events, n))
  {
    hide Queue, Stepped, Conserved;
    if n == 0 {
      StartConserves(settings, d);
    } else {
      RunConserves(p, settings, d, events, n - 1);
      StepConserves(p, RunTo(p, Start(settings, d), events, n - 1), events[n - 1], Queue(d));
    }
  }
}
