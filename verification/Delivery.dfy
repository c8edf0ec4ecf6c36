/** In what order windows leave the spool. */
module Delivery {
  import opened Clock
  import opened Wrappers
  import opened Collect
  import opened Windows
  import opened Aggregation
  import opened Streams
  import opened Encoding
  import opened ByteOrder
  import opened FileNames
  import opened SpoolModel
  import opened WireConfig
  import opened Ship
  import opened AgentModel
  import opened Conservation
  import opened Accounts
  import opened AgentTheorems

  /** The windows that left the spool through a request, in order: acknowledged or dropped. */
  function Delivered(sends: seq<SendRecord>): seq<Entry> {
    if sends == [] then []
    else
      var r := sends[|sends| - 1];
      Delivered(sends[..|sends| - 1]) + if FateOf(r.exchange) == Kept then [] else r.batch
  }

  lemma DeliveredAppend(sends: seq<SendRecord>, r: SendRecord)
    ensures Delivered(sends + [r]) == Delivered(sends) + if FateOf(r.exchange) == Kept then [] else r.batch
  {
    assert (sends + [r])[..|sends|] == sends;
  }

  // ----- The names of a run -----

  /** The number of windows that got a name. */
  function Named(es: seq<Entry>): nat {
    if es == [] then 0 else Named(es[..|es| - 1]) + if es[|es| - 1].name == "" then 0 else 1
  }

  lemma NamedAppend(es: seq<Entry>, e: Entry)
    ensures Named(es + [e]) == Named(es) + if e.name == "" then 0 else 1
  {
    assert (es + [e])[..|es|] == es;
  }

  /** The sequence counter once window `i` is closed. */
  function SeqOf(closed: seq<Entry>, i: nat): uint32
    requires i < |closed|
  {
    Named(closed[..i + 1]) % 0x1_0000_0000
  }

  predicate NamedRight(raw: seq<BucketValue>, closed: seq<Entry>, i: nat)
    requires i < |closed| == |raw|
  {
    closed[i].name != "" ==> closed[i].name == Name(UnixNano(raw[i].facts.start), SeqOf(closed, i))
  }

  /** Every named window has the name that its start and its place among the named windows give it. */
  ghost predicate Numbered(raw: seq<BucketValue>, closed: seq<Entry>, seqNo: uint32) {
    && |closed| == |raw|
    && seqNo == Named(closed) % 0x1_0000_0000
    && forall i | 0 <= i < |closed| :: NamedRight(raw, closed, i)
  }

  ghost predicate AgentNumbers(a: AgentState) {
    Numbered(a.ledger.raw, a.ledger.closed, a.spool.seqNo)
  }

  lemma NextNumber(n: nat, seqNo: uint32)
    requires seqNo == n % 0x1_0000_0000
    ensures NextSeq(seqNo) == (n + 1) % 0x1_0000_0000
  {
  }

  lemma SeqAfter(p: Params, s: SpoolState, b: BucketValue, io: WriteIo)
    ensures AfterAdd(s, p.MaxBytes(), b, io).seqNo == if io.fault == BeforeName then s.seqNo else NextSeq(s.seqNo)
    ensures io.fault != NoFault ==> AfterAdd(s, p.MaxBytes(), b, io).dir == s.dir
  {
    hide Capped, Drops, NextSeq;
  }

  lemma NameNotEmpty(u: int64, q: uint32)
    ensures Name(u, q) != ""
  {
  }

  lemma NumberedAppend(raw: seq<BucketValue>, closed: seq<Entry>, seqNo: uint32, b: BucketValue, e: Entry, next: uint32)
    requires Numbered(raw, closed, seqNo)
    requires e.name == "" ==> next == seqNo
    requires e.name != "" ==> next == NextSeq(seqNo) && e.name == Name(UnixNano(b.facts.start), next)
    ensures Numbered(raw + [b], closed + [e], next)
  {
    hide Name, UnixNano, Named, NextSeq;
    NamedAppend(closed, e);
    NextNumber(Named(closed), seqNo);
    var closed', raw' := closed + [e], raw + [b];
    assert closed'[..|closed'|] == closed';
    forall i | 0 <= i < |closed'|
      ensures NamedRight(raw', closed', i)
    {
      if i < |closed| {
        assert NamedRight(raw, closed, i);
        assert closed'[..i + 1] == closed[..i + 1];
      }
    }
  }

  lemma PersistNumbers(p: Params, a: AgentState, b: BucketValue, io: WriteIo)
    requires AgentNumbers(a)
    ensures AgentNumbers(Persisted(p, a, b, io))
    ensures var l := Persisted(p, a, b, io).ledger;
      l.closed == a.ledger.closed + [StoredEntry(a.spool, b, io)] && l.raw == a.ledger.raw + [b]
  {
    hide Files, Name, UnixNano, Stored, CapLosses, Replaced, Published, AfterAdd, Numbered, NextSeq, Drops;
    SeqAfter(p, a.spool, b, io);
    NameNotEmpty(UnixNano(b.facts.start), NextSeq(a.spool.seqNo));
    NumberedAppend(
      a.ledger.raw, a.ledger.closed, a.spool.seqNo, b, StoredEntry(a.spool, b, io),
      Persisted(p, a, b, io).spool.seqNo);
  }

  lemma PersistIfAnyNumbers(p: Params, a: AgentState, b: Option<BucketValue>, io: WriteIo)
    requires AgentNumbers(a)
    ensures AgentNumbers(PersistedIfAny(p, a, b, io))
    ensures var l := PersistedIfAny(p, a, b, io).ledger;
      a.ledger.closed <= l.closed && a.ledger.raw <= l.raw && l.sends == a.ledger.sends
  {
    hide Persisted, Numbered;
    if b.Some? {
      PersistNumbers(p, a, b.value, io);
      PersistKeepsBackoff(p, a, b, io);
    }
  }

  lemma ConfigNumbers(p: Params, a: AgentState, c: Config, io: WriteIo)
    requires AgentNumbers(a)
    ensures AgentNumbers(Configured(p, a, c, io))
    ensures var l := Configured(p, a, c, io).ledger;
      a.ledger.closed <= l.closed && a.ledger.raw <= l.raw && l.sends == a.ledger.sends
  {
    hide Config.Applied, PersistedIfAny, Flushed, Numbered;
    PersistIfAnyNumbers(p, a.(agg := AfterFlush(a.agg)), Flushed(a.agg), io);
  }

  lemma UploadNumbers(p: Params, a: AgentState, env: UploadEnv, last: bool)
    requires AgentNumbers(a)
    ensures AgentNumbers(Uploaded(p, a, env, last))
    ensures var l := Uploaded(p, a, env, last).ledger;
      a.ledger.closed <= l.closed && a.ledger.raw <= l.raw && a.ledger.sends <= l.sends
  {
    hide Taken, AfterPeek, Discarded, Send, Configured, Numbered, Params.MaxBatch, DelayAfter;
    if env.now >= a.retryAt {
      var scan := Taken(p, a, env);
      var c := WithDir(a, AfterPeek(a.spool.dir, p.MaxBatch(), env.unreadable));
      if !scan.failed && scan.entries != [] && Send(env.exchange).Success? {
        var r := SendRecord(env.now, scan.entries, env.exchange, 0, 0, last);
        ConfigNumbers(
          p, WithSend(WithDir(c, Discarded(c.spool.dir, scan.entries)).(failures := 0, retryAt := 0), r),
          Send(env.exchange).value.config, env.io);
      }
    }
  }

  lemma StepNumbers(p: Params, a: AgentState, e: Event)
    requires a.ledger.generations != []
    requires AgentNumbers(a)
    ensures AgentNumbers(Stepped(p, a, e))
    ensures var l := Stepped(p, a, e).ledger;
      a.ledger.closed <= l.closed && a.ledger.raw <= l.raw && a.ledger.sends <= l.sends
  {
    hide Added, Uploaded, PersistedIfAny, Numbered;
    match e {
      case SampleTick(reading, io) =>
        if reading.Some? {
          var (agg, completed) := Added(a.agg, reading.value);
          PersistIfAnyNumbers(p, a.(agg := agg, ledger := WithSample(a.ledger, reading.value)), completed, io);
        }
      case UploadTick(env) =>
        UploadNumbers(p, a, env, false);
    }
  }

  lemma {:induction false} RunNumbers(p: Params, settings: Settings, d: Directory, events: seq<Event>, n: nat)
    requires n <= |events|
    ensures AgentNumbers(RunTo(p, Start(settings, d), events, n))
  {
    hide Stepped, Numbered;
    if n == 0 {
      NothingNumbered();
    } else {
      RunNumbers(p, settings, d, events, n - 1);
      StepNumbers(p, RunTo(p, Start(settings, d), events, n - 1), events[n - 1]);
    }
  }

  lemma NothingNumbered()
    ensures Numbered([], [], 0)
  {
  }

  // ----- The order of two windows -----

  /** Window `x` is listed before window `y`, by their starts and numbers. */
  predicate ListedBefore(raw: seq<BucketValue>, closed: seq<Entry>, x: nat, y: nat)
    requires |closed| == |raw| && x < |closed| && y < |closed|
  {
    KeyBefore(UnixNano(raw[x].facts.start), SeqOf(closed, x), UnixNano(raw[y].facts.start), SeqOf(closed, y))
  }

  lemma NamesByKey(raw: seq<BucketValue>, closed: seq<Entry>, seqNo: uint32, x: nat, y: nat)
    requires Numbered(raw, closed, seqNo)
    requires x < |closed| && y < |closed| && closed[x].name != "" && closed[y].name != ""
    ensures Below(closed[x].name, closed[y].name) <==> ListedBefore(raw, closed, x, y)
  {
    hide Name, UnixNano, Below, KeyBefore, SeqOf;
    assert NamedRight(raw, closed, x) && NamedRight(raw, closed, y);
    NameOrder(UnixNano(raw[x].facts.start), SeqOf(closed, x), UnixNano(raw[y].facts.start), SeqOf(closed, y));
  }

  /** In every reachable state of every run, of two windows queued together the first is sent first exactly if its
      start is lesser, or the same and its number listed first. */
  lemma QueuedInOrderIff(p: Params, settings: Settings, d: Directory, events: seq<Event>, n: nat,
                         i: nat, j: nat, x: nat, y: nat)
    requires n <= |events|
    requires var a := RunTo(p, Start(settings, d), events, n);
      && |a.ledger.raw| == |a.ledger.closed|
      && i < |Queue(a.spool.dir)| && j < |Queue(a.spool.dir)|
      && x < |a.ledger.closed| && y < |a.ledger.closed|
      && Queue(a.spool.dir)[i] == a.ledger.closed[x] && Queue(a.spool.dir)[j] == a.ledger.closed[y]
    ensures var l := RunTo(p, Start(settings, d), events, n).ledger;
      i < j <==> ListedBefore(l.raw, l.closed, x, y)
  {
    hide RunTo, Queue, Numbered, Below, ListedBefore;
    RunNumbers(p, settings, d, events, n);
    var a := RunTo(p, Start(settings, d), events, n);
    var q, l := Queue(a.spool.dir), a.ledger;
    WindowFilesHaveNames(a.spool.dir);
    assert q[i] in q && q[j] in q;
    NamesByKey(l.raw, l.closed, a.spool.seqNo, x, y);
    SortedIff(a.spool.dir, i, j);
  }

  lemma SortedIff(d: Directory, i: nat, j: nat)
    requires i < |Queue(d)| && j < |Queue(d)|
    ensures i < j <==> Below(Queue(d)[i].name, Queue(d)[j].name)
  {
    hide Queue, Below;
    QueueMembers(d);
    var ns := NamesOf(Queue(d));
    assert i < j ==> Below(ns[i], ns[j]);
    assert j < i ==> Below(ns[j], ns[i]);
    BelowIrreflexive(ns[i]);
    BelowIrreflexive(ns[j]);
    BelowAsymmetric(ns[i], ns[j]);
  }

  lemma WindowFilesHaveNames(d: Directory)
    ensures forall e | e in Queue(d) :: e.name != ""
  {
    hide Queue;
    QueueMembers(d);
  }

  // ----- First in, first out, by names -----

  /** The windows closed later are listed later, and whatever an earlier process left behind is listed first. */
  ghost predicate Ascending(init: seq<Entry>, l: Ledger) {
    && |l.closed| == |l.raw|
    && (forall x, y | 0 <= x < y < |l.closed| && l.closed[x].name != "" && l.closed[y].name != "" ::
          ListedBefore(l.raw, l.closed, x, y))
    && (forall e, f | e in init && f in l.closed && f.name != "" :: Below(e.name, f.name))
  }

  lemma AscendingBefore(init: seq<Entry>, l: Ledger, l': Ledger)
    requires Ascending(init, l')
    requires l.closed <= l'.closed && l.raw <= l'.raw && |l.closed| == |l.raw|
    ensures Ascending(init, l)
  {
    hide Below, KeyBefore, UnixNano, Named;
    forall x, y | 0 <= x < y < |l.closed| && l.closed[x].name != "" && l.closed[y].name != ""
      ensures ListedBefore(l.raw, l.closed, x, y)
    {
      assert ListedBefore(l'.raw, l'.closed, x, y);
      assert l.closed[..x + 1] == l'.closed[..x + 1] && l.closed[..y + 1] == l'.closed[..y + 1];
    }
    assert forall f | f in l.closed :: f in l'.closed;
  }

  /** What was delivered, followed by what is queued. */
  ghost function Line(a: AgentState): seq<Entry> {
    Delivered(a.ledger.sends) + Queue(a.spool.dir)
  }

  /** The line is in the order of names and holds windows found at the start and windows closed since. */
  ghost predicate InOrder(init: seq<Entry>, a: AgentState) {
    && a.ledger.replaced == []
    && Sorted(NamesOf(Line(a)))
    && forall e | e in Line(a) :: e.name != "" && (e in init || e in a.ledger.closed)
  }

  /** Published under a name above all others, a window goes to the end of the queue. */
  lemma PublishAppends(d: Directory, name: string, b: BucketValue, size: nat)
    requires IsWindowFile(name)
    requires forall e | e in Queue(d) :: Below(e.name, name)
    ensures Queue(Published(d, name, b, size)) == Queue(d) + [Entry(name, Stored(b))]
  {
    hide Queue, Decode, Encode, IsWindowFile, Below;
    QueueMembers(d);
    var d', e := Published(d, name, b, size), Entry(name, Stored(b));
    var q := Queue(d) + [e];
    BelowIrreflexive(name);
    forall f: Entry
      ensures f in q <==> Holds(d', f)
    {
      if f.name != name {
        assert Holds(d', f) <==> Holds(d, f);
      } else {
        assert f !in Queue(d);
        assert Holds(d', f) <==> f == e;
      }
    }
    AppendSorted(Queue(d), e);
    QueueUnique(d', q);
  }

  lemma AppendSorted(q: seq<Entry>, e: Entry)
    requires Sorted(NamesOf(q))
    requires forall f | f in q :: Below(f.name, e.name)
    ensures Sorted(NamesOf(q + [e]))
  {
    hide Below;
    var ns := NamesOf(q + [e]);
    forall i, j | 0 <= i < j < |ns|
      ensures Below(ns[i], ns[j])
    {
      assert q[i] in q;
      if j < |q| {
        assert NamesOf(q)[i] == ns[i] && NamesOf(q)[j] == ns[j];
      }
    }
  }

  lemma SortedSkip(x: seq<Entry>, y: seq<Entry>, z: seq<Entry>)
    requires Sorted(NamesOf(x + (y + z)))
    ensures Sorted(NamesOf(x + z))
  {
    hide Below;
    var all, ns := NamesOf(x + (y + z)), NamesOf(x + z);
    forall i, j | 0 <= i < j < |ns|
      ensures Below(ns[i], ns[j])
    {
      var i', j' := if i < |x| then i else i + |y|, if j < |x| then j else j + |y|;
      assert ns[i] == all[i'] && ns[j] == all[j'];
    }
  }

  lemma GreatestReplacesNothing(d: Directory, name: string, before: seq<Entry>)
    requires IsWindowFile(name)
    requires forall e | e in before + Queue(d) :: Below(e.name, name)
    ensures Replaced(d, name) == []
  {
    hide Queue, Below, IsWindowFile, Decode;
    BelowIrreflexive(name);
    ReadableIsQueued(d, name);
  }

  lemma ReadableIsQueued(d: Directory, name: string)
    requires IsWindowFile(name)
    ensures Readable(d, name) ==> EntryOf(d, name) in Queue(d)
  {
    hide Queue, IsWindowFile;
    QueueMembers(d);
  }

  /** An add under the greatest name appends to the queue and then drops from its front. */
  lemma QueueAfterAdd(s: SpoolState, max: int, b: BucketValue, io: WriteIo, before: seq<Entry>)
    requires io.fault == NoFault
    requires Sorted(NamesOf(before + Queue(s.dir)))
    requires forall e | e in before + Queue(s.dir) :: Below(e.name, NameFor(s.seqNo, b))
    ensures Sorted(NamesOf(before + Queue(AfterAdd(s, max, b, io).dir)))
    ensures forall e | e in before + Queue(AfterAdd(s, max, b, io).dir) ::
      e in before + Queue(s.dir) || e == NewEntry(s, b)
  {
    hide Below, Queue, Name, UnixNano, Stored, Sorted, CapLosses, Published, Drops, Capped;
    var name := NameFor(s.seqNo, b);
    var d := Published(s.dir, name, b, io.size);
    var e := NewEntry(s, b);
    NamesAreWindowFiles(UnixNano(b.facts.start), NextSeq(s.seqNo));
    forall f | f in Queue(s.dir)
      ensures Below(f.name, name)
    {
      assert f in before + Queue(s.dir);
    }
    PublishAppends(s.dir, name, b, io.size);
    CapSpecification(d, max);
    AppendSorted(before + Queue(s.dir), e);
    var losses, left := CapLosses(d, max), Queue(AfterAdd(s, max, b, io).dir);
    assert (before + Queue(s.dir)) + [e] == before + (losses + left);
    SortedSkip(before, losses, left);
    forall f | f in left
      ensures f in Queue(s.dir) || f == e
    {
      assert f in losses + left;
    }
  }

  /** In an ascending ledger the last name is above all others in the line. */
  lemma LastIsGreatest(init: seq<Entry>, a: AgentState, l: Ledger, seqNo: uint32)
    requires InOrder(init, a)
    requires Ascending(init, l) && Numbered(l.raw, l.closed, seqNo)
    requires |l.closed| > 0 && l.closed[..|l.closed| - 1] == a.ledger.closed
    requires l.closed[|l.closed| - 1].name != ""
    ensures forall e | e in Line(a) :: Below(e.name, l.closed[|l.closed| - 1].name)
  {
    hide Below, Line, Numbered, ListedBefore;
    var k := |l.closed| - 1;
    forall e | e in Line(a)
      ensures Below(e.name, l.closed[k].name)
    {
      if e !in init {
        var x :| 0 <= x < |a.ledger.closed| && a.ledger.closed[x] == e;
        assert l.closed[x] == e;
        NamesByKey(l.raw, l.closed, seqNo, x, k);
      }
    }
  }

  lemma PersistInOrder(p: Params, init: seq<Entry>, a: AgentState, b: BucketValue, io: WriteIo)
    requires AgentNumbers(a)
    requires InOrder(init, a)
    requires Ascending(init, Persisted(p, a, b, io).ledger)
    ensures InOrder(init, Persisted(p, a, b, io))
  {
    hide Below, Queue, Files, Delivered, Name, UnixNano, Stored, Sorted, CapLosses, Drops, Replaced, Published, AfterAdd,
      IsWindowFile, Numbered, ListedBefore;
    var after := Persisted(p, a, b, io);
    PersistNumbers(p, a, b, io);
    SeqAfter(p, a.spool, b, io);
    if io.fault == NoFault {
      var e := NewEntry(a.spool, b);
      NameNotEmpty(UnixNano(b.facts.start), NextSeq(a.spool.seqNo));
      NamesAreWindowFiles(UnixNano(b.facts.start), NextSeq(a.spool.seqNo));
      assert after.ledger.closed[..|a.ledger.closed|] == a.ledger.closed;
      LastIsGreatest(init, a, after.ledger, after.spool.seqNo);
      GreatestReplacesNothing(a.spool.dir, e.name, Delivered(a.ledger.sends));
      QueueAfterAdd(a.spool, p.MaxBytes(), b, io, Delivered(a.ledger.sends));
    }
  }

  lemma PersistIfAnyInOrder(p: Params, init: seq<Entry>, a: AgentState, b: Option<BucketValue>, io: WriteIo)
    requires AgentNumbers(a)
    requires InOrder(init, a)
    requires Ascending(init, PersistedIfAny(p, a, b, io).ledger)
    ensures InOrder(init, PersistedIfAny(p, a, b, io))
  {
    hide Numbered, InOrder, Ascending, Persisted;
    if b.Some? {
      PersistInOrder(p, init, a, b.value, io);
    }
  }

  lemma ConfigInOrder(p: Params, init: seq<Entry>, a: AgentState, c: Config, io: WriteIo)
    requires AgentNumbers(a)
    requires InOrder(init, a)
    requires Ascending(init, Configured(p, a, c, io).ledger)
    ensures InOrder(init, Configured(p, a, c, io))
  {
    hide Numbered, Config.Applied, PersistedIfAny, Flushed, Sorted, Delivered, Queue, ListedBefore, Below;
    var next := c.Applied(a.settings);
    if next.Some? && next.value.window != a.settings.window {
      var s := a.(agg := AfterFlush(a.agg));
      assert Line(s) == Line(a);
      PersistIfAnyInOrder(p, init, s, Flushed(a.agg), io);
    }
  }

  lemma UploadInOrder(p: Params, init: seq<Entry>, a: AgentState, env: UploadEnv, last: bool)
    requires AgentNumbers(a)
    requires InOrder(init, a)
    requires Ascending(init, Uploaded(p, a, env, last).ledger)
    ensures InOrder(init, Uploaded(p, a, env, last))
  {
    hide Below, Queue, Delivered, Sorted, Taken, AfterPeek, Discarded, Send, FateOf, Params.MaxBatch, DelayAfter,
      Numbered, Configured, Ascending;
    if env.now >= a.retryAt {
      TakenIsHead(p, a, env);
      var scan := Taken(p, a, env);
      var c := WithDir(a, AfterPeek(a.spool.dir, p.MaxBatch(), env.unreadable));
      if !scan.failed && scan.entries != [] {
        SuccessIsAcknowledged(env.exchange);
        DiscardDropsHead(c.spool.dir, |scan.entries|);
        var q, k := Queue(a.spool.dir), |scan.entries|;
        assert q == q[..k] + q[k..];
        assert Delivered(a.ledger.sends) + q == Delivered(a.ledger.sends) + q[..k] + q[k..];
        match Send(env.exchange) {
          case Failure(e) =>
            var r := SendRecord(
              env.now, scan.entries, env.exchange, env.failedAt, DelayAfter(p, a.failures + 1, env.draw), last);
            DeliveredAppend(a.ledger.sends, r);
            assert Line(Uploaded(p, a, env, last)) == Line(a);
          case Success(resp) =>
            var r := SendRecord(env.now, scan.entries, env.exchange, 0, 0, last);
            DeliveredAppend(a.ledger.sends, r);
            var s := WithSend(WithDir(c, Discarded(c.spool.dir, scan.entries)).(failures := 0, retryAt := 0), r);
            assert Line(s) == Line(a);
            ConfigInOrder(p, init, s, resp.config, env.io);
        }
      }
    }
  }

  lemma StepInOrder(p: Params, init: seq<Entry>, a: AgentState, e: Event)
    requires a.ledger.generations != []
    requires AgentNumbers(a)
    requires InOrder(init, a)
    requires Ascending(init, Stepped(p, a, e).ledger)
    ensures InOrder(init, Stepped(p, a, e))
  {
    hide Queue, Delivered, Sorted, Uploaded, Added, PersistedIfAny, Numbered, Ascending;
    match e {
      case SampleTick(reading, io) =>
        if reading.Some? {
          var (agg, completed) := Added(a.agg, reading.value);
          var b := a.(agg := agg, ledger := WithSample(a.ledger, reading.value));
          assert Line(b) == Line(a);
          PersistIfAnyInOrder(p, init, b, completed, io);
        }
      case UploadTick(env) => UploadInOrder(p, init, a, env, false);
    }
  }

  /** In every state of a run whose ledger ascends, nothing was replaced and the line is in order. */
  lemma {:induction false} RunInOrder(p: Params, settings: Settings, d: Directory, events: seq<Event>, n: nat)
    requires n <= |events|
    requires Ascending(Queue(d), RunTo(p, Start(settings, d), events, n).ledger)
    ensures InOrder(Queue(d), RunTo(p, Start(settings, d), events, n))
  {
    hide Ascending, InOrder, Queue, Stepped, Numbered;
    if n == 0 {
      StartInOrder(settings, d);
    } else {
      var a := RunTo(p, Start(settings, d), events, n - 1);
      RunNumbers(p, settings, d, events, n - 1);
      StepNumbers(p, a, events[n - 1]);
      NumberedLengths(a);
      AscendingBefore(Queue(d), a.ledger, Stepped(p, a, events[n - 1]).ledger);
      RunInOrder(p, settings, d, events, n - 1);
      StepInOrder(p, Queue(d), a, events[n - 1]);
    }
  }

  lemma NumberedLengths(a: AgentState)
    requires AgentNumbers(a)
    ensures |a.ledger.closed| == |a.ledger.raw|
  {
    hide NamedRight;
  }

  lemma StartInOrder(settings: Settings, d: Directory)
    ensures InOrder(Queue(d), Start(settings, d))
  {
    hide Queue, Below, Sorted;
    QueueMembers(d);
    assert Delivered([]) + Queue(d) == Queue(d);
    WindowFilesHaveNames(d);
  }

  /** Of two windows of this process in the line, the one closed first comes first. */
  ghost predicate Fifo(z: AgentState) {
    var line, closed := Line(z), z.ledger.closed;
    forall i, j, x, y |
      && 0 <= i < j < |line| && 0 <= x < |closed| && 0 <= y < |closed|
      && line[i] == closed[x] && line[j] == closed[y] :: x < y
  }

  /** A line in order is first in, first out. */
  lemma InOrderIsFifo(init: seq<Entry>, z: AgentState)
    requires InOrder(init, z)
    requires Ascending(init, z.ledger) && AgentNumbers(z)
    ensures Fifo(z)
  {
    hide Below, Line, Numbered, ListedBefore;
    var line, closed := Line(z), z.ledger.closed;
    forall i, j, x, y |
      && 0 <= i < j < |line| && 0 <= x < |closed| && 0 <= y < |closed|
      && line[i] == closed[x] && line[j] == closed[y]
      ensures x < y
    {
      assert line[i] in line && line[j] in line;
      assert Below(NamesOf(line)[i], NamesOf(line)[j]);
      BelowIrreflexive(line[i].name);
      BelowAsymmetric(line[i].name, line[j].name);
      if y < x {
        NamesByKey(z.ledger.raw, closed, z.spool.seqNo, y, x);
      }
    }
  }

  lemma ShutdownNumbers(p: Params, a: AgentState, io: WriteIo, env: UploadEnv)
    requires AgentNumbers(a)
    ensures AgentNumbers(ShutDown(p, a, io, env))
  {
    hide Flushed, Uploaded, PersistedIfAny, Numbered;
    var b := PersistedIfAny(p, a.(agg := AfterFlush(a.agg)), Flushed(a.agg), io);
    PersistIfAnyNumbers(p, a.(agg := AfterFlush(a.agg)), Flushed(a.agg), io);
    UploadNumbers(p, b.(retryAt := 0), env, true);
  }

  lemma ShutdownInOrder(p: Params, init: seq<Entry>, a: AgentState, io: WriteIo, env: UploadEnv)
    requires AgentNumbers(a)
    requires Ascending(init, a.ledger) ==> InOrder(init, a)
    requires Ascending(init, ShutDown(p, a, io, env).ledger)
    ensures InOrder(init, ShutDown(p, a, io, env)) && AgentNumbers(ShutDown(p, a, io, env))
  {
    hide Sorted, Delivered, Queue, Ascending, Flushed, Uploaded, PersistedIfAny, Numbered;
    var s := a.(agg := AfterFlush(a.agg));
    var b := PersistedIfAny(p, s, Flushed(a.agg), io);
    PersistIfAnyNumbers(p, s, Flushed(a.agg), io);
    UploadNumbers(p, b.(retryAt := 0), env, true);
    NumberedLengths(b);
    NumberedLengths(a);
    AscendingBefore(init, b.ledger, ShutDown(p, a, io, env).ledger);
    AscendingBefore(init, a.ledger, b.ledger);
    assert Line(s) == Line(a);
    PersistIfAnyInOrder(p, init, s, Flushed(a.agg), io);
    assert Line(b.(retryAt := 0)) == Line(b);
    UploadInOrder(p, init, b.(retryAt := 0), env, true);
  }

  // ----- Which widths keep starts in order -----

  lemma AlignedBelow(m: int, u: int, v: int)
    requires v > 0 && m % v == 0 && m <= u
    ensures m <= Truncate(u, v)
  {
    var s := Truncate(u, v);
    if m > s {
      AlignedGap(m, s, v);
    }
  }

  lemma MultipleOfMultiple(m: int, w: int, v: int)
    requires w > 0 && v > 0 && w % v == 0 && m % w == 0
    ensures m % v == 0
  {
    var j, k := w / v, m / w;
    assert w == v * j && m == w * k;
    assert m == (j * k) * v;
    MultipleHasNoRemainder(j * k, v);
  }

  /** Dividing the width never puts a later instant into an earlier window. */
  lemma DividedStarts(t: int, u: int, w: int, v: int)
    requires w > 0 && v > 0 && w % v == 0 && t <= u
    ensures Truncate(t, w) <= Truncate(u, v)
  {
    MultipleOfMultiple(Truncate(t, w), w, v);
    AlignedBelow(Truncate(t, w), u, v);
  }

  /** A change of width from `w` to `v` keeps the starts of windows in order for all instants exactly if `v`
      divides `w`. */
  lemma WidthsInOrderIff(w: int, v: int)
    requires w > 0 && v > 0
    ensures (forall t, u | t <= u :: Truncate(t, w) <= Truncate(u, v)) <==> w % v == 0
  {
    hide Truncate;
    if w % v == 0 {
      forall t, u | t <= u
        ensures Truncate(t, w) <= Truncate(u, v)
      {
        DividedStarts(t, u, w, v);
      }
    } else {
      AlignedInstant(w, w);
      assert Truncate(w, v) < w;
    }
  }

  lemma AlignedInstant(t: int, w: int)
    requires w > 0 && t % w == 0
    ensures Truncate(t, w) == t
  {
  }

  predicate NeverBack(ss: seq<Sample>) {
    forall i, j | 0 <= i < j < |ss| :: ss[i].at <= ss[j].at
  }

  predicate InRange(window: int, ss: seq<Sample>) {
    forall s | s in ss :: EPOCH <= Truncate(s.at, Width(window)) && s.at < EPOCH + TWO_63
  }

  /** Every width divides the one before it. */
  predicate Dividing(gens: seq<Generation>) {
    forall k | 0 < k < |gens| :: Width(gens[k - 1].window) % Width(gens[k].window) == 0
  }

  /** The windows of a stream start where their first readings fall, one after the other. */
  lemma OutputStart(window: int, ss: seq<Sample>, k: nat)
    requires k < |Output(window, ss)|
    ensures |Runs(window, ss, |ss|)| == |Output(window, ss)|
    ensures var lo := Runs(window, ss, |ss|)[k].lo;
      lo < |ss| && Output(window, ss)[k].facts.start == StartAt(window, ss, lo)
    ensures k > 0 ==> Runs(window, ss, |ss|)[k - 1].lo < Runs(window, ss, |ss|)[k].lo
    ensures forall j | 0 <= j < k :: Runs(window, ss, |ss|)[j].lo < Runs(window, ss, |ss|)[k].lo
  {
    hide Derivable, StartAt, Output, Runs, IsMaximalRun, ClosingCounters;
    AggregatorRefinesGrouping(window, ss);
  }

  lemma {:induction false} StartsBounded(gens: seq<Generation>, t: int)
    requires gens != [] && Dividing(gens)
    requires forall s | s in SamplesOf(gens) :: s.at <= t
    ensures forall b | b in ClosedBy(gens) :: b.facts.start <= Truncate(t, Width(gens[|gens| - 1].window))
  {
    hide Output, Runs, Truncate, Width;
    var front, g := gens[..|gens| - 1], gens[|gens| - 1];
    var w := Width(g.window);
    if front != [] {
      assert gens[|gens| - 2] == front[|front| - 1];
      StartsBounded(front, t);
      DividedStarts(t, t, Width(front[|front| - 1].window), w);
    }
    var out := Output(g.window, g.samples);
    forall k | 0 <= k < |out|
      ensures out[k].facts.start <= Truncate(t, w)
    {
      OutputStart(g.window, g.samples, k);
      TruncateMonotone(g.samples[Runs(g.window, g.samples, |g.samples|)[k].lo].at, t, w);
    }
  }

  lemma {:induction false} StartsInRange(gens: seq<Generation>)
    requires forall g | g in gens :: InRange(g.window, g.samples)
    ensures forall b | b in ClosedBy(gens) :: EPOCH <= b.facts.start < EPOCH + TWO_63
  {
    hide Output, Runs, Truncate, Width;
    if gens != [] {
      var g := gens[|gens| - 1];
      StartsInRange(gens[..|gens| - 1]);
      var out := Output(g.window, g.samples);
      forall k | 0 <= k < |out|
        ensures EPOCH <= out[k].facts.start < EPOCH + TWO_63
      {
        OutputStart(g.window, g.samples, k);
        assert g.samples[Runs(g.window, g.samples, |g.samples|)[k].lo] in g.samples;
      }
    }
  }

  lemma NeverBackParts(a: seq<Sample>, b: seq<Sample>)
    requires NeverBack(a + b)
    ensures NeverBack(a) && NeverBack(b)
    ensures forall s, i | s in a && 0 <= i < |b| :: s.at <= b[i].at
  {
    var ss := a + b;
    assert forall i | 0 <= i < |a| :: ss[i] == a[i];
    assert forall i | 0 <= i < |b| :: ss[|a| + i] == b[i];
  }

  /** Over streams whose widths each divide the one before and whose clock never goes back, no window starts
      before one closed earlier. */
  lemma {:induction false} StartsNeverFall(gens: seq<Generation>, x: nat, y: nat)
    requires Dividing(gens) && NeverBack(SamplesOf(gens))
    requires x < y < |ClosedBy(gens)|
    ensures ClosedBy(gens)[x].facts.start <= ClosedBy(gens)[y].facts.start
  {
    hide Output, Runs, Truncate, Width, NeverBack;
    var front, g := gens[..|gens| - 1], gens[|gens| - 1];
    var before, out, w := ClosedBy(front), Output(g.window, g.samples), Width(g.window);
    NeverBackParts(SamplesOf(front), g.samples);
    if y < |before| {
      StartsNeverFall(front, x, y);
    } else {
      OutputStart(g.window, g.samples, y - |before|);
      var i := Runs(g.window, g.samples, |g.samples|)[y - |before|].lo;
      if x < |before| {
        var t := g.samples[i].at;
        assert gens[|gens| - 2] == front[|front| - 1];
        StartsBounded(front, t);
        assert before[x] in before;
        DividedStarts(t, t, Width(front[|front| - 1].window), w);
      } else {
        OutputStart(g.window, g.samples, x - |before|);
        EarlierSample(g.samples, Runs(g.window, g.samples, |g.samples|)[x - |before|].lo, i);
        TruncateMonotone(g.samples[Runs(g.window, g.samples, |g.samples|)[x - |before|].lo].at, g.samples[i].at, w);
      }
    }
  }

  lemma EarlierSample(ss: seq<Sample>, i: nat, j: nat)
    requires NeverBack(ss) && i < j < |ss|
    ensures ss[i].at <= ss[j].at
  {
  }

  // ----- First in, first out, by samples and widths -----

  /** The clock never goes back and stays in the range of 64-bit Unix time, windows that share a start have numbers
      that are listed in order, and whatever an earlier process left behind is named below the windows of this
      one. */
  ghost predicate Regular(init: seq<Entry>, l: Ledger) {
    && NeverBack(SamplesOf(l.generations))
    && (forall g | g in l.generations :: InRange(g.window, g.samples))
    && |l.closed| == |l.raw|
    && (forall x, y | 0 <= x < y < |l.closed| && l.closed[x].name != "" && l.closed[y].name != "" ::
          l.raw[x].facts.start == l.raw[y].facts.start ==> SeqBefore(SeqOf(l.closed, x), SeqOf(l.closed, y)))
    && (forall e, f | e in init && f in l.closed && f.name != "" :: Below(e.name, f.name))
  }

  /** The circumstances under which delivery is first in, first out: the ledger is regular and every width divides
      the one before it. */
  ghost predicate Ordinary(init: seq<Entry>, l: Ledger) {
    Regular(init, l) && Dividing(l.generations)
  }

  /** In ordinary circumstances the ledger ascends. */
  lemma OrdinaryAscends(init: seq<Entry>, l: Ledger)
    requires Ordinary(init, l)
    requires l.raw <= ClosedBy(l.generations)
    ensures Ascending(init, l)
  {
    hide Dividing, NeverBack, InRange, ClosedBy, SamplesOf, SeqOf, SeqBefore, Below, UnixNano;
    var all := ClosedBy(l.generations);
    StartsInRange(l.generations);
    forall x, y | 0 <= x < y < |l.closed| && l.closed[x].name != "" && l.closed[y].name != ""
      ensures ListedBefore(l.raw, l.closed, x, y)
    {
      assert l.raw[x] == all[x] && l.raw[y] == all[y];
      StartsNeverFall(l.generations, x, y);
      NanosInOrder(l.raw[x].facts.start, l.raw[y].facts.start);
    }
  }

  /** In every state of an ordinary run the ledger ascends. */
  lemma OrdinaryRunAscends(p: Params, settings: Settings, d: Directory, events: seq<Event>, n: nat)
    requires n <= |events|
    requires Ordinary(Queue(d), RunTo(p, Start(settings, d), events, n).ledger)
    ensures Ascending(Queue(d), RunTo(p, Start(settings, d), events, n).ledger)
  {
    hide Ordinary, Ascending, Queue, RunTo, ClosedBy, StreamsAgree;
    RunAgrees(p, settings, d, events, n);
    RawIsPrefix(RunTo(p, Start(settings, d), events, n));
    OrdinaryAscends(Queue(d), RunTo(p, Start(settings, d), events, n).ledger);
  }

  /** What was closed so far comes first among the windows of the streams. */
  lemma RawIsPrefix(a: AgentState)
    requires StreamsAgree(a)
    ensures a.ledger.raw <= ClosedBy(a.ledger.generations)
  {
    hide ClosedBy, Emitted, Fed, StoredAlike, Flushed;
    var gens := a.ledger.generations;
    var g := gens[|gens| - 1];
    assert gens == gens[..|gens| - 1] + [g];
    ClosedByAppend(gens[..|gens| - 1], g);
  }

  lemma NanosInOrder(s: int, t: int)
    requires EPOCH <= s <= t < EPOCH + TWO_63
    ensures 0 <= UnixNano(s) <= UnixNano(t) && (s < t ==> UnixNano(s) < UnixNano(t))
  {
    hide Wrap64;
  }

  /** Up to 999999 windows in all, windows that share a start are listed in order. */
  lemma FewWindowsInOrder(closed: seq<Entry>, x: nat, y: nat)
    requires x < y < |closed| <= 999_999
    requires closed[y].name != ""
    ensures SeqBefore(SeqOf(closed, x), SeqOf(closed, y))
  {
    hide Named, DigitCount, Pow10;
    NamedGrows(closed, x + 1, y);
    NamedAppend(closed[..y], closed[y]);
    assert closed[..y] + [closed[y]] == closed[..y + 1];
    NamedGrows(closed, 0, y + 1);
    SmallPowers();
    DigitCountBound(SeqOf(closed, x), 6);
    DigitCountBound(SeqOf(closed, y), 6);
  }

  lemma {:induction false} NamedGrows(closed: seq<Entry>, i: nat, j: nat)
    requires i <= j <= |closed|
    ensures Named(closed[..i]) <= Named(closed[..j]) <= j
    decreases j
  {
    if j > 0 {
      assert closed[..j][..j - 1] == closed[..j - 1];
      if i < j {
        NamedGrows(closed, i, j - 1);
      } else {
        NamedGrows(closed, j - 1, j - 1);
      }
    }
  }

  /** Delivery is first in, first out: over an ordinary run and its shutdown nothing is replaced, the windows
      delivered so far followed by those still queued are in order of their names, and of two windows of this
      process the one closed first is delivered first. */
  lemma DeliveryIsFifo(p: Params, settings: Settings, d: Directory, events: seq<Event>, io: WriteIo, env: UploadEnv)
    requires Ordinary(Queue(d), ShutDown(p, RunTo(p, Start(settings, d), events, |events|), io, env).ledger)
    ensures var z := ShutDown(p, RunTo(p, Start(settings, d), events, |events|), io, env);
      && z.ledger.replaced == []
      && Sorted(NamesOf(Line(z)))
      && (forall e | e in Line(z) :: e in Queue(d) || e in z.ledger.closed)
      && Fifo(z)
  {
    hide Ordinary, Ascending, Queue, RunTo, ShutDown, Delivered, Numbered, ClosedBy, Fifo;
    var a := RunTo(p, Start(settings, d), events, |events|);
    var z := ShutDown(p, a, io, env);
    RunAgrees(p, settings, d, events, |events|);
    ShutdownFlushes(p, a, io, env);
    OrdinaryAscends(Queue(d), z.ledger);
    RunNumbers(p, settings, d, events, |events|);
    if Ascending(Queue(d), a.ledger) {
      RunInOrder(p, settings, d, events, |events|);
    }
    ShutdownInOrder(p, Queue(d), a, io, env);
    InOrderIsFifo(Queue(d), z);
  }

  // ----- Retry -----

  /** Between two requests of an ascending run windows are only added behind and taken by the cap in front: what
      was queued is still at the head, once the windows lost since are put back. */
  lemma {:induction false} QuietKeepsHead(p: Params, settings: Settings, d: Directory, events: seq<Event>, m: nat, n: nat)
    requires m <= n <= |events|
    requires Ascending(Queue(d), RunTo(p, Start(settings, d), events, n).ledger)
    requires RunTo(p, Start(settings, d), events, n).ledger.sends == RunTo(p, Start(settings, d), events, m).ledger.sends
    ensures var a, b := RunTo(p, Start(settings, d), events, m), RunTo(p, Start(settings, d), events, n);
      && a.ledger.capDropped <= b.ledger.capDropped
      && Queue(a.spool.dir) <= b.ledger.capDropped[|a.ledger.capDropped|..] + Queue(b.spool.dir)
    decreases n
  {
    hide Ascending, Queue, Stepped, Numbered, InOrder;
    if m < n {
      var a, c := RunTo(p, Start(settings, d), events, m), RunTo(p, Start(settings, d), events, n - 1);
      RunNumbers(p, settings, d, events, n - 1);
      NumberedLengths(c);
      StepNumbers(p, c, events[n - 1]);
      SendsGrow(p, settings, d, events, m, n - 1);
      AscendingBefore(Queue(d), c.ledger, Stepped(p, c, events[n - 1]).ledger);
      QuietKeepsHead(p, settings, d, events, m, n - 1);
      RunInOrder(p, settings, d, events, n - 1);
      QuietStep(p, Queue(d), c, events[n - 1]);
      PutBack(
        Queue(a.spool.dir), a.ledger.capDropped, c.ledger.capDropped, Queue(c.spool.dir),
        Stepped(p, c, events[n - 1]).ledger.capDropped, Queue(Stepped(p, c, events[n - 1]).spool.dir));
    }
  }

  lemma PutBack(q0: seq<Entry>, l0: seq<Entry>, l1: seq<Entry>, q1: seq<Entry>, l2: seq<Entry>, q2: seq<Entry>)
    requires l0 <= l1 <= l2
    requires q0 <= l1[|l0|..] + q1
    requires q1 <= l2[|l1|..] + q2
    ensures q0 <= l2[|l0|..] + q2
  {
    assert l2[|l0|..] + q2 == l1[|l0|..] + (l2[|l1|..] + q2);
  }

  lemma {:induction false} SendsGrow(p: Params, settings: Settings, d: Directory, events: seq<Event>, m: nat, n: nat)
    requires m <= n < |events|
    requires RunTo(p, Start(settings, d), events, n + 1).ledger.sends == RunTo(p, Start(settings, d), events, m).ledger.sends
    ensures RunTo(p, Start(settings, d), events, n).ledger.sends == RunTo(p, Start(settings, d), events, m).ledger.sends
  {
    hide Stepped, Numbered;
    RunNumbers(p, settings, d, events, n);
    StepNumbers(p, RunTo(p, Start(settings, d), events, n), events[n]);
    SendsOnlyGrow(p, settings, d, events, m, n);
  }

  lemma {:induction false} SendsOnlyGrow(p: Params, settings: Settings, d: Directory, events: seq<Event>, m: nat, n: nat)
    requires m <= n <= |events|
    ensures RunTo(p, Start(settings, d), events, m).ledger.sends <= RunTo(p, Start(settings, d), events, n).ledger.sends
    decreases n
  {
    hide Stepped, Numbered;
    if m < n {
      SendsOnlyGrow(p, settings, d, events, m, n - 1);
      RunNumbers(p, settings, d, events, n - 1);
      StepNumbers(p, RunTo(p, Start(settings, d), events, n - 1), events[n - 1]);
    }
  }

  /** One step without a request. */
  lemma QuietStep(p: Params, init: seq<Entry>, a: AgentState, e: Event)
    requires a.ledger.generations != []
    requires AgentNumbers(a) && InOrder(init, a)
    requires Ascending(init, Stepped(p, a, e).ledger)
    requires Stepped(p, a, e).ledger.sends == a.ledger.sends
    ensures var b := Stepped(p, a, e);
      && a.ledger.capDropped <= b.ledger.capDropped
      && Queue(a.spool.dir) <= b.ledger.capDropped[|a.ledger.capDropped|..] + Queue(b.spool.dir)
  {
    hide Queue, Uploaded, Added, Persisted, Numbered, Ascending, InOrder;
    match e {
      case SampleTick(reading, io) =>
        if reading.Some? {
          var (agg, completed) := Added(a.agg, reading.value);
          var b := a.(agg := agg, ledger := WithSample(a.ledger, reading.value));
          if completed.Some? {
            assert InOrder(init, b) by { SameLine(init, a, b); }
            PersistAppends(p, init, b, completed.value, io);
          }
        }
      case UploadTick(env) => UploadRetention(p, a, env, false);
    }
  }

  lemma SameLine(init: seq<Entry>, a: AgentState, b: AgentState)
    requires InOrder(init, a)
    requires b.spool == a.spool && b.ledger == a.ledger.(generations := b.ledger.generations)
    ensures InOrder(init, b)
  {
    hide Queue, Delivered, Sorted;
    assert Line(b) == Line(a);
  }

  lemma PersistAppends(p: Params, init: seq<Entry>, a: AgentState, b: BucketValue, io: WriteIo)
    requires AgentNumbers(a) && InOrder(init, a)
    requires Ascending(init, Persisted(p, a, b, io).ledger)
    ensures var after := Persisted(p, a, b, io);
      && a.ledger.capDropped <= after.ledger.capDropped
      && Queue(a.spool.dir) <= after.ledger.capDropped[|a.ledger.capDropped|..] + Queue(after.spool.dir)
  {
    hide Below, Queue, Files, Delivered, Name, UnixNano, Stored, Sorted, CapLosses, Drops, Replaced, Published, Capped,
      IsWindowFile, Numbered, ListedBefore;
    var after := Persisted(p, a, b, io);
    PersistNumbers(p, a, b, io);
    SeqAfter(p, a.spool, b, io);
    if io.fault == NoFault {
      var e := NewEntry(a.spool, b);
      var d := Published(a.spool.dir, e.name, b, io.size);
      NameNotEmpty(UnixNano(b.facts.start), NextSeq(a.spool.seqNo));
      NamesAreWindowFiles(UnixNano(b.facts.start), NextSeq(a.spool.seqNo));
      assert after.ledger.closed[..|a.ledger.closed|] == a.ledger.closed;
      LastIsGreatest(init, a, after.ledger, after.spool.seqNo);
      assert forall f | f in Queue(a.spool.dir) :: f in Line(a);
      PublishAppends(a.spool.dir, e.name, b, io.size);
      CapSpecification(d, p.MaxBytes());
      assert after.ledger.capDropped[|a.ledger.capDropped|..] == CapLosses(d, p.MaxBytes());
    }
  }

  lemma {:induction false} AtMostOnce(es: seq<Entry>, e: Entry)
    requires forall x, y | 0 <= x < y < |es| :: !(es[x] == e && es[y] == e)
    ensures multiset(es)[e] <= 1
  {
    if es != [] {
      var front := es[..|es| - 1];
      assert es == front + [es[|es| - 1]];
      AtMostOnce(front, e);
      if es[|es| - 1] == e {
        assert e !in front;
      }
    }
  }

  /** A named window was found at the start or closed, and not twice. */
  lemma {:induction false} NamedOnce(d: Directory, l: Ledger, seqNo: uint32, e: Entry)
    requires Ascending(Queue(d), l) && Numbered(l.raw, l.closed, seqNo)
    requires e.name != ""
    ensures multiset(Queue(d))[e] + multiset(l.closed)[e] <= 1
  {
    hide Queue, Below, Numbered, ListedBefore, Holds;
    QueueDistinct(d);
    BelowIrreflexive(e.name);
    forall x, y | 0 <= x < y < |l.closed|
      ensures !(l.closed[x] == e && l.closed[y] == e)
    {
      if l.closed[x] == e && l.closed[y] == e {
        NamesByKey(l.raw, l.closed, seqNo, x, y);
      }
    }
    AtMostOnce(l.closed, e);
    assert e in Queue(d) && e in l.closed ==> Below(e.name, e.name);
  }

  /** In every state of an ascending run no window is in two places. */
  lemma {:induction false} NeverInTwoPlaces(p: Params, settings: Settings, d: Directory, events: seq<Event>, n: nat, e: Entry)
    requires n <= |events|
    requires Ascending(Queue(d), RunTo(p, Start(settings, d), events, n).ledger)
    requires e.name != ""
    ensures Placed(RunTo(p, Start(settings, d), events, n))[e] <= 1
  {
    hide RunTo, Ascending, Queue, Numbered, Placed;
    var a := RunTo(p, Start(settings, d), events, n);
    RunConserves(p, settings, d, events, n);
    RunNumbers(p, settings, d, events, n);
    NamedOnce(d, a.ledger, a.spool.seqNo, e);
    assert Placed(a)[e] == (multiset(Queue(d)) + multiset(a.ledger.closed))[e];
  }

  /** What the cap took is not queued. */
  lemma {:induction false} LostIsNotQueued(p: Params, settings: Settings, d: Directory, events: seq<Event>, n: nat, e: Entry)
    requires n <= |events|
    requires Ascending(Queue(d), RunTo(p, Start(settings, d), events, n).ledger)
    requires e in Queue(RunTo(p, Start(settings, d), events, n).spool.dir)
    ensures e !in RunTo(p, Start(settings, d), events, n).ledger.capDropped
  {
    hide RunTo, Ascending, Queue, BatchesWith;
    var a := RunTo(p, Start(settings, d), events, n);
    WindowFilesHaveNames(a.spool.dir);
    NeverInTwoPlaces(p, settings, d, events, n, e);
    assert multiset(Queue(a.spool.dir))[e] + multiset(a.ledger.capDropped)[e] <= Placed(a)[e];
    assert multiset(Queue(a.spool.dir))[e] >= 1;
  }

  /** The states around a kept request, `m`, and the next request, `n`, of an ascending run. */
  ghost predicate RetriedAt(p: Params, settings: Settings, d: Directory, events: seq<Event>, m: nat, n: nat) {
    && m < n < |events|
    && Ascending(Queue(d), RunTo(p, Start(settings, d), events, n).ledger)
    && var a, b := RunTo(p, Start(settings, d), events, m), RunTo(p, Start(settings, d), events, m + 1);
    var c := RunTo(p, Start(settings, d), events, n);
    && events[m].UploadTick? && FateOf(events[m].env.exchange) == Kept
    && b.ledger.sends != a.ledger.sends
    && c.ledger.sends == b.ledger.sends
    && events[n].UploadTick?
    && RunTo(p, Start(settings, d), events, n + 1).ledger.sends != c.ledger.sends
  }

  /** A batch that was kept leads the next request, however many ticks lie between the two: the next batch begins
      with it, less the windows the cap has taken from its front since, and is filled up with what follows. It is
      sent again unchanged exactly if the cap took nothing and no window has come to fill it up. */
  lemma {:induction false} RetryResends(p: Params, settings: Settings, d: Directory, events: seq<Event>, m: nat, n: nat)
    requires RetriedAt(p, settings, d, events, m, n)
    ensures var a, c := RunTo(p, Start(settings, d), events, m), RunTo(p, Start(settings, d), events, n);
      var sends, k := RunTo(p, Start(settings, d), events, n + 1).ledger.sends, |a.ledger.sends|;
      && |sends| == k + 2 && |a.ledger.capDropped| <= |c.ledger.capDropped|
      && var lost := |c.ledger.capDropped| - |a.ledger.capDropped|;
      && sends[k].batch[Min(lost, |sends[k].batch|)..] <= sends[k + 1].batch
      && |sends[k + 1].batch| == Min(p.MaxBatch(), |Queue(c.spool.dir)|)
      && (sends[k + 1].batch == sends[k].batch <==>
            && c.ledger.capDropped == a.ledger.capDropped
            && |sends[k].batch| == Min(p.MaxBatch(), |Queue(c.spool.dir)|))
  {
    hide Ascending, Queue, RunTo, Uploaded, Params.MaxBatch, HandedOver, FateOf;
    var a, b, c := RunTo(p, Start(settings, d), events, m), RunTo(p, Start(settings, d), events, m + 1),
      RunTo(p, Start(settings, d), events, n);
    UploadAt(p, Start(settings, d), events, m);
    UploadAt(p, Start(settings, d), events, n);
    UploadRetention(p, a, events[m].env, false);
    FullBatch(p, a, events[m].env, false);
    UploadRetention(p, c, events[n].env, false);
    FullBatch(p, c, events[n].env, false);
    QuietKeepsHead(p, settings, d, events, m + 1, n);
    var lost := c.ledger.capDropped[|b.ledger.capDropped|..];
    LostIsNotQueued(p, settings, d, events, n, Queue(c.spool.dir)[0]);
    HeadOfHead(Queue(a.spool.dir), lost, Queue(c.spool.dir), p.MaxBatch());
  }

  lemma UploadAt(p: Params, start: AgentState, events: seq<Event>, i: nat)
    requires start.ledger.generations != []
    requires i < |events| && events[i].UploadTick?
    ensures RunTo(p, start, events, i + 1) == Uploaded(p, RunTo(p, start, events, i), events[i].env, false)
  {
    hide Uploaded;
  }

  lemma HeadOfHead(q: seq<Entry>, lost: seq<Entry>, q': seq<Entry>, batch: nat)
    requires q <= lost + q'
    requires batch > 0 && q != [] && q' != [] && q'[0] !in lost
    ensures var first, next := q[..Min(batch, |q|)], q'[..Min(batch, |q'|)];
      && first[Min(|lost|, |first|)..] <= next
      && (first == next <==> lost == [] && |first| == |next|)
  {
    var first := q[..Min(batch, |q|)];
    if lost != [] {
      assert first[0] == (lost + q')[0] == lost[0];
      assert q'[..Min(batch, |q'|)][0] == q'[0];
    }
    if |lost| < |first| {
      assert first == (lost + q')[..|first|];
      assert first[|lost|..] == q'[..|first| - |lost|];
    }
  }
}
