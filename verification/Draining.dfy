/** How many requests it takes to empty the spool. */
module Draining {
  import opened Clock
  import opened Windows
  import opened Aggregation
  import opened Encoding
  import opened ByteOrder
  import opened FileNames
  import opened SpoolModel
  import opened WireConfig
  import opened Ship
  import opened AgentModel
  import opened Conservation
  import opened AgentTheorems

  // ----- Drain -----

  /** The number of requests that empty a queue of `n` windows. */
  function Requests(n: nat, batch: nat): nat
    requires batch > 0
  {
    if n == 0 then 0 else 1 + Requests(if n <= batch then 0 else n - batch, batch)
  }

  lemma {:induction false} RequestsIsCeiling(n: nat, batch: nat)
    requires batch > 0
    ensures Requests(n, batch) * batch >= n
    ensures n > 0 ==> (Requests(n, batch) - 1) * batch < n
  {
    if n > batch {
      RequestsIsCeiling(n - batch, batch);
      var r := Requests(n - batch, batch);
      assert Requests(n, batch) == r + 1;
      assert (r + 1) * batch == r * batch + batch;
      assert r * batch == (r - 1) * batch + batch;
    } else if n > 0 {
      assert Requests(0, batch) == 0;
    }
  }

  /** An upload tick that reaches a platform which accepts, whatever it replies, with every listed file readable. */
  ghost predicate Accepted(a: AgentState, env: UploadEnv) {
    && a.retryAt <= env.now
    && (forall x | x in Files(a.spool.dir) :: x !in env.unreadable)
    && Send(env.exchange).Success?
  }

  /** A reply that leaves the width alone: it is refused, does not name one or names the one in force. */
  predicate KeepsWidth(s: Settings, c: Config) {
    c.Applied(s).None? || c.Applied(s).value.window == s.window
  }

  /** The windows a reply could still hand to the spool: the one in progress. */
  function Pending(a: AgentState): nat {
    if Flushed(a.agg).Some? then 1 else 0
  }

  /** An accepted request whose reply changes the width and so hands the window in progress over to the spool. */
  ghost predicate HandsOver(a: AgentState, env: UploadEnv) {
    && Accepted(a, env)
    && Queue(a.spool.dir) != []
    && Pending(a) > 0
    && !KeepsWidth(a.settings, Send(env.exchange).value.config)
  }

  /** An accepted upload that hands no window over. */
  ghost predicate Accepting(a: AgentState, env: UploadEnv) {
    Accepted(a, env) && !HandsOver(a, env)
  }

  /** The spool once the windows of a request are discarded. */
  ghost function SpoolAfterTake(p: Params, a: AgentState, env: UploadEnv): SpoolState {
    a.spool.(dir := Discarded(AfterPeek(a.spool.dir, p.MaxBatch(), env.unreadable), Taken(p, a, env).entries))
  }

  /** A window added to this spool costs no other: the write succeeds, its name is free, and it fits the cap. */
  ghost predicate LosesNothing(p: Params, s: SpoolState, b: BucketValue, io: WriteIo) {
    var d := Published(s.dir, NameFor(s.seqNo, b), b, io.size);
    io.fault == NoFault && Replaced(s.dir, NameFor(s.seqNo, b)) == [] && CapLosses(d, p.MaxBytes()) == []
  }

  /** The window handed over makes the queue one longer than the request has left it. */
  ghost predicate AddsWindow(p: Params, a: AgentState, env: UploadEnv) {
    HandsOver(a, env) && LosesNothing(p, SpoolAfterTake(p, a, env), Flushed(a.agg).value, env.io)
  }

  /** The state after the first `n` of the given upload ticks. */
  ghost function UploadedAll(p: Params, a: AgentState, envs: seq<UploadEnv>, n: nat): AgentState
    requires n <= |envs|
  {
    if n == 0 then a else Uploaded(p, UploadedAll(p, a, envs, n - 1), envs[n - 1], false)
  }

  /** An add lengthens the queue by one if it loses nothing, and otherwise not at all. */
  lemma AddLengthensIff(p: Params, s: SpoolState, b: BucketValue, io: WriteIo)
    ensures var q, q' := Queue(s.dir), Queue(AfterAdd(s, p.MaxBytes(), b, io).dir);
      |q'| <= |q| + 1 && (|q'| == |q| + 1 <==> LosesNothing(p, s, b, io))
  {
    hide Queue, CapLosses, Replaced, Capped, Drops, NameFor, Published, NewEntry;
    if io.fault == NoFault {
      AddConserves(s, p.MaxBytes(), b, io);
      var name := NameFor(s.seqNo, b);
      var lost, replaced := CapLosses(Published(s.dir, name, b, io.size), p.MaxBytes()), Replaced(s.dir, name);
      SizesAdd(Queue(s.dir), NewEntry(s, b), Queue(AfterAdd(s, p.MaxBytes(), b, io).dir), lost, replaced);
    }
  }

  lemma SizesAdd<T>(q: seq<T>, e: T, r: seq<T>, x: seq<T>, y: seq<T>)
    requires multiset(q) + multiset{e} == multiset(r) + multiset(x) + multiset(y)
    ensures |q| + 1 == |r| + |x| + |y|
  {
    assert |multiset(q) + multiset{e}| == |q| + 1;
    assert |multiset(r) + multiset(x) + multiset(y)| == |r| + |x| + |y|;
  }

  lemma ConfigHandsOver(p: Params, a: AgentState, c: Config, io: WriteIo)
    ensures var b := Configured(p, a, c, io);
      && b.retryAt == a.retryAt
      && (if KeepsWidth(a.settings, c) || Pending(a) == 0 then
            b.spool == a.spool && Pending(b) <= Pending(a)
          else b.spool == AfterAdd(a.spool, p.MaxBytes(), Flushed(a.agg).value, io) && Pending(b) == 0)
  {
    hide Config.Applied, AfterAdd, Recorded;
  }

  /** An accepted upload takes a full batch off the queue, or all of it; on an empty queue it makes no request and
      leaves no file behind. A reply adds at most the window in progress, once, and exactly if nothing is lost. */
  lemma AcceptedUpload(p: Params, a: AgentState, env: UploadEnv)
    requires Accepted(a, env)
    ensures var b := Uploaded(p, a, env, false); var q := Queue(a.spool.dir); var k := Min(p.MaxBatch(), |q|);
      && (q == [] ==> b.ledger.sends == a.ledger.sends && Files(b.spool.dir) == [] && b.retryAt == a.retryAt)
      && (q != [] ==>
            && |b.ledger.sends| == |a.ledger.sends| + 1
            && BatchesWith(b.ledger.sends, Acknowledged) == BatchesWith(a.ledger.sends, Acknowledged) + q[..k]
            && b.retryAt == 0)
      && (if !HandsOver(a, env) then Queue(b.spool.dir) == q[k..] && Pending(b) <= Pending(a)
          else
            && Pending(b) == 0
            && |Queue(b.spool.dir)| <= |q| - k + 1
            && (|Queue(b.spool.dir)| == |q| - k + 1 <==> AddsWindow(p, a, env)))
  {
    hide Queue, Files, AfterPeek, Discarded, Configured, Params.MaxBatch, PeekScan, Send, FateOf, BatchesWith, Decoded,
      KeepsWidth, Flushed, LosesNothing, AfterAdd;
    var n := p.MaxBatch();
    PeekSpecification(a.spool.dir, n, env.unreadable);
    SuccessIsAcknowledged(env.exchange);
    var scan := PeekScan(a.spool.dir, n, env.unreadable);
    var c := WithDir(a, AfterPeek(a.spool.dir, n, env.unreadable));
    if scan.entries == [] {
      NothingLeft(a.spool.dir, n, env.unreadable);
    } else {
      var r := SendRecord(env.now, scan.entries, env.exchange, 0, 0, false);
      var s := WithSend(WithDir(c, Discarded(c.spool.dir, scan.entries)).(failures := 0, retryAt := 0), r);
      var config := Send(env.exchange).value.config;
      BatchesWithAppend(a.ledger.sends, r, Acknowledged);
      DiscardDropsHead(c.spool.dir, |scan.entries|);
      ConfigKeepsBackoff(p, s, config, env.io);
      ConfigHandsOver(p, s, config, env.io);
      if HandsOver(a, env) {
        AddLengthensIff(p, s.spool, Flushed(a.agg).value, env.io);
      }
    }
  }

  /** A peek that finds no window has deleted every file. */
  lemma NothingLeft(d: Directory, n: nat, unreadable: set<string>)
    requires forall x | x in Files(d) :: x !in unreadable
    requires n > 0 && Queue(d) == []
    ensures Files(AfterPeek(d, n, unreadable)) == []
  {
    hide AfterPeek, IsWindowFile, Below, PeekScan;
    var d' := AfterPeek(d, n, unreadable);
    PeekRemoves(d, n, unreadable);
    AllRemoved(d, n, unreadable);
    assert WindowNames(d') == {} by {
      assert forall x | x in WindowNames(d') :: x in Files(d);
    }
  }

  lemma AllRemoved(d: Directory, n: nat, unreadable: set<string>)
    requires forall x | x in Files(d) :: x !in unreadable
    requires n > 0 && Queue(d) == []
    ensures forall x | x in Files(d) :: x in PeekScan(d, n, unreadable).removed
  {
    hide AfterPeek, Decoded, Files, PeekScan, Readable;
    PeekSpecification(d, n, unreadable);
    var names := Files(d);
    forall x | x in names
      ensures x in PeekScan(d, n, unreadable).removed
    {
      var k :| 0 <= k < |names| && names[k] == x;
      DecodedMonotone(d, names, k);
      ListedUnreadable(d, names, k);
    }
  }

  lemma PeekRemoves(d: Directory, n: nat, unreadable: set<string>)
    ensures AfterPeek(d, n, unreadable) == d - PeekScan(d, n, unreadable).removed
  {
  }

  lemma DecodedMonotone(d: Directory, names: seq<string>, k: nat)
    requires k <= |names| && Decoded(d, names) == []
    ensures Decoded(d, names[..k]) == []
  {
    DecodedConcat(d, names[..k], names[k..]);
    assert names == names[..k] + names[k..];
  }

  lemma ListedUnreadable(d: Directory, names: seq<string>, k: nat)
    requires k < |names| && Decoded(d, names) == []
    ensures !Readable(d, names[k])
  {
    if Readable(d, names[k]) {
      DecodedMembers(d, names, EntryOf(d, names[k]));
    }
  }

  lemma NoUpload(p: Params, a: AgentState, envs: seq<UploadEnv>)
    ensures UploadedAll(p, a, envs, 0) == a
  {
  }

  lemma DrainStep(p: Params, a: AgentState, envs: seq<UploadEnv>, n: nat)
    requires 0 < n <= |envs|
    requires Accepting(UploadedAll(p, a, envs, n - 1), envs[n - 1])
    ensures var b, b' := UploadedAll(p, a, envs, n - 1), UploadedAll(p, a, envs, n);
      var rest, rest' := Queue(b.spool.dir), Queue(b'.spool.dir); var k := Min(p.MaxBatch(), |rest|);
      && rest' == rest[k..]
      && BatchesWith(b'.ledger.sends, Acknowledged) == BatchesWith(b.ledger.sends, Acknowledged) + rest[..k]
      && (rest == [] ==> b'.ledger.sends == b.ledger.sends && Files(b'.spool.dir) == [])
      && (rest != [] ==>
            && |b'.ledger.sends| == |b.ledger.sends| + 1
            && Requests(|rest|, p.MaxBatch()) == 1 + Requests(|rest'|, p.MaxBatch()))
      && (rest == [] <==> Requests(|rest|, p.MaxBatch()) == 0)
  {
    hide Queue, Files, Uploaded, BatchesWith, Accepted, HandsOver, Params.MaxBatch, Requests, Pending, AddsWindow;
    var b := UploadedAll(p, a, envs, n - 1);
    AcceptedUpload(p, b, envs[n - 1]);
    RequestsStep(|Queue(b.spool.dir)|, p.MaxBatch());
  }

  /** Without a window handed over, each tick is one request less, and the last windows are what a full batch
      leaves over. */
  lemma {:induction false} DrainsFrom(p: Params, a: AgentState, envs: seq<UploadEnv>, m: nat, n: nat)
    requires m <= n <= |envs|
    requires forall i | m <= i < n :: Accepting(UploadedAll(p, a, envs, i), envs[i])
    ensures var before, rest := |Queue(UploadedAll(p, a, envs, m).spool.dir)|, |Queue(UploadedAll(p, a, envs, n).spool.dir)|;
      && Requests(rest, p.MaxBatch())
         == (if n - m <= Requests(before, p.MaxBatch()) then Requests(before, p.MaxBatch()) - (n - m) else 0)
      && (rest > 0 ==> (FullBatches(rest, p.MaxBatch()) <==> FullBatches(before, p.MaxBatch())))
    decreases n
  {
    hide Queue, UploadedAll, Accepting, Params.MaxBatch, Requests, FullBatches;
    if m < n {
      DrainsFrom(p, a, envs, m, n - 1);
      DrainStep(p, a, envs, n);
      var rest := |Queue(UploadedAll(p, a, envs, n - 1).spool.dir)|;
      if rest > 0 {
        LeftOver(rest, p.MaxBatch());
      }
      RequestsStep(rest, p.MaxBatch());
    }
  }

  lemma {:induction false} DrainsInOrder(p: Params, a: AgentState, envs: seq<UploadEnv>, n: nat)
    requires n <= |envs|
    requires forall i | 0 <= i < n :: Accepting(UploadedAll(p, a, envs, i), envs[i])
    ensures var b := UploadedAll(p, a, envs, n); var q, rest := Queue(a.spool.dir), Queue(b.spool.dir);
      && |rest| <= |q| && rest == q[|q| - |rest|..]
      && BatchesWith(b.ledger.sends, Acknowledged)
         == BatchesWith(a.ledger.sends, Acknowledged) + q[..|q| - |rest|]
      && |b.ledger.sends| + Requests(|rest|, p.MaxBatch()) == |a.ledger.sends| + Requests(|q|, p.MaxBatch())
  {
    hide Queue, Files, UploadedAll, BatchesWith, Accepting, Params.MaxBatch, Requests;
    if n > 0 {
      DrainsInOrder(p, a, envs, n - 1);
      var b, b' := UploadedAll(p, a, envs, n - 1), UploadedAll(p, a, envs, n);
      var rest := Queue(b.spool.dir);
      DrainStep(p, a, envs, n);
      SendMore(
        Queue(a.spool.dir), rest, Queue(b'.spool.dir), Min(p.MaxBatch(), |rest|),
        BatchesWith(a.ledger.sends, Acknowledged), BatchesWith(b.ledger.sends, Acknowledged),
        BatchesWith(b'.ledger.sends, Acknowledged));
    } else {
      NoUpload(p, a, envs);
    }
  }

  /** Draining: while the platform accepts and its replies hand no window over, every upload sends the next batch
      of what was queued, in order and each window once; after exactly ceil(windows / batch) requests the queue is
      empty, and one more tick finds nothing to send and leaves no file, corrupt ones included. */
  lemma {:induction false} Drains(p: Params, a: AgentState, envs: seq<UploadEnv>, n: nat)
    requires n <= |envs|
    requires forall i | 0 <= i < n :: Accepting(UploadedAll(p, a, envs, i), envs[i])
    ensures var b := UploadedAll(p, a, envs, n); var q, rest := Queue(a.spool.dir), Queue(b.spool.dir);
      && |rest| <= |q| && rest == q[|q| - |rest|..]
      && BatchesWith(b.ledger.sends, Acknowledged)
         == BatchesWith(a.ledger.sends, Acknowledged) + q[..|q| - |rest|]
      && |b.ledger.sends| + Requests(|rest|, p.MaxBatch()) == |a.ledger.sends| + Requests(|q|, p.MaxBatch())
      && (n >= Requests(|q|, p.MaxBatch()) ==> rest == [])
      && (n < Requests(|q|, p.MaxBatch()) ==> Requests(|rest|, p.MaxBatch()) == Requests(|q|, p.MaxBatch()) - n)
      && (n > Requests(|q|, p.MaxBatch()) ==> Files(b.spool.dir) == [])
  {
    hide Queue, Files, UploadedAll, BatchesWith, Accepting, Params.MaxBatch, Requests;
    DrainsInOrder(p, a, envs, n);
    DrainsFrom(p, a, envs, 0, n);
    NoUpload(p, a, envs);
    RequestsStep(|Queue(UploadedAll(p, a, envs, n).spool.dir)|, p.MaxBatch());
    if n > Requests(|Queue(a.spool.dir)|, p.MaxBatch()) {
      DrainsFrom(p, a, envs, 0, n - 1);
      RequestsStep(|Queue(UploadedAll(p, a, envs, n - 1).spool.dir)|, p.MaxBatch());
      DrainStep(p, a, envs, n);
    }
  }

  /** Whatever an accepting platform replies, one request more than that is always enough, and it takes none more
      if no window is in progress. */
  lemma {:induction false} DrainsWhateverTheReply(p: Params, a: AgentState, envs: seq<UploadEnv>, n: nat)
    requires n <= |envs|
    requires forall i | 0 <= i < n :: Accepted(UploadedAll(p, a, envs, i), envs[i])
    ensures var b := UploadedAll(p, a, envs, n); var q, rest := Queue(a.spool.dir), Queue(b.spool.dir);
      && |b.ledger.sends| + Requests(|rest|, p.MaxBatch()) + Pending(b)
         <= |a.ledger.sends| + Requests(|q|, p.MaxBatch()) + Pending(a)
      && (rest != [] ==> |b.ledger.sends| == |a.ledger.sends| + n)
      && (n >= Requests(|q|, p.MaxBatch()) + Pending(a) ==> rest == [])
  {
    hide Queue, Files, Uploaded, BatchesWith, Accepted, HandsOver, Params.MaxBatch, Requests, Pending, AddsWindow;
    if n > 0 {
      DrainsWhateverTheReply(p, a, envs, n - 1);
      var b := UploadedAll(p, a, envs, n - 1);
      AcceptedUpload(p, b, envs[n - 1]);
      HandingOverIsPending(b, envs[n - 1]);
      var rest := Queue(b.spool.dir);
      RequestsStep(|rest|, p.MaxBatch());
      OneMoreWindow(|rest| - Min(p.MaxBatch(), |rest|), p.MaxBatch());
      RequestsMonotone(
        |Queue(UploadedAll(p, a, envs, n).spool.dir)|, |rest| - Min(p.MaxBatch(), |rest|) + 1, p.MaxBatch());
    }
    RequestsStep(|Queue(UploadedAll(p, a, envs, n).spool.dir)|, p.MaxBatch());
  }

  lemma HandingOverIsPending(a: AgentState, env: UploadEnv)
    ensures HandsOver(a, env) ==> Pending(a) == 1 && Queue(a.spool.dir) != []
  {
    hide Queue, Send, KeepsWidth, Flushed;
  }

  /** A queue of `n` windows is a whole number of batches. */
  predicate FullBatches(n: nat, batch: nat)
    requires batch > 0
  {
    n % batch == 0
  }

  /** One more window takes one more request exactly if the batches before it are full. */
  lemma {:induction false} OneMoreWindow(n: nat, batch: nat)
    requires batch > 0
    ensures Requests(n + 1, batch) == Requests(n, batch) + if FullBatches(n, batch) then 1 else 0
  {
    if n > batch {
      OneMoreWindow(n - batch, batch);
      LessOneBatch(n, batch);
    } else if n == batch {
      assert Requests(n + 1, batch) == 1 + Requests(1, batch);
      assert Requests(1, batch) == 1 + Requests(0, batch);
      LessOneBatch(n, batch);
    } else if n > 0 {
      RemainderOfSmall(n, batch);
    } else {
      RemainderOfSmall(0, batch);
      assert Requests(1, batch) == 1 + Requests(0, batch);
    }
  }

  lemma LessOneBatch(n: nat, batch: nat)
    requires 0 < batch <= n
    ensures (n - batch) % batch == n % batch
  {
    var q, r := n / batch, n % batch;
    assert n == q * batch + r;
    assert n - batch == (q - 1) * batch + r by { assert (q - 1) * batch == q * batch - batch; }
    RemainderUnique(n - batch, batch, q - 1, r);
  }

  lemma RemainderOfSmall(n: nat, batch: nat)
    requires n < batch
    ensures n % batch == n
  {
  }

  lemma {:induction false} RequestsMonotone(m: nat, n: nat, batch: nat)
    requires batch > 0
    ensures m <= n ==> Requests(m, batch) <= Requests(n, batch)
  {
    if batch < m <= n {
      RequestsMonotone(m - batch, n - batch, batch);
    }
  }

  // ----- When the extra request is needed -----

  /** Once no window is in progress, none comes back and none is handed over. */
  lemma {:induction false} NothingPending(p: Params, a: AgentState, envs: seq<UploadEnv>, m: nat, n: nat)
    requires m <= n <= |envs|
    requires forall i | m <= i < n :: Accepted(UploadedAll(p, a, envs, i), envs[i])
    requires Pending(UploadedAll(p, a, envs, m)) == 0
    ensures Pending(UploadedAll(p, a, envs, n)) == 0
    ensures forall i | m <= i < n :: Accepting(UploadedAll(p, a, envs, i), envs[i])
    decreases n
  {
    hide Queue, Uploaded, Accepted, HandsOver, Params.MaxBatch, Pending, AddsWindow, BatchesWith, Files;
    if m < n {
      NothingPending(p, a, envs, m, n - 1);
      HandingOverIsPending(UploadedAll(p, a, envs, n - 1), envs[n - 1]);
      AcceptedUpload(p, UploadedAll(p, a, envs, n - 1), envs[n - 1]);
    }
  }

  /** At most one reply hands a window over. */
  lemma HandedOverOnce(p: Params, a: AgentState, envs: seq<UploadEnv>, i: nat, c: nat)
    requires i < c < |envs|
    requires forall k | 0 <= k <= c :: Accepted(UploadedAll(p, a, envs, k), envs[k])
    requires HandsOver(UploadedAll(p, a, envs, c), envs[c])
    ensures Accepting(UploadedAll(p, a, envs, i), envs[i])
  {
    hide Queue, UploadedAll, Accepted, HandsOver, Params.MaxBatch, Pending, AddsWindow;
    var b := UploadedAll(p, a, envs, i);
    HandingOverIsPending(UploadedAll(p, a, envs, c), envs[c]);
    if HandsOver(b, envs[i]) {
      HandoverStep(p, a, envs, i);
      NothingPending(p, a, envs, i + 1, c);
    }
  }

  /** The reply to request `c` adds a window although no batch has room for it: the backlog fills its batches, or
      that request was the last. */
  ghost predicate Overflows(p: Params, a: AgentState, envs: seq<UploadEnv>, c: nat)
    requires c < |envs|
  {
    var n := |Queue(a.spool.dir)|;
    && AddsWindow(p, UploadedAll(p, a, envs, c), envs[c])
    && (FullBatches(n, p.MaxBatch()) || c == Requests(n, p.MaxBatch()) - 1)
  }

  /** What is left after all the requests of the backlog, given the one whose reply hands a window over. */
  lemma AfterHandover(p: Params, a: AgentState, envs: seq<UploadEnv>, c: nat)
    requires var r := Requests(|Queue(a.spool.dir)|, p.MaxBatch());
      && c < r <= |envs|
      && forall i | 0 <= i < r :: Accepted(UploadedAll(p, a, envs, i), envs[i])
    requires HandsOver(UploadedAll(p, a, envs, c), envs[c])
    ensures var r := Requests(|Queue(a.spool.dir)|, p.MaxBatch());
      Queue(UploadedAll(p, a, envs, r).spool.dir) != [] <==> Overflows(p, a, envs, c)
  {
    hide Queue, UploadedAll, Accepted, HandsOver, Params.MaxBatch, Pending, Requests, AddsWindow, BatchesWith, Files,
      FullBatches;
    var batch := p.MaxBatch();
    var r := Requests(|Queue(a.spool.dir)|, batch);
    forall i | 0 <= i < c
      ensures Accepting(UploadedAll(p, a, envs, i), envs[i])
    {
      HandedOverOnce(p, a, envs, i, c);
    }
    var b := UploadedAll(p, a, envs, c);
    DrainsFrom(p, a, envs, 0, c);
    NoUpload(p, a, envs);
    HandingOverIsPending(b, envs[c]);
    HandoverStep(p, a, envs, c);
    NothingPending(p, a, envs, c + 1, r);
    DrainsFrom(p, a, envs, c + 1, r);
    RequestsStep(|Queue(b.spool.dir)|, batch);
    HandoverCount(
      |Queue(a.spool.dir)|, |Queue(b.spool.dir)|, |Queue(UploadedAll(p, a, envs, c + 1).spool.dir)|,
      |Queue(UploadedAll(p, a, envs, r).spool.dir)|, c, batch, AddsWindow(p, b, envs[c]));
  }

  lemma HandoverStep(p: Params, a: AgentState, envs: seq<UploadEnv>, c: nat)
    requires c < |envs| && HandsOver(UploadedAll(p, a, envs, c), envs[c])
    ensures var b, b' := UploadedAll(p, a, envs, c), UploadedAll(p, a, envs, c + 1);
      var rest, next := |Queue(b.spool.dir)|, |Queue(b'.spool.dir)|;
      && Pending(b') == 0
      && next <= rest - Min(p.MaxBatch(), rest) + 1
      && (next == rest - Min(p.MaxBatch(), rest) + 1 <==> AddsWindow(p, b, envs[c]))
  {
    hide Queue, Uploaded, Accepted, KeepsWidth, Params.MaxBatch, Pending, AddsWindow, BatchesWith, Files;
    AcceptedUpload(p, UploadedAll(p, a, envs, c), envs[c]);
  }

  /** The sizes of the queue: `n` at first, `rest` before request `c`, `next` after it and `last` at the end. */
  lemma {:induction false} HandoverCount(n: nat, rest: nat, next: nat, last: nat, c: nat, batch: nat, adds: bool)
    requires batch > 0 && rest > 0 && c < Requests(n, batch)
    requires Requests(rest, batch) == Requests(n, batch) - c && (FullBatches(rest, batch) <==> FullBatches(n, batch))
    requires next <= rest - Min(batch, rest) + 1 && (next == rest - Min(batch, rest) + 1 <==> adds)
    requires var left := Requests(n, batch) - c - 1;
      Requests(last, batch) == if left <= Requests(next, batch) then Requests(next, batch) - left else 0
    ensures last > 0 <==> adds && (FullBatches(n, batch) || c == Requests(n, batch) - 1)
  {
    hide Requests, FullBatches;
    var left := rest - Min(batch, rest);
    RequestsStep(rest, batch);
    RequestsStep(left, batch);
    RequestsStep(last, batch);
    RequestsMonotone(next, left, batch);
    OneMoreWindow(left, batch);
    LeftOver(rest, batch);
  }

  /** What a request leaves fills its batches if the queue did, and if nothing is left. */
  lemma LeftOver(rest: nat, batch: nat)
    requires batch > 0 && rest > 0
    ensures var left := rest - Min(batch, rest); FullBatches(left, batch) <==> FullBatches(rest, batch) || left == 0
  {
    if rest > batch {
      LessOneBatch(rest, batch);
    } else {
      RemainderOfSmall(0, batch);
    }
  }

  /** Exactly when ceil(windows / batch) accepted requests do not empty the spool: one of the replies hands the
      window in progress over without loss, and the backlog fills its batches or that request was its last. */
  lemma ExtraRequestIff(p: Params, a: AgentState, envs: seq<UploadEnv>)
    requires var r := Requests(|Queue(a.spool.dir)|, p.MaxBatch());
      r <= |envs| && forall i | 0 <= i < r :: Accepted(UploadedAll(p, a, envs, i), envs[i])
    ensures var r := Requests(|Queue(a.spool.dir)|, p.MaxBatch());
      Queue(UploadedAll(p, a, envs, r).spool.dir) != [] <==> exists c | 0 <= c < r :: Overflows(p, a, envs, c)
  {
    hide Queue, UploadedAll, Accepted, HandsOver, Params.MaxBatch, Requests, Overflows;
    var r := Requests(|Queue(a.spool.dir)|, p.MaxBatch());
    if c :| 0 <= c < r && HandsOver(UploadedAll(p, a, envs, c), envs[c]) {
      AfterHandover(p, a, envs, c);
      forall i | 0 <= i < r && Overflows(p, a, envs, i)
        ensures Overflows(p, a, envs, c)
      {
        OverflowHandsOver(p, a, envs, i);
        AfterHandover(p, a, envs, i);
      }
    } else {
      DrainsFrom(p, a, envs, 0, r);
      NoUpload(p, a, envs);
      RequestsStep(|Queue(UploadedAll(p, a, envs, r).spool.dir)|, p.MaxBatch());
      forall i | 0 <= i < r
        ensures !Overflows(p, a, envs, i)
      {
        if Overflows(p, a, envs, i) {
          OverflowHandsOver(p, a, envs, i);
        }
      }
    }
  }

  lemma OverflowHandsOver(p: Params, a: AgentState, envs: seq<UploadEnv>, c: nat)
    requires c < |envs| && Overflows(p, a, envs, c)
    ensures HandsOver(UploadedAll(p, a, envs, c), envs[c])
  {
    hide Queue, UploadedAll, HandsOver, LosesNothing;
  }

  /** An instance in which the batch has room: a single queued window is sent, the reply puts the window in progress
      into the empty spool, and a second request follows. */
  lemma ExtraRequestNeeded(p: Params, a: AgentState, env: UploadEnv)
    requires Accepted(a, env)
    requires |Queue(a.spool.dir)| == 1 && p.MaxBatch() >= 2
    requires Flushed(a.agg).Some? && env.io.fault == NoFault
    requires !KeepsWidth(a.settings, Send(env.exchange).value.config)
    ensures Overflows(p, a, [env], 0)
    ensures |Queue(Uploaded(p, a, env, false).spool.dir)| == 1
    ensures Requests(|Queue(a.spool.dir)|, p.MaxBatch()) == Requests(|Queue(a.spool.dir)| + 1, p.MaxBatch()) == 1
  {
    hide Queue, Files, Uploaded, Send, KeepsWidth, Flushed, Params.MaxBatch, PeekScan, AfterPeek, Discarded, LosesNothing;
    var n := p.MaxBatch();
    assert Requests(1, n) == 1 + Requests(0, n) && Requests(2, n) == 1 + Requests(0, n);
    OneWindowLeavesNoFile(a.spool.dir, n, env.unreadable);
    LonelyAdd(p, SpoolAfterTake(p, a, env), Flushed(a.agg).value, env.io);
    NoUpload(p, a, [env]);
    AcceptedUpload(p, a, env);
  }

  /** A batch with room takes the only window, and its peek clears away every other file. */
  lemma OneWindowLeavesNoFile(d: Directory, n: nat, unreadable: set<string>)
    requires forall x | x in Files(d) :: x !in unreadable
    requires n >= 2 && |Queue(d)| == 1
    ensures Files(Discarded(AfterPeek(d, n, unreadable), PeekScan(d, n, unreadable).entries)) == []
  {
    hide AfterPeek, IsWindowFile, Below, Discarded, PeekScan;
    var scan := PeekScan(d, n, unreadable);
    var d' := Discarded(AfterPeek(d, n, unreadable), scan.entries);
    PeekAndDiscard(d, n, unreadable);
    AllTaken(d, n, unreadable);
    assert WindowNames(d') == {} by {
      assert forall x | x in WindowNames(d') :: x in Files(d);
    }
  }

  /** Every file is sent with its window or removed because it holds none. */
  lemma AllTaken(d: Directory, n: nat, unreadable: set<string>)
    requires forall x | x in Files(d) :: x !in unreadable
    requires n >= 2 && |Queue(d)| == 1
    ensures var scan := PeekScan(d, n, unreadable);
      forall x | x in Files(d) :: x in scan.removed || x in NameSet(scan.entries)
  {
    hide AfterPeek, Decoded, Files, PeekScan, Readable, EntryOf;
    PeekSpecification(d, n, unreadable);
    var names, scan := Files(d), PeekScan(d, n, unreadable);
    QueueIsDecoded(d);
    forall x | x in names
      ensures x in scan.removed || x in NameSet(scan.entries)
    {
      var k :| 0 <= k < |names| && names[k] == x;
      DecodedConcat(d, names[..k], names[k..]);
      assert names == names[..k] + names[k..];
      if Readable(d, x) {
        ReadableIsListed(d, names, x);
        assert EntryOf(d, x) in scan.entries;
      }
    }
  }

  lemma ReadableIsListed(d: Directory, names: seq<string>, x: string)
    requires x in names && Readable(d, x)
    ensures EntryOf(d, x) in Decoded(d, names) && EntryOf(d, x).name == x
  {
    DecodedMembers(d, names, EntryOf(d, x));
  }

  lemma PeekAndDiscard(d: Directory, n: nat, unreadable: set<string>)
    ensures var scan := PeekScan(d, n, unreadable);
      Discarded(AfterPeek(d, n, unreadable), scan.entries) == d - scan.removed - NameSet(scan.entries)
  {
  }

  /** A window added to an empty spool loses nothing, whatever its size. */
  lemma LonelyAdd(p: Params, s: SpoolState, b: BucketValue, io: WriteIo)
    requires io.fault == NoFault && Files(s.dir) == []
    ensures LosesNothing(p, s, b, io)
  {
    hide IsWindowFile, Below, Decode, Encode, Name, UnixNano, NextSeq, Capped, Drops, Total, CapLosses;
    var name := NameFor(s.seqNo, b);
    var d := Published(s.dir, name, b, io.size);
    NamesAreWindowFiles(UnixNano(b.facts.start), NextSeq(s.seqNo));
    assert WindowNames(d) == {name} by {
      forall x | x in WindowNames(d)
        ensures x == name
      {
        assert x != name ==> x in WindowNames(s.dir);
      }
    }
    assert name !in s.dir by {
      assert name in s.dir ==> name in WindowNames(s.dir);
    }
    ListingUnique(WindowNames(d), [name]);
    FittingKeepsAll(d, p.MaxBytes());
  }

  lemma RequestsStep(n: nat, batch: nat)
    requires batch > 0
    ensures n > 0 ==> Requests(n, batch) == 1 + Requests(n - Min(batch, n), batch)
    ensures Requests(n, batch) == 0 <==> n == 0
  {
  }

  /** Of the queue `q`, `rest` was left and `sent` sent; then `k` more are sent. */
  lemma SendMore<T>(q: seq<T>, rest: seq<T>, rest': seq<T>, k: nat, before: seq<T>, sent: seq<T>, sent': seq<T>)
    requires |rest| <= |q| && rest == q[|q| - |rest|..] && sent == before + q[..|q| - |rest|]
    requires k <= |rest| && rest' == rest[k..] && sent' == sent + rest[..k]
    ensures |rest'| <= |q| && rest' == q[|q| - |rest'|..] && sent' == before + q[..|q| - |rest'|]
  {
    var i := |q| - |rest|;
    assert q[..i] + q[i..][..k] == q[..i + k];
  }
}
