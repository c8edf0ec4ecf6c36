/** The spool as a value: what each operation does to the directory and to the queue of windows in it
    (internal/spool/spool.go). */
module SpoolModel {
  import opened Clock
  import opened Windows
  import opened Encoding
  import opened ByteOrder
  import opened FileNames

  const DEFAULT_MAX_BYTES: int := 32 * 1024 * 1024

  /** The content of a file: a document, or bytes that do not parse as one. */
  datatype Payload = Json(doc: Document) | Garbage

  datatype File = File(payload: Payload, size: nat)

  /** The files of the spool directory. */
  type Directory = map<string, File>

  /** One spooled window and the file backing it. */
  datatype Entry = Entry(name: string, bucket: BucketValue)

  predicate Readable(d: Directory, name: string) {
    name in d && d[name].payload.Json?
  }

  function EntryOf(d: Directory, name: string): Entry
    requires Readable(d, name)
  {
    Entry(name, Decode(d[name].payload.doc))
  }

  function WindowNames(d: Directory): set<string> {
    set n | n in d && IsWindowFile(n)
  }

  /** The spooled file names in chronological order; temporary files are skipped. */
  ghost function Files(d: Directory): seq<string> {
    Listing(WindowNames(d))
  }

  /** The windows in the given files, in their order; files that do not decode are passed over. */
  function Decoded(d: Directory, names: seq<string>): seq<Entry> {
    if names == [] then []
    else (if Readable(d, names[0]) then [EntryOf(d, names[0])] else []) + Decoded(d, names[1..])
  }

  /** The queue of windows waiting for delivery. */
  ghost function Queue(d: Directory): seq<Entry> {
    Decoded(d, Files(d))
  }

  function NamesOf(es: seq<Entry>): (ns: seq<string>)
    ensures |ns| == |es| && forall i | 0 <= i < |es| :: ns[i] == es[i].name
  {
    seq(|es|, i requires 0 <= i < |es| => es[i].name)
  }

  /** An entry of the directory: a window file that decodes to it. */
  predicate Holds(d: Directory, e: Entry) {
    IsWindowFile(e.name) && Readable(d, e.name) && e == EntryOf(d, e.name)
  }

  // ----- The queue is determined by the directory -----

  lemma {:induction false} DecodedConcat(d: Directory, a: seq<string>, b: seq<string>)
    ensures Decoded(d, a + b) == Decoded(d, a) + Decoded(d, b)
  {
    hide Decoded;
    if a == [] {
      assert a + b == b;
      DecodedNone(d);
    } else {
      var tail := a[1..];
      DecodedConcat(d, tail, b);
      DecodedCons(d, a[0], tail);
      DecodedCons(d, a[0], tail + b);
      assert a == [a[0]] + tail && a + b == [a[0]] + (tail + b);
    }
  }

  lemma DecodedNone(d: Directory)
    ensures Decoded(d, []) == []
  {
  }

  lemma {:induction false} DecodedCons(d: Directory, name: string, names: seq<string>)
    ensures Decoded(d, [name] + names) == (if Readable(d, name) then [EntryOf(d, name)] else []) + Decoded(d, names)
  {
    hide Readable, EntryOf;
    assert ([name] + names)[1..] == names;
  }

  lemma {:induction false} DecodedMembers(d: Directory, names: seq<string>, e: Entry)
    ensures e in Decoded(d, names) <==> e.name in names && Readable(d, e.name) && e == EntryOf(d, e.name)
  {
    if names != [] {
      DecodedMembers(d, names[1..], e);
      assert names == [names[0]] + names[1..];
    }
  }

  lemma {:induction false} DecodedSorted(d: Directory, names: seq<string>)
    requires Sorted(names)
    ensures Sorted(NamesOf(Decoded(d, names)))
  {
    hide Below;
    if names != [] {
      var rest := Decoded(d, names[1..]);
      DecodedSorted(d, names[1..]);
      forall i | 0 <= i < |rest|
        ensures Below(names[0], rest[i].name)
      {
        DecodedMembers(d, names[1..], rest[i]);
        var j :| 0 <= j < |names| - 1 && names[1..][j] == rest[i].name;
        assert names[j + 1] == rest[i].name;
      }
    }
  }

  /** The queue is sorted by name and holds exactly the decodable window files. */
  lemma QueueMembers(d: Directory)
    ensures Sorted(NamesOf(Queue(d)))
    ensures forall e :: e in Queue(d) <==> Holds(d, e)
  {
    hide Decoded, Below, Sorted, IsWindowFile;
    DecodedSorted(d, Files(d));
    forall e: Entry
      ensures e in Queue(d) <==> Holds(d, e)
    {
      DecodedMembers(d, Files(d), e);
    }
  }

  /** Any sorted sequence of exactly the decodable window files is the queue. */
  lemma QueueUnique(d: Directory, q: seq<Entry>)
    requires Sorted(NamesOf(q))
    requires forall e :: e in q <==> Holds(d, e)
    ensures q == Queue(d)
  {
    hide Queue, Sorted, IsWindowFile;
    QueueMembers(d);
    var r := Queue(d);
    forall x
      ensures x in NamesOf(q) <==> x in NamesOf(r)
    {
      NameMembers(q, x);
      NameMembers(r, x);
    }
    SortedUnique(NamesOf(q), NamesOf(r));
    assert |q| == |NamesOf(q)| == |NamesOf(r)| == |r|;
    forall i | 0 <= i < |q|
      ensures q[i] == r[i]
    {
      assert NamesOf(q)[i] == NamesOf(r)[i];
      assert q[i] in q && r[i] in r;
    }
  }

  lemma NameMembers(es: seq<Entry>, x: string)
    ensures x in NamesOf(es) <==> exists e :: e in es && e.name == x
  {
    if x in NamesOf(es) {
      var i :| 0 <= i < |es| && NamesOf(es)[i] == x;
      assert es[i] in es;
    }
  }

  /** No window is queued twice. */
  lemma QueueDistinct(d: Directory)
    ensures forall e :: multiset(Queue(d))[e] == if Holds(d, e) then 1 else 0
  {
    hide Queue, Below, Holds;
    QueueMembers(d);
    var q := Queue(d);
    forall i, j | 0 <= i < j < |q|
      ensures q[i] != q[j]
    {
      assert Below(NamesOf(q)[i], NamesOf(q)[j]);
      BelowIrreflexive(q[i].name);
    }
    DistinctCounts(q);
  }

  lemma {:induction false} DistinctCounts(q: seq<Entry>)
    requires forall i, j | 0 <= i < j < |q| :: q[i] != q[j]
    ensures forall e :: multiset(q)[e] == if e in q then 1 else 0
  {
    if q != [] {
      var front, last := q[..|q| - 1], q[|q| - 1];
      assert q == front + [last];
      DistinctCounts(front);
      assert last !in front;
    }
  }

  // ----- Peek -----

  /** What a scan of the given files for up to `n` windows finds: the windows, the files it deletes because they
      do not decode, and whether it stopped at a file that could not be read. */
  datatype Scan = Scan(entries: seq<Entry>, removed: set<string>, failed: bool)

  function ScanFiles(d: Directory, names: seq<string>, n: nat, unreadable: set<string>): Scan {
    if names == [] || n == 0 then Scan([], {}, false)
    else if names[0] in unreadable then Scan([], {}, true)
    else if Readable(d, names[0]) then
      var rest := ScanFiles(d, names[1..], n - 1, unreadable);
      rest.(entries := [EntryOf(d, names[0])] + rest.entries)
    else
      var rest := ScanFiles(d, names[1..], n, unreadable);
      rest.(removed := rest.removed + {names[0]})
  }

  ghost function PeekScan(d: Directory, n: nat, unreadable: set<string>): Scan {
    ScanFiles(d, Files(d), n, unreadable)
  }

  /** The directory after a peek. */
  ghost function AfterPeek(d: Directory, n: nat, unreadable: set<string>): Directory {
    d - PeekScan(d, n, unreadable).removed
  }

  lemma {:induction false} ScanFindsHead(d: Directory, names: seq<string>, n: nat, unreadable: set<string>)
    requires forall x | x in names :: x !in unreadable
    ensures var s, q := ScanFiles(d, names, n, unreadable), Decoded(d, names);
      !s.failed && s.entries == q[..Min(n, |q|)]
  {
    hide Readable, EntryOf;
    if names != [] && n > 0 {
      var tail := names[1..];
      assert forall x | x in tail :: x in names;
      ScanFindsHead(d, tail, if Readable(d, names[0]) then n - 1 else n, unreadable);
    }
  }

  /** A scan stops early exactly at a file that cannot be read and has fewer than `n` windows before it. */
  lemma {:induction false} ScanFailsIff(d: Directory, names: seq<string>, n: nat, unreadable: set<string>)
    ensures ScanFiles(d, names, n, unreadable).failed <==>
      exists k :: 0 <= k < |names| && names[k] in unreadable && |Decoded(d, names[..k])| < n
  {
    hide Readable, EntryOf;
    if names != [] && n > 0 && names[0] !in unreadable {
      var tail, m := names[1..], if Readable(d, names[0]) then n - 1 else n;
      ScanFailsIff(d, tail, m, unreadable);
      forall k | 0 < k < |names|
        ensures |Decoded(d, names[..k])| < n <==> |Decoded(d, tail[..k - 1])| < m
      {
        assert names[..k][1..] == tail[..k - 1];
      }
      assert forall k | 0 < k < |names| :: names[k] == tail[k - 1];
      if k :| 0 <= k < |tail| && tail[k] in unreadable && |Decoded(d, tail[..k])| < m {
        assert names[k + 1] in unreadable && |Decoded(d, names[..k + 1])| < n;
      }
    } else if names != [] && n > 0 {
      assert names[0] in unreadable && |Decoded(d, names[..0])| < n;
    }
  }

  /** A file is deleted exactly if the scan gets to it, which takes fewer than `n` windows before it and every file
      up to it readable, and it does not decode. */
  lemma {:induction false} ScanRemoves(d: Directory, names: seq<string>, n: nat, unreadable: set<string>, k: nat)
    requires Sorted(names)
    requires k < |names|
    ensures names[k] in ScanFiles(d, names, n, unreadable).removed <==>
      && !Readable(d, names[k]) && |Decoded(d, names[..k])| < n
      && forall j | 0 <= j <= k :: names[j] !in unreadable
  {
    hide Readable, EntryOf, Below;
    if n > 0 && names[0] !in unreadable {
      var tail := names[1..];
      var m := if Readable(d, names[0]) then n - 1 else n;
      ScanRemovesOnlyScanned(d, tail, m, unreadable);
      if k == 0 {
        TailMembers(names, names[0]);
      } else {
        ScanRemoves(d, tail, m, unreadable, k - 1);
        assert forall j | 0 < j <= k :: names[j] == tail[j - 1];
        assert names[..k][1..] == tail[..k - 1];
        assert Below(names[0], names[k]);
        BelowIrreflexive(names[0]);
      }
    }
  }

  lemma {:induction false} ScanRemovesOnlyScanned(d: Directory, names: seq<string>, n: nat, unreadable: set<string>)
    ensures forall x | x in ScanFiles(d, names, n, unreadable).removed :: x in names && !Readable(d, x)
  {
    if names != [] && n > 0 {
      ScanRemovesOnlyScanned(d, names[1..], if Readable(d, names[0]) then n - 1 else n, unreadable);
    }
  }

  /** Deleting files that do not decode does not touch the queue. */
  lemma RemovingGarbage(d: Directory, removed: set<string>)
    requires forall x | x in removed :: !Readable(d, x)
    ensures Queue(d - removed) == Queue(d)
  {
    hide Queue, Sorted, IsWindowFile;
    QueueMembers(d);
    QueueUnique(d - removed, Queue(d));
  }

  /** A peek, whether it succeeds or stops at a read error, never changes the queue. */
  lemma PeekKeepsQueue(d: Directory, n: nat, unreadable: set<string>)
    ensures Queue(AfterPeek(d, n, unreadable)) == Queue(d)
    ensures forall x | x in PeekScan(d, n, unreadable).removed :: x in Files(d) && !Readable(d, x)
  {
    hide Queue, Files, Readable;
    ScanRemovesOnlyScanned(d, Files(d), n, unreadable);
    RemovingGarbage(d, PeekScan(d, n, unreadable).removed);
  }

  /** Peek returns exactly the first windows of the queue, oldest first, deletes exactly the undecodable files it
      passes on the way, keeps the queue, and comes back empty only if there is no window at all: a corrupt file
      cannot block what is queued behind it. */
  lemma PeekSpecification(d: Directory, n: nat, unreadable: set<string>)
    requires forall x | x in Files(d) :: x !in unreadable
    ensures var s, q, names := PeekScan(d, n, unreadable), Queue(d), Files(d);
      && !s.failed
      && s.entries == q[..Min(n, |q|)]
      && (forall k | 0 <= k < |names| ::
            names[k] in s.removed <==> !Readable(d, names[k]) && |Decoded(d, names[..k])| < n)
      && Queue(AfterPeek(d, n, unreadable)) == q
      && (n > 0 ==> (s.entries == [] <==> q == []))
  {
    hide Readable, Below, Sorted;
    ScanFindsHead(d, Files(d), n, unreadable);
    PeekKeepsQueue(d, n, unreadable);
    var names := Files(d);
    forall k | 0 <= k < |names|
      ensures names[k] in PeekScan(d, n, unreadable).removed <==>
        !Readable(d, names[k]) && |Decoded(d, names[..k])| < n
    {
      ScanRemoves(d, names, n, unreadable, k);
    }
  }

  // ----- Discard -----

  function NameSet(es: seq<Entry>): set<string> {
    set e | e in es :: e.name
  }

  function Discarded(d: Directory, es: seq<Entry>): Directory {
    d - NameSet(es)
  }

  lemma NotLater(q: seq<Entry>, i: nat, k: nat)
    requires Sorted(NamesOf(q)) && i < k <= |q|
    ensures q[i] !in q[k..]
  {
    if q[i] in q[k..] {
      var j :| k <= j < |q| && q[j] == q[i];
      assert Below(NamesOf(q)[i], NamesOf(q)[j]);
      BelowIrreflexive(q[i].name);
    }
  }

  lemma NotEarlier(q: seq<Entry>, i: nat, k: nat)
    requires Sorted(NamesOf(q)) && k <= i < |q|
    ensures q[i].name !in NameSet(q[..k])
  {
    if q[i].name in NameSet(q[..k]) {
      var f :| f in q[..k] && f.name == q[i].name;
      var j :| 0 <= j < k && q[j] == f;
      assert Below(NamesOf(q)[j], NamesOf(q)[i]);
      BelowIrreflexive(q[i].name);
    }
  }

  /** Discarding the first `k` windows of the queue leaves the others, in order. */
  lemma DiscardDropsHead(d: Directory, k: nat)
    requires k <= |Queue(d)|
    ensures Queue(Discarded(d, Queue(d)[..k])) == Queue(d)[k..]
  {
    hide Queue, Below, IsWindowFile;
    QueueMembers(d);
    var q := Queue(d);
    var d' := Discarded(d, q[..k]);
    forall e: Entry
      ensures e in q[k..] <==> Holds(d', e)
    {
      if e in q {
        var i :| 0 <= i < |q| && q[i] == e;
        if i < k {
          assert q[..k][i] in q[..k];
          NotLater(q, i, k);
        } else {
          assert q[k..][i - k] == e;
          NotEarlier(q, i, k);
        }
      }
    }
    QueueUnique(d', q[k..]);
  }

  // ----- The cap -----

  function Total(d: Directory, names: seq<string>): nat {
    if names == [] then 0 else (if names[0] in d then d[names[0]].size else 0) + Total(d, names[1..])
  }

  /** How many of the oldest files go: as long as the total exceeds the cap and more than one file is left. */
  function DropCount(d: Directory, names: seq<string>, max: int): (k: nat)
    ensures k <= |names| && (names != [] ==> k < |names|)
  {
    if |names| <= 1 || Total(d, names) <= max then 0 else 1 + DropCount(d, names[1..], max)
  }

  ghost function Drops(d: Directory, max: int): (k: nat)
    ensures k <= |Files(d)|
  {
    DropCount(d, Files(d), max)
  }

  /** The directory once the cap is enforced. */
  ghost function Capped(d: Directory, max: int): Directory {
    d - Prefix(WindowNames(d), Drops(d, max))
  }

  /** The windows lost to the cap. */
  ghost function CapLosses(d: Directory, max: int): seq<Entry> {
    Decoded(d, Files(d)[..Drops(d, max)])
  }

  /** The drop count is the least one after which the rest fits or only the last file remains. */
  lemma {:induction false} DropCountIsLeast(d: Directory, names: seq<string>, max: int)
    ensures var k := DropCount(d, names, max);
      && (Total(d, names[k..]) <= max || k + 1 >= |names|)
      && forall j | 0 <= j < k :: Total(d, names[j..]) > max && j + 1 < |names|
  {
    if |names| > 1 && Total(d, names) > max {
      var tail := names[1..];
      DropCountIsLeast(d, tail, max);
      var k := DropCount(d, names, max);
      assert names[k..] == tail[k - 1..];
      forall j | 0 <= j < k
        ensures Total(d, names[j..]) > max && j + 1 < |names|
      {
        if j > 0 {
          assert names[j..] == tail[j - 1..];
        } else {
          assert names[0..] == names;
        }
      }
    } else {
      assert names[0..] == names;
    }
  }

  lemma FilesAfterCap(d: Directory, max: int)
    ensures Files(Capped(d, max)) == Files(d)[Drops(d, max)..]
  {
    var k := Drops(d, max);
    assert WindowNames(Capped(d, max)) == WindowNames(d) - Prefix(WindowNames(d), k);
    ListingDrop(WindowNames(d), k);
  }

  lemma {:induction false} TotalSame(d: Directory, d': Directory, names: seq<string>)
    requires forall x | x in names :: (x in d <==> x in d') && (x in d ==> d[x] == d'[x])
    ensures Total(d, names) == Total(d', names)
  {
    if names != [] {
      assert forall x | x in names[1..] :: x in names;
      assert names[0] in names;
      TotalSame(d, d', names[1..]);
    }
  }

  lemma {:induction false} DecodedSame(d: Directory, d': Directory, names: seq<string>)
    requires forall x | x in names :: (x in d <==> x in d') && (x in d ==> d[x] == d'[x])
    ensures Decoded(d, names) == Decoded(d', names)
  {
    if names != [] {
      assert forall x | x in names[1..] :: x in names;
      assert names[0] in names;
      DecodedSame(d, d', names[1..]);
    }
  }

  lemma CapKeepsSurvivors(d: Directory, max: int)
    ensures forall x | x in Files(d)[Drops(d, max)..] :: x in d && x in Capped(d, max) && d[x] == Capped(d, max)[x]
  {
    FilesAfterCap(d, max);
    forall x | x in Files(d)[Drops(d, max)..]
      ensures x in d && x in Capped(d, max) && d[x] == Capped(d, max)[x]
    {
      assert x in Files(Capped(d, max));
    }
  }

  /** Enforcing the cap: the survivors are a suffix of the sorted names, unchanged, the suffix is the longest
      that fits, or the last file alone, and the queue is what the dropped files held followed by what is left. */
  lemma CapSpecification(d: Directory, max: int)
    ensures var names, d', k := Files(d), Capped(d, max), Drops(d, max);
      && Files(d') == names[k..]
      && (forall x | x in names[k..] :: x in d && x in d' && d'[x] == d[x])
      && (Total(d', Files(d')) <= max || |Files(d')| <= 1)
      && (names != [] ==> Files(d') != [])
      && (forall j | 0 <= j < k :: Total(d, names[j..]) > max && j + 1 < |names|)
      && Queue(d) == CapLosses(d, max) + Queue(d')
  {
    hide Total, DropCount, Decoded, Files, Capped;
    var names, d', k := Files(d), Capped(d, max), Drops(d, max);
    FilesAfterCap(d, max);
    CapKeepsSurvivors(d, max);
    DropCountIsLeast(d, names, max);
    TotalSame(d, d', names[k..]);
    DecodedSame(d, d', names[k..]);
    DecodedConcat(d, names[..k], names[k..]);
    assert names == names[..k] + names[k..];
  }

  lemma {:induction false} TotalShrinks(d: Directory, names: seq<string>, j: nat, k: nat)
    requires j <= k <= |names|
    ensures Total(d, names[k..]) <= Total(d, names[j..])
    decreases k - j
  {
    if j < k {
      TotalShrinks(d, names, j + 1, k);
      assert names[j..][1..] == names[j + 1..];
    }
  }

  /** A file survives the cap exactly when it and everything after it fit, or it is the last one. */
  lemma SurvivesCapIff(d: Directory, max: int, i: nat)
    requires i < |Files(d)|
    ensures var names := Files(d);
      names[i] in Capped(d, max) <==> Total(d, names[i..]) <= max || i == |names| - 1
  {
    hide Total, DropCount, IsWindowFile;
    var names, k := Files(d), Drops(d, max);
    DropCountIsLeast(d, names, max);
    assert names[i] in names;
    if k <= i {
      TotalShrinks(d, names, k, i);
      if names[i] in names[..k] {
        var j :| 0 <= j < k && names[j] == names[i];
        assert Below(names[j], names[i]);
        BelowIrreflexive(names[i]);
      }
    } else {
      assert names[..k][i] in names[..k];
    }
  }

  // ----- Add -----

  /** Where a write can fail: before the window has a name (the directory cannot be made, the window cannot be
      encoded), when the temporary file is to be made, while it is written, or once it is complete, when it is
      synced, closed, given its permissions or renamed. */
  datatype Fault = NoFault | BeforeName | NoTemp | DuringWrite | AfterWrite

  /** What the file system contributes to one write: whether it fails, the encoded size, the random part of the
      temporary name and the number of bytes that reach the file before a crash. */
  datatype WriteIo = WriteIo(fault: Fault, size: nat, token: nat, cut: nat)

  /** The state of the spool: the files, the sequence counter of this process and the drop counts reported. */
  datatype SpoolState = SpoolState(dir: Directory, seqNo: uint32, drops: seq<nat>)

  function NextSeq(seqNo: uint32): uint32 {
    (seqNo + 1) % 0x1_0000_0000
  }

  /** The name the next window gets. */
  function NameFor(seqNo: uint32, b: BucketValue): string {
    Name(UnixNano(b.facts.start), NextSeq(seqNo))
  }

  function WindowFile(b: BucketValue, size: nat): File {
    File(Json(Encode(b)), size)
  }

  function Published(d: Directory, name: string, b: BucketValue, size: nat): Directory {
    d[name := WindowFile(b, size)]
  }

  ghost function AfterAdd(s: SpoolState, max: int, b: BucketValue, io: WriteIo): SpoolState {
    match io.fault
    case BeforeName => s
    case NoFault =>
      var d := Published(s.dir, NameFor(s.seqNo, b), b, io.size);
      SpoolState(
        Capped(d, max), NextSeq(s.seqNo),
        if Drops(d, max) > 0 then s.drops + [Drops(d, max)] else s.drops)
    case _ => s.(seqNo := NextSeq(s.seqNo))
  }

  /** The entry of the new window. */
  function NewEntry(s: SpoolState, b: BucketValue): Entry {
    Entry(NameFor(s.seqNo, b), Stored(b))
  }

  /** The window a publication replaces, if its name was taken by a window of an earlier process. */
  function Replaced(d: Directory, name: string): seq<Entry> {
    if Readable(d, name) then [EntryOf(d, name)] else []
  }

  /** Publishing adds exactly the new window to the queue and takes away exactly the one of the same name. */
  lemma PublishedQueue(d: Directory, name: string, b: BucketValue, size: nat)
    requires IsWindowFile(name)
    ensures multiset(Queue(Published(d, name, b, size))) + multiset(Replaced(d, name))
      == multiset(Queue(d)) + multiset{Entry(name, Stored(b))}
  {
    hide Queue, Holds, Published, Replaced, Stored;
    var d' := Published(d, name, b, size);
    var e := Entry(name, Stored(b));
    QueueDistinct(d);
    QueueDistinct(d');
    forall f: Entry
      ensures (multiset(Queue(d')) + multiset(Replaced(d, name)))[f] == (multiset(Queue(d)) + multiset{e})[f]
    {
      PublishedHolds(d, name, b, size, f);
    }
  }

  /** One entry before and after a publication. */
  lemma PublishedHolds(d: Directory, name: string, b: BucketValue, size: nat, f: Entry)
    requires IsWindowFile(name)
    ensures var d', e := Published(d, name, b, size), Entry(name, Stored(b));
      && (f.name == name ==> (Holds(d', f) <==> f == e))
      && (f.name != name ==> (Holds(d', f) <==> Holds(d, f)))
      && multiset(Replaced(d, name))[f] == if f.name == name && Holds(d, f) then 1 else 0
  {
    hide Decode, Encode, IsWindowFile;
  }

  /** Conservation of one add: what was queued and the new window are what is queued afterwards, what the cap
      took and what the new name replaced. */
  lemma AddConserves(s: SpoolState, max: int, b: BucketValue, io: WriteIo)
    requires io.fault == NoFault
    ensures var name := NameFor(s.seqNo, b); var d := Published(s.dir, name, b, io.size);
      multiset(Queue(s.dir)) + multiset{NewEntry(s, b)}
        == multiset(Queue(AfterAdd(s, max, b, io).dir)) + multiset(CapLosses(d, max)) + multiset(Replaced(s.dir, name))
  {
    hide Queue, Capped, CapLosses, Drops, Replaced;
    var name := NameFor(s.seqNo, b);
    var d := Published(s.dir, name, b, io.size);
    NamesAreWindowFiles(UnixNano(b.facts.start), NextSeq(s.seqNo));
    PublishedQueue(s.dir, name, b, io.size);
    CapSpecification(d, max);
    assert multiset(Queue(d)) == multiset(CapLosses(d, max)) + multiset(Queue(Capped(d, max)));
  }

  /** The spool is never empty after a successful add, its size is within the cap unless a single file alone
      exceeds it, and the number of files lost to the cap is reported, once, unless it is zero. */
  lemma AddRespectsCap(s: SpoolState, max: int, b: BucketValue, io: WriteIo)
    requires io.fault == NoFault
    ensures var d' := AfterAdd(s, max, b, io).dir;
      && Files(d') != []
      && (Total(d', Files(d')) <= max || |Files(d')| == 1)
      && var lost := |Files(Published(s.dir, NameFor(s.seqNo, b), b, io.size))| - |Files(d')|;
      && lost >= 0
      && AfterAdd(s, max, b, io).drops == if lost > 0 then s.drops + [lost] else s.drops
  {
    hide Total, Capped, Drops, Files, Decoded, CapLosses, Published, Name, UnixNano, NextSeq, IsWindowFile;
    var name := NameFor(s.seqNo, b);
    var d := Published(s.dir, name, b, io.size);
    NamesAreWindowFiles(UnixNano(b.facts.start), NextSeq(s.seqNo));
    PublishedIsListed(s.dir, name, b, io.size);
    CapSpecification(d, max);
  }

  /** The spool is within its cap, or a single file is too large on its own. */
  ghost predicate Fits(d: Directory, max: int) {
    Total(d, Files(d)) <= max || |Files(d)| <= 1
  }

  /** A spool that fits loses nothing. */
  lemma FittingKeepsAll(d: Directory, max: int)
    requires Fits(d, max)
    ensures Drops(d, max) == 0 && Capped(d, max) == d && CapLosses(d, max) == []
  {
    hide IsWindowFile, Total;
    assert Files(d)[..0] == [];
    assert Prefix(WindowNames(d), 0) == {};
  }

  function Without(names: seq<string>, removed: set<string>): seq<string> {
    if names == [] then []
    else (if names[0] in removed then [] else [names[0]]) + Without(names[1..], removed)
  }

  lemma {:induction false} WithoutMembers(names: seq<string>, removed: set<string>, x: string)
    ensures x in Without(names, removed) <==> x in names && x !in removed
  {
    if names != [] {
      WithoutMembers(names[1..], removed, x);
      assert names == [names[0]] + names[1..];
    }
  }

  lemma {:induction false} WithoutSorted(names: seq<string>, removed: set<string>)
    requires Sorted(names)
    ensures Sorted(Without(names, removed))
  {
    hide Below;
    if names != [] {
      var rest := Without(names[1..], removed);
      WithoutSorted(names[1..], removed);
      forall i | 0 <= i < |rest|
        ensures Below(names[0], rest[i])
      {
        WithoutMembers(names[1..], removed, rest[i]);
        var j :| 0 <= j < |names| - 1 && names[1..][j] == rest[i];
        assert names[j + 1] == rest[i];
      }
    }
  }

  lemma {:induction false} WithoutIsLess(d: Directory, names: seq<string>, removed: set<string>)
    ensures |Without(names, removed)| <= |names|
    ensures Total(d - removed, Without(names, removed)) <= Total(d, names)
  {
    if names != [] {
      var rest := Without(names[1..], removed);
      WithoutIsLess(d, names[1..], removed);
      assert ([names[0]] + rest)[1..] == rest && [] + rest == rest;
    }
  }

  /** Removing files never takes a spool out of its cap. */
  lemma RemovingKeepsFit(d: Directory, removed: set<string>, max: int)
    requires Fits(d, max)
    ensures Fits(d - removed, max)
  {
    hide IsWindowFile, Below, Total, Without;
    var left := Without(Files(d), removed);
    WithoutSorted(Files(d), removed);
    forall x
      ensures x in left <==> x in WindowNames(d - removed)
    {
      WithoutMembers(Files(d), removed, x);
    }
    ListingUnique(WindowNames(d - removed), left);
    WithoutIsLess(d, Files(d), removed);
  }

  lemma PublishedIsListed(d: Directory, name: string, b: BucketValue, size: nat)
    requires IsWindowFile(name)
    ensures name in Files(Published(d, name, b, size))
  {
  }

  /** The new window itself is dropped by its own add when older-named than files that fill the cap: it
      survives exactly when it and everything listed after it fit, or it is listed last. */
  lemma NewWindowSurvivesIff(s: SpoolState, max: int, b: BucketValue, io: WriteIo, i: nat)
    requires io.fault == NoFault
    requires var d := Published(s.dir, NameFor(s.seqNo, b), b, io.size);
      i < |Files(d)| && Files(d)[i] == NameFor(s.seqNo, b)
    ensures var d := Published(s.dir, NameFor(s.seqNo, b), b, io.size);
      NewEntry(s, b) in Queue(AfterAdd(s, max, b, io).dir) <==>
        Total(d, Files(d)[i..]) <= max || i == |Files(d)| - 1
  {
    hide Total, Queue, Files, Drops, Decode, Encode, IsWindowFile, Name;
    var d := Published(s.dir, NameFor(s.seqNo, b), b, io.size);
    NamesAreWindowFiles(UnixNano(b.facts.start), NextSeq(s.seqNo));
    SurvivesCapIff(d, max, i);
    QueueMembers(Capped(d, max));
  }

  // ----- Crashes -----

  /** The name of the temporary file of a write. */
  function TempFor(d: Directory, io: WriteIo): string {
    TempName(FreshToken(d.Keys, io.token))
  }

  /** The directory after each step of an add that changes it, in order: the temporary file created, part of the
      document written, all of it written, the file renamed, then one file dropped after the other. */
  ghost function CrashStates(s: SpoolState, max: int, b: BucketValue, io: WriteIo): seq<Directory> {
    var tmp := TempFor(s.dir, io);
    var created := s.dir[tmp := File(Garbage, 0)];
    var partial := s.dir[tmp := File(Garbage, io.cut)];
    var complete := s.dir[tmp := WindowFile(b, io.size)];
    match io.fault
    case BeforeName => []
    case NoTemp => []
    case DuringWrite => [created, partial, s.dir]
    case AfterWrite => [created, partial, complete, s.dir]
    case NoFault =>
      var d := Published(s.dir, NameFor(s.seqNo, b), b, io.size);
      [created, partial, complete, d] + DropStates(d, Drops(d, max))
  }

  /** The directory after each of the first `k` drops. */
  ghost function DropStates(d: Directory, k: nat): seq<Directory>
    requires k <= |Files(d)|
  {
    if k == 0 then [] else DropStates(d, k - 1) + [d - Prefix(WindowNames(d), k)]
  }

  /** The files a reader sees: everything but temporary files. */
  function Visible(d: Directory): Directory {
    map n | n in d && IsWindowFile(n) :: d[n]
  }

  lemma {:induction false} DropStateAt(d: Directory, k: nat, i: nat)
    requires k <= |Files(d)|
    requires i < |DropStates(d, k)|
    ensures |DropStates(d, k)| == k
    ensures DropStates(d, k)[i] == d - Prefix(WindowNames(d), i + 1)
  {
    hide Files;
    DropStatesLength(d, k);
    if i < k - 1 {
      DropStatesLength(d, k - 1);
      DropStateAt(d, k - 1, i);
    }
  }

  lemma {:induction false} DropStatesLength(d: Directory, k: nat)
    requires k <= |Files(d)|
    ensures |DropStates(d, k)| == k
  {
    if k > 0 {
      DropStatesLength(d, k - 1);
    }
  }

  /** A temporary file is invisible: the visible files and the queue do not depend on it. */
  lemma TempIsInvisible(d: Directory, token: nat, f: File)
    ensures Visible(d[TempName(token) := f]) == Visible(d)
    ensures Queue(d[TempName(token) := f]) == Queue(d)
  {
    hide Queue, IsWindowFile, TempName;
    TempNamesAreNot(token);
    var d' := d[TempName(token) := f];
    QueueMembers(d');
    forall e: Entry
      ensures e in Queue(d') <==> Holds(d, e)
    {
    }
    QueueUnique(d, Queue(d'));
  }

  /** Wherever an add is interrupted, what a fresh process finds is either the old queue, or the queue with the
      whole new window in it, less some of its oldest files. It never finds part of a window. */
  lemma CrashIsAtomic(s: SpoolState, max: int, b: BucketValue, io: WriteIo, i: nat)
    requires i < |CrashStates(s, max, b, io)|
    ensures var c, d := CrashStates(s, max, b, io)[i], Published(s.dir, NameFor(s.seqNo, b), b, io.size);
      || (Visible(c) == Visible(s.dir) && Queue(c) == Queue(s.dir))
      || (io.fault == NoFault && exists k ::
            0 <= k <= Drops(d, max) && Files(c) == Files(d)[k..] && Queue(c) == Decoded(d, Files(d)[k..]))
  {
    hide Queue, Files, Drops, Visible, WindowFile, NameFor, TempFor, Decoded, Published;
    var d := Published(s.dir, NameFor(s.seqNo, b), b, io.size);
    TempsAreInvisible(s.dir, b, io);
    if io.fault == NoFault && i >= 3 {
      AfterPublished(s, max, b, io, i);
    }
  }

  lemma TempsAreInvisible(d: Directory, b: BucketValue, io: WriteIo)
    ensures var created := d[TempFor(d, io) := File(Garbage, 0)];
      Visible(created) == Visible(d) && Queue(created) == Queue(d)
    ensures var partial := d[TempFor(d, io) := File(Garbage, io.cut)];
      Visible(partial) == Visible(d) && Queue(partial) == Queue(d)
    ensures var complete := d[TempFor(d, io) := WindowFile(b, io.size)];
      Visible(complete) == Visible(d) && Queue(complete) == Queue(d)
  {
    hide Queue, Visible, WindowFile, TempName;
    var token := FreshToken(d.Keys, io.token);
    TempIsInvisible(d, token, File(Garbage, 0));
    TempIsInvisible(d, token, File(Garbage, io.cut));
    TempIsInvisible(d, token, WindowFile(b, io.size));
  }

  /** From the rename on, only the cap removes files. */
  lemma AfterPublished(s: SpoolState, max: int, b: BucketValue, io: WriteIo, i: nat)
    requires io.fault == NoFault && 3 <= i < |CrashStates(s, max, b, io)|
    ensures var c, d := CrashStates(s, max, b, io)[i], Published(s.dir, NameFor(s.seqNo, b), b, io.size);
      && i - 3 <= Drops(d, max)
      && Files(c) == Files(d)[i - 3..] && Queue(c) == Decoded(d, Files(d)[i - 3..])
  {
    hide Queue, Files, Drops, WindowFile, NameFor, TempFor, Published, Decoded;
    var d := Published(s.dir, NameFor(s.seqNo, b), b, io.size);
    DropStatesLength(d, Drops(d, max));
    if i > 3 {
      DropStateAt(d, Drops(d, max), i - 4);
    } else {
      PrefixNone(d);
    }
    AfterDrops(d, i - 3);
  }

  lemma PrefixNone(d: Directory)
    ensures d - Prefix(WindowNames(d), 0) == d
  {
  }

  lemma AfterDrops(d: Directory, k: nat)
    requires k <= |Files(d)|
    ensures var c := d - Prefix(WindowNames(d), k);
      Files(c) == Files(d)[k..] && Queue(c) == Decoded(d, Files(d)[k..])
  {
    var c := d - Prefix(WindowNames(d), k);
    assert WindowNames(c) == WindowNames(d) - Prefix(WindowNames(d), k);
    ListingDrop(WindowNames(d), k);
    forall x | x in Files(d)[k..]
      ensures x in d && x in c && d[x] == c[x]
    {
      assert x in Files(c);
    }
    DecodedSame(c, d, Files(d)[k..]);
  }

  /** Whatever a process finds after a crash was queued before the add or is the whole new window. */
  lemma CrashShowsOnlyWholeWindows(s: SpoolState, max: int, b: BucketValue, io: WriteIo, i: nat, e: Entry)
    requires i < |CrashStates(s, max, b, io)|
    requires e in Queue(CrashStates(s, max, b, io)[i])
    ensures e in Queue(s.dir) || (io.fault == NoFault && e == NewEntry(s, b))
  {
    hide Queue, Files, Drops, Visible, CrashStates, Published, NameFor, Stored;
    CrashIsAtomic(s, max, b, io, i);
    var c, name := CrashStates(s, max, b, io)[i], NameFor(s.seqNo, b);
    var d := Published(s.dir, name, b, io.size);
    if e !in Queue(s.dir) {
      var k :| 0 <= k <= Drops(d, max) && Files(c) == Files(d)[k..] && Queue(c) == Decoded(d, Files(d)[k..]);
      DecodedMembers(d, Files(d)[k..], e);
      ListedAreWindowFiles(d, k, e.name);
      PublishedMembers(s.dir, name, b, io.size, e);
    }
  }

  lemma PublishedMembers(d: Directory, name: string, b: BucketValue, size: nat, e: Entry)
    requires Holds(Published(d, name, b, size), e)
    ensures e in Queue(d) || e == Entry(name, Stored(b))
  {
    hide Queue, Decode, Encode, IsWindowFile;
    QueueMembers(d);
  }

  lemma ListedAreWindowFiles(d: Directory, k: nat, x: string)
    requires k <= |Files(d)| && x in Files(d)[k..]
    ensures IsWindowFile(x)
  {
    hide IsWindowFile;
    assert x in Files(d);
  }

  // ----- Restarts -----

  /** The sequence counter starts again in every process. A window of a new process takes the place of a queued
      one of the process before it exactly when the two have the same start and the same sequence number. */
  lemma RestartReplacesIff(s: SpoolState, max: int, b: BucketValue, io: WriteIo, c: BucketValue, seqNo: uint32)
    requires io.fault == NoFault
    requires NewEntry(s, b) in Queue(AfterAdd(s, max, b, io).dir)
    ensures NewEntry(s, b) in Replaced(AfterAdd(s, max, b, io).dir, NameFor(seqNo, c)) <==>
      UnixNano(b.facts.start) == UnixNano(c.facts.start) && s.seqNo == seqNo
  {
    hide Queue, Decode, Encode, Name, UnixNano, IsWindowFile, AfterAdd;
    QueueMembers(AfterAdd(s, max, b, io).dir);
    if NameFor(s.seqNo, b) == NameFor(seqNo, c) {
      NamesInjective(UnixNano(b.facts.start), NextSeq(s.seqNo), UnixNano(c.facts.start), NextSeq(seqNo));
    }
  }
}
