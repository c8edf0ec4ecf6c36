/** The spool over its directory (internal/spool/spool.go). */
module Spooling {
  import opened Clock
  import opened Wrappers
  import opened Windows
  import opened Encoding
  import opened ByteOrder
  import opened FileNames
  import opened SpoolModel

  class Spool {
    const maxBytes: int
    var dir: Directory
    var seqNo: uint32
    /** The arguments of the calls of `OnDrop`. */
    var drops: seq<nat>
    /** The directory after every step that changed it during an add. */
    ghost var trace: seq<Directory>

    constructor (maxBytes: int, dir: Directory)
      ensures this.maxBytes == maxBytes
      ensures State() == SpoolState(dir, 0, []) && trace == []
    {
      this.maxBytes, this.dir, seqNo, drops := maxBytes, dir, 0, [];
      trace := [];
    }

    function MaxBytes(): int {
      if maxBytes <= 0 then DEFAULT_MAX_BYTES else maxBytes
    }

    function State(): SpoolState
      reads this
    {
      SpoolState(dir, seqNo, drops)
    }

    method Add(b: Bucket, io: WriteIo) returns (stored: bool)
      requires b.Valid()
      modifies this
      ensures State() == AfterAdd(old(State()), MaxBytes(), old(b.Value()), io)
      ensures stored <==> io.fault == NoFault
      ensures trace == old(trace) + CrashStates(old(State()), MaxBytes(), old(b.Value()), io)
    {
      hide Capped, DropStates, Drops, Encode, Name, UnixNano, IsWindowFile, TempFor, Bucket.Value, Bucket.Valid;
      if io.fault == BeforeName {
        return false;
      }
      var file := File(Json(Encode(b.Value())), io.size);
      var name := NextName(b);
      NamesAreWindowFiles(UnixNano(b.facts.start), seqNo);
      stored := Write(name, file, io);
      if stored {
        EnforceCap();
      }
    }

    method NextName(b: Bucket) returns (name: string)
      requires b.Valid()
      modifies this`seqNo
      ensures seqNo == NextSeq(old(seqNo))
      ensures name == Name(UnixNano(b.facts.start), seqNo)
    {
      seqNo := NextSeq(seqNo);
      name := Name(UnixNano(b.facts.start), seqNo);
    }

    /** Publishes the file by way of a temporary one, which is gone when the write ends. */
    method Write(name: string, file: File, io: WriteIo) returns (published: bool)
      requires IsWindowFile(name)
      requires file.size == io.size && io.fault != BeforeName
      modifies this`dir, this`trace
      ensures published <==> io.fault == NoFault
      ensures dir == (if published then old(dir)[name := file] else old(dir))
      ensures var tmp := TempFor(old(dir), io);
        var created, partial := old(dir)[tmp := File(Garbage, 0)], old(dir)[tmp := File(Garbage, io.cut)];
        var complete := old(dir)[tmp := file];
        trace == old(trace) + match io.fault
          case BeforeName => []
          case NoTemp => []
          case DuringWrite => [created, partial, old(dir)]
          case AfterWrite => [created, partial, complete, old(dir)]
          case NoFault => [created, partial, complete, old(dir)[name := file]]
    {
      hide IsWindowFile, TempFor;
      if io.fault == NoTemp {
        return false;
      }
      var tmp := TempFor(dir, io);
      TempIsFree(dir, io);
      TemporaryFile(dir, tmp, name, File(Garbage, 0), File(Garbage, io.cut), file);
      ghost var created, partial := dir[tmp := File(Garbage, 0)], dir[tmp := File(Garbage, io.cut)];
      FewSteps(trace, created, partial, dir, dir);
      FewSteps(trace, created, partial, dir[tmp := file], dir);
      FewSteps(trace, created, partial, dir[tmp := file], dir[name := file]);
      dir := dir[tmp := File(Garbage, 0)];
      trace := trace + [dir];
      dir := dir[tmp := File(Garbage, io.cut)];
      trace := trace + [dir];
      if io.fault == DuringWrite {
        dir := dir - {tmp};
        trace := trace + [dir];
        return false;
      }
      dir := dir[tmp := file];
      trace := trace + [dir];
      if io.fault == AfterWrite {
        dir := dir - {tmp};
        trace := trace + [dir];
        return false;
      }
      dir := dir[name := dir[tmp]] - {tmp};
      trace := trace + [dir];
      return true;
    }

    /** The spooled names, sorted. */
    method ListFiles() returns (names: seq<string>)
      ensures names == Files(dir)
    {
      hide IsWindowFile, Below;
      names := [];
      var entries := dir.Keys;
      while entries != {}
        invariant entries <= dir.Keys
        invariant Sorted(names)
        invariant forall x :: x in names <==> x in dir && IsWindowFile(x) && x !in entries
      {
        var entry :| entry in entries;
        entries := entries - {entry};
        if IsWindowFile(entry) {
          InsertSorted(names, entry);
          names := Insert(names, entry);
        }
      }
      ListingUnique(WindowNames(dir), names);
    }

    method Peek(n: nat, unreadable: set<string>) returns (r: Option<seq<Entry>>)
      modifies this`dir
      ensures dir == AfterPeek(old(dir), n, unreadable)
      ensures var s := PeekScan(old(dir), n, unreadable);
        r == if s.failed then None else Some(s.entries)
    {
      hide Files, IsWindowFile, Below, ScanFiles, Onwards;
      var names := ListFiles();
      ghost var before := dir;
      ListedFilesExist(before);
      var out: seq<Entry> := [];
      ghost var removed: set<string> := {};
      ghost var left := names;
      ScanStarts(before, n, unreadable);
      for i := 0 to |names|
        invariant left == names[i..] && |out| <= n
        invariant dir == before - removed
        invariant forall x | x in removed :: x in names[..i]
        invariant PeekScan(before, n, unreadable) == Onwards(out, removed, ScanFiles(before, left, n - |out|, unreadable))
      {
        if |out| == n {
          break;
        }
        var name := names[i];
        NotAmongEarlier(names, i);
        ScanOnwards(before, out, removed, left, n, unreadable);
        if name in unreadable {
          return None;
        }
        match dir[name].payload {
          case Garbage =>
            dir := dir - {name};
            removed := removed + {name};
          case Json(doc) =>
            out := out + [Entry(name, Decode(doc))];
        }
        left := left[1..];
        assert names[..i + 1] == names[..i] + [name];
      }
      ScanEnds(before, out, removed, left, n, unreadable);
      r := Some(out);
    }

    method Discard(entries: seq<Entry>)
      modifies this`dir
      ensures dir == Discarded(old(dir), entries)
      ensures forall x :: x in dir <==> x in old(dir) && forall e | e in entries :: e.name != x
      ensures forall x | x in dir :: dir[x] == old(dir)[x]
    {
      for i := 0 to |entries|
        invariant dir == Discarded(old(dir), entries[..i])
      {
        dir := dir - {entries[i].name};
        assert entries[..i + 1] == entries[..i] + [entries[i]];
      }
      assert entries[..|entries|] == entries;
    }

    /** How many files are queued and how much space they take. */
    method Stats() returns (count: nat, bytes: nat)
      ensures count == |Files(dir)| && bytes == Total(dir, Files(dir))
    {
      hide Files;
      var names := ListFiles();
      ListedFilesExist(dir);
      bytes := 0;
      for i := 0 to |names|
        invariant bytes + Total(dir, names[i..]) == Total(dir, names)
      {
        bytes := bytes + dir[names[i]].size;
        assert names[i..][1..] == names[i + 1..];
      }
      count := |names|;
    }

    method EnforceCap()
      modifies this`dir, this`drops, this`trace
      ensures dir == Capped(old(dir), MaxBytes())
      ensures drops == if Drops(old(dir), MaxBytes()) > 0 then old(drops) + [Drops(old(dir), MaxBytes())] else old(drops)
      ensures trace == old(trace) + DropStates(old(dir), Drops(old(dir), MaxBytes()))
    {
      hide IsWindowFile, Below, Total, DropCount, DropStates, WindowNames, Prefix, Drops, Capped;
      var names := ListFiles();
      ghost var before := dir;
      ListedFilesExist(before);
      var sizes, total := Measure(names);
      var dropped := 0;
      ghost var max := MaxBytes();
      CapStart(before, max);
      for i := 0 to |names|
        invariant dropped == i
        invariant total == Total(before, names[i..])
        invariant dir == before - Prefix(WindowNames(before), i)
        invariant Drops(before, max) == i + DropCount(before, names[i..], max)
        invariant drops == old(drops)
        invariant trace == old(trace) + DropStates(before, i)
      {
        CapStep(before, i, max);
        if total <= MaxBytes() {
          break;
        }
        if i == |names| - 1 {
          break;
        }
        dir := dir - {names[i]};
        trace := trace + [dir];
        total := total - sizes[names[i]];
        dropped := dropped + 1;
      }
      assert dropped == Drops(before, max);
      CapEnd(before, max);
      if dropped > 0 {
        drops := drops + [dropped];
      }
    }

    /** The sizes of the given files and their total. */
    method Measure(names: seq<string>) returns (sizes: map<string, nat>, total: nat)
      requires forall i | 0 <= i < |names| :: names[i] in dir
      ensures forall k | 0 <= k < |names| :: names[k] in sizes && sizes[names[k]] == dir[names[k]].size
      ensures total == Total(dir, names)
    {
      sizes, total := map[], 0;
      for i := 0 to |names|
        invariant total + Total(dir, names[i..]) == Total(dir, names)
        invariant forall k | 0 <= k < i :: names[k] in sizes && sizes[names[k]] == dir[names[k]].size
      {
        sizes := sizes[names[i] := dir[names[i]].size];
        total := total + dir[names[i]].size;
        assert names[i..][1..] == names[i + 1..];
      }
    }
  }

  lemma FewSteps<T>(t: seq<T>, a: T, b: T, c: T, d: T)
    ensures t + [a] + [b] + [c] == t + [a, b, c]
    ensures t + [a] + [b] + [c] + [d] == t + [a, b, c, d]
  {
  }

  lemma TempIsFree(d: Directory, io: WriteIo)
    ensures TempFor(d, io) !in d && !IsWindowFile(TempFor(d, io))
  {
    hide TempName, IsWindowFile;
    TempNamesAreNot(FreshToken(d.Keys, io.token));
  }

  /** A temporary file overwritten, removed or renamed. */
  lemma TemporaryFile(d: Directory, tmp: string, name: string, f: File, g: File, h: File)
    requires tmp !in d && tmp != name
    ensures d[tmp := f][tmp := g] == d[tmp := g]
    ensures d[tmp := g][tmp := h] == d[tmp := h]
    ensures d[tmp := g] - {tmp} == d && d[tmp := h] - {tmp} == d
    ensures d[tmp := h][name := h] - {tmp} == d[name := h]
  {
  }

  lemma CapStart(d: Directory, max: int)
    ensures Files(d)[0..] == Files(d) && Files(d)[|Files(d)|..] == []
    ensures d - Prefix(WindowNames(d), 0) == d
    ensures DropStates(d, 0) == []
    ensures DropCount(d, [], max) == 0
    ensures Drops(d, max) == DropCount(d, Files(d), max)
  {
    PrefixNone(d);
  }

  lemma CapEnd(d: Directory, max: int)
    ensures Capped(d, max) == d - Prefix(WindowNames(d), Drops(d, max))
  {
    hide Drops, Files;
  }

  /** One round of the cap loop. */
  lemma CapStep(d: Directory, i: nat, max: int)
    requires i < |Files(d)|
    ensures var names := Files(d);
      && names[i] in d
      && Total(d, names[i..]) == d[names[i]].size + Total(d, names[i + 1..])
      && DropCount(d, names[i..], max)
         == (if i == |names| - 1 || Total(d, names[i..]) <= max then 0 else 1 + DropCount(d, names[i + 1..], max))
      && d - Prefix(WindowNames(d), i) - {names[i]} == d - Prefix(WindowNames(d), i + 1)
      && DropStates(d, i + 1) == DropStates(d, i) + [d - Prefix(WindowNames(d), i + 1)]
  {
    hide IsWindowFile, Total, DropCount;
    var names := Files(d);
    ListedFilesExist(d);
    FirstFile(d, names[i..], max);
    assert names[i..][1..] == names[i + 1..];
    assert names[..i + 1] == names[..i] + [names[i]];
    assert Prefix(WindowNames(d), i + 1) == Prefix(WindowNames(d), i) + {names[i]};
  }

  lemma FirstFile(d: Directory, names: seq<string>, max: int)
    requires names != [] && names[0] in d
    ensures Total(d, names) == d[names[0]].size + Total(d, names[1..])
    ensures DropCount(d, names, max)
      == if |names| == 1 || Total(d, names) <= max then 0 else 1 + DropCount(d, names[1..], max)
  {
  }

  lemma ListedFilesExist(d: Directory)
    ensures forall i | 0 <= i < |Files(d)| :: Files(d)[i] in d
    ensures Sorted(Files(d))
  {
    var names := Files(d);
    forall i | 0 <= i < |names|
      ensures names[i] in d
    {
      assert names[i] in names;
    }
  }

  lemma NotAmongEarlier(names: seq<string>, i: nat)
    requires Sorted(names) && i < |names|
    ensures names[i] !in names[..i]
  {
    if names[i] in names[..i] {
      var j :| 0 <= j < i && names[j] == names[i];
      assert Below(names[j], names[i]);
      BelowIrreflexive(names[i]);
    }
  }

  /** The scan as a whole, given what was found so far and what is found from here on. */
  ghost function Onwards(out: seq<Entry>, removed: set<string>, rest: Scan): Scan {
    Scan(out + rest.entries, removed + rest.removed, rest.failed)
  }

  lemma ScanStarts(d: Directory, n: nat, unreadable: set<string>)
    ensures PeekScan(d, n, unreadable) == Onwards([], {}, ScanFiles(d, Files(d), n, unreadable))
  {
  }

  lemma ScanOnwards(d: Directory, out: seq<Entry>, removed: set<string>, left: seq<string>, n: nat, unreadable: set<string>)
    requires |out| < n && left != [] && left[0] in d
    ensures var scan := Onwards(out, removed, ScanFiles(d, left, n - |out|, unreadable));
      if left[0] in unreadable then scan == Scan(out, removed, true)
      else match d[left[0]].payload
        case Garbage => scan == Onwards(out, removed + {left[0]}, ScanFiles(d, left[1..], n - |out|, unreadable))
        case Json(doc) =>
          scan == Onwards(out + [Entry(left[0], Decode(doc))], removed, ScanFiles(d, left[1..], n - |out| - 1, unreadable))
  {
    hide Decode;
  }

  lemma ScanEnds(d: Directory, out: seq<Entry>, removed: set<string>, left: seq<string>, n: nat, unreadable: set<string>)
    requires |out| == n || (|out| <= n && left == [])
    ensures Onwards(out, removed, ScanFiles(d, left, n - |out|, unreadable)) == Scan(out, removed, false)
  {
  }
}
