/** Lexical order of names, and the sorted listing of a set of names (sort.Strings of Go's library). */
module ByteOrder {
  /** `a` sorts strictly before `b`, byte by byte. */
  predicate Below(a: string, b: string) {
    if b == "" then false
    else if a == "" then true
    else a[0] < b[0] || (a[0] == b[0] && Below(a[1..], b[1..]))
  }

  lemma {:induction false} BelowIrreflexive(a: string)
    ensures !Below(a, a)
  {
    if a != "" {
      BelowIrreflexive(a[1..]);
    }
  }

  lemma {:induction false} BelowTransitive(a: string, b: string, c: string)
    requires Below(a, b) && Below(b, c)
    ensures Below(a, c)
  {
    if a != "" && a[0] == b[0] && b[0] == c[0] {
      BelowTransitive(a[1..], b[1..], c[1..]);
    }
  }

  lemma {:induction false} BelowTotal(a: string, b: string)
    ensures Below(a, b) || a == b || Below(b, a)
  {
    if a != "" && b != "" && a[0] == b[0] {
      BelowTotal(a[1..], b[1..]);
      if a[1..] == b[1..] {
        assert a == [a[0]] + a[1..] == b;
      }
    }
  }

  /** A common prefix does not matter. */
  lemma {:induction false} BelowCommonPrefix(p: string, a: string, b: string)
    ensures Below(p + a, p + b) <==> Below(a, b)
  {
    if p == "" {
      assert p + a == a && p + b == b;
    } else {
      assert (p + a)[1..] == p[1..] + a && (p + b)[1..] == p[1..] + b;
      BelowCommonPrefix(p[1..], a, b);
    }
  }

  /** Strictly increasing names. */
  ghost predicate Sorted(names: seq<string>) {
    forall i, j | 0 <= i < j < |names| :: Below(names[i], names[j])
  }

  /** Two sorted listings of the same names are the same. */
  lemma {:induction false} SortedUnique(a: seq<string>, b: seq<string>)
    requires Sorted(a) && Sorted(b)
    requires forall x :: x in a <==> x in b
    ensures a == b
  {
    if a == [] {
      FirstIsMember(b);
    } else {
      assert a[0] in b && b != [];
      assert b[0] in a;
      SameHead(a, b);
      var a', b' := a[1..], b[1..];
      forall x
        ensures x in a' <==> x in b'
      {
        TailMembers(a, x);
        TailMembers(b, x);
      }
      SortedUnique(a', b');
      assert a == [a[0]] + a' && b == [b[0]] + b';
    }
  }

  lemma FirstIsMember(b: seq<string>)
    ensures b != [] ==> b[0] in b
  {
  }

  lemma SameHead(a: seq<string>, b: seq<string>)
    requires Sorted(a) && Sorted(b) && a != [] && b != []
    requires a[0] in b && b[0] in a
    ensures a[0] == b[0]
  {
    var i :| 0 <= i < |b| && b[i] == a[0];
    var j :| 0 <= j < |a| && a[j] == b[0];
    if i > 0 && j > 0 {
      BelowTransitive(b[0], a[0], b[0]);
      BelowIrreflexive(b[0]);
    }
  }

  lemma TailMembers(a: seq<string>, x: string)
    requires Sorted(a) && a != []
    ensures x in a[1..] <==> x in a && x != a[0]
  {
    if x in a[1..] {
      var i :| 0 <= i < |a| - 1 && a[1..][i] == x;
      assert Below(a[0], a[i + 1]);
      BelowIrreflexive(x);
    }
  }

  /** A sorted listing with one more name in it. */
  function Insert(names: seq<string>, x: string): seq<string> {
    if names == [] then [x]
    else if Below(x, names[0]) then [x] + names
    else [names[0]] + Insert(names[1..], x)
  }

  lemma {:induction false} InsertSorted(names: seq<string>, x: string)
    requires Sorted(names) && x !in names
    ensures Sorted(Insert(names, x))
    ensures forall y :: y in Insert(names, x) <==> y in names || y == x
  {
    if names != [] {
      var head, tail := names[0], names[1..];
      assert names == [head] + tail;
      if Below(x, head) {
        forall k | 0 <= k < |names|
          ensures Below(x, names[k])
        {
          if k > 0 {
            BelowTransitive(x, head, names[k]);
          }
        }
      } else {
        BelowTotal(x, head);
        InsertSorted(tail, x);
        var rest := Insert(tail, x);
        forall k | 0 <= k < |rest|
          ensures Below(head, rest[k])
        {
          assert rest[k] in rest;
          if rest[k] != x {
            var j :| 0 <= j < |tail| && tail[j] == rest[k];
            assert names[j + 1] == rest[k];
          }
        }
      }
    }
  }

  /** The names of a set in lexical order. */
  ghost function Listing(names: set<string>): (r: seq<string>)
    ensures Sorted(r)
    ensures forall x :: x in r <==> x in names
  {
    if names == {} then []
    else
      var x :| x in names;
      InsertSorted(Listing(names - {x}), x);
      Insert(Listing(names - {x}), x)
  }

  /** A sorted sequence of exactly the names of a set is its listing. */
  lemma ListingUnique(names: set<string>, r: seq<string>)
    requires Sorted(r)
    requires forall x :: x in r <==> x in names
    ensures r == Listing(names)
  {
    SortedUnique(r, Listing(names));
  }

  /** Removing the first `k` names of a set leaves the rest of its listing. */
  lemma ListingDrop(names: set<string>, k: nat)
    requires k <= |Listing(names)|
    ensures Listing(names - Prefix(names, k)) == Listing(names)[k..]
  {
    var r := Listing(names);
    forall x
      ensures x in r[k..] <==> x in names - Prefix(names, k)
    {
      if x in r[k..] {
        var i :| k <= i < |r| && r[i] == x;
        if x in r[..k] {
          var j :| 0 <= j < k && r[j] == x;
          BelowIrreflexive(x);
        }
      }
    }
    ListingUnique(names - Prefix(names, k), r[k..]);
  }

  /** The first `k` names of a set. */
  ghost function Prefix(names: set<string>, k: nat): set<string>
    requires k <= |Listing(names)|
  {
    set x | x in Listing(names)[..k]
  }
}
