/** Splitting a sequence into maximal groups, given for each position whether it opens a group, joins the group
    of the position before it, or belongs to no group. */
module Grouping {
  datatype Mark = Gap | Opens | Joins

  /** The positions `lo` up to but not including `hi`. */
  datatype Span = Span(lo: nat, hi: nat)

  /** Only a position right after a member of a group can join one. */
  ghost predicate WellMarked(ms: seq<Mark>) {
    forall i | 0 <= i < |ms| && ms[i] == Joins :: i > 0 && ms[i - 1] != Gap
  }

  /** A group among the first `n` positions. */
  ghost predicate IsGroup(ms: seq<Mark>, n: nat, r: Span)
    requires n <= |ms|
  {
    && r.lo < r.hi <= n
    && ms[r.lo] == Opens
    && (forall i | r.lo < i < r.hi :: ms[i] == Joins)
    && (r.hi < n ==> ms[r.hi] != Joins)
  }

  ghost predicate Ordered(rs: seq<Span>) {
    forall j, k | 0 <= j < k < |rs| :: rs[j].hi <= rs[k].lo
  }

  /** The groups once position `n - 1`, marked `m`, has been seen. */
  function Extended(rs: seq<Span>, m: Mark, n: nat): (next: seq<Span>)
    requires n > 0
    requires forall r | r in rs :: r.lo < r.hi <= n - 1
    ensures forall r | r in next :: r.lo < r.hi <= n
  {
    match m
    case Gap => rs
    case Opens => rs + [Span(n - 1, n)]
    case Joins => if rs == [] then [] else rs[..|rs| - 1] + [Span(rs[|rs| - 1].lo, n)]
  }

  /** The groups, found in one pass from left to right. */
  function Groups(ms: seq<Mark>, n: nat): (rs: seq<Span>)
    requires n <= |ms|
    ensures forall r | r in rs :: r.lo < r.hi <= n
  {
    if n == 0 then [] else Extended(Groups(ms, n - 1), ms[n - 1], n)
  }

  ghost predicate GroupsUpTo(ms: seq<Mark>, n: nat, rs: seq<Span>)
    requires n <= |ms|
  {
    && Ordered(rs)
    && (forall r | r in rs :: IsGroup(ms, n, r))
    && (n > 0 && ms[n - 1] != Gap ==> rs != [] && rs[|rs| - 1].hi == n)
  }

  lemma {:induction false} GroupsAreGroups(ms: seq<Mark>, n: nat)
    requires n <= |ms|
    requires WellMarked(ms)
    ensures GroupsUpTo(ms, n, Groups(ms, n))
  {
    if n > 0 {
      GroupsAreGroups(ms, n - 1);
      ExtendedAreGroups(ms, n, Groups(ms, n - 1));
    }
  }

  lemma ExtendedAreGroups(ms: seq<Mark>, n: nat, before: seq<Span>)
    requires 0 < n <= |ms|
    requires WellMarked(ms)
    requires GroupsUpTo(ms, n - 1, before)
    ensures GroupsUpTo(ms, n, Extended(before, ms[n - 1], n))
  {
    if ms[n - 1] == Joins {
      LastGroupGrows(ms, n, before);
    } else {
      GroupsStay(ms, n, before);
      if ms[n - 1] == Opens {
        NewGroup(ms, n, before);
      }
    }
  }

  lemma GroupsStay(ms: seq<Mark>, n: nat, before: seq<Span>)
    requires 0 < n <= |ms|
    requires ms[n - 1] != Joins
    requires GroupsUpTo(ms, n - 1, before)
    ensures forall r | r in before :: IsGroup(ms, n, r)
  {
    forall r | r in before
      ensures IsGroup(ms, n, r)
    {
      assert IsGroup(ms, n - 1, r);
    }
  }

  lemma NewGroup(ms: seq<Mark>, n: nat, before: seq<Span>)
    requires 0 < n <= |ms|
    requires ms[n - 1] == Opens
    requires Ordered(before) && forall r | r in before :: r.hi <= n - 1 && IsGroup(ms, n, r)
    ensures GroupsUpTo(ms, n, before + [Span(n - 1, n)])
  {
    var rs := before + [Span(n - 1, n)];
    forall j, k | 0 <= j < k < |rs|
      ensures rs[j].hi <= rs[k].lo
    {
      assert before[j] in before;
    }
    assert IsGroup(ms, n, Span(n - 1, n));
  }

  lemma LastGroupGrows(ms: seq<Mark>, n: nat, before: seq<Span>)
    requires 0 < n <= |ms|
    requires WellMarked(ms) && ms[n - 1] == Joins
    requires GroupsUpTo(ms, n - 1, before)
    ensures before != []
    ensures GroupsUpTo(ms, n, before[..|before| - 1] + [Span(before[|before| - 1].lo, n)])
  {
    var last := |before| - 1;
    var rs := before[..last] + [Span(before[last].lo, n)];
    assert before[last] in before;
    forall r | r in rs
      ensures IsGroup(ms, n, r)
    {
      var k :| 0 <= k < |rs| && rs[k] == r;
      assert IsGroup(ms, n - 1, before[k]);
      if k < last {
        assert before[k].hi <= before[last].lo;
      }
    }
  }

  lemma {:induction false} GroupsAreComplete(ms: seq<Mark>, n: nat, r: Span)
    requires n <= |ms|
    requires WellMarked(ms)
    requires IsGroup(ms, n, r)
    ensures r in Groups(ms, n)
  {
    hide IsGroup, GroupsUpTo, WellMarked, Extended;
    GroupBefore(ms, n, r);
    var before := Groups(ms, n - 1);
    GroupsAreGroups(ms, n - 1);
    if r.hi < n {
      GroupsAreComplete(ms, n - 1, r);
    } else if r.lo < n - 1 {
      GroupsAreComplete(ms, n - 1, Span(r.lo, n - 1));
    }
    ExtendedHas(ms, n, before, r);
  }

  /** What is left of a group once the last position is taken away. */
  lemma GroupBefore(ms: seq<Mark>, n: nat, r: Span)
    requires n <= |ms|
    requires IsGroup(ms, n, r)
    ensures 0 < r.hi <= n && r.lo < r.hi
    ensures r.hi < n ==> IsGroup(ms, n - 1, r)
    ensures r.hi == n && r.lo < n - 1 ==> IsGroup(ms, n - 1, Span(r.lo, n - 1))
  {
  }

  lemma ExtendedHas(ms: seq<Mark>, n: nat, before: seq<Span>, r: Span)
    requires 0 < n <= |ms|
    requires WellMarked(ms)
    requires GroupsUpTo(ms, n - 1, before)
    requires IsGroup(ms, n, r)
    requires r.hi < n ==> r in before
    requires r.hi == n && r.lo < n - 1 ==> Span(r.lo, n - 1) in before
    ensures r in Extended(before, ms[n - 1], n)
  {
    var rs, last := Extended(before, ms[n - 1], n), |before| - 1;
    if r.hi < n {
      var k :| 0 <= k < |before| && before[k] == r;
      assert rs[k] == r;
    } else if r.lo == n - 1 {
      assert rs[|rs| - 1] == r;
    } else {
      LastOne(before, Span(r.lo, n - 1));
      assert rs[last] == r;
    }
  }

  lemma LastOne(rs: seq<Span>, r: Span)
    requires Ordered(rs)
    requires r in rs && r.hi == rs[|rs| - 1].hi
    requires forall q | q in rs :: q.lo < q.hi
    ensures r == rs[|rs| - 1]
  {
    var k :| 0 <= k < |rs| && rs[k] == r;
    var last := |rs| - 1;
    assert rs[last] in rs;
    assert k < last ==> rs[k].hi <= rs[last].lo;
  }

  /** Every position that belongs to a group lies in one of the groups found. */
  lemma {:induction false} GroupsCover(ms: seq<Mark>, n: nat, i: nat)
    requires i < n <= |ms|
    requires WellMarked(ms)
    requires ms[i] != Gap
    ensures exists r :: r in Groups(ms, n) && r.lo <= i < r.hi
  {
    hide WellMarked, Extended;
    var before := Groups(ms, n - 1);
    if i == n - 1 {
      GroupsAreGroups(ms, n);
      LastGroupEnds(ms, n);
    } else {
      GroupsCover(ms, n - 1, i);
      var r :| r in before && r.lo <= i < r.hi;
      ExtendedKeeps(before, ms[n - 1], n, r);
    }
  }

  lemma LastGroupEnds(ms: seq<Mark>, n: nat)
    requires 0 < n <= |ms| && ms[n - 1] != Gap
    requires GroupsUpTo(ms, n, Groups(ms, n))
    ensures exists r :: r in Groups(ms, n) && r.lo < r.hi == n
  {
    hide Groups;
    var rs := Groups(ms, n);
    assert rs[|rs| - 1] in rs;
  }

  /** Extending keeps every group, the last one possibly longer. */
  lemma ExtendedKeeps(rs: seq<Span>, m: Mark, n: nat, r: Span)
    requires n > 0
    requires forall q | q in rs :: q.lo < q.hi <= n - 1
    requires r in rs
    ensures exists q :: q in Extended(rs, m, n) && q.lo == r.lo && r.hi <= q.hi
  {
    var k :| 0 <= k < |rs| && rs[k] == r;
    var next := Extended(rs, m, n);
    assert next[k] in next;
  }

  /** The span at `k` is the only one that holds position `i`. */
  ghost predicate OnlyIn(rs: seq<Span>, k: int, i: int) {
    && 0 <= k < |rs| && rs[k].lo <= i < rs[k].hi
    && forall j | 0 <= j < |rs| && rs[j].lo <= i < rs[j].hi :: j == k
  }

  lemma InExactlyOneGroup(ms: seq<Mark>, n: nat, i: nat)
    requires i < n <= |ms|
    requires WellMarked(ms)
    requires ms[i] != Gap
    ensures exists k :: OnlyIn(Groups(ms, n), k, i)
  {
    hide Groups, IsGroup;
    GroupsCover(ms, n, i);
    GroupsAreGroups(ms, n);
    var rs := Groups(ms, n);
    var r :| r in rs && r.lo <= i < r.hi;
    var k :| 0 <= k < |rs| && rs[k] == r;
    assert OnlyIn(rs, k, i);
  }
}
