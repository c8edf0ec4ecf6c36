/** Folding a stream of samples into clock-aligned windows (internal/metrics/bucket.go). */
module Aggregation {
  import opened Clock
  import opened Wrappers
  import opened Collect
  import opened Derivation
  import opened Windows

  const DEFAULT_WINDOW: int := 10 * SECOND

  /** The effective width of a window. */
  function Width(window: int): (w: int)
    ensures w > 0
  {
    if window <= 0 then DEFAULT_WINDOW else window
  }

  datatype AggregatorState = AggregatorState(window: int, prev: Option<Sample>, current: Option<BucketValue>)

  function FreshAggregator(window: int): AggregatorState {
    AggregatorState(window, None, None)
  }

  /** The window in progress, unless it is empty. */
  function Flushed(a: AggregatorState): (b: Option<BucketValue>)
    ensures b.Some? <==> a.current.Some? && a.current.value.facts.samples > 0
    ensures b.Some? ==> b == a.current
  {
    if a.current.Some? && a.current.value.facts.samples == 0 then None else a.current
  }

  function AfterFlush(a: AggregatorState): AggregatorState {
    a.(current := None)
  }

  /** The window a reading of instant `at` goes into: the one in progress if it starts where the instant's
      window starts, an empty one otherwise. */
  function WindowFor(a: AggregatorState, at: int): BucketValue {
    var start := Truncate(at, Width(a.window));
    if a.current.Some? && a.current.value.facts.start == start then a.current.value
    else EmptyBucket(start, start + Width(a.window))
  }

  /** The state after one more sample, and the window the sample completes. */
  function Added(a: AggregatorState, s: Sample): (AggregatorState, Option<BucketValue>) {
    var next := a.(prev := Some(s));
    if a.prev.None? then (next, None)
    else
      var rates := Derive(a.prev.value, s);
      if rates.None? then (AfterFlush(next), Flushed(a))
      else
        var start := Truncate(s.at, Width(a.window));
        var completes := a.current.Some? && a.current.value.facts.start != start;
        (next.(current := Some(WithReading(WindowFor(a, s.at), rates.value, s))),
         if completes then Flushed(a) else None)
  }

  class Aggregator {
    var window: int
    var prev: Sample
    var hasPrev: bool
    var current: Bucket?

    ghost predicate Valid()
      reads this
    {
      current != null ==> current.Valid() && this !in current.Repr
    }

    ghost function Repr(): set<object>
      reads this
    {
      {this} + (if current == null then {} else current.Repr)
    }

    ghost function State(): AggregatorState
      requires Valid()
      reads this, Repr()
    {
      AggregatorState(window, if hasPrev then Some(prev) else None, ValueOf(current))
    }

    constructor (window: int)
      ensures Valid() && Repr() == {this}
      ensures State() == FreshAggregator(window)
    {
      this.window := window;
      prev, hasPrev, current := ZERO_SAMPLE, false, null;
    }

    method Add(s: Sample) returns (completed: Bucket?)
      requires Valid()
      modifies Repr()
      ensures Valid() && fresh(Repr() - old(Repr()))
      ensures completed != null ==> completed.Valid() && completed.Repr <= old(Repr())
      ensures (State(), ValueOf(completed)) == Added(old(State()), s)
    {
      hide Derive, WithReading, EmptyBucket, Bucket.Valid, Bucket.Value;
      var before, hadPrev := prev, hasPrev;
      prev, hasPrev := s, true;
      if !hadPrev {
        return null;
      }
      var rates := Derive(before, s);
      if rates.None? {
        completed := Flush();
        return;
      }
      var start := Truncate(s.at, Width(window));
      completed := null;
      if current != null && current.facts.start != start {
        completed := Flush();
      }
      ghost var closed := ValueOf(completed);
      AddToWindow(start, rates.value, s);
      assert ValueOf(completed) == closed;
    }

    /** Adds a reading to the window in progress, opening one if there is none. */
    method AddToWindow(start: int, r: Rates, s: Sample)
      requires Valid()
      modifies this`current, if current == null then {} else current.Repr
      ensures Valid() && current != null
      ensures if old(current) == null then fresh(current.Repr) else current == old(current)
      ensures current.Value() == WithReading(
        if old(current) == null then EmptyBucket(start, start + Width(window)) else old(current.Value()), r, s)
    {
      hide WithReading, EmptyBucket, Bucket.Valid, Bucket.Value;
      if current == null {
        current := new Bucket(start, start + Width(window));
      }
      current.Add(r, s);
    }

    method Flush() returns (b: Bucket?)
      requires Valid()
      modifies this`current
      ensures Valid() && Repr() == {this}
      ensures b == null || b == old(current)
      ensures State() == AfterFlush(old(State())) && ValueOf(b) == Flushed(old(State()))
    {
      b := current;
      current := null;
      if b == null || b.facts.samples == 0 {
        return null;
      }
    }
  }

  ghost function ValueOf(b: Bucket?): Option<BucketValue>
    requires b != null ==> b.Valid()
    reads if b == null then {} else b.Repr
  {
    if b == null then None else Some(b.Value())
  }
}
