/** What the platform may change about the schedule (internal/wire/wire.go). */
module WireConfig {
  import opened Clock
  import opened Wrappers

  const MIN_INTERVAL: int := SECOND
  const MAX_INTERVAL: int := 5 * 60 * SECOND
  const MIN_FLUSH: int := 10 * SECOND
  const MAX_FLUSH: int := 60 * 60 * SECOND
  const MIN_WINDOW: int := SECOND
  const MAX_WINDOW: int := 5 * 60 * SECOND

  datatype Settings = Settings(interval: int64, flush: int64, window: int64)

  /** The three fields of the schedule. */
  datatype Field = Interval | Flush | Window

  function Lower(f: Field): int {
    match f
    case Interval => MIN_INTERVAL
    case Flush => MIN_FLUSH
    case Window => MIN_WINDOW
  }

  function Upper(f: Field): int {
    match f
    case Interval => MAX_INTERVAL
    case Flush => MAX_FLUSH
    case Window => MAX_WINDOW
  }

  function Get(s: Settings, f: Field): int64 {
    match f
    case Interval => s.interval
    case Flush => s.flush
    case Window => s.window
  }

  function Set(s: Settings, f: Field, d: int64): Settings {
    match f
    case Interval => s.(interval := d)
    case Flush => s.(flush := d)
    case Window => s.(window := d)
  }

  predicate InBounds(f: Field, d: int) {
    Lower(f) <= d <= Upper(f)
  }

  /** What the platform sends; a zero means the field is not set. */
  datatype Config = Config(intervalSeconds: int64, flushSeconds: int64, windowSeconds: int64)
  {
    function Seconds(f: Field): int64 {
      match f
      case Interval => intervalSeconds
      case Flush => flushSeconds
      case Window => windowSeconds
    }

    /** The duration a field asks for, in 64-bit arithmetic. */
    function Asked(f: Field): int64 {
      Wrap64(Seconds(f) * SECOND)
    }

    predicate Acceptable(f: Field) {
      Seconds(f) == 0 || InBounds(f, Asked(f))
    }

    /** The reply as a whole is accepted. */
    predicate Accepted() {
      Acceptable(Interval) && Acceptable(Flush) && Acceptable(Window)
    }

    function Field(current: Settings, f: Field): int64 {
      if Seconds(f) == 0 then Get(current, f) else Asked(f)
    }

    /** The schedule after the reply, or nothing if the reply is refused. */
    function Applied(current: Settings): Option<Settings> {
      if Accepted() then Some(Settings(Field(current, Interval), Field(current, Flush), Field(current, Window)))
      else None
    }

    method Apply(current: Settings) returns (next: Settings, refused: Option<Field>)
      ensures refused.None? ==> Applied(current) == Some(next)
      ensures refused.Some? ==> Applied(current) == None && next == current && !Acceptable(refused.value)
    {
      next := current;
      refused := None;
      var fields := [Interval, Flush, Window];
      for i := 0 to |fields|
        invariant forall k | 0 <= k < i :: Acceptable(fields[k])
        invariant next == Partly(current, i)
      {
        var f := fields[i];
        if Seconds(f) == 0 {
          continue;
        }
        var d := Wrap64(Seconds(f) * SECOND);
        if d < Lower(f) || d > Upper(f) {
          return current, Some(f);
        }
        next := Set(next, f, d);
      }
      assert Acceptable(fields[0]) && Acceptable(fields[1]) && Acceptable(fields[2]);
    }

    /** The first `n` fields replaced. */
    ghost function Partly(current: Settings, n: nat): Settings {
      Settings(
        if n > 0 then Field(current, Interval) else current.interval,
        if n > 1 then Field(current, Flush) else current.flush,
        if n > 2 then Field(current, Window) else current.window)
    }
  }

  /** An accepted reply leaves every field either as it was or within its bounds, whatever the multiplication
      wrapped to. */
  lemma AppliedWithinBounds(c: Config, current: Settings, f: Field)
    requires c.Applied(current).Some?
    ensures var next := c.Applied(current).value;
      Get(next, f) == (if c.Seconds(f) == 0 then Get(current, f) else c.Asked(f))
      && (Get(next, f) == Get(current, f) || InBounds(f, Get(next, f)))
  {
  }

  /** A field is honoured to the second exactly when its product fits 64 bits; the code does not check that. */
  lemma HonouredIff(c: Config, f: Field)
    ensures c.Asked(f) == c.Seconds(f) * SECOND <==> -TWO_63 <= c.Seconds(f) * SECOND < TWO_63
  {
    hide Wrap64;
  }

  /** As long as the products fit, a reply is accepted exactly if every field it sets lies within the published
      limits: 1 to 300 seconds for the interval and the window, 10 to 3600 for the upload period. */
  lemma AcceptedIff(c: Config)
    requires forall f: Field :: -TWO_63 <= c.Seconds(f) * SECOND < TWO_63
    ensures c.Accepted() <==>
      && (c.intervalSeconds == 0 || 1 <= c.intervalSeconds <= 300)
      && (c.flushSeconds == 0 || 10 <= c.flushSeconds <= 3600)
      && (c.windowSeconds == 0 || 1 <= c.windowSeconds <= 300)
  {
    hide Wrap64;
    HonouredIff(c, Interval);
    HonouredIff(c, Flush);
    HonouredIff(c, Window);
    assert -TWO_63 <= c.Seconds(Interval) * SECOND < TWO_63;
    assert -TWO_63 <= c.Seconds(Flush) * SECOND < TWO_63;
    assert -TWO_63 <= c.Seconds(Window) * SECOND < TWO_63;
  }

  /** A reply of 36028797018963973 seconds (more than a thousand million years) is accepted as five seconds. */
  lemma WrappedReplyIsAccepted(current: Settings)
    ensures var c := Config(36028797018963973, 0, 0);
      c.Applied(current) == Some(current.(interval := 5 * SECOND))
  {
    WrapsToFive();
  }

  lemma WrapsToFive()
    ensures Wrap64(36028797018963973 * SECOND) == 5 * SECOND
  {
  }
}
