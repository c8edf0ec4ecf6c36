/** The JSON document a window travels as, on disk and in an upload (internal/metrics/bucket.go). The text is
    abstract: a document holds what the text says. */
module Encoding {
  import opened Rounding
  import opened Statistics
  import opened Windows

  /** The triple of a statistic; the number of readings is not part of the document. */
  datatype StatDocument = StatDocument(min: real, avg: real, max: real)

  datatype Document = Document(
    facts: Facts,
    cpuBusy: StatDocument, cpuIOWait: StatDocument, cpuSteal: StatDocument,
    cpuUser: StatDocument, cpuSystem: StatDocument,
    memUsed: StatDocument, swapUsed: StatDocument, load1: StatDocument,
    netRx: StatDocument, netTx: StatDocument, diskRead: StatDocument, diskWrite: StatDocument)

  function EncodeStat(s: StatValue): StatDocument {
    StatDocument(Round2(s.min), Round2(s.avg), Round2(s.max))
  }

  function DecodeStat(d: StatDocument): StatValue {
    StatValue(d.min, d.avg, d.max, 0)
  }

  function Encode(b: BucketValue): Document {
    Document(
      b.facts,
      EncodeStat(b.cpuBusy), EncodeStat(b.cpuIOWait), EncodeStat(b.cpuSteal),
      EncodeStat(b.cpuUser), EncodeStat(b.cpuSystem),
      EncodeStat(b.memUsed), EncodeStat(b.swapUsed), EncodeStat(b.load1),
      EncodeStat(b.netRx), EncodeStat(b.netTx), EncodeStat(b.diskRead), EncodeStat(b.diskWrite))
  }

  function Decode(d: Document): BucketValue {
    BucketValue(
      d.facts,
      DecodeStat(d.cpuBusy), DecodeStat(d.cpuIOWait), DecodeStat(d.cpuSteal),
      DecodeStat(d.cpuUser), DecodeStat(d.cpuSystem),
      DecodeStat(d.memUsed), DecodeStat(d.swapUsed), DecodeStat(d.load1),
      DecodeStat(d.netRx), DecodeStat(d.netTx), DecodeStat(d.diskRead), DecodeStat(d.diskWrite))
  }

  ghost predicate IsRoundedStat(s: StatValue, d: StatDocument) {
    IsRounded(s.min, d.min) && IsRounded(s.avg, d.avg) && IsRounded(s.max, d.max)
  }

  /** The document holds the facts of the window and under the name of each metric the rounded figures of that
      metric. */
  lemma DocumentIsRounded(b: BucketValue)
    ensures var d := Encode(b);
      && d.facts == b.facts
      && IsRoundedStat(b.cpuBusy, d.cpuBusy) && IsRoundedStat(b.cpuIOWait, d.cpuIOWait)
      && IsRoundedStat(b.cpuSteal, d.cpuSteal) && IsRoundedStat(b.cpuUser, d.cpuUser)
      && IsRoundedStat(b.cpuSystem, d.cpuSystem)
      && IsRoundedStat(b.memUsed, d.memUsed) && IsRoundedStat(b.swapUsed, d.swapUsed)
      && IsRoundedStat(b.load1, d.load1)
      && IsRoundedStat(b.netRx, d.netRx) && IsRoundedStat(b.netTx, d.netTx)
      && IsRoundedStat(b.diskRead, d.diskRead) && IsRoundedStat(b.diskWrite, d.diskWrite)
  {
    hide EncodeStat, IsRoundedStat;
    StatIsRounded(b.cpuBusy);
    StatIsRounded(b.cpuIOWait);
    StatIsRounded(b.cpuSteal);
    StatIsRounded(b.cpuUser);
    StatIsRounded(b.cpuSystem);
    StatIsRounded(b.memUsed);
    StatIsRounded(b.swapUsed);
    StatIsRounded(b.load1);
    StatIsRounded(b.netRx);
    StatIsRounded(b.netTx);
    StatIsRounded(b.diskRead);
    StatIsRounded(b.diskWrite);
  }

  lemma StatIsRounded(s: StatValue)
    ensures IsRoundedStat(s, EncodeStat(s))
  {
    hide Round2, IsRounded;
    Round2Iff(s.min, Round2(s.min));
    Round2Iff(s.avg, Round2(s.avg));
    Round2Iff(s.max, Round2(s.max));
  }

  /** A window as it comes back from disk. */
  function Stored(b: BucketValue): BucketValue {
    Decode(Encode(b))
  }

  predicate Reports(s: StatValue, d: StatDocument) {
    s.min == d.min && s.avg == d.avg && s.max == d.max && s.n == 0
  }

  /** A window that comes back holds the figures of its document, each under its name and as a finished report. */
  lemma DecodedReports(d: Document)
    ensures var b := Decode(d);
      && b.facts == d.facts
      && Reports(b.cpuBusy, d.cpuBusy) && Reports(b.cpuIOWait, d.cpuIOWait) && Reports(b.cpuSteal, d.cpuSteal)
      && Reports(b.cpuUser, d.cpuUser) && Reports(b.cpuSystem, d.cpuSystem)
      && Reports(b.memUsed, d.memUsed) && Reports(b.swapUsed, d.swapUsed) && Reports(b.load1, d.load1)
      && Reports(b.netRx, d.netRx) && Reports(b.netTx, d.netTx)
      && Reports(b.diskRead, d.diskRead) && Reports(b.diskWrite, d.diskWrite)
  {
  }

  lemma StatRoundTrip(s: StatValue)
    ensures EncodeStat(DecodeStat(EncodeStat(s))) == EncodeStat(s)
  {
    hide Round2;
    Round2Properties(s.min, s.min);
    Round2Properties(s.avg, s.avg);
    Round2Properties(s.max, s.max);
  }

  /** Encoding what was decoded gives the same document: what is uploaded is what was spooled, although the
      number of readings behind each mean is dropped on the way. */
  lemma ReEncodesIdentically(b: BucketValue)
    ensures Encode(Stored(b)) == Encode(b)
  {
    hide EncodeStat, DecodeStat;
    StatRoundTrip(b.cpuBusy);
    StatRoundTrip(b.cpuIOWait);
    StatRoundTrip(b.cpuSteal);
    StatRoundTrip(b.cpuUser);
    StatRoundTrip(b.cpuSystem);
    StatRoundTrip(b.memUsed);
    StatRoundTrip(b.swapUsed);
    StatRoundTrip(b.load1);
    StatRoundTrip(b.netRx);
    StatRoundTrip(b.netTx);
    StatRoundTrip(b.diskRead);
    StatRoundTrip(b.diskWrite);
  }

  /** A stored window keeps its facts, every figure is within half a hundredth of the measured one, and the
      mean still lies between the extremes. */
  lemma StoredIsFaithful(b: BucketValue, m: Metric)
    ensures Stored(b).facts == b.facts
    ensures Stored(b).Get(m).n == 0
    ensures -0.005 <= Stored(b).Get(m).min - b.Get(m).min <= 0.005
    ensures -0.005 <= Stored(b).Get(m).avg - b.Get(m).avg <= 0.005
    ensures -0.005 <= Stored(b).Get(m).max - b.Get(m).max <= 0.005
    ensures b.Get(m).min <= b.Get(m).avg <= b.Get(m).max ==>
      Stored(b).Get(m).min <= Stored(b).Get(m).avg <= Stored(b).Get(m).max
  {
    hide Round2;
    var s := b.Get(m);
    StoredMetric(b, m);
    Round2Properties(s.min, s.avg);
    Round2Properties(s.avg, s.max);
    Round2Properties(s.max, s.max);
  }

  lemma StoredMetric(b: BucketValue, m: Metric)
    ensures Stored(b).Get(m) == DecodeStat(EncodeStat(b.Get(m)))
  {
    hide EncodeStat, DecodeStat;
  }
}
