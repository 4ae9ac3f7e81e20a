/**
 * `_get_training_progress_metrics`: the progress strings the metadata logger
 * reports at the end of each batch and of training, such as `[token=x/xx]`,
 * `[batch=x/xx]` or `[epoch=x/xx]` with a `[batch=x/xx]` for the position in
 * the current epoch. Each string is read back by `ParseCounter`, the partner
 * that shows which numbers it reports.
 */
module TrainingProgress {
  import opened Wrappers
  import opened Decimal

  datatype TimeUnit = Epoch | Batch | Sample | Token | Duration | Second

  /** A training duration such as `10ep` or `1000ba`. */
  datatype Time = Time(value: int, unit: TimeUnit)

  /** The trainer's counters at the moment of logging. */
  datatype Timestamp = Timestamp(epoch: nat, batch: nat, batchInEpoch: nat, token: nat)

  const ProgressKey := "training_progress"
  const SubProgressKey := "training_sub_progress"

  /** `[tag=count/total]`, or `[tag=count]` when there is no total. */
  function Counter(tag: string, count: int, total: Option<int>): string {
    match total
    case Some(t) => "[" + tag + "=" + IntToString(count) + "/" + IntToString(t) + "]"
    case None => "[" + tag + "=" + IntToString(count) + "]"
  }

  /**
   * The metrics as `(key, value)` pairs in insertion order. Callers guarantee a
   * maximum duration while the logger is enabled (the source asserts it).
   */
  function ProgressMetrics(enabled: bool, maxDuration: Option<Time>, ts: Timestamp, trainDataloaderLen: Option<nat>)
    : (r: seq<(string, string)>)
    requires enabled ==> maxDuration.Some?
  {
    if !enabled then []
    else
      var max := maxDuration.value;
      match max.unit
      case Token => [(ProgressKey, Counter("token", ts.token, Some(max.value)))]
      case Batch => [(ProgressKey, Counter("batch", ts.batch, Some(max.value)))]
      case Epoch =>
        var sub := Counter("batch", ts.batchInEpoch, EpochLength(ts, trainDataloaderLen));
        var shownEpoch := if ts.epoch < max.value then ts.epoch + 1 else ts.epoch;
        [(SubProgressKey, sub), (ProgressKey, Counter("epoch", shownEpoch, Some(max.value)))]
      case _ => []
  }

  /**
   * The batches in an epoch: derived from the completed epochs when there is
   * one, else the training dataloader's length, else unknown.
   */
  function EpochLength(ts: Timestamp, trainDataloaderLen: Option<nat>): Option<int> {
    if ts.epoch >= 1 then Some(BatchesPerEpoch(ts))
    else match trainDataloaderLen
      case Some(n) => Some(n)
      case None => None
  }

  /**
   * `(batch - batch_in_epoch) // epoch`, Python's floor division; the divisor
   * is positive, where Dafny's `/` is floor division too.
   */
  function BatchesPerEpoch(ts: Timestamp): int
    requires ts.epoch >= 1
  {
    (ts.batch - ts.batchInEpoch) / ts.epoch
  }

  // ---------------------------------------------------------------------------
  // Reading a counter back
  // ---------------------------------------------------------------------------

  datatype Reading = Reading(tag: string, count: int, total: Option<int>)

  /** Index of the first occurrence of `c` in `s`. */
  function IndexOf(s: string, c: char): (r: Option<nat>)
    ensures r.Some? ==> r.value < |s| && s[r.value] == c && forall k :: 0 <= k < r.value ==> s[k] != c
    ensures r.None? ==> forall k :: 0 <= k < |s| ==> s[k] != c
  {
    if s == [] then None
    else if s[0] == c then Some(0)
    else match IndexOf(s[1..], c)
      case Some(i) => Some(i + 1)
      case None => None
  }

  function ParseCounter(s: string): Option<Reading> {
    if |s| < 2 || s[0] != '[' || s[|s| - 1] != ']' then None
    else
      var inner := s[1..|s| - 1];
      match IndexOf(inner, '=')
      case None => None
      case Some(eq) => ParseNumbers(inner[..eq], inner[eq + 1..])
  }

  /** Reads `count` or `count/total`. */
  function ParseNumbers(tag: string, numbers: string): Option<Reading> {
    match IndexOf(numbers, '/')
    case None =>
      (match ParseInt(numbers)
       case Some(n) => Some(Reading(tag, n, None))
       case None => None)
    case Some(slash) =>
      match (ParseInt(numbers[..slash]), ParseInt(numbers[slash + 1..]))
      case (Some(n), Some(t)) => Some(Reading(tag, n, Some(t)))
      case _ => None
  }

  /** Where `c` first occurs in `a + [c] + b` when `a` does not contain it. */
  lemma {:induction false} IndexOfAfter(a: string, c: char, b: string)
    requires forall k :: 0 <= k < |a| ==> a[k] != c
    ensures IndexOf(a + [c] + b, c) == Some(|a|)
  {
    if a != [] {
      assert (a + [c] + b)[1..] == a[1..] + [c] + b;
      IndexOfAfter(a[1..], c, b);
    }
  }

  lemma IntToStringChars(i: int)
    ensures forall k :: 0 <= k < |IntToString(i)| ==> IntToString(i)[k] != '/' && IntToString(i)[k] != '='
  {
    var s := IntToString(i);
    if i < 0 {
      forall k | 0 <= k < |s| ensures s[k] != '/' && s[k] != '=' {
        if k > 0 { assert s[k] == s[1..][k - 1]; }
      }
    }
  }

  function Numbers(count: int, total: Option<int>): string {
    match total
    case Some(t) => IntToString(count) + "/" + IntToString(t)
    case None => IntToString(count)
  }

  lemma CounterShape(tag: string, count: int, total: Option<int>)
    ensures Counter(tag, count, total) == "[" + (tag + "=" + Numbers(count, total)) + "]"
  {
    var c := IntToString(count);
    match total
    case Some(t) =>
      var n := IntToString(t);
      assert "[" + tag + "=" + c + "/" + n + "]" == "[" + (tag + "=" + (c + "/" + n)) + "]";
    case None =>
  }

  lemma {:induction false} ParseBracketed(tag: string, numbers: string)
    requires forall k :: 0 <= k < |tag| ==> tag[k] != '='
    ensures ParseCounter("[" + (tag + "=" + numbers) + "]") == ParseNumbers(tag, numbers)
  {
    var inner := tag + "=" + numbers;
    var s := "[" + inner + "]";
    assert s[1..|s| - 1] == inner;
    IndexOfAfter(tag, '=', numbers);
    assert inner[..|tag|] == tag;
    assert inner[|tag| + 1..] == numbers;
  }

  lemma {:induction false} NumbersRoundTrip(tag: string, count: int, total: Option<int>)
    ensures ParseNumbers(tag, Numbers(count, total)) == Some(Reading(tag, count, total))
  {
    var n := IntToString(count);
    IntToStringChars(count);
    IntRoundTrip(count);
    match total
    case Some(t) =>
      IndexOfAfter(n, '/', IntToString(t));
      IntRoundTrip(t);
      var numbers := n + "/" + IntToString(t);
      assert numbers[..|n|] == n;
      assert numbers[|n| + 1..] == IntToString(t);
    case None =>
      assert IndexOf(n, '/').None?;
  }

  /** A counter reads back as the tag and numbers it was built from. */
  lemma CounterRoundTrip(tag: string, count: int, total: Option<int>)
    requires forall k :: 0 <= k < |tag| ==> tag[k] != '='
    ensures ParseCounter(Counter(tag, count, total)) == Some(Reading(tag, count, total))
  {
    CounterShape(tag, count, total);
    ParseBracketed(tag, Numbers(count, total));
    NumbersRoundTrip(tag, count, total);
  }

  // ---------------------------------------------------------------------------
  // Properties
  // ---------------------------------------------------------------------------

  /** A disabled logger reports no progress at all. */
  lemma DisabledReportsNothing(maxDuration: Option<Time>, ts: Timestamp, len: Option<nat>)
    ensures ProgressMetrics(false, maxDuration, ts, len) == []
  {
  }

  /** A duration in tokens reports `[token=t/max]` and nothing else. */
  lemma TokenProgress(max: int, ts: Timestamp, len: Option<nat>)
    ensures var r := ProgressMetrics(true, Some(Time(max, Token)), ts, len);
      |r| == 1 && r[0].0 == ProgressKey &&
      ParseCounter(r[0].1) == Some(Reading("token", ts.token, Some(max)))
  {
    var c := Counter("token", ts.token, Some(max));
    assert ProgressMetrics(true, Some(Time(max, Token)), ts, len) == [(ProgressKey, c)];
    CounterRoundTrip("token", ts.token, Some(max));
  }

  /** A duration in batches reports `[batch=b/max]` and nothing else. */
  lemma BatchProgress(max: int, ts: Timestamp, len: Option<nat>)
    ensures var r := ProgressMetrics(true, Some(Time(max, Batch)), ts, len);
      |r| == 1 && r[0].0 == ProgressKey &&
      ParseCounter(r[0].1) == Some(Reading("batch", ts.batch, Some(max)))
  {
    var c := Counter("batch", ts.batch, Some(max));
    assert ProgressMetrics(true, Some(Time(max, Batch)), ts, len) == [(ProgressKey, c)];
    CounterRoundTrip("batch", ts.batch, Some(max));
  }

  /**
   * A duration in epochs reports the epoch count second: the epoch shown is one
   * more than the epochs completed, except once the maximum is reached.
   */
  lemma EpochProgress(max: int, ts: Timestamp, len: Option<nat>)
    ensures var r := ProgressMetrics(true, Some(Time(max, Epoch)), ts, len);
      |r| == 2 && r[1].0 == ProgressKey &&
      ParseCounter(r[1].1) ==
        Some(Reading("epoch", if ts.epoch < max then ts.epoch + 1 else ts.epoch, Some(max)))
  {
    var shown := if ts.epoch < max then ts.epoch + 1 else ts.epoch;
    EpochMetrics(max, ts, len);
    CounterRoundTrip("epoch", shown, Some(max));
  }

  /** The two entries a duration in epochs reports, in this order. */
  lemma EpochMetrics(max: int, ts: Timestamp, len: Option<nat>)
    ensures ProgressMetrics(true, Some(Time(max, Epoch)), ts, len) ==
      [(SubProgressKey, Counter("batch", ts.batchInEpoch, EpochLength(ts, len))),
       (ProgressKey, Counter("epoch", if ts.epoch < max then ts.epoch + 1 else ts.epoch, Some(max)))]
  {
  }

  /**
   * A duration in epochs reports the position within the epoch first, out of
   * the batches per epoch derived from the completed epochs when there is one.
   */
  lemma EpochSubProgressAfterFirstEpoch(max: int, ts: Timestamp, len: Option<nat>)
    requires ts.epoch >= 1
    ensures var r := ProgressMetrics(true, Some(Time(max, Epoch)), ts, len);
      |r| == 2 && r[0].0 == SubProgressKey &&
      ParseCounter(r[0].1) == Some(Reading("batch", ts.batchInEpoch, Some((ts.batch - ts.batchInEpoch) / ts.epoch)))
  {
    EpochMetrics(max, ts, len);
    var perEpoch := (ts.batch - ts.batchInEpoch) / ts.epoch;
    assert EpochLength(ts, len) == Some(perEpoch);
    CounterRoundTrip("batch", ts.batchInEpoch, Some(perEpoch));
  }

  /**
   * During the first epoch the batches per epoch come from the training
   * dataloader's length, and are left out when it is unknown.
   */
  lemma EpochSubProgressFirstEpoch(max: int, ts: Timestamp, len: Option<nat>)
    requires ts.epoch == 0
    ensures var r := ProgressMetrics(true, Some(Time(max, Epoch)), ts, len);
      |r| == 2 && r[0].0 == SubProgressKey &&
      ParseCounter(r[0].1) == Some(Reading("batch", ts.batchInEpoch, if len.Some? then Some(len.value as int) else None))
  {
    EpochMetrics(max, ts, len);
    CounterRoundTrip("batch", ts.batchInEpoch, EpochLength(ts, len));
  }

  /** Durations in samples, in seconds or as a fraction of training report nothing. */
  lemma OtherUnitsReportNothing(max: Time, ts: Timestamp, len: Option<nat>)
    requires max.unit !in {Token, Batch, Epoch}
    ensures ProgressMetrics(true, Some(max), ts, len) == []
  {
  }

  lemma {:induction false} DivExact(x: int, e: int, q: int)
    requires e > 0 && x == e * q
    ensures x / e == q
  {
    var d := q - x / e;
    assert e * d == x % e;
    if d >= 1 {
      assert false;
    } else if d <= -1 {
      assert false;
    }
  }

  /** When every completed epoch had `k` batches, `k` is the batches per epoch reported. */
  lemma BatchesPerEpochRecovered(ts: Timestamp, k: nat)
    requires ts.epoch >= 1
    requires ts.batch == ts.epoch * k + ts.batchInEpoch
    ensures BatchesPerEpoch(ts) == k
  {
    DivExact(ts.batch - ts.batchInEpoch, ts.epoch, k);
  }
}
