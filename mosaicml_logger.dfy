/**
 * The MosaicML platform logger: a buffer of run metadata that is flushed to
 * the platform's metadata API. After a successful call no unforced flush is
 * due for `log_interval` seconds; a failed call does not record its time, so
 * the next call retries. Failed calls spend a budget of three that is
 * replenished by one after an hour without adjustment and whose exhaustion
 * disables the logger for good.
 *
 * The clock and the remote call are inputs: every flush attempt is given the
 * current time `now` and whether the call `mcli.update_run_metadata` succeeded.
 * The global rank and the `RUN_NAME` environment variable are constructor
 * parameters.
 */
module MetadataLogger {
  import opened Wrappers
  import opened Wildcards
  import opened JsonFormat
  import opened TrainingProgress

  /** Namespace of every buffered key. */
  const Prefix := "mosaicml/"

  /** Failed remote calls allowed before the logger disables itself. */
  const MaxAllowedFails := 3

  /** Seconds without adjustment after which a failure is forgiven. */
  const FailureForgivenessPeriod := 3600

  /**
   * A key is ignored when the ignore list is given, non-empty, and one of its
   * patterns matches the key.
   */
  predicate Ignored(ignoreKeys: Option<seq<string>>, key: string) {
    && ignoreKeys.Some?
    && |ignoreKeys.value| > 0
    && exists i :: 0 <= i < |ignoreKeys.value| && Fnmatch(key, ignoreKeys.value[i])
  }

  predicate HasPrefix(k: string) { |Prefix| <= |k| && k[..|Prefix|] == Prefix }

  /** The mutable part of the logger. */
  datatype LoggerState = LoggerState(
    enabled: bool,
    allowedFailsLeft: int,
    timeLastLogged: int,
    timeFailedCountAdjusted: int,
    buffer: map<string, Json>)

  /**
   * The invariant the logger keeps: the budget stays within 0..3 and is
   * positive while enabled, and every buffered key is a prefixed key that no
   * ignore pattern matches.
   */
  ghost predicate ValidState(s: LoggerState, ignoreKeys: Option<seq<string>>) {
    && 0 <= s.allowedFailsLeft <= MaxAllowedFails
    && (s.enabled ==> s.allowedFailsLeft >= 1)
    && forall k :: k in s.buffer ==> HasPrefix(k) && !Ignored(ignoreKeys, k[|Prefix|..])
  }

  /** Whether a flush calls the remote API: only while enabled, and only when forced or due. */
  predicate FlushAttempted(s: LoggerState, logInterval: int, force: bool, now: int) {
    s.enabled && (now - s.timeLastLogged > logInterval || force)
  }

  /** `_flush_metadata`, given the time and the outcome of the remote call. */
  function Flush(s: LoggerState, logInterval: int, force: bool, now: int, ok: bool): LoggerState {
    if !FlushAttempted(s, logInterval, force, now) then s
    else if ok then
      var sent := s.(buffer := map[], timeLastLogged := now);
      if now - s.timeFailedCountAdjusted > FailureForgivenessPeriod && s.allowedFailsLeft < MaxAllowedFails then
        sent.(allowedFailsLeft := s.allowedFailsLeft + 1, timeFailedCountAdjusted := now)
      else sent
    else
      var left := s.allowedFailsLeft - 1;
      s.(allowedFailsLeft := left, timeFailedCountAdjusted := now, enabled := s.enabled && left > 0)
  }

  /** The buffer after buffering some items, and whether normalising one of them raised. */
  datatype Buffered = Buffered(buffer: map<string, Json>, raised: bool)

  /**
   * The loop of `_log_metadata`: each item whose key is not ignored is stored
   * under the prefixed key with its normalised value; an item whose value
   * cannot be normalised stops the loop with the buffer as it is.
   */
  function BufferItems(buffer: map<string, Json>, ignoreKeys: Option<seq<string>>, items: seq<(string, Value)>)
    : (r: Buffered)
    decreases |items|
  {
    if items == [] then Buffered(buffer, false)
    else if Ignored(ignoreKeys, items[0].0) then BufferItems(buffer, ignoreKeys, items[1..])
    else
      match Format(items[0].1)
      case Err(_) => Buffered(buffer, true)
      case Ok(j) => BufferItems(buffer[Prefix + items[0].0 := j], ignoreKeys, items[1..])
  }

  datatype LogOutcome = LogOutcome(state: LoggerState, raised: bool)

  /** `_log_metadata`: buffer the items, then flush unless normalising raised. */
  function Log(s: LoggerState, ignoreKeys: Option<seq<string>>, logInterval: int,
               items: seq<(string, Value)>, now: int, ok: bool): LogOutcome
  {
    if !s.enabled then LogOutcome(s, false)
    else
      var b := BufferItems(s.buffer, ignoreKeys, items);
      if b.raised then LogOutcome(s.(buffer := b.buffer), true)
      else LogOutcome(Flush(s.(buffer := b.buffer), logInterval, false, now, ok), false)
  }

  /** The progress metrics handed to `_log_metadata`: a dict of strings. */
  function AsItems(metrics: seq<(string, string)>): (r: seq<(string, Value)>)
    ensures |r| == |metrics|
    ensures forall i :: 0 <= i < |r| ==> r[i] == (metrics[i].0, Str(metrics[i].1))
  {
    seq(|metrics|, i requires 0 <= i < |metrics| => (metrics[i].0, Str(metrics[i].1)))
  }

  /** One call of `_flush_metadata` in a run: whether it is forced, the time, and the remote outcome. */
  datatype FlushCall = FlushCall(force: bool, now: int, ok: bool)

  function RunFlushes(s: LoggerState, logInterval: int, calls: seq<FlushCall>): LoggerState
    decreases |calls|
  {
    if calls == [] then s
    else RunFlushes(Flush(s, logInterval, calls[0].force, calls[0].now, calls[0].ok), logInterval, calls[1..])
  }

  // ---------------------------------------------------------------------------
  // The logger object
  // ---------------------------------------------------------------------------

  class MosaicMLLogger {
    const logInterval: int
    const ignoreKeys: Option<seq<string>>
    const runName: Option<string>
    var enabled: bool
    var allowedFailsLeft: int
    var timeLastLogged: int
    var timeFailedCountAdjusted: int
    var trainDataloaderLen: Option<nat>
    var bufferedMetadata: map<string, Json>

    function State(): LoggerState
      reads this
    {
      LoggerState(enabled, allowedFailsLeft, timeLastLogged, timeFailedCountAdjusted, bufferedMetadata)
    }

    ghost predicate Valid()
      reads this
    {
      ValidState(State(), ignoreKeys) && (enabled ==> runName.Some?)
    }

    /**
     * Enabled only on global rank 0 and only when the run name is known. On
     * other ranks the source never sets the remaining fields; here they take
     * the values rank 0 would give them.
     */
    constructor (logInterval: int, ignoreKeys: Option<seq<string>>, globalRank: int, runNameEnv: Option<string>)
      ensures Valid()
      ensures enabled <==> globalRank == 0 && runNameEnv.Some?
      ensures this.logInterval == logInterval && this.ignoreKeys == ignoreKeys
      ensures runName == (if globalRank == 0 then runNameEnv else None)
      ensures allowedFailsLeft == MaxAllowedFails && timeLastLogged == 0 && timeFailedCountAdjusted == 0
      ensures trainDataloaderLen == None && bufferedMetadata == map[]
    {
      this.logInterval := logInterval;
      this.ignoreKeys := ignoreKeys;
      runName := if globalRank == 0 then runNameEnv else None;
      enabled := globalRank == 0 && runNameEnv.Some?;
      allowedFailsLeft := MaxAllowedFails;
      timeLastLogged := 0;
      trainDataloaderLen := None;
      timeFailedCountAdjusted := 0;
      bufferedMetadata := map[];
    }

    /**
     * `_flush_metadata`. Returns the payload handed to the remote API, if the
     * API was called.
     */
    method FlushMetadata(force: bool, now: int, remoteOk: bool) returns (payload: Option<map<string, Json>>)
      requires Valid()
      modifies this
      ensures Valid()
      ensures State() == Flush(old(State()), logInterval, force, now, remoteOk)
      ensures payload == if FlushAttempted(old(State()), logInterval, force, now) then Some(old(bufferedMetadata)) else None
      ensures trainDataloaderLen == old(trainDataloaderLen)
    {
      payload := None;
      if enabled && (now - timeLastLogged > logInterval || force) {
        payload := Some(bufferedMetadata);
        if remoteOk {
          bufferedMetadata := map[];
          timeLastLogged := now;
          if now - timeFailedCountAdjusted > FailureForgivenessPeriod && allowedFailsLeft < MaxAllowedFails {
            allowedFailsLeft := allowedFailsLeft + 1;
            timeFailedCountAdjusted := now;
          }
        } else {
          allowedFailsLeft := allowedFailsLeft - 1;
          timeFailedCountAdjusted := now;
          if allowedFailsLeft <= 0 {
            enabled := false;
          }
        }
      }
    }

    /**
     * `_log_metadata`. `raised` tells that normalising a value raised, which
     * ends the call before the flush; `payload` is what a flush sent, if any.
     */
    method LogMetadata(metadata: seq<(string, Value)>, now: int, remoteOk: bool)
      returns (raised: bool, payload: Option<map<string, Json>>)
      requires Valid()
      modifies this
      ensures Valid()
      ensures Log(old(State()), ignoreKeys, logInterval, metadata, now, remoteOk) == LogOutcome(State(), raised)
      ensures payload ==
        if !raised && FlushAttempted(old(State()), logInterval, false, now)
        then Some(BufferItems(old(bufferedMetadata), ignoreKeys, metadata).buffer) else None
      ensures payload.Some? ==> forall k :: k in payload.value ==> HasPrefix(k) && !Ignored(ignoreKeys, k[|Prefix|..])
      ensures trainDataloaderLen == old(trainDataloaderLen)
    {
      raised, payload := false, None;
      if !enabled {
        return;
      }
      var i := 0;
      while i < |metadata|
        invariant 0 <= i <= |metadata|
        invariant Valid()
        invariant BufferItems(bufferedMetadata, ignoreKeys, metadata[i..]) ==
                  BufferItems(old(bufferedMetadata), ignoreKeys, metadata)
        invariant State() == old(State()).(buffer := bufferedMetadata)
        invariant trainDataloaderLen == old(trainDataloaderLen)
      {
        var (key, val) := metadata[i];
        assert metadata[i..][1..] == metadata[i + 1..];
        if !Ignored(ignoreKeys, key) {
          match Format(val)
          case Err(_) =>
            raised := true;
            return;
          case Ok(j) =>
            assert (Prefix + key)[..|Prefix|] == Prefix && (Prefix + key)[|Prefix|..] == key;
            bufferedMetadata := bufferedMetadata[Prefix + key := j];
        }
        i := i + 1;
      }
      payload := FlushMetadata(false, now, remoteOk);
    }

    /** `batch_start`: remembers the training dataloader's length while enabled. */
    method BatchStart(dataloaderLen: Option<nat>)
      modifies this`trainDataloaderLen
      ensures trainDataloaderLen == if dataloaderLen.Some? && enabled then dataloaderLen else old(trainDataloaderLen)
    {
      if dataloaderLen.Some? && enabled {
        trainDataloaderLen := dataloaderLen;
      }
    }

    /** Buffers the training progress and flushes; shared by `batch_end` and `fit_end`. */
    method LogProgressAndFlush(maxDuration: Option<Time>, ts: Timestamp, force: bool,
                               now: int, remoteOk: bool, flushNow: int, flushOk: bool)
      requires Valid()
      requires enabled ==> maxDuration.Some?
      modifies this
      ensures Valid()
      ensures State() ==
        Flush(Log(old(State()), ignoreKeys, logInterval,
                  AsItems(ProgressMetrics(old(enabled), maxDuration, ts, old(trainDataloaderLen))), now, remoteOk).state,
              logInterval, force, flushNow, flushOk)
      ensures trainDataloaderLen == old(trainDataloaderLen)
    {
      var items := AsItems(ProgressMetrics(enabled, maxDuration, ts, trainDataloaderLen));
      ProgressNeverRaises(State(), ignoreKeys, logInterval, items, now, remoteOk);
      var raised, sent := LogMetadata(items, now, remoteOk);
      sent := FlushMetadata(force, flushNow, flushOk);
    }

    /** `batch_end`: log the progress, then flush if due. */
    method BatchEnd(maxDuration: Option<Time>, ts: Timestamp, now: int, remoteOk: bool, flushNow: int, flushOk: bool)
      requires Valid()
      requires enabled ==> maxDuration.Some?
      modifies this
      ensures Valid()
      ensures State() ==
        Flush(Log(old(State()), ignoreKeys, logInterval,
                  AsItems(ProgressMetrics(old(enabled), maxDuration, ts, old(trainDataloaderLen))), now, remoteOk).state,
              logInterval, false, flushNow, flushOk)
      ensures trainDataloaderLen == old(trainDataloaderLen)
    {
      LogProgressAndFlush(maxDuration, ts, false, now, remoteOk, flushNow, flushOk);
    }

    /** `fit_end`: log the progress, then force a flush. */
    method FitEnd(maxDuration: Option<Time>, ts: Timestamp, now: int, remoteOk: bool, flushNow: int, flushOk: bool)
      requires Valid()
      requires enabled ==> maxDuration.Some?
      modifies this
      ensures Valid()
      ensures State() ==
        Flush(Log(old(State()), ignoreKeys, logInterval,
                  AsItems(ProgressMetrics(old(enabled), maxDuration, ts, old(trainDataloaderLen))), now, remoteOk).state,
              logInterval, true, flushNow, flushOk)
      ensures trainDataloaderLen == old(trainDataloaderLen)
    {
      LogProgressAndFlush(maxDuration, ts, true, now, remoteOk, flushNow, flushOk);
    }

    /** `epoch_end`: flush if due. */
    method EpochEnd(now: int, remoteOk: bool)
      requires Valid()
      modifies this
      ensures Valid()
      ensures State() == Flush(old(State()), logInterval, false, now, remoteOk)
      ensures trainDataloaderLen == old(trainDataloaderLen)
    {
      var sent := FlushMetadata(false, now, remoteOk);
    }

    /** `eval_end`, `predict_end` and `close`: force a flush. */
    method ForceFlush(now: int, remoteOk: bool)
      requires Valid()
      modifies this
      ensures Valid()
      ensures State() == Flush(old(State()), logInterval, true, now, remoteOk)
      ensures trainDataloaderLen == old(trainDataloaderLen)
    {
      var sent := FlushMetadata(true, now, remoteOk);
    }
  }

  // ---------------------------------------------------------------------------
  // Properties
  // ---------------------------------------------------------------------------

  /** Without an ignore list, or with an empty one, no key is ignored. */
  lemma NothingIgnoredWithoutPatterns(key: string)
    ensures !Ignored(None, key) && !Ignored(Some([]), key)
  {
  }

  // With the pattern "wall_clock/" + "*" in the list, every key under "wall_clock/" is ignored.
  lemma WallClockKeysIgnored(patterns: seq<string>, rest: string)
    requires "wall_clock/*" in patterns
    ensures Ignored(Some(patterns), "wall_clock/" + rest)
  {
    WallClockExample(rest);
    var i :| 0 <= i < |patterns| && patterns[i] == "wall_clock/*";
  }

  /** A literal pattern ignores exactly the key equal to it. */
  lemma LiteralPatternIgnoresOnlyItself(pattern: string, key: string)
    requires IsLiteralPattern(pattern)
    ensures Ignored(Some([pattern]), key) <==> key == pattern
  {
    LiteralMatchesOnlyItself(pattern, key);
    if key == pattern {
      assert Fnmatch(key, [pattern][0]);
    }
  }

  /** A flush that is neither forced nor due, or that finds the logger disabled, changes nothing. */
  lemma FlushTimeGated(s: LoggerState, logInterval: int, now: int, ok: bool)
    requires !s.enabled || now - s.timeLastLogged <= logInterval
    ensures Flush(s, logInterval, false, now, ok) == s
    ensures !FlushAttempted(s, logInterval, false, now)
  {
  }

  /** A forced flush of an enabled logger calls the API whatever the time. */
  lemma ForcedFlushIgnoresInterval(s: LoggerState, logInterval: int, now: int)
    requires s.enabled
    ensures FlushAttempted(s, logInterval, true, now)
  {
  }

  /**
   * A successful call empties the buffer and records the time; the budget
   * rises by exactly one, and the adjustment time moves, when more than an hour
   * has passed since the last adjustment and the budget is not full.
   */
  lemma FlushSuccess(s: LoggerState, logInterval: int, force: bool, now: int)
    requires FlushAttempted(s, logInterval, force, now)
    ensures var t := Flush(s, logInterval, force, now, true);
      && t.buffer == map[] && t.timeLastLogged == now && t.enabled == s.enabled
      && var regained := now - s.timeFailedCountAdjusted > 3600 && s.allowedFailsLeft < 3;
         t.allowedFailsLeft == (if regained then s.allowedFailsLeft + 1 else s.allowedFailsLeft)
         && t.timeFailedCountAdjusted == (if regained then now else s.timeFailedCountAdjusted)
  {
  }

  /**
   * A failed call costs one unit of budget, records the time of the
   * adjustment and keeps the buffer; the logger disables itself when the
   * budget is spent.
   */
  lemma FlushFailure(s: LoggerState, logInterval: int, force: bool, now: int)
    requires FlushAttempted(s, logInterval, force, now)
    ensures var t := Flush(s, logInterval, force, now, false);
      && t.allowedFailsLeft == s.allowedFailsLeft - 1
      && t.timeFailedCountAdjusted == now
      && t.buffer == s.buffer
      && t.timeLastLogged == s.timeLastLogged
      && (t.enabled <==> t.allowedFailsLeft > 0)
  {
  }

  /**
   * After a successful call no unforced flush is due again until more than
   * `logInterval` seconds have passed since that call.
   */
  lemma SuccessfulFlushWaits(s: LoggerState, logInterval: int, force: bool, now: int, later: int)
    requires FlushAttempted(s, logInterval, force, now)
    ensures FlushAttempted(Flush(s, logInterval, force, now, true), logInterval, false, later)
            <==> later - now > logInterval
  {
  }

  /**
   * A failed call does not record its time: while the logger stays enabled,
   * the next unforced flush is due exactly when it was due before the failure,
   * so a failed due flush is retried by the next call.
   */
  lemma FailedFlushRetries(s: LoggerState, logInterval: int, force: bool, now: int, later: int)
    requires FlushAttempted(s, logInterval, force, now)
    requires Flush(s, logInterval, force, now, false).enabled
    ensures FlushAttempted(Flush(s, logInterval, force, now, false), logInterval, false, later)
            <==> later - s.timeLastLogged > logInterval
  {
  }

  /** Flushing keeps the budget within range and the buffer free of ignored keys. */
  lemma FlushKeepsValid(s: LoggerState, ignoreKeys: Option<seq<string>>, logInterval: int, force: bool, now: int, ok: bool)
    requires ValidState(s, ignoreKeys)
    ensures ValidState(Flush(s, logInterval, force, now, ok), ignoreKeys)
  {
  }

  /**
   * Buffering never stores an ignored key, and every stored key carries the
   * prefix; entries already in the buffer stay unless overwritten.
   */
  lemma {:induction false} BufferItemsKeepsValid(buffer: map<string, Json>, ignoreKeys: Option<seq<string>>, items: seq<(string, Value)>)
    requires forall k :: k in buffer ==> HasPrefix(k) && !Ignored(ignoreKeys, k[|Prefix|..])
    ensures var b := BufferItems(buffer, ignoreKeys, items).buffer;
      forall k :: k in b ==> HasPrefix(k) && !Ignored(ignoreKeys, k[|Prefix|..])
    decreases |items|
  {
    if items != [] && !Ignored(ignoreKeys, items[0].0) && Format(items[0].1).Ok? {
      var key := Prefix + items[0].0;
      assert key[..|Prefix|] == Prefix && key[|Prefix|..] == items[0].0;
      BufferItemsKeepsValid(buffer[key := Format(items[0].1).value], ignoreKeys, items[1..]);
    } else if items != [] && Ignored(ignoreKeys, items[0].0) {
      BufferItemsKeepsValid(buffer, ignoreKeys, items[1..]);
    }
  }

  /** The logger's invariant holds after any `_log_metadata`. */
  lemma LogKeepsValid(s: LoggerState, ignoreKeys: Option<seq<string>>, logInterval: int,
                      items: seq<(string, Value)>, now: int, ok: bool)
    requires ValidState(s, ignoreKeys)
    ensures ValidState(Log(s, ignoreKeys, logInterval, items, now, ok).state, ignoreKeys)
  {
    BufferItemsKeepsValid(s.buffer, ignoreKeys, items);
  }

  /** An ignored key never reaches the buffer, so never a payload, unless it was there before. */
  lemma {:induction false} IgnoredKeysNeverBuffered(buffer: map<string, Json>, ignoreKeys: Option<seq<string>>,
                                                    items: seq<(string, Value)>, key: string)
    requires Ignored(ignoreKeys, key)
    requires Prefix + key !in buffer
    ensures Prefix + key !in BufferItems(buffer, ignoreKeys, items).buffer
    decreases |items|
  {
    if items != [] {
      if Ignored(ignoreKeys, items[0].0) {
        IgnoredKeysNeverBuffered(buffer, ignoreKeys, items[1..], key);
      } else if Format(items[0].1).Ok? {
        PrefixInjective(items[0].0, key);
        IgnoredKeysNeverBuffered(buffer[Prefix + items[0].0 := Format(items[0].1).value], ignoreKeys, items[1..], key);
      }
    }
  }

  /** Distinct keys stay distinct once prefixed. */
  lemma PrefixInjective(a: string, b: string)
    ensures Prefix + a == Prefix + b <==> a == b
  {
    assert (Prefix + a)[|Prefix|..] == a;
    assert (Prefix + b)[|Prefix|..] == b;
  }

  /** What a flush sends holds no key that an ignore pattern matches. */
  lemma PayloadHasNoIgnoredKeys(s: LoggerState, ignoreKeys: Option<seq<string>>, key: string)
    requires ValidState(s, ignoreKeys)
    requires Ignored(ignoreKeys, key)
    ensures Prefix + key !in s.buffer
  {
  }

  /**
   * When buffering completes without raising, every buffered entry is either
   * the normalised value of the last non-ignored item with that key or, for
   * keys no item mentions, the entry that was there before.
   */
  lemma {:induction false} BufferItemsStores(buffer: map<string, Json>, ignoreKeys: Option<seq<string>>,
                                             items: seq<(string, Value)>, i: nat)
    requires i < |items| && !Ignored(ignoreKeys, items[i].0)
    requires !BufferItems(buffer, ignoreKeys, items).raised
    requires forall j :: i < j < |items| ==> items[j].0 != items[i].0
    ensures Format(items[i].1).Ok?
    ensures var b := BufferItems(buffer, ignoreKeys, items).buffer;
      Prefix + items[i].0 in b && b[Prefix + items[i].0] == Format(items[i].1).value
    decreases |items|
  {
    if i == 0 {
      var b0 := buffer[Prefix + items[0].0 := Format(items[0].1).value];
      BufferItemsUntouched(b0, ignoreKeys, items[1..], items[0].0);
    } else {
      if Ignored(ignoreKeys, items[0].0) {
        BufferItemsStores(buffer, ignoreKeys, items[1..], i - 1);
      } else {
        BufferItemsStores(buffer[Prefix + items[0].0 := Format(items[0].1).value], ignoreKeys, items[1..], i - 1);
      }
    }
  }

  /** Entries for keys that no item mentions are left as they were. */
  lemma {:induction false} BufferItemsUntouched(buffer: map<string, Json>, ignoreKeys: Option<seq<string>>,
                                                items: seq<(string, Value)>, key: string)
    requires forall j :: 0 <= j < |items| ==> items[j].0 != key
    ensures var b := BufferItems(buffer, ignoreKeys, items).buffer;
      (Prefix + key in b <==> Prefix + key in buffer) &&
      (Prefix + key in buffer ==> b[Prefix + key] == buffer[Prefix + key])
    decreases |items|
  {
    if items != [] {
      PrefixInjective(items[0].0, key);
      forall j | 0 <= j < |items| - 1 ensures items[1..][j].0 != key {
        assert items[1..][j] == items[j + 1];
      }
      if Ignored(ignoreKeys, items[0].0) {
        BufferItemsUntouched(buffer, ignoreKeys, items[1..], key);
      } else if Format(items[0].1).Ok? {
        BufferItemsUntouched(buffer[Prefix + items[0].0 := Format(items[0].1).value], ignoreKeys, items[1..], key);
      }
    }
  }

  /** Buffering the same key twice keeps the later value. */
  lemma LaterInsertOverwrites(buffer: map<string, Json>, ignoreKeys: Option<seq<string>>, key: string, first: Value, second: Value)
    requires !Ignored(ignoreKeys, key)
    requires Format(first).Ok? && Format(second).Ok?
    ensures var b := BufferItems(buffer, ignoreKeys, [(key, first), (key, second)]);
      !b.raised && b.buffer == buffer[Prefix + key := Format(second).value]
  {
    var items := [(key, first), (key, second)];
    var b1 := buffer[Prefix + key := Format(first).value];
    assert BufferItems(buffer, ignoreKeys, items) == BufferItems(b1, ignoreKeys, items[1..]);
    assert items[1..] == [(key, second)];
    var b2 := b1[Prefix + key := Format(second).value];
    assert BufferItems(b1, ignoreKeys, items[1..]) == BufferItems(b2, ignoreKeys, items[1..][1..]);
    assert items[1..][1..] == [];
    assert b2 == buffer[Prefix + key := Format(second).value];
  }

  /** A disabled logger is inert: logging and flushing change nothing and call nothing. */
  lemma DisabledIsInert(s: LoggerState, ignoreKeys: Option<seq<string>>, logInterval: int,
                        items: seq<(string, Value)>, force: bool, now: int, ok: bool)
    requires !s.enabled
    ensures Log(s, ignoreKeys, logInterval, items, now, ok) == LogOutcome(s, false)
    ensures Flush(s, logInterval, force, now, ok) == s
    ensures !FlushAttempted(s, logInterval, force, now)
  {
  }

  /** Once disabled, no later sequence of flushes changes anything. */
  lemma {:induction false} DisabledStaysDisabled(s: LoggerState, logInterval: int, calls: seq<FlushCall>)
    requires !s.enabled
    ensures RunFlushes(s, logInterval, calls) == s
    decreases |calls|
  {
    if calls != [] {
      DisabledStaysDisabled(s, logInterval, calls[1..]);
    }
  }

  /**
   * Failed calls disable the logger once as many of them as the budget holds
   * have been made, so three forced failures always do.
   */
  lemma {:induction false} ForcedFailuresDisable(s: LoggerState, ignoreKeys: Option<seq<string>>, logInterval: int, calls: seq<FlushCall>)
    requires ValidState(s, ignoreKeys)
    requires |calls| >= s.allowedFailsLeft
    requires forall i :: 0 <= i < |calls| ==> calls[i].force && !calls[i].ok
    ensures !RunFlushes(s, logInterval, calls).enabled
    decreases |calls|
  {
    if !s.enabled {
      DisabledStaysDisabled(s, logInterval, calls);
    } else {
      var t := Flush(s, logInterval, calls[0].force, calls[0].now, calls[0].ok);
      FlushKeepsValid(s, ignoreKeys, logInterval, calls[0].force, calls[0].now, calls[0].ok);
      assert forall i :: 0 <= i < |calls| - 1 ==> calls[1..][i] == calls[i + 1];
      ForcedFailuresDisable(t, ignoreKeys, logInterval, calls[1..]);
    }
  }

  /** From any reachable state, three forced failed calls in a row disable the logger. */
  lemma ThreeForcedFailuresDisable(s: LoggerState, ignoreKeys: Option<seq<string>>, logInterval: int, calls: seq<FlushCall>)
    requires ValidState(s, ignoreKeys)
    requires |calls| >= 3
    requires forall i :: 0 <= i < |calls| ==> calls[i].force && !calls[i].ok
    ensures !RunFlushes(s, logInterval, calls).enabled
  {
    ForcedFailuresDisable(s, ignoreKeys, logInterval, calls);
  }

  /**
   * Failed calls that find the flush due, forced or not, disable the logger
   * once as many of them as the budget holds have been made. A failure leaves
   * the last-logged time alone, so each call is due against the time of the
   * last success before the run.
   */
  lemma {:induction false} FailedCallsDisable(s: LoggerState, ignoreKeys: Option<seq<string>>, logInterval: int, calls: seq<FlushCall>)
    requires ValidState(s, ignoreKeys)
    requires |calls| >= s.allowedFailsLeft
    requires forall i :: 0 <= i < |calls| ==>
      !calls[i].ok && (calls[i].force || calls[i].now - s.timeLastLogged > logInterval)
    ensures !RunFlushes(s, logInterval, calls).enabled
    decreases |calls|
  {
    if !s.enabled {
      DisabledStaysDisabled(s, logInterval, calls);
    } else {
      var t := Flush(s, logInterval, calls[0].force, calls[0].now, calls[0].ok);
      FlushKeepsValid(s, ignoreKeys, logInterval, calls[0].force, calls[0].now, calls[0].ok);
      assert t.timeLastLogged == s.timeLastLogged && t.allowedFailsLeft == s.allowedFailsLeft - 1;
      assert forall i :: 0 <= i < |calls| - 1 ==> calls[1..][i] == calls[i + 1];
      FailedCallsDisable(t, ignoreKeys, logInterval, calls[1..]);
    }
  }

  /** From any reachable state, three failed calls that each find the flush due disable the logger. */
  lemma ThreeFailedCallsDisable(s: LoggerState, ignoreKeys: Option<seq<string>>, logInterval: int, calls: seq<FlushCall>)
    requires ValidState(s, ignoreKeys)
    requires |calls| >= 3
    requires forall i :: 0 <= i < |calls| ==>
      !calls[i].ok && (calls[i].force || calls[i].now - s.timeLastLogged > logInterval)
    ensures !RunFlushes(s, logInterval, calls).enabled
  {
    FailedCallsDisable(s, ignoreKeys, logInterval, calls);
  }

  /** A logger in a valid state keeps its invariant through any sequence of flushes. */
  lemma {:induction false} RunKeepsValid(s: LoggerState, ignoreKeys: Option<seq<string>>, logInterval: int, calls: seq<FlushCall>)
    requires ValidState(s, ignoreKeys)
    ensures ValidState(RunFlushes(s, logInterval, calls), ignoreKeys)
    decreases |calls|
  {
    if calls != [] {
      FlushKeepsValid(s, ignoreKeys, logInterval, calls[0].force, calls[0].now, calls[0].ok);
      RunKeepsValid(Flush(s, logInterval, calls[0].force, calls[0].now, calls[0].ok), ignoreKeys, logInterval, calls[1..]);
    }
  }

  /** The progress metrics are strings, which always normalise: logging them never raises. */
  lemma ProgressNeverRaises(s: LoggerState, ignoreKeys: Option<seq<string>>, logInterval: int,
                            items: seq<(string, Value)>, now: int, ok: bool)
    requires forall i :: 0 <= i < |items| ==> items[i].1.Str?
    ensures !Log(s, ignoreKeys, logInterval, items, now, ok).raised
  {
    StringsNeverRaise(s.buffer, ignoreKeys, items);
  }

  lemma {:induction false} StringsNeverRaise(buffer: map<string, Json>, ignoreKeys: Option<seq<string>>, items: seq<(string, Value)>)
    requires forall i :: 0 <= i < |items| ==> items[i].1.Str?
    ensures !BufferItems(buffer, ignoreKeys, items).raised
    decreases |items|
  {
    if items != [] {
      assert forall i :: 0 <= i < |items| - 1 ==> items[1..][i] == items[i + 1];
      if Ignored(ignoreKeys, items[0].0) {
        StringsNeverRaise(buffer, ignoreKeys, items[1..]);
      } else {
        StringsNeverRaise(buffer[Prefix + items[0].0 := Format(items[0].1).value], ignoreKeys, items[1..]);
      }
    }
  }
}
