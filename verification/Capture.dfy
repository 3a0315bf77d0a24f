/** The capture library: the static variables of io_monitor.c as an object, fed one call at a time. */
module Capture {
  import opened Text
  import opened Bits
  import opened Domains
  import opened Records
  import opened Stages
  import opened Gate
  import opened Sampling
  import opened Sender

  /**
   * What getenv finds, numbers already read by atol and atof. None stands for an unset variable and,
   * for the sampling variables, for an empty one. The elapsed threshold is in microseconds.
   */
  datatype Environment = Environment(domains: Option<string>, startOnOpen: Option<string>, startOnElapsed: Option<int>,
                                     countFrequency: Option<int>, timeFrequency: Option<int>, timeDuration: Option<int>)

  /** A long read as unsigned long. */
  function AsUnsignedLong(x: int): nat {
    x % ULONG_RANGE
  }

  /** An unsigned long stored in an int. */
  function ToInt32(x: int): int {
    var low := x % 0x1_0000_0000;
    if low < 0x8000_0000 then low else low - 0x1_0000_0000
  }

  const LEAST_THRESHOLD := 100

  /** The settings an environment asks for. */
  function Configure(env: Environment): Settings {
    Settings(
      if env.domains.Some? then MaskOf(env.domains.value) else 0,
      env.startOnOpen,
      if env.startOnOpen.None? && env.startOnElapsed.Some? && env.startOnElapsed.value > LEAST_THRESHOLD
      then env.startOnElapsed else None,
      if env.countFrequency.Some? && AsUnsignedLong(env.countFrequency.value) > 0
      then Some(ToInt32(AsUnsignedLong(env.countFrequency.value))) else None,
      if env.timeFrequency.Some? && env.timeDuration.Some?
         && AsUnsignedLong(env.timeFrequency.value) > 0 && AsUnsignedLong(env.timeDuration.value) > 0
      then Some(Window(AsUnsignedLong(env.timeDuration.value), AsUnsignedLong(env.timeFrequency.value))) else None)
  }

  /** Capture is told to wait by START_ON_OPEN, and otherwise by a START_ON_ELAPSED of more than 100 microseconds. */
  lemma StartSettings(env: Environment)
    ensures Configure(env).startOnOpen == env.startOnOpen
    ensures forall t :: Configure(env).threshold == Some(t) <==>
              env.startOnOpen == None && env.startOnElapsed == Some(t) && t > 100
  {
  }

  /** Without a list nothing is captured; a bit is captured when ALL is listed, or its domain is. */
  lemma DomainSettings(env: Environment, i: nat)
    requires i < 32
    ensures Has(Configure(env).mask, i) <==>
      env.domains.Some? && Wanted(Tokens(env.domains.value, ","), i)
  {
    hide Has, Bit, MaskOfTokens, Wanted, Tokens;
    if env.domains.Some? {
      MaskBits(Tokens(env.domains.value, ","), i);
    }
    HasConstant(i);
  }

  /** Sampling is on exactly when its variables hold numbers that are not 0 as unsigned longs. */
  lemma SamplingSettings(env: Environment)
    ensures var n := env.countFrequency;
            match Configure(env).every
            case None => n.None? || n.value % 0x1_0000_0000_0000_0000 == 0
            case Some(k) =>
              && n.Some? && n.value % 0x1_0000_0000_0000_0000 != 0
              && -0x8000_0000 <= k < 0x8000_0000 && (k - n.value) % 0x1_0000_0000 == 0
    ensures var f, d := env.timeFrequency, env.timeDuration;
            match Configure(env).window
            case None => f.None? || d.None? || f.value % 0x1_0000_0000_0000_0000 == 0
                      || d.value % 0x1_0000_0000_0000_0000 == 0
            case Some(w) =>
              && f.Some? && 0 < w.frequency < 0x1_0000_0000_0000_0000
              && (w.frequency - f.value) % 0x1_0000_0000_0000_0000 == 0
              && d.Some? && 0 < w.duration < 0x1_0000_0000_0000_0000
              && (w.duration - d.value) % 0x1_0000_0000_0000_0000 == 0
  {
  }

  /** The state (g, c, queue) is what the calls seen so far make of the initial one. */
  ghost predicate Consistent(cfg: Settings, seen: seq<Event>, g: Gate, c: Counters, queue: seq<Record>) {
    && g == After(cfg, Closed(cfg), seen)
    && c == SendAll(NO_SENDS, Passed(cfg, Closed(cfg), seen))
    && queue == Delivered(NO_SENDS, Passed(cfg, Closed(cfg), seen))
  }

  lemma ConsistentAtStart(cfg: Settings)
    ensures Consistent(cfg, [], Closed(cfg), NO_SENDS, [])
  {
  }

  lemma ConsistentStep(cfg: Settings, seen: seq<Event>, g: Gate, c: Counters, queue: seq<Record>, e: Event)
    requires Consistent(cfg, seen, g, c, queue)
    ensures var (h, pass) := Offer(cfg, g, e);
            if pass then
              Consistent(cfg, seen + [e], h, Send(c, e), if Accepted(c, e) then queue + [RecordOf(e)] else queue)
            else Consistent(cfg, seen + [e], h, c, queue)
  {
    hide After, Passed, SendAll, Delivered, Send, Accepted, Offer;
    OneMore(cfg, Closed(cfg), seen, e);
    SendOneMore(NO_SENDS, Passed(cfg, Closed(cfg), seen), e);
  }

  /** initialize_monitor() and load_library_functions() */
  method ReadEnvironment(env: Environment) returns (cfg: Settings)
    ensures cfg == Configure(env)
  {
    hide MaskOf, AsUnsignedLong, ToInt32;
    var domainBitFlags: bv32 := 0;
    if env.domains.Some? {
      if env.domains.value == EVERYTHING {
        domainBitFlags := ALL_BITS;
        AllAlone();
      } else {
        domainBitFlags := DomainListToBitMask(env.domains.value);
      }
    }
    var every := None;
    if env.countFrequency.Some? {
      var frequency := AsUnsignedLong(env.countFrequency.value);
      if frequency > 0 {
        every := Some(ToInt32(frequency));
      }
    }
    var window := None;
    if env.timeFrequency.Some? && env.timeDuration.Some? {
      var frequency := AsUnsignedLong(env.timeFrequency.value);
      var duration := AsUnsignedLong(env.timeDuration.value);
      if frequency > 0 && duration > 0 {
        window := Some(Window(duration, frequency));
      }
    }
    var threshold := None;
    if env.startOnOpen.None? && env.startOnElapsed.Some? {
      if env.startOnElapsed.value > LEAST_THRESHOLD {
        threshold := env.startOnElapsed;
      }
    }
    cfg := Settings(domainBitFlags, env.startOnOpen, threshold, every, window);
  }

  class Monitor {
    const settings: Settings

    var paused: bool
    var countInterceptsSinceLastReport: int
    var withinTimeBasedSample: bool
    var startTimeBasedSample: nat

    var haveKey: bool
    var haveQueue: bool
    var failedIpcSends: nat
    var ipcRetries: nat
    var ipcRetryWaitLostTime: nat
    var ipcRecords: nat

    ghost var seen: seq<Event>     // every call intercepted so far
    ghost var queue: seq<Record>   // every record msgsnd took

    ghost function Filter(): Gate
      reads this
    {
      Gate(paused, countInterceptsSinceLastReport, Clock(withinTimeBasedSample, startTimeBasedSample))
    }

    ghost function Counts(): Counters
      reads this
    {
      Counters(haveKey, haveQueue, failedIpcSends, ipcRetries, ipcRetryWaitLostTime, ipcRecords)
    }

    ghost predicate Valid()
      reads this
    {
      Consistent(settings, seen, Filter(), Counts(), queue)
    }

    constructor (env: Environment)
      ensures Valid() && seen == [] && settings == Configure(env)
    {
      hide MaskOf, AsUnsignedLong, ToInt32, Consistent;
      var cfg := ReadEnvironment(env);
      settings := cfg;
      paused := cfg.startOnOpen.Some? || cfg.threshold.Some?;
      countInterceptsSinceLastReport := 0;
      withinTimeBasedSample, startTimeBasedSample := false, 0;
      haveKey, haveQueue := false, false;
      failedIpcSends, ipcRetries, ipcRetryWaitLostTime, ipcRecords := 0, 0, 0, 0;
      seen, queue := [], [];
      new;
      ConsistentAtStart(settings);
    }

    /** One intercepted call. The final state is pinned down by Valid() and the longer history. */
    method Record(e: Event)
      requires Valid() && e.time > 0
      modifies this
      ensures Valid() && seen == old(seen) + [e]
    {
      hide Consistent, Accepted, Offer, Backoff, TimesFull, TurnedAway;
      ghost var c := Counts();
      ConsistentStep(settings, seen, Filter(), c, queue, e);
      var pass := Passes(e);
      seen := seen + [e];
      if pass {
        var rc := SendMsgQueue(e);
        if rc != 0 {
          failedIpcSends := failedIpcSends + 1;
        } else {
          ipcRecords := ipcRecords + 1;
        }
        assert Counts() == Send(c, e);
      }
    }

    /** record() up to where it builds the message: false where the source returns early. */
    method Passes(e: Event) returns (pass: bool)
      requires e.time > 0
      modifies this`paused, this`countInterceptsSinceLastReport, this`withinTimeBasedSample, this`startTimeBasedSample
      ensures (Filter(), pass) == Offer(settings, old(Filter()), e)
    {
      hide Has, Contains, CountStep, TimeStep;
      if -1 < e.fd < 3 && e.dom != START_STOP {
        return false;
      }
      if !Has(settings.mask, e.dom) {
        return false;
      }
      if e.op == OPEN {
        if e.s1 == "." {
          return false;
        }
        if e.s1 == ".." {
          return false;
        }
        if paused && settings.startOnOpen.Some? && Contains(e.s1, settings.startOnOpen.value) {
          paused := false;
        }
      }
      if paused && settings.threshold.Some? && e.elapsed > settings.threshold.value {
        paused := false;
      }
      if paused {
        return false;
      }
      pass := SampleByCount();
      if !pass {
        return false;
      }
      pass := SampleByTime(e.time);
    }

    method SampleByCount() returns (pass: bool)
      modifies this`countInterceptsSinceLastReport
      ensures (countInterceptsSinceLastReport, pass) == CountStep(settings.every, old(countInterceptsSinceLastReport))
    {
      if settings.every.Some? {
        countInterceptsSinceLastReport := countInterceptsSinceLastReport + 1;
        if countInterceptsSinceLastReport < settings.every.value {
          return false;
        }
        countInterceptsSinceLastReport := 0;
      }
      return true;
    }

    method SampleByTime(timestamp: nat) returns (pass: bool)
      requires timestamp > 0
      modifies this`withinTimeBasedSample, this`startTimeBasedSample
      ensures (Filter().clock, pass) == TimeStep(settings.window, old(Filter()).clock, timestamp)
    {
      if settings.window.Some? {
        if startTimeBasedSample == 0 {
          startTimeBasedSample := timestamp;
          withinTimeBasedSample := true;
        } else {
          if withinTimeBasedSample {
            if timestamp >= Sum(startTimeBasedSample, settings.window.value.duration) {
              withinTimeBasedSample := false;
            }
          } else {
            if timestamp >= Sum(startTimeBasedSample, settings.window.value.frequency) {
              withinTimeBasedSample := true;
              startTimeBasedSample := timestamp;
            }
          }
          if !withinTimeBasedSample {
            return false;
          }
        }
      }
      return true;
    }

    /**
     * send_msg_queue(). The source falls off its end after five EAGAINs, which leaves the result of
     * the call undefined; here it returns the last nonzero r, as it is meant to.
     */
    method SendMsgQueue(e: Event) returns (r: int)
      modifies this`haveKey, this`haveQueue, this`ipcRetries, this`ipcRetryWaitLostTime, this`queue
      ensures r == 0 <==> Accepted(old(Counts()), e)
      ensures haveKey == Connect(old(Counts()), e).haveKey && haveQueue == Connect(old(Counts()), e).haveQueue
      ensures ipcRetries == old(ipcRetries) + TimesFull(old(Counts()), e)
      ensures ipcRetryWaitLostTime == old(ipcRetryWaitLostTime) + Backoff(TimesFull(old(Counts()), e))
      ensures queue == if r == 0 then old(queue) + [RecordOf(e)] else old(queue)
      ensures forall n: nat | TurnedAway(e, n) ::
        ipcRetryWaitLostTime == old(ipcRetryWaitLostTime)
          + if haveQueue then [0, 1024, 3072, 7168, 15360, 31744][n] else 0
    {
      hide TurnedAway;
      SleptFor(e);
      if !haveKey {
        haveKey := e.keyFound;
        if haveKey {
          haveQueue := e.queueFound;
        }
      }
      if !haveQueue {
        return -1;
      }
      var retries := 0;
      r := -1;
      while retries < MAX_TRIES
        invariant 0 <= retries <= MAX_TRIES
        invariant forall i | 0 <= i < retries :: e.answers[i].Full?
        invariant ipcRetries == old(ipcRetries) + retries
        invariant ipcRetryWaitLostTime == old(ipcRetryWaitLostTime) + Backoff(retries)
        invariant queue == old(queue) && r == -1
        invariant haveKey == Connect(old(Counts()), e).haveKey && haveQueue == Connect(old(Counts()), e).haveQueue
      {
        var answer := e.answers[retries];
        r := if answer.Taken? then 0 else -1;
        if r != 0 && answer.Full? {
          retries := retries + 1;
          ipcRetries := ipcRetries + 1;
          ipcRetryWaitLostTime := ipcRetryWaitLostTime + 512 * Pow2(retries);
        } else {
          assert FullTries(e.answers) == retries;
          if r == 0 {
            queue := queue + [RecordOf(e)];
          }
          return r;
        }
      }
      assert FullTries(e.answers) == MAX_TRIES;
    }
  }

  /**
   * Main result: for every environment and every run, the records on the queue are the accepted ones
   * among the events that pass, and the counters account for all of those events; unless the sums of time
   * sampling wrap, those are the events the four stages keep.
   */
  lemma RunAccounted(env: Environment, m: Monitor)
    requires m.Valid() && m.settings == Configure(env) && Dated(m.seen)
    ensures var cfg := Configure(env);
            var passed := Passed(cfg, Closed(cfg), m.seen);
            && m.queue == Delivered(NO_SENDS, passed)
            && m.ipcRecords + m.failedIpcSends == |passed|
            && ((cfg.window.Some? ==> NoWrap(cfg.window.value, m.seen)) ==> passed == Kept(cfg, m.seen))
    ensures m.ipcRecords == |m.queue|
    ensures m.ipcRetries <= MAX_TRIES * (m.ipcRecords + m.failedIpcSends)
    ensures 1024 * m.ipcRetries <= m.ipcRetryWaitLostTime && 5 * m.ipcRetryWaitLostTime <= 31744 * m.ipcRetries
  {
    hide Configure, NoWrap, Passed, Kept;
    var cfg := Configure(env);
    if cfg.window.Some? ==> NoWrap(cfg.window.value, m.seen) {
      PassedAreKept(cfg, m.seen);
    }
    Accounting(Passed(cfg, Closed(cfg), m.seen));
  }

  /**
   * The environment may ask for sums that wrap: a frequency of -1 is the largest unsigned long. Of calls in the
   * seconds 10, 11, 12 and 12 a window of two seconds then takes three seconds, where two are allowed.
   */
  lemma NegativeFrequency(list: string, d: Domain)
    requires Has(MaskOf(list), d)
    ensures var cfg := Configure(Environment(Some(list), None, None, None, Some(-1), Some(2)));
            var w := Window(2, ULONG_RANGE - 1);
            var passed := Passed(cfg, Closed(cfg), Filled(d, w, 10));
            && cfg == Timing(MaskOf(list), w)
            && Filled(d, w, 10) == [CallAt(d, 10), CallAt(d, 11), CallAt(d, 12), CallAt(d, 12)]
            && passed == [CallAt(d, 10), CallAt(d, 11), CallAt(d, 12)]
            && !WithinBudget(w, passed)
  {
    hide Has, MaskOf, Passed, Timed, Timing, WithinBudget, Filled, CallsFrom, Configure, Admitted;
    var w := Window(2, ULONG_RANGE - 1);
    var es := Filled(d, w, 10);
    FourCalls(d, w);
    SamplingAsked(list);
    FilledFits(MaskOf(list), d, w, 10);
    OnlyTimed(MaskOf(list), w, es);
    FilledPasses(d, w, 10);
    BudgetBroken(MaskOf(list), d, w, 10);
  }

  lemma SamplingAsked(list: string)
    ensures Configure(Environment(Some(list), None, None, None, Some(-1), Some(2)))
         == Timing(MaskOf(list), Window(2, ULONG_RANGE - 1))
  {
    hide MaskOf;
  }

  lemma FourCalls(d: Domain, w: Window)
    requires w.duration == 2
    ensures Filled(d, w, 10) == [CallAt(d, 10), CallAt(d, 11), CallAt(d, 12), CallAt(d, 12)]
    ensures CallsFrom(d, 10, 3) == [CallAt(d, 10), CallAt(d, 11), CallAt(d, 12)]
  {
    hide CallsFrom, CallAt;
    CallsAt(d, 10, 2);
    CallsAt(d, 10, 3);
  }
}
