/** The fused filter of record(): one step over its static variables, and what whole runs of it keep. */
module Gate {
  import opened Text
  import opened Bits
  import opened Domains
  import opened Records
  import opened Stages

  /** Time sampling: `start == 0` means that no window was opened yet. */
  datatype Clock = Clock(within: bool, start: nat)

  datatype Gate = Gate(paused: bool, count: int, clock: Clock)

  function Closed(cfg: Settings): Gate {
    Gate(StartsPaused(cfg), 0, Clock(false, 0))
  }

  function CountStep(every: Option<int>, count: int): (r: (int, bool)) {
    if every.None? then (count, true)
    else if count + 1 < every.value then (count + 1, false)
    else (0, true)
  }

  /** Addition of unsigned longs. */
  function Sum(a: nat, b: nat): (r: nat)
    ensures a + b < ULONG_RANGE ==> r == a + b
    ensures ULONG_RANGE <= a + b < 2 * ULONG_RANGE ==> r == a + b - ULONG_RANGE
  {
    (a + b) % ULONG_RANGE
  }

  function TimeStep(window: Option<Window>, c: Clock, now: nat): (r: (Clock, bool)) {
    if window.None? then (c, true)
    else if c.start == 0 then (Clock(true, now), true)
    else if c.within then
      var on := now < Sum(c.start, window.value.duration);
      (Clock(on, c.start), on)
    else if now >= Sum(c.start, window.value.frequency) then (Clock(true, now), true)
    else (c, false)
  }

  /** One call of record(), up to the point where the message would be built. */
  function Offer(cfg: Settings, g: Gate, e: Event): (Gate, bool) {
    if !Admitted(cfg.mask, e) then (g, false)
    else if g.paused && !Triggers(cfg, e) then (g, false)
    else
      var (count, counted) := CountStep(cfg.every, g.count);
      if !counted then (Gate(false, count, g.clock), false)
      else
        var (clock, timed) := TimeStep(cfg.window, g.clock, e.time);
        (Gate(false, count, clock), timed)
  }

  function After(cfg: Settings, g: Gate, es: seq<Event>): Gate
    decreases es
  {
    if es == [] then g else After(cfg, Offer(cfg, g, es[0]).0, es[1..])
  }

  function Passed(cfg: Settings, g: Gate, es: seq<Event>): seq<Event>
    decreases es
  {
    if es == [] then []
    else
      var (h, pass) := Offer(cfg, g, es[0]);
      if pass then [es[0]] + Passed(cfg, h, es[1..]) else Passed(cfg, h, es[1..])
  }

  lemma {:induction false} OneMore(cfg: Settings, g: Gate, es: seq<Event>, e: Event)
    ensures After(cfg, g, es + [e]) == Offer(cfg, After(cfg, g, es), e).0
    ensures Passed(cfg, g, es + [e])
         == if Offer(cfg, After(cfg, g, es), e).1 then Passed(cfg, g, es) + [e] else Passed(cfg, g, es)
    decreases es
  {
    hide Offer;
    if es == [] {
      assert [e][1..] == [];
      assert After(cfg, g, [e]) == After(cfg, Offer(cfg, g, e).0, []);
    } else {
      assert (es + [e])[1..] == es[1..] + [e];
      OneMore(cfg, Offer(cfg, g, es[0]).0, es[1..], e);
    }
  }

  // The stages again, each started in the middle of its work.

  function StartedFrom(cfg: Settings, paused: bool, es: seq<Event>): seq<Event> {
    if paused then FromTrigger(cfg, es) else es
  }

  function Counted(every: Option<int>, count: int, es: seq<Event>): seq<Event>
    decreases es
  {
    if es == [] then []
    else
      var (c, pass) := CountStep(every, count);
      if pass then [es[0]] + Counted(every, c, es[1..]) else Counted(every, c, es[1..])
  }

  function Timed(window: Option<Window>, c: Clock, es: seq<Event>): seq<Event>
    decreases es
  {
    if es == [] then []
    else
      var (d, pass) := TimeStep(window, c, es[0].time);
      if pass then [es[0]] + Timed(window, d, es[1..]) else Timed(window, d, es[1..])
  }

  /** The fused step works the stages one after the other, wherever each of them stands. */
  lemma {:induction false} Fused(cfg: Settings, g: Gate, es: seq<Event>)
    ensures Passed(cfg, g, es)
         == Timed(cfg.window, g.clock, Counted(cfg.every, g.count, StartedFrom(cfg, g.paused, Admit(cfg.mask, es))))
    decreases es
  {
    hide Admitted, Triggers, CountStep, TimeStep;
    if es != [] {
      var e, rest := es[0], Admit(cfg.mask, es[1..]);
      var h := Offer(cfg, g, e).0;
      Fused(cfg, h, es[1..]);
      if Admitted(cfg.mask, e) {
        var all := [e] + rest;
        assert Admit(cfg.mask, es) == all && all[1..] == rest;
        if !g.paused || Triggers(cfg, e) {
          assert StartedFrom(cfg, g.paused, all) == all && StartedFrom(cfg, h.paused, rest) == rest;
          var (c, counted) := CountStep(cfg.every, g.count);
          if counted {
            var later := Counted(cfg.every, c, rest);
            assert Counted(cfg.every, g.count, all) == [e] + later;
            assert ([e] + later)[1..] == later;
          }
        }
      }
    }
  }

  /** The counter keeps the last event of every block of k. */
  lemma {:induction false} CounterKeepsEveryKth(k: int, count: int, es: seq<Event>)
    requires 0 <= count && (count < k || (k <= 1 && count == 0))
    ensures Counted(Some(k), count, es)
         == if k < 1 then es
            else if |es| < k - count then [] else [es[k - count - 1]] + EveryKth(k, es[k - count..])
    decreases es
  {
    if es != [] {
      var rest := es[1..];
      if count + 1 < k {
        CounterKeepsEveryKth(k, count + 1, rest);
        if |es| >= k - count {
          assert rest[k - count - 1..] == es[k - count..];
        }
      } else {
        CounterKeepsEveryKth(k, 0, rest);
        if k >= 1 {
          assert rest == es[k - count..];
        }
      }
    }
  }

  lemma {:induction false} EveryKthAt(k: nat, es: seq<Event>)
    requires k >= 1
    ensures |EveryKth(k, es)| * k <= |es| < (|EveryKth(k, es)| + 1) * k
    ensures forall j | 0 <= j < |EveryKth(k, es)| ::
              0 < (j + 1) * k <= |es| && EveryKth(k, es)[j] == es[(j + 1) * k - 1]
  {
    if |es| >= k {
      var rest, later := es[k..], EveryKth(k, es[k..]);
      EveryKthAt(k, rest);
      var all := EveryKth(k, es);
      assert all == [es[k - 1]] + later;
      assert |all| * k == |later| * k + k;
      forall j | 0 <= j < |all|
        ensures 0 < (j + 1) * k <= |es| && all[j] == es[(j + 1) * k - 1]
      {
        OneTimeMore(j, k);
        if j > 0 {
          assert all[j] == later[j - 1] == rest[j * k - 1] == es[j * k + k - 1];
        }
      }
    }
  }

  lemma OneTimeMore(j: nat, k: nat)
    requires k >= 1
    ensures (j + 1) * k == j * k + k > 0
  {
  }

  /** Spelled out: with a frequency k, the events k, 2k, 3k and so on are kept; below 1 all are. */
  lemma CountedAt(k: int, es: seq<Event>)
    ensures var kept := Counted(Some(k), 0, es);
            if k < 1 then kept == es
            else
              && |kept| * k <= |es| < (|kept| + 1) * k
              && forall j | 0 <= j < |kept| :: 0 < (j + 1) * k <= |es| && kept[j] == es[(j + 1) * k - 1]
  {
    hide EveryKth, Counted;
    CounterKeepsEveryKth(k, 0, es);
    if k >= 1 {
      BlocksFromZero(k, es);
      EveryKthAt(k, es);
    }
  }

  /** Every event has a time that an unsigned long holds and that is not taken for "no window yet". */
  predicate Dated(es: seq<Event>) {
    forall e | e in es :: 0 < e.time < ULONG_RANGE
  }

  /** What an open window started at `start` still takes from es, and what follows it. */
  function FromInside(w: Window, start: nat, es: seq<Event>): seq<Event> {
    var n := Before(es, start + w.duration);
    es[..n] + FromOutside(w, start, Drop(es, n + 1))
  }

  function FromOutside(w: Window, start: nat, es: seq<Event>): seq<Event> {
    Flatten(Segments(w, Since(es, start + w.frequency)))
  }

  lemma TimedHead(w: Window, c: Clock, es: seq<Event>)
    ensures Timed(Some(w), c, es)
         == if es == [] then []
            else
              var (d, pass) := TimeStep(Some(w), c, es[0].time);
              if pass then [es[0]] + Timed(Some(w), d, es[1..]) else Timed(Some(w), d, es[1..])
  {
  }

  /** An open window takes what comes before its end; the event that finds it over is lost. */
  lemma {:induction false} TakenInside(w: Window, start: nat, es: seq<Event>)
    requires 0 < start && start + w.duration < ULONG_RANGE
    ensures var n := Before(es, start + w.duration);
            Timed(Some(w), Clock(true, start), es) == es[..n] + Timed(Some(w), Clock(false, start), Drop(es, n + 1))
    decreases es
  {
    hide Sum, Timed, Drop;
    var n := Before(es, start + w.duration);
    TimedHead(w, Clock(true, start), es);
    if es != [] && es[0].time < start + w.duration {
      TakenInside(w, start, es[1..]);
      FirstTaken(es, n, Timed(Some(w), Clock(false, start), Drop(es, n + 1)));
    } else {
      TimedHead(w, Clock(false, start), []);
      NoneTaken(es, Timed(Some(w), Clock(false, start), Drop(es, 1)));
    }
  }

  lemma FirstTaken(es: seq<Event>, n: nat, later: seq<Event>)
    requires 0 < n <= |es|
    ensures es[..n] + later == [es[0]] + (es[1..][..n - 1] + later)
    ensures Drop(es, n + 1) == Drop(es[1..], n)
  {
    assert es[..n] == [es[0]] + es[1..][..n - 1];
  }

  lemma DropAll(es: seq<Event>, n: nat)
    ensures n >= |es| ==> Drop(es, n) == []
    ensures Drop(es, 0) == es
  {
  }

  lemma NoneTaken(es: seq<Event>, later: seq<Event>)
    ensures es[..0] + later == later
    ensures Drop(es, 1) == if es == [] then [] else es[1..]
  {
  }

  /** After a window nothing passes until `frequency` after its start; then the sampler is as good as new. */
  lemma {:induction false} SkippedOutside(w: Window, start: nat, es: seq<Event>)
    requires 0 < start && (es != [] ==> start + w.frequency < ULONG_RANGE)
    ensures Timed(Some(w), Clock(false, start), es) == Timed(Some(w), Clock(false, 0), Since(es, start + w.frequency))
    decreases es
  {
    hide Sum, Timed;
    TimedHead(w, Clock(false, start), es);
    TimedHead(w, Clock(false, 0), es);
    if es != [] {
      var n := Before(es, start + w.frequency);
      if n > 0 {
        SkippedOutside(w, start, es[1..]);
        assert es[n..] == es[1..][n - 1..];
      } else {
        assert es[n..] == es;
      }
    }
  }

  /** One window of a fresh sampler. */
  lemma OneWindow(w: Window, es: seq<Event>)
    requires es != [] && 0 < es[0].time && es[0].time + w.duration < ULONG_RANGE
    requires 1 + Before(es[1..], es[0].time + w.duration) < |es| ==> es[0].time + w.frequency < ULONG_RANGE
    ensures var n := 1 + Before(es[1..], es[0].time + w.duration);
            Timed(Some(w), Clock(false, 0), es)
            == es[..n] + Timed(Some(w), Clock(false, 0), Since(Drop(es, n + 1), es[0].time + w.frequency))
  {
    hide Sum, Since, Drop, Timed;
    var start, rest := es[0].time, es[1..];
    var n := 1 + Before(rest, start + w.duration);
    TimedHead(w, Clock(false, 0), es);
    TakenInside(w, start, rest);
    DropAll(es, n + 1);
    FirstTaken(es, n, Timed(Some(w), Clock(false, start), Drop(es, n + 1)));
    SkippedOutside(w, start, Drop(es, n + 1));
  }

  /** Neither the end of a window nor, once one has ended, the time to open the next goes beyond an unsigned long. */
  predicate NoWrap(w: Window, es: seq<Event>) {
    forall e | e in es :: e.time + w.duration < ULONG_RANGE && e.time + w.frequency < ULONG_RANGE + w.duration
  }

  /** A window that an event of es has closed began early enough for its next start. */
  lemma NextFits(w: Window, start: nat, es: seq<Event>)
    requires NoWrap(w, es)
    ensures Before(es, start + w.duration) < |es| ==> start + w.frequency < ULONG_RANGE
  {
    var n := Before(es, start + w.duration);
    if n < |es| {
      assert es[n] in es;
    }
  }

  lemma {:induction false} FreshWindows(w: Window, es: seq<Event>)
    requires Dated(es) && NoWrap(w, es)
    ensures Timed(Some(w), Clock(false, 0), es) == Flatten(Segments(w, es))
    decreases |es|
  {
    hide Before, Since, Drop, Dated, NoWrap, Timed, Flatten;
    if es == [] {
      TimedHead(w, Clock(false, 0), es);
      NothingLeft(w, 0);
    } else {
      var start, rest := es[0].time, es[1..];
      var n := 1 + Before(rest, start + w.duration);
      var later := Since(Drop(es, n + 1), start + w.frequency);
      OpensInTime(w, es);
      OneWindow(w, es);
      LaterOnes(w, es, n + 1, start + w.frequency);
      FreshWindows(w, later);
      FlattenHead(es[..n], Segments(w, later));
    }
  }

  lemma OpensInTime(w: Window, es: seq<Event>)
    requires es != [] && Dated(es) && NoWrap(w, es)
    ensures 0 < es[0].time && es[0].time + w.duration < ULONG_RANGE
    ensures 1 + Before(es[1..], es[0].time + w.duration) < |es| ==> es[0].time + w.frequency < ULONG_RANGE
  {
    assert es[0] in es;
    assert forall e | e in es[1..] :: e in es;
    NextFits(w, es[0].time, es[1..]);
  }

  lemma LaterOnes(w: Window, es: seq<Event>, n: nat, start: nat)
    requires Dated(es) && NoWrap(w, es)
    ensures var later := Since(Drop(es, n), start); Dated(later) && NoWrap(w, later)
  {
    assert forall e | e in Since(Drop(es, n), start) :: e in es;
  }

  lemma {:induction false} FlattenHead(s: seq<Event>, ss: seq<seq<Event>>)
    ensures Flatten([s] + ss) == s + Flatten(ss)
  {
    assert ([s] + ss)[1..] == ss;
  }

  lemma NothingLeft(w: Window, start: nat)
    ensures Flatten(Segments(w, [])) == FromInside(w, start, []) == FromOutside(w, start, []) == []
  {
  }

  /** The sampler stands where none of its sums wraps, whatever of es it is given. */
  predicate ClockFits(w: Window, c: Clock, es: seq<Event>) {
    && NoWrap(w, es)
    && (c.start > 0 ==> c.start + (if c.within then w.duration else w.frequency) < ULONG_RANGE)
  }

  /** The sampler's flag and start time, read as windows. */
  lemma ClockKeepsWindows(w: Window, c: Clock, es: seq<Event>)
    requires Dated(es) && ClockFits(w, c, es)
    ensures Timed(Some(w), c, es)
         == if c.start == 0 then Flatten(Segments(w, es))
            else if c.within then FromInside(w, c.start, es)
            else FromOutside(w, c.start, es)
  {
    hide Dated, NoWrap, Segments, Flatten, FromOutside, Before, Drop, Timed;
    if c.start == 0 {
      StartsFresh(w, c, es);
      FreshWindows(w, es);
    } else if c.within {
      var n := Before(es, c.start + w.duration);
      TakenInside(w, c.start, es);
      NextFits(w, c.start, es);
      DropAll(es, n + 1);
      Outside(w, c.start, es, n + 1);
    } else {
      DropAll(es, 0);
      Outside(w, c.start, es, 0);
    }
  }

  lemma Outside(w: Window, start: nat, es: seq<Event>, n: nat)
    requires Dated(es) && NoWrap(w, es) && 0 < start && (n < |es| ==> start + w.frequency < ULONG_RANGE)
    ensures Timed(Some(w), Clock(false, start), Drop(es, n)) == FromOutside(w, start, Drop(es, n))
  {
    hide Dated, NoWrap, Segments, Flatten, Since, Drop, Timed;
    DropAll(es, n);
    SkippedOutside(w, start, Drop(es, n));
    LaterOnes(w, es, n, start + w.frequency);
    FreshWindows(w, Since(Drop(es, n), start + w.frequency));
  }

  lemma StartsFresh(w: Window, c: Clock, es: seq<Event>)
    requires c.start == 0
    ensures Timed(Some(w), c, es) == Timed(Some(w), Clock(false, 0), es)
  {
  }

  lemma {:induction false} Unsampled(c: Clock, count: int, es: seq<Event>)
    ensures Timed(None, c, es) == Counted(None, count, es) == es
  {
    if es != [] {
      Unsampled(c, count, es[1..]);
    }
  }

  lemma StagesSelect(cfg: Settings, es: seq<Event>)
    ensures forall e | e in KeepCounted(cfg, KeepStarted(cfg, Admit(cfg.mask, es))) :: e in es
  {
    hide Admit, FromTrigger, EveryKth;
    var a := Admit(cfg.mask, es);
    AdmitSelects(cfg.mask, es);
    FromTriggerSelects(cfg, a);
    if cfg.every.Some? && cfg.every.value >= 1 {
      EveryKthSelects(cfg.every.value, KeepStarted(cfg, a));
    }
  }

  lemma {:induction false} AdmitSelects(mask: bv32, es: seq<Event>)
    ensures forall e :: e in Admit(mask, es) <==> e in es && Admitted(mask, e)
  {
    hide Admitted;
    if es != [] {
      AdmitSelects(mask, es[1..]);
    }
  }

  lemma {:induction false} FromTriggerSelects(cfg: Settings, es: seq<Event>)
    ensures forall e | e in FromTrigger(cfg, es) :: e in es
  {
    hide Triggers;
    if es != [] && !Triggers(cfg, es[0]) {
      FromTriggerSelects(cfg, es[1..]);
    }
  }

  lemma {:induction false} EveryKthSelects(k: int, es: seq<Event>)
    requires k >= 1
    ensures forall e | e in EveryKth(k, es) :: e in es
  {
    if |es| >= k {
      EveryKthSelects(k, es[k..]);
    }
  }

  /**
   * Main result. Whatever the settings and the events, the events that pass the stateful filter from
   * its initial state are those the four list stages keep, as long as no sum of time sampling wraps.
   */
  lemma PassedAreKept(cfg: Settings, es: seq<Event>)
    requires Dated(es) && (cfg.window.Some? ==> NoWrap(cfg.window.value, es))
    ensures Passed(cfg, Closed(cfg), es) == Kept(cfg, es)
  {
    hide KeepStarted, KeepCounted, Segments, Admit, Timed, Flatten;
    PassedTimed(cfg, es);
    StagesSelect(cfg, es);
    var counted := KeepCounted(cfg, KeepStarted(cfg, Admit(cfg.mask, es)));
    if cfg.window.Some? {
      ClockKeepsWindows(cfg.window.value, Clock(false, 0), counted);
    } else {
      Unsampled(Clock(false, 0), 0, counted);
    }
  }

  /** Up to time sampling, which may wrap, the filter and the stages agree in every run. */
  lemma PassedTimed(cfg: Settings, es: seq<Event>)
    ensures Passed(cfg, Closed(cfg), es)
         == Timed(cfg.window, Clock(false, 0), KeepCounted(cfg, KeepStarted(cfg, Admit(cfg.mask, es))))
  {
    hide FromTrigger, EveryKth, Admit, Counted, Timed;
    Fused(cfg, Closed(cfg), es);
    StagesCounted(cfg, es);
  }

  lemma StagesCounted(cfg: Settings, es: seq<Event>)
    ensures Counted(cfg.every, 0, StartedFrom(cfg, StartsPaused(cfg), Admit(cfg.mask, es)))
         == KeepCounted(cfg, KeepStarted(cfg, Admit(cfg.mask, es)))
  {
    hide FromTrigger, EveryKth, Admit, Counted;
    var started := KeepStarted(cfg, Admit(cfg.mask, es));
    if cfg.every.Some? {
      CounterKeepsEveryKth(cfg.every.value, 0, started);
      if cfg.every.value >= 1 {
        BlocksFromZero(cfg.every.value, started);
      }
    } else {
      Unsampled(Clock(false, 0), 0, started);
    }
  }

  lemma BlocksFromZero(k: int, es: seq<Event>)
    requires k >= 1
    ensures EveryKth(k, es) == if |es| < k then [] else [es[k - 1]] + EveryKth(k, es[k..])
  {
  }

  // When the sums do wrap.

  /** Time sampling and nothing else. */
  function Timing(mask: bv32, w: Window): Settings {
    Settings(mask, None, None, None, Some(w))
  }

  predicate UpTo(last: nat, es: seq<Event>) {
    forall e | e in es :: 0 < e.time <= last
  }

  function CallAt(d: Domain, t: nat): Event {
    Event(d, CLOSE, 3, "", 0, t, true, true, ANSWERS)
  }

  lemma {:induction false} AllAdmitted(mask: bv32, es: seq<Event>)
    requires forall e | e in es :: Admitted(mask, e)
    ensures Admit(mask, es) == es
  {
    hide Admitted;
    if es != [] {
      AllAdmitted(mask, es[1..]);
    }
  }

  lemma OnlyTimed(mask: bv32, w: Window, es: seq<Event>)
    requires forall e | e in es :: Admitted(mask, e)
    ensures Passed(Timing(mask, w), Closed(Timing(mask, w)), es) == Timed(Some(w), Clock(false, 0), es)
    ensures Kept(Timing(mask, w), es) == Flatten(Segments(w, es))
  {
    hide Admitted, Flatten, Segments, Admit, Timed;
    AllAdmitted(mask, es);
    PassedTimed(Timing(mask, w), es);
  }

  /** The end of the window wraps and the second event already finds it over. */
  lemma ClosedTooSoon(w: Window, e: Event)
    requires 0 < e.time < ULONG_RANGE && w.duration < ULONG_RANGE <= e.time + w.duration
    ensures Timed(Some(w), Clock(false, 0), [e, e]) == [e] && Flatten(Segments(w, [e, e])) == [e, e]
  {
    hide Timed;
    assert [e, e][1..] == [e] && [e][1..] == [];
    TimedHead(w, Clock(false, 0), [e, e]);
    TimedHead(w, Clock(true, e.time), [e]);
    TimedHead(w, Clock(false, e.time), []);
    assert Before([e], e.time + w.duration) == 1;
    assert [e, e][..2] == [e, e];
    assert Segments(w, [e, e]) == [[e, e]] + Segments(w, []);
    FlattenHead([e, e], []);
  }

  /** The next start wraps, and a second event in the second that closed the window opens another. */
  lemma OpenedTooSoon(w: Window, a: Event, b: Event)
    requires 0 < a.time && b.time == a.time + w.duration < ULONG_RANGE
    requires w.frequency < ULONG_RANGE <= a.time + w.frequency
    ensures Timed(Some(w), Clock(false, 0), [a, b, b]) == [a, b] && Flatten(Segments(w, [a, b, b])) == [a]
  {
    hide Timed;
    assert [a, b, b][1..] == [b, b] && [b, b][1..] == [b] && [b][1..] == [];
    TimedHead(w, Clock(false, 0), [a, b, b]);
    TimedHead(w, Clock(true, a.time), [b, b]);
    TimedHead(w, Clock(false, a.time), [b]);
    TimedHead(w, Clock(true, b.time), []);
    assert Before([b, b], b.time) == 0;
    assert [a, b, b][2..] == [b] && [a, b, b][..1] == [a];
    assert Before([b], a.time + w.frequency) == 1;
    assert Segments(w, [a, b, b]) == [[a]] + Segments(w, []);
    FlattenHead([a], []);
  }

  /**
   * The exact condition: with time sampling on, the filter keeps what the stages keep in every run up to the
   * second `last` exactly when neither the end of a window nor the start after an ended one can wrap by then.
   */
  lemma KeptUpTo(mask: bv32, d: Domain, w: Window, last: nat)
    requires Has(mask, d) && 0 < last < ULONG_RANGE && w.duration < ULONG_RANGE && w.frequency < ULONG_RANGE
    ensures var cfg := Timing(mask, w);
            (forall es | UpTo(last, es) :: Passed(cfg, Closed(cfg), es) == Kept(cfg, es)) <==>
            last + w.duration < ULONG_RANGE && last + w.frequency < ULONG_RANGE + w.duration
  {
    hide Has, Passed, Kept, Flatten, Segments, Timed;
    var cfg := Timing(mask, w);
    if last + w.duration >= ULONG_RANGE {
      var es := [CallAt(d, last), CallAt(d, last)];
      ClosedTooSoon(w, es[0]);
      OnlyTimed(mask, w, es);
      assert UpTo(last, es);
    } else if last + w.frequency >= ULONG_RANGE + w.duration {
      var es := [CallAt(d, last - w.duration), CallAt(d, last), CallAt(d, last)];
      OpenedTooSoon(w, es[0], es[1]);
      OnlyTimed(mask, w, es);
      assert UpTo(last, es);
    } else {
      forall es | UpTo(last, es)
        ensures Passed(cfg, Closed(cfg), es) == Kept(cfg, es)
      {
        PassedAreKept(cfg, es);
      }
    }
  }
}
