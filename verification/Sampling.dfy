/** What time sampling promises over a whole run when the clock never runs backwards. */
module Sampling {
  import opened Text
  import opened Bits
  import opened Domains
  import opened Stages
  import opened Gate

  predicate Ordered(es: seq<Event>) {
    forall i, j | 0 <= i < j < |es| :: es[i].time <= es[j].time
  }

  function Max(a: nat, b: nat): nat {
    if a < b then b else a
  }

  /** The least distance between two window starts. */
  function Period(w: Window): nat {
    Max(w.frequency, w.duration)
  }

  /** A window takes only what comes within `duration` of its own first event. */
  predicate Fits(w: Window, s: seq<Event>) {
    s != [] && forall i | 0 <= i < |s| :: s[0].time <= s[i].time < s[0].time + w.duration
  }

  predicate Spaced(w: Window, ss: seq<seq<Event>>) {
    && (forall k | 0 <= k < |ss| :: Fits(w, ss[k]))
    && (forall k | 0 < k < |ss| :: ss[k][0].time >= ss[k - 1][0].time + Period(w))
  }

  lemma TailOrdered(es: seq<Event>, n: nat)
    requires Ordered(es) && n <= |es|
    ensures Ordered(es[n..])
  {
  }

  /** The first event from `start` on, after dropping n, is one of those after n and not before `start`. */
  lemma SinceHead(es: seq<Event>, n: nat, start: nat)
    requires Ordered(es)
    ensures var later := Since(Drop(es, n), start);
            Ordered(later) && (later != [] ==> n < |es| && later[0].time >= start && later[0].time >= es[n].time)
  {
    var rest := Drop(es, n);
    if rest != [] {
      TailOrdered(es, n);
      TailOrdered(rest, Before(rest, start));
      assert rest[0] == es[n];
    }
  }

  /** What is left once a window has closed starts at least one period after the window did. */
  lemma NextStart(w: Window, es: seq<Event>, later: seq<Event>)
    requires Ordered(es) && es != []
    requires var n := 1 + Before(es[1..], es[0].time + w.duration);
             later == Since(Drop(es, n + 1), es[0].time + w.frequency)
    ensures Ordered(later)
    ensures later != [] ==> later[0].time >= es[0].time + Period(w)
  {
    hide Since, Drop;
    var n := 1 + Before(es[1..], es[0].time + w.duration);
    SinceHead(es, n + 1, es[0].time + w.frequency);
    if later != [] {
      assert es[n] == es[1..][n - 1];
      assert es[n + 1].time >= es[n].time >= es[0].time + w.duration;
    }
  }

  lemma FirstWindow(w: Window, es: seq<Event>, n: nat)
    requires Ordered(es) && w.duration > 0 && es != []
    requires n == Before(es[1..], es[0].time + w.duration)
    ensures Fits(w, es[..n + 1])
  {
    forall i | 0 <= i < n + 1
      ensures es[0].time <= es[i].time < es[0].time + w.duration
    {
      if i > 0 {
        assert es[i] == es[1..][i - 1];
      }
    }
  }

  /** Every window is at most `duration` long, and windows start at least one period apart. */
  lemma {:induction false} WindowsAreSpaced(w: Window, es: seq<Event>)
    requires Ordered(es) && w.duration > 0
    ensures Spaced(w, Segments(w, es))
    ensures es != [] ==> Segments(w, es) != [] && Segments(w, es)[0][0] == es[0]
    decreases |es|
  {
    hide Fits, Before, Since, Drop, Period, Ordered;
    if es != [] {
      var n := Before(es[1..], es[0].time + w.duration);
      var later := Since(Drop(es, n + 2), es[0].time + w.frequency);
      FirstWindow(w, es, n);
      NextStart(w, es, later);
      WindowsAreSpaced(w, later);
      var ss := Segments(w, later);
      assert Segments(w, es) == [es[..n + 1]] + ss;
      MoreWindows(w, es[..n + 1], ss);
    }
  }

  lemma MoreWindows(w: Window, s: seq<Event>, ss: seq<seq<Event>>)
    requires Fits(w, s) && Spaced(w, ss)
    requires ss != [] ==> ss[0][0].time >= s[0].time + Period(w)
    ensures Spaced(w, [s] + ss)
  {
    var all: seq<seq<Event>> := [s] + ss;
    forall k | 0 < k < |all|
      ensures all[k][0].time >= all[k - 1][0].time + Period(w)
    {
      assert all[k] == ss[k - 1];
      if k > 1 {
        assert all[k - 1] == ss[k - 2];
      }
    }
  }

  function Seconds(es: seq<Event>): set<nat> {
    set i | 0 <= i < |es| :: es[i].time
  }

  lemma {:induction false} SecondsInRange(s: set<nat>, a: nat, n: nat)
    requires forall t | t in s :: a <= t < a + n
    ensures |s| <= n
  {
    if n == 0 {
      assert s == {};
    } else {
      SecondsInRange(s - {a + n - 1}, a, n - 1);
    }
  }

  lemma {:induction false} SecondsOfWindows(w: Window, ss: seq<seq<Event>>)
    requires forall k | 0 <= k < |ss| :: Fits(w, ss[k])
    ensures |Seconds(Flatten(ss))| <= w.duration * |ss|
  {
    if ss != [] {
      var head, tail := ss[0], Flatten(ss[1..]);
      SecondsOfWindows(w, ss[1..]);
      SecondsInRange(Seconds(head), head[0].time, w.duration);
      SecondsOfBoth(head, tail);
      assert w.duration * |ss| == w.duration * |ss[1..]| + w.duration;
    }
  }

  lemma SecondsOfBoth(a: seq<Event>, b: seq<Event>)
    ensures |Seconds(a + b)| <= |Seconds(a)| + |Seconds(b)|
  {
    forall t | t in Seconds(a + b)
      ensures t in Seconds(a) + Seconds(b)
    {
      var i :| 0 <= i < |a + b| && (a + b)[i].time == t;
      if i < |a| {
        assert a[i].time == t;
      } else {
        assert b[i - |a|].time == t;
      }
    }
    Fewer(Seconds(a + b), Seconds(a) + Seconds(b));
  }

  lemma {:induction false} Fewer(s: set<nat>, t: set<nat>)
    requires s <= t
    ensures |s| <= |t|
  {
    assert t == s + (t - s);
  }

  lemma {:induction false} StartsGrow(w: Window, ss: seq<seq<Event>>, k: nat)
    requires Spaced(w, ss) && k < |ss|
    ensures ss[k][0].time >= ss[0][0].time + k * Period(w)
  {
    if k > 0 {
      StartsGrow(w, ss, k - 1);
    }
  }

  lemma {:induction false} Ends(ss: seq<seq<Event>>)
    requires ss != [] && forall k | 0 <= k < |ss| :: ss[k] != []
    ensures var es := Flatten(ss); var last := ss[|ss| - 1];
            es != [] && es[0] == ss[0][0] && es[|es| - 1] == last[|last| - 1]
  {
    if |ss| > 1 {
      Ends(ss[1..]);
    } else {
      assert ss[1..] == [];
    }
  }

  lemma AtLeastOnce(k: nat, period: nat)
    requires k >= 1
    ensures k * period >= period
  {
  }

  lemma Quotient(k: nat, span: nat, period: nat)
    requires period > 0 && k * period <= span
    ensures k <= span / period
  {
    var q := span / period;
    assert (k - q) * period == k * period - q * period < period;
    if k > q {
      AtLeastOnce(k - q, period);
    }
  }

  lemma TimesMore(d: nat, a: nat, b: nat)
    requires a <= b
    ensures d * a <= d * b
  {
  }

  /** The budget: `duration` distinct seconds per period between the first and last event kept, and one window more. */
  predicate WithinBudget(w: Window, kept: seq<Event>)
    requires Period(w) > 0
  {
    kept != [] ==>
      && kept[0].time <= kept[|kept| - 1].time
      && |Seconds(kept)| <= w.duration * (1 + (kept[|kept| - 1].time - kept[0].time) / Period(w))
  }

  lemma SpacedBudget(w: Window, ss: seq<seq<Event>>)
    requires Spaced(w, ss) && w.duration > 0
    ensures WithinBudget(w, Flatten(ss))
  {
    hide Flatten, Seconds;
    if ss == [] {
      assert Flatten(ss) == [] by { NoWindows(); }
    } else {
      var kept := Flatten(ss);
      SecondsOfWindows(w, ss);
      Ends(ss);
      var k := |ss| - 1;
      StartsGrow(w, ss, k);
      assert Fits(w, ss[k]);
      var span := kept[|kept| - 1].time - kept[0].time;
      Quotient(k, span, Period(w));
      TimesMore(w.duration, |ss|, 1 + span / Period(w));
    }
  }

  lemma NoWindows()
    ensures Flatten([]) == []
  {
  }

  lemma HeadFirst(es: seq<Event>, kept: seq<Event>)
    requires es != [] && Ordered(es) && Ordered(kept)
    requires forall e | e in kept :: e in es[1..]
    ensures Ordered([es[0]] + kept)
  {
    forall j | 0 <= j < |kept|
      ensures es[0].time <= kept[j].time
    {
      assert kept[j] in es[1..];
    }
  }

  lemma {:induction false} AdmitKeepsOrder(mask: bv32, es: seq<Event>)
    requires Ordered(es)
    ensures Ordered(Admit(mask, es))
  {
    hide Admitted;
    if es != [] {
      AdmitKeepsOrder(mask, es[1..]);
      AdmitSelects(mask, es[1..]);
      HeadFirst(es, Admit(mask, es[1..]));
    }
  }

  lemma {:induction false} FromTriggerKeepsOrder(cfg: Settings, es: seq<Event>)
    requires Ordered(es)
    ensures Ordered(FromTrigger(cfg, es))
  {
    if es != [] {
      FromTriggerKeepsOrder(cfg, es[1..]);
    }
  }

  lemma {:induction false} EveryKthKeepsOrder(k: int, es: seq<Event>)
    requires k >= 1 && Ordered(es)
    ensures Ordered(EveryKth(k, es))
  {
    if |es| >= k {
      EveryKthKeepsOrder(k, es[k..]);
      EveryKthSelects(k, es[k..]);
      assert es[k - 1..][1..] == es[k..];
      HeadFirst(es[k - 1..], EveryKth(k, es[k..]));
    }
  }

  lemma CountedKeepsOrder(cfg: Settings, es: seq<Event>)
    requires Ordered(es)
    ensures Ordered(KeepCounted(cfg, KeepStarted(cfg, Admit(cfg.mask, es))))
  {
    hide Admit, FromTrigger, EveryKth;
    var admitted := Admit(cfg.mask, es);
    AdmitKeepsOrder(cfg.mask, es);
    FromTriggerKeepsOrder(cfg, admitted);
    if cfg.every.Some? && cfg.every.value >= 1 {
      EveryKthKeepsOrder(cfg.every.value, KeepStarted(cfg, admitted));
    }
  }

  // The windows of a run, spelled out by the places of its events.

  /** A window opens at event `open` and takes all before `shut`, the first event not within `duration` of it. */
  predicate OpenTo(w: Window, es: seq<Event>, open: nat, shut: nat) {
    && open < shut <= |es|
    && (forall i | open < i < shut :: es[i].time < es[open].time + w.duration)
    && (shut < |es| ==> es[shut].time >= es[open].time + w.duration)
  }

  /** The next one opens at the first event after `shut` that comes `frequency` or more after the opening. */
  predicate ShutTo(w: Window, es: seq<Event>, open: nat, shut: nat, next: nat) {
    && open < |es| && next <= |es|
    && (forall i | shut < i < next :: es[i].time < es[open].time + w.frequency)
    && (next < |es| ==> shut < next && es[next].time >= es[open].time + w.frequency)
    && (next == |es| || shut < |es|)
  }

  function NextOpening(es: seq<Event>, opens: seq<nat>, k: nat): nat {
    if k + 1 < |opens| then opens[k + 1] else |es|
  }

  predicate InWindows(w: Window, es: seq<Event>, opens: seq<nat>, shuts: seq<nat>, at: nat) {
    && |opens| == |shuts| && at <= |es|
    && (if opens == [] then at == |es| else opens[0] == at)
    && (forall k | 0 <= k < |opens| :: opens[k] < shuts[k] <= |es|)
    && (forall k | 0 <= k < |opens| ::
          OpenTo(w, es, opens[k], shuts[k]) && ShutTo(w, es, opens[k], shuts[k], NextOpening(es, opens, k)))
  }

  function Slices(es: seq<Event>, opens: seq<nat>, shuts: seq<nat>): seq<Event>
    requires |opens| == |shuts| && forall k | 0 <= k < |opens| :: opens[k] <= shuts[k] <= |es|
  {
    if opens == [] then [] else es[opens[0]..shuts[0]] + Slices(es, opens[1..], shuts[1..])
  }

  lemma WindowFrom(w: Window, es: seq<Event>, at: nat) returns (shut: nat, next: nat)
    requires Dated(es) && NoWrap(w, es) && at < |es|
    ensures at < shut <= |es| && at < next <= |es|
    ensures OpenTo(w, es, at, shut) && ShutTo(w, es, at, shut, next)
    ensures Timed(Some(w), Clock(false, 0), es[at..])
         == es[at..shut] + Timed(Some(w), Clock(false, 0), es[next..])
  {
    hide Timed, NoWrap, Dated, Since, Drop, Before, OpenTo, ShutTo;
    var all := es[at..];
    TailFits(w, es, at);
    OpensInTime(w, all);
    OneWindow(w, all);
    shut := OpenPlaces(w, es, at);
    next := ShutPlaces(w, es, at, shut);
  }

  lemma OpenPlaces(w: Window, es: seq<Event>, at: nat) returns (shut: nat)
    requires at < |es|
    ensures shut == at + 1 + Before(es[at..][1..], es[at].time + w.duration)
    ensures shut <= |es| && OpenTo(w, es, at, shut) && es[at..][..shut - at] == es[at..shut]
  {
    var rest := es[at + 1..];
    assert es[at..][1..] == rest;
    shut := at + 1 + Before(rest, es[at].time + w.duration);
    assert forall i | at < i < |es| :: es[i] == rest[i - at - 1];
  }

  lemma ShutPlaces(w: Window, es: seq<Event>, at: nat, shut: nat) returns (next: nat)
    requires at < shut <= |es|
    ensures at < next <= |es| && ShutTo(w, es, at, shut, next)
    ensures Since(Drop(es[at..], shut - at + 1), es[at].time + w.frequency) == es[next..]
  {
    hide Drop, Since, Before;
    var left, start := Drop(es[at..], shut - at + 1), es[at].time + w.frequency;
    if shut < |es| {
      AfterDrop(es, at, shut - at + 1);
      LaterPlaces(es, shut + 1, left, start);
      next := shut + 1 + Before(left, start);
    } else {
      DropAll(es[at..], shut - at + 1);
      next := |es|;
      SinceNothing(es, start);
    }
  }

  lemma SinceNothing(es: seq<Event>, start: nat)
    ensures Since([], start) == [] == es[|es|..]
  {
  }

  lemma TailFits(w: Window, es: seq<Event>, at: nat)
    requires Dated(es) && NoWrap(w, es) && at <= |es|
    ensures Dated(es[at..]) && NoWrap(w, es[at..])
  {
    assert forall e | e in es[at..] :: e in es;
  }

  lemma AfterDrop(es: seq<Event>, at: nat, n: nat)
    requires at + n <= |es|
    ensures Drop(es[at..], n) == es[at + n..]
  {
  }

  lemma LaterPlaces(es: seq<Event>, at: nat, left: seq<Event>, start: nat)
    requires at <= |es| && left == es[at..]
    ensures var n := Before(left, start);
            && at + n <= |es| && Since(left, start) == es[at + n..]
            && (forall i | at <= i < at + n :: es[i].time < start)
            && (at + n < |es| ==> es[at + n].time >= start)
  {
    var n := Before(left, start);
    assert forall i | at <= i < at + n :: es[i] == left[i - at];
  }

  lemma {:induction false} WindowsFrom(w: Window, es: seq<Event>, at: nat) returns (opens: seq<nat>, shuts: seq<nat>)
    requires Dated(es) && NoWrap(w, es) && at <= |es|
    ensures InWindows(w, es, opens, shuts, at)
    ensures Timed(Some(w), Clock(false, 0), es[at..]) == Slices(es, opens, shuts)
    decreases |es| - at
  {
    hide Timed, NoWrap, Dated, OpenTo, ShutTo;
    opens, shuts := [], [];
    if at == |es| {
      TimedHead(w, Clock(false, 0), es[at..]);
    } else {
      var shut, next := WindowFrom(w, es, at);
      opens, shuts := WindowsFrom(w, es, next);
      OneMoreWindow(w, es, at, shut, next, opens, shuts);
      opens, shuts := [at] + opens, [shut] + shuts;
    }
  }

  lemma OneMoreWindow(w: Window, es: seq<Event>, at: nat, shut: nat, next: nat, opens: seq<nat>, shuts: seq<nat>)
    requires at < shut <= |es| && OpenTo(w, es, at, shut) && ShutTo(w, es, at, shut, next)
    requires InWindows(w, es, opens, shuts, next)
    ensures InWindows(w, es, [at] + opens, [shut] + shuts, at)
    ensures Slices(es, [at] + opens, [shut] + shuts) == es[at..shut] + Slices(es, opens, shuts)
  {
    hide OpenTo, ShutTo;
    var os, ss := [at] + opens, [shut] + shuts;
    assert os[1..] == opens && ss[1..] == shuts;
    forall k | 0 <= k < |os|
      ensures os[k] < ss[k] <= |es| && OpenTo(w, es, os[k], ss[k])
      ensures ShutTo(w, es, os[k], ss[k], NextOpening(es, os, k))
    {
      if k == 0 {
        assert NextOpening(es, os, 0) == next;
      } else {
        assert os[k] == opens[k - 1] && ss[k] == shuts[k - 1];
        assert NextOpening(es, os, k) == NextOpening(es, opens, k - 1);
      }
    }
  }

  /**
   * Main result, spelled out. Of the calls it is given, time sampling passes those of its windows: the first opens
   * at the first call, the call that finds a window over is lost, and so is everything up to the next opening.
   */
  lemma WindowsOfRun(w: Window, es: seq<Event>) returns (opens: seq<nat>, shuts: seq<nat>)
    requires Dated(es) && NoWrap(w, es)
    ensures InWindows(w, es, opens, shuts, 0)
    ensures Timed(Some(w), Clock(false, 0), es) == Slices(es, opens, shuts)
  {
    opens, shuts := WindowsFrom(w, es, 0);
    assert es[0..] == es;
  }

  // The windows of the stateful sampler itself, ends that wrap included.

  /** An open window closed by an event of es is far enough from the wrap to find its next start. */
  predicate StartsFit(w: Window, es: seq<Event>) {
    forall e | e in es :: e.time + w.frequency < ULONG_RANGE + w.duration
  }

  lemma {:induction false} TimedSelects(w: Window, c: Clock, es: seq<Event>)
    ensures forall e | e in Timed(Some(w), c, es) :: e in es
    decreases es
  {
    hide TimeStep;
    if es != [] {
      TimedSelects(w, TimeStep(Some(w), c, es[0].time).0, es[1..]);
    }
  }

  lemma {:induction false} TimedKeepsOrder(w: Window, c: Clock, es: seq<Event>)
    requires Ordered(es)
    ensures Ordered(Timed(Some(w), c, es))
    decreases es
  {
    hide TimeStep;
    if es != [] {
      var d := TimeStep(Some(w), c, es[0].time).0;
      TimedKeepsOrder(w, d, es[1..]);
      TimedSelects(w, d, es[1..]);
      HeadFirst(es, Timed(Some(w), d, es[1..]));
    }
  }

  /** Nothing comes after a window whose end is beyond an unsigned long: all that passes from its start on fits it. */
  lemma LastWindow(w: Window, es: seq<Event>)
    requires es != [] && Ordered(es) && Dated(es) && es[0].time + w.duration >= ULONG_RANGE
    ensures var s := Timed(Some(w), Clock(false, 0), es);
            Fits(w, s) && s[0] == es[0] && Flatten([s]) == s
  {
    hide Ordered, Timed;
    var s := Timed(Some(w), Clock(false, 0), es);
    TimedHead(w, Clock(false, 0), es);
    TimedSelects(w, Clock(false, 0), es);
    TimedKeepsOrder(w, Clock(false, 0), es);
    FirstIsLeast(s);
    FlattenHead(s, []);
    NoWindows();
    forall i | 0 <= i < |s|
      ensures s[0].time <= s[i].time < s[0].time + w.duration
    {
      assert s[i] in es;
    }
  }

  lemma FirstIsLeast(es: seq<Event>)
    requires Ordered(es) && es != []
    ensures forall i | 0 <= i < |es| :: es[0].time <= es[i].time
  {
  }

  lemma LaterFit(w: Window, es: seq<Event>, n: nat, start: nat)
    requires Dated(es) && StartsFit(w, es)
    ensures var later := Since(Drop(es, n), start); Dated(later) && StartsFit(w, later)
  {
    assert forall e | e in Since(Drop(es, n), start) :: e in es;
  }

  lemma StartFits(w: Window, es: seq<Event>)
    requires es != [] && StartsFit(w, es)
    ensures 1 + Before(es[1..], es[0].time + w.duration) < |es| ==> es[0].time + w.frequency < ULONG_RANGE
  {
    var n := Before(es[1..], es[0].time + w.duration);
    if n + 1 < |es| {
      assert es[1..][n] in es;
    }
  }

  lemma {:induction false} TimedInWindows(w: Window, es: seq<Event>) returns (ss: seq<seq<Event>>)
    requires Ordered(es) && Dated(es) && StartsFit(w, es) && w.duration > 0
    ensures Timed(Some(w), Clock(false, 0), es) == Flatten(ss) && Spaced(w, ss)
    ensures if es == [] then ss == [] else ss != [] && ss[0][0] == es[0]
    decreases |es|
  {
    hide Before, Since, Drop, Dated, StartsFit, Timed, Flatten, Ordered, Period, Fits;
    TimedHead(w, Clock(false, 0), es);
    NoWindows();
    if es == [] {
      ss := [];
    } else if es[0].time + w.duration >= ULONG_RANGE {
      LastWindow(w, es);
      ss := [Timed(Some(w), Clock(false, 0), es)];
    } else {
      var n := Before(es[1..], es[0].time + w.duration);
      var later := Since(Drop(es, n + 2), es[0].time + w.frequency);
      Positive(es);
      StartFits(w, es);
      OneWindow(w, es);
      FirstWindow(w, es, n);
      NextStart(w, es, later);
      LaterFit(w, es, n + 2, es[0].time + w.frequency);
      var rest := TimedInWindows(w, later);
      MoreWindows(w, es[..n + 1], rest);
      FlattenHead(es[..n + 1], rest);
      ss := [es[..n + 1]] + rest;
    }
  }

  lemma Positive(es: seq<Event>)
    requires es != [] && Dated(es)
    ensures 0 < es[0].time
  {
    assert es[0] in es;
  }

  /** What record() lets pass in any run falls into windows at most `duration` long that start a period apart. */
  lemma RunInWindows(cfg: Settings, es: seq<Event>) returns (ss: seq<seq<Event>>)
    requires Dated(es) && Ordered(es) && cfg.window.Some? && cfg.window.value.duration > 0
    requires StartsFit(cfg.window.value, es)
    ensures Passed(cfg, Closed(cfg), es) == Flatten(ss) && Spaced(cfg.window.value, ss)
  {
    hide Flatten, Passed, KeepCounted, KeepStarted, Admit, Timed;
    PassedTimed(cfg, es);
    CountedKeepsOrder(cfg, es);
    StagesSelect(cfg, es);
    ss := TimedInWindows(cfg.window.value, KeepCounted(cfg, KeepStarted(cfg, Admit(cfg.mask, es))));
  }

  /** Main result: the budget holds of what record() lets pass in any run, whatever the other settings. */
  lemma RunBudget(cfg: Settings, es: seq<Event>)
    requires Dated(es) && Ordered(es) && cfg.window.Some? && cfg.window.value.duration > 0
    requires StartsFit(cfg.window.value, es)
    ensures WithinBudget(cfg.window.value, Passed(cfg, Closed(cfg), es))
  {
    hide Flatten, Passed, Spaced, WithinBudget;
    var ss := RunInWindows(cfg, es);
    SpacedBudget(cfg.window.value, ss);
  }

  // A run that breaks the budget when the start after a window wraps.

  function CallsFrom(d: Domain, start: nat, n: nat): seq<Event> {
    seq(n, i requires 0 <= i < n => CallAt(d, start + i))
  }

  lemma CallsAt(d: Domain, start: nat, n: nat)
    ensures |CallsFrom(d, start, n)| == n
    ensures forall i | 0 <= i < n :: CallsFrom(d, start, n)[i] == CallAt(d, start + i)
    ensures forall i | 0 <= i < n :: CallsFrom(d, start, n)[i].time == start + i
  {
  }

  lemma SecondsOfCalls(d: Domain, start: nat, n: nat)
    ensures |Seconds(CallsFrom(d, start, n))| == n
  {
    hide CallsFrom;
    var es := CallsFrom(d, start, n);
    CallsAt(d, start, n);
    forall t: nat | start <= t < start + n
      ensures t in Seconds(es)
    {
      var i := t - start;
      assert es[i].time == t;
    }
    WholeRange(Seconds(es), start, n);
  }

  lemma {:induction false} WholeRange(s: set<nat>, a: nat, n: nat)
    requires forall t: nat :: t in s <==> a <= t < a + n
    ensures |s| == n
  {
    if n == 0 {
      assert s == {};
    } else {
      WholeRange(s - {a + n - 1}, a, n - 1);
    }
  }

  /** A window filled second by second, one event that closes it, and one in the same second that opens the next. */
  function Filled(d: Domain, w: Window, start: nat): seq<Event> {
    CallsFrom(d, start, w.duration) + [CallAt(d, start + w.duration), CallAt(d, start + w.duration)]
  }

  lemma FilledParts(d: Domain, w: Window, start: nat)
    requires 0 < w.duration
    ensures var es, n, last := Filled(d, w, start), w.duration, CallAt(d, start + w.duration);
            && |es| == n + 2 && es[0] == CallAt(d, start)
            && es[..n] + [last] == CallsFrom(d, start, n + 1)
            && Drop(es[1..], n) == [last]
            && Before(es[1..], start + n) == n - 1
  {
    hide CallsFrom, Before;
    var es, n := Filled(d, w, start), w.duration;
    CallsAt(d, start, n);
    CallsAt(d, start, n + 1);
    assert es[n + 1..] == [CallAt(d, start + n)];
    BeforeIs(es[1..], start + n, n - 1);
  }

  lemma {:induction false} BeforeIs(es: seq<Event>, end: nat, n: nat)
    requires n < |es| && (forall i | 0 <= i < n :: es[i].time < end) && es[n].time >= end
    ensures Before(es, end) == n
  {
    if n > 0 {
      BeforeIs(es[1..], end, n - 1);
    }
  }

  lemma FilledPasses(d: Domain, w: Window, start: nat)
    requires 0 < start && 0 < w.duration && start + w.duration < ULONG_RANGE
    requires w.frequency < ULONG_RANGE <= start + w.frequency
    ensures Timed(Some(w), Clock(false, 0), Filled(d, w, start)) == CallsFrom(d, start, w.duration + 1)
  {
    hide Timed, Drop, Before, Filled, CallsFrom;
    var es, n, last := Filled(d, w, start), w.duration, CallAt(d, start + w.duration);
    FilledParts(d, w, start);
    TimedHead(w, Clock(false, 0), es);
    TakenInside(w, start, es[1..]);
    FirstTaken(es, n, [last]);
    assert [last][1..] == [];
    TimedHead(w, Clock(false, start), [last]);
    TimedHead(w, Clock(true, start + n), []);
  }

  /**
   * The exact condition: the budget holds of every run up to the second `last` whose clock never runs backwards
   * exactly when the start after an ended window cannot wrap by then.
   */
  lemma BudgetUpTo(mask: bv32, d: Domain, w: Window, last: nat)
    requires Has(mask, d) && 0 < last < ULONG_RANGE && 0 < w.duration && w.frequency < ULONG_RANGE
    ensures var cfg := Timing(mask, w);
            (forall es | UpTo(last, es) && Ordered(es) :: WithinBudget(w, Passed(cfg, Closed(cfg), es))) <==>
            last + w.frequency < ULONG_RANGE + w.duration
  {
    hide Has, Passed, WithinBudget, Ordered, Filled;
    var cfg := Timing(mask, w);
    if last + w.frequency < ULONG_RANGE + w.duration {
      forall es | UpTo(last, es) && Ordered(es)
        ensures WithinBudget(w, Passed(cfg, Closed(cfg), es))
      {
        RunBudget(cfg, es);
      }
    } else {
      BudgetBroken(mask, d, w, last - w.duration);
      assert UpTo(last, Filled(d, w, last - w.duration));
    }
  }

  lemma BudgetBroken(mask: bv32, d: Domain, w: Window, start: nat)
    requires Has(mask, d) && 0 < start && 0 < w.duration && start + w.duration < ULONG_RANGE
    requires w.frequency < ULONG_RANGE <= start + w.frequency
    ensures var es := Filled(d, w, start); var cfg := Timing(mask, w);
            UpTo(start + w.duration, es) && Ordered(es) && !WithinBudget(w, Passed(cfg, Closed(cfg), es))
  {
    hide Has, Passed, WithinBudget, Timed, Admitted, CallsFrom, Filled;
    FilledFits(mask, d, w, start);
    OnlyTimed(mask, w, Filled(d, w, start));
    FilledPasses(d, w, start);
    TooManySeconds(d, w, start);
  }

  /** One second more than a window's duration within less than a period. */
  lemma TooManySeconds(d: Domain, w: Window, start: nat)
    requires 0 < w.duration < w.frequency
    ensures !WithinBudget(w, CallsFrom(d, start, w.duration + 1))
  {
    hide CallsFrom, Seconds;
    var kept := CallsFrom(d, start, w.duration + 1);
    CallsAt(d, start, w.duration + 1);
    SecondsOfCalls(d, start, w.duration + 1);
    OnePeriod(w.duration, Period(w));
    assert kept[|kept| - 1].time - kept[0].time == w.duration;
    assert w.duration * (1 + 0) == w.duration;
  }

  lemma FilledFits(mask: bv32, d: Domain, w: Window, start: nat)
    requires Has(mask, d) && 0 < start
    ensures var es := Filled(d, w, start);
            UpTo(start + w.duration, es) && Ordered(es) && forall e | e in es :: Admitted(mask, e)
  {
    hide Has, CallsFrom;
    CallsAt(d, start, w.duration);
  }

  lemma OnePeriod(span: nat, period: nat)
    requires span < period
    ensures span / period == 0
  {
  }
}
