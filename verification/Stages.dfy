/** Capture as four list stages: what each keeps of the events it is given, without any state. */
module Stages {
  import opened Text
  import opened Bits
  import opened Domains
  import opened Records

  /** What one msgsnd answers: 0, -1 with EAGAIN, or -1 with any other errno. */
  datatype QueueAnswer = Taken | Full | Broken

  const MAX_TRIES := 5

  const ULONG_RANGE := 0x1_0000_0000_0000_0000

  /** The answers a message would get, try after try. */
  type Answers = s: seq<QueueAnswer> | |s| == MAX_TRIES witness [Taken, Taken, Taken, Taken, Taken]

  const ANSWERS: Answers := [Taken, Taken, Taken, Taken, Taken]

  /**
   * One intercepted call. `elapsed` is in microseconds, `time` is what time(NULL) would answer;
   * `keyFound` and `queueFound` are the answers ftok and msgget would give.
   */
  datatype Event = Event(dom: Domain, op: OpType, fd: int, s1: string, elapsed: int, time: nat,
                         keyFound: bool, queueFound: bool, answers: Answers)

  datatype Window = Window(duration: nat, frequency: nat)

  /** The settings the environment leaves behind. */
  datatype Settings = Settings(mask: bv32, startOnOpen: Option<string>, threshold: Option<int>,
                               every: Option<int>, window: Option<Window>)

  /** The admission tests, which look at the event alone. */
  predicate Admitted(mask: bv32, e: Event) {
    && !(-1 < e.fd < 3 && e.dom != START_STOP)
    && Has(mask, e.dom)
    && !(e.op == OPEN && (e.s1 == "." || e.s1 == ".."))
  }

  function Admit(mask: bv32, es: seq<Event>): seq<Event> {
    if es == [] then []
    else if Admitted(mask, es[0]) then [es[0]] + Admit(mask, es[1..])
    else Admit(mask, es[1..])
  }

  predicate StartsPaused(cfg: Settings) {
    cfg.startOnOpen.Some? || cfg.threshold.Some?
  }

  predicate Triggers(cfg: Settings, e: Event) {
    || (cfg.startOnOpen.Some? && e.op == OPEN && Contains(e.s1, cfg.startOnOpen.value))
    || (cfg.threshold.Some? && e.elapsed > cfg.threshold.value)
  }

  /** Everything from the first trigger on. */
  function FromTrigger(cfg: Settings, es: seq<Event>): seq<Event> {
    if es == [] || Triggers(cfg, es[0]) then es else FromTrigger(cfg, es[1..])
  }

  /** The last event of every block of k. */
  function EveryKth(k: int, es: seq<Event>): seq<Event>
    requires k >= 1
  {
    if |es| < k then [] else [es[k - 1]] + EveryKth(k, es[k..])
  }

  /** How many events come before the first one at or after `end`. */
  function Before(es: seq<Event>, end: nat): (n: nat)
    ensures n <= |es|
    ensures forall i | 0 <= i < n :: es[i].time < end
    ensures n < |es| ==> es[n].time >= end
  {
    if es == [] || es[0].time >= end then 0 else 1 + Before(es[1..], end)
  }

  /** es without its first n events. */
  function Drop(es: seq<Event>, n: nat): (rest: seq<Event>)
    ensures |rest| <= |es| && (n > 0 && es != [] ==> |rest| < |es|)
  {
    if n >= |es| then [] else es[n..]
  }

  function Since(es: seq<Event>, start: nat): (rest: seq<Event>)
    ensures |rest| <= |es|
  {
    es[Before(es, start)..]
  }

  /**
   * The windows. One opens at the first event and takes everything up to its end; the event that
   * finds the window over is lost, and the next window opens at the first event after that one
   * which comes at least `frequency` after the start of this one.
   */
  function Segments(w: Window, es: seq<Event>): seq<seq<Event>>
    decreases |es|
  {
    if es == [] then []
    else
      var start := es[0].time;
      var n := 1 + Before(es[1..], start + w.duration);
      [es[..n]] + Segments(w, Since(Drop(es, n + 1), start + w.frequency))
  }

  function Flatten(ss: seq<seq<Event>>): seq<Event> {
    if ss == [] then [] else ss[0] + Flatten(ss[1..])
  }

  function KeepStarted(cfg: Settings, es: seq<Event>): seq<Event> {
    if StartsPaused(cfg) then FromTrigger(cfg, es) else es
  }

  function KeepCounted(cfg: Settings, es: seq<Event>): seq<Event> {
    if cfg.every.Some? && cfg.every.value >= 1 then EveryKth(cfg.every.value, es) else es
  }

  function KeepTimed(cfg: Settings, es: seq<Event>): seq<Event> {
    if cfg.window.Some? then Flatten(Segments(cfg.window.value, es)) else es
  }

  /** The events that capture is meant to keep. */
  function Kept(cfg: Settings, es: seq<Event>): seq<Event> {
    KeepTimed(cfg, KeepCounted(cfg, KeepStarted(cfg, Admit(cfg.mask, es))))
  }
}
