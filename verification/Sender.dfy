/** The bookkeeping of send_msg_queue(): what a run of sends costs and delivers. */
module Sender {
  import opened Records
  import opened Stages

  /** The static counters and the two steps of obtaining the queue. */
  datatype Counters = Counters(haveKey: bool, haveQueue: bool, failed: nat, retries: nat, lost: nat, records: nat)

  const NO_SENDS := Counters(false, false, 0, 0, 0, 0)

  function Pow2(n: nat): (p: nat)
    ensures p >= 1
  {
    if n == 0 then 1 else 2 * Pow2(n - 1)
  }

  /** Microseconds slept by a send that was turned away r times: 1024 + 2048 + ... */
  function Backoff(r: nat): nat {
    1024 * (Pow2(r) - 1)
  }

  /** How many tries are turned away before one is not. */
  function FullTries(a: seq<QueueAnswer>): (n: nat)
    ensures n <= |a| && (forall i | 0 <= i < n :: a[i].Full?) && (n < |a| ==> !a[n].Full?)
  {
    if a == [] || !a[0].Full? then 0 else 1 + FullTries(a[1..])
  }

  function RecordOf(e: Event): Record {
    Record(e.dom, e.op, e.fd, e.s1, e.time, "")
  }

  /** ftok is asked until it answers; msgget is asked once, right after that, and never again. */
  function Connect(c: Counters, e: Event): Counters {
    if !c.haveKey && e.keyFound then c.(haveKey := true, haveQueue := e.queueFound) else c
  }

  predicate Accepted(c: Counters, e: Event) {
    var r := FullTries(e.answers);
    Connect(c, e).haveQueue && r < MAX_TRIES && e.answers[r].Taken?
  }

  function TimesFull(c: Counters, e: Event): nat {
    if Connect(c, e).haveQueue then FullTries(e.answers) else 0
  }

  function Send(c: Counters, e: Event): Counters {
    var d := Connect(c, e);
    var r := TimesFull(c, e);
    if Accepted(c, e) then d.(retries := d.retries + r, lost := d.lost + Backoff(r), records := d.records + 1)
    else d.(retries := d.retries + r, lost := d.lost + Backoff(r), failed := d.failed + 1)
  }

  function SendAll(c: Counters, es: seq<Event>): Counters
    decreases es
  {
    if es == [] then c else SendAll(Send(c, es[0]), es[1..])
  }

  /** The records that reach the queue. */
  function Delivered(c: Counters, es: seq<Event>): seq<Record>
    decreases es
  {
    if es == [] then []
    else if Accepted(c, es[0]) then [RecordOf(es[0])] + Delivered(Send(c, es[0]), es[1..])
    else Delivered(Send(c, es[0]), es[1..])
  }

  lemma {:induction false} SendOneMore(c: Counters, es: seq<Event>, e: Event)
    ensures SendAll(c, es + [e]) == Send(SendAll(c, es), e)
    ensures Delivered(c, es + [e])
         == if Accepted(SendAll(c, es), e) then Delivered(c, es) + [RecordOf(e)] else Delivered(c, es)
    decreases es
  {
    hide Send, Accepted;
    if es == [] {
      assert [e][1..] == [];
      assert SendAll(c, [e]) == SendAll(Send(c, e), []);
    } else {
      assert (es + [e])[1..] == es[1..] + [e];
      SendOneMore(Send(c, es[0]), es[1..], e);
    }
  }

  /** Microseconds that r EAGAINs cost a send: the first 1024, each further one twice what the one before it did. */
  const SLEEPS := [0, 1024, 3072, 7168, 15360, 31744]

  function Slept(r: nat): nat
    requires r <= 5
  {
    SLEEPS[r]
  }

  /** A send turned away r times sleeps at least 1024 us and at most 31744 / 5 us for each of them. */
  lemma SleptBounds(r: nat)
    requires r <= 5
    ensures 1024 * r <= Slept(r) && 5 * Slept(r) <= 31744 * r
  {
    assert r == 0 || r == 1 || r == 2 || r == 3 || r == 4 || r == 5;
  }

  lemma BackoffIs(r: nat)
    requires r <= 5
    ensures Backoff(r) == Slept(r)
    ensures r == 1 ==> Backoff(r) - Backoff(r - 1) == 1024
    ensures r > 1 ==> Backoff(r) - Backoff(r - 1) == 2 * (Backoff(r - 1) - Backoff(r - 2))
  {
    assert Pow2(1) == 2 && Pow2(2) == 4 && Pow2(3) == 8;
    assert Pow2(4) == 2 * Pow2(3) && Pow2(5) == 2 * Pow2(4);
    assert r == 0 || r == 1 || r == 2 || r == 3 || r == 4 || r == 5;
  }

  /** The queue turns e away r times: with EAGAIN, and then not, unless that was the fifth time. */
  predicate TurnedAway(e: Event, r: nat) {
    r <= 5 && (forall i | 0 <= i < r :: e.answers[i].Full?) && (r < 5 ==> !e.answers[r].Full?)
  }

  lemma {:induction false} FullTriesIs(a: seq<QueueAnswer>, r: nat)
    requires r <= |a| && (forall i | 0 <= i < r :: a[i].Full?) && (r < |a| ==> !a[r].Full?)
    ensures FullTries(a) == r
  {
    if r > 0 {
      FullTriesIs(a[1..], r - 1);
    }
  }

  lemma SleptFor(e: Event)
    ensures forall r: nat | TurnedAway(e, r) ::
              r == FullTries(e.answers) && Backoff(r) == [0, 1024, 3072, 7168, 15360, 31744][r]
  {
    hide Backoff, FullTries;
    forall r: nat | TurnedAway(e, r)
      ensures r == FullTries(e.answers) && Backoff(r) == [0, 1024, 3072, 7168, 15360, 31744][r]
    {
      FullTriesIs(e.answers, r);
      BackoffIs(r);
    }
  }

  /**
   * One send, spelled out. A sender without a queue that does not get one now fails at no cost. Any other is
   * turned away r times, sleeps for it, and succeeds exactly when the next try within the five is taken.
   */
  lemma OneSend(c: Counters, e: Event, r: nat)
    requires TurnedAway(e, r)
    ensures var connected := if !c.haveKey && e.keyFound then e.queueFound else c.haveQueue;
            var taken := connected && r < 5 && e.answers[r].Taken?;
            var d := Send(c, e);
            && d.haveKey == (c.haveKey || e.keyFound) && d.haveQueue == connected
            && d.retries == c.retries + (if connected then r else 0)
            && d.lost == c.lost + (if connected then [0, 1024, 3072, 7168, 15360, 31744][r] else 0)
            && d.records == c.records + (if taken then 1 else 0)
            && d.failed == c.failed + (if taken then 0 else 1)
            && Delivered(c, [e]) == if taken then [Record(e.dom, e.op, e.fd, e.s1, e.time, "")] else []
  {
    hide Backoff, FullTries;
    FullTriesIs(e.answers, r);
    BackoffIs(r);
    BackoffIs(0);
  }

  function TotalTimesFull(c: Counters, es: seq<Event>): nat
    decreases es
  {
    if es == [] then 0 else TimesFull(c, es[0]) + TotalTimesFull(Send(c, es[0]), es[1..])
  }

  function TotalSlept(c: Counters, es: seq<Event>): nat
    decreases es
  {
    if es == [] then 0 else Slept(TimesFull(c, es[0])) + TotalSlept(Send(c, es[0]), es[1..])
  }

  /** What each of the four counters has counted after any run of sends. */
  lemma {:induction false} CountersCount(c: Counters, es: seq<Event>)
    ensures var d := SendAll(c, es);
            && d.records == c.records + |Delivered(c, es)|
            && d.records + d.failed == c.records + c.failed + |es|
            && d.retries == c.retries + TotalTimesFull(c, es)
            && d.lost == c.lost + TotalSlept(c, es)
    decreases es
  {
    hide Accepted, TimesFull, Slept, Connect;
    if es != [] {
      SendKeeps(c, es[0]);
      CountersCount(Send(c, es[0]), es[1..]);
    }
  }

  lemma SendKeeps(c: Counters, e: Event)
    ensures var d := Send(c, e);
            && d.records == c.records + (if Accepted(c, e) then 1 else 0)
            && d.failed == c.failed + (if Accepted(c, e) then 0 else 1)
            && d.retries == c.retries + TimesFull(c, e)
            && TimesFull(c, e) <= 5 && d.lost == c.lost + Slept(TimesFull(c, e))
  {
    hide Backoff, FullTries;
    BackoffIs(TimesFull(c, e));
  }

  /**
   * Main result: over any run of sends and whatever the queue answers, every send is either a record
   * or a failure, nothing is tried again more than five times, and the time lost lies between the
   * cheapest and the dearest way of spending that many retries.
   */
  lemma Accounting(es: seq<Event>)
    ensures var d := SendAll(NO_SENDS, es);
            && d.records + d.failed == |es|
            && d.records == |Delivered(NO_SENDS, es)|
            && d.retries <= MAX_TRIES * |es|
            && 1024 * d.retries <= d.lost
            && 5 * d.lost <= 31744 * d.retries
  {
    CountersCount(NO_SENDS, es);
    TotalsBounded(NO_SENDS, es);
  }

  lemma {:induction false} TotalsBounded(c: Counters, es: seq<Event>)
    ensures TotalTimesFull(c, es) <= MAX_TRIES * |es|
    ensures 1024 * TotalTimesFull(c, es) <= TotalSlept(c, es)
    ensures 5 * TotalSlept(c, es) <= 31744 * TotalTimesFull(c, es)
    decreases es
  {
    hide Slept;
    if es != [] {
      SleptBounds(TimesFull(c, es[0]));
      TotalsBounded(Send(c, es[0]), es[1..]);
    }
  }

  predicate Lost(c: Counters) {
    c.haveKey && !c.haveQueue
  }

  /** A sender is lost for good exactly when it has a key without a queue: nothing it is given is ever delivered. */
  lemma LostForGood(c: Counters)
    ensures Lost(c) <==> forall es :: Delivered(c, es) == []
  {
    if Lost(c) {
      forall es
        ensures Delivered(c, es) == []
      {
        NoSecondMsgget(c, es);
      }
    } else {
      var e := Event(0, CLOSE, 3, "", 0, 1, true, true, ANSWERS);
      assert FullTries(e.answers) == 0 && Accepted(c, e);
      assert Delivered(c, [e]) != [];
    }
  }

  /** Once there is a key without a queue, nothing is ever delivered again: msgget has no second chance. */
  lemma {:induction false} NoSecondMsgget(c: Counters, es: seq<Event>)
    requires Lost(c)
    ensures Delivered(c, es) == [] && SendAll(c, es).failed == c.failed + |es| && SendAll(c, es).lost == c.lost
    decreases es
  {
    if es != [] {
      NoSecondMsgget(Send(c, es[0]), es[1..]);
    }
  }
}
