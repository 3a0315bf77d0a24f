/** Plugins as the chain drives them: answers, delivery of a record, and the pause protocol. */
module Plugins {
  import opened Text
  import opened Records

  const PLUGIN_ACCEPT_DATA := 1
  const PLUGIN_REFUSE_DATA := 0
  const PLUGIN_DROP_DATA := -1

  /** The callbacks: ok_to_accept_data, process_data, plugin_command and close_plugin. */
  datatype Callback = Poll | Offer(rec: Record) | Command(args: seq<string>) | Close

  type Trace = seq<Callback>

  /** Any plugin at all: its answer to the last callback may depend on everything that came before. */
  type Behaviour = Trace -> int

  /** One chain element by value. `state` is the identity of the plugin instance, `trace` what it went through. */
  datatype Plugin<+S> = Plugin(library: string, alias: Option<string>, hasCommands: bool, state: S,
                               behave: Behaviour, paused: bool, trace: Trace)

  /** The poll of a paused plugin. */
  function Polled<S>(p: Plugin<S>): Plugin<S> {
    if p.paused then
      var t := p.trace + [Poll];
      p.(trace := t, paused := p.behave(t) != PLUGIN_ACCEPT_DATA)
    else p
  }

  /** The offer of a record to a plugin that is not paused. */
  function Offered<S>(p: Plugin<S>, rec: Record): Plugin<S> {
    if p.paused then p
    else
      var t := p.trace + [Offer(rec)];
      p.(trace := t, paused := p.behave(t) == PLUGIN_REFUSE_DATA)
  }

  predicate DropsNow<S>(p: Plugin<S>, rec: Record) {
    !p.paused && p.behave(p.trace + [Offer(rec)]) == PLUGIN_DROP_DATA
  }

  /** One record down the chain. */
  function Deliver<S>(ps: seq<Plugin<S>>, rec: Record): (qs: seq<Plugin<S>>)
    ensures |qs| == |ps|
  {
    if ps == [] then []
    else
      var p := Polled(ps[0]);
      [Offered(p, rec)] + if DropsNow(p, rec) then ps[1..] else Deliver(ps[1..], rec)
  }

  lemma DeliverHead<S>(ps: seq<Plugin<S>>, rec: Record)
    requires ps != []
    ensures var p := Polled(ps[0]);
            Deliver(ps, rec) == [Offered(p, rec)] + if DropsNow(p, rec) then ps[1..] else Deliver(ps[1..], rec)
  {
  }

  lemma DeliverNothing<S>(rec: Record)
    ensures Deliver<S>([], rec) == []
  {
  }

  function DeliverAll<S>(ps: seq<Plugin<S>>, recs: seq<Record>): (qs: seq<Plugin<S>>)
    ensures |qs| == |ps|
    decreases recs
  {
    if recs == [] then ps else DeliverAll(Deliver(ps, recs[0]), recs[1..])
  }

  lemma {:induction false} DeliverOneMore<S>(ps: seq<Plugin<S>>, recs: seq<Record>, rec: Record)
    ensures DeliverAll(ps, recs + [rec]) == Deliver(DeliverAll(ps, recs), rec)
    decreases recs
  {
    hide Deliver;
    if recs == [] {
      assert [rec][1..] == [];
      assert DeliverAll(ps, [rec]) == DeliverAll(Deliver(ps, rec), []);
    } else {
      assert (recs + [rec])[1..] == recs[1..] + [rec];
      DeliverOneMore(Deliver(ps, recs[0]), recs[1..], rec);
    }
  }

  // What a record means to the plugin at one place of the chain, without the chain.

  /** The plugin takes records now: it is not paused, or it accepts when polled. */
  predicate Ready<S>(p: Plugin<S>) {
    !p.paused || p.behave(p.trace + [Poll]) == PLUGIN_ACCEPT_DATA
  }

  function TraceWhenReached<S>(p: Plugin<S>, rec: Record): Trace {
    p.trace + (if p.paused then [Poll] else []) + (if Ready(p) then [Offer(rec)] else [])
  }

  /** Offered the record, the plugin answers DROP. */
  predicate Drops<S>(p: Plugin<S>, rec: Record) {
    Ready(p) && p.behave(TraceWhenReached(p, rec)) == PLUGIN_DROP_DATA
  }

  /** Every plugin before place i lets the record on, be it by accepting, by refusing or by being paused. */
  predicate Reaches<S>(ps: seq<Plugin<S>>, rec: Record, i: nat)
    requires i <= |ps|
  {
    forall j | 0 <= j < i :: !Drops(ps[j], rec)
  }

  predicate PausedWhenReached<S>(p: Plugin<S>, rec: Record) {
    !Ready(p) || p.behave(TraceWhenReached(p, rec)) == PLUGIN_REFUSE_DATA
  }

  lemma DropsAgree<S>(p: Plugin<S>, rec: Record)
    ensures Drops(p, rec) <==> DropsNow(Polled(p), rec)
    ensures Offered(Polled(p), rec) == p.(trace := TraceWhenReached(p, rec), paused := PausedWhenReached(p, rec))
  {
    assert p.trace + [] == p.trace;
    assert p.trace + [Poll] + [] == p.trace + [Poll];
  }

  /**
   * Main result: the traversal gives the plugin at place i the record exactly when no plugin before it
   * dropped it and the plugin is unpaused after its poll; it is polled only if paused and only when the
   * record gets that far; refusing hides nothing; and behind a drop nothing changes at all.
   */
  lemma {:induction false} DeliveredExactly<S>(ps: seq<Plugin<S>>, rec: Record, i: nat)
    requires i < |ps|
    ensures Deliver(ps, rec)[i]
         == if Reaches(ps, rec, i) then ps[i].(trace := TraceWhenReached(ps[i], rec), paused := PausedWhenReached(ps[i], rec))
            else ps[i]
    decreases ps
  {
    hide Polled, Offered, Drops, DropsNow;
    DropsAgree(ps[0], rec);
    if i > 0 {
      var rest := ps[1..];
      if Drops(ps[0], rec) {
        assert !Reaches(ps, rec, i);
      } else {
        DeliveredExactly(rest, rec, i - 1);
        assert Reaches(rest, rec, i - 1) <==> Reaches(ps, rec, i) by {
          assert forall j | 0 <= j < i - 1 :: rest[j] == ps[j + 1];
          assert forall j | 0 < j < i :: ps[j] == rest[j - 1];
        }
      }
    }
  }

  /**
   * One place of the chain, spelled out: a paused plugin is polled, stays out of the way unless it answers 1, and
   * then is as if it had never paused; one that is not paused gets the record, is paused if it answers 0, and
   * keeps the record from those behind it if it answers -1.
   */
  lemma DeliverSpelledOut<S>(p: Plugin<S>, rest: seq<Plugin<S>>, rec: Record)
    ensures !p.paused ==>
      var t := p.trace + [Offer(rec)];
      Deliver([p] + rest, rec)
      == [p.(trace := t, paused := p.behave(t) == 0)] + if p.behave(t) == -1 then rest else Deliver(rest, rec)
    ensures p.paused ==>
      var t := p.trace + [Poll];
      Deliver([p] + rest, rec)
      == if p.behave(t) == 1 then Deliver([p.(trace := t, paused := false)] + rest, rec)
         else [p.(trace := t)] + Deliver(rest, rec)
  {
    hide Deliver;
    var t := p.trace + [Poll];
    var q := p.(trace := t, paused := false);
    assert ([p] + rest)[1..] == rest && ([q] + rest)[1..] == rest;
    DeliverHead([p] + rest, rec);
    DeliverHead([q] + rest, rec);
  }

  // The pause protocol of one plugin, told from its trace alone.

  predicate PausedAfter(behave: Behaviour, t: Trace) {
    if t == [] then false
    else match t[|t| - 1]
      case Offer(_) => behave(t) == PLUGIN_REFUSE_DATA
      case Poll => behave(t) != PLUGIN_ACCEPT_DATA
      case _ => PausedAfter(behave, t[..|t| - 1])
  }

  /** Polled only while paused, given records only while not. */
  predicate Legal(behave: Behaviour, t: Trace) {
    t == [] ||
    var init, last := t[..|t| - 1], t[|t| - 1];
    && Legal(behave, init)
    && (last.Poll? ==> PausedAfter(behave, init))
    && (last.Offer? ==> !PausedAfter(behave, init))
  }

  function Refusals(behave: Behaviour, t: Trace): nat {
    if t == [] then 0
    else Refusals(behave, t[..|t| - 1]) + if t[|t| - 1].Offer? && behave(t) == PLUGIN_REFUSE_DATA then 1 else 0
  }

  function Resumptions(behave: Behaviour, t: Trace): nat {
    if t == [] then 0
    else Resumptions(behave, t[..|t| - 1]) + if t[|t| - 1].Poll? && behave(t) == PLUGIN_ACCEPT_DATA then 1 else 0
  }

  /** The plugin's flag and history are those of the protocol. */
  predicate Obeys<S>(p: Plugin<S>) {
    Legal(p.behave, p.trace) && p.paused == PausedAfter(p.behave, p.trace)
  }

  /** A plugin is paused exactly while it is one refusal ahead of its resumptions. */
  lemma {:induction false} PausesBalance(behave: Behaviour, t: Trace)
    requires Legal(behave, t)
    ensures Refusals(behave, t) - Resumptions(behave, t) == if PausedAfter(behave, t) then 1 else 0
  {
    if t != [] {
      PausesBalance(behave, t[..|t| - 1]);
    }
  }

  lemma OneMoreCallback(behave: Behaviour, t: Trace, c: Callback)
    requires Legal(behave, t) && (c.Poll? ==> PausedAfter(behave, t)) && (c.Offer? ==> !PausedAfter(behave, t))
    ensures Legal(behave, t + [c])
    ensures PausedAfter(behave, t + [c])
         == if c.Offer? then behave(t + [c]) == PLUGIN_REFUSE_DATA
            else if c.Poll? then behave(t + [c]) != PLUGIN_ACCEPT_DATA
            else PausedAfter(behave, t)
  {
    assert (t + [c])[..|t|] == t;
  }

  lemma DeliveryStepObeys<S>(p: Plugin<S>, rec: Record)
    requires Obeys(p)
    ensures Obeys(Offered(Polled(p), rec))
  {
    if p.paused {
      OneMoreCallback(p.behave, p.trace, Poll);
    }
    var q := Polled(p);
    if !q.paused {
      OneMoreCallback(q.behave, q.trace, Offer(rec));
    }
  }

  /** Delivering a record keeps every plugin within the protocol. */
  lemma {:induction false} DeliverObeys<S>(ps: seq<Plugin<S>>, rec: Record)
    requires forall i | 0 <= i < |ps| :: Obeys(ps[i])
    ensures forall i | 0 <= i < |ps| :: Obeys(Deliver(ps, rec)[i])
  {
    hide Obeys, Offered, Polled, DropsNow;
    if ps != [] {
      DeliveryStepObeys(ps[0], rec);
      DeliverObeys(ps[1..], rec);
    }
  }

  /** What a delivery leaves alone: everything but the flag and the history. */
  function Identity<S>(p: Plugin<S>): Plugin<S> {
    p.(paused := false, trace := [])
  }

  lemma {:induction false} DeliverKeepsIdentity<S>(ps: seq<Plugin<S>>, rec: Record, i: nat)
    requires i < |ps|
    ensures Identity(Deliver(ps, rec)[i]) == Identity(ps[i])
  {
    DeliveredExactly(ps, rec, i);
  }
}
