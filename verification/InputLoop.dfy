/** input_loop(): track each record's device, then hand the record to the plugins. */
module InputLoop {
  import opened Text
  import opened Records
  import opened Resolver
  import opened Plugins
  import opened Machines
  import opened Instances
  import opened Chain

  method HandleMessage(index: DeviceIndex, chain: PluginChain, r: Record)
    requires index.Valid() && chain.Valid()
    modifies index, chain.spine, States(chain.spine)
    ensures index.Valid() && index.history == old(index.history) + [r]
    ensures chain.Valid() && chain.State() == Execute(old(chain.State()), Answer(index.mounts, old(index.history), r))
  {
    hide Answer, Execute, Views, Chained, OwnStates;
    var out := index.Receive(r);
    chain.ExecutePluginChain(out);
  }

  /** The records among what msgrcv answers; None is an error. */
  function Arrived(answers: seq<Option<Record>>): seq<Record> {
    if answers == [] then []
    else
      var last := answers[|answers| - 1];
      Arrived(answers[..|answers| - 1]) + if last.Some? then [last.value] else []
  }

  lemma ArrivedOneMore(answers: seq<Option<Record>>, i: nat)
    requires i < |answers|
    ensures Arrived(answers[..i + 1]) == Arrived(answers[..i]) + if answers[i].Some? then [answers[i].value] else []
  {
    assert answers[..i + 1][..i] == answers[..i];
  }

  lemma NothingArrived()
    ensures Arrived([]) == []
  {
  }

  /** The listener was at m when h had arrived, and has since been given the records of h + more with their devices. */
  ghost predicate Handled<S>(ms: Mounts, h: seq<Record>, more: seq<Record>, m: Machine<S>, now: Machine<S>) {
    && |TrackAll(ms, h + more)| == |h + more|
    && now == m.(plugins := DeliverAll(m.plugins, TrackAll(ms, h + more)[|h|..]))
  }

  lemma NothingHandled<S>(ms: Mounts, h: seq<Record>, m: Machine<S>)
    ensures Handled(ms, h, [], m, m)
  {
    TrackAllLength(ms, h);
    assert h + [] == h;
    assert TrackAll(ms, h)[|h|..] == [];
  }

  lemma OneMoreHandled<S>(ms: Mounts, h: seq<Record>, more: seq<Record>, r: Record, m: Machine<S>, now: Machine<S>)
    requires Handled(ms, h, more, m, now)
    ensures Handled(ms, h, more + [r], m, Execute(now, Answer(ms, h + more, r)))
  {
    hide Answer, Track, Table, TrackAll, Deliver, DeliverAll;
    var all := h + more;
    assert h + (more + [r]) == all + [r];
    TrackOneMore(ms, all, r);
    TrackIsAnswer(ms, all, r);
    var before, out := TrackAll(ms, all), Answer(ms, all, r);
    assert (before + [out])[|h|..] == before[|h|..] + [out];
    DeliverOneMore(m.plugins, before[|h|..], out);
  }

  method HandleNext(index: DeviceIndex, chain: PluginChain, r: Record,
                    ghost h: seq<Record>, ghost came: seq<Record>, ghost m: Machine<Instance>)
    requires index.Valid() && index.history == h + came
    requires chain.Valid() && Handled(index.mounts, h, came, m, chain.State())
    modifies index, chain.spine, States(chain.spine)
    ensures index.Valid() && index.history == h + (came + [r])
    ensures chain.Valid() && Handled(index.mounts, h, came + [r], m, chain.State())
  {
    hide Answer, Execute, Views, Chained, OwnStates, Handled;
    OneMoreHandled(index.mounts, h, came, r, m, chain.State());
    HandleMessage(index, chain, r);
    Associative(h, came, [r]);
  }

  /**
   * The loop over any answers of msgrcv: the chain has gone through exactly the records received, in order and
   * each with the device that the history up to it gives.
   */
  method HandleMessages(index: DeviceIndex, chain: PluginChain, answers: seq<Option<Record>>)
    requires index.Valid() && chain.Valid()
    modifies index, chain.spine, States(chain.spine)
    ensures index.Valid() && index.history == old(index.history) + Arrived(answers)
    ensures chain.Valid()
    ensures Handled(index.mounts, old(index.history), Arrived(answers), old(chain.State()), chain.State())
  {
    hide Answer, Execute, Views, Chained, OwnStates, Handled, Arrived;
    ghost var h, m := index.history, chain.State();
    ghost var came: seq<Record> := [];
    var i := 0;
    NothingHandled(index.mounts, h, m);
    NothingArrived();
    assert answers[..0] == [] && h + [] == h;
    while i < |answers|
      invariant 0 <= i <= |answers| && came == Arrived(answers[..i])
      invariant index.Valid() && index.history == h + came
      invariant chain.Valid()
      invariant Handled(index.mounts, h, came, m, chain.State())
    {
      ArrivedOneMore(answers, i);
      if answers[i].Some? {
        HandleNext(index, chain, answers[i].value, h, came, m);
        came := came + [answers[i].value];
      }
      i := i + 1;
    }
    assert answers[..|answers|] == answers;
  }
}
