/** Plugin instances from load to close, and after. */
module Lifetimes {
  import opened Text
  import opened Records
  import opened Plugins
  import opened Commands
  import opened Machines

  /** The listener, and every instance that has left its plugin list. */
  datatype World<+S> = World(now: Machine<S>, gone: seq<Plugin<S>>)

  function Closed<S>(p: Plugin<S>): Plugin<S> {
    p.(trace := p.trace + [Close])
  }

  /** An unload closes the instance; a command reaches the instance it carries, loaded or not. */
  function GoneAfter<S(==)>(w: World<S>, step: Step<S>): seq<Plugin<S>>
    requires Feasible(w.now, step)
  {
    match step
    case UnloadStep(name) => w.gone + [Closed(w.now.plugins[Find(w.now.plugins, name)])]
    case UnloadAllStep =>
      w.gone + seq(|w.now.plugins|, i requires 0 <= i < |w.now.plugins| => Closed(w.now.plugins[i]))
    case CommandStep(name, args) =>
      seq(|w.gone|, i requires 0 <= i < |w.gone| => Told(w.gone[i], Owner(w.now.commands, name), args))
    case _ => w.gone
  }

  function Live<S(==)>(w: World<S>, step: Step<S>): World<S>
    requires Feasible(w.now, step)
  {
    World(Do(w.now, step), GoneAfter(w, step))
  }

  /** Every load brings an instance never seen before; every unload names a loaded plugin. */
  predicate Lives<S(==)>(w: World<S>, steps: seq<Step<S>>)
    decreases |steps|
  {
    steps == [] ||
    (Feasible(w.now, steps[0]) && Brings(w, steps[0]) && Lives(Live(w, steps[0]), steps[1..]))
  }

  predicate Brings<S(==)>(w: World<S>, step: Step<S>) {
    step.LoadStep? ==> step.p.trace == [] && forall i | 0 <= i < |w.gone| :: w.gone[i].state != step.p.state
  }

  function End<S(==)>(w: World<S>, steps: seq<Step<S>>): World<S>
    requires Lives(w, steps)
    decreases |steps|
  {
    if steps == [] then w else End(Live(w, steps[0]), steps[1..])
  }

  predicate NeverClosed(t: Trace) {
    forall i | 0 <= i < |t| :: t[i] != Close
  }

  predicate ClosedOnce(t: Trace) {
    exists k :: 0 <= k < |t| && t[k] == Close && NeverClosed(t[..k]) && NeverClosed(t[k + 1..])
  }

  predicate EndsClosed(t: Trace) {
    t != [] && t[|t| - 1] == Close && NeverClosed(t[..|t| - 1])
  }

  /** No instance is closed while it is loaded, and each that has left was closed once. */
  predicate Accounted<S>(w: World<S>) {
    && (forall i | 0 <= i < |w.now.plugins| :: NeverClosed(w.now.plugins[i].trace))
    && (forall i | 0 <= i < |w.gone| :: ClosedOnce(w.gone[i].trace))
  }

  lemma ClosingCloses(t: Trace)
    requires NeverClosed(t)
    ensures ClosedOnce(t + [Close]) && EndsClosed(t + [Close])
  {
    var all := t + [Close];
    assert all[..|t|] == t && all[|t| + 1..] == [];
  }

  lemma CommandClosesNot(t: Trace, args: seq<string>)
    ensures NeverClosed(t) ==> NeverClosed(t + [Command(args)])
    ensures ClosedOnce(t) ==> ClosedOnce(t + [Command(args)])
  {
    if ClosedOnce(t) {
      var k :| 0 <= k < |t| && t[k] == Close && NeverClosed(t[..k]) && NeverClosed(t[k + 1..]);
      var all := t + [Command(args)];
      assert all[..k] == t[..k] && all[k + 1..] == t[k + 1..] + [Command(args)] && all[k] == Close;
    }
  }

  lemma DeliveryClosesNot<S>(ps: seq<Plugin<S>>, rec: Record)
    requires forall i | 0 <= i < |ps| :: NeverClosed(ps[i].trace)
    ensures forall i | 0 <= i < |ps| :: NeverClosed(Deliver(ps, rec)[i].trace)
  {
    hide Deliver, Reaches;
    forall i | 0 <= i < |ps|
      ensures NeverClosed(Deliver(ps, rec)[i].trace)
    {
      DeliveredExactly(ps, rec, i);
      ReachedClosesNot(ps[i], rec);
    }
  }

  lemma ReachedClosesNot<S>(p: Plugin<S>, rec: Record)
    requires NeverClosed(p.trace)
    ensures NeverClosed(TraceWhenReached(p, rec))
  {
  }

  lemma StepAccounted<S>(w: World<S>, step: Step<S>)
    requires Accounted(w) && Feasible(w.now, step) && Brings(w, step)
    ensures Accounted(Live(w, step))
  {
    hide Deliver, NeverClosed, ClosedOnce, Lookup, Find, Freed;
    var ps := w.now.plugins;
    match step
    case LoadStep(p) =>
      NothingClosed();
    case UnloadStep(name) =>
      FindsLoaded(w.now, name);
      ClosingCloses(ps[Find(ps, name)].trace);
    case UnloadAllStep =>
      UnloadAllEmpties(w.now);
      forall i | 0 <= i < |ps|
        ensures ClosedOnce(Closed(ps[i]).trace)
      {
        ClosingCloses(ps[i].trace);
      }
    case ExecuteStep(rec) =>
      DeliveryClosesNot(ps, rec);
    case CommandStep(name, args) =>
      forall p: Plugin<S>
        ensures NeverClosed(p.trace) ==> NeverClosed(Told(p, Owner(w.now.commands, name), args).trace)
        ensures ClosedOnce(p.trace) ==> ClosedOnce(Told(p, Owner(w.now.commands, name), args).trace)
      {
        CommandClosesNot(p.trace, args);
      }
  }

  lemma NothingClosed()
    ensures NeverClosed([])
  {
  }

  lemma FindsLoaded<S>(m: Machine<S>, name: string)
    requires Feasible(m, UnloadStep(name))
    ensures Find(m.plugins, name) < |m.plugins|
  {
  }

  /**
   * Main result: in every run, whatever the plugins are called, no loaded instance has been closed and every
   * instance that has left the list was closed exactly once.
   */
  lemma {:induction false} ClosedOnceInEveryRun<S>(w: World<S>, steps: seq<Step<S>>)
    requires Accounted(w) && Lives(w, steps)
    ensures Accounted(End(w, steps))
    decreases |steps|
  {
    hide Accounted, Live, Feasible, Brings;
    if steps != [] {
      StepAccounted(w, steps[0]);
      ClosedOnceInEveryRun(Live(w, steps[0]), steps[1..]);
    }
  }

  // What is called after it was closed.

  predicate OwnNothing<S>(builtins: seq<Entry<S>>) {
    forall k | 0 <= k < |builtins| :: builtins[k].owner.None?
  }

  predicate Carries<S(==)>(cs: seq<Entry<S>>, state: S) {
    exists k :: 0 <= k < |cs| && cs[k].owner == Some(state)
  }

  lemma MirrorCarries<S>(ps: seq<Plugin<S>>, builtins: seq<Entry<S>>, state: S)
    requires OwnNothing(builtins) && Carries(Mirror(ps) + builtins, state)
    ensures exists j :: 0 <= j < |ps| && ps[j].hasCommands && ps[j].state == state
  {
    hide Mirror;
    var all := Mirror(ps) + builtins;
    assert forall k | |Mirror(ps)| <= k < |all| :: all[k] == builtins[k - |Mirror(ps)|];
    var k :| 0 <= k < |all| && all[k].owner == Some(state);
    var j := MirrorOwners(ps, k);
    assert ps[j].hasCommands && ps[j].state == state;
  }

  lemma FreedCarries<S>(cs: seq<Entry<S>>, name: string, state: S)
    requires Carries(Freed(cs, name), state)
    ensures Carries(cs, state)
  {
    var i, freed := MatchAt(cs, name), Freed(cs, name);
    var k :| 0 <= k < |freed| && freed[k].owner == Some(state);
    assert freed[k] == cs[if k < i then k else k + 1];
  }

  lemma NoOtherState<S>(ps: seq<Plugin<S>>, i: nat)
    requires DistinctStates(ps) && i < |ps|
    ensures forall j | 0 <= j < |ps| && ps[j].state == ps[i].state :: j == i
    ensures forall j | 0 <= j < |Without(ps, i)| :: Without(ps, i)[j].state != ps[i].state
  {
    var qs := Without(ps, i);
    forall j | 0 <= j < |qs|
      ensures qs[j].state != ps[i].state
    {
      assert qs[j] == ps[if j < i then j else j + 1];
    }
  }

  lemma LeftBehind<S>(late: seq<Entry<S>>, e: Entry<S>, tail: seq<Entry<S>>, name: string, state: S)
    requires MatchAt(late, name) < |late| && e.owner == Some(state)
    ensures Carries(Freed(late + [e] + tail, name), state)
  {
    hide Answers;
    var all, i := late + [e] + tail, MatchAt(late, name);
    WithoutMiddle(late, e, tail);
    MatchIs(all, name, i);
    assert Freed(all, name)[|late| - 1] == all[|late|] == e;
  }

  /**
   * A command that carries the closed instance stays behind exactly when the plugin had commands and a plugin
   * loaded after it that has some too answers to its library path.
   */
  lemma DanglesExactly<S>(m: Machine<S>, builtins: seq<Entry<S>>, i: nat)
    requires Sound(m, builtins) && OwnNothing(builtins) && i < |m.plugins|
    ensures Carries(UnloadAt(m, i).commands, m.plugins[i].state)
      <==> m.plugins[i].hasCommands && Served(m.plugins[i + 1..], m.plugins[i].library)
  {
    hide Mirror, Freed, Served, MatchAt, OwnNothing, Carries, DistinctStates, Without;
    var ps := m.plugins;
    var p := ps[i];
    NoOtherState(ps, i);
    if p.hasCommands && Served(ps[i + 1..], p.library) {
      MirrorAround(ps, i);
      MirrorAnswers(ps[i + 1..], p.library);
      var late, early := Mirror(ps[i + 1..]), Mirror(ps[..i]);
      OwnOne(p);
      Associative(late + [EntryOf(p)], early, builtins);
      LeftBehind(late, EntryOf(p), early + builtins, p.library, p.state);
    } else if Carries(Freed(m.commands, p.library), p.state) {
      if p.hasCommands {
        UnloadFreesRight(ps, builtins, i);
        MirrorCarries(Without(ps, i), builtins, p.state);
      } else {
        FreedCarries(m.commands, p.library, p.state);
        MirrorCarries(ps, builtins, p.state);
      }
      assert false;
    }
  }

  lemma OwnOne<S>(p: Plugin<S>)
    requires p.hasCommands
    ensures Own(p) == [EntryOf(p)]
  {
  }

  /** Sound, and no command carries an instance that has left. */
  predicate Tidy<S(==)>(w: World<S>, builtins: seq<Entry<S>>) {
    && Sound(w.now, builtins)
    && (forall i | 0 <= i < |w.gone| :: EndsClosed(w.gone[i].trace))
    && (forall i, j | 0 <= i < |w.gone| && 0 <= j < |w.now.plugins| :: w.gone[i].state != w.now.plugins[j].state)
  }

  lemma OwnerIsLoaded<S>(m: Machine<S>, builtins: seq<Entry<S>>, name: string)
    requires Sound(m, builtins) && OwnNothing(builtins)
    ensures var owner := Owner(m.commands, name);
            owner.Some? ==> exists j :: 0 <= j < |m.plugins| && m.plugins[j].state == owner.value
  {
    hide Mirror;
    var k := MatchAt(m.commands, name);
    if k < |m.commands| && m.commands[k].owner.Some? {
      MirrorCarries(m.plugins, builtins, m.commands[k].owner.value);
    }
  }

  lemma DoKeepsStates<S>(m: Machine<S>, step: Step<S>)
    requires step.ExecuteStep? || step.CommandStep?
    ensures |Do(m, step).plugins| == |m.plugins|
    ensures forall j | 0 <= j < |m.plugins| :: Do(m, step).plugins[j].state == m.plugins[j].state
  {
    hide Deliver, Lookup;
    if step.ExecuteStep? {
      forall j | 0 <= j < |m.plugins|
        ensures Deliver(m.plugins, step.rec)[j].state == m.plugins[j].state
      {
        DeliverKeepsIdentity(m.plugins, step.rec, j);
        SameState(Deliver(m.plugins, step.rec)[j], m.plugins[j]);
      }
    }
  }

  lemma SameState<S>(p: Plugin<S>, q: Plugin<S>)
    requires Identity(p) == Identity(q)
    ensures p.state == q.state
  {
    assert Identity(p).state == p.state && Identity(q).state == q.state;
  }

  /** A command never reaches an instance that has left, as long as the lists are sound. */
  lemma GoneUntold<S>(w: World<S>, builtins: seq<Entry<S>>, name: string, args: seq<string>)
    requires Tidy(w, builtins) && OwnNothing(builtins)
    ensures GoneAfter(w, CommandStep(name, args)) == w.gone
  {
    hide Sound, OwnNothing, Lookup, EndsClosed;
    OwnerIsLoaded(w.now, builtins, name);
  }

  lemma StepTidy<S>(w: World<S>, builtins: seq<Entry<S>>, step: Step<S>)
    requires Tidy(w, builtins) && OwnNothing(builtins) && Accounted(w)
    requires Feasible(w.now, step) && Brings(w, step) && Right(w.now, builtins, step)
    ensures Tidy(Live(w, step), builtins)
  {
    hide Sound, OwnNothing, EndsClosed, NeverClosed, ClosedOnce, Right, Find, Freed, Deliver, Lookup, Without;
    StepStaysSound(w.now, builtins, step);
    var ps := w.now.plugins;
    match step
    case LoadStep(p) =>
      assert Live(w, step).gone == w.gone && Live(w, step).now.plugins == ps + [p];
      assert forall j | 0 <= j < |ps + [p]| :: (ps + [p])[j] == if j < |ps| then ps[j] else p;
    case UnloadStep(name) =>
      FindsLoaded(w.now, name);
      var i := Find(ps, name);
      ClosingCloses(ps[i].trace);
      SoundStates(w.now, builtins);
      NoOtherState(ps, i);
      WithoutStates(ps, i);
      var closed, now := Closed(ps[i]), Live(w, step).now.plugins;
      assert now == Without(ps, i) && closed.state == ps[i].state;
      forall g, j | 0 <= g < |w.gone + [closed]| && 0 <= j < |now|
        ensures (w.gone + [closed])[g].state != now[j].state
      {
        assert now[j] in now;
      }
    case UnloadAllStep =>
      UnloadAllEmpties(w.now);
      forall i | 0 <= i < |ps|
        ensures EndsClosed(Closed(ps[i]).trace)
      {
        ClosingCloses(ps[i].trace);
      }
    case ExecuteStep(rec) =>
      DoKeepsStates(w.now, step);
    case CommandStep(name, args) =>
      DoKeepsStates(w.now, step);
      GoneUntold(w, builtins, name, args);
  }

  lemma SoundStates<S>(m: Machine<S>, builtins: seq<Entry<S>>)
    requires Sound(m, builtins)
    ensures DistinctStates(m.plugins)
  {
  }

  lemma WithoutStates<S>(ps: seq<Plugin<S>>, i: nat)
    requires i < |ps|
    ensures forall q | q in Without(ps, i) :: q in ps
  {
  }

  /**
   * Main result: in every run in which each unload frees the right command, the close is the last thing that
   * happens to an instance, and the only one.
   */
  lemma {:induction false} CloseIsTheEnd<S>(w: World<S>, builtins: seq<Entry<S>>, steps: seq<Step<S>>)
    requires Tidy(w, builtins) && OwnNothing(builtins) && Accounted(w) && Lives(w, steps)
    requires RunsFeasible(w.now, steps) && RunsRight(w.now, builtins, steps)
    ensures Tidy(End(w, steps), builtins)
    decreases |steps|
  {
    hide Tidy, OwnNothing, Accounted, Feasible, Brings, Right, Do, GoneAfter;
    if steps != [] {
      StepTidy(w, builtins, steps[0]);
      StepAccounted(w, steps[0]);
      CloseIsTheEnd(Live(w, steps[0]), builtins, steps[1..]);
    }
  }

  lemma StartsTidy<S>(builtins: seq<Entry<S>>)
    ensures Tidy(World(Machine([], builtins), []), builtins) && Accounted(World(Machine([], builtins), []))
  {
  }

  /** So it is from the start of a listener, whose built-in commands carry no instance. */
  lemma CloseIsTheEndOfAll<S>(builtins: seq<Entry<S>>, steps: seq<Step<S>>, i: nat)
    requires OwnNothing(builtins) && Lives(World(Machine([], builtins), []), steps)
    requires RunsFeasible(Machine([], builtins), steps) && RunsRight(Machine([], builtins), builtins, steps)
    requires i < |End(World(Machine([], builtins), []), steps).gone|
    ensures var t := End(World(Machine([], builtins), []), steps).gone[i].trace;
            t != [] && t[|t| - 1] == Close && forall k | 0 <= k < |t| - 1 :: t[k] != Close
  {
    hide End, Lives, RunsFeasible, RunsRight, Sound, OwnNothing;
    StartsTidy(builtins);
    CloseIsTheEnd(World(Machine([], builtins), []), builtins, steps);
    var t := End(World(Machine([], builtins), []), steps).gone[i].trace;
    assert EndsClosed(t);
    assert forall k | 0 <= k < |t| - 1 :: t[k] == t[..|t| - 1][k];
  }

  /** Otherwise it need not be: of two instances of one library the one that was closed still gets its commands. */
  lemma ClosedInstanceTold(a: Plugin<nat>, b: Plugin<nat>, args: seq<string>)
    requires a.library == b.library && a.hasCommands && b.hasCommands
    requires a.alias == Some("a") && b.alias == Some("b") && a.state == 0 && b.state == 1
    requires a.library != "a" && a.library != "b" && a.trace == []
    ensures var m := Load(Load(Machine([], []), a), b);
            var w := World(m, []);
            var unload, tell := UnloadStep(a.library), CommandStep("a", args);
            && Feasible(w.now, unload) && Feasible(Live(w, unload).now, tell)
            && Live(w, unload).gone == [a.(trace := [Close])]
            && Live(Live(w, unload), tell).gone == [a.(trace := [Close, Command(args)])]
  {
    hide Lookup, Freed, Machines.RunCommand;
    SameLibraryTwice(a, b);
    var m := Load(Load(Machine([], []), a), b);
    assert m.plugins == [a, b] && Find(m.plugins, a.library) == 0;
    var w := Live(World(m, []), UnloadStep(a.library));
    assert [] + [Close] == [Close] && Closed(a) == a.(trace := [Close]);
    assert w.gone == [] + [Closed(a)] == [Closed(a)];
    assert w.now == UnloadAt(m, 0);
    assert [Close] + [Command(args)] == [Close, Command(args)];
    assert Told(w.gone[0], Some(0), args) == a.(trace := [Close, Command(args)]);
  }
}
