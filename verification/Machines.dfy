/** The listener's plugins and commands as one state machine by value. */
module Machines {
  import opened Text
  import opened Records
  import opened Plugins
  import opened Commands

  /** The plugin list in chain order, and the command list that load_plugin and unload_plugin keep beside it. */
  datatype Machine<+S> = Machine(plugins: seq<Plugin<S>>, commands: seq<Entry<S>>)

  /** strcmp with the library path or with the alias, if there is one. */
  predicate GoesBy<S>(p: Plugin<S>, name: string) {
    p.library == name || p.alias == Some(name)
  }

  /** locate_plugin_by_name(): the first plugin that goes by the name, or the length of the list. */
  function Find<S>(ps: seq<Plugin<S>>, name: string): (i: nat)
    ensures i <= |ps|
    ensures forall k | 0 <= k < i :: !GoesBy(ps[k], name)
    ensures i < |ps| ==> GoesBy(ps[i], name)
  {
    if ps == [] || GoesBy(ps[0], name) then 0 else 1 + Find(ps[1..], name)
  }

  function EntryOf<S>(p: Plugin<S>): Entry<S> {
    Entry(p.library, if p.alias.Some? then p.alias.value else p.library, Some(p.state))
  }

  function Without<S>(ps: seq<Plugin<S>>, i: nat): seq<Plugin<S>>
    requires i < |ps|
  {
    ps[..i] + ps[i + 1..]
  }

  function Load<S>(m: Machine<S>, p: Plugin<S>): Machine<S> {
    Machine(m.plugins + [p], if p.hasCommands then [EntryOf(p)] + m.commands else m.commands)
  }

  function UnloadAt<S>(m: Machine<S>, i: nat): Machine<S>
    requires i < |m.plugins|
  {
    Machine(Without(m.plugins, i), Freed(m.commands, m.plugins[i].library))
  }

  function UnloadAll<S>(m: Machine<S>): Machine<S>
    decreases |m.plugins|
  {
    if m.plugins == [] then m else UnloadAll(UnloadAt(m, 0))
  }

  function Execute<S>(m: Machine<S>, rec: Record): Machine<S> {
    m.(plugins := Deliver(m.plugins, rec))
  }

  /** The plugin whose state pointer the command carries is told. */
  function Told<S(==)>(p: Plugin<S>, owner: Option<S>, args: seq<string>): Plugin<S> {
    if owner == Some(p.state) then p.(trace := p.trace + [Command(args)]) else p
  }

  function RunCommand<S(==)>(m: Machine<S>, name: string, args: seq<string>): Machine<S> {
    m.(plugins := seq(|m.plugins|, i requires 0 <= i < |m.plugins| => Told(m.plugins[i], Owner(m.commands, name), args)))
  }

  // The command list as a mirror of the plugin list.

  function Mirror<S>(ps: seq<Plugin<S>>): seq<Entry<S>> {
    if ps == [] then []
    else Mirror(ps[1..]) + Own(ps[0])
  }

  lemma {:induction false} MirrorAppend<S>(a: seq<Plugin<S>>, b: seq<Plugin<S>>)
    ensures Mirror(a + b) == Mirror(b) + Mirror(a)
  {
    hide Own;
    if a == [] {
      assert a + b == b;
    } else {
      MirrorAppend(a[1..], b);
      TailOfBoth(a, b);
      Associative(Mirror(b), Mirror(a[1..]), Own(a[0]));
    }
  }

  function Own<S>(p: Plugin<S>): seq<Entry<S>> {
    if p.hasCommands then [EntryOf(p)] else []
  }

  lemma {:induction false} MirrorOne<S>(p: Plugin<S>, rest: seq<Plugin<S>>)
    ensures Mirror([p] + rest) == Mirror(rest) + Own(p)
  {
    assert ([p] + rest)[1..] == rest;
  }

  lemma Parted<T>(s: seq<T>, i: nat)
    requires i < |s|
    ensures s == s[..i] + ([s[i]] + s[i + 1..])
  {
  }

  lemma MirrorOfParts<S>(early: seq<Plugin<S>>, p: Plugin<S>, late: seq<Plugin<S>>)
    ensures Mirror(early + ([p] + late)) == Mirror(late) + Own(p) + Mirror(early)
    ensures Mirror(early + late) == Mirror(late) + Mirror(early)
  {
    hide Mirror, Own;
    MirrorAppend(early, [p] + late);
    MirrorOne(p, late);
    MirrorAppend(early, late);
  }

  lemma MirrorAround<S>(ps: seq<Plugin<S>>, i: nat)
    requires i < |ps|
    ensures Mirror(ps) == Mirror(ps[i + 1..]) + Own(ps[i]) + Mirror(ps[..i])
    ensures Mirror(Without(ps, i)) == Mirror(ps[i + 1..]) + Mirror(ps[..i])
  {
    hide Mirror, Own;
    Parted(ps, i);
    MirrorOfParts(ps[..i], ps[i], ps[i + 1..]);
  }

  /** Some plugin with commands of its own goes by the name. */
  predicate Served<S>(ps: seq<Plugin<S>>, name: string) {
    exists j :: 0 <= j < |ps| && ps[j].hasCommands && GoesBy(ps[j], name)
  }

  lemma {:induction false} MirrorAnswers<S>(ps: seq<Plugin<S>>, name: string)
    ensures MatchAt(Mirror(ps), name) < |Mirror(ps)| <==> Served(ps, name)
  {
    if ps != [] {
      MirrorAnswers(ps[1..], name);
      var tail := Mirror(ps[1..]);
      MatchInBoth(tail, Own(ps[0]), name);
      if Served(ps[1..], name) {
        var j :| 0 <= j < |ps[1..]| && ps[1..][j].hasCommands && GoesBy(ps[1..][j], name);
        assert ps[j + 1].hasCommands;
      }
      if Served(ps, name) && !(ps[0].hasCommands && GoesBy(ps[0], name)) {
        var j :| 0 <= j < |ps| && ps[j].hasCommands && GoesBy(ps[j], name);
        assert ps[1..][j - 1].hasCommands;
      }
    }
  }

  lemma MatchInBoth<S>(a: seq<Entry<S>>, b: seq<Entry<S>>, name: string)
    ensures MatchAt(a + b, name) == if MatchAt(a, name) < |a| then MatchAt(a, name) else |a| + MatchAt(b, name)
  {
    var i := MatchAt(a, name);
    if i < |a| {
      MatchIs(a + b, name, i);
    } else {
      MatchIs(a + b, name, |a| + MatchAt(b, name));
    }
  }

  lemma LookupInBoth<S>(a: seq<Entry<S>>, b: seq<Entry<S>>, name: string)
    ensures Lookup(a + b, name) == if MatchAt(a, name) < |a| then Lookup(a, name) else Lookup(b, name)
  {
    MatchInBoth(a, b, name);
  }

  predicate DistinctStates<S(==)>(ps: seq<Plugin<S>>) {
    forall i, j | 0 <= i < j < |ps| :: ps[i].state != ps[j].state
  }

  lemma {:induction false} MirrorOwners<S>(ps: seq<Plugin<S>>, k: nat) returns (j: nat)
    requires k < |Mirror(ps)|
    ensures j < |ps| && Mirror(ps)[k] == EntryOf(ps[j]) && ps[j].hasCommands
  {
    if k < |Mirror(ps[1..])| {
      j := MirrorOwners(ps[1..], k);
      j := j + 1;
    } else {
      j := 0;
    }
  }

  lemma OwnNotLater<S>(ps: seq<Plugin<S>>, i: nat)
    requires i < |ps| && DistinctStates(ps)
    ensures EntryOf(ps[i]) !in Mirror(ps[i + 1..])
  {
    var later := ps[i + 1..];
    forall k | 0 <= k < |Mirror(later)|
      ensures Mirror(later)[k] != EntryOf(ps[i])
    {
      var j := MirrorOwners(later, k);
      assert later[j].state == ps[i + 1 + j].state != ps[i].state;
    }
  }

  /** Unloading plugin i takes its own command off the list, or none if it has none. */
  predicate FreesRight<S(==)>(ps: seq<Plugin<S>>, builtins: seq<Entry<S>>, i: nat)
    requires i < |ps|
  {
    Freed(Mirror(ps) + builtins, ps[i].library) == Mirror(Without(ps, i)) + builtins
  }

  /** No plugin loaded after plugin i answers to its path; without commands of its own, nothing at all does. */
  predicate RightUnload<S>(ps: seq<Plugin<S>>, builtins: seq<Entry<S>>, i: nat)
    requires i < |ps|
  {
    if ps[i].hasCommands then !Served(ps[i + 1..], ps[i].library)
    else !Served(ps, ps[i].library) && Lookup(builtins, ps[i].library).None?
  }

  /** A list in which something answers to the name is shorter once that is freed. */
  lemma FreeShortens<S>(cs: seq<Entry<S>>, name: string)
    ensures Freed(cs, name) == cs <==> Lookup(cs, name).None?
  {
  }

  /**
   * free_command() is given the library path only. The right command goes exactly when the plugin has
   * commands and no plugin loaded after it answers to that path, or when it has none and nothing does.
   */
  lemma UnloadFreesRight<S>(ps: seq<Plugin<S>>, builtins: seq<Entry<S>>, i: nat)
    requires i < |ps| && DistinctStates(ps)
    ensures FreesRight(ps, builtins, i) <==> RightUnload(ps, builtins, i)
  {
    hide Mirror, MatchAt, Freed, Served;
    var name := ps[i].library;
    var late, early := Mirror(ps[i + 1..]), Mirror(ps[..i]);
    MirrorAround(ps, i);
    assert Mirror(Without(ps, i)) + builtins == late + (early + builtins);
    if ps[i].hasCommands {
      var e := EntryOf(ps[i]);
      assert Mirror(ps) + builtins == late + [e] + (early + builtins);
      MirrorAnswers(ps[i + 1..], name);
      OwnNotLater(ps, i);
      FreeUndoesSet(late, e, early + builtins, name);
    } else {
      NoCommandNoMirror(ps, i);
      LookupMirror(ps, builtins, name);
      FreeShortens(Mirror(ps) + builtins, name);
    }
  }

  lemma {:induction false} MirrorNonempty<S>(ps: seq<Plugin<S>>)
    ensures Mirror(ps) == [] <==> forall j | 0 <= j < |ps| :: !ps[j].hasCommands
  {
    if ps != [] {
      MirrorNonempty(ps[1..]);
      assert forall j | 0 < j < |ps| :: ps[j] == ps[1..][j - 1];
    }
  }

  lemma WithoutHead<T>(s: seq<T>)
    requires s != []
    ensures s[..0] + s[1..] == s[1..]
  {
  }

  /** Taking the head off leaves the list without e only if e is the head. */
  lemma HeadInstead<T>(late: seq<T>, e: T, tail: seq<T>, all: seq<T>)
    requires all == late + [e] + tail && (late == [] || late[0] != e)
    ensures all[1..] == late + tail <==> late == []
  {
    WithoutMiddle(late, e, tail);
    WithoutHead(all);
    if late != [] && all[1..] == late + tail {
      RemovalsMeet(all, 0, |late|);
    }
  }

  lemma Regrouped<T>(a: seq<T>, b: seq<T>, c: seq<T>, d: seq<T>)
    ensures a + b + c + d == a + b + (c + d) && a + c + d == a + (c + d)
  {
  }

  lemma AsWrittenOwnCommand<S>(ps: seq<Plugin<S>>, builtins: seq<Entry<S>>, i: nat)
    requires i < |ps| && DistinctStates(ps) && ps[i].hasCommands
    ensures FreedAsWritten(Mirror(ps) + builtins, ps[i].library) == Mirror(Without(ps, i)) + builtins <==>
      Mirror(ps[i + 1..]) == []
  {
    hide Mirror, MatchAt, Lookup;
    var e, later := EntryOf(ps[i]), ps[i + 1..];
    var late, tail := Mirror(later), Mirror(ps[..i]) + builtins;
    var all := late + [e] + tail;
    MirrorAround(ps, i);
    Regrouped(late, [e], Mirror(ps[..i]), builtins);
    assert all[|late|] == e;
    SomethingAnswers(all, |late|, ps[i].library);
    OwnNotLater(ps, i);
    HeadInstead(late, e, tail, all);
  }

  /**
   * The same for free_command() as it is written: with the assignment in its condition the right command
   * goes exactly when the plugin has commands and none loaded after it has, or when it has none and
   * nothing answers to its path.
   */
  lemma AsWrittenUnloadsTheNewest<S>(ps: seq<Plugin<S>>, builtins: seq<Entry<S>>, i: nat)
    requires i < |ps| && DistinctStates(ps)
    ensures FreedAsWritten(Mirror(ps) + builtins, ps[i].library) == Mirror(Without(ps, i)) + builtins <==>
      if ps[i].hasCommands then forall j | i < j < |ps| :: !ps[j].hasCommands
      else !Served(ps, ps[i].library) && Lookup(builtins, ps[i].library).None?
  {
    hide Mirror, MatchAt, Served, Lookup, FreedAsWritten;
    var name := ps[i].library;
    if ps[i].hasCommands {
      var later := ps[i + 1..];
      AsWrittenOwnCommand(ps, builtins, i);
      MirrorNonempty(later);
      assert forall j | 0 <= j < |later| :: later[j] == ps[i + 1 + j];
      assert forall j | i < j < |ps| :: ps[j] == later[j - i - 1];
    } else {
      NoCommandNoMirror(ps, i);
      LookupMirror(ps, builtins, name);
      AsWrittenShortens(Mirror(ps) + builtins, name);
    }
  }

  lemma NoCommandNoMirror<S>(ps: seq<Plugin<S>>, i: nat)
    requires i < |ps| && !ps[i].hasCommands
    ensures Mirror(Without(ps, i)) == Mirror(ps)
  {
    hide Mirror;
    MirrorAround(ps, i);
  }

  lemma LookupMirror<S>(ps: seq<Plugin<S>>, builtins: seq<Entry<S>>, name: string)
    ensures Lookup(Mirror(ps) + builtins, name).None? <==> !Served(ps, name) && Lookup(builtins, name).None?
  {
    hide Mirror, Served, MatchAt;
    MirrorAnswers(ps, name);
    LookupInBoth(Mirror(ps), builtins, name);
  }

  lemma AsWrittenShortens<S>(cs: seq<Entry<S>>, name: string)
    ensures FreedAsWritten(cs, name) == cs <==> Lookup(cs, name).None?
  {
  }

  lemma {:induction false} SomethingAnswers<S>(cs: seq<Entry<S>>, k: nat, name: string)
    requires k < |cs| && Answers(cs[k], name)
    ensures MatchAt(cs, name) < |cs|
  {
  }

  /** The slip that a listener with two instances of one library meets: the wrong instance loses its command. */
  lemma SameLibraryTwice(a: Plugin<nat>, b: Plugin<nat>)
    requires a.library == b.library && a.hasCommands && b.hasCommands
    requires a.alias == Some("a") && b.alias == Some("b") && a.state == 0 && b.state == 1
    requires a.library != "a" && a.library != "b"
    ensures var m := UnloadAt(Load(Load(Machine([], []), a), b), 0);
            && m.plugins == [b]
            && Owner(m.commands, "a") == Some(a.state)
            && Lookup(m.commands, "b").None?
  {
    var cs := [EntryOf(b), EntryOf(a)];
    assert Load(Load(Machine([], []), a), b).commands == cs;
    MatchIs(cs, a.library, 0);
    assert Freed(cs, a.library) == [EntryOf(a)];
    assert Without([a, b], 0) == [b];
  }

  // Runs.

  datatype Step<+S> =
    | LoadStep(p: Plugin<S>)
    | UnloadStep(name: string)
    | UnloadAllStep
    | ExecuteStep(rec: Record)
    | CommandStep(name: string, args: seq<string>)

  function Do<S(==)>(m: Machine<S>, step: Step<S>): Machine<S>
    requires step.UnloadStep? ==> Find(m.plugins, step.name) < |m.plugins|
  {
    match step
    case LoadStep(p) => Load(m, p)
    case UnloadStep(name) => UnloadAt(m, Find(m.plugins, name))
    case UnloadAllStep => UnloadAll(m)
    case ExecuteStep(rec) => Execute(m, rec)
    case CommandStep(name, args) => RunCommand(m, name, args)
  }

  /** Every unload names a loaded plugin; nothing else is asked. */
  predicate Possible<S(==)>(m: Machine<S>, steps: seq<Step<S>>)
    decreases |steps|
  {
    steps == [] ||
    ((steps[0].UnloadStep? ==> Find(m.plugins, steps[0].name) < |m.plugins|) && Possible(Do(m, steps[0]), steps[1..]))
  }

  function Result<S(==)>(m: Machine<S>, steps: seq<Step<S>>): Machine<S>
    requires Possible(m, steps)
    decreases |steps|
  {
    if steps == [] then m else Result(Do(m, steps[0]), steps[1..])
  }

  // The plugin list of a run, as a plain list of identities.

  function Identities<S>(ps: seq<Plugin<S>>): (ids: seq<Plugin<S>>)
    ensures |ids| == |ps|
  {
    seq(|ps|, i requires 0 <= i < |ps| => Identity(ps[i]))
  }

  /** Loading appends, unloading removes the first that goes by the name, unloading all empties, the rest changes nothing. */
  function PlainStep<S>(ids: seq<Plugin<S>>, step: Step<S>): seq<Plugin<S>> {
    match step
    case LoadStep(p) => ids + [Identity(p)]
    case UnloadStep(name) => if Find(ids, name) < |ids| then Without(ids, Find(ids, name)) else ids
    case UnloadAllStep => []
    case _ => ids
  }

  function PlainRun<S>(ids: seq<Plugin<S>>, steps: seq<Step<S>>): seq<Plugin<S>>
    decreases |steps|
  {
    if steps == [] then ids else PlainRun(PlainStep(ids, steps[0]), steps[1..])
  }

  lemma {:induction false} FindByIdentity<S>(ps: seq<Plugin<S>>, name: string)
    ensures Find(Identities(ps), name) == Find(ps, name)
  {
    if ps != [] {
      FindByIdentity(ps[1..], name);
      assert Identities(ps)[1..] == Identities(ps[1..]);
    }
  }

  lemma {:induction false} UnloadAllEmpties<S>(m: Machine<S>)
    ensures UnloadAll(m).plugins == []
    decreases |m.plugins|
  {
    if m.plugins != [] {
      UnloadAllEmpties(UnloadAt(m, 0));
    }
  }

  lemma IdentitiesWithout<S>(ps: seq<Plugin<S>>, i: nat)
    requires i < |ps|
    ensures Identities(Without(ps, i)) == Without(Identities(ps), i)
  {
    hide Identity;
  }

  lemma SameByPlace<S>(ps: seq<Plugin<S>>, qs: seq<Plugin<S>>)
    requires |ps| == |qs| && forall i | 0 <= i < |ps| :: Identity(qs[i]) == Identity(ps[i])
    ensures Identities(qs) == Identities(ps)
  {
    hide Identity;
  }

  lemma StepIsPlain<S>(m: Machine<S>, step: Step<S>)
    requires step.UnloadStep? ==> Find(m.plugins, step.name) < |m.plugins|
    ensures Identities(Do(m, step).plugins) == PlainStep(Identities(m.plugins), step)
  {
    hide Deliver, GoesBy, Lookup, Identities, Without, Identity;
    match step
    case LoadStep(p) =>
      LoadedIdentities(m.plugins, p);
    case UnloadStep(name) =>
      FindByIdentity(m.plugins, name);
      IdentitiesWithout(m.plugins, Find(m.plugins, name));
    case UnloadAllStep =>
      UnloadAllEmpties(m);
      NoIdentities<S>();
    case ExecuteStep(rec) =>
      forall i | 0 <= i < |m.plugins|
        ensures Identity(Deliver(m.plugins, rec)[i]) == Identity(m.plugins[i])
      {
        DeliverKeepsIdentity(m.plugins, rec, i);
      }
      SameByPlace(m.plugins, Deliver(m.plugins, rec));
    case CommandStep(name, args) =>
      CommandKeepsIdentity(m, name, args);
      SameByPlace(m.plugins, RunCommand(m, name, args).plugins);
  }

  lemma LoadedIdentities<S>(ps: seq<Plugin<S>>, p: Plugin<S>)
    ensures Identities(ps + [p]) == Identities(ps) + [Identity(p)]
  {
    hide Identity;
  }

  lemma NoIdentities<S>()
    ensures Identities<S>([]) == []
  {
  }

  lemma CommandKeepsIdentity<S>(m: Machine<S>, name: string, args: seq<string>)
    ensures forall i | 0 <= i < |m.plugins| :: Identity(RunCommand(m, name, args).plugins[i]) == Identity(m.plugins[i])
  {
  }

  /**
   * Main result: after any interleaving of loads, unloads, deliveries and commands, the plugins, their names,
   * states and order are those of the plain list; only flags and histories are not.
   */
  lemma {:induction false} RunIsPlain<S>(m: Machine<S>, steps: seq<Step<S>>)
    requires Possible(m, steps)
    ensures Identities(Result(m, steps).plugins) == PlainRun(Identities(m.plugins), steps)
    decreases |steps|
  {
    hide Do, PlainStep, Identities;
    if steps != [] {
      StepIsPlain(m, steps[0]);
      RunIsPlain(Do(m, steps[0]), steps[1..]);
    }
  }

  // The pause protocol, which no name has a part in.

  predicate AllObey<S>(ps: seq<Plugin<S>>) {
    forall i | 0 <= i < |ps| :: Obeys(ps[i])
  }

  /** open_plugin leaves a plugin unpaused and without a history. */
  predicate LoadsFresh<S>(steps: seq<Step<S>>) {
    forall i | 0 <= i < |steps| && steps[i].LoadStep? :: !steps[i].p.paused && steps[i].p.trace == []
  }

  lemma StepObeys<S>(m: Machine<S>, step: Step<S>)
    requires AllObey(m.plugins) && (step.LoadStep? ==> !step.p.paused && step.p.trace == [])
    requires step.UnloadStep? ==> Find(m.plugins, step.name) < |m.plugins|
    ensures AllObey(Do(m, step).plugins)
  {
    hide Deliver, Lookup, GoesBy;
    match step
    case LoadStep(p) =>
      assert Obeys(p);
    case UnloadStep(name) =>
    case UnloadAllStep =>
      UnloadAllEmpties(m);
    case ExecuteStep(rec) =>
      DeliverObeys(m.plugins, rec);
    case CommandStep(name, args) =>
      forall i | 0 <= i < |m.plugins|
        ensures Obeys(RunCommand(m, name, args).plugins[i])
      {
        OneMoreCallback(m.plugins[i].behave, m.plugins[i].trace, Command(args));
      }
  }

  /**
   * Main result: in every run, whatever the plugins answer and whatever they are called, every plugin keeps
   * to the pause protocol: polled only while paused, given records only while not.
   */
  lemma {:induction false} RunsObey<S>(m: Machine<S>, steps: seq<Step<S>>)
    requires AllObey(m.plugins) && LoadsFresh(steps) && Possible(m, steps)
    ensures AllObey(Result(m, steps).plugins)
    decreases |steps|
  {
    hide AllObey, Do;
    if steps != [] {
      StepObeys(m, steps[0]);
      assert forall i | 0 <= i < |steps[1..]| :: steps[1..][i] == steps[i + 1];
      RunsObey(Do(m, steps[0]), steps[1..]);
    }
  }

  /** In every run of a listener, a plugin's paused flag is its refusals minus its resumptions since it was loaded. */
  lemma FlagsBalanceInEveryRun<S>(builtins: seq<Entry<S>>, steps: seq<Step<S>>, i: nat)
    requires LoadsFresh(steps) && Possible(Machine([], builtins), steps)
    requires i < |Result(Machine([], builtins), steps).plugins|
    ensures var p := Result(Machine([], builtins), steps).plugins[i];
            Legal(p.behave, p.trace) &&
            Refusals(p.behave, p.trace) - Resumptions(p.behave, p.trace) == if p.paused then 1 else 0
  {
    hide Result;
    var m := Machine([], builtins);
    RunsObey(m, steps);
    var p := Result(m, steps).plugins[i];
    assert Obeys(p);
    PausesBalance(p.behave, p.trace);
  }

  // Names and commands.

  /** What the listener relies on: distinct states, and a command list that mirrors the plugin list. */
  predicate Sound<S(==)>(m: Machine<S>, builtins: seq<Entry<S>>) {
    DistinctStates(m.plugins) && m.commands == Mirror(m.plugins) + builtins
  }

  /** The listener starts with its built-in commands and no plugins. */
  lemma StartsSound<S>(builtins: seq<Entry<S>>)
    ensures Sound(Machine([], builtins), builtins)
  {
  }

  /** An unload names a loaded plugin, and open_plugin returns a state that no loaded plugin has. */
  predicate Feasible<S(==)>(m: Machine<S>, step: Step<S>) {
    match step
    case LoadStep(p) => forall i | 0 <= i < |m.plugins| :: m.plugins[i].state != p.state
    case UnloadStep(name) => Find(m.plugins, name) < |m.plugins|
    case _ => true
  }

  predicate RightUnloads<S>(ps: seq<Plugin<S>>, builtins: seq<Entry<S>>) {
    ps == [] || (RightUnload(ps, builtins, 0) && RightUnloads(ps[1..], builtins))
  }

  /** Whatever the step unloads, nothing in the way answers to its path. */
  predicate Right<S(==)>(m: Machine<S>, builtins: seq<Entry<S>>, step: Step<S>)
    requires Feasible(m, step)
  {
    match step
    case UnloadStep(name) => RightUnload(m.plugins, builtins, Find(m.plugins, name))
    case UnloadAllStep => RightUnloads(m.plugins, builtins)
    case _ => true
  }

  predicate RunsFeasible<S(==)>(m: Machine<S>, steps: seq<Step<S>>)
    decreases |steps|
  {
    steps == [] || (Feasible(m, steps[0]) && RunsFeasible(Do(m, steps[0]), steps[1..]))
  }

  predicate RunsRight<S(==)>(m: Machine<S>, builtins: seq<Entry<S>>, steps: seq<Step<S>>)
    requires RunsFeasible(m, steps)
    decreases |steps|
  {
    steps == [] || (Right(m, builtins, steps[0]) && RunsRight(Do(m, steps[0]), builtins, steps[1..]))
  }

  /** Sound after every plugin that unloading all takes off the head. */
  predicate SoundToTheEnd<S(==)>(m: Machine<S>, builtins: seq<Entry<S>>)
    decreases |m.plugins|
  {
    Sound(m, builtins) && (m.plugins == [] || SoundToTheEnd(UnloadAt(m, 0), builtins))
  }

  predicate StepSound<S(==)>(m: Machine<S>, builtins: seq<Entry<S>>, step: Step<S>)
    requires Feasible(m, step)
  {
    if step.UnloadAllStep? then SoundToTheEnd(m, builtins) else Sound(Do(m, step), builtins)
  }

  /** Sound after every step. */
  predicate SoundThroughout<S(==)>(m: Machine<S>, builtins: seq<Entry<S>>, steps: seq<Step<S>>)
    requires RunsFeasible(m, steps)
    decreases |steps|
  {
    steps == [] || (StepSound(m, builtins, steps[0]) && SoundThroughout(Do(m, steps[0]), builtins, steps[1..]))
  }

  lemma {:induction false} MirrorOfIdentities<S>(ps: seq<Plugin<S>>, qs: seq<Plugin<S>>)
    requires |ps| == |qs| && forall i | 0 <= i < |ps| :: Identity(ps[i]) == Identity(qs[i])
    ensures Mirror(ps) == Mirror(qs)
  {
    if ps != [] {
      MirrorOfIdentities(ps[1..], qs[1..]);
      assert Identity(ps[0]) == Identity(qs[0]);
    }
  }

  /** Flags and histories are all that may change; then states and the mirror are as they were. */
  lemma SameIdentities<S>(m: Machine<S>, builtins: seq<Entry<S>>, qs: seq<Plugin<S>>)
    requires Sound(m, builtins) && |qs| == |m.plugins|
    requires forall i | 0 <= i < |qs| :: Identity(qs[i]) == Identity(m.plugins[i])
    ensures Sound(m.(plugins := qs), builtins)
  {
    hide Mirror;
    var ps := m.plugins;
    MirrorOfIdentities(ps, qs);
    forall i | 0 <= i < |ps|
      ensures qs[i].state == ps[i].state
    {
      assert Identity(qs[i]) == Identity(ps[i]);
    }
  }

  lemma LoadSound<S>(m: Machine<S>, builtins: seq<Entry<S>>, p: Plugin<S>)
    requires Sound(m, builtins) && Feasible(m, LoadStep(p))
    ensures Sound(Load(m, p), builtins)
  {
    hide Mirror;
    LoadMirrors(m.plugins, p);
    Associative(Own(p), Mirror(m.plugins), builtins);
  }

  lemma LoadMirrors<S>(ps: seq<Plugin<S>>, p: Plugin<S>)
    ensures Mirror(ps + [p]) == Own(p) + Mirror(ps)
  {
    hide Mirror;
    MirrorAppend(ps, [p]);
    assert [p] == [p] + [];
    MirrorOne(p, []);
    EmptyMirror<S>();
  }

  lemma EmptyMirror<S>()
    ensures Mirror<S>([]) == []
  {
  }

  /** Unloading keeps the mirror exactly when nothing in the way answers to the path. */
  lemma UnloadSound<S>(m: Machine<S>, builtins: seq<Entry<S>>, i: nat)
    requires Sound(m, builtins) && i < |m.plugins|
    ensures Sound(UnloadAt(m, i), builtins) <==> RightUnload(m.plugins, builtins, i)
  {
    hide Mirror, Freed, RightUnload;
    var ps := m.plugins;
    UnloadFreesRight(ps, builtins, i);
    var qs := Without(ps, i);
    forall k | 0 <= k < |qs|
      ensures qs[k] == ps[if k < i then k else k + 1]
    {
    }
  }

  lemma {:induction false} UnloadAllSound<S>(m: Machine<S>, builtins: seq<Entry<S>>)
    requires Sound(m, builtins)
    ensures SoundToTheEnd(m, builtins) <==> RightUnloads(m.plugins, builtins)
    ensures SoundToTheEnd(m, builtins) ==> Sound(UnloadAll(m), builtins)
    decreases |m.plugins|
  {
    hide Sound, RightUnload, Freed;
    if m.plugins != [] {
      UnloadSound(m, builtins, 0);
      WithoutHead(m.plugins);
      if RightUnload(m.plugins, builtins, 0) {
        UnloadAllSound(UnloadAt(m, 0), builtins);
      } else {
        NotToTheEnd(UnloadAt(m, 0), builtins);
      }
    }
  }

  lemma NotToTheEnd<S>(m: Machine<S>, builtins: seq<Entry<S>>)
    requires !Sound(m, builtins)
    ensures !SoundToTheEnd(m, builtins)
  {
  }

  lemma ExecuteSound<S>(m: Machine<S>, builtins: seq<Entry<S>>, rec: Record)
    requires Sound(m, builtins)
    ensures Sound(Execute(m, rec), builtins)
  {
    hide Deliver, Identity, Mirror;
    forall i | 0 <= i < |m.plugins|
      ensures Identity(Deliver(m.plugins, rec)[i]) == Identity(m.plugins[i])
    {
      DeliverKeepsIdentity(m.plugins, rec, i);
    }
    SameIdentities(m, builtins, Deliver(m.plugins, rec));
  }

  lemma CommandSound<S>(m: Machine<S>, builtins: seq<Entry<S>>, name: string, args: seq<string>)
    requires Sound(m, builtins)
    ensures Sound(RunCommand(m, name, args), builtins)
  {
    CommandKeepsIdentity(m, name, args);
    SameIdentities(m, builtins, RunCommand(m, name, args).plugins);
  }

  lemma StepStaysSound<S>(m: Machine<S>, builtins: seq<Entry<S>>, step: Step<S>)
    requires Sound(m, builtins) && Feasible(m, step)
    ensures StepSound(m, builtins, step) <==> Right(m, builtins, step)
    ensures StepSound(m, builtins, step) ==> Sound(Do(m, step), builtins)
  {
    hide Sound, RightUnload, RightUnloads, SoundToTheEnd;
    match step
    case LoadStep(p) => LoadSound(m, builtins, p);
    case UnloadStep(name) => UnloadSound(m, builtins, Find(m.plugins, name));
    case UnloadAllStep => UnloadAllSound(m, builtins);
    case ExecuteStep(rec) => ExecuteSound(m, builtins, rec);
    case CommandStep(name, args) => CommandSound(m, builtins, name, args);
  }

  /**
   * Main result: in every run of loads, unloads, deliveries and commands, whatever the plugins are called, the
   * states stay distinct and the command list stays the mirror of the plugin list in front of the built-in
   * commands exactly when, at every unload, nothing in the way answers to the path of what is unloaded.
   */
  lemma {:induction false} RunsStaySound<S>(m: Machine<S>, builtins: seq<Entry<S>>, steps: seq<Step<S>>)
    requires Sound(m, builtins) && RunsFeasible(m, steps)
    ensures SoundThroughout(m, builtins, steps) <==> RunsRight(m, builtins, steps)
    ensures Possible(m, steps) && (RunsRight(m, builtins, steps) ==> Sound(Result(m, steps), builtins))
    decreases |steps|
  {
    hide Sound, StepSound, Right, Do;
    if steps != [] {
      StepStaysSound(m, builtins, steps[0]);
      FeasibleIsPossible(m, steps);
      if Right(m, builtins, steps[0]) {
        RunsStaySound(Do(m, steps[0]), builtins, steps[1..]);
      }
    }
  }

  lemma {:induction false} FeasibleIsPossible<S>(m: Machine<S>, steps: seq<Step<S>>)
    requires RunsFeasible(m, steps)
    ensures Possible(m, steps)
    decreases |steps|
  {
    hide Do;
    if steps != [] {
      FeasibleIsPossible(Do(m, steps[0]), steps[1..]);
    }
  }

  /** The plugin loaded last among those with commands that go by the name. */
  function Newest<S>(ps: seq<Plugin<S>>, name: string): (j: Option<nat>)
    ensures j.None? <==> forall k | 0 <= k < |ps| :: !(ps[k].hasCommands && GoesBy(ps[k], name))
    ensures j.Some? ==>
      && j.value < |ps| && ps[j.value].hasCommands && GoesBy(ps[j.value], name)
      && forall k | j.value < k < |ps| :: !(ps[k].hasCommands && GoesBy(ps[k], name))
  {
    if ps == [] then None
    else
      var last := |ps| - 1;
      if ps[last].hasCommands && GoesBy(ps[last], name) then Some(last) else Newest(ps[..last], name)
  }

  lemma {:induction false} NewestServes<S>(ps: seq<Plugin<S>>, builtins: seq<Entry<S>>, name: string)
    ensures Lookup(Mirror(ps) + builtins, name)
         == match Newest(ps, name)
            case Some(j) => Some(EntryOf(ps[j]))
            case None => Lookup(builtins, name)
  {
    hide Mirror, Lookup;
    if ps == [] {
      EmptyMirror<S>();
      assert [] + builtins == builtins;
    } else {
      var init, p := ps[..|ps| - 1], ps[|ps| - 1];
      assert ps == init + [p];
      NewestServes(init, builtins, name);
      LoadMirrors(init, p);
      Associative(Own(p), Mirror(init), builtins);
      LookupOwn(p, Mirror(init) + builtins, name);
    }
  }

  lemma LookupOwn<S>(p: Plugin<S>, cs: seq<Entry<S>>, name: string)
    ensures Lookup(Own(p) + cs, name) == if p.hasCommands && GoesBy(p, name) then Some(EntryOf(p)) else Lookup(cs, name)
  {
    hide Lookup;
    LookupInBoth(Own(p), cs, name);
    if p.hasCommands {
      LookupOne(EntryOf(p), name);
    }
  }

  lemma LookupOne<S>(e: Entry<S>, name: string)
    ensures MatchAt([e], name) < 1 <==> Answers(e, name)
    ensures Answers(e, name) ==> Lookup([e], name) == Some(e)
  {
  }

  /**
   * Dispatch while the lists are sound: a name reaches the newest plugin with commands that goes by it, and
   * its own state; any other name resolves as it does among the built-in commands.
   */
  lemma DispatchReachesLoaded<S>(m: Machine<S>, builtins: seq<Entry<S>>, name: string)
    requires Sound(m, builtins)
    ensures Lookup(m.commands, name)
         == match Newest(m.plugins, name)
            case Some(j) => Some(EntryOf(m.plugins[j]))
            case None => Lookup(builtins, name)
  {
    hide Mirror, Lookup;
    NewestServes(m.plugins, builtins, name);
  }

  /** The same for every run from the start, whatever was loaded and unloaded on the way, and under what names. */
  lemma DispatchInEveryRun<S>(builtins: seq<Entry<S>>, steps: seq<Step<S>>, name: string)
    requires RunsFeasible(Machine([], builtins), steps) && RunsRight(Machine([], builtins), builtins, steps)
    ensures Possible(Machine([], builtins), steps)
    ensures var m := Result(Machine([], builtins), steps);
            Lookup(m.commands, name)
            == match Newest(m.plugins, name)
               case Some(j) => Some(EntryOf(m.plugins[j]))
               case None => Lookup(builtins, name)
  {
    hide Sound, Lookup, Result, RunsFeasible, RunsRight;
    StartsSound(builtins);
    RunsStaySound(Machine([], builtins), builtins, steps);
    DispatchReachesLoaded(Result(Machine([], builtins), steps), builtins, name);
  }

  /** A command changes the history of the newest plugin that goes by its name, and of no other. */
  lemma CommandReachesItsPlugin<S>(m: Machine<S>, builtins: seq<Entry<S>>, name: string, args: seq<string>)
    requires Sound(m, builtins) && (Newest(m.plugins, name).Some? || Owner(builtins, name).None?)
    ensures forall k | 0 <= k < |m.plugins| ::
              RunCommand(m, name, args).plugins[k]
              == if Newest(m.plugins, name) == Some(k) then m.plugins[k].(trace := m.plugins[k].trace + [Command(args)])
                 else m.plugins[k]
  {
    hide Lookup, Mirror, Newest;
    DispatchReachesLoaded(m, builtins, name);
    NewestIsLoaded(m.plugins, name);
  }

  lemma NewestIsLoaded<S>(ps: seq<Plugin<S>>, name: string)
    ensures Newest(ps, name).Some? ==> Newest(ps, name).value < |ps|
  {
  }

  // Plugins loaded under names of their own.

  /** No name of p is a name of q. */
  predicate NamesApart<S>(p: Plugin<S>, q: Plugin<S>) {
    && !GoesBy(q, p.library) && !GoesBy(p, q.library)
    && (p.alias.Some? ==> !GoesBy(q, p.alias.value))
  }

  predicate NamesFree<S>(p: Plugin<S>, builtins: seq<Entry<S>>) {
    forall k | 0 <= k < |builtins| :: !GoesBy(p, builtins[k].name) && !GoesBy(p, builtins[k].shortName)
  }

  predicate DistinctNames<S>(ps: seq<Plugin<S>>, builtins: seq<Entry<S>>) {
    && (forall i, j | 0 <= i < j < |ps| :: NamesApart(ps[i], ps[j]))
    && (forall i | 0 <= i < |ps| :: NamesFree(ps[i], builtins))
  }

  /** With distinct names only the plugin itself answers to its library path. */
  lemma NothingElseAnswers<S>(ps: seq<Plugin<S>>, builtins: seq<Entry<S>>, i: nat)
    requires DistinctNames(ps, builtins) && i < |ps|
    ensures RightUnload(ps, builtins, i)
  {
    var name := ps[i].library;
    forall j | 0 <= j < |ps| && j != i
      ensures !GoesBy(ps[j], name)
    {
      if j < i {
        assert NamesApart(ps[j], ps[i]);
      } else {
        assert NamesApart(ps[i], ps[j]);
      }
    }
    assert NamesFree(ps[i], builtins);
  }

  lemma {:induction false} AllUnloadsRight<S>(ps: seq<Plugin<S>>, builtins: seq<Entry<S>>)
    requires DistinctNames(ps, builtins)
    ensures RightUnloads(ps, builtins)
  {
    hide NamesApart, NamesFree, RightUnload;
    if ps != [] {
      NothingElseAnswers(ps, builtins, 0);
      AllUnloadsRight(ps[1..], builtins);
    }
  }

  /** Every load brings names that no loaded plugin and no built-in command has. */
  predicate OwnNames<S(==)>(m: Machine<S>, builtins: seq<Entry<S>>, steps: seq<Step<S>>)
    requires RunsFeasible(m, steps)
    decreases |steps|
  {
    steps == [] ||
    (BringsOwnNames(m.plugins, builtins, steps[0]) && OwnNames(Do(m, steps[0]), builtins, steps[1..]))
  }

  predicate BringsOwnNames<S>(ps: seq<Plugin<S>>, builtins: seq<Entry<S>>, step: Step<S>) {
    step.LoadStep? ==> NamesFree(step.p, builtins) && forall i | 0 <= i < |ps| :: NamesApart(ps[i], step.p)
  }

  lemma NamesByIdentity<S>(ps: seq<Plugin<S>>, builtins: seq<Entry<S>>)
    ensures DistinctNames(Identities(ps), builtins) <==> DistinctNames(ps, builtins)
  {
    forall i, j | 0 <= i < j < |ps|
      ensures NamesApart(Identities(ps)[i], Identities(ps)[j]) <==> NamesApart(ps[i], ps[j])
    {
    }
    forall i | 0 <= i < |ps|
      ensures NamesFree(Identities(ps)[i], builtins) <==> NamesFree(ps[i], builtins)
    {
    }
  }

  lemma {:induction false} NewcomerFits<S>(ps: seq<Plugin<S>>, builtins: seq<Entry<S>>, p: Plugin<S>)
    requires DistinctNames(ps, builtins) && BringsOwnNames(ps, builtins, LoadStep(p))
    ensures DistinctNames(ps + [Identity(p)], builtins)
  {
    hide Identity;
    forall i | 0 <= i < |ps|
      ensures NamesApart(ps[i], Identity(p))
    {
      SameNames(p);
      assert NamesApart(ps[i], p);
    }
    SameNames(p);
    assert NamesFree(p, builtins);
  }

  lemma SameNames<S>(p: Plugin<S>)
    ensures Identity(p).library == p.library && Identity(p).alias == p.alias
  {
  }

  lemma PlainStepKeepsNames<S>(ids: seq<Plugin<S>>, builtins: seq<Entry<S>>, step: Step<S>)
    requires DistinctNames(ids, builtins) && BringsOwnNames(ids, builtins, step)
    ensures DistinctNames(PlainStep(ids, step), builtins)
  {
    hide DistinctNames, Identity, BringsOwnNames, Without;
    if step.LoadStep? {
      NewcomerFits(ids, builtins, step.p);
    } else if step.UnloadStep? && Find(ids, step.name) < |ids| {
      WithoutKeepsNames(ids, builtins, Find(ids, step.name));
    } else if step.UnloadAllStep? {
      NoNames(builtins);
    }
  }

  lemma WithoutKeepsNames<S>(ps: seq<Plugin<S>>, builtins: seq<Entry<S>>, i: nat)
    requires DistinctNames(ps, builtins) && i < |ps|
    ensures DistinctNames(Without(ps, i), builtins)
  {
    hide NamesApart, NamesFree;
  }

  lemma NoNames<S>(builtins: seq<Entry<S>>)
    ensures DistinctNames([], builtins)
  {
  }

  /** Such runs are right at every unload, so that each plugin with commands is reached by each of its names. */
  lemma {:induction false} OwnNamesRunRight<S>(m: Machine<S>, builtins: seq<Entry<S>>, steps: seq<Step<S>>)
    requires DistinctNames(m.plugins, builtins) && RunsFeasible(m, steps) && OwnNames(m, builtins, steps)
    ensures RunsRight(m, builtins, steps) && Possible(m, steps) && DistinctNames(Result(m, steps).plugins, builtins)
    decreases |steps|
  {
    hide DistinctNames, Do, RightUnload, RightUnloads, BringsOwnNames;
    if steps != [] {
      StepKeepsNames(m, builtins, steps[0]);
      OwnNamesRunRight(Do(m, steps[0]), builtins, steps[1..]);
    }
  }

  lemma BringsByIdentity<S>(ps: seq<Plugin<S>>, builtins: seq<Entry<S>>, step: Step<S>)
    requires BringsOwnNames(ps, builtins, step)
    ensures BringsOwnNames(Identities(ps), builtins, step)
  {
    if step.LoadStep? {
      forall i | 0 <= i < |ps|
        ensures NamesApart(Identities(ps)[i], step.p)
      {
        assert NamesApart(ps[i], step.p);
      }
    }
  }

  lemma StepKeepsNames<S>(m: Machine<S>, builtins: seq<Entry<S>>, step: Step<S>)
    requires DistinctNames(m.plugins, builtins) && Feasible(m, step) && BringsOwnNames(m.plugins, builtins, step)
    ensures Right(m, builtins, step) && DistinctNames(Do(m, step).plugins, builtins)
  {
    hide DistinctNames, BringsOwnNames, Do, RightUnload, RightUnloads, PlainStep, Identities;
    if step.UnloadStep? {
      NothingElseAnswers(m.plugins, builtins, Find(m.plugins, step.name));
    } else if step.UnloadAllStep? {
      AllUnloadsRight(m.plugins, builtins);
    }
    StepIsPlain(m, step);
    BringsByIdentity(m.plugins, builtins, step);
    NamesByIdentity(m.plugins, builtins);
    NamesByIdentity(Do(m, step).plugins, builtins);
    PlainStepKeepsNames(Identities(m.plugins), builtins, step);
  }

  lemma NotBoth<S>(p: Plugin<S>, q: Plugin<S>, name: string)
    requires NamesApart(p, q)
    ensures !GoesBy(p, name) || !GoesBy(q, name)
  {
  }

  lemma OnlyOneGoesBy<S>(ps: seq<Plugin<S>>, builtins: seq<Entry<S>>, name: string, j: nat)
    requires DistinctNames(ps, builtins) && j < |ps| && ps[j].hasCommands && GoesBy(ps[j], name)
    ensures Newest(ps, name) == Some(j) && Lookup(builtins, name).None?
  {
    hide NamesApart;
    forall i | 0 <= i < |ps| && i != j
      ensures !GoesBy(ps[i], name)
    {
      if i < j {
        NotBoth(ps[i], ps[j], name);
      } else {
        NotBoth(ps[j], ps[i], name);
      }
    }
    assert NamesFree(ps[j], builtins);
  }

  /** In such a run each name of a loaded plugin with commands reaches it, and each built-in name is reached as ever. */
  lemma OwnNamesReach<S>(builtins: seq<Entry<S>>, steps: seq<Step<S>>, name: string)
    requires RunsFeasible(Machine([], builtins), steps) && OwnNames(Machine([], builtins), builtins, steps)
    ensures Possible(Machine([], builtins), steps)
    ensures var m := Result(Machine([], builtins), steps);
            && (forall i | 0 <= i < |m.plugins| && m.plugins[i].hasCommands && GoesBy(m.plugins[i], name) ::
                  Lookup(m.commands, name) == Some(EntryOf(m.plugins[i])))
            && (Lookup(builtins, name).Some? ==> Lookup(m.commands, name) == Lookup(builtins, name))
  {
    hide Lookup, Result, RunsFeasible, RunsRight, OwnNames, GoesBy, NamesApart;
    OwnNamesRunRight(Machine([], builtins), builtins, steps);
    DispatchInEveryRun(builtins, steps, name);
    var m := Result(Machine([], builtins), steps);
    forall i | 0 <= i < |m.plugins| && m.plugins[i].hasCommands && GoesBy(m.plugins[i], name)
      ensures Newest(m.plugins, name) == Some(i) && Lookup(builtins, name).None?
    {
      OnlyOneGoesBy(m.plugins, builtins, name, i);
    }
  }
}
