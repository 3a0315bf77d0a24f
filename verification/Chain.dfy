/** The plugin chain of plugin_chain.c: a singly linked list on the heap, edited in place. */
module Chain {
  import opened Text
  import opened Records
  import opened Plugins
  import opened Instances
  import opened Commands
  import opened Machines

  class PluginNode {
    const library: string
    const alias: Option<string>
    const hasCommands: bool
    const state: Instance
    var paused: bool
    var next: PluginNode?

    constructor (library: string, alias: Option<string>, hasCommands: bool, state: Instance)
      ensures this.library == library && this.alias == alias && this.hasCommands == hasCommands && this.state == state
      ensures !paused && next == null
    {
      this.library, this.alias, this.hasCommands, this.state := library, alias, hasCommands, state;
      paused, next := false, null;
    }
  }

  ghost function NodeAt(ns: seq<PluginNode>, i: nat): PluginNode? {
    if i < |ns| then ns[i] else null
  }

  /** From `head`, following `next`, come exactly the nodes of ns, all different, and then NULL. */
  ghost predicate Chained(head: PluginNode?, ns: seq<PluginNode>)
    reads ns`next
  {
    && head == NodeAt(ns, 0)
    && (forall i | 0 <= i < |ns| :: ns[i].next == NodeAt(ns, i + 1))
    && (forall i, j | 0 <= i < j < |ns| :: ns[i] != ns[j])
  }

  lemma HeadOf(head: PluginNode?, ns: seq<PluginNode>)
    requires Chained(head, ns)
    ensures head == NodeAt(ns, 0)
  {
  }

  lemma NextOf(head: PluginNode?, ns: seq<PluginNode>, k: nat)
    requires Chained(head, ns) && k < |ns|
    ensures ns[k].next == NodeAt(ns, k + 1)
  {
  }

  lemma Different(head: PluginNode?, ns: seq<PluginNode>, i: nat, j: nat)
    requires Chained(head, ns) && i < |ns| && j < |ns| && i != j
    ensures ns[i] != ns[j]
  {
  }

  lemma IsHead(head: PluginNode?, ns: seq<PluginNode>, k: nat)
    requires Chained(head, ns) && k < |ns| && head == ns[k]
    ensures k == 0
  {
  }

  /** Moving delivery one place on: `done` is what the places before hold now. */
  lemma DeliverStep(before: seq<Plugin<Instance>>, done: seq<Plugin<Instance>>, rec: Record)
    requires |done| < |before| && Deliver(before, rec) == done + Deliver(before[|done|..], rec)
    ensures var k := |done|;
            var p := Polled(before[k]);
            var now := done + [Offered(p, rec)];
            && (done + before[k..])[k := Offered(p, rec)] == now + before[k + 1..]
            && Deliver(before, rec) == now + if DropsNow(p, rec) then before[k + 1..] else Deliver(before[k + 1..], rec)
  {
    hide Deliver, Polled, Offered, DropsNow;
    var k := |done|;
    DeliverHead(before[k..], rec);
    assert before[k..][1..] == before[k + 1..];
  }

  /** A chained list in which one node was bypassed is chained without that node. */
  lemma Rechained(head: PluginNode?, before: seq<PluginNode>, ns: seq<PluginNode>, k: nat)
    requires k < |before| && ns == before[..k] + before[k + 1..] && head == NodeAt(ns, 0)
    requires forall i, j | 0 <= i < j < |before| :: before[i] != before[j]
    requires forall i | 0 <= i < |before| && i != k ::
      before[i].next == NodeAt(before, if i + 1 == k then i + 2 else i + 1)
    ensures Chained(head, ns)
  {
    forall i | 0 <= i < |ns|
      ensures ns[i].next == NodeAt(ns, i + 1)
    {
      var j := if i < k then i else i + 1;
      assert ns[i] == before[j];
    }
  }

  /** A chained list whose last node was given a next one is chained with that node. */
  lemma Lengthened(head: PluginNode?, before: seq<PluginNode>, node: PluginNode)
    requires node !in before && node.next == null && head == NodeAt(before + [node], 0)
    requires forall i, j | 0 <= i < j < |before| :: before[i] != before[j]
    requires forall i | 0 <= i < |before| :: before[i].next == NodeAt(before + [node], i + 1)
    ensures Chained(head, before + [node])
  {
    var ns := before + [node];
    forall i | 0 <= i < |ns|
      ensures ns[i].next == NodeAt(ns, i + 1)
    {
      assert i < |before| ==> ns[i] == before[i];
    }
  }

  lemma ChainedTail(head: PluginNode?, ns: seq<PluginNode>)
    requires Chained(head, ns) && ns != []
    ensures head == ns[0] && Chained(ns[0].next, ns[1..])
  {
    assert ns[..0] + ns[1..] == ns[1..];
    Rechained(ns[0].next, ns, ns[1..], 0);
  }

  lemma OwnStatesWith(ns: seq<PluginNode>, n: PluginNode)
    requires OwnStates(ns) && n.state !in States(ns)
    ensures OwnStates(ns + [n])
  {
  }

  lemma OwnStatesWithout(ns: seq<PluginNode>, k: nat)
    requires OwnStates(ns) && k < |ns|
    ensures OwnStates(ns[..k] + ns[k + 1..])
  {
  }

  lemma OtherStates(ns: seq<PluginNode>, k: nat)
    requires OwnStates(ns) && k < |ns|
    ensures forall i | 0 <= i < |ns| && i != k :: ns[i].state != ns[k].state
  {
  }

  ghost function States(ns: seq<PluginNode>): set<Instance> {
    set i | 0 <= i < |ns| :: ns[i].state
  }

  ghost predicate OwnStates(ns: seq<PluginNode>) {
    forall i, j | 0 <= i < j < |ns| :: ns[i].state != ns[j].state
  }

  /** A node by value. */
  ghost function View(n: PluginNode): Plugin<Instance>
    reads n`paused, n.state`trace
  {
    Plugin(n.library, n.alias, n.hasCommands, n.state, n.state.behave, n.paused, n.state.trace)
  }

  ghost function Views(ns: seq<PluginNode>): (ps: seq<Plugin<Instance>>)
    reads ns`paused, States(ns)`trace
    ensures |ps| == |ns|
    ensures forall i | 0 <= i < |ns| :: ps[i] == View(ns[i])
    decreases |ns|
  {
    if ns == [] then []
    else
      assert ns[0].state in States(ns);
      assert forall i | 0 <= i < |ns[1..]| :: ns[1..][i].state == ns[i + 1].state;
      [View(ns[0])] + Views(ns[1..])
  }

  lemma ViewsAre(ns: seq<PluginNode>, ps: seq<Plugin<Instance>>)
    requires |ps| == |ns| && forall i | 0 <= i < |ns| :: View(ns[i]) == ps[i]
    ensures Views(ns) == ps
  {
  }

  lemma ViewsRemoved(ns: seq<PluginNode>, i: nat)
    requires i < |ns|
    ensures Views(ns[..i] + ns[i + 1..]) == Without(Views(ns), i)
  {
    hide Views;
    ViewsAre(ns[..i] + ns[i + 1..], Without(Views(ns), i));
  }

  /** What dlopen, dlsym and open_plugin answer to a load; a plugin that opens is an instance of its own. */
  datatype OpenAnswer = NoLibrary | MissingEntryPoint | OpenFailed | Opened(hasCommands: bool, behave: Behaviour)

  class PluginChain {
    var plugins: PluginNode?
    const registry: Registry
    ghost var spine: seq<PluginNode>

    ghost predicate Valid()
      reads this, spine`next, registry, registry.spine
    {
      Chained(plugins, spine) && OwnStates(spine) && registry.Valid()
    }

    ghost function State(): Machine<Instance>
      reads this`spine, spine`paused, States(spine)`trace, registry`spine
    {
      Machine(Views(spine), registry.Entries())
    }

    constructor (registry: Registry)
      requires registry.Valid()
      ensures Valid() && spine == [] && this.registry == registry
    {
      this.registry := registry;
      plugins, spine := null, [];
    }

    /** execute_plugin_chain(): one record down the list, under the plugin mutex. */
    method ExecutePluginChain(rec: Record)
      requires Valid()
      modifies spine, States(spine)
      ensures Valid() && State() == Execute(old(State()), rec)
    {
      hide Deliver, Polled, Offered, DropsNow, Views, View, Chained, OwnStates;
      ghost var before := Views(spine);
      ghost var done: seq<Plugin<Instance>> := [];
      ghost var k := 0;
      var p := plugins;
      HeadOf(plugins, spine);
      while p != null
        invariant 0 <= k <= |spine| && p == NodeAt(spine, k)
        invariant Valid()
        invariant |done| == k && Views(spine) == done + before[k..]
        invariant Deliver(before, rec) == done + Deliver(before[k..], rec)
        decreases |spine| - k
      {
        DeliverStep(before, done, rec);
        assert Views(spine)[k] == before[k];
        var stop := OfferAt(p, k, rec);
        done := done + [Offered(Polled(before[k]), rec)];
        k := k + 1;
        if stop {
          assert Views(spine) == Deliver(before, rec);
          return;
        }
        NextOf(plugins, spine, k - 1);
        p := p.next;
      }
      DeliverNothing<Instance>(rec);
      assert Views(spine) == Deliver(before, rec);
    }

    /** OfferTo in the context of the list: one place changes. */
    method OfferAt(p: PluginNode, ghost k: nat, rec: Record) returns (dropped: bool)
      requires Valid() && k < |spine| && p == spine[k]
      modifies p`paused, p.state`trace
      ensures Valid()
      ensures Views(spine) == old(Views(spine))[k := Offered(Polled(old(View(p))), rec)]
      ensures dropped == DropsNow(Polled(old(View(p))), rec)
    {
      hide Views, Polled, Offered, DropsNow, Chained;
      ghost var before := Views(spine);
      dropped := OfferTo(p, rec);
      forall i | 0 <= i < |spine| && i != k
        ensures View(spine[i]) == before[i]
      {
        assert spine[i] != p by { Different(plugins, spine, i, k); }
      }
      ViewsAre(spine, before[k := View(p)]);
    }

    /** The loop body: poll a paused plugin, offer the record to one that is not; true when it drops the record. */
    method OfferTo(p: PluginNode, rec: Record) returns (dropped: bool)
      modifies p`paused, p.state`trace
      ensures View(p) == Offered(Polled(old(View(p))), rec)
      ensures dropped == DropsNow(Polled(old(View(p))), rec)
    {
      if p.paused {
        var rc := p.state.Call(Poll);
        if rc == PLUGIN_ACCEPT_DATA {
          p.paused := false;
        }
      }
      if !p.paused {
        var rc := p.state.Call(Offer(rec));
        if rc == PLUGIN_REFUSE_DATA {
          p.paused := true;
        }
        if rc == PLUGIN_DROP_DATA {
          return true;
        }
      }
      return false;
    }

    /**
     * load_plugin(): 1 and no change when the library, an entry point or open_plugin fails; otherwise the
     * command is registered in front of the others and the plugin appended behind the others.
     */
    method LoadPlugin(library: string, alias: Option<string>, open: OpenAnswer) returns (rc: int)
      requires Valid()
      modifies this`plugins, this`spine, spine`next, registry
      ensures Valid()
      ensures !open.Opened? ==> rc == 1 && State() == old(State()) && spine == old(spine)
      ensures open.Opened? ==>
        rc == 0 && |spine| == |old(spine)| + 1 && spine[..|old(spine)|] == old(spine) && fresh(spine[|old(spine)|]) &&
        fresh(spine[|old(spine)|].state) &&
        State() == Load(old(State()),
                        Plugin(library, alias, open.hasCommands, spine[|old(spine)|].state, open.behave, false, []))
      ensures forall n | n in registry.Nodes() :: n in old(registry.Nodes()) || fresh(n)
    {
      hide Views, Chained, OwnStates;
      if !open.Opened? {
        return 1;
      }
      ghost var before := State();
      var state := new Instance(open.behave);
      var newPlugin := new PluginNode(library, alias, open.hasCommands, state);
      if newPlugin.hasCommands {
        registry.SetCommand(Entry(library, if alias.Some? then alias.value else library, Some(newPlugin.state)));
      }
      ghost var commands := registry.Entries();
      assert Views(spine) == before.plugins;
      Add(newPlugin);
      assert State() == Machine(before.plugins + [View(newPlugin)], commands);
      return 0;
    }

    /** The tail search of load_plugin(). */
    method Tail() returns (tmp: PluginNode)
      requires Valid() && spine != []
      ensures tmp == spine[|spine| - 1]
    {
      tmp := plugins;
      ghost var k := 0;
      while tmp.next != null
        invariant 0 <= k < |spine| && tmp == spine[k]
        decreases |spine| - k
      {
        tmp := tmp.next;
        k := k + 1;
      }
    }

    /** The link at the end of load_plugin(), before the list counts the new node as its own. */
    method Link(node: PluginNode)
      requires Valid() && node !in spine && node.next == null
      modifies this`plugins, spine`next
      ensures registry.Valid() && plugins == NodeAt(spine + [node], 0) && node.next == null
      ensures forall i, j | 0 <= i < j < |spine| :: spine[i] != spine[j]
      ensures forall i | 0 <= i < |spine| :: spine[i].next == NodeAt(spine + [node], i + 1)
    {
      hide OwnStates;
      if plugins != null {
        var tmp := Tail();
        tmp.next := node;
      } else {
        plugins := node;
      }
    }

    method Append(node: PluginNode)
      requires Valid() && node !in spine && node.next == null && node.state !in States(spine)
      modifies this`plugins, this`spine, spine`next
      ensures Valid() && spine == old(spine) + [node]
    {
      hide OwnStates, Chained;
      OwnStatesWith(spine, node);
      Link(node);
      Lengthened(plugins, spine, node);
      spine := spine + [node];
    }

    /** Append, seen by value. */
    method Add(node: PluginNode)
      requires Valid() && node !in spine && node.next == null && node.state !in States(spine)
      modifies this`plugins, this`spine, spine`next
      ensures Valid() && spine == old(spine) + [node]
      ensures Views(spine) == old(Views(spine)) + [View(node)]
    {
      hide OwnStates, Views, Chained;
      ghost var views := Views(spine);
      Append(node);
      ViewsAre(spine, views + [View(node)]);
    }

    /** locate_plugin_by_name() */
    method LocatePluginByName(name: string) returns (p: PluginNode?)
      requires Valid()
      ensures p == NodeAt(spine, Find(Views(spine), name))
    {
      hide Views;
      p := plugins;
      ghost var k := 0;
      while p != null
        invariant 0 <= k <= |spine| && p == NodeAt(spine, k)
        invariant forall i | 0 <= i < k :: !GoesBy(Views(spine)[i], name)
        decreases |spine| - k
      {
        assert Views(spine)[k] == View(p);
        if name == p.library || (p.alias.Some? && p.alias.value == name) {
          FindIs(Views(spine), name, k);
          return;
        }
        p := p.next;
        k := k + 1;
      }
      FindIs(Views(spine), name, k);
    }

    /** unload_plugin(): close the instance and free its command; the node stays linked for the caller to remove. */
    method UnloadPlugin(p: PluginNode, ghost k: nat)
      requires Valid() && k < |spine| && p == spine[k]
      modifies p.state`trace, registry, registry.Nodes()
      ensures Valid() && Without(Views(spine), k) == old(Without(Views(spine), k))
      ensures registry.Entries() == Freed(old(registry.Entries()), p.library)
      ensures p.state.trace == old(p.state.trace) + [Close]
      ensures registry.Nodes() <= old(registry.Nodes())
    {
      hide Views, Chained, Freed;
      ghost var before := Views(spine);
      var rc := p.state.Call(Close);
      registry.FreeCommand(p.library);
      ViewsAre(spine, before[k := View(p)]);
    }

    /**
     * The search for the node before spine[k]. It always ends there: the exit that the source calls
     * "likely a bug" is never taken.
     */
    method Predecessor(p: PluginNode, ghost k: nat) returns (i: PluginNode)
      requires Valid() && 0 < k < |spine| && p == spine[k]
      ensures i == spine[k - 1]
    {
      i := plugins;
      ghost var j := 0;
      while i.next != p
        invariant 0 <= j < k && i == spine[j]
        decreases k - j
      {
        i := i.next;
        j := j + 1;
      }
    }

    /** Unlink spine[k], which is p: replace the head, or link its predecessor past it. */
    method Unlink(p: PluginNode, ghost k: nat)
      requires Valid() && k < |spine| && p == spine[k]
      modifies this`plugins, this`spine, spine`next
      ensures Valid() && spine == old(spine[..k] + spine[k + 1..])
    {
      hide OwnStates;
      ghost var before := spine;
      OwnStatesWithout(spine, k);
      if plugins == p {
        IsHead(plugins, spine, k);
        plugins := p.next;
      } else {
        var i := Predecessor(p, k);
        i.next := p.next;
      }
      spine := spine[..k] + spine[k + 1..];
      Rechained(plugins, before, spine, k);
    }

    /** Unlink, seen by value. */
    method Remove(p: PluginNode, ghost k: nat)
      requires Valid() && k < |spine| && p == spine[k]
      modifies this`plugins, this`spine, spine`next
      ensures Valid() && spine == old(spine[..k] + spine[k + 1..])
      ensures Views(spine) == old(Without(Views(spine), k))
    {
      hide OwnStates, Views, Chained;
      ghost var before, views := spine, Views(spine);
      Unlink(p, k);
      forall i | 0 <= i < |spine|
        ensures View(spine[i]) == Without(views, k)[i]
      {
        assert spine[i] == before[if i < k then i else i + 1];
      }
      ViewsAre(spine, Without(views, k));
    }

    /** unload_plugin_by_name() once the plugin is found: no instance but its own is called. */
    method CloseAndRemove(p: PluginNode, ghost k: nat)
      requires Valid() && k < |spine| && p == spine[k]
      modifies this`plugins, this`spine, spine`next, p.state`trace, registry, registry.Nodes()
      ensures Valid() && State() == UnloadAt(old(State()), k)
      ensures spine == old(spine[..k] + spine[k + 1..])
      ensures p.state.trace == old(p.state.trace) + [Close]
      ensures forall i | 0 <= i < |old(spine)| && i != k :: old(spine)[i].state.trace == old(spine[i].state.trace)
      ensures registry.Nodes() <= old(registry.Nodes())
    {
      hide Views, Chained, Freed, OwnStates;
      OtherStates(spine, k);
      assert Views(spine)[k] == View(p);
      UnloadPlugin(p, k);
      Remove(p, k);
    }

    /** unload_plugin_by_name(); the name has to be that of a loaded plugin. */
    method UnloadPluginByName(name: string) returns (rc: int)
      requires Valid() && Find(Views(spine), name) < |spine|
      modifies this`plugins, this`spine, spine`next, spine[Find(Views(spine), name)].state`trace
      modifies registry, registry.Nodes()
      ensures Valid() && rc == 0
      ensures State() == UnloadAt(old(State()), Find(old(Views(spine)), name))
      ensures var k := Find(old(Views(spine)), name);
              && spine == old(spine[..k] + spine[k + 1..])
              && old(spine)[k].state.trace == old(spine[k].state.trace) + [Close]
              && forall i | 0 <= i < |old(spine)| && i != k :: old(spine)[i].state.trace == old(spine[i].state.trace)
      ensures registry.Nodes() <= old(registry.Nodes())
    {
      hide Views, Chained, Freed, OwnStates, UnloadAt, Find, EntriesOf;
      ghost var before := State();
      ghost var k := Find(before.plugins, name);
      var p := LocatePluginByName(name);
      assert Views(spine) == before.plugins && registry.Entries() == before.commands;
      CloseAndRemove(p, k);
      assert State() == UnloadAt(before, k);
      return 0;
    }

    /** unload_all_plugins(): from the head on. */
    method UnloadAllPlugins()
      requires Valid()
      modifies this`plugins, this`spine, States(spine)`trace, registry, registry.Nodes()
      ensures Valid() && plugins == null && spine == []
      ensures State() == UnloadAll(old(State()))
      ensures forall i | 0 <= i < |old(spine)| :: old(spine)[i].state.trace == old(spine[i].state.trace) + [Close]
      ensures registry.Nodes() <= old(registry.Nodes())
    {
      hide Views, Freed, Chained, UnloadAt, OwnStates, UnloadAll, EntriesOf;
      ghost var all := spine;
      ghost var k := 0;
      assert OwnStates(all);
      HeadOf(plugins, spine);
      while plugins != null
        invariant 0 <= k <= |all| && spine == all[k..]
        invariant Valid() && plugins == NodeAt(spine, 0)
        invariant UnloadAll(State()) == UnloadAll(old(State()))
        invariant forall i | 0 <= i < k :: all[i].state.trace == old(all[i].state.trace) + [Close]
        invariant forall i | k <= i < |all| :: all[i].state.trace == old(all[i].state.trace)
        invariant registry.Nodes() <= old(registry.Nodes())
        decreases |spine|
      {
        assert spine[0] == all[k] && all[k..][1..] == all[k + 1..] && all[k].state in States(all);
        ghost var before := State();
        OtherStates(all, k);
        UnloadHead();
        UnloadOneOfAll(before);
        k := k + 1;
        HeadOf(plugins, spine);
      }
      UnloadNone(State());
    }

    /** The body of that loop. */
    method UnloadHead()
      requires Valid() && plugins == NodeAt(spine, 0) && spine != []
      modifies this`plugins, this`spine, spine[0].state`trace, registry, registry.Nodes()
      ensures Valid() && spine == old(spine[1..])
      ensures State() == UnloadAt(old(State()), 0)
      ensures old(spine[0]).state.trace == old(spine[0].state.trace) + [Close]
      ensures registry.Nodes() <= old(registry.Nodes())
    {
      hide Views, Freed, Chained, OwnStates;
      UnloadPlugin(plugins, 0);
      ViewsRemoved(spine, 0);
      assert spine[..0] + spine[1..] == spine[1..];
      DropHead();
    }

    /** plugins = plugins->next_plugin */
    method DropHead()
      requires Valid() && spine != []
      modifies this`plugins, this`spine
      ensures Valid() && spine == old(spine[1..])
    {
      hide Chained, OwnStates;
      ChainedTail(plugins, spine);
      OwnStatesWithout(spine, 0);
      assert spine[..0] + spine[1..] == spine[1..];
      plugins := plugins.next;
      spine := spine[1..];
    }

    /** run_command() while these plugins are loaded: the addressed plugin is told, whichever list led to it. */
    method RunCommand(name: string, args: seq<string>) returns (found: Found)
      requires Valid()
      modifies registry.Target(name)`trace
      ensures Valid() && State() == Machines.RunCommand(old(State()), name, args)
      ensures match Lookup(registry.Entries(), name)
        case None => found == Nothing
        case Some(e) =>
          if e.owner.None? then found == Builtin(e.name)
          else
            && e.owner.value.trace == old(e.owner.value.trace) + [Command(args)]
            && found == Answered(e.owner.value.behave(e.owner.value.trace))
    {
      hide Views, Chained, OwnStates, Lookup;
      ghost var before := State();
      found := registry.RunCommand(name, args);
      ViewsAre(spine, Machines.RunCommand(before, name, args).plugins);
    }

    /** count_plugins() */
    method CountPlugins() returns (n: nat)
      requires Valid()
      ensures n == |spine|
    {
      var p := plugins;
      n := 0;
      while p != null
        invariant 0 <= n <= |spine| && p == NodeAt(spine, n)
        decreases |spine| - n
      {
        n := n + 1;
        p := p.next;
      }
    }

    /** list_plugins(): one line for each plugin, in chain order. */
    method ListPlugins() returns (names: seq<string>)
      requires Valid()
      ensures |names| == |spine|
      ensures forall i | 0 <= i < |spine| ::
        names[i] == match spine[i].alias case None => spine[i].library case Some(a) => spine[i].library + ":" + a
    {
      hide OwnStates;
      names := [];
      var p := plugins;
      while p != null
        invariant |names| <= |spine| && p == NodeAt(spine, |names|)
        invariant forall i | 0 <= i < |names| :: names[i] == Listed(spine[i].library, spine[i].alias)
        decreases |spine| - |names|
      {
        names := names + [p.library + if p.alias.Some? then ":" + p.alias.value else ""];
        p := p.next;
      }
    }
  }

  lemma UnloadOneOfAll<S>(m: Machine<S>)
    requires m.plugins != []
    ensures UnloadAll(m) == UnloadAll(UnloadAt(m, 0))
  {
  }

  lemma UnloadNone<S>(m: Machine<S>)
    requires m.plugins == []
    ensures UnloadAll(m) == m
  {
  }

  lemma {:induction false} FindIs<S>(ps: seq<Plugin<S>>, name: string, i: nat)
    requires i <= |ps| && (forall k | 0 <= k < i :: !GoesBy(ps[k], name)) && (i < |ps| ==> GoesBy(ps[i], name))
    ensures Find(ps, name) == i
  {
  }

  // The argument of load-plugin.

  function Listed(library: string, alias: Option<string>): string {
    library + if alias.Some? then ":" + alias.value else ""
  }

  function ColonAt(s: string): (n: nat)
    ensures n <= |s| && (forall i | 0 <= i < n :: s[i] != ':') && (n < |s| ==> s[n] == ':')
  {
    if s == "" || s[0] == ':' then 0 else 1 + ColonAt(s[1..])
  }

  /** The text before the first colon is the library; what follows is the alias, unless it is empty. */
  function Split(arg: string): (string, Option<string>) {
    var n := ColonAt(arg);
    (arg[..n], if n + 1 < |arg| then Some(arg[n + 1..]) else None)
  }

  lemma {:induction false} ColonIs(s: string, n: nat)
    requires n <= |s| && (forall i | 0 <= i < n :: s[i] != ':') && (n < |s| ==> s[n] == ':')
    ensures ColonAt(s) == n
  {
  }

  /** The string surgery of c_load_plugin(). */
  method SplitPluginName(arg: string) returns (library: string, alias: Option<string>)
    ensures (library, alias) == Split(arg)
  {
    var i := 0;
    while i < |arg| && arg[i] != ':'
      invariant 0 <= i <= |arg| && forall k | 0 <= k < i :: arg[k] != ':'
    {
      i := i + 1;
    }
    ColonIs(arg, i);
    library, alias := arg[..i], None;
    if i < |arg| && arg[i + 1..] != "" {
      alias := Some(arg[i + 1..]);
    }
  }

  /** What stands before the first colon is the library, what stands after it the alias, unless that is empty. */
  lemma SplitAtColon(library: string, alias: string)
    requires ':' !in library
    ensures Split(library) == (library, None)
    ensures Split(library + ":" + alias) == (library, if alias == "" then None else Some(alias))
  {
    var s := library + ":" + alias;
    assert s[..|library|] == library && s[|library| + 1..] == alias;
    assert forall i | 0 <= i < |library| :: s[i] == library[i];
    ColonIs(s, |library|);
    ColonIs(library, |library|);
    assert library[..|library|] == library;
  }

  /** Loading again what list_plugins printed gives a plugin the same library and alias. */
  lemma SplitUndoesListed(library: string, alias: Option<string>)
    requires (forall i | 0 <= i < |library| :: library[i] != ':') && (alias.Some? ==> alias.value != "")
    ensures Split(Listed(library, alias)) == (library, alias)
  {
    var s := Listed(library, alias);
    assert s[..|library|] == library;
    assert forall i | 0 <= i < |library| :: s[i] == library[i];
    ColonIs(s, |library|);
    assert alias.Some? ==> s[|library| + 1..] == alias.value;
  }
}
