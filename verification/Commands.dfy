/** The command list of command_parser.c: a singly linked list, newest command first. */
module Commands {
  import opened Text
  import opened Plugins
  import opened Instances

  /** A registered command; `owner` is its state pointer, NULL for a built-in command. */
  datatype Entry<+S> = Entry(name: string, shortName: string, owner: Option<S>)

  predicate Answers<S>(e: Entry<S>, name: string) {
    e.name == name || e.shortName == name
  }

  /** The place of the first command that answers to the name, or the length of the list. */
  function MatchAt<S>(cs: seq<Entry<S>>, name: string): (i: nat)
    ensures i <= |cs|
    ensures forall k | 0 <= k < i :: !Answers(cs[k], name)
    ensures i < |cs| ==> Answers(cs[i], name)
  {
    if cs == [] || Answers(cs[0], name) then 0 else 1 + MatchAt(cs[1..], name)
  }

  function Lookup<S>(cs: seq<Entry<S>>, name: string): Option<Entry<S>> {
    var i := MatchAt(cs, name);
    if i < |cs| then Some(cs[i]) else None
  }

  /** The state pointer that a call by this name would pass on, if it finds a plugin's command. */
  function Owner<S>(cs: seq<Entry<S>>, name: string): Option<S> {
    if Lookup(cs, name).Some? then Lookup(cs, name).value.owner else None
  }

  /** The list without the first command that answers to the name. */
  function Freed<S>(cs: seq<Entry<S>>, name: string): seq<Entry<S>> {
    var i := MatchAt(cs, name);
    if i < |cs| then cs[..i] + cs[i + 1..] else cs
  }

  /**
   * What the source does as it stands: `if (p_command = s_commands)` assigns where it means to compare,
   * so that any match at all takes the head off the list.
   */
  function FreedAsWritten<S>(cs: seq<Entry<S>>, name: string): seq<Entry<S>> {
    if MatchAt(cs, name) < |cs| then cs[1..] else cs
  }

  lemma {:induction false} MatchIs<S>(cs: seq<Entry<S>>, name: string, i: nat)
    requires i <= |cs| && (forall k | 0 <= k < i :: !Answers(cs[k], name)) && (i < |cs| ==> Answers(cs[i], name))
    ensures MatchAt(cs, name) == i
  {
  }

  lemma {:induction false} RemovalsMeet<T>(s: seq<T>, i: nat, j: nat)
    requires i < j < |s| && s[..i] + s[i + 1..] == s[..j] + s[j + 1..]
    ensures s[i] == s[j]
    decreases j - i
  {
    assert s[i + 1] == (s[..i] + s[i + 1..])[i] == (s[..j] + s[j + 1..])[i] == s[i];
    if i + 1 < j {
      assert s[..i + 1] + s[i + 2..] == s[..i] + s[i + 1..];
      RemovalsMeet(s, i + 1, j);
    }
  }

  lemma WithoutMiddle<T>(late: seq<T>, e: T, tail: seq<T>)
    ensures var all := late + [e] + tail;
            all[|late|] == e && all[..|late|] + all[|late| + 1..] == late + tail && late <= all
  {
  }

  /** Freeing a command behind others that do not answer to the name takes out that command. */
  lemma FreeReaches<S>(late: seq<Entry<S>>, e: Entry<S>, tail: seq<Entry<S>>, name: string)
    requires MatchAt(late, name) == |late| && Answers(e, name)
    ensures Freed(late + [e] + tail, name) == late + tail
  {
    var all := late + [e] + tail;
    MatchIs(all, name, |late|);
    assert all[..|late|] == late && all[|late| + 1..] == tail;
  }

  /** With another command before it that answers too, the freed list is a different one. */
  lemma FreeTooEarly<S>(late: seq<Entry<S>>, e: Entry<S>, tail: seq<Entry<S>>, name: string)
    requires var k := MatchAt(late, name); k < |late| && late[k] != e
    ensures Freed(late + [e] + tail, name) != late + tail
  {
    hide Answers;
    var k := MatchAt(late, name);
    var all := late + [e] + tail;
    WithoutMiddle(late, e, tail);
    MatchIs(all, name, k);
    assert all[k] == late[k];
    if Freed(all, name) == late + tail {
      RemovalsMeet(all, k, |late|);
    }
  }

  /**
   * Freeing a command that others were registered after, by a name it answers to, gives the list as if it
   * had never been registered, and so every name's dispatch, exactly when none of those others answers.
   */
  lemma FreeUndoesSet<S>(late: seq<Entry<S>>, e: Entry<S>, cs: seq<Entry<S>>, name: string)
    requires Answers(e, name) && e !in late
    ensures Freed(late + [e] + cs, name) == late + cs <==> MatchAt(late, name) == |late|
  {
    if MatchAt(late, name) == |late| {
      FreeReaches(late, e, cs, name);
    } else {
      FreeTooEarly(late, e, cs, name);
    }
  }

  /**
   * The assignment slip does no harm exactly when nothing answers to the name or the newest command
   * does; otherwise it removes the newest command in place of the named one.
   */
  lemma {:induction false} AsWrittenFreesRight<S>(cs: seq<Entry<S>>, name: string)
    ensures FreedAsWritten(cs, name) == Freed(cs, name) <==>
      Lookup(cs, name).None? || Answers(cs[0], name)
  {
    var i := MatchAt(cs, name);
    if 0 < i < |cs| {
      assert cs[i - 1] != cs[i];
      assert Freed(cs, name)[i - 1] == cs[i - 1] && FreedAsWritten(cs, name)[i - 1] == cs[i];
    }
  }

  class CommandNode {
    const entry: Entry<Instance>
    var next: CommandNode?

    constructor (entry: Entry<Instance>, next: CommandNode?)
      ensures this.entry == entry && this.next == next
    {
      this.entry := entry;
      this.next := next;
    }
  }

  ghost function At(ns: seq<CommandNode>, i: nat): CommandNode? {
    if i < |ns| then ns[i] else null
  }

  ghost predicate Linked(head: CommandNode?, ns: seq<CommandNode>)
    reads ns
  {
    && head == At(ns, 0)
    && (forall i | 0 <= i < |ns| :: ns[i].next == At(ns, i + 1))
    && (forall i, j | 0 <= i < j < |ns| :: ns[i] != ns[j])
  }

  /** The links of a list that was linked before one node was bypassed. */
  lemma Relinked(before: seq<CommandNode>, ns: seq<CommandNode>, k: nat)
    requires k < |before| && ns == before[..k] + before[k + 1..]
    requires forall i | 0 <= i < |before| && i != k :: before[i].next == At(before, if i + 1 == k then i + 2 else i + 1)
    ensures forall i | 0 <= i < |ns| :: ns[i].next == At(ns, i + 1)
  {
    forall i | 0 <= i < |ns|
      ensures ns[i].next == At(ns, i + 1)
    {
      var j := if i < k then i else i + 1;
      assert ns[i] == before[j];
    }
  }

  ghost function EntriesOf(ns: seq<CommandNode>): seq<Entry<Instance>> {
    seq(|ns|, i requires 0 <= i < |ns| => ns[i].entry)
  }

  /** Taking the first answering node out frees its entry. */
  lemma EntriesWithout(ns: seq<CommandNode>, name: string, k: nat)
    requires k <= |ns| && (forall i | 0 <= i < k :: !Answers(ns[i].entry, name))
    requires k < |ns| ==> Answers(ns[k].entry, name)
    ensures MatchAt(EntriesOf(ns), name) == k
    ensures Freed(EntriesOf(ns), name) == EntriesOf(if k < |ns| then ns[..k] + ns[k + 1..] else ns)
  {
    MatchIs(EntriesOf(ns), name, k);
  }

  /** A new node that points to the head of a list. */
  lemma LinkedInFront(node: CommandNode, head: CommandNode?, ns: seq<CommandNode>)
    requires Linked(head, ns) && node.next == head && node !in ns
    ensures Linked(node, [node] + ns)
    ensures EntriesOf([node] + ns) == [node.entry] + EntriesOf(ns)
    ensures ([node] + ns)[0] == node && ([node] + ns)[1..] == ns && |[node] + ns| == |ns| + 1
  {
    var all := [node] + ns;
    forall i | 0 <= i < |all|
      ensures all[i].next == At(all, i + 1)
    {
      if i > 0 {
        assert all[i] == ns[i - 1];
      }
    }
  }

  /** What run_command() found under a name. */
  datatype Found = Nothing | Builtin(name: string) | Answered(rc: int)

  class Registry {
    var commands: CommandNode?
    ghost var spine: seq<CommandNode>

    ghost predicate Valid()
      reads this, spine
    {
      Linked(commands, spine)
    }

    ghost function Entries(): seq<Entry<Instance>>
      reads this`spine
    {
      EntriesOf(spine)
    }

    ghost function Nodes(): set<CommandNode>
      reads this`spine
    {
      set n | n in spine
    }

    constructor ()
      ensures Valid() && spine == []
    {
      commands, spine := null, [];
    }

    method SetCommand(e: Entry<Instance>)
      requires Valid()
      modifies this
      ensures Valid() && Entries() == [e] + old(Entries())
      ensures |spine| == |old(spine)| + 1 && fresh(spine[0]) && spine[1..] == old(spine)
    {
      hide Linked, EntriesOf;
      var node := new CommandNode(e, commands);
      LinkedInFront(node, commands, spine);
      commands := node;
      spine := [node] + spine;
    }

    /** Unlink and free the first command that answers to the name; `==` in place of `=` at line 62. */
    method FreeCommand(name: string)
      requires Valid()
      modifies this, Nodes()
      ensures Valid() && Entries() == Freed(old(Entries()), name)
      ensures Nodes() <= old(Nodes())
    {
      hide Freed, EntriesOf;
      var p := commands;
      var pp := commands;
      ghost var k := 0;
      while p != null
        invariant 0 <= k <= |spine|
        invariant p == At(spine, k)
        invariant k > 0 ==> pp == spine[k - 1]
        invariant k == 0 ==> pp == p
        invariant forall i | 0 <= i < k :: !Answers(spine[i].entry, name)
        decreases |spine| - k
      {
        if p.entry.name == name || p.entry.shortName == name {
          EntriesWithout(spine, name, k);
          Unlink(p, pp, k);
          return;
        }
        pp := p;
        p := p.next;
        k := k + 1;
      }
      EntriesWithout(spine, name, k);
    }

    /** Take p out of the list; pp is the node before it unless p is the head. */
    method Unlink(p: CommandNode, pp: CommandNode, ghost k: nat)
      requires Valid() && k < |spine| && p == spine[k] && (k > 0 ==> pp == spine[k - 1])
      modifies this, spine
      ensures Valid() && spine == old(spine[..k] + spine[k + 1..])
    {
      ghost var before := spine;
      if p == commands {
        commands := p.next;
      } else {
        pp.next := p.next;
      }
      spine := spine[..k] + spine[k + 1..];
      Relinked(before, spine, k);
    }

    ghost function Target(name: string): set<Instance>
      reads this`spine
    {
      match Owner(Entries(), name)
      case None => {}
      case Some(instance) => {instance}
    }

    /** Call the first command that answers to the name, with the state it was registered with. */
    method RunCommand(name: string, args: seq<string>) returns (found: Found)
      requires Valid()
      modifies Target(name)`trace
      ensures match Lookup(Entries(), name)
        case None => found == Nothing
        case Some(e) =>
          if e.owner.None? then found == Builtin(e.name)
          else found == Answered(e.owner.value.behave(e.owner.value.trace))
      ensures forall o | o in Target(name) :: o.trace == old(o.trace) + [Command(args)]
    {
      hide Freed, EntriesOf;
      var p := commands;
      ghost var k := 0;
      while p != null
        invariant 0 <= k <= |spine| && p == At(spine, k)
        invariant forall i | 0 <= i < k :: !Answers(spine[i].entry, name)
        decreases |spine| - k
      {
        if p.entry.name == name || p.entry.shortName == name {
          EntriesWithout(spine, name, k);
          EntryAt(spine, k);
          if p.entry.owner.None? {
            return Builtin(p.entry.name);
          }
          var rc := p.entry.owner.value.Call(Command(args));
          return Answered(rc);
        }
        p := p.next;
        k := k + 1;
      }
      EntriesWithout(spine, name, k);
      EntryAt(spine, k);
      return Nothing;
    }
  }

  lemma EntryAt(ns: seq<CommandNode>, k: nat)
    ensures |EntriesOf(ns)| == |ns| && (k < |ns| ==> EntriesOf(ns)[k] == ns[k].entry)
  {
  }

  /** What a list of commands becomes when each is registered in turn. */
  function Reversed<S>(cs: seq<Entry<S>>): seq<Entry<S>> {
    if cs == [] then [] else Reversed(cs[1..]) + [cs[0]]
  }

  /** set_commands_array(): the built-in commands, registered one after the other. */
  method SetCommandsArray(r: Registry, cs: seq<Entry<Instance>>)
    requires r.Valid()
    modifies r
    ensures r.Valid() && r.Entries() == Reversed(cs) + old(r.Entries())
    ensures forall n | n in r.Nodes() :: n in old(r.Nodes()) || fresh(n)
  {
    hide Linked, EntriesOf, Reversed;
    ghost var before := r.Entries();
    NothingReversed<Instance>();
    var i := 0;
    assert cs[..0] == [];
    while i != |cs|
      invariant 0 <= i <= |cs| && r.Valid() && r.Entries() == Reversed(cs[..i]) + before
      invariant forall n | n in r.Nodes() :: n in old(r.Nodes()) || fresh(n)
      decreases |cs| - i
    {
      ReversedOneMore(cs[..i], cs[i]);
      assert cs[..i + 1] == cs[..i] + [cs[i]];
      assert [cs[i]] + (Reversed(cs[..i]) + before) == [cs[i]] + Reversed(cs[..i]) + before;
      r.SetCommand(cs[i]);
      i := i + 1;
    }
    assert cs[..|cs|] == cs;
  }

  lemma NothingReversed<S>()
    ensures Reversed<S>([]) == []
  {
  }

  lemma {:induction false} ReversedOneMore<S>(cs: seq<Entry<S>>, e: Entry<S>)
    ensures Reversed(cs + [e]) == [e] + Reversed(cs)
  {
    if cs == [] {
      assert [e][1..] == [];
    } else {
      assert (cs + [e])[1..] == cs[1..] + [e];
      ReversedOneMore(cs[1..], e);
    }
  }
}
