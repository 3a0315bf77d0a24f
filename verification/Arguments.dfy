/** parse_args() and parse_command(): from argv and from configuration lines to run_command() calls. */
module Arguments {
  import opened Text

  datatype Call = Call(name: string, params: seq<string>)

  /** Slots in the pointer arrays of both parsers; the last one used holds the terminating NULL. */
  const SLOTS := 128

  const BLANKS := " \n"

  type Pointer = Option<string>

  /** The strings of a NULL-terminated pointer array. */
  function Strings(a: seq<Pointer>): seq<string> {
    if a == [] || a[0].None? then [] else [a[0].value] + Strings(a[1..])
  }

  /** run_command() as the parsers see it: a log of calls, and an answer that may depend on all of them. */
  class Dispatcher {
    var log: seq<Call>
    const answer: seq<Call> -> int

    constructor (answer: seq<Call> -> int)
      ensures log == [] && this.answer == answer
    {
      log := [];
      this.answer := answer;
    }

    method RunCommand(name: string, args: seq<Pointer>) returns (rc: int)
      modifies this
      ensures log == old(log) + [Call(name, Strings(args))] && rc == answer(log)
    {
      log := log + [Call(name, Strings(args))];
      rc := answer(log);
    }
  }

  lemma {:induction false} StringsUpToNull(a: seq<Pointer>, n: nat)
    requires n < |a| && a[n].None? && forall i | 0 <= i < n :: a[i].Some?
    ensures Strings(a) == seq(n, i requires 0 <= i < n => a[i].value)
  {
    if n > 0 {
      StringsUpToNull(a[1..], n - 1);
    }
  }

  // The grammar of argv.

  predicate IsOption(arg: string) {
    arg != "" && arg[0] == '-'
  }

  /** What follows one dash or two. */
  function NameOf(arg: string): string
    requires IsOption(arg)
  {
    if |arg| > 1 && arg[1] == '-' then arg[2..] else arg[1..]
  }

  function ParamCount(args: seq<string>): (n: nat)
    ensures n <= |args|
    ensures forall i | 0 <= i < n :: !IsOption(args[i])
    ensures n < |args| ==> IsOption(args[n])
  {
    if args == [] || IsOption(args[0]) then 0 else 1 + ParamCount(args[1..])
  }

  /** The groups before the first syntax error: a named option and the parameters up to the next option. */
  function Groups(args: seq<string>): seq<Call>
    decreases |args|
  {
    if args == [] || !IsOption(args[0]) || NameOf(args[0]) == "" then []
    else
      var n := ParamCount(args[1..]);
      [Call(NameOf(args[0]), args[1..][..n])] + Groups(args[1..][n..])
  }

  predicate Named(args: seq<string>) {
    forall i | 0 <= i < |args| :: IsOption(args[i]) ==> NameOf(args[i]) != ""
  }

  predicate WellFormed(args: seq<string>) {
    args != [] && IsOption(args[0]) && Named(args)
  }

  predicate FitsSlots(cs: seq<Call>) {
    forall i | 0 <= i < |cs| :: |cs[i].params| < 128
  }

  // Running a list of calls.

  predicate AllSucceed(cs: seq<Call>, log: seq<Call>, answer: seq<Call> -> int) {
    forall k | 0 < k <= |cs| :: answer(log + cs[..k]) == 0
  }

  /** How many calls are made: everything up to and including the first that fails. */
  function Made(cs: seq<Call>, log: seq<Call>, answer: seq<Call> -> int, k: nat): (n: nat)
    requires k <= |cs|
    ensures k <= n <= |cs|
    ensures forall j | k < j < n :: answer(log + cs[..j]) == 0
    ensures n < |cs| ==> k < n && answer(log + cs[..n]) != 0
    decreases |cs| - k
  {
    if k == |cs| then k
    else if answer(log + cs[..k + 1]) != 0 then k + 1
    else Made(cs, log, answer, k + 1)
  }

  lemma {:induction false} MadeIs(cs: seq<Call>, log: seq<Call>, answer: seq<Call> -> int, k: nat, n: nat)
    requires k < n <= |cs|
    requires forall j | k < j < n :: answer(log + cs[..j]) == 0
    requires n < |cs| ==> answer(log + cs[..n]) != 0
    ensures Made(cs, log, answer, k) == n
    decreases n - k
  {
    if k + 1 < n {
      assert answer(log + cs[..k + 1]) == 0;
      MadeIs(cs, log, answer, k + 1, n);
    } else if answer(log + cs[..n]) == 0 {
      assert Made(cs, log, answer, n) == n;
    }
  }

  /** Runs the calls one after the other from where `done` of them have succeeded. */
  lemma RunStopsHere(cs: seq<Call>, log: seq<Call>, answer: seq<Call> -> int, n: nat)
    requires 0 < n <= |cs| && AllSucceed(cs[..n - 1], log, answer)
    requires n < |cs| ==> answer(log + cs[..n]) != 0
    ensures Made(cs, log, answer, 0) == n
  {
    forall j | 0 < j < n
      ensures answer(log + cs[..j]) == 0
    {
      assert cs[..n - 1][..j] == cs[..j];
    }
    MadeIs(cs, log, answer, 0, n);
  }

  lemma OneMoreSuccess(cs: seq<Call>, c: Call, log: seq<Call>, answer: seq<Call> -> int)
    requires AllSucceed(cs, log, answer) && answer(log + (cs + [c])) == 0
    ensures AllSucceed(cs + [c], log, answer)
  {
    var more := cs + [c];
    forall k | 0 < k <= |more|
      ensures answer(log + more[..k]) == 0
    {
      if k <= |cs| {
        assert more[..k] == cs[..k];
      } else {
        assert more[..k] == more;
      }
    }
  }

  /** The group being collected, and the groups after it, given what of argv is still unread. */
  function Pending(name: string, params: seq<string>, rest: seq<string>): seq<Call> {
    var n := ParamCount(rest);
    [Call(name, params + rest[..n])] + Groups(rest[n..])
  }

  lemma PendingParam(name: string, params: seq<string>, rest: seq<string>)
    requires rest != [] && !IsOption(rest[0])
    ensures Pending(name, params, rest) == Pending(name, params + [rest[0]], rest[1..])
  {
    var n := ParamCount(rest[1..]);
    assert rest[..n + 1] == [rest[0]] + rest[1..][..n];
    assert params + rest[..n + 1] == params + [rest[0]] + rest[1..][..n];
    assert rest[n + 1..] == rest[1..][n..];
  }

  lemma PendingOption(name: string, params: seq<string>, rest: seq<string>)
    requires rest != [] && IsOption(rest[0])
    ensures Pending(name, params, rest)
         == [Call(name, params)] + if NameOf(rest[0]) == "" then [] else Pending(NameOf(rest[0]), [], rest[1..])
  {
    assert rest[..0] == [] && rest[0..] == rest;
    assert params + [] == params;
    if NameOf(rest[0]) != "" {
      var n := ParamCount(rest[1..]);
      assert [] + rest[1..][..n] == rest[1..][..n];
    }
  }

  lemma PendingEnd(name: string, params: seq<string>)
    ensures Pending(name, params, []) == [Call(name, params)]
  {
    assert params + [] == params;
  }

  /** What a run of parse_args comes to: the calls it makes and the value it returns. */
  predicate Outcome(args: seq<string>, log: seq<Call>, answer: seq<Call> -> int, now: seq<Call>, rc: int) {
    var gs := Groups(args);
    && now == log + gs[..Made(gs, log, answer, 0)]
    && (rc == 0 <==> WellFormed(args) && AllSucceed(gs, log, answer))
    && (rc == 0 || rc == -1)
  }

  /** Every group ran and succeeded. */
  lemma AllRan(args: seq<string>, log: seq<Call>, answer: seq<Call> -> int, gs: seq<Call>)
    requires gs == Groups(args) && AllSucceed(gs, log, answer)
    ensures Outcome(args, log, answer, log + gs, if WellFormed(args) then 0 else -1)
  {
    assert gs[..|gs|] == gs;
    if gs != [] {
      PrefixSucceeds(gs, |gs| - 1, log, answer);
      RunStopsHere(gs, log, answer, |gs|);
    }
  }

  lemma PrefixSucceeds(cs: seq<Call>, n: nat, log: seq<Call>, answer: seq<Call> -> int)
    requires n <= |cs| && AllSucceed(cs, log, answer)
    ensures AllSucceed(cs[..n], log, answer)
  {
    var init := cs[..n];
    forall k | 0 < k <= n
      ensures answer(log + init[..k]) == 0
    {
      assert init[..k] == cs[..k];
    }
  }

  /** The call after `done` is made and fails. */
  lemma OneFailed(args: seq<string>, log: seq<Call>, answer: seq<Call> -> int, done: seq<Call>, c: Call)
    requires done + [c] <= Groups(args) && AllSucceed(done, log, answer)
    requires answer(log + (done + [c])) != 0
    ensures Outcome(args, log, answer, log + (done + [c]), -1)
  {
    var gs, n := Groups(args), |done| + 1;
    assert gs[..n] == done + [c] && gs[..n - 1] == done;
    RunStopsHere(gs, log, answer, n);
  }

  lemma GroupsStart(args: seq<string>)
    requires args != [] && IsOption(args[0])
    ensures Groups(args) == if NameOf(args[0]) == "" then [] else Pending(NameOf(args[0]), [], args[1..])
  {
    if NameOf(args[0]) != "" {
      var n := ParamCount(args[1..]);
      assert [] + args[1..][..n] == args[1..][..n];
    }
  }

  /** The groups whose parameters are ever collected: those that are run, the first that fails included. */
  function Collectible(args: seq<string>, log: seq<Call>, answer: seq<Call> -> int): seq<Call> {
    Groups(args)[..Made(Groups(args), log, answer, 0)]
  }

  /** After n successes there is one more call to make, if there is one more call. */
  lemma MadeGoesOn(cs: seq<Call>, log: seq<Call>, answer: seq<Call> -> int, n: nat)
    requires n < |cs| && AllSucceed(cs[..n], log, answer)
    ensures Made(cs, log, answer, 0) > n
  {
    forall j | 0 < j <= n
      ensures answer(log + cs[..j]) == 0
    {
      assert cs[..n][..j] == cs[..j];
    }
  }

  /** argv so far: what ran, and the group that is being collected. */
  ghost predicate Reading(args: seq<string>, done: seq<Call>, command: Option<string>, params: seq<string>, i: nat) {
    && i <= |args|
    && Named(args[..i])
    && (if command.None? then i == 0 && done == []
        else i > 0 && IsOption(args[0]) && Groups(args) == done + Pending(command.value, params, args[i..]))
  }

  lemma ReadParam(args: seq<string>, log: seq<Call>, answer: seq<Call> -> int,
                  done: seq<Call>, name: string, params: seq<string>, i: nat)
    requires Reading(args, done, Some(name), params, i) && i < |args| && !IsOption(args[i])
    requires AllSucceed(done, log, answer) && FitsSlots(Collectible(args, log, answer))
    ensures Reading(args, done, Some(name), params + [args[i]], i + 1) && |params| + 1 < SLOTS
  {
    hide Groups, AllSucceed;
    var rest := args[i..];
    assert rest[1..] == args[i + 1..];
    PendingParam(name, params, rest);
    assert args[..i + 1] == args[..i] + [args[i]];
    var c := Pending(name, params, rest)[0];
    assert Groups(args)[|done|] == c && Groups(args)[..|done|] == done;
    MadeGoesOn(Groups(args), log, answer, |done|);
    assert Collectible(args, log, answer)[|done|] == c;
  }

  lemma NamedOneMore(args: seq<string>, i: nat)
    requires i < |args| && Named(args[..i]) && (IsOption(args[i]) ==> NameOf(args[i]) != "")
    ensures Named(args[..i + 1])
  {
  }

  lemma FirstOption(args: seq<string>)
    requires args != [] && IsOption(args[0])
    ensures NameOf(args[0]) == "" ==> Groups(args) == []
    ensures NameOf(args[0]) != "" ==> Reading(args, [], Some(NameOf(args[0])), [], 1)
  {
    hide Groups, Pending, IsOption, NameOf;
    GroupsStart(args);
    if NameOf(args[0]) != "" {
      NamedOneMore(args, 0);
    }
  }

  /** Once option i is reached the collected group is complete; with a name of its own the option starts the next. */
  lemma NextOption(args: seq<string>, done: seq<Call>, name: string, params: seq<string>, i: nat)
    requires Reading(args, done, Some(name), params, i) && i < |args| && IsOption(args[i])
    ensures var ran := done + [Call(name, params)];
            && ran <= Groups(args)
            && (NameOf(args[i]) == "" ==> Groups(args) == ran)
            && (NameOf(args[i]) != "" ==> Reading(args, ran, Some(NameOf(args[i])), [], i + 1))
  {
    hide Groups, Pending, Named, IsOption, NameOf;
    var rest, next := args[i..], NameOf(args[i]);
    assert rest[0] == args[i] && rest[1..] == args[i + 1..];
    PendingOption(name, params, rest);
    var later := if next == "" then [] else Pending(next, [], args[i + 1..]);
    assert Groups(args) == done + ([Call(name, params)] + later) == done + [Call(name, params)] + later;
    if next != "" {
      NamedOneMore(args, i);
    }
  }

  lemma NotWellFormed(args: seq<string>, i: nat)
    requires i < |args| && IsOption(args[i]) && NameOf(args[i]) == ""
    ensures !WellFormed(args)
  {
  }

  lemma StartReading(args: seq<string>, log: seq<Call>, answer: seq<Call> -> int)
    ensures Reading(args, [], None, [], 0) && AllSucceed([], log, answer)
  {
  }

  lemma NoGroups(args: seq<string>, done: seq<Call>, log: seq<Call>, answer: seq<Call> -> int)
    requires Reading(args, done, None, [], 0) && (args == [] || !IsOption(args[0]))
    ensures Outcome(args, log, answer, log + done, -1)
  {
    assert Groups(args)[..0] == [];
  }

  lemma EndReading(args: seq<string>, done: seq<Call>, name: string, params: seq<string>)
    requires Reading(args, done, Some(name), params, |args|)
    ensures Groups(args) == done + [Call(name, params)] && WellFormed(args)
  {
    PendingEnd(name, params);
    assert args[..|args|] == args && args[|args|..] == [];
  }

  /** The pointer array holds exactly the parameters collected so far. */
  predicate Collected(a: seq<Pointer>, apn: int, params: seq<string>) {
    apn == |params| < |a| && forall k | 0 <= k < apn :: a[k] == Some(params[k])
  }

  lemma TerminatedStrings(a: seq<Pointer>, params: seq<string>)
    requires |params| < |a| && Collected(a, |params|, params)
    ensures Strings(a[|params| := None]) == params
  {
    StringsUpToNull(a[|params| := None], |params|);
  }

  lemma StringsHead(a: seq<Pointer>)
    requires a != []
    ensures Strings(a) == if a[0].Some? then [a[0].value] + Strings(a[1..]) else []
  {
  }

  /** The loop over argv; `argv[0]` is the program. Freeing the copied strings is not modelled. */
  method ParseArgs(argv: seq<string>, d: Dispatcher) returns (rc: int)
    requires |argv| >= 1 && FitsSlots(Collectible(argv[1..], d.log, d.answer))
    modifies d
    ensures Outcome(argv[1..], old(d.log), d.answer, d.log, rc)
  {
    hide Reading, Groups, WellFormed, Outcome, AllSucceed, Collectible;
    ghost var args, log0 := argv[1..], d.log;
    ghost var done: seq<Call>, params: seq<string> := [], [];
    var command: Option<string> := None;
    var commandParameters := new Pointer[SLOTS](_ => None);
    var apn := -1;
    var i := 1;
    StartReading(args, log0, d.answer);
    while i != |argv|
      invariant 1 <= i <= |argv|
      invariant d.log == log0 + done && AllSucceed(done, log0, d.answer)
      invariant command.None? ==> apn == -1 && i == 1 && done == [] && params == []
      invariant command.Some? ==> Collected(commandParameters[..], apn, params)
      invariant Reading(args, done, command, params, i - 1)
      decreases |argv| - i
    {
      var arg := argv[i];
      assert arg == args[i - 1];
      if IsOption(arg) {
        if command.None? {
          FirstOption(args);
        } else {
          NextOption(args, done, command.value, params, i - 1);
          rc := RunCollected(d, command.value, commandParameters, apn, params);
          assert d.log == log0 + (done + [Call(command.value, params)]);
          if rc != 0 {
            OneFailed(args, log0, d.answer, done, Call(command.value, params));
            return -1;
          }
          OneMoreSuccess(done, Call(command.value, params), log0, d.answer);
          done := done + [Call(command.value, params)];
          params := [];
        }
        if NameOf(arg) == "" {
          NotWellFormed(args, i - 1);
          AllRan(args, log0, d.answer, done);
        }
        if |arg| > 1 && arg[1] == '-' {
          if |arg| == 2 {
            return -1;
          } else {
            command := Some(arg[2..]);
            apn := 0;
          }
        } else {
          if |arg| == 1 {
            return -1;
          } else {
            command := Some(arg[1..]);
            apn := 0;
          }
        }
      } else {
        if apn < 0 {
          NoGroups(args, done, log0, d.answer);
          return -1;
        } else {
          ReadParam(args, log0, d.answer, done, command.value, params, i - 1);
          commandParameters[apn] := Some(arg);
          params := params + [arg];
          apn := apn + 1;
        }
      }
      i := i + 1;
    }

    if command.Some? {
      EndReading(args, done, command.value, params);
      rc := RunCollected(d, command.value, commandParameters, apn, params);
      assert d.log == log0 + (done + [Call(command.value, params)]);
      if rc != 0 {
        OneFailed(args, log0, d.answer, done, Call(command.value, params));
        return -1;
      } else {
        OneMoreSuccess(done, Call(command.value, params), log0, d.answer);
        AllRan(args, log0, d.answer, done + [Call(command.value, params)]);
        return 0;
      }
    } else {
      NoGroups(args, done, log0, d.answer);
      return -1;
    }
  }

  /** Terminates the parameter array and runs the command; both places of parse_args that do so share this. */
  method RunCollected(d: Dispatcher, name: string, a: array<Pointer>, apn: int, ghost params: seq<string>) returns (rc: int)
    requires Collected(a[..], apn, params)
    modifies d, a
    ensures d.log == old(d.log) + [Call(name, params)] && rc == d.answer(d.log)
  {
    TerminatedStrings(a[..], params);
    a[apn] := None;
    assert a[..] == old(a[..])[apn := None];
    rc := d.RunCommand(name, a[..]);
  }

  // parse_command().

  /** The call one configuration line makes, if any. */
  function LineCalls(line: string): seq<Call> {
    var ts := Tokens(line, BLANKS);
    if ts == [] then [] else [Call(ts[0], ts[1..])]
  }

  /** The strtok_r loop: fills the pointer array and returns how many slots it used. */
  method Tokenize(line: string, a: array<Pointer>) returns (j: nat)
    requires a.Length == SLOTS && |Tokens(line, BLANKS)| < SLOTS
    modifies a
    ensures Collected(a[..], j, Tokens(line, BLANKS))
  {
    hide Tokens;
    var rest := line;
    j := 0;
    ghost var done: seq<string> := [];
    while true
      invariant Tokens(line, BLANKS) == done + Tokens(rest, BLANKS)
      invariant Collected(a[..], j, done)
      decreases |rest|
    {
      var cut := NextToken(rest, BLANKS);
      if cut.NoToken? {
        break;
      }
      a[j] := Some(cut.token);
      done := done + [cut.token];
      j := j + 1;
      rest := cut.rest;
    }
    assert done == Tokens(line, BLANKS);
  }

  /** Tokenise, then run the first token with the rest as its arguments. */
  method ParseCommand(line: string, d: Dispatcher)
    requires |Tokens(line, BLANKS)| < 128
    modifies d
    ensures d.log == old(d.log) + LineCalls(line)
  {
    hide Tokens, Strings;
    var tokenized := new Pointer[SLOTS](_ => None);
    var j := Tokenize(line, tokenized);
    TerminatedStrings(tokenized[..], Tokens(line, BLANKS));
    ghost var before := tokenized[..];
    tokenized[j] := None;
    assert tokenized[..] == before[j := None];
    StringsHead(tokenized[..]);
    if tokenized[0].Some? {
      assert tokenized[..][1..] == tokenized[1..];
      var rc := d.RunCommand(tokenized[0].value, tokenized[1..]);
    }
  }

  // Rendering calls as argv, and the two parsers side by side.

  datatype Spelled = Spelled(call: Call, long: bool)

  predicate Renderable(s: Spelled) {
    && s.call.name != ""
    && (s.long || s.call.name[0] != '-')
    && forall i | 0 <= i < |s.call.params| :: s.call.params[i] == "" || s.call.params[i][0] != '-'
  }

  function Dashed(s: Spelled): string {
    (if s.long then "--" else "-") + s.call.name
  }

  function Render(ss: seq<Spelled>): seq<string> {
    if ss == [] then [] else [Dashed(ss[0])] + ss[0].call.params + Render(ss[1..])
  }

  function Calls(ss: seq<Spelled>): seq<Call> {
    seq(|ss|, i requires 0 <= i < |ss| => ss[i].call)
  }

  lemma {:induction false} ParamCountIs(params: seq<string>, rest: seq<string>)
    requires forall i | 0 <= i < |params| :: !IsOption(params[i])
    requires rest != [] ==> IsOption(rest[0])
    ensures ParamCount(params + rest) == |params|
  {
    if params != [] {
      assert (params + rest)[1..] == params[1..] + rest;
      ParamCountIs(params[1..], rest);
    } else {
      assert params + rest == rest;
    }
  }

  /** Main result: reading a rendered list of calls gives that list, and nothing in it is a syntax error. */
  lemma {:induction false} GroupsOfRendered(ss: seq<Spelled>)
    requires forall i | 0 <= i < |ss| :: Renderable(ss[i])
    ensures Groups(Render(ss)) == Calls(ss) && Named(Render(ss))
    ensures ss != [] ==> WellFormed(Render(ss))
  {
    hide Renderable, Groups, Dashed, Render, Calls, WellFormed;
    NothingRendered();
    if ss != [] {
      RenderOne(ss);
      var s, tail := ss[0], Render(ss[1..]);
      GroupsOfRendered(ss[1..]);
      StartsWithOption(tail);
      GroupsOfOne(s, tail);
      StartsWithOption(Render(ss));
    }
  }

  lemma NothingRendered()
    ensures Render([]) == [] && Calls([]) == [] && Groups([]) == []
  {
  }

  lemma RenderOne(ss: seq<Spelled>)
    requires ss != []
    ensures Render(ss) == [Dashed(ss[0])] + (ss[0].call.params + Render(ss[1..]))
    ensures Calls(ss) == [ss[0].call] + Calls(ss[1..])
  {
    hide Dashed, Calls;
    CallsOfOne(ss);
    Associative([Dashed(ss[0])], ss[0].call.params, Render(ss[1..]));
  }

  lemma CallsOfOne(ss: seq<Spelled>)
    requires ss != []
    ensures Calls(ss) == [ss[0].call] + Calls(ss[1..])
  {
  }

  lemma StartsWithOption(args: seq<string>)
    ensures WellFormed(args) ==> IsOption(args[0]) && Named(args)
  {
  }

  lemma GroupsOfOne(s: Spelled, tail: seq<string>)
    requires Renderable(s) && (tail != [] ==> IsOption(tail[0])) && Named(tail)
    ensures var all := [Dashed(s)] + (s.call.params + tail);
            WellFormed(all) && Groups(all) == [s.call] + Groups(tail)
  {
    hide Renderable, Groups;
    var all := [Dashed(s)] + (s.call.params + tail);
    var rest := s.call.params + tail;
    DashedName(s);
    assert all[1..] == rest;
    ParamCountIs(s.call.params, tail);
    assert rest[..|s.call.params|] == s.call.params && rest[|s.call.params|..] == tail;
    GroupsUnfold(all, |s.call.params|);
  }

  lemma DashedName(s: Spelled)
    requires Renderable(s)
    ensures IsOption(Dashed(s)) && NameOf(Dashed(s)) == s.call.name != ""
    ensures forall i | 0 <= i < |s.call.params| :: !IsOption(s.call.params[i])
  {
  }

  lemma GroupsUnfold(args: seq<string>, n: nat)
    requires args != [] && IsOption(args[0]) && NameOf(args[0]) != "" && n == ParamCount(args[1..])
    ensures Groups(args) == [Call(NameOf(args[0]), args[1..][..n])] + Groups(args[1..][n..])
  {
  }

  /** So parse_args runs exactly the rendered calls, in order, up to and including the first that fails. */
  lemma RenderedRuns(ss: seq<Spelled>, log: seq<Call>, answer: seq<Call> -> int, now: seq<Call>, rc: int)
    requires ss != [] && forall i | 0 <= i < |ss| :: Renderable(ss[i])
    requires Outcome(Render(ss), log, answer, now, rc)
    ensures rc == 0 <==> AllSucceed(Calls(ss), log, answer)
    ensures now == log + Calls(ss)[..Made(Calls(ss), log, answer, 0)]
  {
    GroupsOfRendered(ss);
  }

  /** parse_args() returns 0 only for arguments that begin with a dash and of which none is a dash or two alone. */
  lemma WellFormedIs(args: seq<string>)
    ensures WellFormed(args) <==>
      && args != [] && args[0] != "" && args[0][0] == '-'
      && forall i | 0 <= i < |args| :: args[i] != "-" && args[i] != "--"
  {
    forall i | 0 <= i < |args|
      ensures (IsOption(args[i]) ==> NameOf(args[i]) != "") <==> args[i] != "-" && args[i] != "--"
    {
    }
  }

  /** A word that a line of the configuration file can hold: no space and no newline in it. */
  predicate Word(t: string) {
    t != "" && forall i | 0 <= i < |t| :: t[i] != ' ' && t[i] != '\n'
  }

  lemma WordsAreClean(ts: seq<string>)
    requires forall i | 0 <= i < |ts| :: Word(ts[i])
    ensures Clean(ts, BLANKS)
  {
  }

  /** A newline at the end of a line, as fgets leaves it, and spaces around it make no difference. */
  lemma BlanksAround(line: string, blank: char)
    requires blank == ' ' || blank == '\n'
    ensures LineCalls(line + [blank]) == LineCalls([blank] + line) == LineCalls(line)
  {
    hide Tokens;
    TokensAppend(line, blank, "", BLANKS);
    TokensAppend("", blank, line, BLANKS);
    NoTokens(BLANKS);
    assert line + [blank] + "" == line + [blank] && "" + [blank] + line == [blank] + line;
    assert Tokens(line, BLANKS) + [] == Tokens(line, BLANKS) == [] + Tokens(line, BLANKS);
  }

  /** A line of the configuration file calls its first word with the others; one without words calls nothing. */
  lemma LineOfWords(ts: seq<string>)
    requires forall i | 0 <= i < |ts| :: Word(ts[i])
    ensures LineCalls(Join(ts, ' ') + "\n") == if ts == [] then [] else [Call(ts[0], ts[1..])]
  {
    hide Tokens, Join;
    WordsAreClean(ts);
    TokensOfJoin(ts, ' ', BLANKS);
    BlanksAround(Join(ts, ' '), '\n');
  }

  /** A configuration line and the dashed form of the same command make the same call. */
  lemma LineAgreesWithArgv(ts: seq<string>, long: bool)
    requires ts != [] && forall i | 0 <= i < |ts| :: Word(ts[i]) && ts[i][0] != '-'
    ensures var s := Spelled(Call(ts[0], ts[1..]), long);
            LineCalls(Join(ts, ' ') + "\n") == Groups(Render([s])) == [s.call] && WellFormed(Render([s]))
  {
    hide Tokens, Join, Groups, Render, WellFormed, LineCalls;
    var s := Spelled(Call(ts[0], ts[1..]), long);
    LineOfWords(ts);
    assert forall i | 0 <= i < |ts[1..]| :: ts[1..][i] == ts[i + 1];
    GroupsOfRendered([s]);
    assert Calls([s]) == [s.call];
  }
}
