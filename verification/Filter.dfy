/** The filter_domains plugin, and what any chain behind such filters gets to see. */
module Filter {
  import opened Text
  import opened Bits
  import opened Domains
  import opened Records
  import opened Plugins

  const UPDATE_MASK := "update-mask"
  const PRINT_MASK := "print-mask"

  /** The mask that the configuration and the commands so far leave behind. */
  function MaskAfter(config: string, t: Trace): bv32 {
    if t == [] then MaskOf(config)
    else match t[|t| - 1]
      case Command(args) =>
        if |args| >= 2 && args[0] == UPDATE_MASK then MaskOf(args[1]) else MaskAfter(config, t[..|t| - 1])
      case _ => MaskAfter(config, t[..|t| - 1])
  }

  /** The filter's answers; what its plugin_command returns is left to chance by the source. */
  predicate FilterAnswers(config: string, t: Trace, answer: int) {
    t != [] ==>
      match t[|t| - 1]
      case Poll => answer == PLUGIN_ACCEPT_DATA
      case Offer(rec) =>
        answer == if Has(MaskAfter(config, t[..|t| - 1]), rec.dom) then PLUGIN_ACCEPT_DATA else PLUGIN_DROP_DATA
      case _ => true
  }

  class FilterPlugin {
    const config: string
    var domainBitFlags: bv32
    ghost var trace: Trace

    ghost predicate Valid()
      reads this
    {
      domainBitFlags == MaskAfter(config, trace)
    }

    /** open_plugin() */
    constructor (config: string)
      ensures Valid() && this.config == config && trace == [] && domainBitFlags == MaskOf(config)
    {
      this.config := config;
      domainBitFlags := 0;
      trace := [];
      new;
      domainBitFlags := DomainListToBitMask(config);
    }

    method OkToAcceptData() returns (rc: int)
      requires Valid()
      modifies this
      ensures Valid() && trace == old(trace) + [Poll] && FilterAnswers(config, trace, rc)
      ensures rc == 1 && domainBitFlags == old(domainBitFlags)
    {
      OneMoreInMask(config, trace, Poll);
      trace := trace + [Poll];
      rc := PLUGIN_ACCEPT_DATA;
    }

    method ProcessData(rec: Record) returns (rc: int)
      requires Valid()
      modifies this
      ensures Valid() && trace == old(trace) + [Offer(rec)] && FilterAnswers(config, trace, rc)
      ensures rc == (if Has(old(domainBitFlags), rec.dom) then 1 else -1) && domainBitFlags == old(domainBitFlags)
    {
      hide Has;
      OneMoreInMask(config, trace, Offer(rec));
      trace := trace + [Offer(rec)];
      if !Has(domainBitFlags, rec.dom) {
        return PLUGIN_DROP_DATA;
      } else {
        return PLUGIN_ACCEPT_DATA;
      }
    }

    /** plugin_command(): the text printed. print-mask indexes the name table, so its mask must stay within it. */
    method PluginCommand(args: seq<string>) returns (text: string)
      requires Valid() && (args != [] && args[0] == "print-mask" ==> Printable(domainBitFlags))
      modifies this
      ensures Valid() && trace == old(trace) + [Command(args)]
      ensures domainBitFlags
           == if |args| > 1 && args[0] == "update-mask" then MaskOf(args[1]) else old(domainBitFlags)
      ensures text == if args != [] && args[0] == "print-mask"
                      then "domain_mask:" + Join(NamesFrom(old(domainBitFlags), 0), ',') + "\n" else ""
    {
      hide Has, Printable, MaskOf;
      OneMoreInMask(config, trace, Command(args));
      trace := trace + [Command(args)];
      text := "";
      if |args| >= 1 && args[0] == UPDATE_MASK && |args| >= 2 {
        domainBitFlags := DomainListToBitMask(args[1]);
      } else if |args| >= 1 && args[0] == PRINT_MASK {
        var list := PrintBits(domainBitFlags);
        text := "domain_mask:" + list + "\n";
      }
    }
  }

  lemma OneMoreInMask(config: string, t: Trace, c: Callback)
    ensures (t + [c])[..|t|] == t
    ensures MaskAfter(config, t + [c])
         == if c.Command? && |c.args| >= 2 && c.args[0] == UPDATE_MASK then MaskOf(c.args[1]) else MaskAfter(config, t)
  {
    assert (t + [c])[..|t|] == t;
  }

  /** m holds the bits of the mask from j up. */
  predicate Remaining(mask: bv32, m: bv32, j: nat) {
    forall i | 0 <= i < 32 :: Has(m, i) <==> i >= j && Has(mask, i)
  }

  lemma AllRemain(mask: bv32)
    ensures Remaining(mask, mask, 0)
  {
  }

  lemma {:induction false} NoneNamed(mask: bv32, j: nat)
    requires j <= END_DOMAINS
    ensures NamesFrom(mask, j) == [] <==> forall i | j <= i < END_DOMAINS :: !Has(mask, i)
    decreases END_DOMAINS - j
  {
    hide Has;
    if j < END_DOMAINS {
      NoneNamed(mask, j + 1);
    }
  }

  lemma EmptyMask(m: bv32, i: nat)
    requires m == 0 && i < 32
    ensures !Has(m, i)
  {
    HasConstant(i);
  }

  /** Nothing remains exactly when there is no name left to print. */
  lemma NothingRemains(mask: bv32, m: bv32, j: nat)
    requires Printable(mask) && j <= END_DOMAINS && Remaining(mask, m, j)
    ensures m == 0 <==> NamesFrom(mask, j) == []
    ensures m != 0 ==> j < END_DOMAINS
  {
    hide Bit, Has, NamesFrom;
    NoneNamed(mask, j);
    if NamesFrom(mask, j) == [] {
      NoBits(m);
    } else {
      var i :| j <= i < END_DOMAINS && Has(mask, i);
      assert Has(m, i);
      if m == 0 {
        EmptyMask(m, i);
      }
    }
  }

  /** c is m with bit j cleared. */
  lemma OneBitOn(mask: bv32, m: bv32, c: bv32, j: nat)
    requires j < END_DOMAINS && Remaining(mask, m, j) && c == m & !Bit(j)
    ensures !Has(m, j) ==> Remaining(mask, m, j + 1) && NamesFrom(mask, j) == NamesFrom(mask, j + 1)
    ensures Has(m, j) ==> Remaining(mask, c, j + 1) && NamesFrom(mask, j) == [NAMES[j]] + NamesFrom(mask, j + 1)
  {
    hide Bit, Has;
    forall i | 0 <= i < 32
      ensures Has(c, i) <==> Has(m, i) && i != j
    {
      HasClearedIs(c, m, j, i);
    }
    assert Has(mask, j) <==> Has(m, j);
  }

  lemma JoinHead(name: string, names: seq<string>)
    ensures Join([name] + names, ',') == name + if names == [] then "" else "," + Join(names, ',')
    ensures Join([], ',') == ""
  {
    assert ([name] + names)[1..] == names;
  }

  /** One turn of the loop of print-mask: the text it prints for bit j, and what it leaves of m. */
  method PrintBit(mask: bv32, m: bv32, j: nat) returns (text: string, c: bv32)
    requires Printable(mask) && j < END_DOMAINS && Remaining(mask, m, j)
    ensures Remaining(mask, c, j + 1)
    ensures Join(NamesFrom(mask, j), ',') == text + Join(NamesFrom(mask, j + 1), ',')
  {
    hide Bit, Has, NamesFrom, Join, Printable, Remaining;
    text, c := "", m;
    OneBitOn(mask, m, m & !Bit(j), j);
    if Has(m, j) {
      text := NAMES[j];
      c := m & !Bit(j);
      JoinHead(NAMES[j], NamesFrom(mask, j + 1));
      NothingRemains(mask, c, j + 1);
      if c != 0 {
        text := text + ",";
      }
    }
  }

  /** The loop of print-mask: it ends because every bit printed is taken out of m. */
  method PrintBits(mask: bv32) returns (text: string)
    requires Printable(mask)
    ensures text == Join(NamesFrom(mask, 0), ',')
  {
    hide Bit, Has, NamesFrom, Join, Printable, Remaining;
    text := "";
    var m := mask;
    var j := 0;
    AllRemain(mask);
    while m != 0
      invariant 0 <= j <= END_DOMAINS
      invariant Remaining(mask, m, j)
      invariant Join(NamesFrom(mask, 0), ',') == text + Join(NamesFrom(mask, j), ',')
      decreases END_DOMAINS - j
    {
      NothingRemains(mask, m, j);
      var printed, cleared := PrintBit(mask, m, j);
      text := text + printed;
      m := cleared;
      j := j + 1;
    }
    NothingRemains(mask, m, j);
    JoinHead("", []);
  }

  // What passes a filter.

  function Keep(m: bv32, recs: seq<Record>): seq<Record> {
    if recs == [] then []
    else if Has(m, recs[0].dom) then [recs[0]] + Keep(m, recs[1..])
    else Keep(m, recs[1..])
  }

  predicate InAll(ms: seq<bv32>, d: Domain) {
    forall i | 0 <= i < |ms| :: Has(ms[i], d)
  }

  /** The records whose domain is in every one of the masks. */
  function KeepAll(ms: seq<bv32>, recs: seq<Record>): seq<Record> {
    if recs == [] then []
    else if InAll(ms, recs[0].dom) then [recs[0]] + KeepAll(ms, recs[1..])
    else KeepAll(ms, recs[1..])
  }

  /** p is a filter_domains instance opened with this configuration. */
  ghost predicate IsFilter<S>(p: Plugin<S>, config: string) {
    !p.paused && forall t: Trace :: FilterAnswers(config, t, p.behave(t))
  }

  /** One way for a filter to answer: as FilterPlugin's methods do, and 0 where they leave the answer open. */
  function FilterBehaviour(config: string): Behaviour {
    (t: Trace) =>
      if t == [] then 0
      else match t[|t| - 1]
        case Poll => PLUGIN_ACCEPT_DATA
        case Offer(rec) =>
          if Has(MaskAfter(config, t[..|t| - 1]), rec.dom) then PLUGIN_ACCEPT_DATA else PLUGIN_DROP_DATA
        case _ => 0
  }

  lemma FilterBehaves(config: string, t: Trace)
    ensures FilterAnswers(config, t, FilterBehaviour(config)(t))
  {
    hide Has, MaskAfter;
  }

  /** A plugin loaded with that behaviour is a filter, on whatever state and under whatever names. */
  lemma LoadedFilterIsFilter<S>(library: string, alias: Option<string>, state: S, config: string)
    ensures IsFilter(Plugin(library, alias, true, state, FilterBehaviour(config), false, []), config)
  {
    hide FilterAnswers, FilterBehaviour;
    forall t: Trace
      ensures FilterAnswers(config, t, FilterBehaviour(config)(t))
    {
      FilterBehaves(config, t);
    }
  }

  /** Whatever p answers, it never answers DROP to a record. */
  ghost predicate NeverDrops<S>(p: Plugin<S>) {
    forall t: Trace | t != [] && t[|t| - 1].Offer? :: p.behave(t) != PLUGIN_DROP_DATA
  }

  /** The plugins in front: filters with the configurations given, and between them any that never drop. */
  ghost predicate InFront<S>(fs: seq<Plugin<S>>, configs: seq<Option<string>>)
    requires |fs| == |configs|
  {
    forall i | 0 <= i < |fs| :: if configs[i].Some? then IsFilter(fs[i], configs[i].value) else NeverDrops(fs[i])
  }

  /** The masks of the filters among them. */
  function Masks<S>(fs: seq<Plugin<S>>, configs: seq<Option<string>>): seq<bv32>
    requires |fs| == |configs|
  {
    if fs == [] then []
    else if configs[0].Some? then [MaskAfter(configs[0].value, fs[0].trace)] + Masks(fs[1..], configs[1..])
    else Masks(fs[1..], configs[1..])
  }

  /** A filter is never paused, keeps its mask while records pass, and drops what its mask lacks. */
  lemma FilterStep<S>(f: Plugin<S>, config: string, rec: Record)
    requires IsFilter(f, config)
    ensures Polled(f) == f
    ensures IsFilter(Offered(f, rec), config)
    ensures MaskAfter(config, Offered(f, rec).trace) == MaskAfter(config, f.trace)
    ensures DropsNow(f, rec) <==> !Has(MaskAfter(config, f.trace), rec.dom)
  {
    hide Has;
    var t := f.trace + [Offer(rec)];
    OneMoreInMask(config, f.trace, Offer(rec));
    assert FilterAnswers(config, t, f.behave(t));
  }

  /** Whatever stands behind a filter goes through the same states as alone on the records the mask keeps. */
  lemma {:induction false} BehindFilter<S>(f: Plugin<S>, config: string, rest: seq<Plugin<S>>, recs: seq<Record>)
    requires IsFilter(f, config)
    ensures DeliverAll([f] + rest, recs)[1..] == DeliverAll(rest, Keep(MaskAfter(config, f.trace), recs))
    decreases recs
  {
    hide Has, IsFilter, Polled, Offered, DropsNow;
    if recs == [] {
      assert ([f] + rest)[1..] == rest;
    } else {
      var rec, later := recs[0], recs[1..];
      var m := MaskAfter(config, f.trace);
      FilterStep(f, config, rec);
      DeliverHead([f] + rest, rec);
      assert ([f] + rest)[1..] == rest;
      var next := if Has(m, rec.dom) then Deliver(rest, rec) else rest;
      BehindFilter(Offered(f, rec), config, next, later);
      assert DeliverAll([f] + rest, recs) == DeliverAll([Offered(f, rec)] + next, later);
      if Has(m, rec.dom) {
        var kept := Keep(m, later);
        assert Keep(m, recs) == [rec] + kept;
        assert ([rec] + kept)[1..] == kept;
      }
    }
  }

  lemma PasserStep<S>(p: Plugin<S>, rec: Record)
    requires NeverDrops(p)
    ensures !DropsNow(Polled(p), rec) && NeverDrops(Offered(Polled(p), rec))
  {
    var q := Polled(p);
    assert q.behave == p.behave;
    var t := q.trace + [Offer(rec)];
    assert t[|t| - 1] == Offer(rec);
  }

  /** Whatever stands behind a plugin that never drops goes through the same states as alone. */
  lemma {:induction false} BehindPasser<S>(p: Plugin<S>, rest: seq<Plugin<S>>, recs: seq<Record>)
    requires NeverDrops(p)
    ensures DeliverAll([p] + rest, recs)[1..] == DeliverAll(rest, recs)
    decreases recs
  {
    hide NeverDrops, Polled, Offered, DropsNow;
    assert ([p] + rest)[1..] == rest;
    if recs != [] {
      var rec := recs[0];
      PasserStep(p, rec);
      DeliverHead([p] + rest, rec);
      BehindPasser(Offered(Polled(p), rec), Deliver(rest, rec), recs[1..]);
      assert DeliverAll([p] + rest, recs) == DeliverAll([Offered(Polled(p), rec)] + Deliver(rest, rec), recs[1..]);
    }
  }

  lemma {:induction false} KeepThenKeepAll(m: bv32, ms: seq<bv32>, recs: seq<Record>)
    ensures KeepAll(ms, Keep(m, recs)) == KeepAll([m] + ms, recs)
  {
    hide Has;
    if recs != [] {
      var rec, later := recs[0], recs[1..];
      KeepThenKeepAll(m, ms, later);
      var all := [m] + ms;
      assert InAll(all, rec.dom) <==> Has(m, rec.dom) && InAll(ms, rec.dom) by {
        assert all[0] == m;
        assert forall i | 0 <= i < |ms| :: all[i + 1] == ms[i];
        assert forall i | 0 < i < |all| :: all[i] == ms[i - 1];
      }
      if Has(m, rec.dom) {
        var kept := Keep(m, later);
        assert ([rec] + kept)[1..] == kept;
      }
    }
  }

  lemma {:induction false} KeepAllOfNone(recs: seq<Record>)
    ensures KeepAll([], recs) == recs
  {
    if recs != [] {
      KeepAllOfNone(recs[1..]);
    }
  }

  /** The first plugin of those in front, then the others. */
  lemma InFrontHead<S>(fs: seq<Plugin<S>>, configs: seq<Option<string>>, rest: seq<Plugin<S>>)
    requires |fs| == |configs| && fs != [] && InFront(fs, configs)
    ensures InFront(fs[1..], configs[1..]) && fs + rest == [fs[0]] + (fs[1..] + rest)
    ensures if configs[0].Some? then IsFilter(fs[0], configs[0].value) else NeverDrops(fs[0])
  {
    hide IsFilter, NeverDrops;
  }

  lemma Behind<S>(all: seq<Plugin<S>>, n: nat)
    requires 0 < n <= |all|
    ensures all[1..][n - 1..] == all[n..]
  {
  }

  /**
   * Main result: plugins behind any number of filters, with plugins that never drop standing anywhere among
   * them, see exactly the records in the intersection of the filters' masks, and behave as they would alone
   * on those records, whatever they answer.
   */
  lemma {:induction false} BehindFilters<S>(fs: seq<Plugin<S>>, configs: seq<Option<string>>, rest: seq<Plugin<S>>,
                                            recs: seq<Record>)
    requires |fs| == |configs| && InFront(fs, configs)
    ensures DeliverAll(fs + rest, recs)[|fs|..] == DeliverAll(rest, KeepAll(Masks(fs, configs), recs))
  {
    hide IsFilter, NeverDrops, InFront, DeliverAll, Keep, KeepAll, MaskAfter;
    if fs == [] {
      assert fs + rest == rest;
      assert DeliverAll(rest, recs)[0..] == DeliverAll(rest, recs);
      KeepAllOfNone(recs);
    } else {
      var others := fs[1..];
      InFrontHead(fs, configs, rest);
      Behind(DeliverAll(fs + rest, recs), |fs|);
      if configs[0].Some? {
        var m := MaskAfter(configs[0].value, fs[0].trace);
        BehindFilter(fs[0], configs[0].value, others + rest, recs);
        BehindFilters(others, configs[1..], rest, Keep(m, recs));
        KeepThenKeepAll(m, Masks(others, configs[1..]), recs);
      } else {
        BehindPasser(fs[0], others + rest, recs);
        BehindFilters(others, configs[1..], rest, recs);
      }
    }
  }

  lemma {:induction false} KeepAllBySet(ms: seq<bv32>, ns: seq<bv32>, recs: seq<Record>)
    requires forall m :: m in ms <==> m in ns
    ensures KeepAll(ms, recs) == KeepAll(ns, recs)
  {
    hide Has;
    if recs != [] {
      var d := recs[0].dom;
      assert InAll(ms, d) <==> InAll(ns, d) by {
        assert InAll(ms, d) <==> forall m | m in ms :: Has(m, d);
        assert InAll(ns, d) <==> forall m | m in ns :: Has(m, d);
      }
      KeepAllBySet(ms, ns, recs[1..]);
    }
  }

  /** Neither the order of the filters nor a mask given twice nor plugins that never drop matter to what is behind. */
  lemma FilterOrderIsIrrelevant<S>(fs: seq<Plugin<S>>, configs: seq<Option<string>>, gs: seq<Plugin<S>>,
                                   configs': seq<Option<string>>, rest: seq<Plugin<S>>, recs: seq<Record>)
    requires |fs| == |configs| && InFront(fs, configs) && |gs| == |configs'| && InFront(gs, configs')
    requires forall m :: m in Masks(fs, configs) <==> m in Masks(gs, configs')
    ensures DeliverAll(fs + rest, recs)[|fs|..] == DeliverAll(gs + rest, recs)[|gs|..]
  {
    hide InFront, Masks, KeepAll;
    BehindFilters(fs, configs, rest, recs);
    BehindFilters(gs, configs', rest, recs);
    KeepAllBySet(Masks(fs, configs), Masks(gs, configs'), recs);
  }
}
