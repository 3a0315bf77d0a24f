/** From the intercepted call to the plugin: choosing domains at the source, or with a filter at the listener. */
module Pipeline {
  import opened Text
  import opened Bits
  import opened Domains
  import opened Records
  import opened Stages
  import opened Gate
  import opened Sender
  import opened Resolver
  import opened Plugins
  import opened Filter

  /** Sampling off and not started paused. */
  function Capturing(mask: bv32): Settings {
    Settings(mask, None, None, None, None)
  }

  /** What the capture library puts on the queue. */
  function Sent(mask: bv32, es: seq<Event>): seq<Record> {
    Delivered(NO_SENDS, Passed(Capturing(mask), Closed(Capturing(mask)), es))
  }

  /** What the plugin chain is then given: the same records with their devices. */
  function Received(ms: Mounts, mask: bv32, es: seq<Event>): seq<Record> {
    TrackAll(ms, Sent(mask, es))
  }

  /** msgsnd takes the record within the five tries. */
  predicate GetsThrough(e: Event) {
    FullTries(e.answers) < MAX_TRIES && e.answers[FullTries(e.answers)].Taken?
  }

  function Through(es: seq<Event>): seq<Record> {
    if es == [] then []
    else if GetsThrough(es[0]) then [RecordOf(es[0])] + Through(es[1..])
    else Through(es[1..])
  }

  /** The events from the first on that finds the key; none if that one does not find the queue. */
  function Connected(es: seq<Event>): seq<Event> {
    if es == [] then []
    else if !es[0].keyFound then Connected(es[1..])
    else if es[0].queueFound then es
    else []
  }

  lemma {:induction false} DeliveredUp(c: Counters, es: seq<Event>)
    requires c.haveKey && c.haveQueue
    ensures Delivered(c, es) == Through(es)
    decreases es
  {
    hide RecordOf;
    if es != [] {
      DeliveredUp(Send(c, es[0]), es[1..]);
    }
  }

  /** Whatever ftok, msgget and msgsnd answer, what is delivered is what gets through once connected. */
  lemma {:induction false} DeliveredConnected(c: Counters, es: seq<Event>)
    requires !c.haveKey && !c.haveQueue
    ensures Delivered(c, es) == Through(Connected(es))
    decreases es
  {
    hide RecordOf, GetsThrough;
    if es != [] {
      var e, rest := es[0], es[1..];
      FirstSend(c, e);
      if !e.keyFound {
        DeliveredConnected(Send(c, e), rest);
      } else if e.queueFound {
        DeliveredUp(Send(c, e), rest);
      } else {
        NoSecondMsgget(Send(c, e), rest);
      }
    }
  }

  lemma FirstSend(c: Counters, e: Event)
    requires !c.haveKey && !c.haveQueue
    ensures Accepted(c, e) <==> e.keyFound && e.queueFound && GetsThrough(e)
    ensures Send(c, e).haveKey == e.keyFound && Send(c, e).haveQueue == (e.keyFound && e.queueFound)
  {
  }

  lemma PassedUnsampled(mask: bv32, es: seq<Event>)
    ensures Passed(Capturing(mask), Closed(Capturing(mask)), es) == Admit(mask, es)
  {
    var cfg := Capturing(mask);
    var admitted := Admit(mask, es);
    Fused(cfg, Closed(cfg), es);
    Unsampled(Clock(false, 0), 0, admitted);
  }

  lemma SentIs(m: bv32, es: seq<Event>)
    ensures Sent(m, es) == Through(Connected(Admit(m, es)))
  {
    PassedUnsampled(m, es);
    DeliveredConnected(NO_SENDS, Admit(m, es));
  }

  /** Of calls that pass the tests on anything but their domain, a mask keeps the records in it. */
  lemma {:induction false} KeepThrough(m: bv32, es: seq<Event>)
    requires forall e | e in es :: Admitted(ALL_BITS, e)
    ensures Keep(m, Through(es)) == Through(Admit(m, es))
  {
    hide GetsThrough, Has, Admitted;
    if es != [] {
      var e := es[0];
      KeepThrough(m, es[1..]);
      AdmittedNarrowly(m, e);
      var narrow := Admit(m, es[1..]);
      assert ([e] + narrow)[1..] == narrow;
      var sent := Through(es[1..]);
      assert ([RecordOf(e)] + sent)[1..] == sent;
    }
  }

  lemma {:induction false} AdmitTwice(m: bv32, es: seq<Event>)
    ensures Admit(m, Admit(ALL_BITS, es)) == Admit(m, es)
  {
    hide Admitted, Has;
    if es != [] {
      AdmitTwice(m, es[1..]);
      AdmittedNarrowly(m, es[0]);
      var wide := Admit(ALL_BITS, es[1..]);
      assert ([es[0]] + wide)[1..] == wide;
    }
  }

  /** Narrowing the capture mask to m keeps, of what capturing everything lets through, the domains in m. */
  lemma AdmitNarrowed(m: bv32, es: seq<Event>)
    ensures Through(Admit(m, es)) == Keep(m, Through(Admit(ALL_BITS, es)))
  {
    hide Admit, Through, Keep, Admitted;
    AdmitSelects(ALL_BITS, es);
    KeepThrough(m, Admit(ALL_BITS, es));
    AdmitTwice(m, es);
  }

  lemma AdmittedNarrowly(m: bv32, e: Event)
    ensures Admitted(m, e) <==> Admitted(ALL_BITS, e) && Has(m, e.dom)
  {
    hide Has;
    HasConstant(e.dom);
  }

  /**
   * The queue file is there for good once it is there: when ftok has found the key it keeps finding it, and
   * whenever it does msgget succeeds.
   */
  predicate QueueSteady(es: seq<Event>) {
    && (forall i, j | 0 <= i < j < |es| && es[i].keyFound :: es[j].keyFound)
    && (forall i | 0 <= i < |es| && es[i].keyFound :: es[i].queueFound)
  }

  lemma {:induction false} AllConnected(m: bv32, es: seq<Event>)
    requires forall i | 0 <= i < |es| :: es[i].keyFound && es[i].queueFound
    ensures Connected(Admit(m, es)) == Admit(m, es)
  {
    hide Admitted;
    if es != [] {
      AllConnected(m, es[1..]);
    }
  }

  lemma {:induction false} ConnectedNarrowed(m: bv32, es: seq<Event>)
    requires QueueSteady(es)
    ensures Through(Connected(Admit(m, es))) == Keep(m, Through(Connected(Admit(ALL_BITS, es))))
  {
    hide GetsThrough, Has, Keep, Through, Admitted;
    if es == [] {
      NothingThrough(m);
    } else if es[0].keyFound {
      AllConnected(m, es);
      AllConnected(ALL_BITS, es);
      AdmitNarrowed(m, es);
    } else {
      ConnectedNarrowed(m, es[1..]);
      SkipUnconnected(m, es);
      SkipUnconnected(ALL_BITS, es);
    }
  }

  lemma NothingThrough(m: bv32)
    ensures Through([]) == [] && Keep(m, []) == []
  {
  }

  lemma SkipUnconnected(m: bv32, es: seq<Event>)
    requires es != [] && !es[0].keyFound
    ensures Connected(Admit(m, es)) == Connected(Admit(m, es[1..]))
  {
    hide Admitted;
    var rest := Admit(m, es[1..]);
    assert ([es[0]] + rest)[1..] == rest;
  }

  /** At the queue the two ways agree for every mask in every run with a steady queue. */
  lemma SentNarrowed(m: bv32, es: seq<Event>)
    requires QueueSteady(es)
    ensures Sent(m, es) == Keep(m, Sent(ALL_BITS, es))
  {
    SentIs(m, es);
    SentIs(ALL_BITS, es);
    ConnectedNarrowed(m, es);
  }

  // Without any assumption on the queue, run by run.

  /** Among the calls that the mask admits, the first that the narrow capture can deliver. */
  function NarrowStart(m: bv32, es: seq<Event>): int {
    |Admit(m, es)| - |Connected(Admit(m, es))|
  }

  /** Among the same calls, the first that capturing everything can deliver. */
  function WideStart(m: bv32, es: seq<Event>): int {
    |Admit(m, es)| - |Admit(m, Connected(Admit(ALL_BITS, es)))|
  }

  lemma {:induction false} ConnectedIsSuffix(es: seq<Event>)
    ensures |Connected(es)| <= |es| && Connected(es) == es[|es| - |Connected(es)|..]
  {
    if es != [] && !es[0].keyFound {
      ConnectedIsSuffix(es[1..]);
      var n := |Connected(es)|;
      assert es[|es| - n..] == es[1..][|es| - 1 - n..];
    }
  }

  lemma {:induction false} AdmitBoth(m: bv32, a: seq<Event>, b: seq<Event>)
    ensures Admit(m, a + b) == Admit(m, a) + Admit(m, b)
  {
    hide Admitted;
    if a == [] {
      assert a + b == b;
    } else {
      AdmitBoth(m, a[1..], b);
      TailOfBoth(a, b);
      Associative([a[0]], Admit(m, a[1..]), Admit(m, b));
    }
  }

  lemma {:induction false} ThroughBoth(a: seq<Event>, b: seq<Event>)
    ensures Through(a + b) == Through(a) + Through(b)
  {
    hide GetsThrough, RecordOf;
    if a == [] {
      assert a + b == b;
    } else {
      ThroughBoth(a[1..], b);
      TailOfBoth(a, b);
      Associative([RecordOf(a[0])], Through(a[1..]), Through(b));
    }
  }

  lemma {:induction false} NoneThrough(es: seq<Event>)
    ensures Through(es) == [] <==> forall i | 0 <= i < |es| :: !GetsThrough(es[i])
  {
    hide GetsThrough, RecordOf;
    if es != [] {
      NoneThrough(es[1..]);
      assert forall i | 0 < i < |es| :: es[i] == es[1..][i - 1];
    }
  }

  lemma Halves<T>(s: seq<T>, i: nat)
    requires i <= |s|
    ensures s[..i] + s[i..] == s && |s[i..]| == |s| - i
  {
  }

  /** What the wide capture delivers of the mask's calls is what gets through of them from its start on. */
  lemma WideIsSuffix(m: bv32, es: seq<Event>)
    ensures 0 <= WideStart(m, es) <= |Admit(m, es)|
    ensures Keep(m, Sent(ALL_BITS, es)) == Through(Admit(m, es)[WideStart(m, es)..])
  {
    hide Admit, Connected, Through, Keep, Sent, Admitted;
    var all := Admit(ALL_BITS, es);
    var late := Connected(all);
    SentIs(ALL_BITS, es);
    AdmitSelects(ALL_BITS, es);
    ConnectedIsSuffix(all);
    KeepThrough(m, late);
    var k := |all| - |late|;
    Halves(all, k);
    AdmitBoth(m, all[..k], late);
    AdmitTwice(m, es);
    EndsWith(Admit(m, all[..k]), Admit(m, late));
  }

  lemma EndsWith<T>(a: seq<T>, b: seq<T>)
    ensures (a + b)[|a + b| - |b|..] == b
  {
  }

  lemma NarrowIsSuffix(m: bv32, es: seq<Event>)
    ensures 0 <= NarrowStart(m, es) <= |Admit(m, es)|
    ensures Sent(m, es) == Through(Admit(m, es)[NarrowStart(m, es)..])
  {
    hide Admit, Connected, Through, Sent;
    SentIs(m, es);
    ConnectedIsSuffix(Admit(m, es));
  }

  /** Two ends of a list let the same through exactly when nothing between their starts gets through. */
  lemma SameThrough(es: seq<Event>, i: nat, j: nat)
    requires i <= j <= |es|
    ensures Through(es[i..]) == Through(es[j..]) <==> forall k | i <= k < j :: !GetsThrough(es[k])
  {
    hide Through, GetsThrough;
    var middle := es[i..j];
    assert es[i..] == middle + es[j..];
    ThroughBoth(middle, es[j..]);
    NoneThrough(middle);
    OnlyEmpty(Through(middle), Through(es[j..]));
    assert forall k | i <= k < j :: es[k] == middle[k - i];
    assert forall k | 0 <= k < |middle| :: middle[k] == es[i + k];
  }

  lemma OnlyEmpty<T>(a: seq<T>, b: seq<T>)
    ensures a + b == b <==> a == []
  {
    assert |a + b| == |a| + |b|;
  }

  /**
   * In any run, whatever ftok, msgget and msgsnd answer, the source and the filter put the same records on the
   * queue exactly when no call of the mask between the starts of the two captures gets through.
   */
  lemma SentNarrowedInRun(m: bv32, es: seq<Event>)
    ensures 0 <= NarrowStart(m, es) <= |Admit(m, es)| && 0 <= WideStart(m, es) <= |Admit(m, es)|
    ensures Sent(m, es) == Keep(m, Sent(ALL_BITS, es)) <==>
      forall k | 0 <= k < |Admit(m, es)|
              && (NarrowStart(m, es) <= k < WideStart(m, es) || WideStart(m, es) <= k < NarrowStart(m, es)) ::
        !GetsThrough(Admit(m, es)[k])
  {
    hide Admit, Connected, Through, Sent, Keep, GetsThrough, NarrowStart, WideStart;
    NarrowIsSuffix(m, es);
    WideIsSuffix(m, es);
    var i, j := NarrowStart(m, es), WideStart(m, es);
    if i <= j {
      SameThrough(Admit(m, es), i, j);
    } else {
      SameThrough(Admit(m, es), j, i);
    }
  }

  // Without any assumption on the queue, over all runs.

  /** The mask that makes no choice: every domain, or none. */
  predicate Chooseless(m: bv32) {
    (forall d: Domain :: Has(m, d)) || (forall d: Domain :: !Has(m, d))
  }

  lemma {:induction false} AdmitChooseless(m: bv32, es: seq<Event>)
    requires Chooseless(m)
    ensures Admit(m, es) == if Has(m, START_STOP) then Admit(ALL_BITS, es) else []
  {
    hide Has;
    if es != [] {
      AdmittedNarrowly(m, es[0]);
      AdmitChooseless(m, es[1..]);
    }
  }

  lemma {:induction false} KeepChooseless(m: bv32, recs: seq<Record>)
    requires Chooseless(m)
    ensures Keep(m, recs) == if Has(m, START_STOP) then recs else []
  {
    hide Has;
    if recs != [] {
      KeepChooseless(m, recs[1..]);
    }
  }

  lemma SentChooseless(m: bv32, es: seq<Event>)
    requires Chooseless(m)
    ensures Sent(m, es) == if Has(m, START_STOP) then Sent(ALL_BITS, es) else []
  {
    hide Has, Chooseless, Through, Admit;
    SentIs(m, es);
    SentIs(ALL_BITS, es);
    AdmitChooseless(m, es);
    NothingThrough(m);
  }

  /** A call in domain d finds the key and no queue; after it a call in domain k would find both. */
  function QueueLate(d: Domain, k: Domain): seq<Event> {
    [Event(d, CLOSE, 3, "", 0, 1, true, false, ANSWERS), Event(k, CLOSE, 3, "", 0, 1, true, true, ANSWERS)]
  }

  /** Capturing everything loses its queue to the first call; capturing without d never asks until it is there. */
  lemma QueueLostByWideMask(m: bv32, d: Domain, k: Domain)
    requires !Has(m, d) && Has(m, k)
    ensures Sent(ALL_BITS, QueueLate(d, k)) == [] && Sent(m, QueueLate(d, k)) == [Record(k, CLOSE, 3, "", 1, "")]
  {
    hide Has;
    var es := QueueLate(d, k);
    SentIs(m, es);
    SentIs(ALL_BITS, es);
    HasConstant(d);
    HasConstant(k);
    assert es[1..] == [es[1]] && [es[1]][1..] == [];
    assert Admit(m, es[1..]) == [es[1]] + Admit(m, []);
    assert Admit(m, es) == [es[1]];
    assert FullTries(ANSWERS) == 0;
    assert Through([es[1]]) == [RecordOf(es[1])] + Through([]);
  }

  /**
   * With ftok and msgget free to answer anything, the source and the filter put the same records on the
   * queue in every run exactly when the mask makes no choice.
   */
  lemma SentNarrowedAlways(m: bv32)
    ensures (forall es :: Sent(m, es) == Keep(m, Sent(ALL_BITS, es))) <==> Chooseless(m)
  {
    hide Has, Sent, Keep, QueueLate;
    if Chooseless(m) {
      forall es
        ensures Sent(m, es) == Keep(m, Sent(ALL_BITS, es))
      {
        SentChooseless(m, es);
        KeepChooseless(m, Sent(ALL_BITS, es));
      }
    } else {
      var d: Domain :| !Has(m, d);
      var k: Domain :| Has(m, k);
      QueueLostByWideMask(m, d, k);
      KeepNothing(m);
    }
  }

  lemma {:induction false} KeepOneMore(m: bv32, recs: seq<Record>, r: Record)
    ensures Keep(m, recs + [r]) == if Has(m, r.dom) then Keep(m, recs) + [r] else Keep(m, recs)
  {
    hide Has;
    if recs == [] {
      assert [r][1..] == [];
    } else {
      assert (recs + [r])[1..] == recs[1..] + [r];
      KeepOneMore(m, recs[1..], r);
    }
  }

  lemma TrackKeepsDomain(ms: Mounts, fds: map<int, string>, r: Record)
    ensures Track(ms, fds, r).1.dom == r.dom
    ensures r.dom != FILE_OPEN_CLOSE ==> Track(ms, fds, r).0 == fds
    ensures r.dom != FILE_OPEN_CLOSE && !LooksUp(r.dom) ==> Track(ms, fds, r).1 == r
  {
  }

  /** With opens and closes captured, the records left out never touch the descriptor table. */
  lemma {:induction false} TrackNarrowed(ms: Mounts, m: bv32, recs: seq<Record>)
    requires Has(m, FILE_OPEN_CLOSE)
    ensures Table(ms, Keep(m, recs)) == Table(ms, recs)
    ensures TrackAll(ms, Keep(m, recs)) == Keep(m, TrackAll(ms, recs))
  {
    hide Has, Keep, Track;
    if recs == [] {
      KeepNothing(m);
    } else {
      var init, r := recs[..|recs| - 1], recs[|recs| - 1];
      assert recs == init + [r];
      TrackNarrowed(ms, m, init);
      KeepOneMore(m, init, r);
      var (fds, out) := Track(ms, Table(ms, init), r);
      TrackKeepsDomain(ms, Table(ms, init), r);
      KeepOneMore(m, TrackAll(ms, init), out);
      TrackOneMore(ms, Keep(m, init), r);
    }
  }

  lemma KeepNothing(m: bv32)
    ensures Keep(m, []) == []
  {
  }

  predicate NeverTracked(m: bv32) {
    !Has(m, FILE_OPEN_CLOSE) && forall d: Domain | LooksUp(d) :: !Has(m, d)
  }

  /** With no tracked domain captured, no record has a device either way. */
  lemma {:induction false} TrackUntracked(ms: Mounts, m: bv32, recs: seq<Record>)
    requires NeverTracked(m)
    ensures TrackAll(ms, Keep(m, recs)) == Keep(m, recs) == Keep(m, TrackAll(ms, recs))
  {
    hide Has, Keep, Track, LooksUp;
    if recs == [] {
      KeepNothing(m);
    } else {
      var init, r := recs[..|recs| - 1], recs[|recs| - 1];
      assert recs == init + [r];
      TrackUntracked(ms, m, init);
      KeepOneMore(m, init, r);
      var (fds, out) := Track(ms, Table(ms, init), r);
      TrackKeepsDomain(ms, Table(ms, init), r);
      TrackKeepsDomain(ms, Table(ms, Keep(m, init)), r);
      KeepOneMore(m, TrackAll(ms, init), out);
      TrackOneMore(ms, Keep(m, init), r);
    }
  }

  /** No file that capture does not ignore has a device, as when there is no mount table. */
  ghost predicate NoDevices(ms: Mounts) {
    forall path: string | path != "" && path != "." && path != ".." :: Device(ms, path) == ""
  }

  /** A record as the capture library sends it. */
  predicate AsSent(r: Record) {
    r.device == "" && !(r.op == OPEN && (r.s1 == "." || r.s1 == ".."))
  }

  lemma {:induction false} ThroughAsSent(m: bv32, es: seq<Event>)
    requires forall e | e in es :: Admitted(m, e)
    ensures forall r | r in Through(es) :: AsSent(r)
  {
    hide GetsThrough, RecordOf, AsSent, Admitted;
    if es != [] {
      RecordAsSent(m, es[0]);
      ThroughAsSent(m, es[1..]);
    }
  }

  lemma RecordAsSent(m: bv32, e: Event)
    requires Admitted(m, e)
    ensures AsSent(RecordOf(e))
  {
    hide Has;
  }

  lemma SentAsSent(m: bv32, es: seq<Event>)
    ensures forall r | r in Sent(m, es) :: AsSent(r)
  {
    hide Sent, AsSent, Admit, Connected, Through, Admitted;
    SentIs(m, es);
    AdmitSelects(m, es);
    ConnectedIsSuffix(Admit(m, es));
    ThroughAsSent(m, Connected(Admit(m, es)));
  }

  lemma TrackDevicelessStep(ms: Mounts, fds: map<int, string>, r: Record)
    requires NoDevices(ms) && AsSent(r) && forall fd | fd in fds :: fds[fd] == ""
    ensures Track(ms, fds, r).1 == r
    ensures forall fd | fd in Track(ms, fds, r).0 :: Track(ms, fds, r).0[fd] == ""
  {
    hide Device;
  }

  /** Without devices tracking changes no record. */
  lemma {:induction false} TrackDeviceless(ms: Mounts, recs: seq<Record>)
    requires NoDevices(ms) && forall r | r in recs :: AsSent(r)
    ensures TrackAll(ms, recs) == recs && forall fd | fd in Table(ms, recs) :: Table(ms, recs)[fd] == ""
  {
    hide NoDevices, AsSent, Track, Table, TrackAll;
    if recs == [] {
      NothingTracked(ms);
    } else {
      var init, r := recs[..|recs| - 1], recs[|recs| - 1];
      assert recs == init + [r];
      TrackDeviceless(ms, init);
      TrackDevicelessStep(ms, Table(ms, init), r);
      TrackOneMore(ms, init, r);
    }
  }

  /** In every run with a steady queue the two ways give the plugins the same records, devices included. */
  ghost predicate SourceEqualsFilter(ms: Mounts, m: bv32) {
    forall es: seq<Event> | QueueSteady(es) :: Received(ms, m, es) == Keep(m, Received(ms, ALL_BITS, es))
  }

  function OpenThenUse(path: string, d: Domain): seq<Event> {
    [Event(FILE_OPEN_CLOSE, OPEN, 3, path, 0, 1, true, true, ANSWERS),
     Event(d, Other(0), 3, "", 0, 1, true, true, ANSWERS)]
  }

  /** An open that the mask leaves out and a use of its descriptor that it keeps. */
  lemma UseWithoutOpen(ms: Mounts, m: bv32, path: string, d: Domain)
    requires path != "" && path != "." && path != ".." && Device(ms, path) != ""
    requires !Has(m, FILE_OPEN_CLOSE) && LooksUp(d) && Has(m, d)
    ensures QueueSteady(OpenThenUse(path, d))
    ensures var es := OpenThenUse(path, d);
            var r := Record(d, Other(0), 3, "", 1, "");
            && Received(ms, m, es) == [r]
            && Keep(m, Received(ms, ALL_BITS, es)) == [WithDevice(r, Device(ms, path))]
            && WithDevice(r, Device(ms, path)) != r
  {
    hide Has, Device, Sent, TrackAll;
    var es := OpenThenUse(path, d);
    var o, r := RecordOf(es[0]), RecordOf(es[1]);
    SentOpenThenUse(path, d);
    SentNarrowed(m, es);
    KeepTwo(m, o, r);
    TrackTwo(ms, o, r);
    KeepTwo(m, WithDevice(o, Device(ms, path)), WithDevice(r, Device(ms, path)));
  }

  lemma SentOpenThenUse(path: string, d: Domain)
    requires path != "" && path != "." && path != ".." && LooksUp(d)
    ensures var es := OpenThenUse(path, d); Sent(ALL_BITS, es) == [RecordOf(es[0]), RecordOf(es[1])]
  {
    hide Has;
    var es := OpenThenUse(path, d);
    var a, b := es[0], es[1];
    HasConstant(FILE_OPEN_CLOSE);
    HasConstant(d);
    SentIs(ALL_BITS, es);
    assert es[1..] == [b] && [b][1..] == [];
    assert Admit(ALL_BITS, [b]) == [b] + Admit(ALL_BITS, []);
    assert Admit(ALL_BITS, es) == [a] + [b] == es;
    assert FullTries(ANSWERS) == 0;
    assert Through([b]) == [RecordOf(b)] + Through([]);
    assert Through(es) == [RecordOf(a)] + Through([b]);
  }

  lemma KeepTwo(m: bv32, o: Record, r: Record)
    requires !Has(m, o.dom) && Has(m, r.dom)
    ensures Keep(m, [o, r]) == [r]
  {
    hide Has;
    assert [o, r][1..] == [r] && [r][1..] == [];
    assert Keep(m, [r]) == [r] + Keep(m, []);
  }

  lemma TrackUse(ms: Mounts, fds: map<int, string>, r: Record)
    requires LooksUp(r.dom) && r.fd == 3
    ensures Track(ms, fds, r) == (fds, if 3 in fds then WithDevice(r, fds[3]) else r)
  {
  }

  lemma TrackOpen(ms: Mounts, fds: map<int, string>, o: Record)
    requires o.dom == FILE_OPEN_CLOSE && o.op == OPEN && o.fd == 3 && o.s1 != ""
    ensures Track(ms, fds, o) == (fds[3 := Device(ms, o.s1)], WithDevice(o, Device(ms, o.s1)))
  {
    hide Device;
  }

  lemma TrackTwo(ms: Mounts, o: Record, r: Record)
    requires o.dom == FILE_OPEN_CLOSE && o.op == OPEN && o.fd == r.fd == 3 && o.s1 != "" && LooksUp(r.dom)
    ensures TrackAll(ms, [r]) == [r]
    ensures TrackAll(ms, [o, r]) == [WithDevice(o, Device(ms, o.s1)), WithDevice(r, Device(ms, o.s1))]
  {
    hide Device, Table, TrackAll, Track, LooksUp, WithDevice;
    NothingTracked(ms);
    assert [r] == [] + [r] && [o] == [] + [o] && [o, r] == [o] + [r];
    TrackOneMore(ms, [], r);
    TrackUse(ms, map[], r);
    TrackOneMore(ms, [], o);
    TrackOpen(ms, map[], o);
    TrackOneMore(ms, [o], r);
    TrackUse(ms, map[3 := Device(ms, o.s1)], r);
  }

  /**
   * Main result. With a steady queue, choosing domains at the source gives the plugins the same records as
   * choosing them with a filter exactly when the mask keeps the opens and closes, or keeps no domain whose
   * records are given a device, or there is no device to be given: otherwise some run, seen through the narrow
   * mask, loses the devices of its descriptors.
   */
  lemma SourceOrFilter(ms: Mounts, m: bv32)
    ensures SourceEqualsFilter(ms, m) <==> Has(m, FILE_OPEN_CLOSE) || NeverTracked(m) || NoDevices(ms)
  {
    hide Has, Received, Device, Keep, OpenThenUse, LooksUp, QueueSteady;
    if Has(m, FILE_OPEN_CLOSE) || NeverTracked(m) || NoDevices(ms) {
      forall es: seq<Event> | QueueSteady(es)
        ensures Received(ms, m, es) == Keep(m, Received(ms, ALL_BITS, es))
      {
        SameReceived(ms, m, es);
      }
    } else {
      var path: string :| path != "" && path != "." && path != ".." && Device(ms, path) != "";
      var d: Domain :| LooksUp(d) && Has(m, d);
      UseWithoutOpen(ms, m, path, d);
      assert QueueSteady(OpenThenUse(path, d));
    }
  }

  /** The mask, the mount table and the run leave nothing to tell the two ways apart. */
  ghost predicate Alike(ms: Mounts, m: bv32, es: seq<Event>) {
    Chooseless(m) || (QueueSteady(es) && (Has(m, FILE_OPEN_CLOSE) || NeverTracked(m) || NoDevices(ms)))
  }

  lemma SameReceived(ms: Mounts, m: bv32, es: seq<Event>)
    requires Alike(ms, m, es)
    ensures Received(ms, m, es) == Keep(m, Received(ms, ALL_BITS, es))
  {
    hide Has, Keep, TrackAll, Sent, Chooseless, NeverTracked, NoDevices, QueueSteady, AsSent;
    if Chooseless(m) {
      SentChooseless(m, es);
      KeepChooseless(m, Received(ms, ALL_BITS, es));
      NothingTracked(ms);
    } else {
      SentNarrowed(m, es);
      if Has(m, FILE_OPEN_CLOSE) {
        TrackNarrowed(ms, m, Sent(ALL_BITS, es));
      } else if NeverTracked(m) {
        TrackUntracked(ms, m, Sent(ALL_BITS, es));
      } else {
        SentAsSent(m, es);
        SentAsSent(ALL_BITS, es);
        TrackDeviceless(ms, Sent(m, es));
        TrackDeviceless(ms, Sent(ALL_BITS, es));
      }
    }
  }

  /** The same with ftok and msgget free to answer anything: then only a mask that makes no choice is safe. */
  lemma SourceOrFilterAlways(ms: Mounts, m: bv32)
    ensures (forall es :: Received(ms, m, es) == Keep(m, Received(ms, ALL_BITS, es))) <==> Chooseless(m)
  {
    hide Has, Sent, Keep, QueueLate, TrackAll;
    if Chooseless(m) {
      forall es
        ensures Received(ms, m, es) == Keep(m, Received(ms, ALL_BITS, es))
      {
        SameReceived(ms, m, es);
      }
    } else {
      var d: Domain :| !Has(m, d);
      var k: Domain :| Has(m, k);
      var es := QueueLate(d, k);
      QueueLostByWideMask(m, d, k);
      KeepNothing(m);
      NothingTracked(ms);
      TrackAllLength(ms, Sent(m, es));
      assert Received(ms, m, es) != Keep(m, Received(ms, ALL_BITS, es));
    }
  }

  /**
   * Then every plugin chain goes through the same states whether the source captures only the mask, or
   * captures everything and a filter with that mask stands in front of the chain.
   */
  lemma ChainCannotTell<S>(ms: Mounts, es: seq<Event>, f: Plugin<S>, config: string, rest: seq<Plugin<S>>)
    requires IsFilter(f, config) && Alike(ms, MaskAfter(config, f.trace), es)
    ensures DeliverAll([f] + rest, Received(ms, ALL_BITS, es))[1..]
         == DeliverAll(rest, Received(ms, MaskAfter(config, f.trace), es))
  {
    hide Has, Received, Keep, DeliverAll, IsFilter, Alike;
    SameReceived(ms, MaskAfter(config, f.trace), es);
    BehindFilter(f, config, rest, Received(ms, ALL_BITS, es));
  }
}
