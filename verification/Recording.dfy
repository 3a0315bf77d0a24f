/** When record() reports a call and when capture starts, written out test by test. */
module Recording {
  import opened Text
  import opened Bits
  import opened Domains
  import opened Records
  import opened Stages
  import opened Gate

  /**
   * The call is none on stdin, stdout or stderr unless it starts or stops a process (domain 16), its domain is
   * in the mask, and it does not open the current or the parent directory.
   */
  predicate Reportable(mask: bv32, e: Event) {
    && (e.fd == 0 || e.fd == 1 || e.fd == 2 ==> e.dom == 16)
    && Has(mask, e.dom)
    && (e.op == OPEN ==> e.s1 != "." && e.s1 != "..")
  }

  /** The call takes longer than the threshold, or opens a path that has the given text somewhere in it. */
  ghost predicate Starts(text: Option<string>, threshold: Option<int>, e: Event) {
    || (threshold.Some? && e.elapsed > threshold.value)
    || (text.Some? && e.op == OPEN && exists a: string, b: string :: e.s1 == a + text.value + b)
  }

  /** Some reportable call of es starts the capture. */
  ghost predicate Started(mask: bv32, text: Option<string>, threshold: Option<int>, es: seq<Event>) {
    exists i :: 0 <= i < |es| && Reportable(mask, es[i]) && Starts(text, threshold, es[i])
  }

  /**
   * The calls to be reported: of those that are reportable, all if no start condition is set, and otherwise each
   * that starts the capture or comes after one that did.
   */
  ghost function Reported(mask: bv32, text: Option<string>, threshold: Option<int>, es: seq<Event>): seq<Event> {
    if es == [] then []
    else
      var init, e := es[..|es| - 1], es[|es| - 1];
      if Reportable(mask, e) && ((text.None? && threshold.None?) || Started(mask, text, threshold, es))
      then Reported(mask, text, threshold, init) + [e]
      else Reported(mask, text, threshold, init)
  }

  lemma {:induction false} HoldsText(s: string, text: string)
    ensures Contains(s, text) <==> exists a: string, b: string :: s == a + text + b
  {
    if Contains(s, text) {
      var i :| 0 <= i <= |s| && text <= s[i..];
      assert s == s[..i] + text + s[i..][|text|..];
    }
    if a: string, b: string :| s == a + text + b {
      assert s[|a|..] == text + b;
      assert text <= s[|a|..];
    }
  }

  lemma TestsAgree(mask: bv32, e: Event)
    ensures Admitted(mask, e) <==> Reportable(mask, e)
  {
    hide Has;
  }

  lemma StartsAgree(cfg: Settings, e: Event)
    ensures Triggers(cfg, e) <==> Starts(cfg.startOnOpen, cfg.threshold, e)
  {
    hide Contains;
    if cfg.startOnOpen.Some? {
      HoldsText(e.s1, cfg.startOnOpen.value);
    }
  }

  /** Only the latch is left of the filter's state once nothing is sampled. */
  ghost predicate Latched(cfg: Settings, g: Gate, es: seq<Event>) {
    && g.count == 0 && g.clock == Clock(false, 0)
    && (g.paused
        <==> (cfg.startOnOpen.Some? || cfg.threshold.Some?) && !Started(cfg.mask, cfg.startOnOpen, cfg.threshold, es))
  }

  lemma StartedOneMore(mask: bv32, text: Option<string>, threshold: Option<int>, es: seq<Event>, e: Event)
    ensures Started(mask, text, threshold, es + [e])
      <==> Started(mask, text, threshold, es) || (Reportable(mask, e) && Starts(text, threshold, e))
  {
    hide Reportable, Starts;
    var all := es + [e];
    assert all[|es|] == e && forall i | 0 <= i < |es| :: all[i] == es[i];
  }

  lemma OfferLatched(cfg: Settings, g: Gate, es: seq<Event>, e: Event)
    requires cfg.every.None? && cfg.window.None? && Latched(cfg, g, es)
    ensures var (h, pass) := Offer(cfg, g, e);
            && Latched(cfg, h, es + [e])
            && (pass <==> Reportable(cfg.mask, e) && !h.paused)
  {
    hide Admitted, Triggers, Reportable, Starts, Started;
    TestsAgree(cfg.mask, e);
    StartsAgree(cfg, e);
    StartedOneMore(cfg.mask, cfg.startOnOpen, cfg.threshold, es, e);
  }

  lemma {:induction false} AfterLatched(cfg: Settings, es: seq<Event>)
    requires cfg.every.None? && cfg.window.None?
    ensures Latched(cfg, After(cfg, Closed(cfg), es), es)
    ensures Passed(cfg, Closed(cfg), es) == Reported(cfg.mask, cfg.startOnOpen, cfg.threshold, es)
  {
    hide Offer, Reportable, Starts, Started;
    if es == [] {
      assert !Started(cfg.mask, cfg.startOnOpen, cfg.threshold, es) by { NotYetStarted(cfg); }
    } else {
      var init, e := es[..|es| - 1], es[|es| - 1];
      assert es == init + [e];
      AfterLatched(cfg, init);
      OneMore(cfg, Closed(cfg), init, e);
      OfferLatched(cfg, After(cfg, Closed(cfg), init), init, e);
    }
  }

  lemma NotYetStarted(cfg: Settings)
    ensures !Started(cfg.mask, cfg.startOnOpen, cfg.threshold, [])
  {
  }

  /**
   * Main result. With sampling off, record() reports exactly the reportable calls from the start of the capture on;
   * it starts at once, or with the first reportable call that is slow enough or opens a path with the given text.
   */
  lemma ReportedFromTheStart(mask: bv32, text: Option<string>, threshold: Option<int>, es: seq<Event>)
    ensures var cfg := Settings(mask, text, threshold, None, None);
            Passed(cfg, Closed(cfg), es) == Reported(mask, text, threshold, es)
  {
    hide Latched, Reported, Passed;
    AfterLatched(Settings(mask, text, threshold, None, None), es);
  }

  /** With sampling on, counting and then timing are given those calls and no others. */
  lemma SampledFromTheStart(cfg: Settings, es: seq<Event>)
    ensures Passed(cfg, Closed(cfg), es)
         == Timed(cfg.window, Clock(false, 0),
                  Counted(cfg.every, 0, Reported(cfg.mask, cfg.startOnOpen, cfg.threshold, es)))
  {
    hide Passed, Reported, StartedFrom, Admit, Timed, Counted;
    var plain := Settings(cfg.mask, cfg.startOnOpen, cfg.threshold, None, None);
    ReportedFromTheStart(cfg.mask, cfg.startOnOpen, cfg.threshold, es);
    Fused(plain, Closed(plain), es);
    Fused(cfg, Closed(cfg), es);
    var started := StartedFrom(plain, StartsPaused(plain), Admit(plain.mask, es));
    Unsampled(Clock(false, 0), 0, started);
    SameStart(cfg, plain, Admit(cfg.mask, es));
  }

  lemma {:induction false} SameStart(cfg: Settings, plain: Settings, es: seq<Event>)
    requires cfg.startOnOpen == plain.startOnOpen && cfg.threshold == plain.threshold
    ensures StartedFrom(cfg, StartsPaused(cfg), es) == StartedFrom(plain, StartsPaused(plain), es)
  {
    hide Contains;
    if es != [] {
      SameStart(cfg, plain, es[1..]);
    }
  }
}
