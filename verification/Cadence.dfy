/**
  Trigger-based multiplexing: the group changes on every em_factor-th overflow of the trigger
  event, and exactly which configurations keep to that.
 */
module Cadence {
  import opened EventControl
  import opened Multiplexing
  import opened Overflow
  import opened Refinement
  import opened Bits

  /** The data registers of a group that count the trigger event and can be seen to overflow. */
  function TriggerEntries(cfg: Config, es: seq<Entry>): seq<Entry> {
    if es == [] then []
    else
      var e := es[|es| - 1];
      TriggerEntries(cfg, es[..|es| - 1])
      + (if BitOf(e).Bit? && e.eventIdx == cfg.triggerEvent then [e] else [])
  }

  ghost predicate OneTrigger(cfg: Config)
    requires ConfigOk(cfg)
  {
    forall g :: 0 <= g < |cfg.groups| ==> |TriggerEntries(cfg, cfg.groups[g].DataRegs())| <= 1
  }

  /** Trigger overflows seen by one run of the handler. */
  function TriggerHits(cfg: Config, st: Pmu, s: Step): nat
    requires Valid(cfg, st)
  {
    if s.Interrupt?
    then Triggers(cfg, Hits(cfg, cfg.groups[st.group].DataRegs(), s.status, Read(st.msr, IA32_FIXED_CTR1)))
    else 0
  }

  function Swaps(cfg: Config, st: Pmu, s: Step): nat
    requires Valid(cfg, st)
  {
    if s.TimerSwap? || (s.Interrupt? && CheckOverflow(cfg, st, s.status, s.clear).triggerCount == 0) then 1 else 0
  }

  /** A run together with the trigger overflows and the swaps it has seen. */
  datatype Tally = Tally(now: Pmu, hits: nat, swaps: nat)

  function TallyRun(cfg: Config, st: Pmu, steps: seq<Step>): (t: Tally)
    requires Valid(cfg, st)
    ensures t.now == Run(cfg, st, steps) && Valid(cfg, t.now)
  {
    if steps == [] then Tally(st, 0, 0)
    else
      OneMore(cfg, TallyRun(cfg, st, steps[..|steps| - 1]), steps[|steps| - 1])
  }

  function OneMore(cfg: Config, t: Tally, s: Step): (r: Tally)
    requires Valid(cfg, t.now)
    ensures r.now == Do(cfg, t.now, s)
  {
    Tally(Do(cfg, t.now, s), t.hits + TriggerHits(cfg, t.now, s), t.swaps + Swaps(cfg, t.now, s))
  }

  lemma {:induction false} TriggersBounded(cfg: Config, es: seq<Entry>, status: set<nat>, fixed1: U64)
    ensures Triggers(cfg, Hits(cfg, es, status, fixed1)) <= |TriggerEntries(cfg, es)|
  {
    if es != [] {
      var e := es[|es| - 1];
      var hits := Hits(cfg, es[..|es| - 1], status, fixed1);
      TriggersBounded(cfg, es[..|es| - 1], status, fixed1);
      if Overflowed(cfg, e, status, fixed1) {
        assert (hits + [e])[..|hits|] == hits;
      } else {
        assert hits + [] == hits;
      }
    }
  }

  /** With every status bit set, every trigger register overflows. */
  lemma {:induction false} TriggersReached(cfg: Config, es: seq<Entry>, status: set<nat>, fixed1: U64)
    requires forall e :: e in es && BitOf(e).Bit? ==> BitOf(e).index in status
    ensures Triggers(cfg, Hits(cfg, es, status, fixed1)) == |TriggerEntries(cfg, es)|
  {
    if es != [] {
      var e := es[|es| - 1];
      assert e in es;
      var hits := Hits(cfg, es[..|es| - 1], status, fixed1);
      TriggersReached(cfg, es[..|es| - 1], status, fixed1);
      if Overflowed(cfg, e, status, fixed1) {
        assert (hits + [e])[..|hits|] == hits;
      } else {
        assert hits + [] == hits;
      }
    }
  }

  /** The handler's scan lowers the trigger count by exactly the trigger overflows. */
  lemma CheckCounts(cfg: Config, st: Pmu, s: Step)
    requires Valid(cfg, st) && s.Interrupt?
    ensures CheckOverflow(cfg, st, s.status, s.clear).triggerCount == st.triggerCount - TriggerHits(cfg, st, s)
    ensures CheckOverflow(cfg, st, s.status, s.clear).group == st.group
  {
    var g := cfg.groups[st.group];
    ScanIsExact(cfg, g, g.dataStart + g.dataPop, s.status, st.msr);
  }

  /** The schedule after so many trigger overflows and swaps. */
  ghost predicate OnSchedule(cfg: Config, t: Tally)
    requires ConfigOk(cfg)
  {
    && t.hits == t.swaps * cfg.emFactor + (cfg.emFactor - t.now.triggerCount)
    && 1 <= t.now.triggerCount <= cfg.emFactor
    && t.now.group == t.swaps % |cfg.groups|
  }

  lemma OneMoreSwap(swaps: nat, factor: int)
    ensures (swaps + 1) * factor == swaps * factor + factor
  {}

  lemma StepKeepsSchedule(cfg: Config, t: Tally, s: Step)
    requires Valid(cfg, t.now) && OneTrigger(cfg) && OnSchedule(cfg, t)
    requires !s.TimerSwap?
    ensures OnSchedule(cfg, OneMore(cfg, t, s))
  {
    if s.Interrupt? {
      CheckCounts(cfg, t.now, s);
      TriggersBounded(cfg, cfg.groups[t.now.group].DataRegs(), s.status, Read(t.now.msr, IA32_FIXED_CTR1));
      OneMoreSwap(t.swaps, cfg.emFactor);
      NextIsModular(cfg, t.swaps);
    }
  }

  /**
    The cadence.  With at most one trigger register per group, T trigger overflows and S swaps
    satisfy T = S * em_factor + (em_factor - trigger_count), the count stays within
    1..em_factor, and the current group is S modulo the number of groups.
   */
  lemma {:induction false} TriggerCadence(cfg: Config, st: Pmu, steps: seq<Step>)
    requires Valid(cfg, st) && st.group == 0 && st.triggerCount == cfg.emFactor >= 1
    requires OneTrigger(cfg)
    requires forall s :: s in steps ==> !s.TimerSwap?
    ensures OnSchedule(cfg, TallyRun(cfg, st, steps))
  {
    if steps == [] {
      Remainder(0, |cfg.groups|, 0, 0);
    } else {
      assert steps[|steps| - 1] in steps;
      var before := steps[..|steps| - 1];
      TriggerCadence(cfg, st, before);
      var t := TallyRun(cfg, st, before);
      StepKeepsSchedule(cfg, t, steps[|steps| - 1]);
    }
  }

  lemma NextIsModular(cfg: Config, swaps: nat)
    requires ConfigOk(cfg)
    ensures (swaps + 1) % |cfg.groups| == Next(cfg, swaps % |cfg.groups|)
  {
    var n := |cfg.groups|;
    var q, r := swaps / n, swaps % n;
    assert swaps == q * n + r;
    if r + 1 == n {
      assert swaps + 1 == (q + 1) * n;
      Remainder(swaps + 1, n, q + 1, 0);
    } else {
      Remainder(swaps + 1, n, q, r + 1);
    }
  }

  /** The handler keeps the trigger count within 1..em_factor from every state. */
  ghost predicate HandlerKeepsCount(cfg: Config)
    requires ConfigOk(cfg)
  {
    forall st: Pmu, status: set<nat>, clear: U64, noise: seq<RegWrite> ::
      Valid(cfg, st) && 1 <= st.triggerCount <= cfg.emFactor ==>
        1 <= Handle(cfg, st, status, clear, noise).triggerCount <= cfg.emFactor
  }

  /**
    At most one trigger register per group is exactly what the cadence needs: with two, both
    can overflow before one handler run and the count steps over zero.
   */
  lemma CadenceExactly(cfg: Config)
    requires ConfigOk(cfg) && cfg.emFactor >= 1
    ensures HandlerKeepsCount(cfg) <==> OneTrigger(cfg)
  {
    if OneTrigger(cfg) {
      forall st: Pmu, status: set<nat>, clear: U64, noise: seq<RegWrite> |
        Valid(cfg, st) && 1 <= st.triggerCount <= cfg.emFactor
        ensures 1 <= Handle(cfg, st, status, clear, noise).triggerCount <= cfg.emFactor
      {
        CheckCounts(cfg, st, Interrupt(status, clear, noise));
        TriggersBounded(cfg, cfg.groups[st.group].DataRegs(), status, Read(st.msr, IA32_FIXED_CTR1));
      }
    } else {
      var g :| 0 <= g < |cfg.groups| && |TriggerEntries(cfg, cfg.groups[g].DataRegs())| > 1;
      var _ := MissedSwap(cfg, g);
    }
  }

  /** A group with two trigger registers, one overflow away from its swap, and a status that misses it. */
  lemma MissedSwap(cfg: Config, g: nat) returns (st: Pmu)
    requires ConfigOk(cfg) && cfg.emFactor >= 1 && g < |cfg.groups|
    requires |TriggerEntries(cfg, cfg.groups[g].DataRegs())| > 1
    ensures Valid(cfg, st) && st.group == g && 1 <= st.triggerCount <= cfg.emFactor
    ensures exists status: set<nat> :: Handle(cfg, st, status, 0, []).triggerCount < 0
    ensures !HandlerKeepsCount(cfg)
  {
    var es := cfg.groups[g].DataRegs();
    var status := set e | e in es && BitOf(e).Bit? :: BitOf(e).index;
    var size := TableSize(cfg);
    st := Pmu(map[], seq(size, _ => 0), g, 1, 0, false);
    CheckCounts(cfg, st, Interrupt(status, 0, []));
    TriggersReached(cfg, es, status, Read(st.msr, IA32_FIXED_CTR1));
    assert Handle(cfg, st, status, 0, []).triggerCount < 0;
  }

  /** Once the count has stepped over zero the handler never swaps again. */
  lemma {:induction false} StuckForever(cfg: Config, st: Pmu, steps: seq<Step>)
    requires Valid(cfg, st) && st.triggerCount < 0
    requires forall s :: s in steps ==> !s.TimerSwap?
    ensures Run(cfg, st, steps).triggerCount < 0 && Run(cfg, st, steps).group == st.group
  {
    if steps != [] {
      var s := steps[|steps| - 1];
      assert s in steps;
      StuckForever(cfg, st, steps[..|steps| - 1]);
      if s.Interrupt? {
        CheckCounts(cfg, Run(cfg, st, steps[..|steps| - 1]), s);
      }
    }
  }
}
