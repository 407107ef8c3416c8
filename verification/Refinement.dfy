/**
  Runs of the multiplexed counters, and the machine they refine: one in which every event
  group owns a private bank of counters and a swap is a change of the current group.
 */
module Refinement {
  import opened EventControl
  import opened Multiplexing
  import opened Overflow

  const COUNTER_MODULUS := 0x1_0000_0000_0000  // 48-bit counters

  /**
    One step of a run on one CPU: a counter advances, the driver writes a control register,
    the interrupt handler runs, or a timer swaps the group.  The timer does not stop the counters:
    `late` is what they count between being saved and being reloaded, in the order of events.
   */
  datatype Step =
    | Count(reg: Reg, events: nat)
    | Control(reg: Reg, value: U64)
    | Interrupt(status: set<nat>, clear: U64, noise: seq<RegWrite>)
    | TimerSwap(late: seq<(Reg, nat)>, noise: seq<RegWrite>)

  predicate StepOk(cfg: Config, s: Step) {
    match s
    case Count(r, _) => IsCounter(cfg, r)
    case Control(r, _) => !IsCounter(cfg, r)
    case Interrupt(_, _, noise) => IsNoise(noise)
    case TimerSwap(late, noise) => IsNoise(noise) && forall c :: c in late ==> IsCounter(cfg, c.0)
  }

  function Advance(m: Msrs, r: Reg, n: nat): Msrs {
    m[r := (Read(m, r) + n) % COUNTER_MODULUS]
  }

  /** The registers after counting, each count at a register. */
  function AdvanceAll(m: Msrs, counts: seq<(Reg, nat)>): Msrs {
    if counts == [] then m
    else
      var c := counts[|counts| - 1];
      Advance(AdvanceAll(m, counts[..|counts| - 1]), c.0, c.1)
  }

  /** How often register r counts. */
  function EventsOf(counts: seq<(Reg, nat)>, r: Reg): nat {
    if counts == [] then 0
    else EventsOf(counts[..|counts| - 1], r) + (if counts[|counts| - 1].0 == r then counts[|counts| - 1].1 else 0)
  }

  /** A 48-bit register shows what it held plus what it has counted, cut to its width. */
  lemma {:induction false} AdvanceAllCounts(m: Msrs, counts: seq<(Reg, nat)>, r: Reg)
    requires Read(m, r) < 0x1_0000_0000_0000
    ensures Read(AdvanceAll(m, counts), r) == (Read(m, r) + EventsOf(counts, r)) % 0x1_0000_0000_0000
  {
    if counts != [] {
      var before, c := counts[..|counts| - 1], counts[|counts| - 1];
      AdvanceAllCounts(m, before, r);
      AdvanceCounts(AdvanceAll(m, before), c.0, c.1, r);
      AddsUp(Read(m, r) + EventsOf(before, r), c.1);
    }
  }

  lemma AdvanceCounts(m: Msrs, r: Reg, n: nat, s: Reg)
    ensures Read(Advance(m, r, n), s) == if r == s then (Read(m, s) + n) % 0x1_0000_0000_0000 else Read(m, s)
  {}

  lemma AddsUp(a: nat, n: nat)
    ensures (a % 0x1_0000_0000_0000 + n) % 0x1_0000_0000_0000 == (a + n) % 0x1_0000_0000_0000
  {}

  /** The counter part of PMI_Interrupt_Handler: scan, and swap when the trigger count is used up. */
  function Handle(cfg: Config, st: Pmu, status: set<nat>, clear: U64, noise: seq<RegWrite>): (r: Pmu)
    requires Valid(cfg, st)
    ensures Valid(cfg, r)
  {
    var checked := CheckOverflow(cfg, st, status, clear);
    if checked.triggerCount == 0 then Swap(cfg, checked, noise) else checked
  }

  function Do(cfg: Config, st: Pmu, s: Step): (r: Pmu)
    requires Valid(cfg, st)
    ensures Valid(cfg, r)
  {
    match s
    case Count(r, n) => st.(msr := Advance(st.msr, r, n))
    case Control(r, v) => st.(msr := st.msr[r := v])
    case Interrupt(status, clear, noise) => Handle(cfg, st, status, clear, noise)
    case TimerSwap(late, noise) => SwapLate(cfg, st, AdvanceAll(st.msr, late), noise)
  }

  function Run(cfg: Config, st: Pmu, steps: seq<Step>): (r: Pmu)
    requires Valid(cfg, st)
    ensures Valid(cfg, r)
  {
    if steps == [] then st else Do(cfg, Run(cfg, st, steps[..|steps| - 1]), steps[|steps| - 1])
  }

  // ---------------------------------------------------------------- the private-counter machine

  /** Every group's own counters, the fixed counters all groups share, and the schedule. */
  datatype Private = Private(banks: seq<Msrs>, fixed: Msrs, group: nat, triggerCount: int)

  ghost predicate PrivateOk(cfg: Config, p: Private) {
    ConfigOk(cfg) && |p.banks| == |cfg.groups| && p.group < |cfg.groups|
  }

  function Turn(cfg: Config, p: Private): Private {
    p.(group := Next(cfg, p.group), triggerCount := cfg.emFactor)
  }

  /** The registers a scan finds overflowed in the private machine. */
  function PrivateHits(cfg: Config, p: Private, status: set<nat>): seq<Entry>
    requires PrivateOk(cfg, p)
  {
    Hits(cfg, cfg.groups[p.group].DataRegs(), status, Read(p.fixed, IA32_FIXED_CTR1))
  }

  function PrivateCheck(cfg: Config, p: Private, status: set<nat>): (q: Private)
    requires PrivateOk(cfg, p)
    ensures PrivateOk(cfg, q)
  {
    var hits := PrivateHits(cfg, p, status);
    p.(banks := p.banks[p.group := Apply(p.banks[p.group], Reloads(hits))],
       fixed := Apply(p.fixed, Reloads(hits)),
       triggerCount := p.triggerCount - Triggers(cfg, hits))
  }

  /** The fixed counters after counting; what general counters count is dropped. */
  function AdvanceFixed(m: Msrs, counts: seq<(Reg, nat)>): Msrs {
    if counts == [] then m
    else
      var c := counts[|counts| - 1];
      var before := AdvanceFixed(m, counts[..|counts| - 1]);
      if IsFixedCtr(c.0) then Advance(before, c.0, c.1) else before
  }

  function PrivateDo(cfg: Config, p: Private, s: Step): (q: Private)
    requires PrivateOk(cfg, p)
    ensures PrivateOk(cfg, q)
  {
    match s
    case Count(r, n) =>
      if IsFixedCtr(r) then p.(fixed := Advance(p.fixed, r, n))
      else p.(banks := p.banks[p.group := Advance(p.banks[p.group], r, n)])
    case Control(_, _) => p
    case Interrupt(status, _, _) =>
      var q := PrivateCheck(cfg, p, status);
      if q.triggerCount == 0 then Turn(cfg, q) else q
    case TimerSwap(late, _) => Turn(cfg, p.(fixed := AdvanceFixed(p.fixed, late)))
  }

  function PrivateRun(cfg: Config, p: Private, steps: seq<Step>): (q: Private)
    requires PrivateOk(cfg, p)
    ensures PrivateOk(cfg, q)
  {
    if steps == [] then p else PrivateDo(cfg, PrivateRun(cfg, p, steps[..|steps| - 1]), steps[|steps| - 1])
  }

  // ---------------------------------------------------------------- simulation

  ghost predicate SameCounters(cfg: Config, st: Pmu, p: Private)
    requires Valid(cfg, st) && PrivateOk(cfg, p)
  {
    && (forall g, r :: 0 <= g < |cfg.groups| && Owns(cfg, g, r) ==> Counter(cfg, st, g, r) == Read(p.banks[g], r))
    && (forall r :: IsFixedCtr(r) ==> Read(st.msr, r) == Read(p.fixed, r))
  }

  ghost predicate Simulates(cfg: Config, st: Pmu, p: Private) {
    && Valid(cfg, st) && PrivateOk(cfg, p)
    && st.group == p.group && st.triggerCount == p.triggerCount
    && SameCounters(cfg, st, p)
  }

  lemma {:induction false} ApplySame(m: Msrs, n: Msrs, ws: seq<RegWrite>, r: Reg)
    requires Read(m, r) == Read(n, r)
    ensures Read(Apply(m, ws), r) == Read(Apply(n, ws), r)
  {
    if ws != [] {
      ApplySame(m, n, ws[..|ws| - 1], r);
    }
  }

  /** The scan in terms of the private machine's hits. */
  lemma CheckIs(cfg: Config, st: Pmu, p: Private, status: set<nat>, clear: U64)
    requires Simulates(cfg, st, p)
    ensures CheckOverflow(cfg, st, status, clear)
         == st.(msr := Apply(st.msr, Reloads(PrivateHits(cfg, p, status)))[IA32_PERF_GLOBAL_OVF_CTRL := clear],
                triggerCount := st.triggerCount - Triggers(cfg, PrivateHits(cfg, p, status)),
                resetMask := clear)
  {
    var g := cfg.groups[st.group];
    ScanIsExact(cfg, g, g.dataStart + g.dataPop, status, st.msr);
  }

  /** One counter of one group after the scan. */
  lemma CheckCounter(cfg: Config, st: Pmu, p: Private, status: set<nat>, clear: U64, h: nat, r: Reg)
    requires Simulates(cfg, st, p) && h < |cfg.groups| && Owns(cfg, h, r)
    ensures Counter(cfg, CheckOverflow(cfg, st, status, clear), h, r) == Read(PrivateCheck(cfg, p, status).banks[h], r)
  {
    CheckIs(cfg, st, p, status, clear);
    assert Counter(cfg, st, h, r) == Read(p.banks[h], r);
    if h == st.group {
      ApplySame(st.msr, p.banks[h], Reloads(PrivateHits(cfg, p, status)), r);
    }
  }

  lemma CheckFixed(cfg: Config, st: Pmu, p: Private, status: set<nat>, clear: U64, r: Reg)
    requires Simulates(cfg, st, p) && IsFixedCtr(r)
    ensures Read(CheckOverflow(cfg, st, status, clear).msr, r) == Read(PrivateCheck(cfg, p, status).fixed, r)
  {
    CheckIs(cfg, st, p, status, clear);
    ApplySame(st.msr, p.fixed, Reloads(PrivateHits(cfg, p, status)), r);
  }

  /** The scan acts on the shared bank as it would on the current group's private one. */
  lemma CheckSimulates(cfg: Config, st: Pmu, p: Private, status: set<nat>, clear: U64)
    requires Simulates(cfg, st, p)
    ensures Simulates(cfg, CheckOverflow(cfg, st, status, clear), PrivateCheck(cfg, p, status))
  {
    CheckIs(cfg, st, p, status, clear);
    forall h, r | 0 <= h < |cfg.groups| && Owns(cfg, h, r)
      ensures Counter(cfg, CheckOverflow(cfg, st, status, clear), h, r) == Read(PrivateCheck(cfg, p, status).banks[h], r)
    {
      CheckCounter(cfg, st, p, status, clear, h, r);
    }
    forall r | IsFixedCtr(r)
      ensures Read(CheckOverflow(cfg, st, status, clear).msr, r) == Read(PrivateCheck(cfg, p, status).fixed, r)
    {
      CheckFixed(cfg, st, p, status, clear, r);
    }
  }

  lemma {:induction false} FixedAdvance(m: Msrs, f: Msrs, counts: seq<(Reg, nat)>, r: Reg)
    requires IsFixedCtr(r) && Read(m, r) == Read(f, r)
    ensures Read(AdvanceAll(m, counts), r) == Read(AdvanceFixed(f, counts), r)
  {
    if counts != [] {
      FixedAdvance(m, f, counts[..|counts| - 1], r);
    }
  }

  /**
    A swap turns the private machine's schedule.  Of what is counted between saving and reloading
    the private machine sees the fixed counters' part only.
   */
  lemma SwapSimulates(cfg: Config, st: Pmu, p: Private, late: seq<(Reg, nat)>, noise: seq<RegWrite>)
    requires Simulates(cfg, st, p) && IsNoise(noise)
    ensures Simulates(cfg, SwapLate(cfg, st, AdvanceAll(st.msr, late), noise),
                      Turn(cfg, p.(fixed := AdvanceFixed(p.fixed, late))))
  {
    var after := AdvanceAll(st.msr, late);
    var s := SwapLate(cfg, st, after, noise);
    forall g, r | 0 <= g < |cfg.groups| && Owns(cfg, g, r)
      ensures Counter(cfg, s, g, r) == Read(p.banks[g], r)
    {
      SwapForgetsLateCounts(cfg, st, after, noise, g, r);
    }
    forall r | IsFixedCtr(r)
      ensures Read(s.msr, r) == Read(AdvanceFixed(p.fixed, late), r)
    {
      SwapForgetsLateCounts(cfg, st, after, noise, 0, r);
      FixedAdvance(st.msr, p.fixed, late, r);
    }
  }

  lemma CountSimulates(cfg: Config, st: Pmu, p: Private, s: Step)
    requires Simulates(cfg, st, p) && StepOk(cfg, s) && s.Count?
    ensures Simulates(cfg, Do(cfg, st, s), PrivateDo(cfg, p, s))
  {
    var c := Do(cfg, st, s);
    var q := PrivateDo(cfg, p, s);
    forall h, x | 0 <= h < |cfg.groups| && Owns(cfg, h, x)
      ensures Counter(cfg, c, h, x) == Read(q.banks[h], x)
    {
      assert Counter(cfg, st, h, x) == Read(p.banks[h], x);
    }
  }

  lemma ControlSimulates(cfg: Config, st: Pmu, p: Private, s: Step)
    requires Simulates(cfg, st, p) && StepOk(cfg, s) && s.Control?
    ensures Simulates(cfg, Do(cfg, st, s), p)
  {
    var c := Do(cfg, st, s);
    forall h, x | 0 <= h < |cfg.groups| && Owns(cfg, h, x)
      ensures Counter(cfg, c, h, x) == Read(p.banks[h], x)
    {
      assert Counter(cfg, st, h, x) == Read(p.banks[h], x);
    }
  }

  lemma DoSimulates(cfg: Config, st: Pmu, p: Private, s: Step)
    requires Simulates(cfg, st, p) && StepOk(cfg, s)
    ensures Simulates(cfg, Do(cfg, st, s), PrivateDo(cfg, p, s))
  {
    match s
    case Count(_, _) => CountSimulates(cfg, st, p, s);
    case Control(_, _) => ControlSimulates(cfg, st, p, s);
    case Interrupt(status, clear, noise) =>
      CheckSimulates(cfg, st, p, status, clear);
      if PrivateCheck(cfg, p, status).triggerCount == 0 {
        SwapSimulates(cfg, CheckOverflow(cfg, st, status, clear), PrivateCheck(cfg, p, status), [], noise);
      }
    case TimerSwap(late, noise) =>
      SwapSimulates(cfg, st, p, late, noise);
  }

  /** The private banks as the initial write leaves them: every group at its reload values. */
  function PrivateStart(cfg: Config, st: Pmu): (p: Private)
    requires Valid(cfg, st)
    ensures PrivateOk(cfg, p)
  {
    var banks := seq(|cfg.groups|, g requires 0 <= g < |cfg.groups| && ConfigOk(cfg) =>
                     Apply(map[], Reloads(cfg.groups[g].GpCounters())));
    Private(banks, st.msr, st.group, st.triggerCount)
  }

  lemma ReloadedBank(cfg: Config, g: Ecb, e: Entry)
    requires GroupOk(cfg, g) && e in g.GpCounters()
    ensures Read(Apply(map[], Reloads(g.GpCounters())), e.regId) == e.regValue
  {
    var es := g.GpCounters();
    GpDistinct(cfg, g);
    var i :| 0 <= i < |es| && es[i] == e;
    assert Reloads(es)[i].reg == e.regId;
    ApplyTarget(map[], Reloads(es), e.regId, e.regValue);
  }

  /** The initial write loads the current group's counters with their reload values. */
  lemma WriteLoads(cfg: Config, g: Ecb, msr: Msrs, e: Entry)
    requires GroupOk(cfg, g) && cfg.maxGp <= 8 && e in g.GpCounters()
    ensures Read(Apply(msr, InitialWrites(cfg, g.entries, |g.entries|)), e.regId) == e.regValue
  {
    var ws := InitialWrites(cfg, g.entries, |g.entries|);
    GpDistinct(cfg, g);
    g.DataGpVisits(g.dataStart + g.dataPop, e);
    InitialWritesAre(cfg, g.entries, |g.entries|, RegWrite(e.regId, e.regValue));
    forall w | w in ws && w.reg == e.regId
      ensures w.value == e.regValue
    {
      InitialWritesAre(cfg, g.entries, |g.entries|, w);
    }
    ApplyTarget(msr, ws, e.regId, e.regValue);
  }

  /** The initial write establishes the simulation. */
  lemma WriteSimulates(cfg: Config, st: Pmu, noise: seq<RegWrite>)
    requires Valid(cfg, st) && st.group == 0
    ensures Simulates(cfg, WritePmu(cfg, st, noise), PrivateStart(cfg, WritePmu(cfg, st, noise)))
  {
    var w := WritePmu(cfg, st, noise);
    var p := PrivateStart(cfg, w);
    forall g, r | 0 <= g < |cfg.groups| && Owns(cfg, g, r)
      ensures Counter(cfg, w, g, r) == Read(p.banks[g], r)
    {
      var e :| e in cfg.groups[g].GpCounters() && e.regId == r;
      ReloadedBank(cfg, cfg.groups[g], e);
      if g == 0 {
        WriteLoads(cfg, cfg.groups[0], HwErrata(cfg, st.msr, noise), e);
      } else {
        InitTableAt(cfg, st.table, |cfg.groups|, g, e);
      }
    }
  }

  lemma {:induction false} RunSimulates(cfg: Config, st: Pmu, p: Private, steps: seq<Step>)
    requires Simulates(cfg, st, p)
    requires forall s :: s in steps ==> StepOk(cfg, s)
    ensures Simulates(cfg, Run(cfg, st, steps), PrivateRun(cfg, p, steps))
  {
    if steps != [] {
      assert steps[|steps| - 1] in steps;
      RunSimulates(cfg, st, p, steps[..|steps| - 1]);
      DoSimulates(cfg, Run(cfg, st, steps[..|steps| - 1]), PrivateRun(cfg, p, steps[..|steps| - 1]), steps[|steps| - 1]);
    }
  }

  /**
    Multiplexing refines private counters.  From the initial write on, whatever happens, each
    counter of each group holds what it would hold if its group had the bank to itself, and
    the fixed counters are shared as if there were no swaps at all; only what general counters
    count between a timer's saving and reloading them is lost.
   */
  lemma MultiplexingRefinesPrivateCounters(cfg: Config, st: Pmu, noise: seq<RegWrite>, steps: seq<Step>)
    requires Valid(cfg, st) && st.group == 0
    requires forall s :: s in steps ==> StepOk(cfg, s)
    ensures var w := WritePmu(cfg, st, noise);
            var now := Run(cfg, w, steps);
            var alone := PrivateRun(cfg, PrivateStart(cfg, w), steps);
            && now.group == alone.group && now.triggerCount == alone.triggerCount
            && (forall g, r :: 0 <= g < |cfg.groups| && Owns(cfg, g, r) ==> Counter(cfg, now, g, r) == Read(alone.banks[g], r))
            && (forall r :: IsFixedCtr(r) ==> Read(now.msr, r) == Read(alone.fixed, r))
  {
    WriteSimulates(cfg, st, noise);
    var w := WritePmu(cfg, st, noise);
    RunSimulates(cfg, w, PrivateStart(cfg, w), steps);
  }
}
