/** Counter multiplexing (core2.c): event groups share one bank of physical counters and swap in turn. */
module Multiplexing {
  // A swap saves the counters of the group that leaves, runs the errata routine, which overwrites the counters, and
  // restores those of the group that comes.
  import opened EventControl

  /** What the driver was configured with. `hwErrata` and `fixedErrata` are optional dispatch entries. */
  datatype Config = Config(
    groups: seq<Ecb>,
    maxGp: nat,
    emFactor: int,
    triggerEvent: int,
    numEvents: nat,
    pebsMode: bool,
    hwErrata: bool,
    fixedErrata: bool)

  /** The multiplexing state of one CPU; `table` is that CPU's slice of the save area. */
  datatype Pmu = Pmu(
    msr: Msrs,
    table: seq<U64>,
    group: nat,
    triggerCount: int,
    resetMask: U64,
    groupSwap: bool)

  predicate IsPmc(cfg: Config, r: Reg) { IA32_PMC0 <= r < IA32_PMC0 + cfg.maxGp }
  predicate IsFixedCtr(r: Reg) { IA32_FIXED_CTR0 <= r <= IA32_FIXED_CTR2 }
  predicate IsCounter(cfg: Config, r: Reg) { IsPmc(cfg, r) || IsFixedCtr(r) }

  /** The counters by register number: PMC0 and up from 0xC1, and three fixed ones. */
  lemma CountersAre(cfg: Config, r: Reg)
    ensures IsPmc(cfg, r) <==> 0xC1 <= r && r - 0xC1 < cfg.maxGp
    ensures IsFixedCtr(r) <==> r == 0x309 || r == 0x30A || r == 0x30B
  {}

  predicate DataEntryOk(cfg: Config, e: Entry) {
    && (e.isGp ==> IsPmc(cfg, e.regId) && !e.isFixed)
    && (e.isFixed ==> IsFixedCtr(e.regId))
    && (!e.isGp && !e.isFixed ==> !IsCounter(cfg, e.regId))
  }

  ghost predicate GroupOk(cfg: Config, g: Ecb) {
    && g.InRange()
    && (forall i, j :: 0 <= i < j < |g.entries| && g.entries[i].regId != 0 ==> g.entries[i].regId != g.entries[j].regId)
    && (forall i :: g.dataStart <= i < g.dataStart + g.dataPop ==> DataEntryOk(cfg, g.entries[i]))
    && (forall i :: g.cccrStart <= i < g.cccrStart + g.cccrPop ==> !IsCounter(cfg, g.entries[i].regId))
    && (forall i :: g.escrStart <= i < g.escrStart + g.escrPop ==> !IsCounter(cfg, g.entries[i].regId))
  }

  /** Well-formed event groups: distinct registers, general counters below `maxGp`, disjoint ranges. */
  ghost predicate ConfigOk(cfg: Config) {
    && |cfg.groups| >= 2
    && 0 < cfg.maxGp <= 8
    && forall g :: 0 <= g < |cfg.groups| ==> GroupOk(cfg, cfg.groups[g])
  }

  /** Entries one CPU needs in the save area (size_of_vector in eventmux.c:315-317, in entries). */
  function TableSize(cfg: Config): nat { Rows(|cfg.groups|, cfg.maxGp) }

  ghost predicate Valid(cfg: Config, st: Pmu) {
    && ConfigOk(cfg)
    && st.group < |cfg.groups|
    && |st.table| == TableSize(cfg)
  }

  // ---------------------------------------------------------------- slots of the save area

  /** Size of n rows of m entries, written without a product to keep the arithmetic of proofs linear. */
  function Rows(n: nat, m: nat): nat {
    if n == 0 then 0 else Rows(n - 1, m) + m
  }

  lemma {:induction false} RowsProduct(n: nat, m: nat)
    ensures Rows(n, m) == n * m
  {
    if n > 0 {
      RowsProduct(n - 1, m);
      assert (n - 1) * m == n * m - m;
    }
  }

  lemma {:induction false} RowsApart(g: nat, h: nat, m: nat)
    ensures g < h ==> Rows(g, m) + m <= Rows(h, m)
    decreases h
  {
    if g + 1 < h {
      RowsApart(g, h - 1, m);
    }
  }

  function Slot(cfg: Config, g: nat, r: Reg): nat
    requires IsPmc(cfg, r)
  {
    Rows(g, cfg.maxGp) + (r - IA32_PMC0)
  }

  /** A slot's index is the group number times the counters per group, plus the counter's number. */
  lemma SlotIndex(cfg: Config, g: nat, r: Reg)
    requires IsPmc(cfg, r)
    ensures Slot(cfg, g, r) == g * cfg.maxGp + (r - IA32_PMC0)
  {
    RowsProduct(g, cfg.maxGp);
  }

  lemma SlotInTable(cfg: Config, g: nat, r: Reg)
    requires g < |cfg.groups| && IsPmc(cfg, r)
    ensures Slot(cfg, g, r) < TableSize(cfg)
  {
    RowsApart(g, |cfg.groups|, cfg.maxGp);
  }

  /** The slots of different groups never meet. */
  lemma SlotInjective(cfg: Config, g: nat, r: Reg, h: nat, s: Reg)
    requires IsPmc(cfg, r) && IsPmc(cfg, s)
    requires Slot(cfg, g, r) == Slot(cfg, h, s)
    ensures g == h && r == s
  {
    RowsApart(g, h, cfg.maxGp);
    RowsApart(h, g, cfg.maxGp);
  }

  /** The general counters of a well-formed group are counters with a slot, each listed with one reload value. */
  lemma GpDistinct(cfg: Config, g: Ecb)
    requires GroupOk(cfg, g)
    ensures forall e :: e in g.GpCounters() ==> e.isGp && IsPmc(cfg, e.regId)
    ensures forall e, f :: e in g.GpCounters() && f in g.GpCounters() && e.regId == f.regId ==> e == f
  {
    forall e, f | e in g.GpCounters() && f in g.GpCounters()
      ensures e.isGp && IsPmc(cfg, e.regId) && (e.regId == f.regId ==> e == f)
    {
      g.DataGpVisits(g.dataStart + g.dataPop, e);
      g.DataGpVisits(g.dataStart + g.dataPop, f);
    }
  }

  // ---------------------------------------------------------------- the source's operations

  /** Saving: the slot of every listed counter takes the register's value (core2.c:712-718). */
  function Save(cfg: Config, table: seq<U64>, g: nat, es: seq<Entry>, msr: Msrs): (t: seq<U64>)
    requires |table| == TableSize(cfg) && g < |cfg.groups|
    requires forall e :: e in es ==> IsPmc(cfg, e.regId)
    ensures |t| == |table|
  {
    if es == [] then table
    else
      var e := es[|es| - 1];
      SlotInTable(cfg, g, e.regId);
      Save(cfg, table, g, es[..|es| - 1], msr)[Slot(cfg, g, e.regId) := Read(msr, e.regId)]
  }

  /** Initial table contents of one group: the reload values (core2.c:277-280). */
  function InitGroup(cfg: Config, table: seq<U64>, g: nat, es: seq<Entry>): (t: seq<U64>)
    requires |table| == TableSize(cfg) && g < |cfg.groups|
    requires forall e :: e in es ==> IsPmc(cfg, e.regId)
    ensures |t| == |table|
  {
    if es == [] then table
    else
      var e := es[|es| - 1];
      SlotInTable(cfg, g, e.regId);
      InitGroup(cfg, table, g, es[..|es| - 1])[Slot(cfg, g, e.regId) := e.regValue]
  }

  /** The save area after the first `n` groups have been initialised (core2.c:274-281). */
  function InitTable(cfg: Config, table: seq<U64>, n: nat): (t: seq<U64>)
    requires ConfigOk(cfg) && |table| == TableSize(cfg) && n <= |cfg.groups|
    ensures |t| == |table|
  {
    if n == 0 then table
    else
      GpDistinct(cfg, cfg.groups[n - 1]);
      InitGroup(cfg, InitTable(cfg, table, n - 1), n - 1, cfg.groups[n - 1].GpCounters())
  }

  /** The writes that restore a group's counters (core2.c:743-749). */
  function RestoreWrites(cfg: Config, table: seq<U64>, g: nat, es: seq<Entry>): (ws: seq<RegWrite>)
    requires |table| == TableSize(cfg) && g < |cfg.groups|
    requires forall e :: e in es ==> IsPmc(cfg, e.regId)
    ensures |ws| == |es|
  {
    if es == [] then []
    else
      var e := es[|es| - 1];
      SlotInTable(cfg, g, e.regId);
      RestoreWrites(cfg, table, g, es[..|es| - 1]) + [RegWrite(e.regId, table[Slot(cfg, g, e.regId)])]
  }

  /** Registers that hardware may advance while the errata routine has the counters enabled. */
  predicate IsNoise(noise: seq<RegWrite>) {
    forall w :: w in noise ==> 0xC1 <= w.reg <= 0xC4
  }

  const ERRATA_ARM: seq<RegWrite> := [
    RegWrite(IA32_PERF_GLOBAL_CTRL, 0),
    RegWrite(0x186, 0x4300B5), RegWrite(0xC1, 0),
    RegWrite(0x187, 0x4300D2), RegWrite(0xC2, 0),
    RegWrite(0x188, 0x4300B1), RegWrite(0xC3, 0),
    RegWrite(0x189, 0x4300B1), RegWrite(0xC4, 0),
    RegWrite(IA32_PERF_GLOBAL_CTRL, 0xF)]

  const ERRATA_CLEAR: seq<RegWrite> := [
    RegWrite(IA32_PERF_GLOBAL_CTRL, 0),
    RegWrite(0x186, 0), RegWrite(0xC1, 0),
    RegWrite(0x187, 0), RegWrite(0xC2, 0),
    RegWrite(0x188, 0), RegWrite(0xC3, 0),
    RegWrite(0x189, 0), RegWrite(0xC4, 0)]

  /** corei7_Errata_Fix; `noise` is what the counters do while they are enabled. */
  function ErrataWrites(cfg: Config, noise: seq<RegWrite>): seq<RegWrite> {
    (if cfg.pebsMode then [RegWrite(IA32_PEBS_ENABLE, 0)] else []) + ERRATA_ARM + noise + ERRATA_CLEAR
  }

  function HwErrata(cfg: Config, msr: Msrs, noise: seq<RegWrite>): Msrs {
    if cfg.hwErrata then Apply(msr, ErrataWrites(cfg, noise)) else msr
  }

  function Next(cfg: Config, g: nat): nat {
    if g + 1 >= |cfg.groups| then 0 else g + 1
  }

  /** The registers after the errata routine and the arriving group's control, counter and ESCR writes. */
  function Program(cfg: Config, msr: Msrs, table: seq<U64>, next: nat, noise: seq<RegWrite>): Msrs
    requires ConfigOk(cfg) && next < |cfg.groups| && |table| == TableSize(cfg)
  {
    var to := cfg.groups[next];
    GpDistinct(cfg, to);
    var msr1 := HwErrata(cfg, msr, noise);
    var msr2 := Apply(msr1, Reloads(to.CccrGp(to.cccrStart + to.cccrPop)));
    var msr3 := Apply(msr2, RestoreWrites(cfg, table, next, to.GpCounters()));
    Apply(msr3, Reloads(to.Escr(to.escrStart + to.escrPop)))
  }

  /**
    core2_Swap_Group, outside event-based-count mode.  `late` are the registers once the saving is
    done: those of `st` if nothing counts meanwhile, else later ones.
   */
  function SwapLate(cfg: Config, st: Pmu, late: Msrs, noise: seq<RegWrite>): (r: Pmu)
    requires Valid(cfg, st)
    ensures Valid(cfg, r)
  {
    GpDistinct(cfg, cfg.groups[st.group]);
    var table := Save(cfg, st.table, st.group, cfg.groups[st.group].GpCounters(), st.msr);
    var next := Next(cfg, st.group);
    Pmu(Program(cfg, late, table, next, noise), table, next, cfg.emFactor, 0, true)
  }

  /** A swap while the counters stand still. */
  function Swap(cfg: Config, st: Pmu, noise: seq<RegWrite>): (r: Pmu)
    requires Valid(cfg, st)
    ensures Valid(cfg, r)
  {
    SwapLate(cfg, st, st.msr, noise)
  }

  /** What core2_Write_PMU stores for an entry: control registers that start counting get 0. */
  function InitialValue(cfg: Config, e: Entry): U64 {
    if e.regId == IA32_PERF_GLOBAL_CTRL then 0
    else if cfg.pebsMode && e.regId == IA32_PEBS_ENABLE && e.regValue != 0 then 0
    else if e.regId == COMPOUND_CTR_CTL then 0
    else e.regValue
  }

  function InitialWrites(cfg: Config, es: seq<Entry>, hi: nat): (ws: seq<RegWrite>)
    requires hi <= |es|
  {
    if hi == 0 then []
    else
      InitialWrites(cfg, es, hi - 1)
      + (if es[hi - 1].regId != 0 then [RegWrite(es[hi - 1].regId, InitialValue(cfg, es[hi - 1]))] else [])
  }

  lemma {:induction false} InitialWritesAre(cfg: Config, es: seq<Entry>, hi: nat, w: RegWrite)
    requires hi <= |es|
    ensures w in InitialWrites(cfg, es, hi)
       <==> exists i :: 0 <= i < hi && es[i].regId != 0 && w == RegWrite(es[i].regId, InitialValue(cfg, es[i]))
  {
    if hi > 0 {
      InitialWritesAre(cfg, es, hi - 1, w);
    }
  }

  /** core2_Write_PMU with multiplexing enabled. */
  function WritePmu(cfg: Config, st: Pmu, noise: seq<RegWrite>): (r: Pmu)
    requires Valid(cfg, st)
    ensures Valid(cfg, r)
  {
    var table := if st.group == 0 then InitTable(cfg, st.table, |cfg.groups|) else st.table;
    var es := cfg.groups[st.group].entries;
    st.(table := table, msr := Apply(HwErrata(cfg, st.msr, noise), InitialWrites(cfg, es, |es|)))
  }

  // ---------------------------------------------------------------- the counters a group sees

  /** Counter `r` of group `g`: the physical register while `g` is current, else its saved slot. */
  function Counter(cfg: Config, st: Pmu, g: nat, r: Reg): U64
    requires Valid(cfg, st) && g < |cfg.groups| && IsPmc(cfg, r)
  {
    if g == st.group then Read(st.msr, r)
    else
      SlotInTable(cfg, g, r);
      st.table[Slot(cfg, g, r)]
  }

  ghost predicate Owns(cfg: Config, g: nat, r: Reg)
    requires ConfigOk(cfg) && g < |cfg.groups|
  {
    IsPmc(cfg, r) && Lists(cfg.groups[g].GpCounters(), r)
  }

  lemma {:induction false} SaveAt(cfg: Config, table: seq<U64>, g: nat, es: seq<Entry>, msr: Msrs, h: nat, r: Reg)
    requires |table| == TableSize(cfg) && g < |cfg.groups| && h < |cfg.groups| && IsPmc(cfg, r)
    requires forall e :: e in es ==> IsPmc(cfg, e.regId)
    ensures Slot(cfg, h, r) < |table|
    ensures Save(cfg, table, g, es, msr)[Slot(cfg, h, r)]
         == if g == h && Lists(es, r) then Read(msr, r) else table[Slot(cfg, h, r)]
  {
    SlotInTable(cfg, h, r);
    if es != [] {
      var e := es[|es| - 1];
      assert es == es[..|es| - 1] + [e];
      SaveAt(cfg, table, g, es[..|es| - 1], msr, h, r);
      if Slot(cfg, g, e.regId) == Slot(cfg, h, r) {
        SlotInjective(cfg, g, e.regId, h, r);
      }
    }
  }

  lemma {:induction false} InitGroupAt(cfg: Config, table: seq<U64>, g: nat, es: seq<Entry>, h: nat, r: Reg)
    requires |table| == TableSize(cfg) && g < |cfg.groups| && h < |cfg.groups| && IsPmc(cfg, r)
    requires forall e :: e in es ==> IsPmc(cfg, e.regId)
    requires forall e, f :: e in es && f in es && e.regId == f.regId ==> e.regValue == f.regValue
    ensures Slot(cfg, h, r) < |table|
    ensures g != h ==> InitGroup(cfg, table, g, es)[Slot(cfg, h, r)] == table[Slot(cfg, h, r)]
    ensures forall e :: g == h && e in es && e.regId == r ==> InitGroup(cfg, table, g, es)[Slot(cfg, h, r)] == e.regValue
  {
    SlotInTable(cfg, h, r);
    if es != [] {
      var e := es[|es| - 1];
      assert es == es[..|es| - 1] + [e];
      InitGroupAt(cfg, table, g, es[..|es| - 1], h, r);
      if Slot(cfg, g, e.regId) == Slot(cfg, h, r) {
        SlotInjective(cfg, g, e.regId, h, r);
      }
    }
  }

  lemma {:induction false} InitTableAt(cfg: Config, table: seq<U64>, n: nat, h: nat, e: Entry)
    requires ConfigOk(cfg) && |table| == TableSize(cfg) && h < n <= |cfg.groups|
    requires e in cfg.groups[h].GpCounters()
    ensures IsPmc(cfg, e.regId) && Slot(cfg, h, e.regId) < |table|
    ensures InitTable(cfg, table, n)[Slot(cfg, h, e.regId)] == e.regValue
  {
    InitStepAt(cfg, table, n - 1, h, e);
    if h < n - 1 {
      InitTableAt(cfg, table, n - 1, h, e);
    }
  }

  /** Initializing group g leaves the slots of other groups alone and gives its own their reload values. */
  lemma InitStepAt(cfg: Config, table: seq<U64>, g: nat, h: nat, e: Entry)
    requires ConfigOk(cfg) && |table| == TableSize(cfg) && h <= g < |cfg.groups| && e in cfg.groups[h].GpCounters()
    ensures IsPmc(cfg, e.regId) && Slot(cfg, h, e.regId) < |table|
    ensures InitTable(cfg, table, g + 1)[Slot(cfg, h, e.regId)]
         == if g == h then e.regValue else InitTable(cfg, table, g)[Slot(cfg, h, e.regId)]
  {
    GpDistinct(cfg, cfg.groups[h]);
    GpDistinct(cfg, cfg.groups[g]);
    InitGroupAt(cfg, InitTable(cfg, table, g), g, cfg.groups[g].GpCounters(), h, e.regId);
  }

  lemma {:induction false} RestoreWritesAre(cfg: Config, table: seq<U64>, g: nat, es: seq<Entry>, w: RegWrite)
    requires |table| == TableSize(cfg) && g < |cfg.groups|
    requires forall e :: e in es ==> IsPmc(cfg, e.regId)
    ensures w in RestoreWrites(cfg, table, g, es) ==>
              IsPmc(cfg, w.reg) && Slot(cfg, g, w.reg) < |table| && w.value == table[Slot(cfg, g, w.reg)]
    ensures forall e :: e in es ==>
              exists v :: RegWrite(e.regId, v) in RestoreWrites(cfg, table, g, es)
  {
    if es != [] {
      var e := es[|es| - 1];
      assert es == es[..|es| - 1] + [e];
      SlotInTable(cfg, g, e.regId);
      RestoreWritesAre(cfg, table, g, es[..|es| - 1], w);
      var ws := RestoreWrites(cfg, table, g, es[..|es| - 1]);
      assert RestoreWrites(cfg, table, g, es) == ws + [RegWrite(e.regId, table[Slot(cfg, g, e.regId)])];
      assert RegWrite(e.regId, table[Slot(cfg, g, e.regId)]) in RestoreWrites(cfg, table, g, es);
      forall f | f in es
        ensures exists v :: RegWrite(f.regId, v) in RestoreWrites(cfg, table, g, es)
      {
        if f in es[..|es| - 1] {
          var v :| RegWrite(f.regId, v) in ws;
          assert RegWrite(f.regId, v) in RestoreWrites(cfg, table, g, es);
        }
      }
    }
  }

  ghost predicate Lists(es: seq<Entry>, r: Reg) { exists e :: e in es && e.regId == r }

  /** The restore loop writes no register but those listed. */
  lemma {:induction false} RestoreWritesListed(cfg: Config, table: seq<U64>, g: nat, es: seq<Entry>, w: RegWrite)
    requires |table| == TableSize(cfg) && g < |cfg.groups|
    requires forall e :: e in es ==> IsPmc(cfg, e.regId)
    requires w in RestoreWrites(cfg, table, g, es)
    ensures Lists(es, w.reg)
  {
    var e := es[|es| - 1];
    assert e in es;
    if w.reg != e.regId {
      RestoreWritesListed(cfg, table, g, es[..|es| - 1], w);
      var f :| f in es[..|es| - 1] && f.regId == w.reg;
      assert f in es;
    }
  }

  /** Restoring gives each listed counter its saved value and touches no other register. */
  lemma Restored(cfg: Config, msr: Msrs, table: seq<U64>, g: nat, es: seq<Entry>, r: Reg)
    requires |table| == TableSize(cfg) && g < |cfg.groups|
    requires forall e :: e in es ==> IsPmc(cfg, e.regId)
    ensures Lists(es, r) ==> IsPmc(cfg, r) && Slot(cfg, g, r) < |table|
    ensures Read(Apply(msr, RestoreWrites(cfg, table, g, es)), r)
         == if Lists(es, r) then table[Slot(cfg, g, r)] else Read(msr, r)
  {
    var ws := RestoreWrites(cfg, table, g, es);
    forall w | w in ws
      ensures IsPmc(cfg, w.reg) && Slot(cfg, g, w.reg) < |table| && w.value == table[Slot(cfg, g, w.reg)] && Lists(es, w.reg)
    {
      RestoreWritesAre(cfg, table, g, es, w);
      RestoreWritesListed(cfg, table, g, es, w);
    }
    if Lists(es, r) {
      RestoreWritesAre(cfg, table, g, es, RegWrite(0, 0));
      var v :| RegWrite(r, v) in ws;
      ApplyTarget(msr, ws, r, table[Slot(cfg, g, r)]);
    } else {
      ApplyElsewhere(msr, ws, r);
    }
  }

  lemma RestoreMissesFixed(cfg: Config, msr: Msrs, table: seq<U64>, g: nat, es: seq<Entry>, r: Reg)
    requires |table| == TableSize(cfg) && g < |cfg.groups| && cfg.maxGp <= 8 && IsFixedCtr(r)
    requires forall e :: e in es ==> IsPmc(cfg, e.regId)
    ensures Read(Apply(msr, RestoreWrites(cfg, table, g, es)), r) == Read(msr, r)
  {
    Restored(cfg, msr, table, g, es, r);
  }

  lemma CccrMissesCounters(cfg: Config, g: Ecb, msr: Msrs, r: Reg)
    requires GroupOk(cfg, g) && IsCounter(cfg, r)
    ensures Read(Apply(msr, Reloads(g.CccrGp(g.cccrStart + g.cccrPop))), r) == Read(msr, r)
  {
    var cs := g.CccrGp(g.cccrStart + g.cccrPop);
    forall w | w in Reloads(cs)
      ensures w.reg != r
    {
      var e :| e in cs && w == RegWrite(e.regId, e.regValue);
      g.CccrGpVisits(g.cccrStart + g.cccrPop, e);
    }
    ApplyElsewhere(msr, Reloads(cs), r);
  }

  lemma EscrMissesCounters(cfg: Config, g: Ecb, msr: Msrs, r: Reg)
    requires GroupOk(cfg, g) && IsCounter(cfg, r)
    ensures Read(Apply(msr, Reloads(g.Escr(g.escrStart + g.escrPop))), r) == Read(msr, r)
  {
    var es := g.Escr(g.escrStart + g.escrPop);
    forall w | w in Reloads(es)
      ensures w.reg != r
    {
      var e :| e in es && w == RegWrite(e.regId, e.regValue);
      g.EscrVisits(g.escrStart + g.escrPop, e);
    }
    ApplyElsewhere(msr, Reloads(es), r);
  }

  /** The errata routine touches no fixed-function counter. */
  lemma ErrataMissesFixed(cfg: Config, msr: Msrs, noise: seq<RegWrite>, r: Reg)
    requires IsNoise(noise) && IsFixedCtr(r)
    ensures Read(HwErrata(cfg, msr, noise), r) == Read(msr, r)
  {
    var ws := ErrataWrites(cfg, noise);
    forall w | w in ws
      ensures w.reg != r
    {
    }
    ApplyElsewhere(msr, ws, r);
  }

  /** The errata routine leaves the counters it uses at zero, whatever they did meanwhile. */
  lemma ErrataClobbers(cfg: Config, msr: Msrs, noise: seq<RegWrite>, r: Reg)
    requires cfg.hwErrata && 0xC1 <= r <= 0xC4
    ensures Read(HwErrata(cfg, msr, noise), r) == 0
    ensures Read(HwErrata(cfg, msr, noise), IA32_PERF_GLOBAL_CTRL) == 0
  {
    var pre := (if cfg.pebsMode then [RegWrite(IA32_PEBS_ENABLE, 0)] else []) + ERRATA_ARM + noise;
    ApplyConcat(msr, pre, ERRATA_CLEAR);
    var m := Apply(msr, pre);
    assert RegWrite(r, 0) in ERRATA_CLEAR by {
      assert ERRATA_CLEAR[2 * (r - 0xC0)] == RegWrite(r, 0);
    }
    ApplyTarget(m, ERRATA_CLEAR, r, 0);
    assert ERRATA_CLEAR[0] == RegWrite(IA32_PERF_GLOBAL_CTRL, 0);
    ApplyTarget(m, ERRATA_CLEAR, IA32_PERF_GLOBAL_CTRL, 0);
  }

  lemma {:induction false} ApplyConcat(m: Msrs, ws: seq<RegWrite>, vs: seq<RegWrite>)
    ensures Apply(m, ws + vs) == Apply(Apply(m, ws), vs)
  {
    if vs == [] {
      assert ws + vs == ws;
    } else {
      assert (ws + vs)[..|ws + vs| - 1] == ws + vs[..|vs| - 1];
      ApplyConcat(m, ws, vs[..|vs| - 1]);
    }
  }

  /** The save area after a swap: the leaving group's slots hold its counters, the others are untouched. */
  lemma SwapSaves(cfg: Config, st: Pmu, late: Msrs, noise: seq<RegWrite>, g: nat, r: Reg)
    requires Valid(cfg, st) && g < |cfg.groups| && Owns(cfg, g, r)
    ensures Slot(cfg, g, r) < |st.table|
    ensures SwapLate(cfg, st, late, noise).table[Slot(cfg, g, r)] == Counter(cfg, st, g, r)
  {
    var from := cfg.groups[st.group];
    GpDistinct(cfg, from);
    SaveAt(cfg, st.table, st.group, from.GpCounters(), st.msr, g, r);
  }

  /** Programming a group restores its counters from the save area. */
  lemma ProgramRestores(cfg: Config, msr: Msrs, table: seq<U64>, next: nat, noise: seq<RegWrite>, r: Reg)
    requires ConfigOk(cfg) && next < |cfg.groups| && |table| == TableSize(cfg)
    requires Owns(cfg, next, r)
    ensures Slot(cfg, next, r) < |table|
    ensures Read(Program(cfg, msr, table, next, noise), r) == table[Slot(cfg, next, r)]
  {
    var to := cfg.groups[next];
    GpDistinct(cfg, to);
    var msr2 := Apply(HwErrata(cfg, msr, noise), Reloads(to.CccrGp(to.cccrStart + to.cccrPop)));
    var msr3 := Apply(msr2, RestoreWrites(cfg, table, next, to.GpCounters()));
    Restored(cfg, msr2, table, next, to.GpCounters(), r);
    EscrMissesCounters(cfg, to, msr3, r);
  }

  /** The last two passes of programming, from the registers the first two have left. */
  function Reloaded(cfg: Config, msr: Msrs, table: seq<U64>, next: nat): Msrs
    requires ConfigOk(cfg) && next < |cfg.groups| && |table| == TableSize(cfg)
  {
    var to := cfg.groups[next];
    GpDistinct(cfg, to);
    Apply(Apply(msr, RestoreWrites(cfg, table, next, to.GpCounters())), Reloads(to.Escr(to.escrStart + to.escrPop)))
  }

  lemma ReloadedKeepsFixed(cfg: Config, msr: Msrs, table: seq<U64>, next: nat, r: Reg)
    requires ConfigOk(cfg) && next < |cfg.groups| && |table| == TableSize(cfg) && IsFixedCtr(r)
    ensures Read(Reloaded(cfg, msr, table, next), r) == Read(msr, r)
  {
    var to := cfg.groups[next];
    GpDistinct(cfg, to);
    RestoreMissesFixed(cfg, msr, table, next, to.GpCounters(), r);
    EscrMissesCounters(cfg, to, Apply(msr, RestoreWrites(cfg, table, next, to.GpCounters())), r);
  }

  /** Programming a group leaves the fixed counters alone. */
  lemma ProgramKeepsFixed(cfg: Config, msr: Msrs, table: seq<U64>, next: nat, noise: seq<RegWrite>, r: Reg)
    requires ConfigOk(cfg) && next < |cfg.groups| && |table| == TableSize(cfg)
    requires IsNoise(noise) && IsFixedCtr(r)
    ensures Read(Program(cfg, msr, table, next, noise), r) == Read(msr, r)
  {
    var to := cfg.groups[next];
    ErrataMissesFixed(cfg, msr, noise, r);
    CccrMissesCounters(cfg, to, HwErrata(cfg, msr, noise), r);
    ReloadedKeepsFixed(cfg, Apply(HwErrata(cfg, msr, noise), Reloads(to.CccrGp(to.cccrStart + to.cccrPop))), table, next, r);
  }

  /**
    Whatever counts between saving and reloading, a swap leaves every general counter of every
    group with the value it had when it was saved: what it counted since is lost, and no more.
    The fixed counters are not reloaded, and keep what they count.
   */
  lemma SwapForgetsLateCounts(cfg: Config, st: Pmu, late: Msrs, noise: seq<RegWrite>, g: nat, r: Reg)
    requires Valid(cfg, st) && IsNoise(noise) && g < |cfg.groups|
    ensures Owns(cfg, g, r) ==> Counter(cfg, SwapLate(cfg, st, late, noise), g, r) == Counter(cfg, st, g, r)
    ensures IsFixedCtr(r) ==> Read(SwapLate(cfg, st, late, noise).msr, r) == Read(late, r)
  {
    GpDistinct(cfg, cfg.groups[st.group]);
    var table := Save(cfg, st.table, st.group, cfg.groups[st.group].GpCounters(), st.msr);
    if IsFixedCtr(r) {
      ProgramKeepsFixed(cfg, late, table, Next(cfg, st.group), noise, r);
    }
    if Owns(cfg, Next(cfg, st.group), r) {
      ProgramRestores(cfg, late, table, Next(cfg, st.group), noise, r);
    }
    if Owns(cfg, g, r) {
      SwapSaves(cfg, st, late, noise, g, r);
    }
  }

  /** While the counters stand still a swap is invisible: every counter keeps its value. */
  lemma SwapKeepsCounters(cfg: Config, st: Pmu, noise: seq<RegWrite>, g: nat, r: Reg)
    requires Valid(cfg, st) && IsNoise(noise) && g < |cfg.groups|
    ensures Owns(cfg, g, r) ==> Counter(cfg, Swap(cfg, st, noise), g, r) == Counter(cfg, st, g, r)
    ensures IsFixedCtr(r) ==> Read(Swap(cfg, st, noise).msr, r) == Read(st.msr, r)
  {
    SwapForgetsLateCounts(cfg, st, st.msr, noise, g, r);
  }
}
