/** What a swap and the initial write leave in every register, told by register number and entry. */
module Programming {
  import opened EventControl
  import opened Multiplexing

  /** The registers that the errata routine writes. */
  predicate ErrataNames(cfg: Config, r: Reg) {
    && cfg.hwErrata
    && (r == 0x38F || 0x186 <= r <= 0x189 || 0xC1 <= r <= 0xC4 || (cfg.pebsMode && r == 0x3F1))
  }

  lemma ErrataZeroes(cfg: Config, msr: Msrs, noise: seq<RegWrite>, r: Reg)
    requires IsNoise(noise) && ErrataNames(cfg, r)
    ensures Read(HwErrata(cfg, msr, noise), r) == 0
  {
    var before := (if cfg.pebsMode then [RegWrite(IA32_PEBS_ENABLE, 0)] else []) + ERRATA_ARM + noise;
    if r == 0x3F1 {
      assert (before + ERRATA_CLEAR)[0] == RegWrite(r, 0);
      ApplyTarget(msr, before + ERRATA_CLEAR, r, 0);
    } else {
      ErrataClears(r);
      ApplyConcat(msr, before, ERRATA_CLEAR);
      ApplyTarget(Apply(msr, before), ERRATA_CLEAR, r, 0);
    }
  }

  /** Each of them ends at 0, whatever was counted meanwhile, and no other register changes. */
  lemma ErrataLeaves(cfg: Config, msr: Msrs, noise: seq<RegWrite>, r: Reg)
    requires IsNoise(noise)
    ensures Read(HwErrata(cfg, msr, noise), r) == if ErrataNames(cfg, r) then 0 else Read(msr, r)
  {
    if ErrataNames(cfg, r) {
      ErrataZeroes(cfg, msr, noise, r);
    } else if cfg.hwErrata {
      var ws := ErrataWrites(cfg, noise);
      forall w | w in ws ensures w.reg != r {
      }
      ApplyElsewhere(msr, ws, r);
    }
  }

  lemma ErrataClears(r: Reg)
    requires r == 0x38F || 0x186 <= r <= 0x189 || 0xC1 <= r <= 0xC4
    ensures RegWrite(r, 0) in ERRATA_CLEAR
  {
    var i := if r == 0x38F then 0 else if r >= 0x186 then 2 * (r - 0x186) + 1 else 2 * (r - 0xC1) + 2;
    assert ERRATA_CLEAR[i] == RegWrite(r, 0);
  }

  /** While it has the four counters on, they count its own events from 0. */
  lemma ErrataArms(msr: Msrs, r: Reg)
    requires 0x186 <= r <= 0x189 || 0xC1 <= r <= 0xC4
    ensures Read(Apply(msr, ERRATA_ARM), r)
         == if r == 0x186 then 0x4300B5 else if r == 0x187 then 0x4300D2 else if r >= 0x188 then 0x4300B1 else 0
  {
    var i := if r >= 0x186 then 2 * (r - 0x186) + 1 else 2 * (r - 0xC1) + 2;
    assert ERRATA_ARM[i].reg == r && forall j :: 0 <= j < 10 && j != i ==> ERRATA_ARM[j].reg != r;
    ApplyTarget(msr, ERRATA_ARM, r, ERRATA_ARM[i].value);
  }

  /** It counts them with all four general counters and no fixed one, after masking precise sampling where that is in use. */
  lemma ErrataCounts(cfg: Config, msr: Msrs)
    ensures var m := Apply(msr, (if cfg.pebsMode then [RegWrite(IA32_PEBS_ENABLE, 0)] else []) + ERRATA_ARM);
            && Read(m, 0x38F) == 0xF && (cfg.pebsMode ==> Read(m, 0x3F1) == 0)
  {
    var pebs := if cfg.pebsMode then [RegWrite(IA32_PEBS_ENABLE, 0)] else [];
    assert (pebs + ERRATA_ARM)[|pebs| + 9] == RegWrite(IA32_PERF_GLOBAL_CTRL, 0xF);
    if cfg.pebsMode {
      assert (pebs + ERRATA_ARM)[0] == RegWrite(IA32_PEBS_ENABLE, 0);
      ApplyTarget(msr, pebs + ERRATA_ARM, 0x3F1, 0);
    }
  }

  // ---------------------------------------------------------------- the passes over one group

  /** The event-select pass gives each register it lists the listed value. */
  lemma ControlsHold(cfg: Config, g: Ecb, msr: Msrs, i: nat)
    requires GroupOk(cfg, g) && g.cccrStart <= i < g.cccrStart + g.cccrPop && g.entries[i].isGp && g.entries[i].regId != 0
    ensures Read(Apply(msr, Reloads(g.CccrGp(g.cccrStart + g.cccrPop))), g.entries[i].regId) == g.entries[i].regValue
  {
    var es := g.CccrGp(g.cccrStart + g.cccrPop);
    forall e | e in es ensures e in g.entries {
      g.CccrGpVisits(g.cccrStart + g.cccrPop, e);
    }
    g.CccrGpVisits(g.cccrStart + g.cccrPop, g.entries[i]);
    ReloadsLeave(g, es, msr, i);
  }

  /** It leaves every other register alone. */
  lemma ControlsMiss(g: Ecb, msr: Msrs, r: Reg)
    requires g.InRange() && forall i :: g.cccrStart <= i < g.cccrStart + g.cccrPop && g.entries[i].isGp ==> g.entries[i].regId != r
    ensures Read(Apply(msr, Reloads(g.CccrGp(g.cccrStart + g.cccrPop))), r) == Read(msr, r)
  {
    var es := g.CccrGp(g.cccrStart + g.cccrPop);
    forall e | e in es ensures e.regId != r {
      g.CccrGpVisits(g.cccrStart + g.cccrPop, e);
    }
    ReloadsMiss(es, r);
    ApplyElsewhere(msr, Reloads(es), r);
  }

  /** So does the ESCR pass. */
  lemma EscrsHold(cfg: Config, g: Ecb, msr: Msrs, i: nat)
    requires GroupOk(cfg, g) && g.escrStart <= i < g.escrStart + g.escrPop && g.entries[i].regId != 0
    ensures Read(Apply(msr, Reloads(g.Escr(g.escrStart + g.escrPop))), g.entries[i].regId) == g.entries[i].regValue
  {
    var es := g.Escr(g.escrStart + g.escrPop);
    forall e | e in es ensures e in g.entries {
      g.EscrVisits(g.escrStart + g.escrPop, e);
    }
    g.EscrVisits(g.escrStart + g.escrPop, g.entries[i]);
    ReloadsLeave(g, es, msr, i);
  }

  /** And so does this one. */
  lemma EscrsMiss(g: Ecb, msr: Msrs, r: Reg)
    requires g.InRange() && forall i :: g.escrStart <= i < g.escrStart + g.escrPop ==> g.entries[i].regId != r
    ensures Read(Apply(msr, Reloads(g.Escr(g.escrStart + g.escrPop))), r) == Read(msr, r)
  {
    var es := g.Escr(g.escrStart + g.escrPop);
    forall e | e in es ensures e.regId != r {
      g.EscrVisits(g.escrStart + g.escrPop, e);
    }
    ReloadsMiss(es, r);
    ApplyElsewhere(msr, Reloads(es), r);
  }

  lemma ReloadsMiss(es: seq<Entry>, r: Reg)
    requires forall e :: e in es ==> e.regId != r
    ensures forall w :: w in Reloads(es) ==> w.reg != r
  {}

  /** In a group that lists each register once, an entry's register takes its value. */
  lemma ReloadsLeave(g: Ecb, es: seq<Entry>, msr: Msrs, i: nat)
    requires i < |g.entries| && g.entries[i] in es && g.entries[i].regId != 0
    requires forall e :: e in es ==> e in g.entries
    requires forall j, k :: 0 <= j < k < |g.entries| && g.entries[j].regId != 0 ==> g.entries[j].regId != g.entries[k].regId
    ensures Read(Apply(msr, Reloads(es)), g.entries[i].regId) == g.entries[i].regValue
  {
    var k :| 0 <= k < |es| && es[k] == g.entries[i];
    var ws := Reloads(es);
    forall w | w in ws && w.reg == g.entries[i].regId
      ensures w.value == g.entries[i].regValue
    {
      var j :| 0 <= j < |es| && ws[j] == w;
      assert es[j] in g.entries;
    }
    assert Reloads(es)[k] == RegWrite(g.entries[i].regId, g.entries[i].regValue);
    ApplyTarget(msr, Reloads(es), g.entries[i].regId, g.entries[i].regValue);
  }

  // ---------------------------------------------------------------- a swap

  /** The group that a swap leads to: the one after the current, or the first again. */
  function Arriving(cfg: Config, st: Pmu): Ecb
    requires Valid(cfg, st)
  {
    cfg.groups[if st.group + 1 == |cfg.groups| then 0 else st.group + 1]
  }

  /** The registers in which the group's counters are restored. */
  ghost predicate Counters(g: Ecb, r: Reg)
    requires g.InRange()
  {
    exists i :: g.dataStart <= i < g.dataStart + g.dataPop && g.entries[i].isGp && g.entries[i].regId == r
  }

  lemma CountersAreListed(cfg: Config, g: Ecb, r: Reg)
    requires GroupOk(cfg, g)
    ensures Lists(g.GpCounters(), r) <==> Counters(g, r)
  {
    if Lists(g.GpCounters(), r) {
      var e :| e in g.GpCounters() && e.regId == r;
      g.DataGpVisits(g.dataStart + g.dataPop, e);
    }
    if i :| g.dataStart <= i < g.dataStart + g.dataPop && g.entries[i].isGp && g.entries[i].regId == r {
      g.DataGpVisits(g.dataStart + g.dataPop, g.entries[i]);
    }
  }

  /** The state besides the registers and the save area: the next group in turn, with its count and flags as at a start. */
  lemma SwapSchedules(cfg: Config, st: Pmu, late: Msrs, noise: seq<RegWrite>)
    requires Valid(cfg, st)
    ensures var r := SwapLate(cfg, st, late, noise);
            && r.group == (if st.group + 1 == |cfg.groups| then 0 else st.group + 1)
            && r.triggerCount == cfg.emFactor && r.resetMask == 0 && r.groupSwap
  {}

  /** The registers after the event-select pass of a swap. */
  function Selected(g: Ecb, errata: Msrs): Msrs
    requires g.InRange()
  {
    Apply(errata, Reloads(g.CccrGp(g.cccrStart + g.cccrPop)))
  }

  lemma ProgramReloads(cfg: Config, msr: Msrs, table: seq<U64>, next: nat, noise: seq<RegWrite>)
    requires ConfigOk(cfg) && next < |cfg.groups| && |table| == TableSize(cfg)
    ensures Program(cfg, msr, table, next, noise)
         == Reloaded(cfg, Selected(cfg.groups[next], HwErrata(cfg, msr, noise)), table, next)
  {}

  /** A register that is none of a group's counters comes to the ESCR pass as the event-select pass left it. */
  lemma ReloadPasses(cfg: Config, selected: Msrs, table: seq<U64>, next: nat, r: Reg) returns (restored: Msrs)
    requires ConfigOk(cfg) && next < |cfg.groups| && |table| == TableSize(cfg)
    requires !Counters(cfg.groups[next], r)
    ensures Reloaded(cfg, selected, table, next)
         == Apply(restored, Reloads(cfg.groups[next].Escr(cfg.groups[next].escrStart + cfg.groups[next].escrPop)))
    ensures Read(restored, r) == Read(selected, r)
  {
    var g := cfg.groups[next];
    GpDistinct(cfg, g);
    restored := Apply(selected, RestoreWrites(cfg, table, next, g.GpCounters()));
    Restored(cfg, selected, table, next, g.GpCounters(), r);
    CountersAreListed(cfg, g, r);
  }

  lemma SwapProgram(cfg: Config, st: Pmu, late: Msrs, noise: seq<RegWrite>)
    requires Valid(cfg, st)
    ensures var r := SwapLate(cfg, st, late, noise);
            r.msr == Program(cfg, late, r.table, r.group, noise) && cfg.groups[r.group] == Arriving(cfg, st)
  {}

  /** A swap programs the arriving group. */
  lemma SwapPasses(cfg: Config, st: Pmu, late: Msrs, noise: seq<RegWrite>, r: Reg) returns (restored: Msrs)
    requires Valid(cfg, st) && !Counters(Arriving(cfg, st), r)
    ensures var g := Arriving(cfg, st);
            SwapLate(cfg, st, late, noise).msr == Apply(restored, Reloads(g.Escr(g.escrStart + g.escrPop)))
    ensures Read(restored, r) == Read(Selected(Arriving(cfg, st), HwErrata(cfg, late, noise)), r)
  {
    SwapProgram(cfg, st, late, noise);
    var s := SwapLate(cfg, st, late, noise);
    ProgramReloads(cfg, late, s.table, s.group, noise);
    restored := ReloadPasses(cfg, Selected(cfg.groups[s.group], HwErrata(cfg, late, noise)), s.table, s.group, r);
  }

  /** Entry i is one that the event-select pass or the ESCR pass writes. */
  predicate Programs(g: Ecb, i: nat) {
    && g.InRange() && i < |g.entries| && g.entries[i].regId != 0
    && ((g.cccrStart <= i < g.cccrStart + g.cccrPop && g.entries[i].isGp) || g.escrStart <= i < g.escrStart + g.escrPop)
  }

  /** What the last pass makes of it, where the first has put its value or the last does. */
  lemma PassesHold(cfg: Config, g: Ecb, errata: Msrs, restored: Msrs, i: nat)
    requires GroupOk(cfg, g) && Programs(g, i)
    requires Read(restored, g.entries[i].regId) == Read(Selected(g, errata), g.entries[i].regId)
    ensures Read(Apply(restored, Reloads(g.Escr(g.escrStart + g.escrPop))), g.entries[i].regId) == g.entries[i].regValue
  {
    if g.escrStart <= i < g.escrStart + g.escrPop {
      EscrsHold(cfg, g, restored, i);
    } else {
      OnlyEntry(cfg, g, i);
      EscrsMiss(g, restored, g.entries[i].regId);
      ControlsHold(cfg, g, errata, i);
    }
  }

  /**
    A swap programs the arriving group: every event-select register and every ESCR it lists holds
    the listed value, whatever the errata routine and the leaving group had put there.
   */
  lemma SwapPrograms(cfg: Config, st: Pmu, late: Msrs, noise: seq<RegWrite>, i: nat)
    requires Valid(cfg, st)
    requires var g := Arriving(cfg, st);
             && i < |g.entries| && g.entries[i].regId != 0
             && ((g.cccrStart <= i < g.cccrStart + g.cccrPop && g.entries[i].isGp)
                 || g.escrStart <= i < g.escrStart + g.escrPop)
    ensures var e := Arriving(cfg, st).entries[i];
            Read(SwapLate(cfg, st, late, noise).msr, e.regId) == e.regValue
  {
    var g := Arriving(cfg, st);
    NoCounter(cfg, g, i);
    var restored := SwapPasses(cfg, st, late, noise, g.entries[i].regId);
    PassesHold(cfg, g, HwErrata(cfg, late, noise), restored, i);
  }

  /** The registers hold the event selects and the ESCRs of group g. */
  ghost predicate Programmed(g: Ecb, msr: Msrs) {
    forall i :: 0 <= i < |g.entries| && Programs(g, i) ==> Read(msr, g.entries[i].regId) == g.entries[i].regValue
  }

  lemma SwapLeavesProgrammed(cfg: Config, st: Pmu, noise: seq<RegWrite>)
    requires Valid(cfg, st)
    ensures var r := Swap(cfg, st, noise); Programmed(cfg.groups[r.group], r.msr)
  {
    SwapProgram(cfg, st, st.msr, noise);
    forall i | 0 <= i < |Arriving(cfg, st).entries| && Programs(Arriving(cfg, st), i)
      ensures var e := Arriving(cfg, st).entries[i]; Read(Swap(cfg, st, noise).msr, e.regId) == e.regValue
    {
      SwapPrograms(cfg, st, st.msr, noise, i);
    }
  }

  lemma NoCounter(cfg: Config, g: Ecb, i: nat)
    requires GroupOk(cfg, g) && Programs(g, i)
    ensures !Counters(g, g.entries[i].regId)
  {
    assert !IsCounter(cfg, g.entries[i].regId);
    if j :| g.dataStart <= j < g.dataStart + g.dataPop && g.entries[j].isGp && g.entries[j].regId == g.entries[i].regId {
      assert false;
    }
  }

  lemma OnlyEntry(cfg: Config, g: Ecb, i: nat)
    requires GroupOk(cfg, g) && i < |g.entries| && g.entries[i].regId != 0
    ensures forall j :: 0 <= j < |g.entries| && j != i ==> g.entries[j].regId != g.entries[i].regId
  {}

  /**
    A register that the arriving group lists in none of the three passes is 0 if the errata
    routine writes it, and else keeps its value.
   */
  lemma SwapKeepsOthers(cfg: Config, st: Pmu, late: Msrs, noise: seq<RegWrite>, r: Reg)
    requires Valid(cfg, st) && IsNoise(noise) && r != 0
    requires var g := Arriving(cfg, st);
             && g.InRange()
             && (forall i :: g.cccrStart <= i < g.cccrStart + g.cccrPop && g.entries[i].isGp ==> g.entries[i].regId != r)
             && (forall i :: g.dataStart <= i < g.dataStart + g.dataPop && g.entries[i].isGp ==> g.entries[i].regId != r)
             && (forall i :: g.escrStart <= i < g.escrStart + g.escrPop ==> g.entries[i].regId != r)
    ensures Read(SwapLate(cfg, st, late, noise).msr, r) == if ErrataNames(cfg, r) then 0 else Read(late, r)
  {
    var g := Arriving(cfg, st);
    assert GroupOk(cfg, g);
    var restored := SwapPasses(cfg, st, late, noise, r);
    ErrataLeaves(cfg, late, noise, r);
    ControlsMiss(g, HwErrata(cfg, late, noise), r);
    EscrsMiss(g, restored, r);
  }

  // ---------------------------------------------------------------- the initial write

  /** An entry's register after the initial write: its value, but 0 for the registers that would start the counting. */
  lemma WritePrograms(cfg: Config, st: Pmu, noise: seq<RegWrite>, i: nat)
    requires Valid(cfg, st) && i < |cfg.groups[st.group].entries| && cfg.groups[st.group].entries[i].regId != 0
    ensures var e := cfg.groups[st.group].entries[i];
            Read(WritePmu(cfg, st, noise).msr, e.regId) ==
            if e.regId == 0x38F || e.regId == 0x306 || (cfg.pebsMode && e.regId == 0x3F1) then 0 else e.regValue
  {
    var es := cfg.groups[st.group].entries;
    var ws := InitialWrites(cfg, es, |es|);
    assert GroupOk(cfg, cfg.groups[st.group]);
    InitialWritesAre(cfg, es, |es|, RegWrite(es[i].regId, InitialValue(cfg, es[i])));
    forall w | w in ws && w.reg == es[i].regId
      ensures w.value == InitialValue(cfg, es[i])
    {
      InitialWritesAre(cfg, es, |es|, w);
    }
    ApplyTarget(HwErrata(cfg, st.msr, noise), ws, es[i].regId, InitialValue(cfg, es[i]));
  }

  /** Every other register is 0 if the errata routine writes it, and else keeps its value; only group 0 starts the tables. */
  lemma WriteKeepsOthers(cfg: Config, st: Pmu, noise: seq<RegWrite>, r: Reg)
    requires Valid(cfg, st) && IsNoise(noise)
    requires r != 0 && forall e :: e in cfg.groups[st.group].entries ==> e.regId != r
    ensures Read(WritePmu(cfg, st, noise).msr, r) == if ErrataNames(cfg, r) then 0 else Read(st.msr, r)
    ensures WritePmu(cfg, st, noise) == st.(msr := WritePmu(cfg, st, noise).msr, table := WritePmu(cfg, st, noise).table)
    ensures st.group != 0 ==> WritePmu(cfg, st, noise).table == st.table
  {
    var es := cfg.groups[st.group].entries;
    var ws := InitialWrites(cfg, es, |es|);
    ErrataLeaves(cfg, st.msr, noise, r);
    forall w | w in ws
      ensures w.reg != r
    {
      InitialWritesAre(cfg, es, |es|, w);
    }
    ApplyElsewhere(HwErrata(cfg, st.msr, noise), ws, r);
  }
}
