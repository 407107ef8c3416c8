/**
  The driver's per-CPU counter state and the routines of vtunedk/sepdk/core2.c that update it
  in place, each proved against its specification in `Multiplexing`, `Overflow` and
  `Refinement`.  All CPUs share one save area; each works on its own slice of it.
 */
module Pmu {
  import opened EventControl
  import opened Multiplexing
  import opened Overflow
  import opened Programming
  import opened Refinement

  /** The slices of different CPUs are disjoint and lie inside an area made for `cpus` of them. */
  lemma SlicesApart(cfg: Config, cpus: nat, a: nat, b: nat)
    requires a < b < cpus
    ensures a * TableSize(cfg) + TableSize(cfg) <= b * TableSize(cfg)
    ensures b * TableSize(cfg) + TableSize(cfg) <= cpus * TableSize(cfg)
  {
    RowsApart(a, b, TableSize(cfg));
    RowsApart(b, cpus, TableSize(cfg));
    RowsProduct(a, TableSize(cfg));
    RowsProduct(b, TableSize(cfg));
    RowsProduct(cpus, TableSize(cfg));
  }

  lemma PrefixIsPmc(cfg: Config, g: Ecb, hi: nat)
    requires GroupOk(cfg, g) && g.dataStart <= hi <= g.dataStart + g.dataPop
    ensures forall e :: e in g.DataGp(hi) ==> IsPmc(cfg, e.regId)
  {
    forall e | e in g.DataGp(hi)
      ensures IsPmc(cfg, e.regId)
    {
      g.DataGpVisits(hi, e);
    }
  }

  /** A position of the data range of a well-formed group. */
  ghost predicate InData(cfg: Config, table: seq<U64>, group: nat, i: nat) {
    && ConfigOk(cfg) && group < |cfg.groups| && |table| == TableSize(cfg)
    && cfg.groups[group].dataStart <= i <= cfg.groups[group].dataStart + cfg.groups[group].dataPop
  }

  /** The save area once the save loop has reached entry i. */
  function SavedTo(cfg: Config, table: seq<U64>, group: nat, i: nat, msr: Msrs): (t: seq<U64>)
    requires InData(cfg, table, group, i)
    ensures |t| == |table|
  {
    PrefixIsPmc(cfg, cfg.groups[group], i);
    Save(cfg, table, group, cfg.groups[group].DataGp(i), msr)
  }

  /** The save area once the initial loop over a group has reached entry i. */
  function InitializedTo(cfg: Config, table: seq<U64>, group: nat, i: nat): (t: seq<U64>)
    requires InData(cfg, table, group, i)
    ensures |t| == |table|
  {
    PrefixIsPmc(cfg, cfg.groups[group], i);
    InitGroup(cfg, table, group, cfg.groups[group].DataGp(i))
  }

  /** The registers once the restore loop has reached entry i. */
  function RestoredTo(cfg: Config, table: seq<U64>, group: nat, i: nat, msr: Msrs): Msrs
    requires InData(cfg, table, group, i)
  {
    PrefixIsPmc(cfg, cfg.groups[group], i);
    Apply(msr, RestoreWrites(cfg, table, group, cfg.groups[group].DataGp(i)))
  }

  /** What the loops after the errata routine make of the registers: event selects, restored counters, ESCRs. */
  function Loaded(cfg: Config, msr: Msrs, table: seq<U64>, group: nat): Msrs
    requires ConfigOk(cfg) && group < |cfg.groups| && |table| == TableSize(cfg)
  {
    var g := cfg.groups[group];
    var selected := Apply(msr, Reloads(g.CccrGp(g.cccrStart + g.cccrPop)));
    Apply(RestoredTo(cfg, table, group, g.dataStart + g.dataPop, selected), Reloads(g.Escr(g.escrStart + g.escrPop)))
  }

  lemma ProgramIs(cfg: Config, msr: Msrs, table: seq<U64>, group: nat, noise: seq<RegWrite>)
    requires ConfigOk(cfg) && group < |cfg.groups| && |table| == TableSize(cfg)
    ensures Program(cfg, msr, table, group, noise) == Loaded(cfg, HwErrata(cfg, msr, noise), table, group)
  {}

  /** One iteration of the three loops. */
  lemma LoopStep(cfg: Config, table: seq<U64>, group: nat, i: nat, msr: Msrs)
    requires InData(cfg, table, group, i) && InData(cfg, table, group, i + 1)
    ensures var e := cfg.groups[group].entries[i];
            if e.isGp then
              && IsPmc(cfg, e.regId) && Slot(cfg, group, e.regId) < |table|
              && SavedTo(cfg, table, group, i + 1, msr)
                 == SavedTo(cfg, table, group, i, msr)[Slot(cfg, group, e.regId) := Read(msr, e.regId)]
              && InitializedTo(cfg, table, group, i + 1)
                 == InitializedTo(cfg, table, group, i)[Slot(cfg, group, e.regId) := e.regValue]
              && RestoredTo(cfg, table, group, i + 1, msr)
                 == RestoredTo(cfg, table, group, i, msr)[e.regId := table[Slot(cfg, group, e.regId)]]
            else
              && SavedTo(cfg, table, group, i + 1, msr) == SavedTo(cfg, table, group, i, msr)
              && InitializedTo(cfg, table, group, i + 1) == InitializedTo(cfg, table, group, i)
              && RestoredTo(cfg, table, group, i + 1, msr) == RestoredTo(cfg, table, group, i, msr)
  {
    var g := cfg.groups[group];
    PrefixIsPmc(cfg, g, i);
    PrefixIsPmc(cfg, g, i + 1);
    var e := g.entries[i];
    if e.isGp {
      assert DataEntryOk(cfg, e);
      SlotInTable(cfg, group, e.regId);
      assert g.DataGp(i + 1)[..|g.DataGp(i + 1)| - 1] == g.DataGp(i);
      ApplySnoc(msr, RestoreWrites(cfg, table, group, g.DataGp(i)), RegWrite(e.regId, table[Slot(cfg, group, e.regId)]));
    } else {
      assert g.DataGp(i + 1) == g.DataGp(i);
    }
  }

  /** One round of the initial loop over the groups. */
  lemma InitTableStep(cfg: Config, table: seq<U64>, j: nat)
    requires ConfigOk(cfg) && |table| == TableSize(cfg) && j < |cfg.groups|
    ensures var end := cfg.groups[j].dataStart + cfg.groups[j].dataPop;
            && InData(cfg, InitTable(cfg, table, j), j, end)
            && InitTable(cfg, table, j + 1) == InitializedTo(cfg, InitTable(cfg, table, j), j, end)
  {
    assert GroupOk(cfg, cfg.groups[j]);
  }

  /** One iteration of the restore loop. */
  lemma RestoreStep(cfg: Config, table: seq<U64>, group: nat, i: nat, msr: Msrs)
    requires InData(cfg, table, group, i) && InData(cfg, table, group, i + 1)
    ensures var e := cfg.groups[group].entries[i];
            && (e.isGp ==> IsPmc(cfg, e.regId) && Slot(cfg, group, e.regId) < |table|)
            && RestoredTo(cfg, table, group, i + 1, msr)
               == if e.isGp then RestoredTo(cfg, table, group, i, msr)[e.regId := table[Slot(cfg, group, e.regId)]]
                  else RestoredTo(cfg, table, group, i, msr)
  {
    LoopStep(cfg, table, group, i, msr);
  }

  /** One iteration of the event-select and ESCR loops. */
  lemma ControlStep(g: Ecb, i: nat, msr: Msrs)
    requires g.InRange()
    requires g.cccrStart <= i < g.cccrStart + g.cccrPop
    ensures Apply(msr, Reloads(g.CccrGp(i + 1))) ==
            if g.entries[i].isGp then Apply(msr, Reloads(g.CccrGp(i)))[g.entries[i].regId := g.entries[i].regValue]
            else Apply(msr, Reloads(g.CccrGp(i)))
  {
    var e := g.entries[i];
    if e.isGp {
      assert Reloads(g.CccrGp(i + 1)) == Reloads(g.CccrGp(i)) + [RegWrite(e.regId, e.regValue)];
      ApplySnoc(msr, Reloads(g.CccrGp(i)), RegWrite(e.regId, e.regValue));
    } else {
      assert g.CccrGp(i + 1) == g.CccrGp(i);
    }
  }

  lemma EscrStep(g: Ecb, i: nat, msr: Msrs)
    requires g.InRange()
    requires g.escrStart <= i < g.escrStart + g.escrPop
    ensures Apply(msr, Reloads(g.Escr(i + 1))) ==
            if g.entries[i].regId != 0 then Apply(msr, Reloads(g.Escr(i)))[g.entries[i].regId := g.entries[i].regValue]
            else Apply(msr, Reloads(g.Escr(i)))
  {
    var e := g.entries[i];
    if e.regId != 0 {
      assert Reloads(g.Escr(i + 1)) == Reloads(g.Escr(i)) + [RegWrite(e.regId, e.regValue)];
      ApplySnoc(msr, Reloads(g.Escr(i)), RegWrite(e.regId, e.regValue));
    } else {
      assert g.Escr(i + 1) == g.Escr(i);
    }
  }

  /** What the overflow loop records. */
  lemma ScanRecords(cfg: Config, g: Ecb, status: set<nat>, msr: Msrs)
    requires GroupOk(cfg, g) && cfg.maxGp <= 8
    ensures ScanTo(cfg, g, g.dataStart + g.dataPop, status, msr).masks
         == Cut(Events(Hits(cfg, g.DataRegs(), status, Read(msr, IA32_FIXED_CTR1))))
  {
    ScanIsExact(cfg, g, g.dataStart + g.dataPop, status, msr);
  }

  class CpuState {
    const cfg: Config
    const emTables: array<U64>
    const base: nat
    const size: nat
    var msr: Msrs
    var currentGroup: nat
    var triggerCount: int
    var resetMask: U64
    var groupSwap: bool

    ghost predicate InArea()
      reads this
    {
      base + size <= emTables.Length
    }

    /** The state the specifications talk about. */
    ghost function State(): Pmu
      requires InArea()
      reads this, emTables
    {
      Pmu(msr, emTables[base..base + size], currentGroup, triggerCount, resetMask, groupSwap)
    }

    ghost predicate Ok()
      reads this, emTables
    {
      InArea() && size == TableSize(cfg) && Multiplexing.Valid(cfg, State())
    }

    /** Nothing outside this CPU's slice of the save area has changed. */
    twostate predicate OthersUntouched()
      requires old(InArea())
      reads this, emTables
    {
      && InArea()
      && (forall k :: 0 <= k < base ==> emTables[k] == old(emTables[k]))
      && (forall k :: base + size <= k < emTables.Length ==> emTables[k] == old(emTables[k]))
    }

    /** eventmux_Allocate_Groups: this CPU's tables start at its multiple of the slice size. */
    constructor (cfg: Config, emTables: array<U64>, cpu: nat, msr: Msrs)
      requires ConfigOk(cfg) && (cpu + 1) * TableSize(cfg) <= emTables.Length
      ensures this.cfg == cfg && this.emTables == emTables && base == cpu * TableSize(cfg)
      ensures Ok() && currentGroup == 0 && triggerCount == cfg.emFactor && this.msr == msr
    {
      this.cfg := cfg;
      this.emTables := emTables;
      base := cpu * TableSize(cfg);
      size := TableSize(cfg);
      this.msr := msr;
      currentGroup := 0;
      triggerCount := cfg.emFactor;
      resetMask := 0;
      groupSwap := true;
      new;
      assert (cpu + 1) * TableSize(cfg) == cpu * TableSize(cfg) + TableSize(cfg);
    }

    method StoreSlot(slot: nat, value: U64)
      requires InArea() && slot < size
      modifies emTables
      ensures OthersUntouched()
      ensures State() == old(State()).(table := old(State()).table[slot := value])
    {
      emTables[base + slot] := value;
      assert emTables[base..base + size] == old(emTables[base..base + size])[slot := value];
    }

    /** A group's value of one general counter, at its place in the save area. */
    method StoreEntry(group: nat, r: Reg, value: U64)
      requires InArea() && IsPmc(cfg, r) && Slot(cfg, group, r) < size
      modifies emTables
      ensures OthersUntouched()
      ensures State() == old(State()).(table := old(State()).table[Slot(cfg, group, r) := value])
    {
      SlotIndex(cfg, group, r);
      var stIndex := group * cfg.maxGp;
      StoreSlot(stIndex + (r - IA32_PMC0), value);
    }

    /** One iteration of the save loop (core2.c:713-714). */
    method SaveEntry(g: Ecb, i: nat, ghost table: seq<U64>)
      requires InArea() && InData(cfg, table, currentGroup, i) && InData(cfg, table, currentGroup, i + 1)
      requires g == cfg.groups[currentGroup] && size == |table|
      requires State().table == SavedTo(cfg, table, currentGroup, i, msr)
      modifies emTables
      ensures OthersUntouched()
      ensures State() == old(State()).(table := SavedTo(cfg, table, currentGroup, i + 1, msr))
    {
      LoopStep(cfg, table, currentGroup, i, msr);
      var e := g.entries[i];
      if e.isGp {
        StoreEntry(currentGroup, e.regId, Read(msr, e.regId));
      }
    }

    /** The save loop of core2_Swap_Group (core2.c:712-718). */
    method SaveGroup()
      requires Ok()
      modifies emTables
      ensures OthersUntouched() && Ok()
      ensures forall e :: e in cfg.groups[currentGroup].GpCounters() ==> IsPmc(cfg, e.regId)
      ensures State() == old(State()).(table :=
                Save(cfg, old(State()).table, currentGroup, cfg.groups[currentGroup].GpCounters(), msr))
    {
      var g := cfg.groups[currentGroup];
      PrefixIsPmc(cfg, g, g.dataStart + g.dataPop);
      ghost var table := State().table;
      var i := g.dataStart;
      while i < g.dataStart + g.dataPop
        invariant InData(cfg, table, currentGroup, i)
        invariant OthersUntouched()
        invariant State() == old(State()).(table := SavedTo(cfg, table, currentGroup, i, msr))
      {
        SaveEntry(g, i, table);
        i := i + 1;
      }
    }

    /** corei7_Errata_Fix, when the dispatch table has it; `noise` is what hardware does meanwhile. */
    method HwErrataFix(noise: seq<RegWrite>)
      modifies this`msr
      ensures msr == HwErrata(cfg, old(msr), noise)
    {
      if cfg.hwErrata {
        if cfg.pebsMode {
          msr := msr[IA32_PEBS_ENABLE := 0];
        }
        WriteAll(ERRATA_ARM);
        WriteAll(noise);
        WriteAll(ERRATA_CLEAR);
        ghost var pebs := if cfg.pebsMode then [RegWrite(IA32_PEBS_ENABLE, 0)] else [];
        ApplyConcat(old(msr), pebs + ERRATA_ARM + noise, ERRATA_CLEAR);
        ApplyConcat(old(msr), pebs + ERRATA_ARM, noise);
        ApplyConcat(old(msr), pebs, ERRATA_ARM);
      }
    }

    method WriteAll(ws: seq<RegWrite>)
      modifies this`msr
      ensures msr == Apply(old(msr), ws)
    {
      for i := 0 to |ws|
        invariant msr == Apply(old(msr), ws[..i])
      {
        assert ws[..i + 1] == ws[..i] + [ws[i]];
        ApplySnoc(old(msr), ws[..i], ws[i]);
        msr := msr[ws[i].reg := ws[i].value];
      }
      assert ws[..|ws|] == ws;
    }

    /** The event-select loop of core2_Swap_Group (core2.c:728-730). */
    method WriteControls()
      requires currentGroup < |cfg.groups| && GroupOk(cfg, cfg.groups[currentGroup])
      modifies this`msr
      ensures var g := cfg.groups[currentGroup];
              msr == Apply(old(msr), Reloads(g.CccrGp(g.cccrStart + g.cccrPop)))
    {
      var g := cfg.groups[currentGroup];
      var i := g.cccrStart;
      assert Reloads(g.CccrGp(i)) == [];
      while i < g.cccrStart + g.cccrPop
        invariant g.cccrStart <= i <= g.cccrStart + g.cccrPop
        invariant msr == Apply(old(msr), Reloads(g.CccrGp(i)))
      {
        ControlStep(g, i, old(msr));
        var e := g.entries[i];
        if e.isGp {
          msr := msr[e.regId := e.regValue];
        }
        i := i + 1;
      }
    }

    /** The ESCR loop of core2_Swap_Group (core2.c:752-754). */
    method WriteEscrs()
      requires currentGroup < |cfg.groups| && GroupOk(cfg, cfg.groups[currentGroup])
      modifies this`msr
      ensures var g := cfg.groups[currentGroup];
              msr == Apply(old(msr), Reloads(g.Escr(g.escrStart + g.escrPop)))
    {
      var g := cfg.groups[currentGroup];
      var i := g.escrStart;
      assert Reloads(g.Escr(i)) == [];
      while i < g.escrStart + g.escrPop
        invariant g.escrStart <= i <= g.escrStart + g.escrPop
        invariant msr == Apply(old(msr), Reloads(g.Escr(i)))
      {
        EscrStep(g, i, old(msr));
        var e := g.entries[i];
        if e.regId != 0 {
          msr := msr[e.regId := e.regValue];
        }
        i := i + 1;
      }
    }

    /** One iteration of the restore loop (core2.c:744-745). */
    method RestoreEntry(e: Entry)
      requires InArea()
      requires e.isGp ==> IsPmc(cfg, e.regId) && Slot(cfg, currentGroup, e.regId) < size
      modifies this`msr
      ensures msr == if e.isGp then old(msr)[e.regId := State().table[Slot(cfg, currentGroup, e.regId)]] else old(msr)
    {
      if e.isGp {
        SlotIndex(cfg, currentGroup, e.regId);
        var index := currentGroup * cfg.maxGp + (e.regId - IA32_PMC0);
        msr := msr[e.regId := emTables[base + index]];
      }
    }

    /** The restore loop of core2_Swap_Group (core2.c:742-749). */
    method RestoreGroup(ghost g: Ecb, ghost table: seq<U64>)
      requires InArea() && size == TableSize(cfg) && ConfigOk(cfg) && currentGroup < |cfg.groups|
      requires g == cfg.groups[currentGroup] && table == State().table
      modifies this`msr
      ensures InData(cfg, table, currentGroup, g.dataStart + g.dataPop)
      ensures msr == RestoredTo(cfg, table, currentGroup, g.dataStart + g.dataPop, old(msr))
    {
      var ecb := cfg.groups[currentGroup];
      var i := ecb.dataStart;
      while i < ecb.dataStart + ecb.dataPop
        invariant InData(cfg, table, currentGroup, i)
        invariant msr == RestoredTo(cfg, table, currentGroup, i, old(msr))
      {
        RestoreStep(cfg, table, currentGroup, i, old(msr));
        RestoreEntry(ecb.entries[i]);
        i := i + 1;
      }
    }

    /** The three loops after the errata routine (core2.c:727-754). */
    method LoadGroup(ghost table: seq<U64>)
      requires InArea() && size == TableSize(cfg) && ConfigOk(cfg) && currentGroup < |cfg.groups| && table == State().table
      modifies this`msr
      ensures msr == Loaded(cfg, old(msr), table, currentGroup)
    {
      WriteControls();
      RestoreGroup(cfg.groups[currentGroup], table);
      WriteEscrs();
    }

    /** The second half of core2_Swap_Group: program the group that comes (core2.c:723-754). */
    method ProgramGroup(noise: seq<RegWrite>, ghost table: seq<U64>)
      requires InArea() && size == TableSize(cfg) && ConfigOk(cfg) && currentGroup < |cfg.groups| && table == State().table
      modifies this`msr
      ensures msr == Program(cfg, old(msr), table, currentGroup, noise)
    {
      ProgramIs(cfg, msr, table, currentGroup, noise);
      HwErrataFix(noise);
      LoadGroup(table);
    }

    /** core2_Swap_Group. */
    method SwapGroup(noise: seq<RegWrite>)
      requires Ok()
      modifies this, emTables
      ensures Ok() && OthersUntouched()
      ensures State() == Multiplexing.Swap(cfg, old(State()), noise)
      ensures Programmed(cfg.groups[currentGroup], msr)
    {
      var nextGroup := currentGroup + 1;
      if nextGroup >= |cfg.groups| {
        nextGroup := 0;
      }
      SaveGroup();
      currentGroup := nextGroup;
      ProgramGroup(noise, State().table);
      triggerCount := cfg.emFactor;
      resetMask := 0;
      groupSwap := true;
      SwapLeavesProgrammed(cfg, old(State()), noise);
    }

    /** The loop of core2_Check_Overflow (core2.c:609-662). */
    method ScanData(status: set<nat>) returns (masks: seq<OverflowEvent>)
      requires currentGroup < |cfg.groups| && cfg.groups[currentGroup].InRange()
      modifies this`msr, this`triggerCount
      ensures var g := cfg.groups[currentGroup];
              var s := ScanTo(cfg, g, g.dataStart + g.dataPop, status, old(msr));
              masks == s.masks && msr == s.msr && triggerCount == old(triggerCount) - s.triggers
    {
      var g := cfg.groups[currentGroup];
      var running := status;
      masks := [];
      var i := g.dataStart;
      ghost var s := Scan(status, msr, [], 0);
      while i < g.dataStart + g.dataPop
        invariant g.dataStart <= i <= g.dataStart + g.dataPop
        invariant s == ScanTo(cfg, g, i, status, old(msr))
        invariant running == s.status && masks == s.masks
        invariant msr == s.msr && triggerCount == old(triggerCount) - s.triggers
      {
        var e := g.entries[i];
        if e.regId != 0 {
          s := Visit(cfg, e, s);
          if e.isFixed && cfg.fixedErrata {
            running := FixedErrata(cfg, e, running, msr);
          }
          var bit := BitOf(e);
          if bit.Bit? && bit.index in running {
            msr := msr[e.regId := e.regValue];
            if |masks| < MAX_OVERFLOW_EVENTS {
              masks := masks + [EventOf(e)];
            }
            if e.eventIdx == cfg.triggerEvent {
              triggerCount := triggerCount - 1;
            }
          }
        }
        i := i + 1;
      }
    }

    /** core2_Check_Overflow; returns the event list. */
    method CheckOverflow(status: set<nat>, clear: U64) returns (masks: seq<OverflowEvent>)
      requires Ok()
      modifies this
      ensures Ok()
      ensures State() == Overflow.CheckOverflow(cfg, old(State()), status, clear)
      ensures var g := cfg.groups[currentGroup];
              g.InRange() && masks == ScanTo(cfg, g, g.dataStart + g.dataPop, status, old(msr)).masks
      ensures masks == Cut(Events(Hits(cfg, cfg.groups[currentGroup].DataRegs(), status, old(Read(msr, IA32_FIXED_CTR1)))))
    {
      ScanRecords(cfg, cfg.groups[currentGroup], status, msr);
      masks := ScanData(status);
      resetMask := clear;
      msr := msr[IA32_PERF_GLOBAL_OVF_CTRL := clear];
    }

    /** The counter part of PMI_Interrupt_Handler (pmi.c:356, pmi.c:479-481). */
    method HandleInterrupt(status: set<nat>, clear: U64, noise: seq<RegWrite>) returns (masks: seq<OverflowEvent>)
      requires Ok()
      modifies this, emTables
      ensures Ok() && OthersUntouched()
      ensures State() == Handle(cfg, old(State()), status, clear, noise)
      ensures masks == Cut(Events(Hits(cfg, cfg.groups[old(currentGroup)].DataRegs(), status, old(Read(msr, IA32_FIXED_CTR1)))))
    {
      masks := CheckOverflow(status, clear);
      if triggerCount == 0 {
        SwapGroup(noise);
      }
    }

    /** core2_Write_PMU. */
    method WritePmu(noise: seq<RegWrite>)
      requires Ok()
      modifies this, emTables
      ensures Ok() && OthersUntouched()
      ensures State() == Multiplexing.WritePmu(cfg, old(State()), noise)
    {
      if currentGroup == 0 {
        InitTables();
      }
      HwErrataFix(noise);
      WriteEntries(cfg.groups[currentGroup].entries);
    }

    /** The register loop of core2_Write_PMU (core2.c:291-322). */
    method WriteEntries(es: seq<Entry>)
      modifies this`msr
      ensures msr == Apply(old(msr), InitialWrites(cfg, es, |es|))
    {
      for i := 0 to |es|
        invariant msr == Apply(old(msr), InitialWrites(cfg, es, i))
      {
        var e := es[i];
        if e.regId != 0 {
          ApplySnoc(old(msr), InitialWrites(cfg, es, i), RegWrite(e.regId, InitialValue(cfg, e)));
          msr := msr[e.regId := InitialValue(cfg, e)];
        } else {
          assert InitialWrites(cfg, es, i + 1) == InitialWrites(cfg, es, i);
        }
      }
    }

    /** The initial save-area loop of core2_Write_PMU (core2.c:274-281). */
    method InitTables()
      requires InArea() && size == TableSize(cfg) && ConfigOk(cfg)
      modifies emTables
      ensures OthersUntouched()
      ensures State() == old(State()).(table := InitTable(cfg, old(State()).table, |cfg.groups|))
    {
      ghost var table := State().table;
      for j := 0 to |cfg.groups|
        invariant OthersUntouched()
        invariant State() == old(State()).(table := InitTable(cfg, table, j))
      {
        InitTableStep(cfg, table, j);
        InitOneGroup(j);
      }
    }

    method InitOneGroup(j: nat)
      requires InArea() && size == TableSize(cfg) && ConfigOk(cfg) && j < |cfg.groups|
      modifies emTables
      ensures OthersUntouched()
      ensures var end := cfg.groups[j].dataStart + cfg.groups[j].dataPop;
              && InData(cfg, old(State()).table, j, end)
              && State() == old(State()).(table := InitializedTo(cfg, old(State()).table, j, end))
    {
      var g := cfg.groups[j];
      ghost var table := State().table;
      var i := g.dataStart;
      while i < g.dataStart + g.dataPop
        invariant InData(cfg, table, j, i)
        invariant OthersUntouched()
        invariant State() == old(State()).(table := InitializedTo(cfg, table, j, i))
      {
        InitEntry(g, j, i, table);
        i := i + 1;
      }
    }

    /** One iteration of the initial loop (core2.c:278-279). */
    method InitEntry(g: Ecb, j: nat, i: nat, ghost table: seq<U64>)
      requires InArea() && InData(cfg, table, j, i) && InData(cfg, table, j, i + 1)
      requires g == cfg.groups[j] && size == |table|
      requires State().table == InitializedTo(cfg, table, j, i)
      modifies emTables
      ensures OthersUntouched()
      ensures State() == old(State()).(table := InitializedTo(cfg, table, j, i + 1))
    {
      LoopStep(cfg, table, j, i, map[]);
      var e := g.entries[i];
      if e.isGp {
        StoreEntry(j, e.regId, e.regValue);
      }
    }
  }
}
