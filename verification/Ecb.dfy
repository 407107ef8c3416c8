/** Event control blocks, model-specific registers and the register walks of ecb_iterators.h. */
module EventControl {
  // A bank of registers is a finite map; a register nobody has written reads as 0. A bit mask such as the overflow
  // status is the set of its bit positions.

  const TWO_64 := 0x1_0000_0000_0000_0000
  type U64 = x: int | 0 <= x < TWO_64
  type Reg = nat
  type Msrs = map<Reg, U64>

  const IA32_PMC0: Reg := 0xC1
  const IA32_FIXED_CTR0: Reg := 0x309
  const IA32_FIXED_CTR1: Reg := 0x30A
  const IA32_FIXED_CTR2: Reg := 0x30B
  const IA32_PERF_GLOBAL_CTRL: Reg := 0x38F
  const IA32_PERF_GLOBAL_OVF_CTRL: Reg := 0x390
  const IA32_DEBUG_CTRL: Reg := 0x1D9
  const IA32_PEBS_ENABLE: Reg := 0x3F1
  const COMPOUND_CTR_CTL: Reg := 0x306
  const COMPOUND_CTR_OVF_SHIFT: nat := 12
  const MAX_OVERFLOW_EVENTS: nat := 11

  /** One register of an event group.  `maxBits` is an all-ones mask of the counter's width. */
  datatype Entry = Entry(
    regId: Reg,
    regValue: U64,
    eventIdx: int,
    maxBits: U64,
    isGp: bool,
    isFixed: bool,
    isCompound: bool,
    isCompoundSub: bool,
    precise: bool,
    lbr: bool,
    uncore: bool)

  /** An event group: the registers to program and the three ranges the walks visit. */
  datatype Ecb = Ecb(
    entries: seq<Entry>,
    cccrStart: nat, cccrPop: nat,
    escrStart: nat, escrPop: nat,
    dataStart: nat, dataPop: nat)
  {
    predicate InRange() {
      && cccrStart + cccrPop <= |entries|
      && escrStart + escrPop <= |entries|
      && dataStart + dataPop <= |entries|
    }

    /** FOR_EACH_DATA_GP_REG, as the entries it visits below index `hi`. */
    function DataGp(hi: nat): seq<Entry>
      requires dataStart <= hi <= |entries|
    {
      if hi == dataStart then []
      else
        DataGp(hi - 1) + (if entries[hi - 1].isGp then [entries[hi - 1]] else [])
    }

    /** FOR_EACH_DATA_REG. */
    function Data(hi: nat): seq<Entry>
      requires dataStart <= hi <= |entries|
    {
      if hi == dataStart then []
      else
        Data(hi - 1) + (if entries[hi - 1].regId != 0 then [entries[hi - 1]] else [])
    }

    /** FOR_EACH_CCCR_GP_REG. */
    function CccrGp(hi: nat): seq<Entry>
      requires cccrStart <= hi <= |entries|
    {
      if hi == cccrStart then []
      else
        CccrGp(hi - 1) + (if entries[hi - 1].isGp then [entries[hi - 1]] else [])
    }

    /** FOR_EACH_ESCR_REG. */
    function Escr(hi: nat): seq<Entry>
      requires escrStart <= hi <= |entries|
    {
      if hi == escrStart then []
      else
        Escr(hi - 1) + (if entries[hi - 1].regId != 0 then [entries[hi - 1]] else [])
    }

    lemma {:induction false} DataGpVisits(hi: nat, e: Entry)
      requires dataStart <= hi <= |entries|
      ensures e in DataGp(hi) <==> e.isGp && exists i :: dataStart <= i < hi && entries[i] == e
    {
      if hi > dataStart {
        DataGpVisits(hi - 1, e);
      }
    }

    lemma {:induction false} DataVisits(hi: nat, e: Entry)
      requires dataStart <= hi <= |entries|
      ensures e in Data(hi) <==> e.regId != 0 && exists i :: dataStart <= i < hi && entries[i] == e
    {
      if hi > dataStart {
        DataVisits(hi - 1, e);
      }
    }

    lemma {:induction false} CccrGpVisits(hi: nat, e: Entry)
      requires cccrStart <= hi <= |entries|
      ensures e in CccrGp(hi) <==> e.isGp && exists i :: cccrStart <= i < hi && entries[i] == e
    {
      if hi > cccrStart {
        CccrGpVisits(hi - 1, e);
      }
    }

    lemma {:induction false} EscrVisits(hi: nat, e: Entry)
      requires escrStart <= hi <= |entries|
      ensures e in Escr(hi) <==> e.regId != 0 && exists i :: escrStart <= i < hi && entries[i] == e
    {
      if hi > escrStart {
        EscrVisits(hi - 1, e);
      }
    }

    function GpCounters(): seq<Entry>
      requires InRange()
    {
      DataGp(dataStart + dataPop)
    }

    function DataRegs(): seq<Entry>
      requires InRange()
    {
      Data(dataStart + dataPop)
    }
  }

  function Read(m: Msrs, r: Reg): U64 {
    if r in m then m[r] else 0
  }

  datatype RegWrite = RegWrite(reg: Reg, value: U64)

  /** The registers after the writes `ws`, in order. */
  function Apply(m: Msrs, ws: seq<RegWrite>): Msrs {
    if ws == [] then m
    else
      var w := ws[|ws| - 1];
      Apply(m, ws[..|ws| - 1])[w.reg := w.value]
  }

  lemma ApplySnoc(m: Msrs, ws: seq<RegWrite>, w: RegWrite)
    ensures Apply(m, ws + [w]) == Apply(m, ws)[w.reg := w.value]
  {
    assert (ws + [w])[..|ws|] == ws;
  }

  /** A register that no write names keeps its value. */
  lemma {:induction false} ApplyElsewhere(m: Msrs, ws: seq<RegWrite>, r: Reg)
    requires forall w :: w in ws ==> w.reg != r
    ensures Read(Apply(m, ws), r) == Read(m, r)
  {
    if ws != [] {
      assert ws[|ws| - 1] in ws;
      ApplyElsewhere(m, ws[..|ws| - 1], r);
    }
  }

  /** A register that is written, always with the same value, ends with that value. */
  lemma {:induction false} ApplyTarget(m: Msrs, ws: seq<RegWrite>, r: Reg, v: U64)
    requires exists w :: w in ws && w.reg == r
    requires forall w :: w in ws && w.reg == r ==> w.value == v
    ensures Read(Apply(m, ws), r) == v
  {
    var last := ws[|ws| - 1];
    assert last in ws;
    if last.reg != r {
      var w :| w in ws && w.reg == r;
      assert w in ws[..|ws| - 1];
      ApplyTarget(m, ws[..|ws| - 1], r, v);
    }
  }

  /** The reload writes of a list of entries. */
  function Reloads(es: seq<Entry>): (ws: seq<RegWrite>)
    ensures |ws| == |es|
    ensures forall i :: 0 <= i < |es| ==> ws[i] == RegWrite(es[i].regId, es[i].regValue)
  {
    seq(|es|, i requires 0 <= i < |es| => RegWrite(es[i].regId, es[i].regValue))
  }
}
