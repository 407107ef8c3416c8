/**
  The overflow scan (core2_Check_Overflow): one pass over the data registers of the current
  group that records and reloads the registers whose status bit is set when they are visited.
 */
module Overflow {
  import opened EventControl
  import opened Multiplexing

  datatype StatusBit = NoBit | Bit(index: nat)

  /** The status bit a data register answers to (core2.c:610-627). */
  function BitOf(e: Entry): StatusBit {
    if e.isFixed then
      if e.regId >= IA32_FIXED_CTR0 then Bit(e.regId - IA32_FIXED_CTR0 + 0x20) else NoBit
    else if e.isCompoundSub then NoBit
    else if e.isCompound then Bit(COMPOUND_CTR_OVF_SHIFT)
    else if e.isGp then
      if e.regId >= IA32_PMC0 then Bit(e.regId - IA32_PMC0) else NoBit
    else NoBit
  }

  datatype OverflowEvent = OverflowEvent(eventIdx: int, precise: bool, lbr: bool, uncore: bool)

  function EventOf(e: Entry): OverflowEvent {
    OverflowEvent(e.eventIdx, e.precise, e.lbr, e.uncore)
  }

  const FIXED_CTR1_BIT: nat := 33

  /** Fixed counter 1 counts as overflowed when it reads below its reload value. */
  predicate BelowReload(e: Entry, value: U64) {
    e.regId == IA32_FIXED_CTR1 && value % (e.maxBits + 1) < e.regValue
  }

  /** core2_Check_Overflow_Errata. */
  function FixedErrata(cfg: Config, e: Entry, status: set<nat>, msr: Msrs): set<nat> {
    if cfg.numEvents == 1 then status
    else if FIXED_CTR1_BIT !in status && BelowReload(e, Read(msr, IA32_FIXED_CTR1))
    then status + {FIXED_CTR1_BIT}
    else status
  }

  datatype Scan = Scan(status: set<nat>, msr: Msrs, masks: seq<OverflowEvent>, triggers: nat)

  /** One iteration of the scan. */
  function Visit(cfg: Config, e: Entry, s: Scan): Scan {
    var status := if e.isFixed && cfg.fixedErrata then FixedErrata(cfg, e, s.status, s.msr) else s.status;
    var bit := BitOf(e);
    if bit.Bit? && bit.index in status then
      Scan(status,
           s.msr[e.regId := e.regValue],
           if |s.masks| < MAX_OVERFLOW_EVENTS then s.masks + [EventOf(e)] else s.masks,
           if e.eventIdx == cfg.triggerEvent then s.triggers + 1 else s.triggers)
    else s.(status := status)
  }

  /** The scan over the data registers below index `hi`. */
  function ScanTo(cfg: Config, g: Ecb, hi: nat, status: set<nat>, msr: Msrs): Scan
    requires g.dataStart <= hi <= |g.entries|
  {
    if hi == g.dataStart then Scan(status, msr, [], 0)
    else
      var s := ScanTo(cfg, g, hi - 1, status, msr);
      if g.entries[hi - 1].regId == 0 then s else Visit(cfg, g.entries[hi - 1], s)
  }

  /**
    Which registers overflowed, read off the status and fixed counter 1 as they are before
    the scan.
   */
  predicate Overflowed(cfg: Config, e: Entry, status: set<nat>, fixed1: U64) {
    && BitOf(e).Bit?
    && (|| BitOf(e).index in status
        || (e.isFixed && cfg.fixedErrata && cfg.numEvents != 1 && BelowReload(e, fixed1)))
  }

  /** The registers of `es` that overflowed, in order. */
  function Hits(cfg: Config, es: seq<Entry>, status: set<nat>, fixed1: U64): seq<Entry> {
    if es == [] then []
    else
      var e := es[|es| - 1];
      Hits(cfg, es[..|es| - 1], status, fixed1) + (if Overflowed(cfg, e, status, fixed1) then [e] else [])
  }

  function Events(es: seq<Entry>): (evs: seq<OverflowEvent>)
    ensures |evs| == |es|
  {
    seq(|es|, i requires 0 <= i < |es| => EventOf(es[i]))
  }

  /** The event list holds at most MAX_OVERFLOW_EVENTS entries. */
  function Cut(evs: seq<OverflowEvent>): seq<OverflowEvent> {
    if |evs| <= MAX_OVERFLOW_EVENTS then evs else evs[..MAX_OVERFLOW_EVENTS]
  }

  function Triggers(cfg: Config, es: seq<Entry>): nat {
    if es == [] then 0
    else Triggers(cfg, es[..|es| - 1]) + (if es[|es| - 1].eventIdx == cfg.triggerEvent then 1 else 0)
  }

  lemma {:induction false} HitsAre(cfg: Config, es: seq<Entry>, status: set<nat>, fixed1: U64, e: Entry)
    ensures e in Hits(cfg, es, status, fixed1) <==> e in es && Overflowed(cfg, e, status, fixed1)
  {
    if es != [] {
      assert es == es[..|es| - 1] + [es[|es| - 1]];
      HitsAre(cfg, es[..|es| - 1], status, fixed1, e);
    }
  }

  lemma HitsSnoc(cfg: Config, es: seq<Entry>, e: Entry, status: set<nat>, fixed1: U64)
    ensures Hits(cfg, es + [e], status, fixed1)
         == var hits := Hits(cfg, es, status, fixed1); if Overflowed(cfg, e, status, fixed1) then hits + [e] else hits
  {
    assert (es + [e])[..|es|] == es;
  }

  /** Appending one hit extends the reloads, the event list and the trigger count by that hit. */
  lemma HitRecorded(cfg: Config, hits: seq<Entry>, e: Entry, msr: Msrs)
    ensures Apply(msr, Reloads(hits + [e])) == Apply(msr, Reloads(hits))[e.regId := e.regValue]
    ensures Cut(Events(hits + [e]))
         == var m := Cut(Events(hits)); if |m| < MAX_OVERFLOW_EVENTS then m + [EventOf(e)] else m
    ensures Triggers(cfg, hits + [e]) == Triggers(cfg, hits) + (if e.eventIdx == cfg.triggerEvent then 1 else 0)
  {
    assert Reloads(hits + [e]) == Reloads(hits) + [RegWrite(e.regId, e.regValue)];
    ApplySnoc(msr, Reloads(hits), RegWrite(e.regId, e.regValue));
    assert Events(hits + [e]) == Events(hits) + [EventOf(e)];
    assert (hits + [e])[..|hits|] == hits;
  }

  /** No earlier data register is `g.entries[hi]` over again. */
  lemma FreshRegister(cfg: Config, g: Ecb, hi: nat, e: Entry)
    requires GroupOk(cfg, g) && g.dataStart <= hi < g.dataStart + g.dataPop
    requires e in g.Data(hi)
    ensures e.regId != g.entries[hi].regId
  {
    g.DataVisits(hi, e);
  }

  /** Fixed counter 1 still has its old value when the scan reaches it. */
  lemma Fixed1Unread(cfg: Config, g: Ecb, hi: nat, status: set<nat>, msr: Msrs)
    requires GroupOk(cfg, g) && g.dataStart <= hi < g.dataStart + g.dataPop
    requires g.entries[hi].regId == IA32_FIXED_CTR1
    ensures var hits := Hits(cfg, g.Data(hi), status, Read(msr, IA32_FIXED_CTR1));
            Read(Apply(msr, Reloads(hits)), IA32_FIXED_CTR1) == Read(msr, IA32_FIXED_CTR1)
  {
    var hits := Hits(cfg, g.Data(hi), status, Read(msr, IA32_FIXED_CTR1));
    forall w | w in Reloads(hits)
      ensures w.reg != IA32_FIXED_CTR1
    {
      var e :| e in hits && w == RegWrite(e.regId, e.regValue);
      HitsAre(cfg, g.Data(hi), status, Read(msr, IA32_FIXED_CTR1), e);
      FreshRegister(cfg, g, hi, e);
    }
    ApplyElsewhere(msr, Reloads(hits), IA32_FIXED_CTR1);
  }

  /** `s` is what a scan of the data registers `es` should have done. */
  ghost predicate Exact(cfg: Config, es: seq<Entry>, status: set<nat>, msr: Msrs, s: Scan) {
    var hits := Hits(cfg, es, status, Read(msr, IA32_FIXED_CTR1));
    && s.msr == Apply(msr, Reloads(hits))
    && s.masks == Cut(Events(hits))
    && s.triggers == Triggers(cfg, hits)
  }

  /** The running status differs from the initial one at most in fixed counter 1's bit, once visited. */
  ghost predicate StatusKept(es: seq<Entry>, status: set<nat>, s: Scan) {
    && status <= s.status <= status + {FIXED_CTR1_BIT}
    && (FIXED_CTR1_BIT in s.status && FIXED_CTR1_BIT !in status ==> exists e :: e in es && e.regId == IA32_FIXED_CTR1)
  }

  /** What a visit that decides by `Overflowed` makes of the scan state. */
  function Decide(cfg: Config, e: Entry, s: Scan, status: set<nat>, hit: bool): Scan {
    if hit then
      Scan(status, s.msr[e.regId := e.regValue],
           if |s.masks| < MAX_OVERFLOW_EVENTS then s.masks + [EventOf(e)] else s.masks,
           if e.eventIdx == cfg.triggerEvent then s.triggers + 1 else s.triggers)
    else s.(status := status)
  }

  /** The visit decides from its running status and registers exactly what `Overflowed` says. */
  lemma VisitDecides(cfg: Config, g: Ecb, hi: nat, status: set<nat>, msr: Msrs, s: Scan)
    requires GroupOk(cfg, g) && cfg.maxGp <= 8 && g.dataStart <= hi < g.dataStart + g.dataPop
    requires StatusKept(g.Data(hi), status, s) && Exact(cfg, g.Data(hi), status, msr, s)
    ensures var e := g.entries[hi];
            var v := Visit(cfg, e, s);
            && status <= v.status <= status + {FIXED_CTR1_BIT}
            && (FIXED_CTR1_BIT in v.status ==> FIXED_CTR1_BIT in s.status || e.regId == IA32_FIXED_CTR1)
            && v == Decide(cfg, e, s, v.status, Overflowed(cfg, e, status, Read(msr, IA32_FIXED_CTR1)))
  {
    var e := g.entries[hi];
    assert DataEntryOk(cfg, e);
    if e.regId == IA32_FIXED_CTR1 {
      Fixed1Unread(cfg, g, hi, status, msr);
      forall f | f in g.Data(hi)
        ensures f.regId != IA32_FIXED_CTR1
      {
        FreshRegister(cfg, g, hi, f);
      }
    }
  }

  lemma DecideIsExact(cfg: Config, es: seq<Entry>, e: Entry, status: set<nat>, msr: Msrs, s: Scan, after: set<nat>)
    requires Exact(cfg, es, status, msr, s)
    ensures Exact(cfg, es + [e], status, msr,
                  Decide(cfg, e, s, after, Overflowed(cfg, e, status, Read(msr, IA32_FIXED_CTR1))))
  {
    HitsSnoc(cfg, es, e, status, Read(msr, IA32_FIXED_CTR1));
    HitRecorded(cfg, Hits(cfg, es, status, Read(msr, IA32_FIXED_CTR1)), e, msr);
  }

  lemma StatusKeptSnoc(es: seq<Entry>, e: Entry, status: set<nat>, s: Scan, v: Scan)
    requires StatusKept(es, status, s)
    requires status <= v.status <= status + {FIXED_CTR1_BIT}
    requires FIXED_CTR1_BIT in v.status ==> FIXED_CTR1_BIT in s.status || e.regId == IA32_FIXED_CTR1
    ensures StatusKept(es + [e], status, v)
  {
    if f :| f in es && f.regId == IA32_FIXED_CTR1 {
      assert f in es + [e];
    }
    assert e in es + [e];
  }

  /**
    The scan is exact.  In event-block order it reloads exactly the overflowed registers,
    records exactly their events up to the capacity of the list, and counts exactly the
    triggers among them.
   */
  lemma {:induction false} ScanIsExact(cfg: Config, g: Ecb, hi: nat, status: set<nat>, msr: Msrs)
    requires GroupOk(cfg, g) && cfg.maxGp <= 8 && g.dataStart <= hi <= g.dataStart + g.dataPop
    ensures StatusKept(g.Data(hi), status, ScanTo(cfg, g, hi, status, msr))
    ensures Exact(cfg, g.Data(hi), status, msr, ScanTo(cfg, g, hi, status, msr))
  {
    if hi == g.dataStart {
      assert Reloads([]) == [];
    } else {
      ScanIsExact(cfg, g, hi - 1, status, msr);
      var e := g.entries[hi - 1];
      if e.regId != 0 {
        var s := ScanTo(cfg, g, hi - 1, status, msr);
        var v := Visit(cfg, e, s);
        VisitDecides(cfg, g, hi - 1, status, msr, s);
        DecideIsExact(cfg, g.Data(hi - 1), e, status, msr, s, v.status);
        StatusKeptSnoc(g.Data(hi - 1), e, status, s, v);
      } else {
        assert g.Data(hi) == g.Data(hi - 1);
      }
    }
  }

  /** Data registers with the same id are the same entry. */
  lemma DataDistinct(cfg: Config, g: Ecb, e: Entry, f: Entry)
    requires GroupOk(cfg, g) && e in g.DataRegs() && f in g.DataRegs() && e.regId == f.regId
    ensures e == f
  {
    g.DataVisits(g.dataStart + g.dataPop, e);
    g.DataVisits(g.dataStart + g.dataPop, f);
  }

  /** An overflowed register takes its reload value. */
  lemma ScanReloads(cfg: Config, g: Ecb, status: set<nat>, msr: Msrs, e: Entry)
    requires GroupOk(cfg, g) && cfg.maxGp <= 8
    requires e in g.DataRegs() && Overflowed(cfg, e, status, Read(msr, IA32_FIXED_CTR1))
    ensures Read(ScanTo(cfg, g, g.dataStart + g.dataPop, status, msr).msr, e.regId) == e.regValue
  {
    var hi := g.dataStart + g.dataPop;
    var fixed1 := Read(msr, IA32_FIXED_CTR1);
    ScanIsExact(cfg, g, hi, status, msr);
    var hits := Hits(cfg, g.DataRegs(), status, fixed1);
    HitsAre(cfg, g.DataRegs(), status, fixed1, e);
    var i :| 0 <= i < |hits| && hits[i] == e;
    assert Reloads(hits)[i].reg == e.regId;
    forall w | w in Reloads(hits) && w.reg == e.regId
      ensures w.value == e.regValue
    {
      var f :| f in hits && w == RegWrite(f.regId, f.regValue);
      HitsAre(cfg, g.DataRegs(), status, fixed1, f);
      DataDistinct(cfg, g, e, f);
    }
    ApplyTarget(msr, Reloads(hits), e.regId, e.regValue);
  }

  /** No other register changes. */
  lemma ScanKeeps(cfg: Config, g: Ecb, status: set<nat>, msr: Msrs, r: Reg)
    requires GroupOk(cfg, g) && cfg.maxGp <= 8
    requires forall e :: e in g.DataRegs() && e.regId == r ==> !Overflowed(cfg, e, status, Read(msr, IA32_FIXED_CTR1))
    ensures Read(ScanTo(cfg, g, g.dataStart + g.dataPop, status, msr).msr, r) == Read(msr, r)
  {
    var fixed1 := Read(msr, IA32_FIXED_CTR1);
    ScanIsExact(cfg, g, g.dataStart + g.dataPop, status, msr);
    var hits := Hits(cfg, g.DataRegs(), status, fixed1);
    forall w | w in Reloads(hits)
      ensures w.reg != r
    {
      var f :| f in hits && w == RegWrite(f.regId, f.regValue);
      HitsAre(cfg, g.DataRegs(), status, fixed1, f);
    }
    ApplyElsewhere(msr, Reloads(hits), r);
  }

  /** core2_Check_Overflow; `status` is the overflow status after the PEBS and counter hooks. */
  function CheckOverflow(cfg: Config, st: Pmu, status: set<nat>, clear: U64): (r: Pmu)
    requires Valid(cfg, st)
    ensures Valid(cfg, r)
  {
    var g := cfg.groups[st.group];
    var s := ScanTo(cfg, g, g.dataStart + g.dataPop, status, st.msr);
    st.(msr := s.msr[IA32_PERF_GLOBAL_OVF_CTRL := clear],
        triggerCount := st.triggerCount - s.triggers,
        resetMask := clear)
  }
}
