/** Which status bit makes which data register overflow, and what the scan then does, told by position in the group. */
module StatusBits {
  import opened EventControl
  import opened Multiplexing
  import opened Overflow

  /**
    Counter PMC0 + k answers to bit k, fixed counter k to bit 32 + k, and fixed counter 1 also to
    its own reading where the errata test asks for that.  A compound counter answers to bit 12, its
    sub-counters and all other entries to none.
   */
  predicate Answers(cfg: Config, e: Entry, status: set<nat>, fixed1: U64) {
    || (e.isGp && !e.isCompound && !e.isCompoundSub && e.regId - 0xC1 in status)
    || (e.isFixed && e.regId - 0x309 + 32 in status)
    || (e.isFixed && e.regId == 0x30A && cfg.fixedErrata && cfg.numEvents != 1 && fixed1 % (e.maxBits + 1) < e.regValue)
    || (!e.isFixed && e.isCompound && !e.isCompoundSub && 12 in status)
  }

  lemma AnswersIs(cfg: Config, e: Entry, status: set<nat>, fixed1: U64)
    requires DataEntryOk(cfg, e)
    ensures Answers(cfg, e, status, fixed1) <==> Overflowed(cfg, e, status, fixed1)
  {}

  /** The positions of the data registers below `hi` that answer, in order; entries without a register are skipped. */
  function Found(cfg: Config, g: Ecb, hi: nat, status: set<nat>, fixed1: U64): (idx: seq<nat>)
    requires g.dataStart <= hi <= |g.entries|
    ensures forall k :: 0 <= k < |idx| ==> g.dataStart <= idx[k] < hi
  {
    if hi == g.dataStart then []
    else
      Found(cfg, g, hi - 1, status, fixed1)
      + (if g.entries[hi - 1].regId != 0 && Answers(cfg, g.entries[hi - 1], status, fixed1) then [hi - 1] else [])
  }

  lemma {:induction false} FoundIs(cfg: Config, g: Ecb, hi: nat, status: set<nat>, fixed1: U64, i: nat)
    requires g.dataStart <= i < hi <= |g.entries|
    ensures i in Found(cfg, g, hi, status, fixed1)
       <==> g.entries[i].regId != 0 && Answers(cfg, g.entries[i], status, fixed1)
    decreases hi
  {
    if i < hi - 1 {
      FoundIs(cfg, g, hi - 1, status, fixed1, i);
    }
  }

  function EntriesAt(g: Ecb, idx: seq<nat>): (es: seq<Entry>)
    requires forall k :: 0 <= k < |idx| ==> idx[k] < |g.entries|
    ensures |es| == |idx| && forall k :: 0 <= k < |idx| ==> es[k] == g.entries[idx[k]]
  {
    seq(|idx|, k requires 0 <= k < |idx| && idx[k] < |g.entries| => g.entries[idx[k]])
  }

  lemma EntriesSnoc(g: Ecb, idx: seq<nat>, i: nat)
    requires i < |g.entries| && forall k :: 0 <= k < |idx| ==> idx[k] < |g.entries|
    ensures EntriesAt(g, idx + [i]) == EntriesAt(g, idx) + [g.entries[i]]
  {}

  lemma HitsStep(cfg: Config, g: Ecb, hi: nat, status: set<nat>, fixed1: U64)
    requires g.dataStart < hi <= |g.entries|
    ensures Hits(cfg, g.Data(hi), status, fixed1)
         == Hits(cfg, g.Data(hi - 1), status, fixed1)
            + (if g.entries[hi - 1].regId != 0 && Overflowed(cfg, g.entries[hi - 1], status, fixed1) then [g.entries[hi - 1]] else [])
  {
    var hits := Hits(cfg, g.Data(hi - 1), status, fixed1);
    assert hits + [] == hits;
    if g.entries[hi - 1].regId != 0 {
      HitsSnoc(cfg, g.Data(hi - 1), g.entries[hi - 1], status, fixed1);
    } else {
      assert g.Data(hi) == g.Data(hi - 1);
    }
  }

  /** One step of the comparison. */
  lemma FoundStep(cfg: Config, g: Ecb, hi: nat, status: set<nat>, fixed1: U64)
    requires g.dataStart < hi <= |g.entries| && DataEntryOk(cfg, g.entries[hi - 1])
    ensures EntriesAt(g, Found(cfg, g, hi, status, fixed1))
         == EntriesAt(g, Found(cfg, g, hi - 1, status, fixed1))
            + (if g.entries[hi - 1].regId != 0 && Overflowed(cfg, g.entries[hi - 1], status, fixed1) then [g.entries[hi - 1]] else [])
  {
    var idx := Found(cfg, g, hi - 1, status, fixed1);
    AnswersIs(cfg, g.entries[hi - 1], status, fixed1);
    EntriesSnoc(g, idx, hi - 1);
    assert EntriesAt(g, idx) + [] == EntriesAt(g, idx) && idx + [] == idx;
  }

  lemma {:induction false} FoundHits(cfg: Config, g: Ecb, hi: nat, status: set<nat>, fixed1: U64)
    requires GroupOk(cfg, g) && g.dataStart <= hi <= g.dataStart + g.dataPop
    ensures EntriesAt(g, Found(cfg, g, hi, status, fixed1)) == Hits(cfg, g.Data(hi), status, fixed1)
    decreases hi
  {
    if hi > g.dataStart {
      FoundHits(cfg, g, hi - 1, status, fixed1);
      HitsStep(cfg, g, hi, status, fixed1);
      FoundStep(cfg, g, hi, status, fixed1);
    }
  }

  /** How many of the positions hold an entry of the trigger event. */
  function TriggersAt(cfg: Config, g: Ecb, idx: seq<nat>): nat
    requires forall k :: 0 <= k < |idx| ==> idx[k] < |g.entries|
  {
    if idx == [] then 0
    else
      TriggersAt(cfg, g, idx[..|idx| - 1]) + (if g.entries[idx[|idx| - 1]].eventIdx == cfg.triggerEvent then 1 else 0)
  }

  lemma {:induction false} TriggersAre(cfg: Config, g: Ecb, idx: seq<nat>)
    requires forall k :: 0 <= k < |idx| ==> idx[k] < |g.entries|
    ensures Triggers(cfg, EntriesAt(g, idx)) == TriggersAt(cfg, g, idx)
    decreases |idx|
  {
    if idx != [] {
      TriggersAre(cfg, g, idx[..|idx| - 1]);
      assert EntriesAt(g, idx)[..|idx| - 1] == EntriesAt(g, idx[..|idx| - 1]);
    }
  }

  function ScanOf(cfg: Config, g: Ecb, status: set<nat>, msr: Msrs): Scan
    requires g.InRange()
  {
    ScanTo(cfg, g, g.dataStart + g.dataPop, status, msr)
  }

  /** The positions the scan of a group finds. */
  function FoundIn(cfg: Config, g: Ecb, status: set<nat>, msr: Msrs): (idx: seq<nat>)
    requires g.InRange()
    ensures forall k :: 0 <= k < |idx| ==> g.dataStart <= idx[k] < g.dataStart + g.dataPop
  {
    Found(cfg, g, g.dataStart + g.dataPop, status, Read(msr, 0x30A))
  }

  lemma FoundInIs(cfg: Config, g: Ecb, status: set<nat>, msr: Msrs, i: nat)
    requires g.InRange() && g.dataStart <= i < g.dataStart + g.dataPop
    ensures i in FoundIn(cfg, g, status, msr) <==> g.entries[i].regId != 0 && Answers(cfg, g.entries[i], status, Read(msr, 0x30A))
  {
    FoundIs(cfg, g, g.dataStart + g.dataPop, status, Read(msr, 0x30A), i);
  }

  lemma ScanFindsRegisters(cfg: Config, g: Ecb, status: set<nat>, msr: Msrs)
    requires GroupOk(cfg, g) && cfg.maxGp <= 8
    ensures ScanOf(cfg, g, status, msr).msr == Apply(msr, Reloads(EntriesAt(g, FoundIn(cfg, g, status, msr))))
  {
    ScanFinds(cfg, g, status, msr);
  }

  lemma ScanFinds(cfg: Config, g: Ecb, status: set<nat>, msr: Msrs)
    requires GroupOk(cfg, g) && cfg.maxGp <= 8
    ensures var es := EntriesAt(g, FoundIn(cfg, g, status, msr));
            var s := ScanOf(cfg, g, status, msr);
            s.msr == Apply(msr, Reloads(es)) && s.masks == Cut(Events(es)) && s.triggers == Triggers(cfg, es)
  {
    ScanIsExact(cfg, g, g.dataStart + g.dataPop, status, msr);
    FoundHits(cfg, g, g.dataStart + g.dataPop, status, Read(msr, IA32_FIXED_CTR1));
  }

  /**
    The events recorded are those of the registers that answer, in order, each with its own index
    and flags, up to eleven of them; the triggers among all of them are counted.
   */
  lemma ScanRecordsByBits(cfg: Config, g: Ecb, status: set<nat>, msr: Msrs)
    requires GroupOk(cfg, g) && cfg.maxGp <= 8
    ensures var idx, s := FoundIn(cfg, g, status, msr), ScanOf(cfg, g, status, msr);
            && |s.masks| == (if |idx| <= 11 then |idx| else 11)
            && (forall k :: 0 <= k < |s.masks| ==>
                  var e := g.entries[idx[k]]; s.masks[k] == OverflowEvent(e.eventIdx, e.precise, e.lbr, e.uncore))
            && s.triggers == TriggersAt(cfg, g, idx)
  {
    ScanFinds(cfg, g, status, msr);
    TriggersAre(cfg, g, FoundIn(cfg, g, status, msr));
  }

  /** A data register that answers takes its reload value; one that does not keeps its own. */
  lemma ScanReloadsByBits(cfg: Config, g: Ecb, status: set<nat>, msr: Msrs, i: nat)
    requires GroupOk(cfg, g) && cfg.maxGp <= 8
    requires g.dataStart <= i < g.dataStart + g.dataPop && g.entries[i].regId != 0
    ensures var e := g.entries[i];
            Read(ScanOf(cfg, g, status, msr).msr, e.regId)
            == if Answers(cfg, e, status, Read(msr, 0x30A)) then e.regValue else Read(msr, e.regId)
  {
    ScanFindsRegisters(cfg, g, status, msr);
    FoundInIs(cfg, g, status, msr, i);
    RegisterAt(cfg, g, FoundIn(cfg, g, status, msr), msr, i);
  }

  /** No other register changes. */
  lemma ScanKeepsOthers(cfg: Config, g: Ecb, status: set<nat>, msr: Msrs, r: Reg)
    requires GroupOk(cfg, g) && cfg.maxGp <= 8
    requires forall i :: g.dataStart <= i < g.dataStart + g.dataPop ==> g.entries[i].regId != r
    ensures Read(ScanOf(cfg, g, status, msr).msr, r) == Read(msr, r)
  {
    ScanFindsRegisters(cfg, g, status, msr);
    MissedAt(cfg, g, FoundIn(cfg, g, status, msr), msr, r);
  }

  lemma RegisterAt(cfg: Config, g: Ecb, idx: seq<nat>, msr: Msrs, i: nat)
    requires GroupOk(cfg, g) && (forall k :: 0 <= k < |idx| ==> idx[k] < |g.entries|)
    requires i < |g.entries| && g.entries[i].regId != 0
    ensures Read(Apply(msr, Reloads(EntriesAt(g, idx))), g.entries[i].regId)
         == if i in idx then g.entries[i].regValue else Read(msr, g.entries[i].regId)
  {
    if i in idx {
      ReloadAt(cfg, g, idx, msr, i);
    } else {
      forall k | 0 <= k < |idx| ensures g.entries[idx[k]].regId != g.entries[i].regId {
        assert idx[k] != i;
      }
      MissedAt(cfg, g, idx, msr, g.entries[i].regId);
    }
  }

  lemma ReloadAt(cfg: Config, g: Ecb, idx: seq<nat>, msr: Msrs, i: nat)
    requires GroupOk(cfg, g) && i in idx && (forall k :: 0 <= k < |idx| ==> idx[k] < |g.entries|)
    requires g.entries[i].regId != 0
    ensures Read(Apply(msr, Reloads(EntriesAt(g, idx))), g.entries[i].regId) == g.entries[i].regValue
  {
    var ws := Reloads(EntriesAt(g, idx));
    var k :| 0 <= k < |idx| && idx[k] == i;
    assert ws[k].reg == g.entries[i].regId;
    forall w | w in ws && w.reg == g.entries[i].regId ensures w.value == g.entries[i].regValue {
      var j :| 0 <= j < |ws| && ws[j] == w;
      assert g.entries[idx[j]].regId == g.entries[i].regId;
    }
    ApplyTarget(msr, ws, g.entries[i].regId, g.entries[i].regValue);
  }

  lemma MissedAt(cfg: Config, g: Ecb, idx: seq<nat>, msr: Msrs, r: Reg)
    requires (forall k :: 0 <= k < |idx| ==> idx[k] < |g.entries|)
    requires forall k :: 0 <= k < |idx| ==> g.entries[idx[k]].regId != r
    ensures Read(Apply(msr, Reloads(EntriesAt(g, idx))), r) == Read(msr, r)
  {
    ApplyElsewhere(msr, Reloads(EntriesAt(g, idx)), r);
  }

  /** The whole check: the registers as above but for the reset of the status, the trigger count, and the reset mask. */
  lemma CheckByBits(cfg: Config, st: Pmu, status: set<nat>, clear: U64, i: nat)
    requires Valid(cfg, st)
    requires var g := cfg.groups[st.group];
             g.dataStart <= i < g.dataStart + g.dataPop <= |g.entries| && g.entries[i].regId != 0 && g.entries[i].regId != 0x390
    ensures var e := cfg.groups[st.group].entries[i];
            Read(CheckOverflow(cfg, st, status, clear).msr, e.regId)
            == if Answers(cfg, e, status, Read(st.msr, 0x30A)) then e.regValue else Read(st.msr, e.regId)
  {
    assert GroupOk(cfg, cfg.groups[st.group]);
    ScanReloadsByBits(cfg, cfg.groups[st.group], status, st.msr, i);
  }

  lemma CheckLeaves(cfg: Config, st: Pmu, status: set<nat>, clear: U64)
    requires Valid(cfg, st)
    ensures cfg.groups[st.group].InRange()
    ensures var c := CheckOverflow(cfg, st, status, clear);
            && Read(c.msr, 0x390) == clear && c.resetMask == clear
            && c.triggerCount == st.triggerCount - TriggersAt(cfg, cfg.groups[st.group], FoundIn(cfg, cfg.groups[st.group], status, st.msr))
            && c.table == st.table && c.group == st.group && c.groupSwap == st.groupSwap
  {
    assert GroupOk(cfg, cfg.groups[st.group]);
    ScanRecordsByBits(cfg, cfg.groups[st.group], status, st.msr);
  }
}
