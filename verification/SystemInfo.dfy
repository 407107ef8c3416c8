/**
  * The system-information builder: a counting pass, a filling pass and the layout that must hold both. Nothing in the
  * second pass looks at the size of the buffer, so that it stays inside rests on both passes agreeing.
  */
module SystemInfo {

  const U32: nat := 0x1_0000_0000
  const EXTENDED: nat := 0x8000_0000

  type Word = x: nat | x < U32

  datatype Regs = Regs(eax: Word, ebx: Word, ecx: Word, edx: Word)

  /** One entry of the listing: the leaf asked for and the answer. */
  datatype Entry = Entry(leaf: nat, regs: Regs)

  /** The processor's answers, by leaf and sub-leaf. */
  type Cpuid = (nat, nat) -> Regs

  /** What marks the last sub-leaf of leaf 4, no cache, and of leaf 0xB, no level. */
  predicate Last4(r: Regs) { r.eax % 32 == 0 }

  predicate LastB(r: Regs) { r.eax == 0 && r.ebx == 0 }

  /** Sub-leaf k of leaf 4 (0xB) is the first that marks the end. */
  ghost predicate Ends4(cpuid: Cpuid, k: nat) {
    cpuid(4, k).eax % 32 == 0 && forall j: nat :: j < k ==> cpuid(4, j).eax % 32 != 0
  }

  ghost predicate EndsB(cpuid: Cpuid, k: nat) {
    && cpuid(0xb, k).eax == cpuid(0xb, k).ebx == 0
    && forall j: nat :: j < k ==> cpuid(0xb, j).eax != 0 || cpuid(0xb, j).ebx != 0
  }

  /** The sub-leaves of the processor end, at k4 and kB where the leaf exists. */
  ghost predicate SubLeavesEnd(cpuid: Cpuid, k4: nat, kB: nat) {
    && (MaxBasic(cpuid) >= 4 ==> Ends4(cpuid, k4))
    && (MaxBasic(cpuid) >= 0xb ==> EndsB(cpuid, kB))
  }

  function MaxBasic(cpuid: Cpuid): nat { cpuid(0, 0).eax }

  /** The highest extended leaf, relative to the first, or 0 when the answer makes no sense. */
  function MaxExtended(cpuid: Cpuid): (r: nat)
    ensures r <= 0x1000
  {
    var x := cpuid(EXTENDED, 0).eax;
    var y := if x >= EXTENDED then x - EXTENDED else x;
    if y > 0x1000 then 0 else y
  }

  /**
    * How many extended leaves the answer eax stands for: it names the last of them, with or without the offset; more
    * than 0x1000 make no sense and leave one.
    */
  function ExtendedLeaves(eax: Word): nat {
    if 0x8000_0000 <= eax <= 0x8000_1000 then eax - 0x7fff_ffff else if eax <= 0x1000 then eax + 1 else 1
  }

  // ----- What the listing should be -----

  /** Entries for sub-leaves j up to and including k. */
  function SubLeaves(cpuid: Cpuid, leaf: nat, j: nat, k: nat): (r: seq<Entry>)
    ensures |r| == if j <= k then k + 1 - j else 0
    decreases k + 1 - j
  {
    if j > k then [] else [Entry(leaf, cpuid(leaf, j))] + SubLeaves(cpuid, leaf, j + 1, k)
  }

  /** The entries one leaf contributes. Leaves other than 4 and 0xB are asked with whatever sub-leaf c the last answer left. */
  function LeafEntries(cpuid: Cpuid, k4: nat, kB: nat, leaf: nat, c: nat): (r: seq<Entry>)
    ensures |r| == if leaf == 4 then k4 + 1 else if leaf == 0xb then kB + 1 else 1
  {
    if leaf == 4 then SubLeaves(cpuid, 4, 0, k4)
    else if leaf == 0xb then SubLeaves(cpuid, 0xb, 0, kB)
    else [Entry(leaf, cpuid(leaf, c))]
  }

  /** The leaf that the i-th turn of the filling loop asks for. */
  function LeafOf(cpuid: Cpuid, i: nat): nat {
    if i < MaxBasic(cpuid) + 1 then i else EXTENDED + i - (MaxBasic(cpuid) + 1)
  }

  /** The ecx value after i turns, from c before the first. */
  function Ecx(cpuid: Cpuid, k4: nat, kB: nat, c: nat, i: nat): nat {
    if i == 0 then c
    else LastEcx(LeafEntries(cpuid, k4, kB, LeafOf(cpuid, i - 1), Ecx(cpuid, k4, kB, c, i - 1)))
  }

  function LastEcx(entries: seq<Entry>): nat
    requires entries != []
  {
    entries[|entries| - 1].regs.ecx
  }

  /** The entries of the first i turns. */
  function Listing(cpuid: Cpuid, k4: nat, kB: nat, c: nat, i: nat): seq<Entry> {
    if i == 0 then []
    else Listing(cpuid, k4, kB, c, i - 1)
         + LeafEntries(cpuid, k4, kB, LeafOf(cpuid, i - 1), Ecx(cpuid, k4, kB, c, i - 1))
  }

  /** All basic leaves, all extended leaves, and one more of these when leaf 0xB exists. */
  function Turns(cpuid: Cpuid): nat {
    MaxBasic(cpuid) + 1 + MaxExtended(cpuid) + 1 + (if MaxBasic(cpuid) >= 0xb then 1 else 0)
  }

  /** What the counting pass returns. */
  function Count(cpuid: Cpuid, k4: nat, kB: nat): nat {
    MaxBasic(cpuid) + 1
    + (if MaxBasic(cpuid) >= 4 then k4 else 0)
    + (if MaxBasic(cpuid) >= 0xb then kB + 1 else 0)
    + MaxExtended(cpuid) + 1
  }

  lemma {:induction false} ListingLength(cpuid: Cpuid, k4: nat, kB: nat, c: nat, i: nat)
    ensures |Listing(cpuid, k4, kB, c, i)| ==
            i + (if i > 4 && MaxBasic(cpuid) >= 4 then k4 else 0) + (if i > 0xb && MaxBasic(cpuid) >= 0xb then kB else 0)
  {
    if i > 0 {
      ListingLength(cpuid, k4, kB, c, i - 1);
    }
  }

  /** The counting pass counts the listing: the 0xB leaf is counted once too often, which buys one more extended leaf. */
  lemma CountAgrees(cpuid: Cpuid, k4: nat, kB: nat, c: nat)
    ensures |Listing(cpuid, k4, kB, c, Turns(cpuid))| == Count(cpuid, k4, kB)
    ensures LeafOf(cpuid, Turns(cpuid) - 1) == EXTENDED + MaxExtended(cpuid) + (if MaxBasic(cpuid) >= 0xb then 1 else 0)
  {
    ListingLength(cpuid, k4, kB, c, Turns(cpuid));
  }

  /** Each turn adds an entry, so the listing of fewer turns is shorter. */
  lemma {:induction false} ListingGrows(cpuid: Cpuid, k4: nat, kB: nat, c: nat, i: nat, n: nat)
    requires i <= n
    ensures Listing(cpuid, k4, kB, c, i) <= Listing(cpuid, k4, kB, c, n)
    ensures |Listing(cpuid, k4, kB, c, i)| + (n - i) <= |Listing(cpuid, k4, kB, c, n)|
    decreases n - i
  {
    if i < n {
      ListingGrows(cpuid, k4, kB, c, i, n - 1);
    }
  }

  lemma {:induction false} SubLeavesAt(cpuid: Cpuid, leaf: nat, j: nat, k: nat, h: nat)
    requires j <= h <= k
    ensures SubLeaves(cpuid, leaf, j, k)[h - j] == Entry(leaf, cpuid(leaf, h))
    decreases k - j
  {
    if j < h {
      SubLeavesAt(cpuid, leaf, j + 1, k, h);
    }
  }

  /** Where turn i of the filling loop starts to write. */
  function TurnStart(cpuid: Cpuid, k4: nat, kB: nat, i: nat): nat {
    i + (if i > 4 && cpuid(0, 0).eax >= 4 then k4 else 0) + (if i > 0xb && cpuid(0, 0).eax >= 0xb then kB else 0)
  }

  lemma PartOfPrefix<T>(before: seq<T>, more: seq<T>, all: seq<T>, h: nat)
    requires before + more <= all && h < |more|
    ensures all[|before| + h] == more[h]
  {
    assert all[|before| + h] == (before + more)[|before| + h];
  }

  /** What turn i writes there stays. */
  lemma TurnWrites(cpuid: Cpuid, k4: nat, kB: nat, c: nat, i: nat, n: nat, h: nat)
    requires i < n && h < |LeafEntries(cpuid, k4, kB, LeafOf(cpuid, i), Ecx(cpuid, k4, kB, c, i))|
    ensures var start, all := TurnStart(cpuid, k4, kB, i), Listing(cpuid, k4, kB, c, n);
            && start + h < |all|
            && all[start + h] == LeafEntries(cpuid, k4, kB, LeafOf(cpuid, i), Ecx(cpuid, k4, kB, c, i))[h]
  {
    ListingLength(cpuid, k4, kB, c, i);
    ListingGrows(cpuid, k4, kB, c, i + 1, n);
    PartOfPrefix(Listing(cpuid, k4, kB, c, i), LeafEntries(cpuid, k4, kB, LeafOf(cpuid, i), Ecx(cpuid, k4, kB, c, i)),
                 Listing(cpuid, k4, kB, c, n), h);
  }

  /** The sub-leaf that turn i asks for, where it asks for one, is what the entry before it left in ecx. */
  lemma TurnAsks(cpuid: Cpuid, k4: nat, kB: nat, c: nat, i: nat, n: nat)
    requires 0 < i < n
    ensures 0 < TurnStart(cpuid, k4, kB, i) <= |Listing(cpuid, k4, kB, c, n)|
    ensures Ecx(cpuid, k4, kB, c, i) == Listing(cpuid, k4, kB, c, n)[TurnStart(cpuid, k4, kB, i) - 1].regs.ecx
  {
    var before := Listing(cpuid, k4, kB, c, i);
    ListingLength(cpuid, k4, kB, c, i);
    ListingGrows(cpuid, k4, kB, c, i, n);
    EcxCarries(cpuid, k4, kB, c, i);
    assert Listing(cpuid, k4, kB, c, n)[|before| - 1] == before[|before| - 1];
  }

  lemma EcxCarries(cpuid: Cpuid, k4: nat, kB: nat, c: nat, i: nat)
    requires i > 0
    ensures |Listing(cpuid, k4, kB, c, i)| > 0
    ensures Ecx(cpuid, k4, kB, c, i) == LastEcx(Listing(cpuid, k4, kB, c, i))
  {
    var more := LeafEntries(cpuid, k4, kB, LeafOf(cpuid, i - 1), Ecx(cpuid, k4, kB, c, i - 1));
    assert Listing(cpuid, k4, kB, c, i) == Listing(cpuid, k4, kB, c, i - 1) + more;
  }

  /**
    * The listing, place by place: the basic leaves in order, leaf 4 and leaf 0xB with all their sub-leaves, then the
    * extended leaves from the first on. A leaf of one entry is asked with what the entry before it left in ecx.
    */
  lemma ListingAt(cpuid: Cpuid, k4: nat, kB: nat, c: nat, i: nat, n: nat, j: nat)
    requires i < n
    ensures var start, all, max := TurnStart(cpuid, k4, kB, i), Listing(cpuid, k4, kB, c, n), cpuid(0, 0).eax;
            var leaf := if i <= max then i else 0x8000_0000 + i - (max + 1);
            if leaf == 4 then j <= k4 ==> start + j < |all| && all[start + j] == Entry(4, cpuid(4, j))
            else if leaf == 0xb then j <= kB ==> start + j < |all| && all[start + j] == Entry(0xb, cpuid(0xb, j))
            else start < |all| && all[start] == Entry(leaf, cpuid(leaf, if i == 0 then c else all[start - 1].regs.ecx))
  {
    var leaf := LeafOf(cpuid, i);
    if leaf == 4 && j <= k4 {
      TurnWrites(cpuid, k4, kB, c, i, n, j);
      SubLeavesAt(cpuid, 4, 0, k4, j);
    } else if leaf == 0xb && j <= kB {
      TurnWrites(cpuid, k4, kB, c, i, n, j);
      SubLeavesAt(cpuid, 0xb, 0, kB, j);
    } else if leaf != 4 && leaf != 0xb {
      TurnWrites(cpuid, k4, kB, c, i, n, 0);
      if i > 0 {
        TurnAsks(cpuid, k4, kB, c, i, n);
      }
    }
  }

  // ----- The two passes -----

  method GetNumCpuidFuncs(cpuid: Cpuid, ghost k4: nat, ghost kB: nat) returns (basic: nat, extended: nat, total: nat)
    requires SubLeavesEnd(cpuid, k4, kB)
    ensures basic == cpuid(0, 0).eax + 1
    ensures extended == ExtendedLeaves(cpuid(0x8000_0000, 0).eax)
    ensures total == basic + (if basic > 4 then k4 else 0) + (if basic > 0xb then kB + 1 else 0) + extended
    ensures basic == MaxBasic(cpuid) + 1 && extended == MaxExtended(cpuid) + 1 && total == Count(cpuid, k4, kB)
  {
    basic := cpuid(0, 0).eax;
    extended := cpuid(EXTENDED, 0).eax;
    if extended >= EXTENDED {
      extended := extended - EXTENDED;
    }
    if extended > 0x1000 {
      extended := 0;
    }
    var basic4 := 0;
    if basic >= 4 {
      var i, last := 0, false;
      while !last
        invariant i <= k4 + 1 && (last <==> i == k4 + 1)
        decreases k4 + 1 - i
      {
        last := Last4(cpuid(4, i));
        i := i + 1;
      }
      basic4 := i - 1;
    }
    if basic >= 0xb {
      var i, last := 0, false;
      while !last
        invariant i <= kB + 1 && (last <==> i == kB + 1)
        decreases kB + 1 - i
      {
        last := LastB(cpuid(0xb, i));
        i := i + 1;
      }
      basic4 := basic4 + i;
    }
    basic := basic + 1;
    extended := extended + 1;
    total := basic + basic4 + extended;
  }

  lemma {:induction false} SubLeavesSnoc(cpuid: Cpuid, leaf: nat, j: nat, k: nat)
    requires j <= k
    ensures SubLeaves(cpuid, leaf, j, k) ==
            (if k == 0 then [] else SubLeaves(cpuid, leaf, j, k - 1)) + [Entry(leaf, cpuid(leaf, k))]
    decreases k - j
  {
    if j < k {
      SubLeavesSnoc(cpuid, leaf, j + 1, k);
    }
  }

  /** Writes the sub-leaves of leaf 4 or 0xB from position index on; k is the sub-leaf that ends them. */
  method FillSubLeaves(cpuid: Cpuid, leaf: nat, entries: array<Entry>, start: nat, ghost k: nat) returns (index: nat)
    requires (leaf == 4 && Ends4(cpuid, k)) || (leaf == 0xb && EndsB(cpuid, k))
    requires start + k + 1 <= entries.Length
    modifies entries
    ensures index == start + k + 1
    ensures entries[..index] == old(entries[..start]) + SubLeaves(cpuid, leaf, 0, k)
  {
    index := start;
    var j, last := 0, false;
    while !last
      invariant j <= k + 1 && (last <==> j == k + 1) && index == start + j
      invariant entries[..index] == old(entries[..start]) + (if j == 0 then [] else SubLeaves(cpuid, leaf, 0, j - 1))
      decreases k + 1 - j
    {
      var regs := cpuid(leaf, j);
      entries[index] := Entry(leaf, regs);
      SubLeavesSnoc(cpuid, leaf, 0, j);
      index := index + 1;
      last := if leaf == 4 then Last4(regs) else LastB(regs);
      j := j + 1;
    }
  }

  /** One turn of the filling loop. */
  method FillLeaf(cpuid: Cpuid, entries: array<Entry>, leaf: nat, start: nat, rcx: nat, ghost k4: nat, ghost kB: nat)
    returns (index: nat, ecx: nat)
    requires (leaf == 4 ==> Ends4(cpuid, k4)) && (leaf == 0xb ==> EndsB(cpuid, kB))
    requires start + |LeafEntries(cpuid, k4, kB, leaf, rcx)| <= entries.Length
    modifies entries
    ensures index == start + |LeafEntries(cpuid, k4, kB, leaf, rcx)|
    ensures entries[..index] == old(entries[..start]) + LeafEntries(cpuid, k4, kB, leaf, rcx)
    ensures ecx == LastEcx(LeafEntries(cpuid, k4, kB, leaf, rcx))
  {
    if leaf == 4 {
      index := FillSubLeaves(cpuid, 4, entries, start, k4);
    } else if leaf == 0xb {
      index := FillSubLeaves(cpuid, 0xb, entries, start, kB);
    } else {
      entries[start] := Entry(leaf, cpuid(leaf, rcx));
      index := start + 1;
    }
    assert entries[..index][index - 1] == entries[index - 1];
    ecx := entries[index - 1].regs.ecx;
  }

  /** A turn that is due fits the counted size. */
  lemma TurnFits(cpuid: Cpuid, k4: nat, kB: nat, c: nat, i: nat)
    requires i < Turns(cpuid)
    ensures var more := LeafEntries(cpuid, k4, kB, LeafOf(cpuid, i), Ecx(cpuid, k4, kB, c, i));
            && Listing(cpuid, k4, kB, c, i + 1) == Listing(cpuid, k4, kB, c, i) + more
            && Ecx(cpuid, k4, kB, c, i + 1) == LastEcx(more)
            && |Listing(cpuid, k4, kB, c, i + 1)| <= Count(cpuid, k4, kB)
            && (i + 1 == Turns(cpuid) <==> |Listing(cpuid, k4, kB, c, i + 1)| == Count(cpuid, k4, kB))
  {
    CountAgrees(cpuid, k4, kB, c);
    ListingGrows(cpuid, k4, kB, c, i + 1, Turns(cpuid));
  }

  /** Leaf 4 and leaf 0xB are asked for only when they exist. */
  lemma LeafExists(cpuid: Cpuid, k4: nat, kB: nat, i: nat)
    requires SubLeavesEnd(cpuid, k4, kB)
    ensures (LeafOf(cpuid, i) == 4 ==> Ends4(cpuid, k4)) && (LeafOf(cpuid, i) == 0xb ==> EndsB(cpuid, kB))
  {}

  /**
    * The filling pass, into a buffer of exactly the counted size: it never writes past the end and leaves
    * the whole listing.
    */
  method FillCpuid(cpuid: Cpuid, entries: array<Entry>, basicFuncs: nat, rcx: nat, ghost k4: nat, ghost kB: nat)
    returns (index: nat)
    requires SubLeavesEnd(cpuid, k4, kB)
    requires basicFuncs == MaxBasic(cpuid) + 1 && entries.Length == Count(cpuid, k4, kB)
    modifies entries
    ensures index == entries.Length
    ensures entries[..] == Listing(cpuid, k4, kB, rcx, Turns(cpuid))
  {
    index := 0;
    var i, ecx := 0, rcx;
    ghost var n := Turns(cpuid);
    ghost var done: seq<Entry> := [];
    while index < entries.Length
      invariant i <= n && index == |done| <= entries.Length
      invariant i == n <==> index == entries.Length
      invariant ecx == Ecx(cpuid, k4, kB, rcx, i)
      invariant entries[..index] == done == Listing(cpuid, k4, kB, rcx, i)
      decreases n - i
    {
      var leaf := if i < basicFuncs then i else EXTENDED + i - basicFuncs;
      TurnFits(cpuid, k4, kB, rcx, i);
      LeafExists(cpuid, k4, kB, i);
      done := Listing(cpuid, k4, kB, rcx, i + 1);
      index, ecx := FillLeaf(cpuid, entries, leaf, index, ecx, k4, kB);
      i := i + 1;
    }
  }

  // ----- The layout -----

  /** The sizes of the fixed records; the builder's arithmetic is the same whatever they are. */
  datatype Sizes = Sizes(ioctl: nat, sysInfo: nat, arrayHdr: nat, nodeInfo: nat, perCpu: nat, entry: nat)

  function Sum(counts: seq<nat>, n: nat): nat
    requires n <= |counts|
  {
    if n == 0 then 0 else Sum(counts, n - 1) + counts[n - 1]
  }

  /** Offset of the per-cpu records from the start of the whole buffer. */
  function PerCpuStart(z: Sizes): nat { z.ioctl + z.sysInfo + z.arrayHdr + z.nodeInfo + z.arrayHdr }

  /** Where cpu i's header and entries start and end, given the entries of the cpus before it. */
  function RegionStart(z: Sizes, cpus: nat, before: nat, i: nat): nat {
    PerCpuStart(z) + cpus * z.perCpu + z.arrayHdr * i + before * z.entry
  }

  function RegionEnd(z: Sizes, cpus: nat, before: nat, count: nat, i: nat): nat {
    RegionStart(z, cpus, before, i) + z.arrayHdr + count * z.entry
  }

  function BufferSize(z: Sizes, cpus: nat, entries: nat): nat {
    (z.ioctl + z.sysInfo) + z.arrayHdr + z.nodeInfo + z.arrayHdr + cpus * z.perCpu + cpus * z.arrayHdr + entries * z.entry
  }

  ghost function Start(z: Sizes, counts: seq<nat>, i: nat): nat
    requires i <= |counts|
  {
    RegionStart(z, |counts|, Sum(counts, i), i)
  }

  ghost function End(z: Sizes, counts: seq<nat>, i: nat): nat
    requires i < |counts|
  {
    RegionEnd(z, |counts|, Sum(counts, i), counts[i], i)
  }

  lemma RegionsMeet(z: Sizes, counts: seq<nat>, i: nat)
    requires i < |counts|
    ensures Start(z, counts, i) + z.arrayHdr <= End(z, counts, i) == Start(z, counts, i + 1)
  {
    var s, c := Sum(counts, i), counts[i];
    assert (s + c) * z.entry == s * z.entry + c * z.entry;
    assert z.arrayHdr * (i + 1) == z.arrayHdr * i + z.arrayHdr;
  }

  lemma {:induction false} StartsIncrease(z: Sizes, counts: seq<nat>, i: nat, j: nat)
    requires i <= j <= |counts|
    ensures Start(z, counts, i) <= Start(z, counts, j)
    decreases j - i
  {
    if i < j {
      StartsIncrease(z, counts, i, j - 1);
      RegionsMeet(z, counts, j - 1);
    }
  }

  /** The regions begin right after the per-cpu records and end at the computed size. */
  lemma RegionsSpan(z: Sizes, counts: seq<nat>)
    ensures Start(z, counts, 0) == PerCpuStart(z) + |counts| * z.perCpu
    ensures Start(z, counts, |counts|) == BufferSize(z, |counts|, Sum(counts, |counts|))
  {
    assert z.arrayHdr * |counts| == |counts| * z.arrayHdr;
  }

  /** Distinct cpus' regions are disjoint, and every region lies inside the buffer behind the per-cpu records. */
  lemma RegionsDisjoint(z: Sizes, counts: seq<nat>, i: nat, j: nat)
    requires i < |counts| && j < |counts| && i != j
    ensures End(z, counts, i) <= Start(z, counts, j) || End(z, counts, j) <= Start(z, counts, i)
    ensures PerCpuStart(z) + |counts| * z.perCpu <= Start(z, counts, i)
    ensures End(z, counts, i) <= BufferSize(z, |counts|, Sum(counts, |counts|))
  {
    RegionsMeet(z, counts, i);
    RegionsMeet(z, counts, j);
    RegionsSpan(z, counts);
    StartsIncrease(z, counts, 0, i);
    StartsIncrease(z, counts, i + 1, |counts|);
    if i < j {
      StartsIncrease(z, counts, i + 1, j);
    } else {
      StartsIncrease(z, counts, j + 1, i);
    }
  }

  /** No byte is left over: every offset behind the per-cpu records belongs to some cpu's region. */
  lemma {:induction false} RegionsCover(z: Sizes, counts: seq<nat>, n: nat, x: nat) returns (i: nat)
    requires n <= |counts| && PerCpuStart(z) + |counts| * z.perCpu <= x < Start(z, counts, n)
    ensures i < n && Start(z, counts, i) <= x < End(z, counts, i)
    decreases n
  {
    RegionsSpan(z, counts);
    assert n > 0;
    if x < Start(z, counts, n - 1) {
      i := RegionsCover(z, counts, n - 1, x);
    } else {
      RegionsMeet(z, counts, n - 1);
      i := n - 1;
    }
  }

  lemma SizeIs(z: Sizes, cpus: nat, entries: nat)
    ensures BufferSize(z, cpus, entries)
         == z.ioctl + z.sysInfo + z.nodeInfo + 2 * z.arrayHdr + cpus * (z.perCpu + z.arrayHdr) + entries * z.entry
  {
    assert cpus * (z.perCpu + z.arrayHdr) == cpus * z.perCpu + cpus * z.arrayHdr;
  }

  /** The prefix sums that place the regions, and the size of the buffer. */
  method PlaceRegions(z: Sizes, entryCount: array<nat>, totalCount: array<nat>) returns (size: nat)
    requires entryCount.Length == totalCount.Length && entryCount != totalCount
    modifies totalCount
    ensures forall i :: 0 <= i < entryCount.Length ==> totalCount[i] == Sum(entryCount[..], i)
    ensures size == z.ioctl + z.sysInfo + z.nodeInfo + 2 * z.arrayHdr
                    + entryCount.Length * (z.perCpu + z.arrayHdr) + Sum(entryCount[..], entryCount.Length) * z.entry
  {
    var total := 0;
    for i := 0 to entryCount.Length
      invariant total == Sum(entryCount[..], i)
      invariant forall j :: 0 <= j < i ==> totalCount[j] == Sum(entryCount[..], j)
      invariant entryCount[..] == old(entryCount[..])
    {
      totalCount[i] := total;
      total := total + entryCount[i];
    }
    size := BufferSize(z, entryCount.Length, total);
    SizeIs(z, entryCount.Length, total);
  }
}
