/** control_Memory_Tracker_Compaction exactly as printed, whose scans do not stop at the slot they find. */
module PrintedCompaction {
  // Neither scan loop stops at the slot it finds (control.c:459-466, control.c:485-492), so `i` always ends one past the
  // node and `j` one before it, and the move that follows names slots that do not exist.
  import opened TrackerSpec

  datatype Outcome = Finished(nodes: seq<Slots>) | OutOfBounds(i: int, j: int)

  /** Some node with a hole stands before a node that holds an entry. */
  ghost predicate NeedsMove(ns: seq<Slots>) {
    exists a, b :: 0 <= a < b < |ns| && !Full(ns[a]) && !Vacant(ns[b])
  }

  /** The forward scan of one node as printed. */
  method ScanForward(node: Slots, n: nat) returns (i: nat, found: bool)
    requires n <= |node|
    ensures i == |node|
    ensures found <==> exists k :: n <= k < |node| && !InUse(node[k])
  {
    i, found := n, false;
    while i < |node|
      invariant n <= i <= |node|
      invariant found <==> exists k :: n <= k < i && !InUse(node[k])
    {
      if node[i].address == 0 {
        found := true;
      }
      i := i + 1;
    }
  }

  /** The backward scan of one node as printed. */
  method ScanBack(node: Slots, m: int) returns (j: int, found: bool)
    requires -1 <= m < |node|
    ensures j == -1
    ensures found <==> exists k :: 0 <= k <= m && InUse(node[k])
  {
    j, found := m, false;
    while j >= 0
      invariant -1 <= j <= m
      invariant found <==> exists k :: j < k <= m && InUse(node[k])
    {
      if node[j].address != 0 {
        found := true;
      }
      j := j - 1;
    }
  }

  /**
    The routine as printed leaves the slot arrays exactly when there is an entry to move;
    otherwise it only trims empty nodes from the end.
   */
  method Compact(ns: seq<Slots>, max: nat) returns (r: Outcome)
    requires max >= 1 && Sized(ns, max)
    ensures r.OutOfBounds? <==> NeedsMove(ns)
    ensures r.OutOfBounds? ==> r.i == max && r.j == -1
    ensures r.Finished? ==> |r.nodes| <= |ns| && r.nodes == ns[..|r.nodes|] && VacantFrom(ns, |r.nodes|)
  {
    if ns == [] {
      return Finished([]);
    }
    var tr1, tr2 := 0, |ns| - 1;
    var m := max - 1;
    var i, found, overlap := 0, false, false;
    while !found && !overlap
      invariant 0 <= tr1 <= tr2 == |ns| - 1
      invariant forall c :: 0 <= c < tr1 ==> Full(ns[c])
      invariant found ==> !Full(ns[tr1]) && i == max
      invariant overlap ==> tr1 == tr2
      invariant tr1 == tr2 && found ==> overlap
      decreases |ns| - tr1, !found && !overlap
    {
      i, found := ScanForward(ns[tr1], 0);
      overlap := tr1 == tr2 && i >= m;
      if !found && !overlap {
        tr1 := tr1 + 1;
      }
    }
    if !found || overlap {
      return Finished(ns);
    }
    var j := m;
    found := false;
    while !found && !overlap
      invariant tr1 <= tr2 < |ns|
      invariant VacantFrom(ns, tr2 + 1)
      invariant overlap ==> tr1 == tr2
      invariant found ==> j == -1 && !Vacant(ns[tr2])
      invariant tr1 == tr2 && found ==> overlap
      decreases tr2, !found && !overlap
    {
      j, found := ScanBack(ns[tr2], max - 1);
      overlap := tr1 == tr2 && j <= i;
      if !found && !overlap {
        tr2 := tr2 - 1;
      }
    }
    if !found || overlap {
      return Finished(ns[..tr2 + 1]);
    }
    return OutOfBounds(i, j);
  }

  // ---------------------------------------------------------------- a list that gets there

  const NONE := State([], map[])

  function Allocation(address: nat): Slot { Slot(address, 1, false) }

  /** Requests that track allocations 1 to k. */
  function Tracking(k: nat): seq<Request> {
    if k == 0 then [] else Tracking(k - 1) + [Track(Allocation(k), true)]
  }

  /** The node those requests leave: the first allocation opens it, the others fill it from the end. */
  function NodeOf(max: nat, k: nat): (n: Slots)
    requires 1 <= k <= max
    ensures |n| == max
    ensures forall i :: 0 <= i < max ==> n[i] == if i == 0 then Allocation(1) else if i > max - k then Allocation(max - i + 1) else EMPTY
  {
    seq(max, i requires 0 <= i < max => if i == 0 then Allocation(1) else if i > max - k then Allocation(max - i + 1) else EMPTY)
  }

  /** The run has been sensible and has left the given nodes, with no address above `top` in the book. */
  ghost predicate Leaves(max: nat, qs: seq<Request>, ns: seq<Slots>, top: nat)
    requires max >= 1
  {
    && AllSensible(NONE, max, qs)
    && ServeAll(NONE, max, qs).nodes == ns
    && forall a :: a in ServeAll(NONE, max, qs).book ==> a <= top
  }

  lemma LeavesOn(max: nat, qs: seq<Request>, ns: seq<Slots>, top: nat, q: Request)
    requires max >= 1 && Leaves(max, qs, ns, top)
    requires q.Track? ==> InUse(q.slot) && q.slot.address == top + 1
    ensures AllSensible(NONE, max, qs + [q])
    ensures ServeAll(NONE, max, qs + [q]) == Serve(ServeAll(NONE, max, qs), max, q)
  {
    assert (qs + [q])[..|qs + [q]| - 1] == qs;
  }

  lemma FirstOpens(max: nat)
    requires max >= 1
    ensures Add([], max, Allocation(1), true) == [NodeOf(max, 1)]
  {
    var n := FreshNode(max, Allocation(1));
    assert forall i :: 0 <= i < max ==> n[i] == NodeOf(max, 1)[i];
    assert n == NodeOf(max, 1);
  }

  lemma NextFills(max: nat, k: nat)
    requires 2 <= k <= max
    ensures Add([NodeOf(max, k - 1)], max, Allocation(k), true) == [NodeOf(max, k)]
  {
    var n := NodeOf(max, k - 1);
    var hole := max - k + 1;
    assert !InUse(n[hole]) && FindLastHole(n, max) == hole;
    assert n[hole := Allocation(k)] == NodeOf(max, k);
    assert [n][0 := NodeOf(max, k)] == [NodeOf(max, k)];
  }

  lemma {:induction false} FillsNode(max: nat, k: nat)
    requires 1 <= k <= max
    ensures Leaves(max, Tracking(k), [NodeOf(max, k)], k)
    decreases k
  {
    if k == 1 {
      assert Tracking(0) == [];
      FirstOpens(max);
      LeavesOn(max, [], [], 0, Track(Allocation(1), true));
    } else {
      FillsNode(max, k - 1);
      NextFills(max, k);
      LeavesOn(max, Tracking(k - 1), [NodeOf(max, k - 1)], k - 1, Track(Allocation(k), true));
    }
  }

  lemma FullWhenFilled(max: nat)
    requires max >= 1
    ensures FindRoom([NodeOf(max, max)], 0) == Nowhere
  {
    assert FullBelow(NodeOf(max, max), max);
  }

  /** One allocation more opens a second node. */
  lemma OpensNode(max: nat)
    requires max >= 1
    ensures Leaves(max, Tracking(max + 1), [NodeOf(max, max), FreshNode(max, Allocation(max + 1))], max + 1)
  {
    FillsNode(max, max);
    LeavesOn(max, Tracking(max), [NodeOf(max, max)], max, Track(Allocation(max + 1), true));
    FullWhenFilled(max);
    assert [NodeOf(max, max)] + [FreshNode(max, Allocation(max + 1))] == [NodeOf(max, max), FreshNode(max, Allocation(max + 1))];
  }

  /**
    Whatever the size of a node, tracking one allocation more than fit and freeing the first leaves
    a list on which the printed routine leaves its arrays.
   */
  lemma PrintedCompactionFails(max: nat)
    requires max >= 1
    ensures var qs := Tracking(max + 1) + [Untrack(1)];
            AllSensible(NONE, max, qs) && NeedsMove(ServeAll(NONE, max, qs).nodes)
  {
    OpensNode(max);
    var first, second := NodeOf(max, max), FreshNode(max, Allocation(max + 1));
    LeavesOn(max, Tracking(max + 1), [first, second], max + 1, Untrack(1));
    assert FindAddress(first, 1, 0) == 0;
    assert FindEntry([first, second], 0, 1) == At(0, 0);
    var ns := ServeAll(NONE, max, Tracking(max + 1) + [Untrack(1)]).nodes;
    assert ns == [first, second][0 := first[0 := EMPTY]];
    assert !InUse(ns[0][0]) && InUse(ns[1][0]);
    assert !Full(ns[0]) && !Vacant(ns[1]);
  }
}
