/**
  control_Memory_Tracker_Compaction: two cursors walk towards each other, moving entries from
  the back of the list into holes at the front and reclaiming nodes that have become empty.
 */
module Compaction {
  import opened TrackerSpec
  import opened MemoryTracker

  /** The scan of one node for an empty slot (control.c:459-466). */
  method ScanForward(t: Tracker, tr: Node, ghost a: nat, n: nat) returns (i: nat)
    requires t.Valid() && a < |t.nodes| && tr == t.nodes[a]
    requires n <= |t.entries[a]| && FullBelow(t.entries[a], n)
    ensures n <= i <= |t.entries[a]| && FullBelow(t.entries[a], i)
    ensures i < |t.entries[a]| ==> !InUse(t.entries[a][i])
  {
    t.NodeAt(a);
    ghost var node := t.entries[a];
    i := n;
    while i < tr.mem.Length && tr.mem[i].address != 0
      invariant n <= i <= |node|
      invariant FullBelow(node, i)
    {
      assert node[i] == tr.mem[i];
      i := i + 1;
    }
  }

  /** The scan of the last node for a slot in use (control.c:485-492). */
  method ScanBack(t: Tracker, tr: Node, m: int) returns (j: int)
    requires t.Valid() && t.nodes != [] && tr == t.tail
    requires var last := t.entries[|t.nodes| - 1]; -1 <= m < |last| && VacantFromSlot(last, m + 1)
    ensures var last := t.entries[|t.nodes| - 1];
            -1 <= j <= m && VacantFromSlot(last, j + 1) && (j >= 0 ==> InUse(last[j]))
  {
    t.NodeAt(|t.nodes| - 1);
    ghost var last := t.entries[|t.nodes| - 1];
    j := m;
    while j >= 0 && tr.mem[j].address == 0
      invariant -1 <= j <= m
      invariant VacantFromSlot(last, j + 1)
    {
      assert last[j] == tr.mem[j];
      j := j - 1;
    }
  }

  /**
    The forward search (control.c:456-475), stopping at the first empty slot as the routine's
    comment describes.
   */
  method FindHole(t: Tracker, start: Node, ghost from: nat, first: nat, last: Node, m: int)
    returns (tr: Node, ghost a: nat, i: nat, found: bool, overlap: bool)
    requires t.Valid() && Cursors(t.entries, from, first, m)
    requires start == t.nodes[from] && last == t.tail
    ensures from <= a < |t.nodes| && tr == t.nodes[a] && (a == from ==> first <= i)
    ensures Cursors(t.entries, a, i, m)
    ensures found <==> i < |t.entries[a]|
    ensures found ==> !InUse(t.entries[a][i])
    ensures overlap <==> Met(t.entries, a, i, m)
    ensures found || overlap
  {
    tr, a, found, overlap := start, from, false, false;
    i := first;
    while !found && !overlap
      invariant from <= a < |t.nodes| && tr == t.nodes[a] && (a == from ==> first <= i)
      invariant Cursors(t.entries, a, i, m)
      invariant found ==> i < |t.entries[a]| && !InUse(t.entries[a][i])
      invariant found || overlap ==> (overlap <==> Met(t.entries, a, i, m)) && (found <==> i < |t.entries[a]|)
      decreases |t.nodes| - a, !found && !overlap
    {
      i := ScanForward(t, tr, a, i);
      t.NodeAt(a);
      found := i < tr.mem.Length;
      overlap := tr == last && i >= m;
      if !found && !overlap {
        tr := tr.next;
        a := a + 1;
        i := 0;
      }
    }
  }

  /** One round of the backward search past an empty last node (control.c:497-506). */
  method Retreat(t: Tracker, ghost all: set<Node>) returns (last: Node)
    requires t.Valid() && |t.nodes| > 1 && Links(t.nodes) <= all
    modifies t, all
    ensures t.Valid() && t.nodes == old(t.nodes)[..|old(t.nodes)| - 1] && last == t.tail
    ensures Links(t.nodes) <= all
    ensures t.entries == old(t.entries)[..|old(t.nodes)| - 1]
  {
    ghost var before := {t.nodes[|t.nodes| - 2]};
    assert t.nodes[|t.nodes| - 2] in Links(t.nodes);
    last := t.DropTail(before);
  }

  /** One round of the backward search: scan the last node and, when it is empty, reclaim it. */
  method BackRound(t: Tracker, tr1: Node, ghost a: nat, i: nat, start: Node, first: int, ghost all: set<Node>)
    returns (tr: Node, j: int, found: bool, overlap: bool)
    requires t.Valid() && Cursors(t.entries, a, i, first)
    requires tr1 == t.nodes[a] && start == t.tail && Links(t.nodes) <= all
    modifies t, all
    ensures t.Valid() && Cursors(t.entries, a, i, j)
    ensures tr1 == t.nodes[a] && tr == t.tail && Links(t.nodes) <= all
    ensures found || overlap ==>
              && t.nodes == old(t.nodes) && t.entries == old(t.entries)
              && (found <==> j >= 0) && (found ==> InUse(t.entries[|t.nodes| - 1][j]))
              && (overlap <==> Met(t.entries, a, i, j))
    ensures !found && !overlap ==>
              && t.nodes == old(t.nodes)[..|old(t.nodes)| - 1]
              && t.entries == old(t.entries)[..|old(t.nodes)| - 1]
              && Vacant(old(t.entries)[|old(t.nodes)| - 1])
  {
    tr := start;
    j := ScanBack(t, tr, first);
    t.NodeAt(a);
    found := j >= 0;
    overlap := tr1 == tr && j <= i;
    if !found && !overlap {
      RetreatKeepsCursors(t.entries, a, i, t.max);
      tr := Retreat(t, all);
      j := t.max - 1;
    }
  }

  /**
    The backward search (control.c:482-507), stopping at the first slot in use; empty nodes on
    the way are reclaimed.
   */
  method FindUsed(t: Tracker, tr1: Node, ghost a: nat, i: nat, start: Node, first: int, ghost all: set<Node>)
    returns (tr: Node, j: int, found: bool, overlap: bool)
    requires t.Valid() && Cursors(t.entries, a, i, first)
    requires tr1 == t.nodes[a] && start == t.tail && Links(t.nodes) <= all
    modifies t, all
    ensures t.Valid() && Cursors(t.entries, a, i, j)
    ensures tr1 == t.nodes[a] && tr == t.tail && Links(t.nodes) <= all
    ensures |t.nodes| <= |old(t.nodes)| && t.nodes == old(t.nodes)[..|t.nodes|]
    ensures |t.nodes| <= |old(t.entries)| && t.entries == old(t.entries)[..|t.nodes|]
    ensures VacantFrom(old(t.entries), |t.nodes|)
    ensures found <==> j >= 0
    ensures found ==> InUse(t.entries[|t.nodes| - 1][j])
    ensures overlap <==> Met(t.entries, a, i, j)
    ensures found || overlap
  {
    ghost var nodes, entries := t.nodes, t.entries;
    ghost var nodesNow, now := nodes, entries;
    tr, found, overlap := start, false, false;
    j := first;
    while !found && !overlap
      invariant t.Valid() && nodesNow == t.nodes && now == t.entries && |now| == |nodesNow|
      invariant Cursors(now, a, i, j) && tr1 == nodesNow[a] && tr == t.tail && Links(nodesNow) <= all
      invariant |nodesNow| <= |nodes| && nodesNow == nodes[..|nodesNow|]
      invariant |now| <= |entries| && now == entries[..|now|]
      invariant VacantFrom(entries, |now|)
      invariant found || overlap ==>
                  && (found <==> j >= 0) && (found ==> InUse(now[|now| - 1][j]))
                  && (overlap <==> Met(now, a, i, j))
      decreases |now|, !found && !overlap
    {
      ghost var nodesWas, was := nodesNow, now;
      tr, j, found, overlap := BackRound(t, tr1, a, i, tr, j, all);
      nodesNow, now := t.nodes, t.entries;
      if !found && !overlap {
        PrefixOfPrefix(nodes, nodesWas, nodesNow);
        PrefixOfPrefix(entries, was, now);
        VacantFromEarlier(entries, was);
      }
    }
  }

  /** Moving an entry from the back into the hole at the front (control.c:514-520). */
  method MoveEntry(t: Tracker, tr1: Node, ghost a: nat, i: nat, tr2: Node, j: nat)
    requires t.Valid() && a < |t.nodes| && tr1 == t.nodes[a] && tr2 == t.tail && i < t.max && j < t.max
    modifies t`entries, tr1.mem, tr2.mem
    ensures t.Valid()
    ensures |old(t.entries)| == |t.nodes| && i < |old(t.entries)[a]| && j < |old(t.entries)[|t.nodes| - 1]|
    ensures t.entries == Moved(old(t.entries), a, i, j)
  {
    ghost var b := |t.nodes| - 1;
    t.NodeAt(a);
    t.NodeAt(b);
    t.SetSlot(tr1, a, i, tr2.mem[j]);
    t.SetSlot(tr2, b, j, EMPTY);
  }

  lemma PrefixFrames(ns: seq<Node>, ms: seq<Node>)
    requires |ns| <= |ms| && ns == ms[..|ns|]
    ensures Links(ns) <= Links(ms) && Mems(ns) <= Mems(ms)
  {
  }

  /** The move as a step of the two cursors. */
  method FillHole(t: Tracker, tr1: Node, ghost a: nat, i: nat, tr2: Node, j: nat, ghost mems: set<array<Slot>>)
    requires t.Valid() && Cursors(t.entries, a, i, j) && Mems(t.nodes) <= mems
    requires i < |t.entries[a]| && !InUse(t.entries[a][i]) && InUse(t.entries[|t.nodes| - 1][j])
    requires !Met(t.entries, a, i, j) && tr1 == t.nodes[a] && tr2 == t.tail
    modifies t`entries, mems
    ensures t.Valid() && i < t.max
    ensures Cursors(t.entries, a, i + 1, j - 1) && SameEntries(t.entries, old(t.entries))
  {
    MoveKeepsCursors(t.entries, a, i, j);
    t.NodeAt(a);
    t.NodeAt(|t.nodes| - 1);
    assert tr1.mem in Mems(t.nodes) && tr2.mem in Mems(t.nodes);
    MoveEntry(t, tr1, a, i, tr2, j);
  }

  /** The second half of a round (control.c:481-529): find an entry for the hole and move it. */
  method CloseIn(t: Tracker, tr1: Node, ghost a: nat, i: nat, start: Node, m: int,
                 ghost all: set<Node>, ghost mems: set<array<Slot>>)
    returns (tr2: Node, m': int, done: bool)
    requires t.Valid() && Cursors(t.entries, a, i, m)
    requires i < |t.entries[a]| && !InUse(t.entries[a][i])
    requires tr1 == t.nodes[a] && start == t.tail && Links(t.nodes) <= all && Mems(t.nodes) <= mems
    modifies t, all, mems
    ensures t.Valid() && a < |t.nodes| && tr1 == t.nodes[a]
    ensures |t.nodes| <= |old(t.nodes)| && t.nodes == old(t.nodes)[..|t.nodes|]
    ensures SameEntries(t.entries, old(t.entries))
    ensures done ==> Compact(t.entries)
    ensures !done ==> Cursors(t.entries, a, i + 1, m') && i < t.max && tr2 == t.tail
  {
    ghost var was, nodesWas := t.entries, t.nodes;
    var j, found, overlap;
    tr2, j, found, overlap := FindUsed(t, tr1, a, i, start, m, all);
    ghost var now := t.entries;
    DropVacant(was, |now|);
    done := !found || overlap;
    m' := j - 1;
    if done {
      MetIsCompact(now, a, i, j);
    } else {
      PrefixFrames(t.nodes, nodesWas);
      FillHole(t, tr1, a, i, tr2, j, mems);
      SameTransitive(t.entries, now, was);
    }
  }

  /** One round of the compaction (control.c:454-530): find a hole, find an entry, move it. */
  method CompactRound(t: Tracker, start1: Node, ghost from: nat, n: nat, start2: Node, m: int,
                      ghost all: set<Node>, ghost mems: set<array<Slot>>)
    returns (tr1: Node, ghost a: nat, n': nat, tr2: Node, m': int, done: bool)
    requires t.Valid() && Cursors(t.entries, from, n, m)
    requires start1 == t.nodes[from] && start2 == t.tail && Links(t.nodes) <= all && Mems(t.nodes) <= mems
    modifies t, all, mems
    ensures t.Valid() && t.nodes != []
    ensures |t.nodes| <= |old(t.nodes)| && t.nodes == old(t.nodes)[..|t.nodes|]
    ensures SameEntries(t.entries, old(t.entries))
    ensures done ==> Compact(t.entries)
    ensures !done ==> Cursors(t.entries, a, n', m') && a < |t.nodes| && tr1 == t.nodes[a] && tr2 == t.tail
    ensures !done ==> from <= a && n' <= t.max && (a == from ==> n < n')
  {
    var i, found, overlap;
    tr1, a, i, found, overlap := FindHole(t, start1, from, n, start2, m);
    done := !found || overlap;
    if done {
      MetIsCompact(t.entries, a, i, m);
      SameReflexive(t.entries);
      tr2, n', m' := start2, n, m;
    } else {
      tr2, m', done := CloseIn(t, tr1, a, i, start2, m, all, mems);
      n' := i + 1;
    }
  }

  /**
    control_Memory_Tracker_Compaction, with the searches stopping at the first hit.  It loses
    and invents no entry, only removes nodes from the end of the list, and leaves every node
    but the last full and the last with its entries first.
   */
  method CompactTracker(t: Tracker)
    requires t.Valid()
    modifies t, Links(t.nodes), Mems(t.nodes)
    ensures t.Valid() && (t.nodes == [] <==> old(t.nodes) == [])
    ensures |t.nodes| <= |old(t.nodes)| && t.nodes == old(t.nodes)[..|t.nodes|]
    ensures Contents(t.entries) == Contents(old(t.entries))
    ensures Compact(t.entries)
  {
    ghost var entries, nodes := t.entries, t.nodes;
    if t.head == null {
      return;
    }
    t.NodeAt(0);
    t.NodeAt(|t.nodes| - 1);
    var tr1: Node, tr2: Node := t.head, t.tail;
    ghost var a: nat := 0;
    var n: nat, m := 0, tr2.mem.Length - 1;
    SameReflexive(entries);
    var done := false;
    while !done
      invariant t.Valid() && t.nodes != []
      invariant |t.nodes| <= |nodes| && t.nodes == nodes[..|t.nodes|]
      invariant SameEntries(t.entries, entries)
      invariant !done ==> Cursors(t.entries, a, n, m) && tr1 == t.nodes[a] && tr2 == t.tail && n <= t.max
      invariant done ==> Compact(t.entries)
      decreases !done, |t.nodes| - a, t.max - n
    {
      ghost var was, nodesWas := t.entries, t.nodes;
      PrefixFrames(nodesWas, nodes);
      tr1, a, n, tr2, m, done := CompactRound(t, tr1, a, n, tr2, m, Links(nodes), Mems(nodes));
      PrefixOfPrefix(nodes, nodesWas, t.nodes);
      SameTransitive(t.entries, was, entries);
    }
    SameContents(t.entries, entries);
  }
}
