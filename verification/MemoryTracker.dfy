/**
  The large-allocation tracker of vtunedk/sepdk/control.c: a doubly linked list of nodes, each
  with a fixed array of slots, changed in place.
 */
module MemoryTracker {
  import opened TrackerSpec

  class Node {
    const mem: array<Slot>  // its length is the node's max_size
    var prev: Node?
    var next: Node?

    constructor (max: nat)
      ensures fresh(mem) && mem.Length == max && prev == null && next == null
      ensures forall i :: 0 <= i < max ==> mem[i] == EMPTY
    {
      mem := new Slot[max](_ => EMPTY);
      prev := null;
      next := null;
    }
  }

  ghost function Links(ns: seq<Node>): set<Node> {
    set n | n in ns
  }

  ghost function Mems(ns: seq<Node>): set<array<Slot>> {
    set n | n in ns :: n.mem
  }

  /** `ns` are distinct nodes with distinct arrays, linked in order in both directions. */
  ghost predicate Linked(ns: seq<Node>)
    reads ns
  {
    && (forall i, j :: 0 <= i < j < |ns| ==> ns[i] != ns[j] && ns[i].mem != ns[j].mem)
    && (forall i {:trigger ns[i].prev} :: 0 <= i < |ns| ==> ns[i].prev == if i == 0 then null else ns[i - 1])
    && (forall i {:trigger ns[i].next} :: 0 <= i < |ns| ==> ns[i].next == if i == |ns| - 1 then null else ns[i + 1])
  }

  /** control_Memory_Tracker_Delete_Node: links the neighbours of `node` to each other. */
  method DeleteNode(node: Node)
    requires node.prev != node && node.next != node
    requires node.prev != null ==> node.prev != node.next
    modifies if node.prev == null then {} else {node.prev}, if node.next == null then {} else {node.next}
    ensures node.prev != null ==> node.prev.next == node.next && node.prev.prev == old(node.prev.prev)
    ensures node.next != null ==> node.next.prev == node.prev && node.next.next == old(node.next.next)
  {
    var prevNode := node.prev;
    var nextNode := node.next;
    if prevNode != null {
      prevNode.next := nextNode;
    }
    if nextNode != null {
      nextNode.prev := prevNode;
    }
  }

  class Tracker {
    const max: nat  // MEM_EL_MAX_ARRAY_SIZE
    var head: Node?
    var tail: Node?
    ghost var nodes: seq<Node>
    ghost var entries: seq<Slots>  // the list as values

    ghost predicate Valid()
      reads this, nodes, Mems(nodes)
    {
      && max >= 1
      && Linked(nodes)
      && (forall i :: 0 <= i < |nodes| ==> nodes[i].mem.Length == max)
      && |entries| == |nodes| && (forall i :: 0 <= i < |nodes| ==> entries[i] == nodes[i].mem[..])
      && (nodes == [] ==> head == null)
      && (nodes != [] ==> head == nodes[0] && tail == nodes[|nodes| - 1])
    }

    /** CONTROL_Memory_Tracker_Init. */
    constructor (max: nat)
      requires max >= 1
      ensures Valid() && nodes == [] && this.max == max
    {
      this.max := max;
      head := null;
      tail := null;
      nodes := [];
      entries := [];
    }

    /** Writes one slot of node number `a`. */
    method SetSlot(node: Node, ghost a: nat, i: nat, s: Slot)
      requires Valid() && a < |nodes| && node == nodes[a] && i < max
      modifies node.mem, this`entries
      ensures Valid()
      ensures entries == old(entries)[a := old(entries)[a][i := s]]
    {
      node.mem[i] := s;
      entries := entries[a := entries[a][i := s]];
      assert nodes[a].mem[..] == old(nodes[a].mem[..])[i := s];
      forall b | 0 <= b < |nodes| && b != a
        ensures nodes[b].mem[..] == old(nodes[b].mem[..])
      {
        assert nodes[b].mem != node.mem;
      }
    }

    /** control_Memory_Tracker_Create_Node; `granted` says whether both allocations succeed. */
    method CreateNode(granted: bool) returns (ok: bool)
      requires Valid()
      modifies this, Links(nodes)
      ensures Valid() && ok == granted
      ensures !ok ==> nodes == old(nodes) && entries == old(entries)
      ensures ok ==> |nodes| == |old(nodes)| + 1 && nodes[..|old(nodes)|] == old(nodes) && fresh(nodes[|old(nodes)|])
      ensures ok ==> fresh(nodes[|old(nodes)|].mem) && entries == old(entries) + [seq(max, i => EMPTY)]
    {
      if !granted {
        return false;
      }
      var node := new Node(max);
      if head == null {
        head := node;
      } else {
        node.prev := tail;
        tail.next := node;
      }
      tail := node;
      nodes := nodes + [node];
      entries := entries + [seq(max, i => EMPTY)];
      assert node.mem[..] == seq(max, i => EMPTY);
      return true;
    }

    /** control_Memory_Tracker_Add, as printed: the scan of a node keeps its last empty slot. */
    method Add(location: nat, size: int, vmalloc: bool, granted: bool) returns (ok: bool)
      requires Valid()
      modifies this, Links(nodes), Mems(nodes)
      ensures Valid()
      ensures ok == AddSucceeds(old(entries), granted)
      ensures entries == TrackerSpec.Add(old(entries), max, Slot(location, size, vmalloc), granted)
    {
      var tr := head;
      var found := false;
      var n := 0;
      ghost var a := 0;
      while tr != null && !found
        invariant Valid() && nodes == old(nodes) && entries == old(entries)
        invariant a <= |nodes|
        invariant tr == if a < |nodes| then nodes[a] else null
        invariant FindRoom(entries, 0) == if found then At(a, n) else FindRoom(entries, a)
        invariant found ==> a < |nodes| && n < max
        decreases |nodes| - a, !found
      {
        var i := 0;
        while i < tr.mem.Length
          invariant 0 <= i <= tr.mem.Length
          invariant entries[a] == tr.mem[..]
          invariant found <==> FindLastHole(entries[a], i) != -1
          invariant found ==> n == FindLastHole(entries[a], i)
        {
          if tr.mem[i].address == 0 {
            n := i;
            found := true;
          }
          i := i + 1;
        }
        if !found {
          assert nodes[a].next == if a == |nodes| - 1 then null else nodes[a + 1];
          tr := tr.next;
          a := a + 1;
        }
      }
      if !found {
        ok := CreateNode(granted);
        if !ok {
          return;
        }
        tr := tail;
        n := 0;
        a := |nodes| - 1;
        SetSlot(tr, a, n, Slot(location, size, vmalloc));
        assert FreshNode(max, Slot(location, size, vmalloc)) == seq(max, i => EMPTY)[0 := Slot(location, size, vmalloc)];
      } else {
        ok := true;
        SetSlot(tr, a, n, Slot(location, size, vmalloc));
      }
    }

    /** CONTROL_Free_Memory; returns what is handed back to the kernel. */
    method FreeMemory(location: nat) returns (release: Release)
      requires Valid()
      modifies this`entries, Mems(nodes)
      ensures Valid() && nodes == old(nodes)
      ensures Freed(entries, release) == Free(old(entries), location)
      ensures location == 0 ==> release == Nothing && entries == old(entries)
      ensures location != 0 ==>
                var p := FindEntry(old(entries), 0, location);
                if p.Nowhere? then release == Kfree(location) && entries == old(entries)
                else
                  && release == (if old(entries)[p.node][p.slot].vmalloc then Vfree(location)
                                 else FreePages(location, old(entries)[p.node][p.slot].size))
                  && entries == old(entries)[p.node := old(entries)[p.node][p.slot := EMPTY]]
    {
      if location == 0 {
        return Nothing;
      }
      var tr := head;
      ghost var a := 0;
      while tr != null
        invariant a <= |nodes|
        invariant tr == if a < |nodes| then nodes[a] else null
        invariant FindEntry(entries, 0, location) == FindEntry(entries, a, location)
        decreases |nodes| - a
      {
        var i := 0;
        while i < tr.mem.Length
          invariant 0 <= i <= tr.mem.Length
          invariant entries[a] == tr.mem[..]
          invariant FindAddress(entries[a], location, 0) == FindAddress(entries[a], location, i)
        {
          if tr.mem[i].address == location {
            release := if tr.mem[i].vmalloc then Vfree(location) else FreePages(location, tr.mem[i].size);
            SetSlot(tr, a, i, EMPTY);
            return;
          }
          i := i + 1;
        }
        assert nodes[a].next == if a == |nodes| - 1 then null else nodes[a + 1];
        tr := tr.next;
        a := a + 1;
      }
      release := Kfree(location);
    }

    /** One pass over the head node in CONTROL_Memory_Tracker_Free (control.c:389-401). */
    method ReleaseHead() returns (released: seq<Slot>)
      requires Valid() && nodes != []
      modifies this`entries, nodes[0].mem
      ensures Valid() && entries[1..] == old(entries)[1..]
      ensures released == UsedBelow(old(entries)[0], max)
    {
      released := [];
      ghost var was := entries[0];
      ghost var rest := entries[1..];
      var i := 0;
      while i < head.mem.Length
        invariant 0 <= i <= head.mem.Length
        invariant Valid() && |entries| == 1 + |rest| && entries[1..] == rest
        invariant entries[0][i..] == was[i..]
        invariant released == UsedBelow(was, i)
      {
        assert head.mem[i] == entries[0][i..][0] == was[i];
        if head.mem[i].address != 0 {
          released := released + [head.mem[i]];
          SetSlot(head, 0, i, EMPTY);
        }
        i := i + 1;
      }
    }

    /** The end of one round of CONTROL_Memory_Tracker_Free (control.c:402-404). */
    method DropHead(ghost second: set<Node>)
      requires Valid() && nodes != [] && second == if |nodes| > 1 then {nodes[1]} else {}
      modifies this, second
      ensures Valid() && nodes == old(nodes)[1..] && entries == old(entries)[1..]
    {
      assert nodes[0].next == if |nodes| == 1 then null else nodes[1];
      assert nodes[0].prev == null;
      var temp := head.next;
      DeleteNode(head);
      head := temp;
      nodes := nodes[1..];
      entries := entries[1..];
    }

    /** One round of CONTROL_Memory_Tracker_Free; `all` and `mems` are what the list began with. */
    method FreeHead(ghost all: set<Node>, ghost mems: set<array<Slot>>) returns (released: seq<Slot>)
      requires Valid() && nodes != [] && Links(nodes) <= all && Mems(nodes) <= mems
      modifies this, all, mems
      ensures Valid() && entries == old(entries)[1..]
      ensures released == UsedBelow(old(entries)[0], |old(entries)[0]|)
      ensures Links(nodes) <= all && Mems(nodes) <= mems
    {
      ghost var second := if |nodes| > 1 then {nodes[1]} else {};
      assert nodes[0] in Links(nodes) && second <= Links(nodes);
      assert nodes[0].mem in Mems(nodes);
      released := ReleaseHead();
      DropHead(second);
    }

    /** CONTROL_Memory_Tracker_Free; returns the entries given to free_pages. */
    method Teardown() returns (released: seq<Slot>)
      requires Valid()
      modifies this, Links(nodes), Mems(nodes)
      ensures Valid() && nodes == []
      ensures released == TrackerSpec.Teardown(old(entries))
    {
      released := [];
      ghost var all, mems := Links(nodes), Mems(nodes);
      while head != null
        invariant Valid() && Links(nodes) <= all && Mems(nodes) <= mems
        invariant released + TrackerSpec.Teardown(entries) == TrackerSpec.Teardown(old(entries))
        decreases |entries|
      {
        var some := FreeHead(all, mems);
        released := released + some;
      }
    }

    /** Reclaiming the empty last node (control.c:498-503). */
    method DropTail(ghost before: set<Node>) returns (last: Node)
      requires Valid() && |nodes| > 1 && before == {nodes[|nodes| - 2]}
      modifies this, before
      ensures Valid() && nodes == old(nodes)[..|old(nodes)| - 1] && entries == old(entries)[..|old(nodes)| - 1]
      ensures last == tail
    {
      assert nodes[|nodes| - 1].prev == nodes[|nodes| - 2] && nodes[|nodes| - 1].next == null;
      assert nodes[|nodes| - 2].next == nodes[|nodes| - 1];
      ghost var rest := nodes[..|nodes| - 1];
      var empty := tail;
      last := empty.prev;
      tail := last;
      DeleteNode(empty);
      nodes := rest;
      entries := entries[..|rest|];
    }

    /** What validity says about node number `a`. */
    lemma NodeAt(a: nat)
      requires Valid() && a < |nodes|
      ensures nodes[a].mem.Length == max && |entries| == |nodes| && entries[a] == nodes[a].mem[..]
      ensures nodes[a].next == if a == |nodes| - 1 then null else nodes[a + 1]
      ensures tail == nodes[|nodes| - 1] && head == nodes[0]
      ensures nodes[a] == tail <==> a == |nodes| - 1
    {
    }
  }
}
