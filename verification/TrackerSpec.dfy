/**
  What the large-allocation tracker holds (vtunedk/sepdk/control.c), as values: a list of
  nodes, each a fixed number of slots.  A slot is in use when its address is not NULL.
 */
module TrackerSpec {

  datatype Slot = Slot(address: nat, size: int, vmalloc: bool)

  const EMPTY := Slot(0, 0, false)

  predicate InUse(s: Slot) { s.address != 0 }

  type Slots = seq<Slot>

  /** One occurrence of the entry `e`; empty slots are no entries. */
  function One(s: Slot, e: Slot): nat {
    if s == e && InUse(e) then 1 else 0
  }

  function NodeCount(n: Slots, e: Slot): nat {
    if n == [] then 0 else NodeCount(n[..|n| - 1], e) + One(n[|n| - 1], e)
  }

  /** How many slots hold the entry `e`. */
  function Count(ns: seq<Slots>, e: Slot): nat {
    if ns == [] then 0 else Count(ns[..|ns| - 1], e) + NodeCount(ns[|ns| - 1], e)
  }

  function NodeContents(n: Slots): multiset<Slot> {
    if n == [] then multiset{}
    else NodeContents(n[..|n| - 1]) + (if InUse(n[|n| - 1]) then multiset{n[|n| - 1]} else multiset{})
  }

  /** The multiset of entries: address, size and vmalloc flag of every slot in use. */
  function Contents(ns: seq<Slots>): multiset<Slot> {
    if ns == [] then multiset{} else Contents(ns[..|ns| - 1]) + NodeContents(ns[|ns| - 1])
  }

  ghost predicate FullBelow(n: Slots, hi: int) { forall i :: 0 <= i < |n| && i < hi ==> InUse(n[i]) }
  ghost predicate VacantFromSlot(n: Slots, lo: int) { forall i :: 0 <= i < |n| && lo <= i ==> !InUse(n[i]) }
  ghost predicate Full(n: Slots) { FullBelow(n, |n|) }
  ghost predicate Vacant(n: Slots) { VacantFromSlot(n, 0) }

  /** Slots in use first, then empty ones only. */
  ghost predicate Packed(n: Slots) {
    exists k :: 0 <= k <= |n| && FullBelow(n, k) && VacantFromSlot(n, k)
  }

  ghost predicate Sized(ns: seq<Slots>, max: nat) {
    forall a :: 0 <= a < |ns| ==> |ns[a]| == max
  }

  lemma {:induction false} NodeUpdate(n: Slots, i: nat, s: Slot, e: Slot)
    requires i < |n|
    ensures NodeCount(n[i := s], e) + One(n[i], e) == NodeCount(n, e) + One(s, e)
  {
    var last := |n| - 1;
    if i == last {
      assert n[i := s][..last] == n[..last];
    } else {
      assert n[i := s][..last] == n[..last][i := s];
      NodeUpdate(n[..last], i, s, e);
    }
  }

  lemma {:induction false} CountReplace(ns: seq<Slots>, a: nat, n: Slots, e: Slot)
    requires a < |ns|
    ensures Count(ns[a := n], e) + NodeCount(ns[a], e) == Count(ns, e) + NodeCount(n, e)
  {
    var last := |ns| - 1;
    if a == last {
      assert ns[a := n][..last] == ns[..last];
    } else {
      assert ns[a := n][..last] == ns[..last][a := n];
      CountReplace(ns[..last], a, n, e);
    }
  }

  /** Writing one slot exchanges its old entry for the new. */
  lemma CountUpdate(ns: seq<Slots>, a: nat, i: nat, s: Slot, e: Slot)
    requires a < |ns| && i < |ns[a]|
    ensures Count(ns[a := ns[a][i := s]], e) + One(ns[a][i], e) == Count(ns, e) + One(s, e)
  {
    NodeUpdate(ns[a], i, s, e);
    CountReplace(ns, a, ns[a][i := s], e);
  }

  lemma {:induction false} VacantCount(n: Slots, e: Slot)
    requires Vacant(n)
    ensures NodeCount(n, e) == 0
  {
    if n != [] {
      VacantCount(n[..|n| - 1], e);
    }
  }

  lemma {:induction false} NodeCountIs(n: Slots, e: Slot)
    ensures NodeCount(n, e) > 0 <==> InUse(e) && e in n
  {
    if n != [] {
      assert n == n[..|n| - 1] + [n[|n| - 1]];
      NodeCountIs(n[..|n| - 1], e);
    }
  }

  /** The entries are exactly the slots in use that occur somewhere in the list. */
  lemma {:induction false} CountIs(ns: seq<Slots>, e: Slot)
    ensures Count(ns, e) > 0 <==> InUse(e) && exists a :: 0 <= a < |ns| && e in ns[a]
  {
    if ns != [] {
      var rest := ns[..|ns| - 1];
      CountIs(rest, e);
      NodeCountIs(ns[|ns| - 1], e);
      assert forall a :: 0 <= a < |rest| ==> rest[a] == ns[a];
    }
  }

  lemma CountSnoc(ns: seq<Slots>, n: Slots, e: Slot)
    ensures Count(ns + [n], e) == Count(ns, e) + NodeCount(n, e)
  {
    assert (ns + [n])[..|ns|] == ns;
  }

  lemma {:induction false} NodeContentsCount(n: Slots, e: Slot)
    ensures NodeContents(n)[e] == NodeCount(n, e)
  {
    if n != [] {
      NodeContentsCount(n[..|n| - 1], e);
    }
  }

  /** The contents have each entry as often as it is counted. */
  lemma {:induction false} ContentsCount(ns: seq<Slots>, e: Slot)
    ensures Contents(ns)[e] == Count(ns, e)
  {
    if ns != [] {
      ContentsCount(ns[..|ns| - 1], e);
      NodeContentsCount(ns[|ns| - 1], e);
    }
  }

  /** The two lists hold the same entries, equally often. */
  ghost predicate SameEntries(ns: seq<Slots>, ms: seq<Slots>) {
    forall e :: Count(ns, e) == Count(ms, e)
  }

  lemma SameReflexive(ns: seq<Slots>)
    ensures SameEntries(ns, ns)
  {
  }

  lemma SameTransitive(a: seq<Slots>, b: seq<Slots>, c: seq<Slots>)
    requires SameEntries(a, b) && SameEntries(b, c)
    ensures SameEntries(a, c)
  {
    forall e
      ensures Count(a, e) == Count(c, e)
    {
      assert Count(a, e) == Count(b, e);
    }
  }

  lemma SameContents(ns: seq<Slots>, ms: seq<Slots>)
    requires SameEntries(ns, ms)
    ensures Contents(ns) == Contents(ms)
  {
    forall e
      ensures Contents(ns)[e] == Contents(ms)[e]
    {
      ContentsCount(ns, e);
      ContentsCount(ms, e);
    }
  }

  ghost predicate VacantFrom(ns: seq<Slots>, k: nat) {
    forall b :: k <= b < |ns| ==> Vacant(ns[b])
  }

  lemma VacantFromEarlier(ns: seq<Slots>, p: seq<Slots>)
    requires 0 < |p| <= |ns| && p == ns[..|p|] && VacantFrom(ns, |p|) && Vacant(p[|p| - 1])
    ensures VacantFrom(ns, |p| - 1)
  {
  }

  lemma PrefixOfPrefix<T>(s: seq<T>, p: seq<T>, q: seq<T>)
    requires |p| <= |s| && p == s[..|p|] && |q| <= |p| && q == p[..|q|]
    ensures q == s[..|q|]
  {
  }

  /** Dropping empty nodes from the end loses no entry. */
  lemma {:induction false} DropVacant(ns: seq<Slots>, k: nat)
    requires k <= |ns| && VacantFrom(ns, k)
    ensures SameEntries(ns[..k], ns)
    decreases |ns|
  {
    if k == |ns| {
      assert ns[..k] == ns;
    } else {
      var rest := ns[..|ns| - 1];
      DropVacant(rest, k);
      assert rest[..k] == ns[..k];
      forall e
        ensures Count(ns[..k], e) == Count(ns, e)
      {
        assert Count(rest[..k], e) == Count(rest, e);
        VacantCount(ns[|ns| - 1], e);
      }
    }
  }

  /** The list after the entry in slot `j` of the last node has moved to slot `i` of node `a`. */
  function Moved(ns: seq<Slots>, a: nat, i: nat, j: nat): (r: seq<Slots>)
    requires a < |ns| && i < |ns[a]| && j < |ns[|ns| - 1]|
    ensures |r| == |ns| && forall c :: 0 <= c < |ns| ==> |r[c]| == |ns[c]|
  {
    var b := |ns| - 1;
    var filled := ns[a := ns[a][i := ns[b][j]]];
    filled[b := filled[b][j := EMPTY]]
  }

  /** Moving an entry into an empty slot keeps the contents. */
  lemma MoveKeepsContents(ns: seq<Slots>, a: nat, i: nat, j: nat)
    requires a < |ns| && i < |ns[a]| && j < |ns[|ns| - 1]| && !InUse(ns[a][i]) && InUse(ns[|ns| - 1][j])
    ensures SameEntries(Moved(ns, a, i, j), ns)
  {
    var b := |ns| - 1;
    var s := ns[b][j];
    var filled := ns[a := ns[a][i := s]];
    assert filled[b][j] == s;
    forall e
      ensures Count(Moved(ns, a, i, j), e) == Count(ns, e)
    {
      CountUpdate(ns, a, i, s, e);
      CountUpdate(filled, b, j, EMPTY, e);
    }
  }

  // ---------------------------------------------------------------- compaction

  /**
    Where the two cursors of the compaction stand: everything before slot `n` of node `a` is in
    use, and everything after slot `m` of the last node is empty.
   */
  ghost predicate Cursors(ns: seq<Slots>, a: nat, n: nat, m: int) {
    && a < |ns| && n <= |ns[a]| && -1 <= m < |ns[|ns| - 1]|
    && (forall c :: 0 <= c < a ==> Full(ns[c]))
    && FullBelow(ns[a], n)
    && VacantFromSlot(ns[|ns| - 1], m + 1)
  }

  /** The forward cursor has met the backward one. */
  predicate Met(ns: seq<Slots>, a: nat, n: nat, m: int) {
    a == |ns| - 1 && n >= m
  }

  /** All nodes but the last are full, and the last holds its entries first. */
  ghost predicate Compact(ns: seq<Slots>) {
    && (forall a :: 0 <= a < |ns| - 1 ==> Full(ns[a]))
    && (ns != [] ==> Packed(ns[|ns| - 1]))
  }

  /** When the cursors have met at an empty slot, or past the last one, the list is compact. */
  lemma MetIsCompact(ns: seq<Slots>, a: nat, i: nat, m: int)
    requires Cursors(ns, a, i, m) && Met(ns, a, i, m)
    requires i < |ns[a]| ==> !InUse(ns[a][i])
    ensures Compact(ns)
  {
    assert FullBelow(ns[a], i) && VacantFromSlot(ns[a], i);
  }

  /** One move: the hole is filled from the back, and both cursors advance past it. */
  lemma MoveKeepsCursors(ns: seq<Slots>, a: nat, i: nat, j: nat)
    requires Cursors(ns, a, i, j) && i < |ns[a]| && !InUse(ns[a][i]) && InUse(ns[|ns| - 1][j])
    requires !Met(ns, a, i, j)
    ensures Cursors(Moved(ns, a, i, j), a, i + 1, j - 1) && SameEntries(Moved(ns, a, i, j), ns)
  {
    var b := |ns| - 1;
    MoveKeepsContents(ns, a, i, j);
    var moved := Moved(ns, a, i, j);
    assert FullBelow(moved[a], i + 1) && VacantFromSlot(moved[b], j);
  }

  /** Dropping an empty last node moves the backward cursor to the end of the node before it. */
  lemma RetreatKeepsCursors(ns: seq<Slots>, a: nat, i: nat, max: nat)
    requires Cursors(ns, a, i, -1) && a < |ns| - 1 && Sized(ns, max) && max >= 1
    ensures Cursors(ns[..|ns| - 1], a, i, max - 1) && Vacant(ns[|ns| - 1])
  {
  }

  // ---------------------------------------------------------------- adding an entry

  /** The scan of one node keeps going after a hit: it ends with the LAST empty slot (control.c:295-303). */
  ghost predicate LastHole(n: Slots, i: int) {
    0 <= i < |n| && !InUse(n[i]) && forall k :: i < k < |n| ==> InUse(n[k])
  }

  function FindLastHole(n: Slots, hi: nat): (i: int)
    requires hi <= |n|
    ensures i == -1 ==> FullBelow(n, hi)
    ensures i != -1 ==> 0 <= i < hi && !InUse(n[i]) && forall k :: i < k < hi ==> InUse(n[k])
  {
    if hi == 0 then -1
    else if !InUse(n[hi - 1]) then hi - 1
    else FindLastHole(n, hi - 1)
  }

  datatype Place = At(node: nat, slot: nat) | Nowhere

  /** The slot control_Memory_Tracker_Add picks, looking from node `a` on. */
  function FindRoom(ns: seq<Slots>, a: nat): (p: Place)
    requires a <= |ns|
    ensures p.At? ==> a <= p.node < |ns| && LastHole(ns[p.node], p.slot) && forall b :: a <= b < p.node ==> Full(ns[b])
    ensures p.Nowhere? ==> forall b :: a <= b < |ns| ==> Full(ns[b])
    decreases |ns| - a
  {
    if a == |ns| then Nowhere
    else
      var n := FindLastHole(ns[a], |ns[a]|);
      if n != -1 then At(a, n)
      else FindRoom(ns, a + 1)
  }

  function FreshNode(max: nat, s: Slot): (n: Slots)
    requires max >= 1
  {
    seq(max, i => if i == 0 then s else EMPTY)
  }

  /** control_Memory_Tracker_Add; `granted` says whether a new node could be allocated. */
  function Add(ns: seq<Slots>, max: nat, s: Slot, granted: bool): (r: seq<Slots>)
    requires max >= 1 && Sized(ns, max)
    ensures Sized(r, max)
  {
    var p := FindRoom(ns, 0);
    if p.At? then ns[p.node := ns[p.node][p.slot := s]]
    else if granted then ns + [FreshNode(max, s)]
    else ns
  }

  /** Whether it reports success. */
  predicate AddSucceeds(ns: seq<Slots>, granted: bool) {
    FindRoom(ns, 0).At? || granted
  }

  /** A successful add puts in exactly the entry. */
  lemma AddAdds(ns: seq<Slots>, max: nat, s: Slot, granted: bool, e: Slot)
    requires max >= 1 && Sized(ns, max)
    ensures Count(Add(ns, max, s, granted), e)
         == if AddSucceeds(ns, granted) then Count(ns, e) + One(s, e) else Count(ns, e)
  {
    var p := FindRoom(ns, 0);
    if p.At? {
      CountUpdate(ns, p.node, p.slot, s, e);
    } else if granted {
      var vacant: Slots := seq(max, i => EMPTY);
      CountSnoc(ns, FreshNode(max, s), e);
      assert FreshNode(max, s) == vacant[0 := s];
      NodeUpdate(vacant, 0, s, e);
      VacantCount(vacant, e);
    }
  }

  /** Where it goes: the last empty slot of the first node that has one, or the first slot of a new node at the end. */
  lemma AddPlaces(ns: seq<Slots>, max: nat, s: Slot, granted: bool, a: nat, i: nat)
    requires max >= 1 && Sized(ns, max) && a < |Add(ns, max, s, granted)| && i < max
    ensures var r := Add(ns, max, s, granted);
            && |ns| <= |r| <= |ns| + 1
            && (|r| > |ns| <==> granted && forall b :: 0 <= b < |ns| ==> Full(ns[b]))
            && r[a][i] ==
               if a == |ns| then if i == 0 then s else EMPTY
               else if LastHole(ns[a], i) && forall b :: 0 <= b < a ==> Full(ns[b]) then s
               else ns[a][i]
  {
    var p := FindRoom(ns, 0);
    if p.At? {
      assert !InUse(ns[p.node][p.slot]);
      assert p.node < a ==> !Full(ns[p.node]);
      assert a < p.node ==> Full(ns[a]);
    }
  }

  // ---------------------------------------------------------------- freeing an entry

  function FindAddress(n: Slots, address: nat, lo: nat): (i: int)
    requires lo <= |n|
    ensures i == -1 ==> forall k :: lo <= k < |n| ==> n[k].address != address
    ensures i != -1 ==> lo <= i < |n| && n[i].address == address && forall k :: lo <= k < i ==> n[k].address != address
    decreases |n| - lo
  {
    if lo == |n| then -1
    else if n[lo].address == address then lo
    else FindAddress(n, address, lo + 1)
  }

  /** How the driver gives memory back. */
  datatype Release = Nothing | Kfree(address: nat) | Vfree(address: nat) | FreePages(address: nat, size: int)

  function ReleaseOf(s: Slot): Release {
    if s.vmalloc then Vfree(s.address) else FreePages(s.address, s.size)
  }

  /** The first slot tracking `address`, looking from node `a` on. */
  function FindEntry(ns: seq<Slots>, a: nat, address: nat): (p: Place)
    requires a <= |ns|
    ensures p.At? ==> a <= p.node < |ns| && p.slot < |ns[p.node]| && ns[p.node][p.slot].address == address
    ensures p.Nowhere? ==> forall b, i :: a <= b < |ns| && 0 <= i < |ns[b]| ==> ns[b][i].address != address
    decreases |ns| - a
  {
    if a == |ns| then Nowhere
    else
      var i := FindAddress(ns[a], address, 0);
      if i != -1 then At(a, i) else FindEntry(ns, a + 1, address)
  }

  datatype Freed = Freed(nodes: seq<Slots>, release: Release)

  /** CONTROL_Free_Memory. */
  function Free(ns: seq<Slots>, address: nat): (r: Freed)
    ensures |r.nodes| == |ns| && forall b :: 0 <= b < |ns| ==> |r.nodes[b]| == |ns[b]|
  {
    var p := FindEntry(ns, 0, address);
    if address == 0 then Freed(ns, Nothing)
    else if p.At? then Freed(ns[p.node := ns[p.node][p.slot := EMPTY]], ReleaseOf(ns[p.node][p.slot]))
    else Freed(ns, Kfree(address))
  }

  /** Freeing takes out one entry for the address, or nothing when there is none. */
  lemma FreeFrees(ns: seq<Slots>, address: nat, e: Slot)
    requires address != 0
    ensures var p := FindEntry(ns, 0, address);
            if p.At? then Count(Free(ns, address).nodes, e) + One(ns[p.node][p.slot], e) == Count(ns, e)
            else Count(Free(ns, address).nodes, e) == Count(ns, e) && (Count(ns, e) > 0 ==> e.address != address)
  {
    var p := FindEntry(ns, 0, address);
    if p.At? {
      CountUpdate(ns, p.node, p.slot, EMPTY, e);
    } else {
      CountIs(ns, e);
      if a :| 0 <= a < |ns| && e in ns[a] {
        var i :| 0 <= i < |ns[a]| && ns[a][i] == e;
      }
    }
  }

  // ---------------------------------------------------------------- runs of add and free

  datatype Request = Track(slot: Slot, granted: bool) | Untrack(address: nat)

  /** The tracker beside the bookkeeping its caller would do: live large allocations by address. */
  datatype State = State(nodes: seq<Slots>, book: map<nat, Slot>)

  function Serve(st: State, max: nat, q: Request): (r: State)
    requires max >= 1 && Sized(st.nodes, max)
    ensures Sized(r.nodes, max)
  {
    match q
    case Track(s, granted) =>
      State(Add(st.nodes, max, s, granted),
            if AddSucceeds(st.nodes, granted) then st.book[s.address := s] else st.book)
    case Untrack(address) =>
      State(Free(st.nodes, address).nodes, st.book - {address})
  }

  function ServeAll(st: State, max: nat, qs: seq<Request>): (r: State)
    requires max >= 1 && Sized(st.nodes, max)
    ensures Sized(r.nodes, max)
  {
    if qs == [] then st else Serve(ServeAll(st, max, qs[..|qs| - 1]), max, qs[|qs| - 1])
  }

  /** The allocator returns an address that is not NULL and not in use. */
  predicate Sensible(st: State, q: Request) {
    q.Track? ==> InUse(q.slot) && q.slot.address !in st.book
  }

  ghost predicate AllSensible(st: State, max: nat, qs: seq<Request>)
    requires max >= 1 && Sized(st.nodes, max)
  {
    qs == [] || (AllSensible(st, max, qs[..|qs| - 1]) && Sensible(ServeAll(st, max, qs[..|qs| - 1]), qs[|qs| - 1]))
  }

  /** The slots in use are exactly the entries of the book, each once. */
  ghost predicate Tracks(st: State) {
    forall e :: Count(st.nodes, e) == if InUse(e) && e.address in st.book && st.book[e.address] == e then 1 else 0
  }

  /** Every allocation in the book is filed under its own address. */
  ghost predicate Filed(st: State) {
    forall a :: a in st.book ==> a != 0 && st.book[a].address == a
  }

  lemma TrackKeepsBook(st: State, max: nat, q: Request)
    requires max >= 1 && Sized(st.nodes, max) && Tracks(st) && Filed(st) && q.Track? && Sensible(st, q)
    ensures Tracks(Serve(st, max, q)) && Filed(Serve(st, max, q))
  {
    forall e
      ensures Count(Add(st.nodes, max, q.slot, q.granted), e)
           == if AddSucceeds(st.nodes, q.granted) then Count(st.nodes, e) + One(q.slot, e) else Count(st.nodes, e)
    {
      AddAdds(st.nodes, max, q.slot, q.granted, e);
    }
  }

  /** A tracked vmalloc allocation goes to vfree, any other tracked one to free_pages with its size, and the rest to kfree. */
  predicate ReleasedAsMade(book: map<nat, Slot>, address: nat, r: Release) {
    && (address == 0 ==> r == Nothing)
    && (address != 0 && address in book && book[address].vmalloc ==> r == Vfree(address))
    && (address != 0 && address in book && !book[address].vmalloc ==> r == FreePages(address, book[address].size))
    && (address != 0 && address !in book ==> r == Kfree(address))
  }

  /** Freeing releases a tracked allocation the way it was made, and passes any other to kfree. */
  lemma UntrackKeepsBook(st: State, max: nat, address: nat)
    requires max >= 1 && Sized(st.nodes, max) && Tracks(st) && Filed(st)
    ensures Tracks(Serve(st, max, Untrack(address))) && Filed(Serve(st, max, Untrack(address)))
    ensures ReleasedAsMade(st.book, address, Free(st.nodes, address).release)
  {
    if address != 0 {
      assert address in st.book ==> Count(st.nodes, st.book[address]) == 1;
      var p := FindEntry(st.nodes, 0, address);
      if p.At? {
        CountIs(st.nodes, st.nodes[p.node][p.slot]);
      }
      forall e
        ensures if p.At? then Count(Free(st.nodes, address).nodes, e) + One(st.nodes[p.node][p.slot], e) == Count(st.nodes, e)
                else Count(Free(st.nodes, address).nodes, e) == Count(st.nodes, e) && (Count(st.nodes, e) > 0 ==> e.address != address)
      {
        FreeFrees(st.nodes, address, e);
      }
    }
  }

  /**
    Over any run of add and free the slots in use are exactly the allocations tracked and not
    yet freed.
   */
  lemma {:induction false} TrackerHoldsExactlyTheLive(st: State, max: nat, qs: seq<Request>)
    requires max >= 1 && Sized(st.nodes, max) && Tracks(st) && Filed(st) && AllSensible(st, max, qs)
    ensures Tracks(ServeAll(st, max, qs)) && Filed(ServeAll(st, max, qs))
  {
    if qs != [] {
      TrackerHoldsExactlyTheLive(st, max, qs[..|qs| - 1]);
      var was := ServeAll(st, max, qs[..|qs| - 1]);
      match qs[|qs| - 1]
      case Track(s, granted) => TrackKeepsBook(was, max, Track(s, granted));
      case Untrack(address) => UntrackKeepsBook(was, max, address);
    }
  }

  /**
    After any run of add and free, freeing an address in the book gives it to vfree if its entry
    says so and else to free_pages with the entry's size; an address that is in no entry goes to kfree.
   */
  lemma FreesAsMade(st: State, max: nat, qs: seq<Request>, address: nat)
    requires max >= 1 && Sized(st.nodes, max) && Tracks(st) && Filed(st) && AllSensible(st, max, qs) && address != 0
    ensures var r := ServeAll(st, max, qs);
            var release := Free(r.nodes, address).release;
            && (address in r.book && r.book[address].vmalloc ==> release == Vfree(address))
            && (address in r.book && !r.book[address].vmalloc ==> release == FreePages(address, r.book[address].size))
            && (address !in r.book ==> release == Kfree(address))
  {
    TrackerHoldsExactlyTheLive(st, max, qs);
    UntrackKeepsBook(ServeAll(st, max, qs), max, address);
  }

  // ---------------------------------------------------------------- teardown

  /** The entries of one node below `hi`, in slot order. */
  function UsedBelow(n: Slots, hi: nat): seq<Slot>
    requires hi <= |n|
  {
    if hi == 0 then []
    else UsedBelow(n, hi - 1) + (if InUse(n[hi - 1]) then [n[hi - 1]] else [])
  }

  /** The entries CONTROL_Memory_Tracker_Free hands to free_pages, in order. */
  function Teardown(ns: seq<Slots>): seq<Slot> {
    if ns == [] then [] else UsedBelow(ns[0], |ns[0]|) + Teardown(ns[1..])
  }

  lemma {:induction false} NodeCountConcat(n: Slots, m: Slots, e: Slot)
    ensures NodeCount(n + m, e) == NodeCount(n, e) + NodeCount(m, e)
  {
    if m == [] {
      assert n + m == n;
    } else {
      assert (n + m)[..|n + m| - 1] == n + m[..|m| - 1];
      NodeCountConcat(n, m[..|m| - 1], e);
    }
  }

  lemma {:induction false} UsedCount(n: Slots, hi: nat, e: Slot)
    requires hi <= |n|
    ensures NodeCount(UsedBelow(n, hi), e) == NodeCount(n[..hi], e)
  {
    if hi > 0 {
      UsedCount(n, hi - 1, e);
      assert n[..hi][..hi - 1] == n[..hi - 1];
      var used := UsedBelow(n, hi - 1);
      if InUse(n[hi - 1]) {
        assert (used + [n[hi - 1]])[..|used|] == used;
      } else {
        assert used + [] == used;
      }
    }
  }

  lemma {:induction false} CountFront(ns: seq<Slots>, e: Slot)
    requires ns != []
    ensures Count(ns, e) == NodeCount(ns[0], e) + Count(ns[1..], e)
  {
    if |ns| > 1 {
      CountFront(ns[..|ns| - 1], e);
      assert ns[..|ns| - 1][1..] == ns[1..][..|ns| - 2];
    }
  }

  /** Teardown releases every remaining allocation exactly once, and nothing else. */
  lemma {:induction false} TeardownReleasesOnce(ns: seq<Slots>, e: Slot)
    ensures NodeCount(Teardown(ns), e) == Count(ns, e)
  {
    if ns != [] {
      TeardownReleasesOnce(ns[1..], e);
      assert ns[0][..|ns[0]|] == ns[0];
      UsedCount(ns[0], |ns[0]|, e);
      NodeCountConcat(UsedBelow(ns[0], |ns[0]|), Teardown(ns[1..]), e);
      CountFront(ns, e);
    }
  }

  /**
    Teardown hands everything to free_pages, so it releases each allocation the way it was
    made exactly when no vmalloc allocation is left.
   */
  lemma TeardownMatchesAllocator(ns: seq<Slots>)
    ensures (forall s :: s in Teardown(ns) ==> FreePages(s.address, s.size) == ReleaseOf(s))
       <==> (forall s :: Count(ns, s) > 0 ==> !s.vmalloc)
  {
    forall s: Slot
      ensures (s in Teardown(ns) && InUse(s)) <==> Count(ns, s) > 0
      ensures s in Teardown(ns) ==> InUse(s)
    {
      TeardownReleasesOnce(ns, s);
      NodeCountIs(Teardown(ns), s);
      TeardownInUse(ns, s);
    }
  }

  lemma {:induction false} UsedInUse(n: Slots, hi: nat, s: Slot)
    requires hi <= |n|
    ensures s in UsedBelow(n, hi) ==> InUse(s)
  {
    if hi > 0 {
      UsedInUse(n, hi - 1, s);
    }
  }

  lemma {:induction false} TeardownInUse(ns: seq<Slots>, s: Slot)
    ensures s in Teardown(ns) ==> InUse(s)
  {
    if ns != [] {
      UsedInUse(ns[0], |ns[0]|, s);
      TeardownInUse(ns[1..], s);
    }
  }
}
