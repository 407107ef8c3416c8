/**
  * Whole runs of one cpu's output buffers: a producer, one reader whose reads take several steps, and the flush. A read
  * first scans for a buffer with something marked, then tests the flush flag and waits if there is neither, and only
  * then copies and marks the buffer empty; the producer and the flush may act between any two of these steps. What a
  * read copies is what its scan found, which need not be what is marked by then.
  */
module OutputRuns {
  import opened Records
  import opened OutputSpec

  /** Where the reader is: between reads, past the scan with a byte count in hand, asleep, or told end of file. */
  datatype Phase = Idle | Scanned(j: nat, n: nat) | Waiting(j: nat) | Done

  datatype World = World(o: Out, flushed: bool, phase: Phase, accepted: seq<Msg>, delivered: seq<Msg>)

  /** `Tested` and `Woken` finish a read: they copy, mark the buffer empty and report end of file when nothing was copied. */
  datatype Event = Wrote(m: Msg) | Scan | Tested | Woken | Flush

  function Finish(w: World, j: nat, n: nat): World
    requires j < |w.o.slots| && n <= |w.o.slots[j].recs|
  {
    w.(o := w.o.(slots := w.o.slots[j := w.o.slots[j].(ready := 0)]),
       phase := if n == 0 then Done else Idle,
       delivered := w.delivered + w.o.slots[j].recs[..n])
  }

  /** The steps open to the producer, the reader and the flush. */
  ghost predicate Enabled(w: World, total: nat, e: Event) {
    && OutOk(w.o, total)
    && match e
       case Wrote(m) => !w.flushed
       case Scan => w.phase.Idle?
       case Tested => w.phase.Scanned? && w.phase.j < |w.o.slots| && w.phase.n <= |w.o.slots[w.phase.j].recs|
       case Woken => w.phase.Waiting? && w.phase.j < |w.o.slots| && (w.flushed || w.o.slots[w.phase.j].ready > 0)
       case Flush => !w.flushed
  }

  function Do(w: World, total: nat, e: Event): World
    requires Enabled(w, total, e)
  {
    match e
    case Wrote(m) =>
      var r := Put(w.o, total, m);
      w.(o := r.0, accepted := if r.1 then w.accepted + [m] else w.accepted)
    case Scan => w.(phase := Scanned(Pick(w.o, 1), w.o.slots[Pick(w.o, 1)].ready))
    case Tested =>
      if w.phase.n == 0 && !w.flushed then w.(phase := Waiting(w.phase.j)) else Finish(w, w.phase.j, w.phase.n)
    case Woken => Finish(w, w.phase.j, w.o.slots[w.phase.j].ready)
    case Flush => w.(o := Marked(w.o), flushed := true)
  }

  /** The event ends a read: it copies, marks the buffer empty and maybe reports end of file. */
  predicate EndsRead(w: World, e: Event) {
    (e.Tested? && w.phase.Scanned? && (w.phase.n > 0 || w.flushed)) || (e.Woken? && w.phase.Waiting?)
  }

  /** How many records it copies: as many as the scan found, or after a wait as many as are marked by then. */
  function Copied(w: World, e: Event): nat
    requires EndsRead(w, e) && w.phase.j < |w.o.slots|
  {
    if e.Tested? then w.phase.n else w.o.slots[w.phase.j].ready
  }

  ghost predicate NothingUnread(o: Out)
    requires o.current < |o.slots|
  {
    o.slots[o.current].recs == [] && OthersRead(o, o.current)
  }

  /**
    * The runs looked at: records fit an empty buffer, refused or not, and the flush does not fall between a scan
    * that found nothing and the test that follows it, unless nothing is unread.
    */
  ghost predicate Covered(w: World, total: nat, e: Event) {
    && Enabled(w, total, e)
    && (e.Wrote? ==> |e.m| <= total)
    && (e.Flush? && w.phase.Scanned? && w.phase.n == 0 ==> NothingUnread(w.o))
  }

  ghost predicate CoveredRun(w: World, total: nat, es: seq<Event>, r: World)
    decreases |es|
  {
    if es == [] then r == w
    else Covered(w, total, es[0]) && CoveredRun(Do(w, total, es[0]), total, es[1..], r)
  }

  /** A read that copies anything copies all records of a buffer the producer is not writing to. */
  predicate Whole(w: World, e: Event) {
    EndsRead(w, e) && w.phase.j < |w.o.slots| && Copied(w, e) > 0 ==>
      Copied(w, e) == |w.o.slots[w.phase.j].recs| && (w.flushed || w.phase.j != w.o.current)
  }

  ghost predicate WholeReads(w: World, total: nat, es: seq<Event>)
    decreases |es|
  {
    es == [] || (Enabled(w, total, es[0]) && Whole(w, es[0]) && WholeReads(Do(w, total, es[0]), total, es[1..]))
  }

  ghost predicate Fresh(w: World) {
    && w.o.current == 0 < |w.o.slots|
    && (forall j :: 0 <= j < |w.o.slots| ==> w.o.slots[j] == Slot([], 0))
    && !w.flushed && w.phase.Idle? && w.accepted == [] && w.delivered == []
  }

  // ----- The invariant -----

  /** A reader that found nothing waits on the buffer that will be marked first. */
  ghost predicate WaitsRight(o: Out, j: nat) {
    j < |o.slots| && if o.current == j then OthersRead(o, j) else o.slots[j].ready > 0
  }

  ghost predicate ReaderOk(w: World) {
    match w.phase
    case Idle => true
    case Scanned(j, n) =>
      && j < |w.o.slots|
      && if n == 0 then (if w.flushed then AllRead(w.o) else WaitsRight(w.o, j))
         else n <= w.o.slots[j].ready && (j == w.o.current ==> OthersRead(w.o, j))
    case Waiting(j) => WaitsRight(w.o, j)
    case Done => w.flushed && AllRead(w.o)
  }

  ghost predicate AllRead(o: Out) { forall i :: 0 <= i < |o.slots| ==> o.slots[i].ready == 0 }

  ghost predicate Inv(w: World, total: nat) { Good(w.o, total, w.flushed) && ReaderOk(w) }

  /** The rows of unread records and the two logs, in balance. */
  ghost predicate Balanced(w: World, total: nat) {
    Inv(w, total) && multiset(w.accepted) == multiset(w.delivered) + Bag(AllUnread(w.o, w.flushed), 0)
  }

  /** Two rows of unread records, the older one first, follow what has been delivered. */
  predicate InRows(accepted: seq<Msg>, delivered: seq<Msg>, u: seq<seq<Msg>>, c: nat) {
    |u| == 2 && c < 2 && accepted == delivered + u[1 - c] + u[c]
  }

  /** With two buffers: the other buffer's unread records are older than the current one's. */
  ghost predicate Ordered(w: World, total: nat) {
    Inv(w, total) && InRows(w.accepted, w.delivered, AllUnread(w.o, w.flushed), w.o.current)
  }

  lemma WroteKeeps(w: World, total: nat, m: Msg)
    requires Inv(w, total) && Covered(w, total, Wrote(m))
    ensures Inv(Do(w, total, Wrote(m)), total)
  {
    if Put(w.o, total, m).1 {
      PutAddsOne(w.o, total, m);
      PutMarks(w.o, total, m);
    } else {
      RefusalMarks(w.o, total, m);
    }
    assert ReaderOk(Do(w, total, Wrote(m)));
  }

  lemma ScanKeeps(w: World, total: nat)
    requires Inv(w, total) && Covered(w, total, Scan)
    ensures Inv(Do(w, total, Scan), total)
  {
    PickIsExact(w.o);
    if Pick(w.o, 1) == w.o.current {
      PickPrefersOthers(w.o);
    }
  }

  lemma FlushKeeps(w: World, total: nat)
    requires Inv(w, total) && Covered(w, total, Flush)
    ensures Inv(Do(w, total, Flush), total)
    ensures AllUnread(Do(w, total, Flush).o, true) == AllUnread(w.o, false)
  {
    MarkKeepsUnread(w.o, total);
  }

  /** A read that ends leaves its buffer empty; it reports end of file only when all are. */
  lemma EndKeeps(w: World, total: nat, e: Event)
    requires Inv(w, total) && Enabled(w, total, e) && EndsRead(w, e)
    ensures var j, n := w.phase.j, Copied(w, e);
            j < |w.o.slots| && n <= w.o.slots[j].ready && Do(w, total, e) == Finish(w, j, n)
            && (n == 0 ==> w.flushed && AllRead(w.o)) && (j == w.o.current ==> OthersRead(w.o, j))
    ensures Inv(Do(w, total, e), total)
  {}

  lemma DoKeeps(w: World, total: nat, e: Event)
    requires Inv(w, total) && Covered(w, total, e)
    ensures Inv(Do(w, total, e), total)
  {
    match e {
      case Wrote(m) => WroteKeeps(w, total, m);
      case Scan => ScanKeeps(w, total);
      case Flush => FlushKeeps(w, total);
      case _ =>
        if EndsRead(w, e) {
          EndKeeps(w, total, e);
        }
    }
  }

  /** A whole read takes the unread records of one buffer, the current one only when nothing else is left. */
  lemma WholeTakes(w: World, total: nat, e: Event)
    requires Inv(w, total) && Enabled(w, total, e) && EndsRead(w, e) && Whole(w, e)
    ensures var j, r := w.phase.j, Do(w, total, e);
            && j < |w.o.slots| && Inv(r, total) && r.o.current == w.o.current && |r.o.slots| == |w.o.slots|
            && r.flushed == w.flushed && r.accepted == w.accepted
            && AllUnread(r.o, w.flushed) == AllUnread(w.o, w.flushed)[j := []]
            && r.delivered == w.delivered + AllUnread(w.o, w.flushed)[j]
            && (j == w.o.current ==> w.flushed && OthersRead(w.o, j))
  {
    EndKeeps(w, total, e);
    TakeRemoves(w.o, total, w.flushed, w.phase.j);
  }

  lemma WroteBalanced(w: World, total: nat, m: Msg)
    requires Balanced(w, total) && Covered(w, total, Wrote(m))
    ensures Balanced(Do(w, total, Wrote(m)), total)
  {
    WroteKeeps(w, total, m);
    if Put(w.o, total, m).1 {
      PutAddsOne(w.o, total, m);
      BagAppend(AllUnread(w.o, false), Put(w.o, total, m).0.current, m);
      assert multiset(w.accepted + [m]) == multiset(w.accepted) + multiset{m};
    } else {
      RefusalMarks(w.o, total, m);
    }
  }

  lemma EndBalanced(w: World, total: nat, e: Event)
    requires Balanced(w, total) && Enabled(w, total, e) && EndsRead(w, e) && Whole(w, e)
    ensures Balanced(Do(w, total, e), total)
  {
    WholeTakes(w, total, e);
    var u := AllUnread(w.o, w.flushed);
    BagRemove(u, w.phase.j);
    assert multiset(w.delivered + u[w.phase.j]) == multiset(w.delivered) + multiset(u[w.phase.j]);
  }

  lemma DoBalanced(w: World, total: nat, e: Event)
    requires Balanced(w, total) && Covered(w, total, e) && Whole(w, e)
    ensures Balanced(Do(w, total, e), total)
  {
    match e {
      case Wrote(m) => WroteBalanced(w, total, m);
      case Scan => ScanKeeps(w, total);
      case Flush => FlushKeeps(w, total);
      case _ =>
        if EndsRead(w, e) {
          EndBalanced(w, total, e);
        }
    }
  }

  /** A record joins the newer row, or opens it anew. */
  lemma JoinRow(accepted: seq<Msg>, delivered: seq<Msg>, u: seq<seq<Msg>>, c: nat, d: nat, m: Msg)
    requires InRows(accepted, delivered, u, c) && d < 2 && (d != c ==> u[d] == [])
    ensures InRows(accepted + [m], delivered, u[d := u[d] + [m]], d)
  {
    if d == c {
      assert accepted + [m] == delivered + u[1 - c] + (u[c] + [m]);
    } else {
      assert accepted + [m] == delivered + u[c] + ([] + [m]);
    }
  }

  lemma WroteOrdered(w: World, total: nat, m: Msg)
    requires Ordered(w, total) && Covered(w, total, Wrote(m))
    ensures Ordered(Do(w, total, Wrote(m)), total)
  {
    WroteKeeps(w, total, m);
    if Put(w.o, total, m).1 {
      PutAddsOne(w.o, total, m);
      JoinRow(w.accepted, w.delivered, AllUnread(w.o, false), w.o.current, Put(w.o, total, m).0.current, m);
    } else {
      RefusalMarks(w.o, total, m);
    }
  }

  /** Taking the older row keeps the order, and so does taking the newer when the older is empty. */
  lemma TakeRow(accepted: seq<Msg>, delivered: seq<Msg>, u: seq<seq<Msg>>, c: nat, j: nat)
    requires InRows(accepted, delivered, u, c) && j < 2 && (j == c ==> u[1 - c] == [])
    ensures InRows(accepted, delivered + u[j], u[j := []], c)
  {
    if j == c {
      assert delivered + [] + u[c] == (delivered + u[c]) + [] + [];
    } else {
      assert delivered + u[j] + u[c] == (delivered + u[j]) + [] + u[c];
    }
  }

  lemma EndOrdered(w: World, total: nat, e: Event)
    requires Ordered(w, total) && Enabled(w, total, e) && EndsRead(w, e) && Whole(w, e)
    ensures Ordered(Do(w, total, e), total)
  {
    WholeTakes(w, total, e);
    TakeRow(w.accepted, w.delivered, AllUnread(w.o, w.flushed), w.o.current, w.phase.j);
  }

  lemma DoOrdered(w: World, total: nat, e: Event)
    requires Ordered(w, total) && Covered(w, total, e) && Whole(w, e)
    ensures Ordered(Do(w, total, e), total)
  {
    match e {
      case Wrote(m) => WroteOrdered(w, total, m);
      case Scan => ScanKeeps(w, total);
      case Flush => FlushKeeps(w, total);
      case _ =>
        if EndsRead(w, e) {
          EndOrdered(w, total, e);
        }
    }
  }

  lemma FreshHolds(w: World, total: nat)
    requires Fresh(w)
    ensures Balanced(w, total)
    ensures |w.o.slots| == 2 ==> Ordered(w, total)
  {
    BagEmpty(AllUnread(w.o, false), 0);
  }

  lemma {:induction false} RunBalanced(w: World, total: nat, es: seq<Event>, r: World)
    requires Balanced(w, total) && CoveredRun(w, total, es, r) && WholeReads(w, total, es)
    ensures Balanced(r, total)
    decreases |es|
  {
    if es != [] {
      DoBalanced(w, total, es[0]);
      RunBalanced(Do(w, total, es[0]), total, es[1..], r);
    }
  }

  lemma {:induction false} RunOrdered(w: World, total: nat, es: seq<Event>, r: World)
    requires Ordered(w, total) && CoveredRun(w, total, es, r) && WholeReads(w, total, es)
    ensures Ordered(r, total)
    decreases |es|
  {
    if es != [] {
      DoOrdered(w, total, es[0]);
      RunOrdered(Do(w, total, es[0]), total, es[1..], r);
    }
  }

  /**
    * Exactly once, for any number of buffers: in a covered run whose reads are whole every record accepted is
    * delivered once or still unread, and when the reader is told end of file all of them have been delivered.
    */
  lemma ExactlyOnce(w: World, total: nat, es: seq<Event>, r: World)
    requires Fresh(w) && CoveredRun(w, total, es, r) && WholeReads(w, total, es)
    ensures Balanced(r, total)
    ensures r.phase.Done? ==> multiset(r.delivered) == multiset(r.accepted)
  {
    FreshHolds(w, total);
    RunBalanced(w, total, es, r);
    if r.phase.Done? {
      BagEmpty(AllUnread(r.o, true), 0);
    }
  }

  lemma OrderedPrefix(r: World, total: nat)
    requires Ordered(r, total)
    ensures r.delivered <= r.accepted && Flatten(r.delivered) <= Flatten(r.accepted)
    ensures r.phase.Done? ==> r.delivered == r.accepted
  {
    var u := AllUnread(r.o, r.flushed);
    var rest := u[1 - r.o.current] + u[r.o.current];
    assert r.accepted == r.delivered + rest;
    FlattenConcat(r.delivered, rest);
  }

  /** With two buffers, the records are also delivered in the order they were reserved. */
  lemma InReservationOrder(w: World, total: nat, es: seq<Event>, r: World)
    requires Fresh(w) && |w.o.slots| == 2 && CoveredRun(w, total, es, r) && WholeReads(w, total, es)
    ensures r.delivered <= r.accepted && Flatten(r.delivered) <= Flatten(r.accepted)
    ensures r.phase.Done? ==> r.delivered == r.accepted
  {
    FreshHolds(w, total);
    RunOrdered(w, total, es, r);
    OrderedPrefix(r, total);
  }

  // ----- Runs without a refusal -----

  /** No record of the run is refused. */
  ghost predicate NoRefusal(w: World, total: nat, es: seq<Event>)
    decreases |es|
  {
    es == []
    || (&& Enabled(w, total, es[0]) && (es[0].Wrote? ==> Put(w.o, total, es[0].m).1)
        && NoRefusal(Do(w, total, es[0]), total, es[1..]))
  }

  /** Until the flush nothing is marked in the buffer the producer writes to; what a scan has found is still there. */
  ghost predicate Unmarked(w: World) {
    && w.o.current < |w.o.slots|
    && (!w.flushed ==> w.o.slots[w.o.current].ready == 0)
    && (w.phase.Scanned? && w.phase.n > 0 ==>
          && w.phase.j < |w.o.slots| && w.o.slots[w.phase.j].ready == w.phase.n
          && (w.flushed || w.phase.j != w.o.current))
  }

  lemma UnmarkedWhole(w: World, total: nat, e: Event)
    requires Inv(w, total) && Unmarked(w) && Enabled(w, total, e)
    ensures Whole(w, e)
  {}

  lemma DoUnmarked(w: World, total: nat, e: Event)
    requires Inv(w, total) && Unmarked(w) && Covered(w, total, e) && (e.Wrote? ==> Put(w.o, total, e.m).1)
    ensures Unmarked(Do(w, total, e))
  {
    if e.Wrote? {
      PutMarks(w.o, total, e.m);
    }
  }

  lemma {:induction false} UnrefusedWhole(w: World, total: nat, es: seq<Event>, r: World)
    requires Inv(w, total) && Unmarked(w) && CoveredRun(w, total, es, r) && NoRefusal(w, total, es)
    ensures WholeReads(w, total, es)
    decreases |es|
  {
    if es != [] {
      UnmarkedWhole(w, total, es[0]);
      DoUnmarked(w, total, es[0]);
      DoKeeps(w, total, es[0]);
      UnrefusedWhole(Do(w, total, es[0]), total, es[1..], r);
    }
  }

  /** Without a refusal every read is whole, so a covered run delivers exactly once. */
  lemma ExactlyOnceUnrefused(w: World, total: nat, es: seq<Event>, r: World)
    requires Fresh(w) && CoveredRun(w, total, es, r) && NoRefusal(w, total, es)
    ensures WholeReads(w, total, es) && Balanced(r, total)
    ensures r.phase.Done? ==> multiset(r.delivered) == multiset(r.accepted)
  {
    FreshHolds(w, total);
    UnrefusedWhole(w, total, es, r);
    ExactlyOnce(w, total, es, r);
  }

  // ----- The end of a session -----

  function ReadyCount(slots: seq<Slot>, i: nat): nat
    requires i <= |slots|
    decreases |slots| - i
  {
    if i == |slots| then 0 else (if slots[i].ready > 0 then 1 else 0) + ReadyCount(slots, i + 1)
  }

  lemma {:induction false} ReadyDrops(slots: seq<Slot>, i: nat, j: nat)
    requires i <= |slots| && j < |slots| && slots[j].ready > 0
    ensures ReadyCount(slots[j := slots[j].(ready := 0)], i) == ReadyCount(slots, i) - (if j < i then 0 else 1)
    decreases |slots| - i
  {
    if i < |slots| {
      ReadyDrops(slots, i + 1, j);
    }
  }

  /** One read after the flush: it empties a marked buffer, or reports end of file. */
  lemma ReadAfterFlush(w: World, total: nat)
    requires Balanced(w, total) && w.flushed && w.phase.Idle?
    ensures Enabled(w, total, Scan) && Enabled(Do(w, total, Scan), total, Tested)
    ensures var r := Do(Do(w, total, Scan), total, Tested);
            && Balanced(r, total) && r.flushed && r.accepted == w.accepted
            && (r.phase.Done? || (r.phase.Idle? && ReadyCount(r.o.slots, 0) < ReadyCount(w.o.slots, 0)))
  {
    DoBalanced(w, total, Scan);
    var s := Do(w, total, Scan);
    DoBalanced(s, total, Tested);
    if s.phase.n > 0 {
      ReadyDrops(w.o.slots, 0, s.phase.j);
    }
  }

  /** The reader's loop after the flush, until end of file. */
  ghost function ReadOut(w: World, total: nat): World
    requires Balanced(w, total) && w.flushed && w.phase.Idle?
    decreases ReadyCount(w.o.slots, 0)
  {
    ReadAfterFlush(w, total);
    var r := Do(Do(w, total, Scan), total, Tested);
    if r.phase.Done? then r else ReadOut(r, total)
  }

  /** After the flush the reader reaches end of file, and by then it has every record exactly once. */
  lemma {:induction false} ReadOutDelivers(w: World, total: nat)
    requires Balanced(w, total) && w.flushed && w.phase.Idle?
    ensures var r := ReadOut(w, total);
            r.phase.Done? && r.accepted == w.accepted && multiset(r.delivered) == multiset(w.accepted)
    decreases ReadyCount(w.o.slots, 0)
  {
    ReadAfterFlush(w, total);
    var r := Do(Do(w, total, Scan), total, Tested);
    if r.phase.Done? {
      BagEmpty(AllUnread(r.o, true), 0);
    } else {
      ReadOutDelivers(r, total);
    }
  }
}
