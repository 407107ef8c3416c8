/**
  * Order of delivery in the first collection after a reset, for any number of segments: without polls and drops the
  * ring order of the segments is their age, so no further condition is needed. The invariant has two forms, one for
  * collecting (full segments, then the producer's, then untouched ones, from the oldest on) and one for draining (the
  * segments that still hold something come first); the reader's cursor stands on the oldest segment or just before it.
  */
module SegmentOrder {
  import opened Records
  import opened SegmentSpec
  import opened SegmentRuns

  /** The messages of the segments from the k-th past `base` on, in ring order. */
  function InOrder(segs: seq<Segment>, base: nat, k: nat): seq<Msg>
    requires base < |segs| && k <= |segs|
    decreases |segs| - k
  {
    if k == |segs| then [] else segs[Ring(base, k, |segs|)].msgs + InOrder(segs, base, k + 1)
  }

  lemma {:induction false} InOrderStore(segs: seq<Segment>, other: seq<Segment>, base: nat, f: nat, m: Msg, k: nat)
    requires |other| == |segs| && base < |segs| && k <= |segs| && f < |segs|
    requires forall j :: 0 <= j < |segs| ==>
               other[Ring(base, j, |segs|)].msgs == segs[Ring(base, j, |segs|)].msgs + if j == f then [m] else []
    requires forall j :: f < j < |segs| ==> segs[Ring(base, j, |segs|)].msgs == []
    ensures InOrder(other, base, k) == InOrder(segs, base, k) + if k <= f then [m] else []
    ensures k > f ==> InOrder(segs, base, k) == []
    decreases |segs| - k
  {
    if k < |segs| {
      InOrderStore(segs, other, base, f, m, k + 1);
    }
  }

  /** Emptying the oldest segment takes its messages off the front. */
  lemma {:induction false} InOrderDrop(segs: seq<Segment>, base: nat, k: nat)
    requires base < |segs| && k < |segs|
    ensures var n := |segs|;
            InOrder(segs[base := Segment([], false)], Ring(base, 1, n), k) == InOrder(segs, base, k + 1)
    decreases |segs| - k
  {
    var n := |segs|;
    var t := segs[base := Segment([], false)];
    if k + 1 < n {
      assert Ring(Ring(base, 1, n), k, n) == Ring(base, k + 1, n) != base;
      InOrderDrop(segs, base, k + 1);
    } else {
      assert Ring(Ring(base, 1, n), k, n) == base;
      assert InOrder(t, Ring(base, 1, n), n) == [];
    }
  }

  lemma {:induction false} InOrderDead(segs: seq<Segment>, base: nat, k: nat)
    requires base < |segs| && k <= |segs|
    requires forall i :: 0 <= i < |segs| ==> segs[i].msgs == []
    ensures InOrder(segs, base, k) == []
    decreases |segs| - k
  {
    if k < |segs| {
      InOrderDead(segs, base, k + 1);
    }
  }

  /**
    * While collecting without a drop: f full segments from `base` on, then the producer's segment,
    * then untouched ones.
    */
  ghost predicate Collecting(b: Buffer, base: nat, f: nat) {
    var n := |b.segs|;
    && base < n && f < n && b.index == Ring(base, f, n)
    && !b.segs[b.index].full
    && (forall j :: 0 <= j < f ==> b.segs[Ring(base, j, n)].full)
    && (forall j :: f < j < n ==> Dead(b.segs[Ring(base, j, n)]))
  }

  /** Once producers have stopped: the segments still holding something come first. */
  ghost predicate Draining(b: Buffer, base: nat, f: nat) {
    var n := |b.segs|;
    && base < n && f <= n
    && (forall j :: 0 <= j < f ==> Hit(b.segs[Ring(base, j, n)], true))
    && (forall j :: f <= j < n ==> Dead(b.segs[Ring(base, j, n)]))
  }

  ghost predicate Lined(b: Buffer, base: nat, draining: bool) {
    if draining then exists f: nat :: Draining(b, base, f) else exists f: nat :: Collecting(b, base, f)
  }

  /** Where the oldest data lies: at the reader's cursor while a segment is handed out, else one past it. */
  function Oldest(b: Buffer, out: bool): nat
    requires BufferOk(b)
  {
    if out && b.last >= 0 then b.last else Next(b.last, |b.segs|)
  }

  /** A buffer that has dropped nothing holds the undelivered messages in ring order. */
  ghost predicate Ordered(b: Buffer, h: History, draining: bool, out: bool) {
    && BufferOk(b)
    && (out ==> 0 <= b.last)
    && (b.dropped == 0 ==>
          && (out ==> Hit(b.segs[b.last], draining))
          && Lined(b, Oldest(b, out), draining)
          && h.accepted == h.delivered + InOrder(b.segs, Oldest(b, out), 0))
  }

  lemma CollectingStays(b: Buffer, base: nat, f: nat, m: Msg)
    requires BufferOk(b) && Collecting(b, base, f) && Space(b.segs[b.index]) >= |m|
    ensures Collecting(Produce(b, m), base, f)
    ensures InOrder(Produce(b, m).segs, base, 0) == InOrder(b.segs, base, 0) + [m]
  {
    InOrderStore(b.segs, Produce(b, m).segs, base, f, m, 0);
  }

  lemma OversizeDrops(b: Buffer, m: Msg)
    requires BufferOk(b) && |m| > SEG_DATA_SIZE
    ensures Produce(b, m).dropped > b.dropped
  {
    ProduceFits(b, m);
  }

  /** With every other segment full, a message that does not fit the producer's is dropped. */
  lemma FullDrops(b: Buffer, base: nat, m: Msg)
    requires BufferOk(b) && Collecting(b, base, |b.segs| - 1) && Space(b.segs[b.index]) < |m|
    ensures Produce(b, m).dropped > b.dropped
  {
    var n := |b.segs|;
    forall i | 0 <= i < n ensures Space(b.segs[i]) < |m| {
      var j := if i >= base then i - base else i - base + n;
      assert Ring(base, j, n) == i;
    }
    ProduceFits(b, m);
  }

  /** Otherwise the producer closes its segment and enters the next one on the ring. */
  lemma NextSegment(b: Buffer, base: nat, f: nat, m: Msg)
    requires BufferOk(b) && Collecting(b, base, f) && f + 1 < |b.segs|
    requires Space(b.segs[b.index]) < |m| <= SEG_DATA_SIZE
    ensures var i := Ring(base, f + 1, |b.segs|);
            var marked := b.segs[b.index := b.segs[b.index].(full := true)];
            Produce(b, m) == b.(segs := marked[i := Store(marked[i], m)], index := i, produced := b.produced + 1)
  {
    var n := |b.segs|;
    var i := Ring(base, f + 1, n);
    assert i == Ring(b.index, 1, n);
    assert Dead(b.segs[i]);
    var marked := b.segs[b.index := b.segs[b.index].(full := true)];
    assert Space(marked[i]) == SEG_DATA_SIZE;
    assert Find(marked, b.index, |m|, 1) == Some(i);
  }

  lemma CollectingMoves(b: Buffer, base: nat, f: nat, m: Msg)
    requires BufferOk(b) && Collecting(b, base, f) && f + 1 < |b.segs|
    requires Space(b.segs[b.index]) < |m| <= SEG_DATA_SIZE
    ensures Collecting(Produce(b, m), base, f + 1)
    ensures InOrder(Produce(b, m).segs, base, 0) == InOrder(b.segs, base, 0) + [m]
  {
    NextSegment(b, base, f, m);
    InOrderStore(b.segs, Produce(b, m).segs, base, f + 1, m, 0);
  }

  /** A message that is not dropped joins the end of the line. */
  lemma ProduceLines(b: Buffer, base: nat, m: Msg)
    requires BufferOk(b) && base < |b.segs| && Lined(b, base, false) && Produce(b, m).dropped == b.dropped
    ensures Lined(Produce(b, m), base, false) && |Produce(b, m).segs| == |b.segs|
    ensures InOrder(Produce(b, m).segs, base, 0) == InOrder(b.segs, base, 0) + [m]
  {
    var f: nat :| Collecting(b, base, f);
    if Space(b.segs[b.index]) >= |m| {
      CollectingStays(b, base, f, m);
    } else if f + 1 == |b.segs| {
      FullDrops(b, base, m);
      assert false;
    } else if |m| > SEG_DATA_SIZE {
      OversizeDrops(b, m);
      assert false;
    } else {
      CollectingMoves(b, base, f, m);
    }
  }

  lemma ProduceKeepsCursor(b: Buffer, m: Msg)
    requires BufferOk(b)
    ensures BufferOk(Produce(b, m))
    ensures Produce(b, m).last == b.last && |Produce(b, m).segs| == |b.segs| && Produce(b, m).dropped >= b.dropped
    ensures 0 <= b.last && b.segs[b.last].full ==> Produce(b, m).segs[b.last].full
  {
    ProduceFits(b, m);
  }

  lemma ProduceOrdered(b: Buffer, h: History, out: bool, m: Msg)
    requires Ordered(b, h, false, out)
    ensures var p := Produce(b, m);
            Ordered(p, History(h.attempts + 1, if p.dropped > b.dropped then h.accepted else h.accepted + [m], h.delivered),
                    false, out)
  {
    ProduceKeepsCursor(b, m);
    var p := Produce(b, m);
    var base := Oldest(b, out);
    assert Oldest(p, out) == base;
    if p.dropped == 0 {
      ProduceLines(b, base, m);
      var held := InOrder(b.segs, base, 0);
      assert h.accepted + [m] == h.delivered + (held + [m]);
    }
  }

  /** Nothing more is produced from the first draining scan on. */
  lemma StopOrdered(b: Buffer, h: History)
    requires Ordered(b, h, false, false)
    ensures Ordered(b, h, true, false)
  {
    if b.dropped == 0 {
      var base := Oldest(b, false);
      var f: nat :| Collecting(b, base, f);
      assert Draining(b, base, if Dead(b.segs[b.index]) then f else f + 1);
    }
  }

  /** In a lined-up buffer the first segment holding data is the oldest one. */
  lemma AdvanceOrdered(b: Buffer, h: History, draining: bool)
    requires Ordered(b, h, draining, false)
    ensures Ordered(Advance(b, draining), h, draining, FirstHit(b, draining, 0).Some?)
  {
    var a := Advance(b, draining);
    var base := Oldest(b, false);
    if b.dropped == 0 {
      var f: nat :| if draining then Draining(b, base, f) else Collecting(b, base, f);
      if f > 0 {
        assert Ring(base, 0, |b.segs|) == base;
        assert FirstHit(b, draining, 0) == Some(base);
      } else {
        forall i | 0 <= i < |b.segs| ensures !Hit(b.segs[i], draining) {
          assert Ring(base, Ahead(b, i), |b.segs|) == i;
        }
      }
      assert if draining then Draining(a, base, f) else Collecting(a, base, f);
      assert Oldest(a, FirstHit(b, draining, 0).Some?) == base;
    }
  }

  lemma RingShift(base: nat, n: nat)
    requires base < n
    ensures Next(base, n) == Ring(base, 1, n) && Ring(base, 0, n) == base
    ensures forall j :: 0 <= j < n - 1 ==> Ring(Ring(base, 1, n), j, n) == Ring(base, j + 1, n) != base
    ensures Ring(Ring(base, 1, n), n - 1, n) == base
  {
    forall j | 0 <= j < n - 1 ensures Ring(Ring(base, 1, n), j, n) == Ring(base, j + 1, n) != base {
    }
  }

  lemma DrainedLines(b: Buffer, base: nat, draining: bool)
    requires BufferOk(b) && base < |b.segs| && Lined(b, base, draining) && Hit(b.segs[base], draining)
    ensures Lined(Drained(b, base), Ring(base, 1, |b.segs|), draining)
  {
    var n := |b.segs|;
    RingShift(base, n);
    if draining {
      var f: nat :| Draining(b, base, f);
      assert f > 0;
      assert Draining(Drained(b, base), Ring(base, 1, n), f - 1);
    } else {
      var f: nat :| Collecting(b, base, f);
      assert f > 0;
      assert Collecting(Drained(b, base), Ring(base, 1, n), f - 1);
    }
  }

  lemma ConsumeOrdered(b: Buffer, h: History, draining: bool)
    requires Ordered(b, h, draining, true)
    ensures Ordered(Drained(b, b.last), h.(delivered := h.delivered + b.segs[b.last].msgs), draining, false)
  {
    RingShift(b.last, |b.segs|);
    if b.dropped == 0 {
      DrainedLines(b, b.last, draining);
      InOrderDrop(b.segs, b.last, 0);
    }
  }

  // ----- Runs of one reader -----

  /** What the reader and the producers are doing between two events. */
  datatype Mode = Mode(draining: bool, out: Option<(nat, nat)>)

  /**
    * The first collection: the reader reads exactly the segment the scan before handed it, and producers stop for
    * good before the first draining scan.
    */
  ghost predicate Allowed(w: World, n: nat, mode: Mode, e: Event)
    requires WorldOk(w, n)
  {
    && Fits(e, |w.past|, n)
    && match e
       case Produced(c, m) => !mode.draining
       case Scanned(flush) => mode.out.None? && (mode.draining ==> flush)
       case Consumed(c, i) => mode.out == Some((c, i))
  }

  function After(w: World, n: nat, mode: Mode, e: Event): Mode
    requires WorldOk(w, n)
  {
    match e
    case Produced(c, m) => mode
    case Scanned(flush) =>
      var a := Scan(w.driver, n, flush).1;
      Mode(flush, if a.Data? then Some((a.cpu, a.seg)) else None)
    case Consumed(c, i) => mode.(out := None)
  }

  /** Every event of the run is allowed, and it ends in world r and mode s. */
  ghost predicate Orderly(w: World, n: nat, mode: Mode, es: seq<Event>, r: World, s: Mode)
    requires WorldOk(w, n)
    decreases |es|
  {
    if es == [] then r == w && s == mode
    else Allowed(w, n, mode, es[0]) && Orderly(Do(w, n, es[0]), n, After(w, n, mode, es[0]), es[1..], r, s)
  }

  predicate OutOf(mode: Mode, c: nat) { mode.out.Some? && mode.out.value.0 == c }

  ghost predicate AllOrdered(w: World, n: nat, mode: Mode) {
    && WorldOk(w, n)
    && (mode.out.Some? ==> mode.out.value.0 < |w.past| && w.driver.bufs[mode.out.value.0].last == mode.out.value.1)
    && forall c :: 0 <= c < |w.past| ==> Ordered(w.driver.bufs[c], w.past[c], mode.draining, OutOf(mode, c))
  }

  lemma {:induction false} ScanOrdered(d: Driver, n: nat, past: seq<History>, flush: bool, left: nat)
    requires AllOrdered(World(d, past), n, Mode(flush, None))
    ensures var r := ScanFrom(d, n, flush, left);
            AllOrdered(World(r.0, past), n, Mode(flush, if r.1.Data? then Some((r.1.cpu, r.1.seg)) else None))
    decreases left
  {
    if left > 0 {
      var c := Next(d.lastCpu, |d.bufs|);
      AdvanceOrdered(d.bufs[c], past[c], flush);
      if FirstHit(d.bufs[c], flush, 0).None? {
        ScanOrdered(Visit(d, flush), n, past, flush, left - 1);
      }
    }
  }

  lemma DoOrdered(w: World, n: nat, mode: Mode, e: Event)
    requires AllOrdered(w, n, mode) && Allowed(w, n, mode, e)
    ensures AllOrdered(Do(w, n, e), n, After(w, n, mode, e))
  {
    match e
    case Produced(c, m) =>
      ProduceOrdered(w.driver.bufs[c], w.past[c], OutOf(mode, c), m);
    case Scanned(flush) =>
      if flush && !mode.draining {
        forall c | 0 <= c < |w.past| ensures Ordered(w.driver.bufs[c], w.past[c], true, false) {
          StopOrdered(w.driver.bufs[c], w.past[c]);
        }
      }
      ScanOrdered(w.driver, n, w.past, flush, |w.driver.bufs|);
    case Consumed(c, i) =>
      ConsumeOrdered(w.driver.bufs[c], w.past[c], mode.draining);
  }

  lemma {:induction false} RunOrdered(w: World, n: nat, mode: Mode, es: seq<Event>, r: World, s: Mode)
    requires AllOrdered(w, n, mode) && Orderly(w, n, mode, es, r, s)
    ensures AllOrdered(r, n, s) && |r.past| == |w.past|
    decreases |es|
  {
    if es != [] {
      DoOrdered(w, n, mode, es[0]);
      RunOrdered(Do(w, n, es[0]), n, After(w, n, mode, es[0]), es[1..], r, s);
    }
  }

  lemma FreshOrdered(w: World, n: nat)
    requires Fresh(w, n)
    ensures AllOrdered(w, n, Mode(false, None))
  {
    forall c | 0 <= c < |w.past| ensures Ordered(w.driver.bufs[c], w.past[c], false, false) {
      var b := w.driver.bufs[c];
      InOrderDead(b.segs, 0, 0);
      assert Collecting(b, 0, 0);
    }
  }

  /**
    * In the first collection after a reset a cpu that has dropped nothing has had its messages delivered in
    * production order without gaps, and all of them once the reader is told that all writes are done.
    */
  lemma FirstCollectionInOrder(w: World, n: nat, es: seq<Event>, r: World, s: Mode, c: nat)
    requires Fresh(w, n) && Orderly(w, n, Mode(false, None), es, r, s) && c < |w.past|
    ensures |r.past| == |w.past| && WorldOk(r, n)
    ensures r.driver.bufs[c].dropped == 0 ==>
              && r.past[c].delivered <= r.past[c].accepted
              && Flatten(r.past[c].delivered) <= Flatten(r.past[c].accepted)
              && (Scan(r.driver, n, true).1.AllDone? ==> r.past[c].delivered == r.past[c].accepted)
  {
    FreshOrdered(w, n);
    RunOrdered(w, n, Mode(false, None), es, r, s);
    var b, h := r.driver.bufs[c], r.past[c];
    if b.dropped == 0 {
      var rest := InOrder(b.segs, Oldest(b, OutOf(s, c)), 0);
      FlattenConcat(h.delivered, rest);
      if Scan(r.driver, n, true).1.AllDone? {
        ScanIsExact(r.driver, n, true);
        InOrderDead(b.segs, Oldest(b, OutOf(s, c)), 0);
      }
    }
  }
}
