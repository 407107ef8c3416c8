/** Order of delivery for any number of segments, told from the buffer alone: the cursor, the producer and the flags. */
module SegmentRing {
  // As long as messages fit a segment and delivery is in order, the segments in line lie side by side on the ring and
  // end at the producer's, drops or no drops. Where the line begins can then be read off the buffer.
  import opened Records
  import opened SegmentSpec
  import opened SegmentRuns
  import opened SegmentLine

  /** Position d steps before position i on a ring of n. */
  function Back(i: nat, d: nat, n: nat): (j: nat)
    requires i < n && d <= n
    ensures j < n
  {
    if i >= d then i - d else i - d + n
  }

  /** Positions side by side on a ring of n, ending at `index`. */
  ghost predicate SideBySide(q: seq<nat>, index: nat, n: nat)
    requires index < n
  {
    |q| <= n && forall k :: 0 <= k < |q| ==> q[k] == Back(index, |q| - 1 - k, n)
  }

  /** Full segments hold messages: none was closed empty. */
  ghost predicate NoneHollow(b: Buffer) { forall i :: 0 <= i < |b.segs| && b.segs[i].full ==> b.segs[i].msgs != [] }

  /** The line is a stretch of the ring that ends at the producer's segment. */
  ghost predicate Stretch(b: Buffer, q: seq<nat>) {
    Line(b, q) && NoneHollow(b) && SideBySide(q, b.index, |b.segs|)
  }

  /** The reader looks first at a segment it may take, and the one before it holds messages and is not the producer's. */
  predicate Astride(b: Buffer, flush: bool)
    requires b.segs != [] && -1 <= b.last < |b.segs|
  {
    var n := |b.segs|;
    var first := Next(b.last, n);
    && Hit(b.segs[first], flush)
    && b.segs[Back(first, 1, n)].msgs != [] && Back(first, 1, n) != b.index
  }

  lemma AstrideOvertakes(b: Buffer, q: seq<nat>, flush: bool)
    requires Stretch(b, q) && Astride(b, flush)
    ensures Overtakes(b, q, flush)
  {
    var n := |b.segs|;
    var s := Next(b.last, n);
    var p := Back(s, 1, n);
    assert p in q && s in q;
    var j :| 0 <= j < |q| && q[j] == p;
    assert q[j + 1] == s;
    assert NearestHit(b, flush, s);
  }

  /** A position a step further ahead than another is looked at later, but for the first one. */
  lemma AheadOfNext(b: Buffer, i: nat)
    requires BufferOk(b) && i < |b.segs| && Ahead(b, i) > 0
    ensures Ahead(b, Back(i, 1, |b.segs|)) == Ahead(b, i) - 1
  {}

  lemma OvertakenAstride(b: Buffer, q: seq<nat>, flush: bool)
    requires Stretch(b, q) && Overtakes(b, q, flush)
    ensures Astride(b, flush)
  {
    var i :| i in q && NearestHit(b, flush, i) && i != q[0];
    var k :| 0 <= k < |q| && q[k] == i;
    var p := q[k - 1];
    assert p == Back(i, 1, |b.segs|);
    assert p != b.index && b.segs[p].full && p != i;
    if Ahead(b, i) > 0 {
      AheadOfNext(b, i);
      assert false;
    }
  }

  /** The front of the line is overtaken exactly when the buffer is astride. */
  lemma AstrideExactly(b: Buffer, q: seq<nat>, flush: bool)
    requires Stretch(b, q)
    ensures Overtakes(b, q, flush) <==> Astride(b, flush)
  {
    if Astride(b, flush) {
      AstrideOvertakes(b, q, flush);
    }
    if Overtakes(b, q, flush) {
      OvertakenAstride(b, q, flush);
    }
  }

  // ----- What keeps the stretch -----

  /** How many steps before position i position j lies. */
  function StepsBack(i: nat, j: nat, n: nat): (d: nat)
    requires i < n && j < n
    ensures d < n && Back(i, d, n) == j
  {
    if i >= j then i - j else i - j + n
  }

  /** When every segment holds messages, none but the producer's has room. */
  lemma NoRoom(b: Buffer, q: seq<nat>, j: nat, size: nat)
    requires Stretch(b, q) && |q| == |b.segs| && j < |b.segs| && j != b.index && size > 0
    ensures Space(b.segs[j]) < size
  {
    assert q[|q| - 1 - StepsBack(b.index, j, |b.segs|)] == j;
  }

  lemma NextIsFree(q: seq<nat>, index: nat, n: nat)
    requires index < n && SideBySide(q, index, n) && |q| < n
    ensures Ring(index, 1, n) !in q
    ensures SideBySide(q + [Ring(index, 1, n)], Ring(index, 1, n), n)
  {}

  /** A producer that closes its segment without dropping enters the next one on the ring. */
  lemma EntersNext(b: Buffer, q: seq<nat>, m: Msg)
    requires Stretch(b, q) && |m| <= SEG_DATA_SIZE && Space(b.segs[b.index]) < |m|
    requires Produce(b, m).dropped == b.dropped
    ensures |q| < |b.segs| && Produce(b, m).index == Ring(b.index, 1, |b.segs|)
  {
    ProduceFits(b, m);
    if |q| == |b.segs| {
      forall j | 0 <= j < |b.segs| ensures Space(b.segs[j]) < |m| {
        if j != b.index {
          NoRoom(b, q, j, |m|);
        }
      }
      assert false;
    }
    NextIsFree(q, b.index, |b.segs|);
    var i := Ring(b.index, 1, |b.segs|);
    var marked := b.segs[b.index := b.segs[b.index].(full := true)];
    assert b.index == i ==> |b.segs| == 1 && q == [];
    assert b.segs[i].msgs == [];
    NextFound(b, m);
  }

  /** An empty segment has room, and the search looks at the next one first. */
  lemma NextFound(b: Buffer, m: Msg)
    requires BufferOk(b) && NoneHollow(b) && |m| <= SEG_DATA_SIZE && Space(b.segs[b.index]) < |m|
    requires b.segs[Ring(b.index, 1, |b.segs|)].msgs == []
    ensures Produce(b, m).index == Ring(b.index, 1, |b.segs|)
  {
    var i := Ring(b.index, 1, |b.segs|);
    var marked := b.segs[b.index := b.segs[b.index].(full := true)];
    assert !b.segs[i].full;
    assert i != b.index;
    assert Space(marked[i]) == SEG_DATA_SIZE;
    assert Find(marked, b.index, |m|, 1) == Some(i);
  }

  /** A segment is closed only when it has no room for a message, so not while it is empty. */
  lemma OfferHollows(b: Buffer, m: Msg)
    requires BufferOk(b) && NoneHollow(b) && |m| <= SEG_DATA_SIZE
    ensures NoneHollow(Produce(b, m))
  {
    ProduceFits(b, m);
  }

  lemma OfferStaysSideBySide(b: Buffer, p: Buffer, q: seq<nat>, m: Msg)
    requires Stretch(b, q) && Offered(b, p, m) && p.index == b.index && Line(p, Joined(b, p, q))
    ensures SideBySide(Joined(b, p, q), p.index, |p.segs|)
  {
    if q != [] {
      assert q[|q| - 1] == b.index;
    }
  }

  lemma OfferKeepsStretch(b: Buffer, q: seq<nat>, m: Msg)
    requires Stretch(b, q) && |m| <= SEG_DATA_SIZE
    ensures Stretch(Produce(b, m), Joined(b, Produce(b, m), q))
  {
    var p := Produce(b, m);
    ProduceOffers(b, m);
    OfferLine(b, p, q, m);
    OfferHollows(b, m);
    if p.index == b.index {
      OfferStaysSideBySide(b, p, q, m);
    } else {
      EntersNext(b, q, m);
      NextIsFree(q, b.index, |b.segs|);
    }
  }

  lemma TakeKeepsStretch(b: Buffer, q: seq<nat>)
    requires Stretch(b, q) && q != []
    ensures Stretch(Drained(b, q[0]), q[1..])
  {
    FrontLeaves(b, q);
  }

  // ----- Runs -----

  /** Every message offered fits a segment. */
  predicate AllSmall(acts: seq<Act>) {
    forall k :: 0 <= k < |acts| ==> Small(acts[k])
  }

  predicate Small(a: Act) { a.Reader? && a.e.Produced? ==> |a.e.msg| <= SEG_DATA_SIZE }

  /** No read's search that stops at cpu c finds its buffer astride. */
  ghost predicate NeverAstride(w: World, n: nat, acts: seq<Act>, c: nat)
    requires WorldOk(w, n) && c < |w.past|
    decreases |acts|
  {
    acts == [] ||
    (&& Fits(EventOf(acts[0]), |w.past|, n)
     && (Serves(w, n, c, acts[0]) ==> !Astride(w.driver.bufs[c], acts[0].e.flush))
     && NeverAstride(Do(w, n, EventOf(acts[0])), n, acts[1..], c))
  }

  lemma ActKeepsStretch(w: World, n: nat, c: nat, q: seq<nat>, out: Option<(nat, nat)>, a: Act)
    requires Aligned(w, n, c, q) && HoldsFront(w, c, q, out) && Legal(w, n, out, a) && Small(a)
    requires Stretch(w.driver.bufs[c], q)
    ensures Stretch(Do(w, n, EventOf(a)).driver.bufs[c], Requeued(w, n, c, q, a))
  {
    match a
    case Reader(Produced(k, m)) =>
      if k == c {
        OfferKeepsStretch(w.driver.bufs[c], q, m);
      }
    case Reader(Consumed(k, i)) =>
      if k == c {
        assert i in q;
        TakeKeepsStretch(w.driver.bufs[c], q);
      }
    case Reader(Scanned(flush)) => SearchKeepsStretch(w, n, c, q, flush);
    case Poll(flush) => SearchKeepsStretch(w, n, c, q, flush);
  }

  lemma SearchKeepsStretch(w: World, n: nat, c: nat, q: seq<nat>, flush: bool)
    requires Aligned(w, n, c, q) && Stretch(w.driver.bufs[c], q)
    ensures Stretch(Do(w, n, Scanned(flush)).driver.bufs[c], q)
  {
    SearchAligned(w, n, c, q, flush);
    ScanMovesCursors(w.driver, n, flush, |w.driver.bufs|);
  }

  lemma {:induction false} AstrideRunExactly(w: World, n: nat, out: Option<(nat, nat)>, acts: seq<Act>, r: World,
                                             s: Option<(nat, nat)>, c: nat, q: seq<nat>)
    requires Aligned(w, n, c, q) && HoldsFront(w, c, q, out) && Stretch(w.driver.bufs[c], q)
    requires Reads(w, n, out, acts, r, s) && AllSmall(acts)
    ensures NeverOvertaken(w, n, acts, c, q) <==> NeverAstride(w, n, acts, c)
    decreases |acts|
  {
    if acts != [] {
      var a := acts[0];
      if Serves(w, n, c, a) {
        AstrideExactly(w.driver.bufs[c], q, a.e.flush);
      }
      if !(Serves(w, n, c, a) && Astride(w.driver.bufs[c], a.e.flush)) {
        ActAligned(w, n, c, q, out, a);
        ActKeepsStretch(w, n, c, q, out, a);
        AstrideRunExactly(Do(w, n, EventOf(a)), n, Holding(w, n, out, a), acts[1..], r, s, c, Requeued(w, n, c, q, a));
      }
    }
  }

  /**
    * Order for any number of segments, from the buffer alone: when messages fit a segment, a cpu is delivered in
    * production order if, and when its messages are distinct only if, no read finds its buffer astride.
    */
  lemma RingInOrderExactly(w: World, n: nat, acts: seq<Act>, r: World, s: Option<(nat, nat)>, c: nat)
    requires Fresh(w, n) && Reads(w, n, None, acts, r, s) && c < |w.past| && AllSmall(acts)
    ensures |r.past| == |w.past| && WorldOk(r, n)
    ensures NeverAstride(w, n, acts, c) ==> OrderKept(r, n, c)
    ensures s.None? && DistinctMsgs(r.past[c].accepted) ==>
              (r.past[c].delivered <= r.past[c].accepted <==> NeverAstride(w, n, acts, c))
  {
    FreshAligned(w, n, c);
    AstrideRunExactly(w, n, None, acts, r, s, c, []);
    DeliveredInOrderExactly(w, n, acts, r, s, c);
  }
}
