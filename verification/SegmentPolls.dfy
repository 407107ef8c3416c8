/** Order of delivery for the driver's own two segments per buffer, over pauses that drain, resumes, polls and drops. */
module SegmentPolls {
  // What matters is where the reader's cursor stands relative to the producer's segment.
  import opened Records
  import opened SegmentSpec
  import opened SegmentRuns
  import opened SegmentLine

  /** The reader looks at the producer's segment first, may take it, and the other one holds older messages. */
  predicate Crossed(b: Buffer, flush: bool) {
    && |b.segs| == 2 && b.index < 2 && -1 <= b.last < 2
    && b.segs[0].msgs != [] && b.segs[1].msgs != []
    && Next(b.last, 2) == b.index && (flush || b.segs[b.index].full)
  }

  /** With two segments, the front of the line is overtaken exactly when the buffer is crossed. */
  lemma CrossedExactly(b: Buffer, q: seq<nat>, flush: bool)
    requires Line(b, q) && |b.segs| == 2
    ensures Overtakes(b, q, flush) <==> Crossed(b, flush)
  {
    if Crossed(b, flush) {
      assert 0 in q && 1 in q;
      assert q[0] == 1 - b.index;
      assert NearestHit(b, flush, b.index);
    }
    if Overtakes(b, q, flush) {
      var i :| i in q && NearestHit(b, flush, i) && i != q[0];
      assert i == b.index && q[0] == 1 - i;
    }
  }

  /** No read's search that stops at cpu c finds its buffer crossed. */
  ghost predicate NeverCrossed(w: World, acts: seq<Act>, c: nat)
    requires WorldOk(w, 2) && c < |w.past|
    decreases |acts|
  {
    acts == [] ||
    (&& Fits(EventOf(acts[0]), |w.past|, 2)
     && (Serves(w, 2, c, acts[0]) ==> !Crossed(w.driver.bufs[c], acts[0].e.flush))
     && NeverCrossed(Do(w, 2, EventOf(acts[0])), acts[1..], c))
  }

  lemma {:induction false} CrossedRunExactly(w: World, out: Option<(nat, nat)>, acts: seq<Act>, r: World,
                                             s: Option<(nat, nat)>, c: nat, q: seq<nat>)
    requires Aligned(w, 2, c, q) && HoldsFront(w, c, q, out) && Reads(w, 2, out, acts, r, s)
    ensures NeverOvertaken(w, 2, acts, c, q) <==> NeverCrossed(w, acts, c)
    decreases |acts|
  {
    if acts != [] {
      var a := acts[0];
      if Serves(w, 2, c, a) {
        CrossedExactly(w.driver.bufs[c], q, a.e.flush);
      }
      if !(Serves(w, 2, c, a) && Crossed(w.driver.bufs[c], a.e.flush)) {
        ActAligned(w, 2, c, q, out, a);
        CrossedRunExactly(Do(w, 2, EventOf(a)), Holding(w, 2, out, a), acts[1..], r, s, c, Requeued(w, 2, c, q, a));
      }
    }
  }

  /**
    * Order for two segments, exactly, drops and all: a cpu is delivered in production order if, and when its
    * messages are distinct only if, no read finds its buffer crossed.
    */
  lemma TwoInOrderExactly(w: World, acts: seq<Act>, r: World, s: Option<(nat, nat)>, c: nat)
    requires Fresh(w, 2) && Reads(w, 2, None, acts, r, s) && c < |w.past|
    ensures |r.past| == |w.past| && WorldOk(r, 2)
    ensures NeverCrossed(w, acts, c) ==> OrderKept(r, 2, c)
    ensures s.None? && DistinctMsgs(r.past[c].accepted) ==>
              (r.past[c].delivered <= r.past[c].accepted <==> NeverCrossed(w, acts, c))
  {
    FreshAligned(w, 2, c);
    CrossedRunExactly(w, None, acts, r, s, c, []);
    DeliveredInOrderExactly(w, 2, acts, r, s, c);
  }

  // ----- A cpu that has dropped nothing -----

  /** The cursor stands on a full segment that nobody has read, and the producer's segment holds messages. */
  predicate Stale(b: Buffer) {
    0 <= b.last < |b.segs| && b.index < |b.segs| && b.segs[b.last].full && b.segs[b.index].msgs != []
  }

  /** Without a drop the producer's segment is open, the other is full or empty, and an unread buffer fills in ring order. */
  ghost predicate Tidy(b: Buffer) {
    && BufferOk(b) && |b.segs| == 2
    && (b.dropped == 0 ==>
          && !b.segs[b.index].full
          && (b.segs[1 - b.index].full <==> b.segs[1 - b.index].msgs != [])
          && (b.last == -1 ==> if b.index == 0 then b.segs[1].msgs == [] else b.segs[0].full))
  }

  /** Such a buffer is crossed exactly when it is drained and its cursor is stale. */
  lemma CrossedIsStale(b: Buffer, flush: bool)
    requires Tidy(b) && b.dropped == 0
    ensures Crossed(b, flush) <==> flush && Stale(b)
  {}

  /** Storing a message, in the producer's segment or, closing that, in the other one. */
  ghost predicate StoredInTwo(b: Buffer, p: Buffer) {
    && BufferOk(b) && BufferOk(p) && |b.segs| == |p.segs| == 2 && p.last == b.last && p.segs[p.index].full == b.segs[p.index].full
    && if p.index == b.index then p.segs[1 - b.index] == b.segs[1 - b.index]
       else p.segs[b.index].full && p.segs[b.index].msgs != [] && !b.segs[p.index].full
  }

  lemma OfferInTwo(b: Buffer, m: Msg)
    requires BufferOk(b) && |b.segs| == 2 && Produce(b, m).dropped == b.dropped && !b.segs[b.index].full
    ensures StoredInTwo(b, Produce(b, m))
  {
    ProduceFits(b, m);
  }

  lemma StoredTidy(b: Buffer, p: Buffer)
    requires Tidy(b) && b.dropped == p.dropped == 0 && StoredInTwo(b, p)
    ensures Tidy(p)
  {}

  lemma OfferTidy(b: Buffer, m: Msg)
    requires Tidy(b)
    ensures Tidy(Produce(b, m))
  {
    ProduceFits(b, m);
    if Produce(b, m).dropped == 0 {
      OfferInTwo(b, m);
      StoredTidy(b, Produce(b, m));
    }
  }

  /** Cpu c's buffer is tidy, and its cursor has moved if a segment of it is out. */
  ghost predicate Kept(w: World, c: nat, out: Option<(nat, nat)>) {
    && WorldOk(w, 2) && c < |w.past| && Tidy(w.driver.bufs[c])
    && (out.Some? && out.value.0 == c ==> w.driver.bufs[c].last >= 0)
  }

  /** A cursor that has moved never goes back before the first segment. */
  lemma {:induction false} SearchMoves(d: Driver, n: nat, flush: bool, left: nat, c: nat)
    requires DriverOk(d, n) && c < |d.bufs|
    ensures var b := ScanFrom(d, n, flush, left).0.bufs[c]; b.last >= 0 || b == d.bufs[c]
    decreases left
  {
    if left > 0 && FirstHit(d.bufs[Next(d.lastCpu, |d.bufs|)], flush, 0).None? {
      SearchMoves(Visit(d, flush), n, flush, left - 1, c);
    }
  }

  lemma SearchKept(w: World, c: nat, out: Option<(nat, nat)>, flush: bool)
    requires Kept(w, c, out)
    ensures Kept(Do(w, 2, Scanned(flush)), c, out)
  {
    ScanMovesCursors(w.driver, 2, flush, |w.driver.bufs|);
    SearchMoves(w.driver, 2, flush, |w.driver.bufs|, c);
  }

  lemma ActKept(w: World, c: nat, out: Option<(nat, nat)>, a: Act)
    requires Kept(w, c, out) && Legal(w, 2, out, a)
    ensures Kept(Do(w, 2, EventOf(a)), c, Holding(w, 2, out, a))
  {
    match a
    case Reader(Produced(k, m)) =>
      if k == c {
        OfferTidy(w.driver.bufs[c], m);
        ProduceFits(w.driver.bufs[c], m);
      }
    case Reader(Scanned(flush)) =>
      SearchKept(w, c, None, flush);
      if Scan(w.driver, 2, flush).1.Data? {
        ScanHands(w.driver, 2, flush);
      }
    case Poll(flush) => SearchKept(w, c, out, flush);
    case Reader(Consumed(_, _)) =>
  }

  lemma {:induction false} RunKept(w: World, out: Option<(nat, nat)>, acts: seq<Act>, r: World, s: Option<(nat, nat)>, c: nat)
    requires Kept(w, c, out) && Reads(w, 2, out, acts, r, s)
    ensures Kept(r, c, s)
    decreases |acts|
  {
    if acts != [] {
      ActKept(w, c, out, acts[0]);
      RunKept(Do(w, 2, EventOf(acts[0])), Holding(w, 2, out, acts[0]), acts[1..], r, s, c);
    }
  }

  /** In every state reached from a reset, a buffer without a drop is crossed exactly when drained with a stale cursor. */
  lemma UndroppedCrossing(w: World, acts: seq<Act>, r: World, s: Option<(nat, nat)>, c: nat, flush: bool)
    requires Fresh(w, 2) && Reads(w, 2, None, acts, r, s) && c < |w.past|
    ensures |r.past| == |w.past| && WorldOk(r, 2)
    ensures r.driver.bufs[c].dropped == 0 ==> (Crossed(r.driver.bufs[c], flush) <==> flush && Stale(r.driver.bufs[c]))
  {
    RunGrows(w, 2, None, acts, r, s, c);
    RunKept(w, None, acts, r, s, c);
    if r.driver.bufs[c].dropped == 0 {
      CrossedIsStale(r.driver.bufs[c], flush);
    }
  }

  // ----- Phases of draining -----

  /**
    * How cpu c's cursor stood when the present phase of draining began, if there is one. A phase goes on from search
    * to search until a message is offered, a poll is made or collection searches.
    */
  function PhaseAfter(w: World, c: nat, phase: Option<bool>, a: Act): Option<bool>
    requires c < |w.driver.bufs|
  {
    match a
    case Reader(Scanned(flush)) => if !flush then None else if phase.Some? then phase else Some(Stale(w.driver.bufs[c]))
    case Reader(Consumed(_, _)) => phase
    case _ => None
  }

  /** No phase of draining that hands out a segment of cpu c began with c's cursor stale. */
  ghost predicate DrainsBeginRight(w: World, acts: seq<Act>, phase: Option<bool>, c: nat)
    requires WorldOk(w, 2) && c < |w.past|
    decreases |acts|
  {
    acts == [] ||
    (&& Fits(EventOf(acts[0]), |w.past|, 2)
     && (Serves(w, 2, c, acts[0]) ==> PhaseAfter(w, c, phase, acts[0]) != Some(true))
     && DrainsBeginRight(Do(w, 2, EventOf(acts[0])), acts[1..], PhaseAfter(w, c, phase, acts[0]), c))
  }

  /** Within a phase the buffer stays as it was until a segment of it is handed out, and is then not crossed again. */
  ghost predicate InPhase(w: World, c: nat, out: Option<(nat, nat)>, phase: Option<bool>)
    requires c < |w.driver.bufs|
  {
    phase.Some? ==>
      if out.Some? && out.value.0 == c then !phase.value else phase.value <==> Crossed(w.driver.bufs[c], true)
  }

  /** A draining search that does not stop at cpu c leaves its buffer alone, or found it empty. */
  lemma DrainPasses(w: World, c: nat)
    requires WorldOk(w, 2) && c < |w.past| && !Serves(w, 2, c, Reader(Scanned(true)))
    ensures Crossed(Do(w, 2, Scanned(true)).driver.bufs[c], true) <==> Crossed(w.driver.bufs[c], true)
  {
    ScanMovesCursors(w.driver, 2, true, |w.driver.bufs|);
    if w.driver.bufs[c].segs[0].msgs != [] {
      ScanStops(w.driver, 2, true, |w.driver.bufs|, c, 0);
    }
  }

  lemma TakeUncrosses(w: World, c: nat, k: nat, i: nat)
    requires WorldOk(w, 2) && c < |w.past| && k < |w.past| && i < 2
    ensures Crossed(Do(w, 2, Consumed(k, i)).driver.bufs[c], true) <==> k != c && Crossed(w.driver.bufs[c], true)
  {}

  lemma ActInPhase(w: World, c: nat, out: Option<(nat, nat)>, a: Act, phase: Option<bool>)
    requires Kept(w, c, out) && w.driver.bufs[c].dropped == 0 && Legal(w, 2, out, a) && InPhase(w, c, out, phase)
    ensures Serves(w, 2, c, a) ==> (Crossed(w.driver.bufs[c], a.e.flush) <==> PhaseAfter(w, c, phase, a) == Some(true))
    ensures (Serves(w, 2, c, a) ==> !Crossed(w.driver.bufs[c], a.e.flush)) ==>
            InPhase(Do(w, 2, EventOf(a)), c, Holding(w, 2, out, a), PhaseAfter(w, c, phase, a))
  {
    match a
    case Reader(Scanned(flush)) =>
      CrossedIsStale(w.driver.bufs[c], flush);
      if flush && !Serves(w, 2, c, a) {
        DrainPasses(w, c);
      }
    case Reader(Consumed(k, i)) => TakeUncrosses(w, c, k, i);
    case _ =>
  }

  lemma {:induction false} PhasesExactly(w: World, out: Option<(nat, nat)>, acts: seq<Act>, r: World,
                                         s: Option<(nat, nat)>, phase: Option<bool>, c: nat)
    requires Kept(w, c, out) && Reads(w, 2, out, acts, r, s) && InPhase(w, c, out, phase)
    requires c < |r.driver.bufs| && r.driver.bufs[c].dropped == 0
    ensures NeverCrossed(w, acts, c) <==> DrainsBeginRight(w, acts, phase, c)
    decreases |acts|
  {
    if acts != [] {
      var a := acts[0];
      RunGrows(w, 2, out, acts, r, s, c);
      ActInPhase(w, c, out, a, phase);
      if !(Serves(w, 2, c, a) && Crossed(w.driver.bufs[c], a.e.flush)) {
        ActKept(w, c, out, a);
        PhasesExactly(Do(w, 2, EventOf(a)), Holding(w, 2, out, a), acts[1..], r, s, PhaseAfter(w, c, phase, a), c);
      }
    }
  }

  /**
    * Polls, pauses that drain and resumes, in any order and number: a cpu that has dropped nothing is delivered in
    * production order if, and when its messages are distinct only if, no phase of draining that reads it begins
    * with its cursor stale.
    */
  lemma PolledInOrderExactly(w: World, acts: seq<Act>, r: World, s: Option<(nat, nat)>, c: nat)
    requires Fresh(w, 2) && Reads(w, 2, None, acts, r, s) && c < |w.past|
    ensures |r.past| == |w.past| && WorldOk(r, 2)
    ensures r.driver.bufs[c].dropped == 0 && DrainsBeginRight(w, acts, None, c) ==> OrderKept(r, 2, c)
    ensures r.driver.bufs[c].dropped == 0 && s.None? && DistinctMsgs(r.past[c].accepted) ==>
              (r.past[c].delivered <= r.past[c].accepted <==> DrainsBeginRight(w, acts, None, c))
  {
    TwoInOrderExactly(w, acts, r, s, c);
    if r.driver.bufs[c].dropped == 0 {
      PhasesExactly(w, None, acts, r, s, None, c);
    }
  }
}
