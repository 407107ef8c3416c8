/** Order of delivery for any number of segments: those that hold messages stand in line by age. */
module SegmentLine {
  // Whatever the history of drops, polls, pauses and resumes, order is kept exactly as long as the reader is handed the
  // front of the line.
  import opened Records
  import opened SegmentSpec
  import opened SegmentRuns

  ghost predicate Names(segs: seq<Segment>, q: seq<nat>) { forall k :: 0 <= k < |q| ==> q[k] < |segs| }

  /** The messages of the segments in line q, the oldest segment's first. */
  function Waiting(segs: seq<Segment>, q: seq<nat>): seq<Msg>
    requires Names(segs, q)
  {
    if q == [] then [] else Waiting(segs, q[..|q| - 1]) + segs[q[|q| - 1]].msgs
  }

  /** The segments holding messages, by age: all are full but the producer's, which can only be the last. */
  ghost predicate Line(b: Buffer, q: seq<nat>) {
    && BufferOk(b)
    && Names(b.segs, q)
    && (forall k :: 0 <= k < |q| ==> b.segs[q[k]].msgs != [])
    && (forall i :: 0 <= i < |b.segs| && b.segs[i].msgs != [] ==> i in q)
    && (forall j, k :: 0 <= j < k < |q| ==> q[j] != q[k])
    && (forall k :: 0 <= k < |q| ==> if q[k] == b.index then k == |q| - 1 else b.segs[q[k]].full)
  }

  /** The line after a message has been offered. */
  function Joined(b: Buffer, p: Buffer, q: seq<nat>): seq<nat> {
    if p.dropped > b.dropped || p.index in q then q else q + [p.index]
  }

  lemma {:induction false} WaitingSame(segs: seq<Segment>, other: seq<Segment>, q: seq<nat>)
    requires Names(segs, q) && Names(other, q) && forall k :: 0 <= k < |q| ==> segs[q[k]].msgs == other[q[k]].msgs
    ensures Waiting(segs, q) == Waiting(other, q)
  {
    if q != [] {
      WaitingSame(segs, other, q[..|q| - 1]);
    }
  }

  /** Segment i with one message more, the others with the messages they had. */
  ghost predicate StoredOne(segs: seq<Segment>, other: seq<Segment>, i: nat, m: Msg) {
    && |other| == |segs| && i < |segs|
    && forall j :: 0 <= j < |segs| ==> other[j].msgs == if j == i then segs[i].msgs + [m] else segs[j].msgs
  }

  lemma StoreWaits(segs: seq<Segment>, other: seq<Segment>, before: seq<nat>, i: nat, m: Msg)
    requires StoredOne(segs, other, i, m) && Names(segs, before) && forall k :: 0 <= k < |before| ==> before[k] != i
    ensures Names(segs, before + [i]) && Waiting(other, before + [i]) == Waiting(segs, before) + segs[i].msgs + [m]
  {
    var q := before + [i];
    assert q[..|q| - 1] == before;
    WaitingSame(segs, other, before);
  }

  /** A message stored in the last segment in line. */
  lemma StoreAtEnd(b: Buffer, q: seq<nat>, other: seq<Segment>, m: Msg)
    requires Line(b, q) && q != [] && StoredOne(b.segs, other, q[|q| - 1], m)
    ensures Names(other, q) && Waiting(other, q) == Waiting(b.segs, q) + [m]
  {
    var before := q[..|q| - 1];
    assert q == before + [q[|q| - 1]];
    StoreWaits(b.segs, other, before, q[|q| - 1], m);
  }

  /** A message stored in a segment that held none. */
  lemma StoreBehind(b: Buffer, q: seq<nat>, other: seq<Segment>, i: nat, m: Msg)
    requires Line(b, q) && i !in q && StoredOne(b.segs, other, i, m)
    ensures Names(other, q + [i]) && Waiting(other, q + [i]) == Waiting(b.segs, q) + [m]
  {
    StoreWaits(b.segs, other, q, i, m);
  }

  /** The producer stays in its segment, or closes it and enters one that is not in line. */
  ghost predicate Entered(b: Buffer, p: Buffer, m: Msg) {
    && BufferOk(b) && BufferOk(p) && StoredOne(b.segs, p.segs, p.index, m)
    && (forall j :: 0 <= j < |p.segs| && b.segs[j].full ==> p.segs[j].full)
    && (p.index != b.index ==> p.segs[b.index].full && !b.segs[p.index].full)
  }

  lemma EnteredInPlace(b: Buffer, q: seq<nat>, p: Buffer, m: Msg)
    requires Line(b, q) && Entered(b, p, m) && p.index in q
    ensures Line(p, q) && Waiting(p.segs, q) == Waiting(b.segs, q) + [m]
  {
    var k :| 0 <= k < |q| && q[k] == p.index;
    assert k == |q| - 1;
    StoreAtEnd(b, q, p.segs, m);
  }

  lemma EnteredBehind(b: Buffer, q: seq<nat>, p: Buffer, m: Msg)
    requires Line(b, q) && Entered(b, p, m) && p.index !in q
    ensures Line(p, q + [p.index]) && Waiting(p.segs, q + [p.index]) == Waiting(b.segs, q) + [m]
  {
    StoreBehind(b, q, p.segs, p.index, m);
    var t := q + [p.index];
    forall i | 0 <= i < |p.segs| && p.segs[i].msgs != [] ensures i in t {
      assert i != p.index ==> i in q;
    }
  }

  /** What offering a message does to a buffer: it is stored where there is room for it, or dropped. */
  ghost predicate Offered(b: Buffer, p: Buffer, m: Msg) {
    && BufferOk(b) && p.dropped >= b.dropped
    && if p.dropped == b.dropped then Entered(b, p, m)
       else p == b.(segs := b.segs[b.index := b.segs[b.index].(full := true)], dropped := b.dropped + 1)
  }

  lemma ProduceOffers(b: Buffer, m: Msg)
    requires BufferOk(b)
    ensures Offered(b, Produce(b, m), m)
  {
    ProduceFits(b, m);
  }

  /** An offered message that is not dropped goes to the end of the line; a dropped one leaves it as it was. */
  lemma OfferLine(b: Buffer, p: Buffer, q: seq<nat>, m: Msg)
    requires Line(b, q) && Offered(b, p, m)
    ensures Line(p, Joined(b, p, q))
    ensures Waiting(p.segs, Joined(b, p, q)) == Waiting(b.segs, q) + if p.dropped > b.dropped then [] else [m]
  {
    if p.dropped > b.dropped {
      WaitingSame(b.segs, p.segs, q);
    } else if p.index in q {
      EnteredInPlace(b, q, p, m);
    } else {
      EnteredBehind(b, q, p, m);
    }
  }

  lemma {:induction false} WaitingFront(segs: seq<Segment>, q: seq<nat>)
    requires Names(segs, q) && q != []
    ensures Waiting(segs, q) == segs[q[0]].msgs + Waiting(segs, q[1..])
  {
    if |q| == 1 {
      assert q[..0] == [];
    } else {
      assert q[1..][..|q| - 2] == q[..|q| - 1][1..];
      WaitingFront(segs, q[..|q| - 1]);
    }
  }

  /** Taking the front of the line takes its messages off the front. */
  lemma FrontLeaves(b: Buffer, q: seq<nat>)
    requires Line(b, q) && q != []
    ensures Line(Drained(b, q[0]), q[1..])
  {
    var d := Drained(b, q[0]);
    forall i | 0 <= i < |d.segs| && d.segs[i].msgs != [] ensures i in q[1..] {
      assert i in q && i != q[0];
    }
  }

  lemma TakeFront(b: Buffer, q: seq<nat>)
    requires Line(b, q) && q != []
    ensures Line(Drained(b, q[0]), q[1..])
    ensures Waiting(b.segs, q) == b.segs[q[0]].msgs + Waiting(Drained(b, q[0]).segs, q[1..])
  {
    FrontLeaves(b, q);
    WaitingFront(b.segs, q);
    WaitingSame(b.segs, Drained(b, q[0]).segs, q[1..]);
  }

  lemma TakeEmpty(b: Buffer, q: seq<nat>, i: nat)
    requires Line(b, q) && i < |b.segs| && i !in q
    ensures Line(Drained(b, i), q) && Waiting(Drained(b, i).segs, q) == Waiting(b.segs, q) && b.segs[i].msgs == []
  {
    WaitingSame(b.segs, Drained(b, i).segs, q);
  }

  /** Where a segment's first message stands among those waiting. */
  lemma {:induction false} WaitingAt(segs: seq<Segment>, q: seq<nat>, k: nat) returns (o: nat)
    requires Names(segs, q) && (forall j :: 0 <= j < |q| ==> segs[q[j]].msgs != []) && k < |q|
    ensures o < |Waiting(segs, q)| && Waiting(segs, q)[o] == segs[q[k]].msgs[0]
    ensures o == 0 <==> k == 0
  {
    if k == |q| - 1 {
      o := |Waiting(segs, q[..|q| - 1])|;
      if k > 0 {
        var first := WaitingAt(segs, q[..|q| - 1], 0);
      }
    } else {
      o := WaitingAt(segs, q[..|q| - 1], k);
    }
  }

  // ----- What a search hands out -----

  /** A younger segment in line is nearer ahead of the cursor than anything else the reader may take. */
  ghost predicate Overtakes(b: Buffer, q: seq<nat>, flush: bool)
    requires BufferOk(b)
  {
    exists i :: i in q && NearestHit(b, flush, i) && i != q[0]
  }

  ghost predicate NearestHit(b: Buffer, flush: bool, i: nat)
    requires BufferOk(b)
  {
    && i < |b.segs| && Hit(b.segs[i], flush)
    && forall j :: 0 <= j < |b.segs| && j != i && Hit(b.segs[j], flush) ==> Ahead(b, i) < Ahead(b, j)
  }

  /** A search hands out the nearest segment it may. */
  lemma FirstIsNearest(b: Buffer, flush: bool, i: nat)
    requires BufferOk(b)
    ensures FirstHit(b, flush, 0) == Some(i) <==> NearestHit(b, flush, i)
  {
    var r := FirstHit(b, flush, 0);
    if r.Some? {
      forall j | 0 <= j < |b.segs| && j != r.value && Hit(b.segs[j], flush) ensures Ahead(b, r.value) < Ahead(b, j) {
        FirstHitIsFirst(b, flush, 0, j);
      }
    }
    if i < |b.segs| && Hit(b.segs[i], flush) {
      FirstHitIsFirst(b, flush, 0, i);
    }
  }

  lemma HandsOut(b: Buffer, q: seq<nat>, flush: bool, i: nat)
    requires Line(b, q) && FirstHit(b, flush, 0) == Some(i)
    ensures Overtakes(b, q, flush) <==> i in q && i != q[0]
    ensures i !in q ==> b.segs[i].full
  {
    FirstIsNearest(b, flush, i);
    if Overtakes(b, q, flush) {
      var j :| j in q && NearestHit(b, flush, j) && j != q[0];
      FirstIsNearest(b, flush, j);
    }
  }

  lemma ScanHands(d: Driver, n: nat, flush: bool)
    requires DriverOk(d, n) && Scan(d, n, flush).1.Data?
    ensures var a := Scan(d, n, flush).1;
            && a.cpu < |d.bufs| && a.seg < n
            && FirstHit(d.bufs[a.cpu], flush, 0) == Some(a.seg)
            && Scan(d, n, flush).0.bufs[a.cpu].last == a.seg
  {
    var a := Scan(d, n, flush).1;
    ScanAnswers(d, n, flush, |d.bufs|);
    ScanStops(d, n, flush, |d.bufs|, a.cpu, a.seg);
    FirstHitIsFirst(d.bufs[a.cpu], flush, 0, a.seg);
  }

  // ----- Runs -----

  /** Besides its reads, the reader may poll: a search whose answer it does not act upon. */
  datatype Act = Reader(e: Event) | Poll(flush: bool)

  function EventOf(a: Act): Event {
    match a
    case Reader(e) => e
    case Poll(flush) => Scanned(flush)
  }

  /** The reader searches when it holds nothing, and consumes exactly the segment it was handed. */
  ghost predicate Legal(w: World, n: nat, out: Option<(nat, nat)>, a: Act) {
    && Fits(EventOf(a), |w.past|, n)
    && match a
       case Poll(_) => true
       case Reader(Produced(_, _)) => true
       case Reader(Scanned(_)) => out.None?
       case Reader(Consumed(c, i)) => out == Some((c, i))
  }

  /** What the reader has been handed and not yet consumed. */
  function Holding(w: World, n: nat, out: Option<(nat, nat)>, a: Act): Option<(nat, nat)>
    requires WorldOk(w, n)
  {
    match a
    case Reader(Scanned(flush)) =>
      var r := Scan(w.driver, n, flush).1;
      if r.Data? then Some((r.cpu, r.seg)) else None
    case Reader(Consumed(_, _)) => None
    case _ => out
  }

  /** A run of producers, reads and polls in any order, with any flush flag at each search. */
  ghost predicate Reads(w: World, n: nat, out: Option<(nat, nat)>, acts: seq<Act>, r: World, s: Option<(nat, nat)>)
    requires WorldOk(w, n)
    decreases |acts|
  {
    if acts == [] then r == w && s == out
    else
      && Legal(w, n, out, acts[0])
      && Reads(Do(w, n, EventOf(acts[0])), n, Holding(w, n, out, acts[0]), acts[1..], r, s)
  }

  /** Cpu c's line after an act. */
  function Requeued(w: World, n: nat, c: nat, q: seq<nat>, a: Act): seq<nat>
    requires WorldOk(w, n) && c < |w.past|
  {
    match a
    case Reader(Produced(k, m)) => if k == c then Joined(w.driver.bufs[c], Produce(w.driver.bufs[c], m), q) else q
    case Reader(Consumed(k, i)) => if k == c && q != [] && q[0] == i then q[1..] else q
    case _ => q
  }

  /** The act is a read's search that stops at cpu c. */
  ghost predicate Serves(w: World, n: nat, c: nat, a: Act)
    requires WorldOk(w, n)
  {
    && a.Reader? && a.e.Scanned?
    && Scan(w.driver, n, a.e.flush).1.Data? && Scan(w.driver, n, a.e.flush).1.cpu == c
  }

  /** No read's search that stops at cpu c finds the front of c's line overtaken. */
  ghost predicate NeverOvertaken(w: World, n: nat, acts: seq<Act>, c: nat, q: seq<nat>)
    requires WorldOk(w, n) && c < |w.past|
    decreases |acts|
  {
    acts == [] ||
    (&& Fits(EventOf(acts[0]), |w.past|, n)
     && (Serves(w, n, c, acts[0]) ==> !Overtakes(w.driver.bufs[c], q, acts[0].e.flush))
     && NeverOvertaken(Do(w, n, EventOf(acts[0])), n, acts[1..], c, Requeued(w, n, c, q, acts[0])))
  }

  // ----- While delivery is in order -----

  /** What has been accepted is what was delivered and then what waits in line. */
  ghost predicate InLine(b: Buffer, h: History, q: seq<nat>) {
    Line(b, q) && h.accepted == h.delivered + Waiting(b.segs, q)
  }

  lemma OfferInLine(b: Buffer, h: History, q: seq<nat>, m: Msg)
    requires InLine(b, h, q)
    ensures var p := Produce(b, m);
            InLine(p, History(h.attempts + 1, if p.dropped > b.dropped then h.accepted else h.accepted + [m], h.delivered),
                   Joined(b, p, q))
  {
    var p := Produce(b, m);
    ProduceOffers(b, m);
    OfferLine(b, p, q, m);
    JoinEnd(h.delivered, Waiting(b.segs, q), m);
  }

  lemma JoinEnd(d: seq<Msg>, held: seq<Msg>, m: Msg)
    ensures d + held + [m] == d + (held + [m])
    ensures held + [] == held
  {}

  lemma TakeInLine(b: Buffer, h: History, q: seq<nat>, i: nat)
    requires InLine(b, h, q) && i < |b.segs| && if i in q then q[0] == i else b.segs[i].full
    ensures InLine(Drained(b, i), h.(delivered := h.delivered + b.segs[i].msgs), if i in q then q[1..] else q)
  {
    if i in q {
      TakeFront(b, q);
      SplitFront(h.delivered, b.segs[i].msgs, Waiting(Drained(b, i).segs, q[1..]));
    } else {
      TakeEmpty(b, q, i);
      assert h.delivered + [] == h.delivered;
    }
  }

  lemma SplitFront(d: seq<Msg>, taken: seq<Msg>, rest: seq<Msg>)
    ensures d + (taken + rest) == (d + taken) + rest
  {}

  /** The same of cpu c in a world. */
  ghost predicate Aligned(w: World, n: nat, c: nat, q: seq<nat>) {
    && WorldOk(w, n) && c < |w.past|
    && InLine(w.driver.bufs[c], w.past[c], q)
  }

  /** A segment of c that has been handed out is the front of the line, or full and empty. */
  ghost predicate HoldsFront(w: World, c: nat, q: seq<nat>, out: Option<(nat, nat)>)
    requires c < |w.driver.bufs|
  {
    out.Some? && out.value.0 == c ==>
      && out.value.1 < |w.driver.bufs[c].segs|
      && if out.value.1 in q then q[0] == out.value.1 else w.driver.bufs[c].segs[out.value.1].full
  }

  ghost predicate HoldsYounger(c: nat, q: seq<nat>, out: Option<(nat, nat)>) {
    out.Some? && out.value.0 == c && out.value.1 in q && out.value.1 != q[0]
  }

  lemma OfferAligned(w: World, n: nat, c: nat, q: seq<nat>, k: nat, m: Msg)
    requires Aligned(w, n, c, q) && k < |w.past|
    ensures Aligned(Do(w, n, Produced(k, m)), n, c, Requeued(w, n, c, q, Reader(Produced(k, m))))
  {
    if k == c {
      OfferInLine(w.driver.bufs[c], w.past[c], q, m);
    }
  }

  /** A segment handed out keeps its place in line, whatever is offered meanwhile. */
  lemma OfferKeepsPlace(w: World, n: nat, c: nat, q: seq<nat>, k: nat, m: Msg, out: Option<(nat, nat)>)
    requires Aligned(w, n, c, q) && k < |w.past|
    ensures var x, t := Do(w, n, Produced(k, m)), Requeued(w, n, c, q, Reader(Produced(k, m)));
            && (HoldsFront(w, c, q, out) ==> HoldsFront(x, c, t, out))
            && (HoldsYounger(c, q, out) ==> HoldsYounger(c, t, out))
  {
    OfferAligned(w, n, c, q, k, m);
    if k == c && HoldsFront(w, c, q, out) && out.Some? && out.value.0 == c && out.value.1 !in q {
      ProduceKeepsFull(w.driver.bufs[c], m, out.value.1);
    }
  }

  lemma SearchAligned(w: World, n: nat, c: nat, q: seq<nat>, flush: bool)
    requires Aligned(w, n, c, q)
    ensures Aligned(Do(w, n, Scanned(flush)), n, c, q)
    ensures Do(w, n, Scanned(flush)).driver.bufs[c].segs == w.driver.bufs[c].segs
  {
    ScanMovesCursors(w.driver, n, flush, |w.driver.bufs|);
  }

  /** A read's search hands out the front of the line exactly when it is not overtaken. */
  lemma SearchHands(w: World, n: nat, c: nat, q: seq<nat>, flush: bool)
    requires Aligned(w, n, c, q)
    ensures var a := Reader(Scanned(flush));
            var x, out := Do(w, n, Scanned(flush)), Holding(w, n, None, a);
            if Serves(w, n, c, a) && Overtakes(w.driver.bufs[c], q, flush) then HoldsYounger(c, q, out)
            else HoldsFront(x, c, q, out)
  {
    SearchAligned(w, n, c, q, flush);
    if Scan(w.driver, n, flush).1.Data? {
      ScanHands(w.driver, n, flush);
      if Scan(w.driver, n, flush).1.cpu == c {
        HandsOut(w.driver.bufs[c], q, flush, Scan(w.driver, n, flush).1.seg);
      }
    }
  }

  lemma TakeAligned(w: World, n: nat, c: nat, q: seq<nat>, k: nat, i: nat)
    requires Aligned(w, n, c, q) && HoldsFront(w, c, q, Some((k, i))) && k < |w.past| && i < n
    ensures Aligned(Do(w, n, Consumed(k, i)), n, c, Requeued(w, n, c, q, Reader(Consumed(k, i))))
  {
    if k == c {
      TakeInLine(w.driver.bufs[c], w.past[c], q, i);
    }
  }

  lemma ActAligned(w: World, n: nat, c: nat, q: seq<nat>, out: Option<(nat, nat)>, a: Act)
    requires Aligned(w, n, c, q) && HoldsFront(w, c, q, out) && Legal(w, n, out, a)
    requires Serves(w, n, c, a) ==> !Overtakes(w.driver.bufs[c], q, a.e.flush)
    ensures var x, t := Do(w, n, EventOf(a)), Requeued(w, n, c, q, a);
            Aligned(x, n, c, t) && HoldsFront(x, c, t, Holding(w, n, out, a))
  {
    match a
    case Poll(flush) => SearchAligned(w, n, c, q, flush);
    case Reader(Produced(k, m)) =>
      OfferAligned(w, n, c, q, k, m);
      OfferKeepsPlace(w, n, c, q, k, m, out);
    case Reader(Scanned(flush)) =>
      SearchAligned(w, n, c, q, flush);
      SearchHands(w, n, c, q, flush);
    case Reader(Consumed(k, i)) => TakeAligned(w, n, c, q, k, i);
  }

  lemma {:induction false} RunAligned(w: World, n: nat, out: Option<(nat, nat)>, acts: seq<Act>, r: World,
                                      s: Option<(nat, nat)>, c: nat, q: seq<nat>)
    requires Aligned(w, n, c, q) && HoldsFront(w, c, q, out)
    requires Reads(w, n, out, acts, r, s) && NeverOvertaken(w, n, acts, c, q)
    ensures exists t :: Aligned(r, n, c, t)
    decreases |acts|
  {
    if acts != [] {
      ActAligned(w, n, c, q, out, acts[0]);
      RunAligned(Do(w, n, EventOf(acts[0])), n, Holding(w, n, out, acts[0]), acts[1..], r, s, c,
                 Requeued(w, n, c, q, acts[0]));
    }
  }

  // ----- Once it is not -----

  /** Some message has been delivered out of turn. Both logs only grow, so this is for good. */
  ghost predicate Broken(h: History) {
    exists k :: 0 <= k < |h.delivered| && k < |h.accepted| && h.delivered[k] != h.accepted[k]
  }

  lemma ActGrows(w: World, n: nat, c: nat, e: Event)
    requires WorldOk(w, n) && Fits(e, |w.past|, n) && c < |w.past|
    ensures w.past[c].accepted <= Do(w, n, e).past[c].accepted
    ensures w.past[c].delivered <= Do(w, n, e).past[c].delivered
    ensures w.driver.bufs[c].dropped <= Do(w, n, e).driver.bufs[c].dropped
  {
    match e
    case Produced(k, m) => ProduceFits(w.driver.bufs[k], m);
    case Scanned(flush) => ScanMovesCursors(w.driver, n, flush, |w.driver.bufs|);
    case Consumed(_, _) =>
  }

  lemma {:induction false} RunGrows(w: World, n: nat, out: Option<(nat, nat)>, acts: seq<Act>, r: World,
                                    s: Option<(nat, nat)>, c: nat)
    requires WorldOk(w, n) && Reads(w, n, out, acts, r, s) && c < |w.past|
    ensures |r.past| == |w.past| && WorldOk(r, n)
    ensures w.past[c].accepted <= r.past[c].accepted && w.past[c].delivered <= r.past[c].delivered
    ensures w.driver.bufs[c].dropped <= r.driver.bufs[c].dropped
    decreases |acts|
  {
    if acts != [] {
      ActGrows(w, n, c, EventOf(acts[0]));
      RunGrows(Do(w, n, EventOf(acts[0])), n, Holding(w, n, out, acts[0]), acts[1..], r, s, c);
    }
  }

  lemma RunBroken(w: World, n: nat, out: Option<(nat, nat)>, acts: seq<Act>, r: World, s: Option<(nat, nat)>, c: nat)
    requires WorldOk(w, n) && Reads(w, n, out, acts, r, s) && c < |w.past| && Broken(w.past[c])
    ensures |r.past| == |w.past| && Broken(r.past[c])
  {
    RunGrows(w, n, out, acts, r, s, c);
    var k :| 0 <= k < |w.past[c].delivered| && k < |w.past[c].accepted| && w.past[c].delivered[k] != w.past[c].accepted[k];
    assert r.past[c].delivered[k] != r.past[c].accepted[k];
  }

  /** Consuming a younger segment delivers its first message where the front's was due. */
  lemma TakeBreaks(w: World, n: nat, c: nat, q: seq<nat>, i: nat)
    requires Aligned(w, n, c, q) && i < n && i in q && i != q[0] && DistinctMsgs(w.past[c].accepted)
    ensures Broken(Do(w, n, Consumed(c, i)).past[c])
  {
    var b, h := w.driver.bufs[c], w.past[c];
    var k :| 0 <= k < |q| && q[k] == i;
    var o := WaitingAt(b.segs, q, k);
    var d := |h.delivered|;
    assert h.accepted[d + o] == b.segs[i].msgs[0];
    assert (h.delivered + b.segs[i].msgs)[d] == b.segs[i].msgs[0];
  }

  /** A reader that has been handed a younger segment will consume it. */
  lemma {:induction false} YoungerBreaks(w: World, n: nat, out: Option<(nat, nat)>, acts: seq<Act>, r: World, c: nat,
                                         q: seq<nat>)
    requires Aligned(w, n, c, q) && HoldsYounger(c, q, out) && Reads(w, n, out, acts, r, None)
    requires c < |r.past| && DistinctMsgs(r.past[c].accepted)
    ensures Broken(r.past[c])
    decreases |acts|
  {
    var a := acts[0];
    var x, t := Do(w, n, EventOf(a)), Requeued(w, n, c, q, a);
    RunGrows(w, n, out, acts, r, None, c);
    match a {
      case Reader(Consumed(_, i)) =>
        TakeBreaks(w, n, c, q, i);
        RunBroken(x, n, None, acts[1..], r, None, c);
      case Reader(Produced(k, m)) =>
        OfferAligned(w, n, c, q, k, m);
        OfferKeepsPlace(w, n, c, q, k, m, out);
        YoungerBreaks(x, n, out, acts[1..], r, c, t);
      case Poll(flush) =>
        SearchAligned(w, n, c, q, flush);
        YoungerBreaks(x, n, out, acts[1..], r, c, t);
      case Reader(Scanned(_)) =>
    }
  }

  lemma {:induction false} OvertakingBreaks(w: World, n: nat, out: Option<(nat, nat)>, acts: seq<Act>, r: World, c: nat,
                                            q: seq<nat>)
    requires Aligned(w, n, c, q) && HoldsFront(w, c, q, out)
    requires Reads(w, n, out, acts, r, None) && !NeverOvertaken(w, n, acts, c, q)
    requires c < |r.past| && DistinctMsgs(r.past[c].accepted)
    ensures Broken(r.past[c])
    decreases |acts|
  {
    var a := acts[0];
    var x := Do(w, n, EventOf(a));
    if Serves(w, n, c, a) && Overtakes(w.driver.bufs[c], q, a.e.flush) {
      SearchAligned(w, n, c, q, a.e.flush);
      SearchHands(w, n, c, q, a.e.flush);
      YoungerBreaks(x, n, Holding(w, n, out, a), acts[1..], r, c, q);
    } else {
      ActAligned(w, n, c, q, out, a);
      OvertakingBreaks(x, n, Holding(w, n, out, a), acts[1..], r, c, Requeued(w, n, c, q, a));
    }
  }

  // ----- The theorem -----

  lemma FreshAligned(w: World, n: nat, c: nat)
    requires Fresh(w, n) && c < |w.past|
    ensures Aligned(w, n, c, []) && HoldsFront(w, c, [], None)
  {}

  /** Delivered so far is a prefix of what was accepted, and all of it once a draining search finds nothing. */
  ghost predicate OrderKept(w: World, n: nat, c: nat)
    requires WorldOk(w, n) && c < |w.past|
  {
    && w.past[c].delivered <= w.past[c].accepted
    && Flatten(w.past[c].delivered) <= Flatten(w.past[c].accepted)
    && (Scan(w.driver, n, true).1.AllDone? ==> w.past[c].delivered == w.past[c].accepted)
  }

  lemma FrontHolds(b: Buffer, q: seq<nat>)
    requires Line(b, q) && q != []
    ensures q[0] < |b.segs| && !Dead(b.segs[q[0]])
  {}

  lemma AlignedOrderKept(w: World, n: nat, c: nat, q: seq<nat>)
    requires Aligned(w, n, c, q)
    ensures OrderKept(w, n, c)
  {
    FlattenConcat(w.past[c].delivered, Waiting(w.driver.bufs[c].segs, q));
    if Scan(w.driver, n, true).1.AllDone? {
      ScanIsExact(w.driver, n, true);
      if q != [] {
        FrontHolds(w.driver.bufs[c], q);
        assert false;
      }
    }
  }

  /**
    * Order, exactly: in any run from a reset, a cpu's messages are delivered in production order without gaps if
    * no read's search that stops at it finds the front of its line overtaken; and if its messages are distinct
    * and the reader has consumed what it was handed, only if.
    */
  lemma DeliveredInOrderExactly(w: World, n: nat, acts: seq<Act>, r: World, s: Option<(nat, nat)>, c: nat)
    requires Fresh(w, n) && Reads(w, n, None, acts, r, s) && c < |w.past|
    ensures |r.past| == |w.past| && WorldOk(r, n)
    ensures NeverOvertaken(w, n, acts, c, []) ==> OrderKept(r, n, c)
    ensures s.None? && DistinctMsgs(r.past[c].accepted) ==>
              (r.past[c].delivered <= r.past[c].accepted <==> NeverOvertaken(w, n, acts, c, []))
  {
    FreshAligned(w, n, c);
    RunGrows(w, n, None, acts, r, s, c);
    if NeverOvertaken(w, n, acts, c, []) {
      RunAligned(w, n, None, acts, r, s, c, []);
      var q :| Aligned(r, n, c, q);
      AlignedOrderKept(r, n, c, q);
    } else if s.None? && DistinctMsgs(r.past[c].accepted) {
      OvertakingBreaks(w, n, None, acts, r, c, []);
    }
  }
}
