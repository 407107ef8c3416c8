/**
  * Whole runs of the output buffers: conservation, starvation and draining. A run is any sequence of offers, searches
  * and reads; a search may be a poll's or a read's, and a read may take any segment. Beside each buffer stands its cpu's
  * history: what was offered, stored and delivered. The lemmas say that no message is lost or delivered twice, that a
  * full segment is handed out after a bounded number of searches, and that draining ends with everything delivered.
  */
module SegmentRuns {
  import opened Bits
  import opened Records
  import opened SegmentSpec

  /** A consumer may be asked for any segment, and scans come from reads and from polls alike. */
  datatype Event = Produced(cpu: nat, msg: Msg) | Scanned(flush: bool) | Consumed(cpu: nat, seg: nat)

  /** One cpu's history beside its buffer: messages offered, messages stored, messages handed to the reader. */
  datatype History = History(attempts: nat, accepted: seq<Msg>, delivered: seq<Msg>)

  datatype World = World(driver: Driver, past: seq<History>)

  ghost predicate WorldOk(w: World, n: nat) {
    DriverOk(w.driver, n) && |w.past| == |w.driver.bufs|
  }

  ghost predicate Fits(e: Event, cpus: nat, n: nat) {
    match e
    case Produced(c, m) => c < cpus
    case Scanned(flush) => true
    case Consumed(c, i) => c < cpus && i < n
  }

  function Do(w: World, n: nat, e: Event): (r: World)
    requires WorldOk(w, n) && Fits(e, |w.past|, n)
    ensures WorldOk(r, n) && |r.past| == |w.past|
  {
    match e
    case Produced(c, m) =>
      var b := w.driver.bufs[c];
      ProduceFits(b, m);
      var h := w.past[c];
      World(w.driver.(bufs := w.driver.bufs[c := Produce(b, m)]),
            w.past[c := History(h.attempts + 1,
                                if Produce(b, m).dropped > b.dropped then h.accepted else h.accepted + [m],
                                h.delivered)])
    case Scanned(flush) => w.(driver := Scan(w.driver, n, flush).0)
    case Consumed(c, i) =>
      var h := w.past[c];
      World(Consume(w.driver, n, c, i),
            w.past[c := h.(delivered := h.delivered + w.driver.bufs[c].segs[i].msgs)])
  }

  ghost predicate AllFit(es: seq<Event>, cpus: nat, n: nat) {
    forall k :: 0 <= k < |es| ==> Fits(es[k], cpus, n)
  }

  function Run(w: World, n: nat, es: seq<Event>): (r: World)
    requires WorldOk(w, n) && AllFit(es, |w.past|, n)
    ensures WorldOk(r, n) && |r.past| == |w.past|
    decreases |es|
  {
    if es == [] then w else Run(Do(w, n, es[0]), n, es[1..])
  }

  /** The state a reset leaves. */
  ghost predicate Fresh(w: World, n: nat) {
    && WorldOk(w, n)
    && w.driver.lastCpu == -1
    && forall c :: 0 <= c < |w.past| ==> w.past[c] == History(0, [], []) && FreshBuffer(w.driver.bufs[c])
  }

  ghost predicate FreshBuffer(b: Buffer) {
    && b.index == 0 && b.last == -1 && b.produced == 0 && b.dropped == 0
    && forall i :: 0 <= i < |b.segs| ==> Dead(b.segs[i])
  }

  // ----- Conservation -----

  function Rows(segs: seq<Segment>): (r: seq<seq<Msg>>)
    ensures |r| == |segs| && forall i :: 0 <= i < |segs| ==> r[i] == segs[i].msgs
  {
    seq(|segs|, i requires 0 <= i < |segs| => segs[i].msgs)
  }

  /** The messages held by the segments. */
  function Held(segs: seq<Segment>): multiset<Msg> { Bag(Rows(segs), 0) }

  lemma HeldDead(segs: seq<Segment>)
    requires forall k :: 0 <= k < |segs| ==> segs[k].msgs == []
    ensures Held(segs) == multiset{}
  {
    BagEmpty(Rows(segs), 0);
  }

  lemma HeldSame(segs: seq<Segment>, j: nat, s: Segment)
    requires j < |segs| && s.msgs == segs[j].msgs
    ensures Held(segs[j := s]) == Held(segs)
  {
    assert Rows(segs[j := s]) == Rows(segs);
  }

  lemma HeldStore(segs: seq<Segment>, j: nat, m: Msg)
    requires j < |segs|
    ensures Held(segs[j := Store(segs[j], m)]) == Held(segs) + multiset{m}
  {
    BagAppend(Rows(segs), j, m);
    assert Rows(segs[j := Store(segs[j], m)]) == Rows(segs)[j := Rows(segs)[j] + [m]];
  }

  lemma HeldRemove(segs: seq<Segment>, j: nat)
    requires j < |segs|
    ensures Held(segs[j := Segment([], false)]) + multiset(segs[j].msgs) == Held(segs)
  {
    BagRemove(Rows(segs), j);
    assert Rows(segs[j := Segment([], false)]) == Rows(segs)[j := []];
  }

  /** A buffer's books balance: every offer is stored or dropped, every stored message is delivered or still held. */
  ghost predicate Balanced(b: Buffer, h: History) {
    && h.attempts == b.produced + b.dropped
    && b.produced == |h.accepted|
    && multiset(h.accepted) == multiset(h.delivered) + Held(b.segs)
  }

  lemma ProduceBalances(b: Buffer, h: History, m: Msg)
    requires BufferOk(b) && Balanced(b, h)
    ensures var p := Produce(b, m);
            Balanced(p, History(h.attempts + 1, if p.dropped > b.dropped then h.accepted else h.accepted + [m], h.delivered))
  {
    var p := Produce(b, m);
    ProduceFits(b, m);
    assert multiset(h.accepted + [m]) == multiset(h.accepted) + multiset{m};
    if Space(b.segs[b.index]) < |m| {
      var marked := b.segs[b.index := b.segs[b.index].(full := true)];
      HeldSame(b.segs, b.index, b.segs[b.index].(full := true));
      var r := Find(marked, b.index, |m|, 1);
      if r.Some? {
        HeldStore(marked, r.value, m);
      }
    } else {
      HeldStore(b.segs, b.index, m);
    }
  }

  lemma ConsumeBalances(b: Buffer, h: History, i: nat)
    requires BufferOk(b) && i < |b.segs| && Balanced(b, h)
    ensures Balanced(Drained(b, i), h.(delivered := h.delivered + b.segs[i].msgs))
  {
    HeldRemove(b.segs, i);
    assert multiset(h.delivered + b.segs[i].msgs) == multiset(h.delivered) + multiset(b.segs[i].msgs);
  }

  ghost predicate AllBalanced(w: World, n: nat) {
    && WorldOk(w, n)
    && forall c :: 0 <= c < |w.past| ==> Balanced(w.driver.bufs[c], w.past[c])
  }

  ghost predicate SameAccepted(w: World, x: World) {
    |x.past| == |w.past| && forall c :: 0 <= c < |w.past| ==> x.past[c].accepted == w.past[c].accepted
  }

  /** Scans and reads store nothing. */
  lemma DoAccepts(w: World, n: nat, e: Event)
    requires WorldOk(w, n) && Fits(e, |w.past|, n) && !e.Produced?
    ensures SameAccepted(w, Do(w, n, e))
  {}

  lemma DoBalances(w: World, n: nat, e: Event)
    requires AllBalanced(w, n) && Fits(e, |w.past|, n)
    ensures AllBalanced(Do(w, n, e), n)
  {
    match e
    case Produced(c, m) => ProduceBalances(w.driver.bufs[c], w.past[c], m);
    case Scanned(flush) => ScanMovesCursors(w.driver, n, flush, |w.driver.bufs|);
    case Consumed(c, i) => ConsumeBalances(w.driver.bufs[c], w.past[c], i);
  }

  lemma {:induction false} RunBalances(w: World, n: nat, es: seq<Event>)
    requires AllBalanced(w, n) && AllFit(es, |w.past|, n)
    ensures AllBalanced(Run(w, n, es), n)
    decreases |es|
  {
    if es != [] {
      DoBalances(w, n, es[0]);
      RunBalances(Do(w, n, es[0]), n, es[1..]);
    }
  }

  /**
    * Conservation: after any run of offers, scans, polls and reads of any segments, attempts are the produced
    * plus the dropped, the produced are the stored messages, and those are delivered once each or still held.
    */
  lemma NothingLostOrDuplicated(w: World, n: nat, es: seq<Event>)
    requires Fresh(w, n) && AllFit(es, |w.past|, n)
    ensures AllBalanced(Run(w, n, es), n)
  {
    forall c | 0 <= c < |w.past| ensures Balanced(w.driver.bufs[c], w.past[c]) {
      HeldDead(w.driver.bufs[c].segs);
    }
    RunBalances(w, n, es);
  }

  // ----- Starvation -----

  /** Scans needed at most before a full segment (c, i) is handed out. */
  function Wait(d: Driver, n: nat, c: nat, i: nat): (k: nat)
    requires DriverOk(d, n) && c < |d.bufs| && i < n
  {
    Ahead(d.bufs[c], i) * |d.bufs| + Distance(d, c)
  }

  lemma RankBound(k: nat, n: nat, m: nat, j: nat)
    requires k < n && 1 <= j <= m
    ensures 1 <= k * m + j <= n * m
  {
    ProductBelow(k, n, m);
  }

  lemma RankDrops(k: nat, l: nat, m: nat, j: nat, i: nat)
    requires l < k && i <= m && 1 <= j
    ensures l * m + i < k * m + j
  {
    if m > 0 {
      ProductBelow(l, k, m);
    }
  }

  lemma WaitBound(d: Driver, n: nat, c: nat, i: nat)
    requires DriverOk(d, n) && c < |d.bufs| && i < n
    ensures 1 <= Wait(d, n, c, i) <= n * |d.bufs|
  {
    RankBound(Ahead(d.bufs[c], i), n, |d.bufs|, Distance(d, c));
  }

  lemma AdvanceShortens(b: Buffer, flush: bool, i: nat)
    requires BufferOk(b) && i < |b.segs| && Hit(b.segs[i], flush) && Advance(b, flush).last != i
    ensures Ahead(Advance(b, flush), i) < Ahead(b, i)
  {
    FirstHitIsFirst(b, flush, 0, i);
  }

  lemma ScanShortensWait(d: Driver, n: nat, flush: bool, c: nat, i: nat)
    requires DriverOk(d, n) && c < |d.bufs| && i < n && d.bufs[c].segs[i].full
    requires Scan(d, n, flush).1 != Data(c, i)
    ensures CursorsOnly(d, Scan(d, n, flush).0)
    ensures Wait(Scan(d, n, flush).0, n, c, i) < Wait(d, n, c, i)
  {
    ScanMovesCursors(d, n, flush, |d.bufs|);
    ScanStops(d, n, flush, |d.bufs|, c, i);
    var e := Scan(d, n, flush).0;
    if Scan(d, n, flush).1.cpu == c {
      AdvanceShortens(d.bufs[c], flush, i);
      RankDrops(Ahead(d.bufs[c], i), Ahead(e.bufs[c], i), |d.bufs|, Distance(d, c), Distance(e, c));
    }
  }

  lemma ProduceKeepsFull(b: Buffer, m: Msg, i: nat)
    requires BufferOk(b) && i < |b.segs| && b.segs[i].full
    ensures i < |Produce(b, m).segs| && Produce(b, m).segs[i] == b.segs[i] && Produce(b, m).last == b.last
  {
    ProduceFits(b, m);
  }

  /** Whether some scan of the run hands out, or some read takes, segment i of cpu c. */
  ghost predicate Reached(w: World, n: nat, es: seq<Event>, c: nat, i: nat)
    requires WorldOk(w, n) && AllFit(es, |w.past|, n)
    decreases |es|
  {
    es != [] && (|| es[0] == Consumed(c, i)
                 || (es[0].Scanned? && Scan(w.driver, n, es[0].flush).1 == Data(c, i))
                 || Reached(Do(w, n, es[0]), n, es[1..], c, i))
  }

  function Scans(es: seq<Event>): nat {
    if es == [] then 0 else (if es[0].Scanned? then 1 else 0) + Scans(es[1..])
  }

  lemma {:induction false} WaitRunsOut(w: World, n: nat, es: seq<Event>, c: nat, i: nat)
    requires WorldOk(w, n) && AllFit(es, |w.past|, n) && c < |w.past| && i < n
    requires w.driver.bufs[c].segs[i].full && !Reached(w, n, es, c, i)
    ensures Scans(es) < Wait(w.driver, n, c, i)
    decreases |es|
  {
    WaitBound(w.driver, n, c, i);
    if es != [] {
      var x := Do(w, n, es[0]);
      match es[0] {
        case Produced(k, m) =>
          if k == c { ProduceKeepsFull(w.driver.bufs[c], m, i); }
        case Scanned(flush) => ScanShortensWait(w.driver, n, flush, c, i);
        case Consumed(k, j) =>
      }
      WaitRunsOut(x, n, es[1..], c, i);
    }
  }

  /**
    * No starvation: once a segment is full, any run holding segments-per-buffer times buffers scans hands it
    * out, whatever producers and other reads do in between.
    */
  lemma FullSegmentIsHandedOut(w: World, n: nat, es: seq<Event>, c: nat, i: nat)
    requires WorldOk(w, n) && AllFit(es, |w.past|, n) && c < |w.past| && i < n
    requires w.driver.bufs[c].segs[i].full && Scans(es) >= n * |w.past|
    ensures Reached(w, n, es, c, i)
  {
    if !Reached(w, n, es, c, i) {
      WaitRunsOut(w, n, es, c, i);
      WaitBound(w.driver, n, c, i);
      assert false;
    }
  }

  // ----- Draining -----

  /** Segments that still hold something, from position i on. */
  function Live(segs: seq<Segment>, i: nat): nat
    requires i <= |segs|
    decreases |segs| - i
  {
    if i == |segs| then 0 else (if Dead(segs[i]) then 0 else 1) + Live(segs, i + 1)
  }

  lemma {:induction false} LiveUpdate(segs: seq<Segment>, i: nat, j: nat)
    requires i <= |segs| && j < |segs| && !Dead(segs[j])
    ensures Live(segs[j := Segment([], false)], i) == Live(segs, i) - (if j < i then 0 else 1)
    decreases |segs| - i
  {
    if i < |segs| {
      LiveUpdate(segs, i + 1, j);
    }
  }

  function AllLive(bufs: seq<Buffer>, c: nat): nat
    requires c <= |bufs|
    decreases |bufs| - c
  {
    if c == |bufs| then 0 else Live(bufs[c].segs, 0) + AllLive(bufs, c + 1)
  }

  lemma {:induction false} AllLiveConsume(a: seq<Buffer>, b: seq<Buffer>, k: nat, i: nat, c: nat)
    requires |a| == |b| && c <= |a| && k < |a| && i < |a[k].segs| && !Dead(a[k].segs[i])
    requires forall j :: 0 <= j < |a| ==> b[j].segs == if j == k then a[k].segs[i := Segment([], false)] else a[j].segs
    ensures AllLive(b, c) == AllLive(a, c) - (if k < c then 0 else 1)
    decreases |a| - c
  {
    if c < |a| {
      LiveUpdate(a[k].segs, 0, i);
      AllLiveConsume(a, b, k, i, c + 1);
    }
  }

  /** The world after a draining scan, and after the read it calls for. */
  ghost function Turned(w: World, n: nat): (r: World)
    requires AllBalanced(w, n) && Scan(w.driver, n, true).1.Data?
    ensures WorldOk(r, n)
  {
    ScanAnswers(w.driver, n, true, |w.driver.bufs|);
    var a := Scan(w.driver, n, true).1;
    Do(Do(w, n, Scanned(true)), n, Consumed(a.cpu, a.seg))
  }

  lemma ConsumeShrinks(d: Driver, e: Driver, n: nat, c: nat, i: nat)
    requires DriverOk(d, n) && DriverOk(e, n) && CursorsOnly(d, e) && Somewhere(d, true, c, i)
    ensures AllLive(Consume(e, n, c, i).bufs, 0) < AllLive(d.bufs, 0)
  {
    AllLiveConsume(d.bufs, Consume(e, n, c, i).bufs, c, i, 0);
  }

  lemma TurnBalances(w: World, n: nat)
    requires AllBalanced(w, n) && Scan(w.driver, n, true).1.Data?
    ensures AllBalanced(Turned(w, n), n) && SameAccepted(w, Turned(w, n))
  {
    ScanAnswers(w.driver, n, true, |w.driver.bufs|);
    var a := Scan(w.driver, n, true).1;
    var s := Do(w, n, Scanned(true));
    DoBalances(w, n, Scanned(true));
    DoAccepts(w, n, Scanned(true));
    DoBalances(s, n, Consumed(a.cpu, a.seg));
    DoAccepts(s, n, Consumed(a.cpu, a.seg));
  }

  /** One turn of the draining reader. */
  lemma DrainTurn(w: World, n: nat)
    requires AllBalanced(w, n) && Scan(w.driver, n, true).1.Data?
    ensures AllBalanced(Turned(w, n), n) && SameAccepted(w, Turned(w, n))
    ensures AllLive(Turned(w, n).driver.bufs, 0) < AllLive(w.driver.bufs, 0)
  {
    TurnBalances(w, n);
    ScanMovesCursors(w.driver, n, true, |w.driver.bufs|);
    ScanAnswers(w.driver, n, true, |w.driver.bufs|);
    var a := Scan(w.driver, n, true).1;
    ConsumeShrinks(w.driver, Scan(w.driver, n, true).0, n, a.cpu, a.seg);
  }

  /** The reader's loop once producers have stopped: drain until all writes are reported done. */
  ghost function Drain(w: World, n: nat): (r: World)
    requires AllBalanced(w, n)
    decreases AllLive(w.driver.bufs, 0)
  {
    var a := Scan(w.driver, n, true).1;
    if !a.Data? then Do(w, n, Scanned(true))
    else
      DrainTurn(w, n);
      Drain(Turned(w, n), n)
  }

  /** A reader told that all writes are done has been given every message stored. */
  lemma DrainEnds(w: World, n: nat)
    requires AllBalanced(w, n) && !Scan(w.driver, n, true).1.Data?
    ensures var r := Do(w, n, Scanned(true));
            && AllBalanced(r, n) && r.past == w.past
            && Scan(r.driver, n, true).1.AllDone?
            && forall c :: 0 <= c < |w.past| ==> multiset(w.past[c].delivered) == multiset(w.past[c].accepted)
  {
    ScanAnswers(w.driver, n, true, |w.driver.bufs|);
    ScanIsExact(w.driver, n, true);
    DoBalances(w, n, Scanned(true));
    var r := Do(w, n, Scanned(true));
    ScanIsExact(r.driver, n, true);
    forall c | 0 <= c < |w.past| ensures multiset(w.past[c].delivered) == multiset(w.past[c].accepted) {
      assert Balanced(w.driver.bufs[c], w.past[c]);
      HeldDead(w.driver.bufs[c].segs);
    }
  }

  /** World r is where draining w ends: nothing is left to read and every stored message has been delivered. */
  ghost predicate DrainsTo(w: World, r: World, n: nat) {
    && AllBalanced(r, n) && |r.past| == |w.past|
    && Scan(r.driver, n, true).1.AllDone?
    && forall c :: 0 <= c < |w.past| ==> && r.past[c].accepted == w.past[c].accepted
                                         && multiset(r.past[c].delivered) == multiset(w.past[c].accepted)
  }

  lemma DrainsToStep(w: World, x: World, r: World, n: nat)
    requires DrainsTo(x, r, n) && SameAccepted(w, x)
    ensures DrainsTo(w, r, n)
  {}

  /** Draining ends, leaves every segment empty and delivers every message stored. */
  lemma {:induction false} DrainDelivers(w: World, n: nat)
    requires AllBalanced(w, n)
    ensures DrainsTo(w, Drain(w, n), n)
    decreases AllLive(w.driver.bufs, 0)
  {
    var a := Scan(w.driver, n, true).1;
    if a.Data? {
      DrainTurn(w, n);
      var x := Turned(w, n);
      DrainDelivers(x, n);
      DrainsToStep(w, x, Drain(x, n), n);
    } else {
      DrainEnds(w, n);
    }
  }
}
