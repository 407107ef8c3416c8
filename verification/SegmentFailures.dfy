/**
  * Runs from a reset, by a reader that consumes exactly what it is handed, in which messages are delivered out of order:
  * one with a poll, one with a pause and a resume, and one with a drop, each without the other two causes. The messages
  * are as large as a segment, so that two of them fill a buffer. Every step of a run is an act that the discipline of
  * `SegmentLine` allows; the small lemmas extend a run by one act or one read and say which world it leads to.
  */
module SegmentFailures {
  import opened Records
  import opened SegmentSpec
  import opened SegmentRuns
  import opened SegmentLine

  // ----- Building runs -----

  lemma {:induction false} ReadsOn(w: World, n: nat, out: Option<(nat, nat)>, acts: seq<Act>, x: World,
                                   s: Option<(nat, nat)>, a: Act)
    requires WorldOk(w, n) && Reads(w, n, out, acts, x, s) && WorldOk(x, n) && Legal(x, n, s, a)
    ensures Reads(w, n, out, acts + [a], Do(x, n, EventOf(a)), Holding(x, n, s, a))
    decreases |acts|
  {
    if acts == [] {
      assert (acts + [a])[1..] == [];
    } else {
      assert (acts + [a])[1..] == acts[1..] + [a];
      ReadsOn(Do(w, n, EventOf(acts[0])), n, Holding(w, n, out, acts[0]), acts[1..], x, s, a);
    }
  }

  const EMPTY := Segment([], false)

  /** One cpu with two segments. */
  function Pair(s0: Segment, s1: Segment, index: nat, last: int, produced: nat, dropped: nat): Buffer {
    Buffer([s0, s1], index, last, produced, dropped)
  }

  function OneCpu(b: Buffer, lastCpu: int, h: History): World { World(Driver([b], lastCpu), [h]) }

  const RESET := OneCpu(Pair(EMPTY, EMPTY, 0, -1, 0, 0), -1, History(0, [], []))

  /** The acts lead from a reset of one cpu with two segments to x, where `out` is handed out; without polls if `quiet`. */
  ghost predicate Leads(acts: seq<Act>, quiet: bool, out: Option<(nat, nat)>, x: World) {
    && Fresh(RESET, 2) && WorldOk(x, 2) && Reads(RESET, 2, None, acts, x, out)
    && (quiet ==> forall k :: 0 <= k < |acts| ==> acts[k].Reader?)
  }

  ghost predicate Reached(quiet: bool, out: Option<(nat, nat)>, x: World) { exists acts :: Leads(acts, quiet, out, x) }

  lemma ReachOn(quiet: bool, out: Option<(nat, nat)>, x: World, a: Act)
    requires Reached(quiet, out, x) && Legal(x, 2, out, a) && (quiet ==> a.Reader?)
    ensures WorldOk(x, 2) && Reached(quiet, Holding(x, 2, out, a), Do(x, 2, EventOf(a)))
  {
    var acts :| Leads(acts, quiet, out, x);
    ReadsOn(RESET, 2, None, acts, x, out, a);
    assert Leads(acts + [a], quiet, Holding(x, 2, out, a), Do(x, 2, EventOf(a)));
  }

  lemma Start(quiet: bool)
    ensures Reached(quiet, None, RESET)
  {
    assert Leads([], quiet, None, RESET);
  }

  function Logged(h: History, b: Buffer, p: Buffer, m: Msg): History {
    History(h.attempts + 1, if p.dropped > b.dropped then h.accepted else h.accepted + [m], h.delivered)
  }

  lemma OfferDoes(b: Buffer, lastCpu: int, h: History, m: Msg)
    requires BufferOk(b) && |b.segs| == 2 && -1 <= lastCpu <= 0
    ensures Do(OneCpu(b, lastCpu, h), 2, Produced(0, m)) == OneCpu(Produce(b, m), lastCpu, Logged(h, b, Produce(b, m), m))
  {
    var p, g := Produce(b, m), Logged(h, b, Produce(b, m), m);
    assert [b][0 := p] == [p] && [h][0 := g] == [g];
  }

  lemma OfferOn(quiet: bool, b: Buffer, p: Buffer, lastCpu: int, h: History, m: Msg)
    requires |b.segs| == 2 && BufferOk(b) && Reached(quiet, None, OneCpu(b, lastCpu, h)) && -1 <= lastCpu <= 0
    requires p == Produce(b, m)
    ensures Reached(quiet, None, OneCpu(p, lastCpu, Logged(h, b, p, m)))
  {
    OfferDoes(b, lastCpu, h, m);
    ReachOn(quiet, None, OneCpu(b, lastCpu, h), Reader(Produced(0, m)));
  }

  lemma PollOn(b: Buffer, lastCpu: int, h: History, flush: bool)
    requires |b.segs| == 2 && BufferOk(b) && Reached(false, None, OneCpu(b, lastCpu, h))
    ensures Reached(false, None, OneCpu(Advance(b, flush), 0, h))
  {
    ReachOn(false, None, OneCpu(b, lastCpu, h), Poll(flush));
    assert [b][0 := Advance(b, flush)] == [Advance(b, flush)];
  }

  /** A read's search over one cpu. */
  lemma SearchOn(quiet: bool, b: Buffer, lastCpu: int, h: History, flush: bool)
    requires |b.segs| == 2 && BufferOk(b) && Reached(quiet, None, OneCpu(b, lastCpu, h)) && -1 <= lastCpu <= 0
    ensures var r := FirstHit(b, flush, 0);
            Reached(quiet, if r.Some? then Some((0, r.value)) else None, OneCpu(Advance(b, flush), 0, h))
  {
    var x := OneCpu(b, lastCpu, h);
    ReachOn(quiet, None, x, Reader(Scanned(flush)));
    assert [b][0 := Advance(b, flush)] == [Advance(b, flush)];
    ScanStep(x.driver, 2, flush, 1);
  }

  /** A read: a search that stops at segment i, then its consumption. */
  lemma ReadOn(quiet: bool, s0: Segment, s1: Segment, index: nat, last: int, produced: nat, dropped: nat, lastCpu: int,
               h: History, flush: bool, i: nat)
    requires var b := Pair(s0, s1, index, last, produced, dropped);
             BufferOk(b) && Reached(quiet, None, OneCpu(b, lastCpu, h)) && FirstHit(b, flush, 0) == Some(i)
    requires -1 <= lastCpu <= 0
    ensures Reached(quiet, None,
              OneCpu(Pair(if i == 0 then EMPTY else s0, if i == 1 then EMPTY else s1, index, i, produced, dropped), 0,
                     h.(delivered := h.delivered + if i == 0 then s0.msgs else s1.msgs)))
  {
    var b := Pair(s0, s1, index, last, produced, dropped);
    SearchOn(quiet, b, lastCpu, h, flush);
    var a := Advance(b, flush);
    var x, g := OneCpu(a, 0, h), h.(delivered := h.delivered + a.segs[i].msgs);
    ReachOn(quiet, Some((0, i)), x, Reader(Consumed(0, i)));
    assert [a][0 := Drained(a, i)] == [Drained(a, i)] && [h][0 := g] == [g];
    assert Do(x, 2, Consumed(0, i)) == OneCpu(Drained(a, i), 0, g);
    assert [s0, s1][i := EMPTY] == [if i == 0 then EMPTY else s0, if i == 1 then EMPTY else s1];
  }

  // ----- Messages of a segment's size -----

  function Big(k: bv8): (m: Msg)
    ensures |m| == SEG_DATA_SIZE
    ensures m[0] == k
  {
    seq(SEG_DATA_SIZE, i => k)
  }

  lemma BigFills(k: bv8, full: bool)
    ensures Written(Segment([Big(k)], full)) == SEG_DATA_SIZE
  {
    assert [Big(k)][..0] == [];
    assert Flatten([Big(k)]) == Flatten([]) + Big(k);
  }

  lemma FillsFirst(a: bv8, last: int, produced: nat)
    requires -1 <= last < 2
    ensures BufferOk(Pair(EMPTY, EMPTY, 0, last, produced, 0))
    ensures Produce(Pair(EMPTY, EMPTY, 0, last, produced, 0), Big(a))
         == Pair(Segment([Big(a)], false), EMPTY, 0, last, produced + 1, 0)
  {
    assert [] + [Big(a)] == [Big(a)];
    assert [EMPTY, EMPTY][0 := Store(EMPTY, Big(a))] == [Segment([Big(a)], false), EMPTY];
  }

  /** A message that does not fit beside a full first segment opens the second. */
  lemma OpensSecond(a: bv8, b: bv8, last: int, produced: nat)
    requires -1 <= last < 2
    ensures BufferOk(Pair(Segment([Big(a)], false), EMPTY, 0, last, produced, 0))
    ensures Produce(Pair(Segment([Big(a)], false), EMPTY, 0, last, produced, 0), Big(b))
         == Pair(Segment([Big(a)], true), Segment([Big(b)], false), 1, last, produced + 1, 0)
  {
    BigFills(a, false);
    BigFills(a, true);
    var segs := [Segment([Big(a)], false), EMPTY];
    var marked := segs[0 := Segment([Big(a)], true)];
    assert Find(marked, 0, |Big(b)|, 1) == Some(1) by { assert marked[Ring(0, 1, 2)] == EMPTY; }
    assert [] + [Big(b)] == [Big(b)];
    assert marked[1 := Store(EMPTY, Big(b))] == [Segment([Big(a)], true), Segment([Big(b)], false)];
  }

  lemma FillFirst(quiet: bool, a: bv8, last: int, produced: nat, lastCpu: int, h: History)
    requires -1 <= last < 2 && -1 <= lastCpu <= 0
    requires Reached(quiet, None, OneCpu(Pair(EMPTY, EMPTY, 0, last, produced, 0), lastCpu, h))
    ensures Reached(quiet, None, OneCpu(Pair(Segment([Big(a)], false), EMPTY, 0, last, produced + 1, 0), lastCpu,
                                        History(h.attempts + 1, h.accepted + [Big(a)], h.delivered)))
  {
    FillsFirst(a, last, produced);
    OfferOn(quiet, Pair(EMPTY, EMPTY, 0, last, produced, 0), Pair(Segment([Big(a)], false), EMPTY, 0, last, produced + 1, 0),
            lastCpu, h, Big(a));
  }

  /** Two messages of a segment's size fill the first segment and occupy the second. */
  lemma FillBoth(quiet: bool, a: bv8, b: bv8, last: int, produced: nat, lastCpu: int, h: History)
    requires -1 <= last < 2 && -1 <= lastCpu <= 0
    requires Reached(quiet, None, OneCpu(Pair(EMPTY, EMPTY, 0, last, produced, 0), lastCpu, h))
    ensures Reached(quiet, None,
              OneCpu(Pair(Segment([Big(a)], true), Segment([Big(b)], false), 1, last, produced + 2, 0), lastCpu,
                     History(h.attempts + 2, h.accepted + [Big(a)] + [Big(b)], h.delivered)))
  {
    FillFirst(quiet, a, last, produced, lastCpu, h);
    OpensSecond(a, b, last, produced + 1);
    OfferOn(quiet, Pair(Segment([Big(a)], false), EMPTY, 0, last, produced + 1, 0),
            Pair(Segment([Big(a)], true), Segment([Big(b)], false), 1, last, produced + 2, 0),
            lastCpu, History(h.attempts + 1, h.accepted + [Big(a)], h.delivered), Big(b));
  }

  lemma TwoStored(quiet: bool, a: bv8, b: bv8)
    ensures Reached(quiet, None, OneCpu(Pair(Segment([Big(a)], true), Segment([Big(b)], false), 1, -1, 2, 0), -1,
                                        History(2, [Big(a), Big(b)], [])))
  {
    Start(quiet);
    FillBoth(quiet, a, b, -1, 0, -1, History(0, [], []));
    assert [] + [Big(a)] + [Big(b)] == [Big(a), Big(b)];
  }

  // ----- Polls -----

  /**
    * A poll moves the reader's cursor without reading: when collection stops between a poll and the read
    * it announced, the newer segment is drained first.
    */
  lemma PollBreaksOrder()
    ensures exists x :: && Reached(false, None, x) && x.driver.bufs[0].dropped == 0
                        && !(x.past[0].delivered <= x.past[0].accepted)
  {
    var a, b := Big(0), Big(1);
    var h := History(2, [a, b], []);
    var s0, s1 := Segment([a], true), Segment([b], false);
    TwoStored(false, 0, 1);
    BigFills(0, true);
    BigFills(1, false);
    PollOn(Pair(s0, s1, 1, -1, 2, 0), -1, h, false);
    ReadOn(false, s0, s1, 1, 0, 2, 0, 0, h, true, 1);
    assert [] + [b] == [b];
    var x := OneCpu(Pair(s0, EMPTY, 1, 1, 2, 0), 0, History(2, [a, b], [b]));
    assert Reached(false, None, x);
  }

  // ----- Resumes -----

  /** A pause drains the one message stored; the cursor stays on the segment the producer goes on in. */
  lemma PausedAndDrained(a: bv8)
    ensures Reached(true, None, OneCpu(Pair(EMPTY, EMPTY, 0, 0, 1, 0), 0, History(1, [Big(a)], [Big(a)])))
    ensures !Scan(Driver([Pair(EMPTY, EMPTY, 0, 0, 1, 0)], 0), 2, true).1.Data?
  {
    Start(true);
    FillFirst(true, a, -1, 0, -1, History(0, [], []));
    assert [] + [Big(a)] == [Big(a)];
    BigFills(a, false);
    ReadOn(true, Segment([Big(a)], false), EMPTY, 0, -1, 1, 0, -1, History(1, [Big(a)], []), true, 0);
    var b := Pair(EMPTY, EMPTY, 0, 0, 1, 0);
    SearchOn(true, b, 0, History(1, [Big(a)], [Big(a)]), true);
    assert Advance(b, true) == b;
    ScanStep(Driver([b], 0), 2, true, 1);
  }

  /**
    * A resume goes on without a reset: after a pause that drained everything, the reader's cursor stands on the
    * segment the producers go on in, and at the stop the newer segment is drained first. No poll, no drop.
    */
  lemma ResumeBreaksOrder()
    ensures exists x :: && Reached(true, None, x) && x.driver.bufs[0].dropped == 0
                        && !(x.past[0].delivered <= x.past[0].accepted)
  {
    var a, b, c := Big(0), Big(1), Big(2);
    PausedAndDrained(0);
    FillBoth(true, 1, 2, 0, 1, 0, History(1, [a], [a]));
    assert [a] + [b] + [c] == [a, b, c];
    var s0, s1 := Segment([b], true), Segment([c], false);
    BigFills(1, true); BigFills(2, false);
    ReadOn(true, s0, s1, 1, 0, 3, 0, 0, History(3, [a, b, c], [a]), true, 1);
    assert [a] + [c] == [a, c];
    var x := OneCpu(Pair(s0, EMPTY, 1, 1, 3, 0), 0, History(3, [a, b, c], [a, c]));
    assert Reached(true, None, x);
    assert x.past[0].delivered[1] != x.past[0].accepted[1];
  }

  // ----- Drops -----

  lemma DroppedAndFull(a: bv8, b: bv8)
    ensures Reached(true, None, OneCpu(Pair(Segment([Big(a)], true), Segment([Big(b)], true), 1, -1, 2, 1), -1,
                             History(3, [Big(a), Big(b)], [])))
  {
    var s0, s1, open := Segment([Big(a)], true), Segment([Big(b)], true), Segment([Big(b)], false);
    TwoStored(true, a, b);
    BigFills(a, true); BigFills(b, true); BigFills(b, false);
    SearchIsComplete([s0, s1], 1, |Big(a)|);
    assert [s0, open][1 := s1] == [s0, s1];
    OfferOn(true, Pair(s0, open, 1, -1, 2, 0), Pair(s0, s1, 1, -1, 2, 1), -1, History(2, [Big(a), Big(b)], []), Big(a));
  }

  /** A drop leaves the producer on a full segment; two reads later both segments are empty behind it. */
  lemma DroppedThenEmptied(a: bv8, b: bv8)
    ensures Reached(true, None, OneCpu(Pair(EMPTY, EMPTY, 1, 1, 2, 1), 0, History(3, [Big(a), Big(b)], [Big(a), Big(b)])))
  {
    var h := History(3, [Big(a), Big(b)], []);
    var s0, s1 := Segment([Big(a)], true), Segment([Big(b)], true);
    DroppedAndFull(a, b);
    BigFills(a, true); BigFills(b, true);
    ReadOn(true, s0, s1, 1, -1, 2, 1, -1, h, false, 0);
    assert [] + [Big(a)] == [Big(a)];
    ReadOn(true, EMPTY, s1, 1, 0, 2, 1, 0, h.(delivered := [Big(a)]), false, 1);
    assert [Big(a)] + [Big(b)] == [Big(a), Big(b)];
  }

  lemma SecondFirst(a: bv8, b: bv8, c: bv8)
    ensures Reached(true, None, OneCpu(Pair(EMPTY, Segment([Big(c)], false), 1, 1, 3, 1), 0,
                             History(4, [Big(a), Big(b), Big(c)], [Big(a), Big(b)])))
  {
    DroppedThenEmptied(a, b);
    assert [] + [Big(c)] == [Big(c)];
    assert [EMPTY, EMPTY][1 := Store(EMPTY, Big(c))] == [EMPTY, Segment([Big(c)], false)];
    var g := [Big(a), Big(b)];
    OfferOn(true, Pair(EMPTY, EMPTY, 1, 1, 2, 1), Pair(EMPTY, Segment([Big(c)], false), 1, 1, 3, 1), 0, History(3, g, g), Big(c));
    assert g + [Big(c)] == [Big(a), Big(b), Big(c)];
  }

  lemma OpensFirst(c: bv8, d: bv8)
    ensures BufferOk(Pair(EMPTY, Segment([Big(c)], false), 1, 1, 3, 1))
    ensures Produce(Pair(EMPTY, Segment([Big(c)], false), 1, 1, 3, 1), Big(d))
         == Pair(Segment([Big(d)], false), Segment([Big(c)], true), 0, 1, 4, 1)
  {
    BigFills(c, true);
    BigFills(c, false);
    var segs := [EMPTY, Segment([Big(c)], false)];
    var marked := segs[1 := Segment([Big(c)], true)];
    assert Find(marked, 1, |Big(d)|, 1) == Some(0) by { assert marked[Ring(1, 1, 2)] == EMPTY; }
    assert [] + [Big(d)] == [Big(d)];
    assert marked[0 := Store(EMPTY, Big(d))] == [Segment([Big(d)], false), Segment([Big(c)], true)];
  }

  /** The producer fills the second segment first, then goes on in the first. */
  lemma FilledBackToFront(a: bv8, b: bv8, c: bv8, d: bv8)
    ensures Reached(true, None, OneCpu(Pair(Segment([Big(d)], false), Segment([Big(c)], true), 0, 1, 4, 1), 0,
                             History(5, [Big(a), Big(b), Big(c), Big(d)], [Big(a), Big(b)])))
  {
    SecondFirst(a, b, c);
    OpensFirst(c, d);
    OfferOn(true, Pair(EMPTY, Segment([Big(c)], false), 1, 1, 3, 1),
              Pair(Segment([Big(d)], false), Segment([Big(c)], true), 0, 1, 4, 1), 0,
              History(4, [Big(a), Big(b), Big(c)], [Big(a), Big(b)]), Big(d));
    assert [Big(a), Big(b), Big(c)] + [Big(d)] == [Big(a), Big(b), Big(c), Big(d)];
  }

  /**
    * After a drop the order can be lost without any poll: the producer goes on in the segment the reader
    * will visit last.
    */
  lemma DropBreaksOrder()
    ensures exists x :: && Reached(true, None, x) && x.driver.bufs[0].dropped == 1
                        && !(x.past[0].delivered <= x.past[0].accepted)
  {
    var a, b, c, d := Big(0), Big(1), Big(2), Big(3);
    FilledBackToFront(0, 1, 2, 3);
    BigFills(2, true); BigFills(3, false);
    ReadOn(true, Segment([d], false), Segment([c], true), 0, 1, 4, 1, 0, History(5, [a, b, c, d], [a, b]), true, 0);
    assert [a, b] + [d] == [a, b, d];
    var x := OneCpu(Pair(EMPTY, Segment([c], true), 0, 0, 4, 1), 0, History(5, [a, b, c, d], [a, b, d]));
    assert Reached(true, None, x);
    assert x.past[0].delivered[2] != x.past[0].accepted[2];
  }
}
