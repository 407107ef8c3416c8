/**
  * When records of the sampling driver's output buffers are lost or delivered twice. A flush between a read's scan and
  * its test makes the read report end of file with records unread. A refused reservation marks the buffer that is still
  * being written; the reader may then take it early, and what it took is marked again with the rest. Both theorems are
  * exact, and each fault has a run that shows it.
  */
module OutputFaults {
  import opened Records
  import opened OutputSpec
  import opened OutputRuns

  ghost predicate EnabledRun(w: World, total: nat, es: seq<Event>, r: World)
    decreases |es|
  {
    if es == [] then r == w
    else Enabled(w, total, es[0]) && EnabledRun(Do(w, total, es[0]), total, es[1..], r)
  }

  /** Every record fits an empty buffer. */
  ghost predicate Fit(total: nat, es: seq<Event>) { forall k :: 0 <= k < |es| && es[k].Wrote? ==> |es[k].m| <= total }

  // ----- The late flush -----

  lemma {:induction false} InRow(rows: seq<seq<Msg>>, i: nat, j: nat, m: Msg)
    requires i <= j < |rows| && m in rows[j]
    ensures m in Bag(rows, i)
    decreases |rows| - i
  {
    if i < j {
      InRow(rows, i + 1, j, m);
    }
  }

  lemma SomethingUnread(o: Out, total: nat)
    requires Good(o, total, false) && !NothingUnread(o)
    ensures Bag(AllUnread(o, false), 0) != multiset{}
  {
    var u := AllUnread(o, false);
    var j :| 0 <= j < |o.slots| && if j == o.current then o.slots[j].recs != [] else o.slots[j].ready > 0;
    assert u[j] != [] && u[j][0] in u[j];
    InRow(u, 0, j, u[j][0]);
  }

  /** After a flush between an empty scan and its test the only step left reports end of file and delivers nothing. */
  lemma LateFlushEnds(w: World, total: nat, es: seq<Event>, r: World)
    requires w.flushed && w.phase.Scanned? && w.phase.n == 0 && EnabledRun(w, total, es, r)
    ensures r.delivered == w.delivered && r.accepted == w.accepted
  {
    if es != [] {
      assert es[0] == Tested;
      NothingAfterEnd(Do(w, total, Tested), total, es[1..], r);
    }
  }

  lemma NothingAfterEnd(w: World, total: nat, es: seq<Event>, r: World)
    requires w.flushed && w.phase.Done? && EnabledRun(w, total, es, r)
    ensures r == w
  {}

  lemma {:induction false} LateFlushForgets(w: World, total: nat, es: seq<Event>, r: World)
    requires Balanced(w, total) && Unmarked(w) && EnabledRun(w, total, es, r) && Fit(total, es) && NoRefusal(w, total, es)
    requires !CoveredRun(w, total, es, r)
    ensures multiset(r.delivered) != multiset(r.accepted)
    decreases |es|
  {
    var e := es[0];
    if Covered(w, total, e) {
      UnmarkedWhole(w, total, e);
      DoBalanced(w, total, e);
      DoUnmarked(w, total, e);
      LateFlushForgets(Do(w, total, e), total, es[1..], r);
    } else {
      assert e == Flush;
      LateFlushEnds(Do(w, total, e), total, es[1..], r);
      SomethingUnread(w.o, total);
      var left := Bag(AllUnread(w.o, false), 0);
      assert |multiset(w.accepted)| == |multiset(w.delivered)| + |left|;
    }
  }

  /**
    * Without a refusal, the records are all delivered by end of file exactly when the flush does not fall between a
    * scan that found nothing and its test while anything is unread.
    */
  lemma UnrefusedExactly(w: World, total: nat, es: seq<Event>, r: World)
    requires Fresh(w) && EnabledRun(w, total, es, r) && Fit(total, es) && NoRefusal(w, total, es) && r.phase.Done?
    ensures multiset(r.delivered) == multiset(r.accepted) <==> CoveredRun(w, total, es, r)
  {
    if CoveredRun(w, total, es, r) {
      ExactlyOnceUnrefused(w, total, es, r);
    } else {
      FreshHolds(w, total);
      LateFlushForgets(w, total, es, r);
    }
  }

  // ----- Refusals -----

  /** Some record has been delivered twice. */
  ghost predicate Twice(w: World) { exists x :: multiset(w.delivered)[x] >= 2 }

  /** Record x, the first of buffer j, has been delivered and will be delivered again. */
  ghost predicate Due(w: World, j: nat, x: Msg) {
    && j < |w.o.slots| && w.o.slots[j].recs != [] && w.o.slots[j].recs[0] == x && x in w.delivered
    && ((j == w.o.current && !w.flushed) || w.o.slots[j].ready > 0)
  }

  /** Record x has not been delivered and will not be: it is in no buffer that is marked or still to be marked. */
  ghost predicate Lost(w: World, x: Msg) {
    && x in w.accepted && x !in w.delivered
    && forall i :: 0 <= i < |w.o.slots| && x in w.o.slots[i].recs ==>
         w.o.slots[i].ready == 0 && (i != w.o.current || w.flushed)
  }

  ghost predicate Fault(w: World) { Twice(w) || (exists j, x :: Due(w, j, x)) || exists x :: Lost(w, x) }

  lemma {:induction false} DistinctOnce(ms: seq<Msg>, x: Msg)
    requires DistinctMsgs(ms)
    ensures multiset(ms)[x] <= 1
  {
    if ms != [] {
      var rest := ms[..|ms| - 1];
      assert ms == rest + [ms[|ms| - 1]];
      DistinctOnce(rest, x);
      assert x == ms[|ms| - 1] ==> x !in rest;
    }
  }

  lemma FaultShows(w: World, total: nat)
    requires Inv(w, total) && w.phase.Done? && Fault(w) && DistinctMsgs(w.accepted)
    ensures multiset(w.delivered) != multiset(w.accepted)
  {
    forall j, x ensures !Due(w, j, x) {
    }
    if x :| multiset(w.delivered)[x] >= 2 {
      DistinctOnce(w.accepted, x);
    } else {
      var x :| Lost(w, x);
      assert x in multiset(w.accepted) && x !in multiset(w.delivered);
    }
  }

  lemma TwiceStays(w: World, total: nat, e: Event)
    requires Enabled(w, total, e) && Twice(w)
    ensures Twice(Do(w, total, e))
  {
    var x :| multiset(w.delivered)[x] >= 2;
    var r := Do(w, total, e);
    assert w.delivered <= r.delivered;
    assert r.delivered == w.delivered + r.delivered[|w.delivered|..];
    assert multiset(r.delivered)[x] >= 2;
  }

  /** What a write leaves of a buffer that is marked or being written. */
  lemma WroteLeaves(o: Out, total: nat, m: Msg, j: nat)
    requires Good(o, total, false) && |m| <= total && j < |o.slots| && (j == o.current || o.slots[j].ready > 0)
    requires o.slots[j].recs != []
    ensures var r := Put(o, total, m).0;
            && |r.slots| == |o.slots| && o.slots[j].recs <= r.slots[j].recs
            && (j == r.current || r.slots[j].ready > 0)
  {
    if Put(o, total, m).1 {
      PutAddsOne(o, total, m);
    } else {
      RefusalMarks(o, total, m);
    }
  }

  lemma DueWrites(w: World, total: nat, m: Msg, j: nat, x: Msg)
    requires Inv(w, total) && Covered(w, total, Wrote(m)) && Due(w, j, x)
    ensures Due(Do(w, total, Wrote(m)), j, x)
  {
    WroteLeaves(w.o, total, m, j);
  }

  /** A read of the buffer delivers its first record again. */
  lemma DueReads(w: World, total: nat, e: Event, j: nat, x: Msg)
    requires Inv(w, total) && Enabled(w, total, e) && EndsRead(w, e) && Due(w, j, x)
    ensures var r := Do(w, total, e); Due(r, j, x) || Twice(r)
  {
    EndKeeps(w, total, e);
    var r, n := Do(w, total, e), Copied(w, e);
    if j == w.phase.j {
      var taken := w.o.slots[j].recs[..n];
      assert taken[0] == x && x in taken;
      assert multiset(r.delivered) == multiset(w.delivered) + multiset(taken);
      assert multiset(r.delivered)[x] >= 2;
    }
  }

  lemma DueStays(w: World, total: nat, e: Event, j: nat, x: Msg)
    requires Inv(w, total) && Covered(w, total, e) && Due(w, j, x)
    ensures var r := Do(w, total, e); Due(r, j, x) || Twice(r)
  {
    match e {
      case Wrote(m) => DueWrites(w, total, m, j, x);
      case _ =>
        if EndsRead(w, e) {
          DueReads(w, total, e, j, x);
        }
    }
  }

  /** Every record in a buffer after a write was there before, or is the one written. */
  lemma WroteAdds(o: Out, total: nat, m: Msg, i: nat, x: Msg)
    requires Good(o, total, false) && |m| <= total
    ensures |Put(o, total, m).0.slots| == |o.slots|
    ensures i < |o.slots| && x in Put(o, total, m).0.slots[i].recs && x != m ==>
              x in o.slots[i].recs && (Put(o, total, m).0.slots[i].ready == o.slots[i].ready || i == o.current)
    ensures Put(o, total, m).0.current == o.current
            || Put(o, total, m).0.slots[Put(o, total, m).0.current].recs == [m]
  {
    PutOk(o, total, m);
  }

  lemma LostWrites(w: World, total: nat, m: Msg, x: Msg)
    requires Inv(w, total) && Covered(w, total, Wrote(m)) && Lost(w, x) && DistinctMsgs(Do(w, total, Wrote(m)).accepted)
    ensures Lost(Do(w, total, Wrote(m)), x)
  {
    var r := Do(w, total, Wrote(m));
    if Put(w.o, total, m).1 {
      var k :| 0 <= k < |w.accepted| && w.accepted[k] == x;
      assert r.accepted[k] == x && r.accepted[|w.accepted|] == m;
    }
    forall i | 0 <= i < |r.o.slots| && x in r.o.slots[i].recs
      ensures r.o.slots[i].ready == 0 && (i != r.o.current || r.flushed)
    {
      WroteAdds(w.o, total, m, i, x);
    }
  }

  lemma LostReads(w: World, total: nat, e: Event, x: Msg)
    requires Inv(w, total) && Enabled(w, total, e) && EndsRead(w, e) && Lost(w, x)
    ensures Lost(Do(w, total, e), x)
  {
    EndKeeps(w, total, e);
  }

  lemma LostStays(w: World, total: nat, e: Event, x: Msg)
    requires Inv(w, total) && Covered(w, total, e) && Lost(w, x) && DistinctMsgs(Do(w, total, e).accepted)
    ensures Lost(Do(w, total, e), x)
  {
    match e {
      case Wrote(m) => LostWrites(w, total, m, x);
      case _ =>
        if EndsRead(w, e) {
          LostReads(w, total, e, x);
        }
    }
  }

  lemma FaultStays(w: World, total: nat, e: Event)
    requires Inv(w, total) && Covered(w, total, e) && Fault(w) && DistinctMsgs(Do(w, total, e).accepted)
    ensures Fault(Do(w, total, e))
  {
    if Twice(w) {
      TwiceStays(w, total, e);
    } else if x :| Lost(w, x) {
      LostStays(w, total, e, x);
    } else {
      var j, x :| Due(w, j, x);
      DueStays(w, total, e, j, x);
    }
  }

  // ----- The first read that is not whole -----

  /** A read of the buffer being written before the flush: what it delivers stays there to be marked again. */
  lemma EarlyReadRepeats(w: World, total: nat, e: Event)
    requires Inv(w, total) && Enabled(w, total, e) && EndsRead(w, e)
    requires w.phase.j == w.o.current && !w.flushed && Copied(w, e) > 0
    ensures Fault(Do(w, total, e))
  {
    EndKeeps(w, total, e);
    var j, n := w.phase.j, Copied(w, e);
    var recs := w.o.slots[j].recs;
    assert recs[..n][0] == recs[0] && recs[0] in recs[..n];
    assert Due(Do(w, total, e), j, recs[0]);
  }

  /** Among distinct records, one that is unread in buffer j has not been delivered and is unread nowhere else. */
  lemma UnreadOnce(w: World, total: nat, j: nat, k: nat, i: nat)
    requires Balanced(w, total) && DistinctMsgs(w.accepted) && j < |w.o.slots| && i < |w.o.slots|
    requires k < |AllUnread(w.o, w.flushed)[j]|
    ensures var u := AllUnread(w.o, w.flushed);
            && u[j][k] in w.accepted && u[j][k] !in w.delivered
            && (i != j ==> u[j][k] !in u[i])
            && u[j][k] !in u[j][..k]
  {
    var u := AllUnread(w.o, w.flushed);
    var x := u[j][k];
    DistinctOnce(w.accepted, x);
    InRow(u, 0, j, x);
    assert multiset(w.accepted)[x] == multiset(w.delivered)[x] + Bag(u, 0)[x];
    if i != j && x in u[i] {
      TwoRows(u, i, j, x);
      assert false;
    }
    if x in u[j][..k] {
      RowTwice(u[j], k);
      BagAtLeast(u, 0, j, x);
      assert false;
    }
  }

  lemma RowTwice(row: seq<Msg>, k: nat)
    requires k < |row| && row[k] in row[..k]
    ensures multiset(row)[row[k]] >= 2
  {
    assert row == row[..k] + ([row[k]] + row[k + 1..]);
    assert multiset(row) == multiset(row[..k]) + (multiset{row[k]} + multiset(row[k + 1..]));
    assert row[k] in multiset(row[..k]);
  }

  lemma {:induction false} BagAtLeast(rows: seq<seq<Msg>>, i: nat, j: nat, x: Msg)
    requires i <= j < |rows|
    ensures Bag(rows, i)[x] >= multiset(rows[j])[x]
    decreases |rows| - i
  {
    if i < j {
      BagAtLeast(rows, i + 1, j, x);
    }
  }

  lemma TwoRows(rows: seq<seq<Msg>>, i: nat, j: nat, x: Msg)
    requires i < |rows| && j < |rows| && i != j && x in rows[i] && x in rows[j]
    ensures Bag(rows, 0)[x] >= 2
  {
    BagRemove(rows, i);
    InRow(rows[i := []], 0, j, x);
    assert x in multiset(rows[i]);
  }

  /** A read that leaves out the end of a closed buffer loses it. */
  lemma ShortReadLoses(w: World, total: nat, e: Event)
    requires Balanced(w, total) && Enabled(w, total, e) && EndsRead(w, e) && DistinctMsgs(w.accepted)
    requires w.phase.j < |w.o.slots| && 0 < Copied(w, e) < |w.o.slots[w.phase.j].recs| && (w.flushed || w.phase.j != w.o.current)
    ensures Fault(Do(w, total, e))
  {
    EndKeeps(w, total, e);
    var j, n, r := w.phase.j, Copied(w, e), Do(w, total, e);
    var recs, x := w.o.slots[j].recs, w.o.slots[j].recs[n];
    assert w.o.slots[j].ready == |recs| && AllUnread(w.o, w.flushed)[j] == recs;
    UnreadOnce(w, total, j, n, j);
    assert r.delivered == w.delivered + recs[..n];
    forall i | 0 <= i < |r.o.slots| && x in r.o.slots[i].recs
      ensures r.o.slots[i].ready == 0 && (i != r.o.current || r.flushed)
    {
      UnreadOnce(w, total, j, n, i);
    }
    assert Lost(r, x);
  }

  lemma PartReadFaults(w: World, total: nat, e: Event)
    requires Balanced(w, total) && Enabled(w, total, e) && !Whole(w, e) && DistinctMsgs(w.accepted)
    ensures Fault(Do(w, total, e))
  {
    if w.phase.j == w.o.current && !w.flushed {
      EarlyReadRepeats(w, total, e);
    } else {
      EndKeeps(w, total, e);
      ShortReadLoses(w, total, e);
    }
  }

  lemma {:induction false} RunAccepts(w: World, total: nat, es: seq<Event>, r: World)
    requires CoveredRun(w, total, es, r)
    ensures w.accepted <= r.accepted
    decreases |es|
  {
    if es != [] {
      RunAccepts(Do(w, total, es[0]), total, es[1..], r);
    }
  }

  lemma {:induction false} FaultRun(w: World, total: nat, es: seq<Event>, r: World)
    requires Inv(w, total) && CoveredRun(w, total, es, r) && Fault(w) && DistinctMsgs(r.accepted)
    ensures Inv(r, total) && Fault(r)
    decreases |es|
  {
    if es != [] {
      var x := Do(w, total, es[0]);
      RunAccepts(x, total, es[1..], r);
      DoKeeps(w, total, es[0]);
      FaultStays(w, total, es[0]);
      FaultRun(x, total, es[1..], r);
    }
  }

  lemma {:induction false} PartReadRun(w: World, total: nat, es: seq<Event>, r: World)
    requires Balanced(w, total) && CoveredRun(w, total, es, r) && !WholeReads(w, total, es) && DistinctMsgs(r.accepted)
    ensures Inv(r, total) && Fault(r)
    decreases |es|
  {
    var e := es[0];
    var x := Do(w, total, e);
    RunAccepts(x, total, es[1..], r);
    if Whole(w, e) {
      DoBalanced(w, total, e);
      PartReadRun(x, total, es[1..], r);
    } else {
      PartReadFaults(w, total, e);
      DoKeeps(w, total, e);
      FaultRun(x, total, es[1..], r);
    }
  }

  /**
    * Refused records and all: when the records are distinct and the flush does not come late, each is delivered
    * exactly once by end of file if and only if every read takes the whole of a buffer the producer has left.
    */
  lemma ExactlyOnceExactly(w: World, total: nat, es: seq<Event>, r: World)
    requires Fresh(w) && CoveredRun(w, total, es, r) && r.phase.Done? && DistinctMsgs(r.accepted)
    ensures multiset(r.delivered) == multiset(r.accepted) <==> WholeReads(w, total, es)
  {
    if WholeReads(w, total, es) {
      ExactlyOnce(w, total, es, r);
    } else {
      FreshHolds(w, total);
      PartReadRun(w, total, es, r);
      FaultShows(r, total);
    }
  }

  // ----- Runs that go wrong -----

  /** The test after a late flush reports end of file and forgets exactly what its buffer holds unread. */
  lemma StaleTestForgets(w: World, total: nat)
    requires Good(w.o, total, true) && w.flushed && w.phase.Scanned? && w.phase.n == 0 && w.phase.j < |w.o.slots|
    ensures var r := Do(w, total, Tested);
            && r.phase.Done? && r.delivered == w.delivered
            && AllUnread(r.o, true) == AllUnread(w.o, true)[w.phase.j := []]
  {
    TakeRemoves(w.o, total, true, w.phase.j);
  }

  function TwoBuffers(s0: Slot, s1: Slot, current: nat, flushed: bool, phase: Phase, accepted: seq<Msg>, delivered: seq<Msg>): World {
    World(Out([s0, s1], current), flushed, phase, accepted, delivered)
  }

  const EMPTY := Slot([], 0)
  const START := TwoBuffers(EMPTY, EMPTY, 0, false, Idle, [], [])

  lemma {:induction false} EnabledRunOn(w: World, total: nat, es: seq<Event>, x: World, e: Event)
    requires EnabledRun(w, total, es, x) && Enabled(x, total, e)
    ensures EnabledRun(w, total, es + [e], Do(x, total, e))
    decreases |es|
  {
    if es == [] {
      assert (es + [e])[1..] == [];
    } else {
      assert (es + [e])[1..] == es[1..] + [e];
      EnabledRunOn(Do(w, total, es[0]), total, es[1..], x, e);
    }
  }

  /** Some run of fitting records leads from two empty buffers to x. */
  ghost predicate Reached(total: nat, x: World) { exists es :: EnabledRun(START, total, es, x) && Fit(total, es) }

  lemma Then(total: nat, x: World, e: Event, y: World)
    requires Reached(total, x) && Enabled(x, total, e) && Do(x, total, e) == y && (e.Wrote? ==> |e.m| <= total)
    ensures Reached(total, y)
  {
    var es :| EnabledRun(START, total, es, x) && Fit(total, es);
    EnabledRunOn(START, total, es, x, e);
    assert Fit(total, es + [e]);
  }

  lemma Begin(total: nat)
    ensures Reached(total, START)
  {
    assert EnabledRun(START, total, [], START);
  }

  lemma Single(m: Msg)
    ensures Size([m]) == |m| && Size([]) == 0
  {
    FlattenAppend([], m);
    assert [] + [m] == [m];
  }

  lemma FlushedLate(m: Msg)
    ensures Reached(|m|, TwoBuffers(Slot([m], 1), EMPTY, 0, true, Scanned(0, 0), [m], []))
  {
    var total := |m|;
    var w1 := TwoBuffers(EMPTY, EMPTY, 0, false, Scanned(0, 0), [], []);
    var w2 := TwoBuffers(Slot([m], 0), EMPTY, 0, false, Scanned(0, 0), [m], []);
    var w3 := TwoBuffers(Slot([m], 1), EMPTY, 0, true, Scanned(0, 0), [m], []);
    Single(m);
    PickIsExact(START.o);
    Begin(total);
    Then(total, START, Scan, w1);
    assert [] + [m] == [m] && [EMPTY, EMPTY][0 := Slot([m], 0)] == [Slot([m], 0), EMPTY];
    Then(total, w1, Wrote(m), w2);
    assert [Slot([m], 0), EMPTY][0 := Slot([m], 1)] == [Slot([m], 1), EMPTY];
    Then(total, w2, Flush, w3);
  }

  /** A flush between a read's scan and its test can lose a record: end of file is reported before it is read. */
  lemma LateFlushLoses(m: Msg)
    ensures Fresh(START)
    ensures exists r :: Reached(|m|, r) && r.phase.Done? && r.accepted == [m] && r.delivered == []
  {
    FlushedLate(m);
    Single(m);
    assert [Slot([m], 1), EMPTY][0 := Slot([m], 0)] == [Slot([m], 0), EMPTY];
    Then(|m|, TwoBuffers(Slot([m], 1), EMPTY, 0, true, Scanned(0, 0), [m], []), Tested,
         TwoBuffers(Slot([m], 0), EMPTY, 0, true, Done, [m], []));
  }

  // ----- A refusal, then a record delivered twice -----

  const A: Msg := [0, 0]
  const B: Msg := [1, 1]
  const C: Msg := [2, 2]

  /** Buffers of three bytes: one record fills each. */
  lemma OneEach()
    ensures Reached(3, TwoBuffers(Slot([A], 1), Slot([B], 0), 1, false, Idle, [A, B], []))
  {
    var w1 := TwoBuffers(Slot([A], 0), EMPTY, 0, false, Idle, [A], []);
    Single(A);
    Begin(3);
    assert [] + [A] == [A] && [EMPTY, EMPTY][0 := Slot([A], 0)] == [Slot([A], 0), EMPTY];
    Then(3, START, Wrote(A), w1);
    assert [A] + [B] == [A, B];
    assert [Slot([A], 0), EMPTY][0 := Slot([A], 1)][1 := Slot([B], 0)] == [Slot([A], 1), Slot([B], 0)];
    Then(3, w1, Wrote(B), TwoBuffers(Slot([A], 1), Slot([B], 0), 1, false, Idle, [A, B], []));
  }

  /** A third record is refused, which marks the second buffer. */
  lemma RefusedThird()
    ensures Reached(3, TwoBuffers(Slot([A], 1), Slot([B], 1), 1, false, Idle, [A, B], []))
  {
    var w2 := TwoBuffers(Slot([A], 1), Slot([B], 0), 1, false, Idle, [A, B], []);
    OneEach();
    Single(B);
    Single(A);
    assert [Slot([A], 1), Slot([B], 0)][1 := Slot([B], 1)] == [Slot([A], 1), Slot([B], 1)];
    PutRefuses(w2.o, 3, C);
    Then(3, w2, Wrote(C), TwoBuffers(Slot([A], 1), Slot([B], 1), 1, false, Idle, [A, B], []));
  }

  /** The reader takes both buffers; the second is still the one being written. */
  lemma ReadEarly()
    ensures Reached(3, TwoBuffers(Slot([A], 0), Slot([B], 0), 1, false, Idle, [A, B], [A, B]))
  {
    RefusedThird();
    var w3 := TwoBuffers(Slot([A], 1), Slot([B], 1), 1, false, Idle, [A, B], []);
    var w4 := TwoBuffers(Slot([A], 1), Slot([B], 1), 1, false, Scanned(0, 1), [A, B], []);
    var w5 := TwoBuffers(Slot([A], 0), Slot([B], 1), 1, false, Idle, [A, B], [A]);
    var w6 := TwoBuffers(Slot([A], 0), Slot([B], 1), 1, false, Scanned(1, 1), [A, B], [A]);
    var w7 := TwoBuffers(Slot([A], 0), Slot([B], 0), 1, false, Idle, [A, B], [A, B]);
    Then(3, w3, Scan, w4);
    assert [] + [A] == [A] && [Slot([A], 1), Slot([B], 1)][0 := Slot([A], 0)] == [Slot([A], 0), Slot([B], 1)];
    Then(3, w4, Tested, w5);
    PickIsExact(w5.o);
    Then(3, w5, Scan, w6);
    assert [A] + [B] == [A, B] && [Slot([A], 0), Slot([B], 1)][1 := Slot([B], 0)] == [Slot([A], 0), Slot([B], 0)];
    Then(3, w6, Tested, w7);
  }

  /** After a refusal the reader is given the buffer still being written, and gets its record again after the flush. */
  lemma RefusalRepeats()
    ensures Fresh(START)
    ensures exists r :: Reached(3, r) && r.phase.Done? && r.accepted == [A, B] && r.delivered == [A, B, B]
  {
    ReadEarly();
    var w7 := TwoBuffers(Slot([A], 0), Slot([B], 0), 1, false, Idle, [A, B], [A, B]);
    var w8 := TwoBuffers(Slot([A], 0), Slot([B], 1), 1, true, Idle, [A, B], [A, B]);
    var w9 := TwoBuffers(Slot([A], 0), Slot([B], 1), 1, true, Scanned(1, 1), [A, B], [A, B]);
    var w10 := TwoBuffers(Slot([A], 0), Slot([B], 0), 1, true, Idle, [A, B], [A, B, B]);
    var w11 := TwoBuffers(Slot([A], 0), Slot([B], 0), 1, true, Scanned(1, 0), [A, B], [A, B, B]);
    var r := TwoBuffers(Slot([A], 0), Slot([B], 0), 1, true, Done, [A, B], [A, B, B]);
    assert [Slot([A], 0), Slot([B], 0)][1 := Slot([B], 1)] == [Slot([A], 0), Slot([B], 1)];
    Then(3, w7, Flush, w8);
    PickIsExact(w8.o);
    Then(3, w8, Scan, w9);
    assert [A, B] + [B] == [A, B, B] && [Slot([A], 0), Slot([B], 1)][1 := Slot([B], 0)] == [Slot([A], 0), Slot([B], 0)];
    Then(3, w9, Tested, w10);
    PickIsExact(w10.o);
    Then(3, w10, Scan, w11);
    assert [Slot([A], 0), Slot([B], 0)][1 := Slot([B], 0)] == [Slot([A], 0), Slot([B], 0)];
    Then(3, w11, Tested, r);
  }
}
