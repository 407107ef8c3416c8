/**
  * The reader's search when draining is asked for while it runs: it rereads the flush flag at every segment and once
  * more at the end, so it looks at the first segments with the flag false and at the rest with the flag true.
  */
module SegmentFlip {
  import opened Bits
  import opened SegmentSpec
  import opened Records

  function Less(k: nat, n: nat): nat { if k < n then 0 else k - n }

  /** One round over a buffer from its j-th segment on; the flag is raised after k more looks. */
  function FlipHit(b: Buffer, k: nat, j: nat): (r: Option<nat>)
    requires BufferOk(b) && j <= |b.segs|
    ensures r.Some? ==> r.value < |b.segs|
    decreases |b.segs| - j
  {
    if j == |b.segs| then None
    else
      var i := Ring(Next(b.last, |b.segs|), j, |b.segs|);
      if Hit(b.segs[i], k == 0) then Some(i) else FlipHit(b, Less(k, 1), j + 1)
  }

  /** The buffer after such a round. */
  function FlipAdvance(b: Buffer, k: nat): (r: Buffer)
    requires BufferOk(b)
    ensures BufferOk(r) && r.segs == b.segs
  {
    match FlipHit(b, k, 0)
    case Some(i) => b.(last := i)
    case None => b.(last := Ring(Next(b.last, |b.segs|), |b.segs| - 1, |b.segs|))
  }

  function FlipVisit(d: Driver, k: nat): Driver
    requires 0 < |d.bufs| && -1 <= d.lastCpu < |d.bufs|
    requires BufferOk(d.bufs[Next(d.lastCpu, |d.bufs|)])
  {
    var c := Next(d.lastCpu, |d.bufs|);
    Driver(d.bufs[c := FlipAdvance(d.bufs[c], k)], c)
  }

  /** The search over `left` more buffers; the flag is raised after k more looks, the last look being the final test. */
  function FlipFrom(d: Driver, n: nat, k: nat, left: nat): (r: (Driver, Answer))
    requires DriverOk(d, n)
    ensures DriverOk(r.0, n) && |r.0.bufs| == |d.bufs|
    decreases left
  {
    if left == 0 then (d, if k == 0 then AllDone else NoData)
    else
      match FlipHit(d.bufs[Next(d.lastCpu, |d.bufs|)], k, 0)
      case Some(i) => (FlipVisit(d, k), Data(FlipVisit(d, k).lastCpu, i))
      case None => FlipFrom(FlipVisit(d, k), n, Less(k, n), left - 1)
  }

  /** One step of that search. */
  lemma FlipStep(d: Driver, n: nat, k: nat, left: nat)
    requires DriverOk(d, n) && left > 0
    ensures DriverOk(FlipVisit(d, k), n) && |FlipVisit(d, k).bufs| == |d.bufs|
    ensures var r := FlipHit(d.bufs[Next(d.lastCpu, |d.bufs|)], k, 0);
            FlipFrom(d, n, k, left) ==
            if r.Some? then (FlipVisit(d, k), Data(FlipVisit(d, k).lastCpu, r.value))
            else FlipFrom(FlipVisit(d, k), n, Less(k, n), left - 1)
  {}

  function FlipScan(d: Driver, n: nat, k: nat): (r: (Driver, Answer))
    requires DriverOk(d, n)
    ensures DriverOk(r.0, n) && |r.0.bufs| == |d.bufs|
  {
    FlipFrom(d, n, k, |d.bufs|)
  }

  // ----- What a search with a flip does -----

  /** How many looks the search makes before it looks at segment i of cpu c. */
  function Position(d: Driver, n: nat, c: nat, i: nat): nat
    requires DriverOk(d, n) && c < |d.bufs| && i < n
  {
    (Distance(d, c) - 1) * n + Ahead(d.bufs[c], i)
  }

  lemma {:induction false} FlipHitExact(b: Buffer, k: nat, j: nat)
    requires BufferOk(b) && j <= |b.segs|
    ensures FlipHit(b, k, j).None? <==>
            forall i :: 0 <= i < |b.segs| && Ahead(b, i) >= j ==> !Hit(b.segs[i], k + j <= Ahead(b, i))
    decreases |b.segs| - j
  {
    if j < |b.segs| {
      var first := Ring(Next(b.last, |b.segs|), j, |b.segs|);
      assert Ahead(b, first) == j;
      FlipHitExact(b, Less(k, 1), j + 1);
    }
  }

  /** The first `left` buffers hold nothing for a search whose flag is raised after k looks. */
  ghost predicate NothingFor(d: Driver, n: nat, k: nat, left: nat)
    requires DriverOk(d, n)
  {
    forall c, i :: 0 <= c < |d.bufs| && Distance(d, c) <= left && 0 <= i < n ==>
      !Hit(d.bufs[c].segs[i], k <= Position(d, n, c, i))
  }

  /** Going on to the next buffer brings the others one round nearer. */
  lemma VisitNearer(d: Driver, n: nat, k: nat, c: nat, i: nat)
    requires DriverOk(d, n) && c < |d.bufs| && i < n && c != Next(d.lastCpu, |d.bufs|)
    ensures FlipVisit(d, k).bufs[c] == d.bufs[c] && Distance(FlipVisit(d, k), c) == Distance(d, c) - 1
    ensures Position(d, n, c, i) == Position(FlipVisit(d, k), n, c, i) + n
  {
    var near := Distance(d, c) - 2;
    assert (near + 1) * n == near * n + n;
  }

  lemma PassBuffer(d: Driver, n: nat, k: nat, left: nat)
    requires DriverOk(d, n) && 0 < left <= |d.bufs|
    requires FlipHit(d.bufs[Next(d.lastCpu, |d.bufs|)], k, 0).None?
    ensures NothingFor(d, n, k, left) <==> NothingFor(FlipVisit(d, k), n, Less(k, n), left - 1)
  {
    var c0 := Next(d.lastCpu, |d.bufs|);
    var e := FlipVisit(d, k);
    FlipHitExact(d.bufs[c0], k, 0);
    assert Distance(d, c0) == 1 && Distance(e, c0) == |d.bufs|;
    forall c, i | 0 <= c < |d.bufs| && 0 <= i < n && Distance(d, c) <= left
      ensures c == c0 ==> !Hit(d.bufs[c].segs[i], k <= Position(d, n, c, i))
      ensures c != c0 ==> e.bufs[c] == d.bufs[c] && Distance(e, c) <= left - 1
                          && (k <= Position(d, n, c, i) <==> Less(k, n) <= Position(e, n, c, i))
    {
      if c == c0 {
        assert Position(d, n, c, i) == Ahead(d.bufs[c], i);
      } else {
        VisitNearer(d, n, k, c, i);
      }
    }
  }

  lemma StopsAtFirst(d: Driver, n: nat, k: nat, left: nat)
    requires DriverOk(d, n) && 0 < left <= |d.bufs|
    requires FlipHit(d.bufs[Next(d.lastCpu, |d.bufs|)], k, 0).Some?
    ensures !NothingFor(d, n, k, left)
  {
    var c0 := Next(d.lastCpu, |d.bufs|);
    FlipHitExact(d.bufs[c0], k, 0);
    assert Distance(d, c0) == 1;
    var i :| 0 <= i < n && Hit(d.bufs[c0].segs[i], k <= Ahead(d.bufs[c0], i));
    assert Position(d, n, c0, i) == Ahead(d.bufs[c0], i);
  }

  lemma {:induction false} FlipFromExact(d: Driver, n: nat, k: nat, left: nat)
    requires DriverOk(d, n) && left <= |d.bufs|
    ensures FlipFrom(d, n, k, left).1.Data? <==> !NothingFor(d, n, k, left)
    decreases left
  {
    if left > 0 {
      if FlipHit(d.bufs[Next(d.lastCpu, |d.bufs|)], k, 0).None? {
        PassBuffer(d, n, k, left);
        FlipFromExact(FlipVisit(d, k), n, Less(k, n), left - 1);
      } else {
        StopsAtFirst(d, n, k, left);
      }
    }
  }

  lemma LessRounds(k: nat, n: nat, left: nat)
    requires left > 0
    ensures k <= left * n <==> Less(k, n) <= (left - 1) * n
  {
    assert left * n == (left - 1) * n + n;
    assert (left - 1) * n >= 0;
  }

  lemma {:induction false} FlipFromAnswers(d: Driver, n: nat, k: nat, left: nat)
    requires DriverOk(d, n) && !FlipFrom(d, n, k, left).1.Data?
    ensures FlipFrom(d, n, k, left).1 == if k <= left * n then AllDone else NoData
    decreases left
  {
    if left > 0 {
      FlipStep(d, n, k, left);
      FlipFromAnswers(FlipVisit(d, k), n, Less(k, n), left - 1);
      LessRounds(k, n, left);
    }
  }

  /**
    * A search during which draining is asked for reports that all writes are done exactly when nothing full was left
    * where it looked before and nothing at all where it looked after.
    */
  lemma FlipIsExact(d: Driver, n: nat, k: nat)
    requires DriverOk(d, n)
    ensures FlipScan(d, n, k).1.AllDone? <==> k <= |d.bufs| * n && NothingFor(d, n, k, |d.bufs|)
    ensures FlipScan(d, n, k).1.NoData? <==> k > |d.bufs| * n && NothingFor(d, n, k, |d.bufs|)
  {
    FlipFromExact(d, n, k, |d.bufs|);
    if !FlipScan(d, n, k).1.Data? {
      FlipFromAnswers(d, n, k, |d.bufs|);
    }
  }

  /** A round that finds a segment stops at the first that holds data for it. */
  lemma {:induction false} FlipHitFirst(b: Buffer, k: nat, j: nat)
    requires BufferOk(b) && j <= |b.segs| && FlipHit(b, k, j).Some?
    ensures var i := FlipHit(b, k, j).value;
            && Ahead(b, i) >= j && Hit(b.segs[i], k + j <= Ahead(b, i))
            && forall h :: 0 <= h < |b.segs| && j <= Ahead(b, h) < Ahead(b, i) ==> !Hit(b.segs[h], k + j <= Ahead(b, h))
    decreases |b.segs| - j
  {
    var first := Ring(Next(b.last, |b.segs|), j, |b.segs|);
    assert Ahead(b, first) == j;
    if !Hit(b.segs[first], k == 0) {
      FlipHitFirst(b, Less(k, 1), j + 1);
    }
  }

  /** Segment i of cpu c is the first in the order of looking that holds data for such a search. */
  ghost predicate FirstFor(d: Driver, n: nat, k: nat, c: nat, i: nat)
    requires DriverOk(d, n)
  {
    && c < |d.bufs| && i < n
    && Hit(d.bufs[c].segs[i], k <= Position(d, n, c, i))
    && forall e, h :: 0 <= e < |d.bufs| && 0 <= h < n && Position(d, n, e, h) < Position(d, n, c, i) ==>
         !Hit(d.bufs[e].segs[h], k <= Position(d, n, e, h))
  }

  /** Positions in the first buffer come before all others. */
  lemma PositionsOrdered(d: Driver, n: nat, c: nat, i: nat)
    requires DriverOk(d, n) && c < |d.bufs| && i < n
    ensures c == Next(d.lastCpu, |d.bufs|) ==> Position(d, n, c, i) == Ahead(d.bufs[c], i) < n
    ensures c != Next(d.lastCpu, |d.bufs|) ==> Position(d, n, c, i) >= n
  {
    if c != Next(d.lastCpu, |d.bufs|) {
      var far := Distance(d, c) - 1;
      assert far >= 1;
      MultipleGap(far, n);
    }
  }

  lemma FoundHere(d: Driver, n: nat, k: nat, i: nat)
    requires DriverOk(d, n) && FlipHit(d.bufs[Next(d.lastCpu, |d.bufs|)], k, 0) == Some(i)
    ensures FirstFor(d, n, k, Next(d.lastCpu, |d.bufs|), i)
  {
    var c0 := Next(d.lastCpu, |d.bufs|);
    FlipHitFirst(d.bufs[c0], k, 0);
    PositionsOrdered(d, n, c0, i);
    forall e, h | 0 <= e < |d.bufs| && 0 <= h < n && Position(d, n, e, h) < Position(d, n, c0, i)
      ensures !Hit(d.bufs[e].segs[h], k <= Position(d, n, e, h))
    {
      PositionsOrdered(d, n, e, h);
    }
  }

  lemma FoundLater(d: Driver, n: nat, k: nat, c: nat, i: nat)
    requires DriverOk(d, n) && FlipHit(d.bufs[Next(d.lastCpu, |d.bufs|)], k, 0).None?
    requires c != Next(d.lastCpu, |d.bufs|) && FirstFor(FlipVisit(d, k), n, Less(k, n), c, i)
    ensures FirstFor(d, n, k, c, i)
  {
    var c0 := Next(d.lastCpu, |d.bufs|);
    FlipHitExact(d.bufs[c0], k, 0);
    VisitNearer(d, n, k, c, i);
    forall e, h | 0 <= e < |d.bufs| && 0 <= h < n && Position(d, n, e, h) < Position(d, n, c, i)
      ensures !Hit(d.bufs[e].segs[h], k <= Position(d, n, e, h))
    {
      if e == c0 {
        PositionsOrdered(d, n, e, h);
      } else {
        VisitNearer(d, n, k, e, h);
      }
    }
  }

  /** What a search over `left` buffers answers with: the first segment that holds data for it, where its cursors stop. */
  lemma {:induction false} FlipFromFinds(d: Driver, n: nat, k: nat, left: nat)
    requires DriverOk(d, n) && left <= |d.bufs| && FlipFrom(d, n, k, left).1.Data?
    ensures var r := FlipFrom(d, n, k, left);
            && FirstFor(d, n, k, r.1.cpu, r.1.seg) && Distance(d, r.1.cpu) <= left
            && r.0.lastCpu == r.1.cpu && r.0.bufs[r.1.cpu].last == r.1.seg
    decreases left
  {
    var c0 := Next(d.lastCpu, |d.bufs|);
    FlipStep(d, n, k, left);
    if FlipHit(d.bufs[c0], k, 0).Some? {
      FoundHere(d, n, k, FlipHit(d.bufs[c0], k, 0).value);
    } else {
      var v := FlipVisit(d, k);
      FlipFromFinds(v, n, Less(k, n), left - 1);
      var a := FlipFrom(v, n, Less(k, n), left - 1).1;
      assert Distance(v, c0) == |d.bufs|;
      FoundLater(d, n, k, a.cpu, a.seg);
    }
  }

  /** A search that finds data hands out the first segment, in the order of looking, that holds any for it. */
  lemma FlipFindsFirst(d: Driver, n: nat, k: nat)
    requires DriverOk(d, n) && FlipScan(d, n, k).1.Data?
    ensures var r := FlipScan(d, n, k);
            && FirstFor(d, n, k, r.1.cpu, r.1.seg) && r.0.lastCpu == r.1.cpu && r.0.bufs[r.1.cpu].last == r.1.seg
  {
    FlipFromFinds(d, n, k, |d.bufs|);
  }

  /** It moves the reader's cursors only. */
  lemma {:induction false} FlipMovesCursors(d: Driver, n: nat, k: nat, left: nat)
    requires DriverOk(d, n)
    ensures CursorsOnly(d, FlipFrom(d, n, k, left).0)
    decreases left
  {
    if left > 0 {
      FlipStep(d, n, k, left);
      FlipMovesCursors(FlipVisit(d, k), n, Less(k, n), left - 1);
    }
  }

  /** Where a whole round leaves a cursor: where it was, or at the last segment if it stood before the first. */
  function RoundTrip(b: Buffer): int
    requires BufferOk(b)
  {
    if b.last == -1 then |b.segs| - 1 else b.last
  }

  /** A search that finds nothing brings every cursor back. */
  lemma {:induction false} NothingReturns(d: Driver, n: nat, k: nat, left: nat, c: nat)
    requires DriverOk(d, n) && left <= |d.bufs| && !FlipFrom(d, n, k, left).1.Data? && c < |d.bufs|
    ensures FlipFrom(d, n, k, left).0.bufs[c].last == if Distance(d, c) <= left then RoundTrip(d.bufs[c]) else d.bufs[c].last
    decreases left
  {
    if left > 0 {
      var v := FlipVisit(d, k);
      FlipStep(d, n, k, left);
      NothingReturns(v, n, Less(k, n), left - 1, c);
      if c == Next(d.lastCpu, |d.bufs|) {
        assert Distance(d, c) == 1 && Distance(v, c) == |d.bufs|;
      } else {
        assert v.bufs[c] == d.bufs[c] && Distance(v, c) == Distance(d, c) - 1;
      }
    }
  }

  /** Segment i of cpu c holds messages and was looked at before the flip. */
  ghost predicate LeftBehind(d: Driver, n: nat, k: nat, c: nat, i: nat)
    requires DriverOk(d, n)
  {
    c < |d.bufs| && i < n && d.bufs[c].segs[i].msgs != [] && Position(d, n, c, i) < k
  }

  /** So it reports the end of the data with messages unread exactly when it looked at them before the flip. */
  lemma FlipForgetsExactly(d: Driver, n: nat, k: nat)
    requires DriverOk(d, n) && FlipScan(d, n, k).1.AllDone?
    ensures (exists c, i :: Unread(d, n, c, i)) <==> exists c, i :: LeftBehind(d, n, k, c, i)
    ensures k == 0 ==> forall c, i :: !Unread(d, n, c, i)
  {
    FlipIsExact(d, n, k);
    forall c, i | Unread(d, n, c, i) ensures LeftBehind(d, n, k, c, i) {
      assert Distance(d, c) <= |d.bufs|;
    }
    forall c, i | LeftBehind(d, n, k, c, i) ensures Unread(d, n, c, i) {
    }
  }

  ghost predicate Unread(d: Driver, n: nat, c: nat, i: nat)
    requires DriverOk(d, n)
  {
    c < |d.bufs| && i < n && d.bufs[c].segs[i].msgs != []
  }

  // ----- With the flag up or down throughout -----

  lemma {:induction false} FlipHitSteady(b: Buffer, k: nat, j: nat)
    requires BufferOk(b) && j <= |b.segs| && (k == 0 || k > |b.segs| - j)
    ensures FlipHit(b, k, j) == FirstHit(b, k == 0, j)
    decreases |b.segs| - j
  {
    if j < |b.segs| {
      FlipHitSteady(b, Less(k, 1), j + 1);
    }
  }

  lemma {:induction false} FlipFromSteady(d: Driver, n: nat, k: nat, left: nat)
    requires DriverOk(d, n) && (k == 0 || k > left * n)
    ensures FlipFrom(d, n, k, left) == ScanFrom(d, n, k == 0, left)
    decreases left
  {
    if left > 0 {
      assert left * n == (left - 1) * n + n;
      assert (left - 1) * n >= 0;
      FlipHitSteady(d.bufs[Next(d.lastCpu, |d.bufs|)], k, 0);
      assert FlipVisit(d, k) == Visit(d, k == 0);
      FlipFromSteady(Visit(d, k == 0), n, Less(k, n), left - 1);
    }
  }

  /** Raised before the first look or after the last, the flag is as good as constant. */
  lemma FlipSteady(d: Driver, n: nat, k: nat)
    requires DriverOk(d, n) && (k == 0 || k > |d.bufs| * n)
    ensures FlipScan(d, n, k) == Scan(d, n, k == 0)
  {
    FlipFromSteady(d, n, k, |d.bufs|);
  }
}
