/** The per-cpu output buffers of the SOCWatch driver: a ring of segments filled by producers and drained by one reader. */
module SegmentSpec {
  import opened Records

  /** Bytes available for messages in one segment. */
  const SEG_DATA_SIZE: nat := 65528

  datatype Segment = Segment(msgs: seq<Msg>, full: bool)

  /** One output buffer: `index` is the producer's segment, `last` the segment the reader looked at last. */
  datatype Buffer = Buffer(segs: seq<Segment>, index: nat, last: int, produced: nat, dropped: nat)

  function Written(s: Segment): nat { |Flatten(s.msgs)| }

  function Space(s: Segment): int { if s.full then 0 else SEG_DATA_SIZE - Written(s) }

  predicate Dead(s: Segment) { s.msgs == [] && !s.full }

  /** What makes the reader stop at a segment. */
  predicate Hit(s: Segment, flush: bool) { s.full || (flush && s.msgs != []) }

  ghost predicate BufferOk(b: Buffer) {
    && b.index < |b.segs|
    && -1 <= b.last < |b.segs|
    && forall i :: 0 <= i < |b.segs| ==> Written(b.segs[i]) <= SEG_DATA_SIZE
  }

  /** Position k steps after position a on a ring of n. */
  function Ring(a: nat, k: nat, n: nat): nat
    requires a < n && k <= n
    ensures Ring(a, k, n) < n
  {
    if a + k >= n then a + k - n else a + k
  }

  function Next(last: int, n: nat): nat
    requires -1 <= last < n && n > 0
    ensures Next(last, n) < n
  {
    if last + 1 >= n then 0 else last + 1
  }

  // ----- Producing -----

  /** The search for a segment with room, d steps past the producer's segment. */
  function Find(segs: seq<Segment>, index: nat, size: nat, d: nat): (r: Option<nat>)
    requires index < |segs| && 1 <= d <= |segs| + 1
    ensures r.Some? ==> r.value < |segs| && Space(segs[r.value]) >= size
    decreases |segs| + 1 - d
  {
    if d > |segs| then None
    else if Space(segs[Ring(index, d, |segs|)]) >= size then Some(Ring(index, d, |segs|))
    else Find(segs, index, size, d + 1)
  }

  /** The search fails only when no segment at all has room. */
  lemma FindComplete(segs: seq<Segment>, index: nat, size: nat, d: nat, i: nat)
    requires index < |segs| && 1 <= d <= |segs| + 1 && i < |segs|
    requires Find(segs, index, size, d).None?
    requires exists k :: d <= k <= |segs| && Ring(index, k, |segs|) == i
    ensures Space(segs[i]) < size
    decreases |segs| + 1 - d
  {
    if Ring(index, d, |segs|) != i {
      FindComplete(segs, index, size, d + 1, i);
    }
  }

  lemma SearchIsComplete(segs: seq<Segment>, index: nat, size: nat)
    requires index < |segs|
    ensures Find(segs, index, size, 1).None? <==> forall i :: 0 <= i < |segs| ==> Space(segs[i]) < size
  {
    if Find(segs, index, size, 1).None? {
      forall i | 0 <= i < |segs| ensures Space(segs[i]) < size {
        assert Ring(index, if i > index then i - index else i - index + |segs|, |segs|) == i;
        FindComplete(segs, index, size, 1, i);
      }
    }
  }

  /** It takes the first segment after the producer's, going round the ring, that has room. */
  lemma {:induction false} FindIsFirst(segs: seq<Segment>, index: nat, size: nat, d: nat)
    requires index < |segs| && 1 <= d <= |segs| + 1 && Find(segs, index, size, d).Some?
    ensures exists h :: d <= h <= |segs| && Find(segs, index, size, d) == Some(Ring(index, h, |segs|))
                        && forall k :: d <= k < h ==> Space(segs[Ring(index, k, |segs|)]) < size
    decreases |segs| + 1 - d
  {
    if Space(segs[Ring(index, d, |segs|)]) < size {
      FindIsFirst(segs, index, size, d + 1);
    }
  }

  function Store(s: Segment, m: Msg): Segment { s.(msgs := s.msgs + [m]) }

  function Produce(b: Buffer, m: Msg): Buffer
    requires BufferOk(b)
  {
    if Space(b.segs[b.index]) < |m| then
      var marked := b.segs[b.index := b.segs[b.index].(full := true)];
      match Find(marked, b.index, |m|, 1)
      case None => b.(segs := marked, dropped := b.dropped + 1)
      case Some(i) => b.(segs := marked[i := Store(marked[i], m)], index := i, produced := b.produced + 1)
    else
      b.(segs := b.segs[b.index := Store(b.segs[b.index], m)], produced := b.produced + 1)
  }

  /**
    * A message is dropped exactly when neither the producer's segment nor, once that one is closed,
    * any other has room; a stored message always fits its segment.
    */
  lemma ProduceFits(b: Buffer, m: Msg)
    requires BufferOk(b)
    ensures BufferOk(Produce(b, m))
    ensures |Produce(b, m).segs| == |b.segs|
    ensures Produce(b, m).dropped > b.dropped <==> forall i :: 0 <= i < |b.segs| ==> Space(b.segs[i]) < |m|
    ensures Produce(b, m).produced + Produce(b, m).dropped == b.produced + b.dropped + 1
  {
    var seg := b.segs[b.index];
    if Space(seg) < |m| {
      var marked := b.segs[b.index := seg.(full := true)];
      SearchIsComplete(marked, b.index, |m|);
      var r := Find(marked, b.index, |m|, 1);
      if r.Some? {
        FlattenAppend(marked[r.value].msgs, m);
        assert Space(b.segs[r.value]) == Space(marked[r.value]);
      } else {
        forall i | 0 <= i < |b.segs| ensures Space(b.segs[i]) < |m| {
          assert i != b.index ==> marked[i] == b.segs[i];
        }
      }
    } else {
      FlattenAppend(seg.msgs, m);
    }
  }

  // ----- Reading -----

  /** The first segment, k or more steps past where the reader starts, that holds data for it. */
  function FirstHit(b: Buffer, flush: bool, k: nat): (r: Option<nat>)
    requires BufferOk(b) && k <= |b.segs|
    ensures r.Some? ==> r.value < |b.segs| && Hit(b.segs[r.value], flush)
    decreases |b.segs| - k
  {
    if k == |b.segs| then None
    else
      var i := Ring(Next(b.last, |b.segs|), k, |b.segs|);
      if Hit(b.segs[i], flush) then Some(i) else FirstHit(b, flush, k + 1)
  }

  /** The buffer after the reader has gone over it. */
  function Advance(b: Buffer, flush: bool): (r: Buffer)
    requires BufferOk(b)
    ensures BufferOk(r) && r.segs == b.segs
  {
    match FirstHit(b, flush, 0)
    case Some(i) => b.(last := i)
    case None => b.(last := Ring(Next(b.last, |b.segs|), |b.segs| - 1, |b.segs|))
  }

  /** How many steps past the reader's start segment i lies. */
  function Ahead(b: Buffer, i: nat): (k: nat)
    requires BufferOk(b) && i < |b.segs|
    ensures k < |b.segs| && Ring(Next(b.last, |b.segs|), k, |b.segs|) == i
  {
    var base := Next(b.last, |b.segs|);
    if i >= base then i - base else i - base + |b.segs|
  }

  lemma {:induction false} FirstHitIsFirst(b: Buffer, flush: bool, k: nat, i: nat)
    requires BufferOk(b) && k <= |b.segs| && i < |b.segs|
    requires Hit(b.segs[i], flush) && k <= Ahead(b, i)
    ensures FirstHit(b, flush, k).Some?
    ensures k <= Ahead(b, FirstHit(b, flush, k).value) <= Ahead(b, i)
    decreases |b.segs| - k
  {
    if !Hit(b.segs[Ring(Next(b.last, |b.segs|), k, |b.segs|)], flush) {
      FirstHitIsFirst(b, flush, k + 1, i);
    }
  }

  datatype Answer = Data(cpu: nat, seg: nat) | NoData | AllDone

  /** All output buffers, and the buffer the reader looked at last. */
  datatype Driver = Driver(bufs: seq<Buffer>, lastCpu: int)

  ghost predicate DriverOk(d: Driver, n: nat) {
    && 0 < |d.bufs|
    && -1 <= d.lastCpu < |d.bufs|
    && forall c :: 0 <= c < |d.bufs| ==> BufferOk(d.bufs[c]) && |d.bufs[c].segs| == n
  }

  function Visit(d: Driver, flush: bool): Driver
    requires 0 < |d.bufs| && -1 <= d.lastCpu < |d.bufs|
    requires BufferOk(d.bufs[Next(d.lastCpu, |d.bufs|)])
  {
    var c := Next(d.lastCpu, |d.bufs|);
    Driver(d.bufs[c := Advance(d.bufs[c], flush)], c)
  }

  /** The reader's search over `left` more buffers: where it stops and the cursors it leaves. */
  function ScanFrom(d: Driver, n: nat, flush: bool, left: nat): (r: (Driver, Answer))
    requires DriverOk(d, n)
    ensures DriverOk(r.0, n) && |r.0.bufs| == |d.bufs|
    decreases left
  {
    if left == 0 then (d, if flush then AllDone else NoData)
    else
      var c := Next(d.lastCpu, |d.bufs|);
      match FirstHit(d.bufs[c], flush, 0)
      case Some(i) => (Visit(d, flush), Data(c, i))
      case None => ScanFrom(Visit(d, flush), n, flush, left - 1)
  }

  /** One step of the search. */
  lemma ScanStep(d: Driver, n: nat, flush: bool, left: nat)
    requires DriverOk(d, n) && left > 0
    ensures DriverOk(Visit(d, flush), n) && |Visit(d, flush).bufs| == |d.bufs|
    ensures var r := FirstHit(d.bufs[Next(d.lastCpu, |d.bufs|)], flush, 0);
            ScanFrom(d, n, flush, left) ==
            if r.Some? then (Visit(d, flush), Data(Visit(d, flush).lastCpu, r.value))
            else ScanFrom(Visit(d, flush), n, flush, left - 1)
  {}

  function Scan(d: Driver, n: nat, flush: bool): (r: (Driver, Answer))
    requires DriverOk(d, n)
    ensures DriverOk(r.0, n) && |r.0.bufs| == |d.bufs|
  {
    ScanFrom(d, n, flush, |d.bufs|)
  }

  function Drained(b: Buffer, i: nat): (r: Buffer)
    requires BufferOk(b) && i < |b.segs|
    ensures BufferOk(r)
  {
    b.(segs := b.segs[i := Segment([], false)])
  }

  function Consume(d: Driver, n: nat, c: nat, i: nat): (r: Driver)
    requires DriverOk(d, n) && c < |d.bufs| && i < n
    ensures DriverOk(r, n)
  {
    d.(bufs := d.bufs[c := Drained(d.bufs[c], i)])
  }

  // ----- What one scan does -----

  /** A scan moves cursors and nothing else. */
  ghost predicate CursorsOnly(d: Driver, e: Driver) {
    && |e.bufs| == |d.bufs|
    && forall c :: 0 <= c < |d.bufs| ==> e.bufs[c] == d.bufs[c].(last := e.bufs[c].last)
  }

  lemma {:induction false} ScanMovesCursors(d: Driver, n: nat, flush: bool, left: nat)
    requires DriverOk(d, n)
    ensures CursorsOnly(d, ScanFrom(d, n, flush, left).0)
    decreases left
  {
    if left > 0 {
      var c := Next(d.lastCpu, |d.bufs|);
      if FirstHit(d.bufs[c], flush, 0).None? {
        ScanMovesCursors(Visit(d, flush), n, flush, left - 1);
      }
    }
  }

  /** How many buffers the reader visits up to and including buffer c. */
  function Distance(d: Driver, c: nat): (k: nat)
    requires c < |d.bufs| && -1 <= d.lastCpu < |d.bufs|
    ensures 1 <= k <= |d.bufs|
  {
    var start := Next(d.lastCpu, |d.bufs|);
    if c >= start then c - start + 1 else c - start + 1 + |d.bufs|
  }

  ghost predicate Somewhere(d: Driver, flush: bool, c: nat, i: nat) {
    c < |d.bufs| && i < |d.bufs[c].segs| && Hit(d.bufs[c].segs[i], flush)
  }

  /** A scan that still has buffer c to visit cannot pass a segment of c that holds data. */
  lemma {:induction false} ScanStops(d: Driver, n: nat, flush: bool, left: nat, c: nat, i: nat)
    requires DriverOk(d, n) && left <= |d.bufs| && Somewhere(d, flush, c, i) && Distance(d, c) <= left
    ensures ScanFrom(d, n, flush, left).1.Data?
    ensures ScanFrom(d, n, flush, left).0.lastCpu == ScanFrom(d, n, flush, left).1.cpu < |d.bufs|
    ensures var r := ScanFrom(d, n, flush, left);
            && (r.1.cpu != c ==> r.0.bufs[c] == d.bufs[c] && Distance(r.0, c) < Distance(d, c))
            && (r.1.cpu == c ==> r.0.bufs[c] == Advance(d.bufs[c], flush) && r.1.seg == r.0.bufs[c].last)
    decreases left
  {
    var c0 := Next(d.lastCpu, |d.bufs|);
    if c0 == c {
      FirstHitIsFirst(d.bufs[c], flush, 0, i);
    } else if FirstHit(d.bufs[c0], flush, 0).None? {
      ScanStops(Visit(d, flush), n, flush, left - 1, c, i);
    }
  }

  lemma {:induction false} ScanAnswers(d: Driver, n: nat, flush: bool, left: nat)
    requires DriverOk(d, n)
    ensures var a := ScanFrom(d, n, flush, left).1;
            if a.Data? then Somewhere(d, flush, a.cpu, a.seg) else a == (if flush then AllDone else NoData)
    decreases left
  {
    if left > 0 {
      var c := Next(d.lastCpu, |d.bufs|);
      if FirstHit(d.bufs[c], flush, 0).None? {
        ScanAnswers(Visit(d, flush), n, flush, left - 1);
      }
    }
  }

  /**
    * While collecting, a scan finds nothing exactly when no segment is full; while draining, it reports
    * that all writes are done exactly when every segment is empty and not full.
    */
  lemma ScanIsExact(d: Driver, n: nat, flush: bool)
    requires DriverOk(d, n)
    ensures Scan(d, n, flush).1.NoData? <==>
            !flush && forall c, i :: 0 <= c < |d.bufs| && 0 <= i < n ==> !d.bufs[c].segs[i].full
    ensures Scan(d, n, flush).1.AllDone? <==>
            flush && forall c, i :: 0 <= c < |d.bufs| && 0 <= i < n ==> Dead(d.bufs[c].segs[i])
    ensures CursorsOnly(d, Scan(d, n, flush).0)
  {
    ScanMovesCursors(d, n, flush, |d.bufs|);
    ScanAnswers(d, n, flush, |d.bufs|);
    if !Scan(d, n, flush).1.Data? {
      forall c, i | 0 <= c < |d.bufs| && 0 <= i < n ensures !Hit(d.bufs[c].segs[i], flush) {
        if Hit(d.bufs[c].segs[i], flush) {
          ScanStops(d, n, flush, |d.bufs|, c, i);
          assert false;
        }
      }
    }
  }
}
