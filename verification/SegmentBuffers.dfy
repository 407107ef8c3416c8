/** The per-cpu output buffers as the driver updates them, proved against SegmentSpec. */
module SegmentBuffers {
  import opened Bits
  import opened Records
  import opened SegmentFlip
  import opened SegmentSpec
  import opened SegmentStore

  /** For a power of two segments the masked increment is one step round the ring. */
  lemma MaskedNext(index: nat, bits: nat)
    requires index < Pow2(bits)
    ensures BitAnd(index + 1, Pow2(bits) - 1) == Ring(index, 1, Pow2(bits))
  {
    AndLowMask(index + 1, bits);
    var n := Pow2(bits);
    Remainder(index + 1, n, if index + 1 == n then 1 else 0, Ring(index, 1, n));
  }

  lemma RingStep(a: nat, k: nat, n: nat)
    requires a < n && k < n
    ensures Ring(Ring(a, k, n), 1, n) == Ring(a, k + 1, n)
  {}

  class OutputBuffer {
    const buffers: seq<DataBuffer>
    const bits: nat
    var buffIndex: int
    var lastSegRead: int
    var producedSamples: nat
    var droppedSamples: nat
    ghost var model: Buffer

    ghost predicate Valid()
      reads this, Segs(buffers), Arrays(buffers)
    {
      && |buffers| == Pow2(bits)
      && BufferOk(model)
      && Shown(buffers, model.segs)
      && buffIndex == model.index && lastSegRead == model.last
      && producedSamples == Counter32(model.produced) && droppedSamples == Counter32(model.dropped)
    }

    /** Allocates the segments, all empty, as a reset leaves them. */
    constructor (bits: nat)
      ensures Valid() && this.bits == bits && fresh(Segs(buffers)) && fresh(Arrays(buffers))
      ensures model == Buffer(seq(|buffers|, i => Segment([], false)), 0, -1, 0, 0)
    {
      var n := Pow2(bits);
      var bs := NewSegments(n);
      buffers := bs;
      this.bits := bits;
      buffIndex, lastSegRead, producedSamples, droppedSamples := 0, -1, 0, 0;
      model := Buffer(seq(n, i => Segment([], false)), 0, -1, 0, 0);
    }

    function Space(i: nat): (r: int)
      requires Valid() && i < |buffers|
      reads this, Segs(buffers), Arrays(buffers)
      ensures r == SegmentSpec.Space(model.segs[i])
    {
      assert buffers[i].Shows(model.segs[i]);
      buffers[i].SpaceAvail()
    }

    /** The masked search for another segment with room. */
    method FindSegment(size: nat) returns (r: Option<nat>)
      requires Valid()
      ensures r == Find(model.segs, model.index, size, 1)
    {
      var index: nat := buffIndex;
      for i := 0 to |buffers|
        invariant index == Ring(model.index, i, |buffers|)
        invariant Find(model.segs, model.index, size, 1) == Find(model.segs, model.index, size, i + 1)
      {
        MaskedNext(index, bits);
        RingStep(model.index, i, |buffers|);
        index := BitAnd(index + 1, Pow2(bits) - 1);
        if Space(index) >= size {
          return Some(index);
        }
      }
      return None;
    }

    /** The producer moves to the segment found, if any. */
    method NextAvailableSegment(size: nat) returns (r: Option<nat>)
      requires Valid()
      modifies this`buffIndex, this`model
      ensures Valid()
      ensures r == Find(model.segs, old(model.index), size, 1)
      ensures model == old(model).(index := if r.Some? then r.value else old(model.index))
    {
      r := FindSegment(size);
      if r.Some? {
        buffIndex := r.value;
        model := model.(index := r.value);
      }
    }

    method CloseSegment()
      requires Valid()
      modifies this`model, Segs(buffers)
      ensures Valid()
      ensures model == Closed(old(model))
    {
      MarkFull(buffers, buffIndex, model.segs);
      model := Closed(model);
    }

    method Keep(header: Header, data: seq<bv8>)
      requires Valid() && SegmentSpec.Space(model.segs[model.index]) >= |header + data|
      modifies this`model, this`producedSamples, Segs(buffers), Arrays(buffers)
      ensures Valid()
      ensures model == Stored(old(model), old(model.index), header + data)
    {
      var i: nat := buffIndex;
      ghost var next := Stored(model, i, header + data);
      ghost var segs := model.segs;
      StoreOk(model, i, header + data);
      CounterStep(model.produced);
      producedSamples := (producedSamples + 1) % U32;
      model := next;
      Fill(buffers, i, header, data, segs);
    }

    method DropSample()
      requires Valid()
      modifies this`model, this`droppedSamples
      ensures Valid()
      ensures model == old(model).(dropped := old(model.dropped) + 1)
    {
      CounterStep(model.dropped);
      droppedSamples := (droppedSamples + 1) % U32;
      model := model.(dropped := model.dropped + 1);
    }

    /** One message stored or dropped. */
    method OfferMsg(header: Header, data: seq<bv8>) returns (shouldWakeup: bool, didDrop: bool)
      requires Valid()
      modifies this`model, this`buffIndex, this`producedSamples, this`droppedSamples, Segs(buffers), Arrays(buffers)
      ensures Valid()
      ensures model == Produce(old(model), header + data)
      ensures shouldWakeup == (SegmentSpec.Space(old(model.segs[model.index])) < |header + data|)
      ensures didDrop == (model.dropped > old(model.dropped))
    {
      var size := MSG_HEADER_SIZE + |data|;
      ProduceCases(model, header + data);
      didDrop := false;
      shouldWakeup := false;
      if Space(buffIndex) < size {
        shouldWakeup := true;
        CloseSegment();
        var r := NextAvailableSegment(size);
        if r.None? {
          DropSample();
          didDrop := true;
          return;
        }
      }
      Keep(header, data);
    }

    /**
      * One message offered to this buffer. The reader is woken when the producer's segment was too small, the caller
      * allows it and the reader waits.
      */
    method ProduceMsg(header: Header, data: seq<bv8>, allowWakeup: bool, readerWaits: bool) returns (wakes: bool, didDrop: bool)
      requires Valid()
      modifies this`model, this`buffIndex, this`producedSamples, this`droppedSamples, Segs(buffers), Arrays(buffers)
      ensures Valid()
      ensures model == Produce(old(model), header + data)
      ensures wakes <==>
              SegmentSpec.Space(old(model.segs[model.index])) < |header + data| && allowWakeup && readerWaits
      ensures didDrop == (model.dropped > old(model.dropped))
    {
      var shouldWakeup;
      shouldWakeup, didDrop := OfferMsg(header, data);
      wakes := shouldWakeup && allowWakeup && readerWaits;
    }

    /**
      * The reader's cursor goes round the segments once, from the one after where it stands. The flush flag is read at
      * every segment; it is raised after `pending` looks.
      */
    method FindData(pending: nat) returns (r: Option<nat>, last: nat)
      requires Valid()
      ensures r == FlipHit(model, pending, 0)
      ensures model.(last := last) == FlipAdvance(model, pending)
    {
      ghost var start := Next(model.last, |buffers|);
      var cursor, left := lastSegRead, pending;
      for i := 0 to |buffers|
        invariant cursor == if i == 0 then model.last else Ring(start, i - 1, |buffers|)
        invariant FlipHit(model, pending, 0) == FlipHit(model, left, i)
      {
        cursor := cursor + 1;
        if cursor >= |buffers| {
          cursor := 0;
        }
        assert cursor == Ring(start, i, |buffers|);
        if HoldsData(buffers, cursor, left == 0, model.segs) {
          return Some(cursor), cursor;
        }
        left := Less(left, 1);
      }
      return None, cursor;
    }

    method ScanSegments(pending: nat) returns (r: Option<nat>)
      requires Valid()
      modifies this`lastSegRead, this`model
      ensures Valid()
      ensures r == FlipHit(old(model), pending, 0)
      ensures model == FlipAdvance(old(model), pending)
    {
      var last: nat;
      r, last := FindData(pending);
      lastSegRead := last;
      model := model.(last := last);
    }

    method Take(i: nat) returns (bytes: seq<bv8>)
      requires Valid() && i < |buffers|
      modifies this`model, Segs(buffers)
      ensures Valid()
      ensures model == Drained(old(model), i) && bytes == Flatten(old(model.segs[i].msgs))
    {
      bytes := Empty(buffers, i, model.segs);
      model := Drained(model, i);
    }

    method Reset()
      requires Valid()
      modifies this, Segs(buffers), Arrays(buffers)
      ensures Valid()
      ensures model == Buffer(seq(|buffers|, i => Segment([], false)), 0, -1, 0, 0)
    {
      buffIndex, droppedSamples, producedSamples, lastSegRead := 0, 0, 0, -1;
      ghost var segs := model.segs;
      for i := 0 to |buffers|
        invariant buffIndex == 0 && droppedSamples == 0 && producedSamples == 0 && lastSegRead == -1
        invariant Shown(buffers, segs)
        invariant forall j :: 0 <= j < i ==> segs[j] == Segment([], false)
      {
        Clear(buffers, i, segs);
        segs := segs[i := Segment([], false)];
      }
      model := Buffer(segs, 0, -1, 0, 0);
      assert segs == seq(|buffers|, i => Segment([], false));
    }
  }

  /** No two output buffers share segments. */
  ghost predicate Separate(outputs: seq<OutputBuffer>) {
    forall c, e :: 0 <= c < e < |outputs| ==>
      && outputs[c] != outputs[e]
      && Segs(outputs[c].buffers) !! Segs(outputs[e].buffers)
      && Arrays(outputs[c].buffers) !! Arrays(outputs[e].buffers)
  }

  ghost function AllSegs(outputs: seq<OutputBuffer>): set<DataBuffer> { set o, b | o in outputs && b in o.buffers :: b }

  ghost function AllArrays(outputs: seq<OutputBuffer>): set<array<bv8>> {
    set o, b | o in outputs && b in o.buffers :: b.buffer
  }

  /** A row of output buffers shows the row `bufs` of specified buffers, n segments each. */
  ghost predicate Row(outputs: seq<OutputBuffer>, bufs: seq<Buffer>, n: nat)
    reads outputs, AllSegs(outputs), AllArrays(outputs)
  {
    && Separate(outputs)
    && |bufs| == |outputs|
    && forall c :: 0 <= c < |outputs| ==>
         outputs[c].Valid() && outputs[c].model == bufs[c] && |outputs[c].buffers| == n
  }

  method ProduceAt(outputs: seq<OutputBuffer>, c: nat, header: Header, data: seq<bv8>, allowWakeup: bool, readerWaits: bool,
                   ghost bufs: seq<Buffer>, ghost n: nat)
    returns (wakes: bool, didDrop: bool)
    requires Row(outputs, bufs, n) && c < |outputs|
    modifies outputs[c], Segs(outputs[c].buffers), Arrays(outputs[c].buffers)
    ensures BufferOk(bufs[c]) && Row(outputs, bufs[c := Produce(bufs[c], header + data)], n)
    ensures didDrop == (Produce(bufs[c], header + data).dropped > bufs[c].dropped)
    ensures wakes <==> Space(bufs[c].segs[bufs[c].index]) < |header + data| && allowWakeup && readerWaits
  {
    wakes, didDrop := outputs[c].ProduceMsg(header, data, allowWakeup, readerWaits);
    forall d | 0 <= d < |outputs| && d != c
      ensures outputs[d].Valid() && outputs[d].model == bufs[d]
    {
      assert outputs[d] != outputs[c];
    }
  }

  method ScanAt(outputs: seq<OutputBuffer>, c: nat, pending: nat, ghost bufs: seq<Buffer>, ghost n: nat)
    returns (r: Option<nat>)
    requires Row(outputs, bufs, n) && c < |outputs|
    modifies outputs[c]
    ensures BufferOk(bufs[c]) && Row(outputs, bufs[c := FlipAdvance(bufs[c], pending)], n)
    ensures r == FlipHit(bufs[c], pending, 0)
  {
    r := outputs[c].ScanSegments(pending);
    forall d | 0 <= d < |outputs| && d != c
      ensures outputs[d].Valid() && outputs[d].model == bufs[d]
    {
      assert outputs[d] != outputs[c];
    }
  }

  method TakeAt(outputs: seq<OutputBuffer>, c: nat, i: nat, ghost bufs: seq<Buffer>, ghost n: nat)
    returns (bytes: seq<bv8>)
    requires Row(outputs, bufs, n) && c < |outputs| && i < n
    modifies outputs[c], Segs(outputs[c].buffers)
    ensures BufferOk(bufs[c]) && |bufs[c].segs| == n && Row(outputs, bufs[c := Drained(bufs[c], i)], n)
    ensures bytes == Flatten(bufs[c].segs[i].msgs)
  {
    bytes := outputs[c].Take(i);
    forall d | 0 <= d < |outputs| && d != c
      ensures outputs[d].Valid() && outputs[d].model == bufs[d]
    {
      assert outputs[d] != outputs[c];
    }
  }
}
