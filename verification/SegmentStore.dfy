/** The memory of one segment, and what it means for a row of them to show a row of specified segments. */
module SegmentStore {
  import opened Records
  import opened SegmentSpec

  const MSG_HEADER_SIZE: nat := 14

  type Header = h: seq<bv8> | |h| == MSG_HEADER_SIZE witness seq(MSG_HEADER_SIZE, i => 0)

  const U32: nat := 0x1_0000_0000

  /** A count kept in 32 bits. */
  function Counter32(n: nat): nat { n % U32 }

  lemma CounterStep(n: nat)
    ensures (Counter32(n) + 1) % U32 == Counter32(n + 1)
  {}

  /** The buffer with one more message in segment i. */
  function Stored(b: Buffer, i: nat, m: Msg): Buffer
    requires i < |b.segs|
  {
    b.(segs := b.segs[i := Store(b.segs[i], m)], produced := b.produced + 1)
  }

  /** The buffer with the producer's segment closed. */
  function Closed(b: Buffer): Buffer
    requires b.index < |b.segs|
  {
    b.(segs := b.segs[b.index := b.segs[b.index].(full := true)])
  }

  /** The three outcomes of offering a message. */
  lemma ProduceCases(b: Buffer, m: Msg)
    requires BufferOk(b)
    ensures Space(b.segs[b.index]) >= |m| ==> Produce(b, m) == Stored(b, b.index, m)
    ensures Space(b.segs[b.index]) < |m| ==>
              match Find(Closed(b).segs, b.index, |m|, 1)
              case None => Produce(b, m) == Closed(b).(dropped := b.dropped + 1)
              case Some(i) => Produce(b, m) == Stored(Closed(b).(index := i), i, m) && Space(Closed(b).segs[i]) >= |m|
  {}

  lemma StoreOk(b: Buffer, i: nat, m: Msg)
    requires BufferOk(b) && i < |b.segs| && Space(b.segs[i]) >= |m|
    ensures BufferOk(Stored(b, i, m))
  {
    FlattenAppend(b.segs[i].msgs, m);
  }

  class DataBuffer {
    const buffer: array<bv8>
    var written: nat
    var full: bool

    constructor ()
      ensures fresh(buffer) && buffer.Length == SEG_DATA_SIZE && written == 0 && !full
    {
      buffer := new bv8[SEG_DATA_SIZE];
      written := 0;
      full := false;
    }

    function SpaceAvail(): (r: int)
      reads this
    {
      if full then 0 else SEG_DATA_SIZE - written
    }

    /** The bytes and flags of this buffer are those of segment s. */
    ghost predicate Shows(s: Segment)
      reads this, buffer
    {
      && buffer.Length == SEG_DATA_SIZE
      && written <= SEG_DATA_SIZE
      && full == s.full
      && buffer[..written] == Flatten(s.msgs)
    }

    method CopyIn(at: nat, src: seq<bv8>)
      requires at + |src| <= buffer.Length
      modifies buffer
      ensures buffer[..at + |src|] == old(buffer[..at]) + src
    {
      for i := 0 to |src|
        invariant forall j :: 0 <= j < at ==> buffer[j] == old(buffer[j])
        invariant forall j :: 0 <= j < i ==> buffer[at + j] == src[j]
      {
        buffer[at + i] := src[i];
      }
    }

    method Append(header: Header, data: seq<bv8>, ghost s: Segment)
      requires Shows(s) && SpaceAvail() >= |header| + |data|
      modifies this, buffer
      ensures Shows(Store(s, header + data))
    {
      CopyIn(written, header);
      CopyIn(written + MSG_HEADER_SIZE, data);
      FlattenAppend(s.msgs, header + data);
      written := written + (MSG_HEADER_SIZE + |data|);
    }
  }

  /** No two segments share memory. */
  ghost predicate Apart(buffers: seq<DataBuffer>) {
    forall i, j :: 0 <= i < j < |buffers| ==> buffers[i] != buffers[j] && buffers[i].buffer != buffers[j].buffer
  }

  ghost function Segs(buffers: seq<DataBuffer>): set<DataBuffer> { set b | b in buffers }

  ghost function Arrays(buffers: seq<DataBuffer>): set<array<bv8>> { set b | b in buffers :: b.buffer }

  ghost predicate Shown(buffers: seq<DataBuffer>, segs: seq<Segment>)
    reads Segs(buffers), Arrays(buffers)
  {
    && Apart(buffers)
    && |segs| == |buffers|
    && forall i :: 0 <= i < |buffers| ==> buffers[i].Shows(segs[i])
  }

  method NewSegments(n: nat) returns (buffers: seq<DataBuffer>)
    ensures |buffers| == n && fresh(Segs(buffers)) && fresh(Arrays(buffers))
    ensures Shown(buffers, seq(n, i => Segment([], false)))
  {
    buffers := [];
    for i := 0 to n
      invariant |buffers| == i && forall k :: 0 <= k < i ==> fresh(buffers[k]) && fresh(buffers[k].buffer)
      invariant Shown(buffers, seq(i, k => Segment([], false)))
    {
      var b := new DataBuffer();
      assert b.Shows(Segment([], false));
      assert forall k :: 0 <= k < i ==> buffers[k].Shows(Segment([], false));
      buffers := buffers + [b];
    }
  }

  method MarkFull(buffers: seq<DataBuffer>, i: nat, ghost segs: seq<Segment>)
    requires Shown(buffers, segs) && i < |buffers|
    modifies buffers[i]
    ensures Shown(buffers, segs[i := segs[i].(full := true)])
  {
    assert buffers[i].Shows(segs[i]);
    buffers[i].full := true;
  }

  method Fill(buffers: seq<DataBuffer>, i: nat, header: Header, data: seq<bv8>, ghost segs: seq<Segment>)
    requires Shown(buffers, segs) && i < |buffers| && Space(segs[i]) >= |header + data|
    modifies buffers[i], buffers[i].buffer
    ensures Shown(buffers, segs[i := Store(segs[i], header + data)])
  {
    assert buffers[i].Shows(segs[i]);
    buffers[i].Append(header, data, segs[i]);
  }

  method Empty(buffers: seq<DataBuffer>, i: nat, ghost segs: seq<Segment>) returns (bytes: seq<bv8>)
    requires Shown(buffers, segs) && i < |buffers|
    modifies buffers[i]
    ensures Shown(buffers, segs[i := Segment([], false)]) && bytes == Flatten(segs[i].msgs)
  {
    assert buffers[i].Shows(segs[i]);
    bytes := buffers[i].buffer[..buffers[i].written];
    buffers[i].full := false;
    buffers[i].written := 0;
  }

  /** Zeroes a whole segment, flags and bytes. */
  method Clear(buffers: seq<DataBuffer>, i: nat, ghost segs: seq<Segment>)
    requires Shown(buffers, segs) && i < |buffers|
    modifies buffers[i], buffers[i].buffer
    ensures Shown(buffers, segs[i := Segment([], false)])
    ensures forall j :: 0 <= j < buffers[i].buffer.Length ==> buffers[i].buffer[j] == 0
  {
    var b := buffers[i];
    b.full := false;
    b.written := 0;
    for j := 0 to b.buffer.Length
      invariant !b.full && b.written == 0
      invariant forall k :: 0 <= k < j ==> b.buffer[k] == 0
    {
      b.buffer[j] := 0;
    }
    assert forall k :: 0 <= k < |buffers| && k != i ==> buffers[k].Shows(segs[k]);
    assert b.Shows(Segment([], false));
  }

  /** Whether the reader stops at segment i: it is full, or it is being flushed and holds bytes. */
  function HoldsData(buffers: seq<DataBuffer>, i: nat, flush: bool, ghost segs: seq<Segment>): (r: bool)
    requires Shown(buffers, segs) && i < |buffers|
    reads Segs(buffers), Arrays(buffers)
    ensures r == Hit(segs[i], flush)
  {
    assert buffers[i].Shows(segs[i]);
    FlattenEmpty(segs[i].msgs);
    buffers[i].full || (flush && buffers[i].written > 0)
  }
}
