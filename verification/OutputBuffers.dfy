/** One cpu's output buffers as the driver updates them, proved against OutputSpec. */
module OutputBuffers {
  import opened Bits
  import opened Records
  import opened OutputSpec
  import opened OutputStore

  lemma AfterIsRemainder(o: Out, i: nat)
    requires o.current < |o.slots| && i < |o.slots|
    ensures (o.current + i) % |o.slots| == After(o, i)
  {
    Remainder(o.current + i, |o.slots|, if o.current + i >= |o.slots| then 1 else 0, After(o, i));
  }

  /** The buffers other than the current one are those at ring distances 1 and up. */
  lemma OthersAfter(o: Out)
    requires o.current < |o.slots|
    ensures OthersRead(o, o.current) <==> forall i :: 1 <= i < |o.slots| ==> Marked(o).slots[After(Marked(o), i)].ready == 0
  {
    if forall i :: 1 <= i < |o.slots| ==> Marked(o).slots[After(Marked(o), i)].ready == 0 {
      forall j | 0 <= j < |o.slots| && j != o.current ensures o.slots[j].ready == 0 {
        assert After(Marked(o), if j > o.current then j - o.current else j - o.current + |o.slots|) == j;
      }
    }
  }

  class BufferDesc {
    const buffers: seq<array<bv8>>
    const bufferFull: array<nat>
    const total: nat
    var currentBuffer: nat
    var remaining: int
    ghost var model: Out

    ghost predicate Valid()
      reads this, bufferFull, Arrays(buffers)
    {
      && CountsApart(buffers, bufferFull)
      && OutOk(model, total)
      && Holds(buffers, model.slots, total)
      && Counts(bufferFull, model.slots)
      && currentBuffer == model.current
      && remaining == total - Size(model.slots[model.current].recs)
    }

    /** The part of the state that the searches read: which buffers wait to be read. */
    ghost predicate Marks()
      reads this, bufferFull
    {
      Counts(bufferFull, model.slots) && |buffers| == |model.slots| && currentBuffer == model.current < |buffers|
    }

    /** Allocates the buffers, all empty, with the first as the current one. */
    constructor (numBuffers: nat, size: nat)
      requires numBuffers > 0
      ensures Valid() && fresh(bufferFull) && fresh(Arrays(buffers))
      ensures total == size && |buffers| == numBuffers
      ensures model == Out(seq(numBuffers, j => Slot([], 0)), 0)
    {
      var bs: seq<array<bv8>> := [];
      var full := new nat[numBuffers];
      for j := 0 to numBuffers
        invariant |bs| == j && Distinct(bs) && CountsApart(bs, full)
        invariant fresh(full) && forall i :: 0 <= i < j ==> fresh(bs[i]) && bs[i].Length == size
        invariant forall i :: 0 <= i < j ==> full[i] == 0
      {
        var b := new bv8[size];
        bs := bs + [b];
        full[j] := 0;
      }
      buffers := bs;
      bufferFull := full;
      total := size;
      currentBuffer := 0;
      remaining := size;
      model := Out(seq(numBuffers, j => Slot([], 0)), 0);
    }

    /** Publishes the current buffer's byte count to the reader. */
    method MarkCurrent()
      requires Valid()
      modifies this`model, bufferFull
      ensures Valid() && model == Marked(old(model))
    {
      ghost var recs := model.slots[currentBuffer].recs;
      assert recs[..|recs|] == recs;
      MarkingHolds(buffers, model.slots, total, currentBuffer, |recs|);
      SetCount(bufferFull, currentBuffer, total - remaining, model.slots, |recs|);
      model := Marked(model);
    }

    /** Whether buffer j waits to be read. */
    function Waiting(j: nat): (r: bool)
      requires Marks() && j < |buffers|
      reads this, bufferFull
      ensures r <==> model.slots[j].ready > 0
    {
      NothingReady(bufferFull, model.slots, j);
      bufferFull[j] != 0
    }

    /** The search for a read buffer; it runs over all the others and keeps the last. */
    method FindRead() returns (r: Option<nat>, signalFull: bool)
      requires Marks()
      ensures r == Target(model, 1, None)
      ensures signalFull <==> forall i :: 1 <= i < |buffers| ==> model.slots[After(model, i)].ready == 0
    {
      r := None;
      signalFull := true;
      var i := 1;
      while i < |buffers|
        invariant 1 <= i <= |buffers|
        invariant r.Some? ==> r.value < |buffers| && r.value != model.current && model.slots[r.value].ready == 0
        invariant Target(model, 1, None) == Target(model, i, r)
        invariant signalFull <==> forall k :: 1 <= k < i ==> model.slots[After(model, k)].ready == 0
      {
        AfterIsRemainder(model, i);
        var j := (currentBuffer + i) % |buffers|;
        if Waiting(j) {
          signalFull := false;
        } else {
          r := Some(j);
        }
        i := i + 1;
      }
    }

    /** A record that fits is added to the current buffer. */
    method AddHere(data: Msg)
      requires Valid() && remaining >= |data|
      modifies this`model, this`remaining, buffers[currentBuffer]
      ensures Valid() && model == Put(old(model), total, data).0
    {
      ghost var s := model.slots[currentBuffer];
      FlattenAppend(s.recs, data);
      AddingCounts(bufferFull, model.slots, currentBuffer, data);
      AddRecord(buffers, currentBuffer, s.recs, data, total - remaining, model.slots, total);
      remaining := remaining - |data|;
      model := model.(slots := model.slots[currentBuffer := s.(recs := s.recs + [data])]);
    }

    /** The producer enters a read buffer j with this record. */
    method Enter(j: nat, data: Msg)
      requires Valid() && j < |buffers| && model.slots[j].ready == 0 && |data| <= total
      modifies this, buffers[j]
      ensures Valid() && model == Out(old(model.slots)[j := Slot([data], 0)], j)
    {
      FlattenAppend([], data);
      assert [] + [data] == [data];
      AddingCounts(bufferFull, model.slots, j, data);
      MarkingHolds(buffers, model.slots, total, j, 0);
      AddRecord(buffers, j, [], data, 0, model.slots, total);
      currentBuffer := j;
      remaining := total - |data|;
      model := Out(model.slots[j := Slot([data], 0)], j);
    }

    /**
      * Reserves room for a record and writes it; a record that does not fit closes the current buffer.
      * False means refused. The reader is signalled when no other buffer was waiting for it. A record larger than a
      * buffer that is not refused overruns the buffer entered; the state is then the one before that write.
      */
    method BufferFill(data: Msg) returns (accepted: bool, signalFull: bool, overruns: bool)
      requires Valid()
      modifies this, bufferFull, Arrays(buffers)
      ensures Valid()
      ensures accepted == Put(old(model), total, data).1
      ensures overruns <==> accepted && |data| > total
      ensures model == if overruns then Marked(old(model)) else Put(old(model), total, data).0
      ensures signalFull <==>
              && Size(old(model.slots[model.current].recs)) + |data| > total
              && OthersRead(old(model), old(model.current))
    {
      if remaining >= |data| {
        AddHere(data);
        return true, false, false;
      }
      ghost var before := model;
      MarkCurrent();
      var r;
      r, signalFull := FindRead();
      OthersAfter(before);
      accepted := r.Some?;
      overruns := r.Some? && |data| > total;
      if r.Some? && !overruns {
        Enter(r.value, data);
      }
    }

    /** The first half of a read: which buffer, and how many bytes it has ready. */
    method ScanReady() returns (j: nat, toCopy: nat)
      requires Marks()
      ensures j == Pick(model, 1) && j < |buffers| && j < bufferFull.Length && toCopy == bufferFull[j]
    {
      j := currentBuffer;
      toCopy := 0;
      for i := 0 to |buffers|
        invariant j == After(model, i)
        invariant i > 0 ==> toCopy == bufferFull[j]
        invariant if i < |buffers| then Pick(model, 1) == Pick(model, i + 1) else Pick(model, 1) == j
      {
        PickStep(model, i + 1);
        j := j + 1;
        if j >= |buffers| {
          j := 0;
        }
        toCopy := bufferFull[j];
        if Waiting(j) {
          break;
        }
      }
    }

    /**
      * The second half: copies the bytes out and marks the buffer empty, or refuses a user buffer that is
      * too small and changes nothing. `failing` is how many bytes the copy to user memory cannot place, which are
      * lost; after an abnormal termination nothing is copied and nothing marked.
      */
    method CopyOut(j: nat, toCopy: nat, count: nat, failing: nat, abnormal: bool) returns (bytes: Option<seq<bv8>>)
      requires Valid() && j < |buffers| && failing <= toCopy <= total
      modifies this`model, bufferFull
      ensures Valid()
      ensures toCopy > count || abnormal ==> model == old(model) && bufferFull[..] == old(bufferFull[..])
      ensures toCopy > count ==> bytes == None
      ensures toCopy <= count && abnormal ==> bytes == Some([])
      ensures toCopy <= count && !abnormal ==>
                && model == Take(old(model), j).0
                && bytes.Some? && |bytes.value| == toCopy - failing
                && (toCopy == old(bufferFull[j]) ==> bytes.value == Flatten(Take(old(model), j).1)[..toCopy - failing])
    {
      if toCopy > count {
        return None;
      }
      if abnormal {
        return Some([]);
      }
      ghost var s := model.slots[j];
      assert HoldsRecords(buffers[j], s.recs, total);
      PrefixBytes(s.recs, ReadyOf(s));
      var copied := buffers[j][..toCopy];
      assert toCopy == bufferFull[j] ==> copied == buffers[j][..Size(s.recs)][..toCopy];
      bytes := Some(copied[..toCopy - failing]);
      assert s.recs[..0] == [];
      MarkingHolds(buffers, model.slots, total, j, 0);
      SetCount(bufferFull, j, 0, model.slots, 0);
      model := Take(model, j).0;
    }
  }
}
