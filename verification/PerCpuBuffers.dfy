/** The reader's and the producers' calls on all output buffers, proved against SegmentSpec. */
module PerCpuBuffers {
  import opened Bits
  import opened Records
  import opened SegmentFlip
  import opened SegmentSpec
  import opened SegmentStore
  import opened SegmentBuffers

  const SEG_SIZE_BYTES: nat := SEG_DATA_SIZE + 8

  const ALL_WRITES_DONE_MASK: nat := U32 - 1
  const NO_DATA_AVAIL_MASK: nat := U32 - 2

  /** Masks handed to the reader name a buffer in the upper half and a segment in the lower half. */
  function Encode(a: Answer): nat {
    match a
    case NoData => NO_DATA_AVAIL_MASK
    case AllDone => ALL_WRITES_DONE_MASK
    case Data(c, i) => BitAnd(c, 0xffff) * 0x1_0000 + BitAnd(i, 0xffff)
  }

  /** Below 65535 buffers a mask names its segment exactly and is neither sentinel. */
  lemma MaskRoundTrip(c: nat, i: nat)
    requires c < 0xffff && i <= 0xffff
    ensures var m := Encode(Data(c, i));
            && Shr(m, 16) == c && BitAnd(m, 0xffff) == i
            && m != ALL_WRITES_DONE_MASK && m != NO_DATA_AVAIL_MASK
  {
    PowersOfSixteen();
    AndLowMask(c, 16);
    AndLowMask(i, 16);
    Remainder(c, 0x1_0000, 0, c);
    Remainder(i, 0x1_0000, 0, i);
    Halves(c, i);
  }

  /** Every segment of every buffer is empty and not full. */
  ghost predicate AllEmpty(d: Driver, n: nat)
    requires DriverOk(d, n)
  {
    forall c, i :: 0 <= c < |d.bufs| && 0 <= i < n ==> d.bufs[c].segs[i].msgs == [] && !d.bufs[c].segs[i].full
  }

  ghost predicate NoneFull(d: Driver, n: nat)
    requires DriverOk(d, n)
  {
    forall c, i :: 0 <= c < |d.bufs| && 0 <= i < n ==> !d.bufs[c].segs[i].full
  }

  /** The mask names a segment that holds data, and is none of the two answers without data. */
  ghost predicate NamesData(d: Driver, n: nat, mask: nat)
    requires DriverOk(d, n)
  {
    && Shr(mask, 16) < |d.bufs| && BitAnd(mask, 0xffff) < n
    && (d.bufs[Shr(mask, 16)].segs[BitAnd(mask, 0xffff)].full || d.bufs[Shr(mask, 16)].segs[BitAnd(mask, 0xffff)].msgs != [])
    && mask < 0xffff_fffe
  }

  /** A search that finds nothing: all writes are done if the flag is up by its last test, else there is no data yet. */
  lemma NothingAnswered(d: Driver, n: nat, k: nat)
    requires DriverOk(d, n) && NothingFor(d, n, k, |d.bufs|)
    ensures FlipScan(d, n, k).1 == if k <= |d.bufs| * n then AllDone else NoData
    ensures Encode(FlipScan(d, n, k).1) == if k <= |d.bufs| * n then 0xffff_ffff else 0xffff_fffe
  {
    FlipIsExact(d, n, k);
  }

  /** A search that finds something names the first segment, in the order of looking, that holds data for it. */
  lemma DataAnswered(d: Driver, n: nat, k: nat)
    requires DriverOk(d, n) && !NothingFor(d, n, k, |d.bufs|) && |d.bufs| < 0xffff && n <= 0x1_0000
    ensures var mask := Encode(FlipScan(d, n, k).1);
            FlipScan(d, n, k).1.Data? && NamesData(d, n, mask) && FirstFor(d, n, k, Shr(mask, 16), BitAnd(mask, 0xffff))
  {
    FlipIsExact(d, n, k);
    FlipFindsFirst(d, n, k);
    var a := FlipScan(d, n, k).1;
    MaskRoundTrip(a.cpu, a.seg);
    MaskBelow(a.cpu, a.seg);
  }

  lemma MaskBelow(c: nat, i: nat)
    requires c < 0xffff && i <= 0xffff
    ensures Encode(Data(c, i)) < 0xffff_fffe
  {
    PowersOfSixteen();
    AndLowMask(c, 16);
    AndLowMask(i, 16);
  }

  /** With the flag up throughout, what there is to find can be read off the segments. */
  lemma DrainingNothing(d: Driver, n: nat)
    requires DriverOk(d, n)
    ensures NothingFor(d, n, 0, |d.bufs|) <==> AllEmpty(d, n)
  {
    forall c, i | 0 <= c < |d.bufs| && 0 <= i < n
      ensures Distance(d, c) <= |d.bufs|
      ensures Hit(d.bufs[c].segs[i], 0 <= Position(d, n, c, i)) <==> (d.bufs[c].segs[i].full || d.bufs[c].segs[i].msgs != [])
    {
    }
  }

  /** And with the flag down. */
  lemma CollectingNothing(d: Driver, n: nat, k: nat)
    requires DriverOk(d, n) && k > |d.bufs| * n
    ensures NothingFor(d, n, k, |d.bufs|) <==> NoneFull(d, n)
  {
    forall c, i | 0 <= c < |d.bufs| && 0 <= i < n
      ensures Distance(d, c) <= |d.bufs|
      ensures Hit(d.bufs[c].segs[i], k <= Position(d, n, c, i)) <==> d.bufs[c].segs[i].full
    {
      PositionBelow(d, n, c, i);
    }
  }

  lemma PositionBelow(d: Driver, n: nat, c: nat, i: nat)
    requires DriverOk(d, n) && c < |d.bufs| && i < n
    ensures Position(d, n, c, i) < |d.bufs| * n
  {
    ProductBelow(Distance(d, c) - 1, |d.bufs|, n);
  }

  /** The answers together. */
  lemma Answered(d: Driver, n: nat, k: nat)
    requires DriverOk(d, n)
    ensures NothingFor(d, n, k, |d.bufs|) ==>
              && (FlipScan(d, n, k).1.NoData? <==> k > |d.bufs| * n)
              && Encode(FlipScan(d, n, k).1) == if k <= |d.bufs| * n then 0xffff_ffff else 0xffff_fffe
    ensures !NothingFor(d, n, k, |d.bufs|) <==> FlipScan(d, n, k).1.Data?
    ensures !NothingFor(d, n, k, |d.bufs|) && |d.bufs| < 0xffff && n <= 0x1_0000 ==>
              && NamesData(d, n, Encode(FlipScan(d, n, k).1))
              && FirstFor(d, n, k, Shr(Encode(FlipScan(d, n, k).1), 16), BitAnd(Encode(FlipScan(d, n, k).1), 0xffff))
    ensures k == 0 ==> (AllEmpty(d, n) <==> NothingFor(d, n, k, |d.bufs|))
    ensures k > |d.bufs| * n ==> (NoneFull(d, n) <==> NothingFor(d, n, k, |d.bufs|))
  {
    if NothingFor(d, n, k, |d.bufs|) {
      NothingAnswered(d, n, k);
    } else if |d.bufs| < 0xffff && n <= 0x1_0000 {
      DataAnswered(d, n, k);
    }
    FlipIsExact(d, n, k);
    DrainingNothing(d, n);
    if k > |d.bufs| * n {
      CollectingNothing(d, n, k);
    }
  }

  /** The producer's segment has no room for m. */
  predicate Crowded(b: Buffer, m: Msg)
    requires b.index < |b.segs|
  {
    Space(b.segs[b.index]) < |m|
  }

  /** The driver's buffers once a message has been offered on cpu c. */
  lemma ProducedOn(d: Driver, n: nat, c: nat, m: Msg) returns (r: Driver)
    requires DriverOk(d, n) && c < |d.bufs|
    ensures DriverOk(r, n) && r == d.(bufs := d.bufs[c := Produce(d.bufs[c], m)])
  {
    ProduceFits(d.bufs[c], m);
    r := d.(bufs := d.bufs[c := Produce(d.bufs[c], m)]);
  }

  /** `result` is what a search over `left` more buffers comes to. */
  ghost predicate Remains(result: (Driver, Answer), d: Driver, n: nat, k: nat, left: nat) {
    DriverOk(d, n) && result == FlipFrom(d, n, k, left)
  }

  class Output {
    const outputs: seq<OutputBuffer>
    const segments: nat
    var lastCpuRead: int
    ghost var model: Driver

    ghost predicate Valid()
      reads this, outputs, AllSegs(outputs), AllArrays(outputs)
    {
      && DriverOk(model, segments)
      && Row(outputs, model.bufs, segments)
      && lastCpuRead == model.lastCpu
    }

    constructor (outputs: seq<OutputBuffer>, segments: nat)
      requires outputs != [] && Separate(outputs) && segments > 0
      requires forall c :: 0 <= c < |outputs| ==> outputs[c].Valid() && |outputs[c].buffers| == segments
      ensures Valid() && this.outputs == outputs && lastCpuRead == -1
      ensures |model.bufs| == |outputs| && forall c :: 0 <= c < |outputs| ==> model.bufs[c] == outputs[c].model
    {
      this.outputs := outputs;
      this.segments := segments;
      lastCpuRead := -1;
      model := Driver(seq(|outputs|, c requires 0 <= c < |outputs| reads outputs => outputs[c].model), -1);
    }

    /** One message offered on a cpu. */
    method ProduceOnCpu(cpu: nat, header: Header, data: seq<bv8>, allowWakeup: bool, readerWaits: bool)
      returns (wakes: bool, didDrop: bool)
      requires Valid() && cpu < |outputs|
      modifies this`model, outputs[cpu], Segs(outputs[cpu].buffers), Arrays(outputs[cpu].buffers)
      ensures Valid()
      ensures model == old(model).(bufs := old(model.bufs)[cpu := Produce(old(model.bufs[cpu]), header + data)])
      ensures didDrop == (model.bufs[cpu].dropped > old(model.bufs[cpu].dropped))
      ensures wakes <==> Crowded(old(model.bufs[cpu]), header + data) && allowWakeup && readerWaits
    {
      ghost var next := ProducedOn(model, segments, cpu, header + data);
      wakes, didDrop := ProduceAt(outputs, cpu, header, data, allowWakeup, readerWaits, model.bufs, segments);
      model := next;
    }

    /** One step of the reader's search: the next buffer, all its segments. */
    method VisitBuffer(pending: nat) returns (r: Option<nat>)
      requires Valid()
      modifies this, outputs
      ensures Valid()
      ensures model == FlipVisit(old(model), pending)
      ensures r == FlipHit(old(model.bufs[Next(model.lastCpu, |model.bufs|)]), pending, 0)
    {
      FlipStep(model, segments, pending, 1);
      ghost var bufs := model.bufs;
      model := FlipVisit(model, pending);
      lastCpuRead := lastCpuRead + 1;
      if lastCpuRead >= |outputs| {
        lastCpuRead := 0;
      }
      r := ScanAt(outputs, lastCpuRead, pending, bufs, segments);
    }

    /** The same step, told in terms of the search over `left` buffers; `rest` is what then remains of `pending`. */
    method SearchStep(pending: nat, ghost left: nat, ghost result: (Driver, Answer))
      returns (r: Option<nat>, rest: nat, ghost after: nat)
      requires Valid() && left > 0 && Remains(result, model, segments, pending, left)
      modifies this, outputs
      ensures Valid()
      ensures r.Some? ==> model.lastCpu >= 0 && result == (model, Data(model.lastCpu, r.value))
      ensures after == left - 1 && (r.None? ==> Remains(result, model, segments, rest, after))
    {
      FlipStep(model, segments, pending, left);
      r := VisitBuffer(pending);
      rest := Less(pending, segments);
      after := left - 1;
    }

    /** The search over all buffers. */
    method FindData(pending: nat) returns (r: Answer)
      requires Valid()
      modifies this, outputs
      ensures Valid()
      ensures (model, r) == FlipScan(old(model), segments, pending)
    {
      ghost var result := FlipScan(model, segments, pending);
      ghost var left := |outputs|;
      var looks := pending;
      for visited := 0 to |outputs|
        invariant Valid() && left == |outputs| - visited
        invariant Remains(result, model, segments, looks, left)
      {
        var i;
        i, looks, left := SearchStep(looks, left, result);
        if i.Some? {
          return Data(lastCpuRead, i.value);
        }
      }
      return if looks == 0 then AllDone else NoData;
    }

    /**
      * The reader's search for data over all buffers; the mask names what it found. The flush flag, read at every
      * segment and once more at the end, is raised after `pending` looks: before the first if that is 0, not at all
      * during the search if there are fewer looks than that.
      */
    method AnySegFull(pending: nat) returns (found: bool, mask: nat)
      requires Valid()
      modifies this, outputs
      ensures Valid()
      ensures model == FlipScan(old(model), segments, pending).0
      ensures NothingFor(old(model), segments, pending, |outputs|) ==>
                if pending <= |outputs| * segments then found && mask == 0xffff_ffff else !found && mask == 0xffff_fffe
      ensures !NothingFor(old(model), segments, pending, |outputs|) ==> found
      ensures !NothingFor(old(model), segments, pending, |outputs|) && |outputs| < 0xffff && segments <= 0x1_0000 ==>
                && NamesData(old(model), segments, mask)
                && FirstFor(old(model), segments, pending, Shr(mask, 16), BitAnd(mask, 0xffff))
      ensures pending == 0 ==> (AllEmpty(old(model), segments) <==> NothingFor(old(model), segments, pending, |outputs|))
      ensures pending > |outputs| * segments ==>
                (NoneFull(old(model), segments) <==> NothingFor(old(model), segments, pending, |outputs|))
    {
      Answered(model, segments, pending);
      var r := FindData(pending);
      return !r.NoData?, Encode(r);
    }

    /**
      * The reader takes the segment a mask names; `failing` is how many bytes the copy to user memory cannot place,
      * which are lost. A wrong buffer size or segment number is refused, with the size as the count of bytes not
      * copied, and changes nothing.
      */
    method ConsumeData(mask: nat, bytesToRead: nat, failing: nat) returns (notCopied: nat, bytes: seq<bv8>)
      requires Valid() && Shr(mask, 16) < |outputs|
      requires BitAnd(mask, 0xffff) < segments ==> failing <= Written(model.bufs[Shr(mask, 16)].segs[BitAnd(mask, 0xffff)])
      modifies this`model, outputs[Shr(mask, 16)], Segs(outputs[Shr(mask, 16)].buffers)
      ensures Valid()
      ensures if bytesToRead != SEG_SIZE_BYTES || BitAnd(mask, 0xffff) >= segments then
                notCopied == bytesToRead && bytes == [] && model == old(model)
              else
                var held := Flatten(old(model.bufs[Shr(mask, 16)].segs[BitAnd(mask, 0xffff)].msgs));
                && notCopied == failing
                && model == Consume(old(model), segments, Shr(mask, 16), BitAnd(mask, 0xffff))
                && bytes == held[..|held| - failing]
    {
      if bytesToRead != SEG_SIZE_BYTES {
        return bytesToRead, [];
      }
      var whichCpu, whichSeg := Shr(mask, 16), BitAnd(mask, 0xffff);
      if whichSeg >= segments {
        return bytesToRead, [];
      }
      bytes := TakeAt(outputs, whichCpu, whichSeg, model.bufs, segments);
      bytes := bytes[..|bytes| - failing];
      model := Consume(model, segments, whichCpu, whichSeg);
      notCopied := failing;
    }
  }
}
