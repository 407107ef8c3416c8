/** The memory of one cpu's output buffers and what it means for it to hold specified records. */
module OutputStore {
  import opened Records
  import opened OutputSpec

  ghost predicate Distinct(buffers: seq<array<bv8>>) {
    forall i, j :: 0 <= i < j < |buffers| ==> buffers[i] != buffers[j]
  }

  ghost function Arrays(buffers: seq<array<bv8>>): set<array<bv8>> { set b | b in buffers }

  /** Buffer j starts with the bytes of its records. */
  ghost predicate Holds(buffers: seq<array<bv8>>, slots: seq<Slot>, total: nat)
    reads Arrays(buffers)
  {
    && Distinct(buffers)
    && |slots| == |buffers|
    && forall j :: 0 <= j < |buffers| ==> HoldsRecords(buffers[j], slots[j].recs, total)
  }

  ghost predicate HoldsRecords(b: array<bv8>, recs: seq<Msg>, total: nat)
    reads b
  {
    b.Length == total && Size(recs) <= total && b[..Size(recs)] == Flatten(recs)
  }

  /** The counts are kept apart from the buffers. */
  ghost predicate CountsApart(buffers: seq<array<bv8>>, full: array<nat>) {
    forall j :: 0 <= j < |buffers| ==> (buffers[j] as object) != full
  }

  /** The byte counts that tell the reader what is ready. */
  ghost predicate Counts(full: array<nat>, slots: seq<Slot>)
    reads full
  {
    && full.Length == |slots|
    && forall j :: 0 <= j < |slots| ==> slots[j].ready <= |slots[j].recs| && full[j] == Size(ReadyOf(slots[j]))
  }

  /** Marking changes nothing in the buffers. */
  lemma MarkingHolds(buffers: seq<array<bv8>>, slots: seq<Slot>, total: nat, j: nat, ready: nat)
    requires Holds(buffers, slots, total) && j < |slots|
    ensures Holds(buffers, slots[j := slots[j].(ready := ready)], total)
  {
    ghost var other := slots[j := slots[j].(ready := ready)];
    forall k | 0 <= k < |buffers| ensures HoldsRecords(buffers[k], other[k].recs, total) {
      assert HoldsRecords(buffers[k], slots[k].recs, total);
    }
  }

  /** New records leave the marked ones, and so the counts, alone. */
  lemma AddingCounts(full: array<nat>, slots: seq<Slot>, j: nat, m: Msg)
    requires Counts(full, slots) && j < |slots|
    ensures Counts(full, slots[j := slots[j].(recs := slots[j].recs + [m])])
    ensures slots[j].ready == 0 ==> Counts(full, slots[j := Slot([m], 0)])
  {
    assert (slots[j].recs + [m])[..slots[j].ready] == ReadyOf(slots[j]);
    assert [m][..0] == slots[j].recs[..0] == [];
  }

  method SetCount(full: array<nat>, j: nat, n: nat, ghost slots: seq<Slot>, ghost ready: nat)
    requires Counts(full, slots) && j < |slots| && ready <= |slots[j].recs| && n == Size(slots[j].recs[..ready])
    modifies full
    ensures Counts(full, slots[j := slots[j].(ready := ready)])
  {
    full[j] := n;
  }

  method WriteBytes(b: array<bv8>, at: nat, src: seq<bv8>)
    requires at + |src| <= b.Length
    modifies b
    ensures b[..at] == old(b[..at]) && b[at..at + |src|] == src
  {
    for i := 0 to |src|
      invariant forall k :: 0 <= k < at ==> b[k] == old(b[k])
      invariant forall k :: 0 <= k < i ==> b[at + k] == src[k]
    {
      b[at + i] := src[i];
    }
  }

  method AddRecord(buffers: seq<array<bv8>>, j: nat, ghost recs: seq<Msg>, data: Msg, at: nat, ghost slots: seq<Slot>, total: nat)
    requires Holds(buffers, slots, total) && j < |buffers|
    requires recs <= slots[j].recs && at == Size(recs) && at + |data| <= total
    modifies buffers[j]
    ensures Holds(buffers, slots[j := slots[j].(recs := recs + [data])], total)
  {
    var b := buffers[j];
    assert HoldsRecords(b, slots[j].recs, total);
    PrefixBytes(slots[j].recs, recs);
    assert b[..at] == b[..Size(slots[j].recs)][..at];
    WriteBytes(b, at, data);
    FlattenAppend(recs, data);
    assert b[..at + |data|] == b[..at] + b[at..at + |data|];
    assert HoldsRecords(b, recs + [data], total);
    assert forall k :: 0 <= k < |buffers| && k != j ==> HoldsRecords(buffers[k], slots[k].recs, total);
  }

  lemma PrefixBytes(recs: seq<Msg>, part: seq<Msg>)
    requires part <= recs
    ensures Size(part) <= Size(recs) && Flatten(recs)[..Size(part)] == Flatten(part)
  {
    var rest := recs[|part|..];
    assert recs == part + rest;
    FlattenConcat(part, rest);
  }

  /** A byte count is zero exactly when nothing is ready. */
  lemma NothingReady(full: array<nat>, slots: seq<Slot>, j: nat)
    requires Counts(full, slots) && j < |slots|
    ensures full[j] == 0 <==> slots[j].ready == 0
  {
    FlattenEmpty(ReadyOf(slots[j]));
  }
}
