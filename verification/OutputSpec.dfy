/** The sampling driver's output buffers of one cpu: reserve, read and flush over a small ring of buffers. */
module OutputSpec {
  import opened Records

  /** One buffer: the records written since it became the current one, and how many of them are marked to be read. */
  datatype Slot = Slot(recs: seq<Msg>, ready: nat)

  datatype Out = Out(slots: seq<Slot>, current: nat)

  ghost predicate OutOk(o: Out, total: nat) {
    && o.current < |o.slots|
    && forall j :: 0 <= j < |o.slots| ==> o.slots[j].ready <= |o.slots[j].recs| && Size(o.slots[j].recs) <= total
  }

  /** The buffer i steps after the current one. */
  function After(o: Out, i: nat): (j: nat)
    requires o.current < |o.slots| && i <= |o.slots|
    ensures j < |o.slots|
  {
    if o.current + i >= |o.slots| then o.current + i - |o.slots| else o.current + i
  }

  /** The search for a buffer that is not waiting to be read; it does not stop at a hit, so the last one wins. */
  function Target(o: Out, i: nat, found: Option<nat>): (r: Option<nat>)
    requires o.current < |o.slots| && 1 <= i <= |o.slots|
    requires found.Some? ==> found.value < |o.slots| && found.value != o.current && o.slots[found.value].ready == 0
    ensures r.Some? ==> r.value < |o.slots| && r.value != o.current && o.slots[r.value].ready == 0
    ensures found.Some? ==> r.Some?
    decreases |o.slots| - i
  {
    if i == |o.slots| then found
    else Target(o, i + 1, if o.slots[After(o, i)].ready == 0 then Some(After(o, i)) else found)
  }

  lemma {:induction false} TargetComplete(o: Out, i: nat, found: Option<nat>, j: nat)
    requires o.current < |o.slots| && 1 <= i <= |o.slots|
    requires found.Some? ==> found.value < |o.slots| && found.value != o.current && o.slots[found.value].ready == 0
    requires j < |o.slots| && o.slots[j].ready == 0
    requires exists k :: i <= k < |o.slots| && After(o, k) == j
    ensures Target(o, i, found).Some?
    decreases |o.slots| - i
  {
    if After(o, i) != j {
      TargetComplete(o, i + 1, if o.slots[After(o, i)].ready == 0 then Some(After(o, i)) else found, j);
    }
  }

  /** The search for a read buffer takes the one farthest round the ring. */
  lemma {:induction false} TargetIsLast(o: Out, i: nat, found: Option<nat>)
    requires o.current < |o.slots| && 1 <= i <= |o.slots|
    requires found.Some? ==> found.value < |o.slots| && found.value != o.current && o.slots[found.value].ready == 0
    ensures var r := Target(o, i, found);
            || (r == found && forall k :: i <= k < |o.slots| ==> o.slots[After(o, k)].ready > 0)
            || exists h :: i <= h < |o.slots| && r == Some(After(o, h)) && o.slots[After(o, h)].ready == 0
                           && forall k :: h < k < |o.slots| ==> o.slots[After(o, k)].ready > 0
    decreases |o.slots| - i
  {
    if i < |o.slots| {
      TargetIsLast(o, i + 1, if o.slots[After(o, i)].ready == 0 then Some(After(o, i)) else found);
    }
  }

  function Marked(o: Out): (r: Out)
    requires o.current < |o.slots|
  {
    o.(slots := o.slots[o.current := o.slots[o.current].(ready := |o.slots[o.current].recs|)])
  }

  /** Reserves room for a record and writes it. On refusal the current buffer has still been marked. */
  function Put(o: Out, total: nat, m: Msg): (r: (Out, bool))
    requires OutOk(o, total)
  {
    var s := o.slots[o.current];
    if total - Size(s.recs) >= |m| then
      (o.(slots := o.slots[o.current := s.(recs := s.recs + [m])]), true)
    else
      match Target(Marked(o), 1, None)
      case None => (Marked(o), false)
      case Some(j) => (Out(Marked(o).slots[j := Slot([m], 0)], j), true)
  }

  lemma PutOk(o: Out, total: nat, m: Msg)
    requires OutOk(o, total) && |m| <= total
    ensures OutOk(Put(o, total, m).0, total) && |Put(o, total, m).0.slots| == |o.slots|
  {
    FlattenAppend(o.slots[o.current].recs, m);
    FlattenAppend([], m);
    assert [] + [m] == [m];
  }

  lemma TargetExists(o: Out, j: nat)
    requires o.current < |o.slots| && j < |o.slots| && j != o.current && o.slots[j].ready == 0
    ensures Target(o, 1, None).Some?
  {
    assert After(o, if j > o.current then j - o.current else j - o.current + |o.slots|) == j;
    TargetComplete(o, 1, None, j);
  }

  /** A record is refused exactly when it does not fit beside the current records and every other buffer waits to be read. */
  lemma PutRefuses(o: Out, total: nat, m: Msg)
    requires OutOk(o, total)
    ensures Put(o, total, m).1 <==>
            || Size(o.slots[o.current].recs) + |m| <= total
            || exists j :: 0 <= j < |o.slots| && j != o.current && o.slots[j].ready == 0
  {
    if j :| 0 <= j < |o.slots| && j != o.current && o.slots[j].ready == 0 {
      TargetExists(Marked(o), j);
    }
    var r := Target(Marked(o), 1, None);
    if r.Some? {
      assert o.slots[r.value].ready == 0;
    }
  }

  /** The reader's choice: the first buffer after the current one with data, else the current one itself. */
  function Pick(o: Out, i: nat): (j: nat)
    requires o.current < |o.slots| && 1 <= i <= |o.slots|
    ensures j < |o.slots|
    decreases |o.slots| - i
  {
    if i == |o.slots| || o.slots[After(o, i)].ready > 0 then After(o, i) else Pick(o, i + 1)
  }

  lemma PickStep(o: Out, i: nat)
    requires o.current < |o.slots| && 1 <= i <= |o.slots|
    ensures Pick(o, i) == if i == |o.slots| || o.slots[After(o, i)].ready > 0 then After(o, i) else Pick(o, i + 1)
    ensures After(o, i) == if After(o, i - 1) + 1 >= |o.slots| then 0 else After(o, i - 1) + 1
    ensures After(o, 0) == o.current
  {}

  lemma {:induction false} PickFinds(o: Out, i: nat, j: nat)
    requires o.current < |o.slots| && 1 <= i <= |o.slots|
    requires j < |o.slots| && o.slots[j].ready > 0
    requires exists k :: i <= k <= |o.slots| && After(o, k) == j
    ensures o.slots[Pick(o, i)].ready > 0
    decreases |o.slots| - i
  {
    if i < |o.slots| && o.slots[After(o, i)].ready == 0 {
      PickFinds(o, i + 1, j);
    }
  }

  /** Nothing is ready at the reader's choice only when nothing is ready anywhere, and then it waits on the current buffer. */
  lemma PickIsExact(o: Out)
    requires o.current < |o.slots|
    ensures o.slots[Pick(o, 1)].ready == 0 <==> forall j :: 0 <= j < |o.slots| ==> o.slots[j].ready == 0
    ensures o.slots[Pick(o, 1)].ready == 0 ==> Pick(o, 1) == o.current
  {
    PickWaits(o, 1);
    if j :| 0 <= j < |o.slots| && o.slots[j].ready > 0 {
      var k := if j > o.current then j - o.current else j - o.current + |o.slots|;
      assert After(o, k) == j;
      PickFinds(o, 1, j);
    }
  }

  /** The reader takes the first buffer after the current one that is ready. */
  lemma {:induction false} PickIsFirst(o: Out, i: nat)
    requires o.current < |o.slots| && 1 <= i <= |o.slots|
    ensures exists h :: i <= h <= |o.slots| && Pick(o, i) == After(o, h) && (h == |o.slots| || o.slots[After(o, h)].ready > 0)
                        && forall k :: i <= k < h ==> o.slots[After(o, k)].ready == 0
    decreases |o.slots| - i
  {
    if i < |o.slots| && o.slots[After(o, i)].ready == 0 {
      PickIsFirst(o, i + 1);
    } else {
      assert Pick(o, i) == After(o, i);
    }
  }

  lemma {:induction false} PickWaits(o: Out, i: nat)
    requires o.current < |o.slots| && 1 <= i <= |o.slots|
    ensures o.slots[Pick(o, i)].ready == 0 ==> Pick(o, i) == o.current
    decreases |o.slots| - i
  {
    if i < |o.slots| && o.slots[After(o, i)].ready == 0 {
      PickWaits(o, i + 1);
    }
  }

  /** The reader chooses the current buffer only when no other has data. */
  lemma {:induction false} PickCurrentLast(o: Out, i: nat)
    requires o.current < |o.slots| && 1 <= i <= |o.slots| && Pick(o, i) == o.current
    ensures forall k :: i <= k < |o.slots| ==> o.slots[After(o, k)].ready == 0
    decreases |o.slots| - i
  {
    if i < |o.slots| {
      PickCurrentLast(o, i + 1);
    }
  }

  lemma PickPrefersOthers(o: Out)
    requires o.current < |o.slots| && Pick(o, 1) == o.current
    ensures OthersRead(o, o.current)
  {
    PickCurrentLast(o, 1);
    forall j | 0 <= j < |o.slots| && j != o.current ensures o.slots[j].ready == 0 {
      assert After(o, if j > o.current then j - o.current else j - o.current + |o.slots|) == j;
    }
  }

  ghost predicate OthersRead(o: Out, j: nat) {
    forall i :: 0 <= i < |o.slots| && i != j ==> o.slots[i].ready == 0
  }

  function ReadyOf(s: Slot): seq<Msg>
    requires s.ready <= |s.recs|
  {
    s.recs[..s.ready]
  }

  /** What a read of buffer j delivers, and the state it leaves. */
  function Take(o: Out, j: nat): (r: (Out, seq<Msg>))
    requires j < |o.slots| && o.slots[j].ready <= |o.slots[j].recs|
  {
    (o.(slots := o.slots[j := o.slots[j].(ready := 0)]), ReadyOf(o.slots[j]))
  }

  // ----- Exactly once -----

  /** A buffer the producer has left, or any once the flush has been made, is read or wholly marked. */
  ghost predicate Good(o: Out, total: nat, flushed: bool) {
    && OutOk(o, total)
    && forall j :: 0 <= j < |o.slots| && (flushed || j != o.current) ==>
         o.slots[j].ready == 0 || o.slots[j].ready == |o.slots[j].recs|
  }

  /** The records of buffer j that the reader has still to be given. */
  function Unread(o: Out, flushed: bool, j: nat): seq<Msg>
    requires j < |o.slots| && o.slots[j].ready <= |o.slots[j].recs|
  {
    if j == o.current && !flushed then o.slots[j].recs else ReadyOf(o.slots[j])
  }

  ghost function AllUnread(o: Out, flushed: bool): (r: seq<seq<Msg>>)
    requires forall j :: 0 <= j < |o.slots| ==> o.slots[j].ready <= |o.slots[j].recs|
    ensures |r| == |o.slots| && forall j :: 0 <= j < |o.slots| ==> r[j] == Unread(o, flushed, j)
  {
    seq(|o.slots|, j requires 0 <= j < |o.slots| => Unread(o, flushed, j))
  }

  lemma MarkKeepsUnread(o: Out, total: nat)
    requires Good(o, total, false)
    ensures Good(Marked(o), total, true) && AllUnread(Marked(o), true) == AllUnread(o, false)
  {
    assert ReadyOf(Marked(o).slots[o.current]) == o.slots[o.current].recs;
  }

  lemma PutStays(o: Out, total: nat, m: Msg)
    requires Good(o, total, false) && Size(o.slots[o.current].recs) + |m| <= total
    ensures var r := Put(o, total, m).0;
            && Good(r, total, false)
            && AllUnread(r, false) == AllUnread(o, false)[r.current := AllUnread(o, false)[r.current] + [m]]
  {
    FlattenAppend(o.slots[o.current].recs, m);
    var r := Put(o, total, m).0;
    var before, after := AllUnread(o, false), AllUnread(r, false);
    forall k | 0 <= k < |r.slots| ensures after[k] == before[r.current := before[r.current] + [m]][k] {
      assert k != o.current ==> r.slots[k] == o.slots[k];
    }
  }

  lemma PutMoves(o: Out, total: nat, m: Msg)
    requires Good(o, total, false) && Size(o.slots[o.current].recs) + |m| > total >= |m| && Put(o, total, m).1
    ensures var r := Put(o, total, m).0;
            && Good(r, total, false) && |r.slots| == |o.slots| && r.current != o.current
            && AllUnread(o, false)[r.current] == []
            && AllUnread(r, false) == AllUnread(o, false)[r.current := [m]]
  {
    PutOk(o, total, m);
    MarkKeepsUnread(o, total);
    var j := Target(Marked(o), 1, None).value;
    var r := Out(Marked(o).slots[j := Slot([m], 0)], j);
    assert Put(o, total, m).0 == r;
    var before, after := AllUnread(Marked(o), true), AllUnread(r, false);
    forall k | 0 <= k < |r.slots| ensures after[k] == before[j := [m]][k] {
      assert k != j ==> r.slots[k] == Marked(o).slots[k];
    }
  }

  /** A record that is not refused joins the unread ones; no unread record is disturbed. */
  lemma PutAddsOne(o: Out, total: nat, m: Msg)
    requires Good(o, total, false) && |m| <= total && Put(o, total, m).1
    ensures var r := Put(o, total, m).0;
            && Good(r, total, false) && |r.slots| == |o.slots|
            && AllUnread(r, false) == AllUnread(o, false)[r.current := AllUnread(o, false)[r.current] + [m]]
            && (r.current != o.current ==> AllUnread(o, false)[r.current] == [])
  {
    if Size(o.slots[o.current].recs) + |m| <= total {
      PutStays(o, total, m);
    } else {
      PutMoves(o, total, m);
      assert [] + [m] == [m];
    }
  }

  /** Reading a marked buffer takes exactly its unread records. */
  lemma TakeRemoves(o: Out, total: nat, flushed: bool, j: nat)
    requires Good(o, total, flushed) && j < |o.slots| && (flushed || j != o.current)
    ensures Good(Take(o, j).0, total, flushed)
    ensures AllUnread(Take(o, j).0, flushed) == AllUnread(o, flushed)[j := []]
    ensures Take(o, j).1 == AllUnread(o, flushed)[j]
  {}

  /** How an accepted record changes what is marked: not at all, or it marks the buffer it leaves and enters a read one. */
  lemma PutMarks(o: Out, total: nat, m: Msg)
    requires Good(o, total, false) && |m| <= total && Put(o, total, m).1
    ensures var r := Put(o, total, m).0;
            && |r.slots| == |o.slots| && r.current < |r.slots| && o.current < |r.slots|
            && if r.current == o.current then forall j :: 0 <= j < |o.slots| ==> r.slots[j].ready == o.slots[j].ready
               else
                 && o.slots[r.current].ready == 0 && r.slots[r.current].ready == 0 && r.slots[o.current].ready > 0
                 && forall j :: 0 <= j < |o.slots| && j != o.current ==> r.slots[j].ready == o.slots[j].ready
  {
    PutOk(o, total, m);
    var s := o.slots[o.current];
    if total - Size(s.recs) < |m| {
      FlattenEmpty(s.recs);
    }
  }

  /** A refused record marks the current buffer and changes nothing else. */
  lemma RefusalMarks(o: Out, total: nat, m: Msg)
    requires Good(o, total, false) && |m| <= total && !Put(o, total, m).1
    ensures var r := Put(o, total, m).0;
            && Good(r, total, false) && r.current == o.current && |r.slots| == |o.slots|
            && AllUnread(r, false) == AllUnread(o, false)
            && r.slots[r.current].ready == |o.slots[o.current].recs| == |r.slots[r.current].recs| > 0
            && forall j :: 0 <= j < |o.slots| && j != o.current ==> r.slots[j] == o.slots[j]
  {
    FlattenEmpty(o.slots[o.current].recs);
  }

  /** A reservation stays inside its buffer exactly when the record fits an empty one or every other buffer waits to be read. */
  lemma StaysInsideExactly(o: Out, total: nat, m: Msg)
    requires OutOk(o, total)
    ensures OutOk(Put(o, total, m).0, total) <==>
            |m| <= total || forall j :: 0 <= j < |o.slots| && j != o.current ==> o.slots[j].ready > 0
  {
    PutRefuses(o, total, m);
    if |m| <= total {
      PutOk(o, total, m);
    } else if Put(o, total, m).1 {
      var r := Put(o, total, m).0;
      FlattenAppend([], m);
      assert [] + [m] == [m];
      assert Size(r.slots[r.current].recs) == |m|;
    }
  }
}
