/** Messages and records as byte strings, and collections of them. */
module Records {

  datatype Option<T> = None | Some(value: T)

  type Msg = m: seq<bv8> | m != [] witness [0]

  ghost predicate DistinctMsgs(msgs: seq<Msg>) { forall j, k :: 0 <= j < k < |msgs| ==> msgs[j] != msgs[k] }

  function Flatten(msgs: seq<Msg>): seq<bv8> {
    if msgs == [] then [] else Flatten(msgs[..|msgs| - 1]) + msgs[|msgs| - 1]
  }

  lemma FlattenAppend(msgs: seq<Msg>, m: Msg)
    ensures Flatten(msgs + [m]) == Flatten(msgs) + m
  {
    assert (msgs + [m])[..|msgs|] == msgs;
  }

  lemma {:induction false} FlattenConcat(a: seq<Msg>, b: seq<Msg>)
    ensures Flatten(a + b) == Flatten(a) + Flatten(b)
  {
    if b == [] {
      assert a + b == a;
    } else {
      var c := b[..|b| - 1];
      assert a + b == (a + c) + [b[|b| - 1]];
      FlattenAppend(a + c, b[|b| - 1]);
      FlattenConcat(a, c);
    }
  }

  lemma {:induction false} FlattenEmpty(msgs: seq<Msg>)
    ensures Flatten(msgs) == [] <==> msgs == []
  {
    if msgs != [] {
      assert |Flatten(msgs)| >= |msgs[|msgs| - 1]| > 0;
    }
  }

  /** The bytes of a run of messages. */
  function Size(msgs: seq<Msg>): nat { |Flatten(msgs)| }

  /** All messages in rows i and on. */
  function Bag(rows: seq<seq<Msg>>, i: nat): multiset<Msg>
    requires i <= |rows|
    decreases |rows| - i
  {
    if i == |rows| then multiset{} else multiset(rows[i]) + Bag(rows, i + 1)
  }

  lemma {:induction false} BagEmpty(rows: seq<seq<Msg>>, i: nat)
    requires i <= |rows| && forall k :: i <= k < |rows| ==> rows[k] == []
    ensures Bag(rows, i) == multiset{}
    decreases |rows| - i
  {
    if i < |rows| {
      BagEmpty(rows, i + 1);
    }
  }

  lemma {:induction false} BagUpdateFrom(rows: seq<seq<Msg>>, i: nat, j: nat, row: seq<Msg>)
    requires i <= |rows| && j < |rows|
    ensures Bag(rows[j := row], i) + (if j < i then multiset{} else multiset(rows[j]))
         == Bag(rows, i) + (if j < i then multiset{} else multiset(row))
    decreases |rows| - i
  {
    if i < |rows| {
      BagUpdateFrom(rows, i + 1, j, row);
      var t := rows[j := row];
      var a, b, x, y := Bag(t, i + 1), Bag(rows, i + 1), multiset(rows[i]), multiset(t[i]);
      if i == j {
        assert a + multiset{} == a && b + multiset{} == b;
        assert (y + a) + x == (x + b) + y;
      } else if j > i {
        assert x == y;
        assert (x + a) + multiset(rows[j]) == x + (a + multiset(rows[j]));
        assert (x + b) + multiset(row) == x + (b + multiset(row));
      } else {
        assert x == y && a + multiset{} == a && b + multiset{} == b;
        assert a == b;
      }
    }
  }

  lemma BagAppend(rows: seq<seq<Msg>>, j: nat, m: Msg)
    requires j < |rows|
    ensures Bag(rows[j := rows[j] + [m]], 0) == Bag(rows, 0) + multiset{m}
  {
    BagUpdateFrom(rows, 0, j, rows[j] + [m]);
    var a, b, x := Bag(rows[j := rows[j] + [m]], 0), Bag(rows, 0), multiset(rows[j]);
    assert multiset(rows[j] + [m]) == x + multiset{m};
    assert (a + x) - x == a && (b + (x + multiset{m})) - x == b + multiset{m};
  }

  lemma BagRemove(rows: seq<seq<Msg>>, j: nat)
    requires j < |rows|
    ensures Bag(rows[j := []], 0) + multiset(rows[j]) == Bag(rows, 0)
  {
    BagUpdateFrom(rows, 0, j, []);
    assert Bag(rows, 0) + multiset{} == Bag(rows, 0);
  }
}
