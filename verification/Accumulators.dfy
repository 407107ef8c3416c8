/**
  * Running counts built from counters that wrap: the uncore accumulators and the GMCH overflow counts. Both add the
  * counter's all-ones mask for a wrap, where the counter's range, one more, would be right.
  */
module Accumulators {
  import opened Bits

  const U64: nat := 0x1_0000_0000_0000_0000

  /** What one sample adds: the code compensates a wrap with the all-ones mask, not with the mask plus one. */
  function Diff(prev: nat, cur: nat, mask: nat): int {
    if cur < prev then mask - prev + cur else cur - prev
  }

  predicate Within(first: nat, samples: seq<nat>, mask: nat) {
    first <= mask && forall i :: 0 <= i < |samples| ==> samples[i] <= mask
  }

  /** The value the next sample is compared with. */
  function Latest(first: nat, samples: seq<nat>): nat {
    if samples == [] then first else samples[|samples| - 1]
  }

  function Acc(first: nat, samples: seq<nat>, mask: nat): int {
    if samples == [] then 0
    else
      var before := samples[..|samples| - 1];
      Acc(first, before, mask) + Diff(Latest(first, before), Latest(first, samples), mask)
  }

  /** Samples smaller than the one before. */
  function Wraps(first: nat, samples: seq<nat>): nat {
    if samples == [] then 0
    else
      var before := samples[..|samples| - 1];
      Wraps(first, before) + if Latest(first, samples) < Latest(first, before) then 1 else 0
  }

  lemma OneMore(first: nat, h: seq<nat>, v: nat, mask: nat)
    ensures Acc(first, h + [v], mask) == Acc(first, h, mask) + Diff(Latest(first, h), v, mask)
    ensures Wraps(first, h + [v]) == Wraps(first, h) + if v < Latest(first, h) then 1 else 0
    ensures Latest(first, h + [v]) == v
    ensures Within(first, h, mask) && v <= mask ==> Within(first, h + [v], mask)
  {
    assert (h + [v])[..|h|] == h;
  }

  /** The accumulator telescopes: last value less first value, plus a mask for every wrap. */
  lemma {:induction false} Telescopes(first: nat, samples: seq<nat>, mask: nat)
    ensures Acc(first, samples, mask) == Latest(first, samples) - first + Wraps(first, samples) * mask
  {
    if samples != [] {
      var before := samples[..|samples| - 1];
      Telescopes(first, before, mask);
      assert (Wraps(first, before) + 1) * mask == Wraps(first, before) * mask + mask;
    }
  }

  /** It never decreases. */
  lemma {:induction false} NeverDecreases(first: nat, samples: seq<nat>, mask: nat, k: nat)
    requires Within(first, samples, mask) && k <= |samples|
    ensures Acc(first, samples[..k], mask) <= Acc(first, samples, mask)
    decreases |samples| - k
  {
    if k < |samples| {
      NeverDecreases(first, samples[..|samples| - 1], mask, k);
      assert samples[..|samples| - 1][..k] == samples[..k];
    } else {
      assert samples[..k] == samples;
    }
  }

  /** The GMCH form: the value read plus the mask for every wrap seen so far. */
  function Running(first: nat, samples: seq<nat>, mask: nat): nat {
    WithWraps(Latest(first, samples), Wraps(first, samples), mask)
  }

  function WithWraps(value: nat, wraps: nat, mask: nat): nat { value + wraps * mask }

  /** Started from zero, both forms report the same count. */
  lemma FormsAgree(samples: seq<nat>, mask: nat)
    ensures Acc(0, samples, mask) == Running(0, samples, mask)
  {
    Telescopes(0, samples, mask);
  }

  // ----- Against the true count -----

  /** True event totals at each sample, never falling and less than a full counter range apart. */
  ghost predicate Steady(start: nat, totals: seq<nat>, mask: nat) {
    forall i :: 0 <= i < |totals| ==>
      Latest(start, totals[..i]) <= totals[i] <= Latest(start, totals[..i]) + mask
  }

  /** What a counter of this mask shows of the totals. */
  function Shown(totals: seq<nat>, mask: nat): (r: seq<nat>)
    ensures |r| == |totals| && forall i :: 0 <= i < |totals| ==> r[i] == totals[i] % (mask + 1)
  {
    seq(|totals|, i requires 0 <= i < |totals| => totals[i] % (mask + 1))
  }

  /** Over less than a range, the counter wraps at most once, and then shows a smaller value. */
  lemma OneWrap(a: nat, b: nat, n: nat)
    requires n > 0 && a <= b < a + n
    ensures b / n - a / n == if b % n < a % n then 1 else 0
  {
    var q, r := a / n, a % n;
    var s := r + (b - a);
    assert a == q * n + r;
    if s < n {
      Remainder(b, n, q, s);
    } else {
      assert b == (q + 1) * n + (s - n);
      Remainder(b, n, q + 1, s - n);
    }
  }

  lemma ShownWithin(start: nat, totals: seq<nat>, mask: nat)
    ensures Within(start % (mask + 1), Shown(totals, mask), mask)
    ensures Latest(start % (mask + 1), Shown(totals, mask)) == Latest(start, totals) % (mask + 1)
  {}

  lemma SteadyPrefix(start: nat, totals: seq<nat>, mask: nat)
    requires Steady(start, totals, mask) && totals != []
    ensures var before := totals[..|totals| - 1];
            && Steady(start, before, mask) && Shown(totals, mask)[..|totals| - 1] == Shown(before, mask)
            && Latest(start, before) <= Latest(start, totals) <= Latest(start, before) + mask
  {
    var before := totals[..|totals| - 1];
    assert forall i :: 0 <= i < |before| ==> before[..i] == totals[..i];
  }

  lemma {:induction false} WrapsCounted(start: nat, totals: seq<nat>, mask: nat)
    requires Steady(start, totals, mask)
    ensures Wraps(start % (mask + 1), Shown(totals, mask)) == Latest(start, totals) / (mask + 1) - start / (mask + 1)
  {
    if totals != [] {
      var before := totals[..|totals| - 1];
      SteadyPrefix(start, totals, mask);
      WrapsCounted(start, before, mask);
      ShownWithin(start, totals, mask);
      ShownWithin(start, before, mask);
      OneWrap(Latest(start, before), Latest(start, totals), mask + 1);
    }
  }

  /** The accumulator falls short of the true count by exactly one for every wrap, so it is exact just when none occurs. */
  lemma ShortByWraps(start: nat, totals: seq<nat>, mask: nat)
    requires Steady(start, totals, mask)
    ensures var first, samples := start % (mask + 1), Shown(totals, mask);
            && Within(first, samples, mask)
            && Acc(first, samples, mask) == Latest(start, totals) - start - Wraps(first, samples)
            && (Acc(first, samples, mask) == Latest(start, totals) - start <==>
                Latest(start, totals) / (mask + 1) == start / (mask + 1))
  {
    var n := mask + 1;
    var first, samples := start % n, Shown(totals, mask);
    WrapsCounted(start, totals, mask);
    ShownWithin(start, totals, mask);
    Telescopes(first, samples, mask);
    var last := Latest(start, totals);
    Shortfall(last, start, n, Wraps(first, samples));
  }

  lemma Shortfall(last: nat, start: nat, n: nat, w: nat)
    requires n > 0 && w == last / n - start / n
    ensures last % n - start % n + w * (n - 1) == last - start - w
  {
    assert last == last / n * n + last % n && start == start / n * n + start % n;
    assert (last / n - start / n) * n == last / n * n - start / n * n;
    assert w * (n - 1) == w * n - w;
  }

  // ----- The updates in place -----

  /** One thread's accumulator and previous values for one uncore device; entry 0 is the group number. */
  class UncoreResults {
    const acc: array<nat>
    const prev: array<nat>
    const mask: nat
    ghost var history: seq<seq<nat>>

    ghost predicate Valid()
      reads this, acc, prev
    {
      && acc != prev && acc.Length == prev.Length == |history|
      && mask < U64
      && forall e :: 0 < e < |history| ==> Entry(e)
    }

    ghost predicate Entry(e: nat)
      requires e < acc.Length && e < prev.Length && e < |history|
      reads this, acc, prev
    {
      && Within(0, history[e], mask)
      && prev[e] == Latest(0, history[e])
      && acc[e] == Acc(0, history[e], mask) % U64
    }

    constructor (numEvents: nat, mask: nat)
      requires mask < U64
      ensures Valid() && this.mask == mask && fresh(acc) && fresh(prev)
      ensures history == seq(numEvents + 1, i => [])
    {
      var a := new nat[numEvents + 1];
      var p := new nat[numEvents + 1];
      for j := 0 to numEvents + 1
        invariant forall k :: 0 <= k < j ==> a[k] == 0 && p[k] == 0
      {
        a[j] := 0;
        p[j] := 0;
      }
      acc := a;
      prev := p;
      this.mask := mask;
      history := seq(numEvents + 1, i => []);
    }

    /** Folds one event's result in; the result becomes the running count. */
    method AccumulateOne(results: array<nat>, e: nat)
      requires Valid() && 0 < e < |history| && results.Length == |history| && results != acc && results != prev
      requires results[e] <= mask
      modifies this`history, acc, prev, results
      ensures Valid()
      ensures history == old(history)[e := old(history[e]) + [old(results[e])]]
      ensures results[e] == Acc(0, history[e], mask) % U64
      ensures forall k :: 0 <= k < results.Length && k != e ==> results[k] == old(results[k])
    {
      assert Entry(e);
      var diff;
      if results[e] < prev[e] {
        diff := mask - prev[e];
        diff := (diff + results[e]) % U64;
      } else {
        diff := results[e] - prev[e];
      }
      ghost var h := history[e] + [results[e]];
      OneMore(0, history[e], results[e], mask);
      assert diff == Diff(prev[e], results[e], mask) % U64;
      AddModulo(Acc(0, history[e], mask), Diff(prev[e], results[e], mask));
      acc[e] := (acc[e] + diff) % U64;
      prev[e] := results[e];
      results[e] := acc[e];
      history := history[e := h];
      assert Entry(e);
      forall k | 0 < k < |history| && k != e ensures Entry(k) {
        assert old(Entry(k));
        assert history[k] == old(history[k]) && prev[k] == old(prev[k]) && acc[k] == old(acc[k]);
      }
    }

    /** One sample of every event of the device. */
    method Accumulate(results: array<nat>)
      requires Valid() && results.Length == |history| > 0 && results != acc && results != prev
      requires forall e :: 0 < e < results.Length ==> results[e] <= mask
      modifies this`history, acc, prev, results
      ensures Valid() && |history| == |old(history)|
      ensures results[0] == old(results[0]) && history[0] == old(history[0])
      ensures forall e :: 0 < e < results.Length ==> history[e] == old(history[e]) + [old(results[e])]
      ensures forall e :: 0 < e < results.Length ==> results[e] == Acc(0, history[e], mask) % U64
    {
      var e := 1;
      while e < results.Length
        invariant 1 <= e <= results.Length
        invariant Valid() && |history| == |old(history)|
        invariant results[0] == old(results[0]) && history[0] == old(history[0])
        invariant forall k :: e <= k < results.Length ==> results[k] == old(results[k]) && history[k] == old(history[k])
        invariant forall k :: 0 < k < e ==>
                    history[k] == old(history[k]) + [old(results[k])] && results[k] == Acc(0, history[k], mask) % U64
      {
        AccumulateOne(results, e);
        e := e + 1;
      }
    }
  }

  lemma AddModulo(a: int, d: int)
    ensures (a % U64 + d % U64) % U64 == (a + d) % U64
  {}

  lemma MaskedValue(x: nat, k: nat)
    ensures BitAnd(x, Pow2(k) - 1) == x % Pow2(k) <= Pow2(k) - 1
  {
    AndLowMask(x, k);
  }

  /** The GMCH counters: a 32-bit fixed one and 38-bit general ones, each with an overflow number. */
  class GmchCounters {
    const overflow: array<nat>
    const last: array<nat>
    const bits: seq<nat>
    ghost var history: seq<seq<nat>>

    ghost predicate Valid()
      reads this, overflow, last
    {
      && overflow != last && overflow.Length == last.Length == |bits| == |history|
      && forall i :: 0 <= i < |bits| ==> Counter(i)
    }

    ghost predicate Counter(i: nat)
      requires i < overflow.Length && i < last.Length && i < |bits| && i < |history|
      reads this, overflow, last
    {
      && Within(0, history[i], Pow2(bits[i]) - 1)
      && last[i] == Latest(0, history[i])
      && overflow[i] == Wraps(0, history[i])
    }

    constructor (bits: seq<nat>)
      ensures Valid() && this.bits == bits && fresh(overflow) && fresh(last)
      ensures history == seq(|bits|, i => [])
    {
      var o := new nat[|bits|];
      var l := new nat[|bits|];
      for i := 0 to |bits|
        invariant forall k :: 0 <= k < i ==> o[k] == 0 && l[k] == 0
      {
        o[i] := 0;
        l[i] := 0;
      }
      overflow := o;
      last := l;
      this.bits := bits;
      history := seq(|bits|, i => []);
    }

    /** One counter's reading becomes its running count. */
    method ReadOne(data: array<nat>, i: nat)
      requires Valid() && i < |bits| && data.Length == |bits| && data != overflow && data != last
      modifies this`history, overflow, last, data
      ensures Valid()
      ensures history == old(history)[i := old(history[i]) + [old(data[i]) % Pow2(bits[i])]]
      ensures data[i] == Acc(0, history[i], Pow2(bits[i]) - 1)
      ensures forall k :: 0 <= k < data.Length && k != i ==> data[k] == old(data[k])
    {
      assert Counter(i);
      var mask := Pow2(bits[i]) - 1;
      MaskedValue(data[i], bits[i]);
      var val := BitAnd(data[i], mask);
      ghost var h := history[i] + [val];
      OneMore(0, history[i], val, mask);
      if val < last[i] {
        overflow[i] := overflow[i] + 1;
      }
      data[i] := WithWraps(val, overflow[i], mask);
      last[i] := val;
      history := history[i := h];
      FormsAgree(h, mask);
      assert Counter(i);
      forall k | 0 <= k < |bits| && k != i ensures Counter(k) {
        assert old(Counter(k));
        assert history[k] == old(history[k]) && last[k] == old(last[k]) && overflow[k] == old(overflow[k]);
      }
    }

    /** One trigger read of all configured counters. */
    method TriggerRead(data: array<nat>)
      requires Valid() && data.Length == |bits| && data != overflow && data != last
      modifies this`history, overflow, last, data
      ensures Valid() && |history| == |old(history)|
      ensures forall i :: 0 <= i < |bits| ==> history[i] == old(history[i]) + [old(data[i]) % Pow2(bits[i])]
      ensures forall i :: 0 <= i < |bits| ==> data[i] == Acc(0, history[i], Pow2(bits[i]) - 1)
    {
      for i := 0 to |bits|
        invariant Valid() && |history| == |old(history)|
        invariant forall k :: i <= k < |bits| ==> data[k] == old(data[k]) && history[k] == old(history[k])
        invariant forall k :: 0 <= k < i ==>
                    && history[k] == old(history[k]) + [old(data[k]) % Pow2(bits[k])]
                    && data[k] == Acc(0, history[k], Pow2(bits[k]) - 1)
      {
        ReadOne(data, i);
      }
    }
  }
}
