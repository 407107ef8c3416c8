/**
  * Splitting an APIC id into package, core and thread numbers. The core number is masked with the cores per die less
  * one, which is a mask of low bits only for a power of two.
  */
module Topology {
  import opened Bits

  /** Counts the shifts that exhaust the number, less one: the position of its highest set bit. */
  method NBits(number: nat) returns (r: int)
    ensures number >= 1 ==> 0 <= r && Pow2(r) <= number < Pow2(r + 1)
    ensures number == 0 ==> r == -1
  {
    var i, left := 0, number;
    while left > 0
      invariant 0 <= i
      invariant left == number / Pow2(i)
      invariant i > 0 ==> number >= Pow2(i - 1)
      invariant number == 0 ==> i == 0
      decreases left
    {
      HalvingOnce(number, i);
      QuotientPositive(number, Pow2(i));
      left := left / 2;
      i := i + 1;
    }
    QuotientZero(number, Pow2(i));
    r := i - 1;
  }

  lemma HalvingOnce(n: nat, i: nat)
    ensures n / Pow2(i) / 2 == n / Pow2(i + 1)
  {
    var p := Pow2(i);
    var q, r := n / p, n % p;
    assert n == q * p + r;
    var h := q / 2;
    assert q == 2 * h + q % 2;
    assert q * p == (2 * h) * p + (q % 2) * p;
    assert (2 * h) * p == h * (2 * p);
    Remainder(n, 2 * p, h, (q % 2) * p + r);
  }

  lemma QuotientPositive(n: nat, p: nat)
    requires p > 0
    ensures n / p > 0 ==> n >= p
  {}

  lemma QuotientZero(n: nat, p: nat)
    requires p > 0
    ensures n / p == 0 ==> n < p
  {}

  /** floor(log2 n). */
  function Log2(n: nat): (r: nat)
    requires n >= 1
    ensures Pow2(r) <= n < Pow2(r + 1)
  {
    if n == 1 then 0 else 1 + Log2(n / 2)
  }

  lemma {:induction false} Log2Unique(n: nat, r: nat)
    requires n >= 1 && Pow2(r) <= n < Pow2(r + 1)
    ensures r == Log2(n)
  {
    if r < Log2(n) {
      if r + 1 < Log2(n) {
        Pow2Increases(r + 1, Log2(n));
      }
      assert false;
    } else if Log2(n) < r {
      if Log2(n) + 1 < r {
        Pow2Increases(Log2(n) + 1, r);
      }
      assert false;
    }
  }

  datatype Place = Place(package: nat, core: nat, thread: nat)

  /** The split, for 1 or 2 threads a core. */
  function Split(apic: nat, coresPerDie: nat, threads: nat): Place
    requires coresPerDie >= 1 && 1 <= threads <= 2
  {
    Place(Shr(apic, Log2(coresPerDie) + Log2(threads)),
          BitAnd(Shr(apic, Log2(threads)), coresPerDie - 1),
          if threads == 2 then BitAnd(apic, 1) else 0)
  }

  /** Threads a core as derived from leaves 1 and 4: two where the package has hyper-threading and other than one each. */
  function ThreadsPerCore(htSupported: bool, logicalPerPhysical: nat, coresPerDie: nat): (t: nat)
    ensures t == 2 <==> htSupported && logicalPerPhysical != coresPerDie
    ensures t == 1 <==> !htSupported || logicalPerPhysical == coresPerDie
  {
    if !htSupported || logicalPerPhysical == coresPerDie then 1 else 2
  }

  method SplitApicId(apic: nat, coresPerDie: nat, htSupported: bool, logicalPerPhysical: nat) returns (p: Place)
    requires coresPerDie >= 1
    ensures p == Split(apic, coresPerDie, ThreadsPerCore(htSupported, logicalPerPhysical, coresPerDie))
  {
    var threads, thread := 1, 0;
    if htSupported && logicalPerPhysical != coresPerDie {
      threads := 2;
      thread := BitAnd(apic, 1);
    }
    var t := NBits(threads);
    var k := NBits(coresPerDie);
    Log2Unique(threads, t);
    Log2Unique(coresPerDie, k);
    p := Place(Shr(apic, k + t), BitAnd(Shr(apic, t), coresPerDie - 1), thread);
  }

  predicate IsPow2(n: nat) { n >= 1 && n == Pow2(Log2(n)) }

  /** The id that a triple stands for. */
  function Join(p: Place, coresPerDie: nat, threads: nat): nat {
    (p.package * coresPerDie + p.core) * threads + p.thread
  }

  /** A two-step division written as one. */
  lemma Regroup(a: nat, t: nat, c: nat, q: nat, r: nat, h: nat, s: nat)
    requires a == q * t + r && r < t && q == h * c + s && s < c
    ensures a == h * (t * c) + (s * t + r) && s * t + r < t * c
  {
    assert (h * c + s) * t == (h * c) * t + s * t;
    assert (h * c) * t == h * (c * t) == h * (t * c);
    ProductBelow(s, c, t);
  }

  lemma Rebuild(a: nat, c: nat, t: nat)
    requires c > 0 && t > 0
    ensures t * c > 0 && a / (t * c) == a / t / c
    ensures (a / t / c * c + a / t % c) * t + a % t == a
  {
    var q, r := a / t, a % t;
    Regroup(a, t, c, q, r, q / c, q % c);
    Remainder(a, t * c, q / c, (q % c) * t + r);
  }

  /** With a power of two cores a die, the triple gives the id back, and its core and thread are in range. */
  lemma SplitJoin(apic: nat, coresPerDie: nat, threads: nat)
    requires IsPow2(coresPerDie) && 1 <= threads <= 2
    ensures Join(Split(apic, coresPerDie, threads), coresPerDie, threads) == apic
    ensures Split(apic, coresPerDie, threads).core < coresPerDie && Split(apic, coresPerDie, threads).thread < threads
  {
    var k, t := Log2(coresPerDie), Log2(threads);
    assert Log2(1) == 0 && Log2(2) == 1 + Log2(1);
    assert Pow2(0) == 1 && Pow2(1) == 2;
    assert threads == Pow2(t);
    ShrIsDivision(apic, k + t);
    ShrIsDivision(apic, t);
    Pow2Adds(t, k);
    assert k + t == t + k;
    AndLowMask(Shr(apic, t), k);
    AndLowMask(apic, 1);
    Rebuild(apic, coresPerDie, threads);
  }

  /** For any number of cores the low bit is the thread, the cores' bits are masked, and what lies above names the package. */
  lemma SplitIs(apic: nat, coresPerDie: nat, threads: nat, k: nat)
    requires coresPerDie >= 1 && 1 <= threads <= 2
    ensures var p := Split(apic, coresPerDie, threads);
            && p.package == apic / Pow2(Log2(coresPerDie) + threads - 1)
            && (Bit(p.core, k) <==> Bit(apic / Pow2(threads - 1), k) && Bit(coresPerDie - 1, k))
            && p.thread == if threads == 2 then apic % 2 else 0
  {
    assert Log2(1) == 0 && Log2(2) == 1 + Log2(1);
    ShrIsDivision(apic, Log2(coresPerDie) + Log2(threads));
    ShrIsDivision(apic, Log2(threads));
    AndBits(Shr(apic, Log2(threads)), coresPerDie - 1, k);
    assert Pow2(1) == 2 * Pow2(0) == 2;
    AndLowMask(apic, 1);
  }

  /** A mask whose low bits are not all ones misses some number below them. */
  lemma {:induction false} MaskMisses(m: nat, k: nat) returns (x: nat)
    requires m % Pow2(k) != Pow2(k) - 1
    ensures 0 < x < Pow2(k) && BitAnd(x, m) == 0
    decreases k
  {
    if m % 2 == 0 {
      x := 1;
      assert k > 0;
      assert BitAnd(0, m / 2) == 0;
    } else {
      HalfDivision(m, Pow2(k - 1));
      var y := MaskMisses(m / 2, k - 1);
      x := 2 * y;
      assert x / 2 == y;
    }
  }

  lemma ShiftedIn(y: nat, t: nat, k: nat)
    requires y < Pow2(k)
    ensures Shr(y * Pow2(t), t) == y && Shr(y * Pow2(t), k + t) == 0
  {
    var x := y * Pow2(t);
    ShrIsDivision(x, t);
    Remainder(x, Pow2(t), y, 0);
    ShrIsDivision(x, k + t);
    Pow2Adds(k, t);
    ProductBelow(y, Pow2(k), Pow2(t));
    Remainder(x, Pow2(k + t), 0, x);
  }

  /** With any other number of cores, two ids share a triple. */
  lemma SplitCollides(coresPerDie: nat, threads: nat) returns (apic: nat)
    requires coresPerDie >= 1 && !IsPow2(coresPerDie) && 1 <= threads <= 2
    ensures apic != 0 && Split(apic, coresPerDie, threads) == Split(0, coresPerDie, threads)
  {
    var k, t := Log2(coresPerDie), Log2(threads);
    var m := coresPerDie - 1;
    Remainder(m, Pow2(k), 1, m - Pow2(k));
    var y := MaskMisses(m, k);
    ShiftedIn(y, t, k);
    ShiftedIn(0, t, k);
    apic := y * Pow2(t);
    if threads == 2 {
      assert Log2(2) == 1 + Log2(1) && Log2(1) == 0;
      assert Pow2(1) == 2 * Pow2(0);
      AndLowMask(apic, 1);
      Remainder(apic, 2, y, 0);
    }
    assert apic >= y;
  }

  /** Distinct ids get distinct triples exactly when the cores a die are a power of two. */
  lemma SplitInjective(coresPerDie: nat, threads: nat)
    requires coresPerDie >= 1 && 1 <= threads <= 2
    ensures IsPow2(coresPerDie) <==>
            forall a: nat, b: nat :: Split(a, coresPerDie, threads) == Split(b, coresPerDie, threads) ==> a == b
  {
    if IsPow2(coresPerDie) {
      forall a: nat, b: nat | Split(a, coresPerDie, threads) == Split(b, coresPerDie, threads) ensures a == b {
        SplitJoin(a, coresPerDie, threads);
        SplitJoin(b, coresPerDie, threads);
      }
    } else {
      var a := SplitCollides(coresPerDie, threads);
    }
  }
}
