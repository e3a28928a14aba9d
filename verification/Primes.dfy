/** Modular arithmetic behind double hashing: stepping through a table of prime
    size by any step below that size visits every slot. */
module Primes {

  ghost predicate IsPrime(p: int) {
    p >= 2 && forall a {:trigger p % a} :: 1 < a < p ==> p % a != 0
  }

  /** The elements of a sequence, as a set. */
  ghost function Elements<T(!new)>(xs: seq<T>): set<T> {
    set x | x in xs
  }

  ghost predicate Distinct<T(!new)>(xs: seq<T>) {
    forall i, j :: 0 <= i < j < |xs| ==> xs[i] != xs[j]
  }

  ghost function Below(n: nat): (s: set<int>)
    ensures |s| == n
    ensures forall x :: x in s <==> 0 <= x < n
  {
    if n == 0 then {} else Below(n - 1) + {n - 1}
  }

  lemma {:induction false} DistinctCardinality<T(!new)>(xs: seq<T>)
    requires Distinct(xs)
    ensures |Elements(xs)| == |xs|
  {
    if xs != [] {
      var init, last := xs[..|xs| - 1], xs[|xs| - 1];
      DistinctCardinality(init);
      assert Elements(xs) == Elements(init) + {last};
      assert last !in Elements(init);
    }
  }

  lemma {:induction false} SubsetCardinality<T>(a: set<T>, b: set<T>)
    requires a <= b
    ensures |a| <= |b|
    ensures |a| == |b| ==> a == b
  {
    assert b == a + (b - a);
    assert |b| == |a| + |b - a|;
  }

  /** Pigeonhole: distinct elements drawn from a set are no more than the set holds. */
  lemma {:induction false} DistinctFits<T(!new)>(xs: seq<T>, s: set<T>)
    requires Distinct(xs)
    requires forall x :: x in xs ==> x in s
    ensures |xs| <= |s|
  {
    DistinctCardinality(xs);
    SubsetCardinality(Elements(xs), s);
  }

  /** n distinct numbers below n are all the numbers below n. */
  lemma {:induction false} DistinctCovers(xs: seq<int>, v: int)
    requires Distinct(xs)
    requires forall x :: x in xs ==> 0 <= x < |xs|
    requires 0 <= v < |xs|
    ensures v in xs
  {
    DistinctCardinality(xs);
    SubsetCardinality(Elements(xs), Below(|xs|));
    assert v in Elements(xs);
  }

  ghost predicate Divides(p: int, x: int)
    requires p > 0
  {
    x % p == 0
  }

  lemma DividesWitness(p: int, x: int) returns (q: int)
    requires p > 0 && Divides(p, x)
    ensures x == p * q
  {
    q := x / p;
  }

  /** Euclidean division is determined by its defining equation. */
  lemma DivModUnique(d: int, x: int, q: int, r: int)
    requires d > 0 && 0 <= r < d && x == d * q + r
    ensures x / d == q && x % d == r
  {
    var q', r' := x / d, x % d;
    assert d * (q' - q) == r - r' by {
      assert x == d * q' + r';
      Distribute(d, q', q);
    }
    if q' > q {
      MultipleAtLeast(d, q' - q);
    } else if q' < q {
      MultipleAtLeast(d, q - q');
      Distribute(d, q, q');
    }
  }

  lemma Distribute(d: int, a: int, b: int)
    ensures d * (a - b) == d * a - d * b
  {}

  lemma MulMonotone(a: int, b: int, c: int)
    requires a >= 0 && b <= c
    ensures a * b <= a * c
  {}

  lemma MultipleAtLeast(d: int, k: int)
    requires d > 0 && k >= 1
    ensures d * k >= d
  {}

  lemma MultipleDivides(p: int, q: int)
    requires p > 0
    ensures Divides(p, p * q)
  {
    DivModUnique(p, p * q, q, 0);
  }

  lemma DividesLinear(p: int, x: int, y: int, k: int)
    requires p > 0 && Divides(p, x) && Divides(p, y)
    ensures Divides(p, x - k * y)
  {
    var a := DividesWitness(p, x);
    var b := DividesWitness(p, y);
    calc {
      x - k * y;
      p * a - k * (p * b);
      p * (a - k * b);
    }
    MultipleDivides(p, a - k * b);
  }

  /** The least positive m with p | m * d. */
  ghost function Order(p: int, d: int, m: int): (n: int)
    requires p > 0 && 1 <= m <= p
    requires forall k :: 1 <= k < m ==> !Divides(p, k * d)
    ensures m <= n <= p && Divides(p, n * d)
    ensures forall k :: 1 <= k < n ==> !Divides(p, k * d)
    decreases p - m
  {
    if Divides(p, m * d) then m
    else
      assert m != p by { MultipleDivides(p, d); }
      Order(p, d, m + 1)
  }

  /** The order of d divides p, so for a prime p and 0 < d < p it is p itself:
      no smaller multiple of d is divisible by p. */
  lemma {:induction false} NoSmallerMultiple(p: int, d: int, m: int)
    requires IsPrime(p) && 0 < d < p && 0 < m < p
    ensures !Divides(p, m * d)
  {
    var n := Order(p, d, 1);
    var q, r := p / n, p % n;
    assert Divides(p, p * d) by { MultipleDivides(p, d); }
    DividesLinear(p, p * d, n * d, q);
    assert p * d - q * (n * d) == r * d by {
      assert p == n * q + r;
      assert (n * q + r) * d == q * (n * d) + r * d;
    }
    assert r == 0;
    assert n != 1 by { assert 1 * d == d; }
    assert n == p;
  }

  /** The slot reached after i probes. */
  function Probe(size: nat, start: nat, step: nat, i: nat): (slot: nat)
    requires size > 0
    ensures slot < size
  {
    (start + i * step) % size
  }

  lemma {:induction false} ProbeNext(size: nat, start: nat, step: nat, i: nat)
    requires size > 0
    ensures Probe(size, start, step, i + 1) == (Probe(size, start, step, i) + step) % size
  {
    var x := start + i * step;
    var q, r := x / size, x % size;
    var q', r' := (r + step) / size, (r + step) % size;
    assert x + step == size * (q + q') + r' by {
      assert size * (q + q') == size * q + size * q';
    }
    assert start + (i + 1) * step == x + step;
    DivModUnique(size, x + step, q + q', r');
  }

  lemma {:induction false} ProbeInjective(size: nat, start: nat, step: nat, i: nat, j: nat)
    requires IsPrime(size) && 0 < step < size
    requires i < j < size
    ensures Probe(size, start, step, i) != Probe(size, start, step, j)
  {
    var x, y := start + i * step, start + j * step;
    if x % size == y % size {
      var k := y / size - x / size;
      assert y - x == size * k;
      assert y - x == (j - i) * step;
      MultipleDivides(size, k);
      NoSmallerMultiple(size, step, j - i);
      assert false;
    }
  }

  /** Probe coverage: within `size` probes every slot is visited. */
  lemma {:induction false} ProbeCoverage(size: nat, start: nat, step: nat, slot: nat)
    requires IsPrime(size) && 0 < step < size && slot < size
    ensures exists i: nat :: i < size && Probe(size, start, step, i) == slot
  {
    var xs := seq(size, i requires i >= 0 => Probe(size, start, step, i));
    forall i, j | 0 <= i < j < |xs| ensures xs[i] != xs[j] {
      ProbeInjective(size, start, step, i, j);
    }
    DistinctCovers(xs, slot);
  }
}
