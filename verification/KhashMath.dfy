/** Arithmetic behind the probe sequence of khash.h: powers of two, triangular
    numbers, and the pigeonhole steps that turn "no two of the first n probes
    collide" into "the first n probes visit every bucket". */
module KhashMath {
  import opened Sets

  import opened Powers

  /** The sum 1 + 2 + ... + t: how far the t-th probe is from the first one. */
  function Triangle(t: nat): nat {
    if t == 0 then 0 else Triangle(t - 1) + t
  }

  /** The bucket the probe loop looks at after t increments of `step`. */
  function Probe(h: nat, n: nat, t: nat): (i: nat)
    requires n > 0
    ensures i < n
  {
    (h + Triangle(t)) % n
  }

  lemma {:induction false} TriangleTwice(t: nat)
    ensures 2 * Triangle(t) == t * (t + 1)
  {
    if t > 0 {
      TriangleTwice(t - 1);
      assert t * (t + 1) == (t - 1) * t + 2 * t;
    }
  }

  lemma MulNonNeg(a: int, b: int)
    requires 0 <= a && 0 <= b
    ensures 0 <= a * b
    ensures (-a) * b == -(a * b)
  {}

  lemma MultipleIsLarge(x: int, r: int, m: int)
    requires 0 < x && 0 < m && x == r * m
    ensures m <= x
  {
    if r <= 0 {
      MulNonNeg(-r, m);
    } else {
      MulNonNeg(r - 1, m);
      assert r * m == (r - 1) * m + m;
    }
  }

  lemma ModUnique(x: int, q: int, r: int, n: int)
    requires 0 <= r < n && x == q * n + r
    ensures x % n == r
  {
    var p, s := x / n, x % n;
    assert x == p * n + s;
    assert (q - p) * n == s - r;
    if s > r {
      MultipleIsLarge(s - r, q - p, n);
    } else if s < r {
      assert (p - q) * n == r - s;
      MultipleIsLarge(r - s, p - q, n);
    }
  }

  lemma ModAdd(x: nat, y: nat, n: nat)
    requires n > 0
    ensures (x + y) % n == (x % n + y) % n
  {
    var a, b := x / n, (x % n + y) / n;
    var r := (x % n + y) % n;
    assert x == a * n + x % n;
    assert x % n + y == b * n + r;
    assert (a + b) * n == a * n + b * n;
    ModUnique(x + y, a + b, r, n);
  }

  /** Each turn of the loop, i = (i + ++step) & mask, moves to the next probe. */
  lemma ProbeStep(h: nat, n: nat, t: nat)
    requires n > 0
    ensures Probe(h, n, t + 1) == (Probe(h, n, t) + (t + 1)) % n
  {
    ModAdd(h + Triangle(t), t + 1, n);
    assert h + Triangle(t + 1) == (h + Triangle(t)) + (t + 1);
  }

  lemma OddProduct(a: int, b: int)
    requires a % 2 == 1 && b % 2 == 1
    ensures (a * b) % 2 == 1
  {
    var x := a / 2;
    assert a == 2 * x + 1;
    assert a * b == 2 * (x * b) + b;
  }

  /** An odd factor contributes nothing to divisibility by a power of two. */
  lemma {:induction false} OddFactor(a: int, b: int, e: nat, q: int) returns (r: int)
    requires a % 2 == 1 && a * b == q * Pow2(e)
    ensures b == r * Pow2(e)
    decreases e
  {
    if e == 0 {
      r := b;
    } else {
      var p := Pow2(e - 1);
      assert a * b == 2 * (q * p) by { assert q * (2 * p) == 2 * (q * p); }
      if b % 2 == 1 { OddProduct(a, b); }
      var c := b / 2;
      assert 2 * (a * c) == a * b by { assert b == 2 * c; assert a * (2 * c) == 2 * (a * c); }
      r := OddFactor(a, c, e - 1, q);
      assert 2 * (r * p) == r * (2 * p);
    }
  }

  lemma SameResidue(x: nat, y: nat, n: nat) returns (q: int)
    requires n > 0 && x % n == y % n
    ensures y - x == q * n
  {
    var a, b := x / n, y / n;
    q := b - a;
    assert x == a * n + x % n && y == b * n + y % n;
    assert q * n == b * n - a * n;
  }

  /** When two probes s < t of a table of 2^e buckets collide, 2^(e+1) divides
      (t - s)(t + s + 1); one of these factors is odd, so the other is at least
      2^(e+1). */
  lemma ProbeCollision(h: nat, e: nat, s: nat, t: nat)
    requires s < t && Probe(h, Pow2(e), s) == Probe(h, Pow2(e), t)
    ensures t - s >= 2 * Pow2(e) || t + s + 1 >= 2 * Pow2(e)
  {
    var q := CollisionProduct(h, Pow2(e), s, t);
    LargeFactor(t - s, t + s + 1, e + 1, q);
  }

  lemma CollisionProduct(h: nat, n: nat, s: nat, t: nat) returns (q: int)
    requires n > 0 && s < t && Probe(h, n, s) == Probe(h, n, t)
    ensures (t - s) * (t + s + 1) == q * (2 * n)
  {
    q := SameResidue(h + Triangle(s), h + Triangle(t), n);
    FactorTriangles(s, t);
    assert q * (2 * n) == 2 * (q * n);
  }

  lemma LargeFactor(d: nat, u: nat, e: nat, q: int)
    requires d > 0 && u > 0 && (d + u) % 2 == 1 && d * u == q * Pow2(e)
    ensures d >= Pow2(e) || u >= Pow2(e)
  {
    if d % 2 == 1 {
      OddCofactor(d, u, e, q);
    } else {
      assert u * d == d * u;
      OddCofactor(u, d, e, q);
    }
  }

  lemma OddCofactor(d: nat, u: nat, e: nat, q: int)
    requires u > 0 && d % 2 == 1 && d * u == q * Pow2(e)
    ensures u >= Pow2(e)
  {
    hide Pow2;
    var r := OddFactor(d, u, e, q);
    MultipleIsLarge(u, r, Pow2(e));
  }

  lemma FactorTriangles(s: nat, t: nat)
    ensures (t - s) * (t + s + 1) == 2 * (Triangle(t) - Triangle(s))
  {
    TriangleTwice(s);
    TriangleTwice(t);
    assert (t - s) * (t + s + 1) == t * (t + 1) - s * (s + 1);
  }

  /** The first n probes never hit the same bucket twice. */
  lemma ProbesDiffer(h: nat, e: nat, s: nat, t: nat)
    requires s < t < Pow2(e)
    ensures Probe(h, Pow2(e), s) != Probe(h, Pow2(e), t)
  {
    if Probe(h, Pow2(e), s) == Probe(h, Pow2(e), t) {
      ProbeCollision(h, e, s, t);
    }
  }

  /** The walk is back at its first bucket exactly at step 2n - 1, not before. */
  lemma FirstReturn(h: nat, e: nat)
    ensures Probe(h, Pow2(e), 2 * Pow2(e) - 1) == Probe(h, Pow2(e), 0)
    ensures forall t: nat :: 0 < t < 2 * Pow2(e) - 1 ==> Probe(h, Pow2(e), t) != Probe(h, Pow2(e), 0)
  {
    var n := Pow2(e);
    forall t: nat | 0 < t < 2 * n - 1
      ensures Probe(h, n, t) != Probe(h, n, 0)
    {
      if Probe(h, n, t) == Probe(h, n, 0) { ProbeCollision(h, e, 0, t); }
    }
    var t := 2 * n - 1;
    TriangleTwice(t);
    assert t * (t + 1) == 2 * (t * n);
    assert h == (h / n) * n + h % n;
    assert h + t * n == (h / n + t) * n + h % n by {
      assert (h / n + t) * n == (h / n) * n + t * n;
    }
    ModUnique(h + t * n, h / n + t, h % n, n);
  }

  ghost function Below(n: nat): set<nat> {
    if n == 0 then {} else Below(n - 1) + {n - 1}
  }

  lemma {:induction false} BelowIs(n: nat)
    ensures |Below(n)| == n
    ensures forall i: nat :: i in Below(n) <==> i < n
  {
    if n > 0 { BelowIs(n - 1); }
  }

  ghost function Visited(h: nat, n: nat, steps: nat): set<nat>
    requires n > 0
  {
    if steps == 0 then {} else Visited(h, n, steps - 1) + {Probe(h, n, steps - 1)}
  }

  lemma {:induction false} VisitedIs(h: nat, n: nat, steps: nat)
    requires n > 0
    ensures forall i :: i in Visited(h, n, steps) <==> exists t: nat :: t < steps && Probe(h, n, t) == i
  {
    if steps > 0 { VisitedIs(h, n, steps - 1); }
  }

  lemma {:induction false} VisitedSize(h: nat, e: nat, steps: nat)
    requires steps <= Pow2(e)
    ensures |Visited(h, Pow2(e), steps)| == steps
  {
    if steps > 0 {
      VisitedSize(h, e, steps - 1);
      VisitedIs(h, Pow2(e), steps - 1);
      forall t: nat | t < steps - 1
        ensures Probe(h, Pow2(e), t) != Probe(h, Pow2(e), steps - 1)
      {
        ProbesDiffer(h, e, t, steps - 1);
      }
    }
  }

  /** The first n probes are a permutation of the n buckets: every bucket is
      met, at exactly one step below n. */
  lemma ProbesCover(h: nat, e: nat, i: nat) returns (t: nat)
    requires i < Pow2(e)
    ensures t < Pow2(e) && Probe(h, Pow2(e), t) == i
    ensures forall s: nat :: s < Pow2(e) && Probe(h, Pow2(e), s) == i ==> s == t
  {
    AllVisited(h, e, i);
    VisitedIs(h, Pow2(e), Pow2(e));
    t :| t < Pow2(e) && Probe(h, Pow2(e), t) == i;
    forall s: nat | s < Pow2(e) && Probe(h, Pow2(e), s) == i
      ensures s == t
    {
      if s < t { ProbesDiffer(h, e, s, t); }
      if t < s { ProbesDiffer(h, e, t, s); }
    }
  }

  lemma AllVisited(h: nat, e: nat, i: nat)
    requires i < Pow2(e)
    ensures i in Visited(h, Pow2(e), Pow2(e))
  {
    var n := Pow2(e);
    VisitedSize(h, e, n);
    VisitedIs(h, n, n);
    BelowIs(n);
    SubsetSize(Visited(h, n, n), Below(n));
  }
}
