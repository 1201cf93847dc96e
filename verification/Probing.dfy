/** Double hashing: the sequence of buckets that one key visits.
    The step lies in 1 .. n-1, so when the number of buckets n is prime the first n
    probes visit every bucket exactly once. */
module Probing {

  predicate Divides(d: nat, n: nat)
  {
    d > 0 && n % d == 0
  }

  predicate IsPrime(n: nat)
  {
    n >= 2 && forall d: nat :: 2 <= d < n ==> !Divides(d, n)
  }

  // ---------------------------------------------------------------- inverses modulo a prime

  lemma ScaleInverse(a: nat, q: nat, r: nat, b: int, c: int, n: nat)
    requires n == q * a + r && r * b == c * n + 1
    ensures a * -(q * b) == (c - b) * n + 1
  {
    calc {
      a * -(q * b);
      -((q * a) * b);
      (r - n) * b;
      (c - b) * n + 1;
    }
  }

  /** Modulo a prime every step has an inverse b: step * b is one plus c times n. */
  lemma {:induction false} InverseModPrime(a: nat, n: nat) returns (b: int, c: int)
    requires IsPrime(n) && 1 <= a < n
    ensures a * b == c * n + 1
    decreases a
  {
    if a == 1 {
      b, c := 1, 0;
    } else {
      var q, r := n / a, n % a;
      assert !Divides(a, n);
      var b', c' := InverseModPrime(r, n);
      b, c := -(q * b'), c' - b';
      assert n == q * a + r;
      ScaleInverse(a, q, r, b', c', n);
    }
  }

  // ---------------------------------------------------------------- the probe sequence

  function Step(n: nat, hash: nat): (inc: nat)
    requires n >= 2
    ensures 1 <= inc < n
  {
    1 + hash % (n - 1)
  }

  function Advance(n: nat, i: nat, inc: nat): (j: nat)
    requires i < n && inc < n
    ensures j < n
  {
    if i + inc >= n then i + inc - n else i + inc
  }

  /** The bucket reached from start after s steps. */
  function Walk(n: nat, start: nat, inc: nat, s: nat): (i: nat)
    requires start < n && inc < n
    ensures i < n
  {
    if s == 0 then start else Advance(n, Walk(n, start, inc, s - 1), inc)
  }

  /** The bucket that a key with the given hash looks at after s steps. */
  function Probe(n: nat, hash: nat, s: nat): (i: nat)
    requires n >= 2
    ensures i < n
  {
    Walk(n, hash % n, Step(n, hash), s)
  }

  lemma ProbeNext(n: nat, hash: nat, s: nat)
    requires n >= 2
    ensures Probe(n, hash, s + 1) == Advance(n, Probe(n, hash, s), Step(n, hash))
  {
  }

  /** How often the first s steps wrapped around the end of the table. */
  function Wraps(n: nat, start: nat, inc: nat, s: nat): nat
    requires start < n && inc < n
  {
    if s == 0 then 0
    else Wraps(n, start, inc, s - 1) + if Walk(n, start, inc, s - 1) + inc >= n then 1 else 0
  }

  lemma OneMoreStep(x: int, start: int, s: int, inc: int, w: int, n: int)
    requires x == start + (s - 1) * inc - w * n
    ensures x + inc == start + s * inc - w * n
    ensures x + inc - n == start + s * inc - (w + 1) * n
  {
    assert s * inc == (s - 1) * inc + inc;
    assert (w + 1) * n == w * n + n;
  }

  lemma {:induction false} WalkClosedForm(n: nat, start: nat, inc: nat, s: nat)
    requires start < n && inc < n
    ensures Walk(n, start, inc, s) == start + s * inc - Wraps(n, start, inc, s) * n
  {
    if s > 0 {
      WalkClosedForm(n, start, inc, s - 1);
      OneMoreStep(Walk(n, start, inc, s - 1), start, s, inc, Wraps(n, start, inc, s - 1), n);
    }
  }

  lemma NoMultipleBetween(x: int, k: int, n: nat)
    requires x == k * n && 0 < x + n && x < n
    ensures x == 0
  {
    assert k >= 1 ==> k * n >= n;
    assert k <= -1 ==> k * n + n <= 0;
  }

  lemma CancelStep(d: int, inc: nat, b: int, c: int, w: int, n: nat)
    requires d * inc == w * n && inc * b == c * n + 1
    ensures d == (w * b - d * c) * n
  {
    calc {
      d;
      d * (inc * b - c * n);
      (d * inc) * b - d * c * n;
      (w * b - d * c) * n;
    }
  }

  lemma WalkInjective(n: nat, start: nat, inc: nat, s: nat, t: nat)
    requires IsPrime(n) && start < n && 1 <= inc < n && s < t < n
    ensures Walk(n, start, inc, s) != Walk(n, start, inc, t)
  {
    if Walk(n, start, inc, s) == Walk(n, start, inc, t) {
      WalkClosedForm(n, start, inc, s);
      WalkClosedForm(n, start, inc, t);
      var w := Wraps(n, start, inc, t) - Wraps(n, start, inc, s);
      assert (t - s) * inc == w * n;
      var b, c := InverseModPrime(inc, n);
      CancelStep(t - s, inc, b, c, w, n);
      NoMultipleBetween(t - s, w * b - (t - s) * c, n);
      assert false;
    }
  }

  lemma StepsToReach(d: int, inc: nat, b: int, c: int, n: nat) returns (s: nat, k: int)
    requires n > 0 && inc * b == c * n + 1
    ensures s < n && s * inc == d + k * n
  {
    s := (d * b) % n;
    var m := (d * b) / n;
    k := d * c - m * inc;
    calc {
      s * inc;
      (d * b - m * n) * inc;
      d * (inc * b) - m * n * inc;
      d + (d * c - m * inc) * n;
    }
  }

  lemma WalkSurjective(n: nat, start: nat, inc: nat, i: nat) returns (s: nat)
    requires IsPrime(n) && start < n && 1 <= inc < n && i < n
    ensures s < n && Walk(n, start, inc, s) == i
  {
    var b, c := InverseModPrime(inc, n);
    var k: int;
    s, k := StepsToReach(i - start, inc, b, c, n);
    WalkClosedForm(n, start, inc, s);
    var w := Wraps(n, start, inc, s);
    assert Walk(n, start, inc, s) - i == (k - w) * n;
    NoMultipleBetween(Walk(n, start, inc, s) - i, k - w, n);
  }

  lemma Difference(a: int, b: int, n: int) returns (d: int)
    ensures d == a - b && n * a - b * n == d * n
  {
    d := a - b;
  }

  /** After n steps, and not before, a walk is back where it started. */
  lemma WalkPeriod(n: nat, start: nat, inc: nat)
    requires start < n && inc < n
    ensures Walk(n, start, inc, n) == start
  {
    WalkClosedForm(n, start, inc, n);
    var i, w := Walk(n, start, inc, n), Wraps(n, start, inc, n);
    var d := Difference(inc, w, n);
    NoMultipleBetween(i - start, d, n);
  }

  lemma ProbeReturns(n: nat, hash: nat, s: nat)
    requires IsPrime(n) && 1 <= s <= n
    ensures Probe(n, hash, s) == Probe(n, hash, 0) <==> s == n
  {
    if s < n {
      ProbeInjective(n, hash, 0, s);
    } else {
      WalkPeriod(n, hash % n, Step(n, hash));
    }
  }

  /** The first n probes of a key are pairwise different. */
  lemma ProbeInjective(n: nat, hash: nat, s: nat, t: nat)
    requires IsPrime(n) && s < t < n
    ensures Probe(n, hash, s) != Probe(n, hash, t)
  {
    WalkInjective(n, hash % n, Step(n, hash), s, t);
  }

  /** Every bucket is among the first n probes of a key. */
  lemma ProbeSurjective(n: nat, hash: nat, i: nat) returns (s: nat)
    requires IsPrime(n) && i < n
    ensures s < n && Probe(n, hash, s) == i
  {
    s := WalkSurjective(n, hash % n, Step(n, hash), i);
  }
}
