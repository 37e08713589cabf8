/** What primes are, and what the square root bound that is one too small lets through. */
module PrimeNumbers {
  import opened Arithmetic

  predicate Divides(d: nat, n: nat) { d > 0 && n % d == 0 }

  predicate Prime(n: nat) {
    n >= 2 && forall d :: 2 <= d < n ==> !Divides(d, n)
  }

  /** The primes below `n`, in order. */
  function PrimesBelow(n: nat): seq<nat> {
    if n == 0 then [] else PrimesBelow(n - 1) + if Prime(n - 1) then [n - 1] else []
  }

  /** All of them, and nothing else, each after the smaller ones. */
  lemma {:induction false} PrimesInOrder(n: nat)
    ensures forall p: nat :: p in PrimesBelow(n) <==> p < n && Prime(p)
    ensures forall i, j :: 0 <= i < j < |PrimesBelow(n)| ==> PrimesBelow(n)[i] < PrimesBelow(n)[j]
  {
    if n > 0 {
      hide Prime;
      PrimesInOrder(n - 1);
      var before := PrimesBelow(n - 1);
      assert forall i :: 0 <= i < |before| ==> before[i] in before;
    }
  }

  /** Divisors from 2 up to but not including `k`. */
  function Divisors(n: nat, k: nat): nat {
    if k <= 2 then 0 else Divisors(n, k - 1) + if Divides(k - 1, n) then 1 else 0
  }

  lemma {:induction false} NoDivisors(n: nat, k: nat)
    ensures Divisors(n, k) == 0 <==> forall d :: 2 <= d < k ==> !Divides(d, n)
  {
    if k > 2 {
      NoDivisors(n, k - 1);
    }
  }

  lemma Multiple(d: nat, k: nat)
    requires d > 0
    ensures Divides(d, k * d) && Divides(d, d * k)
  {
    assert d * k == k * d;
    DivModUnique(k * d, d, k, 0);
  }

  lemma MultipleOfMultiple(d: nat, a: nat, k: nat)
    requires Divides(d, a)
    ensures Divides(d, k * a)
  {
    assert a == (a / d) * d;
    assert k * a == (k * (a / d)) * d;
    Multiple(d, k * (a / d));
  }

  lemma Difference(d: nat, a: nat, b: nat)
    requires Divides(d, a) && Divides(d, a + b)
    ensures Divides(d, b)
  {
    var x, y := a / d, (a + b) / d;
    assert a == x * d && a + b == y * d;
    assert b == (y - x) * d by {
      assert (y - x) * d == y * d - x * d;
    }
    if y < x {
      MulMono(y - x, -1, d);
    }
    Multiple(d, y - x);
  }

  lemma Distribute(q: nat, x: nat, r: nat, p: nat)
    ensures (q * x + r) * p == q * (x * p) + r * p
  {
    assert q * x * p == q * (x * p);
  }

  /** The least multiplier that makes `p` a multiple of `d` divides every other. */
  lemma LeastDivides(d: nat, p: nat, x: nat, z: nat)
    requires x > 0 && Divides(d, x * p) && forall y: nat :: 0 < y < x ==> !Divides(d, y * p)
    requires Divides(d, z * p)
    ensures Divides(x, z)
  {
    hide Divides;
    LeastRemainder(d, p, x, z);
    RemainderZero(x, z);
  }

  lemma RemainderZero(x: nat, z: nat)
    requires x > 0 && z % x == 0
    ensures Divides(x, z)
  {
  }

  lemma LeastRemainder(d: nat, p: nat, x: nat, z: nat)
    requires x > 0 && Divides(d, x * p) && forall y: nat :: 0 < y < x ==> !Divides(d, y * p)
    requires Divides(d, z * p)
    ensures z % x == 0
  {
    hide Divides;
    var q, r := z / x, z % x;
    assert z == q * x + r;
    Distribute(q, x, r, p);
    MultipleOfMultiple(d, x * p, q);
    Difference(d, q * (x * p), r * p);
  }

  /** A prime's square has no divisor between 1 and the prime. */
  lemma SquareOfPrime(p: nat, d: nat)
    requires Prime(p) && 2 <= d < p
    ensures !Divides(d, p * p)
  {
    if Divides(d, p * p) {
      Multiple(d, p);
      var x := 1;
      while !Divides(d, x * p)
        invariant 1 <= x <= d && forall y: nat :: 0 < y < x ==> !Divides(d, y * p)
        decreases d - x
      {
        x := x + 1;
      }
      LeastDivides(d, p, x, d);
      LeastDivides(d, p, x, p);
    }
  }

  /** Nothing from 2 up whose square is less than `n` divides it. */
  predicate Passes(n: nat) {
    n >= 2 && forall d :: 2 <= d < n && d * d < n ==> !Divides(d, n)
  }

  predicate PrimeSquare(n: nat) {
    exists p :: 2 <= p <= n && Prime(p) && n == p * p
  }

  /** A divisor of a number that passes is the number or its root. */
  lemma DivisorOfPassing(n: nat, d: nat)
    requires Passes(n) && 2 <= d < n && Divides(d, n)
    ensures d * d == n
  {
    var e := n / d;
    assert n == e * d == d * e;
    if d * d > n {
      assert e < d by {
        if e >= d { MulMono(d, e, d); }
      }
      assert e >= 2 by {
        if e <= 1 { MulMono(e, 1, d); }
      }
      MulMono(e + 1, d, e);
      assert e * e + e <= n;
      Multiple(e, d);
    }
  }

  lemma RootIsPrime(n: nat, d: nat)
    requires Passes(n) && 2 <= d && d * d == n
    ensures Prime(d)
  {
    forall a | 2 <= a < d
      ensures !Divides(a, d)
    {
      if Divides(a, d) {
        MultipleOfMultiple(a, d, d);
        assert a * a < n by { MulMono(a, d - 1, a); MulMono(a, d, d - 1); assert a * (d - 1) == (d - 1) * a; }
      }
    }
  }

  /** The too small bound lets through exactly the primes and their squares. */
  lemma PassesExactlyWhen(n: nat)
    ensures Passes(n) <==> Prime(n) || PrimeSquare(n)
  {
    if Passes(n) && !Prime(n) {
      var d :| 2 <= d < n && Divides(d, n);
      DivisorOfPassing(n, d);
      RootIsPrime(n, d);
    }
    if PrimeSquare(n) {
      var p :| 2 <= p <= n && Prime(p) && n == p * p;
      forall d | 2 <= d < n && d * d < n
        ensures !Divides(d, n)
      {
        if d >= p { MulMono(p, d, p); MulMono(p, d, d); }
        SquareOfPrime(p, d);
      }
    }
  }
}
