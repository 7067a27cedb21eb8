/** Positional numbers: big-endian digit strings and what they determine. */
module Digits {

  ghost predicate InBase(d: seq<nat>, base: nat) {
    forall i :: 0 <= i < |d| ==> d[i] < base
  }

  function Pow(base: nat, n: nat): nat {
    if n == 0 then 1 else base * Pow(base, n - 1)
  }

  /** The number that a digit string denotes, most significant digit first. */
  function Number(d: seq<nat>, base: nat): nat {
    if d == [] then 0 else Number(d[..|d| - 1], base) * base + d[|d| - 1]
  }

  lemma {:induction false} MulMonotone(a: int, b: int, c: nat)
    requires a <= b
    ensures a * c <= b * c
  {
  }

  lemma {:induction false} MulDistributes(a: int, b: int, c: int)
    ensures (a + b) * c == a * c + b * c
    ensures (a - b) * c == a * c - b * c
  {
  }

  lemma {:induction false} Quotient(q: int, r: int, q': int, r': int, base: nat)
    requires 0 <= r < base && 0 <= r' < base
    requires q * base + r == q' * base + r'
    ensures q == q' && r == r'
  {
    MulDistributes(q, q', base);
    if q > q' {
      MulMonotone(1, q - q', base);
    } else if q < q' {
      MulMonotone(1, q' - q, base);
      MulDistributes(q', q, base);
    }
  }

  lemma {:induction false} DivMod(q: nat, r: nat, base: nat)
    requires r < base
    ensures (q * base + r) / base == q && (q * base + r) % base == r
  {
    var n := q * base + r;
    Quotient(q, r, n / base, n % base, base);
  }

  /** Digit strings of one length are equal when their numbers are. */
  lemma {:induction false} NumberInjective(a: seq<nat>, b: seq<nat>, base: nat)
    requires |a| == |b| && InBase(a, base) && InBase(b, base)
    requires Number(a, base) == Number(b, base)
    ensures a == b
  {
    if a != [] {
      var n := |a| - 1;
      DivMod(Number(a[..n], base), a[n], base);
      DivMod(Number(b[..n], base), b[n], base);
      NumberInjective(a[..n], b[..n], base);
      assert a == a[..n] + [a[n]] && b == b[..n] + [b[n]];
    }
  }

  lemma {:induction false} NumberBound(d: seq<nat>, base: nat)
    requires InBase(d, base)
    ensures Number(d, base) < Pow(base, |d|)
  {
    if d != [] {
      var n := |d| - 1;
      NumberBound(d[..n], base);
      MulMonotone(Number(d[..n], base) + 1, Pow(base, n), base);
      MulDistributes(Number(d[..n], base), 1, base);
    }
  }

  lemma {:induction false} SplitDigit(x: nat, base: nat, bound: nat) returns (q: nat, r: nat)
    requires base > 0 && x < base * bound
    ensures q < bound && r < base && x == q * base + r
  {
    q, r := x / base, x % base;
    if q >= bound {
      MulMonotone(bound, q, base);
    }
  }

  lemma {:induction false} AppendDigit(d: seq<nat>, r: nat, base: nat)
    requires InBase(d, base) && r < base
    ensures InBase(d + [r], base) && Number(d + [r], base) == Number(d, base) * base + r
  {
    assert (d + [r])[..|d|] == d;
  }

  /** Every number below the bound is the number of one digit string. */
  lemma {:induction false} NumberSurjective(x: nat, base: nat, n: nat) returns (d: seq<nat>)
    requires base > 0 && x < Pow(base, n)
    ensures |d| == n && InBase(d, base) && Number(d, base) == x
  {
    if n == 0 {
      d := [];
    } else {
      var q, r := SplitDigit(x, base, Pow(base, n - 1));
      var high := NumberSurjective(q, base, n - 1);
      AppendDigit(high, r, base);
      d := high + [r];
    }
  }
}
