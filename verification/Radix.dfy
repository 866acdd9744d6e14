/**
 Positional numerals in an arbitrary base: little-endian values, canonical digit lists
 and the conversion of a big-endian digit list from one base to another.
 */
module Radix {

  /** Value of a little-endian digit list. */
  function Value(base: nat, ds: seq<nat>): nat {
    if ds == [] then 0 else ds[0] + base * Value(base, ds[1..])
  }

  /** Value of a big-endian digit list. */
  function Horner(base: nat, ds: seq<nat>): nat {
    if ds == [] then 0 else Horner(base, ds[..|ds| - 1]) * base + ds[|ds| - 1]
  }

  predicate Below(base: nat, ds: seq<nat>) {
    forall k :: 0 <= k < |ds| ==> ds[k] < base
  }

  /** Every digit is in range and the most significant one is not zero. */
  predicate Canonical(base: nat, ds: seq<nat>) {
    Below(base, ds) && (ds != [] ==> ds[|ds| - 1] != 0)
  }

  /** The little-endian digits of n, without leading zeros. */
  function Digits(base: nat, n: nat): seq<nat>
    requires base >= 2
  {
    if n == 0 then []
    else
      QuotientShrinks(base, n);
      [n % base] + Digits(base, n / base)
  }

  lemma {:induction false} DigitsSpec(base: nat, n: nat)
    requires base >= 2
    ensures Canonical(base, Digits(base, n)) && Value(base, Digits(base, n)) == n
    ensures Digits(base, n) == [] <==> n == 0
    decreases n
  {
    if n > 0 {
      QuotientShrinks(base, n);
      DigitsSpec(base, n / base);
      assert Digits(base, n)[1..] == Digits(base, n / base);
    }
  }

  lemma QuotientShrinks(base: nat, n: nat)
    requires base >= 2
    ensures 0 <= n / base && (n > 0 ==> n / base < n)
    ensures n == n % base + base * (n / base)
    ensures n < base ==> n % base == n && n / base == 0
    ensures n >= base ==> n / base > 0
  {
    Multiples(base, n / base);
    Multiples(n / base, base - 1);
  }

  /** A nonzero multiple of base is at least base away from zero. */
  lemma Multiples(base: nat, q: int)
    ensures q >= 1 ==> base * q >= base
    ensures q <= -1 ==> base * q + base <= 0
    ensures base * q == q * base
  {
  }

  lemma SameLowDigit(base: nat, x: nat, y: nat, u: nat, v: nat)
    requires x < base && y < base && x + base * u == y + base * v
    ensures x == y && u == v
  {
    Multiples(base, v - u);
    assert base * (v - u) == base * v - base * u;
  }

  /** A value has one canonical digit list. */
  lemma {:induction false} CanonicalUnique(base: nat, a: seq<nat>, b: seq<nat>)
    requires base >= 2 && Canonical(base, a) && Canonical(base, b)
    requires Value(base, a) == Value(base, b)
    ensures a == b
  {
    if a == [] || b == [] {
      if a != [] { CanonicalPositive(base, a); }
      if b != [] { CanonicalPositive(base, b); }
    } else {
      SameLowDigit(base, a[0], b[0], Value(base, a[1..]), Value(base, b[1..]));
      CanonicalUnique(base, a[1..], b[1..]);
      assert a == [a[0]] + a[1..] && b == [b[0]] + b[1..];
    }
  }

  lemma {:induction false} CanonicalPositive(base: nat, ds: seq<nat>)
    requires base >= 2 && Canonical(base, ds) && ds != []
    ensures Value(base, ds) > 0
  {
    if |ds| > 1 {
      CanonicalPositive(base, ds[1..]);
      assert base * Value(base, ds[1..]) > 0;
    }
  }

  /** The digits of m * Value(ds) + carry, computed digit by digit from the low end. */
  function MulAdd(base: nat, m: nat, ds: seq<nat>, carry: nat): seq<nat>
    requires base >= 2
  {
    if ds == [] then Digits(base, carry)
    else
      QuotientShrinks(base, carry + ds[0] * m);
      [(carry + ds[0] * m) % base] + MulAdd(base, m, ds[1..], (carry + ds[0] * m) / base)
  }

  lemma {:induction false} MulAddSpec(base: nat, m: nat, ds: seq<nat>, carry: nat)
    requires base >= 2 && m >= 1 && Canonical(base, ds)
    ensures Canonical(base, MulAdd(base, m, ds, carry))
    ensures Value(base, MulAdd(base, m, ds, carry)) == m * Value(base, ds) + carry
    decreases |ds|
  {
    if ds == [] {
      DigitsSpec(base, carry);
    } else {
      var t: nat := carry + ds[0] * m;
      QuotientShrinks(base, t);
      var q: nat, low: nat := t / base, t % base;
      var rest := MulAdd(base, m, ds[1..], q);
      assert MulAdd(base, m, ds, carry) == [low] + rest;
      assert Value(base, ds) == ds[0] + base * Value(base, ds[1..]);
      MulAddSpec(base, m, ds[1..], q);
      hide MulAdd, Value, Canonical;
      MulAddStep(base, m, ds[0], Value(base, ds[1..]), carry, q, low);
      MulAddTop(base, m, ds, rest, q, low, t);
    }
  }

  /** Prepending the low digit keeps the list canonical. */
  lemma MulAddTop(base: nat, m: nat, ds: seq<nat>, rest: seq<nat>, q: nat, low: nat, t: nat)
    requires base >= 2 && m >= 1 && ds != [] && Canonical(base, ds)
    requires Canonical(base, rest) && Value(base, rest) == m * Value(base, ds[1..]) + q
    requires t == low + base * q && low < base && t >= ds[0] * m
    ensures Canonical(base, [low] + rest) && Value(base, [low] + rest) == low + base * Value(base, rest)
  {
    assert ([low] + rest)[1..] == rest;
    if rest == [] {
      Multiples(m, Value(base, ds[1..]));
      if |ds| > 1 {
        CanonicalPositive(base, ds[1..]);
      } else {
        Multiples(m, ds[0]);
        Multiples(base, q);
      }
    }
  }

  lemma MulAddStep(base: nat, m: nat, d: nat, rest: nat, carry: nat, q: nat, r: nat)
    requires r + base * q == carry + d * m
    ensures r + base * (m * rest + q) == m * (d + base * rest) + carry
  {
    assert base * (m * rest) == m * (base * rest);
  }

  /** One round of the in-place loops: appending a digit to the source appends it to the result. */
  lemma MulAddIsDigits(from: nat, to: nat, ds: seq<nat>, d: nat)
    requires from >= 2 && to >= 2
    ensures MulAdd(to, from, Digits(to, Horner(from, ds)), d) == Digits(to, Horner(from, ds + [d]))
  {
    assert (ds + [d])[..|ds|] == ds;
    DigitsSpec(to, Horner(from, ds));
    DigitsSpec(to, Horner(from, ds + [d]));
    MulAddSpec(to, from, Digits(to, Horner(from, ds)), d);
    CanonicalUnique(to, MulAdd(to, from, Digits(to, Horner(from, ds)), d), Digits(to, Horner(from, ds + [d])));
  }

  /** The same round, stated on a slice of the source. */
  lemma NextDigit(from: nat, to: nat, ds: seq<nat>, start: nat, i: nat)
    requires from >= 2 && to >= 2 && start <= i < |ds|
    ensures MulAdd(to, from, Digits(to, Horner(from, ds[start..i])), ds[i])
            == Digits(to, Horner(from, ds[start..i + 1]))
  {
    assert ds[start..i + 1] == ds[start..i] + [ds[i]];
    MulAddIsDigits(from, to, ds[start..i], ds[i]);
  }

  /** One step inside a round: the low digit is done, the rest takes the new carry. */
  lemma MulAddUnfold(base: nat, m: nat, ds: seq<nat>, j: nat, carry: nat)
    requires base >= 2 && j < |ds|
    ensures var t := carry + ds[j] * m;
            && t % base < base && 0 <= t / base
            && MulAdd(base, m, ds[j..], carry) == [t % base] + MulAdd(base, m, ds[j + 1..], t / base)
  {
    QuotientShrinks(base, carry + ds[j] * m);
    assert ds[j..][1..] == ds[j + 1..];
  }

  lemma MulAddEnd(base: nat, m: nat, ds: seq<nat>, carry: nat)
    requires base >= 2
    ensures MulAdd(base, m, ds[|ds|..], carry) == Digits(base, carry)
  {
  }

  lemma DigitsUnfold(base: nat, n: nat)
    requires base >= 2 && n > 0
    ensures 0 <= n / base < n && n % base < base
    ensures Digits(base, n) == [n % base] + Digits(base, n / base)
  {
    QuotientShrinks(base, n);
  }

  lemma Regroup(a: seq<nat>, x: nat, b: seq<nat>)
    ensures a + ([x] + b) == (a + [x]) + b
  {
  }

  function Reverse(s: seq<nat>): (r: seq<nat>)
    ensures |r| == |s|
    ensures forall k :: 0 <= k < |s| ==> r[k] == s[|s| - 1 - k]
  {
    if s == [] then [] else Reverse(s[1..]) + [s[0]]
  }

  lemma {:induction false} HornerIsValueReversed(base: nat, ds: seq<nat>)
    ensures Horner(base, ds) == Value(base, Reverse(ds))
  {
    if ds != [] {
      var init := ds[..|ds| - 1];
      HornerIsValueReversed(base, init);
      assert Reverse(ds)[1..] == Reverse(init);
    }
  }

  /** How many zeros a digit list starts with. */
  function LeadingZeros(ds: seq<nat>): (z: nat)
    ensures z <= |ds|
    ensures forall k :: 0 <= k < z ==> ds[k] == 0
    ensures z < |ds| ==> ds[z] != 0
  {
    if ds == [] || ds[0] != 0 then 0 else 1 + LeadingZeros(ds[1..])
  }

  function Zeros(n: nat): (r: seq<nat>)
    ensures |r| == n && forall k :: 0 <= k < n ==> r[k] == 0
  {
    seq(n, _ => 0)
  }

  /** Rewrites a big-endian digit list in another base, leading zeros kept one for one. */
  function Convert(from: nat, to: nat, ds: seq<nat>): (r: seq<nat>)
    requires from >= 2 && to >= 2
    ensures Below(to, r)
  {
    var z := LeadingZeros(ds);
    DigitsSpec(to, Horner(from, ds[z..]));
    Zeros(z) + Reverse(Digits(to, Horner(from, ds[z..])))
  }

  lemma ConvertSpec(from: nat, to: nat, ds: seq<nat>)
    requires from >= 2 && to >= 2
    ensures var r, z := Convert(from, to, ds), LeadingZeros(ds);
            && LeadingZeros(r) == z
            && Horner(to, r[z..]) == Horner(from, ds[z..])
  {
    var z := LeadingZeros(ds);
    var digits := Digits(to, Horner(from, ds[z..]));
    DigitsSpec(to, Horner(from, ds[z..]));
    ZerosThen(z, Reverse(digits));
    HornerIsValueReversed(to, Reverse(digits));
    ReverseTwice(digits);
  }

  lemma ConvertParts(from: nat, to: nat, ds: seq<nat>, zeros: nat)
    requires from >= 2 && to >= 2 && zeros == LeadingZeros(ds)
    ensures Convert(from, to, ds) == Zeros(zeros) + Reverse(Digits(to, Horner(from, ds[zeros..])))
  {
  }

  lemma ReverseTwice(s: seq<nat>)
    ensures Reverse(Reverse(s)) == s
  {
  }

  lemma ZerosThen(z: nat, rest: seq<nat>)
    requires rest != [] ==> rest[0] != 0
    ensures LeadingZeros(Zeros(z) + rest) == z && (Zeros(z) + rest)[z..] == rest
  {
    var all := Zeros(z) + rest;
    var n := LeadingZeros(all);
    assert forall k :: 0 <= k < z ==> all[k] == 0;
    assert rest != [] ==> all[z] == rest[0];
  }

  /** Leading zeros do not count. */
  lemma {:induction false} ZerosInFront(base: nat, ds: seq<nat>, z: nat)
    requires z <= LeadingZeros(ds)
    ensures Horner(base, ds) == Horner(base, ds[z..])
    decreases |ds|
  {
    if z == |ds| {
      ZeroNumber(base, ds);
    } else {
      var init := ds[..|ds| - 1];
      ZerosOfInit(ds, z);
      ZerosInFront(base, init, z);
      assert ds[z..][..|ds| - z - 1] == init[z..];
    }
  }

  lemma ZerosOfInit(ds: seq<nat>, z: nat)
    requires z <= LeadingZeros(ds) && z < |ds|
    ensures z <= LeadingZeros(ds[..|ds| - 1])
  {
    var init := ds[..|ds| - 1];
    assert forall k :: 0 <= k < z ==> init[k] == ds[k] == 0;
  }

  lemma {:induction false} ZeroNumber(base: nat, ds: seq<nat>)
    requires LeadingZeros(ds) == |ds|
    ensures Horner(base, ds) == 0
  {
    if ds != [] {
      ZerosOfInit(ds, |ds| - 1);
      ZeroNumber(base, ds[..|ds| - 1]);
    }
  }

  /** Digits without leading zeros are recovered from their value. */
  lemma SignificantDigits(base: nat, tail: seq<nat>)
    requires base >= 2 && Below(base, tail) && (tail != [] ==> tail[0] != 0)
    ensures Reverse(Digits(base, Horner(base, tail))) == tail
  {
    HornerIsValueReversed(base, tail);
    DigitsSpec(base, Horner(base, tail));
    CanonicalUnique(base, Digits(base, Horner(base, tail)), Reverse(tail));
    ReverseTwice(tail);
  }

  /** Converting to another base and back is the identity on in-range digits. */
  lemma ConvertInverse(from: nat, to: nat, ds: seq<nat>)
    requires from >= 2 && to >= 2 && Below(from, ds)
    ensures Convert(to, from, Convert(from, to, ds)) == ds
  {
    var z := LeadingZeros(ds);
    var there := Convert(from, to, ds);
    ConvertSpec(from, to, ds);
    ConvertParts(to, from, there, z);
    SignificantDigits(from, ds[z..]);
    ZerosAndTail(ds);
  }

  lemma ZerosAndTail(ds: seq<nat>)
    ensures Zeros(LeadingZeros(ds)) + ds[LeadingZeros(ds)..] == ds
  {
  }

  function Pow(base: nat, n: nat): (p: nat)
    ensures base >= 1 ==> p >= 1
  {
    if n == 0 then 1 else base * Pow(base, n - 1)
  }

  lemma {:induction false} PowAdd(base: nat, m: nat, n: nat)
    ensures Pow(base, m + n) == Pow(base, m) * Pow(base, n)
  {
    if m > 0 {
      PowAdd(base, m - 1, n);
      MulAssociative(base, Pow(base, m - 1), Pow(base, n));
    }
  }

  lemma MulAssociative(a: nat, b: nat, c: nat)
    ensures a * (b * c) == (a * b) * c
  {
  }

  lemma {:induction false} PowMonotone(a: nat, b: nat, n: nat)
    requires a <= b
    ensures Pow(a, n) <= Pow(b, n)
  {
    if n > 0 {
      PowMonotone(a, b, n - 1);
      assert a * Pow(a, n - 1) <= b * Pow(b, n - 1) by {
        MulMonotone(a, b, Pow(a, n - 1), Pow(b, n - 1));
      }
    }
  }

  lemma MulMonotone(a: nat, b: nat, c: nat, d: nat)
    requires a <= b && c <= d
    ensures a * c <= b * d
  {
    assert a * c <= a * d <= b * d;
  }

  lemma {:induction false} HornerBound(base: nat, ds: seq<nat>)
    requires base >= 1 && Below(base, ds)
    ensures Horner(base, ds) < Pow(base, |ds|)
  {
    if ds != [] {
      HornerBound(base, ds[..|ds| - 1]);
      HornerBoundStep(base, Horner(base, ds[..|ds| - 1]), Pow(base, |ds| - 1), ds[|ds| - 1]);
    }
  }

  lemma ConvertLength(from: nat, to: nat, ds: seq<nat>, k: nat)
    requires from >= 2 && to >= 2 && Below(from, ds)
    requires LeadingZeros(ds) <= k && Pow(from, |ds| - LeadingZeros(ds)) <= Pow(to, k - LeadingZeros(ds))
    ensures |Convert(from, to, ds)| <= k
  {
    var z := LeadingZeros(ds);
    HornerBound(from, ds[z..]);
    FewDigits(to, Horner(from, ds[z..]), k - z);
  }

  lemma FewDigits(base: nat, v: nat, n: nat)
    requires base >= 2 && v < Pow(base, n)
    ensures |Digits(base, v)| <= n
  {
    var ds := Digits(base, v);
    DigitsSpec(base, v);
    if |ds| > n {
      CanonicalLength(base, ds);
      PowAdd(base, n, |ds| - 1 - n);
      MulMonotone(Pow(base, n), Pow(base, n), 1, Pow(base, |ds| - 1 - n));
    }
  }

  lemma HornerBoundStep(base: nat, h: nat, p: nat, d: nat)
    requires h < p && d < base
    ensures h * base + d < base * p
  {
    MulMonotone(h + 1, p, base, base);
  }

  /** A canonical list of n digits stands for at least base^(n-1). */
  lemma {:induction false} CanonicalLength(base: nat, ds: seq<nat>)
    requires base >= 2 && Canonical(base, ds) && ds != []
    ensures Value(base, ds) >= Pow(base, |ds| - 1)
  {
    if |ds| > 1 {
      CanonicalLength(base, ds[1..]);
      MulMonotone(base, base, Pow(base, |ds| - 2), Value(base, ds[1..]));
    }
  }
}
