/** Positional numerals, most significant digit first.

    Three parts of the wallet convert between integers and digit strings: base-58 addresses,
    32-byte ABI words (`big.Int.Bytes` is the base-256 case) and decimal numbers inside type
    strings.  They all rest on the same two facts: `Value` undoes `Digits`, and `Digits` undoes
    `Value` on digit strings without a leading zero. */
module Numerals {
  import opened Sequences

  type byte = b: int | 0 <= b < 256

  /** The number a digit string stands for. */
  function Value(ds: seq<nat>, base: nat): (v: nat)
    requires base >= 2
  {
    if ds == [] then 0 else Value(ds[..|ds| - 1], base) * base + ds[|ds| - 1]
  }

  /** The shortest digit string of `n`; zero has no digits at all, as in `big.Int.Bytes`. */
  function Digits(n: nat, base: nat): (ds: seq<nat>)
    requires base >= 2
    ensures forall i :: 0 <= i < |ds| ==> ds[i] < base
    ensures ds != [] ==> ds[0] != 0
    ensures n == 0 <==> ds == []
  {
    if n == 0 then [] else
      DivShrinks(n, base);
      assert n / base == 0 ==> n % base == n by { if n / base == 0 { DivMod(n, base); } }
      Digits(n / base, base) + [n % base]
  }

  predicate Below(ds: seq<nat>, base: nat) {
    forall i :: 0 <= i < |ds| ==> ds[i] < base
  }

  /** How many elements at the front equal `x`. */
  function CountLeading<T(==)>(s: seq<T>, x: T): (k: nat)
    ensures k <= |s|
    ensures forall i :: 0 <= i < k ==> s[i] == x
    ensures k < |s| ==> s[k] != x
  {
    if s == [] || s[0] != x then 0 else 1 + CountLeading(s[1..], x)
  }

  function Power(base: nat, k: nat): (p: nat)
    ensures base >= 1 ==> p >= 1
  {
    if k == 0 then 1 else base * Power(base, k - 1)
  }

  lemma {:induction false} DivMod(n: nat, base: nat)
    requires base >= 1
    ensures n == (n / base) * base + n % base
    ensures 0 <= n % base < base
  {
  }

  lemma {:induction false} MulMonotone(a: int, b: int, c: nat)
    ensures a <= b ==> a * c <= b * c
  {
  }

  lemma {:induction false} DivShrinks(n: nat, base: nat)
    requires n > 0 && base >= 2
    ensures 0 <= n / base < n
  {
    var q := n / base;
    DivMod(n, base);
    MulMonotone(2, base, q);
    assert q * 2 <= q * base;
  }

  lemma {:induction false} DivModUnique(q: nat, r: nat, base: nat)
    requires r < base
    ensures (q * base + r) / base == q && (q * base + r) % base == r
  {
    var n := q * base + r;
    var q', r' := n / base, n % base;
    DivMod(n, base);
    MulMonotone(q' + 1, q, base);
    MulMonotone(q + 1, q', base);
    assert (q' + 1) * base == q' * base + base && (q + 1) * base == q * base + base;
  }

  // ----- the two round trips -----

  lemma {:induction false} ValueOfDigits(n: nat, base: nat)
    requires base >= 2
    ensures Value(Digits(n, base), base) == n
  {
    if n != 0 {
      DivShrinks(n, base);
      ValueOfDigits(n / base, base);
      DivMod(n, base);
      assert Digits(n, base)[..|Digits(n, base)| - 1] == Digits(n / base, base);
    }
  }

  lemma {:induction false} ValuePositive(ds: seq<nat>, base: nat)
    requires base >= 2
    requires ds != [] && ds[0] != 0
    ensures Value(ds, base) > 0
  {
    var init := ds[..|ds| - 1];
    if init != [] {
      ValuePositive(init, base);
      assert Value(init, base) * base >= 1;
    }
  }

  lemma {:induction false} DigitsOfValue(ds: seq<nat>, base: nat)
    requires base >= 2
    requires Below(ds, base)
    requires ds != [] ==> ds[0] != 0
    ensures Digits(Value(ds, base), base) == ds
  {
    if ds != [] {
      var init, last := ds[..|ds| - 1], ds[|ds| - 1];
      DigitsOfValue(init, base);
      ValuePositive(ds, base);
      DivModUnique(Value(init, base), last, base);
      assert ds == init + [last];
    }
  }

  // ----- leading zeros and concatenation -----

  lemma {:induction false} LeadingZeros(k: nat, ds: seq<nat>, base: nat)
    requires base >= 2
    ensures Value(Repeat(0, k) + ds, base) == Value(ds, base)
  {
    var all := Repeat(0, k) + ds;
    if ds != [] {
      assert all[..|all| - 1] == Repeat(0, k) + ds[..|ds| - 1];
      LeadingZeros(k, ds[..|ds| - 1], base);
    } else if k > 0 {
      assert all[..|all| - 1] == Repeat(0, k - 1) + ds;
      LeadingZeros(k - 1, ds, base);
    }
  }

  lemma {:induction false} ValueBound(ds: seq<nat>, base: nat)
    requires base >= 2
    requires Below(ds, base)
    ensures Value(ds, base) < Power(base, |ds|)
  {
    if ds != [] {
      var init := ds[..|ds| - 1];
      ValueBound(init, base);
      var v := Value(init, base);
      MulMonotone(v + 1, Power(base, |init|), base);
      assert (v + 1) * base == v * base + base;
    }
  }

  lemma {:induction false} DigitsLength(n: nat, base: nat, k: nat)
    requires base >= 2
    requires n < Power(base, k)
    ensures |Digits(n, base)| <= k
  {
    if n != 0 && k > 0 {
      DivShrinks(n, base);
      DivMod(n, base);
      MulMonotone(Power(base, k - 1), n / base, base);
      DigitsLength(n / base, base, k - 1);
    }
  }

  lemma {:induction false} MulAssociates(a: nat, b: nat, c: nat)
    ensures a * (b * c) == (a * b) * c
  {
  }

  lemma {:induction false} PowerAdd(base: nat, i: nat, j: nat)
    ensures Power(base, i + j) == Power(base, i) * Power(base, j)
  {
    if i != 0 {
      PowerAdd(base, i - 1, j);
      assert Power(base, i + j) == base * Power(base, (i - 1) + j);
      MulAssociates(base, Power(base, i - 1), Power(base, j));
    }
  }

  /** A larger exponent gives no smaller power. */
  lemma {:induction false} PowerMonotone(base: nat, i: nat, j: nat)
    requires base >= 1 && i <= j
    ensures Power(base, i) <= Power(base, j)
    decreases j
  {
    if i < j {
      PowerMonotone(base, i, j - 1);
      assert base * Power(base, j - 1) >= Power(base, j - 1);
    }
  }

  /** Splitting off leading elements: a string is its leading run plus the rest. */
  lemma {:induction false} LeadingRun<T>(s: seq<T>, x: T)
    ensures s == Repeat(x, CountLeading(s, x)) + s[CountLeading(s, x)..]
  {
  }

  lemma {:induction false} CountLeadingOfRun<T>(x: T, k: nat, rest: seq<T>)
    requires rest != [] ==> rest[0] != x
    ensures CountLeading(Repeat(x, k) + rest, x) == k
  {
    var s := Repeat(x, k) + rest;
    if k > 0 {
      assert s[1..] == Repeat(x, k - 1) + rest;
      CountLeadingOfRun(x, k - 1, rest);
    }
  }

  // ----- change of base -----

  /** Rewrites a digit string in another base, one leading zero for each leading zero. */
  function Rebase(ds: seq<nat>, from: nat, to: nat): (r: seq<nat>)
    requires from >= 2 && to >= 2
    ensures Below(r, to)
  {
    Repeat(0, CountLeading(ds, 0)) + Digits(Value(ds, from), to)
  }

  /** A change of base keeps the number and the leading zeros. */
  lemma {:induction false} RebaseNumber(ds: seq<nat>, from: nat, to: nat)
    requires from >= 2 && to >= 2
    ensures Value(Rebase(ds, from, to), to) == Value(ds, from)
    ensures CountLeading(Rebase(ds, from, to), 0) == CountLeading(ds, 0)
  {
    var k, image := CountLeading(ds, 0), Digits(Value(ds, from), to);
    LeadingZeros(k, image, to);
    ValueOfDigits(Value(ds, from), to);
    CountLeadingOfRun(0, k, image);
  }

  /** Changing the base and changing it back is the identity on all digit strings. */
  lemma {:induction false} RebaseBack(ds: seq<nat>, from: nat, to: nat)
    requires from >= 2 && to >= 2
    requires Below(ds, from)
    ensures Rebase(Rebase(ds, from, to), to, from) == ds
  {
    var k := CountLeading(ds, 0);
    var rest := ds[k..];
    var image := Digits(Value(ds, from), to);
    LeadingRun(ds, 0);
    LeadingZeros(k, rest, from);
    DigitsOfValue(rest, from);
    LeadingZeros(k, image, to);
    ValueOfDigits(Value(ds, from), to);
    CountLeadingOfRun(0, k, image);
  }
}
