/** Positional numerals in any base, most significant digit first. */
module Numerals {

  function Value(digits: seq<nat>, base: nat): nat {
    if digits == [] then 0 else Value(digits[..|digits| - 1], base) * base + digits[|digits| - 1]
  }

  /** The digits of `n` without leading zeros; none for zero. */
  function Digits(n: nat, base: nat): seq<nat>
    requires base >= 2
  {
    if n == 0 then [] else Digits(n / base, base) + [n % base]
  }

  ghost predicate Proper(digits: seq<nat>, base: nat) {
    forall i :: 0 <= i < |digits| ==> digits[i] < base
  }

  function Zeros(n: nat): (r: seq<nat>)
    ensures |r| == n && forall i :: 0 <= i < n ==> r[i] == 0
  {
    seq(n, _ => 0)
  }

  function LeadingZeros(digits: seq<nat>): (r: nat)
    ensures r <= |digits|
    ensures forall i :: 0 <= i < r ==> digits[i] == 0
    ensures r < |digits| ==> digits[r] != 0
  {
    if digits == [] || digits[0] != 0 then 0 else 1 + LeadingZeros(digits[1..])
  }

  lemma ValueSnoc(digits: seq<nat>, d: nat, base: nat)
    ensures Value(digits + [d], base) == Value(digits, base) * base + d
  {
    assert (digits + [d])[..|digits|] == digits;
  }

  lemma MultipleOutside(k: int, base: nat)
    ensures k >= 1 ==> k * base >= base
    ensures k <= -1 ==> k * base + base <= 0
  {
  }

  lemma DivMod(q: nat, d: nat, base: nat)
    requires d < base
    ensures (q * base + d) / base == q && (q * base + d) % base == d
  {
    var n := q * base + d;
    var k := n / base - q;
    assert k * base == d - n % base by {
      assert n == n / base * base + n % base;
      assert k * base == n / base * base - q * base;
    }
    MultipleOutside(k, base);
  }

  lemma QuotientSmaller(n: nat, base: nat)
    requires base >= 2 && n > 0
    ensures 0 <= n / base < n && 0 <= n % base < base && n == n / base * base + n % base
  {
  }

  lemma DigitsSplit(n: nat, base: nat)
    requires base >= 2 && n > 0
    ensures Digits(n, base) == Digits(n / base, base) + [n % base]
  {
  }

  lemma {:induction false} DigitsValue(n: nat, base: nat)
    requires base >= 2
    ensures Value(Digits(n, base), base) == n
    ensures Proper(Digits(n, base), base)
    decreases n
  {
    if n > 0 {
      QuotientSmaller(n, base);
      DigitsSplit(n, base);
      var q, d := n / base, n % base;
      DigitsValue(q, base);
      ValueSnoc(Digits(q, base), d, base);
    }
  }

  lemma {:induction false} DigitsFirst(n: nat, base: nat)
    requires base >= 2 && n > 0
    ensures Digits(n, base) != [] && Digits(n, base)[0] != 0
    decreases n
  {
    QuotientSmaller(n, base);
    DigitsSplit(n, base);
    if n / base == 0 {
      assert Digits(0, base) == [];
    } else {
      DigitsFirst(n / base, base);
    }
  }

  lemma {:induction false} ValuePositive(digits: seq<nat>, base: nat)
    requires base >= 2 && digits != [] && digits[0] != 0
    ensures Value(digits, base) > 0
  {
    if |digits| > 1 {
      ValuePositive(digits[..|digits| - 1], base);
    } else {
      assert digits == [] + [digits[0]];
      ValueSnoc([], digits[0], base);
    }
  }

  /** A numeral without leading zeros is the one `Digits` writes. */
  lemma {:induction false} DigitsUnique(digits: seq<nat>, base: nat)
    requires base >= 2 && Proper(digits, base) && (digits != [] ==> digits[0] != 0)
    ensures Digits(Value(digits, base), base) == digits
  {
    if digits != [] {
      var init, last := digits[..|digits| - 1], digits[|digits| - 1];
      assert digits == init + [last];
      ValuePositive(digits, base);
      DigitsUnique(init, base);
      DivMod(Value(init, base), last, base);
    }
  }

  lemma {:induction false} ValueIgnoresZeros(k: nat, digits: seq<nat>, base: nat)
    ensures Value(Zeros(k) + digits, base) == Value(digits, base)
  {
    if digits == [] {
      if k > 0 {
        assert Zeros(k) + [] == (Zeros(k - 1) + []) + [0];
        ValueIgnoresZeros(k - 1, [], base);
        ValueSnoc(Zeros(k - 1) + [], 0, base);
      }
    } else {
      var init, last := digits[..|digits| - 1], digits[|digits| - 1];
      assert Zeros(k) + digits == (Zeros(k) + init) + [last];
      ValueIgnoresZeros(k, init, base);
      ValueSnoc(Zeros(k) + init, last, base);
    }
  }

  /** Rewrites a numeral from one base to another, keeping the number of leading zeros. */
  function Convert(digits: seq<nat>, from: nat, to: nat): seq<nat>
    requires to >= 2
  {
    Zeros(LeadingZeros(digits)) + Digits(Value(digits, from), to)
  }

  lemma ZerosCounted(k: nat, digits: seq<nat>)
    requires digits != [] ==> digits[0] != 0
    ensures LeadingZeros(Zeros(k) + digits) == k
  {
    var padded := Zeros(k) + digits;
    assert forall i :: 0 <= i < k ==> padded[i] == 0;
    assert digits != [] ==> padded[k] == digits[0];
  }

  lemma SplitZeros(digits: seq<nat>) returns (k: nat, significant: seq<nat>)
    ensures k == LeadingZeros(digits) && k <= |digits| && significant == digits[k..]
    ensures digits == Zeros(k) + significant && (significant != [] ==> significant[0] != 0)
  {
    k := LeadingZeros(digits);
    significant := digits[k..];
  }

  /** A padded numeral converts to the number it denotes, padded as much. */
  lemma ConvertPadded(k: nat, digits: seq<nat>, n: nat, from: nat, to: nat)
    requires to >= 2 && Value(digits, from) == n && (digits != [] ==> digits[0] != 0)
    ensures Convert(Zeros(k) + digits, from, to) == Zeros(k) + Digits(n, to)
  {
    ZerosCounted(k, digits);
    ValueIgnoresZeros(k, digits, from);
  }

  /** Converting there and back is the identity, for every numeral of the first base. */
  lemma ConvertBack(digits: seq<nat>, from: nat, to: nat)
    requires from >= 2 && to >= 2 && Proper(digits, from)
    ensures Proper(Convert(digits, from, to), to)
    ensures Convert(Convert(digits, from, to), to, from) == digits
  {
    var k, significant := SplitZeros(digits);
    var n := Value(significant, from);
    ConvertPadded(k, significant, n, from, to);
    DigitsValue(n, to);
    if n > 0 {
      DigitsFirst(n, to);
    }
    ConvertPadded(k, Digits(n, to), n, to, from);
    DigitsUnique(significant, from);
  }
}
