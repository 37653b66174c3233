/** The card-number check: the Luhn formula of ISO/IEC 7812-1, Annex B. Which typing errors it catches
    is proved for digit strings of every length. */
module Luhn {

  type Digit = d: int | 0 <= d < 10

  /** What one digit adds: every second digit from the right counts double, with its digits summed. */
  function Weigh(d: Digit, doubled: bool): nat {
    if !doubled then d else if 2 * d > 9 then 2 * d - 9 else 2 * d
  }

  /** Doubled, a digit counts the digits of twice itself. */
  lemma {:induction false} WeighIsDigitSum(d: Digit)
    ensures Weigh(d, false) == d && Weigh(d, true) == 2 * d / 10 + 2 * d % 10
  {
  }

  function Sum(digits: seq<Digit>, doubled: bool): nat {
    if digits == [] then 0
    else
      var last := |digits| - 1;
      Weigh(digits[last], doubled) + Sum(digits[..last], !doubled)
  }

  predicate Valid(digits: seq<Digit>) {
    Sum(digits, false) % 10 == 0
  }

  /** The loop over the digits from the right. */
  method Check(digits: seq<Digit>) returns (valid: bool)
    ensures valid == Valid(digits)
  {
    var total, odd, i := 0, false, |digits|;
    assert digits[..i] == digits;
    while i > 0
      invariant 0 <= i <= |digits|
      invariant total + Sum(digits[..i], odd) == Sum(digits, false)
    {
      i := i - 1;
      var n: int := digits[i] as int * (if odd then 2 else 1);
      assert digits[..i + 1][..i] == digits[..i];
      total := total + (if n > 9 then n - 9 else n);
      odd := !odd;
    }
    valid := total % 10 == 0;
  }

  /** Whether the digit at index i of a string of length n counts double. */
  predicate Doubled(n: nat, i: nat, doubled: bool)
    requires i < n
  {
    if (n - 1 - i) % 2 == 0 then doubled else !doubled
  }

  /** Changing one digit changes the sum by the difference of its weights. */
  lemma {:induction false} SumUpdate(digits: seq<Digit>, i: nat, x: Digit, doubled: bool)
    requires i < |digits|
    ensures Sum(digits[i := x], doubled) - Sum(digits, doubled)
         == Weigh(x, Doubled(|digits|, i, doubled)) - Weigh(digits[i], Doubled(|digits|, i, doubled))
  {
    var last := |digits| - 1;
    if i == last {
      assert digits[i := x][..last] == digits[..last];
    } else {
      assert digits[i := x][..last] == digits[..last][i := x];
      SumUpdate(digits[..last], i, x, !doubled);
    }
  }

  /** Weighing is a permutation of the ten digits. */
  lemma {:induction false} WeighInjective(a: Digit, b: Digit, doubled: bool)
    ensures Weigh(a, doubled) < 10
    ensures Weigh(a, doubled) == Weigh(b, doubled) ==> a == b
  {
  }

  /** Every single wrong digit is caught. */
  lemma WrongDigitIsCaught(digits: seq<Digit>, i: nat, x: Digit)
    requires i < |digits| && x != digits[i] && Valid(digits)
    ensures !Valid(digits[i := x])
  {
    hide Sum;
    SumUpdate(digits, i, x, false);
    WeighInjective(x, digits[i], Doubled(|digits|, i, false));
    WeighInjective(digits[i], x, Doubled(|digits|, i, false));
  }

  function Swap(digits: seq<Digit>, i: nat): (r: seq<Digit>)
    requires i + 1 < |digits|
  {
    digits[i := digits[i + 1]][i + 1 := digits[i]]
  }

  /** Swapping two neighbours goes unnoticed exactly when they are equal or are 0 and 9. */
  lemma SwapIsCaughtExceptNineZero(digits: seq<Digit>, i: nat)
    requires i + 1 < |digits| && Valid(digits)
    ensures Valid(Swap(digits, i)) <==>
              digits[i] == digits[i + 1] || {digits[i] as int, digits[i + 1] as int} == {0, 9}
  {
    hide Sum;
    hide Swap;
    var a, b, left := digits[i], digits[i + 1], Doubled(|digits|, i, false);
    SwapChangesSum(digits, i, left);
    SwapWeights(a, b, left);
    SameRemainder(Sum(Swap(digits, i), false), Sum(digits, false),
                  Weigh(b, left) - Weigh(a, left) + Weigh(a, !left) - Weigh(b, !left));
  }

  lemma {:induction false} SameRemainder(x: int, y: int, change: int)
    requires x == y + change && y % 10 == 0
    ensures x % 10 == 0 <==> change % 10 == 0
  {
  }

  lemma {:induction false} SwapChangesSum(digits: seq<Digit>, i: nat, left: bool)
    requires i + 1 < |digits| && left == Doubled(|digits|, i, false)
    ensures var a, b := digits[i], digits[i + 1];
            Sum(Swap(digits, i), false) ==
              Sum(digits, false) + (Weigh(b, left) - Weigh(a, left) + Weigh(a, !left) - Weigh(b, !left))
  {
    hide Sum;
    hide Weigh;
    var a, b := digits[i], digits[i + 1];
    SumUpdate(digits, i, b, false);
    SumUpdate(digits[i := b], i + 1, a, false);
    assert Doubled(|digits|, i + 1, false) == !left;
  }

  lemma {:induction false} SwapWeights(a: Digit, b: Digit, left: bool)
    ensures (Weigh(b, left) - Weigh(a, left) + Weigh(a, !left) - Weigh(b, !left)) % 10 == 0 <==>
              a == b || {a as int, b as int} == {0, 9}
  {
    if {a as int, b as int} == {0, 9} {
      assert 0 in {a as int, b as int} && 9 in {a as int, b as int};
      assert (a == 0 && b == 9) || (a == 9 && b == 0);
    }
    if (a == 0 && b == 9) || (a == 9 && b == 0) {
      assert {a as int, b as int} == {0, 9};
    }
  }

  /** The check digit that completes a prefix. */
  function CheckDigit(prefix: seq<Digit>): Digit {
    (10 - Sum(prefix, true) % 10) % 10
  }

  /** Each prefix is completed by exactly one check digit. */
  lemma {:induction false} OneCheckDigit(prefix: seq<Digit>, c: Digit)
    ensures Valid(prefix + [c]) <==> c == CheckDigit(prefix)
  {
    assert (prefix + [c])[..|prefix|] == prefix;
  }
}
