/** Division by a unit the solver is not told more about. */
module Arithmetic {
  lemma DivMod(x: nat, unit: nat)
    requires 0 < unit
    ensures x == x / unit * unit + x % unit && 0 <= x % unit < unit
  {
  }

  lemma {:induction false} Multiple(q: nat, unit: nat)
    requires 0 < unit
    ensures q <= q * unit
  {
  }

  lemma AtLeast(d: int, unit: nat)
    requires 0 < unit
    ensures d >= 1 ==> d * unit >= unit
  {
  }

  lemma DivMul(q: nat, unit: nat)
    requires 0 < unit
    ensures q * unit / unit == q
  {
    var n := q * unit;
    DivMod(n, unit);
    var d := q - n / unit;
    assert d * unit == q * unit - n / unit * unit;
    AtLeast(d, unit);
    AtLeast(-d, unit);
    assert (-d) * unit == -(d * unit);
  }

  lemma SmallerOver(x: nat, unit: nat)
    requires 0 < unit
    ensures 0 <= x / unit <= x
  {
    var q := x / unit;
    DivMod(x, unit);
    Multiple(q, unit);
  }

  lemma DivMono(a: nat, b: nat, unit: nat)
    requires 0 < unit && a <= b
    ensures a / unit <= b / unit
  {
    DivMod(a, unit);
    DivMod(b, unit);
    var d := a / unit - b / unit;
    AtLeast(d, unit);
    assert d * unit == a / unit * unit - b / unit * unit;
  }

  /** The size in whole units of a block for n bytes. */
  function RoundUp(n: nat, unit: nat): nat
    requires unit > 0
  {
    (n + unit - 1) / unit * unit
  }

  lemma RoundsUp(n: nat, unit: nat)
    requires unit > 0 && n > 0
    ensures n <= RoundUp(n, unit) < n + unit && RoundUp(n, unit) % unit == 0
  {
    var q := (n + unit - 1) / unit;
    DivMod(n + unit - 1, unit);
    DivMul(q, unit);
    DivMod(q * unit, unit);
  }

  // Quotients and multiples by name, for proofs that only need their bounds.

  function Over(x: nat, unit: nat): nat
    requires 0 < unit
  {
    x / unit
  }

  function Times(q: nat, unit: nat): nat {
    q * unit
  }

  lemma OverBounds(x: nat, unit: nat)
    requires 0 < unit
    ensures Times(Over(x, unit), unit) <= x < Times(Over(x, unit), unit) + unit
  {
    DivMod(x, unit);
  }

  lemma OverTimes(q: nat, unit: nat)
    requires 0 < unit
    ensures Over(Times(q, unit), unit) == q
  {
    DivMul(q, unit);
  }

  lemma TimesMore(a: nat, b: nat, unit: nat)
    requires 0 < unit && a <= b
    ensures Times(a, unit) <= Times(b, unit) && (a < b ==> Times(a, unit) + unit <= Times(b, unit))
  {
    AtLeast(b - a, unit);
    assert (b - a) * unit == b * unit - a * unit;
  }

  lemma OverMono(a: nat, b: nat, unit: nat)
    requires 0 < unit && a <= b
    ensures Over(a, unit) <= Over(b, unit) <= b
  {
    DivMono(a, b, unit);
    SmallerOver(b, unit);
  }

  lemma SmallMod(x: nat, n: nat)
    requires x < n
    ensures x % n == x
  {
  }

  lemma AtLeastOver(x: nat, unit: nat, q: nat)
    requires 0 < unit
    ensures q <= x / unit <==> q * unit <= x
  {
    DivMod(x, unit);
    var d := q - x / unit;
    AtLeast(d, unit);
    AtLeast(1 - d, unit);
    assert d * unit == q * unit - x / unit * unit;
    assert (1 - d) * unit == unit - d * unit;
  }
}
