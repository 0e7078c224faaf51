/** Products and powers. */
module Numbers {
  function Power(b: nat, e: nat): nat {
    if e == 0 then 1 else b * Power(b, e - 1)
  }

  lemma MulMono(a: nat, b: nat, c: nat)
    requires a <= b
    ensures a * c <= b * c
  {}

  lemma MulFlip(a: nat, b: nat)
    ensures a * b == b * a
  {}

  lemma MulNext(a: nat, c: nat)
    requires a > 0
    ensures a * c == (a - 1) * c + c
  {}

  lemma MulLess(f: nat, a: nat, b: nat)
    requires f * a < f * b
    ensures a < b
  {
    if b <= a {
      MulMono(b, a, f);
      MulFlip(a, f);
      MulFlip(b, f);
    }
  }

  lemma DivTimes(a: nat, f: nat)
    requires f > 0
    ensures f * (a / f) <= a
  {}
}
