/** Powers of two. */
module Powers {

  function Pow2(b: nat): (p: nat)
    ensures p > 0
  {
    if b == 0 then 1 else 2 * Pow2(b - 1)
  }

  lemma {:induction false} PowGrows(b: nat)
    ensures Pow2(b) > b
  {
    if b > 0 {
      PowGrows(b - 1);
    }
  }

  lemma {:induction false} PowAdds(a: nat, b: nat, p: nat, q: nat)
    requires Pow2(a) == p && Pow2(b) == q
    ensures Pow2(a + b) == p * q
  {
    if a > 0 {
      PowAdds(a - 1, b, Pow2(a - 1), q);
      assert 2 * Pow2(a - 1) * q == 2 * (Pow2(a - 1) * q);
    }
  }

  lemma {:induction false} PowInOrder(a: nat, b: nat)
    requires a <= b
    ensures Pow2(a) <= Pow2(b)
  {
    if a < b {
      PowInOrder(a, b - 1);
    }
  }
}
