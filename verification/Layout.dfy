/** Equal parts laid end to end, as rows in a slice and chunks in a haystack are, and the small arithmetic of sharing out. */
module Layout {

  /** Where part number `part` starts, each part having `size` cells. */
  function PartStart(size: nat, part: nat): nat {
    if part == 0 then 0 else PartStart(size, part - 1) + size
  }

  lemma {:induction false} PartStartIsProduct(size: nat, part: nat)
    ensures PartStart(size, part) == part * size
  {
    if part > 0 {
      PartStartIsProduct(size, part - 1);
      assert part * size == (part - 1) * size + size;
    }
  }

  lemma {:induction false} PartsBefore(size: nat, a: nat, b: nat)
    requires a < b
    ensures PartStart(size, a) + size <= PartStart(size, b)
  {
    if a + 1 < b {
      PartsBefore(size, a, b - 1);
    }
  }

  function DivCeil(a: nat, b: nat): (q: nat)
    requires b > 0
    ensures a <= q * b < a + b
  {
    var q := (a + b - 1) / b;
    assert a + b - 1 == q * b + (a + b - 1) % b;
    q
  }

  function Min(a: nat, b: nat): nat {
    if a < b then a else b
  }

  function Max(a: nat, b: nat): nat {
    if a < b then b else a
  }

  function Clamp(i: int, lo: nat, hi: nat): (c: nat)
    requires lo <= hi
    ensures lo <= c <= hi
  {
    if i < lo then lo else if i > hi then hi else i
  }

  function Below(n: nat): (s: set<nat>)
    ensures |s| == n
    ensures forall i: nat :: i in s <==> i < n
  {
    if n == 0 then {} else Below(n - 1) + {n - 1}
  }
}
