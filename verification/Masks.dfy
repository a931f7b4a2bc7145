/**
 Powers of two as table sizes: masking a hash keeps its remainder.
 */
module Masks {
  import opened Arithmetic

  function Pow2(k: nat): (n: nat)
    ensures n >= 1
  {
    if k == 0 then 1 else 2 * Pow2(k - 1)
  }

  ghost predicate IsPowerOfTwo(n: nat)
  {
    exists k: nat :: n == Pow2(k)
  }

  /** Bitwise conjunction, bit by bit from the low end. */
  function And(a: nat, b: nat): (r: nat)
  {
    if a == 0 || b == 0 then 0 else (a % 2) * (b % 2) + 2 * And(a / 2, b / 2)
  }

  lemma Doubled(n: nat)
    requires IsPowerOfTwo(n)
    ensures IsPowerOfTwo(2 * n)
  {
    var k: nat :| n == Pow2(k);
    assert Pow2(k + 1) == 2 * n;
  }

  lemma HalfOfRemainder(h: nat, n: nat)
    requires n > 0
    ensures h % (2 * n) == h % 2 + 2 * (h / 2 % n)
  {
    var q, r := h / 2 / n, h / 2 % n;
    assert h / 2 == n * q + r;
    assert h == 2 * n * q + (2 * r + h % 2);
    DivUnique(h, 2 * n, q, 2 * r + h % 2);
  }

  lemma {:induction false} MaskOf(h: nat, k: nat)
    ensures And(h, Pow2(k) - 1) == h % Pow2(k)
  {
    if k > 0 {
      var n := Pow2(k - 1);
      HalfOfRemainder(h, n);
      MaskOf(h / 2, k - 1);
      var mask := 2 * n - 1;
      assert mask % 2 == 1 && mask / 2 == n - 1;
      if h == 0 { assert 0 % (2 * n) == 0; }
    }
  }

  /** For a table of `n` slots, masking with `n - 1` is taking the remainder. */
  lemma MaskIsRemainder(h: nat, n: nat)
    requires IsPowerOfTwo(n)
    ensures And(h, n - 1) == h % n
  {
    var k: nat :| n == Pow2(k);
    MaskOf(h, k);
  }

  /** The number of slots: a power of two, at least one and a half times the keys. */
  method TableSize(keys: nat) returns (n: nat)
    ensures n >= 2 && 2 * n >= 3 * keys && keys < n && (n == 2 || n < 3 * keys)
    ensures IsPowerOfTwo(n)
  {
    n := 2;
    assert Pow2(0) == 1 && Pow2(1) == 2;
    while 2 * n < 3 * keys
      invariant n >= 2 && IsPowerOfTwo(n) && (n == 2 || n < 3 * keys)
      decreases 3 * keys - 2 * n
    {
      Doubled(n);
      n := 2 * n;
    }
  }
}
