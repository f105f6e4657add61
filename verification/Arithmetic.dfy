/** Facts about remainders that the padding of device lists rests on. */
module Arithmetic {

  lemma {:induction false} MultipleIsLarge(d: int, size: nat)
    ensures d > 0 ==> d * size >= size
    ensures d < 0 ==> d * size + size <= 0
    decreases if d > 0 then d else -d
  {
    if d > 1 {
      MultipleIsLarge(d - 1, size);
      assert d * size == (d - 1) * size + size;
    } else if d < -1 {
      MultipleIsLarge(d + 1, size);
      assert d * size == (d + 1) * size - size;
    }
  }

  lemma DivisionIsUnique(m: nat, size: nat, q: int, rem: nat)
    requires rem < size && m == q * size + rem
    ensures m % size == rem && m / size == q
  {
    var d := m / size - q;
    assert d * size == rem - m % size;
    MultipleIsLarge(d, size);
  }

  predicate Multiple(n: nat, size: nat)
    requires size > 0
  {
    n % size == 0
  }

  /** A multiple of `size` beyond `size` stays a multiple of at least `size` when `size` is taken off. */
  lemma MultipleMinus(n: nat, size: nat, m: nat)
    requires 0 < size < n && Multiple(n, size) && m == n - size
    ensures m >= size && Multiple(m, size) && m / size == n / size - 1
  {
    var q := n / size;
    assert m == (q - 1) * size;
    DivisionIsUnique(m, size, q - 1, 0);
    MultipleIsLarge(q - 1, size);
  }

  /** How many elements are missing to the next multiple of `size`. */
  function PadCount(n: nat, size: nat): nat
    requires size > 0
  {
    (size - n % size) % size
  }

  /** Padding completes the least multiple of `size` that is at least n. */
  lemma PaddedLength(n: nat, size: nat)
    requires size > 0
    ensures PadCount(n, size) < size && Multiple(n + PadCount(n, size), size)
    ensures forall m :: n <= m < n + PadCount(n, size) ==> m % size != 0
  {
    var q, rem := n / size, n % size;
    if rem == 0 {
      DivisionIsUnique(size, size, 1, 0);
    } else {
      DivisionIsUnique(size - rem, size, 0, size - rem);
      assert n + (size - rem) == (q + 1) * size;
      DivisionIsUnique(n + (size - rem), size, q + 1, 0);
      forall m | n <= m < n + (size - rem) ensures m % size != 0 {
        DivisionIsUnique(m, size, q, rem + (m - n));
      }
    }
  }

  /** Taking fewer than `size` away from a multiple leaves the rest of that last multiple. */
  lemma WithoutPadding(n: nat, k: nat, size: nat)
    requires k < size && Multiple(n + k, size)
    ensures n % size == if k == 0 then 0 else size - k
  {
    if k > 0 {
      var q := (n + k) / size;
      assert n == (q - 1) * size + (size - k);
      DivisionIsUnique(n, size, q - 1, size - k);
    }
  }
}
