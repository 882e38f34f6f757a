/** Counting round a fixed number of slots, without a symbolic modulus. */
module Counting {

  /** A multiple of `n` strictly between `-n` and `n` is 0. */
  lemma MulSmall(k: int, n: int, d: int)
    requires n > 0 && k * n == d && -n < d < n
    ensures k == 0
  {
  }

  /** Euclidean division is unique: `a == q * n + r` with `0 <= r < n` fixes `a % n`. */
  lemma ModUnique(a: int, n: int, q: int, r: int)
    requires n > 0 && 0 <= r < n && a == q * n + r
    ensures a % n == r
  {
    var q', r' := a / n, a % n;
    assert a == q' * n + r';
    assert (q - q') * n == q * n - q' * n;
    MulSmall(q - q', n, r' - r);
  }

  /**
   * `p % n` by repeated subtraction: the slot `p` steps land on when counted
   * round `n` slots.
   */
  function Rem(p: nat, n: nat): (r: nat)
    requires n > 0
    ensures r < n
    ensures p < n ==> r == p
  {
    if p < n then p else Rem(p - n, n)
  }

  /** `Rem` is the remainder of Euclidean division. */
  lemma {:induction false} RemIsMod(p: nat, n: nat)
    requires n > 0
    ensures Rem(p, n) == p % n
  {
    if p < n {
      ModUnique(p, n, 0, p);
    } else {
      RemIsMod(p - n, n);
      var q := (p - n) / n;
      assert p - n == q * n + (p - n) % n;
      assert p == (q + 1) * n + (p - n) % n;
      ModUnique(p, n, q + 1, (p - n) % n);
    }
  }
}
