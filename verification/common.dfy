/** Shared helpers: an optional value and the integer reading of JavaScript's
    `Math.round(a / b)` for non-negative operands. */
module Common {

  /** A value that may be absent; stands for JavaScript's `undefined`/`null`. */
  datatype Option<+T> = None | Some(value: T) {

    /** The wrapped value, or `default` when absent (the source's `x || default`
        on a field that is never falsy when present). */
    function GetOr(default: T): T {
      match this
      case Some(v) => v
      case None => default
    }
  }

  /** No entry of the list occurs twice. */
  predicate Distinct<T(==)>(s: seq<T>) {
    forall i, j :: 0 <= i < j < |s| ==> s[i] != s[j]
  }

  function Min(a: int, b: int): int {
    if a <= b then a else b
  }

  function Max(a: int, b: int): int {
    if a >= b then a else b
  }

  /** `Math.round(a / b)` for `a >= 0`, `b > 0`, read over the rationals:
      `floor(a/b + 1/2)`, i.e. the nearest integer with halves rounded up. */
  function RoundDiv(a: nat, b: nat): (r: nat)
    requires b > 0
    ensures 2 * b * r <= 2 * a + b < 2 * b * (r + 1)
  {
    var q := (2 * a + b) / (2 * b);
    assert (2 * b) * q + (2 * a + b) % (2 * b) == 2 * a + b;
    q
  }

  /** Rounding never goes past an integer bound that the quotient respects. */
  lemma RoundDivAtMost(a: nat, b: nat, k: nat)
    requires b > 0
    requires a <= k * b
    ensures RoundDiv(a, b) <= k
  {
    var r := RoundDiv(a, b);
    if r > k {
      MulMonotone(2 * b, k + 1, r);
    }
  }

  /** Comparing the rounded quotient with a threshold is an exact integer test:
      `round(a/b) >= t` exactly when `2a + b >= 2bt`. */
  lemma RoundDivAtLeast(a: nat, b: nat, t: nat)
    requires b > 0
    ensures RoundDiv(a, b) >= t <==> 2 * a + b >= 2 * b * t
  {
    var r := RoundDiv(a, b);
    if r >= t {
      MulMonotone(2 * b, t, r);
    } else {
      MulMonotone(2 * b, r + 1, t);
    }
  }

  /** Rounding is monotone in the numerator. */
  lemma RoundDivMonotone(a: nat, a': nat, b: nat)
    requires b > 0
    requires a <= a'
    ensures RoundDiv(a, b) <= RoundDiv(a', b)
  {
    var r, r' := RoundDiv(a, b), RoundDiv(a', b);
    if r > r' {
      MulMonotone(2 * b, r' + 1, r);
    }
  }

  /** An exact quotient is its own rounding. */
  lemma RoundDivExact(k: nat, n: nat)
    requires n > 0
    ensures RoundDiv(k * n, n) == k
  {
    assert 2 * (k * n) + n == k * (2 * n) + n;
    DivModUnique(2 * (k * n) + n, 2 * n, k, n);
  }

  lemma MulMonotone(c: nat, x: nat, y: nat)
    requires x <= y
    ensures c * x <= c * y
  {
  }

  lemma MulSub(x: int, y: int, n: int)
    ensures x * n - y * n == (x - y) * n
  {
  }

  lemma MulAtLeast(k: int, n: int)
    requires k >= 1 && n > 0
    ensures k * n >= n
  {
  }

  /** Euclidean division is determined by quotient and remainder. */
  lemma DivModUnique(a: int, n: int, q: int, r: int)
    requires n > 0 && 0 <= r < n && a == q * n + r
    ensures a / n == q && a % n == r
  {
    var q0, r0 := a / n, a % n;
    assert a == q0 * n + r0;
    MulSub(q, q0, n);
    MulSub(q0, q, n);
    if q0 < q {
      MulAtLeast(q - q0, n);
    } else if q0 > q {
      MulAtLeast(q0 - q, n);
    }
  }

  lemma ModAdd(a: int, k: int, n: int)
    requires n > 0
    ensures (a + k) % n == (a % n + k) % n
  {
    var q, r := a / n, a % n;
    var q', r' := (r + k) / n, (r + k) % n;
    assert a + k == (q + q') * n + r' by {
      assert r + k == q' * n + r';
      assert (q + q') * n == q * n + q' * n;
    }
    DivModUnique(a + k, n, q + q', r');
  }

  lemma ModSmall(x: int, n: int)
    requires 0 <= x < n
    ensures x % n == x
  {
    DivModUnique(x, n, 0, x);
  }

  lemma ModWrap(x: int, n: int)
    requires n <= x < 2 * n
    ensures x % n == x - n
  {
    DivModUnique(x, n, 1, x - n);
  }
}
