/** Small value wrappers and sequence helpers shared by the modules of the game-session model. */
module Common {

  /** A value that may be absent; stands for JavaScript's `null` and `undefined` results. */
  datatype Option<+T> = None | Some(value: T)

  /** Number of elements of `s` equal to `x`. */
  function Occurrences<T(==)>(s: seq<T>, x: T): (r: nat)
    ensures r <= |s|
    ensures r == multiset(s)[x]
  {
    if s == [] then 0
    else
      assert s == [s[0]] + s[1..];
      (if s[0] == x then 1 else 0) + Occurrences(s[1..], x)
  }

  /** Position of the first element equal to `x`, as JavaScript's `find` over a list
      walks it from the front. */
  function IndexOf<T(==)>(s: seq<T>, x: T): (r: Option<nat>)
    ensures r.None? <==> x !in s
    ensures r.Some? ==> r.value < |s| && s[r.value] == x && x !in s[..r.value]
  {
    if s == [] then None
    else if s[0] == x then Some(0)
    else
      match IndexOf(s[1..], x)
      case None => None
      case Some(k) =>
        assert s[..k + 1] == [s[0]] + s[1..][..k];
        Some(k + 1)
  }

  /** `k` is the first position holding `x`: where a front-to-back `find` for `x` stops. */
  predicate FirstAt<T(==)>(s: seq<T>, k: nat, x: T) {
    k < |s| && s[k] == x && x !in s[..k]
  }

  /** `s` without its element at position `i`; the remaining elements keep their order. */
  function RemoveAt<T>(s: seq<T>, i: nat): (r: seq<T>)
    requires i < |s|
    ensures |r| == |s| - 1
    ensures forall k :: 0 <= k < i ==> r[k] == s[k]
    ensures forall k :: i <= k < |r| ==> r[k] == s[k + 1]
  {
    s[..i] + s[i + 1..]
  }

  /** Sequences without repeated elements. */
  ghost predicate Distinct<T>(s: seq<T>) {
    forall i, j :: 0 <= i < j < |s| ==> s[i] != s[j]
  }

  lemma ModBelow(k: nat, n: nat)
    requires k < n
    ensures k % n == k
  {
  }

  lemma ModOnce(k: nat, n: nat)
    requires n <= k < 2 * n
    ensures k % n == k - n
  {
    assert k == n + (k - n);
  }

  /** Euclidean division is determined by any quotient and in-range remainder. */
  lemma ModUnique(k: int, n: int, q: int, r: int)
    requires n > 0 && 0 <= r < n && k == q * n + r
    ensures k % n == r && k / n == q
  {
    var q', r' := k / n, k % n;
    assert k == q' * n + r';
    var d := q - q';
    assert d * n == q * n - q' * n;
    assert d * n == r' - r;
    MulBounds(d, n);
  }

  lemma MulBounds(d: int, n: int)
    requires n > 0
    ensures d > 0 ==> d * n >= n
    ensures d < 0 ==> d * n <= -n
  {
  }

  /** Counting on by one wraps to 0 after n - 1. */
  lemma ModNext(k: nat, n: nat)
    requires n > 0
    ensures (k + 1) % n == if k % n == n - 1 then 0 else k % n + 1
  {
    var q, r := k / n, k % n;
    assert k == q * n + r;
    if r == n - 1 {
      assert k + 1 == (q + 1) * n + 0;
      ModUnique(k + 1, n, q + 1, 0);
    } else {
      ModUnique(k + 1, n, q, r + 1);
    }
  }

  /** A product with one factor positive has the sign of the other factor. */
  lemma ScaledSign(x: real, y: real)
    requires y > 0.0
    ensures x >= 0.0 <==> x * y >= 0.0
  {
    if x >= 0.0 {
      assert x * y >= 0.0 * y;
    } else {
      assert x * y < 0.0 * y;
    }
  }

  /** A quotient of naturals is at least one half exactly when twice the numerator
      reaches the denominator. */
  lemma HalfRatio(a: nat, b: nat)
    requires b > 0
    ensures (a as real) / (b as real) >= 0.5 <==> 2 * a >= b
  {
    var ar, br := a as real, b as real;
    var q := ar / br;
    assert q * br == ar;
    ScaledSign(q - 0.5, br);
    assert (q - 0.5) * br == ar - 0.5 * br;
  }
}
