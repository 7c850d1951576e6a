/** Failure-carrying wrappers and small arithmetic helpers shared by every module. */
module Common {

  /** A value that may be absent: Python's None, or pandas' NaN in a text column. */
  datatype Option<+T> = None | Some(value: T) {

    /** The value, or `default` when absent (pandas' `fillna(default)`, `dict.get(key, default)`). */
    function GetOr(default: T): T {
      match this
      case Some(v) => v
      case None => default
    }
  }

  /** The outcome of an operation that can fail with an error value instead of raising. */
  datatype Result<+T, +E> = Success(value: T) | Failure(error: E)

  function Min(a: int, b: int): int {
    if a <= b then a else b
  }

  function Max(a: int, b: int): int {
    if a <= b then b else a
  }

  /** Dividing by a positive `n` a value between `n * lo` and `n * hi` lands between `lo` and `hi`. */
  lemma QuotientBounds(s: real, n: real, lo: real, hi: real)
    requires n > 0.0 && n * lo <= s <= n * hi
    ensures lo <= s / n <= hi
  {
    var q := s / n;
    assert q * n == s;
  }

  /** Dividing by a positive number keeps the sign. */
  lemma QuotientSign(s: real, n: real)
    requires n > 0.0
    ensures s / n > 0.0 <==> s > 0.0
    ensures s / n < 0.0 <==> s < 0.0
  {
    var q := s / n;
    assert q * n == s;
  }

  /** A number divided by itself, or by its negation. */
  lemma QuotientOfSelf(s: real, n: real)
    requires n > 0.0 && (s == n || s == -n)
    ensures s == n ==> s / n == 1.0
    ensures s == -n ==> s / n == -1.0
  {
    var q := s / n;
    assert q * n == s;
  }
}
