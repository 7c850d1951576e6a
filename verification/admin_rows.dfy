/**
 * The rows the admin dashboard works on, and the order-preserving
 * selection every filter stage is built from (pandas' boolean-mask
 * indexing `df[mask]`).
 */
module AdminRows {
  import opened Common

  const NanosPerSecond: int := 1_000_000_000
  const NanosPerDay: int := 86_400 * NanosPerSecond

  /** A parsed UTC timestamp: the calendar day (as a day ordinal) and the nanoseconds since midnight. */
  datatype Instant = Instant(day: int, nanos: int)

  predicate WellFormed(t: Instant) {
    0 <= t.nanos < NanosPerDay
  }

  /** Chronological order: by day, then by time of day. */
  predicate InstantLe(a: Instant, b: Instant) {
    a.day < b.day || (a.day == b.day && a.nanos <= b.nanos)
  }

  /**
   * One row of the loaded table. The rating and the text cells may be
   * missing (NaN); `parsed` is the timestamp as parsed with coercion,
   * `None` where parsing failed (NaT).
   */
  datatype Row = Row(
    rating: Option<int>,
    review: Option<string>,
    summary: Option<string>,
    actions: Option<string>,
    timestamp: string,
    parsed: Option<Instant>)

  /** `a` is `b` with some elements left out and the rest in their order. */
  predicate IsSubsequence<T(==)>(a: seq<T>, b: seq<T>)
    decreases |b|
  {
    a == [] || (b != [] && ((a[0] == b[0] && IsSubsequence(a[1..], b[1..])) || IsSubsequence(a, b[1..])))
  }

  lemma {:induction false} SubsequenceTransitive<T>(a: seq<T>, b: seq<T>, c: seq<T>)
    requires IsSubsequence(a, b) && IsSubsequence(b, c)
    ensures IsSubsequence(a, c)
    decreases |c|
  {
    if a != [] {
      if b[0] == c[0] && IsSubsequence(b[1..], c[1..]) {
        if a[0] == b[0] && IsSubsequence(a[1..], b[1..]) {
          SubsequenceTransitive(a[1..], b[1..], c[1..]);
        } else {
          SubsequenceDropFirst(a, b);
          SubsequenceTransitive(a, b[1..], c[1..]);
        }
      } else {
        SubsequenceTransitive(a, b, c[1..]);
      }
    }
  }

  /** A subsequence of `b[1..]` is a subsequence of `b`, and so is what remains of `a` without `b`'s head. */
  lemma {:induction false} SubsequenceDropFirst<T>(a: seq<T>, b: seq<T>)
    requires a != [] && IsSubsequence(a, b) && !(a[0] == b[0] && IsSubsequence(a[1..], b[1..]))
    ensures IsSubsequence(a, b[1..])
  {
  }

  lemma SubsequenceReflexive<T>(a: seq<T>)
    ensures IsSubsequence(a, a)
  {
  }

  /**
   * `r` is the selection of `rows` by `keep`: the rows that satisfy it,
   * each as often as in `rows`, in their original order.
   */
  ghost predicate SelectsExactly(r: seq<Row>, rows: seq<Row>, keep: Row -> bool) {
    && IsSubsequence(r, rows)
    && (forall i :: 0 <= i < |r| ==> keep(r[i]))
    && (forall x :: keep(x) ==> multiset(r)[x] == multiset(rows)[x])
  }

  /** `df[mask]`: the rows satisfying `keep`, in order. */
  function Select(rows: seq<Row>, keep: Row -> bool): (r: seq<Row>)
    ensures SelectsExactly(r, rows, keep)
  {
    if rows == [] then []
    else
      var rest := Select(rows[1..], keep);
      assert rows == [rows[0]] + rows[1..];
      if keep(rows[0]) then [rows[0]] + rest else rest
  }

  /** Selection depends only on which rows the predicate keeps. */
  lemma {:induction false} SelectSame(rows: seq<Row>, p: Row -> bool, q: Row -> bool)
    requires forall x :: p(x) <==> q(x)
    ensures Select(rows, p) == Select(rows, q)
    decreases |rows|
  {
    if rows != [] {
      SelectSame(rows[1..], p, q);
    }
  }

  /** Selecting by `p` and then by `q` selects by both, still in order. */
  lemma SelectsCompose(r: seq<Row>, mid: seq<Row>, rows: seq<Row>, p: Row -> bool, q: Row -> bool, both: Row -> bool)
    requires SelectsExactly(mid, rows, p) && SelectsExactly(r, mid, q)
    requires forall x :: both(x) <==> p(x) && q(x)
    ensures SelectsExactly(r, rows, both)
  {
    SubsequenceTransitive(r, mid, rows);
  }

  /** Keeping every row keeps the sequence as it is. */
  lemma SelectsAll(rows: seq<Row>, keep: Row -> bool)
    requires forall x :: keep(x)
    ensures SelectsExactly(rows, rows, keep)
  {
    SubsequenceReflexive(rows);
  }
}
