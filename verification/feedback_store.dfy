/**
 * The `feedback` table of app.py as an in-memory, append-only sequence:
 * `insert_feedback_sql` appends one row under SQLite's AUTOINCREMENT rule,
 * `fetch_recent_sql` reads the newest rows back, newest first.
 */
module FeedbackStore {
  import opened Common

  /** The largest rowid SQLite hands out; past it an AUTOINCREMENT insert fails. */
  const MaxRowId: int := 0x7FFF_FFFF_FFFF_FFFF

  /** The message SQLite gives when AUTOINCREMENT has run out of ids. */
  const FullMessage := "database or disk is full"

  /** A row of the `feedback` table. */
  datatype Row = Row(id: int, rating: int, review: string, summary: string, actions: string, timestamp: string)

  /** The record `handle_submit` assembles; the table assigns the id. */
  datatype Submitted = Submitted(rating: int, review: string, summary: string, actions: string, timestamp: string)

  /** The rows in insertion order, and the AUTOINCREMENT counter: the largest id ever handed out. */
  datatype Store = Store(rows: seq<Row>, lastId: int)

  /** The table right after `CREATE TABLE IF NOT EXISTS` on a fresh database. */
  const EmptyStore := Store([], 0)

  predicate IdsIncreasing(rows: seq<Row>) {
    forall i, j :: 0 <= i < j < |rows| ==> rows[i].id < rows[j].id
  }

  /** What SQLite keeps true of an AUTOINCREMENT table without deletions. */
  predicate Valid(s: Store) {
    && IdsIncreasing(s.rows)
    && 0 <= s.lastId <= MaxRowId
    && forall i :: 0 <= i < |s.rows| ==> 1 <= s.rows[i].id <= s.lastId
  }

  lemma EmptyStoreValid()
    ensures Valid(EmptyStore)
  {
  }

  /** A stored row holds exactly the submitted fields. */
  predicate Carries(row: Row, rec: Submitted) {
    && row.rating == rec.rating
    && row.review == rec.review
    && row.summary == rec.summary
    && row.actions == rec.actions
    && row.timestamp == rec.timestamp
  }

  /** How the write to the database file went: it may raise (locked, read-only, disk error). */
  datatype WriteResult = Written | WriteRaised(message: string)

  datatype InsertError = WriteFailed(message: string) | DatabaseFull {
    function Message(): string {
      match this
      case WriteFailed(m) => m
      case DatabaseFull => FullMessage
    }
  }

  /**
   * `insert_feedback_sql`: appends one row with the next AUTOINCREMENT id,
   * or fails and leaves the table as it was.
   */
  function Insert(s: Store, rec: Submitted, write: WriteResult): (r: Result<Store, InsertError>)
    ensures r.Success? <==> write.Written? && s.lastId < MaxRowId
    ensures write.WriteRaised? ==> r == Failure(WriteFailed(write.message))
    ensures r.Success? ==>
              && |r.value.rows| == |s.rows| + 1
              && r.value.rows[..|s.rows|] == s.rows
              && Carries(r.value.rows[|s.rows|], rec)
              && r.value.lastId == r.value.rows[|s.rows|].id
    ensures r.Success? && Valid(s) ==>
              && Valid(r.value)
              && forall i :: 0 <= i < |s.rows| ==> s.rows[i].id < r.value.rows[|s.rows|].id
  {
    match write
    case WriteRaised(m) => Failure(WriteFailed(m))
    case Written =>
      if s.lastId >= MaxRowId then Failure(DatabaseFull)
      else
        var id := s.lastId + 1;
        var row := Row(id, rec.rating, rec.review, rec.summary, rec.actions, rec.timestamp);
        var rows' := s.rows + [row];
        assert rows'[..|s.rows|] == s.rows;
        Success(Store(rows', id))
  }

  function Reverse<T>(xs: seq<T>): (r: seq<T>)
    ensures |r| == |xs|
    ensures forall i :: 0 <= i < |xs| ==> r[i] == xs[|xs| - 1 - i]
  {
    if xs == [] then [] else Reverse(xs[1..]) + [xs[0]]
  }

  /** How many rows `LIMIT limit` lets through; SQLite reads a negative limit as no limit. */
  function LimitCount(limit: int, available: nat): (n: nat)
    ensures n <= available
    ensures 0 <= limit ==> n == Min(limit, available)
    ensures limit < 0 ==> n == available
  {
    if 0 <= limit < available then limit else available
  }

  /**
   * `fetch_recent_sql`: `ORDER BY id DESC LIMIT limit`. The rows come back
   * newest first, and no row left out is newer than a row returned.
   */
  function FetchRecent(s: Store, limit: int): (r: seq<Row>)
    ensures |r| == LimitCount(limit, |s.rows|)
    ensures forall i :: 0 <= i < |r| ==> r[i] == s.rows[|s.rows| - 1 - i]
    ensures Valid(s) ==> forall i, j :: 0 <= i < j < |r| ==> r[i].id > r[j].id
    ensures Valid(s) ==> forall k, i :: 0 <= k < |s.rows| && s.rows[k] !in r && 0 <= i < |r| ==> s.rows[k].id < r[i].id
  {
    var n := LimitCount(limit, |s.rows|);
    var r := Reverse(s.rows[|s.rows| - n..]);
    assert forall i :: 0 <= i < |r| ==> r[i] == s.rows[|s.rows| - 1 - i];
    assert forall k :: |s.rows| - n <= k < |s.rows| ==> s.rows[k] == r[|s.rows| - 1 - k];
    r
  }

  /** A submission that was stored is the first row the next preview shows. */
  lemma {:induction false} FetchAfterInsert(s: Store, rec: Submitted, write: WriteResult, limit: int)
    requires Insert(s, rec, write).Success?
    requires limit > 0
    ensures var s' := Insert(s, rec, write).value;
            FetchRecent(s', limit) == [s'.rows[|s.rows|]] + FetchRecent(s, limit - 1)
  {
    var s' := Insert(s, rec, write).value;
    var r', r := FetchRecent(s', limit), FetchRecent(s, limit - 1);
    assert |r'| == 1 + |r|;
    forall i | 0 <= i < |r'|
      ensures r'[i] == ([s'.rows[|s.rows|]] + r)[i]
    {
      if i > 0 {
        assert s'.rows[|s'.rows| - 1 - i] == s.rows[|s.rows| - 1 - (i - 1)];
      }
    }
  }
}
