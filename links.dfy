/**
 * The rows of the `links` table and the table queries the handlers issue,
 * stated over a sequence of rows in insertion order.
 */
module Links {
  import opened Wrappers

  /** One row: (id, short_code, original_url, created_at, clicks). */
  datatype Link = Link(id: nat, shortCode: string, originalUrl: string, createdAt: nat, clicks: nat)

  function Min(a: nat, b: nat): nat
  {
    if a <= b then a else b
  }

  /** Some row carries `code`. */
  predicate HasCode(rows: seq<Link>, code: string)
  {
    exists k :: 0 <= k < |rows| && rows[k].shortCode == code
  }

  /** The UNIQUE constraint on short_code. */
  predicate UniqueCodes(rows: seq<Link>)
  {
    forall i, j :: 0 <= i < j < |rows| ==> rows[i].shortCode != rows[j].shortCode
  }

  /** Rows appear in the order of a clock that never goes back. */
  predicate Chronological(rows: seq<Link>)
  {
    forall i, j :: 0 <= i < j < |rows| ==> rows[i].createdAt <= rows[j].createdAt
  }

  /** AUTOINCREMENT ids: strictly increasing in insertion order. */
  predicate IdsAscending(rows: seq<Link>)
  {
    forall i, j :: 0 <= i < j < |rows| ==> rows[i].id < rows[j].id
  }

  /** SELECT * FROM links WHERE short_code = ?, keeping the first row of the
      result: the position of the first row with that code, if any. */
  function Find(rows: seq<Link>, code: string): (r: Option<nat>)
    ensures r.Some? <==> HasCode(rows, code)
    ensures r.Some? ==> r.value < |rows| && rows[r.value].shortCode == code
    ensures r.Some? ==> forall k :: 0 <= k < r.value ==> rows[k].shortCode != code
  {
    if rows == [] then None
    else if rows[0].shortCode == code then Some(0)
    else
      match Find(rows[1..], code)
      case None =>
        assert forall k :: 0 < k < |rows| ==> rows[k] == rows[1..][k - 1];
        None
      case Some(i) => Some(i + 1)
  }

  /** With unique codes, the row Find returns is the only row with that code. */
  lemma FindUnique(rows: seq<Link>, code: string, k: nat)
    requires UniqueCodes(rows)
    requires k < |rows| && rows[k].shortCode == code
    ensures Find(rows, code) == Some(k)
  {
  }

  /** Inserting a row whose code is new keeps the codes unique, and a lookup
      of that code then finds the new row. */
  lemma AppendNewCode(rows: seq<Link>, l: Link)
    requires UniqueCodes(rows) && !HasCode(rows, l.shortCode)
    ensures UniqueCodes(rows + [l])
    ensures Find(rows + [l], l.shortCode) == Some(|rows|)
  {
    var s := rows + [l];
    assert s[|rows|] == l;
    FindUnique(s, l.shortCode, |rows|);
  }

  /** One row after UPDATE ... SET clicks = clicks + 1 WHERE short_code = code. */
  function Visited(l: Link, code: string): Link
  {
    if l.shortCode == code then l.(clicks := l.clicks + 1) else l
  }

  /** UPDATE links SET clicks = clicks + 1 WHERE short_code = ?: every row is
      updated independently; rows keep their position. */
  function IncrementClicks(rows: seq<Link>, code: string): (r: seq<Link>)
    ensures |r| == |rows|
    ensures forall k :: 0 <= k < |rows| ==> r[k] == Visited(rows[k], code)
  {
    if rows == [] then []
    else [Visited(rows[0], code)] + IncrementClicks(rows[1..], code)
  }

  /** Under unique codes the UPDATE raises the clicks of exactly the row with
      that code by one. */
  lemma IncrementOneRow(rows: seq<Link>, code: string, k: nat)
    requires UniqueCodes(rows)
    requires k < |rows| && rows[k].shortCode == code
    ensures IncrementClicks(rows, code) == rows[k := rows[k].(clicks := rows[k].clicks + 1)]
  {
  }

  /** Changing one row's click count keeps every constraint on codes, ids
      and creation times. */
  lemma ClicksUpdateKeepsOrder(rows: seq<Link>, k: nat, clicks: nat)
    requires k < |rows|
    ensures var r := rows[k := rows[k].(clicks := clicks)];
      (UniqueCodes(rows) ==> UniqueCodes(r)) &&
      (IdsAscending(rows) ==> IdsAscending(r)) &&
      (Chronological(rows) ==> Chronological(r)) &&
      forall i :: 0 <= i < |r| ==> r[i].id == rows[i].id && r[i].createdAt == rows[i].createdAt
  {
  }

  /** The table after `n` redirects to `code`. */
  function IncrementTimes(rows: seq<Link>, code: string, n: nat): seq<Link>
  {
    if n == 0 then rows else IncrementClicks(IncrementTimes(rows, code, n - 1), code)
  }

  /** After `n` redirects to an existing code its row has exactly `n` more
      clicks, and no other row or field has changed. */
  lemma {:induction false} ClicksCountRedirects(rows: seq<Link>, code: string, n: nat, k: nat)
    requires UniqueCodes(rows)
    requires k < |rows| && rows[k].shortCode == code
    ensures var r := IncrementTimes(rows, code, n);
      |r| == |rows| && r[k] == rows[k].(clicks := rows[k].clicks + n) &&
      forall i :: 0 <= i < |rows| && i != k ==> r[i] == rows[i]
  {
    if n > 0 {
      ClicksCountRedirects(rows, code, n - 1, k);
      var before := IncrementTimes(rows, code, n - 1);
      var r := IncrementClicks(before, code);
      assert r[k] == Visited(before[k], code);
      forall i | 0 <= i < |rows| && i != k ensures r[i] == rows[i] {
        assert r[i] == Visited(before[i], code) && before[i] == rows[i];
      }
    }
  }

  /** The rows in reverse order. */
  function Reverse(s: seq<Link>): (r: seq<Link>)
    ensures |r| == |s|
    ensures forall k :: 0 <= k < |s| ==> r[k] == s[|s| - 1 - k]
  {
    if s == [] then [] else Reverse(s[1..]) + [s[0]]
  }

  /** SELECT * FROM links ORDER BY created_at DESC LIMIT limit, on a table
      whose rows were appended in clock order: the last `limit` rows, newest
      first. */
  function NewestFirst(rows: seq<Link>, limit: nat): (r: seq<Link>)
    ensures |r| == Min(limit, |rows|)
    ensures forall k :: 0 <= k < |r| ==> r[k] == rows[|rows| - 1 - k]
  {
    Reverse(rows)[..Min(limit, |rows|)]
  }

  /** The listing is ordered by created_at descending. */
  lemma NewestFirstOrdered(rows: seq<Link>, limit: nat)
    requires Chronological(rows)
    ensures var r := NewestFirst(rows, limit);
      forall i, j :: 0 <= i < j < |r| ==> r[i].createdAt >= r[j].createdAt
  {
  }

  /** The listing holds only rows of the table, each at most once (rows
      with unique codes are distinct), and all of them when there are at
      most `limit`. */
  lemma NewestFirstMembers(rows: seq<Link>, limit: nat)
    ensures var r := NewestFirst(rows, limit);
      (forall l :: l in r ==> l in rows) &&
      (UniqueCodes(rows) ==> forall i, j :: 0 <= i < j < |r| ==> r[i] != r[j]) &&
      (|rows| <= limit ==> forall l :: l in rows ==> l in r)
  {
    var r := NewestFirst(rows, limit);
    var n := |rows|;
    if UniqueCodes(rows) {
      forall i, j | 0 <= i < j < |r| ensures r[i] != r[j] {
        assert r[i] == rows[n - 1 - i] && r[j] == rows[n - 1 - j];
      }
    }
    forall l | l in r ensures l in rows {
      var k :| 0 <= k < |r| && r[k] == l;
      assert rows[n - 1 - k] == l;
    }
    if n <= limit {
      forall l | l in rows ensures l in r {
        var j :| 0 <= j < n && rows[j] == l;
        assert r[n - 1 - j] == l;
      }
    }
  }

  /** No row the listing leaves out is newer than a row it holds. */
  lemma NewestFirstSkipsOnlyOlder(rows: seq<Link>, limit: nat)
    requires Chronological(rows)
    ensures var r := NewestFirst(rows, limit);
      forall l, k :: l in rows && l !in r && 0 <= k < |r| ==> l.createdAt <= r[k].createdAt
  {
    var r := NewestFirst(rows, limit);
    var n := |rows|;
    assert forall j :: n - |r| <= j < n ==> rows[j] == r[n - 1 - j];
    forall l, k | l in rows && l !in r && 0 <= k < |r| ensures l.createdAt <= r[k].createdAt {
      var j :| 0 <= j < n && rows[j] == l;
      assert j < n - |r| && r[k] == rows[n - 1 - k];
    }
  }
}
