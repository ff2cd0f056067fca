/** Page arithmetic of the listing endpoints: `offset = (page - 1) * limit`,
    `.range(offset, offset + limit - 1)` and `totalPages = Math.ceil(count / limit)`. */
module Paging {
  import opened Seqs

  function Offset(page: nat, limit: nat): nat
    requires page >= 1
  {
    (page - 1) * limit
  }

  /** Supabase's `.range(from, to)`: the rows at positions `from` to `to`, both inclusive. */
  function Range<T>(rows: seq<T>, from: nat, to: int): (r: seq<T>)
    ensures from <= to ==> |r| <= to - from + 1
    ensures r != [] ==> from + |r| <= |rows|
    ensures forall i :: 0 <= i < |r| ==> from + i < |rows| && r[i] == rows[from + i]
    ensures from < |rows| && from <= to ==> |r| == (if to + 1 < |rows| then to + 1 else |rows|) - from
  {
    if from >= |rows| || to < from then []
    else rows[from..if to + 1 < |rows| then to + 1 else |rows|]
  }

  /** The page the listing endpoints return when `limit` is a number: at most `limit` rows,
      starting at the page's offset. */
  function PageRows<T>(rows: seq<T>, page: nat, limit: nat): (r: seq<T>)
    requires page >= 1 && limit >= 1
    ensures |r| <= limit
    ensures r != [] ==> Offset(page, limit) + |r| <= |rows|
    ensures forall i :: 0 <= i < |r| ==> Offset(page, limit) + i < |rows| && r[i] == rows[Offset(page, limit) + i]
    ensures |r| == if Offset(page, limit) < |rows| then Min(limit, |rows| - Offset(page, limit)) else 0
  {
    Range(rows, Offset(page, limit), Offset(page, limit) + limit - 1)
  }

  /** `r` is the run of `rows` starting at `off`, read backwards. */
  ghost predicate ReversedWindow<T>(r: seq<T>, rows: seq<T>, off: nat) {
    forall i :: 0 <= i < |r| ==> off + |r| - 1 - i < |rows| && r[i] == rows[off + |r| - 1 - i]
  }

  /** A page read backwards (`reverse()`): its rows run from the page's last position down
      to its offset. */
  function ReversedPage<T>(rows: seq<T>, page: nat, limit: nat): (r: seq<T>)
    requires page >= 1 && limit >= 1
    ensures |r| == if Offset(page, limit) < |rows| then Min(limit, |rows| - Offset(page, limit)) else 0
    ensures ReversedWindow(r, rows, Offset(page, limit))
  {
    var p := PageRows(rows, page, limit);
    var r := Reverse(p);
    assert forall i :: 0 <= i < |r| ==> r[i] == p[|p| - 1 - i];
    r
  }

  /** Every row is on some page read backwards. */
  lemma ReversedPageCovers<T>(rows: seq<T>, limit: nat, x: T)
    requires limit >= 1 && x in rows
    ensures exists page: nat :: page >= 1 && x in ReversedPage(rows, page, limit)
  {
    var k :| 0 <= k < |rows| && rows[k] == x;
    PageOf(rows, limit, k);
    var page := k / limit + 1;
    var p := PageRows(rows, page, limit);
    var r := ReversedPage(rows, page, limit);
    assert |r| == |p|;
    assert r[|p| - 1 - k % limit] == x;
  }

  /** Every row is on some page. */
  lemma SomePageHas<T>(rows: seq<T>, limit: nat, x: T)
    requires limit >= 1 && x in rows
    ensures exists page: nat :: page >= 1 && x in PageRows(rows, page, limit)
  {
    var k :| 0 <= k < |rows| && rows[k] == x;
    PageOf(rows, limit, k);
    assert x in PageRows(rows, k / limit + 1, limit);
  }

  /** Every row is on some page: row `k` is entry `k % limit` of page `k / limit + 1`. */
  lemma PageOf<T>(rows: seq<T>, limit: nat, k: nat)
    requires limit >= 1 && k < |rows|
    ensures var ps := PageRows(rows, k / limit + 1, limit);
            k % limit < |ps| && ps[k % limit] == rows[k]
  {
    var off := Offset(k / limit + 1, limit);
    assert off == k / limit * limit;
    assert off + k % limit == k;
  }

  function Min(a: int, b: int): int {
    if a < b then a else b
  }

  /** `Math.ceil(count / limit)`. */
  function TotalPages(count: nat, limit: nat): (r: nat)
    requires limit >= 1
    ensures count <= r * limit
    ensures r == 0 || (r - 1) * limit < count
  {
    (count + limit - 1) / limit
  }

  /** Number of decimal digits of `n`, i.e. the length of the query-string text of `n`. */
  function Digits(n: nat): (d: nat)
    ensures d >= 1
  {
    if n < 10 then 1 else 1 + Digits(n / 10)
  }

  function Pow10(d: nat): (p: nat)
    ensures p >= 1
    ensures d >= 1 ==> p >= 10
  {
    if d == 0 then 1 else 10 * Pow10(d - 1)
  }

  /** The range end the listing endpoints compute when `limit` arrives in the query string:
      `offset + limit` is then a string concatenation, and `- 1` converts it back to a number,
      so the end is the number whose digits are those of `offset` followed by those of `limit`. */
  function RangeEndAsWritten(offset: nat, limit: nat): int {
    offset * Pow10(Digits(limit)) + limit - 1
  }

  /** The page returned, as written, when the client passes `limit`. */
  function PageRowsAsWritten<T>(rows: seq<T>, page: nat, limit: nat): (r: seq<T>)
    requires page >= 1
    ensures forall i :: 0 <= i < |r| ==> Offset(page, limit) + i < |rows| && r[i] == rows[Offset(page, limit) + i]
    ensures Offset(page, limit) < |rows| && Offset(page, limit) <= RangeEndAsWritten(Offset(page, limit), limit) ==>
              |r| == Min(RangeEndAsWritten(Offset(page, limit), limit) + 1, |rows|) - Offset(page, limit)
  {
    Range(rows, Offset(page, limit), RangeEndAsWritten(Offset(page, limit), limit))
  }

  /** On the first page the concatenation is harmless ("0" + "5" reads as 5) ... */
  lemma FirstPageAsIntended<T>(rows: seq<T>, limit: nat)
    requires limit >= 1
    ensures PageRowsAsWritten(rows, 1, limit) == PageRows(rows, 1, limit)
  {
  }

  /** ... but from the second page on, the range end lies past the page: page 2 with
      limit 5 asks for rows 5 to 54, so up to 50 rows come back instead of 5. */
  lemma {:induction false} LaterPagesOverfetch<T>(rows: seq<T>, page: nat, limit: nat)
    requires page >= 2 && limit >= 1
    ensures RangeEndAsWritten(Offset(page, limit), limit) >= Offset(page, limit) + limit - 1 + 9 * limit
    ensures |rows| >= Offset(page, limit) + 10 * limit ==> |PageRowsAsWritten(rows, page, limit)| >= 10 * limit
  {
    var off := Offset(page, limit);
    assert off >= limit by {
      assert (page - 1) * limit >= 1 * limit;
    }
    var p := Pow10(Digits(limit));
    assert off * p >= off * 10;
    assert off * 10 == off + 9 * off;
    assert 9 * off >= 9 * limit;
  }

  lemma OverfetchExample()
    ensures Offset(2, 5) == 5 && RangeEndAsWritten(5, 5) == 54
  {
  }
}
