/** The delinquency queue: severity order, composite cursors, and pages that follow one another. */
module Paging {
  import opened Arith
  import opened Common
  import opened Int64
  import Sorting
  import Text

  /** The keyset of a queue row; every other column is carried along. */
  datatype Row = Row(rank: int, dpd: int, outstanding: int, id: string)

  // ------------------------------------------------------------------ cursors

  function IndexOf(s: string, c: char): (i: nat)
    ensures i <= |s|
    ensures forall k | 0 <= k < i :: s[k] != c
    ensures i < |s| ==> s[i] == c
  {
    if s == "" || s[0] == c then 0 else IndexOf(s[1..], c) + 1
  }

  /** strings.SplitN for n > 0. */
  function SplitN(s: string, c: char, n: nat): seq<string>
    requires n > 0
    decreases n
  {
    var i := IndexOf(s, c);
    if n == 1 || i == |s| then [s] else [s[..i]] + SplitN(s[i + 1..], c, n - 1)
  }

  function Encode(r: Row): string {
    Text.FormatInt(r.rank) + "|" + (Text.FormatInt(r.dpd) + "|" + (Text.FormatInt(r.outstanding) + "|" + r.id))
  }

  function Parse(s: string): Option<Row> {
    if s == "" then None
    else
      var parts := SplitN(s, '|', 4);
      if |parts| != 4 then None
      else
        var rank, dpd, outstanding := Text.ParseInt(parts[0]), Text.ParseInt(parts[1]), Text.ParseInt(parts[2]);
        if rank.None? || dpd.None? || outstanding.None? || parts[3] == "" then None
        else Some(Row(rank.value, dpd.value, outstanding.value, parts[3]))
  }

  lemma SplitOnce(a: string, rest: string, c: char, n: nat)
    requires c !in a && n > 1
    ensures SplitN(a + [c] + rest, c, n) == [a] + SplitN(rest, c, n - 1)
  {
    var s := a + [c] + rest;
    var i := IndexOf(s, c);
    assert s[|a|] == c;
    forall k | 0 <= k < |a| ensures s[k] != c {
      assert s[k] == a[k];
    }
    assert s[..i] == a && s[i + 1..] == rest;
  }

  /** Columns are int64 and ids are not empty. */
  predicate Storable(r: Row) {
    InRange(r.rank) && InRange(r.dpd) && InRange(r.outstanding) && r.id != ""
  }

  lemma SplitEncoded(r: Row)
    ensures SplitN(Encode(r), '|', 4)
            == [Text.FormatInt(r.rank), Text.FormatInt(r.dpd), Text.FormatInt(r.outstanding), r.id]
  {
    hide SplitN, Text.FormatInt;
    var a, b, c := Text.FormatInt(r.rank), Text.FormatInt(r.dpd), Text.FormatInt(r.outstanding);
    Text.FormatFree(r.rank, '|');
    Text.FormatFree(r.dpd, '|');
    Text.FormatFree(r.outstanding, '|');
    SplitOnce(c, r.id, '|', 2);
    SplitOnce(b, c + "|" + r.id, '|', 3);
    SplitOnce(a, b + "|" + (c + "|" + r.id), '|', 4);
    SplitLast(r.id);
  }

  lemma SplitLast(s: string)
    ensures SplitN(s, '|', 1) == [s]
  {
  }

  /** Parsing undoes encoding for every storable row, even when the id holds the delimiter, and for no other. */
  lemma ParseUndoesEncode(r: Row)
    ensures Parse(Encode(r)) == if Storable(r) then Some(r) else None
  {
    hide SplitN, Text.FormatInt, Text.ParseInt, Encode;
    SplitEncoded(r);
    Text.ParseUndoesFormat(r.rank);
    Text.ParseUndoesFormat(r.dpd);
    Text.ParseUndoesFormat(r.outstanding);
    EncodedHasDelimiter(r);
  }

  lemma EncodedHasDelimiter(r: Row)
    ensures Encode(r) != ""
  {
    assert Encode(r)[|Text.FormatInt(r.rank)|] == '|';
  }

  // ------------------------------------------------------------------ the severity order

  /** `a` comes before `b` in the queue, or is `b`: rank, days past due, outstanding, id, each descending. */
  predicate Before(a: Row, b: Row) {
    if a.rank != b.rank then a.rank > b.rank
    else if a.dpd != b.dpd then a.dpd > b.dpd
    else if a.outstanding != b.outstanding then a.outstanding > b.outstanding
    else Sorting.StringLe(b.id, a.id)
  }

  lemma BeforeIsTotal()
    ensures Sorting.TotalOrder(Before)
  {
    Sorting.StringOrder();
  }

  /** What is below a cursor stays below further down; a row is not below one after it. */
  lemma BelowCarries(a: Row, b: Row, cursor: Option<Row>)
    requires Before(a, b) && a != b
    ensures Below(a, cursor) ==> Below(b, cursor)
    ensures !Below(a, Some(b))
  {
    Sorting.StringLeTotal(a.id, b.id);
    if Below(a, cursor) && cursor.Some? {
      var c := cursor.value;
      if c.id != b.id && Sorting.StringLe(a.id, c.id) && Sorting.StringLe(b.id, a.id) {
        Sorting.StringLeTransitive(b.id, a.id, c.id);
      }
      Sorting.StringLeTotal(a.id, c.id);
      Sorting.StringLeTotal(b.id, c.id);
    }
  }

  /** The row comparison of the WHERE clause; no cursor admits everything. */
  predicate Below(r: Row, cursor: Option<Row>) {
    cursor.None? || (Before(cursor.value, r) && r != cursor.value)
  }

  function Query(s: seq<Row>, cursor: Option<Row>): seq<Row> {
    if s == [] then []
    else
      var rest := Query(s[..|s| - 1], cursor);
      if Below(s[|s| - 1], cursor) then rest + [s[|s| - 1]] else rest
  }

  /** The page size: 50 unless the request asks for 1 to 200. */
  function PageSize(limit: int): (n: nat)
    ensures 1 <= n <= 200
  {
    if limit <= 0 || limit > 200 then 50 else limit
  }

  function Page(s: seq<Row>, cursor: string, limit: int): seq<Row> {
    var q := Query(s, Parse(cursor));
    if |q| <= PageSize(limit) then q else q[..PageSize(limit)]
  }

  /** One page of the queue; a malformed cursor starts from the top. */
  method ListDelinquent(snapshot: seq<Row>, cursor: string, limit: int) returns (page: seq<Row>)
    ensures page == Page(Sorting.Sort(Before, snapshot), cursor, limit)
  {
    page := Fetch(Sorting.Sort(Before, snapshot), Parse(cursor), PageSize(limit));
  }

  /** Scans the ordered snapshot for the rows below the cursor until the page is full. */
  method Fetch(s: seq<Row>, cursor: Option<Row>, n: nat) returns (page: seq<Row>)
    ensures page == var q := Query(s, cursor); if |q| <= n then q else q[..n]
  {
    page := [];
    ghost var q := [];
    var i := 0;
    while i < |s|
      invariant 0 <= i <= |s|
      invariant q == Query(s[..i], cursor)
      invariant page == if |q| <= n then q else q[..n]
    {
      assert s[..i + 1][..i] == s[..i];
      if Below(s[i], cursor) {
        q := q + [s[i]];
        if |page| < n {
          page := page + [s[i]];
        }
      }
      i := i + 1;
    }
    assert s[..i] == s;
  }

  function NextCursor(page: seq<Row>, limit: int): string {
    if |page| < PageSize(limit) then "" else Encode(page[|page| - 1])
  }

  // ------------------------------------------------------------------ following the cursors

  /** The queue in order: distinct storable rows. */
  ghost predicate Queue(s: seq<Row>) {
    && (forall i | 0 <= i < |s| :: Storable(s[i]))
    && (forall i, j | 0 <= i < j < |s| :: Before(s[i], s[j]) && s[i] != s[j])
  }

  /** Whatever the cursor, what is below it is an end of the queue. */
  lemma {:induction false} QueryIsSuffix(s: seq<Row>, cursor: Option<Row>) returns (k: nat)
    requires Queue(s)
    ensures k <= |s| && Query(s, cursor) == s[k..]
  {
    hide Before, Below;
    if s == [] {
      k := 0;
    } else {
      var n := |s| - 1;
      k := QueryIsSuffix(s[..n], cursor);
      if k < n {
        QueryMembers(s[..n], cursor, 0);
        BelowCarries(s[k], s[n], cursor);
      }
      if Below(s[n], cursor) {
        assert s[k..] == s[..n][k..] + [s[n]];
      } else {
        k := n + 1;
      }
    }
  }

  lemma {:induction false} QueryMembers(s: seq<Row>, cursor: Option<Row>, i: nat)
    requires i < |Query(s, cursor)|
    ensures Below(Query(s, cursor)[i], cursor)
  {
    var rest := Query(s[..|s| - 1], cursor);
    if i < |rest| {
      QueryMembers(s[..|s| - 1], cursor, i);
    }
  }

  /** Below the k-th row of the queue are exactly the rows after it. */
  lemma {:induction false} BelowRow(s: seq<Row>, k: nat)
    requires Queue(s) && k < |s|
    ensures Query(s, Some(s[k])) == s[k + 1..]
  {
    hide Before;
    var n := |s| - 1;
    if k < n {
      BelowRow(s[..n], k);
      assert s[k + 1..] == s[..n][k + 1..] + [s[n]];
    } else {
      forall i | 0 <= i <= n ensures !Below(s[i], Some(s[n])) {
        if i < n {
          BelowCarries(s[i], s[n], None);
        }
      }
      NothingBelow(s, Some(s[n]));
    }
  }

  lemma {:induction false} NothingBelow(s: seq<Row>, cursor: Option<Row>)
    requires forall i | 0 <= i < |s| :: !Below(s[i], cursor)
    ensures Query(s, cursor) == []
  {
    if s != [] {
      NothingBelow(s[..|s| - 1], cursor);
    }
  }

  /** The cursor after a full page leaves what the page left. */
  lemma NextPage(s: seq<Row>, cursor: string, limit: int)
    requires Queue(s) && NextCursor(Page(s, cursor, limit), limit) != ""
    ensures var n := PageSize(limit);
            var next := NextCursor(Page(s, cursor, limit), limit);
            && |Query(s, Parse(cursor))| >= n
            && Query(s, Parse(next)) == Query(s, Parse(cursor))[n..]
  {
    hide Before, Below, Parse, Encode, Query;
    var n := PageSize(limit);
    var page := Page(s, cursor, limit);
    var k := QueryIsSuffix(s, Parse(cursor));
    assert |page| == n && page[n - 1] == s[k..][n - 1] == s[k + n - 1];
    ParseUndoesEncode(s[k + n - 1]);
    BelowRow(s, k + n - 1);
  }

  /** The pages a reader gets who follows each cursor until there is none. */
  ghost function Walk(s: seq<Row>, cursor: string, limit: int): seq<seq<Row>>
    requires Queue(s)
    decreases |Query(s, Parse(cursor))|
  {
    var page := Page(s, cursor, limit);
    var next := NextCursor(page, limit);
    if next == "" then [page]
    else
      NextPage(s, cursor, limit);
      [page] + Walk(s, next, limit)
  }

  function Concat(pages: seq<seq<Row>>): seq<Row> {
    if pages == [] then [] else pages[0] + Concat(pages[1..])
  }

  lemma WalkUnfolds(s: seq<Row>, cursor: string, limit: int)
    requires Queue(s)
    ensures var page := Page(s, cursor, limit);
            Walk(s, cursor, limit)
            == if |page| < PageSize(limit) then [page] else [page] + Walk(s, NextCursor(page, limit), limit)
  {
    CursorEndsShortPage(Page(s, cursor, limit), limit);
  }

  /** What a walk from `cursor` gives: all that is below the cursor, in full pages and one short last page. */
  ghost predicate Covers(pages: seq<seq<Row>>, q: seq<Row>, n: nat)
    requires n > 0
  {
    && Concat(pages) == q
    && |pages| == |q| / n + 1
    && (forall k | 0 <= k < |pages| - 1 :: |pages[k]| == n)
    && |pages[|pages| - 1]| < n
  }

  lemma CoversMore(page: seq<Row>, pages: seq<seq<Row>>, q: seq<Row>, n: nat)
    requires n > 0 && |q| >= n && page == q[..n] && Covers(pages, q[n..], n)
    ensures Covers([page] + pages, q, n)
  {
    assert ([page] + pages)[1..] == pages && q == page + q[n..];
    DivMod(|q| - n, n);
    Distribute((|q| - n) / n, 1, n);
    DivUnique(|q|, n, (|q| - n) / n + 1, (|q| - n) % n);
  }

  lemma CoversLast(q: seq<Row>, n: nat)
    requires |q| < n
    ensures Covers([q], q, n)
  {
    assert Concat([q]) == q + Concat([]);
  }

  lemma {:induction false} WalkCovers(s: seq<Row>, cursor: string, limit: int)
    requires Queue(s)
    ensures Covers(Walk(s, cursor, limit), Query(s, Parse(cursor)), PageSize(limit))
    decreases |Query(s, Parse(cursor))|
  {
    hide Before, Below, Parse, Encode, Query, Queue, NextCursor, Walk, Covers, Concat, PageSize;
    var q, n := Query(s, Parse(cursor)), PageSize(limit);
    var page := Page(s, cursor, limit);
    WalkUnfolds(s, cursor, limit);
    CursorEndsShortPage(page, limit);
    if |page| < n {
      CoversLast(q, n);
    } else {
      var next := NextCursor(page, limit);
      NextPage(s, cursor, limit);
      WalkCovers(s, next, limit);
      CoversMore(page, Walk(s, next, limit), q, n);
    }
  }

  lemma CursorEndsShortPage(page: seq<Row>, limit: int)
    ensures NextCursor(page, limit) == "" <==> |page| < PageSize(limit)
  {
    if |page| >= PageSize(limit) {
      EncodedHasDelimiter(page[|page| - 1]);
    }
  }

  /** Following the cursors over a snapshot ends, and the pages joined are the whole severity-sorted queue,
      each row once. */
  lemma CursorsCoverTheQueue(snapshot: seq<Row>, limit: int)
    requires forall i | 0 <= i < |snapshot| :: Storable(snapshot[i])
    requires forall i, j | 0 <= i < j < |snapshot| :: snapshot[i].id != snapshot[j].id
    ensures var s := Sorting.Sort(Before, snapshot);
            && Queue(s) && multiset(s) == multiset(snapshot)
            && Covers(Walk(s, "", limit), s, PageSize(limit))
  {
    BeforeIsTotal();
    var s := Sorting.Sort(Before, snapshot);
    Sorting.SortSorts(Before, snapshot);
    SortedQueue(snapshot, s);
    WalkCovers(s, "", limit);
    AllBelow(s);
  }

  lemma {:induction false} AllBelow(s: seq<Row>)
    ensures Query(s, None) == s
  {
    if s != [] {
      AllBelow(s[..|s| - 1]);
    }
  }

  lemma SortedQueue(snapshot: seq<Row>, s: seq<Row>)
    requires forall i | 0 <= i < |snapshot| :: Storable(snapshot[i])
    requires forall i, j | 0 <= i < j < |snapshot| :: snapshot[i].id != snapshot[j].id
    requires Sorting.SortedBy(Before, s) && multiset(s) == multiset(snapshot)
    ensures Queue(s)
  {
    forall i | 0 <= i < |s| ensures Storable(s[i]) {
      assert s[i] in multiset(snapshot);
    }
    forall i, j | 0 <= i < j < |s| ensures s[i] != s[j] {
      OnceEach(snapshot, s[i]);
      if s[i] == s[j] {
        TwiceIn(s, i, j);
      }
    }
  }

  lemma {:induction false} OnceEach(rows: seq<Row>, r: Row)
    requires forall i, j | 0 <= i < j < |rows| :: rows[i].id != rows[j].id
    ensures multiset(rows)[r] <= 1
  {
    if rows != [] {
      var n := |rows| - 1;
      OnceEach(rows[..n], r);
      assert rows == rows[..n] + [rows[n]];
      assert rows[n] !in rows[..n];
    }
  }

  lemma TwiceIn(s: seq<Row>, i: nat, j: nat)
    requires i < j < |s| && s[i] == s[j]
    ensures multiset(s)[s[i]] >= 2
  {
    assert s == s[..i] + [s[i]] + s[i + 1..j] + [s[j]] + s[j + 1..];
  }
}
