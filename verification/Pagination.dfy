/** Keyset pagination: the page query, the cursor, and the walk a client makes through the pages. */
module Pagination {
  import opened Common

  // ---------------------------------------------------------------- the cursor string

  datatype Decoded = Cursor(timestamp: string, id: string) | InvalidCursor

  /** The text under the base64 layer. */
  function EncodeCursor(timestamp: string, id: string): string {
    timestamp + ":" + id
  }

  /** Where the last colon stands, or nothing. */
  function LastColon(raw: string): (p: Option<nat>)
    ensures p.Some? ==> p.value < |raw| && raw[p.value] == ':' && ':' !in raw[p.value + 1..]
    ensures p.None? ==> ':' !in raw
  {
    if raw == "" then None
    else if raw[|raw| - 1] == ':' then Some(|raw| - 1)
    else LastColon(raw[..|raw| - 1])
  }

  /** rpartition(":"), rejecting an empty part. */
  function DecodeCursor(raw: string): Decoded {
    match LastColon(raw)
    case None => InvalidCursor
    case Some(p) => if p == 0 || p + 1 == |raw| then InvalidCursor else Cursor(raw[..p], raw[p + 1..])
  }

  lemma {:induction false} LastColonIs(raw: string, p: nat)
    requires p < |raw| && raw[p] == ':' && ':' !in raw[p + 1..]
    ensures LastColon(raw) == Some(p)
  {
    var n := |raw| - 1;
    if p < n {
      assert raw[n] == raw[p + 1..][n - (p + 1)];
      assert raw[..n][p + 1..] == raw[p + 1..][..n - (p + 1)];
      LastColonIs(raw[..n], p);
    }
  }

  /** The round trip works exactly for a non-empty timestamp and a non-empty id without a colon; colons in the
      timestamp, as ISO times have, do no harm. */
  lemma CursorRoundTripIff(timestamp: string, id: string)
    ensures DecodeCursor(EncodeCursor(timestamp, id)) == Cursor(timestamp, id) <==>
            timestamp != "" && id != "" && ':' !in id
  {
    var raw, n := EncodeCursor(timestamp, id), |timestamp|;
    assert raw[n] == ':' && raw[..n] == timestamp && raw[n + 1..] == id;
    if ':' !in id { LastColonIs(raw, n); }
  }

  // ---------------------------------------------------------------- one page

  /** The sort key of a row. */
  datatype Key = Key(time: int, id: Id)

  /** (time, id) < (time, id) */
  predicate Less(a: Key, b: Key) {
    a.time < b.time || (a.time == b.time && a.id < b.id)
  }

  /** The filtered rows a page may show. */
  function After(rows: set<Key>, cursor: Option<Key>): set<Key> {
    set k | k in rows && (cursor.Some? ==> Less(k, cursor.value))
  }

  predicate IsGreatest(rows: set<Key>, k: Key) {
    k in rows && forall j :: j in rows && j != k ==> Less(j, k)
  }

  lemma GreatestExists(rows: set<Key>)
    requires rows != {}
    ensures exists k :: IsGreatest(rows, k)
  {
    var x :| x in rows;
    if rows - {x} == {} {
      assert rows == {x};
      assert IsGreatest(rows, x);
    } else {
      GreatestExists(rows - {x});
      var g :| IsGreatest(rows - {x}, g);
      var k := if Less(g, x) then x else g;
      assert x.id != g.id || x.time != g.time;
      assert forall j :: j in rows ==> j == x || j in rows - {x};
      assert IsGreatest(rows, k);
    }
  }

  function Greatest(rows: set<Key>): (k: Key)
    requires rows != {}
    ensures IsGreatest(rows, k)
  {
    GreatestExists(rows);
    assert forall a, b :: IsGreatest(rows, a) && IsGreatest(rows, b) ==> a == b;
    var k :| k in rows && IsGreatest(rows, k);
    k
  }

  /** ORDER BY time DESC, id DESC LIMIT n */
  function TopN(rows: set<Key>, n: nat): (page: seq<Key>)
    ensures |page| <= n
    ensures forall i :: 0 <= i < |page| ==> page[i] in rows
    decreases n
  {
    if n == 0 || rows == {} then []
    else
      var k := Greatest(rows);
      [k] + TopN(rows - {k}, n - 1)
  }

  datatype Page = Page(items: seq<Key>, nextCursor: Option<Key>)

  /** The endpoint: fetch one row more than asked for, cut, and point the cursor at the last row shown. */
  function ListPage(rows: set<Key>, cursor: Option<Key>, limit: nat): Page
    requires limit >= 1
  {
    var fetched := TopN(After(rows, cursor), limit + 1);
    if |fetched| > limit then Page(fetched[..limit], Some(fetched[limit - 1])) else Page(fetched, None)
  }

  function Members(s: seq<Key>): set<Key> {
    set k | k in s
  }

  ghost predicate Descending(s: seq<Key>) {
    forall i, j :: 0 <= i < j < |s| ==>
      s[j].time < s[i].time || (s[j].time == s[i].time && s[j].id < s[i].id)
  }

  lemma {:induction false} TopNDescends(rows: set<Key>, n: nat)
    ensures Descending(TopN(rows, n))
    decreases n
  {
    if n > 0 && rows != {} {
      var g := Greatest(rows);
      TopNDescends(rows - {g}, n - 1);
      GreatestFirst(g, TopN(rows - {g}, n - 1), rows);
    }
  }

  lemma GreatestFirst(g: Key, rest: seq<Key>, rows: set<Key>)
    requires IsGreatest(rows, g) && Descending(rest) && forall i :: 0 <= i < |rest| ==> rest[i] in rows - {g}
    ensures Descending([g] + rest)
  {
    var page := [g] + rest;
    forall i, j | 0 <= i < j < |page|
        ensures page[j].time < page[i].time || (page[j].time == page[i].time && page[j].id < page[i].id) {
      assert page[j] == rest[j - 1];
      if i == 0 { assert Less(page[j], g); } else { assert page[i] == rest[i - 1]; }
    }
  }

  lemma {:induction false} TopNIsTop(rows: set<Key>, n: nat)
    ensures Descending(TopN(rows, n))
    ensures forall k, i :: k in rows && k !in TopN(rows, n) && 0 <= i < |TopN(rows, n)| ==> Less(k, TopN(rows, n)[i])
    ensures |TopN(rows, n)| < n ==> forall k :: k in rows ==> k in TopN(rows, n)
    decreases n
  {
    TopNDescends(rows, n);
    if n > 0 && rows != {} {
      var g := Greatest(rows);
      var rest, page := TopN(rows - {g}, n - 1), TopN(rows, n);
      TopNIsTop(rows - {g}, n - 1);
      assert page == [g] + rest;
      assert forall x :: x in rest ==> x in page;
      assert forall i :: 1 <= i < |page| ==> page[i] == rest[i - 1];
    }
  }

  /** What one page shows: the greatest eligible rows, in descending order; everything eligible if there is no
      further page, and otherwise everything eligible that is not below the cursor. */
  lemma PageIsExact(rows: set<Key>, cursor: Option<Key>, limit: nat)
    requires limit >= 1
    ensures var p := ListPage(rows, cursor, limit);
            && Descending(p.items) && |p.items| <= limit
            && (forall k :: k in p.items ==> k in After(rows, cursor))
            && (forall k :: k in After(rows, cursor) ==>
                k in p.items || (p.nextCursor.Some? && Less(k, p.nextCursor.value)))
            && (p.nextCursor.Some? ==> |p.items| == limit && p.nextCursor.value == p.items[limit - 1])
            && (p.nextCursor.Some? <==> exists k :: k in After(rows, cursor) && k !in p.items)
  {
    var eligible := After(rows, cursor);
    var fetched, p := TopN(eligible, limit + 1), ListPage(rows, cursor, limit);
    TopNIsTop(eligible, limit + 1);
    if |fetched| > limit {
      var beyond := fetched[limit];
      assert beyond in eligible;
      forall i | 0 <= i < limit ensures p.items[i] != beyond { assert Less(beyond, fetched[i]); }
      forall k | k in eligible ensures k in p.items || Less(k, fetched[limit - 1]) {
        if k in fetched {
          var i :| 0 <= i < |fetched| && fetched[i] == k;
          if i < limit { assert p.items[i] == k; }
        }
      }
    }
  }

  // ---------------------------------------------------------------- the walk

  /** The rows shown by following next_cursor; tables[i] is what the filter matches when page i is fetched. The
      walk ends at a page without a cursor, or when the client stops asking. */
  function Walk(tables: seq<set<Key>>, cursor: Option<Key>, limit: nat): seq<Key>
    requires limit >= 1
  {
    if tables == [] then []
    else
      var p := ListPage(tables[0], cursor, limit);
      if p.nextCursor.None? then p.items else p.items + Walk(tables[1..], p.nextCursor, limit)
  }

  /** Did the walk reach a page without a cursor? */
  predicate Finished(tables: seq<set<Key>>, cursor: Option<Key>, limit: nat)
    requires limit >= 1
  {
    if tables == [] then false
    else
      var p := ListPage(tables[0], cursor, limit);
      p.nextCursor.None? || Finished(tables[1..], p.nextCursor, limit)
  }

  lemma {:induction false} WalkDescends(tables: seq<set<Key>>, cursor: Option<Key>, limit: nat)
    requires limit >= 1
    ensures Descending(Walk(tables, cursor, limit))
    ensures cursor.Some? ==> forall k :: k in Walk(tables, cursor, limit) ==> Less(k, cursor.value)
  {
    if tables != [] {
      PageIsExact(tables[0], cursor, limit);
      var p := ListPage(tables[0], cursor, limit);
      if p.nextCursor.Some? {
        WalkDescends(tables[1..], p.nextCursor, limit);
        var rest := Walk(tables[1..], p.nextCursor, limit);
        forall k | k in rest ensures forall i :: 0 <= i < |p.items| ==> Less(k, p.items[i]) {
          assert Less(k, p.items[limit - 1]);
        }
        DescendingAppend(p.items, rest);
      }
    }
  }

  lemma DescendingAppend(a: seq<Key>, b: seq<Key>)
    requires Descending(a) && Descending(b)
    requires forall k, i :: k in b && 0 <= i < |a| ==> Less(k, a[i])
    ensures Descending(a + b)
  {
    forall i, j | 0 <= i < j < |a + b| ensures Less((a + b)[j], (a + b)[i]) {
      if j >= |a| { assert (a + b)[j] in b; }
    }
  }

  /** A finished walk shows, strictly descending and so without repeats, every row that matched the filter while
      each page was fetched, whatever else was inserted or removed between the pages. */
  lemma {:induction false} WalkIsExact(tables: seq<set<Key>>, cursor: Option<Key>, limit: nat, k: Key)
    requires limit >= 1 && Finished(tables, cursor, limit)
    requires forall i :: 0 <= i < |tables| ==> k in tables[i]
    requires cursor.Some? ==> Less(k, cursor.value)
    ensures k in Walk(tables, cursor, limit)
  {
    PageIsExact(tables[0], cursor, limit);
    var p := ListPage(tables[0], cursor, limit);
    assert k in After(tables[0], cursor);
    if p.nextCursor.Some? && k !in p.items {
      WalkIsExact(tables[1..], p.nextCursor, limit, k);
    }
  }

  /** On a fixed table the walk finishes after at most one page more than the full ones... */
  lemma {:induction false} WalkTerminates(rows: set<Key>, cursor: Option<Key>, limit: nat, pages: nat)
    requires limit >= 1 && pages * limit > |After(rows, cursor)|
    ensures Finished(seq(pages, _ => rows), cursor, limit)
    decreases pages
  {
    var tables := seq(pages, _ => rows);
    if pages > 0 {
      var p := ListPage(rows, cursor, limit);
      assert tables[0] == rows && tables[1..] == seq(pages - 1, _ => rows);
      if p.nextCursor.Some? {
        PageShrinks(rows, cursor, limit);
        OnePageLess(pages, limit, |After(rows, cursor)|, |After(rows, p.nextCursor)|);
        WalkTerminates(rows, p.nextCursor, limit, pages - 1);
      }
    }
  }

  lemma OnePageLess(pages: nat, limit: nat, before: nat, after: nat)
    requires pages > 0 && pages * limit > before && after + limit <= before
    ensures (pages - 1) * limit > after
  {
  }

  lemma PageShrinks(rows: set<Key>, cursor: Option<Key>, limit: nat)
    requires limit >= 1 && ListPage(rows, cursor, limit).nextCursor.Some?
    ensures |After(rows, ListPage(rows, cursor, limit).nextCursor)| + limit <= |After(rows, cursor)|
  {
    PageIsExact(rows, cursor, limit);
    var p := ListPage(rows, cursor, limit);
    var shown, left := Members(p.items), After(rows, p.nextCursor);
    DistinctCount(p.items);
    NothingShownIsLeft(rows, p.items, limit);
    assert left <= After(rows, cursor) by { assert p.nextCursor.value in After(rows, cursor); }
    SubsetSize(shown + left, After(rows, cursor));
  }

  lemma NothingShownIsLeft(rows: set<Key>, items: seq<Key>, limit: nat)
    requires Descending(items) && |items| == limit >= 1
    ensures Members(items) !! After(rows, Some(items[limit - 1]))
  {
    forall k | k in Members(items) ensures k !in After(rows, Some(items[limit - 1])) {
      var i :| 0 <= i < |items| && items[i] == k;
      if i < limit - 1 { assert Less(items[limit - 1], items[i]); }
    }
  }

  lemma {:induction false} DistinctCount(s: seq<Key>)
    requires Descending(s)
    ensures |Members(s)| == |s|
  {
    if s != [] {
      var init, last := s[..|s| - 1], s[|s| - 1];
      DistinctCount(init);
      assert Members(s) == Members(init) + {last} by { assert s == init + [last]; }
      assert last !in init;
    }
  }

  lemma SubsetSize(a: set<Key>, b: set<Key>)
    requires a <= b
    ensures |a| <= |b|
  {
    assert b == a + (b - a);
  }

  /** ... and shows exactly the filtered rows, in (time desc, id desc) order. */
  lemma {:induction false} FixedTableWalk(rows: set<Key>, limit: nat, pages: nat)
    requires limit >= 1 && pages * limit > |rows|
    ensures var shown := Walk(seq(pages, _ => rows), None, limit);
            Descending(shown) && Members(shown) == rows
  {
    var tables := seq(pages, _ => rows);
    assert After(rows, None) == rows;
    WalkTerminates(rows, None, limit, pages);
    WalkDescends(tables, None, limit);
    forall k | k in rows ensures k in Walk(tables, None, limit) { WalkIsExact(tables, None, limit, k); }
    WalkShowsOnlyRows(tables, None, limit);
  }

  lemma {:induction false} WalkShowsOnlyRows(tables: seq<set<Key>>, cursor: Option<Key>, limit: nat)
    requires limit >= 1
    ensures forall k :: k in Walk(tables, cursor, limit) ==> exists i :: 0 <= i < |tables| && k in tables[i]
  {
    if tables != [] {
      PageIsExact(tables[0], cursor, limit);
      var p := ListPage(tables[0], cursor, limit);
      if p.nextCursor.Some? {
        WalkShowsOnlyRows(tables[1..], p.nextCursor, limit);
        forall k | k in Walk(tables[1..], p.nextCursor, limit) ensures exists i :: 0 <= i < |tables| && k in tables[i] {
          var i :| 0 <= i < |tables[1..]| && k in tables[1..][i];
          assert k in tables[i + 1];
        }
      }
    }
  }
}
