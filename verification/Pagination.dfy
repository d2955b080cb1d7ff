/**
 Keyset pagination: the cursor, one page of a listing ordered by creation time
 and id (both descending), and the client loop that follows the cursors while
 the table changes underneath it.
 */
module Pagination {
  import opened Prelude
  import opened Utf8
  import Base64

  // id stands for the rank of the row's id among all ids.
  datatype Row = Row(createdAt: int, id: int)

  predicate Before(r: Row, s: Row) {
    r.createdAt < s.createdAt || (r.createdAt == s.createdAt && r.id < s.id)
  }

  // A table as its listing: newest first, so every row once.
  ghost predicate Listing(rows: seq<Row>) {
    forall i, j :: 0 <= i < j < |rows| ==> Before(rows[j], rows[i])
  }

  // ------------------------------------------------------------ the cursor

  // How a row's key is written as JSON and read again.
  datatype Codec = Codec(text: Row -> string, parse: string -> Option<Row>)

  ghost predicate Faithful(c: Codec) {
    forall r :: c.parse(c.text(r)) == Some(r)
  }

  function EncodeCursor(c: Codec, r: Row): string {
    Base64.StripPadding(Base64.Encode(Base64.UrlSafe, Utf8.Encode(c.text(r))))
  }

  function DecodeCursor(c: Codec, cursor: string): Option<Row> {
    var raw := Base64.Decode(Base64.UrlSafe, Base64.Repad(cursor));
    if raw.None? then None
    else
      var text := Utf8.Decode(raw.value);
      if text.None? then None else c.parse(text.value)
  }

  // The unpadded cursor decodes to the row it was made from, whatever the length
  // of its text.
  lemma CursorRoundTrip(c: Codec, r: Row)
    requires Faithful(c)
    ensures DecodeCursor(c, EncodeCursor(c, r)) == Some(r)
  {
    var raw := Utf8.Encode(c.text(r));
    Base64.StripThenRepad(Base64.UrlSafe, raw);
    Base64.DecodeEncode(Base64.UrlSafe, raw);
    DecodeInvertsEncode(c.text(r), raw);
  }

  // How the server writes a cursor and reads it again.
  datatype Cursors = Cursors(show: Row -> string, read: string -> Option<Row>)

  ghost predicate RoundTrips(cs: Cursors) {
    forall r :: cs.read(cs.show(r)) == Some(r)
  }

  function CursorsOf(c: Codec): Cursors {
    Cursors(r => EncodeCursor(c, r), s => DecodeCursor(c, s))
  }

  lemma CursorsOfRoundTrip(c: Codec)
    requires Faithful(c)
    ensures RoundTrips(CursorsOf(c))
  {
    var cs := CursorsOf(c);
    forall r
      ensures cs.read(cs.show(r)) == Some(r)
    {
      CursorRoundTrip(c, r);
    }
  }

  // ------------------------------------------------------------ one page

  predicate Past(r: Row, cursor: Option<Row>) {
    cursor.None? || Before(r, cursor.value)
  }

  // The rows that the cursor's condition selects.
  function ApplyCursor(rows: seq<Row>, cursor: Option<Row>): seq<Row> {
    if rows == [] then []
    else (if Past(rows[0], cursor) then [rows[0]] else []) + ApplyCursor(rows[1..], cursor)
  }

  datatype Page = Page(items: seq<Row>, next: Option<Row>)

  function PageItems(items: seq<Row>, limit: nat): Page
    requires limit >= 1
  {
    if |items| <= limit then Page(items, None)
    else Page(items[..limit], Some(items[limit - 1]))
  }

  // One row more than the limit is read to see whether there is a next page.
  function ServePage(table: seq<Row>, cursor: Option<Row>, limit: nat): Page
    requires limit >= 1
  {
    var selected := ApplyCursor(table, cursor);
    PageItems(selected[..Min(limit + 1, |selected|)], limit)
  }

  lemma {:induction false} SelectedRows(rows: seq<Row>, cursor: Option<Row>)
    requires Listing(rows)
    ensures Listing(ApplyCursor(rows, cursor))
    ensures forall r :: r in ApplyCursor(rows, cursor) <==> r in rows && Past(r, cursor)
  {
    if rows != [] {
      SelectedRows(rows[1..], cursor);
      var rest := ApplyCursor(rows[1..], cursor);
      forall j | 0 <= j < |rest|
        ensures Before(rest[j], rows[0])
      {
        assert rest[j] in rows[1..];
      }
    }
  }

  // Listings of the same rows are the same.
  lemma {:induction false} ListingIsUnique(a: seq<Row>, b: seq<Row>)
    requires Listing(a) && Listing(b)
    requires forall r :: r in a <==> r in b
    ensures a == b
  {
    assert a != [] ==> a[0] in b;
    assert b != [] ==> b[0] in a;
    if a != [] {
      forall r
        ensures r in a[1..] <==> r in b[1..]
      {
        assert r in a <==> r in b;
      }
      ListingIsUnique(a[1..], b[1..]);
    }
  }

  // The rows of a listing behind one of its rows are the later ones.
  lemma BehindRow(selected: seq<Row>, i: nat, r: Row)
    requires Listing(selected) && 1 <= i <= |selected|
    ensures r in selected[i..] <==> r in selected && Before(r, selected[i - 1])
  {
    if r in selected && Before(r, selected[i - 1]) {
      var k :| 0 <= k < |selected| && selected[k] == r;
      assert selected[i..][k - i] == r;
    }
  }

  lemma SelectedBehind(table: seq<Row>, cursor: Option<Row>, i: nat)
    requires Listing(table) && 1 <= i <= |ApplyCursor(table, cursor)|
    ensures var selected := ApplyCursor(table, cursor);
            ApplyCursor(table, Some(selected[i - 1])) == selected[i..]
  {
    var selected := ApplyCursor(table, cursor);
    var last := selected[i - 1];
    SelectedRows(table, cursor);
    SelectedRows(table, Some(last));
    assert last in selected && Past(last, cursor);
    forall r
      ensures r in ApplyCursor(table, Some(last)) <==> r in selected[i..]
    {
      BehindRow(selected, i, r);
    }
    ListingIsUnique(ApplyCursor(table, Some(last)), selected[i..]);
  }

  // The next page of an unchanged table continues exactly where this one ended.
  lemma NextPageContinues(table: seq<Row>, cursor: Option<Row>, limit: nat)
    requires Listing(table) && limit >= 1 && |ApplyCursor(table, cursor)| > limit
    ensures var selected := ApplyCursor(table, cursor);
            && ServePage(table, cursor, limit) == Page(selected[..limit], Some(selected[limit - 1]))
            && ApplyCursor(table, Some(selected[limit - 1])) == selected[limit..]
  {
    var selected := ApplyCursor(table, cursor);
    assert selected[..limit + 1][..limit] == selected[..limit];
    SelectedBehind(table, cursor, limit);
  }

  // What a page says about the table it was served from, whatever happened before.
  lemma PageFacts(table: seq<Row>, cursor: Option<Row>, limit: nat)
    requires Listing(table) && limit >= 1
    ensures var page := ServePage(table, cursor, limit);
            && Listing(page.items)
            && (forall r :: r in page.items ==> r in table && Past(r, cursor))
            && (page.next.Some? ==> page.items != [] && page.next.value == page.items[|page.items| - 1])
            && (forall r :: r in table && Past(r, cursor) ==>
                  r in page.items || (page.next.Some? && Before(r, page.next.value)))
  {
    var selected := ApplyCursor(table, cursor);
    SelectedRows(table, cursor);
    var page := ServePage(table, cursor, limit);
    if |selected| <= limit {
      assert page.items == selected;
    } else {
      assert page.items == selected[..limit];
      forall r | r in table && Past(r, cursor)
        ensures r in page.items || Before(r, page.next.value)
      {
        var i :| 0 <= i < |selected| && selected[i] == r;
      }
    }
  }

  // ------------------------------------------------------------ following the cursors

  // The rows that a client gathers when the table is tables(k) at the k-th
  // request, giving up after budget requests.
  function Follow(tables: nat -> seq<Row>, k: nat, cursor: Option<Row>, limit: nat, budget: nat): Option<seq<Row>>
    requires limit >= 1
    decreases budget
  {
    if budget == 0 then None
    else
      var page := ServePage(tables(k), cursor, limit);
      if page.next.None? then Some(page.items)
      else
        var rest := Follow(tables, k + 1, page.next, limit, budget - 1);
        if rest.None? then None else Some(page.items + rest.value)
  }

  lemma OnePageLess(limit: nat, budget: nat)
    requires budget >= 1
    ensures limit <= limit * budget == limit * (budget - 1) + limit
    ensures budget == 1 ==> limit * budget == limit
  {
  }

  ghost predicate Unchanged(tables: nat -> seq<Row>, table: seq<Row>) {
    forall k :: tables(k) == table
  }

  // An unchanged table comes back complete and in order, within as many requests
  // as there are full pages.
  lemma {:induction false} UnchangedTable(tables: nat -> seq<Row>, table: seq<Row>, k: nat, cursor: Option<Row>, limit: nat,
                                          budget: nat)
    requires Listing(table) && Unchanged(tables, table) && limit >= 1 && budget >= 1
    ensures Follow(tables, k, cursor, limit, budget) ==
            if |ApplyCursor(table, cursor)| <= limit * budget then Some(ApplyCursor(table, cursor)) else None
    decreases budget
  {
    var selected := ApplyCursor(table, cursor);
    OnePageLess(limit, budget);
    assert tables(k) == table;
    if |selected| > limit {
      NextPageContinues(table, cursor, limit);
      if budget > 1 {
        UnchangedTable(tables, table, k + 1, Some(selected[limit - 1]), limit, budget - 1);
        assert selected == selected[..limit] + selected[limit..];
      }
    } else {
      assert selected[..|selected|] == selected;
    }
  }

  // Whatever is inserted or deleted between requests: no row is shown twice, only
  // rows that were there are shown, and a row that is there at every request is shown.
  lemma {:induction false} ChangingTable(tables: nat -> seq<Row>, k: nat, cursor: Option<Row>, limit: nat, budget: nat)
    requires (forall j: nat :: Listing(tables(j))) && limit >= 1
    requires Follow(tables, k, cursor, limit, budget).Some?
    ensures var shown := Follow(tables, k, cursor, limit, budget).value;
            && Listing(shown)
            && (forall r :: r in shown ==> Past(r, cursor) && exists j: nat :: r in tables(j))
            && (forall r :: Past(r, cursor) && (forall j: nat :: r in tables(j)) ==> r in shown)
    decreases budget
  {
    var page := ServePage(tables(k), cursor, limit);
    PageFacts(tables(k), cursor, limit);
    if page.next.Some? {
      ChangingTable(tables, k + 1, page.next, limit, budget - 1);
      var rest := Follow(tables, k + 1, page.next, limit, budget - 1).value;
      JoinListings(page.items, rest);
      forall r | r in rest
        ensures Past(r, cursor)
      {
        assert page.next.value in page.items;
      }
    }
  }

  lemma JoinListings(a: seq<Row>, b: seq<Row>)
    requires Listing(a) && Listing(b) && a != []
    requires forall r :: r in b ==> Before(r, a[|a| - 1])
    ensures Listing(a + b)
  {
    var s := a + b;
    forall i, j | 0 <= i < j < |s|
      ensures Before(s[j], s[i])
    {
      if i < |a| <= j {
        assert s[j] == b[j - |a|] && s[j] in b;
        assert i < |a| - 1 ==> Before(a[|a| - 1], a[i]);
      }
    }
  }

  // ------------------------------------------------------------ the client

  // One answer: the rows, and the cursor of the next request as text.
  type Answer = Result<(seq<Row>, Option<string>), string>

  const LIMIT_EXCEEDED := "The collection exceeded the client paging safety limit."
  const CLIENT_LIMIT := 200
  const CLIENT_PAGES := 100

  // What the client gathers from a server, from its k-th request on.
  function Gather(fetch: (nat, Option<string>) -> Answer, k: nat, cursor: Option<string>, pages: nat): Result<seq<Row>, string>
    decreases pages
  {
    if pages == 0 then Err(LIMIT_EXCEEDED)
    else
      var answer := fetch(k, cursor);
      if answer.Err? then Err(answer.error)
      else if answer.value.1.None? then Ok(answer.value.0)
      else Prepend(answer.value.0, Gather(fetch, k + 1, answer.value.1, pages - 1))
  }

  function Prepend(items: seq<Row>, rest: Result<seq<Row>, string>): Result<seq<Row>, string> {
    if rest.Err? then rest else Ok(items + rest.value)
  }

  lemma PrependTwice(a: seq<Row>, b: seq<Row>, rest: Result<seq<Row>, string>)
    ensures Prepend(a, Prepend(b, rest)) == Prepend(a + b, rest)
    ensures Prepend([], rest) == rest
  {
    if rest.Ok? {
      assert a + (b + rest.value) == (a + b) + rest.value;
      assert [] + rest.value == rest.value;
    }
  }

  method ReadPages(fetch: (nat, Option<string>) -> Answer, pages: nat) returns (r: Result<seq<Row>, string>)
    ensures r == Gather(fetch, 0, None, pages)
  {
    var items: seq<Row> := [];
    var cursor: Option<string> := None;
    PrependTwice([], [], Gather(fetch, 0, None, pages));
    for pageNumber := 0 to pages
      invariant Gather(fetch, 0, None, pages) == Prepend(items, Gather(fetch, pageNumber, cursor, pages - pageNumber))
    {
      var answer := fetch(pageNumber, cursor);
      if answer.Err? {
        return Err(answer.error);
      }
      PrependTwice(items, answer.value.0, Gather(fetch, pageNumber + 1, answer.value.1, pages - pageNumber - 1));
      items := items + answer.value.0;
      if answer.value.1.None? {
        return Ok(items);
      }
      cursor := answer.value.1;
    }
    return Err(LIMIT_EXCEEDED);
  }

  function CursorText(cs: Cursors, cursor: Option<Row>): Option<string> {
    if cursor.None? then None else Some(cs.show(cursor.value))
  }

  // The server's handler of one request.
  function Serve(cs: Cursors, table: seq<Row>, cursor: Option<string>, limit: nat): Answer
    requires limit >= 1
  {
    if cursor.Some? && cs.read(cursor.value).None? then Err("Invalid pagination cursor.")
    else
      var page := ServePage(table, if cursor.None? then None else cs.read(cursor.value), limit);
      Ok((page.items, CursorText(cs, page.next)))
  }

  function Outcome(all: Option<seq<Row>>): Result<seq<Row>, string> {
    if all.Some? then Ok(all.value) else Err(LIMIT_EXCEEDED)
  }

  function Server(cs: Cursors, tables: nat -> seq<Row>, limit: nat): (nat, Option<string>) -> Answer
    requires limit >= 1
  {
    (k: nat, cursor: Option<string>) => Serve(cs, tables(k), cursor, limit)
  }

  // The client and the server together, with the cursor travelling as text.
  lemma {:induction false} GatherFollows(cs: Cursors, tables: nat -> seq<Row>, limit: nat, k: nat, cursor: Option<Row>,
                                         pages: nat)
    requires RoundTrips(cs) && limit >= 1
    ensures Gather(Server(cs, tables, limit), k, CursorText(cs, cursor), pages) ==
            Outcome(Follow(tables, k, cursor, limit, pages))
    decreases pages
  {
    if pages > 0 {
      var page := ServePage(tables(k), cursor, limit);
      assert Server(cs, tables, limit)(k, CursorText(cs, cursor)) == Ok((page.items, CursorText(cs, page.next)));
      if page.next.Some? {
        GatherFollows(cs, tables, limit, k + 1, page.next, pages - 1);
      }
    }
  }

  lemma ClientFollowsCursors(c: Codec, tables: nat -> seq<Row>, limit: nat, pages: nat)
    requires Faithful(c) && limit >= 1
    ensures Gather(Server(CursorsOf(c), tables, limit), 0, None, pages) == Outcome(Follow(tables, 0, None, limit, pages))
  {
    CursorsOfRoundTrip(c);
    GatherFollows(CursorsOf(c), tables, limit, 0, None, pages);
  }

  // An unchanged collection is read completely up to twenty thousand rows, and
  // refused beyond.
  lemma ClientReadsUpTo(c: Codec, tables: nat -> seq<Row>, table: seq<Row>)
    requires Faithful(c) && Listing(table) && Unchanged(tables, table)
    ensures Gather(Server(CursorsOf(c), tables, CLIENT_LIMIT), 0, None, CLIENT_PAGES) ==
            if |table| <= 20_000 then Ok(table) else Err(LIMIT_EXCEEDED)
  {
    ClientFollowsCursors(c, tables, CLIENT_LIMIT, CLIENT_PAGES);
    UnchangedTable(tables, table, 0, None, CLIENT_LIMIT, CLIENT_PAGES);
    SelectedRows(table, None);
    ListingIsUnique(table, ApplyCursor(table, None));
  }

  // What a client may rely on when it has read a collection that may have changed
  // between its requests.
  ghost predicate Snapshot(tables: nat -> seq<Row>, shown: seq<Row>) {
    && Listing(shown)
    && (forall r :: r in shown ==> exists k: nat :: r in tables(k))
    && (forall r :: (forall k: nat :: r in tables(k)) ==> r in shown)
  }

  lemma AnswerIsSnapshot(c: Codec, tables: nat -> seq<Row>)
    requires Faithful(c) && forall k: nat :: Listing(tables(k))
    ensures var got := Gather(Server(CursorsOf(c), tables, CLIENT_LIMIT), 0, None, CLIENT_PAGES);
            if got.Ok? then Snapshot(tables, got.value) else got.error == LIMIT_EXCEEDED
  {
    ClientFollowsCursors(c, tables, CLIENT_LIMIT, CLIENT_PAGES);
    if Follow(tables, 0, None, CLIENT_LIMIT, CLIENT_PAGES).Some? {
      ChangingTable(tables, 0, None, CLIENT_LIMIT, CLIENT_PAGES);
    }
  }

  // Reads a whole collection from the server: a row is shown once, was there at some
  // request, and is shown if it was there at every one. The only error is the client's
  // own limit, which an unchanged collection meets beyond twenty thousand rows.
  method ReadAllPages(c: Codec, tables: nat -> seq<Row>) returns (r: Result<seq<Row>, string>)
    requires Faithful(c) && forall k: nat :: Listing(tables(k))
    ensures if r.Ok? then Snapshot(tables, r.value) else r.error == LIMIT_EXCEEDED
    ensures Unchanged(tables, tables(0)) ==> r == if |tables(0)| <= 20_000 then Ok(tables(0)) else Err(LIMIT_EXCEEDED)
  {
    r := ReadPages(Server(CursorsOf(c), tables, CLIENT_LIMIT), CLIENT_PAGES);
    AnswerIsSnapshot(c, tables);
    if Unchanged(tables, tables(0)) {
      ClientReadsUpTo(c, tables, tables(0));
    }
  }
}
