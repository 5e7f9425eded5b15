/**
  Keyset pagination of the append-only listings: the audit log and the builds, which fetch one row
  too many to learn whether another page follows, and the deployments, which hand out a cursor
  whenever a page is full. Cursors are the decoded keys of the last row returned.
*/
module Paging {
  import opened Basics

  /** A row of the listing: its sort key (created_at or revision, then id) and the scope it is listed under. */
  datatype Entry = Entry(at: int, id: nat, scope: nat)

  datatype Key = Key(at: int, id: nat)

  function KeyOf(e: Entry): Key { Key(e.at, e.id) }

  /** Row comparison (at, id) < (at, id). */
  predicate Before(a: Key, b: Key) { a.at < b.at || (a.at == b.at && a.id < b.id) }

  ghost predicate UniqueIds(table: seq<Entry>) {
    forall i, j :: 0 <= i < j < |table| ==> table[i].id != table[j].id
  }

  /**
    The deployments query compares and sorts by revision alone. An application's revisions are distinct,
    so that is the comparison of pairs used here.
  */
  lemma RevisionsSuffice(table: seq<Entry>, i: nat, j: nat)
    requires i < |table| && j < |table| && table[i].scope == table[j].scope
    requires forall a, b :: 0 <= a < b < |table| && table[a].scope == table[b].scope ==> table[a].at != table[b].at
    ensures Before(KeyOf(table[i]), KeyOf(table[j])) <==> table[i].at < table[j].at
  {
    if i < j {
      assert table[i].at != table[j].at;
    } else if j < i {
      assert table[j].at != table[i].at;
    }
  }

  // -- the query ----------------------------------------------------------------------

  predicate Selected(e: Entry, scope: nat, after: Option<Key>) {
    e.scope == scope && (after.None? || Before(KeyOf(e), after.value))
  }

  function Where(table: seq<Entry>, scope: nat, after: Option<Key>): seq<Entry> {
    if table == [] then []
    else
      var found, last := Where(table[..|table| - 1], scope, after), table[|table| - 1];
      if Selected(last, scope, after) then found + [last] else found
  }

  function Insert(e: Entry, s: seq<Entry>): seq<Entry> {
    if s == [] || Before(KeyOf(s[0]), KeyOf(e)) then [e] + s else [s[0]] + Insert(e, s[1..])
  }

  /** ORDER BY at DESC, id DESC. */
  function Sorted(rows: seq<Entry>): seq<Entry> {
    if rows == [] then [] else Insert(rows[|rows| - 1], Sorted(rows[..|rows| - 1]))
  }

  function Take(s: seq<Entry>, n: nat): seq<Entry> { if n < |s| then s[..n] else s }

  /** Ask for one row too many, or take a full page as a sign that more may follow. */
  datatype Rule = Lookahead | FullPage

  datatype Page = Page(entries: seq<Entry>, next: Option<Key>)

  /** Fetch the first rows of what is left, truncate, and name the last row if a page may follow. */
  function Cut(rest: seq<Entry>, limit: nat, rule: Rule): Page
    requires limit >= 1
  {
    match rule
    case Lookahead =>
      var rows := Take(rest, limit + 1);
      if |rows| > limit then Page(rows[..limit], Some(KeyOf(rows[limit - 1]))) else Page(rows, None)
    case FullPage =>
      var rows := Take(rest, limit);
      if |rows| == limit then Page(rows, Some(KeyOf(rows[limit - 1]))) else Page(rows, None)
  }

  function PageOf(table: seq<Entry>, scope: nat, after: Option<Key>, limit: nat, rule: Rule): Page
    requires limit >= 1
  {
    Cut(Sorted(Where(table, scope, after)), limit, rule)
  }

  // -- listings are determined by their members ---------------------------------------

  ghost predicate Descending(s: seq<Entry>) {
    forall i, j :: 0 <= i < j < |s| ==> Before(KeyOf(s[j]), KeyOf(s[i]))
  }

  lemma {:induction false} WhereMembers(table: seq<Entry>, scope: nat, after: Option<Key>, e: Entry)
    ensures e in Where(table, scope, after) <==> e in table && Selected(e, scope, after)
  {
    if table != [] {
      WhereMembers(table[..|table| - 1], scope, after, e);
      assert table == table[..|table| - 1] + [table[|table| - 1]];
    }
  }

  lemma {:induction false} WhereUnique(table: seq<Entry>, scope: nat, after: Option<Key>)
    requires UniqueIds(table)
    ensures UniqueIds(Where(table, scope, after))
  {
    if table != [] {
      var front, last := table[..|table| - 1], table[|table| - 1];
      WhereUnique(front, scope, after);
      forall e | e in Where(front, scope, after) ensures e.id != last.id {
        WhereMembers(front, scope, after, e);
      }
    }
  }

  lemma {:induction false} InsertMembers(e: Entry, s: seq<Entry>, x: Entry)
    ensures x in Insert(e, s) <==> x == e || x in s
  {
    if s != [] && !Before(KeyOf(s[0]), KeyOf(e)) {
      InsertMembers(e, s[1..], x);
      assert s == [s[0]] + s[1..];
    }
  }

  lemma {:induction false} InsertDescends(e: Entry, s: seq<Entry>)
    requires Descending(s) && forall i :: 0 <= i < |s| ==> s[i].id != e.id
    ensures Descending(Insert(e, s))
  {
    if s != [] && !Before(KeyOf(s[0]), KeyOf(e)) {
      InsertDescends(e, s[1..]);
      var r := Insert(e, s[1..]);
      forall j | 0 <= j < |r| ensures Before(KeyOf(r[j]), KeyOf(s[0])) {
        InsertMembers(e, s[1..], r[j]);
        assert r[j] in r;
      }
    }
  }

  lemma {:induction false} SortedMembers(rows: seq<Entry>, x: Entry)
    ensures x in Sorted(rows) <==> x in rows
  {
    if rows != [] {
      var front, last := rows[..|rows| - 1], rows[|rows| - 1];
      SortedMembers(front, x);
      InsertMembers(last, Sorted(front), x);
      assert rows == front + [last];
    }
  }

  lemma {:induction false} SortedDescends(rows: seq<Entry>)
    requires UniqueIds(rows)
    ensures Descending(Sorted(rows))
  {
    if rows != [] {
      var front, last := rows[..|rows| - 1], rows[|rows| - 1];
      SortedDescends(front);
      forall i | 0 <= i < |Sorted(front)| ensures Sorted(front)[i].id != last.id {
        SortedMembers(front, Sorted(front)[i]);
        assert Sorted(front)[i] in front;
      }
      InsertDescends(last, Sorted(front));
    }
  }

  /** Two descending listings of the same rows are the same listing. */
  lemma {:induction false} ListingUnique(a: seq<Entry>, b: seq<Entry>)
    requires Descending(a) && Descending(b) && forall x :: x in a <==> x in b
    ensures a == b
  {
    BothEmpty(a, b);
    if a != [] {
      assert a[0] in b && b[0] in a;
      assert a[0] == b[0];
      forall x ensures x in a[1..] <==> x in b[1..] {
        TailMembers(a, x);
        TailMembers(b, x);
      }
      ListingUnique(a[1..], b[1..]);
    }
  }

  lemma BothEmpty(a: seq<Entry>, b: seq<Entry>)
    requires forall x :: x in a <==> x in b
    ensures a == [] <==> b == []
  {
    if a != [] {
      assert a[0] in b;
    }
    if b != [] {
      assert b[0] in a;
    }
  }

  lemma TailMembers(s: seq<Entry>, x: Entry)
    requires s != [] && Descending(s)
    ensures x in s[1..] <==> x in s && x != s[0]
  {
    assert s == [s[0]] + s[1..];
  }

  /** The complete listing of a scope: what a reader without pages would see. */
  ghost function Listing(table: seq<Entry>, scope: nat): seq<Entry> { Sorted(Where(table, scope, None)) }

  /** Cutting a descending listing at a key leaves the rows strictly before it. */
  lemma AfterMembers(s: seq<Entry>, n: nat, x: Entry)
    requires Descending(s) && 1 <= n <= |s|
    ensures x in s[n..] <==> x in s && Before(KeyOf(x), KeyOf(s[n - 1]))
  {
    if x in s {
      var i :| 0 <= i < |s| && s[i] == x;
      if i >= n {
        assert s[n..][i - n] == x;
      }
    }
  }

  /** The table kept its rows, and of this scope gained none that sorts after the cursor. */
  ghost predicate GainsNewer(old0: seq<Entry>, table: seq<Entry>, scope: nat, after: Option<Key>) {
    && (forall x :: x in old0 ==> x in table)
    && (forall x :: x in table && x.scope == scope ==> x in old0 || after.None? || !Before(KeyOf(x), after.value))
  }

  /**
    A page fetched after the n-th row of the original listing sees exactly the rest of that listing,
    even if rows newer than the cursor have been added in the meantime.
  */
  lemma RestOfListing(old0: seq<Entry>, table: seq<Entry>, scope: nat, n: nat, after: Option<Key>)
    requires UniqueIds(old0) && UniqueIds(table) && n <= |Listing(old0, scope)|
    requires after == if n == 0 then None else Some(KeyOf(Listing(old0, scope)[n - 1]))
    requires n == 0 ==> table == old0
    requires GainsNewer(old0, table, scope, after)
    ensures Sorted(Where(table, scope, after)) == Listing(old0, scope)[n..]
  {
    var all, rest := Listing(old0, scope), Sorted(Where(table, scope, after));
    WhereUnique(old0, scope, None);
    SortedDescends(Where(old0, scope, None));
    WhereUnique(table, scope, after);
    SortedDescends(Where(table, scope, after));
    forall x ensures x in rest <==> x in all[n..] {
      SortedMembers(Where(table, scope, after), x);
      WhereMembers(table, scope, after, x);
      SortedMembers(Where(old0, scope, None), x);
      WhereMembers(old0, scope, None, x);
      if n > 0 {
        AfterMembers(all, n, x);
      }
    }
    ListingUnique(rest, all[n..]);
  }

  // -- following cursors --------------------------------------------------------------

  /**
    A reader follows cursors: fetch i reads table i with the cursor of page i-1. Between fetches the
    table only gains rows, none of which sorts after the cursor the reader holds.
  */
  ghost predicate Follows(tables: seq<seq<Entry>>, pages: seq<Page>, scope: nat, limit: nat, rule: Rule) {
    && limit >= 1 && |tables| == |pages| && pages != []
    && (forall i {:trigger tables[i]} :: 0 <= i < |pages| ==>
          FetchedFrom(tables[0], tables[i], pages[i], scope, CursorAt(pages, i), limit, rule))
    && (forall i :: 0 <= i < |pages| - 1 ==> pages[i].next.Some?)
  }

  ghost predicate FetchedFrom(first: seq<Entry>, table: seq<Entry>, p: Page, scope: nat, after: Option<Key>, limit: nat, rule: Rule)
    requires limit >= 1
  {
    UniqueIds(first) && UniqueIds(table) && GainsNewer(first, table, scope, after) && p == PageOf(table, scope, after, limit, rule)
  }

  ghost function CursorAt(pages: seq<Page>, i: nat): Option<Key>
    requires i <= |pages|
  {
    if i == 0 then None else pages[i - 1].next
  }

  /** The page is the chunk of the listing that starts at position lo. */
  ghost predicate IsChunk(p: Page, all: seq<Entry>, lo: nat, limit: nat, rule: Rule) {
    && limit >= 1 && lo <= |all|
    && p.entries == all[lo..Min(lo + limit, |all|)]
    && (p.next.Some? <==> if rule.Lookahead? then lo + limit < |all| else lo + limit <= |all|)
    && (p.next.Some? ==> p.next.value == KeyOf(all[lo + limit - 1]))
  }

  lemma CutIsChunk(all: seq<Entry>, lo: nat, limit: nat, rule: Rule)
    requires limit >= 1 && lo <= |all|
    ensures IsChunk(Cut(all[lo..], limit, rule), all, lo, limit, rule)
  {
  }

  /** Where page i starts. */
  ghost function Offset(i: nat, limit: nat): nat { if i == 0 then 0 else Offset(i - 1, limit) + limit }

  ghost predicate Serves(pages: seq<Page>, all: seq<Entry>, limit: nat, rule: Rule) {
    forall i :: 0 <= i < |pages| ==> IsChunk(pages[i], all, Offset(i, limit), limit, rule)
  }

  lemma FetchedChunk(first: seq<Entry>, table: seq<Entry>, p: Page, scope: nat, after: Option<Key>, limit: nat, rule: Rule, lo: nat)
    requires limit >= 1 && FetchedFrom(first, table, p, scope, after, limit, rule)
    requires lo <= |Listing(first, scope)| && (lo == 0 ==> table == first)
    requires after == if lo == 0 then None else Some(KeyOf(Listing(first, scope)[lo - 1]))
    ensures IsChunk(p, Listing(first, scope), lo, limit, rule)
  {
    RestOfListing(first, table, scope, lo, after);
    CutIsChunk(Listing(first, scope), lo, limit, rule);
  }

  lemma {:induction false} PageIsChunk(
    tables: seq<seq<Entry>>, pages: seq<Page>, scope: nat, limit: nat, rule: Rule, i: nat)
    requires Follows(tables, pages, scope, limit, rule) && i < |pages|
    ensures IsChunk(pages[i], Listing(tables[0], scope), Offset(i, limit), limit, rule)
  {
    if i > 0 {
      PageIsChunk(tables, pages, scope, limit, rule, i - 1);
      assert pages[i - 1].next.Some?;
    }
    FetchedChunk(tables[0], tables[i], pages[i], scope, CursorAt(pages, i), limit, rule, Offset(i, limit));
  }

  /** Page i is the i-th chunk of the listing at the start, whatever newer rows were added since. */
  lemma PagesAreChunks(tables: seq<seq<Entry>>, pages: seq<Page>, scope: nat, limit: nat, rule: Rule)
    requires Follows(tables, pages, scope, limit, rule)
    ensures Serves(pages, Listing(tables[0], scope), limit, rule)
  {
    forall i | 0 <= i < |pages|
      ensures IsChunk(pages[i], Listing(tables[0], scope), Offset(i, limit), limit, rule)
    {
      PageIsChunk(tables, pages, scope, limit, rule, i);
    }
  }

  ghost function Concat(pages: seq<Page>): seq<Entry> {
    if pages == [] then [] else Concat(pages[..|pages| - 1]) + pages[|pages| - 1].entries
  }

  lemma {:induction false} ConcatChunks(pages: seq<Page>, all: seq<Entry>, limit: nat, rule: Rule)
    requires Serves(pages, all, limit, rule)
    ensures Concat(pages) == Take(all, Offset(|pages|, limit))
  {
    if pages != [] {
      var n := |pages| - 1;
      ConcatChunks(pages[..n], all, limit, rule);
      assert IsChunk(pages[n], all, Offset(n, limit), limit, rule);
      TakeMore(all, Offset(n, limit), limit);
    }
  }

  lemma TakeMore(all: seq<Entry>, lo: nat, limit: nat)
    requires lo <= |all|
    ensures Take(all, lo) == all[..lo]
    ensures all[..lo] + all[lo..Min(lo + limit, |all|)] == Take(all, lo + limit)
  {
  }

  lemma ChunksComplete(pages: seq<Page>, all: seq<Entry>, limit: nat, rule: Rule)
    requires Serves(pages, all, limit, rule) && pages != [] && pages[|pages| - 1].next.None?
    ensures Concat(pages) == all
  {
    ConcatChunks(pages, all, limit, rule);
    assert IsChunk(pages[|pages| - 1], all, Offset(|pages| - 1, limit), limit, rule);
  }

  lemma PagesConcat(tables: seq<seq<Entry>>, pages: seq<Page>, scope: nat, limit: nat, rule: Rule)
    requires Follows(tables, pages, scope, limit, rule) && pages[|pages| - 1].next.None?
    ensures Concat(pages) == Listing(tables[0], scope) && UniqueIds(tables[0])
  {
    PagesAreChunks(tables, pages, scope, limit, rule);
    ChunksComplete(pages, Listing(tables[0], scope), limit, rule);
    assert FetchedFrom(tables[0], tables[0], pages[0], scope, CursorAt(pages, 0), limit, rule);
  }

  lemma ListingMembers(table: seq<Entry>, scope: nat)
    requires UniqueIds(table)
    ensures Descending(Listing(table, scope))
    ensures forall x :: x in Listing(table, scope) <==> x in table && x.scope == scope
  {
    WhereUnique(table, scope, None);
    SortedDescends(Where(table, scope, None));
    forall x ensures x in Listing(table, scope) <==> x in table && x.scope == scope {
      SortedMembers(Where(table, scope, None), x);
      WhereMembers(table, scope, None, x);
    }
  }

  /**
    Keyset paging is complete: a reader who follows cursors until none is given has seen every row
    present at the start, each once, in strictly descending key order, whatever newer rows were
    added on the way; and no page but the last comes without a cursor.
  */
  lemma PagingComplete(tables: seq<seq<Entry>>, pages: seq<Page>, scope: nat, limit: nat, rule: Rule)
    requires Follows(tables, pages, scope, limit, rule) && pages[|pages| - 1].next.None?
    ensures Descending(Concat(pages))
    ensures forall x :: x in Concat(pages) <==> x in tables[0] && x.scope == scope
    ensures forall i :: 0 <= i < |pages| ==> (pages[i].next.None? <==> i == |pages| - 1)
  {
    PagesConcat(tables, pages, scope, limit, rule);
    ListingMembers(tables[0], scope);
  }

  lemma {:induction false} OffsetIsProduct(i: nat, limit: nat)
    requires limit >= 1
    ensures Offset(i, limit) == i * limit && Offset(i, limit) >= i
  {
    if i > 0 {
      OffsetIsProduct(i - 1, limit);
    }
  }

  lemma ChunksCounted(pages: seq<Page>, all: seq<Entry>, limit: nat, rule: Rule)
    requires Serves(pages, all, limit, rule) && pages != [] && limit >= 1
    requires |pages| > 1 ==> pages[|pages| - 2].next.Some?
    ensures var rows, n := |all|, |pages|;
            && n <= rows + 1
            && (rule.Lookahead? ==>
                  (pages[n - 1].next.None? <==> n * limit >= rows) && (n > 1 ==> (n - 1) * limit < rows))
            && (rule.FullPage? ==>
                  (pages[n - 1].next.None? <==> n * limit > rows) && (n - 1) * limit <= rows &&
                  ((n - 1) * limit == rows ==> pages[n - 1].entries == []))
  {
    var n := |pages|;
    OffsetIsProduct(n, limit);
    OffsetIsProduct(n - 1, limit);
    assert IsChunk(pages[n - 1], all, Offset(n - 1, limit), limit, rule);
    if n > 1 {
      assert IsChunk(pages[n - 2], all, Offset(n - 2, limit), limit, rule);
    }
  }

  /**
    Following cursors terminates, after exactly this many pages: with lookahead, as many as the rows
    need, and one for an empty listing; with the full-page rule, one more whenever the rows fill
    their pages exactly, that last page being empty.
  */
  lemma PagingTerminates(tables: seq<seq<Entry>>, pages: seq<Page>, scope: nat, limit: nat, rule: Rule)
    requires Follows(tables, pages, scope, limit, rule)
    ensures var rows, n := |Listing(tables[0], scope)|, |pages|;
            && n <= rows + 1
            && (rule.Lookahead? ==>
                  (pages[n - 1].next.None? <==> n * limit >= rows) && (n > 1 ==> (n - 1) * limit < rows))
            && (rule.FullPage? ==>
                  (pages[n - 1].next.None? <==> n * limit > rows) && (n - 1) * limit <= rows &&
                  ((n - 1) * limit == rows ==> pages[n - 1].entries == []))
  {
    PagesAreChunks(tables, pages, scope, limit, rule);
    ChunksCounted(pages, Listing(tables[0], scope), limit, rule);
  }

  // -- the queries as they run --------------------------------------------------------

  /** ListByOrg, ListByApplication: scan the result set, then truncate it. */
  method FetchPage(table: seq<Entry>, scope: nat, after: Option<Key>, limit: nat, rule: Rule) returns (p: Page)
    requires limit >= 1
    ensures p == PageOf(table, scope, after, limit, rule)
  {
    var rows := Take(Sorted(Where(table, scope, after)), if rule.Lookahead? then limit + 1 else limit);
    var entries: seq<Entry> := [];
    for i := 0 to |rows|
      invariant entries == rows[..i]
    {
      entries := entries + [rows[i]];
    }
    assert entries == rows;
    var next := None;
    if rule.Lookahead? && |entries| > limit {
      entries := entries[..limit];
      next := Some(KeyOf(entries[|entries| - 1]));
    } else if rule.FullPage? && |entries| == limit {
      next := Some(KeyOf(entries[|entries| - 1]));
    }
    p := Page(entries, next);
  }

  /** Appending a chunk to what precedes it in the listing. */
  lemma ChunkAdds(p: Page, all: seq<Entry>, lo: nat, limit: nat, rule: Rule)
    requires IsChunk(p, all, lo, limit, rule)
    ensures lo + |p.entries| <= |all| && all[..lo] + p.entries == all[..lo + |p.entries|]
    ensures p.next.None? ==> lo + |p.entries| == |all|
    ensures p.next.Some? ==> |p.entries| == limit && p.next.value == KeyOf(all[lo + |p.entries| - 1])
  {
  }

  /** One more page: it continues the listing where the cursor points, and its own cursor marks where it stops. */
  lemma NextPage(table: seq<Entry>, scope: nat, lo: nat, after: Option<Key>, limit: nat, rule: Rule, p: Page)
    requires limit >= 1 && UniqueIds(table) && lo <= |Listing(table, scope)|
    requires after == if lo == 0 then None else Some(KeyOf(Listing(table, scope)[lo - 1]))
    requires p == PageOf(table, scope, after, limit, rule)
    ensures var all, hi := Listing(table, scope), lo + |p.entries|;
            && hi <= |all| && all[..lo] + p.entries == all[..hi]
            && if p.next.None? then hi == |all| else hi > lo && p.next.value == KeyOf(all[hi - 1])
  {
    RestOfListing(table, table, scope, lo, after);
    CutIsChunk(Listing(table, scope), lo, limit, rule);
    ChunkAdds(p, Listing(table, scope), lo, limit, rule);
  }

  /** A reader that follows cursors until none is given stops with the whole listing. */
  method ReadAll(table: seq<Entry>, scope: nat, limit: nat, rule: Rule) returns (all: seq<Entry>)
    requires limit >= 1 && UniqueIds(table)
    ensures Descending(all) && forall x :: x in all <==> x in table && x.scope == scope
  {
    ghost var listing := Listing(table, scope);
    all := [];
    var cursor: Option<Key> := None;
    var more := true;
    while more
      invariant |all| <= |listing| && all == listing[..|all|]
      invariant more ==> cursor == if all == [] then None else Some(KeyOf(listing[|all| - 1]))
      invariant !more ==> all == listing
      decreases more, |listing| - |all|
    {
      var p := FetchPage(table, scope, cursor, limit, rule);
      NextPage(table, scope, |all|, cursor, limit, rule, p);
      all := all + p.entries;
      cursor, more := p.next, p.next.Some?;
    }
    ListingMembers(table, scope);
  }
}
