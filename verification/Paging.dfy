/**
 * Key-set pagination (services/api/src/control-plane-id-page.ts, modules/shared/src/cursor-pages.ts). A row is
 * represented by its key; the collation order of keys is a parameter.
 */
module Paging {
  import opened Options
  import opened Sorting

  datatype Page = Page(items: seq<string>, next: Option<string>)

  function After(rows: seq<string>, cursor: string, less: (string, string) -> bool): seq<string> {
    if rows == [] then []
    else (if less(cursor, rows[0]) then [rows[0]] else []) + After(rows[1..], cursor, less)
  }

  /** An empty cursor string counts as no cursor. */
  function Remaining(items: seq<string>, cursor: Option<string>, less: (string, string) -> bool): seq<string> {
    var rows := Sort(items, less);
    if cursor.Some? && cursor.value != "" then After(rows, cursor.value, less) else rows
  }

  function PageByKey(items: seq<string>, limit: nat, cursor: Option<string>, less: (string, string) -> bool): Page {
    var remaining := Remaining(items, cursor, less);
    var page := if |remaining| <= limit then remaining else remaining[..limit];
    Page(page, if |remaining| > limit && page != [] then Some(page[|page| - 1]) else None)
  }

  ghost predicate Rows(items: seq<string>) { Distinct(items) && "" !in items }

  lemma {:induction false} AfterKeeps(rows: seq<string>, cursor: string, less: (string, string) -> bool)
    requires TotalOrder(less) && Ascending(rows, less)
    ensures Ascending(After(rows, cursor, less), less)
    ensures forall x :: x in After(rows, cursor, less) <==> x in rows && less(cursor, x)
  {
    if rows != [] {
      var rest := After(rows[1..], cursor, less);
      AfterKeeps(rows[1..], cursor, less);
      assert forall x :: x in rows <==> x == rows[0] || x in rows[1..];
      forall k | 0 <= k < |rest|
        ensures less(rows[0], rest[k])
      {
        assert rest[k] in rest;
        var j :| 0 <= j < |rows[1..]| && rows[1..][j] == rest[k];
        assert rows[j + 1] == rest[k];
      }
    }
  }

  /** Whether a key is behind the cursor. */
  ghost predicate Ahead(cursor: Option<string>, x: string, less: (string, string) -> bool) {
    cursor.None? || cursor.value == "" || less(cursor.value, x)
  }

  lemma RemainingKeeps(items: seq<string>, cursor: Option<string>, less: (string, string) -> bool)
    requires TotalOrder(less) && Distinct(items)
    ensures var r := Remaining(items, cursor, less); Ascending(r, less) && forall x :: x in r <==> x in items && Ahead(cursor, x, less)
  {
    Sorted(items, less);
    if cursor.Some? && cursor.value != "" {
      AfterKeeps(Sort(items, less), cursor.value, less);
    }
  }

  /** A page holds the rows between its cursor and the next one, in order; the next cursor lies further on. */
  lemma PageMeaning(items: seq<string>, limit: nat, cursor: Option<string>, less: (string, string) -> bool)
    requires TotalOrder(less) && Rows(items) && limit > 0
    ensures var p := PageByKey(items, limit, cursor, less);
            && Ascending(p.items, less) && |p.items| <= limit
            && (forall x :: x in p.items <==> x in items && Ahead(cursor, x, less) && (p.next.Some? ==> x == p.next.value || less(x, p.next.value)))
            && (p.next.Some? ==> p.next.value in items && p.next.value != "" && Ahead(cursor, p.next.value, less))
            && (p.next.Some? ==> |p.items| == limit && exists x :: x in items && Ahead(cursor, x, less) && x !in p.items)
  {
    var r, p := Remaining(items, cursor, less), PageByKey(items, limit, cursor, less);
    RemainingKeeps(items, cursor, less);
    if |r| > limit {
      var last := r[limit - 1];
      assert last in r && r[limit] in r && less(last, r[limit]);
      forall x
        ensures x in p.items <==> x in r && (x == last || less(x, last))
      {
        PrefixUpTo(r, limit, less, x);
      }
    }
  }

  lemma PrefixUpTo(r: seq<string>, n: nat, less: (string, string) -> bool, x: string)
    requires TotalOrder(less) && Ascending(r, less) && 0 < n <= |r|
    ensures x in r[..n] <==> x in r && (x == r[n - 1] || less(x, r[n - 1]))
  {
    if x in r {
      var k :| 0 <= k < |r| && r[k] == x;
      assert k < n - 1 ==> less(r[k], r[n - 1]);
      assert k > n - 1 ==> less(r[n - 1], r[k]);
      assert k < n ==> x == r[..n][k];
      AscendingIsDistinct(r, less);
    }
  }

  // A table that does not change

  ghost function Walk(items: seq<string>, limit: nat, cursor: Option<string>, less: (string, string) -> bool): seq<string>
    requires TotalOrder(less) && Rows(items) && limit > 0
    decreases |Remaining(items, cursor, less)|
  {
    var p := PageByKey(items, limit, cursor, less);
    if p.next.None? then p.items
    else
      NextRemaining(items, limit, cursor, less);
      p.items + Walk(items, limit, p.next, less)
  }

  /** The next page starts right after the rows already returned. */
  lemma NextRemaining(items: seq<string>, limit: nat, cursor: Option<string>, less: (string, string) -> bool)
    requires TotalOrder(less) && Rows(items) && limit > 0 && PageByKey(items, limit, cursor, less).next.Some?
    ensures var p := PageByKey(items, limit, cursor, less);
            Remaining(items, p.next, less) == Remaining(items, cursor, less)[limit..]
  {
    var r, p := Remaining(items, cursor, less), PageByKey(items, limit, cursor, less);
    RemainingKeeps(items, cursor, less);
    RemainingKeeps(items, p.next, less);
    PageMeaning(items, limit, cursor, less);
    var rest := r[limit..];
    assert p.next.value == r[limit - 1];
    forall x
      ensures x in rest <==> x in Remaining(items, p.next, less)
    {
      SuffixAfter(r, limit, less, x);
      if x in items && less(r[limit - 1], x) {
        AheadMonotone(cursor, r[limit - 1], x, less);
      }
    }
    AscendingUnique(rest, Remaining(items, p.next, less), less);
  }

  lemma AheadMonotone(cursor: Option<string>, x: string, y: string, less: (string, string) -> bool)
    requires TotalOrder(less) && Ahead(cursor, x, less) && less(x, y)
    ensures Ahead(cursor, y, less)
  {
  }

  lemma SuffixAfter(r: seq<string>, n: nat, less: (string, string) -> bool, x: string)
    requires TotalOrder(less) && Ascending(r, less) && 0 < n <= |r|
    ensures x in r[n..] <==> x in r && less(r[n - 1], x)
  {
    if x in r {
      var k :| 0 <= k < |r| && r[k] == x;
      assert k < n - 1 ==> less(r[k], r[n - 1]);
      assert k >= n ==> less(r[n - 1], r[k]) && r[n..][k - n] == x;
      if x in r[n..] {
        var j :| 0 <= j < |r[n..]| && r[n..][j] == x;
        assert less(r[n - 1], r[n + j]);
      }
    }
  }

  lemma {:induction false} AscendingUnique(a: seq<string>, b: seq<string>, less: (string, string) -> bool)
    requires TotalOrder(less) && Ascending(a, less) && Ascending(b, less) && forall x :: x in a <==> x in b
    ensures a == b
  {
    if a == [] || b == [] {
      NoneMeansEmpty(a);
      NoneMeansEmpty(b);
    } else {
      SameFirst(a, b, less);
      AscendingIsDistinct(a, less);
      AscendingIsDistinct(b, less);
      forall x
        ensures x in a[1..] <==> x in b[1..]
      {
        InTail(a, x);
        InTail(b, x);
      }
      AscendingUnique(a[1..], b[1..], less);
    }
  }

  lemma NoneMeansEmpty(s: seq<string>)
    ensures (forall x :: x !in s) ==> s == []
  {
    if s != [] {
      assert s[0] in s;
    }
  }

  lemma InTail(s: seq<string>, x: string)
    requires s != [] && Distinct(s)
    ensures x in s[1..] <==> x in s && x != s[0]
  {
    assert s == [s[0]] + s[1..];
  }

  lemma SameFirst(a: seq<string>, b: seq<string>, less: (string, string) -> bool)
    requires TotalOrder(less) && Ascending(a, less) && Ascending(b, less) && a != [] && b != []
    requires forall x :: x in a <==> x in b
    ensures a[0] == b[0]
  {
    assert a[0] in a && b[0] in b;
    FirstIsLeast(a, b[0], less);
    FirstIsLeast(b, a[0], less);
  }

  lemma FirstIsLeast(s: seq<string>, x: string, less: (string, string) -> bool)
    requires Ascending(s, less) && x in s
    ensures x == s[0] || less(s[0], x)
  {
    var k :| 0 <= k < |s| && s[k] == x;
  }

  /** Following the cursors over an unchanging table returns the sorted rows, each exactly once. */
  lemma {:induction false} WalkReturnsSorted(items: seq<string>, limit: nat, cursor: Option<string>, less: (string, string) -> bool)
    requires TotalOrder(less) && Rows(items) && limit > 0
    ensures Walk(items, limit, cursor, less) == Remaining(items, cursor, less)
    ensures cursor.None? ==> Walk(items, limit, cursor, less) == Sort(items, less)
    decreases |Remaining(items, cursor, less)|
  {
    var r, p := Remaining(items, cursor, less), PageByKey(items, limit, cursor, less);
    if p.next.Some? {
      NextRemaining(items, limit, cursor, less);
      WalkReturnsSorted(items, limit, p.next, less);
      assert r[..limit] + r[limit..] == r;
    }
  }

  // A table that changes between pages: `tables(n)` is what the n-th request reads

  ghost function PageAt(tables: nat -> seq<string>, limit: nat, less: (string, string) -> bool, n: nat): Page {
    PageByKey(tables(n), limit, CursorAt(tables, limit, less, n), less)
  }

  ghost function CursorAt(tables: nat -> seq<string>, limit: nat, less: (string, string) -> bool, n: nat): Option<string>
    decreases n
  {
    if n == 0 then None else PageByKey(tables(n - 1), limit, CursorAt(tables, limit, less, n - 1), less).next
  }

  /** The walk makes `n` requests and the last one has no next cursor. */
  ghost predicate Completes(tables: nat -> seq<string>, limit: nat, less: (string, string) -> bool, n: nat) {
    && n > 0 && PageAt(tables, limit, less, n - 1).next.None?
    && forall k: nat :: k < n - 1 ==> PageAt(tables, limit, less, k).next.Some?
  }

  ghost predicate AllRows(tables: nat -> seq<string>) { forall n: nat :: Rows(tables(n)) }

  lemma {:induction false} CursorsIncrease(tables: nat -> seq<string>, limit: nat, less: (string, string) -> bool, i: nat, j: nat)
    requires TotalOrder(less) && AllRows(tables) && limit > 0 && 0 < i < j
    requires forall k: nat :: k < j ==> PageAt(tables, limit, less, k).next.Some?
    ensures CursorAt(tables, limit, less, i).Some? && CursorAt(tables, limit, less, j).Some?
    ensures less(CursorAt(tables, limit, less, i).value, CursorAt(tables, limit, less, j).value)
    decreases j
  {
    hide PageByKey;
    assert PageAt(tables, limit, less, i - 1).next.Some? && PageAt(tables, limit, less, j - 1).next.Some?;
    assert Rows(tables(j - 1)) && Rows(tables(i - 1));
    PageMeaning(tables(j - 1), limit, CursorAt(tables, limit, less, j - 1), less);
    PageMeaning(tables(i - 1), limit, CursorAt(tables, limit, less, i - 1), less);
    if i < j - 1 {
      CursorsIncrease(tables, limit, less, i, j - 1);
      assert PageAt(tables, limit, less, j - 2).next.Some?;
      assert Rows(tables(j - 2));
      PageMeaning(tables(j - 2), limit, CursorAt(tables, limit, less, j - 2), less);
    }
  }

  /** No cursor is handed out twice in a walk, whatever happens to the table. */
  lemma CursorsNeverRepeat(tables: nat -> seq<string>, limit: nat, less: (string, string) -> bool, i: nat, j: nat)
    requires TotalOrder(less) && AllRows(tables) && limit > 0 && 0 < i < j
    requires forall k: nat :: k < j ==> PageAt(tables, limit, less, k).next.Some?
    ensures CursorAt(tables, limit, less, i) != CursorAt(tables, limit, less, j)
  {
    CursorsIncrease(tables, limit, less, i, j);
  }

  /** A key that has not been passed after `n` pages, and is in every table, is on exactly one later page. */
  lemma {:induction false} FoundFrom(tables: nat -> seq<string>, limit: nat, less: (string, string) -> bool, n: nat, total: nat, x: string)
    returns (at: nat)
    requires TotalOrder(less) && AllRows(tables) && limit > 0 && n < total && Completes(tables, limit, less, total)
    requires forall k: nat :: k < total ==> x in tables(k)
    requires Ahead(CursorAt(tables, limit, less, n), x, less)
    ensures n <= at < total && x in PageAt(tables, limit, less, at).items
    ensures forall k: nat :: n <= k < total && x in PageAt(tables, limit, less, k).items ==> k == at
    decreases total - n
  {
    hide PageByKey;
    var p := PageAt(tables, limit, less, n);
    assert Rows(tables(n));
    PageMeaning(tables(n), limit, CursorAt(tables, limit, less, n), less);
    if x in p.items {
      at := n;
      forall k: nat | n < k < total
        ensures x !in PageAt(tables, limit, less, k).items
      {
        Passed(tables, limit, less, n, k, total, x);
      }
    } else {
      assert p.next.Some? && less(p.next.value, x);
      assert CursorAt(tables, limit, less, n + 1) == p.next;
      at := FoundFrom(tables, limit, less, n + 1, total, x);
    }
  }

  /** Later pages only hold keys beyond the cursor that ended this one. */
  lemma Passed(tables: nat -> seq<string>, limit: nat, less: (string, string) -> bool, n: nat, k: nat, total: nat, x: string)
    requires TotalOrder(less) && AllRows(tables) && limit > 0 && n < k < total && Completes(tables, limit, less, total)
    requires x in PageAt(tables, limit, less, n).items
    ensures x !in PageAt(tables, limit, less, k).items
  {
    hide PageByKey;
    assert Rows(tables(n)) && Rows(tables(k));
    PageMeaning(tables(n), limit, CursorAt(tables, limit, less, n), less);
    PageMeaning(tables(k), limit, CursorAt(tables, limit, less, k), less);
    assert PageAt(tables, limit, less, n).next.Some?;
    assert CursorAt(tables, limit, less, n + 1) == PageAt(tables, limit, less, n).next;
    if n + 1 < k {
      CursorsIncrease(tables, limit, less, n + 1, k);
      assert PageAt(tables, limit, less, k - 1).next.Some?;
      assert Rows(tables(k - 1));
      PageMeaning(tables(k - 1), limit, CursorAt(tables, limit, less, k - 1), less);
    }
  }

  /**
   * Rows may come and go between pages. A row that is in the table at every request of a completed walk is
   * returned on exactly one page, and once on it.
   */
  lemma StableRowReturnedOnce(tables: nat -> seq<string>, limit: nat, less: (string, string) -> bool, total: nat, x: string)
    requires TotalOrder(less) && AllRows(tables) && limit > 0 && Completes(tables, limit, less, total)
    requires forall k: nat :: k < total ==> x in tables(k)
    ensures exists at: nat :: at < total && x in PageAt(tables, limit, less, at).items
                              && forall k: nat :: k < total && x in PageAt(tables, limit, less, k).items ==> k == at
    ensures forall k: nat :: k < total ==> Distinct(PageAt(tables, limit, less, k).items)
  {
    hide PageByKey;
    var at := FoundFrom(tables, limit, less, 0, total, x);
    forall k: nat | k < total
      ensures Distinct(PageAt(tables, limit, less, k).items)
    {
      assert Rows(tables(k));
      PageMeaning(tables(k), limit, CursorAt(tables, limit, less, k), less);
      AscendingIsDistinct(PageAt(tables, limit, less, k).items, less);
    }
  }

  // Collecting pages

  datatype Collected = Items(items: seq<string>) | Repeated | TooMany

  /** The rows of the first `n` pages. */
  ghost function Gathered(tables: nat -> seq<string>, limit: nat, less: (string, string) -> bool, n: nat): seq<string> {
    if n == 0 then [] else Gathered(tables, limit, less, n - 1) + PageAt(tables, limit, less, n - 1).items
  }

  lemma {:induction false} DistinctCount(s: seq<string>, x: string)
    requires Distinct(s)
    ensures multiset(s)[x] == if x in s then 1 else 0
  {
    if s != [] {
      assert s == [s[0]] + s[1..];
      DistinctCount(s[1..], x);
      InTail(s, x);
    }
  }

  lemma {:induction false} GatheredCount(tables: nat -> seq<string>, limit: nat, less: (string, string) -> bool, n: nat, at: nat, x: string)
    requires forall k: nat :: k < n ==> Distinct(PageAt(tables, limit, less, k).items) && (x in PageAt(tables, limit, less, k).items <==> k == at)
    ensures multiset(Gathered(tables, limit, less, n))[x] == if at < n then 1 else 0
  {
    hide PageAt;
    if n > 0 {
      GatheredCount(tables, limit, less, n - 1, at, x);
      DistinctCount(PageAt(tables, limit, less, n - 1).items, x);
    }
  }

  /** The rows of all pages of a completed walk hold a row that was there throughout exactly once. */
  lemma GatheredOnce(tables: nat -> seq<string>, limit: nat, less: (string, string) -> bool, total: nat, x: string)
    requires TotalOrder(less) && AllRows(tables) && limit > 0 && Completes(tables, limit, less, total)
    requires forall k: nat :: k < total ==> x in tables(k)
    ensures multiset(Gathered(tables, limit, less, total))[x] == 1
  {
    hide PageAt, Gathered, Completes, TotalOrder;
    StableRowReturnedOnce(tables, limit, less, total, x);
    var at: nat :| at < total && x in PageAt(tables, limit, less, at).items
                   && forall k: nat :: k < total && x in PageAt(tables, limit, less, k).items ==> k == at;
    GatheredCount(tables, limit, less, total, at, x);
  }

  ghost predicate AlwaysThere(tables: nat -> seq<string>, x: string) { forall k: nat :: x in tables(k) }

  /** The collected items hold every row that is always there exactly once. */
  ghost predicate HoldsStableRowsOnce(tables: nat -> seq<string>, items: seq<string>) {
    forall x :: AlwaysThere(tables, x) ==> multiset(items)[x] == 1
  }

  lemma CollectedOnce(tables: nat -> seq<string>, limit: nat, less: (string, string) -> bool, total: nat)
    requires TotalOrder(less) && AllRows(tables) && limit > 0 && Completes(tables, limit, less, total)
    ensures HoldsStableRowsOnce(tables, Gathered(tables, limit, less, total))
  {
    hide Completes, TotalOrder, Gathered;
    forall x | AlwaysThere(tables, x)
      ensures multiset(Gathered(tables, limit, less, total))[x] == 1
    {
      GatheredOnce(tables, limit, less, total, x);
    }
  }

  /**
   * `collectCursorPages` against such a listing: it never meets a repeated cursor, and it gives up exactly when
   * the walk needs more than `maxPages` requests.
   */
  method CollectCursorPages(tables: nat -> seq<string>, limit: nat, less: (string, string) -> bool, maxPages: nat) returns (result: Collected)
    requires TotalOrder(less) && AllRows(tables) && limit > 0
    ensures !result.Repeated?
    ensures result.Items? <==> exists n: nat :: n <= maxPages && Completes(tables, limit, less, n)
    ensures result.Items? ==> exists n: nat :: n <= maxPages && Completes(tables, limit, less, n) && result.items == Gathered(tables, limit, less, n)
    ensures result.Items? ==> HoldsStableRowsOnce(tables, result.items)
  {
    hide PageByKey, PageAt, TotalOrder, AllRows, Ongoing, Completes, HandedOut, Gathered, CursorAt, HoldsStableRowsOnce;
    var items: seq<string> := [];
    var seen := {};
    var cursor: Option<string> := None;
    NothingYet(tables, limit, less);
    for n := 0 to maxPages
      invariant cursor == CursorAt(tables, limit, less, n) && items == Gathered(tables, limit, less, n)
      invariant Ongoing(tables, limit, less, n) && HandedOut(tables, limit, less, n, seen)
    {
      var page := PageByKey(tables(n), limit, cursor, less);
      items := items + page.items;
      OneMore(tables, limit, less, n, seen);
      if page.next.None? || page.next.value == "" {
        CollectedOnce(tables, limit, less, n + 1);
        return Items(items);
      }
      if page.next.value in seen {
        return Repeated;
      }
      seen := seen + {page.next.value};
      cursor := page.next;
    }
    NotDone(tables, limit, less, maxPages);
    return TooMany;
  }

  ghost predicate Ongoing(tables: nat -> seq<string>, limit: nat, less: (string, string) -> bool, n: nat) {
    forall k: nat :: k < n ==> PageAt(tables, limit, less, k).next.Some?
  }

  ghost predicate HandedOut(tables: nat -> seq<string>, limit: nat, less: (string, string) -> bool, n: nat, seen: set<string>) {
    forall c :: c in seen ==> exists k: nat :: 0 < k <= n && CursorAt(tables, limit, less, k) == Some(c)
  }

  lemma NothingYet(tables: nat -> seq<string>, limit: nat, less: (string, string) -> bool)
    ensures CursorAt(tables, limit, less, 0) == None && Gathered(tables, limit, less, 0) == []
    ensures Ongoing(tables, limit, less, 0) && HandedOut(tables, limit, less, 0, {})
  {
  }

  lemma OneMore(tables: nat -> seq<string>, limit: nat, less: (string, string) -> bool, n: nat, seen: set<string>)
    requires TotalOrder(less) && AllRows(tables) && limit > 0
    requires Ongoing(tables, limit, less, n) && HandedOut(tables, limit, less, n, seen)
    ensures var page := PageByKey(tables(n), limit, CursorAt(tables, limit, less, n), less);
            && Gathered(tables, limit, less, n + 1) == Gathered(tables, limit, less, n) + page.items
            && CursorAt(tables, limit, less, n + 1) == page.next
            && (page.next.None? ==> Completes(tables, limit, less, n + 1))
            && (page.next.Some? ==> page.next.value != "" && page.next.value !in seen && Ongoing(tables, limit, less, n + 1)
                                    && HandedOut(tables, limit, less, n + 1, seen + {page.next.value}))
  {
    hide PageByKey, TotalOrder;
    var page := PageAt(tables, limit, less, n);
    assert Rows(tables(n));
    PageMeaning(tables(n), limit, CursorAt(tables, limit, less, n), less);
    assert CursorAt(tables, limit, less, n + 1) == page.next;
    if page.next.Some? {
      forall c | c in seen
        ensures c != page.next.value
      {
        var k: nat :| 0 < k <= n && CursorAt(tables, limit, less, k) == Some(c);
        CursorsNeverRepeat(tables, limit, less, k, n + 1);
      }
    }
  }

  lemma NotDone(tables: nat -> seq<string>, limit: nat, less: (string, string) -> bool, maxPages: nat)
    requires Ongoing(tables, limit, less, maxPages)
    ensures forall n: nat :: n <= maxPages ==> !Completes(tables, limit, less, n)
  {
    hide PageAt;
  }
}
