/**
 Keyset pages: `WHERE cursor before row ORDER BY key LIMIT n`, and what a client gets
 that follows them while the table may change between requests.
 */
module Keyset {
  import opened Wrappers
  import opened Sequences
  import opened Ordering

  /** The rows a page query may return: those strictly after the cursor. */
  ghost function After<K(!new)>(rows: set<K>, lt: (K, K) -> bool, cursor: K): set<K> {
    set k | k in rows && lt(cursor, k)
  }

  ghost predicate Sorted<K(!new)>(s: seq<K>, lt: (K, K) -> bool) {
    forall i, j :: 0 <= i < j < |s| ==> lt(s[i], s[j])
  }

  /** The meaning of ORDER BY ... LIMIT n: an ordered prefix of the selected rows, short only if there are no more. */
  ghost predicate IsTop<K(!new)>(selected: set<K>, lt: (K, K) -> bool, n: nat, page: seq<K>) {
    && Sorted(page, lt)
    && |page| <= n
    && (forall k :: k in page ==> k in selected)
    && (forall k :: k in selected && k !in page ==> |page| == n && forall x :: x in page ==> lt(x, k))
  }

  ghost predicate IsPage<K(!new)>(rows: set<K>, lt: (K, K) -> bool, cursor: K, n: nat, page: seq<K>) {
    IsTop(After(rows, lt, cursor), lt, n, page)
  }

  ghost predicate IsFirst<K(!new)>(s: set<K>, lt: (K, K) -> bool, m: K) {
    m in s && forall k :: k in s ==> k == m || lt(m, k)
  }

  lemma {:induction false} FirstExists<K(!new)>(s: set<K>, lt: (K, K) -> bool)
    requires StrictTotal(lt) && s != {}
    ensures exists m :: IsFirst(s, lt, m)
  {
    var x :| x in s;
    if s == {x} {
      assert IsFirst(s, lt, x);
    } else {
      FirstExists(s - {x}, lt);
      var least :| IsFirst(s - {x}, lt, least);
      var m := if lt(x, least) then x else least;
      assert forall k :: k in s ==> k == x || k in s - {x};
      assert IsFirst(s, lt, m);
    }
  }

  ghost function First<K(!new)>(s: set<K>, lt: (K, K) -> bool): (m: K)
    requires StrictTotal(lt) && s != {}
    ensures IsFirst(s, lt, m)
  {
    FirstExists(s, lt);
    var m :| IsFirst(s, lt, m);
    m
  }

  /** The page itself, row by row. */
  ghost function Page<K(!new)>(rows: set<K>, lt: (K, K) -> bool, cursor: K, n: nat): seq<K>
    requires StrictTotal(lt)
    decreases n
  {
    if n == 0 || After(rows, lt, cursor) == {} then []
    else var m := First(After(rows, lt, cursor), lt); [m] + Page(rows, lt, m, n - 1)
  }

  /** The row-by-row page has the meaning of ORDER BY ... LIMIT n. */
  lemma {:induction false} PageIsPage<K(!new)>(rows: set<K>, lt: (K, K) -> bool, cursor: K, n: nat)
    requires StrictTotal(lt)
    ensures IsPage(rows, lt, cursor, n, Page(rows, lt, cursor, n))
    decreases n
  {
    var here := After(rows, lt, cursor);
    if n != 0 && here != {} {
      var m := First(here, lt);
      var rest := Page(rows, lt, m, n - 1);
      PageIsPage(rows, lt, m, n - 1);
      var page := [m] + rest;
      forall k | k in page ensures k in here {
        if k != m { assert k in rest; assert k in After(rows, lt, m); }
      }
      forall i, j | 0 <= i < j < |page| ensures lt(page[i], page[j]) {
        assert page[j] == rest[j - 1];
        if i == 0 { assert rest[j - 1] in rest; assert rest[j - 1] in After(rows, lt, m); } else { assert page[i] == rest[i - 1]; }
      }
      forall k | k in here && k !in page ensures |page| == n && forall x :: x in page ==> lt(x, k) {
        assert m in page;
        assert k != m && lt(m, k);
        assert k in After(rows, lt, m) && k !in rest by { assert forall x :: x in rest ==> x in page; }
        forall x | x in page ensures lt(x, k) { if x != m { assert x in rest; } }
      }
    }
  }

  /** That meaning leaves no choice. */
  lemma {:induction false} PageUnique<K(!new)>(rows: set<K>, lt: (K, K) -> bool, cursor: K, n: nat, p: seq<K>, q: seq<K>)
    requires StrictTotal(lt)
    requires IsPage(rows, lt, cursor, n, p) && IsPage(rows, lt, cursor, n, q)
    ensures p == q
    decreases |p|
  {
    if p == [] {
      SortedIsDistinct(q, lt);
      assert n > 0 ==> (set k | k in q) == {};
    } else {
      assert p[0] in p;
      assert q != [];
      SameFirst(rows, lt, cursor, n, p, q);
      SameFirst(rows, lt, cursor, n, q, p);
      assert p[0] == q[0];
      TailIsPage(rows, lt, cursor, n, p);
      TailIsPage(rows, lt, cursor, n, q);
      PageUnique(rows, lt, p[0], n - 1, p[1..], q[1..]);
      assert p == [p[0]] + p[1..] && q == [q[0]] + q[1..];
    }
  }

  lemma SameFirst<K(!new)>(rows: set<K>, lt: (K, K) -> bool, cursor: K, n: nat, p: seq<K>, q: seq<K>)
    requires StrictTotal(lt) && p != [] && q != []
    requires IsPage(rows, lt, cursor, n, p) && IsPage(rows, lt, cursor, n, q)
    ensures !lt(p[0], q[0])
  {
    assert p[0] in p && q[0] in q;
    assert forall i :: 0 <= i < |q| && q[i] == p[0] ==> i == 0 || lt(q[0], q[i]);
  }

  lemma TailIsPage<K(!new)>(rows: set<K>, lt: (K, K) -> bool, cursor: K, n: nat, p: seq<K>)
    requires StrictTotal(lt) && p != [] && IsPage(rows, lt, cursor, n, p)
    ensures IsPage(rows, lt, p[0], n - 1, p[1..])
  {
    assert p[0] in p;
    forall k | k in p[1..] ensures k in After(rows, lt, p[0]) {
      var i :| 0 <= i < |p[1..]| && p[1..][i] == k;
      assert lt(p[0], p[i + 1]) && p[i + 1] in p;
    }
    forall k | k in After(rows, lt, p[0]) && k !in p[1..]
      ensures |p[1..]| == n - 1 && forall x :: x in p[1..] ==> lt(x, k)
    {
      assert lt(cursor, p[0]) && lt(p[0], k);
      assert k in After(rows, lt, cursor);
      assert k != p[0] && p == [p[0]] + p[1..];
      assert k !in p;
    }
  }

  /** A shorter page is a prefix of a longer one. */
  lemma PagePrefix<K(!new)>(rows: set<K>, lt: (K, K) -> bool, cursor: K, n: nat, m: nat)
    requires StrictTotal(lt) && n <= m
    ensures var p := Page(rows, lt, cursor, m); Page(rows, lt, cursor, n) == if |p| <= n then p else p[..n]
  {
    var p := Page(rows, lt, cursor, m);
    PageIsPage(rows, lt, cursor, m);
    PageIsPage(rows, lt, cursor, n);
    var q := if |p| <= n then p else p[..n];
    forall k | k in After(rows, lt, cursor) && k !in q ensures |q| == n && forall x :: x in q ==> lt(x, k) {
      if k in p {
        var i :| 0 <= i < |p| && p[i] == k;
        assert forall j :: 0 <= j < |q| ==> q[j] == p[j] && q[j] in q;
        forall x | x in q ensures lt(x, k) { var j :| 0 <= j < |q| && q[j] == x; assert p[j] == x; }
      }
    }
    forall k | k in q ensures k in After(rows, lt, cursor) { assert k in p; }
    PageUnique(rows, lt, cursor, n, q, Page(rows, lt, cursor, n));
  }

  // ---------------------------------------------------------------- one response

  /** Pagination.trimResults: at most `limit` of the fetched rows. */
  function TrimResults<T>(results: seq<T>, limit: nat): seq<T> {
    if |results| > limit then results[..limit] else results
  }

  /** Pagination.processResults: the token is the last returned row, set only if one row too many was fetched. */
  function NextToken<T>(results: seq<T>, limit: nat): Option<T>
    requires limit >= 1
  {
    if |results| > limit then Some(results[limit - 1]) else None
  }

  lemma TrimTwice<T>(results: seq<T>, limit: nat)
    requires limit >= 1
    ensures TrimResults(TrimResults(results, limit + 1), limit) == TrimResults(results, limit)
    ensures NextToken(TrimResults(results, limit + 1), limit) == NextToken(results, limit)
  {
  }

  /** The response for one page: fetch limit + 1 rows, return `limit`, and a token exactly if rows remain after it. */
  lemma ResponseIsPage<K(!new)>(rows: set<K>, lt: (K, K) -> bool, cursor: K, limit: nat)
    requires StrictTotal(lt) && limit >= 1
    ensures var fetched := Page(rows, lt, cursor, limit + 1);
            var page := TrimResults(fetched, limit);
            && page == Page(rows, lt, cursor, limit)
            && (match NextToken(fetched, limit)
                case None => (forall k :: k in After(rows, lt, cursor) <==> k in page)
                case Some(last) => |page| == limit && last == page[limit - 1] && After(rows, lt, last) != {})
  {
    var fetched := Page(rows, lt, cursor, limit + 1);
    PagePrefix(rows, lt, cursor, limit, limit + 1);
    PageIsPage(rows, lt, cursor, limit + 1);
    if |fetched| > limit {
      assert lt(fetched[limit - 1], fetched[limit]) && fetched[limit] in fetched;
      assert fetched[limit] in After(rows, lt, fetched[limit - 1]);
    } else {
      forall k ensures k in After(rows, lt, cursor) <==> k in fetched { }
    }
  }

  // ---------------------------------------------------------------- following the pages

  /** What a client collects that follows the tokens; `tables[i]` is the table at its i-th request. */
  ghost function Walk<K(!new)>(tables: seq<set<K>>, lt: (K, K) -> bool, cursor: K, limit: nat): seq<K>
    requires StrictTotal(lt) && limit >= 1
    decreases |tables|
  {
    if tables == [] then [] else
    var fetched := Page(tables[0], lt, cursor, limit + 1);
    match NextToken(fetched, limit)
    case None => fetched
    case Some(token) => TrimResults(fetched, limit) + Walk(tables[1..], lt, token, limit)
  }

  /** The client has reached a response without a token. */
  ghost predicate Finished<K(!new)>(tables: seq<set<K>>, lt: (K, K) -> bool, cursor: K, limit: nat)
    requires StrictTotal(lt) && limit >= 1
    decreases |tables|
  {
    tables != [] &&
    match NextToken(Page(tables[0], lt, cursor, limit + 1), limit)
    case None => true
    case Some(token) => Finished(tables[1..], lt, token, limit)
  }

  lemma SortedConcat<K(!new)>(a: seq<K>, b: seq<K>, lt: (K, K) -> bool)
    requires StrictTotal(lt) && Sorted(a, lt) && Sorted(b, lt)
    requires a != [] && forall k :: k in b ==> lt(a[|a| - 1], k)
    ensures Sorted(a + b, lt)
  {
    forall i, j | 0 <= i < j < |a + b| ensures lt((a + b)[i], (a + b)[j]) {
      if i < |a| <= j {
        assert b[j - |a|] in b;
        assert i == |a| - 1 || lt(a[i], a[|a| - 1]);
      }
    }
  }

  ghost predicate InSomeTable<K(!new)>(tables: seq<set<K>>, k: K) {
    exists i :: 0 <= i < |tables| && k in tables[i]
  }

  /** The rows of a response with a token. */
  lemma TrimmedRows<K(!new)>(rows: set<K>, lt: (K, K) -> bool, cursor: K, limit: nat)
    requires StrictTotal(lt) && limit >= 1 && |Page(rows, lt, cursor, limit + 1)| > limit
    ensures var page := Page(rows, lt, cursor, limit + 1)[..limit];
            Sorted(page, lt) && (forall k :: k in page ==> k in rows && lt(cursor, k)) && page[limit - 1] in page
  {
    var fetched := Page(rows, lt, cursor, limit + 1);
    PageIsPage(rows, lt, cursor, limit + 1);
    forall k | k in fetched[..limit] ensures k in rows && lt(cursor, k) { assert k in fetched; }
  }

  /** Whatever happens to the table, the collected rows are in order and without repetition, and each was in the table at some request. */
  lemma {:induction false} WalkInOrder<K(!new)>(tables: seq<set<K>>, lt: (K, K) -> bool, cursor: K, limit: nat)
    requires StrictTotal(lt) && limit >= 1
    ensures Sorted(Walk(tables, lt, cursor, limit), lt)
    ensures forall k :: k in Walk(tables, lt, cursor, limit) ==> lt(cursor, k) && InSomeTable(tables, k)
    decreases |tables|
  {
    if tables != [] {
      var fetched := Page(tables[0], lt, cursor, limit + 1);
      PageIsPage(tables[0], lt, cursor, limit + 1);
      if |fetched| > limit {
        var page, token := fetched[..limit], fetched[limit - 1];
        TrimmedRows(tables[0], lt, cursor, limit);
        WalkInOrder(tables[1..], lt, token, limit);
        var rest := Walk(tables[1..], lt, token, limit);
        SortedConcat(page, rest, lt);
        forall k | k in rest ensures lt(cursor, k) && InSomeTable(tables, k) {
          assert lt(cursor, token) && lt(token, k);
          var i :| 0 <= i < |tables[1..]| && k in tables[1..][i];
          assert k in tables[i + 1];
        }
      } else {
        assert forall k :: k in fetched ==> k in After(tables[0], lt, cursor);
      }
    }
  }

  /** A row that stays in place through all requests of a finished walk is collected. */
  lemma {:induction false} WalkFindsStableRows<K(!new)>(tables: seq<set<K>>, lt: (K, K) -> bool, cursor: K, limit: nat, k: K)
    requires StrictTotal(lt) && limit >= 1
    requires Finished(tables, lt, cursor, limit)
    requires lt(cursor, k) && forall i :: 0 <= i < |tables| ==> k in tables[i]
    ensures k in Walk(tables, lt, cursor, limit)
    decreases |tables|
  {
    var fetched := Page(tables[0], lt, cursor, limit + 1);
    PageIsPage(tables[0], lt, cursor, limit + 1);
    assert k in After(tables[0], lt, cursor);
    if |fetched| > limit {
      var page, token := fetched[..limit], fetched[limit - 1];
      if k !in page {
        if k in fetched {
          var i :| 0 <= i < |fetched| && fetched[i] == k;
          assert forall j :: 0 <= j < limit ==> page[j] == fetched[j] && page[j] in page;
        } else {
          assert token in fetched;
        }
        assert lt(token, k);
        assert forall i :: 0 <= i < |tables[1..]| ==> tables[1..][i] == tables[i + 1];
        WalkFindsStableRows(tables[1..], lt, token, limit, k);
      }
    }
  }

  /** A full page uses up exactly its rows. */
  lemma RowsLeft<K(!new)>(rows: set<K>, lt: (K, K) -> bool, cursor: K, limit: nat)
    requires StrictTotal(lt) && limit >= 1 && |Page(rows, lt, cursor, limit)| == limit
    ensures var page := Page(rows, lt, cursor, limit);
            && (forall k :: k in After(rows, lt, cursor) <==> k in page || k in After(rows, lt, page[limit - 1]))
            && |After(rows, lt, page[limit - 1])| == |After(rows, lt, cursor)| - limit
  {
    var page := Page(rows, lt, cursor, limit);
    PageIsPage(rows, lt, cursor, limit);
    var token, here := page[limit - 1], After(rows, lt, cursor);
    assert token in page;
    var left, taken := After(rows, lt, token), set k | k in page;
    forall k ensures k in here <==> k in taken || k in left {
      if k in left { assert lt(cursor, token) && lt(token, k); }
    }
    forall k | k in taken ensures k !in left {
      var i :| 0 <= i < |page| && page[i] == k;
      assert i == limit - 1 || lt(k, token);
      assert !(lt(token, k) && lt(k, token)) || lt(token, token);
    }
    assert here == taken + left;
    assert |taken| == limit by { SortedIsDistinct(page, lt); }
  }

  lemma {:induction false} SortedIsDistinct<K(!new)>(s: seq<K>, lt: (K, K) -> bool)
    requires StrictTotal(lt) && Sorted(s, lt)
    ensures |set k | k in s| == |s|
  {
    if s != [] {
      var front, last := s[..|s| - 1], s[|s| - 1];
      SortedIsDistinct(front, lt);
      assert s == front + [last];
      assert forall i :: 0 <= i < |front| ==> front[i] == s[i] && lt(s[i], last);
      assert (set k | k in s) == (set k | k in front) + {last};
    }
  }

  /**
   On a fixed table the walk finishes within |rows after the cursor| + 1 requests and
   collects exactly those rows, as one sorted list.
   */
  lemma FixedTableWalk<K(!new)>(rows: set<K>, lt: (K, K) -> bool, cursor: K, limit: nat, requests: nat)
    requires StrictTotal(lt) && limit >= 1
    requires requests > |After(rows, lt, cursor)|
    ensures var tables := seq(requests, _ => rows);
            && Finished(tables, lt, cursor, limit)
            && Walk(tables, lt, cursor, limit) == Page(rows, lt, cursor, |After(rows, lt, cursor)|)
            && forall k :: k in Walk(tables, lt, cursor, limit) <==> k in After(rows, lt, cursor)
    decreases requests
  {
    var tables := seq(requests, _ => rows);
    FixedTableFinishes(rows, lt, cursor, limit, requests);
    WalkInOrder(tables, lt, cursor, limit);
    var walk := Walk(tables, lt, cursor, limit);
    forall k ensures k in walk <==> k in After(rows, lt, cursor) {
      if k in After(rows, lt, cursor) { WalkFindsStableRows(tables, lt, cursor, limit, k); }
    }
    var n := |After(rows, lt, cursor)|;
    SortedIsDistinct(walk, lt);
    assert (set k | k in walk) == After(rows, lt, cursor);
    PageIsPage(rows, lt, cursor, n);
    PageUnique(rows, lt, cursor, n, walk, Page(rows, lt, cursor, n));
  }

  lemma {:induction false} FixedTableFinishes<K(!new)>(rows: set<K>, lt: (K, K) -> bool, cursor: K, limit: nat, requests: nat)
    requires StrictTotal(lt) && limit >= 1
    requires requests > |After(rows, lt, cursor)|
    ensures Finished(seq(requests, _ => rows), lt, cursor, limit)
    decreases requests
  {
    var tables := seq(requests, _ => rows);
    var fetched := Page(rows, lt, cursor, limit + 1);
    if |fetched| > limit {
      PagePrefix(rows, lt, cursor, limit, limit + 1);
      RowsLeft(rows, lt, cursor, limit);
      FixedTableFinishes(rows, lt, fetched[limit - 1], limit, requests - 1);
      assert tables[1..] == seq(requests - 1, _ => rows);
    }
  }

  // ---------------------------------------------------------------- excluding and merging after the fetch

  lemma {:induction false} FilterSorted<K(!new)>(s: seq<K>, lt: (K, K) -> bool, keep: K -> bool)
    requires Sorted(s, lt)
    ensures Sorted(Filter(s, keep), lt)
  {
    if s != [] {
      var front, last := s[..|s| - 1], s[|s| - 1];
      FilterSorted(front, lt, keep);
      var kept := Filter(front, keep);
      forall i | 0 <= i < |kept| ensures lt(kept[i], last) {
        assert kept[i] in kept;
        var j :| 0 <= j < |front| && front[j] == kept[i];
        assert s[j] == front[j];
      }
    }
  }

  /** How many rows a filter drops from a list without repetition. */
  lemma {:induction false} FilterDrops<K(!new)>(s: seq<K>, keep: K -> bool)
    requires |set k | k in s| == |s|
    ensures |Filter(s, keep)| + |set k | k in s && !keep(k)| == |s|
  {
    if s != [] {
      var front, last := s[..|s| - 1], s[|s| - 1];
      DropsOne(front, last, keep);
      AtMostLength(front);
      assert s == front + [last];
      FilterDrops(front, keep);
    }
  }

  lemma DropsOne<K(!new)>(front: seq<K>, last: K, keep: K -> bool)
    ensures (set k | k in front + [last]) == (set k | k in front) + {last}
    ensures (set k | k in front + [last] && !keep(k)) == (set k | k in front && !keep(k)) + if keep(last) then {} else {last}
    ensures last in front ==> (set k | k in front + [last]) == (set k | k in front)
  {
  }

  lemma {:induction false} AtMostLength<K(!new)>(s: seq<K>)
    ensures |set k | k in s| <= |s|
  {
    if s != [] {
      var front, last := s[..|s| - 1], s[|s| - 1];
      AtMostLength(front);
      assert s == front + [last];
      assert (set k | k in s) == (set k | k in front) + {last};
    }
  }

  ghost function Kept<K(!new)>(rows: set<K>, keep: K -> bool): set<K> {
    set k | k in rows && keep(k)
  }

  ghost function Dropped<K(!new)>(rows: set<K>, keep: K -> bool): set<K> {
    set k | k in rows && !keep(k)
  }

  /** Fetching `spare` rows more than needed and dropping the excluded ones gives the page of the remaining rows. */
  lemma OverFetchIsExact<K(!new)>(rows: set<K>, lt: (K, K) -> bool, cursor: K, n: nat, spare: nat, keep: K -> bool)
    requires StrictTotal(lt) && |Dropped(rows, keep)| <= spare
    ensures TrimResults(Filter(Page(rows, lt, cursor, n + spare), keep), n) == Page(Kept(rows, keep), lt, cursor, n)
  {
    var left := Kept(rows, keep);
    var fetched := Page(rows, lt, cursor, n + spare);
    PageIsPage(rows, lt, cursor, n + spare);
    FilterSorted(fetched, lt, keep);
    SortedIsDistinct(fetched, lt);
    FilterDrops(fetched, keep);
    var kept := Filter(fetched, keep);
    SmallerSet((set k | k in fetched && !keep(k)), Dropped(rows, keep));
    assert |fetched| == n + spare ==> |kept| >= n;
    var page := TrimResults(kept, n);
    forall k | k in page ensures k in After(left, lt, cursor) { assert k in kept; }
    forall k | k in After(left, lt, cursor) && k !in page ensures |page| == n && forall x :: x in page ==> lt(x, k) {
      KeptLater(kept, lt, n, k);
      if k !in fetched {
        forall x | x in page ensures lt(x, k) { assert x in kept; }
      }
    }
    PageIsPage(left, lt, cursor, n);
    PageUnique(left, lt, cursor, n, page, Page(left, lt, cursor, n));
  }

  /** A row of a sorted list that trimming cut off comes after all rows that stayed. */
  lemma KeptLater<K(!new)>(s: seq<K>, lt: (K, K) -> bool, n: nat, k: K)
    requires Sorted(s, lt)
    ensures k in s && k !in TrimResults(s, n) ==> |s| > n && forall x :: x in TrimResults(s, n) ==> lt(x, k)
  {
    var page := TrimResults(s, n);
    assert forall j :: 0 <= j < |page| ==> page[j] == s[j] && page[j] in page;
  }

  ghost predicate Distinct<K(!new)>(s: seq<K>) {
    forall i, j :: 0 <= i < j < |s| ==> s[i] != s[j]
  }

  /** A sort puts the elements in an order in which none comes before an earlier one. */
  ghost predicate IsSortOf<K(!new)>(sorted: seq<K>, all: seq<K>, lt: (K, K) -> bool) {
    multiset(sorted) == multiset(all) && forall i, j :: 0 <= i < j < |sorted| ==> !lt(sorted[j], sorted[i])
  }

  lemma {:induction false} OnceInDistinct<K(!new)>(s: seq<K>, k: K)
    requires Distinct(s)
    ensures multiset(s)[k] <= 1
  {
    if s != [] {
      var front := s[..|s| - 1];
      assert s == front + [s[|s| - 1]];
      OnceInDistinct(front, k);
      assert s[|s| - 1] == k ==> k !in front;
    }
  }

  /** Sorting a list without repetition by a strict total order leaves no choice: the result is strictly sorted, with the same elements. */
  lemma SortOfDistinct<K(!new)>(sorted: seq<K>, all: seq<K>, lt: (K, K) -> bool)
    requires StrictTotal(lt) && Distinct(all) && IsSortOf(sorted, all, lt)
    ensures Sorted(sorted, lt) && forall k :: k in sorted <==> k in all
  {
    forall i, j | 0 <= i < j < |sorted| ensures lt(sorted[i], sorted[j]) {
      var x, y := sorted[i], sorted[j];
      assert sorted == sorted[..i] + [x] + sorted[i + 1..j] + [y] + sorted[j + 1..];
      assert multiset(sorted)[x] >= if x == y then 2 else 1;
      OnceInDistinct(all, x);
    }
    assert forall k :: k in sorted <==> k in multiset(sorted);
    assert forall k :: k in all <==> k in multiset(all);
  }

  /** Merging complete lists with a list fetched only up to the page size, sorting and trimming, gives the page of them all. */
  lemma MergeIsExact<K(!new)>(full: set<K>, paged: set<K>, lt: (K, K) -> bool, cursor: K, n: nat, merged: seq<K>)
    requires StrictTotal(lt)
    requires Sorted(merged, lt)
    requires forall k :: k in merged <==> k in After(full, lt, cursor) || k in Page(paged, lt, cursor, n)
    ensures TrimResults(merged, n) == Page(full + paged, lt, cursor, n)
  {
    var some := Page(paged, lt, cursor, n);
    PageIsPage(paged, lt, cursor, n);
    var page := TrimResults(merged, n);
    assert forall j :: 0 <= j < |page| ==> page[j] == merged[j];
    assert Sorted(page, lt);
    forall k | k in page ensures k in After(full + paged, lt, cursor) { assert k in merged; }
    forall k | k in After(full + paged, lt, cursor) && k !in page ensures |page| == n && forall x :: x in page ==> lt(x, k) {
      if k in merged {
        KeptLater(merged, lt, n, k);
      } else {
        assert k in After(paged, lt, cursor) && k !in some;
        assert |some| == n && forall x :: x in some ==> lt(x, k);
        MergedBefore(merged, some, lt, n, k);
      }
    }
    PageIsPage(full + paged, lt, cursor, n);
    PageUnique(full + paged, lt, cursor, n, page, Page(full + paged, lt, cursor, n));
  }

  /** If a sorted list holds n rows before `k`, its first n rows are before `k`. */
  lemma MergedBefore<K(!new)>(merged: seq<K>, some: seq<K>, lt: (K, K) -> bool, n: nat, k: K)
    requires StrictTotal(lt) && Sorted(merged, lt) && Sorted(some, lt)
    requires |some| == n && forall x :: x in some ==> x in merged && lt(x, k)
    ensures |merged| >= n && forall x :: x in TrimResults(merged, n) ==> lt(x, k)
  {
    var page := TrimResults(merged, n);
    SortedIsDistinct(some, lt);
    SortedIsDistinct(merged, lt);
    SmallerSet((set x | x in some), (set x | x in merged));
    forall i | 0 <= i < n ensures lt(merged[i], k) {
      if forall x :: x in some ==> x in merged[..i] {
        SortedIsDistinct(merged[..i], lt);
        SmallerSet((set x | x in some), (set x | x in merged[..i]));
      } else {
        var x :| x in some && x !in merged[..i];
        var j :| 0 <= j < |merged| && merged[j] == x;
        assert j >= i by { assert forall l :: 0 <= l < i ==> merged[..i][l] == merged[l] && merged[..i][l] in merged[..i]; }
        assert i == j || lt(merged[i], merged[j]);
      }
    }
    forall x | x in page ensures lt(x, k) { var i :| 0 <= i < |page| && page[i] == x; assert merged[i] == x; }
  }
}
