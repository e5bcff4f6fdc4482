/**
 * The query pipeline every listing in the clinic shares: the rows of a table
 * in primary-key order, a `WHERE` filter, an `ORDER BY`, then `OFFSET`/`LIMIT`.
 */
module Tables {

  lemma NonEmptyHasMember(s: set<int>)
    requires s != {}
    ensures exists y :: y in s
  {
    if forall y :: y !in s {
      assert false;
    }
  }

  lemma {:induction false} LeastExists(s: set<int>)
    requires s != {}
    ensures exists m :: m in s && forall k :: k in s ==> m <= k
    decreases |s|
  {
    NonEmptyHasMember(s);
    var x :| x in s;
    if s == {x} {
      assert forall k :: k in s ==> x <= k;
    } else {
      LeastExists(s - {x});
      var m :| m in s - {x} && forall k :: k in s - {x} ==> m <= k;
      var least := if x < m then x else m;
      forall k | k in s ensures least <= k {
        if k != x {
          assert k in s - {x};
        }
      }
      assert least in s;
    }
  }

  /** The smallest key of a non-empty key set. */
  function Least(s: set<int>): (m: int)
    requires s != {}
    ensures m in s && forall k :: k in s ==> m <= k
  {
    LeastExists(s);
    var m :| m in s && forall k :: k in s ==> m <= k;
    m
  }

  /** The keys of `s` in ascending order, each once. */
  function Ascending(s: set<int>): (r: seq<int>)
    ensures |r| == |s|
    ensures forall k :: k in s <==> k in r
    ensures forall i, j :: 0 <= i < j < |r| ==> r[i] < r[j]
    decreases |s|
  {
    if s == {} then []
    else
      var m := Least(s);
      [m] + Ascending(s - {m})
  }

  /** The records stored under the keys `ks`, in that order. */
  function Select<T>(table: map<int, T>, ks: seq<int>): (r: seq<T>)
    requires forall i :: 0 <= i < |ks| ==> ks[i] in table
    ensures |r| == |ks|
    ensures forall i :: 0 <= i < |r| ==> r[i] == table[ks[i]]
  {
    if ks == [] then [] else [table[ks[0]]] + Select(table, ks[1..])
  }

  /** The records of a table in ascending primary-key order (the order SQLite scans a rowid table in). */
  function Rows<T(==, !new)>(table: map<int, T>): (r: seq<T>)
    ensures |r| == |table|
    ensures forall k :: k in table ==> table[k] in r
    ensures forall x :: x in r <==> x in table.Values
  {
    var ks := Ascending(table.Keys);
    var r := Select(table, ks);
    forall k | k in table ensures table[k] in r {
      var i :| 0 <= i < |ks| && ks[i] == k;
      assert r[i] == table[k];
    }
    forall x | x in r ensures x in table.Values {
      var i :| 0 <= i < |r| && r[i] == x;
      assert ks[i] in table;
    }
    forall x | x in table.Values ensures x in r {
      var k :| k in table && table[k] == x;
    }
    r
  }

  /** The elements of `s` that `keep` accepts, in their original order. */
  function Filter<T(!new)>(s: seq<T>, keep: T -> bool): (r: seq<T>)
    ensures |r| <= |s|
    ensures forall x :: x in r <==> x in s && keep(x)
    ensures forall x :: multiset(r)[x] == if keep(x) then multiset(s)[x] else 0
  {
    if s == [] then []
    else
      assert s == [s[0]] + s[1..];
      if keep(s[0]) then [s[0]] + Filter(s[1..], keep)
      else Filter(s[1..], keep)
  }

  /** No element occurs at two positions. */
  ghost predicate Distinct<T>(s: seq<T>) {
    forall i, j :: 0 <= i < j < |s| ==> s[i] != s[j]
  }

  /** No record is stored under two keys. */
  ghost predicate Injective<T>(table: map<int, T>) {
    forall k, l :: k in table && l in table && table[k] == table[l] ==> k == l
  }

  /** A table that stores no record twice lists each of its records once. */
  lemma RowsDistinct<T(!new)>(table: map<int, T>)
    requires Injective(table)
    ensures Distinct(Rows(table))
  {
    var ks := Ascending(table.Keys);
    var r := Rows(table);
    assert r == Select(table, ks);
    forall i, j | 0 <= i < j < |r| ensures r[i] != r[j] {
      var k, l := ks[i], ks[j];
      assert k in table && l in table && k < l;
      assert r[i] == table[k] && r[j] == table[l];
    }
  }

  /** In a sequence without repeats every member occurs exactly once. */
  lemma {:induction false} DistinctCounts<T>(s: seq<T>)
    requires Distinct(s)
    ensures forall x :: multiset(s)[x] == if x in s then 1 else 0
  {
    if s != [] {
      assert s == [s[0]] + s[1..];
      assert Distinct(s[1..]) by {
        forall i, j | 0 <= i < j < |s[1..]| ensures s[1..][i] != s[1..][j] {
          assert s[1..][i] == s[i + 1] && s[1..][j] == s[j + 1];
        }
      }
      DistinctCounts(s[1..]);
      assert s[0] !in s[1..] by {
        forall j | 0 <= j < |s[1..]| ensures s[1..][j] != s[0] {
          assert s[1..][j] == s[j + 1];
        }
      }
    }
  }

  /** A sequence in which nothing occurs twice has no repeats. */
  lemma {:induction false} CountsDistinct<T>(s: seq<T>)
    requires forall x :: multiset(s)[x] <= 1
    ensures Distinct(s)
  {
    if s != [] {
      assert s == [s[0]] + s[1..];
      assert forall x :: multiset(s[1..])[x] <= multiset(s)[x];
      CountsDistinct(s[1..]);
      assert multiset(s)[s[0]] == multiset(s[1..])[s[0]] + 1;
      forall i, j | 0 <= i < j < |s| ensures s[i] != s[j] {
        assert s[j] == s[1..][j - 1];
        if i > 0 {
          assert s[i] == s[1..][i - 1];
        }
      }
    }
  }

  /** Reordering a sequence without repeats, or dropping elements from it, keeps it without repeats. */
  lemma FewerKeepsDistinct<T>(s: seq<T>, r: seq<T>)
    requires Distinct(s) && multiset(r) <= multiset(s)
    ensures Distinct(r)
  {
    DistinctCounts(s);
    forall x ensures multiset(r)[x] <= 1 {
      assert multiset(r)[x] <= multiset(s)[x];
    }
    CountsDistinct(r);
  }

  /** Filtering a sequence without repeats gives one without repeats. */
  lemma FilterDistinct<T(!new)>(s: seq<T>, keep: T -> bool)
    ensures Distinct(s) ==> Distinct(Filter(s, keep))
  {
    if Distinct(s) {
      assert multiset(Filter(s, keep)) <= multiset(s);
      FewerKeepsDistinct(s, Filter(s, keep));
    }
  }

  /** A page of a sequence without repeats has none. */
  lemma PageDistinct<T>(rows: seq<T>, skip: nat, limit: nat)
    requires Distinct(rows)
    ensures Distinct(Page(rows, skip, limit))
  {
    var r := Page(rows, skip, limit);
    forall i, j | 0 <= i < j < |r| ensures r[i] != r[j] {
      assert r[i] == rows[skip + i] && r[j] == rows[skip + j];
    }
  }

  /** Every earlier element is related to every later one. */
  ghost predicate SortedBy<T>(s: seq<T>, le: (T, T) -> bool) {
    forall i, j :: 0 <= i < j < |s| ==> le(s[i], s[j])
  }

  /** `le` is total and transitive: an `ORDER BY` key. */
  ghost predicate TotalPreorder<T(!new)>(le: (T, T) -> bool) {
    && (forall a, b :: le(a, b) || le(b, a))
    && (forall a, b, c :: le(a, b) && le(b, c) ==> le(a, c))
  }

  /** Filtering keeps the relative order of what it keeps. */
  lemma {:induction false} FilterSorted<T(!new)>(s: seq<T>, keep: T -> bool, le: (T, T) -> bool)
    requires SortedBy(s, le)
    ensures SortedBy(Filter(s, keep), le)
  {
    if s != [] {
      FilterSorted(s[1..], keep, le);
      var rest := Filter(s[1..], keep);
      forall y | y in rest ensures le(s[0], y) {
        var k :| 0 <= k < |s[1..]| && s[1..][k] == y;
        assert s[k + 1] == y;
      }
    }
  }

  /** Places `x` before the first element it is ordered before, keeping later equals after it. */
  function Insert<T>(x: T, s: seq<T>, le: (T, T) -> bool): (r: seq<T>)
    ensures multiset(r) == multiset(s) + multiset{x}
  {
    if s == [] || le(x, s[0]) then [x] + s
    else
      assert s == [s[0]] + s[1..];
      [s[0]] + Insert(x, s[1..], le)
  }

  /** Insertion sort; equal keys keep their input order. */
  function Sort<T>(s: seq<T>, le: (T, T) -> bool): (r: seq<T>)
    ensures multiset(r) == multiset(s)
  {
    if s == [] then []
    else
      assert s == [s[0]] + s[1..];
      Insert(s[0], Sort(s[1..], le), le)
  }

  lemma {:induction false} InsertSorted<T(!new)>(x: T, s: seq<T>, le: (T, T) -> bool)
    requires TotalPreorder(le) && SortedBy(s, le)
    ensures SortedBy(Insert(x, s, le), le)
  {
    if s != [] && !le(x, s[0]) {
      InsertSorted(x, s[1..], le);
      var rest := Insert(x, s[1..], le);
      forall y | y in rest ensures le(s[0], y) {
        assert y in multiset(rest);
        if y != x {
          assert y in multiset(s[1..]);
          var k :| 0 <= k < |s[1..]| && s[1..][k] == y;
          assert s[k + 1] == y;
        }
      }
    }
  }

  /** `Sort` orders its result by `le` (and, by its postcondition, permutes its input). */
  lemma {:induction false} SortSorted<T(!new)>(s: seq<T>, le: (T, T) -> bool)
    requires TotalPreorder(le)
    ensures SortedBy(Sort(s, le), le)
  {
    if s != [] {
      SortSorted(s[1..], le);
      InsertSorted(s[0], Sort(s[1..], le), le);
    }
  }

  /** `OFFSET skip LIMIT limit`. */
  function Page<T>(rows: seq<T>, skip: nat, limit: nat): (r: seq<T>)
    ensures |r| <= limit
    ensures forall i :: 0 <= i < |r| ==> skip + i < |rows| && r[i] == rows[skip + i]
    ensures skip + limit <= |rows| ==> |r| == limit
    ensures skip + limit > |rows| ==> |r| == if skip < |rows| then |rows| - skip else 0
  {
    var from := if skip < |rows| then skip else |rows|;
    var to := if from + limit < |rows| then from + limit else |rows|;
    rows[from..to]
  }

  /** A page of an ordered sequence is ordered. */
  lemma PageSorted<T>(rows: seq<T>, skip: nat, limit: nat, le: (T, T) -> bool)
    requires SortedBy(rows, le)
    ensures SortedBy(Page(rows, skip, limit), le)
  {
    var r := Page(rows, skip, limit);
    forall i, j | 0 <= i < j < |r| ensures le(r[i], r[j]) {
      assert r[i] == rows[skip + i] && r[j] == rows[skip + j];
    }
  }

  /** Everything on a page comes from the paged sequence. */
  lemma PageMembers<T>(rows: seq<T>, skip: nat, limit: nat)
    ensures forall x :: x in Page(rows, skip, limit) ==> x in rows
  {
    var r := Page(rows, skip, limit);
    forall x | x in r ensures x in rows {
      var i :| 0 <= i < |r| && r[i] == x;
      assert rows[skip + i] == x;
    }
  }

  /** Where the page with number `page` (counting from 0) of `limit` rows starts. */
  function Offset(page: nat, limit: nat): nat {
    page * limit
  }

  /** Every row is on a page: row `i` is at position `i % limit` of page `i / limit`. */
  lemma PageHolds<T>(rows: seq<T>, i: nat, limit: nat)
    requires i < |rows| && limit > 0
    ensures var skip := Offset(i / limit, limit);
            && skip <= i && i - skip == i % limit
            && i - skip < |Page(rows, skip, limit)| && Page(rows, skip, limit)[i - skip] == rows[i]
  {
    assert Offset(i / limit, limit) == i - i % limit;
  }

  /** Whatever the page size, every row is on some page. */
  lemma EveryRowPaged<T>(rows: seq<T>, x: T, limit: nat)
    requires x in rows && limit > 0
    ensures exists page: nat :: x in Page(rows, Offset(page, limit), limit)
  {
    var i: nat :| i < |rows| && rows[i] == x;
    PageHolds(rows, i, limit);
    var page: nat := i / limit;
    assert Page(rows, Offset(page, limit), limit)[i - Offset(page, limit)] == x;
  }

  /** A subset is no larger than its superset. */
  lemma {:induction false} SubsetSize(a: set<int>, b: set<int>)
    requires a <= b
    ensures |a| <= |b|
    decreases |a|
  {
    if a != {} {
      NonEmptyHasMember(a);
      var x :| x in a;
      SubsetSize(a - {x}, b - {x});
    }
  }
}
