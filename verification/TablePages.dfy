/** Reading a table page by page: every page is a query of its own, and PostgreSQL may yield rows that the
    ORDER BY does not separate in another order each time. */
module TablePages {
  /** LIMIT and OFFSET. */
  function Page<T>(rows: seq<T>, limit: nat, offset: nat): seq<T> {
    var from := if offset < |rows| then offset else |rows|;
    var to := if from + limit < |rows| then from + limit else |rows|;
    rows[from..to]
  }

  /** A page is the rows from the offset on, as many as the limit allows and there are. */
  lemma PageIs<T>(rows: seq<T>, limit: nat, offset: nat)
    ensures var page := Page(rows, limit, offset);
            && |page| == (if |rows| <= offset then 0 else if |rows| - offset < limit then |rows| - offset else limit)
            && forall i | 0 <= i < |page| :: page[i] == rows[offset + i]
  {
  }

  function Offset(k: nat, limit: nat): nat {
    k * limit
  }

  lemma OffsetNext(k: nat, limit: nat)
    ensures Offset(k + 1, limit) == Offset(k, limit) + limit && Offset(0, limit) == 0
  {
  }

  /** Page k of the k-th query's rows, for all queries, one after the other. */
  function Pages<T>(queries: seq<seq<T>>, limit: nat): seq<T> {
    if queries == [] then []
    else
      var k := |queries| - 1;
      Pages(queries[..k], limit) + Page(queries[k], limit, Offset(k, limit))
  }

  /** `rank` places a row's sort column; without ORDER BY it is the same for all rows. */
  predicate Sorted<T>(q: seq<T>, rank: T -> int) {
    forall i, j | 0 <= i < j < |q| :: rank(q[i]) <= rank(q[j])
  }

  /** No two rows tie. */
  predicate Strict<T>(q: seq<T>, rank: T -> int) {
    forall i, j | 0 <= i < j < |q| :: rank(q[i]) < rank(q[j])
  }

  /** `p` is another order in which the rows of `q` may be yielded. */
  predicate MayYield<T(==)>(q: seq<T>, rank: T -> int, p: seq<T>) {
    multiset(p) == multiset(q) && Sorted(p, rank)
  }

  predicate AllMayYield<T(==)>(q: seq<T>, rank: T -> int, queries: seq<seq<T>>) {
    forall p | p in queries :: MayYield(q, rank, p)
  }

  lemma SameElements<T>(p: seq<T>, q: seq<T>, x: T)
    requires multiset(p) == multiset(q) && x in p
    ensures x in q
  {
    assert x in multiset(p);
  }

  lemma SameSize<T>(p: seq<T>, q: seq<T>)
    requires multiset(p) == multiset(q)
    ensures |p| == |q|
  {
    assert |multiset(p)| == |p| && |multiset(q)| == |q|;
  }

  lemma StrictAt<T>(q: seq<T>, rank: T -> int, i: nat)
    requires Strict(q, rank) && i < |q|
    ensures rank(q[i]) <= rank(q[|q| - 1])
    ensures rank(q[i]) == rank(q[|q| - 1]) ==> i == |q| - 1
  {
  }

  lemma LastSame<T>(q: seq<T>, rank: T -> int, p: seq<T>)
    requires q != [] && |p| == |q| && Strict(q, rank) && MayYield(q, rank, p)
    ensures p[|q| - 1] == q[|q| - 1]
  {
    var n := |q| - 1;
    SameElements(q, p, q[n]);
    SameElements(p, q, p[n]);
    var i :| 0 <= i <= n && q[i] == p[n];
    var k :| 0 <= k <= n && p[k] == q[n];
    assert k < n ==> rank(p[k]) <= rank(p[n]);
    StrictAt(q, rank, i);
  }

  lemma DropLast<T>(p: seq<T>, q: seq<T>)
    requires |p| == |q| > 0 && p[|p| - 1] == q[|q| - 1] && multiset(p) == multiset(q)
    ensures multiset(p[..|p| - 1]) == multiset(q[..|q| - 1])
  {
    var n := |p| - 1;
    assert p == p[..n] + [p[n]] && q == q[..n] + [q[n]];
    MultisetOfAppend(p[..n], p[n]);
    MultisetOfAppend(q[..n], q[n]);
    RemoveSame(multiset(p[..n]), multiset(q[..n]), multiset{p[n]});
  }

  lemma MultisetOfAppend<T>(s: seq<T>, x: T)
    ensures multiset(s + [x]) == multiset(s) + multiset{x}
  {
  }

  lemma RemoveSame<T>(a: multiset<T>, b: multiset<T>, c: multiset<T>)
    requires a + c == b + c
    ensures a == b
  {
    assert a == (a + c) - c && b == (b + c) - c;
  }

  /** Without ties there is only one order. */
  lemma {:induction false} OneOrder<T>(q: seq<T>, rank: T -> int, p: seq<T>)
    requires Strict(q, rank) && MayYield(q, rank, p)
    ensures p == q
  {
    SameSize(p, q);
    if q != [] {
      var n := |q| - 1;
      LastSame(q, rank, p);
      DropLast(p, q);
      OneOrder(q[..n], rank, p[..n]);
      hide Strict, MayYield;
      assert p == p[..n] + [p[n]] && q == q[..n] + [q[n]];
    }
  }

  /** The first `count` rows, or all of them. */
  function Upto<T>(q: seq<T>, count: nat): seq<T> {
    if count < |q| then q[..count] else q
  }

  lemma PageAppends<T>(q: seq<T>, limit: nat, from: nat)
    ensures Upto(q, from) + Page(q, limit, from) == Upto(q, from + limit)
  {
  }

  /** Without ties, the pages of any number of queries yield every row once, in order, as far as they go. */
  lemma {:induction false} PagesTile<T>(q: seq<T>, rank: T -> int, queries: seq<seq<T>>, limit: nat)
    requires Strict(q, rank) && AllMayYield(q, rank, queries)
    ensures Pages(queries, limit) == Upto(q, Offset(|queries|, limit))
  {
    if queries == [] {
      OffsetNext(0, limit);
      assert q[..0] == [];
    } else {
      var k := |queries| - 1;
      assert queries[k] in queries && forall p | p in queries[..k] :: p in queries;
      hide Offset, Upto, Page, Strict, MayYield;
      OffsetNext(k, limit);
      PagesTile(q, rank, queries[..k], limit);
      OneOrder(q, rank, queries[k]);
      PageAppends(q, limit, Offset(k, limit));
    }
  }

  lemma {:induction false} PagesOfOne<T>(queries: seq<seq<T>>)
    requires forall k | 0 <= k < |queries| :: k < |queries[k]|
    ensures |Pages(queries, 1)| == |queries|
    ensures forall k | 0 <= k < |queries| :: Pages(queries, 1)[k] == queries[k][k]
  {
    if queries != [] {
      var k := |queries| - 1;
      PagesOfOne(queries[..k]);
      assert queries[..k] + [queries[k]] == queries;
    }
  }

  /** Rows are told apart by where they are stored. */
  predicate Distinct<T(==)>(q: seq<T>) {
    forall i, j | 0 <= i < j < |q| :: q[i] != q[j]
  }

  /** Every row comes once, whatever order each query takes, for any number of pages that reaches the end. */
  ghost predicate AlwaysOnce<T(!new)>(q: seq<T>, rank: T -> int, limit: nat) {
    forall queries: seq<seq<T>> | |q| <= Offset(|queries|, limit) && AllMayYield(q, rank, queries) ::
      multiset(Pages(queries, limit)) == multiset(q)
  }

  /** No tie straddles the end of a page. */
  ghost predicate Separated<T>(q: seq<T>, rank: T -> int, limit: nat) {
    forall k: nat | 0 < Offset(k, limit) < |q| :: RisesAt(q, rank, Offset(k, limit))
  }

  /** The first `count` rows do not tie with the others. */
  predicate RisesAt<T>(q: seq<T>, rank: T -> int, count: nat) {
    0 < count < |q| ==> rank(q[count - 1]) < rank(q[count])
  }

  /** Main result: whatever the page size, the pages yield every row once, whatever orders the queries take, if
      and only if no tie straddles the end of a page. */
  lemma PagesTileIff<T(!new)>(q: seq<T>, rank: T -> int, limit: nat)
    requires limit > 0 && Sorted(q, rank) && Distinct(q)
    ensures AlwaysOnce(q, rank, limit) <==> Separated(q, rank, limit)
  {
    if Separated(q, rank, limit) {
      forall queries: seq<seq<T>> | |q| <= Offset(|queries|, limit) && AllMayYield(q, rank, queries)
        ensures multiset(Pages(queries, limit)) == multiset(q)
      {
        SeparatedPages(q, rank, queries, limit);
      }
    } else {
      var k: nat :| 0 < Offset(k, limit) < |q| && !RisesAt(q, rank, Offset(k, limit));
      TieLosesRow(q, rank, limit, k);
    }
  }

  // ---------- no tie straddles the end of a page ----------

  /** The rows before a rise are the same in every order. */
  lemma PrefixSame<T>(q: seq<T>, rank: T -> int, p: seq<T>, count: nat)
    requires Sorted(q, rank) && MayYield(q, rank, p) && RisesAt(q, rank, count)
    ensures multiset(Upto(p, count)) == multiset(Upto(q, count))
  {
    SameSize(p, q);
    if 0 < count < |q| {
      LowPrefix(q, rank, p, count);
      forall x | x in p[..count] ensures x !in q[count..] { BelowRest(q, rank, count, x); }
      SplitMultiset(p, count);
      assert q == q[..count] + q[count..];
      WithinFirst(p[..count], q[..count], q[count..]);
      SameSizeSame(multiset(p[..count]), multiset(q[..count]));
    }
  }

  lemma BelowRest<T>(q: seq<T>, rank: T -> int, count: nat, x: T)
    requires Sorted(q, rank) && 0 < count < |q| && RisesAt(q, rank, count) && rank(x) <= rank(q[count - 1])
    ensures x !in q[count..]
  {
    forall i | count <= i < |q| ensures q[i] != x {
      assert rank(q[count]) <= rank(q[i]);
    }
  }

  /** Otherwise the first `count` rows of `q` would be among fewer than `count` rows of `p`. */
  lemma LowPrefix<T>(q: seq<T>, rank: T -> int, p: seq<T>, count: nat)
    requires Sorted(q, rank) && MayYield(q, rank, p) && |p| == |q| && 0 < count < |q|
    ensures forall x | x in p[..count] :: rank(x) <= rank(q[count - 1])
  {
    var n := count - 1;
    if rank(q[n]) < rank(p[n]) {
      FirstAmongFewer(q, rank, p, n);
      SmallerSize(multiset(q[..count]), multiset(p[..n]));
    } else {
      forall i | 0 <= i < count ensures rank(p[i]) <= rank(q[n]) {
        assert i < n ==> rank(p[i]) <= rank(p[n]);
      }
    }
  }

  lemma FirstAmongFewer<T>(q: seq<T>, rank: T -> int, p: seq<T>, n: nat)
    requires Sorted(q, rank) && MayYield(q, rank, p) && n < |p| == |q| && rank(q[n]) < rank(p[n])
    ensures multiset(q[..n + 1]) <= multiset(p[..n])
  {
    forall x | x in q[..n + 1] ensures x !in p[n..] { LowNotHigh(q, rank, p, n, x); }
    assert multiset(q) == multiset(p);
    hide Sorted, MayYield;
    SplitMultiset(q, n + 1);
    assert p == p[..n] + p[n..];
    WithinFirst(q[..n + 1], p[..n], p[n..]);
  }

  lemma LowNotHigh<T>(q: seq<T>, rank: T -> int, p: seq<T>, n: nat, x: T)
    requires Sorted(q, rank) && Sorted(p, rank) && n < |p| == |q| && rank(q[n]) < rank(p[n]) && x in q[..n + 1]
    ensures x !in p[n..]
  {
    var i :| 0 <= i <= n && q[i] == x;
    assert i < n ==> rank(q[i]) <= rank(q[n]);
    forall j | n <= j < |p| ensures p[j] != x {
      assert n < j ==> rank(p[n]) <= rank(p[j]);
    }
  }

  lemma SplitMultiset<T>(s: seq<T>, n: nat)
    requires n <= |s|
    ensures multiset(s) == multiset(s[..n]) + multiset(s[n..])
  {
    assert s == s[..n] + s[n..];
  }

  lemma WithinFirst<T>(u: seq<T>, a: seq<T>, b: seq<T>)
    requires multiset(u) <= multiset(a + b) && forall x | x in u :: x !in b
    ensures multiset(u) <= multiset(a)
  {
    forall x ensures multiset(u)[x] <= multiset(a)[x] {
      assert multiset(a + b)[x] == multiset(a)[x] + multiset(b)[x];
      assert x in multiset(u) ==> x in u;
      assert x in multiset(b) ==> x in b;
    }
  }

  lemma SmallerSize<T>(a: multiset<T>, b: multiset<T>)
    requires a <= b
    ensures |a| <= |b|
  {
    assert b == a + (b - a);
  }

  lemma SameSizeSame<T>(a: multiset<T>, b: multiset<T>)
    requires a <= b && |a| == |b|
    ensures a == b
  {
    assert b == a + (b - a);
  }

  lemma PageSame<T>(q: seq<T>, rank: T -> int, p: seq<T>, limit: nat, from: nat)
    requires Sorted(q, rank) && MayYield(q, rank, p) && RisesAt(q, rank, from) && RisesAt(q, rank, from + limit)
    ensures multiset(Page(p, limit, from)) == multiset(Page(q, limit, from))
  {
    PrefixSame(q, rank, p, from);
    PrefixSame(q, rank, p, from + limit);
    hide Upto, Page, Sorted, MayYield, RisesAt;
    PageAppends(p, limit, from);
    PageAppends(q, limit, from);
    MultisetOfConcat(Upto(p, from), Page(p, limit, from));
    MultisetOfConcat(Upto(q, from), Page(q, limit, from));
    RemoveSame(multiset(Page(p, limit, from)), multiset(Page(q, limit, from)), multiset(Upto(q, from)));
  }

  lemma MultisetOfConcat<T>(a: seq<T>, b: seq<T>)
    ensures multiset(a + b) == multiset(b) + multiset(a)
  {
  }

  lemma {:induction false} SeparatedUpto<T>(q: seq<T>, rank: T -> int, queries: seq<seq<T>>, limit: nat)
    requires Sorted(q, rank) && AllMayYield(q, rank, queries) && Separated(q, rank, limit)
    ensures multiset(Pages(queries, limit)) == multiset(Upto(q, Offset(|queries|, limit)))
  {
    if queries == [] {
      OffsetNext(0, limit);
      assert q[..0] == [];
    } else {
      var k := |queries| - 1;
      assert queries[k] in queries && forall p | p in queries[..k] :: p in queries;
      hide Offset, Upto, Page, Sorted, MayYield;
      OffsetNext(k, limit);
      SeparatedUpto(q, rank, queries[..k], limit);
      assert RisesAt(q, rank, Offset(k, limit)) && RisesAt(q, rank, Offset(k + 1, limit));
      PageSame(q, rank, queries[k], limit, Offset(k, limit));
      PageAppends(q, limit, Offset(k, limit));
      MultisetOfConcat(Pages(queries[..k], limit), Page(queries[k], limit, Offset(k, limit)));
      MultisetOfConcat(Upto(q, Offset(k, limit)), Page(q, limit, Offset(k, limit)));
    }
  }

  lemma SeparatedPages<T>(q: seq<T>, rank: T -> int, queries: seq<seq<T>>, limit: nat)
    requires Sorted(q, rank) && AllMayYield(q, rank, queries) && Separated(q, rank, limit)
    requires |q| <= Offset(|queries|, limit)
    ensures multiset(Pages(queries, limit)) == multiset(q)
  {
    hide Offset;
    SeparatedUpto(q, rank, queries, limit);
  }

  // ---------- a tie straddles the end of a page ----------

  function Swapped<T>(q: seq<T>, i: nat): seq<T>
    requires i + 1 < |q|
  {
    q[i := q[i + 1]][i + 1 := q[i]]
  }

  lemma SwappedMayYield<T>(q: seq<T>, rank: T -> int, i: nat)
    requires Sorted(q, rank) && i + 1 < |q| && rank(q[i]) == rank(q[i + 1])
    ensures MayYield(q, rank, Swapped(q, i))
  {
    var p := Swapped(q, i);
    assert q == q[..i] + [q[i], q[i + 1]] + q[i + 2..];
    assert p == q[..i] + [q[i + 1], q[i]] + q[i + 2..];
    assert multiset([q[i], q[i + 1]]) == multiset([q[i + 1], q[i]]);
    forall k, l | 0 <= k < l < |p| ensures rank(p[k]) <= rank(p[l]) {
    }
  }

  /** All queries agree but the k-th, which yields the rows around the end of the page before it the other way
      round. */
  function TiedOrders<T>(q: seq<T>, count: nat, k: nat, i: nat): (r: seq<seq<T>>)
    requires i + 1 < |q|
    ensures |r| == count && forall j | 0 <= j < count :: r[j] == if j == k then Swapped(q, i) else q
  {
    seq(count, j requires 0 <= j < count => if j == k then Swapped(q, i) else q)
  }

  lemma {:induction false} InPages<T>(queries: seq<seq<T>>, limit: nat, x: T) returns (k: nat)
    requires x in Pages(queries, limit)
    ensures k < |queries| && x in Page(queries[k], limit, Offset(k, limit))
  {
    k := |queries| - 1;
    if x !in Page(queries[k], limit, Offset(k, limit)) {
      k := InPages(queries[..k], limit, x);
    }
  }

  lemma OffsetGrows(j: nat, k: nat, limit: nat)
    ensures j < k ==> Offset(j, limit) + limit <= Offset(k, limit)
  {
    assert j < k ==> (j + 1) * limit <= k * limit;
  }

  /** An index belongs to one page. */
  lemma OnePage(j: nat, k: nat, limit: nat)
    requires Offset(j, limit) <= Offset(k, limit) < Offset(j, limit) + limit
    ensures j == k
  {
    hide Offset;
    OffsetGrows(j, k, limit);
    OffsetGrows(k, j, limit);
  }

  lemma NotOnPage<T>(q: seq<T>, limit: nat, k: nat, j: nat)
    requires Distinct(q) && 0 < Offset(k, limit) < |q|
    ensures q[Offset(k, limit)] !in Page(if j == k then Swapped(q, Offset(k, limit) - 1) else q, limit, Offset(j, limit))
  {
    var o := Offset(k, limit);
    var p := if j == k then Swapped(q, o - 1) else q;
    if q[o] in Page(p, limit, Offset(j, limit)) {
      var i :| 0 <= i < |Page(p, limit, Offset(j, limit))| && Page(p, limit, Offset(j, limit))[i] == q[o];
      assert p[Offset(j, limit) + i] == q[o] && i < limit;
      if j != k { OnePage(j, k, limit); }
    }
  }

  lemma TieLosesRow<T(!new)>(q: seq<T>, rank: T -> int, limit: nat, k: nat)
    requires limit > 0 && Sorted(q, rank) && Distinct(q)
    requires 0 < Offset(k, limit) < |q| && !RisesAt(q, rank, Offset(k, limit))
    ensures !AlwaysOnce(q, rank, limit)
  {
    var o := Offset(k, limit);
    assert rank(q[o - 1]) <= rank(q[o]);
    SwappedMayYield(q, rank, o - 1);
    var queries := TiedOrders(q, |q|, k, o - 1);
    assert MayYield(q, rank, q);
    assert |q| <= Offset(|q|, limit) by { assert |q| * 1 <= |q| * limit; }
    hide Offset, Swapped, TiedOrders, Page, Pages, MayYield, Sorted, Distinct;
    assert AllMayYield(q, rank, queries);
    if q[o] in Pages(queries, limit) {
      var j := InPages(queries, limit, q[o]);
      NotOnPage(q, limit, k, j);
    }
    Missing(q, Pages(queries, limit), q[o]);
  }

  lemma Missing<T>(q: seq<T>, pages: seq<T>, x: T)
    requires x in q && x !in pages
    ensures multiset(pages) != multiset(q)
  {
    assert x in multiset(q) && x !in multiset(pages);
  }

  /** Two tied rows, two pages: the first row twice, the second not at all. */
  lemma TiedRowsRepeat()
    ensures var rank := (x: int) => 0;
            && AllMayYield([1, 2], rank, [[1, 2], [2, 1]])
            && Pages([[1, 2], [2, 1]], 1) == [1, 1]
  {
    var queries := [[1, 2], [2, 1]];
    PagesOfOne(queries);
    assert multiset([1, 2]) == multiset([2, 1]);
  }
}
