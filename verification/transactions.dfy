/**
 * The transaction history query: a user's entries, newest first, at most
 * twenty. The index hands over a user's entries in insertion order and the
 * sort is stable, so entries logged at the same millisecond keep that
 * order.
 */
module TransactionLog {
  import opened Ledger

  /** The most entries one listing returns. */
  const PageSize: nat := 20

  predicate NewestFirst(xs: seq<Transaction>) {
    forall i, j :: 0 <= i < j < |xs| ==> xs[i].createdAt >= xs[j].createdAt
  }

  /** The user's entries, in the order they were logged. */
  function Mine(log: seq<Transaction>, u: UserId): (mine: seq<Transaction>)
    ensures forall tx :: tx in mine <==> tx in log && tx.userId == u
  {
    Filter(log, (tx: Transaction) => tx.userId == u)
  }

  /**
   * Place `x`, which preceded every element of `ys` in the input, in a
   * newest-first sequence: after everything strictly newer, before
   * everything else.
   */
  function Insert(x: Transaction, ys: seq<Transaction>): (r: seq<Transaction>)
    requires NewestFirst(ys)
    ensures NewestFirst(r)
    ensures multiset(r) == multiset(ys) + multiset{x}
    ensures forall z :: z in r ==> z == x || z in ys
    ensures |r| == |ys| + 1
    decreases |ys|
  {
    if ys == [] || ys[0].createdAt <= x.createdAt then
      assert NewestFirst([x] + ys) by {
        forall j | 0 <= j < |ys| ensures ys[j].createdAt <= x.createdAt {
          if j > 0 {
            assert ys[0].createdAt >= ys[j].createdAt;
          }
        }
        PrependNewest(x, ys);
      }
      [x] + ys
    else
      var rest := Insert(x, ys[1..]);
      assert multiset(ys) == multiset{ys[0]} + multiset(ys[1..]) by {
        assert ys == [ys[0]] + ys[1..];
      }
      assert NewestFirst([ys[0]] + rest) by {
        forall j | 0 <= j < |rest| ensures rest[j].createdAt <= ys[0].createdAt {
          assert rest[j] in rest;
          if rest[j] != x {
            var k :| 0 <= k < |ys[1..]| && ys[1..][k] == rest[j];
            assert ys[k + 1] == rest[j];
          }
        }
        PrependNewest(ys[0], rest);
      }
      assert forall z :: z in [ys[0]] + rest ==> z == x || z in ys by {
        forall z | z in [ys[0]] + rest ensures z == x || z in ys {
          if z != ys[0] {
            assert z in rest;
          }
        }
      }
      [ys[0]] + rest
  }

  /** An entry no older than any of a newest-first sequence may lead it. */
  lemma PrependNewest(y: Transaction, rest: seq<Transaction>)
    requires NewestFirst(rest)
    requires forall j :: 0 <= j < |rest| ==> rest[j].createdAt <= y.createdAt
    ensures NewestFirst([y] + rest)
  {
    var r := [y] + rest;
    forall i, j | 0 <= i < j < |r| ensures r[i].createdAt >= r[j].createdAt {
      assert r[j] == rest[j - 1];
      if i > 0 {
        assert r[i] == rest[i - 1];
      }
    }
  }

  /** A stable insertion sort, newest first. */
  function SortNewestFirst(xs: seq<Transaction>): (r: seq<Transaction>)
    ensures NewestFirst(r)
    ensures multiset(r) == multiset(xs)
    ensures |r| == |xs|
  {
    if xs == [] then []
    else
      assert xs == [xs[0]] + xs[1..];
      Insert(xs[0], SortNewestFirst(xs[1..]))
  }

  /** Inserting keeps the relative order of the entries stamped at any one time. */
  lemma {:induction false} InsertKeepsTies(x: Transaction, ys: seq<Transaction>, t: int, p: Transaction -> bool)
    requires NewestFirst(ys)
    requires forall tx :: p(tx) <==> tx.createdAt == t
    ensures Filter(Insert(x, ys), p) == Filter([x] + ys, p)
    decreases |ys|
  {
    assert ([x] + ys)[1..] == ys;
    if ys == [] || ys[0].createdAt <= x.createdAt {
    } else {
      InsertKeepsTies(x, ys[1..], t, p);
      assert ([x] + ys[1..])[1..] == ys[1..];
      var rest := Insert(x, ys[1..]);
      assert ([ys[0]] + rest)[1..] == rest;
    }
  }

  /** The sort is stable: among entries stamped at the same time, the input order survives. */
  lemma {:induction false} SortKeepsTies(xs: seq<Transaction>, t: int, p: Transaction -> bool)
    requires forall tx :: p(tx) <==> tx.createdAt == t
    ensures Filter(SortNewestFirst(xs), p) == Filter(xs, p)
  {
    if xs != [] {
      SortKeepsTies(xs[1..], t, p);
      InsertKeepsTies(xs[0], SortNewestFirst(xs[1..]), t, p);
      assert ([xs[0]] + SortNewestFirst(xs[1..]))[1..] == SortNewestFirst(xs[1..]);
    }
  }

  /**
   * Cutting a newest-first sequence after `n` entries leaves out only
   * entries no newer than the last one kept.
   */
  lemma TopEntries(sorted: seq<Transaction>, n: nat)
    requires NewestFirst(sorted)
    requires n <= |sorted| && (n > 0 || sorted == [])
    ensures NewestFirst(sorted[..n])
    ensures multiset(sorted[..n]) <= multiset(sorted)
    ensures forall tx :: tx in multiset(sorted) - multiset(sorted[..n]) ==>
              n < |sorted| && tx.createdAt <= sorted[n - 1].createdAt
  {
    var top := sorted[..n];
    var rest := sorted[n..];
    assert NewestFirst(top) by {
      forall i, j | 0 <= i < j < n ensures top[i].createdAt >= top[j].createdAt {
        assert top[i] == sorted[i] && top[j] == sorted[j];
      }
    }
    assert multiset(sorted) == multiset(top) + multiset(rest) by {
      assert sorted == top + rest;
    }
    forall tx | tx in multiset(sorted) - multiset(top)
      ensures n < |sorted| && tx.createdAt <= sorted[n - 1].createdAt
    {
      assert tx in rest;
      var k :| 0 <= k < |rest| && rest[k] == tx;
      assert sorted[n + k] == tx;
    }
  }

  /**
   * The user's entries sorted newest first and cut to the page size: only
   * the user's, at most twenty, and none left out that is newer than the
   * last one listed.
   */
  function List(log: seq<Transaction>, u: UserId): (r: seq<Transaction>)
    ensures var mine := Mine(log, u);
      && |r| == (if |mine| < PageSize then |mine| else PageSize)
      && (forall tx :: tx in r ==> tx.userId == u && tx in log)
      && multiset(r) <= multiset(mine)
      && NewestFirst(r)
      && (forall tx :: tx in multiset(mine) - multiset(r) ==> |r| == PageSize && tx.createdAt <= r[PageSize - 1].createdAt)
  {
    var sorted := SortNewestFirst(Mine(log, u));
    var n := if |sorted| < PageSize then |sorted| else PageSize;
    TopEntries(sorted, n);
    var r := sorted[..n];
    assert forall tx :: tx in r ==> tx in Mine(log, u) by {
      forall tx | tx in r ensures tx in Mine(log, u) {
        assert tx in multiset(r);
        assert tx in multiset(Mine(log, u));
      }
    }
    r
  }

  /** Filtering a prefix yields a prefix of the filtered whole. */
  lemma {:induction false} FilterPrefix(xs: seq<Transaction>, n: nat, p: Transaction -> bool)
    requires n <= |xs|
    ensures Filter(xs[..n], p) <= Filter(xs, p)
    decreases n
  {
    if n > 0 {
      FilterPrefix(xs[1..], n - 1, p);
      assert xs[..n][1..] == xs[1..][..n - 1];
      assert xs[..n][0] == xs[0];
    }
  }

  /**
   * The listing is stable: the entries it shows that were stamped at any one
   * time come in the order they were logged, and are the first of the
   * user's entries stamped at that time.
   */
  lemma ListKeepsTies(log: seq<Transaction>, u: UserId, t: int, p: Transaction -> bool)
    requires forall tx :: p(tx) <==> tx.createdAt == t
    ensures Filter(List(log, u), p) <= Filter(Mine(log, u), p)
  {
    var sorted := SortNewestFirst(Mine(log, u));
    var n := if |sorted| < PageSize then |sorted| else PageSize;
    assert List(log, u) == sorted[..n];
    FilterPrefix(sorted, n, p);
    SortKeepsTies(Mine(log, u), t, p);
  }

  /** A user with at most a page of entries gets every one of them, each as often as logged. */
  lemma ListShort(log: seq<Transaction>, u: UserId)
    requires |Mine(log, u)| <= PageSize
    ensures multiset(List(log, u)) == multiset(Mine(log, u))
  {
    var sorted := SortNewestFirst(Mine(log, u));
    assert List(log, u) == sorted[..|sorted|] == sorted;
  }
}
