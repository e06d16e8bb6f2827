/**
 * `sorted(scores.items(), key=lambda x: x[1], reverse=True)`: Python's sort is
 * stable, also with `reverse=True`, so the ranking is by score, highest
 * first, and pairs with equal scores keep the order they had in the dict.
 */
module Ranking {

  /** One `(user, score)` pair of a score dict's `.items()`. */
  datatype Standing = Standing(user: string, score: int)

  ghost predicate SortedByScore(s: seq<Standing>)
  {
    forall i, j :: 0 <= i < j < |s| ==> s[i].score >= s[j].score
  }

  /** No user is ranked twice. */
  ghost predicate DistinctUsers(s: seq<Standing>)
  {
    forall i, j :: 0 <= i < j < |s| ==> s[i].user != s[j].user
  }

  /** A ranking with distinct users names as many users as it has pairs. */
  lemma {:induction false} DistinctUsersCount(s: seq<Standing>)
    requires DistinctUsers(s)
    ensures |set i | 0 <= i < |s| :: s[i].user| == |s|
  {
    if s != [] {
      var init := s[..|s| - 1];
      DistinctUsersCount(init);
      var before := set i | 0 <= i < |init| :: init[i].user;
      var after := set i | 0 <= i < |s| :: s[i].user;
      assert after == before + {s[|s| - 1].user} by {
        forall u | u in after ensures u in before + {s[|s| - 1].user} {
          var i :| 0 <= i < |s| && s[i].user == u;
          if i < |init| { assert init[i] == s[i]; }
        }
        forall u | u in before ensures u in after {
          var i :| 0 <= i < |init| && init[i].user == u;
          assert s[i] == init[i];
        }
      }
      assert s[|s| - 1].user !in before;
    }
  }

  /** The pairs of `s` that have the given score, in their order in `s`. */
  function WithScore(s: seq<Standing>, score: int): seq<Standing>
  {
    if s == [] then []
    else (if s[0].score == score then [s[0]] else []) + WithScore(s[1..], score)
  }

  /** Places `x` in a ranking in front of every pair it does not score below. */
  function Insert(x: Standing, ranked: seq<Standing>): (r: seq<Standing>)
    ensures multiset(r) == multiset(ranked) + multiset{x}
  {
    if ranked == [] || x.score >= ranked[0].score then [x] + ranked
    else
      assert ranked == [ranked[0]] + ranked[1..];
      [ranked[0]] + Insert(x, ranked[1..])
  }

  /** Inserting into a ranking yields a ranking. */
  lemma {:induction false} InsertSorted(x: Standing, ranked: seq<Standing>)
    requires SortedByScore(ranked)
    ensures SortedByScore(Insert(x, ranked))
  {
    if ranked == [] || x.score >= ranked[0].score {
      forall y | y in ranked ensures y.score <= x.score {
        var m :| 0 <= m < |ranked| && ranked[m] == y;
      }
      ConsSorted(x, ranked);
    } else {
      var top, tail := ranked[0], ranked[1..];
      SortedTail(ranked);
      InsertSorted(x, tail);
      InsertMembers(x, tail);
      ConsSorted(top, Insert(x, tail));
    }
  }

  /** The tail of a descending ranking is descending and scores no higher than its head. */
  lemma SortedTail(s: seq<Standing>)
    requires s != [] && SortedByScore(s)
    ensures SortedByScore(s[1..])
    ensures forall y :: y in s[1..] ==> y.score <= s[0].score
  {
    forall i, j | 0 <= i < j < |s[1..]| ensures s[1..][i].score >= s[1..][j].score {
      assert s[1..][i] == s[i + 1] && s[1..][j] == s[j + 1];
    }
    forall y | y in s[1..] ensures y.score <= s[0].score {
      var m :| 0 <= m < |s[1..]| && s[1..][m] == y;
      assert s[m + 1] == y;
    }
  }

  /** A pair scoring at least as much as every pair of a descending ranking can head it. */
  lemma ConsSorted(top: Standing, rest: seq<Standing>)
    requires SortedByScore(rest)
    requires forall y :: y in rest ==> y.score <= top.score
    ensures SortedByScore([top] + rest)
  {
    var r := [top] + rest;
    forall i, j | 0 <= i < j < |r| ensures r[i].score >= r[j].score {
      assert r[j] == rest[j - 1];
      if i > 0 {
        assert r[i] == rest[i - 1];
      }
    }
  }

  /** The leaderboard order: a stable sort by descending score. */
  function RankByScore(items: seq<Standing>): (r: seq<Standing>)
    ensures multiset(r) == multiset(items)
    ensures |r| == |items|
    ensures SortedByScore(r)
  {
    if items == [] then []
    else
      assert items == [items[0]] + items[1..];
      var rest := RankByScore(items[1..]);
      InsertSorted(items[0], rest);
      Insert(items[0], rest)
  }

  /** The pairs of an insertion are the inserted pair and the pairs of the ranking. */
  lemma InsertMembers(x: Standing, ranked: seq<Standing>)
    ensures forall y :: y in Insert(x, ranked) <==> y == x || y in ranked
  {
    var r := Insert(x, ranked);
    forall y ensures y in r <==> y == x || y in ranked {
      assert y in r <==> y in multiset(r);
      assert y in ranked <==> y in multiset(ranked);
    }
  }

  lemma {:induction false} InsertKeepsUsersDistinct(x: Standing, ranked: seq<Standing>)
    requires DistinctUsers(ranked)
    requires forall k :: 0 <= k < |ranked| ==> ranked[k].user != x.user
    ensures DistinctUsers(Insert(x, ranked))
  {
    if ranked != [] && x.score < ranked[0].score {
      var tail := ranked[1..];
      InsertKeepsUsersDistinct(x, tail);
      var rest := Insert(x, tail);
      InsertMembers(x, tail);
      forall k | 0 <= k < |rest| ensures rest[k].user != ranked[0].user {
        assert rest[k] in rest;
        if rest[k] != x {
          var m :| 0 <= m < |tail| && tail[m] == rest[k];
          assert tail[m] == ranked[m + 1];
        }
      }
      var r := [ranked[0]] + rest;
      forall i, j | 0 <= i < j < |r| ensures r[i].user != r[j].user {
        if i == 0 {
          assert r[j] == rest[j - 1];
        } else {
          assert r[i] == rest[i - 1] && r[j] == rest[j - 1];
        }
      }
    }
  }

  /** Ranking never lists a user twice when the input does not. */
  lemma {:induction false} RankKeepsUsersDistinct(items: seq<Standing>)
    requires DistinctUsers(items)
    ensures DistinctUsers(RankByScore(items))
  {
    if items != [] {
      var tail := items[1..];
      assert DistinctUsers(tail) by {
        forall i, j | 0 <= i < j < |tail| ensures tail[i].user != tail[j].user {
          assert tail[i] == items[i + 1] && tail[j] == items[j + 1];
        }
      }
      RankKeepsUsersDistinct(tail);
      var rest := RankByScore(tail);
      forall k | 0 <= k < |rest| ensures rest[k].user != items[0].user {
        assert rest[k] in multiset(tail);
        var m :| 0 <= m < |tail| && tail[m] == rest[k];
        assert tail[m] == items[m + 1];
      }
      InsertKeepsUsersDistinct(items[0], rest);
    }
  }

  /** Inserting into a ranking keeps, among equal scores, the inserted pair first. */
  lemma {:induction false} InsertStable(x: Standing, ranked: seq<Standing>, score: int)
    requires SortedByScore(ranked)
    ensures WithScore(Insert(x, ranked), score) == WithScore([x] + ranked, score)
  {
    if ranked != [] && x.score < ranked[0].score {
      var rest := ranked[1..];
      InsertStable(x, rest, score);
      calc {
        WithScore(Insert(x, ranked), score);
        { assert ([ranked[0]] + Insert(x, rest))[1..] == Insert(x, rest); }
        (if ranked[0].score == score then [ranked[0]] else []) + WithScore(Insert(x, rest), score);
        (if ranked[0].score == score then [ranked[0]] else []) + WithScore([x] + rest, score);
        { assert ([x] + rest)[1..] == rest; }
        (if ranked[0].score == score then [ranked[0]] else [])
          + (if x.score == score then [x] else []) + WithScore(rest, score);
        { assert ([x] + ranked)[1..] == ranked; }
        WithScore([x] + ranked, score);
      }
    }
  }

  /**
   * The sort is stable: for every score, the pairs with that score appear in
   * the ranking in exactly the order they have in the input.
   */
  lemma {:induction false} RankIsStable(items: seq<Standing>, score: int)
    ensures WithScore(RankByScore(items), score) == WithScore(items, score)
  {
    if items != [] {
      RankIsStable(items[1..], score);
      InsertStable(items[0], RankByScore(items[1..]), score);
      assert ([items[0]] + RankByScore(items[1..]))[1..] == RankByScore(items[1..]);
    }
  }

  /** A list already sorted by descending score is its own ranking. */
  lemma {:induction false} RankSortedIsIdentity(items: seq<Standing>)
    requires SortedByScore(items)
    ensures RankByScore(items) == items
  {
    if items != [] {
      RankSortedIsIdentity(items[1..]);
      assert [items[0]] + items[1..] == items;
    }
  }

  /** Among equal scores, users come in increasing order of `key`. */
  ghost predicate TiesOrderedBy(s: seq<Standing>, key: string -> int)
  {
    forall i, j :: 0 <= i < j < |s| && s[i].score == s[j].score ==> key(s[i].user) < key(s[j].user)
  }

  /** The tail of a ranking with ties in key order keeps them so, and its ties with the head come after it. */
  lemma TiesTail(s: seq<Standing>, key: string -> int)
    requires s != [] && TiesOrderedBy(s, key)
    ensures TiesOrderedBy(s[1..], key)
    ensures forall y :: y in s[1..] && y.score == s[0].score ==> key(s[0].user) < key(y.user)
  {
    forall i, j | 0 <= i < j < |s[1..]| && s[1..][i].score == s[1..][j].score
      ensures key(s[1..][i].user) < key(s[1..][j].user)
    {
      assert s[1..][i] == s[i + 1] && s[1..][j] == s[j + 1];
    }
    forall y | y in s[1..] && y.score == s[0].score ensures key(s[0].user) < key(y.user) {
      var m :| 0 <= m < |s[1..]| && s[1..][m] == y;
      assert s[m + 1] == y;
    }
  }

  /** A pair whose key precedes the key of every pair it ties with can head a ranking with ties in key order. */
  lemma ConsTies(top: Standing, rest: seq<Standing>, key: string -> int)
    requires TiesOrderedBy(rest, key)
    requires forall y :: y in rest && y.score == top.score ==> key(top.user) < key(y.user)
    ensures TiesOrderedBy([top] + rest, key)
  {
    var r := [top] + rest;
    forall i, j | 0 <= i < j < |r| && r[i].score == r[j].score
      ensures key(r[i].user) < key(r[j].user)
    {
      assert r[j] == rest[j - 1];
      if i > 0 {
        assert r[i] == rest[i - 1];
      }
    }
  }

  /** Inserting a pair whose key precedes every ranked key keeps ties in key order. */
  lemma {:induction false} InsertKeepsTieOrder(x: Standing, ranked: seq<Standing>, key: string -> int)
    requires TiesOrderedBy(ranked, key)
    requires forall y :: y in ranked ==> key(x.user) < key(y.user)
    ensures TiesOrderedBy(Insert(x, ranked), key)
  {
    if ranked == [] || x.score >= ranked[0].score {
      ConsTies(x, ranked, key);
    } else {
      var top, tail := ranked[0], ranked[1..];
      TiesTail(ranked, key);
      InsertKeepsTieOrder(x, tail, key);
      InsertMembers(x, tail);
      ConsTies(top, Insert(x, tail), key);
    }
  }

  /**
   * When the input lists users in increasing `key` order, the ranking lists
   * users with equal scores in increasing `key` order.
   */
  lemma {:induction false} RankOrdersTiesByKey(items: seq<Standing>, key: string -> int)
    requires forall i, j :: 0 <= i < j < |items| ==> key(items[i].user) < key(items[j].user)
    ensures TiesOrderedBy(RankByScore(items), key)
  {
    if items != [] {
      var rest := RankByScore(items[1..]);
      RankOrdersTiesByKey(items[1..], key);
      forall y | y in rest ensures key(items[0].user) < key(y.user) {
        assert y in multiset(items[1..]);
        var m :| 0 <= m < |items[1..]| && items[1..][m] == y;
        assert items[m + 1] == y;
      }
      InsertKeepsTieOrder(items[0], rest, key);
    }
  }
}
