/**
 * The leaderboard: one pass over the log that accumulates lifetime totals
 * and this week's totals per user (two insertion-ordered `defaultdict(int)`s),
 * then the weekly ranking with medal labels for the first three rows.
 */
module Scoring {
  import opened Wrappers
  import opened Sightings
  import opened Ranking

  /** An insertion-ordered `defaultdict(int)`: users in the order first credited, and their totals. */
  datatype Tally = Tally(users: seq<string>, score: map<string, int>)

  const EmptyTally: Tally := Tally([], map[])

  /** Users are listed once each, and exactly the users with a total are listed. */
  ghost predicate WellFormed(t: Tally)
  {
    && (forall i, j :: 0 <= i < j < |t.users| ==> t.users[i] != t.users[j])
    && (forall u :: u in t.score <==> u in t.users)
  }

  /** `tally[user] += points`: a new user is appended to the order with the points as total. */
  function Credit(t: Tally, user: string, points: int): (r: Tally)
    ensures ScoreOf(r, user) == ScoreOf(t, user) + points
    ensures r.users == if user in t.score then t.users else t.users + [user]
  {
    if user in t.score then Tally(t.users, t.score[user := t.score[user] + points])
    else Tally(t.users + [user], t.score[user := points])
  }

  /** Reading a `defaultdict(int)`: a user never credited reads 0. */
  function ScoreOf(t: Tally, user: string): int
  {
    if user in t.score then t.score[user] else 0
  }

  /** `tally.items()`, in insertion order. */
  function Items(t: Tally): (r: seq<Standing>)
    ensures |r| == |t.users|
    ensures forall i :: 0 <= i < |r| ==> r[i].user == t.users[i] && r[i].score == ScoreOf(t, t.users[i])
  {
    seq(|t.users|, i requires 0 <= i < |t.users| => Standing(t.users[i], ScoreOf(t, t.users[i])))
  }

  /** The totals that crediting every entry of `entries`, in order, accumulates. */
  function TallyOf(entries: seq<Entry>): (t: Tally)
    ensures |t.users| <= |entries|
    ensures entries != [] ==> t.users != []
  {
    if entries == [] then EmptyTally
    else
      var last := entries[|entries| - 1];
      Credit(TallyOf(entries[..|entries| - 1]), last.user, last.points)
  }

  /** The entries of the log recorded in the given week, in log order. */
  function EntriesOfWeek(log: seq<Entry>, week: int): (r: seq<Entry>)
    ensures |r| <= |log|
  {
    if log == [] then []
    else
      var init, last := log[..|log| - 1], log[|log| - 1];
      EntriesOfWeek(init, week) + (if last.week == week then [last] else [])
  }

  /** The week's entries are exactly the log's entries carrying that week number. */
  lemma {:induction false} EntriesOfWeekMembers(log: seq<Entry>, week: int)
    ensures forall e :: e in EntriesOfWeek(log, week) <==> e in log && e.week == week
  {
    if log != [] {
      var init, last := log[..|log| - 1], log[|log| - 1];
      assert log == init + [last];
      EntriesOfWeekMembers(init, week);
    }
  }

  lemma EntriesOfWeekAppend(log: seq<Entry>, e: Entry, week: int)
    ensures EntriesOfWeek(log + [e], week) == EntriesOfWeek(log, week) + (if e.week == week then [e] else [])
  {
    assert (log + [e])[..|log|] == log;
  }

  /** A tally built from a log lists each user once, and lists exactly the users it has totals for. */
  lemma {:induction false} TallyWellFormed(entries: seq<Entry>)
    ensures WellFormed(TallyOf(entries))
  {
    if entries != [] {
      TallyWellFormed(entries[..|entries| - 1]);
    }
  }

  lemma TallyOfAppend(entries: seq<Entry>, e: Entry)
    ensures TallyOf(entries + [e]) == Credit(TallyOf(entries), e.user, e.points)
  {
    assert (entries + [e])[..|entries|] == entries;
  }

  /** Reference definition: the sum of `points` over the entries recorded under `user`. */
  function PointsOf(log: seq<Entry>, user: string): int
  {
    if log == [] then 0
    else (if log[0].user == user then log[0].points else 0) + PointsOf(log[1..], user)
  }

  /** Reference definition: the same sum restricted to the entries of one week. */
  function PointsInWeek(log: seq<Entry>, user: string, week: int): int
  {
    if log == [] then 0
    else (if log[0].user == user && log[0].week == week then log[0].points else 0) + PointsInWeek(log[1..], user, week)
  }

  /** Position of the first entry recorded under `user`, or |log| when there is none. */
  function FirstIndex(log: seq<Entry>, user: string): (k: nat)
    ensures k <= |log|
    ensures k < |log| ==> log[k].user == user
  {
    if log == [] then 0
    else if log[0].user == user then 0
    else 1 + FirstIndex(log[1..], user)
  }

  /** No entry of the user comes before the first one. */
  lemma {:induction false} FirstIndexIsFirst(log: seq<Entry>, user: string, k: int)
    requires 0 <= k < |log| && log[k].user == user
    ensures FirstIndex(log, user) <= k
  {
    if k > 0 && log[0].user != user {
      FirstIndexIsFirst(log[1..], user, k - 1);
    }
  }

  lemma {:induction false} PointsOfAppend(log: seq<Entry>, e: Entry, user: string)
    ensures PointsOf(log + [e], user) == PointsOf(log, user) + (if e.user == user then e.points else 0)
  {
    if log != [] {
      assert (log + [e])[1..] == log[1..] + [e];
      PointsOfAppend(log[1..], e, user);
    }
  }

  lemma {:induction false} PointsInWeekAppend(log: seq<Entry>, e: Entry, user: string, week: int)
    ensures PointsInWeek(log + [e], user, week)
         == PointsInWeek(log, user, week) + (if e.user == user && e.week == week then e.points else 0)
  {
    if log != [] {
      assert (log + [e])[1..] == log[1..] + [e];
      PointsInWeekAppend(log[1..], e, user, week);
    }
  }

  lemma {:induction false} FirstIndexAppend(log: seq<Entry>, e: Entry, user: string)
    ensures FirstIndex(log + [e], user)
         == if FirstIndex(log, user) < |log| then FirstIndex(log, user)
            else if e.user == user then |log| else |log| + 1
  {
    if log != [] {
      assert (log + [e])[1..] == log[1..] + [e];
      FirstIndexAppend(log[1..], e, user);
    }
  }

  /** Score conservation: a user's total in the tally is the sum of the points of that user's entries. */
  lemma {:induction false} TallyConservesPoints(entries: seq<Entry>, user: string)
    ensures ScoreOf(TallyOf(entries), user) == PointsOf(entries, user)
  {
    if entries != [] {
      var init, last := entries[..|entries| - 1], entries[|entries| - 1];
      assert entries == init + [last];
      TallyConservesPoints(init, user);
      PointsOfAppend(init, last, user);
    }
  }

  /**
   * The tally lists exactly the users that have entries, in the order of
   * their first entry (a dict keeps insertion order).
   */
  lemma {:induction false} TallyListsUsersInFirstSeenOrder(entries: seq<Entry>)
    ensures forall u :: u in TallyOf(entries).users <==> FirstIndex(entries, u) < |entries|
    ensures forall i, j :: 0 <= i < j < |TallyOf(entries).users| ==>
              FirstIndex(entries, TallyOf(entries).users[i]) < FirstIndex(entries, TallyOf(entries).users[j])
  {
    if entries != [] {
      var init, last := entries[..|entries| - 1], entries[|entries| - 1];
      assert entries == init + [last];
      TallyListsUsersInFirstSeenOrder(init);
      TallyWellFormed(init);
      TallyOfAppend(init, last);
      FirstSeenStep(init, last, TallyOf(init).users, TallyOf(entries).users);
    }
  }

  /** One more entry keeps a first-seen listing of users first-seen. */
  lemma FirstSeenStep(init: seq<Entry>, last: Entry, before: seq<string>, after: seq<string>)
    requires forall u :: u in before <==> FirstIndex(init, u) < |init|
    requires forall i, j :: 0 <= i < j < |before| ==> FirstIndex(init, before[i]) < FirstIndex(init, before[j])
    requires after == if last.user in before then before else before + [last.user]
    ensures forall u :: u in after <==> FirstIndex(init + [last], u) < |init| + 1
    ensures forall i, j :: 0 <= i < j < |after| ==>
              FirstIndex(init + [last], after[i]) < FirstIndex(init + [last], after[j])
  {
    var entries := init + [last];
    forall u ensures u in after <==> FirstIndex(entries, u) < |init| + 1 {
      FirstIndexAppend(init, last, u);
    }
    forall i, j | 0 <= i < j < |after|
      ensures FirstIndex(entries, after[i]) < FirstIndex(entries, after[j])
    {
      FirstIndexAppend(init, last, after[i]);
      FirstIndexAppend(init, last, after[j]);
      assert after[i] == before[i];
      if j < |before| {
        assert after[j] == before[j];
      }
    }
  }

  lemma {:induction false} WeekEntriesSum(log: seq<Entry>, user: string, week: int)
    ensures PointsOf(EntriesOfWeek(log, week), user) == PointsInWeek(log, user, week)
  {
    if log != [] {
      var init, last := log[..|log| - 1], log[|log| - 1];
      assert log == init + [last];
      WeekEntriesSum(init, user, week);
      PointsInWeekAppend(init, last, user, week);
      if last.week == week {
        PointsOfAppend(EntriesOfWeek(init, week), last, user);
      } else {
        assert EntriesOfWeek(log, week) == EntriesOfWeek(init, week);
      }
    }
  }

  /** The weekly tally holds, for each user, the sum of that user's points in the week. */
  lemma WeeklyScoreIsWeekSum(log: seq<Entry>, user: string, week: int)
    ensures ScoreOf(TallyOf(EntriesOfWeek(log, week)), user) == PointsInWeek(log, user, week)
  {
    TallyConservesPoints(EntriesOfWeek(log, week), user);
    WeekEntriesSum(log, user, week);
  }

  lemma {:induction false} WeekSumWithinLifetime(log: seq<Entry>, user: string, week: int)
    requires forall i :: 0 <= i < |log| ==> log[i].points >= 0
    ensures 0 <= PointsInWeek(log, user, week) <= PointsOf(log, user)
  {
    if log != [] {
      WeekSumWithinLifetime(log[1..], user, week);
    }
  }

  /**
   * With the non-negative points the catalog hands out, a weekly total is
   * never negative and never exceeds the same user's lifetime total.
   */
  lemma WeeklyWithinLifetime(log: seq<Entry>, user: string, week: int)
    requires forall i :: 0 <= i < |log| ==> log[i].points >= 0
    ensures 0 <= ScoreOf(TallyOf(EntriesOfWeek(log, week)), user) <= ScoreOf(TallyOf(log), user)
  {
    WeeklyScoreIsWeekSum(log, user, week);
    TallyConservesPoints(log, user);
    WeekSumWithinLifetime(log, user, week);
  }

  /** One more entry credits the lifetime totals, and the weekly totals when it is this week's. */
  lemma TallyStep(prefix: seq<Entry>, entry: Entry, currentWeek: int)
    ensures TallyOf(prefix + [entry]) == Credit(TallyOf(prefix), entry.user, entry.points)
    ensures TallyOf(EntriesOfWeek(prefix + [entry], currentWeek))
         == if entry.week == currentWeek then Credit(TallyOf(EntriesOfWeek(prefix, currentWeek)), entry.user, entry.points)
            else TallyOf(EntriesOfWeek(prefix, currentWeek))
  {
    TallyOfAppend(prefix, entry);
    EntriesOfWeekAppend(prefix, entry, currentWeek);
    if entry.week == currentWeek {
      TallyOfAppend(EntriesOfWeek(prefix, currentWeek), entry);
    } else {
      assert EntriesOfWeek(prefix + [entry], currentWeek) == EntriesOfWeek(prefix, currentWeek);
    }
  }

  /** The leaderboard loop: one pass crediting every entry to the lifetime totals and, when it is this week's, to the weekly totals. */
  method ComputeScores(log: seq<Entry>, currentWeek: int) returns (weekly: Tally, lifetime: Tally)
    ensures lifetime == TallyOf(log)
    ensures weekly == TallyOf(EntriesOfWeek(log, currentWeek))
  {
    weekly, lifetime := EmptyTally, EmptyTally;
    for i := 0 to |log|
      invariant lifetime == TallyOf(log[..i])
      invariant weekly == TallyOf(EntriesOfWeek(log[..i], currentWeek))
    {
      var entry := log[i];
      assert log[..i + 1] == log[..i] + [entry];
      TallyStep(log[..i], entry, currentWeek);
      lifetime := Credit(lifetime, entry.user, entry.points);
      if entry.week == currentWeek {
        weekly := Credit(weekly, entry.user, entry.points);
      }
    }
    assert log[..|log|] == log;
  }

  /** The three podium places, in rank order. */
  datatype Place = Gold | Silver | Bronze

  /** `["🥇", "🥈", "🥉"][i]` for the rows that have one. */
  function PlaceAt(i: nat): (p: Option<Place>)
    ensures p.Some? <==> i < 3
  {
    if i == 0 then Some(Gold) else if i == 1 then Some(Silver) else if i == 2 then Some(Bronze) else None
  }

  /** One displayed leaderboard line: `{position}. {medal} {user} — {score} pts`. */
  datatype Row = Row(position: nat, medal: Option<Place>, user: string, score: int)

  /** `enumerate(sorted_weekly, start=1)` with a medal label on positions 1 to 3 only. */
  function LeaderboardRows(ranked: seq<Standing>): (rows: seq<Row>)
    ensures |rows| == |ranked|
    ensures forall i :: 0 <= i < |rows| ==>
              rows[i].position == i + 1 && rows[i].user == ranked[i].user && rows[i].score == ranked[i].score
    ensures forall i :: 0 <= i < |rows| ==> (rows[i].medal.Some? <==> rows[i].position <= 3)
    ensures forall i, j :: 0 <= i < j < |rows| && rows[i].medal.Some? ==> rows[i].medal != rows[j].medal
  {
    seq(|ranked|, i requires 0 <= i < |ranked| => Row(i + 1, PlaceAt(i), ranked[i].user, ranked[i].score))
  }

  /**
   * The weekly leaderboard: one row per user with an entry this week, each
   * showing that user's points this week, highest first.
   */
  function WeeklyLeaderboard(log: seq<Entry>, currentWeek: int): (rows: seq<Row>)
    ensures forall i, j :: 0 <= i < j < |rows| ==> rows[i].score >= rows[j].score && rows[i].user != rows[j].user
    ensures forall i :: 0 <= i < |rows| ==> rows[i].score == PointsInWeek(log, rows[i].user, currentWeek)
    ensures (set i | 0 <= i < |rows| :: rows[i].user) == (set e | e in log && e.week == currentWeek :: e.user)
  {
    var weekly := TallyOf(EntriesOfWeek(log, currentWeek));
    var ranked := RankByScore(Items(weekly));
    RankedWeek(log, currentWeek);
    LeaderboardRows(ranked)
  }

  /** The ranked weekly items: distinct users, by descending score, each with the week's sum, covering the week's users. */
  lemma RankedWeek(log: seq<Entry>, currentWeek: int)
    ensures var ranked := RankByScore(Items(TallyOf(EntriesOfWeek(log, currentWeek))));
      && DistinctUsers(ranked)
      && (forall i :: 0 <= i < |ranked| ==> ranked[i].score == PointsInWeek(log, ranked[i].user, currentWeek))
      && (set i | 0 <= i < |ranked| :: ranked[i].user) == (set e | e in log && e.week == currentWeek :: e.user)
  {
    var inWeek := EntriesOfWeek(log, currentWeek);
    var weekly := TallyOf(inWeek);
    var items := Items(weekly);
    var ranked := RankByScore(items);
    TallyWellFormed(inWeek);
    RankKeepsUsersDistinct(items);
    forall k | 0 <= k < |ranked|
      ensures ranked[k].score == PointsInWeek(log, ranked[k].user, currentWeek)
    {
      assert ranked[k] in multiset(items);
      WeeklyScoreIsWeekSum(log, ranked[k].user, currentWeek);
    }
    RankedWeekUsers(log, currentWeek, inWeek, weekly, items, ranked);
  }

  lemma RankedWeekUsers(log: seq<Entry>, currentWeek: int, inWeek: seq<Entry>, weekly: Tally,
                        items: seq<Standing>, ranked: seq<Standing>)
    requires inWeek == EntriesOfWeek(log, currentWeek) && weekly == TallyOf(inWeek)
    requires items == Items(weekly) && ranked == RankByScore(items)
    ensures (set i | 0 <= i < |ranked| :: ranked[i].user) == (set e | e in log && e.week == currentWeek :: e.user)
  {
    var listed := set i | 0 <= i < |ranked| :: ranked[i].user;
    var seen := set e | e in log && e.week == currentWeek :: e.user;
    assert seen <= listed by {
      forall u | u in seen ensures u in listed {
        var e :| e in log && e.week == currentWeek && e.user == u;
        var i := SeenUserIsRanked(log, currentWeek, inWeek, weekly, items, ranked, e);
      }
    }
    assert listed <= seen by {
      forall u | u in listed ensures u in seen {
        var i :| 0 <= i < |ranked| && ranked[i].user == u;
        var e := RankedUserWasSeen(log, currentWeek, inWeek, weekly, items, ranked, i);
      }
    }
  }

  /** The user of an entry of the week is listed in the week's tally. */
  lemma WeekUserIsTallied(log: seq<Entry>, currentWeek: int, e: Entry)
    requires e in log && e.week == currentWeek
    ensures e.user in TallyOf(EntriesOfWeek(log, currentWeek)).users
  {
    var inWeek := EntriesOfWeek(log, currentWeek);
    EntriesOfWeekMembers(log, currentWeek);
    assert e in inWeek;
    var k :| 0 <= k < |inWeek| && inWeek[k] == e;
    FirstIndexIsFirst(inWeek, e.user, k);
    TallyListsUsersInFirstSeenOrder(inWeek);
  }

  lemma SeenUserIsRanked(log: seq<Entry>, currentWeek: int, inWeek: seq<Entry>, weekly: Tally,
                         items: seq<Standing>, ranked: seq<Standing>, e: Entry) returns (i: nat)
    requires inWeek == EntriesOfWeek(log, currentWeek) && weekly == TallyOf(inWeek)
    requires items == Items(weekly) && ranked == RankByScore(items)
    requires e in log && e.week == currentWeek
    ensures i < |ranked| && ranked[i].user == e.user
  {
    WeekUserIsTallied(log, currentWeek, e);
    var m :| 0 <= m < |weekly.users| && weekly.users[m] == e.user;
    assert items[m] in multiset(ranked);
    i :| 0 <= i < |ranked| && ranked[i] == items[m];
  }

  lemma RankedUserWasSeen(log: seq<Entry>, currentWeek: int, inWeek: seq<Entry>, weekly: Tally,
                          items: seq<Standing>, ranked: seq<Standing>, i: nat) returns (e: Entry)
    requires inWeek == EntriesOfWeek(log, currentWeek) && weekly == TallyOf(inWeek)
    requires items == Items(weekly) && ranked == RankByScore(items)
    requires i < |ranked|
    ensures e in log && e.week == currentWeek && e.user == ranked[i].user
  {
    assert ranked[i] in multiset(items);
    var m :| 0 <= m < |items| && items[m] == ranked[i];
    assert FirstIndex(inWeek, ranked[i].user) < |inWeek| by {
      TallyListsUsersInFirstSeenOrder(inWeek);
      assert weekly.users[m] in weekly.users;
    }
    e := inWeek[FirstIndex(inWeek, ranked[i].user)];
    assert e in inWeek;
    EntriesOfWeekMembers(log, currentWeek);
  }

  /**
   * Users tied on points keep the order in which they first logged a bird
   * that week: the sort is stable and the tally lists users first-seen first.
   */
  lemma WeeklyTiesInFirstSeenOrder(log: seq<Entry>, currentWeek: int)
    ensures var rows := WeeklyLeaderboard(log, currentWeek);
      var inWeek := EntriesOfWeek(log, currentWeek);
      forall i, j :: 0 <= i < j < |rows| && rows[i].score == rows[j].score ==>
        FirstIndex(inWeek, rows[i].user) < FirstIndex(inWeek, rows[j].user)
  {
    var inWeek := EntriesOfWeek(log, currentWeek);
    var items := Items(TallyOf(inWeek));
    var key := u => FirstIndex(inWeek, u);
    TallyListsUsersInFirstSeenOrder(inWeek);
    assert forall i, j :: 0 <= i < j < |items| ==> key(items[i].user) < key(items[j].user);
    RankOrdersTiesByKey(items, key);
    var ranked := RankByScore(items);
    assert WeeklyLeaderboard(log, currentWeek) == LeaderboardRows(ranked);
  }
}
