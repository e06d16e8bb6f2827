/**
 * Worked examples on small logs: a repeated sighting in one week and the
 * medals of a single closed week.
 */
module Scenarios {
  import opened Wrappers
  import opened Text
  import opened Catalog
  import opened Sightings
  import opened Ranking
  import opened Scoring
  import opened Medals

  /** alice and bob each log a Blue Jay in week 1; alice's second Blue Jay that week is turned away. */
  lemma RepeatedBlueJay(timestamp: string)
    ensures
      var log := [Entry("alice", "Blue Jay", 10, 1, "t1"), Entry("bob", "Blue Jay", 10, 1, "t2")];
      && AfterConfirm(log, "alice", "Blue Jay", 1, 1, timestamp) == log
      && ScoreOf(TallyOf(EntriesOfWeek(log, 1)), "alice") == 10
      && ScoreOf(TallyOf(EntriesOfWeek(log, 1)), "bob") == 10
  {
    var log := [Entry("alice", "Blue Jay", 10, 1, "t1"), Entry("bob", "Blue Jay", 10, 1, "t2")];
    assert SameSighting(log[0], "alice", "Blue Jay", 1);
    assert log[..1] == [log[0]];
    assert EntriesOfWeek(log, 1) == log;
  }

  /** Week 1, closed once week 2 has begun: alice 30, bob 20, carol 10. */
  const WeekOneLog: seq<Entry> :=
    [Entry("alice", "Blue Jay", 30, 1, "t1"), Entry("bob", "Blue Jay", 20, 1, "t2"), Entry("carol", "Blue Jay", 10, 1, "t3")]

  const WeekOneStandings: seq<Standing> := [Standing("alice", 30), Standing("bob", 20), Standing("carol", 10)]

  lemma WeekOneGrouping()
    ensures WeeksOf(WeekOneLog) == [1]
    ensures EntriesOfWeek(WeekOneLog, 1) == WeekOneLog
  {
    var log := WeekOneLog;
    assert log[..2] == [log[0], log[1]];
    assert [log[0], log[1]][..1] == [log[0]];
    assert [log[0]][..0] == [];
    assert WeeksOf([log[0]]) == [1];
    assert WeeksOf([log[0], log[1]]) == [1];
  }

  lemma WeekOneTotals()
    ensures TallyOf(WeekOneLog) == Tally(["alice", "bob", "carol"], map["alice" := 30, "bob" := 20, "carol" := 10])
  {
    var log := WeekOneLog;
    assert log[..2] == [log[0], log[1]];
    assert [log[0], log[1]][..1] == [log[0]];
    assert [log[0]][..0] == [];
    assert TallyOf([log[0]]) == Tally(["alice"], map["alice" := 30]);
    assert TallyOf([log[0], log[1]]) == Tally(["alice", "bob"], map["alice" := 30, "bob" := 20]);
  }

  lemma WeekOneRanking()
    ensures WeekRanking(WeekOneLog, 1) == WeekOneStandings
  {
    assert EntriesOfWeek(WeekOneLog, 1) == WeekOneLog by { WeekOneGrouping(); }
    assert Items(TallyOf(WeekOneLog)) == WeekOneStandings by { WeekOneTotals(); }
    RankSortedIsIdentity(WeekOneStandings);
  }

  lemma WeekOneNames()
    ensures PodiumAward(WeekOneStandings, "alice") == MedalCount(1, 0, 0)
    ensures PodiumAward(WeekOneStandings, "dave") == NoMedals
  {
    assert Lower("dave")[0] == 'd' && Lower("alice")[0] == 'a';
    assert Lower("bob")[0] == 'b' && Lower("carol")[0] == 'c';
  }

  lemma WeekOneMedals(user: string)
    ensures LifetimeMedals(WeekOneLog, user, 2) == PodiumAward(WeekOneStandings, user)
  {
    var award := PodiumAward(WeekOneStandings, user);
    assert WeeksOf(WeekOneLog) == [1] by { WeekOneGrouping(); }
    assert WeekRanking(WeekOneLog, 1) == WeekOneStandings by { WeekOneRanking(); }
    assert Podium(WeekOneStandings) == WeekOneStandings;
    assert MedalsOver(WeekOneLog, [1][..0], user, 2) == NoMedals by { assert [1][..0] == []; }
    assert MedalsOver(WeekOneLog, [1], user, 2) == award;
  }

  /** The leader of a closed week holds one gold; a user without entries holds nothing. */
  lemma SingleClosedWeek()
    ensures LifetimeMedals(WeekOneLog, "alice", 2) == MedalCount(1, 0, 0)
    ensures LifetimeMedals(WeekOneLog, "dave", 2) == NoMedals
  {
    WeekOneMedals("alice");
    WeekOneMedals("dave");
    WeekOneNames();
  }
}
