/**
 * Lifetime medals (`_compute_lifetime_medals_uncached`): group the log's
 * points by week and then by user, skip the week still in progress, rank
 * every other week by score and credit its first three places to the
 * queried user when the names match up to case.
 */
module Medals {
  import opened Text
  import opened Sightings
  import opened Ranking
  import opened Scoring

  /** The `{"🥇": …, "🥈": …, "🥉": …}` counters. */
  datatype MedalCount = MedalCount(gold: nat, silver: nat, bronze: nat)

  const NoMedals: MedalCount := MedalCount(0, 0, 0)

  function Plus(a: MedalCount, b: MedalCount): MedalCount
  {
    MedalCount(a.gold + b.gold, a.silver + b.silver, a.bronze + b.bronze)
  }

  /** `medals[["🥇", "🥈", "🥉"][i]] += 1`. */
  function Bump(m: MedalCount, i: nat): MedalCount
    requires i < 3
  {
    if i == 0 then m.(gold := m.gold + 1)
    else if i == 1 then m.(silver := m.silver + 1)
    else m.(bronze := m.bronze + 1)
  }

  /** The week numbers of the log, each once, in the order first seen (the keys of the outer dict). */
  function WeeksOf(log: seq<Entry>): (weeks: seq<int>)
    ensures |weeks| <= |log|
    ensures log != [] ==> weeks != []
  {
    if log == [] then []
    else
      var weeks, last := WeeksOf(log[..|log| - 1]), log[|log| - 1];
      if last.week in weeks then weeks else weeks + [last.week]
  }

  /** One week's totals, ranked by descending score with first-seen order among ties. */
  function WeekRanking(log: seq<Entry>, week: int): (ranked: seq<Standing>)
    ensures SortedByScore(ranked) && DistinctUsers(ranked)
  {
    var items := Items(TallyOf(EntriesOfWeek(log, week)));
    TallyWellFormed(EntriesOfWeek(log, week));
    RankKeepsUsersDistinct(items);
    RankByScore(items)
  }

  /** `ranked[:3]`. */
  function Podium(ranked: seq<Standing>): (p: seq<Standing>)
    ensures |p| == if |ranked| < 3 then |ranked| else 3
    ensures p <= ranked
  {
    ranked[..if |ranked| < 3 then |ranked| else 3]
  }

  /** The places among the first three of `podium` whose user is `user` up to case. */
  function PodiumAward(podium: seq<Standing>, user: string): (m: MedalCount)
    ensures m.gold <= 1 && m.silver <= 1 && m.bronze <= 1
  {
    MedalCount(
      if |podium| > 0 && Lower(podium[0].user) == Lower(user) then 1 else 0,
      if |podium| > 1 && Lower(podium[1].user) == Lower(user) then 1 else 0,
      if |podium| > 2 && Lower(podium[2].user) == Lower(user) then 1 else 0)
  }

  /** How many of `weeks` are closed, that is, not the current week. */
  function ClosedCount(weeks: seq<int>, currentWeek: int): nat
  {
    if weeks == [] then 0
    else ClosedCount(weeks[..|weeks| - 1], currentWeek) + (if weeks[|weeks| - 1] == currentWeek then 0 else 1)
  }

  /** Medals credited to `user` over the given weeks, the current week contributing nothing. */
  function MedalsOver(log: seq<Entry>, weeks: seq<int>, user: string, currentWeek: int): (m: MedalCount)
    ensures m.gold <= ClosedCount(weeks, currentWeek)
    ensures m.silver <= ClosedCount(weeks, currentWeek)
    ensures m.bronze <= ClosedCount(weeks, currentWeek)
  {
    if weeks == [] then NoMedals
    else
      var earlier, week := MedalsOver(log, weeks[..|weeks| - 1], user, currentWeek), weeks[|weeks| - 1];
      if week == currentWeek then earlier
      else Plus(earlier, PodiumAward(Podium(WeekRanking(log, week)), user))
  }

  /**
   * The medal tally of `user`: one podium per week of the log other than
   * the current one; at most one gold, one silver and one bronze per
   * closed week.
   */
  function LifetimeMedals(log: seq<Entry>, user: string, currentWeek: int): (m: MedalCount)
    ensures log == [] ==> m == NoMedals
    ensures m.gold <= ClosedCount(WeeksOf(log), currentWeek)
    ensures m.silver <= ClosedCount(WeeksOf(log), currentWeek)
    ensures m.bronze <= ClosedCount(WeeksOf(log), currentWeek)
  {
    MedalsOver(log, WeeksOf(log), user, currentWeek)
  }

  lemma MedalsOverSnoc(log: seq<Entry>, weeks: seq<int>, week: int, user: string, currentWeek: int)
    ensures MedalsOver(log, weeks + [week], user, currentWeek)
         == if week == currentWeek then MedalsOver(log, weeks, user, currentWeek)
            else Plus(MedalsOver(log, weeks, user, currentWeek), PodiumAward(Podium(WeekRanking(log, week)), user))
  {
    assert (weeks + [week])[..|weeks|] == weeks;
  }

  /** A week number is listed exactly when some entry carries it, and none is listed twice. */
  lemma {:induction false} WeeksOfMembers(log: seq<Entry>)
    ensures forall w :: w in WeeksOf(log) <==> exists e :: e in log && e.week == w
    ensures forall i, j :: 0 <= i < j < |WeeksOf(log)| ==> WeeksOf(log)[i] != WeeksOf(log)[j]
  {
    if log != [] {
      var init, last := log[..|log| - 1], log[|log| - 1];
      assert log == init + [last];
      WeeksOfMembers(init);
    }
  }

  /** A week the log does not list has no entries. */
  lemma {:induction false} UnlistedWeekIsEmpty(log: seq<Entry>, week: int)
    requires week !in WeeksOf(log)
    ensures EntriesOfWeek(log, week) == []
  {
    if log != [] {
      UnlistedWeekIsEmpty(log[..|log| - 1], week);
    }
  }

  /** `weeks` and `weekly` are the nested score dict of `entries`: weeks in first-seen order, each with its totals. */
  ghost predicate GroupedByWeek(entries: seq<Entry>, weeks: seq<int>, weekly: map<int, Tally>)
  {
    && weeks == WeeksOf(entries)
    && (forall w :: w in weekly <==> w in weeks)
    && (forall w :: w in weekly ==> weekly[w] == TallyOf(EntriesOfWeek(entries, w)))
  }

  /** Crediting one more entry to the nested dict keeps it the grouping of the longer log. */
  lemma GroupStep(entries: seq<Entry>, e: Entry, weeks: seq<int>, weekly: map<int, Tally>)
    requires GroupedByWeek(entries, weeks, weekly)
    ensures var scores := if e.week in weekly then weekly[e.week] else EmptyTally;
            GroupedByWeek(entries + [e], if e.week in weekly then weeks else weeks + [e.week],
                          weekly[e.week := Credit(scores, e.user, e.points)])
  {
    var longer := entries + [e];
    assert longer[..|entries|] == entries && longer[|longer| - 1] == e;
    var scores := if e.week in weekly then weekly[e.week] else EmptyTally;
    var weeks' := if e.week in weekly then weeks else weeks + [e.week];
    var weekly' := weekly[e.week := Credit(scores, e.user, e.points)];
    assert weeks' == WeeksOf(longer);
    if e.week !in weekly {
      UnlistedWeekIsEmpty(entries, e.week);
    }
    forall w | w in weekly' ensures weekly'[w] == TallyOf(EntriesOfWeek(longer, w)) {
      EntriesOfWeekAppend(entries, e, w);
      if w == e.week {
        TallyOfAppend(EntriesOfWeek(entries, e.week), e);
      } else {
        assert EntriesOfWeek(longer, w) == EntriesOfWeek(entries, w);
      }
    }
  }

  /** The first loop of `_compute_lifetime_medals_uncached`: `weekly[e["week"]][e["user"]] += e["points"]`. */
  method GroupScoresByWeek(log: seq<Entry>) returns (weeks: seq<int>, weekly: map<int, Tally>)
    ensures GroupedByWeek(log, weeks, weekly)
  {
    weeks, weekly := [], map[];
    for i := 0 to |log|
      invariant GroupedByWeek(log[..i], weeks, weekly)
    {
      var e := log[i];
      assert log[..i + 1] == log[..i] + [e];
      GroupStep(log[..i], e, weeks, weekly);
      var scores := EmptyTally;
      if e.week in weekly {
        scores := weekly[e.week];
      } else {
        weeks := weeks + [e.week];
      }
      weekly := weekly[e.week := Credit(scores, e.user, e.points)];
    }
    assert log[..|log|] == log;
  }

  /** The inner loop of `_compute_lifetime_medals_uncached`: one medal per podium place held by `user`. */
  method CreditPodium(medals: MedalCount, ranked: seq<Standing>, user: string) returns (credited: MedalCount)
    ensures credited == Plus(medals, PodiumAward(Podium(ranked), user))
  {
    var podium := ranked[..if |ranked| < 3 then |ranked| else 3];
    credited := medals;
    for i := 0 to |podium|
      invariant credited == Plus(medals, PodiumAward(podium[..i], user))
    {
      if Lower(podium[i].user) == Lower(user) {
        credited := Bump(credited, i);
      }
    }
    assert podium[..|podium|] == podium;
  }

  /** Extending a prefix of the weeks by one week adds that week's podium award, unless it is the current week. */
  lemma MedalsOverPrefixStep(log: seq<Entry>, weeks: seq<int>, k: nat, user: string, currentWeek: int)
    requires k < |weeks|
    ensures MedalsOver(log, weeks[..k + 1], user, currentWeek)
         == if weeks[k] == currentWeek then MedalsOver(log, weeks[..k], user, currentWeek)
            else Plus(MedalsOver(log, weeks[..k], user, currentWeek), PodiumAward(Podium(WeekRanking(log, weeks[k])), user))
  {
    assert weeks[..k + 1] == weeks[..k] + [weeks[k]];
    MedalsOverSnoc(log, weeks[..k], weeks[k], user, currentWeek);
  }

  /** Sorting a week's totals from the grouping gives that week's ranking. */
  lemma GroupedWeekRanking(log: seq<Entry>, weeks: seq<int>, weekly: map<int, Tally>, week: int)
    requires GroupedByWeek(log, weeks, weekly) && week in weeks
    ensures week in weekly && RankByScore(Items(weekly[week])) == WeekRanking(log, week)
  {
  }

  /** `_compute_lifetime_medals_uncached`: the podium of every closed week, credited to `user`. */
  method ComputeLifetimeMedals(log: seq<Entry>, user: string, currentWeek: int) returns (medals: MedalCount)
    ensures medals == LifetimeMedals(log, user, currentWeek)
  {
    var weeks, weekly := GroupScoresByWeek(log);
    medals := NoMedals;
    for k := 0 to |weeks|
      invariant medals == MedalsOver(log, weeks[..k], user, currentWeek)
    {
      var week := weeks[k];
      MedalsOverPrefixStep(log, weeks, k, user, currentWeek);
      if week != currentWeek {
        GroupedWeekRanking(log, weeks, weekly, week);
        var ranked := RankByScore(Items(weekly[week]));
        medals := CreditPodium(medals, ranked, user);
      }
    }
    assert weeks[..|weeks|] == weeks;
  }

  /** Extra entries do not change any closed week's entries when they all carry the current week. */
  lemma {:induction false} MedalsOverIgnoresCurrentWeek(log: seq<Entry>, extra: seq<Entry>, weeks: seq<int>, user: string, currentWeek: int)
    requires forall i :: 0 <= i < |extra| ==> extra[i].week == currentWeek
    ensures MedalsOver(log + extra, weeks, user, currentWeek) == MedalsOver(log, weeks, user, currentWeek)
  {
    if weeks != [] {
      var init, week := weeks[..|weeks| - 1], weeks[|weeks| - 1];
      assert weeks == init + [week];
      MedalsOverIgnoresCurrentWeek(log, extra, init, user, currentWeek);
      MedalsOverSnoc(log, init, week, user, currentWeek);
      MedalsOverSnoc(log + extra, init, week, user, currentWeek);
      if week != currentWeek {
        ClosedWeekUnchanged(log, extra, week, currentWeek);
      }
    }
  }

  lemma {:induction false} ClosedWeekUnchanged(log: seq<Entry>, extra: seq<Entry>, week: int, currentWeek: int)
    requires forall i :: 0 <= i < |extra| ==> extra[i].week == currentWeek
    requires week != currentWeek
    ensures EntriesOfWeek(log + extra, week) == EntriesOfWeek(log, week)
  {
    if extra != [] {
      var init, last := extra[..|extra| - 1], extra[|extra| - 1];
      assert log + extra == (log + init) + [last];
      ClosedWeekUnchanged(log, init, week, currentWeek);
      EntriesOfWeekAppend(log + init, last, week);
    } else {
      assert log + extra == log;
    }
  }

  lemma {:induction false} WeeksOfCurrentWeekAppend(log: seq<Entry>, extra: seq<Entry>, currentWeek: int)
    requires forall i :: 0 <= i < |extra| ==> extra[i].week == currentWeek
    ensures WeeksOf(log + extra) == WeeksOf(log)
         || (currentWeek !in WeeksOf(log) && WeeksOf(log + extra) == WeeksOf(log) + [currentWeek])
  {
    if extra != [] {
      var init, last := extra[..|extra| - 1], extra[|extra| - 1];
      assert log + extra == (log + init) + [last];
      WeeksOfCurrentWeekAppend(log, init, currentWeek);
      assert (log + extra)[..|log + extra| - 1] == log + init;
      assert (log + extra)[|log + extra| - 1] == last;
    } else {
      assert log + extra == log;
    }
  }

  /**
   * The week still in progress never earns medals: appending any entries of
   * the current week, such as new confirmations, leaves every medal count as
   * it was.
   */
  lemma CurrentWeekNeverCounts(log: seq<Entry>, extra: seq<Entry>, user: string, currentWeek: int)
    requires forall i :: 0 <= i < |extra| ==> extra[i].week == currentWeek
    ensures LifetimeMedals(log + extra, user, currentWeek) == LifetimeMedals(log, user, currentWeek)
  {
    WeeksOfCurrentWeekAppend(log, extra, currentWeek);
    MedalsOverIgnoresCurrentWeek(log, extra, WeeksOf(log + extra), user, currentWeek);
    if WeeksOf(log + extra) != WeeksOf(log) {
      MedalsOverSnoc(log, WeeksOf(log), currentWeek, user, currentWeek);
    }
  }

  /** The log without its entries of `week`, the rest in their order. */
  function WithoutWeek(log: seq<Entry>, week: int): (r: seq<Entry>)
    ensures |r| <= |log|
  {
    if log == [] then []
    else
      var init, last := log[..|log| - 1], log[|log| - 1];
      WithoutWeek(init, week) + (if last.week == week then [] else [last])
  }

  /** The week numbers `weeks` without `week`, the rest in their order. */
  function DropWeek(weeks: seq<int>, week: int): (r: seq<int>)
    ensures |r| <= |weeks|
  {
    if weeks == [] then []
    else
      var init, last := weeks[..|weeks| - 1], weeks[|weeks| - 1];
      DropWeek(init, week) + (if last == week then [] else [last])
  }

  lemma DropWeekAppend(weeks: seq<int>, w: int, week: int)
    ensures DropWeek(weeks + [w], week) == DropWeek(weeks, week) + (if w == week then [] else [w])
  {
    assert (weeks + [w])[..|weeks|] == weeks;
  }

  lemma {:induction false} DropWeekMembers(weeks: seq<int>, w: int, week: int)
    requires w != week
    ensures w in DropWeek(weeks, week) <==> w in weeks
  {
    if weeks != [] {
      var init := weeks[..|weeks| - 1];
      assert weeks == init + [weeks[|weeks| - 1]];
      DropWeekMembers(init, w, week);
    }
  }

  /** Removing the entries of `week` leaves every other week's entries as they were. */
  lemma {:induction false} OtherWeekUnchanged(log: seq<Entry>, w: int, week: int)
    requires w != week
    ensures EntriesOfWeek(WithoutWeek(log, week), w) == EntriesOfWeek(log, w)
  {
    if log != [] {
      var init, last := log[..|log| - 1], log[|log| - 1];
      OtherWeekUnchanged(init, w, week);
      if last.week != week {
        EntriesOfWeekAppend(WithoutWeek(init, week), last, w);
      } else {
        assert WithoutWeek(init, week) + [] == WithoutWeek(init, week);
      }
    }
  }

  /** The weeks replayed over the log without `week` are the log's weeks without `week`. */
  lemma {:induction false} WeeksWithoutWeek(log: seq<Entry>, week: int)
    ensures WeeksOf(WithoutWeek(log, week)) == DropWeek(WeeksOf(log), week)
  {
    if log != [] {
      var init, last := log[..|log| - 1], log[|log| - 1];
      WeeksWithoutWeek(init, week);
      var weeks := WeeksOf(init);
      if last.week == week {
        assert WithoutWeek(log, week) == WithoutWeek(init, week);
        if last.week !in weeks {
          DropWeekAppend(weeks, last.week, week);
        }
      } else {
        var rest := WithoutWeek(init, week);
        assert WithoutWeek(log, week) == rest + [last];
        assert (rest + [last])[..|rest|] == rest;
        DropWeekMembers(weeks, last.week, week);
        if last.week !in weeks {
          DropWeekAppend(weeks, last.week, week);
        }
      }
    }
  }

  lemma {:induction false} MedalsOverWithoutWeek(log: seq<Entry>, weeks: seq<int>, user: string, currentWeek: int)
    ensures MedalsOver(WithoutWeek(log, currentWeek), DropWeek(weeks, currentWeek), user, currentWeek)
         == MedalsOver(log, weeks, user, currentWeek)
  {
    if weeks != [] {
      var init, week := weeks[..|weeks| - 1], weeks[|weeks| - 1];
      assert weeks == init + [week];
      MedalsOverWithoutWeek(log, init, user, currentWeek);
      DropWeekAppend(init, week, currentWeek);
      if week != currentWeek {
        MedalsOverSnoc(WithoutWeek(log, currentWeek), DropWeek(init, currentWeek), week, user, currentWeek);
        OtherWeekUnchanged(log, week, currentWeek);
      } else {
        assert DropWeek(weeks, currentWeek) == DropWeek(init, currentWeek);
      }
    }
  }

  /**
   * Entries of the current week never earn medals, wherever they sit in the
   * log (an old entry carrying this week's number included): the medals of
   * the log are those of the log with every current-week entry removed.
   */
  lemma CurrentWeekEntriesAnywhereNeverCount(log: seq<Entry>, user: string, currentWeek: int)
    ensures LifetimeMedals(WithoutWeek(log, currentWeek), user, currentWeek) == LifetimeMedals(log, user, currentWeek)
  {
    WeeksWithoutWeek(log, currentWeek);
    MedalsOverWithoutWeek(log, WeeksOf(log), user, currentWeek);
  }

  /** A week's podium never holds a user who has no entry that week. */
  lemma PodiumUsersHaveEntries(log: seq<Entry>, week: int, user: string)
    requires forall i :: 0 <= i < |log| ==> Lower(log[i].user) != Lower(user)
    ensures PodiumAward(Podium(WeekRanking(log, week)), user) == NoMedals
  {
    var inWeek := EntriesOfWeek(log, week);
    var weekly := TallyOf(inWeek);
    var items := Items(weekly);
    var ranked := RankByScore(items);
    forall i | 0 <= i < |ranked| ensures Lower(ranked[i].user) != Lower(user) {
      var e := RankedUserWasSeen(log, week, inWeek, weekly, items, ranked, i);
    }
  }

  lemma {:induction false} MedalsOverWithoutUser(log: seq<Entry>, weeks: seq<int>, user: string, currentWeek: int)
    requires forall i :: 0 <= i < |log| ==> Lower(log[i].user) != Lower(user)
    ensures MedalsOver(log, weeks, user, currentWeek) == NoMedals
  {
    if weeks != [] {
      MedalsOverWithoutUser(log, weeks[..|weeks| - 1], user, currentWeek);
      PodiumUsersHaveEntries(log, weeks[|weeks| - 1], user);
    }
  }

  /** A user with no entry under any spelling of the name has no medals. */
  lemma NoEntriesNoMedals(log: seq<Entry>, user: string, currentWeek: int)
    requires forall i :: 0 <= i < |log| ==> Lower(log[i].user) != Lower(user)
    ensures LifetimeMedals(log, user, currentWeek) == NoMedals
  {
    MedalsOverWithoutUser(log, WeeksOf(log), user, currentWeek);
  }

  /**
   * A week's podium has three places, or as many as the distinct user names
   * with an entry that week when there are fewer.
   */
  lemma PodiumSize(log: seq<Entry>, week: int)
    ensures var players := |set e | e in log && e.week == week :: e.user|;
            |Podium(WeekRanking(log, week))| == if players < 3 then players else 3
  {
    RankedWeek(log, week);
    DistinctUsersCount(WeekRanking(log, week));
  }

  lemma {:induction false} ClosedCountIsSetSize(weeks: seq<int>, currentWeek: int)
    requires forall i, j :: 0 <= i < j < |weeks| ==> weeks[i] != weeks[j]
    ensures ClosedCount(weeks, currentWeek) == |set w | w in weeks && w != currentWeek|
  {
    if weeks != [] {
      var init, last := weeks[..|weeks| - 1], weeks[|weeks| - 1];
      assert weeks == init + [last];
      ClosedCountIsSetSize(init, currentWeek);
      var before := set w | w in init && w != currentWeek;
      var after := set w | w in weeks && w != currentWeek;
      assert last !in init by {
        forall i | 0 <= i < |init| ensures init[i] != last {
          assert init[i] == weeks[i];
        }
      }
      if last == currentWeek {
        assert after == before;
      } else {
        assert after == before + {last};
      }
    }
  }

  /** The closed weeks of a log are its distinct week numbers other than the current one. */
  lemma ClosedWeeksOfLog(log: seq<Entry>, currentWeek: int)
    ensures ClosedCount(WeeksOf(log), currentWeek) == |(set e | e in log :: e.week) - {currentWeek}|
  {
    WeeksOfMembers(log);
    ClosedCountIsSetSize(WeeksOf(log), currentWeek);
    assert (set w | w in WeeksOf(log) && w != currentWeek) == (set e | e in log :: e.week) - {currentWeek};
  }
}
