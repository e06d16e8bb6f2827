/**
 * The record store and the submission guard: the append-only log of sighting
 * entries, the once-per-user-bird-week check (`count_user_bird_this_week`) and
 * the guarded append (`confirm_bird` followed by `save_entry`).
 */
module Sightings {
  import opened Text
  import opened Catalog

  /** One logged sighting; `points` and `week` are copied in when it is written and never recomputed. */
  datatype Entry = Entry(user: string, bird: string, points: int, week: int, timestamp: string)

  /** What a confirmation reports: the friendly "already found" note, or the points just recorded. */
  datatype Outcome = AlreadyFound(bird: string) | Recorded(bird: string, points: int)

  /**
   * The guard's match: same user up to case, same bird name, same week
   * number. Lower-casing the queried name first gives the same answer.
   */
  predicate SameSighting(e: Entry, user: string, bird: string, week: int)
    ensures SameSighting(e, user, bird, week) <==> Lower(e.user) == Lower(Lower(user)) && e.bird == bird && e.week == week
  {
    LowerIdempotent(user);
    Lower(e.user) == Lower(user) && e.bird == bird && e.week == week
  }

  /** Some entry of the log is this user's sighting of this bird in this week. */
  ghost predicate AlreadyLogged(log: seq<Entry>, user: string, bird: string, week: int)
  {
    exists i :: 0 <= i < |log| && SameSighting(log[i], user, bird, week)
  }

  /** No two entries of the log are the same user's sighting of the same bird in the same week. */
  ghost predicate NoDuplicateSightings(log: seq<Entry>)
  {
    forall i, j :: 0 <= i < j < |log| ==> !SameSighting(log[j], log[i].user, log[i].bird, log[i].week)
  }

  /** `count_user_bird_this_week`: how many entries match (user up to case, bird, week). */
  function CountUserBirdThisWeek(log: seq<Entry>, user: string, bird: string, week: int): (n: nat)
    ensures n <= |log|
  {
    if log == [] then 0
    else
      CountUserBirdThisWeek(log[..|log| - 1], user, bird, week)
      + (if SameSighting(log[|log| - 1], user, bird, week) then 1 else 0)
  }

  /** The guard's count is positive exactly when a matching entry exists. */
  lemma {:induction false} CountDetectsSighting(log: seq<Entry>, user: string, bird: string, week: int)
    ensures CountUserBirdThisWeek(log, user, bird, week) > 0 <==> AlreadyLogged(log, user, bird, week)
  {
    if log != [] {
      var init := log[..|log| - 1];
      CountDetectsSighting(init, user, bird, week);
      if AlreadyLogged(init, user, bird, week) {
        var i :| 0 <= i < |init| && SameSighting(init[i], user, bird, week);
        assert log[i] == init[i];
      }
      if AlreadyLogged(log, user, bird, week) && !SameSighting(log[|log| - 1], user, bird, week) {
        var i :| 0 <= i < |log| && SameSighting(log[i], user, bird, week);
        assert init[i] == log[i];
      }
    }
  }

  /**
   * The log after `confirm_bird(bird)` by `user` at `timestamp`. The source
   * reads the clock twice: the guard looks for the sighting in `guardWeek`,
   * and a new entry is stamped with `entryWeek`. Unchanged when the guard
   * finds the sighting, otherwise one new entry at the end.
   */
  ghost function AfterConfirm(log: seq<Entry>, user: string, bird: string, guardWeek: int, entryWeek: int,
                              timestamp: string): (r: seq<Entry>)
    ensures log <= r && |r| <= |log| + 1
    ensures r == log <==> AlreadyLogged(log, user, bird, guardWeek)
    ensures r != log ==> r[|log|] == Entry(user, bird, PointsFor(bird), entryWeek, timestamp)
  {
    CountDetectsSighting(log, user, bird, guardWeek);
    if CountUserBirdThisWeek(log, user, bird, guardWeek) > 0 then log
    else log + [Entry(user, bird, PointsFor(bird), entryWeek, timestamp)]
  }

  /** Appending one entry adds one to the count exactly when that entry matches. */
  lemma CountAppend(log: seq<Entry>, e: Entry, user: string, bird: string, week: int)
    ensures CountUserBirdThisWeek(log + [e], user, bird, week)
         == CountUserBirdThisWeek(log, user, bird, week) + (if SameSighting(e, user, bird, week) then 1 else 0)
  {
    assert (log + [e])[..|log|] == log;
  }

  /**
   * After a confirmation by `user`, the sighting is logged for every spelling
   * `other` of the same name: once if it was not logged before, otherwise as
   * often as before.
   */
  lemma ConfirmLeavesOneSighting(log: seq<Entry>, user: string, other: string, bird: string, week: int, timestamp: string)
    requires Lower(user) == Lower(other)
    ensures var before := CountUserBirdThisWeek(log, other, bird, week);
            CountUserBirdThisWeek(AfterConfirm(log, user, bird, week, week, timestamp), other, bird, week)
            == if before == 0 then 1 else before
  {
    CountDetectsSighting(log, user, bird, week);
    CountDetectsSighting(log, other, bird, week);
    if !AlreadyLogged(log, user, bird, week) {
      CountAppend(log, Entry(user, bird, PointsFor(bird), week, timestamp), other, bird, week);
    } else {
      var i :| 0 <= i < |log| && SameSighting(log[i], user, bird, week);
      assert SameSighting(log[i], other, bird, week);
    }
  }

  /** Confirming the same bird twice in one week, under two spellings of one name, logs it once. */
  lemma ConfirmTwiceIsIdempotent(log: seq<Entry>, user: string, other: string, bird: string, week: int, t1: string, t2: string)
    requires Lower(user) == Lower(other)
    ensures AfterConfirm(AfterConfirm(log, user, bird, week, week, t1), other, bird, week, week, t2)
         == AfterConfirm(log, user, bird, week, week, t1)
  {
    var once := AfterConfirm(log, user, bird, week, week, t1);
    if once == log {
      var i :| 0 <= i < |log| && SameSighting(log[i], user, bird, week);
      assert SameSighting(once[i], other, bird, week);
    } else {
      assert SameSighting(once[|log|], other, bird, week);
    }
  }

  /**
   * A log that never held a duplicate sighting still holds none after a
   * confirmation whose two clock readings fall in the same week.
   */
  lemma ConfirmKeepsSightingsUnique(log: seq<Entry>, user: string, bird: string, week: int, timestamp: string)
    requires NoDuplicateSightings(log)
    ensures NoDuplicateSightings(AfterConfirm(log, user, bird, week, week, timestamp))
  {
    var r := AfterConfirm(log, user, bird, week, week, timestamp);
    if r != log {
      forall i, j | 0 <= i < j < |r|
        ensures !SameSighting(r[j], r[i].user, r[i].bird, r[i].week)
      {
        if j < |log| {
          assert r[i] == log[i] && r[j] == log[j];
        }
      }
    }
  }

  /**
   * When the week turns between the guard's clock reading and the entry's,
   * the guard looks in the old week and the entry lands in the new one, where
   * the same sighting may already be logged (week numbers carry no year, so
   * an old entry of "week 2" counts as the new week 2): a duplicate appears.
   */
  lemma ClockTickCanDuplicate()
    ensures var log := [Entry("alice", "Blue Jay", 10, 2, "t0")];
            && NoDuplicateSightings(log)
            && !NoDuplicateSightings(AfterConfirm(log, "alice", "Blue Jay", 1, 2, "t1"))
  {
    var log := [Entry("alice", "Blue Jay", 10, 2, "t0")];
    CountDetectsSighting(log, "alice", "Blue Jay", 1);
    assert log[..0] == [];
    var r := AfterConfirm(log, "alice", "Blue Jay", 1, 2, "t1");
    assert |r| == 2 && r[1].week == 2 && r[1].user == "alice" && r[1].bird == "Blue Jay";
    assert SameSighting(r[1], r[0].user, r[0].bird, r[0].week);
  }

  /** The persisted log: `load_data` reads `entries`, `save_entry` appends to it. */
  class SightingStore {
    var entries: seq<Entry>

    /** A store holding the given log (an absent file is the empty log). */
    constructor (initial: seq<Entry>)
      ensures entries == initial
    {
      entries := initial;
    }

    /** `save_entry`: the entry goes at the end and nothing earlier changes. */
    method SaveEntry(entry: Entry)
      modifies this
      ensures entries == old(entries) + [entry]
    {
      entries := entries + [entry];
    }

    /**
     * `confirm_bird`: the guarded append. `guardWeek` is the clock reading of
     * the guard, `entryWeek` the later one stamped on the entry.
     */
    method ConfirmBird(user: string, bird: string, guardWeek: int, entryWeek: int, timestamp: string)
      returns (outcome: Outcome)
      modifies this
      ensures entries == AfterConfirm(old(entries), user, bird, guardWeek, entryWeek, timestamp)
      ensures outcome == if AlreadyLogged(old(entries), user, bird, guardWeek) then AlreadyFound(bird)
                         else Recorded(bird, PointsFor(bird))
    {
      CountDetectsSighting(entries, user, bird, guardWeek);
      var existingCount := CountUserBirdThisWeek(entries, user, bird, guardWeek);
      if existingCount > 0 {
        outcome := AlreadyFound(bird);
        return;
      }
      var points := PointsFor(bird);
      var entry := Entry(user, bird, points, entryWeek, timestamp);
      SaveEntry(entry);
      outcome := Recorded(bird, points);
    }
  }

  /** Two confirmations of one bird in one week by one user (up to case): the second is reported as already found. */
  method ConfirmTwiceInOneWeek(store: SightingStore, user: string, other: string, bird: string, week: int, t1: string, t2: string)
    returns (first: Outcome, second: Outcome)
    requires Lower(user) == Lower(other)
    modifies store
    ensures second == AlreadyFound(bird)
    ensures store.entries == AfterConfirm(old(store.entries), user, bird, week, week, t1)
    ensures CountUserBirdThisWeek(store.entries, other, bird, week) >= 1
  {
    first := store.ConfirmBird(user, bird, week, week, t1);
    ghost var once := store.entries;
    ConfirmLeavesOneSighting(old(store.entries), user, other, bird, week, t1);
    CountDetectsSighting(once, other, bird, week);
    second := store.ConfirmBird(other, bird, week, week, t2);
    ConfirmTwiceIsIdempotent(old(store.entries), user, other, bird, week, t1, t2);
  }
}
