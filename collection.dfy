/**
 * The species a user has collected: over the whole log, bucketed by the
 * tier of the points recorded on each entry (`_compute_lifetime_species_uncached`),
 * and the number of distinct species this week (`_species_collected_this_week_uncached`).
 */
module Collection {
  import opened Wrappers
  import opened Text
  import opened Catalog
  import opened Sightings

  const AllTiers: set<Tier> := {Abundant, Common, Uncommon, Occasional, Rare}

  /** The dict the lifetime view starts from: every tier present, each with no species. */
  const EmptyCollection: map<Tier, set<string>> :=
    map[Abundant := {}, Common := {}, Uncommon := {}, Occasional := {}, Rare := {}]

  /** The lifetime view after one more entry: a sighting of `user` with a tiered value adds its bird to that tier. */
  function AddSighting(species: map<Tier, set<string>>, e: Entry, user: string): (r: map<Tier, set<string>>)
    requires species.Keys == AllTiers
    ensures r.Keys == AllTiers
  {
    if Lower(e.user) != Lower(user) then species
    else match TierOf(e.points)
      case None => species
      case Some(t) => species[t := species[t] + {e.bird}]
  }

  /** The lifetime species of `user`, by tier; always holding exactly the five tiers. */
  function SpeciesByTier(log: seq<Entry>, user: string): (r: map<Tier, set<string>>)
    ensures r.Keys == AllTiers
  {
    if log == [] then EmptyCollection
    else AddSighting(SpeciesByTier(log[..|log| - 1], user), log[|log| - 1], user)
  }

  /** `sum(len(v) for v in species.values())`. */
  function TotalSpecies(species: map<Tier, set<string>>): nat
    requires species.Keys == AllTiers
  {
    |species[Abundant]| + |species[Common]| + |species[Uncommon]| + |species[Occasional]| + |species[Rare]|
  }

  /** The entries recorded under `user`, compared up to case. */
  function UserEntryCount(log: seq<Entry>, user: string): nat
  {
    if log == [] then 0
    else UserEntryCount(log[..|log| - 1], user) + (if Lower(log[|log| - 1].user) == Lower(user) then 1 else 0)
  }

  /** `_compute_lifetime_species_uncached`: one pass adding each of the user's birds to the set of its recorded tier. */
  method ComputeLifetimeSpecies(log: seq<Entry>, user: string) returns (species: map<Tier, set<string>>)
    ensures species == SpeciesByTier(log, user)
  {
    species := EmptyCollection;
    for i := 0 to |log|
      invariant species == SpeciesByTier(log[..i], user)
    {
      var e := log[i];
      assert log[..i + 1][..i] == log[..i];
      if Lower(e.user) == Lower(user) {
        var tier := TierOf(e.points);
        if tier.Some? {
          species := species[tier.value := species[tier.value] + {e.bird}];
        }
      }
    }
    assert log[..|log|] == log;
  }

  /**
   * A bird is listed under a tier exactly when some entry of the user (up to
   * case) names it with recorded points of that tier; the catalog's current
   * value for the bird plays no part, and entries whose points have no tier
   * are never listed.
   */
  lemma {:induction false} SpeciesMembership(log: seq<Entry>, user: string, t: Tier, bird: string)
    ensures bird in SpeciesByTier(log, user)[t]
        <==> exists i :: 0 <= i < |log| && Lower(log[i].user) == Lower(user)
                         && log[i].bird == bird && TierOf(log[i].points) == Some(t)
  {
    if log != [] {
      var init, last := log[..|log| - 1], log[|log| - 1];
      SpeciesMembership(init, user, t, bird);
      AddSightingMembership(SpeciesByTier(init, user), last, user, t, bird);
      if exists i :: 0 <= i < |init| && Lower(init[i].user) == Lower(user)
                     && init[i].bird == bird && TierOf(init[i].points) == Some(t) {
        var i :| 0 <= i < |init| && Lower(init[i].user) == Lower(user)
                 && init[i].bird == bird && TierOf(init[i].points) == Some(t);
        assert log[i] == init[i];
      }
      if exists i :: 0 <= i < |log| && Lower(log[i].user) == Lower(user)
                     && log[i].bird == bird && TierOf(log[i].points) == Some(t) {
        var i :| 0 <= i < |log| && Lower(log[i].user) == Lower(user)
                 && log[i].bird == bird && TierOf(log[i].points) == Some(t);
        if i < |init| {
          assert init[i] == log[i];
        }
      }
    }
  }

  /** After one more entry, a bird is under a tier exactly when it was, or the entry is the user's sighting of it at that tier. */
  lemma AddSightingMembership(species: map<Tier, set<string>>, e: Entry, user: string, t: Tier, bird: string)
    requires species.Keys == AllTiers
    ensures bird in AddSighting(species, e, user)[t]
        <==> bird in species[t] || (Lower(e.user) == Lower(user) && e.bird == bird && TierOf(e.points) == Some(t))
  {
  }

  /** Logging a bird the user already holds in the same tier leaves the lifetime view unchanged. */
  lemma RepeatSightingAddsNothing(log: seq<Entry>, user: string, e: Entry, i: nat)
    requires i < |log| && Lower(log[i].user) == Lower(user) && Lower(e.user) == Lower(user)
    requires log[i].bird == e.bird && TierOf(log[i].points) == TierOf(e.points)
    ensures SpeciesByTier(log + [e], user) == SpeciesByTier(log, user)
  {
    assert (log + [e])[..|log|] == log;
    var r := SpeciesByTier(log, user);
    assert SpeciesByTier(log + [e], user) == AddSighting(r, e, user);
    match TierOf(e.points)
    case None =>
    case Some(t) =>
      SpeciesMembership(log, user, t, e.bird);
      assert r[t] + {e.bird} == r[t];
      assert r[t := r[t]] == r;
  }

  /** The number of species collected never exceeds the number of the user's entries. */
  lemma {:induction false} TotalWithinUserEntries(log: seq<Entry>, user: string)
    ensures TotalSpecies(SpeciesByTier(log, user)) <= UserEntryCount(log, user)
  {
    if log != [] {
      TotalWithinUserEntries(log[..|log| - 1], user);
    }
  }

  /**
   * `_species_collected_this_week_uncached`: the distinct birds of `user`
   * (up to case) in `week`; zero exactly when the user logged nothing that week.
   */
  function SpeciesCollectedThisWeek(log: seq<Entry>, user: string, week: int): (n: nat)
    ensures n == 0 <==> forall e :: e in log ==> !(Lower(e.user) == Lower(user) && e.week == week)
  {
    WeekBirdsEmpty(log, user, week);
    |set e | e in log && Lower(e.user) == Lower(user) && e.week == week :: e.bird|
  }

  lemma WeekBirdsEmpty(log: seq<Entry>, user: string, week: int)
    ensures (set e | e in log && Lower(e.user) == Lower(user) && e.week == week :: e.bird) == {}
        <==> forall e :: e in log ==> !(Lower(e.user) == Lower(user) && e.week == week)
  {
    var birds := set e | e in log && Lower(e.user) == Lower(user) && e.week == week :: e.bird;
    forall e | e in log && Lower(e.user) == Lower(user) && e.week == week ensures e.bird in birds {
    }
    if birds != {} {
      var b :| b in birds;
      var e :| e in log && Lower(e.user) == Lower(user) && e.week == week && e.bird == b;
    }
  }

  /** The entries of `user` (up to case) in `week`. */
  function UserWeekEntryCount(log: seq<Entry>, user: string, week: int): nat
  {
    if log == [] then 0
    else
      var e := log[|log| - 1];
      UserWeekEntryCount(log[..|log| - 1], user, week) + (if Lower(e.user) == Lower(user) && e.week == week then 1 else 0)
  }

  lemma WeekBirdsAppend(log: seq<Entry>, e: Entry, user: string, week: int)
    ensures (set x | x in log + [e] && Lower(x.user) == Lower(user) && x.week == week :: x.bird)
         == (set x | x in log && Lower(x.user) == Lower(user) && x.week == week :: x.bird)
            + (if Lower(e.user) == Lower(user) && e.week == week then {e.bird} else {})
  {
  }

  /**
   * The weekly count never exceeds the user's entries that week, and equals
   * it in a log free of duplicate sightings, which is every log the guard
   * builds.
   */
  lemma {:induction false} WeeklySpeciesCountsSightings(log: seq<Entry>, user: string, week: int)
    ensures SpeciesCollectedThisWeek(log, user, week) <= UserWeekEntryCount(log, user, week)
    ensures NoDuplicateSightings(log) ==> SpeciesCollectedThisWeek(log, user, week) == UserWeekEntryCount(log, user, week)
  {
    if log != [] {
      var init, e := log[..|log| - 1], log[|log| - 1];
      assert log == init + [e];
      WeeklySpeciesCountsSightings(init, user, week);
      WeekBirdsAppend(init, e, user, week);
      if NoDuplicateSightings(log) {
        NoDuplicatePrefix(init, e);
        if Lower(e.user) == Lower(user) && e.week == week {
          FreshWeekBird(init, e, user, week);
        }
      }
    }
  }

  /** A prefix of a log without duplicate sightings has none. */
  lemma NoDuplicatePrefix(init: seq<Entry>, e: Entry)
    requires NoDuplicateSightings(init + [e])
    ensures NoDuplicateSightings(init)
  {
    forall i, j | 0 <= i < j < |init|
      ensures !SameSighting(init[j], init[i].user, init[i].bird, init[i].week)
    {
      assert init[i] == (init + [e])[i] && init[j] == (init + [e])[j];
    }
  }

  /** In a log without duplicate sightings, the last entry's bird is new to its user's week. */
  lemma FreshWeekBird(init: seq<Entry>, e: Entry, user: string, week: int)
    requires NoDuplicateSightings(init + [e])
    requires Lower(e.user) == Lower(user) && e.week == week
    ensures e.bird !in (set x | x in init && Lower(x.user) == Lower(user) && x.week == week :: x.bird)
  {
    forall x | x in init && Lower(x.user) == Lower(user) && x.week == week ensures x.bird != e.bird {
      var i :| 0 <= i < |init| && init[i] == x;
      assert (init + [e])[i] == x && (init + [e])[|init|] == e;
    }
  }

  /**
   * A confirmation raises the user's weekly species count by one when it
   * records a new sighting and leaves it unchanged when the guard rejects it.
   */
  lemma ConfirmGrowsWeeklySpecies(log: seq<Entry>, user: string, bird: string, week: int, timestamp: string)
    ensures SpeciesCollectedThisWeek(AfterConfirm(log, user, bird, week, week, timestamp), user, week)
         == SpeciesCollectedThisWeek(log, user, week) + (if AlreadyLogged(log, user, bird, week) then 0 else 1)
  {
    if !AlreadyLogged(log, user, bird, week) {
      var e := Entry(user, bird, PointsFor(bird), week, timestamp);
      WeekBirdsAppend(log, e, user, week);
    }
  }
}
