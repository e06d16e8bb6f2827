# Bird hunt: scoring and deduplication engine

Bird hunt is a small web app in which people log the bird species they spot.
Every sighting is an entry `(user, bird, points, week, timestamp)` appended to
one log. The points come from a fixed catalog of species, each worth 5, 10,
15, 20 or 25, and unknown species are worth 1. Every view the app shows is
recomputed from the whole log:

- the weekly and lifetime leaderboards;
- the lifetime medal tally, earned by finishing in the top three of a closed
  week;
- the lifetime collection of species grouped by tier;
- the number of distinct species a user has logged this week.

A submission guard turns away a second sighting of the same bird by the same
user in the same week. The user is compared up to case.

This project models that engine in Dafny and proves the rules it promises.

Modules:

- `Wrappers`: the `Option` type.
- `Text`: ASCII lower-casing and substring search.
- `Catalog`: the species-to-points table, the points-to-tier table and the
  three gull species.
- `Sightings`: the log entry, the duplicate guard, and the log store whose
  `ConfirmBird` and `SaveEntry` append in place.
- `Ranking`: the stable descending sort by score.
- `Scoring`: the leaderboard's weekly and lifetime totals, its ranking and
  its medal labels.
- `Medals`: the lifetime medal tally over closed weeks.
- `Collection`: lifetime species by tier and the weekly distinct-species
  count.
- `Suggestions`: post-processing of the classifier's answer. It keeps catalog
  names, applies the gull restriction and normalises confidences.
- `Scenarios`: worked examples on small logs.

The current week and the timestamp are parameters. The log is a `seq<Entry>`.
The loops of the source are methods proved equal to specification functions,
and the properties are proved about those functions.

Points where the code's behaviour is easy to misread:

- **Nashville Warbler.** It sits under the "rare" comment of the catalog, but
  its value is 20 (occasional), not 25 (`app.py:193`).
- **Exact user strings in the totals.** The leaderboard totals, and the
  per-week totals the medal engine ranks, are grouped by the exact stored user
  string. Only the guard, the medal credit, the lifetime collection and the
  weekly species count compare names up to case. Stored names are already
  lower-case only because the username box lower-cases its input
  (`app.py:573`), and that box is outside this model.
- **One current week per leaderboard.** The leaderboard loop reads the clock
  once per entry (`app.py:689`). The model reads it once for the whole
  computation.
- **Two clock readings per confirm.** The guard reads the week inside
  `count_user_bird_this_week` (`app.py:337`, `app.py:369`), and the new entry
  reads it again (`app.py:351`). `Sightings.AfterConfirm` and
  `SightingStore.ConfirmBird` take the two weeks as separate parameters.
- **Ties.** Ties in a ranking keep the order in which users were first seen in
  the log. This follows from Python's stable sort over an insertion-ordered
  dictionary. `Ranking.RankIsStable` and
  `Scoring.TallyListsUsersInFirstSeenOrder` give the two halves, and
  `Scoring.WeeklyTiesInFirstSeenOrder` states it for the weekly board.
- **No year in week numbers.** Week numbers carry no year, so week 1 of two
  different years is one week. The model keeps this.

## Model

| member | source | states |
|---|---|---|
| Catalog.PointsFor | app.py:345 | a bird is worth one of 1, 5, 10, 15, 20, 25; it has a tier exactly when it is a catalog species; an unknown bird is worth 1 |
| Catalog.TierOf | app.py:217-223 | a points value has a tier exactly when it is 5, 10, 15, 20 or 25 |
| Catalog.CatalogValuesHaveTiers | app.py:141-223 | every catalog value is a key of the tier table and lies in {5, 10, 15, 20, 25}; the fallback value 1 has no tier |
| Catalog.GullsInCatalog | app.py:512-516 | the three gull species are catalog species |
| Text.LowerChar | app.py:373 | a lower-cased character is never an upper-case ASCII letter; lower-case letters and non-letters are unchanged |
| Text.Lower | app.py:373 | lower-casing keeps the length and lower-cases each character independently |
| Text.LowerIdempotent | app.py:373 | lower-casing twice is lower-casing once |
| Text.ContainsAt | app.py:511 | `sub in s` holds exactly when `sub` occurs in `s` at some position |
| Text.SeagullContainsGull | app.py:511 | a text containing "seagull" contains "gull", so the second test of the gull condition never changes its outcome |
| Sightings.SameSighting | app.py:373-375 | an entry matches exactly when its lower-cased user equals the lower-cased given user and its bird and week are the given ones |
| Sightings.CountUserBirdThisWeek | app.py:368-376 | the duplicate count never exceeds the log length |
| Sightings.CountDetectsSighting | app.py:368-376 | the count is positive exactly when the log holds an entry for that bird and week whose user equals the given one up to case |
| Sightings.AfterConfirm | app.py:336-359 | confirming leaves the log unchanged exactly when the guard finds an existing sighting in the week it read; otherwise it appends exactly one entry with the catalog points (1 if unknown) and the week read for the entry, keeping every earlier entry |
| Sightings.CountAppend | app.py:368-376 | appending an entry raises the count by one exactly when the entry matches user (up to case), bird and week |
| Sightings.ConfirmLeavesOneSighting | app.py:336-376 | after a confirm, the count for any user equal up to case is 1 if it was 0 and unchanged otherwise |
| Sightings.ConfirmTwiceIsIdempotent | app.py:336-359 | a second confirm of the same bird in the same week, by a user equal up to case, leaves the log as the first left it |
| Sightings.ConfirmKeepsSightingsUnique | app.py:336-359 | if no two entries share user (up to case), bird and week, that stays true after a confirm |
| Sightings.SightingStore.constructor | app.py:544-549 | the store starts from the given log |
| Sightings.SightingStore.SaveEntry | app.py:555-559 | the log becomes the old log followed by the new entry |
| Sightings.SightingStore.ConfirmBird | app.py:336-359 | the new log is the confirm of the old one, with the guard's week and the entry's week read separately; the outcome is "already found" when the guard fired, else "recorded" with the bird's points |
| Sightings.ClockTickCanDuplicate | app.py:336-376 | when the week turns between the guard's clock reading and the entry's, a log without duplicate sightings gains one |
| Sightings.ConfirmTwiceInOneWeek | app.py:336-376 | of two confirms in one week by users equal up to case, the second reports "already found", the log is as after the first alone, and it holds the sighting |
| Ranking.Insert | app.py:695-699 | inserting keeps every standing and adds the new one (as a multiset) |
| Ranking.InsertSorted | app.py:695-699 | inserting into a descending ranking yields a descending ranking |
| Ranking.RankByScore | app.py:695-699 | the ranking is a permutation of its input, sorted by descending score |
| Ranking.InsertMembers | app.py:695-699 | the standings of an insertion are the inserted one and those of the ranking |
| Ranking.InsertKeepsUsersDistinct | app.py:695-699 | inserting a user not yet ranked keeps users distinct |
| Ranking.RankKeepsUsersDistinct | app.py:695-699 | ranking distinct users yields distinct users |
| Ranking.InsertStable | app.py:695-699 | insertion keeps, for every score, the relative order of the standings with that score |
| Ranking.RankIsStable | app.py:695-699 | for every score, the standings with that score appear in the ranking in their input order, so ties keep first-seen order |
| Ranking.RankSortedIsIdentity | app.py:695-699 | a list already sorted by descending score ranks to itself |
| Ranking.InsertKeepsTieOrder | app.py:695-699 | inserting a pair whose key precedes every ranked key keeps equal-score pairs in key order |
| Ranking.RankOrdersTiesByKey | app.py:695-699 | when the input lists users in increasing key order, equal-score pairs of the ranking are in increasing key order |
| Ranking.DistinctUsersCount | app.py:695-704 | a ranking of distinct users has as many users as places |
| Scoring.Credit | app.py:688-690 | crediting adds the points to the user's total, and lists the user at the end only when the user had no total yet |
| Scoring.TallyOf | app.py:684-690 | a tally lists no more users than there are entries, and at least one user when there is an entry |
| Scoring.Items | app.py:696 | the items of a tally are its users in tally order, each paired with its total |
| Scoring.EntriesOfWeek | app.py:689 | the week's entries are no more than the log |
| Scoring.EntriesOfWeekMembers | app.py:689 | an entry is among the week's entries exactly when it is in the log with that week |
| Scoring.EntriesOfWeekAppend | app.py:688-690 | appending an entry extends the week's entries by it exactly when it carries that week |
| Scoring.TallyWellFormed | app.py:684-690 | a tally lists each user once, and exactly the users it has a total for |
| Scoring.TallyOfAppend | app.py:687-688 | tallying one more entry credits its points to its user |
| Scoring.FirstIndex | app.py:684-690 | the first-seen position of a user is at most the log length, and when inside the log the entry there is that user's |
| Scoring.FirstIndexIsFirst | app.py:684-690 | no earlier entry holds that user |
| Scoring.PointsOfAppend | app.py:687-688 | the reference sum grows by an appended entry's points exactly when it is the user's |
| Scoring.PointsInWeekAppend | app.py:688-690 | the reference weekly sum grows by an appended entry's points exactly when it is the user's and in that week |
| Scoring.FirstIndexAppend | app.py:684-690 | appending does not move a user's first-seen position, and a new user is first seen at the end |
| Scoring.TallyConservesPoints | app.py:684-688 | a user's lifetime total is the sum of the points of that user's entries |
| Scoring.TallyListsUsersInFirstSeenOrder | app.py:684-690 | the tally lists exactly the users with entries, ordered by first entry in the log |
| Scoring.WeekEntriesSum | app.py:688-690 | summing a user's points over the week's entries is the weekly reference sum |
| Scoring.WeeklyScoreIsWeekSum | app.py:688-690 | a user's weekly total is the sum of the points of that user's entries carrying the current week |
| Scoring.WeekSumWithinLifetime | app.py:684-690 | with non-negative points, the weekly sum lies between 0 and the lifetime sum |
| Scoring.WeeklyWithinLifetime | app.py:684-690 | with non-negative points, 0 <= weekly total <= lifetime total for every user |
| Scoring.TallyStep | app.py:687-690 | one more entry credits its points to the lifetime totals, and to the weekly totals exactly when it carries the current week |
| Scoring.ComputeScores | app.py:684-690 | the loop's lifetime tally is the tally of the whole log, and its weekly tally is the tally of the current week's entries |
| Scoring.PlaceAt | app.py:701-704 | only the first three places carry a medal |
| Scoring.LeaderboardRows | app.py:701-704 | rows are numbered from 1 in ranking order; a row has a medal label exactly when its position is at most 3; the three labels are distinct |
| Scoring.WeeklyLeaderboard | app.py:682-704 | the weekly board is sorted by descending score, lists each user of the current week once, and shows each user's weekly sum |
| Scoring.RankedWeek | app.py:684-699 | the ranked week lists distinct users, exactly those with entries that week, each with the weekly sum |
| Scoring.RankedWeekUsers | app.py:684-699 | the users of the ranked week are exactly the users of the week's entries |
| Scoring.WeekUserIsTallied | app.py:684-690 | the user of any entry of the current week is listed in the weekly totals |
| Scoring.SeenUserIsRanked | app.py:684-699 | every user with an entry in the week has a place in the ranking |
| Scoring.RankedUserWasSeen | app.py:684-699 | every ranked user has an entry in the week |
| Scoring.WeeklyTiesInFirstSeenOrder | app.py:684-704 | on the weekly board, users tied on points appear in the order of their first entry that week |
| Medals.WeeksOf | app.py:238-247 | the replayed weeks are no more than the entries, and at least one when the log is not empty |
| Medals.WeekRanking | app.py:251-255 | a week's ranking is sorted by descending score and names each user once |
| Medals.Podium | app.py:257 | the podium is the first three places, or all of them when fewer |
| Medals.PodiumAward | app.py:257-259 | one podium awards the user at most one gold, one silver and one bronze |
| Medals.MedalsOver | app.py:247-259 | over a list of weeks, each medal count is at most the number of those weeks that are closed |
| Medals.LifetimeMedals | app.py:234-261 | an empty log earns nothing, and no user holds more golds, silvers or bronzes than there are closed weeks in the log |
| Medals.MedalsOverSnoc | app.py:247-259 | one more week adds that week's podium award, or nothing when it is the current week |
| Medals.WeeksOfMembers | app.py:238-247 | the weeks replayed are exactly the weeks of the log's entries, each once |
| Medals.UnlistedWeekIsEmpty | app.py:238-241 | a week not listed has no entries |
| Medals.GroupStep | app.py:240-241 | one more entry keeps the per-week grouping equal to the per-week tallies |
| Medals.GroupScoresByWeek | app.py:238-241 | the grouping loop yields, for every week of the log, the tally of that week's entries, and lists the weeks in first-seen order |
| Medals.CreditPodium | app.py:257-259 | the inner loop adds exactly the podium award of the user |
| Medals.MedalsOverPrefixStep | app.py:247-259 | replaying one more week adds its podium award, and nothing when it is the current week |
| Medals.GroupedWeekRanking | app.py:238-255 | sorting a week's totals taken from the grouping gives that week's ranking |
| Medals.ComputeLifetimeMedals | app.py:234-261 | the medal loops compute the lifetime medal tally |
| Medals.MedalsOverIgnoresCurrentWeek | app.py:245-249 | entries of the current week never change the medals earned over any list of weeks |
| Medals.ClosedWeekUnchanged | app.py:245-249 | current-week entries leave every closed week's entries unchanged |
| Medals.WeeksOfCurrentWeekAppend | app.py:238-247 | current-week entries add no week to the replay list except, at its end, the current week when it was not yet there |
| Medals.CurrentWeekNeverCounts | app.py:245-249 | adding any entries of the current week leaves every user's lifetime medals unchanged |
| Medals.OtherWeekUnchanged | app.py:245-249 | removing one week's entries leaves every other week's entries unchanged |
| Medals.WeeksWithoutWeek | app.py:238-249 | the weeks replayed for the log without one week are the log's weeks minus that week |
| Medals.MedalsOverWithoutWeek | app.py:247-259 | without the current week's entries, and over the weeks minus the current one, a user earns the same medals |
| Medals.CurrentWeekEntriesAnywhereNeverCount | app.py:234-261 | removing every entry of the current week, wherever it sits in the log, leaves every user's lifetime medals unchanged |
| Medals.PodiumUsersHaveEntries | app.py:257-259 | a user with no entry (up to case) wins nothing from any week's podium |
| Medals.MedalsOverWithoutUser | app.py:247-259 | a user with no entry (up to case) wins nothing over any list of weeks |
| Medals.NoEntriesNoMedals | app.py:234-261 | a user with no entry (up to case) has {0, 0, 0} |
| Medals.PodiumSize | app.py:251-257 | a week's podium has min(3, number of that week's users) places, so a week with fewer than three users awards fewer medals |
| Medals.ClosedCountIsSetSize | app.py:247-249 | over distinct weeks, the closed count is the number of weeks other than the current one |
| Medals.ClosedWeeksOfLog | app.py:238-249 | the closed weeks of the log are the distinct week numbers of its entries other than the current week |
| Collection.AddSighting | app.py:287-293 | one more entry keeps exactly the five tier keys |
| Collection.AddSightingMembership | app.py:287-293 | after one more entry, a bird is under a tier exactly when it was before, or the entry is the user's (up to case) sighting of that bird with points of that tier |
| Collection.SpeciesByTier | app.py:276-295 | the collection always has exactly the five tier keys |
| Collection.ComputeLifetimeSpecies | app.py:276-295 | the loop over the log computes the collection |
| Collection.SpeciesMembership | app.py:287-293 | a bird is under a tier exactly when one of the user's entries (up to case) names it with points of that tier; entries whose points have no tier contribute nothing |
| Collection.RepeatSightingAddsNothing | app.py:291-293 | a repeat sighting of a collected bird at the same tier leaves the collection unchanged |
| Collection.TotalWithinUserEntries | app.py:276-295 | the total number of collected species is at most the number of the user's entries |
| Collection.WeekBirdsAppend | app.py:311-316 | an appended entry adds its bird to the user's week set exactly when it is that user's (up to case) and that week's |
| Collection.WeeklySpeciesCountsSightings | app.py:307-318 | the weekly species count is at most the user's entries that week, and equal to it when the log has no duplicate sightings |
| Collection.SpeciesCollectedThisWeek | app.py:307-318 | the weekly species count is 0 exactly when the user (up to case) has no entry this week |
| Collection.WeekBirdsEmpty | app.py:311-316 | the user's week set is empty exactly when no entry is that user's (up to case) and that week's |
| Collection.FreshWeekBird | app.py:307-318 | in a log without duplicate sightings, the last entry's bird is not yet among its user's birds of that week |
| Collection.ConfirmGrowsWeeklySpecies | app.py:307-359 | a confirm raises the weekly species count by one when it records, and leaves it unchanged when the guard fires |
| Suggestions.KeepCatalogNames | app.py:496-499 | the catalog filter keeps, in order, exactly the candidates naming a catalog species, each as often as in the input |
| Suggestions.KeepGulls | app.py:517 | the gull filter keeps, in order, exactly the gull candidates, each as often as in the input |
| Suggestions.MentionsGull | app.py:509-511 | the gull condition holds exactly when the lower-cased description contains "gull" |
| Suggestions.KeepGullsAppend | app.py:517 | the gull filter distributes over concatenation |
| Suggestions.GullsSurviveCatalogFilter | app.py:512-519 | filtering gulls after the catalog filter equals filtering gulls from the raw list |
| Suggestions.FilterSuggestions | app.py:493-519 | no suggestions exactly when no candidate names a catalog species; otherwise a non-empty, order-preserving selection of catalog candidates, which is the gull candidates when the description mentions a gull and one exists, else all catalog candidates |
| Suggestions.PositiveTotal | app.py:523 | the total of the positive confidences is never negative |
| Suggestions.Rescaled | app.py:525-526 | rescaling keeps names and order and divides each confidence by the total |
| Suggestions.RescaledTotal | app.py:523-526 | dividing by a positive total divides the sum of positive confidences by it |
| Suggestions.NormalizedSumsToOne | app.py:523-526 | after normalising, the positive confidences sum to exactly 1 |
| Suggestions.NormalizeConfidences | app.py:522-526 | the loop divides every confidence by the positive total when it is positive, and changes nothing otherwise |
| Suggestions.IdentifyBird | app.py:488-528 | an unparseable answer or one without catalog names gives no suggestions; otherwise the filtered candidates, in order, each confidence divided by the positive total when that total is positive and unchanged otherwise, so the positive confidences sum to 1 whenever any was positive |
| Suggestions.SeagullMentioned | app.py:509-511 | "Seagull" triggers the gull restriction, whatever its case |
| Suggestions.SeagullDescription | app.py:493-519 | for "Seagull" and the candidates Ring-billed Gull, American Robin and Herring Gull, the robin is dropped |
| Scenarios.RepeatedBlueJay | app.py:336-376 | alice's second Blue Jay in week 1 is turned away, and alice and bob each hold 10 points for the week |
| Scenarios.WeekOneGrouping | app.py:238-241 | the week-1 log has the one week 1, holding every entry |
| Scenarios.WeekOneTotals | app.py:240-241 | the week-1 totals are alice 30, bob 20, carol 10, in that order |
| Scenarios.WeekOneRanking | app.py:251-255 | week 1 ranks alice, bob, carol |
| Scenarios.WeekOneNames | app.py:257-259 | on that podium, alice takes gold only and dave takes nothing |
| Scenarios.WeekOneMedals | app.py:234-261 | in week 2 the lifetime medals are week 1's podium award |
| Scenarios.SingleClosedWeek | app.py:234-261 | with week 1 closed at alice 30, bob 20, carol 10, alice holds one gold and dave holds none |

## Left out

- The user interface is not part of this model. This covers the Streamlit
  pages, buttons, session state, the background image, bird images and
  descriptions (`app.py:15-130`, `572-762`).
- Login names are trimmed and lower-cased by the username box at `app.py:573`,
  which is not part of this model. Users are taken as given.
- JSON file persistence is not modelled. The store holds the log as a sequence
  field, and `SaveEntry` appends to it. The rule that a missing data file
  reads as an empty log (`app.py:544-549`) is file I/O.
- Caching and `DEV_MODE` are not modelled. Every view is computed from the log
  directly. Cache invalidation changes only speed.
- The clock is not modelled. `current_week()` and the ISO timestamp are
  parameters. Sightings.CountUserBirdThisWeek and Scoring.ComputeScores take
  one current week for the whole computation, whereas the leaderboard loop
  reads the clock per entry.
- The classifier request, prompt and JSON decoding are not modelled. They are
  a foreign service. `Suggestions.IdentifyBird` takes the decoded candidate
  list, or `None` when decoding failed.
- Malformed classifier answers are not modelled. Each candidate is a bird name
  with a confidence, so the model cannot express what raises in the source:
  input that is not a list of dictionaries, a candidate without
  "confidence" (a `KeyError` at `app.py:523`), or an unhashable "bird" (a
  `TypeError` at `app.py:498`). Where the source raises, the model returns
  suggestions.
- Suggestions.NormalizeConfidences: confidences are exact reals, not IEEE
  doubles, so the sum of normalised confidences is exactly 1 in the model,
  while the floating-point source may be off by a rounding error.
- Text.Lower / Text.LowerChar: lower-case ASCII letters only. Python's `str.lower` also folds
  non-ASCII letters.
- Sightings.AfterConfirm / Sightings.SightingStore.ConfirmBird: uniqueness of
  sightings and idempotence of a repeated confirm are proved only when the
  guard's week (`app.py:337`, `app.py:369`) and the entry's week
  (`app.py:351`) are the same reading. `Sightings.ClockTickCanDuplicate` shows
  the duplicate the source can store when the week turns between the two.
- Two app sessions appending at the same time can lose an update in the
  read-modify-write of the data file. The model appends atomically.
