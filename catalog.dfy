/**
 * Static reference data: the species that can be logged, the point value of
 * each, and the tier that each point value belongs to (app.py, BIRD_POINTS
 * and TIER_BY_POINTS).
 */
module Catalog {
  import opened Wrappers

  datatype Tier = Abundant | Common | Uncommon | Occasional | Rare

  /** Point value of every known species. */
  const BirdPoints: map<string, int> := map[
    // abundant
    "House Sparrow" := 5,
    "Rock Pigeon" := 5,
    "American Robin" := 5,
    "European Starling" := 5,
    "Mourning Dove" := 5,
    "White-throated Sparrow" := 5,
    "Canada Goose" := 5,
    "Mallard" := 5,
    "Ring-billed Gull" := 5,
    "Herring Gull" := 5,
    // common
    "Northern Cardinal" := 10,
    "Blue Jay" := 10,
    "Tufted Titmouse" := 10,
    "Red-tailed Hawk" := 10,
    "American Crow" := 10,
    "Song Sparrow" := 10,
    "House Finch" := 10,
    "Dark-eyed Junco" := 10,
    "Hermit Thrush" := 10,
    "Great Black-backed Gull" := 10,
    "Hooded Merganser" := 10,
    // uncommon
    "Carolina Wren" := 15,
    "Red-bellied Woodpecker" := 15,
    "Downy Woodpecker" := 15,
    "Cooper's Hawk" := 15,
    "White-breasted Nuthatch" := 15,
    "Yellow-bellied Sapsucker" := 15,
    "Gray Catbird" := 15,
    "Black-capped Chickadee" := 15,
    "Fox Sparrow" := 15,
    "Yellow-rumped Warbler" := 15,
    // occasional
    "American Goldfinch" := 20,
    "Ruby-crowned Kinglet" := 20,
    "Golden-crowned Kinglet" := 20,
    "Peregrine Falcon" := 20,
    // listed under the rare heading, but the values are 25 and 20
    "Great Horned Owl" := 25,
    "Nashville Warbler" := 20
  ]

  /** The tier that each catalog point value stands for. */
  const TierByPoints: map<int, Tier> := map[
    5 := Abundant,
    10 := Common,
    15 := Uncommon,
    20 := Occasional,
    25 := Rare
  ]

  /** Points credited for a species the catalog does not know. */
  const UnknownBirdPoints: int := 1

  /** The gull family, used by the suggestion filter. */
  const GullSpecies: set<string> := {"Ring-billed Gull", "Herring Gull", "Great Black-backed Gull"}

  /** `BIRD_POINTS.get(bird, 1)`: a known species gets a tiered value, any other name the untiered fallback. */
  function PointsFor(bird: string): (p: int)
    ensures p in {1, 5, 10, 15, 20, 25}
    ensures p in TierByPoints <==> bird in BirdPoints
    ensures bird !in BirdPoints ==> p == UnknownBirdPoints
  {
    CatalogValuesHaveTiers();
    if bird in BirdPoints then BirdPoints[bird] else UnknownBirdPoints
  }

  /** `TIER_BY_POINTS.get(points)`: the tier of a recorded point value, if it has one. */
  function TierOf(points: int): (t: Option<Tier>)
    ensures t.Some? <==> points in {5, 10, 15, 20, 25}
    ensures points < 5 || points > 25 ==> t == None
  {
    if points in TierByPoints then Some(TierByPoints[points]) else None
  }

  /** Every catalog value is one of the five tiered values; the fallback value is not tiered. */
  lemma CatalogValuesHaveTiers()
    ensures forall b :: b in BirdPoints ==> BirdPoints[b] in TierByPoints
    ensures forall b :: b in BirdPoints ==> BirdPoints[b] in {5, 10, 15, 20, 25}
    ensures UnknownBirdPoints !in TierByPoints
  {
  }

  /** Every gull the suggestion filter prefers is a catalog species. */
  lemma GullsInCatalog()
    ensures GullSpecies <= BirdPoints.Keys
  {
  }
}
