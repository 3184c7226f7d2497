/** Configuration constants of the analyzer (thresholds, URLs, branch patterns). */
module Config {

  const DticBaseUrl: string := "https://dtic.dimensions.ai"
  const DticDetailUrl: string := DticBaseUrl + "/details/publication"

  /** Ranking keeps at most this many publications at or above this score. */
  const SimilarityTopK: int := 20
  const SimilarityThreshold: real := 0.3

  /** How many publications a detail-page fetch would cover by default. */
  const DetailFetchTopN: int := 50

  /** Overlap rating thresholds on the composite similarity score. */
  const OverlapHighThreshold: real := 0.60
  const OverlapMediumThreshold: real := 0.45

  /** Funding-branch detection patterns, in the dictionary's key order. Each
      key is the value string of a military branch. */
  const BranchPatterns: seq<(string, seq<string>)> := [
    ("navy", ["naval", "onr", "office of naval research", "nrl",
              "naval research laboratory", "n00014", "navy"]),
    ("army", ["aro", "arl", "army research office", "army research laboratory",
              "w911nf", "army"]),
    ("air_force", ["afosr", "afrl", "air force office of scientific research",
                   "air force research laboratory", "fa8650", "fa9550", "air force"]),
    ("darpa", ["darpa", "defense advanced research projects agency", "hr0011"]),
    ("dod", ["dod", "department of defense", "osd"]),
    ("marine_corps", ["marine corps", "usmc", "marines"]),
    ("space_force", ["space force", "ussf"])
  ]
}
