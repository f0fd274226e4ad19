/** The colour choices of a card: the badge colour of a probability or impact
    level, and the accent stripe that marks a high-probability risk. */
module Colours {
  import opened AddRiskForm
  import opened RiskStore

  /** The badge classes of the three known levels. */
  const BadgeColors: map<string, string> := map[
    "High" := "bg-red-100 text-red-700 border-red-200",
    "Medium" := "bg-orange-100 text-orange-700 border-orange-200",
    "Low" := "bg-green-100 text-green-700 border-green-200"
  ]

  /** The grey badge of any other level. */
  const DefaultBadgeColor := "bg-gray-100 text-gray-700 border-gray-200"

  /** `Badge`'s lookup: the level's colour, or grey for a level the table
      does not know. */
  function BadgeColor(level: string): (c: string)
    ensures c == DefaultBadgeColor <==> level !in Levels
    ensures level == "High" ==> c == "bg-red-100 text-red-700 border-red-200"
    ensures level == "Medium" ==> c == "bg-orange-100 text-orange-700 border-orange-200"
    ensures level == "Low" ==> c == "bg-green-100 text-green-700 border-green-200"
  {
    if level in BadgeColors then BadgeColors[level] else DefaultBadgeColor
  }

  /** The badge tells the select options apart: different levels, different
      colours. */
  lemma BadgeTellsLevelsApart(a: string, b: string)
    requires a in Levels && b in Levels
    requires BadgeColor(a) == BadgeColor(b)
    ensures a == b
  {
  }

  /** A risk logged from a draft whose levels are select options shows no grey
      badge. */
  lemma LoggedRiskHasColouredBadges(d: Draft, id: int)
    requires LevelsChosen(d)
    ensures BadgeColor(FromDraft(d, id).probability) != DefaultBadgeColor
    ensures BadgeColor(FromDraft(d, id).impact) != DefaultBadgeColor
  {
  }

  const HighRiskAccent := "border-l-red-500"
  const OtherRiskAccent := "border-l-blue-400"

  /** `Card`'s left stripe: red exactly when the probability is High. */
  function CardAccent(r: Risk): (c: string)
    ensures c == HighRiskAccent <==> r.probability == "High"
    ensures c == HighRiskAccent || c == OtherRiskAccent
  {
    if r.probability == "High" then HighRiskAccent else OtherRiskAccent
  }
}
