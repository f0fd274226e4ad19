/** The add-risk modal's draft: the four values the form collects before a
    risk is logged, their defaults, the per-field edits the inputs make, and
    the one validation rule (a non-empty title). */
module AddRiskForm {

  /** The form's local state (`formData`). */
  datatype Draft = Draft(title: string, description: string, probability: string, impact: string)

  /** The inputs of the form, one per draft field. */
  datatype Field = Title | Description | Probability | Impact

  /** The options of the probability and impact selects. */
  const Levels: seq<string> := ["Low", "Medium", "High"]

  /** The draft the form starts from and is reset to after a submit. */
  const DefaultDraft: Draft := Draft("", "", "Medium", "Medium")

  function FieldValue(d: Draft, f: Field): string {
    match f
    case Title => d.title
    case Description => d.description
    case Probability => d.probability
    case Impact => d.impact
  }

  /** An input's change handler: spread the draft and overwrite one field. */
  function Edit(d: Draft, f: Field, value: string): (e: Draft)
    ensures FieldValue(e, f) == value
    ensures forall g: Field :: g != f ==> FieldValue(e, g) == FieldValue(d, g)
  {
    match f
    case Title => d.(title := value)
    case Description => d.(description := value)
    case Probability => d.(probability := value)
    case Impact => d.(impact := value)
  }

  /** The title input is `required`: only a draft with a title is submitted. */
  predicate Submittable(d: Draft) {
    d.title != ""
  }

  /** Both levels hold one of the select options. */
  predicate LevelsChosen(d: Draft) {
    d.probability in Levels && d.impact in Levels
  }

  /** The default draft cannot be submitted as it stands, and its levels are
      select options (both Medium). */
  lemma DefaultDraftShape()
    ensures !Submittable(DefaultDraft)
    ensures LevelsChosen(DefaultDraft)
    ensures DefaultDraft.probability == Levels[1] && DefaultDraft.impact == Levels[1]
  {
  }

  /** Editing with values the inputs can produce keeps both levels among the
      select options; a text edit never touches the levels. */
  lemma EditKeepsLevels(d: Draft, f: Field, value: string)
    requires LevelsChosen(d)
    requires (f == Probability || f == Impact) ==> value in Levels
    ensures LevelsChosen(Edit(d, f, value))
  {
  }

  /** Typing a non-empty title makes a draft submittable; no other edit
      changes whether it is. */
  lemma EditSubmittable(d: Draft, f: Field, value: string)
    ensures Submittable(Edit(d, f, value)) ==
            (if f == Title then value != "" else Submittable(d))
  {
  }
}
