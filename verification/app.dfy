/** The board component: the risk list, whether the add-risk modal is open,
    and the modal's draft, with the handlers that replace them. Each handler
    computes the new list with a transform of the risk store. */
module App {
  import opened AddRiskForm
  import opened RiskStore
  import opened BoardView

  class RiskBoard {
    var risks: seq<Risk>
    var modalOpen: bool
    var draft: Draft

    /** Every record sits in one of the four lanes. */
    ghost predicate Valid()
      reads this
    {
      AllInColumns(risks)
    }

    /** The board starts with the three sample risks and the modal closed. */
    constructor ()
      ensures Valid()
      ensures risks == InitialRisks && !modalOpen && draft == DefaultDraft
      ensures DistinctIds(risks) && AllTitled(risks)
    {
      risks := InitialRisks;
      modalOpen := false;
      draft := DefaultDraft;
      BoardTables();
    }

    /** `handleAddRisk`: append the record built from the draft under the
        given id. */
    method AddRisk(input: Draft, id: int)
      requires Valid()
      modifies this`risks
      ensures Valid()
      ensures risks == AddRecord(old(risks), input, id)
      ensures old(DistinctIds(risks)) && !old(IdInUse(risks, id)) ==> DistinctIds(risks)
      ensures old(AllTitled(risks)) && Submittable(input) ==> AllTitled(risks)
    {
      AddKeepsInvariants(risks, input, id);
      if DistinctIds(risks) && !IdInUse(risks, id) {
        AddKeepsIdsDistinct(risks, input, id);
      }
      risks := AddRecord(risks, input, id);
    }

    /** `handleDrop` on lane `lane`: the payload is the dragged id, or None
        when it does not parse as a number. */
    method Drop(payload: Option<int>, lane: nat)
      requires Valid()
      requires lane < |Columns|
      modifies this`risks
      ensures Valid()
      ensures risks == PatchStatus(old(risks), payload, Columns[lane].status)
      ensures old(DistinctIds(risks)) ==> DistinctIds(risks)
      ensures old(AllTitled(risks)) ==> AllTitled(risks)
    {
      BoardTables();
      PatchKeepsInvariants(risks, payload, Columns[lane].status);
      risks := PatchStatus(risks, payload, Columns[lane].status);
    }

    /** `handleDeleteRisk`: drop every record with the id. */
    method Delete(id: int)
      requires Valid()
      modifies this`risks
      ensures Valid()
      ensures risks == RemoveId(old(risks), id)
      ensures old(DistinctIds(risks)) ==> DistinctIds(risks)
      ensures old(AllTitled(risks)) ==> AllTitled(risks)
    {
      RemoveKeepsInvariants(risks, id);
      risks := RemoveId(risks, id);
    }

    /** The header button opens the modal; a closed modal opens on a fresh
        draft, an open one keeps the draft being typed. */
    method OpenModal()
      modifies this`modalOpen, this`draft
      ensures modalOpen
      ensures !old(modalOpen) ==> draft == DefaultDraft
      ensures old(modalOpen) ==> draft == old(draft)
    {
      if !modalOpen {
        modalOpen := true;
        draft := DefaultDraft;
      }
    }

    /** The modal's close button: the list is not touched. */
    method CloseModal()
      modifies this`modalOpen
      ensures !modalOpen
    {
      modalOpen := false;
    }

    /** An input of the open modal changes one field of the draft. */
    method EditDraft(f: Field, value: string)
      requires modalOpen
      modifies this`draft
      ensures draft == Edit(old(draft), f, value)
    {
      draft := Edit(draft, f, value);
    }

    /** Submitting the form: with a title, the draft is added under `id`,
        reset to the defaults and the modal closed; without one the form is
        not submitted and nothing changes. */
    method Submit(id: int) returns (submitted: bool)
      requires Valid()
      requires modalOpen
      modifies this
      ensures Valid()
      ensures submitted == Submittable(old(draft))
      ensures submitted ==> risks == AddRecord(old(risks), old(draft), id)
                            && draft == DefaultDraft && !modalOpen
      ensures !submitted ==> risks == old(risks) && draft == old(draft) && modalOpen
      ensures old(DistinctIds(risks)) && !old(IdInUse(risks, id)) ==> DistinctIds(risks)
      ensures old(AllTitled(risks)) ==> AllTitled(risks)
    {
      submitted := Submittable(draft);
      if submitted {
        AddRisk(draft, id);
        draft := DefaultDraft;
        modalOpen := false;
      }
    }
  }

  /** The board's invariant is what makes its four lanes partition the list:
      together they hold every record once, and their counts add up. */
  lemma ValidBoardPartitions(b: RiskBoard)
    requires b.Valid()
    ensures multiset(Lane(b.risks, NEW)) + multiset(Lane(b.risks, MONITORING))
          + multiset(Lane(b.risks, MITIGATING)) + multiset(Lane(b.risks, CLOSED)) == multiset(b.risks)
    ensures LaneCount(b.risks, NEW) + LaneCount(b.risks, MONITORING)
          + LaneCount(b.risks, MITIGATING) + LaneCount(b.risks, CLOSED) == |b.risks|
  {
    LanesPartition(b.risks);
    LaneCountsSum(b.risks);
  }

  /** Logging a risk through the modal: an empty title is refused, then
      "Outage risk" with High probability and Low impact is added as New. */
  method SubmitScenario(id: int)
  {
    var board := new RiskBoard();
    board.OpenModal();
    var ok := board.Submit(id);
    assert !ok && board.risks == InitialRisks && board.modalOpen;
    board.EditDraft(Title, "Outage risk");
    board.EditDraft(Probability, "High");
    board.EditDraft(Impact, "Low");
    ok := board.Submit(id);
    assert ok && !board.modalOpen && board.draft == DefaultDraft;
    assert |board.risks| == |InitialRisks| + 1;
    assert board.risks[3] == Risk(id, "Outage risk", "", "High", "Low", NEW);
  }
}
