/** The board view: each lane shows the records whose status is the lane's,
    in list order, under a badge with their count. The lanes are recomputed
    from the one list, so they partition it whenever every status is a column
    status. */
module BoardView {
  import opened AddRiskForm
  import opened RiskStore

  /** The items a lane shows. */
  function Lane(risks: seq<Risk>, status: string): (items: seq<Risk>)
    ensures forall x :: x in items <==> x in risks && x.status == status
  {
    Select(risks, StatusIs(status))
  }

  /** The number on a lane's header. */
  function LaneCount(risks: seq<Risk>, status: string): (n: nat)
    ensures n <= |risks|
    ensures n == 0 <==> forall x :: x in risks ==> x.status != status
  {
    var items := Lane(risks, status);
    assert items != [] ==> items[0] in items;
    |items|
  }

  /** A lane is the order-preserving subsequence of the records with its
      status, holding each of them as often as the list does. */
  lemma LaneIsOrderedSelection(risks: seq<Risk>, status: string, x: Risk)
    ensures IsSubsequence(Lane(risks, status), risks)
    ensures multiset(Lane(risks, status))[x] == if x.status == status then multiset(risks)[x] else 0
  {
    SelectIsSubsequence(risks, StatusIs(status));
    SelectMultiset(risks, StatusIs(status), x);
  }

  /** When every status is a column status, the four lanes hold together
      exactly the records of the list, each once. */
  lemma LanesPartition(risks: seq<Risk>)
    requires AllInColumns(risks)
    ensures multiset(Lane(risks, NEW)) + multiset(Lane(risks, MONITORING))
          + multiset(Lane(risks, MITIGATING)) + multiset(Lane(risks, CLOSED)) == multiset(risks)
  {
    var lanes := multiset(Lane(risks, NEW)) + multiset(Lane(risks, MONITORING))
               + multiset(Lane(risks, MITIGATING)) + multiset(Lane(risks, CLOSED));
    forall x ensures lanes[x] == multiset(risks)[x] {
      LanesCountAt(risks, x);
    }
  }

  /** Under the same condition, the four lanes hold a record together exactly
      as often as the list does. */
  lemma LanesCountAt(risks: seq<Risk>, x: Risk)
    requires AllInColumns(risks)
    ensures multiset(Lane(risks, NEW))[x] + multiset(Lane(risks, MONITORING))[x]
          + multiset(Lane(risks, MITIGATING))[x] + multiset(Lane(risks, CLOSED))[x] == multiset(risks)[x]
  {
    LaneIsOrderedSelection(risks, NEW, x);
    LaneIsOrderedSelection(risks, MONITORING, x);
    LaneIsOrderedSelection(risks, MITIGATING, x);
    LaneIsOrderedSelection(risks, CLOSED, x);
    if x in risks {
      assert IsColumnStatus(x.status);
    }
  }

  /** The lane counts add up to the length of the list. */
  lemma LaneCountsSum(risks: seq<Risk>)
    requires AllInColumns(risks)
    ensures LaneCount(risks, NEW) + LaneCount(risks, MONITORING)
          + LaneCount(risks, MITIGATING) + LaneCount(risks, CLOSED) == |risks|
  {
    LanesPartition(risks);
    assert |multiset(risks)| == |risks|;
  }

  /** Every record is in exactly one lane: the lane of its status. */
  lemma EveryRecordInOneLane(risks: seq<Risk>, k: int)
    requires AllInColumns(risks)
    requires 0 <= k < |risks|
    ensures exists i :: 0 <= i < |Columns| && risks[k] in Lane(risks, Columns[i].status)
    ensures forall i, j ::
              (0 <= i < |Columns| && 0 <= j < |Columns|
               && risks[k] in Lane(risks, Columns[i].status)
               && risks[k] in Lane(risks, Columns[j].status)) ==> i == j
  {
    BoardTables();
    assert risks[k] in risks;
    var i :| 0 <= i < |Columns| && Columns[i].status == risks[k].status;
    assert risks[k] in Lane(risks, Columns[i].status);
  }

  /** Adding puts the new record at the end of the New lane and leaves every
      other lane as it was. */
  lemma AddLandsInNewLane(risks: seq<Risk>, d: Draft, id: int, status: string)
    ensures Lane(AddRecord(risks, d, id), status) ==
            if status == NEW then Lane(risks, status) + [FromDraft(d, id)] else Lane(risks, status)
  {
    var r := AddRecord(risks, d, id);
    assert r == risks + [FromDraft(d, id)];
    SelectAppend(risks, [FromDraft(d, id)], StatusIs(status));
    assert [FromDraft(d, id)] == [FromDraft(d, id)] + [];
  }

  /** Dropping record k onto a lane moves it there: it is shown in that lane,
      and no record with its id is left in any other lane. */
  lemma DropMovesRecord(risks: seq<Risk>, k: int, status: string, other: string)
    requires 0 <= k < |risks|
    requires other != status
    ensures risks[k].(status := status) in Lane(PatchStatus(risks, Some(risks[k].id), status), status)
    ensures forall x :: x in Lane(PatchStatus(risks, Some(risks[k].id), status), other) ==> x.id != risks[k].id
  {
    var r := PatchStatus(risks, Some(risks[k].id), status);
    forall x | x in Lane(r, other) ensures x.id != risks[k].id {
      var i :| 0 <= i < |r| && r[i] == x;
      assert r[i].id == risks[i].id;
    }
  }

  /** Two records A (New) and B (Monitoring); A is dropped onto Closed. */
  lemma DropScenario()
    ensures var a := Risk(1, "A", "", "High", "High", NEW);
            var b := Risk(2, "B", "", "Low", "Medium", MONITORING);
            var after := PatchStatus([a, b], Some(1), CLOSED);
            Lane(after, NEW) == [] && Lane(after, MONITORING) == [b]
            && Lane(after, CLOSED) == [a.(status := CLOSED)] && Lane(after, MITIGATING) == []
  {
    var a := Risk(1, "A", "", "High", "High", NEW);
    var b := Risk(2, "B", "", "Low", "Medium", MONITORING);
    var moved := a.(status := CLOSED);
    var after := PatchStatus([a, b], Some(1), CLOSED);
    assert after == [moved, b] by {
      assert after[0] == moved && after[1] == b;
    }
    assert after[1..] == [b] && [b][1..] == [];
    assert Select([b], StatusIs(MONITORING)) == [b] + Select([], StatusIs(MONITORING));
    assert Select(after, StatusIs(CLOSED)) == [moved] + Select([b], StatusIs(CLOSED));
    SelectNone(after, StatusIs(NEW));
    SelectNone(after, StatusIs(MITIGATING));
    SelectNone([b], StatusIs(CLOSED));
  }
}
