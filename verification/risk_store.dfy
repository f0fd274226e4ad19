/** The risk store: the ordered list of risk records and the pure list
    transforms the board's handlers compute their new list with: append a
    record built from a draft, rewrite the status of the records with an id,
    and keep the records that meet a criterion. */
module RiskStore {
  import opened AddRiskForm

  datatype Option<T> = None | Some(value: T)

  /** One row of the RAID log. Ids are numbers, statuses and levels strings. */
  datatype Risk = Risk(id: int, title: string, description: string,
                       probability: string, impact: string, status: string)

  const NEW := "New"
  const MONITORING := "Monitoring"
  const MITIGATING := "Mitigating"
  const CLOSED := "Closed"

  /** A lane of the board: its heading and the status it shows. */
  datatype Column = Column(title: string, status: string)

  /** The board's lanes, left to right. */
  const Columns: seq<Column> := [
    Column("\U{1F195} New Risks", NEW),
    Column("\U{1F440} Monitoring", MONITORING),
    Column("\U{1F6E1}\U{FE0F} Mitigating", MITIGATING),
    Column("\U{2705} Closed", CLOSED)
  ]

  predicate IsColumnStatus(s: string) {
    s == NEW || s == MONITORING || s == MITIGATING || s == CLOSED
  }

  /** Every record sits in one of the board's lanes. */
  predicate AllInColumns(risks: seq<Risk>) {
    forall r :: r in risks ==> IsColumnStatus(r.status)
  }

  predicate DistinctIds(risks: seq<Risk>) {
    forall i, j :: 0 <= i < j < |risks| ==> risks[i].id != risks[j].id
  }

  predicate IdInUse(risks: seq<Risk>, id: int) {
    exists r :: r in risks && r.id == id
  }

  /** Every record has a title. */
  predicate AllTitled(risks: seq<Risk>) {
    forall r :: r in risks ==> r.title != ""
  }

  /** The records the board starts with. */
  const InitialRisks: seq<Risk> := [
    Risk(1, "Database Timeout", "Queries taking too long during peak load", "High", "High", NEW),
    Risk(2, "Vendor API Change", "3rd party provider updating schema next month", "Medium", "High", MONITORING),
    Risk(3, "Staff Holiday", "Key FE dev off for 2 weeks in sprint 4", "High", "Medium", MITIGATING)
  ]

  /** The column table lists each of the four statuses exactly once, and the
      initial records have distinct ids, titles and column statuses. */
  lemma {:induction false} BoardTables()
    ensures |Columns| == 4
    ensures forall i :: 0 <= i < |Columns| ==> IsColumnStatus(Columns[i].status)
    ensures forall s :: IsColumnStatus(s) ==> exists i :: 0 <= i < |Columns| && Columns[i].status == s
    ensures forall i, j :: 0 <= i < j < |Columns| ==> Columns[i].status != Columns[j].status
    ensures AllInColumns(InitialRisks) && DistinctIds(InitialRisks) && AllTitled(InitialRisks)
  {
    forall s | IsColumnStatus(s) ensures exists i :: 0 <= i < |Columns| && Columns[i].status == s {
      if s == NEW { assert Columns[0].status == s; }
      else if s == MONITORING { assert Columns[1].status == s; }
      else if s == MITIGATING { assert Columns[2].status == s; }
      else { assert Columns[3].status == s; }
    }
  }

  // ---------------------------------------------------------------- add

  /** The record `handleAddRisk` builds: the draft's fields, the new id, and
      status New whatever the draft held. */
  function FromDraft(d: Draft, id: int): (r: Risk)
    ensures r.id == id && r.status == NEW
    ensures r.title == d.title && r.description == d.description
    ensures r.probability == d.probability && r.impact == d.impact
  {
    Risk(id, d.title, d.description, d.probability, d.impact, NEW)
  }

  /** Append the record built from a draft. */
  function AddRecord(risks: seq<Risk>, d: Draft, id: int): (r: seq<Risk>)
    ensures |r| == |risks| + 1
    ensures r[..|risks|] == risks
    ensures r[|risks|] == FromDraft(d, id)
  {
    risks + [FromDraft(d, id)]
  }

  /** Adding under an id no record uses keeps the ids distinct. */
  lemma AddKeepsIdsDistinct(risks: seq<Risk>, d: Draft, id: int)
    requires DistinctIds(risks)
    requires !IdInUse(risks, id)
    ensures DistinctIds(AddRecord(risks, d, id))
  {
  }

  /** The new record lands in a lane, and keeps every record titled when the
      draft was submittable. */
  lemma AddKeepsInvariants(risks: seq<Risk>, d: Draft, id: int)
    ensures AllInColumns(risks) ==> AllInColumns(AddRecord(risks, d, id))
    ensures AllTitled(risks) && Submittable(d) ==> AllTitled(AddRecord(risks, d, id))
  {
  }

  // ---------------------------------------------------------- patch on drop

  /** Whether a record's id equals the dropped id (no record matches a
      missing id, the NaN of a payload that does not parse). */
  predicate IdMatches(target: Option<int>, r: Risk) {
    target == Some(r.id)
  }

  /** The `map` of `handleDrop`: every record whose id is the dropped id gets
      the lane's status; the rest stay as they are. */
  function PatchStatus(risks: seq<Risk>, target: Option<int>, status: string): (r: seq<Risk>)
    ensures |r| == |risks|
    ensures forall i :: 0 <= i < |risks| ==> r[i] == risks[i].(status := r[i].status)
    ensures forall i :: 0 <= i < |risks| ==>
              r[i].status == if IdMatches(target, risks[i]) then status else risks[i].status
  {
    if risks == [] then []
    else
      var head := if IdMatches(target, risks[0]) then risks[0].(status := status) else risks[0];
      [head] + PatchStatus(risks[1..], target, status)
  }

  /** A drop whose id matches no record leaves the list as it was. */
  lemma PatchUnknownId(risks: seq<Risk>, target: Option<int>, status: string)
    requires forall r :: r in risks ==> !IdMatches(target, r)
    ensures PatchStatus(risks, target, status) == risks
  {
  }

  /** Dropping a record onto the lane it is already in changes nothing, when
      ids are distinct. */
  lemma PatchOntoCurrentLane(risks: seq<Risk>, k: int)
    requires DistinctIds(risks)
    requires 0 <= k < |risks|
    ensures PatchStatus(risks, Some(risks[k].id), risks[k].status) == risks
  {
  }

  /** Drop changes no id (so distinct ids stay distinct) and, when the target
      lane is a column, keeps every record in a column; titles are kept. */
  lemma PatchKeepsInvariants(risks: seq<Risk>, target: Option<int>, status: string)
    ensures DistinctIds(risks) ==> DistinctIds(PatchStatus(risks, target, status))
    ensures AllInColumns(risks) && IsColumnStatus(status) ==> AllInColumns(PatchStatus(risks, target, status))
    ensures AllTitled(risks) ==> AllTitled(PatchStatus(risks, target, status))
  {
    var r := PatchStatus(risks, target, status);
    forall x | x in r ensures x.title != "" || !AllTitled(risks)
      ensures IsColumnStatus(x.status) || !(AllInColumns(risks) && IsColumnStatus(status))
    {
      var i :| 0 <= i < |r| && r[i] == x;
      assert risks[i] in risks;
    }
  }

  // ------------------------------------------------------------------ filter

  /** The conditions the store filters on: a lane's status, and the id test
      of delete (and its negation, which counts what delete drops). */
  datatype Criterion = StatusIs(status: string) | IdIs(id: int) | IdIsNot(id: int)

  predicate Matches(c: Criterion, r: Risk) {
    match c
    case StatusIs(s) => r.status == s
    case IdIs(id) => r.id == id
    case IdIsNot(id) => r.id != id
  }

  /** `Array.filter`: the records that meet the criterion, in list order. */
  function Select(risks: seq<Risk>, c: Criterion): (r: seq<Risk>)
    ensures |r| <= |risks|
    ensures forall x :: x in r <==> x in risks && Matches(c, x)
  {
    if risks == [] then []
    else (if Matches(c, risks[0]) then [risks[0]] else []) + Select(risks[1..], c)
  }

  /** `a` is `b` with some elements left out, the others in their order. */
  predicate IsSubsequence<T(==)>(a: seq<T>, b: seq<T>)
    decreases |b|
  {
    if a == [] then true
    else if b == [] then false
    else (a[0] == b[0] && IsSubsequence(a[1..], b[1..])) || IsSubsequence(a, b[1..])
  }

  /** Filtering keeps the order of the list. */
  lemma {:induction false} SelectIsSubsequence(risks: seq<Risk>, c: Criterion)
    ensures IsSubsequence(Select(risks, c), risks)
  {
    if risks != [] {
      var r := Select(risks, c);
      var rest := Select(risks[1..], c);
      SelectIsSubsequence(risks[1..], c);
      if Matches(c, risks[0]) {
        assert r[0] == risks[0] && r[1..] == rest;
      } else {
        assert r == rest;
      }
    }
  }

  /** Filtering keeps every copy of a matching record and no copy of any
      other: with the order kept, it is exactly the matching records. */
  lemma {:induction false} SelectMultiset(risks: seq<Risk>, c: Criterion, x: Risk)
    ensures multiset(Select(risks, c))[x] == if Matches(c, x) then multiset(risks)[x] else 0
  {
    if risks != [] {
      SelectMultiset(risks[1..], c, x);
      assert risks == [risks[0]] + risks[1..];
    }
  }

  /** Filtering a concatenation filters each part. */
  lemma {:induction false} SelectAppend(a: seq<Risk>, b: seq<Risk>, c: Criterion)
    ensures Select(a + b, c) == Select(a, c) + Select(b, c)
  {
    if a == [] {
      assert a + b == b;
    } else {
      var head := if Matches(c, a[0]) then [a[0]] else [];
      assert (a + b)[0] == a[0] && (a + b)[1..] == a[1..] + b;
      assert Select(a + b, c) == head + Select(a[1..] + b, c);
      SelectAppend(a[1..], b, c);
      assert Select(a, c) == head + Select(a[1..], c);
    }
  }

  /** A filter every record passes returns the list itself. */
  lemma {:induction false} SelectAll(risks: seq<Risk>, c: Criterion)
    requires forall x :: x in risks ==> Matches(c, x)
    ensures Select(risks, c) == risks
  {
    if risks != [] {
      assert risks[0] in risks;
      assert forall x :: x in risks[1..] ==> x in risks;
      SelectAll(risks[1..], c);
    }
  }

  /** A filter no record passes returns the empty list. */
  lemma {:induction false} SelectNone(risks: seq<Risk>, c: Criterion)
    requires forall x :: x in risks ==> !Matches(c, x)
    ensures Select(risks, c) == []
  {
    if risks != [] {
      assert risks[0] in risks;
      assert forall x :: x in risks[1..] ==> x in risks;
      SelectNone(risks[1..], c);
    }
  }

  /** Filtering a list of distinct ids leaves distinct ids. */
  lemma {:induction false} SelectKeepsIdsDistinct(risks: seq<Risk>, c: Criterion)
    requires DistinctIds(risks)
    ensures DistinctIds(Select(risks, c))
  {
    if risks != [] {
      var tail := risks[1..];
      assert DistinctIds(tail) by {
        forall i, j | 0 <= i < j < |tail| ensures tail[i].id != tail[j].id {
          assert tail[i] == risks[i + 1] && tail[j] == risks[j + 1];
        }
      }
      SelectKeepsIdsDistinct(tail, c);
      var rest := Select(tail, c);
      if Matches(c, risks[0]) {
        var r := [risks[0]] + rest;
        forall i, j | 0 <= i < j < |r| ensures r[i].id != r[j].id {
          if i == 0 {
            assert r[j] == rest[j - 1] && rest[j - 1] in rest;
            var k :| 0 <= k < |tail| && tail[k] == r[j];
            assert tail[k] == risks[k + 1];
          } else {
            assert r[i] == rest[i - 1] && r[j] == rest[j - 1];
          }
        }
      }
    }
  }

  // ------------------------------------------------------------------ delete

  /** The `filter` of `handleDeleteRisk`: keep the records whose id differs. */
  function RemoveId(risks: seq<Risk>, id: int): (r: seq<Risk>)
    ensures forall x :: x in r <==> x in risks && x.id != id
  {
    Select(risks, IdIsNot(id))
  }

  /** Delete keeps the records whose id differs, each as often as the list
      holds it, in their original order. */
  lemma RemoveKeepsOrder(risks: seq<Risk>, id: int, x: Risk)
    ensures IsSubsequence(RemoveId(risks, id), risks)
    ensures multiset(RemoveId(risks, id))[x] == if x.id != id then multiset(risks)[x] else 0
  {
    SelectIsSubsequence(risks, IdIsNot(id));
    SelectMultiset(risks, IdIsNot(id), x);
  }

  /** Delete drops exactly as many records as have the id. */
  lemma {:induction false} RemoveCount(risks: seq<Risk>, id: int)
    ensures |RemoveId(risks, id)| == |risks| - |Select(risks, IdIs(id))|
  {
    if risks != [] {
      RemoveCount(risks[1..], id);
    }
  }

  /** With distinct ids, a used id is carried by exactly one record. */
  lemma {:induction false} UsedIdMatchesOnce(risks: seq<Risk>, id: int)
    requires DistinctIds(risks)
    requires IdInUse(risks, id)
    ensures |Select(risks, IdIs(id))| == 1
  {
    var tail := risks[1..];
    assert DistinctIds(tail) by {
      forall i, j | 0 <= i < j < |tail| ensures tail[i].id != tail[j].id {
        assert tail[i] == risks[i + 1] && tail[j] == risks[j + 1];
      }
    }
    if risks[0].id == id {
      forall x | x in tail ensures x.id != id {
        var k :| 0 <= k < |tail| && tail[k] == x;
        assert tail[k] == risks[k + 1];
      }
      SelectNone(tail, IdIs(id));
    } else {
      var x :| x in risks && x.id == id;
      assert x in tail;
      UsedIdMatchesOnce(tail, id);
    }
  }

  /** Delete of an id in use shrinks a list of distinct ids by one; delete of
      an unused id leaves the list unchanged. */
  lemma RemoveEffect(risks: seq<Risk>, id: int)
    ensures DistinctIds(risks) && IdInUse(risks, id) ==> |RemoveId(risks, id)| == |risks| - 1
    ensures !IdInUse(risks, id) ==> RemoveId(risks, id) == risks
  {
    RemoveCount(risks, id);
    if DistinctIds(risks) && IdInUse(risks, id) {
      UsedIdMatchesOnce(risks, id);
    }
    if !IdInUse(risks, id) {
      SelectAll(risks, IdIsNot(id));
    }
  }

  /** Delete keeps ids distinct, records in columns and titles present. */
  lemma RemoveKeepsInvariants(risks: seq<Risk>, id: int)
    ensures DistinctIds(risks) ==> DistinctIds(RemoveId(risks, id))
    ensures AllInColumns(risks) ==> AllInColumns(RemoveId(risks, id))
    ensures AllTitled(risks) ==> AllTitled(RemoveId(risks, id))
  {
    if DistinctIds(risks) {
      SelectKeepsIdsDistinct(risks, IdIsNot(id));
    }
  }
}
