/**
 * The admin leads page (src/pages/admin/leads.tsx): project requests listed
 * from the `leads` table, each with a status drop-down.
 */
module Leads {
  import opened Wrappers
  import opened Store

  /** A row of the `leads` table. */
  datatype Lead = Lead(
    name: string,
    email: string,
    phone: string,
    businessDescription: string,
    requirements: string,
    status: string)

  /** The options of the status drop-down. */
  datatype StatusOption = New | Contacted | Closed

  /** The `value` attribute of an option. */
  function StatusValue(o: StatusOption): string {
    match o
    case New => "new"
    case Contacted => "contacted"
    case Closed => "closed"
  }

  /** The values the drop-down can write, in display order. */
  const StatusValues: seq<string> := ["new", "contacted", "closed"]

  /** The selectable statuses are exactly "new", "contacted" and "closed", and
      distinct options write distinct values. */
  lemma StatusOptionsExact()
    ensures forall o :: StatusValue(o) in StatusValues
    ensures forall v :: v in StatusValues ==> exists o :: StatusValue(o) == v
    ensures forall o, o' :: StatusValue(o) == StatusValue(o') ==> o == o'
  {
    assert StatusValue(New) == StatusValues[0];
    assert StatusValue(Contacted) == StatusValues[1];
    assert StatusValue(Closed) == StatusValues[2];
  }

  /** The patch `{ status }`. */
  function SetStatus(s: string): Lead -> Lead {
    (l: Lead) => l.(status := s)
  }

  /** A status write sets the targeted lead's status and nothing else: the
      lead's other columns and every other row are unchanged. */
  lemma StatusWriteIsolated(t: seq<Row<Lead>>, id: string, o: StatusOption)
    ensures var r := UpdateById(t, id, SetStatus(StatusValue(o)));
      |r| == |t| && forall i :: 0 <= i < |t| ==>
        && r[i].id == t[i].id
        && (t[i].id != id ==> r[i] == t[i])
        && (t[i].id == id ==>
              r[i].fields.status == StatusValue(o) &&
              r[i].fields.(status := t[i].fields.status) == t[i].fields)
  {
  }

  /** Choosing the same status twice has the effect of choosing it once. */
  lemma StatusWriteIdempotent(t: seq<Row<Lead>>, id: string, o: StatusOption)
    ensures UpdateById(UpdateById(t, id, SetStatus(StatusValue(o))), id, SetStatus(StatusValue(o)))
         == UpdateById(t, id, SetStatus(StatusValue(o)))
  {
    UpdateIdempotent(t, id, SetStatus(StatusValue(o)));
  }

  /** The leads page: the `leads` table as the store holds it, and the page's copy. */
  class LeadsPage {
    var table: seq<Row<Lead>>
    var leads: seq<Row<Lead>>
    var isLoading: bool

    ghost predicate Valid()
      reads this
    {
      DistinctIds(table)
    }

    constructor (table: seq<Row<Lead>>)
      requires DistinctIds(table)
      ensures Valid() && this.table == table && leads == [] && isLoading
    {
      this.table := table;
      leads := [];
      isLoading := true;
    }

    /** `fetchLeads`: on success the list becomes the table; loading ends. */
    method FetchLeads(failure: Option<StoreError>)
      modifies this`leads, this`isLoading
      ensures leads == if failure.None? then table else old(leads)
      ensures !isLoading
    {
      if failure.None? {
        leads := table;
      }
      isLoading := false;
    }

    /** `updateStatus(id, status)` with the chosen option: writes it (the reply
        is not checked) and re-fetches. */
    method UpdateStatus(id: string, status: StatusOption, accepted: bool, fetchFailure: Option<StoreError>)
      requires Valid()
      modifies this
      ensures Valid()
      ensures table == if accepted then UpdateById(old(table), id, SetStatus(StatusValue(status))) else old(table)
      ensures leads == (if fetchFailure.None? then table else old(leads)) && !isLoading
    {
      if accepted {
        UpdateKeepsIds(table, id, SetStatus(StatusValue(status)));
        table := UpdateById(table, id, SetStatus(StatusValue(status)));
      }
      FetchLeads(fetchFailure);
    }
  }
}
