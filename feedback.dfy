/**
 * The admin feedback page (src/pages/admin/feedback.tsx): read/unread and
 * approved/hidden switches on rows of the `feedbacks` table.
 */
module Feedback {
  import opened Wrappers
  import opened Store

  /** A row of the `feedbacks` table. `approved` may be null. */
  datatype Entry = Entry(
    name: string,
    email: string,
    company: string,
    role: string,
    subject: string,
    message: string,
    status: string,
    approved: Option<bool>,
    imageUrl: Option<string>)

  /** The status the button writes: "unread" becomes "read", anything else "unread". */
  function NextStatus(current: string): (r: string)
    ensures r == "read" || r == "unread"
    ensures r == "read" <==> current == "unread"
  {
    if current == "unread" then "read" else "unread"
  }

  /** On the two intended values the status button is an involution. */
  lemma StatusToggleInvolutive(current: string)
    requires current == "read" || current == "unread"
    ensures NextStatus(NextStatus(current)) == current
  {
  }

  /** On any other stored value two presses do not restore it: they end on "read". */
  lemma StatusToggleNormalises(current: string)
    requires current != "read" && current != "unread"
    ensures NextStatus(NextStatus(current)) == "read" != current
  {
  }

  /** `item.approved || false`: the value the switch shows and toggles from. */
  function ShownApproved(approved: Option<bool>): (r: bool)
    ensures r <==> approved == Some(true)
  {
    approved.GetOr(false)
  }

  /** The flag the switch writes: the negation of the shown one, so the first
      toggle of an unset flag approves. */
  function NextApproved(current: bool): (r: bool)
    ensures r != current
  {
    !current
  }

  /** The patch `{ status: s }`. */
  function SetStatus(s: string): Entry -> Entry {
    (e: Entry) => e.(status := s)
  }

  /** The patch `{ approved: b }`. */
  function SetApproved(b: bool): Entry -> Entry {
    (e: Entry) => e.(approved := Some(b))
  }

  /** The status write changes only `status` of the targeted row; `approved`
      and every other row stay. */
  lemma StatusWriteIsolated(t: seq<Row<Entry>>, id: string, s: string)
    ensures var r := UpdateById(t, id, SetStatus(s));
      |r| == |t| && forall i :: 0 <= i < |t| ==>
        && r[i].id == t[i].id
        && (t[i].id != id ==> r[i] == t[i])
        && (t[i].id == id ==>
              r[i].fields.status == s && r[i].fields.approved == t[i].fields.approved &&
              r[i].fields.(status := t[i].fields.status) == t[i].fields)
  {
  }

  /** The approval write changes only `approved` of the targeted row; `status`
      and every other row stay. */
  lemma ApprovalWriteIsolated(t: seq<Row<Entry>>, id: string, b: bool)
    ensures var r := UpdateById(t, id, SetApproved(b));
      |r| == |t| && forall i :: 0 <= i < |t| ==>
        && r[i].id == t[i].id
        && (t[i].id != id ==> r[i] == t[i])
        && (t[i].id == id ==>
              r[i].fields.approved == Some(b) && r[i].fields.status == t[i].fields.status &&
              r[i].fields.(approved := t[i].fields.approved) == t[i].fields)
  {
  }

  /** Toggling approval twice, each time from the value the refreshed list
      shows, restores a row whose flag was set, and leaves an unset flag as
      an explicit `false`. */
  lemma ApprovalTwice(t: seq<Row<Entry>>, id: string)
    requires DistinctIds(t)
    requires Find(t, id).Some?
    ensures var b := ShownApproved(Find(t, id).value.approved);
      var once := UpdateById(t, id, SetApproved(NextApproved(b)));
      var b' := ShownApproved(Find(once, id).value.approved);
      var twice := UpdateById(once, id, SetApproved(NextApproved(b')));
      && b' == !b
      && (Find(t, id).value.approved.Some? ==> twice == t)
      && Find(twice, id) == Some(Find(t, id).value.(approved := Some(b)))
  {
    var b := ShownApproved(Find(t, id).value.approved);
    var once := UpdateById(t, id, SetApproved(NextApproved(b)));
    FindAfterUpdate(t, id, id, SetApproved(NextApproved(b)));
    UpdateKeepsIds(t, id, SetApproved(NextApproved(b)));
    var twice := UpdateById(once, id, SetApproved(b));
    FindAfterUpdate(once, id, id, SetApproved(b));
    if Find(t, id).value.approved.Some? {
      FindFirst(t, id);
      UpdateUndone(t, id, SetApproved(NextApproved(b)), SetApproved(b));
    }
  }

  /** The label beside the switch, `item.approved ? "Approved" : "Hidden"`:
      it always agrees with the switch's own position. */
  function ApprovalLabel(approved: Option<bool>): (r: string)
    ensures r == "Approved" || r == "Hidden"
    ensures r == "Approved" <==> ShownApproved(approved)
  {
    if approved == Some(true) then "Approved" else "Hidden"
  }

  /** Each press of the switch, made from the shown flag, flips the label. */
  lemma ToggleFlipsLabel(approved: Option<bool>)
    ensures ApprovalLabel(Some(NextApproved(ShownApproved(approved)))) != ApprovalLabel(approved)
  {
  }

  /** After the approval write the targeted row reads "Approved" when `b`
      holds and "Hidden" otherwise, and every other row keeps its label. */
  lemma LabelAfterApproval(t: seq<Row<Entry>>, id: string, b: bool)
    ensures var r := UpdateById(t, id, SetApproved(b));
      |r| == |t| && forall i :: 0 <= i < |t| ==>
        ApprovalLabel(r[i].fields.approved) ==
          if t[i].id == id then (if b then "Approved" else "Hidden")
          else ApprovalLabel(t[i].fields.approved)
  {
    ApprovalWriteIsolated(t, id, b);
  }

  /** The feedback page: the `feedbacks` table as the store holds it, and the
      page's copy of it. */
  class FeedbackPage {
    var table: seq<Row<Entry>>
    var feedbacks: seq<Row<Entry>>
    var isLoading: bool

    ghost predicate Valid()
      reads this
    {
      DistinctIds(table)
    }

    constructor (table: seq<Row<Entry>>)
      requires DistinctIds(table)
      ensures Valid() && this.table == table && feedbacks == [] && isLoading
    {
      this.table := table;
      feedbacks := [];
      isLoading := true;
    }

    /** `fetchFeedbacks`: on success the list becomes the table; loading ends. */
    method FetchFeedbacks(failure: Option<StoreError>)
      modifies this`feedbacks, this`isLoading
      ensures feedbacks == if failure.None? then table else old(feedbacks)
      ensures !isLoading
    {
      if failure.None? {
        feedbacks := table;
      }
      isLoading := false;
    }

    /** `toggleStatus(id, currentStatus)`: writes the next status (the reply is
        not checked) and re-fetches. */
    method ToggleStatus(id: string, currentStatus: string, accepted: bool, fetchFailure: Option<StoreError>)
      requires Valid()
      modifies this
      ensures Valid()
      ensures table == if accepted then UpdateById(old(table), id, SetStatus(NextStatus(currentStatus))) else old(table)
      ensures feedbacks == (if fetchFailure.None? then table else old(feedbacks)) && !isLoading
    {
      var newStatus := NextStatus(currentStatus);
      if accepted {
        UpdateKeepsIds(table, id, SetStatus(newStatus));
        table := UpdateById(table, id, SetStatus(newStatus));
      }
      FetchFeedbacks(fetchFailure);
    }

    /** `toggleApproval(id, currentApproved)`, called with the shown flag
        `item.approved || false`: writes its negation and re-fetches. */
    method ToggleApproval(id: string, currentApproved: bool, accepted: bool, fetchFailure: Option<StoreError>)
      requires Valid()
      modifies this
      ensures Valid()
      ensures table == if accepted then UpdateById(old(table), id, SetApproved(NextApproved(currentApproved))) else old(table)
      ensures feedbacks == (if fetchFailure.None? then table else old(feedbacks)) && !isLoading
    {
      var newApproved := NextApproved(currentApproved);
      if accepted {
        UpdateKeepsIds(table, id, SetApproved(newApproved));
        table := UpdateById(table, id, SetApproved(newApproved));
      }
      FetchFeedbacks(fetchFailure);
    }
  }
}
