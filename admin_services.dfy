/**
 * The admin services page (src/pages/admin/services.tsx): the service names
 * offered as categories for featured work; add one by name, delete one.
 */
module AdminServices {
  import opened Wrappers
  import opened Store
  import opened Text

  const AddFallback: string := "Failed to add service"
  const LoadMessage: string := "Failed to load services"

  /** The submit button's `disabled` rule. */
  function SubmitDisabled(isSubmitting: bool, newName: string): (r: bool)
    ensures r <==> isSubmitting || forall i :: 0 <= i < |newName| ==> IsSpace(newName[i])
  {
    TrimEmptyIff(newName);
    isSubmitting || Trim(newName) == ""
  }

  /** The services page. `table` is the `services` table (id and name) as the
      store holds it. */
  class ServicesPage {
    var table: seq<Row<string>>
    var services: seq<Row<string>>
    var isLoading: bool
    var isSubmitting: bool
    var newName: string
    var error: string

    ghost predicate Valid()
      reads this
    {
      DistinctIds(table)
    }

    constructor (table: seq<Row<string>>)
      requires DistinctIds(table)
      ensures Valid() && this.table == table
      ensures services == [] && isLoading && !isSubmitting && newName == "" && error == ""
    {
      this.table := table;
      services := [];
      isLoading := true;
      isSubmitting := false;
      newName := "";
      error := "";
    }

    /** The name input's `onChange`. */
    method SetNewName(v: string)
      modifies this`newName
      ensures newName == v
    {
      newName := v;
    }

    /** `fetchServices`: on success the list becomes the table, on failure the
        page shows "Failed to load services"; loading ends either way. */
    method FetchServices(failure: Option<StoreError>)
      modifies this`services, this`error, this`isLoading
      ensures failure.None? ==> services == table && error == old(error)
      ensures failure.Some? ==> services == old(services) && error == LoadMessage
      ensures !isLoading
    {
      if failure.None? {
        services := table;
      } else {
        error := LoadMessage;
      }
      isLoading := false;
    }

    /** `handleAddService`. A blank name (empty or whitespace only) does
        nothing. Otherwise the trimmed name is inserted under the id the store
        assigns; on success the input is cleared and the list re-fetched, on
        failure the input is kept and the store's message (or the fallback)
        shown. Submitting ends on both paths. */
    method HandleAddService(newId: string, writeFailure: Option<StoreError>, fetchFailure: Option<StoreError>)
      requires Valid() && newId !in Ids(table)
      modifies this
      ensures Valid()
      ensures Trim(old(newName)) == "" ==>
        && table == old(table) && services == old(services) && newName == old(newName)
        && error == old(error) && isSubmitting == old(isSubmitting) && isLoading == old(isLoading)
      ensures Trim(old(newName)) != "" ==> !isSubmitting
      ensures Trim(old(newName)) != "" && writeFailure.Some? ==>
        && table == old(table) && services == old(services) && newName == old(newName)
        && isLoading == old(isLoading) && error == ErrorText(writeFailure.value, AddFallback)
      ensures Trim(old(newName)) != "" && writeFailure.None? ==>
        && table == Insert(old(table), newId, Trim(old(newName)))
        && newName == ""
        && (fetchFailure.None? ==> services == table && error == "")
        && (fetchFailure.Some? ==> services == old(services) && error == LoadMessage)
        && !isLoading
    {
      var name := Trim(newName);
      if name == "" {
        return;
      }
      Submit(newId, name, writeFailure, fetchFailure);
    }

    /** `handleAddService` once the trimmed name is known not to be blank. */
    method Submit(newId: string, name: string, writeFailure: Option<StoreError>, fetchFailure: Option<StoreError>)
      requires Valid() && newId !in Ids(table)
      modifies this
      ensures Valid() && !isSubmitting
      ensures writeFailure.Some? ==>
        && table == old(table) && services == old(services) && newName == old(newName)
        && isLoading == old(isLoading) && error == ErrorText(writeFailure.value, AddFallback)
      ensures writeFailure.None? ==>
        && table == Insert(old(table), newId, name)
        && newName == ""
        && (fetchFailure.None? ==> services == table && error == "")
        && (fetchFailure.Some? ==> services == old(services) && error == LoadMessage)
        && !isLoading
    {
      isSubmitting := true;
      error := "";
      if writeFailure.Some? {
        error := ErrorText(writeFailure.value, AddFallback);
      } else {
        AddAccepted(newId, name, fetchFailure);
      }
      isSubmitting := false;
    }

    /** The accepted insert of `handleAddService`. */
    method AddAccepted(newId: string, name: string, fetchFailure: Option<StoreError>)
      requires Valid() && newId !in Ids(table)
      modifies this`table, this`newName, this`services, this`error, this`isLoading
      ensures Valid()
      ensures table == Insert(old(table), newId, name) && newName == ""
      ensures fetchFailure.None? ==> services == table && error == old(error)
      ensures fetchFailure.Some? ==> services == old(services) && error == LoadMessage
      ensures !isLoading
    {
      InsertListedOnce(table, newId, name);
      table := Insert(table, newId, name);
      newName := "";
      FetchServices(fetchFailure);
    }

    /** `handleDeleteService(id)`: a declined confirmation changes nothing, a
        failed delete only alerts; a successful one removes that row and
        re-fetches. */
    method HandleDeleteService(id: string, confirmed: bool, writeFailure: Option<StoreError>, fetchFailure: Option<StoreError>)
      requires Valid()
      modifies this
      ensures Valid()
      ensures newName == old(newName) && isSubmitting == old(isSubmitting)
      ensures (!confirmed || writeFailure.Some?) ==>
        table == old(table) && services == old(services) && error == old(error) && isLoading == old(isLoading)
      ensures confirmed && writeFailure.None? ==>
        && table == DeleteById(old(table), id)
        && (fetchFailure.None? ==> services == table && error == old(error))
        && (fetchFailure.Some? ==> services == old(services) && error == LoadMessage)
        && !isLoading
    {
      if !confirmed || writeFailure.Some? {
        return;
      }
      DeleteKeepsDistinct(table, id);
      table := DeleteById(table, id);
      FetchServices(fetchFailure);
    }
  }

  /** A name added through the page never starts or ends with whitespace, and
      a blank input can never be added. */
  lemma AddedNameTrimmed(newName: string)
    ensures var n := Trim(newName); n == [] || (!IsSpace(n[0]) && !IsSpace(n[|n| - 1]))
    ensures Trim(newName) == "" <==> forall i :: 0 <= i < |newName| ==> IsSpace(newName[i])
    ensures Trim(Trim(newName)) == Trim(newName)
  {
    TrimEmptyIff(newName);
    TrimIdempotent(newName);
  }
}
