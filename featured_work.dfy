/**
 * The admin featured-work page (src/pages/admin/featured-work.tsx): one form
 * that adds a project or, after "edit" was pressed on a row, updates that
 * row; plus deletion and the list of projects.
 */
module FeaturedWork {
  import opened Wrappers
  import opened Store

  /** A row of the `featured_work` table. Subject and blog link are optional. */
  datatype Work = Work(
    title: string,
    subject: Option<string>,
    category: string,
    imageUrl: string,
    blogPostUrl: Option<string>)

  /** The page's `formData`. */
  datatype WorkForm = WorkForm(
    title: string,
    subject: string,
    category: string,
    imageUrl: string,
    blogPostUrl: string)

  /** The inputs of the form, one `onChange` handler each. */
  datatype FormField = Title | Subject | Category | ImageUrl | BlogPostUrl

  const EmptyForm: WorkForm := WorkForm("", "", "", "", "")

  const RequiredMessage: string := "Please fill in all required fields"
  const SaveFallback: string := "Failed to save featured work"
  const LoadMessage: string := "Failed to load data"

  function Get(f: WorkForm, k: FormField): string {
    match k
    case Title => f.title
    case Subject => f.subject
    case Category => f.category
    case ImageUrl => f.imageUrl
    case BlogPostUrl => f.blogPostUrl
  }

  /** `setFormData(prev => ({ ...prev, k: v }))`: only the edited input changes. */
  function With(f: WorkForm, k: FormField, v: string): (r: WorkForm)
    ensures Get(r, k) == v
    ensures forall k' :: k' != k ==> Get(r, k') == Get(f, k')
  {
    match k
    case Title => f.(title := v)
    case Subject => f.(subject := v)
    case Category => f.(category := v)
    case ImageUrl => f.(imageUrl := v)
    case BlogPostUrl => f.(blogPostUrl := v)
  }

  /** The validation of `handleSubmit`: category, title and image URL must be
      non-empty; subject and blog link are optional. */
  predicate MissingRequired(f: WorkForm) {
    f.category == "" || f.title == "" || f.imageUrl == ""
  }

  /** The optional inputs never decide validation. */
  lemma OptionalFieldsDoNotBlock(f: WorkForm, subject: string, link: string)
    ensures MissingRequired(f.(subject := subject, blogPostUrl := link)) == MissingRequired(f)
    ensures !MissingRequired(f) <==> Get(f, Category) != "" && Get(f, Title) != "" && Get(f, ImageUrl) != ""
  {
  }

  /** The row the form saves, by insert or by update (all five columns are written). */
  function Saved(f: WorkForm): Work {
    Work(f.title, Some(f.subject), f.category, f.imageUrl, Some(f.blogPostUrl))
  }

  /** The update patch: the row's columns become the form's. */
  function SavePatch(f: WorkForm): Work -> Work {
    (w: Work) => Saved(f)
  }

  /** `handleEdit`'s form for a row: absent subject and link become "". */
  function EditForm(w: Work): (r: WorkForm)
    ensures r.title == w.title && r.category == w.category && r.imageUrl == w.imageUrl
    ensures r.subject == (if w.subject.Some? then w.subject.value else "")
    ensures r.blogPostUrl == (if w.blogPostUrl.Some? then w.blogPostUrl.value else "")
  {
    WorkForm(w.title, w.subject.GetOr(""), w.category, w.imageUrl, w.blogPostUrl.GetOr(""))
  }

  /** Editing a saved project shows exactly the form that saved it. */
  lemma SaveEditRoundTrip(f: WorkForm)
    ensures EditForm(Saved(f)) == f
  {
  }

  /** Pressing "edit" and saving without changes rewrites the row as it was,
      except that absent optional columns are stored as "". */
  lemma EditSaveRoundTrip(w: Work)
    ensures Saved(EditForm(w)) == w.(subject := Some(w.subject.GetOr("")), blogPostUrl := Some(w.blogPostUrl.GetOr("")))
    ensures w.subject.Some? && w.blogPostUrl.Some? ==> Saved(EditForm(w)) == w
  {
  }

  /** `if (editingId)`: a form is in edit mode for a non-empty id. */
  predicate Editing(editingId: Option<string>) {
    editingId.Some? && editingId.value != ""
  }

  /** The featured-work page. `table` is `featured_work` as the store holds it. */
  class FeaturedWorkPage {
    var table: seq<Row<Work>>
    var works: seq<Row<Work>>
    var services: seq<Row<string>>
    var isLoading: bool
    var isSubmitting: bool
    var error: string
    var editingId: Option<string>
    var form: WorkForm

    ghost predicate Valid()
      reads this
    {
      DistinctIds(table)
    }

    constructor (table: seq<Row<Work>>)
      requires DistinctIds(table)
      ensures Valid() && this.table == table
      ensures works == [] && services == [] && isLoading && !isSubmitting && error == ""
      ensures editingId == None && form == EmptyForm
    {
      this.table := table;
      works := [];
      services := [];
      isLoading := true;
      isSubmitting := false;
      error := "";
      editingId := None;
      form := EmptyForm;
    }

    /** The state `fetchData` leaves, from the lists and message it started with. */
    ghost predicate Fetched(worksFailure: Option<StoreError>, servicesReply: Response<seq<Row<string>>>,
                            works0: seq<Row<Work>>, services0: seq<Row<string>>, error0: string)
      reads this
    {
      && !isLoading
      && if worksFailure.Some? || servicesReply.error.Some? then
           works == works0 && services == services0 && error == LoadMessage
         else
           works == table && services == servicesReply.data.GetOr([]) && error == error0
    }

    /** `fetchData`: lists the table and the service names for the category
        dropdown (whose order is the store's); if either read fails neither
        list changes and the page shows "Failed to load data". */
    method FetchData(worksFailure: Option<StoreError>, servicesReply: Response<seq<Row<string>>>)
      modifies this`works, this`services, this`error, this`isLoading
      ensures Fetched(worksFailure, servicesReply, old(works), old(services), old(error))
    {
      if worksFailure.Some? || servicesReply.error.Some? {
        error := LoadMessage;
      } else {
        works := table;
        services := servicesReply.data.GetOr([]);
      }
      isLoading := false;
    }

    /** One input's `onChange`. */
    method SetField(k: FormField, v: string)
      modifies this`form
      ensures form == With(old(form), k, v)
    {
      form := With(form, k, v);
    }

    /** `resetForm`: empty form, no edit in progress, no message. */
    method ResetForm()
      modifies this`form, this`editingId, this`error
      ensures form == EmptyForm && editingId == None && error == ""
    {
      form := EmptyForm;
      editingId := None;
      error := "";
    }

    /** `handleEdit`: load a listed row into the form and remember its id. */
    method HandleEdit(w: Row<Work>)
      modifies this`form, this`editingId
      ensures form == EditForm(w.fields) && editingId == Some(w.id)
    {
      form := EditForm(w.fields);
      editingId := Some(w.id);
    }

    /** `handleSubmit`. A form missing a required field only sets the message.
        Otherwise the edited row is updated, or one row is inserted under the
        id the store assigns; a failed write keeps the form and edit mode and
        shows the store's message (or the fallback); a successful one resets
        the form and re-fetches. Submitting ends on both paths. */
    method HandleSubmit(newId: string, writeFailure: Option<StoreError>,
                        worksFailure: Option<StoreError>, servicesReply: Response<seq<Row<string>>>)
      requires Valid()
      requires !Editing(editingId) ==> newId !in Ids(table)
      modifies this
      ensures Valid()
      ensures MissingRequired(old(form)) ==>
        && error == RequiredMessage
        && table == old(table) && works == old(works) && services == old(services)
        && form == old(form) && editingId == old(editingId)
        && isSubmitting == old(isSubmitting) && isLoading == old(isLoading)
      ensures !MissingRequired(old(form)) ==> !isSubmitting
      ensures !MissingRequired(old(form)) && writeFailure.Some? ==>
        && table == old(table) && works == old(works) && services == old(services)
        && form == old(form) && editingId == old(editingId) && isLoading == old(isLoading)
        && error == ErrorText(writeFailure.value, SaveFallback)
      ensures !MissingRequired(old(form)) && writeFailure.None? ==>
        && table == (if Editing(old(editingId)) then UpdateById(old(table), old(editingId).value, SavePatch(old(form)))
                     else Insert(old(table), newId, Saved(old(form))))
        && form == EmptyForm && editingId == None
        && Fetched(worksFailure, servicesReply, old(works), old(services), "")
    {
      if form.category == "" || form.title == "" || form.imageUrl == "" {
        error := RequiredMessage;
        return;
      }
      isSubmitting := true;
      error := "";
      if writeFailure.Some? {
        error := ErrorText(writeFailure.value, SaveFallback);
        isSubmitting := false;
        return;
      }
      SaveAccepted(newId, worksFailure, servicesReply);
    }

    /** The accepted write of `handleSubmit`: update the edited row or insert
        a new one, reset the form, end submitting, re-fetch. */
    method SaveAccepted(newId: string, worksFailure: Option<StoreError>, servicesReply: Response<seq<Row<string>>>)
      requires Valid()
      requires !Editing(editingId) ==> newId !in Ids(table)
      modifies this
      ensures Valid() && !isSubmitting
      ensures table == (if Editing(old(editingId)) then UpdateById(old(table), old(editingId).value, SavePatch(old(form)))
                        else Insert(old(table), newId, Saved(old(form))))
      ensures form == EmptyForm && editingId == None
      ensures Fetched(worksFailure, servicesReply, old(works), old(services), "")
    {
      if Editing(editingId) {
        UpdateKeepsIds(table, editingId.value, SavePatch(form));
        table := UpdateById(table, editingId.value, SavePatch(form));
      } else {
        InsertListedOnce(table, newId, Saved(form));
        table := Insert(table, newId, Saved(form));
      }
      ResetForm();
      isSubmitting := false;
      FetchData(worksFailure, servicesReply);
    }

    /** `handleDelete(id)`. A declined confirmation changes nothing; a failed
        delete only alerts. After a delete the form is reset if and only if it
        was editing that row, and the lists are re-fetched. */
    method HandleDelete(id: string, confirmed: bool, writeFailure: Option<StoreError>,
                        worksFailure: Option<StoreError>, servicesReply: Response<seq<Row<string>>>)
      requires Valid()
      modifies this
      ensures Valid()
      ensures isSubmitting == old(isSubmitting)
      ensures (!confirmed || writeFailure.Some?) ==>
        && table == old(table) && works == old(works) && services == old(services)
        && form == old(form) && editingId == old(editingId)
        && error == old(error) && isLoading == old(isLoading)
      ensures confirmed && writeFailure.None? ==>
        && table == DeleteById(old(table), id)
        && (old(editingId) == Some(id) ==> form == EmptyForm && editingId == None)
        && (old(editingId) != Some(id) ==> form == old(form) && editingId == old(editingId))
        && Fetched(worksFailure, servicesReply, old(works), old(services),
                   if old(editingId) == Some(id) then "" else old(error))
    {
      if !confirmed {
        return;
      }
      if writeFailure.Some? {
        return;
      }
      DeleteKeepsDistinct(table, id);
      table := DeleteById(table, id);
      if editingId == Some(id) {
        ResetForm();
      }
      FetchData(worksFailure, servicesReply);
    }
  }
}
