/**
 * The blog post editor (src/pages/admin/blog/editor.tsx): one page for both
 * creating a post (no `id` in the route) and editing one (`/admin/blog/edit/:id`).
 */
module BlogEditor {
  import opened Wrappers
  import opened Store
  import opened Slug
  import opened BlogList

  /** The editor's `formData`. */
  datatype BlogForm = BlogForm(
    title: string,
    slug: string,
    excerpt: string,
    content: string,
    coverImage: string,
    published: bool)

  /** The text inputs routed through `handleChange`, by their `name` attribute. */
  datatype TextField = Title | SlugField | Excerpt | Content | CoverImage

  /** The form a new editor starts with. */
  const EmptyForm: BlogForm := BlogForm("", "", "", "", "", false)

  /** The value of one text input. */
  function Get(f: BlogForm, k: TextField): string {
    match k
    case Title => f.title
    case SlugField => f.slug
    case Excerpt => f.excerpt
    case Content => f.content
    case CoverImage => f.coverImage
  }

  /** `{ ...prev, [name]: value }`: the named input takes the value and no
      other field changes. */
  function With(f: BlogForm, k: TextField, v: string): (r: BlogForm)
    ensures Get(r, k) == v
    ensures forall k' :: k' != k ==> Get(r, k') == Get(f, k')
    ensures r.published == f.published
  {
    match k
    case Title => f.(title := v)
    case SlugField => f.(slug := v)
    case Excerpt => f.(excerpt := v)
    case Content => f.(content := v)
    case CoverImage => f.(coverImage := v)
  }

  /** `isEditing = !!id`: an empty id counts as absent. */
  predicate IsEditing(id: Option<string>) {
    id.Some? && id.value != ""
  }

  /** `handleChange`: while creating, a title change also sets the slug to the
      slug of the new title; in every other case only the named input changes. */
  function Changed(f: BlogForm, name: TextField, value: string, editing: bool): (r: BlogForm)
    ensures Get(r, name) == value
    ensures name == Title && !editing ==> r.slug == Slugify(value)
    ensures forall k :: k != name && !(k == SlugField && name == Title && !editing) ==> Get(r, k) == Get(f, k)
    ensures r.published == f.published
  {
    if name == Title && !editing then f.(title := value, slug := Slugify(value))
    else With(f, name, value)
  }

  /** The form filled from a loaded post: absent excerpt, content and cover
      image become "". */
  function LoadedForm(p: Post): (r: BlogForm)
    ensures r.title == p.title && r.slug == p.slug && r.published == p.published
    ensures r.excerpt == (if p.excerpt.Some? then p.excerpt.value else "")
    ensures r.content == (if p.content.Some? then p.content.value else "")
    ensures r.coverImage == (if p.coverImage.Some? then p.coverImage.value else "")
  {
    BlogForm(p.title, p.slug, p.excerpt.GetOr(""), p.content.GetOr(""), p.coverImage.GetOr(""), p.published)
  }

  /** `postData` written over an existing row by an update: the six form
      fields; `views` is not part of it and stays. */
  function SavePatch(f: BlogForm): Post -> Post {
    (p: Post) => p.(title := f.title, slug := f.slug, excerpt := Some(f.excerpt),
      content := Some(f.content), coverImage := Some(f.coverImage), published := f.published)
  }

  /** The row an insert of `postData` creates; `views` is left to the store. */
  function NewPost(f: BlogForm): Post {
    Post(f.title, f.slug, Some(f.excerpt), Some(f.content), Some(f.coverImage), f.published, None)
  }

  /** Saving a form and loading the saved row gives the form back, for an
      insert and for an update alike. */
  lemma SaveLoadRoundTrip(f: BlogForm, p: Post)
    ensures LoadedForm(NewPost(f)) == f
    ensures LoadedForm(SavePatch(f)(p)) == f
  {
  }

  /** Loading a post and saving it unchanged rewrites the row as it was, up
      to absent text columns becoming "". */
  lemma LoadSaveRoundTrip(p: Post)
    requires p.excerpt.Some? && p.content.Some? && p.coverImage.Some?
    ensures SavePatch(LoadedForm(p))(p) == p
  {
  }

  /** While creating, every title typed leaves the form holding a well-formed
      slug of that title (the slug can still be edited afterwards). */
  lemma CreatingDerivesSlug(f: BlogForm, value: string)
    ensures IsSlug(Changed(f, Title, value, false).slug)
    ensures Changed(f, Title, value, false).title == value
  {
    SlugShape(value);
  }

  /** While editing, title changes never touch the slug. */
  lemma EditingKeepsSlug(f: BlogForm, value: string)
    ensures Changed(f, Title, value, true).slug == f.slug
  {
  }

  /** A new post titled "Hello World" gets the slug "hello-world"; after it
      is loaded for editing, retitling it keeps that slug. */
  lemma HelloWorldScenario(newTitle: string)
    ensures Changed(EmptyForm, Title, "Hello World", false).slug == "hello-world"
    ensures var saved := NewPost(Changed(EmptyForm, Title, "Hello World", false));
      Changed(LoadedForm(saved), Title, newTitle, true).slug == "hello-world"
  {
    HelloWorld();
  }

  /** The editor page. `table` is the `blog_posts` table as the store holds it. */
  class BlogEditorPage {
    const id: Option<string>
    var table: seq<Row<Post>>
    var form: BlogForm
    var isLoading: bool
    var isFetching: bool
    var redirect: Option<string>

    ghost predicate Valid()
      reads this
    {
      DistinctIds(table)
    }

    constructor (id: Option<string>, table: seq<Row<Post>>)
      requires DistinctIds(table)
      ensures Valid()
      ensures this.id == id && this.table == table
      ensures form == EmptyForm && !isLoading && isFetching == IsEditing(id) && redirect == None
    {
      this.id := id;
      this.table := table;
      form := EmptyForm;
      isLoading := false;
      isFetching := IsEditing(id);
      redirect := None;
    }

    /** `fetchPost`: when editing, a single-row read of the post; a failed read
        or a missing row (the single-row select reports it as an error) keeps
        the form. Fetching ends either way. Without an id nothing happens. */
    method FetchPost(failure: Option<StoreError>)
      modifies this`form, this`isFetching
      ensures !IsEditing(id) ==> form == old(form) && isFetching == old(isFetching)
      ensures IsEditing(id) ==> !isFetching
      ensures IsEditing(id) && failure.None? && Find(table, id.value).Some? ==>
                form == LoadedForm(Find(table, id.value).value)
      ensures IsEditing(id) && (failure.Some? || Find(table, id.value).None?) ==> form == old(form)
    {
      if !IsEditing(id) {
        return;
      }
      var found := Find(table, id.value);
      if failure.None? && found.Some? {
        form := LoadedForm(found.value);
      }
      isFetching := false;
    }

    /** `handleChange` for one of the text inputs. */
    method HandleChange(name: TextField, value: string)
      modifies this`form
      ensures form == Changed(old(form), name, value, IsEditing(id))
    {
      if name == Title && !IsEditing(id) {
        var slug := Slugify(value);
        form := form.(title := value, slug := slug);
      } else {
        form := With(form, name, value);
      }
    }

    /** The published checkbox. */
    method SetPublishedFlag(checked: bool)
      modifies this`form
      ensures form == old(form).(published := checked)
    {
      form := form.(published := checked);
    }

    /** `handleSubmit`: updates the post being edited or inserts a new one
        under the id the store assigns, then navigates to the list; a failed
        write keeps the page and the form. Loading ends either way. */
    method HandleSubmit(newId: string, failure: Option<StoreError>)
      requires Valid()
      requires !IsEditing(id) ==> newId !in Ids(table)
      modifies this
      ensures Valid()
      ensures form == old(form) && !isLoading && isFetching == old(isFetching)
      ensures table ==
        if failure.Some? then old(table)
        else if IsEditing(id) then UpdateById(old(table), id.value, SavePatch(old(form)))
        else Insert(old(table), newId, NewPost(old(form)))
      ensures redirect == if failure.None? then Some("/admin/blog") else old(redirect)
    {
      isLoading := true;
      if failure.None? {
        if IsEditing(id) {
          UpdateKeepsIds(table, id.value, SavePatch(form));
          table := UpdateById(table, id.value, SavePatch(form));
        } else {
          InsertListedOnce(table, newId, NewPost(form));
          table := Insert(table, newId, NewPost(form));
        }
        redirect := Some("/admin/blog");
      }
      isLoading := false;
    }
  }
}
