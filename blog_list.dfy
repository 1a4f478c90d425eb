/**
 * The admin blog list (src/pages/admin/blog/index.tsx): lists the
 * `blog_posts` table, flips a post's `published` flag and deletes posts.
 */
module BlogList {
  import opened Wrappers
  import opened Store

  /** A row of the `blog_posts` table (columns the admin pages use). */
  datatype Post = Post(
    title: string,
    slug: string,
    excerpt: Option<string>,
    content: Option<string>,
    coverImage: Option<string>,
    published: bool,
    views: Option<int>)

  /** The patch `{ published: b }`. */
  function SetPublished(b: bool): Post -> Post {
    (p: Post) => p.(published := b)
  }

  /** `post.views || 0`: the count shown in the views column. A stored 0 is
      falsy and falls back to 0, so a present count always shows as stored. */
  function ViewsShown(views: Option<int>): (r: int)
    ensures views.None? ==> r == 0
    ensures views.Some? ==> r == views.value
  {
    match views
    case None => 0
    case Some(v) => v
  }

  /** The status badge. */
  function StatusLabel(published: bool): (r: string)
    ensures r == "Published" <==> published
    ensures r == "Draft" <==> !published
  {
    if published then "Published" else "Draft"
  }

  /** The tooltip of the publish button: the action it will take, which
      undoes what the badge shows. */
  function PublishTitle(published: bool): (r: string)
    ensures r == "Unpublish" <==> StatusLabel(published) == "Published"
    ensures r == "Publish" <==> StatusLabel(published) == "Draft"
  {
    if published then "Unpublish" else "Publish"
  }

  /** A publish toggle writes only the `published` column of the targeted row;
      every other column of that row, and every other row, is unchanged. */
  lemma PublishTouchesOnlyFlag(t: seq<Row<Post>>, id: string, b: bool)
    ensures var r := UpdateById(t, id, SetPublished(b));
      |r| == |t| && forall i :: 0 <= i < |t| ==>
        && r[i].id == t[i].id
        && (t[i].id != id ==> r[i] == t[i])
        && (t[i].id == id ==>
              r[i].fields.published == b &&
              r[i].fields.(published := t[i].fields.published) == t[i].fields)
  {
  }

  /** Publishing twice, each time from the value the refreshed list shows,
      restores the table. */
  lemma PublishTwiceRestores(t: seq<Row<Post>>, id: string)
    requires DistinctIds(t)
    ensures Find(t, id).Some? ==>
      var b := Find(t, id).value.published;
      UpdateById(UpdateById(t, id, SetPublished(!b)), id, SetPublished(!!b)) == t
  {
    if Find(t, id).Some? {
      var b := Find(t, id).value.published;
      FindFirst(t, id);
      UpdateUndone(t, id, SetPublished(!b), SetPublished(!!b));
    }
  }

  /** The blog list page: the `blog_posts` table as the store holds it, and
      the page's own copy of it. */
  class BlogListPage {
    var table: seq<Row<Post>>
    var posts: seq<Row<Post>>
    var isLoading: bool

    ghost predicate Valid()
      reads this
    {
      DistinctIds(table)
    }

    constructor (table: seq<Row<Post>>)
      requires DistinctIds(table)
      ensures Valid()
      ensures this.table == table && posts == [] && isLoading
    {
      this.table := table;
      posts := [];
      isLoading := true;
    }

    /** `fetchPosts`: on success the list becomes the table, newest first; on
        failure the list is kept. Loading ends either way. */
    method FetchPosts(failure: Option<StoreError>)
      modifies this`posts, this`isLoading
      ensures posts == if failure.None? then table else old(posts)
      ensures !isLoading
    {
      if failure.None? {
        posts := table;
      }
      isLoading := false;
    }

    /** `togglePublish(id, currentStatus)`: asks the store to set `published`
        to the negation of the shown value (the reply is not checked), then
        refreshes the list. A rejected write leaves the table, so the
        refreshed list shows the old value. */
    method TogglePublish(id: string, currentStatus: bool, accepted: bool, fetchFailure: Option<StoreError>)
      requires Valid()
      modifies this
      ensures Valid()
      ensures table == if accepted then UpdateById(old(table), id, SetPublished(!currentStatus)) else old(table)
      ensures posts == if fetchFailure.None? then table else old(posts)
      ensures !isLoading
    {
      if accepted {
        UpdateKeepsIds(table, id, SetPublished(!currentStatus));
        table := UpdateById(table, id, SetPublished(!currentStatus));
      }
      FetchPosts(fetchFailure);
    }

    /** `deletePost(id)`: a declined confirmation changes nothing; otherwise
        the store deletes the row (the reply is not checked) and the list is
        refreshed. */
    method DeletePost(id: string, confirmed: bool, accepted: bool, fetchFailure: Option<StoreError>)
      requires Valid()
      modifies this
      ensures Valid()
      ensures !confirmed ==> table == old(table) && posts == old(posts) && isLoading == old(isLoading)
      ensures confirmed ==> table == (if accepted then DeleteById(old(table), id) else old(table))
      ensures confirmed ==> posts == (if fetchFailure.None? then table else old(posts)) && !isLoading
    {
      if !confirmed {
        return;
      }
      if accepted {
        DeleteKeepsDistinct(table, id);
        table := DeleteById(table, id);
      }
      FetchPosts(fetchFailure);
    }
  }
}
