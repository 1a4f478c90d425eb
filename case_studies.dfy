/**
 * The public case-studies page (src/pages/case-studies.tsx): the rows of the
 * `featured_work` table shown as project cards, newest first.
 */
module CaseStudies {
  import opened Wrappers
  import opened Store
  import opened FeaturedWork

  /** A card's data, renamed from a `featured_work` row: the subject becomes
      the description and the blog link the card's link. */
  datatype Project = Project(
    id: string,
    title: string,
    description: Option<string>,
    image: string,
    category: string,
    link: Option<string>)

  /** The field mapping of one row. */
  function ToProject(r: Row<Work>): (p: Project)
    ensures p.id == r.id && p.title == r.fields.title && p.category == r.fields.category
    ensures p.description == r.fields.subject && p.image == r.fields.imageUrl
    ensures p.link == r.fields.blogPostUrl
  {
    Project(r.id, r.fields.title, r.fields.subject, r.fields.imageUrl, r.fields.category, r.fields.blogPostUrl)
  }

  /** Back from a card to the row it was made from. */
  function FromProject(p: Project): Row<Work> {
    Row(p.id, Work(p.title, p.description, p.category, p.image, p.link))
  }

  /** The mapping loses nothing: the row can be recovered from its card. */
  lemma ProjectRoundTrip(r: Row<Work>)
    ensures FromProject(ToProject(r)) == r
  {
  }

  /** `data.map(...)`: one card per row, in the table's order. */
  function MapProjects(rows: seq<Row<Work>>): (r: seq<Project>)
    ensures |r| == |rows|
    ensures forall i :: 0 <= i < |rows| ==> r[i] == ToProject(rows[i])
  {
    if rows == [] then [] else [ToProject(rows[0])] + MapProjects(rows[1..])
  }

  /** Mapping a concatenation maps each part. */
  lemma {:induction false} MapAppend(a: seq<Row<Work>>, b: seq<Row<Work>>)
    ensures MapProjects(a + b) == MapProjects(a) + MapProjects(b)
  {
    if a == [] {
      assert a + b == b;
    } else {
      assert (a + b)[1..] == a[1..] + b;
      MapAppend(a[1..], b);
    }
  }

  /** What the grid section renders. */
  datatype View = LoadingText | NoneFound | Grid(cards: seq<Project>)

  function ViewOf(isLoading: bool, projects: seq<Project>): (v: View)
    ensures v.LoadingText? <==> isLoading
    ensures v.NoneFound? <==> !isLoading && projects == []
    ensures v.Grid? ==> v.cards == projects
  {
    if isLoading then LoadingText else if |projects| == 0 then NoneFound else Grid(projects)
  }

  /** "Read full story": `window.open(link)` only for a truthy link, so a
      missing or empty link opens nothing. */
  function OpenTarget(p: Project): (r: Option<string>)
    ensures r.Some? <==> p.link.Some? && p.link.value != ""
    ensures r.Some? ==> Some(r.value) == p.link
  {
    if p.link.Some? && p.link.value != "" then p.link else None
  }

  class CaseStudiesPage {
    var projects: seq<Project>
    var isLoading: bool

    constructor ()
      ensures projects == [] && isLoading
    {
      projects := [];
      isLoading := true;
    }

    /** `fetchProjects` given the store's reply: on an error the cards stay as
        they were; otherwise they are the mapped rows, none when no data came
        back. Loading ends either way. */
    method FetchProjects(reply: Response<seq<Row<Work>>>)
      modifies this
      ensures reply.error.None? ==> projects == MapProjects(reply.data.GetOr([]))
      ensures reply.error.Some? ==> projects == old(projects)
      ensures !isLoading
    {
      if reply.error.None? {
        projects := MapProjects(reply.data.GetOr([]));
      }
      isLoading := false;
    }
  }
}
