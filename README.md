# CodeHex website — a Dafny model of its stateful core

CodeHex is a marketing site for a digital agency, with a small admin panel
over a hosted database. This project models the parts of it whose behaviour
can be stated and checked, and proves properties of that model:

- **Blog editor.** The slug derived from a post's title. The slug is derived
  only while a post is being created. The editor also loads a post into its
  form, routes every input into the form, and saves the form ("postData").
- **Testimonial slider.** A window of three cards over a fixed list of nine,
  paged with wrap-around at both ends.
- **Admin route guard.** Each check ends in exactly one outcome: authorized,
  redirect to `/admin/login`, or redirect to `/`.
- **Admin pages.** Featured work (add, edit, delete), feedback (read and
  approved switches), blog list (publish toggle, delete), leads (status
  drop-down) and services (add with trim, delete). Each of these pages works
  on one table of the database.
- **Public pages.** The contact form, the case-study grid fed from the
  featured-work table, and the services accordion.
- **Selectors and constants.** The active-item rules of the admin sidebar and
  the public navbar, the admin theme switch, the consistency of the static
  services catalogue, and the initials badge on the about page.

The database is modelled abstractly (module `Store`). A table is a sequence
of rows, newest first, each with the id the store assigned; listing a table
"ordered by created_at, descending" reads that sequence. Insert,
update-by-id and delete-by-id are functions on it.

Each page is a `class` whose fields are the component's state variables. The
page's copy of the table is one of those fields, and so is the table as the
store holds it. A handler is a `method`. What the outside world answers is a
parameter of the handler:
- the store's reply: whether a write was accepted, or the error it returned;
- whether the user confirmed;
- the id the store assigns to an insert.

A `navigate` call is recorded in a `redirect` field. Text handling follows
JavaScript: `toLowerCase` and `trim` on ASCII; `split` and `join` on one
character; `slice` with clamping; `err.message || fallback`.

Where the code differs from what its UI suggests, the model follows the code:
- The contact form inserts nothing: its database insert is commented out
  (src/components/home/contact-form.tsx:26-30). The model's submit changes the
  form state only.
- The admin toggles (publish, read, approve, lead status) are not optimistic
  updates with rollback. They send the write, do not examine the reply, and
  re-fetch the list. A rejected write therefore shows the old value again.
- The public testimonials page and the home slider render constant lists.
  The feedback page's subtitle speaks of approving testimonials
  (src/pages/admin/feedback.tsx:57), but no page reads the approved flag:
  the model states only what the admin page shows for it, the
  "Approved"/"Hidden" label (src/pages/admin/feedback.tsx:209).
- The admin sidebar has three items (Leads, Feedback, Blog Posts). Services
  and Featured Work are not among them.

## Model

| member | source | states |
|---|---|---|
| Text.LowerChar | src/pages/admin/blog/editor.tsx:74 | the lowered character is never an upper-case letter, and any other character is unchanged |
| Text.Lower | src/pages/admin/blog/editor.tsx:74 | lowercasing keeps the length and lowers each character in place |
| Text.LowerAppend | src/pages/admin/blog/editor.tsx:74 | lowercasing a concatenation lowercases each part |
| Text.TrimStart | src/pages/admin/services.tsx:43 | the result is a suffix that starts with a non-space, and everything dropped is whitespace |
| Text.TrimEnd | src/pages/admin/services.tsx:43 | the result is a prefix that ends with a non-space, and everything dropped is whitespace |
| Text.Trim | src/pages/admin/services.tsx:43 | the trimmed string neither starts nor ends with whitespace |
| Text.TrimIsSlice | src/pages/admin/services.tsx:43 | the trimmed string is a contiguous piece of the input, starting where the leading whitespace ends |
| Text.TrimDropsSpace | src/pages/admin/services.tsx:43 | everything before and after the kept piece is whitespace |
| Text.TrimEmptyIff | src/pages/admin/services.tsx:43 | a string trims to "" exactly when it is all whitespace (both directions) |
| Text.TrimIdempotent | src/pages/admin/services.tsx:51 | trimming twice is trimming once |
| Text.Split | src/pages/about.tsx:152 | split always yields at least one piece, and no piece contains the separator |
| Text.JoinSplit | src/pages/about.tsx:152 | joining the pieces of a split with the separator gives the input back |
| Text.SplitPrefix | src/pages/about.tsx:152 | a separator-free prefix followed by the separator becomes the first piece |
| Text.SplitNoSep | src/pages/about.tsx:152 | a separator-free string splits into itself alone |
| Text.SplitManyIff | src/pages/about.tsx:152 | there are two or more pieces exactly when the separator occurs |
| Store.ErrorText | src/pages/admin/featured-work.tsx:106 | the shown text is the error's message, or the fallback when the message is empty |
| Store.Ids | src/pages/admin/featured-work.tsx:90 | the ids of the rows, one per row, in table order |
| Store.Find | src/pages/admin/blog/editor.tsx:44-48 | a single-row read finds nothing exactly when no row has the id; otherwise it returns the columns of a row with that id |
| Store.Insert | src/pages/admin/featured-work.tsx:95-97 | an insert adds exactly one row, on top, and keeps the rest |
| Store.UpdateById | src/pages/admin/blog/index.tsx:34 | an update keeps length, order and ids, patches the rows with the id and no other row |
| Store.DeleteById | src/pages/admin/blog/index.tsx:45 | a delete keeps every row without the id, drops every row with it, and shrinks the table by their number |
| Store.CountPositive | src/pages/admin/blog/index.tsx:45 | some row carries the id exactly when the id is among the ids |
| Store.CountAtMostOne | src/pages/admin/blog/index.tsx:45 | with distinct ids, an id is carried by one row or none |
| Store.InsertListedOnce | src/pages/admin/featured-work.tsx:95-97 | inserting under a fresh id keeps ids distinct, and the new row is listed once with the submitted columns |
| Store.DeleteRemovesOne | src/pages/admin/blog/index.tsx:45 | after a delete no row has the id, and exactly one row is gone when it was present |
| Store.DeleteKeepsDistinct | src/pages/admin/services.tsx:69-72 | deleting keeps the ids distinct |
| Store.DeleteAbsent | src/pages/admin/services.tsx:69-72 | deleting an id that no row has changes nothing |
| Store.DeleteKeepsOrder | src/pages/admin/featured-work.tsx:141-144 | deleting distributes over concatenation, so the surviving rows keep their order |
| Store.UpdateKeepsIds | src/pages/admin/leads.tsx:33 | an update keeps the ids, and hence keeps them distinct |
| Store.FindAfterUpdate | src/pages/admin/leads.tsx:33 | after an update a read of the id sees the patched columns, and a read of any other id sees what it saw before |
| Store.FindFirst | src/pages/admin/blog/editor.tsx:44-48 | with distinct ids, a read returns the columns of the one row with the id |
| Store.UpdateUndone | src/pages/admin/feedback.tsx:45 | when a second patch reverses the first on the targeted row, applying both restores the table |
| Store.UpdateIdempotent | src/pages/admin/leads.tsx:33 | an update whose patch is idempotent on the row is idempotent |
| Slug.SkipRun | src/pages/admin/blog/editor.tsx:75 | drops exactly the maximal leading run of characters outside a-z and 0-9 |
| Slug.Alnums | src/pages/admin/blog/editor.tsx:74-76 | the letters and digits of a string, in order |
| Slug.AlnumsAppend | src/pages/admin/blog/editor.tsx:74-76 | the letters and digits of a concatenation are those of the parts |
| Slug.AlnumsSkip | src/pages/admin/blog/editor.tsx:75 | a prefix without letters or digits contributes none |
| Slug.CollapseShape | src/pages/admin/blog/editor.tsx:75 | the second step leaves only slug characters and no double dash, keeps the letters and digits in order, and yields "" only for "" |
| Slug.StripBounds | src/pages/admin/blog/editor.tsx:76 | the third step keeps a contiguous piece, dropping at most one leading and one trailing dash |
| Slug.SliceShape | src/pages/admin/blog/editor.tsx:76 | a piece of a dash-collapsed string is dash-collapsed too |
| Slug.StripAlnums | src/pages/admin/blog/editor.tsx:76 | the third step drops only dashes, so it keeps the letters and digits |
| Slug.StripEdges | src/pages/admin/blog/editor.tsx:76 | without a double dash in its input, the third step leaves no dash at either end |
| Slug.StripShape | src/pages/admin/blog/editor.tsx:76 | the third step turns what the second produced into a well-formed slug with the same letters and digits |
| Slug.SlugShape | src/pages/admin/blog/editor.tsx:74-76 | every slug has only a-z, 0-9 and "-", no double dash, no dash at either end, and keeps the title's lowered letters and digits in order |
| Slug.SlugStartsAlnum | src/pages/admin/blog/editor.tsx:76 | a well-formed slug is empty exactly when it has no letter or digit |
| Slug.SlugEmptyIff | src/pages/admin/blog/editor.tsx:76 | the slug is "" exactly when the title has no ASCII letter or digit (an empty or all-punctuation title) |
| Slug.CollapseFixed | src/pages/admin/blog/editor.tsx:75 | the second step leaves a slug unchanged |
| Slug.LowerOfSlugChars | src/pages/admin/blog/editor.tsx:74 | lowercasing leaves slug characters unchanged |
| Slug.SlugIdempotent | src/pages/admin/blog/editor.tsx:74-76 | slugging a slug changes nothing |
| Slug.CollapseCons | src/pages/admin/blog/editor.tsx:75 | the second step keeps a leading letter or digit |
| Slug.CollapseAlnums | src/pages/admin/blog/editor.tsx:75 | a run of letters and digits passes through the second step unchanged |
| Slug.LowerAll | src/pages/admin/blog/editor.tsx:74 | each word lowered, in order |
| Slug.LowerJoin | src/pages/admin/blog/editor.tsx:74 | lowercasing words joined by a non-letter lowers each word |
| Slug.JoinEnds | src/pages/admin/blog/editor.tsx:76 | words joined by a separator start with the first word's first character and end with the last word's last |
| Slug.CollapseJoin | src/pages/admin/blog/editor.tsx:75 | the second step turns each single space between lower-case words into one dash |
| Slug.SlugOfWords | src/pages/admin/blog/editor.tsx:74-76 | the slug of words of ASCII letters and digits separated by single spaces is those words, lowered, joined by "-" |
| Slug.HelloWorld | src/pages/admin/blog/editor.tsx:74-76 | the title "Hello World" has the slug "hello-world" |
| BlogEditor.With | src/pages/admin/blog/editor.tsx:80 | the named input takes the value; the other inputs and the published flag are unchanged |
| BlogEditor.Changed | src/pages/admin/blog/editor.tsx:69-82 | the named input takes the value; a title change while creating also sets the slug to the title's slug; nothing else changes |
| BlogEditor.LoadedForm | src/pages/admin/blog/editor.tsx:53-60 | a loaded post fills the form; absent excerpt, content and cover image become "" and the other columns are copied |
| BlogEditor.SaveLoadRoundTrip | src/pages/admin/blog/editor.tsx:117-124 | the data saved from a form, by insert or by update, loads back into the same form |
| BlogEditor.LoadSaveRoundTrip | src/pages/admin/blog/editor.tsx:53-60 | loading a post with all its optional columns and saving it unchanged rewrites the row as it was |
| BlogEditor.CreatingDerivesSlug | src/pages/admin/blog/editor.tsx:72-78 | while creating, any title typed sets the title and leaves a well-formed slug |
| BlogEditor.EditingKeepsSlug | src/pages/admin/blog/editor.tsx:11 | while editing, a title change leaves the slug as it was |
| BlogEditor.HelloWorldScenario | src/pages/admin/blog/editor.tsx:72-80 | a new post typed "Hello World" gets the slug "hello-world", and retitling it after it is loaded for editing keeps that slug |
| BlogEditor.BlogEditorPage.constructor | src/pages/admin/blog/editor.tsx:11-32 | a new editor has the empty form, is not loading, and fetches exactly when it has an id |
| BlogEditor.BlogEditorPage.FetchPost | src/pages/admin/blog/editor.tsx:40-67 | when editing, a found row fills the form, a failed or empty read keeps it, and fetching ends; without an id nothing happens |
| BlogEditor.BlogEditorPage.HandleChange | src/pages/admin/blog/editor.tsx:69-82 | the form becomes the changed form for this input, value and mode |
| BlogEditor.BlogEditorPage.SetPublishedFlag | src/pages/admin/blog/editor.tsx:237-240 | the checkbox sets only the published flag |
| BlogEditor.BlogEditorPage.HandleSubmit | src/pages/admin/blog/editor.tsx:112-145 | the edited row is updated, or a new row inserted, from the form; the page then goes to /admin/blog; a failed write changes neither table nor page; loading ends |
| BlogList.ViewsShown | src/pages/admin/blog/index.tsx:109 | absent views show as 0, others as stored |
| BlogList.StatusLabel | src/pages/admin/blog/index.tsx:116 | the badge is "Published" exactly when published, else "Draft" |
| BlogList.PublishTitle | src/pages/admin/blog/index.tsx:124 | the button offers "Unpublish" exactly when published, else "Publish" |
| BlogList.PublishTouchesOnlyFlag | src/pages/admin/blog/index.tsx:34 | the publish write sets the flag of the targeted row; its other columns and every other row are unchanged |
| BlogList.PublishTwiceRestores | src/pages/admin/blog/index.tsx:34 | toggling twice from the shown value restores the table |
| BlogList.BlogListPage.constructor | src/pages/admin/blog/index.tsx:9-10 | the page starts with no posts, loading |
| BlogList.BlogListPage.FetchPosts | src/pages/admin/blog/index.tsx:16-30 | the list becomes the table on success, is kept on failure; loading ends |
| BlogList.BlogListPage.TogglePublish | src/pages/admin/blog/index.tsx:32-39 | an accepted write negates the shown flag of the row; the list is then re-read |
| BlogList.BlogListPage.DeletePost | src/pages/admin/blog/index.tsx:41-50 | a declined confirm changes nothing; otherwise an accepted delete removes the row and the list is re-read |
| Testimonials.WindowContents | src/components/home/testimonials-slider.tsx:91 | the visible window is the contiguous run of min(3, n - start) cards from start |
| Testimonials.StepsStayInRange | src/components/home/testimonials-slider.tsx:83-89 | with at least three cards both arrows keep the start in [0, n) |
| Testimonials.StepsKeepAlignment | src/components/home/testimonials-slider.tsx:83-89 | when n is a multiple of 3, both arrows keep the start on a page boundary |
| Testimonials.StepsAreInverse | src/components/home/testimonials-slider.tsx:84-88 | on page boundaries of a list of whole pages, prev undoes next and next undoes prev |
| Testimonials.MisalignedNotInverse | src/components/home/testimonials-slider.tsx:84-88 | for ten cards, next then prev from 9 lands on 7, not 9 |
| Testimonials.NineCardStarts | src/components/home/testimonials-slider.tsx:5-78 | over the nine cards the start is always 0, 3 or 6 |
| Testimonials.ThreeStepsRoundTrip | src/components/home/testimonials-slider.tsx:84 | three presses of next from 0 over the nine cards return to 0 |
| Testimonials.TestimonialsSlider.constructor | src/components/home/testimonials-slider.tsx:81 | the slider starts at the first card |
| Testimonials.TestimonialsSlider.NextSlide | src/components/home/testimonials-slider.tsx:83-85 | the start moves on by 3, or wraps to 0 when that reaches the end; the range invariant holds |
| Testimonials.TestimonialsSlider.PrevSlide | src/components/home/testimonials-slider.tsx:87-89 | the start moves back by 3, or wraps to n - 3 before 0; the range invariant holds |
| AuthGuard.Decide | src/components/admin/auth-guard.tsx:15-44 | the check authorizes exactly when the session exists and the profile query succeeds with role "admin"; every check ends authorized, at the login page or at home |
| AuthGuard.NoSessionGoesToLogin | src/components/admin/auth-guard.tsx:19-22 | without a session, or if the session call throws, the guard goes to /admin/login |
| AuthGuard.NonAdminGoesHome | src/components/admin/auth-guard.tsx:31-35 | a failed profile query, a missing profile or a non-admin role goes to / |
| AuthGuard.ProfileExceptionGoesToLogin | src/components/admin/auth-guard.tsx:38-40 | an exception in the profile query goes to /admin/login |
| AuthGuard.RenderOf | src/components/admin/auth-guard.tsx:46-58 | the protected page renders exactly when not loading and authorized; the spinner shows exactly while loading |
| AuthGuard.Guard.constructor | src/components/admin/auth-guard.tsx:8-9 | the guard starts loading and unauthorized |
| AuthGuard.Guard.CheckAuth | src/components/admin/auth-guard.tsx:15-44 | loading ends on every path; it authorizes without redirect, or records the redirect of the decision |
| FeaturedWork.With | src/pages/admin/featured-work.tsx:190-242 | an input's change sets that field only |
| FeaturedWork.OptionalFieldsDoNotBlock | src/pages/admin/featured-work.tsx:75 | subject and blog link never decide validation; the form is valid exactly when category, title and image URL are non-empty |
| FeaturedWork.EditForm | src/pages/admin/featured-work.tsx:124-132 | editing copies title, category and image URL and turns absent subject and link into "" |
| FeaturedWork.SaveEditRoundTrip | src/pages/admin/featured-work.tsx:89-97 | editing a saved project shows the form that saved it |
| FeaturedWork.EditSaveRoundTrip | src/pages/admin/featured-work.tsx:124-132 | saving an edited row unchanged rewrites it, with absent optional columns stored as "" |
| FeaturedWork.FeaturedWorkPage.constructor | src/pages/admin/featured-work.tsx:23-38 | the page starts with empty lists, loading, no message, no edit and the empty form |
| FeaturedWork.FeaturedWorkPage.FetchData | src/pages/admin/featured-work.tsx:44-71 | both lists are read on success; if either read fails neither list changes and the message is "Failed to load data"; loading ends |
| FeaturedWork.FeaturedWorkPage.SetField | src/pages/admin/featured-work.tsx:190-242 | one input's change updates that field |
| FeaturedWork.FeaturedWorkPage.ResetForm | src/pages/admin/featured-work.tsx:112-122 | the form is empty, no edit is in progress and there is no message |
| FeaturedWork.FeaturedWorkPage.HandleEdit | src/pages/admin/featured-work.tsx:124-135 | the row is loaded into the form and its id remembered |
| FeaturedWork.FeaturedWorkPage.HandleSubmit | src/pages/admin/featured-work.tsx:73-110 | a missing required field only sets "Please fill in all required fields"; a failed write keeps form and edit mode and shows the message or "Failed to save featured work"; an accepted one updates the edited row or inserts one row, resets the form and re-reads; submitting ends |
| FeaturedWork.FeaturedWorkPage.SaveAccepted | src/pages/admin/featured-work.tsx:84-103 | the accepted write updates the edited row or inserts one, resets the form, ends submitting and re-reads |
| FeaturedWork.FeaturedWorkPage.HandleDelete | src/pages/admin/featured-work.tsx:137-158 | a declined confirm or failed delete changes nothing; an accepted delete removes the row, resets the form exactly when that row was being edited, and re-reads |
| Feedback.NextStatus | src/pages/admin/feedback.tsx:33 | "unread" becomes "read" and every other value "unread" |
| Feedback.StatusToggleInvolutive | src/pages/admin/feedback.tsx:33 | from "read" or "unread", two presses restore the status |
| Feedback.StatusToggleNormalises | src/pages/admin/feedback.tsx:33 | from any other stored value, two presses end on "read" |
| Feedback.ShownApproved | src/pages/admin/feedback.tsx:87-88 | the switch shows on exactly when the flag is set to true; absent counts as false |
| Feedback.NextApproved | src/pages/admin/feedback.tsx:43 | the written flag differs from the shown one |
| Feedback.StatusWriteIsolated | src/pages/admin/feedback.tsx:34 | the status write changes only the targeted row's status; approval and other rows are unchanged |
| Feedback.ApprovalWriteIsolated | src/pages/admin/feedback.tsx:45 | the approval write changes only the targeted row's flag; status and other rows are unchanged |
| Feedback.ApprovalTwice | src/pages/admin/feedback.tsx:43-45 | two toggles from the shown value restore a set flag, and leave an absent flag an explicit false |
| Feedback.ApprovalLabel | src/pages/admin/feedback.tsx:209 | the label is "Approved" or "Hidden", and "Approved" exactly when the switch shows on |
| Feedback.ToggleFlipsLabel | src/pages/admin/feedback.tsx:204-209 | each press of the switch, made from the shown flag, flips the label |
| Feedback.LabelAfterApproval | src/pages/admin/feedback.tsx:45 | after the approval write the targeted row reads "Approved" or "Hidden" as written, and every other row keeps its label |
| Feedback.FeedbackPage.constructor | src/pages/admin/feedback.tsx:8-9 | the page starts with no feedback, loading |
| Feedback.FeedbackPage.FetchFeedbacks | src/pages/admin/feedback.tsx:15-29 | the list becomes the table on success, is kept on failure; loading ends |
| Feedback.FeedbackPage.ToggleStatus | src/pages/admin/feedback.tsx:31-39 | an accepted write sets the row's status to the next status; the list is re-read |
| Feedback.FeedbackPage.ToggleApproval | src/pages/admin/feedback.tsx:41-50 | an accepted write sets the row's flag to the negation of the shown one; the list is re-read |
| Leads.StatusOptionsExact | src/pages/admin/leads.tsx:71-73 | the drop-down writes exactly "new", "contacted" and "closed", one per option |
| Leads.StatusWriteIsolated | src/pages/admin/leads.tsx:33 | the status write sets the chosen status on the targeted lead; its other columns and other rows are unchanged |
| Leads.StatusWriteIdempotent | src/pages/admin/leads.tsx:33 | choosing the same status twice is choosing it once |
| Leads.LeadsPage.constructor | src/pages/admin/leads.tsx:8-9 | the page starts with no leads, loading |
| Leads.LeadsPage.FetchLeads | src/pages/admin/leads.tsx:15-29 | the list becomes the table on success, is kept on failure; loading ends |
| Leads.LeadsPage.UpdateStatus | src/pages/admin/leads.tsx:31-38 | an accepted write sets the chosen status on the row; the list is re-read |
| AdminServices.SubmitDisabled | src/pages/admin/services.tsx:109 | the button is disabled exactly when submitting or the name is all whitespace |
| AdminServices.AddedNameTrimmed | src/pages/admin/services.tsx:43-51 | the stored name has no leading or trailing whitespace, is blank only for a blank input, and is stable under trimming |
| AdminServices.ServicesPage.constructor | src/pages/admin/services.tsx:14-18 | the page starts with no services, loading, not submitting, empty name and no message |
| AdminServices.ServicesPage.SetNewName | src/pages/admin/services.tsx:102 | the input sets the name |
| AdminServices.ServicesPage.FetchServices | src/pages/admin/services.tsx:24-39 | the list becomes the table on success; on failure it is kept and the message is "Failed to load services"; loading ends |
| AdminServices.ServicesPage.HandleAddService | src/pages/admin/services.tsx:41-63 | a blank name changes nothing; a failed insert keeps the name and shows the message or "Failed to add service"; an accepted one inserts the trimmed name, clears the input and re-reads; submitting ends |
| AdminServices.ServicesPage.Submit | src/pages/admin/services.tsx:45-62 | the insert of a non-blank name, with both outcomes; submitting ends |
| AdminServices.ServicesPage.AddAccepted | src/pages/admin/services.tsx:55-56 | the accepted insert adds the row, clears the input and re-reads |
| AdminServices.ServicesPage.HandleDeleteService | src/pages/admin/services.tsx:65-80 | a declined confirm or failed delete changes nothing; an accepted one removes the row and re-reads |
| CaseStudies.ToProject | src/pages/case-studies.tsx:20-27 | id, title and category are copied; the subject becomes the description, the image URL the image, the blog link the link |
| CaseStudies.ProjectRoundTrip | src/pages/case-studies.tsx:20-27 | the mapping loses nothing: the row is recovered from its card |
| CaseStudies.MapProjects | src/pages/case-studies.tsx:20 | one card per row, same length, same order |
| CaseStudies.MapAppend | src/pages/case-studies.tsx:20 | mapping a concatenation maps each part |
| CaseStudies.ViewOf | src/pages/case-studies.tsx:63-68 | loading text exactly while loading, the empty message exactly for no projects after loading, the grid of the projects otherwise |
| CaseStudies.OpenTarget | src/pages/case-studies.tsx:108-112 | a link opens exactly when it is present and non-empty |
| CaseStudies.CaseStudiesPage.constructor | src/pages/case-studies.tsx:7-8 | the page starts with no projects, loading |
| CaseStudies.CaseStudiesPage.FetchProjects | src/pages/case-studies.tsx:11-35 | the projects become the mapped rows (none for absent data) on success and stay on error; loading ends |
| AdminLayout.ActiveMeans | src/components/admin/admin-layout.tsx:47 | an item is active exactly when the path equals its href or continues it with "/" |
| AdminLayout.BlogHighlighting | src/components/admin/admin-layout.tsx:17-21 | /admin/blog, /admin/blog/new and /admin/blog/edit/x activate "Blog Posts"; /admin/blogs does not |
| AdminLayout.ActiveIsPrefix | src/components/admin/admin-layout.tsx:47 | an active item's href is a prefix of the path |
| AdminLayout.ActiveIndices | src/components/admin/admin-layout.tsx:41-50 | the highlighted items are exactly the active ones |
| AdminLayout.OneHighlight | src/components/admin/admin-layout.tsx:17-21 | on any path at most one sidebar item is highlighted |
| AdminLayout.NextTheme | src/components/admin/admin-layout.tsx:33 | "dark" becomes "light" and anything else "dark" |
| AdminLayout.ThemeTwice | src/components/admin/admin-layout.tsx:33 | two presses return a dark or light theme to where it was |
| AdminLayout.Shell.constructor | src/components/admin/admin-layout.tsx:8-10 | the shell starts on the given theme and path with no redirect |
| AdminLayout.Shell.ToggleTheme | src/components/admin/admin-layout.tsx:33 | the theme becomes the next theme |
| AdminLayout.Shell.Logout | src/components/admin/admin-layout.tsx:12-15 | logging out goes to /admin/login and keeps the theme and the current path |
| Navbar.ActiveLinks | src/components/layout/navbar.tsx:56 | the highlighted links are exactly those whose href equals the path |
| Navbar.ActiveFrom | src/components/layout/navbar.tsx:52-56 | among the links from i on, the highlighted ones are exactly those whose href equals the path |
| Navbar.HrefsDistinct | src/components/layout/navbar.tsx:28-35 | the six hrefs are distinct |
| Navbar.OneLinkActive | src/components/layout/navbar.tsx:52-58 | two highlighted links are the same link |
| Navbar.SubpageHighlightsNothing | src/components/layout/navbar.tsx:56 | /services/web-dev highlights no link; /services highlights Services only |
| Navbar.NavBar.constructor | src/components/layout/navbar.tsx:8 | the menu starts closed |
| Navbar.NavBar.ToggleMenu | src/components/layout/navbar.tsx:74 | the button flips the menu |
| Navbar.NavBar.Navigate | src/components/layout/navbar.tsx:11-14 | a change of path closes the menu; staying on the path leaves it as it was |
| ServicesData.CategoryIds | src/data/services.ts:35-66 | the category ids, in order |
| ServicesData.CategoryIdsDistinct | src/data/services.ts:37-61 | no two categories share an id |
| ServicesData.CatalogueMatchesCategories | src/data/services.ts:68-183 | every category id has its entry, each entry names its own key, and there is no other entry |
| ServicesData.TechNamesDistinct | src/data/services.ts:80-181 | within each service, technology names are distinct |
| ServicesData.AllCaseStudies | src/data/services.ts:86-146 | every related case study of every service is listed |
| ServicesData.CaseStudyIdsDistinct | src/data/services.ts:86-128 | the three related case studies have distinct ids |
| ServicesPage.Toggle | src/pages/services.tsx:45 | a click opens the category exactly when it was not the open one, and otherwise closes all |
| ServicesPage.ClickEffect | src/pages/services.tsx:27-45 | after a click on a category it is open exactly when it was closed, and every other one is closed |
| ServicesPage.OneExpanded | src/pages/services.tsx:28 | two open categories are the same category |
| ServicesPage.PanelOf | src/pages/services.tsx:27-95 | a category shows its detail exactly when open, and that detail is its own catalogue entry |
| ServicesPage.Accordion.constructor | src/pages/services.tsx:14 | the first category starts open |
| ServicesPage.Accordion.Click | src/pages/services.tsx:45 | a header click toggles that category |
| ContactForm.With | src/components/home/contact-form.tsx:48-53 | the named input takes the value; the other four are unchanged |
| ContactForm.ClearedFormEmpty | src/components/home/contact-form.tsx:33-39 | the cleared form is empty in every input and cannot be resubmitted as is |
| ContactForm.FilledFormSubmittable | src/components/home/contact-form.tsx:96-159 | filling every required input makes the form submittable |
| ContactForm.Form.constructor | src/components/home/contact-form.tsx:7-15 | the form starts idle, not loading and empty |
| ContactForm.Form.HandleChange | src/components/home/contact-form.tsx:48-53 | the input's change updates that field |
| ContactForm.Form.BeginSubmit | src/components/home/contact-form.tsx:17-20 | submitting starts loading with status idle |
| ContactForm.Form.FinishSubmit | src/components/home/contact-form.tsx:32-45 | the submission succeeds, clears every field and ends loading; nothing is written |
| ContactForm.Form.HandleSubmit | src/components/home/contact-form.tsx:17-46 | a whole submission ends in success with every field empty and loading off |
| About.Head1 | src/pages/about.tsx:152 | the first character of a word, nothing for an empty word |
| About.Initials | src/pages/about.tsx:152 | a badge exists exactly when the name has a space, and it has at most two letters |
| About.InitialsOfFirstTwoWords | src/pages/about.tsx:152 | the badge is the first letters of the first two words; later words are ignored |
| About.LeadingSpace | src/pages/about.tsx:152 | a leading space leaves a one-letter badge |
| About.FirstSpaceBadge | src/pages/about.tsx:152 | with a first word before the first space and a letter after it, the badge is those two letters |
| About.TeamBadgesRender | src/pages/about.tsx:4-47 | every team member's badge has two letters |
| About.FounderBadge | src/pages/about.tsx:152 | "Alex Morgan" is badged "AM" |

## Left out

- The database client, authentication and storage are foreign I/O. Their replies, the ids they assign and whether the user confirmed are parameters of the handlers.
- The cover-image upload of the editor and its random file name are left out: storage I/O and `Math.random`.
- The `updated_at` timestamp that postData carries is left out: it needs the clock.
- `alert`, `console.error` and `window.scrollTo` are left out: they are browser effects that change no modelled state.
- `window.open` is modelled as the link it would open, not as the effect.
- `Promise.all` in the featured-work fetch is two reads taken together, with no interleaving.
- The order of the services drop-down is the store's (`order by name`). It is not modelled.
- Re-fetches that a handler starts without awaiting are modelled as completing before the next event.
- In the admin lists `data || []` is modelled as the table itself. The store never answers a successful list read with null data. The case-study page keeps the null case.
- About.Initials: indexes a name per Unicode character, while JavaScript's `[0]` takes one UTF-16 code unit; the two differ only for a name starting with a character outside the Basic Multilingual Plane, and the site's team names are ASCII.
- No page reads the feedback table's approved flag, so no public testimonial selection is modelled; the public testimonial lists are constants.
- Text.Lower and Text.Trim: cover ASCII letters and ASCII whitespace only. JavaScript's `toLowerCase` and `trim` are Unicode-aware.
- Presentation data is left out of the static tables: quotes, bios, images, socials, stats, gradients, icons, full descriptions, case-study images. These values are shown but never computed with.
- Body scroll locking (`document.body.style`) and the animations are left out: they are DOM side effects and floating-point presentation.
- The contact form's 1.5-second delay is left out (timers). Its "error" status cannot be reached in the code, since nothing after the delay can throw, so the model has no failure path for it.
- The sign-out reply is not examined by the logout handler, and the model does not model it.
