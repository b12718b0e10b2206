# Brothers Photography: a Dafny model of the site's core

Brothers Photography is a photography studio's web site written in TypeScript
and React. It has these parts:

- Public pages: a landing gallery, a home page, a paged blog listing, a blog
  post page, a search page and a story page with a contact form.
- A password-protected admin area. From it, staff edit blog posts, the
  landing-page images and the site logo.
- Storage. The pages read and write a hosted record store through one
  service (`DatabaseService`). Older code keeps data in the browser's
  `localStorage` (`StorageService`).
- Image uploads. These go through a client service (`S3UploadService`) to a
  serverless relay, which checks the file and stores it in an S3 bucket.

The model takes each part in its own form:

- **Store tables.** The record store is a class whose six tables are
  sequences of rows. Each of its methods states the new tables and its
  result. Remote failures, generated ids and the clock are parameters.
- **React components.** Each component is a class whose fields are the
  component's state. Each handler is a method that states the new state;
  timers and user confirmations are parameters or separate events.
- **Pure computations.** Slug derivation, tag parsing, filtering, paging,
  carousel indices, the upload checks and the relay's request handling are
  functions, with lemmas that state their properties.
- **JavaScript built-ins and base 64.** The built-ins the code relies on
  (`trim`, `split`, `join`, `toLowerCase`, `parseInt`, `String(n)`) are in
  `JsText`. Base 64, as `readAsDataURL` writes it and `atob` reads it, is in
  `Base64`:
  - encoding follows section 4 of RFC 4648;
  - decoding is the forgiving-base64 decode of the WHATWG Infra standard,
    section 4.6;
  - data URLs follow RFC 2397.

Modules:

| module | file | models |
|---|---|---|
| `Records`, `Options`, `Tables` | records.dfy | row types, patches over the editable columns, keyed tables |
| `Seqs`, `Sorting` | seqs.dfy, sorting.dfy | filter, sub-sequence, dedup, sort by a comparator |
| `JsText` | js_text.dfy | the string built-ins listed above |
| `Base64` | base64.dfy | base 64 and data URLs |
| `Database` | database.dfy | src/services/database.ts |
| `Storage` | storage.dfy | src/utils/storage.ts |
| `PostText`, `BlogPostsAdmin` | post_text.dfy, blog_posts_manager.dfy | src/components/admin/BlogPostsManager.tsx |
| `AdminUi`, `LandingImagesAdmin` | admin_ui.dfy, landing_images_admin.dfy | src/components/admin/LandingPageImagesManager.tsx |
| `LogoAdmin` | logo_admin.dfy | src/components/admin/LogoManager.tsx |
| `SearchPage` | search_page.dfy | src/pages/SearchPage.tsx |
| `BlogPage` | blog_page.dfy | src/pages/BlogPage.tsx |
| `BlogPostPage` | blog_post_page.dfy | src/pages/BlogPostPage.tsx |
| `Carousel`, `HomePage`, `LandingPage` | carousel.dfy, home_page.dfy, landing_page.dfy | src/pages/HomePage.tsx, src/pages/LandingPage.tsx |
| `StoryPage` | story_page.dfy | src/pages/StoryPage.tsx |
| `AdminSession`, `AdminLoginPage`, `ProtectedRoute` | admin_session.dfy | src/context/AdminContext.tsx, src/pages/AdminLoginPage.tsx, src/components/ProtectedRoute.tsx |
| `S3Upload` | s3_upload.dfy | src/services/s3Upload.ts |
| `UploadRelay` | upload_relay.dfy | supabase/functions/upload-to-s3/index.ts |

Behaviour of the site's code worth knowing:

- **Failed store calls.** The store methods return `[]`, `null` or `false`
  on failure; they do not throw. So the admin handlers' "failed to save"
  branches never run: a save whose write failed still shows its success
  notice, and the logo manager still shows the new logo.
- **Repeated slugs.** Slugs are meant to be unique, but nothing enforces
  it. When several published posts share a slug, `maybeSingle` reports an
  error, the lookup returns `null`, and the post page redirects to the
  listing.
- **Editing a post.** An edit replaces the editable fields and also sets
  the author to "Admin" and the post to published.
- **GIF files.** The landing-image and logo managers refuse GIF files,
  although the upload service and the relay accept them.

## Model

| member | source | states |
|---|---|---|
| Database.PublishedNewestFirst | src/services/database.ts:4-17 | `getBlogPosts` returns exactly the published rows, as a permutation of them, sorted newest `created_at` first |
| Database.PublishedWithSlug | src/services/database.ts:19-33 | the slug lookup selects exactly the published rows with that slug |
| Database.MaybeSingle | src/services/database.ts:19-33 | `maybeSingle` yields a row exactly when exactly one row matches, and then it is that row |
| Database.NewestFirst | src/services/database.ts:80-92 | the image and page lists are permutations of the table sorted latest first |
| Database.GalleryQuery | src/services/database.ts:189-207 | the gallery query is sorted by display order and is a permutation of the whole table, or of the requested group's rows when a group is given |
| Database.GalleryQueryMembers | src/services/database.ts:254-272 | a row is returned exactly when it is in the table and belongs to the requested group, if any |
| Database.RefreshPostRow | src/services/database.ts:50-64 | an update stamps `updated_at` with the update time; the id is kept because a patch carries only editable columns |
| Database.RefreshGalleryRow | src/services/database.ts:224-238 | the same for gallery rows: the update time is stamped, and the id is kept because the patch has no id |
| Database.DatabaseService.constructor | src/services/database.ts:3 | the service starts with six empty tables whose unique keys hold |
| Database.DatabaseService.GetBlogPosts | src/services/database.ts:4-17 | the published posts, newest first, or `[]` on a store error |
| Database.DatabaseService.GetBlogPostBySlug | src/services/database.ts:19-33 | the single published post with the slug; nothing on an error or when zero or several rows match |
| Database.DatabaseService.CreateBlogPost | src/services/database.ts:35-48 | an insert succeeds exactly when the store answers and the id is fresh; the new row is appended and ids stay unique; a failure changes nothing |
| Database.DatabaseService.UpdateBlogPost | src/services/database.ts:50-64 | the update succeeds exactly when the id exists; only that row changes, keeping its id and taking the update time |
| Database.DatabaseService.DeleteBlogPost | src/services/database.ts:66-78 | the call succeeds exactly when the store answers; then every row with the id is gone and the rest keep their order |
| Database.DatabaseService.GetImages | src/services/database.ts:80-92 | the library images newest upload first, or `[]` on an error |
| Database.DatabaseService.UploadImage | src/services/database.ts:94-107 | the insert succeeds exactly when the store answers and the id is fresh |
| Database.DatabaseService.DeleteImage | src/services/database.ts:109-121 | a successful delete removes exactly the rows with the id |
| Database.DatabaseService.GetPageContent | src/services/database.ts:123-136 | a row is returned exactly when the page exists, and it is that page's row |
| Database.DatabaseService.SavePageContent | src/services/database.ts:138-173 | the existence check decides between updating the page's row (with a missing title or subtitle kept) and appending a new row; page ids stay unique |
| Database.DatabaseService.GetAllPageContent | src/services/database.ts:175-187 | all page rows, latest update first |
| Database.DatabaseService.GetLandingPageImages | src/services/database.ts:189-207 | the landing gallery query, or `[]` on an error |
| Database.DatabaseService.CreateLandingPageImage | src/services/database.ts:209-222 | the form becomes a new row when the id is fresh and the store answers |
| Database.DatabaseService.UpdateLandingPageImage | src/services/database.ts:224-238 | only the row with the id changes, taking the patch and the time |
| Database.DatabaseService.DeleteLandingPageImage | src/services/database.ts:240-252 | a successful delete removes exactly the rows with the id |
| Database.DatabaseService.GetHomePageImages | src/services/database.ts:254-272 | the home gallery query, or `[]` on an error |
| Database.DatabaseService.CreateHomePageImage | src/services/database.ts:274-287 | the form becomes a new row when the id is fresh and the store answers |
| Database.DatabaseService.UpdateHomePageImage | src/services/database.ts:289-303 | only the row with the id changes |
| Database.DatabaseService.DeleteHomePageImage | src/services/database.ts:305-317 | a successful delete removes exactly the rows with the id |
| Database.DatabaseService.BulkDeleteHomePageImages | src/services/database.ts:319-331 | a successful delete removes exactly the rows whose id is listed |
| Database.DatabaseService.BulkUpdateHomePageImages | src/services/database.ts:333-345 | a successful update rewrites exactly the rows whose id is listed |
| Database.DatabaseService.GetSiteSetting | src/services/database.ts:347-360 | a row is returned exactly when the key exists, and it holds that key |
| Database.DatabaseService.UpdateSiteSetting | src/services/database.ts:362-397 | an upsert: the key's row is rewritten when it exists, otherwise a new row is appended; setting keys stay unique |
| Database.UpsertLeavesOneRow | src/services/database.ts:362-397 | with unique keys, every row holding a key is the one row of that key |
| Storage.MissingKeysReadEmpty | src/utils/storage.ts:24-27 | a key that was never written reads as an empty list |
| Storage.WritesStayUnderTheirKey | src/utils/storage.ts:3-5 | the keys are distinct, so a write under one key leaves the lists under the others unchanged |
| Storage.MergePost | src/utils/storage.ts:39-46 | merging a patch of editable columns keeps the post's id and its timestamps |
| Storage.PageFor | src/utils/storage.ts:71-75 | nothing exactly when no entry has the page id; otherwise an entry with that page id |
| Storage.SavedPageReadsBack | src/utils/storage.ts:77-89 | after a save the page reads back as the saved content, and the list grows by at most one entry |
| Storage.SameReadForOtherPage | src/utils/storage.ts:77-89 | a save for one page leaves what every other page reads unchanged |
| Storage.UpdateTouchesOnlyFirstMatch | src/utils/storage.ts:39-46 | an update merges the patch into the first post with the id, and every other position is unchanged |
| Storage.DeleteRemovesAll | src/utils/storage.ts:48-52 | after a delete a post is present exactly when it was present before and has another id |
| Storage.BrowserStorage.constructor | src/utils/storage.ts:23 | the service wraps the given storage contents |
| Storage.BrowserStorage.GetBlogPosts | src/utils/storage.ts:24-27 | the parsed post list, `[]` when absent |
| Storage.BrowserStorage.SaveBlogPosts | src/utils/storage.ts:29-31 | only the posts key changes, and it reads back as the saved list |
| Storage.BrowserStorage.AddBlogPost | src/utils/storage.ts:33-37 | the post is put in front of the stored posts |
| Storage.BrowserStorage.UpdateBlogPost | src/utils/storage.ts:39-46 | the first post with the id is merged with the patch; without one nothing is written |
| Storage.BrowserStorage.DeleteBlogPost | src/utils/storage.ts:48-52 | every post with the id is removed, the rest keep their order |
| Storage.BrowserStorage.GetImages | src/utils/storage.ts:54-57 | the parsed image list, `[]` when absent |
| Storage.BrowserStorage.SaveImage | src/utils/storage.ts:59-63 | the image is put in front of the stored images |
| Storage.BrowserStorage.DeleteImage | src/utils/storage.ts:65-69 | every image with the id is removed |
| Storage.BrowserStorage.GetPageContent | src/utils/storage.ts:71-75 | the first entry for the page, or nothing |
| Storage.BrowserStorage.SavePageContent | src/utils/storage.ts:77-89 | the page's entry is replaced or appended; the page then reads back as the saved content |
| Storage.BrowserStorage.GetAllPageContent | src/utils/storage.ts:91-94 | the parsed page list, `[]` when absent |
| PostText.SlugIsSlug | src/components/admin/BlogPostsManager.tsx:76 | a derived slug contains only `[a-z0-9-]`, never two hyphens in a row, and no hyphen at either end |
| PostText.SlugIdempotent | src/components/admin/BlogPostsManager.tsx:76 | deriving a slug from a derived slug returns it unchanged |
| PostText.SlugKeepsAlphanumerics | src/components/admin/BlogPostsManager.tsx:76 | every letter and digit of the lower-cased title reaches the slug, in order |
| PostText.Collapse | src/components/admin/BlogPostsManager.tsx:76 | replacing each run outside `[a-z0-9]` leaves slug characters with single hyphens, and begins with a hyphen exactly when the text did not begin with a slug character |
| PostText.CollapseFixed | src/components/admin/BlogPostsManager.tsx:76 | text already in slug form is unchanged by the replacement |
| PostText.ParseTagsWellFormed | src/components/admin/BlogPostsManager.tsx:80 | parsed tags are trimmed, non-empty and comma-free, and keep the order in which they were typed |
| PostText.ParseJoinedTags | src/components/admin/BlogPostsManager.tsx:60 | joining tags with ", " for the edit form and parsing them on save gives back the same tags |
| PostText.ParseEmpty | src/components/admin/BlogPostsManager.tsx:80 | an empty tag field gives no tags |
| PostText.TrimAll | src/components/admin/BlogPostsManager.tsx:80 | `map(t => t.trim())` trims every piece and keeps their number |
| BlogPostsAdmin.PostData | src/components/admin/BlogPostsManager.tsx:74-84 | the saved post keeps the typed fields; an empty slug becomes a valid slug; tags are well formed; the featured image defaults to the stock picture; the author is Admin and the post is published |
| BlogPostsAdmin.EditThenSave | src/components/admin/BlogPostsManager.tsx:52-64 | for a post whose slug is set (or would be derived as empty), whose image is set and whose tags are trimmed, non-empty and comma-free, editing it and saving it unchanged keeps every editable field; the author becomes 'Admin' and the post is published |
| BlogPostsAdmin.WriteDraft | src/components/admin/BlogPostsManager.tsx:86-90 | the post being edited is updated, or else a new post is created |
| BlogPostsAdmin.BlogPostsManager.constructor | src/components/admin/BlogPostsManager.tsx:7-20 | no posts, no form shown, nothing being edited, and an empty form |
| BlogPostsAdmin.BlogPostsManager.LoadData | src/components/admin/BlogPostsManager.tsx:26-36 | the list becomes the published posts, or `[]` when the read fails |
| BlogPostsAdmin.BlogPostsManager.OpenForm | src/components/admin/BlogPostsManager.tsx:121 | the "New Post" button shows the form |
| BlogPostsAdmin.BlogPostsManager.ResetForm | src/components/admin/BlogPostsManager.tsx:38-50 | the form is emptied, nothing is being edited and the form is closed |
| BlogPostsAdmin.BlogPostsManager.EditPost | src/components/admin/BlogPostsManager.tsx:52-64 | the form holds the post and its tags joined with ", " |
| BlogPostsAdmin.BlogPostsManager.SavePost | src/components/admin/BlogPostsManager.tsx:66-100 | refused exactly when a required field is empty, and then nothing changes; otherwise the row is written, the list is reloaded and the form is reset |
| BlogPostsAdmin.BlogPostsManager.DeletePost | src/components/admin/BlogPostsManager.tsx:102-112 | without confirmation nothing changes; with it the post's rows are removed and the list is reloaded |
| AdminUi.FileProblem | src/components/admin/LandingPageImagesManager.tsx:80-88 | a file passes exactly when its type is listed and it is within the size limit; the type is checked first |
| LandingImagesAdmin.FileChecks | src/components/admin/LandingPageImagesManager.tsx:6-7 | GIF is refused; exactly 5 MiB passes and one byte more gives the size message |
| LandingImagesAdmin.EditThenSave | src/components/admin/LandingPageImagesManager.tsx:62-74 | editing an image and saving it unchanged writes back every field, with a missing alt text stored as '' |
| LandingImagesAdmin.DisplayOrderRoundTrip | src/components/admin/LandingPageImagesManager.tsx:236 | a typed integer, with or without a minus sign, is read back as itself; text without digits gives 0 |
| LandingImagesAdmin.EmptyFilterShowsAll | src/components/admin/LandingPageImagesManager.tsx:34 | the empty section choice lists every image of the table |
| LandingImagesAdmin.WriteForm | src/components/admin/LandingPageImagesManager.tsx:110-116 | the image being edited is updated, or else a new row is created |
| LandingImagesAdmin.LandingImagesManager.constructor | src/components/admin/LandingPageImagesManager.tsx:10-26 | the initial state with the default form: section hero, active, order 0 |
| LandingImagesAdmin.LandingImagesManager.LoadImages | src/components/admin/LandingPageImagesManager.tsx:31-41 | the list becomes the query for the chosen section, or `[]` on a failed read |
| LandingImagesAdmin.LandingImagesManager.SetFilterSection | src/components/admin/LandingPageImagesManager.tsx:155-156 | choosing a section reloads the list for that section |
| LandingImagesAdmin.LandingImagesManager.DismissNotification | src/components/admin/LandingPageImagesManager.tsx:45 | the notification is hidden |
| LandingImagesAdmin.LandingImagesManager.ResetForm | src/components/admin/LandingPageImagesManager.tsx:48-60 | the default form, nothing being edited, the form closed |
| LandingImagesAdmin.LandingImagesManager.EditImage | src/components/admin/LandingPageImagesManager.tsx:62-74 | the form holds the image's fields |
| LandingImagesAdmin.LandingImagesManager.FileUpload | src/components/admin/LandingPageImagesManager.tsx:76-100 | no file does nothing; a refused file only sets the error notice; an accepted file sets the data URL, the name and the size |
| LandingImagesAdmin.LandingImagesManager.OpenForm | src/components/admin/LandingPageImagesManager.tsx:166 | the form is shown |
| LandingImagesAdmin.LandingImagesManager.SetSection | src/components/admin/LandingPageImagesManager.tsx:222 | only the section field changes |
| LandingImagesAdmin.LandingImagesManager.SetAltText | src/components/admin/LandingPageImagesManager.tsx:247 | only the alt-text field changes |
| LandingImagesAdmin.LandingImagesManager.SetActive | src/components/admin/LandingPageImagesManager.tsx:258 | only the active field changes |
| LandingImagesAdmin.LandingImagesManager.SetDisplayOrder | src/components/admin/LandingPageImagesManager.tsx:236 | only the display order changes, to `parseInt(text) \|\| 0` |
| LandingImagesAdmin.LandingImagesManager.Save | src/components/admin/LandingPageImagesManager.tsx:102-124 | refused exactly when the image or its name is missing, and then only the notice changes; otherwise the row is written, the notice names an update or an upload, the list is reloaded and the form is reset |
| LandingImagesAdmin.LandingImagesManager.Delete | src/components/admin/LandingPageImagesManager.tsx:126-136 | without confirmation nothing changes; with it the image's rows are removed, the notice is shown and the list is reloaded |
| LogoAdmin.LogoFileChecks | src/components/admin/LogoManager.tsx:5-6 | SVG is accepted and GIF refused; exactly 2 MiB passes and one byte more gives the size message |
| LogoAdmin.StoredLogo | src/components/admin/LogoManager.tsx:21-33 | the stored logo is absent exactly when no settings row has the `site_logo` key |
| LogoAdmin.StoredLogoOfRow | src/components/admin/LogoManager.tsx:21-33 | with unique keys, any row holding the logo key is the one that is read |
| LogoAdmin.WriteLogo | src/components/admin/LogoManager.tsx:70 | the settings table becomes `LogoRows`: the `site_logo` row rewritten with the value and type 'image' when it exists, a new row appended when it does not, no change when the call fails; when the upsert takes, the stored logo is the value and every `site_logo` row holds it with type 'image' |
| LogoAdmin.OtherSettingsKept | src/components/admin/LogoManager.tsx:70 | writing the logo keeps every other setting row |
| LogoAdmin.LogoManager.constructor | src/components/admin/LogoManager.tsx:9-15 | no logo, no form, nothing picked |
| LogoAdmin.LogoManager.LoadLogo | src/components/admin/LogoManager.tsx:21-33 | the shown logo becomes the stored one when there is one and is kept otherwise |
| LogoAdmin.LogoManager.OpenForm | src/components/admin/LogoManager.tsx:148 | the form is shown |
| LogoAdmin.LogoManager.DismissNotification | src/components/admin/LogoManager.tsx:37 | the notification is hidden |
| LogoAdmin.LogoManager.ResetForm | src/components/admin/LogoManager.tsx:102-106 | the form closes and the picked logo is forgotten |
| LogoAdmin.LogoManager.FileUpload | src/components/admin/LogoManager.tsx:39-60 | no file does nothing; a refused file only sets the error notice; an accepted file becomes the picked logo |
| LogoAdmin.LogoManager.Save | src/components/admin/LogoManager.tsx:62-81 | refused exactly when no logo is picked, with only the error notice changed; otherwise the settings table becomes `LogoRows` for the picked logo, the shown logo becomes the picked one, the success notice shows and the form closes |
| LogoAdmin.LogoManager.Reset | src/components/admin/LogoManager.tsx:83-100 | without confirmation nothing changes; after it the settings table becomes `LogoRows` for the default picture (the row is not removed), which is shown, and the form closes |
| LogoAdmin.SaveThenLoad | src/components/admin/LogoManager.tsx:62-81 | a logo whose save was stored is what the next load shows |
| SearchPage.LoadedPosts | src/pages/SearchPage.tsx:26-36 | the loaded posts are a sub-sequence of the fetched ones, all published, and every published fetched post is among them |
| SearchPage.FilterPosts | src/pages/SearchPage.tsx:38-62 | the results are a sub-sequence of the loaded posts |
| SearchPage.FilterPostsMembers | src/pages/SearchPage.tsx:38-62 | a post is shown exactly when it is loaded and matches the query (the lower-cased, untrimmed query occurs in its lower-cased title, excerpt, content or a tag), the category and one of the tags, each filter counting only when active |
| SearchPage.NoFilterShowsAll | src/pages/SearchPage.tsx:38-62 | with a blank query and no category or tags, every loaded post is shown in order |
| SearchPage.ToggleMembers | src/pages/SearchPage.tsx:64-70 | toggling flips the membership of that tag and no other |
| SearchPage.ToggleDistinct | src/pages/SearchPage.tsx:64-70 | a selection without duplicates stays without duplicates |
| SearchPage.ToggleTwice | src/pages/SearchPage.tsx:64-70 | selecting and deselecting a tag gives back the original selection |
| SearchPage.ClearShowsAll | src/pages/SearchPage.tsx:72-76 | after clearing no filter is active and every loaded post is shown |
| SearchPage.InactiveShowsAll | src/pages/SearchPage.tsx:78 | whenever no filter is active the results are the loaded posts |
| SearchPage.CategoriesExact | src/pages/SearchPage.tsx:15 | each category is offered once, and exactly the categories of some post are offered |
| SearchPage.TagChoicesExact | src/pages/SearchPage.tsx:16 | each tag is offered once, and exactly the tags of some post are offered |
| BlogPage.TotalPages | src/pages/BlogPage.tsx:31 | the page count is the ceiling of the post count over ten |
| BlogPage.PageItemsRange | src/pages/BlogPage.tsx:32-34 | page p holds exactly the posts at indices (p-1)*10 up to min(p*10, n), and nothing past the end |
| BlogPage.FirstPagesPrefix | src/pages/BlogPage.tsx:32-34 | pages 1 to k put together are the first min(10k, n) posts |
| BlogPage.AllPagesWhole | src/pages/BlogPage.tsx:31-34 | the pages put together give back every post, in order, each once |
| BlogPage.ShowingMatchesItems | src/pages/BlogPage.tsx:104 | on a page with posts, the "Showing a-b of n" label names exactly the positions of the posts shown |
| BlogPage.PageWindowShape | src/pages/BlogPage.tsx:41-51 | the window has min(5, total) pages, all within 1..total; it holds the current page, and that page is in the middle when two pages fit on each side of it |
| BlogPage.RenderPageNumbers | src/pages/BlogPage.tsx:41-51 | the loop's buttons are exactly the window: min(5, total) consecutive pages from max(1, min(current - 2, total - 4)) |
| BlogPage.BlogPageView.constructor | src/pages/BlogPage.tsx:10-12 | page 1, no posts, loading |
| BlogPage.BlogPageView.LoadPosts | src/pages/BlogPage.tsx:18-28 | the posts become the published posts, or `[]` on a failed read |
| BlogPage.BlogPageView.GoToPage | src/pages/BlogPage.tsx:36-39 | the current page becomes the argument |
| BlogPage.BlogPageView.ClickPrevious | src/pages/BlogPage.tsx:167-176 | the page moves back one exactly when Previous is shown and enabled, and stays a valid page |
| BlogPage.BlogPageView.ClickNext | src/pages/BlogPage.tsx:182-189 | the page moves on one exactly when Next is shown and enabled, and stays a valid page |
| BlogPage.BlogPageView.ClickPageNumber | src/pages/BlogPage.tsx:51-55 | a click lands exactly when the row of buttons is shown and the button exists; it goes to the page that button shows, which is a valid page |
| BlogPostPage.LoadedPost | src/pages/BlogPostPage.tsx:16-30 | without a slug there is no post; a post found is a published row with that slug |
| BlogPostPage.ArticleIffFound | src/pages/BlogPostPage.tsx:41-43 | the article is shown exactly when there is a slug, the store answers and exactly one published row has it; otherwise the page redirects to /blog, replacing history |
| BlogPostPage.ArticleShowsPost | src/pages/BlogPostPage.tsx:84 | the article shows the stored post, and its paragraphs put together are its content |
| BlogPostPage.ParagraphsRoundTrip | src/pages/BlogPostPage.tsx:84 | joining the paragraphs with a blank line gives back the content |
| BlogPostPage.ParagraphsShape | src/pages/BlogPostPage.tsx:84 | no paragraph holds a blank line, and there is one more paragraph than blank-line separators |
| Carousel.ActiveImages | src/pages/HomePage.tsx:36-37 | exactly the active images, in order |
| Carousel.NextStep | src/pages/HomePage.tsx:50-52 | next moves one slide on and wraps from the last to the first |
| Carousel.PrevStep | src/pages/HomePage.tsx:46-48 | previous moves one slide back and wraps from the first to the last |
| Carousel.NextPrevInverse | src/pages/LandingPage.tsx:37-49 | next then previous, and previous then next, come back to the same slide |
| HomePage.RecentPostsPrefix | src/pages/HomePage.tsx:38 | the recent posts are the first min(3, n) posts |
| HomePage.HomePageView.constructor | src/pages/HomePage.tsx:7-11 | slide 0, no content, loading |
| HomePage.HomePageView.LoadContent | src/pages/HomePage.tsx:27-44 | the active hero and gallery images and the three most recent posts, each from its own read |
| HomePage.HomePageView.PrevSlide | src/pages/HomePage.tsx:46-48 | the slide moves back one, wrapping, and stays in range |
| HomePage.HomePageView.NextSlide | src/pages/HomePage.tsx:50-52 | the slide moves on one, wrapping, and stays in range |
| HomePage.HomePageView.TimerTick | src/pages/HomePage.tsx:17-25 | an interval tick is a step to the next slide |
| HomePage.HomePageView.ClickDot | src/pages/HomePage.tsx:115-121 | a dot selects its slide |
| LandingPage.LandingPageView.constructor | src/pages/LandingPage.tsx:6-9 | slide 0, not transitioning, no images, loading |
| LandingPage.LandingPageView.LoadImages | src/pages/LandingPage.tsx:25-35 | the active hero images, or none on a failed read |
| LandingPage.LandingPageView.HandleNext | src/pages/LandingPage.tsx:37-42 | locked during a transition or without images; otherwise the next slide, with a transition started |
| LandingPage.LandingPageView.HandlePrev | src/pages/LandingPage.tsx:44-49 | locked during a transition or without images; otherwise the previous slide, with a transition started |
| LandingPage.LandingPageView.GoToSlide | src/pages/LandingPage.tsx:51-56 | locked only by a transition; otherwise the given slide |
| LandingPage.LandingPageView.EndTransition | src/pages/LandingPage.tsx:41 | the transition ends |
| LandingPage.LandingPageView.Rerender | src/pages/LandingPage.tsx:15-23 | the interval closes over the current transition flag exactly when the index or the number of images changed |
| LandingPage.LandingPageView.TimerTick | src/pages/LandingPage.tsx:15-23 | a tick tests the captured flag, not the current one: if it was set nothing changes, otherwise the slide moves to the next one with a transition started |
| LandingPage.AutoAdvanceStalls | src/pages/LandingPage.tsx:15-42 | with two images or more, one tick moves the slide; after the transition ends, the next tick leaves the slide where it is |
| StoryPage.NewSubmission | src/pages/StoryPage.tsx:26-30 | the entry carries the four form fields, the clock reading as its id and the ISO time |
| StoryPage.SubmissionIdIsTime | src/pages/StoryPage.tsx:28 | the id reads back as the clock's number |
| StoryPage.ChangeTouchesOneField | src/pages/StoryPage.tsx:45-50 | a change sets the named field and leaves the other three alone |
| StoryPage.SubmitAppendsOnly | src/pages/StoryPage.tsx:21-32 | a submit the browser lets through keeps the earlier log as a prefix and adds one entry at the end, made from the form as it was submitted, with every field filled in; posts, images and pages in storage read as before, and a second submit is blocked until this one settles |
| StoryPage.StoryPageView.constructor | src/pages/StoryPage.tsx:12-19 | an empty form, not submitted, not submitting |
| StoryPage.StoryPageView.HandleChange | src/pages/StoryPage.tsx:45-50 | the form takes the changed field |
| StoryPage.StoryPageView.HandleSubmit | src/pages/StoryPage.tsx:21-33 | runs only when Send is enabled and the four `required` inputs hold text (StoryPage.tsx:170-228); the stored log gets the new entry at its end, nothing else in storage changes, and a submit is in progress |
| StoryPage.StoryPageView.SubmitSettled | src/pages/StoryPage.tsx:34-38 | the thanks message shows and the form empties |
| StoryPage.StoryPageView.ThanksExpired | src/pages/StoryPage.tsx:39-41 | the thanks message goes |
| AdminSession.SyncFlag | src/context/AdminContext.tsx:19-25 | the stored flag reads 'true' exactly when authenticated, it is removed otherwise, and other keys are kept |
| AdminSession.SyncIdempotent | src/context/AdminContext.tsx:19-25 | writing the flag for the value it already holds changes nothing |
| AdminSession.UseAdmin | src/context/AdminContext.tsx:46-52 | the hook throws exactly outside a provider, with the source's message |
| AdminSession.AdminProvider.constructor | src/context/AdminContext.tsx:15-17 | the flag starts as session storage says, and the two agree |
| AdminSession.AdminProvider.SetAuthenticated | src/context/AdminContext.tsx:19-25 | the effect writes storage only when the value changes, and flag and storage agree |
| AdminSession.AdminProvider.Login | src/context/AdminContext.tsx:27-33 | success exactly for the admin password; a failure changes nothing |
| AdminSession.AdminProvider.Logout | src/context/AdminContext.tsx:35-37 | signed out, with the stored flag removed |
| AdminLoginPage.LoginPageView.constructor | src/pages/AdminLoginPage.tsx:7-10 | an empty password and no error |
| AdminLoginPage.LoginPageView.SetPassword | src/pages/AdminLoginPage.tsx:55 | the password field takes the typed text |
| AdminLoginPage.LoginPageView.HandleSubmit | src/pages/AdminLoginPage.tsx:12-22 | the right password signs in and navigates to the dashboard; a wrong one shows the error and clears the field, with nothing else changed |
| ProtectedRoute.Guard | src/components/ProtectedRoute.tsx:8-16 | the children render exactly when authenticated; otherwise a replacing redirect to /admin |
| S3Upload.ValidateFile | src/services/s3Upload.ts:25-41 | a file is valid exactly when its type is allowed and it is at most 10 MiB; the type is checked first |
| S3Upload.SizeCeiling | src/services/s3Upload.ts:21-22 | exactly 10 MiB passes and one byte more is refused |
| S3Upload.UploadToS3 | src/services/s3Upload.ts:43-104 | an invalid file is refused before any request; a valid one sends its data URL; a failed read rejects with 'Failed to read file' |
| S3Upload.FailedAnswer | src/services/s3Upload.ts:86-89 | a non-2xx answer rejects; the message is the body's `error` when the body has a non-empty one (a plain error or the relay's catch-all failure), and 'Upload failed' otherwise |
| S3Upload.UploadThroughRelay | src/services/s3Upload.ts:53-96 | a valid, readable upload that the store accepts resolves with the relay's key and public URL |
| S3Upload.UploadMultiple | src/services/s3Upload.ts:106-134 | one entry per file, in order; each is that file's own upload result or its recorded failure |
| S3Upload.InvalidFileEntry | src/services/s3Upload.ts:121-130 | a refused file shows up in the batch as a failure under its own name, with no URL or key |
| UploadRelay.PreflightOnly | supabase/functions/upload-to-s3/index.ts:17-22 | a preflight gets 200, the CORS headers and no body |
| UploadRelay.CredentialsCheckedFirst | supabase/functions/upload-to-s3/index.ts:30-40 | without credentials every POST gets the same 500, whatever its body |
| UploadRelay.StatusOrder | supabase/functions/upload-to-s3/index.ts:30-75 | the status of a POST is that of the first failing check, in the source's order |
| UploadRelay.SuccessIff | supabase/functions/upload-to-s3/index.ts:30-116 | a POST succeeds exactly when every check passes and the store accepts the object |
| UploadRelay.PostSuccessBody | supabase/functions/upload-to-s3/index.ts:103-116 | a POST gets a 2xx status only as the 200 that carries the success body |
| UploadRelay.FailuresReported | supabase/functions/upload-to-s3/index.ts:118-129 | any 500 after the credential check reports 'Upload failed' with the thrown message |
| UploadRelay.SuccessBodyShape | supabase/functions/upload-to-s3/index.ts:77-116 | on success the key is the folder and the generated name, the name keeps the extension, and the URL is the bucket's public address |
| UploadRelay.Accepted | supabase/functions/upload-to-s3/index.ts:103-116 | when every check passes, the answer is 200 with the object's URL, key, generated name and uploaded name |
| UploadRelay.ExtensionAfterLastDot | supabase/functions/upload-to-s3/index.ts:78 | the extension is the text after the last dot, or the whole name without a dot |
| UploadRelay.DefaultLocation | supabase/functions/upload-to-s3/index.ts:27-28 | without settings the region is us-east-1 and the bucket brothersphotography |
| UploadRelay.DataUrlPayload | supabase/functions/upload-to-s3/index.ts:63-64 | the payload of a data URL is its base 64 text, and `atob` gives back exactly the bytes |
| UploadRelay.SizeBoundary | supabase/functions/upload-to-s3/index.ts:66-75 | a payload of exactly 10 MiB passes and one byte more gets 400 |
| Base64.Encode | src/services/s3Upload.ts:102 | the encoding is a whole number of four-character groups of alphabet characters and '=' |
| Base64.EncodeLength | src/services/s3Upload.ts:102 | four characters for every started group of three bytes |
| Base64.DecodeEncode | supabase/functions/upload-to-s3/index.ts:63-64 | `atob` of the encoding gives back the bytes |
| Base64.ForgivingDecode | supabase/functions/upload-to-s3/index.ts:63-64 | decoding succeeds exactly when the cleaned text is alphabet characters and its length leaves no remainder of 1 modulo 4 |
| JsText.ParseIntDecimal | src/components/admin/LandingPageImagesManager.tsx:236 | `parseInt` reads back what `String(n)` writes, with or without a minus sign |
| JsText.ParseIntNoDigits | src/components/admin/LandingPageImagesManager.tsx:236 | text with no sign or digit after the whitespace is NaN |
| JsText.JoinSplit | src/pages/BlogPostPage.tsx:84 | joining the pieces of a split with the separator gives back the text |
| JsText.SplitPiecesFree | src/pages/BlogPostPage.tsx:84 | no piece of a split holds the separator |
| JsText.SplitCount | src/pages/BlogPostPage.tsx:84 | a split has one more piece than there are separators |
| JsText.LastPieceIsSuffix | supabase/functions/upload-to-s3/index.ts:78 | `split('.').pop()` is the text after the last dot, or the whole text |
| JsText.Trim | src/pages/SearchPage.tsx:41 | `trim` leaves no whitespace at either end and never lengthens |
| JsText.TrimSlice | src/pages/SearchPage.tsx:41 | `trim` returns the slice of the text after its leading whitespace, and everything before and after that slice is whitespace; with no whitespace at its ends, no other slice qualifies (JsText.TrimUnique) |
| JsText.TrimUnique | src/pages/SearchPage.tsx:41 | any slice with no whitespace at its ends and only whitespace around it is `trim`'s result |
| JsText.TrimIdempotent | src/components/admin/BlogPostsManager.tsx:80 | trimming trimmed text changes nothing |
| JsText.DecimalValue | src/pages/StoryPage.tsx:28 | `String(n)` writes digits whose value is n |

## Left out

- Rendering: markup, styling, icons, theme and animation are not modelled. Only some decisions the markup makes are: which screen and which controls appear, the blog page's enabled Previous/Next buttons, and the story form's submit gate. Other disabled states are not: the logo's Save button is disabled while saving or with no logo picked (src/components/admin/LogoManager.tsx:225), and the model instead keeps the handler's own refusal.
- StoryPage.StoryPageView.HandleSubmit: the browser's own form checks are reduced to "every `required` input holds some text". The `type="email"` check of the email input (src/pages/StoryPage.tsx:183), which also refuses text that is not an e-mail address, is not modelled, so the model lets through entries the page would refuse.
- Database.GalleryQuery: rows with the same `display_order` come back from the store in an order it chooses. The model's sort fixes one such order, so the gallery lists of the home and landing pages are exact only up to the order of such ties.
- Loading and saving flags that only drive spinners: the saving flag of `BlogPostsManager`, and `loading` in the admin managers where no contract depends on it.
- Logging with `console.error` and `alert` boxes. A refused blog-post save is the `refused` result; the alert text is not kept.
- The record store's network layer. SQL filters and `order` are modelled as an equality filter and a sort. Each remote outcome is a boolean parameter. Ids and timestamps are parameters. Nothing runs concurrently.
- `getFileInfo` and `createImagePreview` in src/services/s3Upload.ts: they only describe a file for display.
- The `onProgress` callback of src/services/s3Upload.ts: it only reports progress and does not affect the outcome.
- S3Upload.UploadToS3: the S3 signing and `PutObject` call of the relay are reduced to the store's answer (stored, or failed with a message), because they are foreign calls.
- S3Upload.RejectionMessage: the size in megabytes is a text parameter, because `toFixed(2)` is floating-point formatting.
- S3Upload.ReadResponse: a non-2xx answer whose body is not JSON is read as 'Upload failed'; the source would reject with the parse error's message instead. Two 2xx cases differ too: a 2xx answer with no JSON body is rejected with 'Upload failed', where the source rejects with the `SyntaxError` message of `response.json()`; and a 2xx answer carrying an error body resolves with a failed result holding that error, where the source resolves with the raw body object. The relay of supabase/functions/upload-to-s3/index.ts never answers a POST with either 2xx shape; it gives 2xx only with a success body.
- UploadRelay.Handle: the message `atob` throws on bad input is a parameter of the outside world. The clock, the random suffix and the store's answer are parameters too. The JSON body's fields are modelled as optional strings. In the source, a non-string `fileName` or `fileType` that passes the presence checks throws inside the string calls, which ends in the catch-all 500. The model does not include that path.
- JsText.ParseInt: numbers are unbounded integers. Floating-point precision loss for very long digit strings is not modelled, and neither is the distinction between `-0` and `0`.
- JsText.LowerAscii: `toLowerCase` is modelled on ASCII letters only. Other characters are kept as they are.
- File reading with `FileReader`: the outcome is a parameter (`readOk`). A failed read leaves `null` in the image URL; the model writes this as the empty text.
- Timers: the auto-advance intervals, the 500 ms transition timeout, the notification timeouts and the story page's 1 s and 5 s timeouts are separate events (`TimerTick`, `EndTransition`, `DismissNotification`, `SubmitSettled`, `ThanksExpired`). Their timing is not modelled.
- `window.scrollTo` and `window.confirm`: scrolling is left out, and confirmation is a parameter.
- Storage: `localStorage` holds parsed lists, not JSON text. Only a missing key (or, in the source, the empty text) reads as `[]`. In the source, a stored value that is not valid JSON makes `JSON.parse` throw, and a parsed value of another shape is returned as it is; the model has no unparsed text, so both cases are left out. The `BlogPost` type that src/utils/storage.ts imports from src/data/blogData is not part of this model; the store's post row stands in for it.
- Database.RefreshPostRow: patches carry only the editable columns, because every caller passes form fields. `Partial<BlogPost>` would also admit `id`, `created_at` and `updated_at`; the store would then write the patch's `id` and `created_at` into the row. `updated_at` is always stamped.
- Database.RefreshGalleryRow: the same. A gallery patch has no `id` or `created_at`, which the store would otherwise write into the row.
- Storage.MergePost: the same. In the source, `{ ...posts[index], ...updatedPost }` lets a patch's `id`, `created_at` or `updated_at` replace the stored ones. The model's patches cannot carry them.
- LandingPage.LandingPageView: the page's counter (src/pages/LandingPage.tsx:144) reads `landingImages`, which is not declared. So once a hero image exists, rendering throws a ReferenceError, and in the running page the slide controls are never reached. The model keeps the handlers as written and leaves out the render.
- HomePage.HomePageView.PrevSlide: requires a hero image. Without one, the source's `% 0` gives NaN; the model excludes this.
- HomePage.HomePageView.NextSlide: requires a hero image, for the same reason.
- AdminSession.AdminProvider: `sessionStorage` is written only by the effect, as in the source. React's batching of state updates is not modelled.
- AdminLoginPage.LoginPageView.HandleSubmit: navigation is recorded as the list of paths navigated to. Routing itself is not modelled.
- The "failed to load/save/delete" catch branches of the admin managers: the store methods do not throw, so these branches are unreachable and are not modelled.
