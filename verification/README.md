# dinimo admin, modelled in Dafny

dinimo is a small Next.js blog and CMS backed by MySQL. This project models
the logic of its admin panel, together with the scripts that migrate a
WordPress database into it. The modelled pieces are:

- **The post list.** The server actions build the filtered, sorted and
  paginated listing queries, and run the deletes and the quick edit inside a
  transaction (`PostActions`, `PostsPage`). The client screens handle sorting,
  filtering, pagination, selection, bulk delete and the inline quick-edit row
  (`ClientComponents`, `PostList`, `QuickEditRow`, `FilterComponent`,
  `Pagination`). `handleSort` in `PostList.js` (lines 45-59) is the same code
  as the one in `client-components.jsx`, so `ClientComponents.HandleSort`
  and its lemmas model both.
- **Comment moderation.** This covers the status tabs and the guarded
  mutations (`CommentActions`). On the client it covers the flattening of the
  reply tree, the tree built from `parent_id`, and selection with shift-click
  ranges, a tri-state select-all box and optimistic bulk removal
  (`CommentPanel`).
- **The media library.** This covers the recursive listing of the uploaded
  images and its order, the guarded `unlink` of one image (`MediaActions`),
  the library dialog (`MediaLibraryModal`), the editor's
  choose-then-describe image flow with its default alt text
  (`TiptapEditor`), and the `next/image` loader (`ImageLoader`).
- **Terms.** This covers the slug generator `createUrl`, the term actions on
  `terms` and `post_term` (`TermActions`), and the term manager screen
  (`TermsManager`).
- **The migration scripts** for WordPress posts, comments and taxonomies
  (`MigratePosts`, `MigrateComments`, `MigrateTerms`).

Shared modules come first:

- `JsText` holds JavaScript strings as UTF-16 code units, with `split`,
  `join`, `trim` and `parseInt`.
- `Lists` holds the array idioms of the React handlers: filter, toggle and
  de-duplication through `Set`.
- `UrlParams` holds `URLSearchParams`, following the WHATWG URL Standard
  (section 6.2, and the application/x-www-form-urlencoded parser of
  section 5.1).
- `Tables` holds the database, seen only through the effect of each
  statement. A query whose placeholders matter is a sequence of SQL pieces,
  and each `?` is an explicit hole.

State that the source changes in place is modelled as classes:

- the React component state;
- the database connection;
- the filesystem;
- the migration targets.

Pure helpers are functions. Each method is proved against a specification
function, and the properties of that function are proved as lemmas.

## Model

| member | source | states |
|---|---|---|
| UrlParams.GetFirst | src/app/admin/posts/client-components.jsx:411-412 | `get(name)` is missing exactly when no pair has the name; otherwise it is the value of a pair with that name |
| UrlParams.GetAll | src/app/admin/posts/client-components.jsx:89-95 | `getAll(name)` holds exactly the values paired with the name, never more than there are pairs |
| UrlParams.DeleteEntries | src/app/admin/posts/client-components.jsx:93 | `delete(name)` keeps exactly the pairs that have another name |
| UrlParams.SetEntries | src/app/admin/posts/client-components.jsx:91 | after `set(name, value)` the pair `(name, value)` is present, and the pairs with another name are exactly those there were before |
| UrlParams.SetThenGet | src/app/admin/posts/client-components.jsx:91-95 | after `set(name, value)`, `get(name)` is the value, and it is the name's only value |
| UrlParams.DeleteThenGet | src/app/admin/posts/client-components.jsx:93 | after `delete(name)`, the name has no value |
| UrlParams.SetKeepsOthers | src/app/admin/posts/client-components.jsx:88-97 | `set` keeps every other name's values, in order |
| UrlParams.DeleteKeepsOthers | src/app/admin/posts/client-components.jsx:88-97 | `delete` keeps every other name's values, in order |
| UrlParams.GetFirstOfAll | src/app/admin/posts/client-components.jsx:411-412 | `get` is the first of `getAll`, and is missing when `getAll` is empty |
| UrlParams.SearchParams.constructor | src/app/admin/posts/client-components.jsx:89 | the new object holds the same pairs as the one it is built from |
| UrlParams.SearchParams.Set | src/app/admin/posts/client-components.jsx:91 | the pairs become those that `set` gives, and `get` returns the new value |
| UrlParams.SearchParams.Delete | src/app/admin/posts/client-components.jsx:93 | the pairs become those that `delete` gives, and `get` returns nothing |
| UrlParams.PercentDecode | src/app/components/image-loader.js:8 | percent-decoding never makes the bytes longer, and leaves bytes without `%` unchanged |
| UrlParams.PlusToSpace | src/app/components/image-loader.js:8 | every `+` becomes a space and no other byte changes |
| UrlParams.FormParse | src/app/components/image-loader.js:8 | an empty query string gives no pairs, and one without `&` gives exactly the pair parsed from it |
| UrlParams.ParseQuery | src/app/components/image-loader.js:7-8 | `new URLSearchParams(undefined)`, of `""` and of a lone `?` hold no pairs |
| UrlParams.GetFirstBytes | src/app/components/image-loader.js:9 | `get(name)` on the parsed pairs is missing exactly when no pair has the name, and otherwise it is the value of the first pair with that name |
| Tables.LikePattern | src/app/admin/posts/actions.js:60 | the pattern is the search text wrapped in one `%` on each side |
| Tables.Database.constructor | src/app/admin/posts/actions.js:3 | the connection starts on the given tables |
| Tables.Database.Query | src/app/admin/posts/actions.js:122-123 | a statement either takes effect or throws, and when it throws nothing changes |
| Tables.Database.RunInTransaction | src/app/admin/posts/actions.js:12-23 | the result is the error object exactly when a statement throws; in that case the tables are as they were, otherwise every statement has taken effect, in order |
| PostActions.OrDefault | src/app/admin/posts/actions.js:31-38 | a missing or empty parameter takes the fallback; any other value is kept as it is |
| PostActions.Normalize | src/app/admin/posts/actions.js:30-38 | the search, status, category and tag filters are off (empty) exactly when their parameter is missing or empty, and the sort key and direction are never empty |
| PostActions.Offset | src/app/admin/posts/actions.js:40 | `(page - 1) * limit` is NaN exactly when page or limit is NaN |
| PostActions.CanonicalNumber | src/app/admin/posts/actions.js:31-32 | a parameter written as the decimal digits of n is read back as n |
| PostActions.DefaultPaging | src/app/admin/posts/actions.js:31-40 | with no page and limit the listing shows 10 rows from offset 0 |
| PostActions.DecimalPaging | src/app/admin/posts/actions.js:31-40 | decimal page and limit give limit and offset `(page - 1) * limit` |
| PostActions.SortColumn | src/app/admin/posts/actions.js:42-49 | corrected lookup: the ORDER BY column is always one of the five whitelisted columns, and `p.date` for any key the object does not own |
| PostActions.SortColumnAsWritten | src/app/admin/posts/actions.js:42-49 | the lookup as written: it leaves the whitelist exactly for a name `Object.prototype` owns and the object does not; otherwise it gives a whitelisted column |
| PostActions.SortColumnAsWrittenEscapes | src/app/admin/posts/actions.js:42-49 | as written, `sort=constructor` yields an inherited member of the object, which is neither a column nor `p.date` |
| PostActions.SortColumnAgrees | src/app/admin/posts/actions.js:42-49 | for every key that is not an inherited member name, the lookup as written agrees with the corrected one |
| PostActions.SortOrder | src/app/admin/posts/actions.js:50-52 | the direction is `ASC` or `DESC`, and `ASC` exactly when the upper-cased order is `ASC` |
| PostActions.WhereHolesMatchArgs | src/app/admin/posts/actions.js:54-79 | for any list of one-placeholder filters the WHERE clause holds one `?` per argument and no `LEFT JOIN` |
| PostActions.ActiveFiltersWellFormed | src/app/admin/posts/actions.js:58-79 | every filter the request switches on adds one clause with one `?` |
| PostActions.ActiveFiltersConsistent | src/app/admin/posts/actions.js:54-79 | the request's WHERE clause has exactly as many `?` as `queryParams` has values |
| PostActions.StatusFilterIff | src/app/admin/posts/actions.js:62-65 | the status filter is on exactly for `publish`, `draft` and `private` |
| PostActions.AddFilterIf | src/app/admin/posts/actions.js:58-61 | one `if` block: clause, argument and joins grow by the filter exactly when it is on |
| PostActions.BuildFilters | src/app/admin/posts/actions.js:54-79 | the built clause, arguments and joins are those of the active filters, with one `?` per argument |
| PostActions.JoinsOfActive | src/app/admin/posts/actions.js:66-79 | only the category and tag filters push joins, one chain each, category first |
| PostActions.TermJoinsDistinct | src/app/admin/posts/actions.js:67-78 | the category chain and the tag chain are different |
| PostActions.JoinsDistinct | src/app/admin/posts/actions.js:81 | `[...new Set(joins)]` keeps every pushed chain, in order |
| PostActions.PostsQuery | src/app/admin/posts/actions.js:83-95 | the posts query holds the WHERE clause's placeholders plus two, for LIMIT and OFFSET |
| PostActions.TotalQuery | src/app/admin/posts/actions.js:96 | the count query holds exactly the WHERE clause's placeholders |
| PostActions.GetPostsAction | src/app/admin/posts/actions.js:29-115 | fails exactly when the database rejects a query. Otherwise the ORDER BY column is `SortColumn` of the `sort` parameter (`p.date` for an unknown key) and the direction is `SortOrder` of `order` (`ASC` exactly when its upper case is `ASC`); the posts and count queries are built from the active filters, and each gets one argument per `?`: the filter arguments, and for the posts query limit and offset after them |
| PostActions.DeleteStatementsClear | src/app/admin/posts/actions.js:120-124 | after the two deletes the posts and all their links are gone and every other post, link, term and comment is kept |
| PostActions.DeletePost | src/app/admin/posts/actions.js:120-130 | the database is the two deletes applied, or unchanged with a transaction error when either statement fails |
| PostActions.Placeholders | src/app/admin/posts/actions.js:139 | the list has one `?` per id |
| PostActions.PlaceholdersShape | src/app/admin/posts/actions.js:139 | the list is `?` pieces separated by commas, starting and ending with `?` |
| PostActions.BulkDeletePosts | src/app/admin/posts/actions.js:135-153 | a missing or empty id list is refused with nothing changed; otherwise the `IN` list has one `?` per id and the deletes apply all or nothing |
| PostActions.ParsedIds | src/app/admin/posts/actions.js:176-178 | the ids kept are exactly the non-zero numbers some element parses to |
| PostActions.ParsedIdsOfDecimal | src/app/admin/posts/actions.js:176-178 | positive ids sent as decimal text come back unchanged and in order |
| PostActions.LinksOf | src/app/admin/posts/actions.js:180-185 | the inserted rows link the post to exactly the given term ids |
| PostActions.QuickEditLinksExact | src/app/admin/posts/actions.js:168-187 | after a quick edit the post has the new fields, its links are exactly the given term ids, and the other posts and their links are kept |
| PostActions.QuickEditPost | src/app/admin/posts/actions.js:158-193 | an empty title, url or status is refused with nothing changed; otherwise the update, the link delete and the link insert apply all or nothing |
| PostsPage.Coalesce | src/app/admin/posts/page.jsx:8-15 | `??` takes the fallback only for a missing value; an empty one is kept |
| PostsPage.DefaultPageOffset | src/app/admin/posts/page.jsx:8-9 | absent page and limit give limit 10 and offset 0 |
| PostsPage.EmptyPageIsNaN | src/app/admin/posts/page.jsx:21 | an empty `page` is not defaulted by `??`, so the offset is NaN |
| PostsPage.ExistsFilterGood | src/app/admin/posts/page.jsx:46-53 | each `EXISTS` term filter adds one clause with exactly one `?` |
| PostsPage.PageFiltersWellFormed | src/app/admin/posts/page.jsx:37-53 | every filter `getPosts` switches on is one clause with one `?` |
| PostsPage.PageStatusFilterIff | src/app/admin/posts/page.jsx:41-45 | the status filter is on exactly for a present `publish`, `draft` or `private` |
| PostsPage.PageWhereHolesMatchArgs | src/app/admin/posts/page.jsx:35-53 | the WHERE clause has one `?` per value of `params` and no `LEFT JOIN` |
| PostsPage.BuildWhere | src/app/admin/posts/page.jsx:35-53 | the step-by-step clause and `params` are those of the active filters, one `?` per argument |
| PostsPage.PagePostsQuery | src/app/admin/posts/page.jsx:55-65 | the posts query holds the WHERE clause's placeholders plus LIMIT and OFFSET |
| PostsPage.TotalQueryKeepsWhere | src/app/admin/posts/page.jsx:67-69 | as the WHERE clause holds no `LEFT JOIN`, `split("LEFT JOIN")[0]` keeps all of it, so the count query filters like the posts query |
| PostsPage.PageTotalQuery | src/app/admin/posts/page.jsx:67-69 | the count query holds no `LEFT JOIN`, since it keeps only what comes before the first one |
| PostsPage.GetPosts | src/app/admin/posts/page.jsx:7-78 | the ORDER BY column is `SortColumn` of `sort ?? "date"` and the direction `SortOrder` of `order ?? "DESC"`; both queries are built from the page's filters, and each gets one argument per `?`: the filter values, and for the posts query limit and offset after them |
| ClientComponents.HandleSort | src/app/admin/posts/client-components.jsx:409-419 | the new parameters are the old ones with `sort`, `order` and `page` set in that order |
| ClientComponents.SortedEntries | src/app/admin/posts/client-components.jsx:409-419 | after a header click `page` holds exactly `1` |
| ClientComponents.SortToggle | src/app/admin/posts/client-components.jsx:409-419 | the new `sort` is the key and `page` is `1`; `order` is `ASC` exactly when the previous sort was the key and the previous order `DESC`, else `DESC`; every other parameter keeps all its values |
| ClientComponents.SortTwiceFlips | src/app/admin/posts/client-components.jsx:409-419 | clicking the same header twice flips the order |
| ClientComponents.InitialTermIds | src/app/admin/posts/client-components.jsx:166-173 | the `Set` of ids split at `;` holds no id twice and exactly the ids the term string lists; null gives the empty set |
| ClientComponents.IdTextsDistinct | src/app/admin/posts/client-components.jsx:166-173 | distinct term ids have distinct decimal texts |
| ClientComponents.InitialTermIdsRoundTrip | src/app/admin/posts/client-components.jsx:166-173 | for the listing's term string of distinct terms without `;` in their names, the form starts with exactly their ids, in order |
| ClientComponents.QuickEditForm.constructor | src/app/admin/posts/client-components.jsx:162-174 | the form starts from the post's title, url, status and term id sets |
| ClientComponents.QuickEditForm.HandleInputChange | src/app/admin/posts/client-components.jsx:176-177 | only the named field takes the new value |
| ClientComponents.QuickEditForm.HandleTermChange | src/app/admin/posts/client-components.jsx:179-184 | the id's membership in the chosen set flips, every other id and the other set are unchanged, and the set stays free of duplicates |
| ClientComponents.QuickEditForm.HandleSave | src/app/admin/posts/client-components.jsx:186-192 | the post id and the form's fields and id lists are sent; the server accepts exactly when title, url and status are non-empty |
| ClientComponents.SaveUnchangedKeepsTerms | src/app/admin/posts/client-components.jsx:162-192 | saving the form unchanged sends back exactly the post's category and tag ids, in order |
| ClientComponents.PostManagement.constructor | src/app/admin/posts/client-components.jsx:330-339 | no posts, no selection, no row in edit mode and no modal |
| ClientComponents.PostManagement.HandleSelectAll | src/app/admin/posts/client-components.jsx:451-454 | checked selects exactly the listed ids, unchecked selects none |
| ClientComponents.PostManagement.HandleSelect | src/app/admin/posts/client-components.jsx:456-463 | the id's selection flips and no other id's does |
| ClientComponents.PostManagement.HandleDelete | src/app/admin/posts/client-components.jsx:377-384 | `deletePost` runs and the modal closes whatever the result |
| ClientComponents.PostManagement.HandleBulkDelete | src/app/admin/posts/client-components.jsx:386-398 | nothing happens for an empty selection or a declined confirm; otherwise the selected posts are deleted all or nothing and the selection is emptied |
| ClientComponents.PostManagement.HandleSaveQuickEdit | src/app/admin/posts/client-components.jsx:400-407 | `quickEditPost` runs: empty fields are refused and the tables are untouched; otherwise the save fails exactly when one of its statements throws, and the tables then end up with all of the edit's statements applied, or unchanged. The row leaves edit mode whatever the result |
| FilterComponent.HandleFilterChange | src/app/admin/posts/FilterComponent.jsx:18-24 | the new parameters set the key to a non-empty value or delete it for an empty one, and always land on page `1` |
| FilterComponent.FilteredEntries | src/app/admin/posts/FilterComponent.jsx:18-24 | after any filter change `page` holds exactly `1` |
| FilterComponent.FilterResetsPage | src/app/admin/posts/FilterComponent.jsx:24 | after any filter change `page` holds exactly `1` |
| FilterComponent.FilterSetsKey | src/app/admin/posts/FilterComponent.jsx:19-23 | the changed filter holds exactly the new value, or nothing for an empty value |
| FilterComponent.FilterKeepsOthers | src/app/admin/posts/FilterComponent.jsx:18-24 | every other parameter keeps all its values, in order |
| Pagination.OrFallback | src/app/admin/posts/Pagination.jsx:10-11 | a falsy number (0 or NaN) gives the fallback; any other gives itself, never 0 |
| Pagination.CurrentPage | src/app/admin/posts/Pagination.jsx:10 | the current page is never 0 |
| Pagination.Limit | src/app/admin/posts/Pagination.jsx:11 | the limit is never 0, so the page count is always defined |
| Pagination.DefaultsWhenFalsy | src/app/admin/posts/Pagination.jsx:10-11 | a missing, empty, zero or non-numeric `page` and `limit` give page 1 of 10 |
| Pagination.DefaultsWhenMissing | src/app/admin/posts/Pagination.jsx:10-11 | no `page` and no `limit` give page 1 of 10 |
| Pagination.TotalPages | src/app/admin/posts/Pagination.jsx:12 | the result is the ceiling of the quotient: `(r-1)*limit < total <= r*limit` for a positive limit, and the mirrored bounds for a negative one |
| Pagination.TotalPagesPositiveLimit | src/app/admin/posts/Pagination.jsx:12 | with a positive limit the count is non-negative, 0 exactly for no items, and at most 1 exactly when the items fit on one page |
| Pagination.RenderButtons | src/app/admin/posts/Pagination.jsx:24-56 | one button per page `1..totalPages` in order; only the current page is highlighted, and one is exactly when it is in range; the arrows are disabled at the ends |
| Pagination.Render | src/app/admin/posts/Pagination.jsx:10-56 | the component renders exactly when the page count is not negative, with one button per page |
| Pagination.RenderPositiveLimit | src/app/admin/posts/Pagination.jsx:12-34 | with a positive limit the component renders and its buttons cover every item and no more than one page beyond |
| Pagination.NegativeLimitThrows | src/app/admin/posts/Pagination.jsx:11-34 | a negative limit no larger in magnitude than the item count gives a negative page count, and `Array(totalPages)` throws |
| Pagination.IntText | src/app/admin/posts/Pagination.jsx:16 | `toString` of an integer is non-empty and ends in a digit |
| Pagination.NumberOfIntText | src/app/admin/posts/Pagination.jsx:10-16 | `Number` reads back the integer `toString` wrote |
| Pagination.ParseIntOfIntText | src/app/admin/posts/page.jsx:21 | `parseInt` reads back the page number the link wrote |
| Pagination.PageUrlKeepsOthers | src/app/admin/posts/Pagination.jsx:14-18 | a page link changes `page` only; every other parameter keeps its values |
| Pagination.PageUrlReadBack | src/app/admin/posts/Pagination.jsx:14-22 | following a link to page `n != 0` shows page `n` with the same limit, and the server reads `n` too |
| Pagination.CreatePageUrl | src/app/admin/posts/Pagination.jsx:14-18 | the link's `page` holds exactly the page number's text |
| Pagination.ClientPageChangeInRange | src/app/admin/posts/client-components.jsx:296-301 | a page change happens exactly for a page in `1..totalPages`, and lands on it with the same limit |
| Pagination.ClientPageChange | src/app/admin/posts/client-components.jsx:296-301 | the parameters change exactly for a page in `1..totalPages`, and `page` then holds exactly that page's text |
| Pagination.ClientHiddenForOnePage | src/app/admin/posts/client-components.jsx:303-325 | the client variant is hidden exactly when there is at most one page (with a positive limit: when the items fit on one page), and its arrows are disabled at the ends |
| Pagination.ClientRender | src/app/admin/posts/client-components.jsx:290-325 | when it renders, it shows the current page of a page count of at least 2 |
| CommentActions.FinalStatus | src/app/admin/comments/commentActions.js:11-12 | the tab is one of `approved`, `pending`, `spam`; a valid status is kept and anything else, a missing one included, becomes `spam` |
| CommentActions.PublishTabIsSpam | src/app/admin/comments/commentActions.js:11-12 | the `publish` tab is answered as `spam` |
| CommentActions.ApprovedHiddenAsWritten | src/app/admin/comments/CommentPanel.jsx:307-311 | as written, the approved tab is answered with `spam` and `trash`, and a comment the buttons approve (status `publish`) is never among them |
| CommentActions.ApprovedShown | src/app/admin/comments/commentActions.js:11-12 | keyed `approved`, the tab asks for that status and lists every comment just approved |
| CommentActions.WithStatus | src/app/admin/comments/commentActions.js:17 | exactly the comments whose status is one of the given ones |
| CommentActions.FetchComments | src/app/admin/comments/commentActions.js:10-38 | the query's placeholders match its parameters; the spam tab asks for `spam` and `trash`, any other tab for its own status; the rows are exactly the comments with those statuses, or none on a database error |
| CommentActions.UpdateCommentsStatus | src/app/admin/comments/commentActions.js:42-54 | no ids or no status throws with the table untouched; otherwise the listed comments take the status, or a database error throws and leaves the table as it was |
| CommentActions.UpdateCommentContent | src/app/admin/comments/commentActions.js:56-67 | a missing or zero id or empty content throws with the table untouched; otherwise that comment's content changes, or a database error throws and leaves the table as it was |
| CommentActions.DeleteCommentsPermanently | src/app/admin/comments/commentActions.js:69-77 | no ids throws with the table untouched; otherwise the listed comments are removed, or a database error throws and leaves the table as it was |
| CommentActions.StatusUpdateMovesTab | src/app/admin/comments/commentActions.js:46-49 | after a status update the table keeps its length, ids and contents, and the new status's tab lists exactly the updated comments and those that already had it |
| CommentActions.DeletedLeaveEveryTab | src/app/admin/comments/commentActions.js:72 | after a permanent delete no tab lists a deleted comment, and every listed comment was there before |
| CommentPanel.Flatten | src/app/admin/comments/CommentPanel.jsx:174-181 | the flattening starts with the first node and holds at least as many nodes as its input |
| CommentPanel.FlattenAppend | src/app/admin/comments/CommentPanel.jsx:175-179 | flattening a concatenation is the concatenation of the flattenings |
| CommentPanel.FlattenLeaves | src/app/admin/comments/CommentPanel.jsx:175-179 | on nodes without children the flattening is the identity |
| CommentPanel.FlattenKeepsRoots | src/app/admin/comments/CommentPanel.jsx:175-179 | every input node appears in the flattening, in input order |
| CommentPanel.RootsMembers | src/app/admin/comments/CommentPanel.jsx:272-277 | an id is a root exactly when some comment with that id has a falsy or unknown parent |
| CommentPanel.ChildrenMembers | src/app/admin/comments/CommentPanel.jsx:272-275 | an id is a child of `p` exactly when some comment with that id has the known parent `p` |
| CommentPanel.CommentTree | src/app/admin/comments/CommentPanel.jsx:268-280 | the map has a node for every id; the roots and every node's children are exactly those of the reference definitions |
| CommentPanel.PlacedOnce | src/app/admin/comments/CommentPanel.jsx:268-280 | with unique ids a comment is a root exactly when its parent is falsy or unknown, and otherwise a child of its parent and of no other node |
| CommentPanel.RootsInOrder | src/app/admin/comments/CommentPanel.jsx:271-278 | the roots keep the input order |
| CommentPanel.ChildrenInOrder | src/app/admin/comments/CommentPanel.jsx:271-278 | each children list keeps the input order |
| CommentPanel.TriState | src/app/admin/comments/CommentPanel.jsx:212-221 | select-all is never both checked and indeterminate, and is neither exactly when nothing is selected or nothing is listed |
| CommentPanel.ShiftRangeContiguous | src/app/admin/comments/CommentPanel.jsx:225-230 | with both ids listed, the shift range is the contiguous slice between them, ends included |
| CommentPanel.ShiftUnion | src/app/admin/comments/CommentPanel.jsx:231-232 | the new selection is the old one followed by the range's ids not yet selected, each once |
| CommentPanel.ShiftRangeLostAnchor | src/app/admin/comments/CommentPanel.jsx:225-230 | an anchor no longer listed slices from `-1`: the range is the last id when it was clicked, and empty otherwise |
| CommentPanel.Panel.constructor | src/app/admin/comments/CommentPanel.jsx:166-169 | the panel starts from the initial comments, with no selection and no anchor |
| CommentPanel.Panel.HandleSelect | src/app/admin/comments/CommentPanel.jsx:223-241 | a shift-click with an anchor adds the range to the selection without duplicates; any other click toggles the id; the id becomes the anchor |
| CommentPanel.Panel.HandleSelectAll | src/app/admin/comments/CommentPanel.jsx:243-244 | the selection becomes every flat id in order, or empty |
| CommentPanel.Panel.ChangeTab | src/app/admin/comments/CommentPanel.jsx:188-210 | the selection and anchor are cleared; `pending` shows the initial comments, any other tab what `fetchComments` answers, or nothing when it throws |
| CommentPanel.Panel.HandleBulkAction | src/app/admin/comments/CommentPanel.jsx:246-266 | the selection and anchor are cleared, exactly the unselected comments stay, in order, and the table changes as the server action does, errors swallowed |
| CommentPanel.WithoutIds | src/app/admin/comments/CommentPanel.jsx:252-254 | exactly the comments whose id is not in the list, in order |
| CommentPanel.SelectKeepsNoDuplicates | src/app/admin/comments/CommentPanel.jsx:223-241 | toggling and shift-extending keep the selection free of duplicates, and a shift-click keeps every selected id |
| ImageLoader.ApiPrefix | src/app/components/image-loader.js:12-15 | the `/api/getimg/` prefix holds no `?` |
| ImageLoader.SizeSuffix | src/app/components/image-loader.js:12 | the size suffix starts a query string |
| ImageLoader.Load | src/app/components/image-loader.js:3-16 | the URL is the prefix and the part of `src` before its first `?`, followed by `?size=m` exactly when the query's first `size` is `m` |
| ImageLoader.LoadHasQueryIffSizeM | src/app/components/image-loader.js:7-15 | the URL carries a query string exactly when the size tier is `m` |
| ImageLoader.LoadPlainPath | src/app/components/image-loader.js:7-15 | a `src` without `?` is only prefixed |
| ImageLoader.LoadIgnoresAfterSecondMark | src/app/components/image-loader.js:7-8 | whatever follows a second `?` is ignored |
| ImageLoader.FirstPairParsed | src/app/components/image-loader.js:8 | a query starting with an ASCII `pair&` parses to that pair followed by the pairs of the rest |
| ImageLoader.ParsePiecePlain | src/app/components/image-loader.js:8 | a `name=value` piece without `+`, `%` or a second `=` parses to its two halves |
| ImageLoader.FirstPairWins | src/app/components/image-loader.js:8-9 | `get(name)` answers the value of a leading plain `name=value&`, whatever follows |
| ImageLoader.SizeFirstPairSelects | src/app/components/image-loader.js:9-12 | a query starting `size=m&` selects the `m` tier, whatever follows |
| ImageLoader.LaterSizeIgnored | src/app/components/image-loader.js:9-11 | a query starting `size=l&` does not select the tier, even with a later `size=m` |
| MediaActions.ForwardSlashes | src/app/actions/mediaActions.js:26 | every backslash becomes `/` and nothing else changes, so no backslash is left |
| MediaActions.Walk | src/app/actions/mediaActions.js:15-34 | no listed path holds a backslash |
| MediaActions.ImagesAmongAppend | src/app/actions/mediaActions.js:33 | filtering a concatenation of paths filters each part |
| MediaActions.WalkListsAllImages | src/app/actions/mediaActions.js:15-34 | the listing is exactly the image files of the whole tree, at every depth, in `readdir` order, relative to the root with forward slashes |
| MediaActions.NestedFilesCount | src/app/actions/mediaActions.js:20-21 | a file of a sub-directory is a file of the tree |
| MediaActions.Insert | src/app/actions/mediaActions.js:46 | inserting one path adds exactly that path to the list |
| MediaActions.SortDescending | src/app/actions/mediaActions.js:46 | the sorted library is a permutation of the listing |
| MediaActions.InsertSorted | src/app/actions/mediaActions.js:46 | with a consistent comparator, inserting into a descending list keeps it descending |
| MediaActions.SortDescendingSorted | src/app/actions/mediaActions.js:46 | with a consistent comparator, the sort gives a descending list |
| MediaActions.GetMediaLibrary | src/app/actions/mediaActions.js:39-51 | a failing `mkdir` or `readdir` answers `[]`; otherwise the library holds exactly the image files of the tree |
| MediaActions.MediaLibrarySorted | src/app/actions/mediaActions.js:46 | with a consistent `localeCompare` the library is in descending order |
| MediaActions.ResolveSegments | src/app/actions/mediaActions.js:64 | no resolved segment is empty, `.` or `..` |
| MediaActions.Normalize | src/app/actions/mediaActions.js:64 | the normal form of an absolute path is absolute |
| MediaActions.FullPath | src/app/actions/mediaActions.js:64 | the joined path is absolute |
| MediaActions.FileSystem.constructor | src/app/actions/mediaActions.js:71 | the file system holds the given files and directories |
| MediaActions.FileSystem.Unlink | src/app/actions/mediaActions.js:71 | a regular file is removed; a directory gives EISDIR, a missing path ENOENT, a fault another error, and then nothing changes |
| MediaActions.DeleteImage | src/app/actions/mediaActions.js:58-84 | an empty path is refused; a file is deleted exactly when the joined path passes the prefix guard and `unlink` succeeds; ENOENT is answered as not found and every other failure, the guard's included, as a server error. No file is ever added, and the only file that can go is the joined path, which then starts with the uploads directory |
| MediaActions.EscapeRejected | src/app/actions/mediaActions.js:64-69 | a `../` path that leaves the uploads directory joins to a path the guard rejects |
| MediaActions.SiblingPassesGuard | src/app/actions/mediaActions.js:64-69 | a `../` path into a sibling directory whose name extends the uploads directory's passes the guard, although it lies outside the directory |
| MediaLibraryModal.LoadedImages | src/app/components/MediaLibraryModal.js:22-28 | an array is stored as it came; a non-array or a throw stores `[]` |
| MediaLibraryModal.FilteredImages | src/app/components/MediaLibraryModal.js:59-66 | exactly the images whose lower-cased path contains the lower-cased search, in loaded order |
| MediaLibraryModal.EmptySearchShowsAll | src/app/components/MediaLibraryModal.js:63-65 | an empty search shows every image, in order |
| MediaLibraryModal.WithoutPath | src/app/components/MediaLibraryModal.js:52 | the deleted path is gone and every other image stays, in order |
| MediaLibraryModal.Modal.constructor | src/app/components/MediaLibraryModal.js:13-16 | no images, loading, an empty search, not closing |
| MediaLibraryModal.Modal.Shown | src/app/components/MediaLibraryModal.js:59-66 | the images on show are exactly those matching the current search |
| MediaLibraryModal.Modal.FetchMedia | src/app/components/MediaLibraryModal.js:18-34 | the list becomes what was loaded and loading ends; nothing else changes |
| MediaLibraryModal.Modal.SetSearchTerm | src/app/components/MediaLibraryModal.js:97-98 | only the search changes |
| MediaLibraryModal.Modal.HandleClose | src/app/components/MediaLibraryModal.js:36-39 | the dialog starts closing and nothing else changes |
| MediaLibraryModal.Modal.HandleDelete | src/app/components/MediaLibraryModal.js:41-56 | nothing happens unless confirmed. Then `deleteImage` runs: the files lose exactly the joined path when the delete succeeds and are unchanged otherwise (an empty path is refused), and the path leaves the list exactly when the delete succeeds |
| MediaLibraryModal.DeletedPathHidden | src/app/components/MediaLibraryModal.js:52-66 | after a delete the path is hidden whatever the search, and every other image on show stays on show |
| MigrateComments.StatusOf | scripts/comments.js:93-99 | the mapped status is one of the four; `'1'` gives approved, `'0'` pending, `'trash'` trash, and exactly every other flag spam |
| MigrateComments.Extract | scripts/comments.js:84-106 | no more rows than the source, each with a valid status, and none when no row has type `comment` |
| MigrateComments.RecordRoundTrip | scripts/comments.js:121-132 | the field renaming is a bijection between extracted comments and new rows |
| MigrateComments.Inserted | scripts/comments.js:120-147 | no more rows are stored than comments were extracted |
| MigrateComments.FailedPostIds | scripts/comments.js:137-143 | each comment is either stored or logged as failed, never both |
| MigrateComments.InsertedAll | scripts/comments.js:120-147 | with no failing insert every comment is stored, in order, and nothing is logged |
| MigrateComments.InsertedStatusesValid | scripts/comments.js:64-99 | every stored row carries one of the four statuses |
| MigrateComments.CommentsTable.constructor | scripts/comments.js:54-68 | the table starts with the given rows |
| MigrateComments.CommentsTable.TransferCommentsData | scripts/comments.js:106-147 | an empty extraction returns at once; otherwise the table gains exactly the rows whose insert succeeds, in order, every failure is counted and logged with its post id, and the two counts add up to the extracted comments |
| MigrateComments.MigrateComments | scripts/comments.js:80-149 | the stored rows are the records of the extracted comments whose insert succeeds, each with a valid status, and the counts add up to the extracted comments |
| MigratePosts.ViewOf | scripts/posts.js:132 | a missing meta value and a value without digits give 0; otherwise the leading integer `parseInt` reads |
| MigratePosts.ViewOfDecimal | scripts/posts.js:132 | a view count stored as plain digits is carried over exactly |
| MigratePosts.ViewOfNoDigit | scripts/posts.js:132 | a missing value, or one with no digit, gives 0 |
| MigratePosts.NewPostData | scripts/posts.js:126-134 | six fields are copied unchanged and the view count is parsed; the WordPress id is dropped |
| MigratePosts.Urls | scripts/posts.js:63 | the `url` column of the table, row by row |
| MigratePosts.Migrate | scripts/posts.js:124-153 | every post counts once as a success or an error, the table only grows by the successes and keeps its earlier rows, and no more titles are logged than errors counted |
| MigratePosts.MigrateKeepsUrlsUnique | scripts/posts.js:63-137 | with the UNIQUE `url` key the loop never stores two rows with the same url |
| MigratePosts.MigrateLogsOnlyFailures | scripts/posts.js:139-147 | the log is exactly the titles of the inserts that failed for a reason other than a duplicate url, in order |
| MigratePosts.NoFailureLogsNothing | scripts/posts.js:142 | when every failure is a duplicate, nothing is logged |
| MigratePosts.Shaped | scripts/posts.js:124-134 | the rows built from the posts, in order |
| MigratePosts.MigrateInsertsAll | scripts/posts.js:124-153 | with no failing statement and no url repeated or already stored, every post is stored in order, all count as successes and nothing is logged |
| MigratePosts.PostsTable.constructor | scripts/posts.js:58-70 | the table starts with the given rows |
| MigratePosts.PostsTable.Insert | scripts/posts.js:137-140 | a failing statement or a duplicate url throws and leaves the table as it was; otherwise the row is appended |
| MigratePosts.PostsTable.InsertAndCount | scripts/posts.js:136-148 | one insert moves the table and the counters exactly as one step of the loop's specification: a stored row is a success, a duplicate an error, and any other failure an error whose title is logged |
| MigratePosts.PostsTable.TransferData | scripts/posts.js:110-155 | an empty extraction returns at once; otherwise the table and the counters are those of the reference loop, and the counts add up to the extracted posts |
| MigrateTerms.NormalizeTaxonomy | scripts/terms.js:112-115 | the value is an ENUM value; `category` and `post_tag` are kept and every other taxonomy becomes `other` |
| MigrateTerms.NormalizeIdempotent | scripts/terms.js:112-115 | normalising twice is normalising once |
| MigrateTerms.Steps | scripts/terms.js:110-128 | one outcome per source row, each the outcome of that row's update |
| MigrateTerms.Count | scripts/terms.js:107-128 | a counter never exceeds the number of updates |
| MigrateTerms.CountPartition | scripts/terms.js:110-128 | every update is counted once: as a success, a miss or an error |
| MigrateTerms.TransferKeepsEnum | scripts/terms.js:110-128 | the updates keep the set of rows and leave only ENUM values in the column |
| MigrateTerms.TransferUntouched | scripts/terms.js:117-125 | a row no update writes keeps its value |
| MigrateTerms.TransferLastWriteWins | scripts/terms.js:110-128 | a row's value is the normalised taxonomy of the last update that wrote it |
| MigrateTerms.TermsTable.constructor | scripts/terms.js:18 | the table holds the given ids and, when present, a valid column |
| MigrateTerms.TermsTable.AddTaxonomyColumn | scripts/terms.js:53-85 | an existing column is left alone; otherwise the ALTER adds it with every row at `other`, or throws and leaves the table as it was |
| MigrateTerms.TermsTable.TransferTaxonomies | scripts/terms.js:91-135 | an empty source returns at once; otherwise the column is that of the reference loop, the success count is the updates that hit a row, and the error count the updates that threw |
| MigrateTerms.UpdateTermsTaxonomy | scripts/terms.js:24-47 | a failing ALTER stops the script with the table as it was; otherwise the column exists and holds an ENUM value for every row |
| PostList.PostIds | src/app/admin/posts/PostList.js:91 | the ids of the listed posts, in list order |
| PostList.WithoutIds | src/app/admin/posts/PostList.js:131 | exactly the posts whose id is not in the list, in order |
| PostList.ReplaceById | src/app/admin/posts/PostList.js:141-143 | the list keeps its length, and exactly the posts with the id are replaced |
| PostList.ReplaceKeepsOthers | src/app/admin/posts/PostList.js:141-143 | a replacement keeps the ids, their order and every other post, and adds only the updated post |
| PostList.DeleteEachRemoves | src/app/admin/posts/PostList.js:128-130 | after the deletes a post is left exactly when it was there and every delete of its id failed; terms and comments are untouched |
| PostList.PostListState.constructor | src/app/admin/posts/PostList.js:24-29 | the list is the initial posts, with no selection, no edit, and the modal closed |
| PostList.PostListState.ResetFromProps | src/app/admin/posts/PostList.js:36-43 | new props replace the list and clear the edit and the selection |
| PostList.PostListState.HandleSelectAll | src/app/admin/posts/PostList.js:89-95 | checked selects every listed id in order, unchecked selects none |
| PostList.PostListState.HandleSelect | src/app/admin/posts/PostList.js:97-101 | the id's membership flips, no other id's does, and a selection without duplicates keeps none |
| PostList.PostListState.OpenDeleteModal | src/app/admin/posts/PostList.js:118-121 | the modal opens for the post; nothing else changes |
| PostList.PostListState.HandleDelete | src/app/admin/posts/PostList.js:103-116 | on success the post leaves the tables, the list and the selection, in order; on failure nothing changes; the modal closes either way |
| PostList.PostListState.HandleBulkDelete | src/app/admin/posts/PostList.js:123-135 | without a confirm nothing changes; otherwise each selected id is deleted in turn, every selected post leaves the list whatever its delete did, and the selection is emptied |
| PostList.PostListState.ApplyQuickEditReply | src/app/admin/posts/PostList.js:139-147 | only a successful reply carrying `updatedPost` replaces the post and leaves edit mode |
| PostList.PostListState.HandleSaveQuickEdit | src/app/admin/posts/PostList.js:137-149 | `quickEditPost` runs: empty fields are refused and the tables are untouched; otherwise the save fails exactly when one of its statements throws, and the tables then end up with all of the edit's statements applied, or unchanged. As `quickEditPost` never returns `updatedPost`, the list and the edit state stay as they were |
| PostList.BulkDeleteHidesFailures | src/app/admin/posts/PostList.js:128-132 | a selected post whose every delete failed stays in the tables but leaves the local list |
| QuickEditRow.GroupConcat | src/app/admin/posts/page.jsx:56-57 | the term string is NULL exactly when the post has no such term |
| QuickEditRow.ParseTermsAsWritten | src/app/admin/posts/QuickEditRow.jsx:19-20 | a null or empty string gives no ids; otherwise one part per comma-separated piece, none holding a `:` |
| QuickEditRow.ParseTerms | src/app/admin/posts/QuickEditRow.jsx:19-20 | the same, split at `;`: no ids for a null or empty string, otherwise one part per `;`-separated piece, none holding a `:` |
| QuickEditRow.EntriesWithout | src/app/admin/posts/page.jsx:56-57 | no `id:name` entry holds a separator that no name holds |
| QuickEditRow.EntryHead | src/app/admin/posts/QuickEditRow.jsx:20 | an entry up to its first `:` is the term's id |
| QuickEditRow.ParseTermsRoundTrip | src/app/admin/posts/QuickEditRow.jsx:19-25 | with `;` as the separator, the listing's term string parses back to the ids of its terms, in order, when no name holds `;` |
| QuickEditRow.ParseTermsAsWrittenKeepsFirst | src/app/admin/posts/QuickEditRow.jsx:19-20 | as written, a term string whose names hold no comma yields only the first term's id |
| QuickEditRow.TwoCategoriesExample | src/app/admin/posts/QuickEditRow.jsx:19-20 | categories `1:a;2:b` are read as `["1"]` as written and as `["1", "2"]` once split at `;` |
| QuickEditRow.SaveUnchangedKeepsTerms | src/app/admin/posts/QuickEditRow.jsx:19-35 | with `;` as the separator, saving the row unchanged sends exactly the post's category and tag ids, in order |
| QuickEditRow.SaveUnchangedAsWrittenDropsTerms | src/app/admin/posts/QuickEditRow.jsx:19-35 | as written, saving the row unchanged sends only the first category and the first tag |
| QuickEditRow.QuickEditForm.constructor | src/app/admin/posts/QuickEditRow.jsx:14-25 | the form starts from the post's title, url and status and the ids parsed from its term strings |
| QuickEditRow.QuickEditForm.Edit | src/app/admin/posts/QuickEditRow.jsx:59-80 | only the edited field changes |
| QuickEditRow.QuickEditForm.HandleCategoryChange | src/app/admin/posts/QuickEditRow.jsx:37-43 | the id's membership flips, no other category changes, and the tags and fields are untouched |
| QuickEditRow.QuickEditForm.HandleTagChange | src/app/admin/posts/QuickEditRow.jsx:45-51 | the id's membership flips, no other tag changes, and the categories and fields are untouched |
| QuickEditRow.QuickEditForm.HandleSave | src/app/admin/posts/QuickEditRow.jsx:27-35 | the post id and the form's values are handed to `onSave`; the server accepts exactly when title, url and status are non-empty |
| TermActions.Prefix | src/app/admin/terms/actions.js:15 | `substring(0, n)`: a prefix of at most `n` code units, the whole text when it is no longer |
| TermActions.FilterAllowed | src/app/admin/terms/actions.js:17 | no longer than the input, only allowed code units are left, and a text made of them is unchanged |
| TermActions.CollapseRuns | src/app/admin/terms/actions.js:19 | no longer than the input and free of white space |
| TermActions.CollapseSlugChars | src/app/admin/terms/actions.js:17-19 | collapsing the filtered text leaves only slug characters |
| TermActions.CreateUrl | src/app/admin/terms/actions.js:13-20 | a slug has at most 60 code units, no white space, and only letters, digits, Arabic-block letters and `-` |
| TermActions.CollapseNoSpace | src/app/admin/terms/actions.js:19 | a text without white space comes through the collapsing unchanged |
| TermActions.CollapseRunsSplice | src/app/admin/terms/actions.js:19 | each maximal white-space run between two non-space texts becomes exactly one `-` |
| TermActions.CreateUrlIdempotent | src/app/admin/terms/actions.js:13-20 | a slug is its own slug |
| TermActions.CreateTerm | src/app/admin/terms/actions.js:27-66 | a missing name or taxonomy is refused; a slug already used in the taxonomy is refused as a duplicate; the term is inserted, with the slug of its name, exactly when neither query fails and the slug is new; every other outcome leaves the tables as they were |
| TermActions.InsertTermKeepsSlugsUnique | src/app/admin/terms/actions.js:39-55 | an insert that passed the duplicate check keeps slugs unique within each taxonomy |
| TermActions.UpdateTerm | src/app/admin/terms/actions.js:73-98 | a missing id, name or url is refused; otherwise the rows the id denotes take the new name and url, or a database error answers a server error and leaves the tables as they were |
| TermActions.UpdateTermRenamesOnly | src/app/admin/terms/actions.js:83-87 | an update renames only the rows whose id the key denotes; ids, taxonomies and order stay |
| TermActions.DeleteTerm | src/app/admin/terms/actions.js:105-127 | a falsy id is refused; otherwise the links go, then the term; a failure of the second statement leaves the links deleted and the term in place |
| TermActions.DeleteTermClears | src/app/admin/terms/actions.js:111-116 | after both deletes the term and every link to it are gone, and every other term and link is kept |
| TermActions.CaughtReply | src/app/admin/terms/actions.js:61-65 | as written, the `catch` answers the throw of `redirect` with the server error, so every outcome but `Done` is a failure |
| TermActions.Reply | src/app/admin/terms/actions.js:61-65 | with `redirect` outside the `try`, a failure is answered exactly when the action failed |
| TermActions.CreateTermAsWritten | src/app/admin/terms/actions.js:27-66 | as written, `createTerm` always answers with a failure, and the server error when it inserted the term |
| TermActions.CreateTermReply | src/app/admin/terms/actions.js:27-66 | corrected, `createTerm` answers no failure exactly when it changed the tables |
| TermActions.DeleteTermAsWritten | src/app/admin/terms/actions.js:105-127 | as written, `deleteTerm` always answers with a failure, and the server error when both deletes ran |
| TermActions.DeleteTermReply | src/app/admin/terms/actions.js:105-127 | corrected, `deleteTerm` answers no failure exactly when both deletes ran, and then the term and its links are gone |
| TermActions.Unlinked | src/app/admin/terms/actions.js:138-144 | a post is a hit exactly when its title matches and it is not linked to the term; there are never more hits than posts |
| TermActions.SearchPosts | src/app/admin/terms/actions.js:135-151 | a missing or one-character query, or a database error, gives `[]`. Otherwise the result holds `min(10, n)` rows, each at most as often as among the n unlinked posts whose title contains the query, and nothing else |
| TermActions.AddPostToTerm | src/app/admin/terms/actions.js:159-172 | succeeds exactly when the statement does, and then adds the link; otherwise the tables are unchanged |
| TermActions.RemovePostFromTerm | src/app/admin/terms/actions.js:180-192 | succeeds exactly when the statement does, and then removes the link; otherwise the tables are unchanged |
| TermActions.AddThenRemoveLink | src/app/admin/terms/actions.js:159-192 | adding a link and then removing it leaves no such link, and no other link is touched |
| TermsManager.FilteredTermsSpec | src/app/admin/terms/terms-manager.js:87-96 | a term is listed exactly when its taxonomy passes (`all` passes every one) and its lower-cased name contains the lower-cased search, in the order of `allTerms` |
| TermsManager.FilteredTerms | src/app/admin/terms/terms-manager.js:87-96 | every listed term is one of `allTerms` and its lower-cased name contains the lower-cased search |
| TermsManager.AllAndEmptySearchKeepsAll | src/app/admin/terms/terms-manager.js:87-96 | with the filter at `all` and an empty search every term is listed, in order |
| TermsManager.ClientReply | src/app/admin/terms/terms-manager.js:24-29 | a failed `createTerm` shows its message |
| TermsManager.AddTermForm.constructor | src/app/admin/terms/terms-manager.js:16-18 | empty inputs, the `category` taxonomy, and no error |
| TermsManager.AddTermForm.HandleAction | src/app/admin/terms/terms-manager.js:21-31 | `createTerm` runs on the inputs; a failure is shown and keeps the inputs, anything else resets the form; an empty name changes nothing; the term is inserted exactly when the action redirects |
| TermsManager.FindById | src/app/admin/terms/terms-manager.js:151 | `find` answers a result with that id, or nothing exactly when none has it |
| TermsManager.DropId | src/app/admin/terms/terms-manager.js:154 | exactly the entries without that id, in order |
| TermsManager.TermsManager.constructor | src/app/admin/terms/terms-manager.js:78-100 | the term's posts, no results, no error |
| TermsManager.TermsManager.ResetPosts | src/app/admin/terms/terms-manager.js:107-109 | new props replace the posts and nothing else |
| TermsManager.TermsManager.DebouncedSearch | src/app/admin/terms/terms-manager.js:111-123 | a query longer than two code units shows what `searchPosts` answers, a shorter one no results; no result is already linked to the term |
| TermsManager.TermsManager.HandleAddPost | src/app/admin/terms/terms-manager.js:147-158 | the link is added exactly when `addPostToTerm` succeeds; then a post among the results moves from the results to the end of the list |
| TermsManager.TermsManager.HandleRemovePost | src/app/admin/terms/terms-manager.js:160-167 | the link is removed exactly when `removePostFromTerm` succeeds, and then the post leaves the list |
| TermsManager.TermsManager.HandleUpdate | src/app/admin/terms/terms-manager.js:132-139 | `updateTerm` runs and succeeds exactly when all three fields are present and the UPDATE does not throw; then the term is updated, and otherwise the tables are unchanged. A failure is shown on the error line and a success clears it |
| TermsManager.TermsManager.HandleDelete | src/app/admin/terms/terms-manager.js:141-145 | nothing happens unless confirmed. Then `deleteTerm` of the selected term runs and redirects exactly when both deletes succeed, leaving neither the term nor its links. When the term delete throws, the links are already gone; in every other failure the tables are unchanged |
| TermsManager.AddThenRemoveRestoresPosts | src/app/admin/terms/terms-manager.js:147-167 | adding a found post and removing it again gives back the list |
| TermsManager.DropIdAbsent | src/app/admin/terms/terms-manager.js:154 | dropping an absent id changes nothing |
| TermsManager.DropIdAppend | src/app/admin/terms/terms-manager.js:154 | dropping the id of an appended entry removes just that entry |
| TiptapEditor.DashesToSpaces | src/app/components/TiptapEditor.js:99 | every `-` and `_` becomes a space and nothing else changes |
| TiptapEditor.GenerateDefaultAlt | src/app/components/TiptapEditor.js:91-100 | no selected path gives `""`; the alt text never holds `-` or `_` |
| TiptapEditor.AltIgnoresDirectories | src/app/components/TiptapEditor.js:93-95 | only the part after the last `/` counts |
| TiptapEditor.AltDropsLastExtension | src/app/components/TiptapEditor.js:96-99 | the last extension is dropped, every earlier dot is kept, and dashes and underscores read as spaces |
| TiptapEditor.AltWithoutDotIsEmpty | src/app/components/TiptapEditor.js:96-98 | a file name without a dot yields `""` |
| TiptapEditor.Dimension | src/app/components/TiptapEditor.js:82-83 | an empty or missing value gives `undefined`; any other is what `parseInt` reads |
| TiptapEditor.Toolbar.constructor | src/app/components/TiptapEditor.js:44-46 | both dialogs closed, no path, nothing inserted |
| TiptapEditor.Toolbar.SelectImageFromLibrary | src/app/components/TiptapEditor.js:68-72 | the library closes, the path is kept and the attributes dialog opens |
| TiptapEditor.Toolbar.SetImageAttributes | src/app/components/TiptapEditor.js:74-89 | with a selected path exactly one image with that source, the alt and the parsed dimensions is inserted; either way the dialog closes and the path is cleared |
| TiptapEditor.ChooseAndInsert | src/app/components/TiptapEditor.js:68-89 | choosing a library file and confirming its attributes inserts exactly that image and leaves both dialogs closed |

## Left out

- The `/api/getimg` image route is not part of this model. Only the loader's URL rewrite is.
- SQL semantics stay abstract:
  - Each statement is a datatype value with its effect on the tables.
  - `LIKE` matching is a parameter `like` wherever its result matters.
  - `ORDER BY`, `GROUP_CONCAT` and `COUNT` are not evaluated, so the order of the listed rows is not modelled. Only the query text and its arguments are modelled.
  - MySQL collation is not modelled. MySQL's type coercion is modelled in one place only: the string key of `updateTerm` (`WHERE id = ?`) is compared as `parseInt` reads it. So `12.5` selects term 12, where MySQL would compare 12.5 with 12 and select nothing.
- The DDL of the table-creation functions in the scripts is left out. The extraction queries' results are inputs.
- MigratePosts: table creation is taken to succeed. As written, the `CREATE TABLE posts` text in scripts/posts.js:58-70 is not valid SQL: commas are missing after `description` and `content`, and there is a comma before `)`. So `migrateFromWordPress` would stop at scripts/posts.js:35, before any row is copied.
- `ROLLBACK` is taken never to fail. A failure of the `ROLLBACK` itself is not modelled.
- Which database statement throws is a parameter (`fails`, `Fault`, `faultOf`). The error objects' texts are not modelled.
- `Promise.all` over the per-post term inserts and over the directory entries is modelled as sequential and order-preserving.
- Next.js `redirect()` throws, and it is called inside the `try` of `createTerm` and `deleteTerm`. The model states the tables after the mutation. The clients' models take what they see after the redirect as a parameter (`afterRedirect`), and nothing is asserted about it. The answer as written, with the `catch` taking the redirect, is `CaughtReply` (see Findings).
- `revalidatePath`, `router.replace`, `router.refresh` and the refetch after an action are not modelled. A new URL is modelled as the search parameters it carries.
- React rendering, `useTransition`, the debounce timers and the `setTimeout` in the dialog's `handleClose` are not modelled. `confirm` is a boolean input and `alert` is dropped.
- The dialog's `onClose` and `onSelectImage` callbacks are not modelled. The editor's side of the selection is modelled in `TiptapEditor`.
- `toUpperCase`, `toLowerCase` and `localeCompare` are parameters (`upper`, `lower`, `localeCompare`). Unicode case mapping and collation are not modelled.
- `Number(...)` on a query parameter reads an optionally signed run of decimal digits between white space. Other texts read as NaN, including hexadecimal, exponent and fraction forms that JavaScript accepts.
- `parseInt` is modelled over unbounded integers, with no rounding beyond 2^53 and no 32-bit `INT` overflow in the tables.
- The script's success count assumes `affectedRows` counts the rows matched.
- Console output and the connection pool are not modelled. `RunInTransaction` is atomic on the assumption that `db` is one connection: `START TRANSACTION`, `COMMIT` and `ROLLBACK` are separate `db.query` calls (actions.js:12-23), and the module behind `@/app/lib/db/mysql` is not part of this model.
- `unlink` errors other than `ENOENT` and `EISDIR` are one opaque error code. `ENOTDIR` and permissions are not distinguished.
- A query parameter repeated in the URL is not modelled by the page's listing (`PostsPage.PageQuery` holds one value per name). `URLSearchParams` itself keeps every pair.
- `CommentItem`'s per-comment `handleAction` (CommentPanel.jsx:26-41) is not modelled, only the panel's bulk action.
- `PostsPage.GetPosts` filters tags with `t.taxonomy = 'tag'`, while the listing joins tags with `'post_tag'`. This is modelled as written.
- MigrateTerms.TermsTable.constructor: an existing `taxonomy` column is taken to hold only the ENUM values. scripts/terms.js:60-69 only checks that the column exists, not its type or contents, so `UpdateTermsTaxonomy`'s promise of an ENUM value for every row rests on that assumption.
- GetPostsAction: uses the corrected own-key lookup `SortColumn` (see Findings). So `sort=constructor` and other names inherited from `Object.prototype` are modelled as `p.date`. As written, such a name reaches `ORDER BY`, MySQL rejects the query, and the action answers `{ success: false }` (actions.js:111-114). The as-written lookup is `SortColumnAsWritten`.
- GetPosts: uses the same corrected lookup, so an inherited name is modelled as `p.date`, as in `GetPostsAction`. The page's queries (page.jsx:70-75) have no `catch`, so a rejected query is an error thrown out of the page. `GetPosts` models building the queries and their arguments only. Running them, and a query that throws, are not modelled, so it has no error result.
- QuickEditRow.QuickEditForm.constructor: the form starts from `ParseTerms`, which splits at `;` (the corrected reading; see Findings). The code as written is `ParseTermsAsWritten`.

## Findings

| source | as written | input that shows it | evidently intended | confidence | as-written member | corrected member |
|---|---|---|---|---|---|---|
| src/app/admin/posts/actions.js:42-49 | the sort column is looked up as `allowedSortColumns[sort]` on a plain object, so names inherited from `Object.prototype` pass the whitelist | `sort=constructor` puts the `Object` function into `ORDER BY` instead of falling back to `p.date` | only the five own keys are allowed, and everything else gives `p.date` | not executed | PostActions.SortColumnAsWrittenEscapes | PostActions.SortColumn (PostActions.SortColumnAgrees) |
| src/app/admin/posts/page.jsx:23-30 | the page repeats the lookup `allowedSortColumns[sort]` on a plain object, so names inherited from `Object.prototype` pass the whitelist | `?sort=constructor` puts the `Object` function into `ORDER BY`, and the page's uncaught query fails | only the five own keys are allowed, and everything else gives `p.date` | not executed | PostActions.SortColumnAsWrittenEscapes | PostActions.SortColumn (PostActions.SortColumnAgrees) |
| src/app/admin/posts/QuickEditRow.jsx:19-20 | `parseTerms` splits the term string at `,`, but the listing joins terms with `SEPARATOR ';'` | categories `1:a;2:b` are read as `["1"]`, so saving the row unchanged drops category 2 | split at `;`, as client-components.jsx:166-173 does; equally, the queries could join with `,` (page.jsx:56-57, actions.js:85-86), the format the comment at QuickEditRow.jsx:18 and TermPills.jsx:4-5 expect | not executed | QuickEditRow.ParseTermsAsWritten (QuickEditRow.TwoCategoriesExample, QuickEditRow.SaveUnchangedAsWrittenDropsTerms) | QuickEditRow.ParseTerms (QuickEditRow.ParseTermsRoundTrip, QuickEditRow.SaveUnchangedKeepsTerms) |
| src/app/admin/comments/CommentPanel.jsx:307-311 | the approved tab is keyed `publish` and the approve buttons (lines 130 and 352) write `publish`, but `fetchComments` knows only `approved`, `pending` and `spam` and answers anything else with `spam` and `trash` | approve a comment, then open the approved tab: it lists spam and trash, never the approved comment | key the tab and the buttons `approved`, the value the comments table's ENUM holds | not executed | CommentActions.ApprovedHiddenAsWritten (CommentActions.PublishTabIsSpam) | CommentActions.ApprovedShown |
| src/app/admin/terms/actions.js:61-62 | `redirect()` throws, and it is called inside the `try` of `createTerm` (and of `deleteTerm` at line 122), so its own `catch` answers the redirect with the server error | any `createTerm` that inserts the term answers `{ success: false }` with the server-error message | call `redirect` after the `try`, so a successful action redirects | not executed | TermActions.CaughtReply (TermActions.CreateTermAsWritten, TermActions.DeleteTermAsWritten) | TermActions.Reply (TermActions.CreateTermReply, TermActions.DeleteTermReply) |
