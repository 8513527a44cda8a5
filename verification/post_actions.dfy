/** The server actions of the post list (src/app/admin/posts/actions.js):
  * the transaction helper, the filtered and paginated listing query, and
  * the delete and quick-edit actions.
  */
module PostActions {
  import opened JsText
  import opened Tables
  import opened UrlParams
  import Lists

  // ---------------------------------------------------------------------
  // Parameter normalisation

  /** `params.get(key) || fallback`: a missing or empty value takes the fallback. */
  function OrDefault(v: Option<JsString>, fallback: JsString): (r: JsString)
    ensures v.Some? && v.value != [] ==> r == v.value
    ensures v.None? || v.value == [] ==> r == fallback
  {
    if v.None? || v.value == [] then fallback else v.value
  }

  /** The listing settings read from the query string. */
  datatype Settings = Settings(page: JsNumber, limit: JsNumber, search: JsString, status: JsString,
                               category: JsString, tag: JsString, sort: JsString, order: JsString)

  /** The four filters are off exactly when their parameter is missing or
    * empty, and the sort key and direction are never empty. */
  function Normalize(params: seq<Entry>): (s: Settings)
    ensures s.search == [] <==> Blank(GetFirst(params, Lit("search")))
    ensures s.status == [] <==> Blank(GetFirst(params, Lit("status")))
    ensures s.category == [] <==> Blank(GetFirst(params, Lit("category")))
    ensures s.tag == [] <==> Blank(GetFirst(params, Lit("tag")))
    ensures s.sort != [] && s.order != []
  {
    Settings(
      ParseInt(OrDefault(GetFirst(params, Lit("page")), Lit("1"))),
      ParseInt(OrDefault(GetFirst(params, Lit("limit")), Lit("10"))),
      OrDefault(GetFirst(params, Lit("search")), []),
      OrDefault(GetFirst(params, Lit("status")), []),
      OrDefault(GetFirst(params, Lit("category")), []),
      OrDefault(GetFirst(params, Lit("tag")), []),
      OrDefault(GetFirst(params, Lit("sort")), Lit("date")),
      OrDefault(GetFirst(params, Lit("order")), Lit("DESC")))
  }

  /** `(page - 1) * limit` in JavaScript arithmetic: NaN is contagious. */
  function Offset(page: JsNumber, limit: JsNumber): (r: JsNumber)
    ensures r.NaN? <==> page.NaN? || limit.NaN?
  {
    if page.NaN? || limit.NaN? then NaN else Int((page.value - 1) * limit.value)
  }

  /** A parameter written as the decimal digits of `n` reads as `n`. */
  lemma CanonicalNumber(v: Option<JsString>, fallback: JsString, n: nat)
    requires v == Some(DecimalText(n))
    ensures ParseInt(OrDefault(v, fallback)) == Int(n)
  {
    ParseIntDigits(DecimalText(n));
    DecimalTextValue(n);
  }

  /** The two paging fields of the settings. */
  lemma NormalizePaging(params: seq<Entry>)
    ensures Normalize(params).page == ParseInt(OrDefault(GetFirst(params, Lit("page")), Lit("1")))
    ensures Normalize(params).limit == ParseInt(OrDefault(GetFirst(params, Lit("limit")), Lit("10")))
  {
  }

  /** With `page` and `limit` absent or empty the listing starts at row 0 and shows 10 rows. */
  lemma DefaultPaging(params: seq<Entry>)
    requires OrDefault(GetFirst(params, Lit("page")), []) == []
    requires OrDefault(GetFirst(params, Lit("limit")), []) == []
    ensures Normalize(params).limit == Int(10)
    ensures Offset(Normalize(params).page, Normalize(params).limit) == Int(0)
  {
    var page := OrDefault(GetFirst(params, Lit("page")), Lit("1"));
    var limit := OrDefault(GetFirst(params, Lit("limit")), Lit("10"));
    assert page == DecimalText(1) && limit == DecimalText(10);
    CanonicalNumber(Some(page), [], 1);
    CanonicalNumber(Some(limit), [], 10);
    NormalizePaging(params);
  }

  /** With both written in decimal, the listing starts at row `(page - 1) * limit`. */
  lemma DecimalPaging(params: seq<Entry>, page: nat, limit: nat)
    requires GetFirst(params, Lit("page")) == Some(DecimalText(page))
    requires GetFirst(params, Lit("limit")) == Some(DecimalText(limit))
    ensures Normalize(params).limit == Int(limit)
    ensures Offset(Normalize(params).page, Normalize(params).limit) == Int((page - 1) * limit)
  {
    CanonicalNumber(GetFirst(params, Lit("page")), Lit("1"), page);
    CanonicalNumber(GetFirst(params, Lit("limit")), Lit("10"), limit);
    NormalizePaging(params);
  }

  // ---------------------------------------------------------------------
  // ORDER BY

  /** The five columns the listing may be ordered by. */
  const SORT_COLUMNS: set<string> := {"p.title", "p.date", "p.view", "p.status", "comment_count"}

  /** The names `allowedSortColumns` answers for itself. */
  predicate IsSortKey(sort: JsString) {
    sort == Lit("title") || sort == Lit("date") || sort == Lit("view") || sort == Lit("status") || sort == Lit("comment_count")
  }

  /** `allowedSortColumns[sort] || "p.date"`, with the lookup confined to the
    * object's own keys (see `SortColumnAsWritten` for the lookup as written). */
  function SortColumn(sort: JsString): (col: string)
    ensures col in SORT_COLUMNS
    ensures !IsSortKey(sort) ==> col == "p.date"
  {
    if sort == Lit("title") then "p.title"
    else if sort == Lit("date") then "p.date"
    else if sort == Lit("view") then "p.view"
    else if sort == Lit("status") then "p.status"
    else if sort == Lit("comment_count") then "comment_count"
    else "p.date"
  }

  /** The members every plain object inherits from `Object.prototype`; reading
    * any of them off `allowedSortColumns` yields a truthy value. */
  const PROTOTYPE_MEMBERS: set<string> := {
    "constructor", "hasOwnProperty", "isPrototypeOf", "propertyIsEnumerable", "toLocaleString",
    "toString", "valueOf", "__proto__", "__defineGetter__", "__defineSetter__",
    "__lookupGetter__", "__lookupSetter__"}

  predicate IsPrototypeMember(sort: JsString) {
    exists m :: m in PROTOTYPE_MEMBERS && Lit(m) == sort
  }

  /** What `allowedSortColumns[sort] || "p.date"` interpolates into ORDER BY:
    * a whitelisted column, or, for an inherited member name, that member
    * (a function or `Object.prototype`), whose text is not a column. */
  datatype SortPick = Column(sql: string) | InheritedMember(name: JsString)

  function SortColumnAsWritten(sort: JsString): (r: SortPick)
    ensures r.InheritedMember? <==> !IsSortKey(sort) && IsPrototypeMember(sort)
    ensures r.Column? ==> r.sql in SORT_COLUMNS
  {
    if IsSortKey(sort) then Column(SortColumn(sort))
    else if IsPrototypeMember(sort) then InheritedMember(sort)
    else Column("p.date")
  }

  /** The lookup as written escapes the whitelist: `sort=constructor` puts
    * `Object` (not a column, not `p.date`) into ORDER BY. */
  lemma SortColumnAsWrittenEscapes()
    ensures SortColumnAsWritten(Lit("constructor")) == InheritedMember(Lit("constructor"))
  {
    var c := Lit("constructor");
    assert |c| == 11;
    assert !IsSortKey(c);
    assert IsPrototypeMember(c) by {
      assert "constructor" in PROTOTYPE_MEMBERS;
    }
  }

  /** Away from the inherited names, the lookup as written and the own-key lookup agree. */
  lemma SortColumnAgrees(sort: JsString)
    requires !IsPrototypeMember(sort)
    ensures SortColumnAsWritten(sort) == Column(SortColumn(sort))
  {
  }

  /** `["ASC", "DESC"].includes(order.toUpperCase()) ? order.toUpperCase() : "DESC"`,
    * with `upper` standing for `toUpperCase`. */
  function SortOrder(order: JsString, upper: JsString -> JsString): (dir: string)
    ensures dir == "ASC" || dir == "DESC"
    ensures dir == "ASC" <==> upper(order) == Lit("ASC")
  {
    if upper(order) == Lit("ASC") then "ASC" else "DESC"
  }

  // ---------------------------------------------------------------------
  // WHERE clause and arguments

  /** The two `JOIN` chains a term filter needs, one per taxonomy. */
  datatype TableJoin = CategoryJoin | TagJoin

  /** The SQL text of a join chain. */
  function JoinSql(j: TableJoin): string {
    match j
    case CategoryJoin =>
      "JOIN post_term pt_cat_filter ON p.id = pt_cat_filter.object_id JOIN terms t_cat_filter ON pt_cat_filter.term_taxonomy_id = t_cat_filter.id"
    case TagJoin =>
      "JOIN post_term pt_tag_filter ON p.id = pt_tag_filter.object_id JOIN terms t_tag_filter ON pt_tag_filter.term_taxonomy_id = t_tag_filter.id"
  }

  /** One filter: its clause (one placeholder), its argument and the joins it needs. */
  datatype Filter = Filter(clause: Sql, arg: SqlValue, joins: seq<TableJoin>)

  predicate IsListedStatus(status: JsString) {
    status == Lit("publish") || status == Lit("draft") || status == Lit("private")
  }

  /** The clause texts of the four filters, each followed by one `?`. */
  const SEARCH_SQL: string := " AND p.title LIKE "
  const STATUS_SQL: string := " AND p.status = "
  const CATEGORY_SQL: string := " AND t_cat_filter.taxonomy = 'category' AND t_cat_filter.name = "
  const TAG_SQL: string := " AND t_tag_filter.taxonomy = 'post_tag' AND t_tag_filter.name = "

  function SearchFilter(search: JsString): Filter {
    Filter([Text(SEARCH_SQL), Hole], Str(LikePattern(search)), [])
  }

  function StatusFilter(status: JsString): Filter {
    Filter([Text(STATUS_SQL), Hole], Str(status), [])
  }

  function CategoryFilter(category: JsString): Filter {
    Filter([Text(CATEGORY_SQL), Hole], Str(category), [CategoryJoin])
  }

  function TagFilter(tag: JsString): Filter {
    Filter([Text(TAG_SQL), Hole], Str(tag), [TagJoin])
  }

  /** `fs` with `f` appended when `on` holds. */
  function AppendIf(fs: seq<Filter>, on: bool, f: Filter): seq<Filter> {
    if on then fs + [f] else fs
  }

  /** The filters a request switches on, in the order the clause lists them. */
  function ActiveFilters(s: Settings): seq<Filter> {
    var f1 := AppendIf([], s.search != [], SearchFilter(s.search));
    var f2 := AppendIf(f1, s.status != [] && IsListedStatus(s.status), StatusFilter(s.status));
    var f3 := AppendIf(f2, s.category != [], CategoryFilter(s.category));
    AppendIf(f3, s.tag != [], TagFilter(s.tag))
  }

  const WHERE_TRUE: SqlPiece := Text(" WHERE 1=1")

  function WhereOf(fs: seq<Filter>): Sql {
    if fs == [] then [WHERE_TRUE] else WhereOf(fs[..|fs| - 1]) + fs[|fs| - 1].clause
  }

  function ArgsOf(fs: seq<Filter>): (r: seq<SqlValue>)
    ensures |r| == |fs|
  {
    if fs == [] then [] else ArgsOf(fs[..|fs| - 1]) + [fs[|fs| - 1].arg]
  }

  function JoinsOf(fs: seq<Filter>): seq<TableJoin> {
    if fs == [] then [] else JoinsOf(fs[..|fs| - 1]) + fs[|fs| - 1].joins
  }

  /** A clause holds one `?` and no `LEFT JOIN`. */
  predicate Good(f: Filter) {
    Holes(f.clause) == 1 && LeftJoin !in f.clause
  }

  predicate WellFormed(fs: seq<Filter>) {
    forall i :: 0 <= i < |fs| ==> Good(fs[i])
  }

  /** Every filter adds one `?` and one argument, so the clause and the
    * argument list stay in lock-step; and no filter brings a `LEFT JOIN`. */
  lemma {:induction false} WhereHolesMatchArgs(fs: seq<Filter>)
    requires WellFormed(fs)
    ensures Holes(WhereOf(fs)) == |ArgsOf(fs)|
    ensures LeftJoin !in WhereOf(fs)
  {
    if fs == [] {
      assert Holes([WHERE_TRUE]) == 0 + Holes([]);
    } else {
      var init := fs[..|fs| - 1];
      assert WellFormed(init);
      WhereHolesMatchArgs(init);
      HolesAppend(WhereOf(init), fs[|fs| - 1].clause);
    }
  }

  /** A clause made of one text and one `?` is a good filter clause. */
  lemma GoodFilter(f: Filter, text: string)
    requires f.clause == [Text(text), Hole]
    ensures Good(f)
  {
    OneHoleClause(text);
  }

  lemma WellFormedAppendIf(fs: seq<Filter>, on: bool, f: Filter)
    requires WellFormed(fs) && Good(f)
    ensures WellFormed(AppendIf(fs, on, f))
  {
  }

  lemma ActiveFiltersWellFormed(s: Settings)
    ensures WellFormed(ActiveFilters(s))
  {
    GoodFilter(SearchFilter(s.search), SEARCH_SQL);
    GoodFilter(StatusFilter(s.status), STATUS_SQL);
    GoodFilter(CategoryFilter(s.category), CATEGORY_SQL);
    GoodFilter(TagFilter(s.tag), TAG_SQL);
    var f1 := AppendIf([], s.search != [], SearchFilter(s.search));
    WellFormedAppendIf([], s.search != [], SearchFilter(s.search));
    var f2 := AppendIf(f1, s.status != [] && IsListedStatus(s.status), StatusFilter(s.status));
    WellFormedAppendIf(f1, s.status != [] && IsListedStatus(s.status), StatusFilter(s.status));
    var f3 := AppendIf(f2, s.category != [], CategoryFilter(s.category));
    WellFormedAppendIf(f2, s.category != [], CategoryFilter(s.category));
    WellFormedAppendIf(f3, s.tag != [], TagFilter(s.tag));
  }

  /** The active filters' clause has one `?` per argument and no `LEFT JOIN`. */
  lemma ActiveFiltersConsistent(s: Settings)
    ensures Holes(WhereOf(ActiveFilters(s))) == |ArgsOf(ActiveFilters(s))|
    ensures LeftJoin !in WhereOf(ActiveFilters(s))
  {
    ActiveFiltersWellFormed(s);
    WhereHolesMatchArgs(ActiveFilters(s));
  }

  /** The status filter is on exactly for `publish`, `draft` and `private`. */
  lemma StatusFilterIff(s: Settings)
    ensures StatusFilter(s.status) in ActiveFilters(s) <==> IsListedStatus(s.status)
  {
    var st := StatusFilter(s.status);
    assert SearchFilter(s.search).clause[0] != st.clause[0];
    assert CategoryFilter(s.category).clause[0] != st.clause[0];
    assert TagFilter(s.tag).clause[0] != st.clause[0];
    if IsListedStatus(s.status) {
      assert s.status != [];
      var fs := AppendIf([], s.search != [], SearchFilter(s.search));
      assert st in AppendIf(fs, true, st);
    }
  }

  /** `WhereOf`, `ArgsOf` and `JoinsOf` grow by one filter at a time. */
  lemma {:induction false} OfSnoc(fs: seq<Filter>, f: Filter)
    ensures WhereOf(fs + [f]) == WhereOf(fs) + f.clause
    ensures ArgsOf(fs + [f]) == ArgsOf(fs) + [f.arg]
    ensures JoinsOf(fs + [f]) == JoinsOf(fs) + f.joins
  {
    assert (fs + [f])[..|fs + [f]| - 1] == fs;
  }

  /** `if (on) { whereClause += clause; queryParams.push(arg) }`, with the
    * joins the filter brings pushed too; `fs'` is the filter list so far. */
  method AddFilterIf(on: bool, f: Filter, where: Sql, args: seq<SqlValue>, joins: seq<TableJoin>, ghost fs: seq<Filter>)
    returns (where': Sql, args': seq<SqlValue>, joins': seq<TableJoin>, ghost fs': seq<Filter>)
    requires where == WhereOf(fs) && args == ArgsOf(fs) && joins == JoinsOf(fs)
    ensures fs' == AppendIf(fs, on, f)
    ensures where' == WhereOf(fs') && args' == ArgsOf(fs') && joins' == JoinsOf(fs')
  {
    where', args', joins', fs' := where, args, joins, fs;
    if on {
      OfSnoc(fs, f);
      where', args', joins', fs' := where + f.clause, args + [f.arg], joins + f.joins, fs + [f];
    }
  }

  /** The step-by-step build of `whereClause`, `queryParams` and `joins`. */
  method BuildFilters(s: Settings) returns (where: Sql, args: seq<SqlValue>, joins: seq<TableJoin>)
    ensures where == WhereOf(ActiveFilters(s))
    ensures args == ArgsOf(ActiveFilters(s))
    ensures joins == JoinsOf(ActiveFilters(s))
    ensures Holes(where) == |args| && LeftJoin !in where
  {
    ghost var fs: seq<Filter> := [];
    where, args, joins := [WHERE_TRUE], [], [];
    where, args, joins, fs := AddFilterIf(s.search != [], SearchFilter(s.search), where, args, joins, fs);
    where, args, joins, fs := AddFilterIf(s.status != [] && IsListedStatus(s.status), StatusFilter(s.status), where, args, joins, fs);
    where, args, joins, fs := AddFilterIf(s.category != [], CategoryFilter(s.category), where, args, joins, fs);
    where, args, joins, fs := AddFilterIf(s.tag != [], TagFilter(s.tag), where, args, joins, fs);
    assert fs == ActiveFilters(s);
    ActiveFiltersConsistent(s);
  }

  // ---------------------------------------------------------------------
  // The listing queries

  lemma OfSnocIf(fs: seq<Filter>, on: bool, f: Filter)
    ensures JoinsOf(AppendIf(fs, on, f)) == JoinsOf(fs) + (if on then f.joins else [])
  {
    if on {
      OfSnoc(fs, f);
    } else {
      assert JoinsOf(fs) + [] == JoinsOf(fs);
    }
  }

  /** A filter without joins leaves the joins as they are. */
  lemma NoJoinsIf(fs: seq<Filter>, on: bool, f: Filter)
    requires f.joins == []
    ensures JoinsOf(AppendIf(fs, on, f)) == JoinsOf(fs)
  {
    OfSnocIf(fs, on, f);
    assert JoinsOf(fs) + [] == JoinsOf(fs);
  }

  /** The joins the category and tag filters bring, in that order. */
  function TermJoins(s: Settings): seq<TableJoin> {
    (if s.category != [] then [CategoryJoin] else []) + (if s.tag != [] then [TagJoin] else [])
  }

  /** After filters without joins, the category and tag filters bring
    * their chains, in that order. */
  lemma TermFiltersJoins(f2: seq<Filter>, s: Settings)
    requires JoinsOf(f2) == []
    ensures JoinsOf(AppendIf(AppendIf(f2, s.category != [], CategoryFilter(s.category)), s.tag != [], TagFilter(s.tag)))
            == TermJoins(s)
  {
    var f3 := AppendIf(f2, s.category != [], CategoryFilter(s.category));
    OfSnocIf(f2, s.category != [], CategoryFilter(s.category));
    assert JoinsOf(f3) == (if s.category != [] then [CategoryJoin] else []);
    OfSnocIf(f3, s.tag != [], TagFilter(s.tag));
  }

  /** Only the category and tag filters bring joins, one chain each, in that order. */
  lemma JoinsOfActive(s: Settings)
    ensures JoinsOf(ActiveFilters(s)) == TermJoins(s)
  {
    var f1 := AppendIf([], s.search != [], SearchFilter(s.search));
    var f2 := AppendIf(f1, s.status != [] && IsListedStatus(s.status), StatusFilter(s.status));
    NoJoinsIf([], s.search != [], SearchFilter(s.search));
    NoJoinsIf(f1, s.status != [] && IsListedStatus(s.status), StatusFilter(s.status));
    TermFiltersJoins(f2, s);
  }

  /** The category chain and the tag chain are distinct. */
  lemma TermJoinsDistinct(s: Settings)
    ensures Lists.Dedupe(TermJoins(s)) == TermJoins(s)
  {
    var js := TermJoins(s);
    assert Lists.NoDuplicates(js) by {
      if |js| == 2 {
        assert js == [CategoryJoin, TagJoin];
      }
    }
    Lists.DedupeAfterKeeps(js, {});
  }

  /** No join chain comes twice, so `[...new Set(joins)]` keeps them all, in order. */
  lemma JoinsDistinct(s: Settings)
    ensures Lists.Dedupe(JoinsOf(ActiveFilters(s))) == JoinsOf(ActiveFilters(s))
  {
    JoinsOfActive(s);
    TermJoinsDistinct(s);
  }

  /** `[...new Set(joins)].join(" ")`. */
  function JoinString(joins: seq<TableJoin>): string {
    var chains := Lists.Dedupe(joins);
    Join(seq(|chains|, i requires 0 <= i < |chains| => JoinSql(chains[i])), ' ')
  }

  /** The fixed head of the posts query: the columns, the per-post comment
    * count and the four `LEFT JOIN`s that collect categories and tags. */
  const POSTS_SELECT: Sql := [
    Text("SELECT p.*, GROUP_CONCAT(DISTINCT cat.id, ':', cat.name SEPARATOR ';') as categories, GROUP_CONCAT(DISTINCT tag.id, ':', tag.name SEPARATOR ';') as tags, (SELECT COUNT(*) FROM comments WHERE post_id = p.id AND status = 'publish') as comment_count FROM posts p "),
    LeftJoin, Text(" post_term pt_cat ON p.id = pt_cat.object_id "),
    LeftJoin, Text(" terms cat ON pt_cat.term_taxonomy_id = cat.id AND cat.taxonomy = 'category' "),
    LeftJoin, Text(" post_term pt_tag ON p.id = pt_tag.object_id "),
    LeftJoin, Text(" terms tag ON pt_tag.term_taxonomy_id = tag.id AND tag.taxonomy = 'post_tag' ")]

  /** `postsQuery`: the head, the joins, the WHERE clause, the ORDER BY and `LIMIT ? OFFSET ?`. */
  function PostsQuery(joinString: string, where: Sql, column: string, direction: string): (q: Sql)
    ensures Holes(q) == Holes(where) + 2
  {
    var limit := [Text(" GROUP BY p.id ORDER BY " + column + " " + direction + " LIMIT "), Hole];
    var tail := limit + [Text(" OFFSET "), Hole];
    OneHoleClause(" GROUP BY p.id ORDER BY " + column + " " + direction + " LIMIT ");
    OneHoleClause(" OFFSET ");
    HolesAppend(limit, [Text(" OFFSET "), Hole]);
    HolesNone(POSTS_SELECT + [Text(joinString + " ")]);
    HolesAppend(POSTS_SELECT + [Text(joinString + " ")], where);
    HolesAppend(POSTS_SELECT + [Text(joinString + " ")] + where, tail);
    POSTS_SELECT + [Text(joinString + " ")] + where + tail
  }

  /** `totalQuery`: the row count under the same joins and WHERE clause. */
  function TotalQuery(joinString: string, where: Sql): (q: Sql)
    ensures Holes(q) == Holes(where)
  {
    var head := [Text("SELECT COUNT(DISTINCT p.id) as total FROM posts p " + joinString + " ")];
    HolesAppend(head, where);
    HolesNone(head);
    head + where
  }

  /** What `getPostsAction` sends: the two queries and their arguments (the
    * category and tag lists are constant queries without arguments), or the
    * error object when the database rejects a query. */
  datatype Listing =
    | Listing(postsQuery: Sql, postsArgs: seq<SqlValue>, totalQuery: Sql, totalArgs: seq<SqlValue>,
              sortColumn: string, sortOrder: string)
    | ListingFailed

  /** `getPostsAction(queryString)`, on the decoded pairs of the query string;
    * `upper` stands for `toUpperCase`, `fails` for a rejected query. */
  method GetPostsAction(params: seq<Entry>, upper: JsString -> JsString, fails: bool) returns (r: Listing)
    ensures r.ListingFailed? <==> fails
    ensures r.Listing? ==>
      var s := Normalize(params);
      && r.totalArgs == ArgsOf(ActiveFilters(s))
      && r.postsArgs == r.totalArgs + [Num(s.limit), Num(Offset(s.page, s.limit))]
      && Holes(r.postsQuery) == |r.postsArgs|
      && Holes(r.totalQuery) == |r.totalArgs|
      && r.sortColumn == SortColumn(s.sort) && r.sortColumn in SORT_COLUMNS
      && r.sortOrder == SortOrder(s.order, upper) && (r.sortOrder == "ASC" || r.sortOrder == "DESC")
      && r.postsQuery == PostsQuery(JoinString(JoinsOf(ActiveFilters(s))), WhereOf(ActiveFilters(s)), r.sortColumn, r.sortOrder)
      && r.totalQuery == TotalQuery(JoinString(JoinsOf(ActiveFilters(s))), WhereOf(ActiveFilters(s)))
  {
    var s := Normalize(params);
    var offset := Offset(s.page, s.limit);
    var column := SortColumn(s.sort);
    var direction := SortOrder(s.order, upper);
    var where, args, joins := BuildFilters(s);
    var joinString := JoinString(joins);
    var postsQuery := PostsQuery(joinString, where, column, direction);
    var totalQuery := TotalQuery(joinString, where);
    if fails {
      return ListingFailed;
    }
    r := Listing(postsQuery, args + [Num(s.limit), Num(offset)], totalQuery, args, column, direction);
  }

  // ---------------------------------------------------------------------
  // Delete and quick edit

  datatype ActionError = TransactionFailed | NoIdsSelected | EmptyFields

  /** `{success: true}` or `{success: false, error}`. */
  datatype ActionResult = Success | Failure(error: ActionError)

  function DeleteStatements(ids: seq<int>): seq<Stmt> {
    [DeleteLinksOfPosts(ids), DeletePosts(ids)]
  }

  /** After the two deletes, neither the posts nor any link to them are left,
    * and every other post and link is kept. */
  lemma DeleteStatementsClear(ids: seq<int>, db: Db)
    ensures var after := ApplyAll(DeleteStatements(ids), db);
      && (forall p :: p in after.posts <==> p in db.posts && p.id !in ids)
      && (forall l :: l in after.postTerms <==> l in db.postTerms && l.objectId !in ids)
      && after.terms == db.terms && after.comments == db.comments
  {
    var d1 := Apply(DeleteLinksOfPosts(ids), db);
    assert ApplyAll(DeleteStatements(ids), db) == ApplyAll([DeletePosts(ids)], d1);
  }

  /** `deletePost(id)`. */
  method DeletePost(db: Database, id: int, fault: Fault) returns (r: ActionResult)
    modifies db
    ensures r.Failure? <==> fault.FailAt? && fault.step < 2
    ensures r.Failure? ==> r.error == TransactionFailed
    ensures db.Snapshot() == if r.Success? then ApplyAll(DeleteStatements([id]), old(db.Snapshot())) else old(db.Snapshot())
  {
    var failed := db.RunInTransaction(DeleteStatements([id]), fault);
    r := if failed then Failure(TransactionFailed) else Success;
  }

  /** `ids.map(() => "?").join(",")`. */
  function Placeholders(n: nat): (q: Sql)
    ensures Holes(q) == n
  {
    if n == 0 then []
    else if n == 1 then [Hole]
    else
      var q := Placeholders(n - 1) + [Text(","), Hole];
      HolesAppend(Placeholders(n - 1), [Text(","), Hole]);
      assert [Text(","), Hole][1..] == [Hole];
      q
  }

  /** One `?` per id, separated by commas. */
  lemma PlaceholdersShape(n: nat)
    requires n >= 1
    ensures var q := Placeholders(n);
      |q| == 2 * n - 1 && forall i :: 0 <= i < |q| ==> (q[i] == Hole <==> i % 2 == 0)
  {
    if n > 1 {
      PlaceholdersShape(n - 1);
    }
  }

  /** `bulkDeletePosts(ids)`; `ids` is `None` when it is missing. */
  method BulkDeletePosts(db: Database, ids: Option<seq<int>>, fault: Fault) returns (r: ActionResult, inList: Sql)
    modifies db
    ensures ids.None? || ids.value == [] ==> r == Failure(NoIdsSelected) && db.Snapshot() == old(db.Snapshot())
    ensures ids.Some? && ids.value != [] ==>
      && Holes(inList) == |ids.value|
      && (r.Failure? <==> fault.FailAt? && fault.step < 2)
      && (r.Failure? ==> r.error == TransactionFailed)
      && db.Snapshot() == if r.Success? then ApplyAll(DeleteStatements(ids.value), old(db.Snapshot())) else old(db.Snapshot())
  {
    if ids.None? || ids.value == [] {
      return Failure(NoIdsSelected), [];
    }
    inList := Placeholders(|ids.value|);
    var failed := db.RunInTransaction(DeleteStatements(ids.value), fault);
    r := if failed then Failure(TransactionFailed) else Success;
  }

  /** `[...].map((termId) => parseInt(termId, 10)).filter(Boolean)`: NaN and 0 are dropped. */
  function ParsedIds(xs: seq<JsString>): (r: seq<int>)
    ensures |r| <= |xs|
    ensures forall t :: t in r <==> t != 0 && exists i :: 0 <= i < |xs| && ParseInt(xs[i]) == Int(t)
  {
    if xs == [] then []
    else
      var n := ParseInt(xs[0]);
      var rest := ParsedIds(xs[1..]);
      ParsesToTail(xs);
      (if n.Falsy() then [] else [n.value]) + rest
  }

  /** A value is parsed from some element iff it is parsed from the head or
    * from some element of the tail. */
  lemma ParsesToTail(xs: seq<JsString>)
    requires xs != []
    ensures forall t :: (exists i :: 0 <= i < |xs| && ParseInt(xs[i]) == Int(t)) <==>
      ParseInt(xs[0]) == Int(t) || exists i :: 0 <= i < |xs[1..]| && ParseInt(xs[1..][i]) == Int(t)
  {
    forall t | exists i :: 0 <= i < |xs[1..]| && ParseInt(xs[1..][i]) == Int(t)
      ensures exists i :: 0 <= i < |xs| && ParseInt(xs[i]) == Int(t)
    {
      var i :| 0 <= i < |xs[1..]| && ParseInt(xs[1..][i]) == Int(t);
      assert xs[i + 1] == xs[1..][i];
    }
    forall t | exists i :: 0 <= i < |xs| && ParseInt(xs[i]) == Int(t)
      ensures ParseInt(xs[0]) == Int(t) || exists i :: 0 <= i < |xs[1..]| && ParseInt(xs[1..][i]) == Int(t)
    {
      var i :| 0 <= i < |xs| && ParseInt(xs[i]) == Int(t);
      if i > 0 {
        assert xs[1..][i - 1] == xs[i];
      }
    }
  }

  /** Ids sent as their decimal text come back unchanged, in order. */
  lemma {:induction false} ParsedIdsOfDecimal(xs: seq<JsString>, ns: seq<nat>)
    requires |xs| == |ns|
    requires forall i :: 0 <= i < |ns| ==> ns[i] > 0 && xs[i] == DecimalText(ns[i])
    ensures ParsedIds(xs) == ns
  {
    if ns != [] {
      DecimalId(xs[0], ns[0]);
      ParsedIdsOfDecimal(xs[1..], ns[1..]);
      ParsedIdsCons(xs);
      assert [ns[0]] + ns[1..] == ns;
    }
  }

  /** A positive id written in decimal parses back to itself. */
  lemma DecimalId(x: JsString, n: nat)
    requires n > 0 && x == DecimalText(n)
    ensures ParseInt(x) == Int(n) && !ParseInt(x).Falsy()
  {
    ParseIntDigits(DecimalText(n));
    DecimalTextValue(n);
  }

  /** One step of `ParsedIds`. */
  lemma ParsedIdsCons(xs: seq<JsString>)
    requires xs != []
    ensures ParsedIds(xs) == (if ParseInt(xs[0]).Falsy() then [] else [ParseInt(xs[0]).value]) + ParsedIds(xs[1..])
  {
  }

  /** The `post_term` rows `[id, termId]` inserted for the post. */
  function LinksOf(id: int, termIds: seq<int>): (r: seq<Link>)
    ensures forall l :: l in r <==> l.objectId == id && l.termId in termIds
  {
    var r := seq(|termIds|, i requires 0 <= i < |termIds| => Link(id, termIds[i]));
    assert forall t :: t in termIds ==> Link(id, t) in r by {
      forall t | t in termIds ensures Link(id, t) in r {
        var i :| 0 <= i < |termIds| && termIds[i] == t;
        assert r[i] == Link(id, t);
      }
    }
    r
  }

  /** The statements of the quick-edit transaction. */
  function QuickEditStatements(id: int, title: JsString, url: JsString, status: JsString, termIds: seq<int>): seq<Stmt> {
    [UpdatePost(id, title, url, status), DeleteLinksOfPosts([id])]
      + (if termIds != [] then [InsertLinks(LinksOf(id, termIds))] else [])
  }

  /** After a quick edit, the post carries the new fields, its links are
    * exactly the given term ids, and the links of every other post are kept. */
  lemma QuickEditLinksExact(db: Db, id: int, title: JsString, url: JsString, status: JsString, termIds: seq<int>)
    ensures var after := ApplyAll(QuickEditStatements(id, title, url, status, termIds), db);
      && (forall l: Link :: l.objectId == id ==> (l in after.postTerms <==> l.termId in termIds))
      && (forall l: Link :: l.objectId != id ==> (l in after.postTerms <==> l in db.postTerms))
      && |after.posts| == |db.posts|
      && (forall i :: 0 <= i < |db.posts| ==>
            after.posts[i] == if db.posts[i].id == id then PostRow(id, title, url, status) else db.posts[i])
  {
    var d1 := Apply(UpdatePost(id, title, url, status), db);
    var d2 := Apply(DeleteLinksOfPosts([id]), d1);
    var stmts := QuickEditStatements(id, title, url, status, termIds);
    assert ApplyAll(stmts, db) == ApplyAll(stmts[1..], d1);
    assert ApplyAll(stmts[1..], d1) == ApplyAll(stmts[2..], d2);
    if termIds != [] {
      assert ApplyAll(stmts[2..], d2) == ApplyAll([], Apply(InsertLinks(LinksOf(id, termIds)), d2));
    } else {
      assert stmts[2..] == [];
    }
  }

  /** The fields `quickEditPost` reads from its `data` argument; a missing
    * `categories` or `tags` list defaults to `[]`. */
  datatype EditData = EditData(title: Option<JsString>, url: Option<JsString>, status: Option<JsString>,
                               categories: Option<seq<JsString>>, tags: Option<seq<JsString>>)

  function OrEmpty(xs: Option<seq<JsString>>): seq<JsString> {
    if xs.Some? then xs.value else []
  }

  predicate EditRejected(data: EditData) {
    Blank(data.title) || Blank(data.url) || Blank(data.status)
  }

  /** The statements an accepted edit runs in its transaction. */
  function EditStatements(id: int, data: EditData): seq<Stmt>
    requires !EditRejected(data)
  {
    QuickEditStatements(id, data.title.value, data.url.value, data.status.value,
                        ParsedIds(OrEmpty(data.categories) + OrEmpty(data.tags)))
  }

  /** `quickEditPost(id, data)`. */
  method QuickEditPost(db: Database, id: int, data: EditData, fault: Fault) returns (r: ActionResult)
    modifies db
    ensures EditRejected(data) ==> r == Failure(EmptyFields) && db.Snapshot() == old(db.Snapshot())
    ensures !EditRejected(data) ==>
      var stmts := EditStatements(id, data);
      && (r.Failure? <==> fault.FailAt? && fault.step < |stmts|)
      && (r.Failure? ==> r.error == TransactionFailed)
      && db.Snapshot() == if r.Success? then ApplyAll(stmts, old(db.Snapshot())) else old(db.Snapshot())
  {
    if EditRejected(data) {
      return Failure(EmptyFields);
    }
    var termIds := ParsedIds(OrEmpty(data.categories) + OrEmpty(data.tags));
    var stmts := QuickEditStatements(id, data.title.value, data.url.value, data.status.value, termIds);
    var failed := db.RunInTransaction(stmts, fault);
    r := if failed then Failure(TransactionFailed) else Success;
  }
}
