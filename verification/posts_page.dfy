/** The server-side listing of the admin post page (src/app/admin/posts/page.jsx):
  * `getPosts(searchParams)` builds the posts query and the total query from
  * the route's search parameters.
  */
module PostsPage {
  import opened JsText
  import opened Tables
  import opened PostActions

  /** The route's search parameters the listing reads; a parameter given
    * more than once is left out of this model (see README). */
  datatype PageQuery = PageQuery(page: Option<JsString>, limit: Option<JsString>, search: Option<JsString>,
                                 status: Option<JsString>, category: Option<JsString>, tag: Option<JsString>,
                                 sort: Option<JsString>, order: Option<JsString>)

  /** `v ?? fallback`: only a missing value takes the fallback; `""` is kept. */
  function Coalesce(v: Option<JsString>, fallback: JsString): (r: JsString)
    ensures v.Some? ==> r == v.value
    ensures v.None? ==> r == fallback
  {
    if v.Some? then v.value else fallback
  }

  /** `parseInt(limit, 10)` and `(parseInt(page, 10) - 1) * parseInt(limit, 10)`. */
  function PageLimit(q: PageQuery): JsNumber {
    ParseInt(Coalesce(q.limit, Lit("10")))
  }

  function PageOffset(q: PageQuery): JsNumber {
    Offset(ParseInt(Coalesce(q.page, Lit("1"))), PageLimit(q))
  }

  /** Absent `page` and `limit` give the first ten rows. */
  lemma DefaultPageOffset(q: PageQuery)
    requires q.page.None? && q.limit.None?
    ensures PageLimit(q) == Int(10) && PageOffset(q) == Int(0)
  {
    assert Lit("1") == DecimalText(1);
    assert Lit("10") == DecimalText(10);
    ParseIntDigits(DecimalText(1));
    ParseIntDigits(DecimalText(10));
    DecimalTextValue(10);
  }

  /** An empty `page` is not defaulted: it reads as NaN, and so does the offset. */
  lemma EmptyPageIsNaN(q: PageQuery)
    requires q.page == Some([])
    ensures PageOffset(q).NaN?
  {
    ParseIntNoDigit([]);
  }

  /** `if (x)` on a parameter that may be missing. */
  predicate Truthy(v: Option<JsString>) {
    !Blank(v)
  }

  /** The start of the `EXISTS` sub-query through which the category and tag
    * filters test the term. */
  const EXISTS_HEAD: string := " AND EXISTS (SELECT 1 FROM post_term pt JOIN terms t ON pt.term_taxonomy_id = t.id WHERE pt.object_id = p.id AND t.name = "

  /** A term filter: the sub-query with the name as its argument, closed by
    * the taxonomy test (`'category'`, and `'tag'` for the tag filter). */
  function ExistsFilter(name: JsString, taxonomyTest: string): Filter {
    Filter([Text(EXISTS_HEAD),
            Hole, Text(taxonomyTest)],
           Str(name), [])
  }

  lemma ExistsFilterGood(name: JsString, taxonomyTest: string)
    ensures Good(ExistsFilter(name, taxonomyTest))
  {
    HoleBetween(EXISTS_HEAD,
                taxonomyTest);
  }

  function Value(v: Option<JsString>): JsString {
    if v.Some? then v.value else []
  }

  /** The filters `getPosts` switches on, in clause order. */
  function PageFilters(q: PageQuery): seq<Filter> {
    var f1 := AppendIf([], Truthy(q.search), SearchFilter(Value(q.search)));
    var f2 := AppendIf(f1, Truthy(q.status) && IsListedStatus(Value(q.status)), StatusFilter(Value(q.status)));
    var f3 := AppendIf(f2, Truthy(q.category), ExistsFilter(Value(q.category), " AND t.taxonomy = 'category')"));
    AppendIf(f3, Truthy(q.tag), ExistsFilter(Value(q.tag), " AND t.taxonomy = 'tag')"))
  }

  lemma PageFiltersWellFormed(q: PageQuery)
    ensures WellFormed(PageFilters(q))
  {
    OneHoleClause(" AND p.title LIKE ");
    OneHoleClause(" AND p.status = ");
    ExistsFilterGood(Value(q.category), " AND t.taxonomy = 'category')");
    ExistsFilterGood(Value(q.tag), " AND t.taxonomy = 'tag')");
    var f1 := AppendIf([], Truthy(q.search), SearchFilter(Value(q.search)));
    assert WellFormed(f1);
    var f2 := AppendIf(f1, Truthy(q.status) && IsListedStatus(Value(q.status)), StatusFilter(Value(q.status)));
    assert WellFormed(f2);
    var f3 := AppendIf(f2, Truthy(q.category), ExistsFilter(Value(q.category), " AND t.taxonomy = 'category')"));
    assert WellFormed(f3);
  }

  /** The status filter is on exactly for a listed status. */
  lemma PageStatusFilterIff(q: PageQuery)
    ensures StatusFilter(Value(q.status)) in PageFilters(q) <==> Truthy(q.status) && IsListedStatus(Value(q.status))
  {
    var st := StatusFilter(Value(q.status));
    assert SearchFilter(Value(q.search)).clause[0] != st.clause[0];
    assert ExistsFilter(Value(q.category), " AND t.taxonomy = 'category')").clause[0] != st.clause[0];
    assert ExistsFilter(Value(q.tag), " AND t.taxonomy = 'tag')").clause[0] != st.clause[0];
    if Truthy(q.status) && IsListedStatus(Value(q.status)) {
      var f1 := AppendIf([], Truthy(q.search), SearchFilter(Value(q.search)));
      assert st in AppendIf(f1, true, st);
    }
  }

  /** The clause and the argument list stay in lock-step, and the clause holds no `LEFT JOIN`. */
  lemma PageWhereHolesMatchArgs(q: PageQuery)
    ensures Holes(WhereOf(PageFilters(q))) == |ArgsOf(PageFilters(q))|
    ensures LeftJoin !in WhereOf(PageFilters(q))
  {
    PageFiltersWellFormed(q);
    WhereHolesMatchArgs(PageFilters(q));
  }

  /** The step-by-step build of `whereClause` and `params`. */
  method BuildWhere(q: PageQuery) returns (where: Sql, args: seq<SqlValue>)
    ensures where == WhereOf(PageFilters(q)) && args == ArgsOf(PageFilters(q))
    ensures Holes(where) == |args| && LeftJoin !in where
  {
    var joins: seq<TableJoin>;
    ghost var fs: seq<Filter> := [];
    where, args, joins := [WHERE_TRUE], [], [];
    where, args, joins, fs := AddFilterIf(Truthy(q.search), SearchFilter(Value(q.search)), where, args, joins, fs);
    where, args, joins, fs := AddFilterIf(Truthy(q.status) && IsListedStatus(Value(q.status)), StatusFilter(Value(q.status)),
                                          where, args, joins, fs);
    where, args, joins, fs := AddFilterIf(Truthy(q.category), ExistsFilter(Value(q.category), " AND t.taxonomy = 'category')"), where, args, joins, fs);
    where, args, joins, fs := AddFilterIf(Truthy(q.tag), ExistsFilter(Value(q.tag), " AND t.taxonomy = 'tag')"), where, args, joins, fs);
    assert fs == PageFilters(q);
    PageWhereHolesMatchArgs(q);
  }

  /** The fixed head of the page's posts query, up to its four `LEFT JOIN`s. */
  const PAGE_SELECT: Sql := [
    Text("SELECT p.*, GROUP_CONCAT(DISTINCT c.id, ':', c.name SEPARATOR ';') as categories, GROUP_CONCAT(DISTINCT t.id, ':', t.name SEPARATOR ';') as tags, (SELECT COUNT(*) FROM comments WHERE post_id = p.id AND status = 'approved') as comment_count FROM posts p "),
    LeftJoin, Text(" post_term pt_cat ON p.id = pt_cat.object_id "),
    LeftJoin, Text(" terms c ON pt_cat.term_taxonomy_id = c.id AND c.taxonomy = 'category' "),
    LeftJoin, Text(" post_term pt_tag ON p.id = pt_tag.object_id "),
    LeftJoin, Text(" terms t ON pt_tag.term_taxonomy_id = t.id AND t.taxonomy = 'post_tag' ")]

  function PagePostsQuery(where: Sql, column: string, direction: string): (r: Sql)
    ensures Holes(r) == Holes(where) + 2
  {
    var limit := [Text(" GROUP BY p.id ORDER BY " + column + " " + direction + " LIMIT "), Hole];
    var tail := limit + [Text(" OFFSET "), Hole];
    OneHoleClause(" GROUP BY p.id ORDER BY " + column + " " + direction + " LIMIT ");
    OneHoleClause(" OFFSET ");
    HolesAppend(limit, [Text(" OFFSET "), Hole]);
    HolesNone(PAGE_SELECT);
    HolesAppend(PAGE_SELECT, where);
    HolesAppend(PAGE_SELECT + where, tail);
    PAGE_SELECT + where + tail
  }

  /** `whereClause.split("LEFT JOIN")[0]`, after the count head. */
  function PageTotalQuery(where: Sql): (r: Sql)
    ensures LeftJoin !in r
  {
    [Text("SELECT COUNT(DISTINCT p.id) as total FROM posts p ")] + Split(where, LeftJoin)[0]
  }

  /** The clause holds no `LEFT JOIN`, so the total query filters by the whole clause. */
  lemma {:induction false} TotalQueryKeepsWhere(where: Sql)
    requires LeftJoin !in where
    ensures PageTotalQuery(where) == [Text("SELECT COUNT(DISTINCT p.id) as total FROM posts p ")] + where
    ensures Holes(PageTotalQuery(where)) == Holes(where)
  {
    SplitNoSeparator(where, LeftJoin);
    HolesAppend([Text("SELECT COUNT(DISTINCT p.id) as total FROM posts p ")], where);
    HolesNone([Text("SELECT COUNT(DISTINCT p.id) as total FROM posts p ")]);
  }

  /** `getPosts(searchParams)`: the two queries and their arguments; `upper`
    * stands for `toUpperCase`. */
  method GetPosts(q: PageQuery, upper: JsString -> JsString) returns (r: Listing)
    ensures r.Listing?
    ensures r.totalArgs == ArgsOf(PageFilters(q))
    ensures r.postsArgs == r.totalArgs + [Num(PageLimit(q)), Num(PageOffset(q))]
    ensures Holes(r.postsQuery) == |r.postsArgs| && Holes(r.totalQuery) == |r.totalArgs|
    ensures r.sortColumn == SortColumn(Coalesce(q.sort, Lit("date"))) && r.sortColumn in SORT_COLUMNS
    ensures r.sortOrder == SortOrder(Coalesce(q.order, Lit("DESC")), upper) && (r.sortOrder == "ASC" || r.sortOrder == "DESC")
    ensures r.postsQuery == PagePostsQuery(WhereOf(PageFilters(q)), r.sortColumn, r.sortOrder)
    ensures r.totalQuery == [Text("SELECT COUNT(DISTINCT p.id) as total FROM posts p ")] + WhereOf(PageFilters(q))
  {
    var sort := Coalesce(q.sort, Lit("date"));
    var order := Coalesce(q.order, Lit("DESC"));
    var offset := PageOffset(q);
    var column := SortColumn(sort);
    var direction := SortOrder(order, upper);
    var where, args := BuildWhere(q);
    var postsQuery := PagePostsQuery(where, column, direction);
    var totalQuery := PageTotalQuery(where);
    TotalQueryKeepsWhere(where);
    r := Listing(postsQuery, args + [Num(PageLimit(q)), Num(offset)], totalQuery, args, column, direction);
  }
}
