/** The filter bar of the admin post page (src/app/admin/posts/FilterComponent.jsx,
  * and the copy inside client-components.jsx): a change of one filter
  * rewrites the route's search parameters and sends the list back to page 1.
  */
module FilterComponent {
  import opened JsText
  import opened UrlParams

  /** The parameters `handleFilterChange(key, value)` navigates to: a
    * non-empty value replaces the key's values, an empty one removes them,
    * and `page` is set to `"1"` in both cases. */
  function FilteredEntries(es: seq<Entry>, key: JsString, value: JsString): (r: seq<Entry>)
    ensures GetAll(r, Lit("page")) == [Lit("1")]
  {
    var filtered := if value != [] then SetEntries(es, key, value) else DeleteEntries(es, key);
    SetThenGet(filtered, Lit("page"), Lit("1"));
    SetEntries(filtered, Lit("page"), Lit("1"))
  }

  /** `handleFilterChange(key, value)`: a copy of the current parameters,
    * changed in place, and the parameters of the URL it navigates to. */
  method HandleFilterChange(current: seq<Entry>, key: JsString, value: JsString) returns (next: seq<Entry>)
    ensures next == FilteredEntries(current, key, value)
    ensures GetAll(next, Lit("page")) == [Lit("1")]
  {
    var params := new SearchParams(current);
    if value != [] {
      params.Set(key, value);
    } else {
      params.Delete(key);
    }
    params.Set(Lit("page"), Lit("1"));
    next := params.entries;
    SetThenGet(if value != [] then SetEntries(current, key, value) else DeleteEntries(current, key), Lit("page"), Lit("1"));
  }

  /** Every filter change lands on page 1, whatever page the list was on. */
  lemma FilterResetsPage(es: seq<Entry>, key: JsString, value: JsString)
    ensures GetAll(FilteredEntries(es, key, value), Lit("page")) == [Lit("1")]
    ensures GetFirst(FilteredEntries(es, key, value), Lit("page")) == Some(Lit("1"))
  {
    var filtered := if value != [] then SetEntries(es, key, value) else DeleteEntries(es, key);
    SetThenGet(filtered, Lit("page"), Lit("1"));
  }

  /** The changed filter holds exactly the new value, or nothing when the
    * value is empty (a change of `page` itself is overridden by the reset). */
  lemma FilterSetsKey(es: seq<Entry>, key: JsString, value: JsString)
    requires key != Lit("page")
    ensures GetAll(FilteredEntries(es, key, value), key) == (if value != [] then [value] else [])
  {
    if value != [] {
      SetKeepsOthers(SetEntries(es, key, value), Lit("page"), Lit("1"), key);
      SetThenGet(es, key, value);
    } else {
      SetKeepsOthers(DeleteEntries(es, key), Lit("page"), Lit("1"), key);
      DeleteThenGet(es, key);
    }
  }

  /** Every other filter keeps its values, in order. */
  lemma FilterKeepsOthers(es: seq<Entry>, key: JsString, value: JsString, other: JsString)
    requires other != key && other != Lit("page")
    ensures GetAll(FilteredEntries(es, key, value), other) == GetAll(es, other)
  {
    if value != [] {
      SetKeepsOthers(SetEntries(es, key, value), Lit("page"), Lit("1"), other);
      SetKeepsOthers(es, key, value, other);
    } else {
      SetKeepsOthers(DeleteEntries(es, key), Lit("page"), Lit("1"), other);
      DeleteKeepsOthers(es, key, other);
    }
  }
}
