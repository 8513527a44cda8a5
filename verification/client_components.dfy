/** The client-side post management screen
  * (src/app/admin/posts/client-components.jsx): the sortable headers, the
  * quick-edit row with its term sets, and the list's selection and
  * delete handlers. Its filter bar is `FilterComponent` and its pagination
  * the client variant in `Pagination`.
  */
module ClientComponents {
  import opened JsText
  import opened UrlParams
  import opened Tables
  import opened Lists
  import opened PostActions
  import QuickEditRow

  // ---------------------------------------------------------------------
  // Sorting

  /** The parameters `handleSort(sortKey)` navigates to: `sort` is the key,
    * `order` is `ASC` only when the key is re-clicked while the order is
    * `DESC`, and `page` is `1`. */
  function SortedEntries(es: seq<Entry>, sortKey: JsString): (r: seq<Entry>)
    ensures GetAll(r, Lit("page")) == [Lit("1")]
  {
    var order := if GetFirst(es, Lit("sort")) == Some(sortKey) && GetFirst(es, Lit("order")) == Some(Lit("DESC"))
                 then Lit("ASC") else Lit("DESC");
    SetThenGet(SetEntries(SetEntries(es, Lit("sort"), sortKey), Lit("order"), order), Lit("page"), Lit("1"));
    SetEntries(SetEntries(SetEntries(es, Lit("sort"), sortKey), Lit("order"), order), Lit("page"), Lit("1"))
  }

  /** `handleSort(sortKey)`: a copy of the parameters, changed in place. */
  method HandleSort(current: seq<Entry>, sortKey: JsString) returns (next: seq<Entry>)
    ensures next == SortedEntries(current, sortKey)
  {
    var params := new SearchParams(current);
    var currentSort := params.Get(Lit("sort"));
    var currentOrder := params.Get(Lit("order"));
    var newOrder := Lit("DESC");
    if currentSort == Some(sortKey) && currentOrder == Some(Lit("DESC")) {
      newOrder := Lit("ASC");
    }
    params.Set(Lit("sort"), sortKey);
    params.Set(Lit("order"), newOrder);
    params.Set(Lit("page"), Lit("1"));
    next := params.entries;
  }

  lemma DistinctKeys()
    ensures Lit("sort") != Lit("order") && Lit("sort") != Lit("page") && Lit("order") != Lit("page")
    ensures Lit("ASC") != Lit("DESC")
  {
    assert Lit("sort")[0] != Lit("order")[0] && Lit("sort")[0] != Lit("page")[0] && Lit("order")[0] != Lit("page")[0];
    assert |Lit("ASC")| != |Lit("DESC")|;
  }

  /** The sort rule: the new `sort` is the key, `page` is `1`, `order` is
    * `ASC` iff the raw previous `sort` is the key and the raw previous
    * `order` is `DESC` (else `DESC`); every other parameter keeps its values. */
  lemma SortToggle(es: seq<Entry>, sortKey: JsString)
    ensures var next := SortedEntries(es, sortKey);
      && GetFirst(next, Lit("sort")) == Some(sortKey)
      && GetFirst(next, Lit("page")) == Some(Lit("1"))
      && (GetFirst(next, Lit("order")) == Some(Lit("ASC")) <==>
            GetFirst(es, Lit("sort")) == Some(sortKey) && GetFirst(es, Lit("order")) == Some(Lit("DESC")))
      && (GetFirst(next, Lit("order")) == Some(Lit("ASC")) || GetFirst(next, Lit("order")) == Some(Lit("DESC")))
    ensures forall other :: other != Lit("sort") && other != Lit("order") && other != Lit("page") ==>
      GetAll(SortedEntries(es, sortKey), other) == GetAll(es, other)
  {
    DistinctKeys();
    var order := if GetFirst(es, Lit("sort")) == Some(sortKey) && GetFirst(es, Lit("order")) == Some(Lit("DESC"))
                 then Lit("ASC") else Lit("DESC");
    var s1 := SetEntries(es, Lit("sort"), sortKey);
    var s2 := SetEntries(s1, Lit("order"), order);
    var s3 := SetEntries(s2, Lit("page"), Lit("1"));
    SetThenGet(es, Lit("sort"), sortKey);
    SetKeepsOthers(s1, Lit("order"), order, Lit("sort"));
    SetKeepsOthers(s2, Lit("page"), Lit("1"), Lit("sort"));
    GetFirstOfAll(s3, Lit("sort"));
    SetThenGet(s1, Lit("order"), order);
    SetKeepsOthers(s2, Lit("page"), Lit("1"), Lit("order"));
    GetFirstOfAll(s3, Lit("order"));
    SetThenGet(s2, Lit("page"), Lit("1"));
    forall other | other != Lit("sort") && other != Lit("order") && other != Lit("page")
      ensures GetAll(s3, other) == GetAll(es, other)
    {
      SetKeepsOthers(es, Lit("sort"), sortKey, other);
      SetKeepsOthers(s1, Lit("order"), order, other);
      SetKeepsOthers(s2, Lit("page"), Lit("1"), other);
    }
  }

  /** Clicking the same header twice flips the order. */
  lemma SortTwiceFlips(es: seq<Entry>, sortKey: JsString)
    ensures var once := SortedEntries(es, sortKey);
      GetFirst(SortedEntries(once, sortKey), Lit("order")) != GetFirst(once, Lit("order"))
  {
    DistinctKeys();
    var once := SortedEntries(es, sortKey);
    SortToggle(es, sortKey);
    SortToggle(once, sortKey);
  }

  // ---------------------------------------------------------------------
  // The quick-edit row

  /** `new Set(s ? s.split(";").map((c) => c.split(":")[0]) : [])`, as the
    * list of its values in insertion order. */
  function InitialTermIds(s: Option<JsString>): (r: seq<JsString>)
    ensures NoDuplicates(r)
    ensures Blank(s) ==> r == []
    ensures forall x :: x in r <==> x in QuickEditRow.ParseTerms(s)
  {
    Dedupe(QuickEditRow.ParseTerms(s))
  }

  /** Different ids are written differently. */
  lemma IdTextsDistinct(ts: seq<QuickEditRow.TermRef>)
    requires forall i, j :: 0 <= i < j < |ts| ==> ts[i].id != ts[j].id
    ensures NoDuplicates(QuickEditRow.IdTexts(ts))
  {
    var xs := QuickEditRow.IdTexts(ts);
    forall i, j | 0 <= i < j < |xs|
      ensures xs[i] != xs[j]
    {
      DecimalTextValue(ts[i].id);
      DecimalTextValue(ts[j].id);
    }
  }

  /** The row starts from exactly the ids of the post's terms, in order,
    * when the terms have distinct ids and no name holds a `;`. */
  lemma InitialTermIdsRoundTrip(ts: seq<QuickEditRow.TermRef>)
    requires forall i :: 0 <= i < |ts| ==> QuickEditRow.SEMICOLON !in ts[i].name
    requires forall i, j :: 0 <= i < j < |ts| ==> ts[i].id != ts[j].id
    ensures InitialTermIds(QuickEditRow.GroupConcat(ts)) == QuickEditRow.IdTexts(ts)
  {
    QuickEditRow.ParseTermsRoundTrip(ts);
    IdTextsDistinct(ts);
    DedupeAfterKeeps(QuickEditRow.IdTexts(ts), {});
  }

  /** The two term sets of the row. */
  datatype TermSet = Categories | Tags

  /** `formData` of the row; its term sets are duplicate-free lists. */
  class QuickEditForm {
    const postId: int
    var title: JsString
    var url: JsString
    var status: JsString
    var categories: seq<JsString>
    var tags: seq<JsString>

    predicate Valid()
      reads this
    {
      NoDuplicates(categories) && NoDuplicates(tags)
    }

    constructor (post: QuickEditRow.ListedPost)
      ensures postId == post.id && title == post.title && url == post.url && status == post.status
      ensures categories == InitialTermIds(post.categories) && tags == InitialTermIds(post.tags)
      ensures Valid()
    {
      postId := post.id;
      title, url, status := post.title, post.url, post.status;
      categories := InitialTermIds(post.categories);
      tags := InitialTermIds(post.tags);
    }

    /** `handleInputChange(e)` for the `title`, `url` and `status` inputs. */
    method HandleInputChange(field: QuickEditRow.Field, value: JsString)
      modifies this
      ensures title == (if field == QuickEditRow.Title then value else old(title))
      ensures url == (if field == QuickEditRow.Url then value else old(url))
      ensures status == (if field == QuickEditRow.Status then value else old(status))
      ensures categories == old(categories) && tags == old(tags)
    {
      match field
      case Title => title := value;
      case Url => url := value;
      case Status => status := value;
    }

    /** `handleTermChange(termSet, id)`: `delete` a present id, `add` an
      * absent one; the other set and every other id are untouched. */
    method HandleTermChange(termSet: TermSet, id: JsString)
      requires Valid()
      modifies this
      ensures Valid()
      ensures termSet == Categories ==> categories == Toggle(old(categories), id) && tags == old(tags)
      ensures termSet == Tags ==> tags == Toggle(old(tags), id) && categories == old(categories)
      ensures var before := if termSet == Categories then old(categories) else old(tags);
              var after := if termSet == Categories then categories else tags;
              (id in after <==> id !in before) && forall x :: x != id ==> (x in after <==> x in before)
      ensures title == old(title) && url == old(url) && status == old(status)
    {
      if termSet == Categories {
        ToggleFlips(categories, id);
        ToggleNoDuplicates(categories, id);
        categories := Toggle(categories, id);
      } else {
        ToggleFlips(tags, id);
        ToggleNoDuplicates(tags, id);
        tags := Toggle(tags, id);
      }
    }

    /** `handleSave()`: the arguments handed to `onSave`, the sets as arrays. */
    method HandleSave() returns (id: int, data: EditData)
      ensures id == postId
      ensures data == EditData(Some(title), Some(url), Some(status), Some(categories), Some(tags))
      ensures !EditRejected(data) <==> title != [] && url != [] && status != []
    {
      id := postId;
      data := EditData(Some(title), Some(url), Some(status), Some(categories), Some(tags));
    }
  }

  /** Saving the row unchanged links the post to exactly the terms it had. */
  lemma SaveUnchangedKeepsTerms(cats: seq<QuickEditRow.TermRef>, tags: seq<QuickEditRow.TermRef>)
    requires forall i :: 0 <= i < |cats| ==> QuickEditRow.SEMICOLON !in cats[i].name && cats[i].id > 0
    requires forall i :: 0 <= i < |tags| ==> QuickEditRow.SEMICOLON !in tags[i].name && tags[i].id > 0
    requires forall i, j :: 0 <= i < j < |cats| ==> cats[i].id != cats[j].id
    requires forall i, j :: 0 <= i < j < |tags| ==> tags[i].id != tags[j].id
    ensures ParsedIds(InitialTermIds(QuickEditRow.GroupConcat(cats)) + InitialTermIds(QuickEditRow.GroupConcat(tags)))
            == QuickEditRow.Ids(cats) + QuickEditRow.Ids(tags)
  {
    InitialTermIdsRoundTrip(cats);
    InitialTermIdsRoundTrip(tags);
    var xs := QuickEditRow.IdTexts(cats) + QuickEditRow.IdTexts(tags);
    var ns := QuickEditRow.Ids(cats) + QuickEditRow.Ids(tags);
    assert forall i :: 0 <= i < |ns| ==> ns[i] > 0 && xs[i] == DecimalText(ns[i]) by {
      forall i | 0 <= i < |ns|
        ensures ns[i] > 0 && xs[i] == DecimalText(ns[i])
      {
        if i >= |cats| {
          assert xs[i] == QuickEditRow.IdTexts(tags)[i - |cats|];
          assert ns[i] == QuickEditRow.Ids(tags)[i - |cats|];
        }
      }
    }
    ParsedIdsOfDecimal(xs, ns);
  }

  // ---------------------------------------------------------------------
  // The list

  function PostIds(posts: seq<QuickEditRow.ListedPost>): seq<int> {
    seq(|posts|, i requires 0 <= i < |posts| => posts[i].id)
  }

  /** The state of `PostManagementClient`: the fetched posts, the selected
    * ids (a `Set`, kept as a duplicate-free list in insertion order), the row
    * being edited and whether the delete modal is shown. */
  class PostManagement {
    var posts: seq<QuickEditRow.ListedPost>
    var selected: seq<int>
    var editingPostId: Option<int>
    var modalShown: bool

    predicate Valid()
      reads this
    {
      NoDuplicates(selected)
    }

    constructor ()
      ensures posts == [] && selected == [] && editingPostId == None && !modalShown
      ensures Valid()
    {
      posts, selected, editingPostId, modalShown := [], [], None, false;
    }

    /** `handleSelectAll(e)`: every listed id once, in list order, or none. */
    method HandleSelectAll(checked: bool)
      modifies this
      ensures Valid()
      ensures selected == if checked then Dedupe(PostIds(posts)) else []
      ensures forall id :: id in selected <==> checked && id in PostIds(posts)
      ensures posts == old(posts) && editingPostId == old(editingPostId) && modalShown == old(modalShown)
    {
      selected := if checked then Dedupe(PostIds(posts)) else [];
    }

    /** `handleSelect(id)`: flips the membership of that id only. */
    method HandleSelect(id: int)
      requires Valid()
      modifies this
      ensures Valid()
      ensures selected == Toggle(old(selected), id)
      ensures (id in selected <==> id !in old(selected)) && forall x :: x != id ==> (x in selected <==> x in old(selected))
      ensures posts == old(posts) && editingPostId == old(editingPostId) && modalShown == old(modalShown)
    {
      ToggleFlips(selected, id);
      ToggleNoDuplicates(selected, id);
      selected := Toggle(selected, id);
    }

    /** `handleDelete(id)`: `deletePost(id)` and the modal closed; the list
      * itself changes only through the refetch. */
    method HandleDelete(db: Database, id: int, fault: Fault) returns (r: ActionResult)
      modifies this, db
      ensures r.Failure? <==> fault.FailAt? && fault.step < 2
      ensures db.Snapshot() == if r.Success? then ApplyAll(DeleteStatements([id]), old(db.Snapshot())) else old(db.Snapshot())
      ensures !modalShown
      ensures posts == old(posts) && selected == old(selected) && editingPostId == old(editingPostId)
    {
      r := DeletePost(db, id, fault);
      modalShown := false;
    }

    /** `handleBulkDelete()`: nothing for an empty selection or a declined
      * confirm (`None`); otherwise `bulkDeletePosts` of the selection, and
      * the selection emptied whatever the result. */
    method HandleBulkDelete(db: Database, confirmed: bool, fault: Fault) returns (r: Option<ActionResult>)
      modifies this, db
      ensures old(selected) == [] || !confirmed ==>
        r == None && selected == old(selected) && db.Snapshot() == old(db.Snapshot())
      ensures old(selected) != [] && confirmed ==>
        && r.Some? && selected == []
        && (r.value.Failure? <==> fault.FailAt? && fault.step < 2)
        && db.Snapshot() == if r.value.Success? then ApplyAll(DeleteStatements(old(selected)), old(db.Snapshot()))
                            else old(db.Snapshot())
      ensures posts == old(posts) && editingPostId == old(editingPostId) && modalShown == old(modalShown)
    {
      if selected == [] {
        return None;
      }
      if confirmed {
        var result, _ := BulkDeletePosts(db, Some(selected), fault);
        r := Some(result);
        selected := [];
      } else {
        r := None;
      }
    }

    /** `handleSaveQuickEdit(id, data)`: `quickEditPost(id, data)`, and the
      * row leaves edit mode whatever the result. */
    method HandleSaveQuickEdit(db: Database, id: int, data: EditData, fault: Fault) returns (r: ActionResult)
      modifies this, db
      ensures EditRejected(data) ==> r == Failure(EmptyFields) && db.Snapshot() == old(db.Snapshot())
      ensures !EditRejected(data) ==>
        && (r.Failure? <==> fault.FailAt? && fault.step < |EditStatements(id, data)|)
        && (r.Failure? ==> r.error == TransactionFailed)
        && db.Snapshot() == if r.Success? then ApplyAll(EditStatements(id, data), old(db.Snapshot())) else old(db.Snapshot())
      ensures editingPostId == None
      ensures posts == old(posts) && selected == old(selected) && modalShown == old(modalShown)
    {
      r := QuickEditPost(db, id, data, fault);
      editingPostId := None;
    }
  }
}
