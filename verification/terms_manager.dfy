/** The term administration screen (src/app/admin/terms/terms-manager.js):
  * the sidebar's term filter, the add form, and the editor of one term's
  * posts with its debounced post search.
  */
module TermsManager {
  import opened JsText
  import opened Tables
  import opened Lists
  import opened TermActions

  // ---------------------------------------------------------------------
  // The sidebar

  /** The first filter: `all`, or one taxonomy. */
  function ByTaxonomy(terms: seq<TermRow>, filter: JsString): seq<TermRow> {
    Keep(terms, (t: TermRow) => filter == Lit("all") || t.taxonomy == filter)
  }

  /** The second filter: the lower-cased name contains the lower-cased
    * search text; `lower` stands for `toLowerCase`. */
  function ByName(terms: seq<TermRow>, search: JsString, lower: JsString -> JsString): seq<TermRow> {
    Keep(terms, (t: TermRow) => Includes(lower(t.name), lower(search)))
  }

  /** `filteredTerms`. */
  function FilteredTerms(allTerms: seq<TermRow>, filter: JsString, search: JsString,
                         lower: JsString -> JsString): (r: seq<TermRow>)
    ensures forall t :: t in r ==> t in allTerms && Includes(lower(t.name), lower(search))
  {
    ByName(ByTaxonomy(allTerms, filter), search, lower)
  }

  /** A term is listed iff its taxonomy passes (`all` passes every one) and
    * its name matches; the list is in the order of `allTerms`. */
  lemma FilteredTermsSpec(allTerms: seq<TermRow>, filter: JsString, search: JsString, lower: JsString -> JsString)
    ensures forall t :: t in FilteredTerms(allTerms, filter, search, lower) <==>
      t in allTerms && (filter == Lit("all") || t.taxonomy == filter) && Includes(lower(t.name), lower(search))
    ensures IsSubsequence(FilteredTerms(allTerms, filter, search, lower), allTerms)
  {
    var a := ByTaxonomy(allTerms, filter);
    SubsequenceTransitive(FilteredTerms(allTerms, filter, search, lower), a, allTerms);
  }

  /** `IsSubsequence` composes. */
  lemma {:induction false} SubsequenceTransitive<T>(a: seq<T>, b: seq<T>, c: seq<T>)
    requires IsSubsequence(a, b) && IsSubsequence(b, c)
    ensures IsSubsequence(a, c)
    decreases |c|
  {
    if a != [] {
      assert b != [] && c != [];
      if b[0] == c[0] && IsSubsequence(b[1..], c[1..]) {
        if a[0] == b[0] && IsSubsequence(a[1..], b[1..]) {
          SubsequenceTransitive(a[1..], b[1..], c[1..]);
        } else {
          SubsequenceTransitive(a, b[1..], c[1..]);
        }
      } else {
        SubsequenceTransitive(a, b, c[1..]);
      }
    }
  }

  /** With the filter at `all` and an empty search every term is listed, in
    * order (the lower case of `""` being `""`). */
  lemma AllAndEmptySearchKeepsAll(allTerms: seq<TermRow>, lower: JsString -> JsString)
    requires lower([]) == []
    ensures FilteredTerms(allTerms, Lit("all"), [], lower) == allTerms
  {
    KeepAll(allTerms, (t: TermRow) => Lit("all") == Lit("all") || t.taxonomy == Lit("all"));
    forall t | t in allTerms
      ensures Includes(lower(t.name), [])
    {
      IncludesEmpty(lower(t.name));
    }
    KeepAll(allTerms, (t: TermRow) => Includes(lower(t.name), lower([])));
  }

  // ---------------------------------------------------------------------
  // The add form

  /** What `handleAction` reads from the reply of `createTerm`: the failure
    * it shows (`{success: false, message}`), or `None`. After `redirect`,
    * the reply is decided by the framework and comes in as `afterRedirect`. */
  function ClientReply(o: Outcome, afterRedirect: Option<Failure>): (r: Option<Failure>)
    ensures o.Fail? ==> r == Some(o.reason)
  {
    match o
    case Fail(reason) => Some(reason)
    case Redirect(_) => afterRedirect
    case Done => None
  }

  /** The inputs and the error line of `AddTermForm`. */
  class AddTermForm {
    var name: JsString
    var taxonomy: JsString
    var error: Option<Failure>

    constructor ()
      ensures name == [] && taxonomy == Lit("category") && error == None
    {
      name, taxonomy, error := [], Lit("category"), None;
    }

    /** `handleAction(formData)`: `createTerm` of the inputs; a failure is
      * shown and keeps the inputs, anything else resets the form. */
    method HandleAction(db: Database, fault: Fault, afterRedirect: Option<Failure>) returns (o: Outcome)
      modifies this, db
      ensures error == ClientReply(o, afterRedirect)
      ensures error.Some? ==> name == old(name) && taxonomy == old(taxonomy)
      ensures error.None? ==> name == [] && taxonomy == Lit("category")
      ensures old(name) == [] ==> o == Fail(MissingFields) && db.Snapshot() == old(db.Snapshot())
      ensures o.Redirect? ==> db.Snapshot() == Apply(InsertTerm(old(name), CreateUrl(old(name)), old(taxonomy)), old(db.Snapshot()))
      ensures !o.Redirect? ==> db.Snapshot() == old(db.Snapshot())
    {
      error := None;
      o := CreateTerm(db, Some(name), Some(taxonomy), fault);
      error := ClientReply(o, afterRedirect);
      if error.None? {
        name, taxonomy := [], Lit("category");
      }
    }
  }

  // ---------------------------------------------------------------------
  // The term editor

  /** `searchResults.find((p) => p.id === postId)`. */
  function FindById(hits: seq<PostHit>, id: int): (r: Option<PostHit>)
    ensures r.None? <==> forall h :: h in hits ==> h.id != id
    ensures r.Some? ==> r.value in hits && r.value.id == id
  {
    if hits == [] then None
    else if hits[0].id == id then Some(hits[0])
    else FindById(hits[1..], id)
  }

  /** `hits.filter((p) => p.id !== id)`. */
  function DropId(hits: seq<PostHit>, id: int): (r: seq<PostHit>)
    ensures forall h :: h in r <==> h in hits && h.id != id
    ensures IsSubsequence(r, hits)
  {
    Keep(hits, (h: PostHit) => h.id != id)
  }

  /** `TermsManager`'s state: the term's posts, the search results, the
    * error line, and the term being edited. */
  class TermsManager {
    var posts: seq<PostHit>
    var searchResults: seq<PostHit>
    var error: Option<Failure>
    const selectedTermId: Option<int>

    constructor (initialPosts: seq<PostHit>, selectedTermId: Option<int>)
      ensures posts == initialPosts && searchResults == [] && error == None
      ensures this.selectedTermId == selectedTermId
    {
      posts, searchResults, error := initialPosts, [], None;
      this.selectedTermId := selectedTermId;
    }

    /** The effect on new `initialPosts`. */
    method ResetPosts(initialPosts: seq<PostHit>)
      modifies this
      ensures posts == initialPosts && searchResults == old(searchResults) && error == old(error)
    {
      posts := initialPosts;
    }

    /** `debouncedSearch(query, termId)`: a query longer than two code units
      * is sent to `searchPosts`; a shorter one clears the results. */
    method DebouncedSearch(db: Db, query: JsString, termId: int, like: (JsString, JsString) -> bool, fails: bool)
      modifies this
      ensures |query| > 2 ==> searchResults == SearchPosts(db, Some(query), termId, like, fails)
      ensures |query| <= 2 ==> searchResults == []
      ensures forall h :: h in searchResults ==> Link(h.id, termId) !in db.postTerms
      ensures posts == old(posts) && error == old(error)
    {
      if |query| > 2 {
        searchResults := SearchPosts(db, Some(query), termId, like, fails);
      } else {
        searchResults := [];
      }
    }

    /** `handleAddPost(postId)`: after a successful `addPostToTerm`, the post
      * moves from the search results to the end of the list; a post that is
      * not among the results changes nothing locally. */
    method HandleAddPost(db: Database, postId: int, fails: bool) returns (success: bool)
      requires selectedTermId.Some?
      modifies this, db
      ensures success == !fails
      ensures db.Snapshot() == if success then Apply(InsertLinks([Link(postId, selectedTermId.value)]), old(db.Snapshot()))
                               else old(db.Snapshot())
      ensures success && FindById(old(searchResults), postId).Some? ==>
        && posts == old(posts) + [FindById(old(searchResults), postId).value]
        && searchResults == DropId(old(searchResults), postId)
      ensures !(success && FindById(old(searchResults), postId).Some?) ==>
        posts == old(posts) && searchResults == old(searchResults)
      ensures error == old(error)
    {
      success := AddPostToTerm(db, selectedTermId.value, postId, fails);
      if success {
        var addedPost := FindById(searchResults, postId);
        if addedPost.Some? {
          posts := posts + [addedPost.value];
          searchResults := DropId(searchResults, postId);
        }
      }
    }

    /** `handleRemovePost(postId)`: a successful `removePostFromTerm` drops
      * that id from the list; a failure keeps it. */
    method HandleRemovePost(db: Database, postId: int, fails: bool) returns (success: bool)
      requires selectedTermId.Some?
      modifies this, db
      ensures success == !fails
      ensures db.Snapshot() == if success then Apply(DeleteLink(postId, selectedTermId.value), old(db.Snapshot()))
                               else old(db.Snapshot())
      ensures posts == if success then DropId(old(posts), postId) else old(posts)
      ensures searchResults == old(searchResults) && error == old(error)
    {
      success := RemovePostFromTerm(db, selectedTermId.value, postId, fails);
      if success {
        posts := DropId(posts, postId);
      }
    }

    /** `handleUpdate(formData)`: `updateTerm`, and its failure on the error line. */
    method HandleUpdate(db: Database, id: Option<JsString>, name: Option<JsString>, url: Option<JsString>, fault: Fault)
      returns (o: Outcome)
      modifies this, db
      ensures error == if o.Fail? then Some(o.reason) else None
      ensures o == Done <==> !(Blank(id) || Blank(name) || Blank(url)) && !fault.Hits(0)
      ensures o == Done ==>
        && !(Blank(id) || Blank(name) || Blank(url))
        && db.Snapshot() == Apply(Stmt.UpdateTerm(id.value, name.value, url.value), old(db.Snapshot()))
      ensures o != Done ==> db.Snapshot() == old(db.Snapshot())
      ensures posts == old(posts) && searchResults == old(searchResults)
    {
      error := None;
      o := TermActions.UpdateTerm(db, id, name, url, fault);
      if o.Fail? {
        error := Some(o.reason);
      }
    }

    /** `handleDelete()`: after the confirm, `deleteTerm` of the selected term. */
    method HandleDelete(db: Database, confirmed: bool, fault: Fault) returns (o: Option<Outcome>)
      requires selectedTermId.Some?
      modifies db
      ensures !confirmed ==> o == None && db.Snapshot() == old(db.Snapshot())
      ensures confirmed ==> o.Some? && (o.value.Redirect? <==> selectedTermId.value != 0 && !fault.Hits(0) && !fault.Hits(1))
      ensures confirmed && o.value.Redirect? ==>
        db.Snapshot() == Apply(Stmt.DeleteTerm(selectedTermId.value), Apply(DeleteLinksOfTerm(selectedTermId.value), old(db.Snapshot())))
      ensures confirmed && !o.value.Redirect? ==>
        db.Snapshot() == if selectedTermId.value != 0 && !fault.Hits(0) && fault.Hits(1)
                         then Apply(DeleteLinksOfTerm(selectedTermId.value), old(db.Snapshot()))
                         else old(db.Snapshot())
    {
      if !confirmed {
        return None;
      }
      var r := TermActions.DeleteTerm(db, Int(selectedTermId.value), fault);
      o := Some(r);
    }
  }

  /** Adding a found post and removing it again gives back the list it
    * started from. */
  lemma AddThenRemoveRestoresPosts(posts: seq<PostHit>, hit: PostHit)
    requires forall h :: h in posts ==> h.id != hit.id
    ensures DropId(posts + [hit], hit.id) == posts
  {
    DropIdAbsent(posts, hit.id);
    DropIdAppend(posts, hit);
  }

  /** Dropping an id that is absent changes nothing. */
  lemma DropIdAbsent(hits: seq<PostHit>, id: int)
    requires forall h :: h in hits ==> h.id != id
    ensures DropId(hits, id) == hits
  {
    KeepAll(hits, (h: PostHit) => h.id != id);
  }

  /** Dropping the id of the appended hit removes just that hit. */
  lemma {:induction false} DropIdAppend(hits: seq<PostHit>, hit: PostHit)
    ensures DropId(hits + [hit], hit.id) == DropId(hits, hit.id)
  {
    if hits == [] {
      assert [] + [hit] == [hit];
      assert [hit][1..] == [];
    } else {
      assert (hits + [hit])[1..] == hits[1..] + [hit];
      DropIdAppend(hits[1..], hit);
    }
  }
}
