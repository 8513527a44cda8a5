/** The server-fed post list of the admin post page
  * (src/app/admin/posts/PostList.js): its local copy of the posts, the
  * selected ids, and the handlers that call the post server actions and
  * then patch the local list.
  */
module PostList {
  import opened JsText
  import opened Tables
  import opened Lists
  import opened PostActions
  import opened QuickEditRow

  function PostIds(posts: seq<ListedPost>): (r: seq<int>)
    ensures |r| == |posts| && forall i :: 0 <= i < |r| ==> r[i] == posts[i].id
  {
    seq(|posts|, i requires 0 <= i < |posts| => posts[i].id)
  }

  /** `posts.filter((p) => !ids.includes(p.id))`. */
  function WithoutIds(posts: seq<ListedPost>, ids: seq<int>): (r: seq<ListedPost>)
    ensures forall p :: p in r <==> p in posts && p.id !in ids
    ensures IsSubsequence(r, posts)
  {
    if posts == [] then []
    else
      var rest := WithoutIds(posts[1..], ids);
      var keep := posts[0].id !in ids;
      SubsequenceCons(rest, posts[1..], posts[0], keep);
      assert [posts[0]] + posts[1..] == posts;
      (if keep then [posts[0]] else []) + rest
  }

  /** `posts.map((p) => (p.id === id ? updated : p))`. */
  function ReplaceById(posts: seq<ListedPost>, id: int, updated: ListedPost): (r: seq<ListedPost>)
    ensures |r| == |posts|
    ensures forall i :: 0 <= i < |r| ==> r[i] == if posts[i].id == id then updated else posts[i]
  {
    seq(|posts|, i requires 0 <= i < |posts| => if posts[i].id == id then updated else posts[i])
  }

  /** A replacement keeps the length, the order and every other post. */
  lemma ReplaceKeepsOthers(posts: seq<ListedPost>, id: int, updated: ListedPost)
    requires updated.id == id
    ensures PostIds(ReplaceById(posts, id, updated)) == PostIds(posts)
    ensures forall p :: p in posts && p.id != id ==> p in ReplaceById(posts, id, updated)
    ensures forall p :: p in ReplaceById(posts, id, updated) ==> p == updated || (p in posts && p.id != id)
  {
    var r := ReplaceById(posts, id, updated);
    forall p | p in posts && p.id != id
      ensures p in r
    {
      var i :| 0 <= i < |posts| && posts[i] == p;
      assert r[i] == p;
    }
  }

  /** Whether a `deletePost` call fails, by the fault it meets. */
  predicate DeleteFails(f: Fault) {
    f.FailAt? && f.step < 2
  }

  /** The tables after `deletePost(ids[0])`, ..., `deletePost(ids[n-1])` in
    * turn, the i-th meeting `faultOf(i)`. */
  function DeleteEach(ids: seq<int>, faultOf: nat -> Fault, db: Db): Db
  {
    if ids == [] then db
    else
      var prev := DeleteEach(ids[..|ids| - 1], faultOf, db);
      if DeleteFails(faultOf(|ids| - 1)) then prev else ApplyAll(DeleteStatements([ids[|ids| - 1]]), prev)
  }

  /** After the deletes, a post is left iff it was there and every request
    * for its id failed; the terms and comments are untouched. */
  lemma {:induction false} DeleteEachRemoves(ids: seq<int>, faultOf: nat -> Fault, db: Db)
    ensures var after := DeleteEach(ids, faultOf, db);
      && (forall p :: p in after.posts <==>
            p in db.posts && forall i :: 0 <= i < |ids| && ids[i] == p.id ==> DeleteFails(faultOf(i)))
      && after.terms == db.terms && after.comments == db.comments
  {
    if ids != [] {
      var n := |ids| - 1;
      var prev := DeleteEach(ids[..n], faultOf, db);
      DeleteEachRemoves(ids[..n], faultOf, db);
      DeleteStatementsClear([ids[n]], prev);
      var after := DeleteEach(ids, faultOf, db);
      forall p
        ensures p in after.posts <==>
                p in db.posts && forall i :: 0 <= i < |ids| && ids[i] == p.id ==> DeleteFails(faultOf(i))
      {
        assert forall i :: 0 <= i < n ==> ids[..n][i] == ids[i];
      }
    }
  }

  /** The reply of `quickEditPost` as this list reads it. */
  datatype QuickEditReply = QuickEditReply(success: bool, updatedPost: Option<ListedPost>)

  /** The state of `PostList`. */
  class PostListState {
    var posts: seq<ListedPost>
    var selected: seq<int>
    var editingPostId: Option<int>
    var showDeleteModal: bool
    var postToDelete: Option<ListedPost>

    constructor (initialPosts: seq<ListedPost>)
      ensures posts == initialPosts && selected == [] && editingPostId == None
      ensures !showDeleteModal && postToDelete == None
    {
      posts, selected, editingPostId := initialPosts, [], None;
      showDeleteModal, postToDelete := false, None;
    }

    /** The effect on new `initialPosts`: the list is replaced and the edit
      * and the selection are cleared. */
    method ResetFromProps(initialPosts: seq<ListedPost>)
      modifies this
      ensures posts == initialPosts && editingPostId == None && selected == []
      ensures showDeleteModal == old(showDeleteModal) && postToDelete == old(postToDelete)
    {
      posts := initialPosts;
      editingPostId := None;
      selected := [];
    }

    /** `handleSelectAll(e)`: all ids in list order, or none. */
    method HandleSelectAll(checked: bool)
      modifies this
      ensures selected == if checked then PostIds(posts) else []
      ensures forall id :: id in selected <==> checked && exists p :: p in posts && p.id == id
      ensures posts == old(posts) && editingPostId == old(editingPostId)
      ensures showDeleteModal == old(showDeleteModal) && postToDelete == old(postToDelete)
    {
      selected := if checked then PostIds(posts) else [];
      assert forall p :: p in posts ==> p.id in PostIds(posts) by {
        forall p | p in posts ensures p.id in PostIds(posts) {
          var i :| 0 <= i < |posts| && posts[i] == p;
          assert PostIds(posts)[i] == p.id;
        }
      }
    }

    /** `handleSelect(id)`: removes every occurrence of a present id or
      * appends an absent one. */
    method HandleSelect(id: int)
      modifies this
      ensures selected == Toggle(old(selected), id)
      ensures (id in selected <==> id !in old(selected)) && forall x :: x != id ==> (x in selected <==> x in old(selected))
      ensures NoDuplicates(old(selected)) ==> NoDuplicates(selected)
      ensures posts == old(posts) && editingPostId == old(editingPostId)
      ensures showDeleteModal == old(showDeleteModal) && postToDelete == old(postToDelete)
    {
      ToggleFlips(selected, id);
      if NoDuplicates(selected) {
        ToggleNoDuplicates(selected, id);
      }
      selected := Toggle(selected, id);
    }

    /** `openDeleteModal(post)`. */
    method OpenDeleteModal(post: ListedPost)
      modifies this
      ensures showDeleteModal && postToDelete == Some(post)
      ensures posts == old(posts) && selected == old(selected) && editingPostId == old(editingPostId)
    {
      postToDelete := Some(post);
      showDeleteModal := true;
    }

    /** `handleDelete(id)`: on success the id leaves both the list and the
      * selection, keeping their order; on failure both stay; the modal
      * closes either way. */
    method HandleDelete(db: Database, id: int, fault: Fault) returns (r: ActionResult)
      modifies this, db
      ensures r.Failure? <==> DeleteFails(fault)
      ensures db.Snapshot() == if r.Success? then ApplyAll(DeleteStatements([id]), old(db.Snapshot())) else old(db.Snapshot())
      ensures r.Success? ==> posts == WithoutIds(old(posts), [id]) && selected == Remove(old(selected), id)
      ensures r.Failure? ==> posts == old(posts) && selected == old(selected)
      ensures !showDeleteModal
      ensures editingPostId == old(editingPostId) && postToDelete == old(postToDelete)
    {
      r := DeletePost(db, id, fault);
      if r.Success? {
        posts := WithoutIds(posts, [id]);
        selected := Remove(selected, id);
      }
      showDeleteModal := false;
    }

    /** `handleBulkDelete()`: after the confirm, one `deletePost` per selected
      * id in turn, whatever each returns; then every selected post leaves
      * the list and the selection is emptied. */
    method HandleBulkDelete(db: Database, confirmed: bool, faultOf: nat -> Fault)
      modifies this, db
      ensures !confirmed ==> posts == old(posts) && selected == old(selected) && db.Snapshot() == old(db.Snapshot())
      ensures confirmed ==>
        && db.Snapshot() == DeleteEach(old(selected), faultOf, old(db.Snapshot()))
        && posts == WithoutIds(old(posts), old(selected))
        && selected == []
      ensures editingPostId == old(editingPostId) && showDeleteModal == old(showDeleteModal)
      ensures postToDelete == old(postToDelete)
    {
      if !confirmed {
        return;
      }
      var ids := selected;
      ghost var start := db.Snapshot();
      for i := 0 to |ids|
        invariant db.Snapshot() == DeleteEach(ids[..i], faultOf, start)
        invariant posts == old(posts) && selected == ids
        invariant editingPostId == old(editingPostId) && showDeleteModal == old(showDeleteModal)
        invariant postToDelete == old(postToDelete)
      {
        assert ids[..i + 1][..i] == ids[..i];
        var _ := DeletePost(db, ids[i], faultOf(i));
      }
      assert ids[..|ids|] == ids;
      posts := WithoutIds(posts, ids);
      selected := [];
    }

    /** The reply handler of `handleSaveQuickEdit`: only a successful reply
      * carrying `updatedPost` patches the list and leaves edit mode. */
    method ApplyQuickEditReply(reply: QuickEditReply, id: int)
      modifies this
      ensures reply.success && reply.updatedPost.Some? ==>
        posts == ReplaceById(old(posts), id, reply.updatedPost.value) && editingPostId == None
      ensures !(reply.success && reply.updatedPost.Some?) ==>
        posts == old(posts) && editingPostId == old(editingPostId)
      ensures selected == old(selected) && showDeleteModal == old(showDeleteModal) && postToDelete == old(postToDelete)
    {
      if reply.success && reply.updatedPost.Some? {
        posts := ReplaceById(posts, id, reply.updatedPost.value);
        editingPostId := None;
      }
    }

    /** `handleSaveQuickEdit(id, data)`: `quickEditPost` never returns an
      * `updatedPost`, so even a successful save leaves the list as it was
      * and the row in edit mode. */
    method HandleSaveQuickEdit(db: Database, id: int, data: EditData, fault: Fault) returns (r: ActionResult)
      modifies this, db
      ensures EditRejected(data) ==> r == Failure(EmptyFields) && db.Snapshot() == old(db.Snapshot())
      ensures !EditRejected(data) ==>
        && (r.Failure? <==> fault.FailAt? && fault.step < |EditStatements(id, data)|)
        && (r.Failure? ==> r.error == TransactionFailed)
        && db.Snapshot() == if r.Success? then ApplyAll(EditStatements(id, data), old(db.Snapshot())) else old(db.Snapshot())
      ensures posts == old(posts) && editingPostId == old(editingPostId)
      ensures selected == old(selected) && showDeleteModal == old(showDeleteModal) && postToDelete == old(postToDelete)
    {
      r := QuickEditPost(db, id, data, fault);
      ApplyQuickEditReply(QuickEditReply(r.Success?, None), id);
    }
  }

  /** The local list of a bulk delete drops every selected post even where
    * its delete failed and the post is still in the tables. */
  lemma BulkDeleteHidesFailures(posts: seq<ListedPost>, ids: seq<int>, faultOf: nat -> Fault, db: Db, p: PostRow)
    requires p in db.posts && p.id in ids
    requires forall i :: 0 <= i < |ids| && ids[i] == p.id ==> DeleteFails(faultOf(i))
    ensures p in DeleteEach(ids, faultOf, db).posts
    ensures forall q :: q in WithoutIds(posts, ids) ==> q.id != p.id
  {
    DeleteEachRemoves(ids, faultOf, db);
  }
}
