/** The server actions of the comment moderation page
  * (src/app/admin/comments/commentActions.js): the listing of one status
  * tab, and the three guarded mutations.
  */
module CommentActions {
  import opened JsText
  import opened Tables

  /** The status tab a listing request is answered for. */
  function FinalStatus(status: Option<JsString>): (r: JsString)
    ensures r == Lit("approved") || r == Lit("pending") || r == Lit("spam")
    ensures (status.Some? && (status.value == Lit("approved") || status.value == Lit("pending") || status.value == Lit("spam")))
              ==> r == status.value
    ensures status.None? ==> r == Lit("spam")
  {
    if status.Some? && (status.value == Lit("approved") || status.value == Lit("pending") || status.value == Lit("spam"))
    then status.value
    else Lit("spam")
  }

  /** The UI's `publish` tab is not a valid status and is answered as `spam`. */
  lemma PublishTabIsSpam()
    ensures FinalStatus(Some(Lit("publish"))) == Lit("spam")
  {
    var p := Lit("publish");
    assert p[0] != Lit("approved")[0] && p[1] != Lit("pending")[1] && |p| != |Lit("spam")|;
  }

  const ONE_STATUS_QUERY: string :=
    "SELECT c.*, p.title as post_title, p.url as post_url FROM comments c LEFT JOIN posts p ON c.post_id = p.id WHERE c.status = "
  const TWO_STATUS_QUERY: string :=
    "SELECT c.*, p.title as post_title, p.url as post_url FROM comments c LEFT JOIN posts p ON c.post_id = p.id WHERE c.status IN ("
  const ORDER_NEWEST: string := " ORDER BY c.created_at DESC"

  /** The comments, in table order, whose status is one of `statuses`. */
  function WithStatus(cs: seq<CommentRow>, statuses: seq<JsString>): (r: seq<CommentRow>)
    ensures forall c :: c in r <==> c in cs && c.status in statuses
  {
    if cs == [] then []
    else (if cs[0].status in statuses then [cs[0]] else []) + WithStatus(cs[1..], statuses)
  }

  /** `fetchComments(status)`: the query and parameters it settles on, and the
    * rows it returns; `fails` is a database error, answered with `[]`. */
  method FetchComments(db: Db, status: Option<JsString>, fails: bool)
    returns (query: Sql, params: seq<JsString>, rows: seq<CommentRow>)
    ensures Holes(query) == |params|
    ensures FinalStatus(status) != Lit("spam") ==> params == [FinalStatus(status)]
    ensures FinalStatus(status) == Lit("spam") ==> params == [Lit("spam"), Lit("trash")]
    ensures fails ==> rows == []
    ensures !fails ==> forall c :: c in rows <==> c in db.comments && c.status in params
  {
    var finalStatus := FinalStatus(status);
    query := [Text(ONE_STATUS_QUERY), Hole, Text(ORDER_NEWEST)];
    params := [finalStatus];
    if finalStatus == Lit("spam") {
      query := [Text(TWO_STATUS_QUERY), Hole] + [Text(", "), Hole, Text(")" + ORDER_NEWEST)];
      params := [Lit("spam"), Lit("trash")];
      OneHoleClause(TWO_STATUS_QUERY);
      HoleBetween(", ", ")" + ORDER_NEWEST);
      HolesAppend([Text(TWO_STATUS_QUERY), Hole], [Text(", "), Hole, Text(")" + ORDER_NEWEST)]);
    } else {
      HoleBetween(ONE_STATUS_QUERY, ORDER_NEWEST);
    }
    if fails {
      return query, params, [];
    }
    rows := WithStatus(db.comments, params);
  }

  /** Why a mutation throws. */
  datatype Thrown = InvalidArguments | UpdateStatusFailed | UpdateContentFailed | DeleteFailed

  /** The completion of an action: normal, or an exception. */
  datatype Completion = Normal | Throws(error: Thrown)

  /** `!ids || ids.length === 0`. */
  predicate NoIds(ids: Option<seq<int>>) {
    ids.None? || ids.value == []
  }

  /** `updateCommentsStatus(ids, newStatus)`. */
  method UpdateCommentsStatus(db: Database, ids: Option<seq<int>>, newStatus: Option<JsString>, fails: bool)
    returns (r: Completion)
    modifies db
    ensures NoIds(ids) || Blank(newStatus) ==> r == Throws(InvalidArguments) && db.Snapshot() == old(db.Snapshot())
    ensures !(NoIds(ids) || Blank(newStatus)) ==>
      && (r == if fails then Throws(UpdateStatusFailed) else Normal)
      && db.Snapshot() == if fails then old(db.Snapshot()) else Apply(SetCommentsStatus(ids.value, newStatus.value), old(db.Snapshot()))
  {
    if NoIds(ids) || Blank(newStatus) {
      return Throws(InvalidArguments);
    }
    var ok := db.Query(SetCommentsStatus(ids.value, newStatus.value), fails);
    r := if ok then Normal else Throws(UpdateStatusFailed);
  }

  /** `!id` for a numeric id that may be missing: undefined and 0 are falsy. */
  predicate NoId(id: Option<int>) {
    id.None? || id.value == 0
  }

  /** `updateCommentContent(id, content)`. */
  method UpdateCommentContent(db: Database, id: Option<int>, content: Option<JsString>, fails: bool)
    returns (r: Completion)
    modifies db
    ensures NoId(id) || Blank(content) ==> r == Throws(InvalidArguments) && db.Snapshot() == old(db.Snapshot())
    ensures !(NoId(id) || Blank(content)) ==>
      && (r == if fails then Throws(UpdateContentFailed) else Normal)
      && db.Snapshot() == if fails then old(db.Snapshot()) else Apply(SetCommentContent(id.value, content.value), old(db.Snapshot()))
  {
    if NoId(id) || Blank(content) {
      return Throws(InvalidArguments);
    }
    var ok := db.Query(SetCommentContent(id.value, content.value), fails);
    r := if ok then Normal else Throws(UpdateContentFailed);
  }

  /** `deleteCommentsPermanently(ids)`. */
  method DeleteCommentsPermanently(db: Database, ids: Option<seq<int>>, fails: bool) returns (r: Completion)
    modifies db
    ensures NoIds(ids) ==> r == Throws(InvalidArguments) && db.Snapshot() == old(db.Snapshot())
    ensures !NoIds(ids) ==>
      && (r == if fails then Throws(DeleteFailed) else Normal)
      && db.Snapshot() == if fails then old(db.Snapshot()) else Apply(DeleteComments(ids.value), old(db.Snapshot()))
  {
    if NoIds(ids) {
      return Throws(InvalidArguments);
    }
    var ok := db.Query(DeleteComments(ids.value), fails);
    r := if ok then Normal else Throws(DeleteFailed);
  }

  /** After a status update, the tab of the new status lists the updated
    * comments and the ones that already had it; every other comment keeps
    * its status, and the table keeps its length. */
  lemma StatusUpdateMovesTab(db: Db, ids: seq<int>, status: JsString)
    ensures var after := Apply(SetCommentsStatus(ids, status), db).comments;
      && |after| == |db.comments|
      && (forall i :: 0 <= i < |after| ==> after[i].id == db.comments[i].id && after[i].content == db.comments[i].content)
      && (forall i :: 0 <= i < |after| ==>
            (after[i] in WithStatus(after, [status]) <==> db.comments[i].id in ids || db.comments[i].status == status))
  {
  }

  /** After a permanent delete, no listing shows a deleted comment. */
  lemma DeletedLeaveEveryTab(db: Db, ids: seq<int>, statuses: seq<JsString>)
    ensures forall c :: c in WithStatus(Apply(DeleteComments(ids), db).comments, statuses) ==> c.id !in ids && c in db.comments
  {
  }

  /** The status the panel's approve buttons write and its approved tab asks for, as written. */
  const APPROVE_AS_WRITTEN: JsString := Lit("publish")

  /** The status the comments table stores for an approved comment. */
  const APPROVED: JsString := Lit("approved")

  /** As written, approving writes `publish`, and the approved tab (keyed
    * `publish`) is answered with `spam` and `trash`: an approved comment
    * never shows on it. */
  lemma ApprovedHiddenAsWritten(db: Db, ids: seq<int>)
    ensures FinalStatus(Some(APPROVE_AS_WRITTEN)) == Lit("spam")
    ensures var after := Apply(SetCommentsStatus(ids, APPROVE_AS_WRITTEN), db).comments;
      forall c :: c in after && c.id in ids ==> c !in WithStatus(after, [Lit("spam"), Lit("trash")])
  {
    PublishTabIsSpam();
    var after := Apply(SetCommentsStatus(ids, APPROVE_AS_WRITTEN), db).comments;
    forall c | c in after && c.id in ids
      ensures c !in WithStatus(after, [Lit("spam"), Lit("trash")])
    {
      var i :| 0 <= i < |after| && after[i] == c;
      assert c.status == APPROVE_AS_WRITTEN;
      assert APPROVE_AS_WRITTEN[0] != Lit("spam")[0] && APPROVE_AS_WRITTEN[0] != Lit("trash")[0];
    }
  }

  /** With both keyed `approved`, the approved tab asks for exactly that
    * status and lists every comment just approved. */
  lemma ApprovedShown(db: Db, ids: seq<int>)
    ensures FinalStatus(Some(APPROVED)) == APPROVED
    ensures var after := Apply(SetCommentsStatus(ids, APPROVED), db).comments;
      forall c :: c in after && c.id in ids ==> c in WithStatus(after, [FinalStatus(Some(APPROVED))])
  {
    var after := Apply(SetCommentsStatus(ids, APPROVED), db).comments;
    forall c | c in after && c.id in ids
      ensures c in WithStatus(after, [APPROVED])
    {
      var i :| 0 <= i < |after| && after[i] == c;
      assert c.status == APPROVED;
    }
  }
}
