/** The comment migration script (scripts/comments.js): the extraction query
  * keeps the WordPress comments of type `comment` and maps their approval
  * flag onto the four statuses of the new table; each extracted comment is
  * renamed field by field into a row of `comments` and inserted, counting
  * and logging the inserts that throw.
  *
  * The WordPress rows are an input; the new table is an object whose rows
  * the loop appends to. Which inserts throw is a parameter.
  */
module MigrateComments {
  import opened JsText

  const APPROVED: JsString := Lit("approved")
  const PENDING: JsString := Lit("pending")
  const SPAM: JsString := Lit("spam")
  const TRASH: JsString := Lit("trash")

  /** The values of `ENUM('approved', 'pending', 'spam', 'trash')`. */
  predicate IsCommentStatus(s: JsString) {
    s == APPROVED || s == PENDING || s == SPAM || s == TRASH
  }

  lemma StatusesDistinct()
    ensures APPROVED != PENDING && APPROVED != SPAM && APPROVED != TRASH
    ensures PENDING != SPAM && PENDING != TRASH && SPAM != TRASH
  {
    assert APPROVED[0] != PENDING[0] && APPROVED[0] != SPAM[0] && APPROVED[0] != TRASH[0];
    assert PENDING[0] != SPAM[0] && PENDING[0] != TRASH[0] && SPAM[0] != TRASH[0];
  }

  /** The `CASE` on `comment_approved`: `'1'` is approved, `'0'` pending,
    * `'trash'` trash, and every other flag (`spam`, `post-trashed`, ...)
    * spam. */
  function StatusOf(approved: JsString): (r: JsString)
    ensures IsCommentStatus(r)
    ensures r == APPROVED <==> approved == Lit("1")
    ensures r == PENDING <==> approved == Lit("0")
    ensures r == TRASH <==> approved == TRASH
    ensures r == SPAM <==> approved != Lit("1") && approved != Lit("0") && approved != TRASH
  {
    StatusesDistinct();
    assert Lit("1") != Lit("0") && Lit("1") != TRASH && Lit("0") != TRASH by {
      assert Lit("1")[0] != Lit("0")[0] && |Lit("1")| != |TRASH|;
    }
    if approved == Lit("1") then APPROVED
    else if approved == Lit("0") then PENDING
    else if approved == TRASH then TRASH
    else SPAM
  }

  /** A row of the WordPress comments table, with the columns the script reads. */
  datatype WpComment = WpComment(postId: int, author: JsString, authorEmail: JsString, authorUrl: JsString,
                                 authorIp: JsString, dateGmt: JsString, content: JsString,
                                 approved: JsString, commentType: JsString, parent: int, agent: JsString)

  /** A row of the extraction query: the comment's columns with the mapped status. */
  datatype ExtractedComment = ExtractedComment(commentPostId: int, commentAuthor: JsString,
                                               commentAuthorEmail: JsString, commentAuthorUrl: JsString,
                                               commentAuthorIp: JsString, commentDateGmt: JsString,
                                               commentContent: JsString, status: JsString,
                                               commentParent: int, commentAgent: JsString)

  /** `newCommentData`: a row of the new `comments` table. */
  datatype CommentRecord = CommentRecord(postId: int, parentId: int, authorName: JsString,
                                         authorEmail: JsString, authorUrl: JsString, authorIp: JsString,
                                         createdAt: JsString, content: JsString, status: JsString,
                                         userAgent: JsString)

  const COMMENT: JsString := Lit("comment")

  /** The extraction query: the rows of type `comment`, in order, each with
    * its status mapped. */
  function Extract(rows: seq<WpComment>): (r: seq<ExtractedComment>)
    ensures |r| <= |rows|
    ensures forall i :: 0 <= i < |r| ==> IsCommentStatus(r[i].status)
    ensures (forall i :: 0 <= i < |rows| ==> rows[i].commentType != COMMENT) ==> r == []
  {
    if rows == [] then []
    else
      var w := rows[0];
      (if w.commentType == COMMENT
       then [ExtractedComment(w.postId, w.author, w.authorEmail, w.authorUrl, w.authorIp, w.dateGmt,
                              w.content, StatusOf(w.approved), w.parent, w.agent)]
       else [])
      + Extract(rows[1..])
  }

  /** The record built for one extracted comment. */
  function NewCommentData(c: ExtractedComment): CommentRecord {
    CommentRecord(c.commentPostId, c.commentParent, c.commentAuthor, c.commentAuthorEmail,
                  c.commentAuthorUrl, c.commentAuthorIp, c.commentDateGmt, c.commentContent,
                  c.status, c.commentAgent)
  }

  /** The extracted comment a record was built from, field by field. */
  function ExtractedOf(r: CommentRecord): ExtractedComment {
    ExtractedComment(r.postId, r.authorName, r.authorEmail, r.authorUrl, r.authorIp, r.createdAt,
                     r.content, r.status, r.parentId, r.userAgent)
  }

  /** The renaming loses nothing and adds nothing: it is a bijection
    * between extracted comments and records. */
  lemma RecordRoundTrip(c: ExtractedComment, r: CommentRecord)
    ensures ExtractedOf(NewCommentData(c)) == c
    ensures NewCommentData(ExtractedOf(r)) == r
  {
  }

  /** The records of the comments whose insert does not throw, in order. */
  function Inserted(comments: seq<ExtractedComment>, fails: nat -> bool): (r: seq<CommentRecord>)
    ensures |r| <= |comments|
  {
    if comments == [] then []
    else
      var n := |comments| - 1;
      Inserted(comments[..n], fails) + (if fails(n) then [] else [NewCommentData(comments[n])])
  }

  /** The post ids of the comments whose insert throws, in order. */
  function FailedPostIds(comments: seq<ExtractedComment>, fails: nat -> bool): (r: seq<int>)
    ensures |r| + |Inserted(comments, fails)| == |comments|
  {
    if comments == [] then []
    else
      var n := |comments| - 1;
      FailedPostIds(comments[..n], fails) + (if fails(n) then [comments[n].commentPostId] else [])
  }

  /** One more comment is one more insert of the loop. */
  lemma InsertStep(comments: seq<ExtractedComment>, fails: nat -> bool, i: nat)
    requires i < |comments|
    ensures Inserted(comments[..i + 1], fails) ==
      Inserted(comments[..i], fails) + (if fails(i) then [] else [NewCommentData(comments[i])])
    ensures FailedPostIds(comments[..i + 1], fails) ==
      FailedPostIds(comments[..i], fails) + (if fails(i) then [comments[i].commentPostId] else [])
  {
    assert comments[..i + 1][..i] == comments[..i];
  }

  /** With no failing insert every comment is stored, in order. */
  lemma {:induction false} InsertedAll(comments: seq<ExtractedComment>, fails: nat -> bool)
    requires forall i :: 0 <= i < |comments| ==> !fails(i)
    ensures Inserted(comments, fails) == seq(|comments|, i requires 0 <= i < |comments| => NewCommentData(comments[i]))
    ensures FailedPostIds(comments, fails) == []
  {
    if comments != [] {
      var n := |comments| - 1;
      var init := comments[..n];
      InsertedAll(init, fails);
      var all := seq(|comments|, i requires 0 <= i < |comments| => NewCommentData(comments[i]));
      assert all == seq(n, i requires 0 <= i < n => NewCommentData(init[i])) + [NewCommentData(comments[n])];
    }
  }

  /** Every stored record carries one of the four statuses, whichever rows
    * were extracted. */
  lemma {:induction false} InsertedStatusesValid(comments: seq<ExtractedComment>, fails: nat -> bool)
    requires forall i :: 0 <= i < |comments| ==> IsCommentStatus(comments[i].status)
    ensures forall r :: r in Inserted(comments, fails) ==> IsCommentStatus(r.status)
  {
    if comments != [] {
      var n := |comments| - 1;
      InsertedStatusesValid(comments[..n], fails);
    }
  }

  /** The new `comments` table. */
  class CommentsTable {
    var rows: seq<CommentRecord>

    constructor (rows0: seq<CommentRecord>)
      ensures rows == rows0
    {
      rows := rows0;
    }

    /** `transferCommentsData(db)` for the extracted `comments`: an empty
      * extraction returns at once; otherwise one insert per comment, each
      * counted as a success or an error, and every error logged with the
      * comment's post id. */
    method TransferCommentsData(comments: seq<ExtractedComment>, fails: nat -> bool)
      returns (successCount: nat, errorCount: nat, logged: seq<int>)
      modifies this
      ensures comments == [] ==> rows == old(rows) && successCount == 0 && errorCount == 0 && logged == []
      ensures rows == old(rows) + Inserted(comments, fails)
      ensures logged == FailedPostIds(comments, fails)
      ensures successCount == |Inserted(comments, fails)| && errorCount == |logged|
      ensures successCount + errorCount == |comments|
    {
      successCount, errorCount, logged := 0, 0, [];
      if |comments| == 0 {
        return;
      }
      ghost var start := rows;
      for i := 0 to |comments|
        invariant rows == start + Inserted(comments[..i], fails)
        invariant logged == FailedPostIds(comments[..i], fails)
        invariant successCount == |Inserted(comments[..i], fails)| && errorCount == |logged|
      {
        InsertStep(comments, fails, i);
        if fails(i) {
          errorCount := errorCount + 1;
          logged := logged + [comments[i].commentPostId];
        } else {
          rows := rows + [NewCommentData(comments[i])];
          successCount := successCount + 1;
        }
      }
      assert comments[..|comments|] == comments;
    }
  }

  /** `migrateComments()` end to end: the rows stored are the records of the
    * extracted comments whose insert does not throw, each with a valid status. */
  method MigrateComments(table: CommentsTable, source: seq<WpComment>, fails: nat -> bool)
    returns (successCount: nat, errorCount: nat)
    modifies table
    ensures successCount + errorCount == |Extract(source)| <= |source|
    ensures table.rows == old(table.rows) + Inserted(Extract(source), fails)
    ensures forall r :: r in Inserted(Extract(source), fails) ==> IsCommentStatus(r.status)
  {
    var comments := Extract(source);
    InsertedStatusesValid(comments, fails);
    var logged;
    successCount, errorCount, logged := table.TransferCommentsData(comments, fails);
  }
}
