/** The relational database behind the admin panel, seen only through the
  * effect of the statements the server actions send it.
  *
  * SQL text stays opaque: a statement is a datatype value naming what it
  * does, and a query whose placeholders matter is a sequence of pieces in
  * which every `?` is an explicit `Hole`.
  */
module Tables {
  import opened JsText

  datatype PostRow = PostRow(id: int, title: JsString, url: JsString, status: JsString)

  datatype TermRow = TermRow(id: int, name: JsString, url: JsString, taxonomy: JsString)

  /** A row of `post_term`: (object_id, term_taxonomy_id). */
  datatype Link = Link(objectId: int, termId: int)

  datatype CommentRow = CommentRow(id: int, status: JsString, content: JsString)

  /** A value bound to a `?` placeholder. */
  datatype SqlValue = Str(s: JsString) | Num(n: JsNumber)

  /** A piece of SQL text; `Hole` is one `?` placeholder. The keyword
    * `LEFT JOIN` is a piece of its own, so that text can be split at it. */
  datatype SqlPiece = Text(text: string) | Hole | LeftJoin

  type Sql = seq<SqlPiece>

  /** The LIKE pattern `%${text}%`: the text between two `%` wildcards. */
  function LikePattern(text: JsString): (r: JsString)
    ensures |r| == |text| + 2 && r[1..|r| - 1] == text
    ensures r[0] == Unit('%') && r[|r| - 1] == Unit('%')
  {
    Lit("%") + text + Lit("%")
  }

  /** The number of `?` placeholders in a query. */
  function Holes(q: Sql): nat {
    if q == [] then 0 else (if q[0] == Hole then 1 else 0) + Holes(q[1..])
  }

  lemma {:induction false} HolesAppend(a: Sql, b: Sql)
    ensures Holes(a + b) == Holes(a) + Holes(b)
  {
    if a == [] {
      assert a + b == b;
    } else {
      assert (a + b)[1..] == a[1..] + b;
      HolesAppend(a[1..], b);
    }
  }

  lemma {:induction false} HolesNone(q: Sql)
    requires Hole !in q
    ensures Holes(q) == 0
  {
    if q != [] {
      HolesNone(q[1..]);
    }
  }

  /** Text followed by one `?`. */
  lemma OneHoleClause(text: string)
    ensures Holes([Text(text), Hole]) == 1
  {
    assert [Text(text), Hole][1..] == [Hole];
    assert [Hole][1..] == [];
  }

  /** Text, one `?`, and text. */
  lemma HoleBetween(before: string, after: string)
    ensures Holes([Text(before), Hole, Text(after)]) == 1
  {
    OneHoleClause(before);
    HolesAppend([Text(before), Hole], [Text(after)]);
    HolesNone([Text(after)]);
    assert [Text(before), Hole] + [Text(after)] == [Text(before), Hole, Text(after)];
  }

  /** The state of every table the admin actions touch. */
  datatype Db = Db(posts: seq<PostRow>, terms: seq<TermRow>, postTerms: seq<Link>,
                   comments: seq<CommentRow>, nextTermId: int)

  /** One SQL statement, by its effect. */
  datatype Stmt =
    | DeleteLinksOfPosts(postIds: seq<int>)      // DELETE FROM post_term WHERE object_id IN (...)
    | DeletePosts(postIds: seq<int>)             // DELETE FROM posts WHERE id IN (...)
    | UpdatePost(id: int, title: JsString, url: JsString, status: JsString)
    | InsertLinks(links: seq<Link>)              // INSERT INTO post_term ... VALUES ?
    | DeleteLinksOfTerm(termId: int)             // DELETE FROM post_term WHERE term_taxonomy_id = ?
    | DeleteTerm(termId: int)                    // DELETE FROM terms WHERE id = ?
    | InsertTerm(name: JsString, url: JsString, taxonomy: JsString)
    | UpdateTerm(key: JsString, name: JsString, url: JsString)  // WHERE id = ? with a text id, read as MySQL reads a leading integer
    | DeleteLink(postId: int, termId: int)       // DELETE FROM post_term WHERE object_id = ? AND term_taxonomy_id = ?
    | SetCommentsStatus(ids: seq<int>, status: JsString)
    | SetCommentContent(commentId: int, content: JsString)
    | DeleteComments(ids: seq<int>)

  function KeepPosts(ps: seq<PostRow>, ids: seq<int>): (r: seq<PostRow>)
    ensures forall p :: p in r <==> p in ps && p.id !in ids
  {
    if ps == [] then [] else (if ps[0].id in ids then [] else [ps[0]]) + KeepPosts(ps[1..], ids)
  }

  function KeepLinks(ls: seq<Link>, drop: Link -> bool): (r: seq<Link>)
    ensures forall l :: l in r <==> l in ls && !drop(l)
  {
    if ls == [] then [] else (if drop(ls[0]) then [] else [ls[0]]) + KeepLinks(ls[1..], drop)
  }

  function KeepTerms(ts: seq<TermRow>, id: int): (r: seq<TermRow>)
    ensures forall t :: t in r <==> t in ts && t.id != id
  {
    if ts == [] then [] else (if ts[0].id == id then [] else [ts[0]]) + KeepTerms(ts[1..], id)
  }

  function KeepComments(cs: seq<CommentRow>, ids: seq<int>): (r: seq<CommentRow>)
    ensures forall c :: c in r <==> c in cs && c.id !in ids
  {
    if cs == [] then [] else (if cs[0].id in ids then [] else [cs[0]]) + KeepComments(cs[1..], ids)
  }

  /** The effect of one statement on the tables. */
  function Apply(s: Stmt, db: Db): Db {
    match s
    case DeleteLinksOfPosts(ids) =>
      db.(postTerms := KeepLinks(db.postTerms, (l: Link) => l.objectId in ids))
    case DeletePosts(ids) =>
      db.(posts := KeepPosts(db.posts, ids))
    case UpdatePost(id, title, url, status) =>
      db.(posts := seq(|db.posts|, i requires 0 <= i < |db.posts| =>
            if db.posts[i].id == id then PostRow(id, title, url, status) else db.posts[i]))
    case InsertLinks(links) =>
      db.(postTerms := db.postTerms + links)
    case DeleteLinksOfTerm(t) =>
      db.(postTerms := KeepLinks(db.postTerms, (l: Link) => l.termId == t))
    case DeleteTerm(t) =>
      db.(terms := KeepTerms(db.terms, t))
    case InsertTerm(name, url, taxonomy) =>
      db.(terms := db.terms + [TermRow(db.nextTermId, name, url, taxonomy)], nextTermId := db.nextTermId + 1)
    case UpdateTerm(key, name, url) =>
      db.(terms := seq(|db.terms|, i requires 0 <= i < |db.terms| =>
            if ParseInt(key) == Int(db.terms[i].id) then db.terms[i].(name := name, url := url) else db.terms[i]))
    case DeleteLink(p, t) =>
      db.(postTerms := KeepLinks(db.postTerms, (l: Link) => l == Link(p, t)))
    case SetCommentsStatus(ids, status) =>
      db.(comments := seq(|db.comments|, i requires 0 <= i < |db.comments| =>
            if db.comments[i].id in ids then db.comments[i].(status := status) else db.comments[i]))
    case SetCommentContent(id, content) =>
      db.(comments := seq(|db.comments|, i requires 0 <= i < |db.comments| =>
            if db.comments[i].id == id then db.comments[i].(content := content) else db.comments[i]))
    case DeleteComments(ids) =>
      db.(comments := KeepComments(db.comments, ids))
  }

  function ApplyAll(stmts: seq<Stmt>, db: Db): Db
    decreases |stmts|
  {
    if stmts == [] then db else ApplyAll(stmts[1..], Apply(stmts[0], db))
  }

  lemma {:induction false} ApplyAllSnoc(stmts: seq<Stmt>, s: Stmt, db: Db)
    ensures ApplyAll(stmts + [s], db) == Apply(s, ApplyAll(stmts, db))
    decreases |stmts|
  {
    if stmts != [] {
      assert (stmts + [s])[1..] == stmts[1..] + [s];
      ApplyAllSnoc(stmts[1..], s, Apply(stmts[0], db));
    }
  }

  /** Which statement of a request the database rejects, if any. */
  datatype Fault = NoFault | FailAt(step: nat)
  {
    predicate Hits(k: nat) {
      FailAt? && step == k
    }
  }

  /** The database connection the server actions share. */
  class Database {
    var posts: seq<PostRow>
    var terms: seq<TermRow>
    var postTerms: seq<Link>
    var comments: seq<CommentRow>
    var nextTermId: int

    function Snapshot(): Db
      reads this
    {
      Db(posts, terms, postTerms, comments, nextTermId)
    }

    constructor (db: Db)
      ensures Snapshot() == db
    {
      posts, terms, postTerms, comments, nextTermId := db.posts, db.terms, db.postTerms, db.comments, db.nextTermId;
    }

    method Restore(db: Db)
      modifies this
      ensures Snapshot() == db
    {
      posts, terms, postTerms, comments, nextTermId := db.posts, db.terms, db.postTerms, db.comments, db.nextTermId;
    }

    /** `await db.query(...)`: the statement takes effect, or the database
      * rejects it (`fails`) and nothing changes. */
    method Query(s: Stmt, fails: bool) returns (ok: bool)
      modifies this
      ensures ok == !fails
      ensures Snapshot() == if ok then Apply(s, old(Snapshot())) else old(Snapshot())
    {
      ok := !fails;
      if ok {
        Restore(Apply(s, Snapshot()));
      }
    }

    /** `runInTransaction(callback)` with a callback that runs `stmts` in order:
      * START TRANSACTION, the statements, COMMIT, and `undefined` as result;
      * when a statement throws, ROLLBACK restores the tables and the result
      * is the `{success: false}` error object. */
    method RunInTransaction(stmts: seq<Stmt>, fault: Fault) returns (failed: bool)
      modifies this
      ensures failed <==> fault.FailAt? && fault.step < |stmts|
      ensures Snapshot() == if failed then old(Snapshot()) else ApplyAll(stmts, old(Snapshot()))
    {
      var start := Snapshot();
      var i := 0;
      failed := false;
      while i < |stmts|
        invariant 0 <= i <= |stmts|
        invariant !(fault.FailAt? && fault.step < i)
        invariant Snapshot() == ApplyAll(stmts[..i], start)
      {
        var ok := Query(stmts[i], fault.Hits(i));
        if !ok {
          Restore(start);
          return true;
        }
        ApplyAllSnoc(stmts[..i], stmts[i], start);
        assert stmts[..i + 1] == stmts[..i] + [stmts[i]];
        i := i + 1;
      }
      assert stmts[..i] == stmts;
    }
  }
}
