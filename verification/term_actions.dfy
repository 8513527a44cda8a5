/** The server actions of the term manager (src/app/admin/terms/actions.js):
  * the slug generator `createUrl`, and the guard-then-query actions on the
  * `terms` and `post_term` tables.
  */
module TermActions {
  import opened JsText
  import opened Tables

  const DASH: CodeUnit := 0x2D

  predicate IsAsciiAlnum(c: CodeUnit) {
    IsDigit(c) || (0x41 <= c <= 0x5A) || (0x61 <= c <= 0x7A)
  }

  /** The Arabic block U+0600–U+06FF, which holds the Persian letters. */
  predicate IsArabicBlock(c: CodeUnit) {
    0x0600 <= c <= 0x06FF
  }

  /** The code units the class `[a-zA-Z0-9؀-ۿ\s-]` matches. */
  predicate KeptByFilter(c: CodeUnit) {
    IsAsciiAlnum(c) || IsArabicBlock(c) || IsSpace(c) || c == DASH
  }

  /** The code units a slug is made of. */
  predicate IsSlugChar(c: CodeUnit) {
    IsAsciiAlnum(c) || IsArabicBlock(c) || c == DASH
  }

  /** `s.substring(0, n)`. */
  function Prefix(s: JsString, n: nat): (r: JsString)
    ensures |r| <= n && |r| <= |s|
    ensures r == s[..|r|]
    ensures |s| <= n ==> r == s
  {
    if |s| <= n then s else s[..n]
  }

  /** `s.replace(/[^a-zA-Z0-9؀-ۿ\s-]/g, "")`. */
  function FilterAllowed(s: JsString): (r: JsString)
    ensures |r| <= |s|
    ensures forall i :: 0 <= i < |r| ==> KeptByFilter(r[i])
    ensures (forall i :: 0 <= i < |s| ==> KeptByFilter(s[i])) ==> r == s
  {
    if s == [] then []
    else (if KeptByFilter(s[0]) then [s[0]] else []) + FilterAllowed(s[1..])
  }

  /** `s.replace(/\s+/g, "-")`: every maximal run of `\s` becomes one `-`. */
  function CollapseRuns(s: JsString): (r: JsString)
    ensures |r| <= |s|
    ensures NoSpace(r)
    decreases |s|
  {
    if s == [] then []
    else if IsSpace(s[0]) then [DASH] + CollapseRuns(TrimStart(s[1..]))
    else [s[0]] + CollapseRuns(s[1..])
  }

  predicate AllKept(s: JsString) {
    forall i :: 0 <= i < |s| ==> KeptByFilter(s[i])
  }

  predicate AllSlugChars(s: JsString) {
    forall i :: 0 <= i < |s| ==> IsSlugChar(s[i])
  }

  /** Collapsing the filtered text leaves only slug characters. */
  lemma {:induction false} CollapseSlugChars(s: JsString)
    requires AllKept(s)
    ensures AllSlugChars(CollapseRuns(s))
    decreases |s|
  {
    if s != [] {
      if IsSpace(s[0]) {
        var rest := TrimStart(s[1..]);
        TrimStartSuffix(s[1..]);
        assert rest == s[|s| - |rest|..];
        assert AllKept(rest);
        CollapseSlugChars(rest);
      } else {
        CollapseSlugChars(s[1..]);
      }
    }
  }

  /** `createUrl(name)`: the slug of a term name. */
  function CreateUrl(name: JsString): (url: JsString)
    ensures |url| <= 60
    ensures NoSpace(url)
    ensures AllSlugChars(url)
  {
    var filtered := FilterAllowed(Prefix(name, 60));
    var kept := Trim(filtered);
    assert AllKept(kept) by {
      var start := TrimStart(filtered);
      TrimStartSuffix(filtered);
      assert start == filtered[|filtered| - |start|..];
      assert kept == start[..|kept|];
    }
    CollapseSlugChars(kept);
    CollapseRuns(kept)
  }

  /** A text without `\s` comes through the collapsing unchanged. */
  lemma {:induction false} CollapseNoSpace(s: JsString)
    requires NoSpace(s)
    ensures CollapseRuns(s) == s
  {
    if s != [] {
      CollapseNoSpace(s[1..]);
    }
  }

  /** Trimming spaces off the front of `a + x` stops inside `a` when `a` holds a non-space. */
  lemma {:induction false} TrimStartAppend(a: JsString, x: JsString)
    requires a != [] && !IsSpace(a[|a| - 1])
    ensures TrimStart(a + x) == TrimStart(a) + x
  {
    if IsSpace(a[0]) {
      assert (a + x)[1..] == a[1..] + x;
      TrimStartAppend(a[1..], x);
    }
  }

  /** Trimming the front of a text that ends in a non-space keeps that last code unit. */
  lemma {:induction false} TrimStartKeepsLast(t: JsString)
    requires t != [] && !IsSpace(t[|t| - 1])
    ensures var u := TrimStart(t); u != [] && u[|u| - 1] == t[|t| - 1] && |u| <= |t|
  {
    if IsSpace(t[0]) {
      TrimStartKeepsLast(t[1..]);
    }
  }

  /** A run of spaces in front of a text that starts with a non-space is trimmed exactly. */
  lemma {:induction false} TrimStartRun(w: JsString, b: JsString)
    requires forall i :: 0 <= i < |w| ==> IsSpace(w[i])
    requires b == [] || !IsSpace(b[0])
    ensures TrimStart(w + b) == b
  {
    if w == [] {
      assert w + b == b;
    } else {
      assert (w + b)[1..] == w[1..] + b;
      TrimStartRun(w[1..], b);
    }
  }

  /** Collapsing distributes over a cut just after a non-space. */
  lemma {:induction false} CollapseAppend(a: JsString, x: JsString)
    requires a == [] || !IsSpace(a[|a| - 1])
    ensures CollapseRuns(a + x) == CollapseRuns(a) + CollapseRuns(x)
    decreases |a|
  {
    if a == [] {
      assert a + x == x;
    } else if IsSpace(a[0]) {
      var t := a[1..];
      var ax := a + x;
      assert ax[0] == a[0] && ax[1..] == t + x;
      assert t != [] && t[|t| - 1] == a[|a| - 1];
      TrimStartAppend(t, x);
      TrimStartKeepsLast(t);
      var u := TrimStart(t);
      CollapseAppend(u, x);
      assert TrimStart(ax[1..]) == u + x;
      calc {
        CollapseRuns(ax);
        [DASH] + CollapseRuns(TrimStart(ax[1..]));
        [DASH] + CollapseRuns(u + x);
        [DASH] + (CollapseRuns(u) + CollapseRuns(x));
        ([DASH] + CollapseRuns(u)) + CollapseRuns(x);
        { assert CollapseRuns(a) == [DASH] + CollapseRuns(TrimStart(a[1..])); }
        CollapseRuns(a) + CollapseRuns(x);
      }
    } else {
      var ax := a + x;
      assert ax[0] == a[0] && ax[1..] == a[1..] + x;
      CollapseAppend(a[1..], x);
      assert CollapseRuns(ax) == [a[0]] + CollapseRuns(a[1..] + x);
    }
  }

  /** Each maximal whitespace run between two non-space texts becomes exactly one `-`. */
  lemma {:induction false} CollapseRunsSplice(a: JsString, w: JsString, b: JsString)
    requires a == [] || !IsSpace(a[|a| - 1])
    requires w != [] && forall i :: 0 <= i < |w| ==> IsSpace(w[i])
    requires b == [] || !IsSpace(b[0])
    ensures CollapseRuns(a + w + b) == CollapseRuns(a) + [DASH] + CollapseRuns(b)
  {
    assert a + w + b == a + (w + b);
    CollapseAppend(a, w + b);
    var wb := w + b;
    assert IsSpace(wb[0]);
    assert wb[1..] == w[1..] + b;
    TrimStartRun(w[1..], b);
    assert CollapseRuns(wb) == [DASH] + CollapseRuns(b);
  }

  /** A slug is its own slug. */
  lemma CreateUrlIdempotent(name: JsString)
    ensures CreateUrl(CreateUrl(name)) == CreateUrl(name)
  {
    var u := CreateUrl(name);
    assert Prefix(u, 60) == u;
    assert FilterAllowed(u) == u;
    assert TrimStart(u) == u;
    assert TrimEnd(u) == u;
    CollapseNoSpace(u);
  }

  // ---------------------------------------------------------------------
  // Server actions

  /** Why an action answered `{success: false, message}`. */
  datatype Failure = MissingFields | DuplicateTerm | MissingTermId | ServerError

  /** What `createTerm` and `deleteTerm` end in. `Redirect` marks the point
    * where the action calls `redirect(...)` after its statements succeeded;
    * the response the client then receives is decided by the framework. */
  datatype Outcome = Fail(reason: Failure) | Redirect(termId: int) | Done

  /** No two terms share a url within one taxonomy. */
  predicate UniqueSlugs(terms: seq<TermRow>) {
    forall i, j :: 0 <= i < j < |terms| ==>
      !(terms[i].url == terms[j].url && terms[i].taxonomy == terms[j].taxonomy)
  }

  predicate HasSlug(terms: seq<TermRow>, url: JsString, taxonomy: JsString) {
    exists i :: 0 <= i < |terms| && terms[i].url == url && terms[i].taxonomy == taxonomy
  }

  /** `createTerm(formData)`: the SELECT is step 0 of `fault`, the INSERT step 1. */
  method CreateTerm(db: Database, name: Option<JsString>, taxonomy: Option<JsString>, fault: Fault)
    returns (r: Outcome)
    modifies db
    ensures Blank(name) || Blank(taxonomy) ==> r == Fail(MissingFields)
    ensures (!(Blank(name) || Blank(taxonomy)) && !fault.Hits(0)
             && HasSlug(old(db.terms), CreateUrl(name.value), taxonomy.value)) ==> r == Fail(DuplicateTerm)
    ensures r.Redirect? <==> !(Blank(name) || Blank(taxonomy)) && !fault.Hits(0) && !fault.Hits(1)
                              && !HasSlug(old(db.terms), CreateUrl(name.value), taxonomy.value)
    ensures r.Redirect? ==> (r.termId == old(db.nextTermId)
      && db.Snapshot() == Apply(InsertTerm(name.value, CreateUrl(name.value), taxonomy.value), old(db.Snapshot())))
    ensures !r.Redirect? ==> db.Snapshot() == old(db.Snapshot())
    ensures r != Done
  {
    if Blank(name) || Blank(taxonomy) {
      return Fail(MissingFields);
    }
    var url := CreateUrl(name.value);
    if fault.Hits(0) {
      return Fail(ServerError);
    }
    if HasSlug(db.terms, url, taxonomy.value) {
      return Fail(DuplicateTerm);
    }
    var id := db.nextTermId;
    var ok := db.Query(InsertTerm(name.value, url, taxonomy.value), fault.Hits(1));
    if !ok {
      return Fail(ServerError);
    }
    return Redirect(id);
  }

  /** An insert that passed the duplicate check keeps slugs unique, and the
    * new term is the only one with its (url, taxonomy). */
  lemma InsertTermKeepsSlugsUnique(db: Db, name: JsString, url: JsString, taxonomy: JsString)
    requires UniqueSlugs(db.terms)
    requires !HasSlug(db.terms, url, taxonomy)
    ensures var after := Apply(InsertTerm(name, url, taxonomy), db).terms;
      UniqueSlugs(after) && HasSlug(after, url, taxonomy)
  {
    var after := Apply(InsertTerm(name, url, taxonomy), db).terms;
    assert after[|after| - 1].url == url && after[|after| - 1].taxonomy == taxonomy;
  }

  /** `updateTerm(formData)`: one UPDATE, step 0 of `fault`. */
  method UpdateTerm(db: Database, id: Option<JsString>, name: Option<JsString>, url: Option<JsString>, fault: Fault)
    returns (r: Outcome)
    modifies db
    ensures Blank(id) || Blank(name) || Blank(url) ==> r == Fail(MissingFields)
    ensures r == Done <==> !(Blank(id) || Blank(name) || Blank(url)) && !fault.Hits(0)
    ensures r == Done ==> db.Snapshot() == Apply(Stmt.UpdateTerm(id.value, name.value, url.value), old(db.Snapshot()))
    ensures r != Done ==> db.Snapshot() == old(db.Snapshot())
    ensures !r.Redirect?
  {
    if Blank(id) || Blank(name) || Blank(url) {
      return Fail(MissingFields);
    }
    var ok := db.Query(Stmt.UpdateTerm(id.value, name.value, url.value), fault.Hits(0));
    r := if ok then Done else Fail(ServerError);
  }

  /** An update renames only the rows whose id the key denotes; ids, taxonomies and order stay. */
  lemma UpdateTermRenamesOnly(db: Db, key: JsString, name: JsString, url: JsString)
    ensures var after := Apply(Stmt.UpdateTerm(key, name, url), db).terms;
      |after| == |db.terms|
      && forall i :: 0 <= i < |after| ==>
           after[i].id == db.terms[i].id && after[i].taxonomy == db.terms[i].taxonomy
           && (ParseInt(key) == Int(db.terms[i].id) ==> after[i].name == name && after[i].url == url)
           && (ParseInt(key) != Int(db.terms[i].id) ==> after[i] == db.terms[i])
  {
  }

  /** `deleteTerm(termId)`: first the links (step 0), then the term (step 1),
    * with no transaction around them. */
  method DeleteTerm(db: Database, termId: JsNumber, fault: Fault) returns (r: Outcome)
    modifies db
    ensures termId.Falsy() ==> r == Fail(MissingTermId) && db.Snapshot() == old(db.Snapshot())
    ensures r.Redirect? <==> !termId.Falsy() && !fault.Hits(0) && !fault.Hits(1)
    ensures r.Redirect? ==> (r.termId == termId.value
      && db.Snapshot() == Apply(Stmt.DeleteTerm(termId.value), Apply(DeleteLinksOfTerm(termId.value), old(db.Snapshot()))))
    ensures !termId.Falsy() && fault.Hits(0) ==> r == Fail(ServerError) && db.Snapshot() == old(db.Snapshot())
    ensures !termId.Falsy() && fault.Hits(1) ==> (r == Fail(ServerError)
      && db.Snapshot() == Apply(DeleteLinksOfTerm(termId.value), old(db.Snapshot())))
  {
    if termId.Falsy() {
      return Fail(MissingTermId);
    }
    var ok := db.Query(DeleteLinksOfTerm(termId.value), fault.Hits(0));
    if !ok {
      return Fail(ServerError);
    }
    ok := db.Query(Stmt.DeleteTerm(termId.value), fault.Hits(1));
    if !ok {
      return Fail(ServerError);
    }
    return Redirect(termId.value);
  }

  /** After both deletes no link refers to the term and the term is gone;
    * every other term and link is kept. */
  lemma DeleteTermClears(db: Db, t: int)
    ensures var after := Apply(Stmt.DeleteTerm(t), Apply(DeleteLinksOfTerm(t), db));
      (forall l :: l in after.postTerms <==> l in db.postTerms && l.termId != t)
      && (forall x :: x in after.terms <==> x in db.terms && x.id != t)
      && after.posts == db.posts && after.comments == db.comments
  {
  }

  /** The answer of `createTerm` and `deleteTerm` as written: `redirect`
    * throws inside the action's own `try`, and the `catch` answers that
    * throw with the server error, so only `Done` escapes a failure. */
  function CaughtReply(o: Outcome): (r: Option<Failure>)
    ensures r.None? <==> o.Done?
    ensures o.Fail? ==> r == Some(o.reason)
    ensures o.Redirect? ==> r == Some(ServerError)
  {
    match o
    case Fail(reason) => Some(reason)
    case Redirect(_) => Some(ServerError)
    case Done => None
  }

  /** The answer with `redirect` called after the `try`: the redirect leaves
    * the action, and a failure is answered exactly when the action failed. */
  function Reply(o: Outcome): (r: Option<Failure>)
    ensures r.None? <==> !o.Fail?
    ensures o.Fail? ==> r == Some(o.reason)
  {
    if o.Fail? then Some(o.reason) else None
  }

  /** `createTerm` as written: every call is answered with a failure, and a
    * call that inserted the term is answered with the server error. */
  method CreateTermAsWritten(db: Database, name: Option<JsString>, taxonomy: Option<JsString>, fault: Fault)
    returns (reply: Option<Failure>)
    modifies db
    ensures reply.Some?
    ensures db.Snapshot() != old(db.Snapshot()) ==> reply == Some(ServerError)
  {
    var o := CreateTerm(db, name, taxonomy, fault);
    reply := CaughtReply(o);
  }

  /** `createTerm` with the redirect outside the `try`: no failure is
    * answered exactly when the term was inserted. */
  method CreateTermReply(db: Database, name: Option<JsString>, taxonomy: Option<JsString>, fault: Fault)
    returns (reply: Option<Failure>)
    modifies db
    ensures reply.None? <==> db.Snapshot() != old(db.Snapshot())
  {
    var o := CreateTerm(db, name, taxonomy, fault);
    reply := Reply(o);
  }

  /** `deleteTerm` as written: every call is answered with a failure, and one
    * that deleted the links and the term is answered with the server error. */
  method DeleteTermAsWritten(db: Database, termId: JsNumber, fault: Fault) returns (reply: Option<Failure>)
    modifies db
    ensures reply.Some?
    ensures !termId.Falsy() && !fault.Hits(0) && !fault.Hits(1) ==>
      reply == Some(ServerError)
      && db.Snapshot() == Apply(Stmt.DeleteTerm(termId.value), Apply(DeleteLinksOfTerm(termId.value), old(db.Snapshot())))
  {
    var o := DeleteTerm(db, termId, fault);
    reply := CaughtReply(o);
  }

  /** `deleteTerm` with the redirect outside the `try`: no failure is
    * answered exactly when both deletes ran. */
  method DeleteTermReply(db: Database, termId: JsNumber, fault: Fault) returns (reply: Option<Failure>)
    modifies db
    ensures reply.None? <==> !termId.Falsy() && !fault.Hits(0) && !fault.Hits(1)
    ensures reply.None? ==>
      db.Snapshot() == Apply(Stmt.DeleteTerm(termId.value), Apply(DeleteLinksOfTerm(termId.value), old(db.Snapshot())))
  {
    var o := DeleteTerm(db, termId, fault);
    reply := Reply(o);
  }

  /** One row of the `searchPosts` answer. */
  datatype PostHit = PostHit(id: int, title: JsString)

  /** The posts, in table order, whose title matches the pattern and which are not linked to the term. */
  function Unlinked(posts: seq<PostRow>, links: seq<Link>, pattern: JsString, termId: int,
                    like: (JsString, JsString) -> bool): (r: seq<PostHit>)
    ensures |r| <= |posts|
    ensures forall h :: h in r ==> like(h.title, pattern) && Link(h.id, termId) !in links
    ensures forall p :: p in posts && like(p.title, pattern) && Link(p.id, termId) !in links ==> PostHit(p.id, p.title) in r
  {
    if posts == [] then []
    else
      var p := posts[0];
      (if like(p.title, pattern) && Link(p.id, termId) !in links then [PostHit(p.id, p.title)] else [])
        + Unlinked(posts[1..], links, pattern, termId, like)
  }

  /** `searchPosts(query, termId)`: `like(title, pattern)` stands for MySQL's
    * `title LIKE pattern`; `fails` is a database error. */
  function SearchPosts(db: Db, query: Option<JsString>, termId: int,
                       like: (JsString, JsString) -> bool, fails: bool): (r: seq<PostHit>)
    ensures Blank(query) || |query.value| < 2 ==> r == []
    ensures fails ==> r == []
    ensures |r| <= 10
    ensures forall h :: h in r ==>
      like(h.title, LikePattern(query.value)) && Link(h.id, termId) !in db.postTerms
    ensures !(Blank(query) || |query.value| < 2 || fails) ==>
      var all := Unlinked(db.posts, db.postTerms, LikePattern(query.value), termId, like);
      |r| == (if |all| <= 10 then |all| else 10) && (forall h :: h in r ==> h in all)
      && multiset(r) <= multiset(all)
  {
    if Blank(query) || |query.value| < 2 || fails then []
    else
      var all := Unlinked(db.posts, db.postTerms, LikePattern(query.value), termId, like);
      if |all| <= 10 then all else
        assert all == all[..10] + all[10..];
        all[..10]
  }

  /** `addPostToTerm(termId, postId)`: one INSERT into `post_term`. */
  method AddPostToTerm(db: Database, termId: int, postId: int, fails: bool) returns (success: bool)
    modifies db
    ensures success == !fails
    ensures db.Snapshot() == if success then Apply(InsertLinks([Link(postId, termId)]), old(db.Snapshot())) else old(db.Snapshot())
  {
    success := db.Query(InsertLinks([Link(postId, termId)]), fails);
  }

  /** `removePostFromTerm(termId, postId)`: one DELETE from `post_term`. */
  method RemovePostFromTerm(db: Database, termId: int, postId: int, fails: bool) returns (success: bool)
    modifies db
    ensures success == !fails
    ensures db.Snapshot() == if success then Apply(DeleteLink(postId, termId), old(db.Snapshot())) else old(db.Snapshot())
  {
    success := db.Query(DeleteLink(postId, termId), fails);
  }

  /** Adding a link and then removing it leaves no such link, and no other link is touched. */
  lemma AddThenRemoveLink(db: Db, termId: int, postId: int)
    ensures var after := Apply(DeleteLink(postId, termId), Apply(InsertLinks([Link(postId, termId)]), db));
      Link(postId, termId) !in after.postTerms
      && forall l :: l != Link(postId, termId) ==> (l in after.postTerms <==> l in db.postTerms)
  {
  }
}
