/** The post migration script (scripts/posts.js): each WordPress post or
  * page the extraction query returns is shaped into a row of the new `posts`
  * table and inserted; the inserts that succeed and the ones that throw are
  * counted, and only a throw other than a duplicate `url` is logged.
  *
  * The extraction query's result is an input; the `posts` table is an
  * object whose rows the loop appends to. Which inserts fail for a reason
  * other than the unique `url` is a parameter.
  */
module MigratePosts {
  import opened JsText
  import opened Lists

  /** A row of the extraction query; `view` and `thumbnail` come from
    * LEFT JOINs on the post meta and are `None` (SQL NULL) when missing. */
  datatype ExtractedPost = ExtractedPost(id: int, title: JsString, url: JsString, date: Option<JsString>,
                                         status: JsString, postType: JsString,
                                         view: Option<JsString>, thumbnail: Option<JsString>)

  /** `newPostData`: the row handed to `INSERT INTO posts SET ?`. */
  datatype PostRecord = PostRecord(title: JsString, url: JsString, date: Option<JsString>,
                                   status: JsString, postType: JsString, view: int,
                                   thumbnail: Option<JsString>)

  /** `parseInt(view, 10) || 0`: NaN and 0 both give 0; a missing meta value
    * is read as the text `null`, which has no digit. */
  function ViewOf(view: Option<JsString>): (r: int)
    ensures view.None? ==> r == 0
    ensures view.Some? && ParseInt(view.value).Int? ==> r == ParseInt(view.value).value
    ensures view.Some? && ParseInt(view.value).NaN? ==> r == 0
  {
    if view.None? then 0
    else match ParseInt(view.value)
      case NaN => 0
      case Int(n) => n
  }

  /** A view count stored as canonical digits is carried over exactly. */
  lemma ViewOfDecimal(n: nat)
    ensures ViewOf(Some(DecimalText(n))) == n
  {
    ParseIntDigits(DecimalText(n));
    DecimalTextValue(n);
  }

  /** A meta value with no digit at all (and a missing one) gives 0. */
  lemma ViewOfNoDigit(view: Option<JsString>)
    requires view.Some? ==> forall i :: 0 <= i < |view.value| ==> !IsDigit(view.value[i])
    ensures ViewOf(view) == 0
  {
    if view.Some? {
      ParseIntNoDigit(view.value);
    }
  }

  /** The record built for one extracted post: six fields copied and the
    * view count parsed; the WordPress id is dropped, as `id` is
    * AUTO_INCREMENT in the new table. */
  function NewPostData(p: ExtractedPost): (r: PostRecord)
    ensures r.title == p.title && r.url == p.url && r.date == p.date
    ensures r.status == p.status && r.postType == p.postType && r.thumbnail == p.thumbnail
    ensures r.view == ViewOf(p.view)
  {
    PostRecord(p.title, p.url, p.date, p.status, p.postType, ViewOf(p.view), p.thumbnail)
  }

  function Urls(rows: seq<PostRecord>): (r: seq<JsString>)
    ensures |r| == |rows| && forall i :: 0 <= i < |rows| ==> r[i] == rows[i].url
  {
    seq(|rows|, i requires 0 <= i < |rows| => rows[i].url)
  }

  /** The error an insert throws. */
  datatype InsertError = DuplicateEntry | OtherInsertError

  /** The result of inserting `p` into `rows`: a failure of the statement
    * itself (`failed`), a duplicate `url` against the UNIQUE key, or the
    * row is stored. */
  function InsertResult(rows: seq<PostRecord>, p: ExtractedPost, failed: bool): Option<InsertError> {
    if failed then Some(OtherInsertError)
    else if p.url in Urls(rows) then Some(DuplicateEntry)
    else None
  }

  /** The table and the counters after the first inserts of the loop. */
  datatype Progress = Progress(rows: seq<PostRecord>, successCount: nat, errorCount: nat, logged: seq<JsString>)

  /** One insert of the loop: a stored row is a success, a duplicate an
    * error, and any other failure an error whose title is logged. */
  function Next(b: Progress, p: ExtractedPost, failed: bool): Progress {
    match InsertResult(b.rows, p, failed)
    case None => Progress(b.rows + [NewPostData(p)], b.successCount + 1, b.errorCount, b.logged)
    case Some(DuplicateEntry) => Progress(b.rows, b.successCount, b.errorCount + 1, b.logged)
    case Some(OtherInsertError) => Progress(b.rows, b.successCount, b.errorCount + 1, b.logged + [p.title])
  }

  /** The loop of `transferData` over `posts`, starting from the table `rows`,
    * the i-th insert failing when `fails(i)`. */
  function Migrate(rows: seq<PostRecord>, posts: seq<ExtractedPost>, fails: nat -> bool): (r: Progress)
    ensures r.successCount + r.errorCount == |posts|
    ensures |r.rows| == |rows| + r.successCount && r.rows[..|rows|] == rows
    ensures |r.logged| <= r.errorCount
  {
    if posts == [] then Progress(rows, 0, 0, [])
    else
      var n := |posts| - 1;
      Next(Migrate(rows, posts[..n], fails), posts[n], fails(n))
  }

  /** One more post is one more insert of the loop. */
  lemma MigrateStep(rows: seq<PostRecord>, posts: seq<ExtractedPost>, fails: nat -> bool, i: nat)
    requires i < |posts|
    ensures Migrate(rows, posts[..i + 1], fails) == Next(Migrate(rows, posts[..i], fails), posts[i], fails(i))
  {
    assert posts[..i + 1][..i] == posts[..i];
  }

  /** The inserts never store a second row with the same `url`. */
  lemma {:induction false} MigrateKeepsUrlsUnique(rows: seq<PostRecord>, posts: seq<ExtractedPost>, fails: nat -> bool)
    requires NoDuplicates(Urls(rows))
    ensures NoDuplicates(Urls(Migrate(rows, posts, fails).rows))
  {
    if posts != [] {
      var n := |posts| - 1;
      var before := Migrate(rows, posts[..n], fails);
      MigrateKeepsUrlsUnique(rows, posts[..n], fails);
      if InsertResult(before.rows, posts[n], fails(n)).None? {
        var after := before.rows + [NewPostData(posts[n])];
        assert Urls(after) == Urls(before.rows) + [posts[n].url];
      }
    }
  }

  /** The titles of the posts whose insert fails for a reason other than a
    * duplicate, in order. */
  function FailedTitles(posts: seq<ExtractedPost>, fails: nat -> bool): seq<JsString> {
    if posts == [] then []
    else
      var n := |posts| - 1;
      FailedTitles(posts[..n], fails) + (if fails(n) then [posts[n].title] else [])
  }

  /** Only the failures that are not duplicates are logged: whatever the
    * table holds, the log is the titles of the failing statements. */
  lemma {:induction false} MigrateLogsOnlyFailures(rows: seq<PostRecord>, posts: seq<ExtractedPost>, fails: nat -> bool)
    ensures Migrate(rows, posts, fails).logged == FailedTitles(posts, fails)
  {
    if posts != [] {
      MigrateLogsOnlyFailures(rows, posts[..|posts| - 1], fails);
    }
  }

  /** Without a failing statement nothing is logged, although every
    * duplicate is counted as an error. */
  lemma {:induction false} NoFailureLogsNothing(posts: seq<ExtractedPost>, fails: nat -> bool)
    requires forall i :: 0 <= i < |posts| ==> !fails(i)
    ensures FailedTitles(posts, fails) == []
  {
    if posts != [] {
      NoFailureLogsNothing(posts[..|posts| - 1], fails);
    }
  }

  /** The records of `posts`, in order. */
  function Shaped(posts: seq<ExtractedPost>): (r: seq<PostRecord>)
    ensures |r| == |posts| && forall i :: 0 <= i < |posts| ==> r[i] == NewPostData(posts[i])
  {
    seq(|posts|, i requires 0 <= i < |posts| => NewPostData(posts[i]))
  }

  /** A url found neither in the table nor among the posts before it is
    * still free once those posts are stored. */
  lemma FreshUrl(rows: seq<PostRecord>, prefix: seq<ExtractedPost>, p: ExtractedPost)
    requires p.url !in Urls(rows)
    requires forall i :: 0 <= i < |prefix| ==> prefix[i].url != p.url
    ensures p.url !in Urls(rows + Shaped(prefix))
  {
    var u := Urls(Shaped(prefix));
    assert Urls(rows + Shaped(prefix)) == Urls(rows) + u;
    assert forall i :: 0 <= i < |u| ==> u[i] != p.url;
  }

  lemma ShapedSnoc(posts: seq<ExtractedPost>)
    requires posts != []
    ensures Shaped(posts) == Shaped(posts[..|posts| - 1]) + [NewPostData(posts[|posts| - 1])]
  {
  }

  /** With no failing statement and no `url` repeated or already present,
    * every post is inserted, in order, and nothing is logged. */
  lemma {:induction false} MigrateInsertsAll(rows: seq<PostRecord>, posts: seq<ExtractedPost>, fails: nat -> bool)
    requires forall i :: 0 <= i < |posts| ==> !fails(i)
    requires forall i :: 0 <= i < |posts| ==> posts[i].url !in Urls(rows)
    requires forall i, j :: 0 <= i < j < |posts| ==> posts[i].url != posts[j].url
    ensures var r := Migrate(rows, posts, fails);
      && r.rows == rows + Shaped(posts)
      && r.successCount == |posts| && r.errorCount == 0 && r.logged == []
  {
    if posts != [] {
      var n := |posts| - 1;
      var prefix := posts[..n];
      MigrateInsertsAll(rows, prefix, fails);
      FreshUrl(rows, prefix, posts[n]);
      ShapedSnoc(posts);
    }
  }

  /** The new `posts` table. */
  class PostsTable {
    var rows: seq<PostRecord>

    constructor (rows0: seq<PostRecord>)
      ensures rows == rows0
    {
      rows := rows0;
    }

    /** `INSERT INTO posts SET ?`: the row is appended unless the statement
      * throws. */
    method Insert(p: ExtractedPost, failed: bool) returns (err: Option<InsertError>)
      modifies this
      ensures err == InsertResult(old(rows), p, failed)
      ensures rows == if err.None? then old(rows) + [NewPostData(p)] else old(rows)
    {
      err := InsertResult(rows, p, failed);
      if err.None? {
        rows := rows + [NewPostData(p)];
      }
    }

    /** The body of the loop: one insert, then its counter and, for a
      * failure other than a duplicate, its log line. */
    method InsertAndCount(p: ExtractedPost, failed: bool, successCount: nat, errorCount: nat, logged: seq<JsString>)
      returns (successCount': nat, errorCount': nat, logged': seq<JsString>)
      modifies this
      ensures Progress(rows, successCount', errorCount', logged') ==
        Next(Progress(old(rows), successCount, errorCount, logged), p, failed)
    {
      successCount', errorCount', logged' := successCount, errorCount, logged;
      var err := Insert(p, failed);
      if err.None? {
        successCount' := successCount + 1;
      } else {
        errorCount' := errorCount + 1;
        if err.value != DuplicateEntry {
          logged' := logged + [p.title];
        }
      }
    }

    /** `transferData(db)` for the extracted `posts`: an empty extraction
      * returns at once; otherwise one insert per post, each counted as a
      * success or an error. */
    method TransferData(posts: seq<ExtractedPost>, fails: nat -> bool)
      returns (successCount: nat, errorCount: nat, logged: seq<JsString>)
      modifies this
      ensures posts == [] ==> rows == old(rows) && successCount == 0 && errorCount == 0 && logged == []
      ensures Progress(rows, successCount, errorCount, logged) == Migrate(old(rows), posts, fails)
      ensures successCount + errorCount == |posts|
    {
      successCount, errorCount, logged := 0, 0, [];
      if |posts| == 0 {
        return;
      }
      ghost var start := rows;
      for i := 0 to |posts|
        invariant Progress(rows, successCount, errorCount, logged) == Migrate(start, posts[..i], fails)
      {
        MigrateStep(start, posts, fails, i);
        successCount, errorCount, logged := InsertAndCount(posts[i], fails(i), successCount, errorCount, logged);
      }
      assert posts[..|posts|] == posts;
    }
  }
}
