/** The inline quick-edit row of the post list
  * (src/app/admin/posts/QuickEditRow.jsx): a form over one listed post whose
  * category and tag choices start from the listing's `id:name` term strings.
  */
module QuickEditRow {
  import opened JsText
  import opened Lists
  import opened PostActions

  const COMMA: CodeUnit := 0x2C
  const COLON: CodeUnit := 0x3A
  const SEMICOLON: CodeUnit := 0x3B

  /** One row of the admin post listing: the post's own columns and its
    * categories and tags as the listing query concatenates them (`None`
    * for SQL NULL, when the post has no such term). */
  datatype ListedPost = ListedPost(id: int, title: JsString, url: JsString, status: JsString,
                                   categories: Option<JsString>, tags: Option<JsString>)

  /** A term as the listing writes it: its id and its name. */
  datatype TermRef = TermRef(id: nat, name: JsString)

  /** `id:name`. */
  function TermEntry(t: TermRef): JsString {
    DecimalText(t.id) + [COLON] + t.name
  }

  /** `GROUP_CONCAT(DISTINCT t.id, ':', t.name SEPARATOR ';')` of the listing
    * query (src/app/admin/posts/page.jsx): NULL when there is no term. */
  function GroupConcat(ts: seq<TermRef>): (r: Option<JsString>)
    ensures r.None? <==> ts == []
  {
    if ts == [] then None
    else Some(Join(seq(|ts|, i requires 0 <= i < |ts| => TermEntry(ts[i])), SEMICOLON))
  }

  /** The decimal ids of the terms, in order. */
  function IdTexts(ts: seq<TermRef>): seq<JsString> {
    seq(|ts|, i requires 0 <= i < |ts| => DecimalText(ts[i].id))
  }

  function Ids(ts: seq<TermRef>): seq<nat> {
    seq(|ts|, i requires 0 <= i < |ts| => ts[i].id)
  }

  /** `parts.map((t) => t.split(":")[0])`. */
  function TermHeads(parts: seq<JsString>): seq<JsString> {
    seq(|parts|, i requires 0 <= i < |parts| => TakeUntil(parts[i], COLON))
  }

  /** `parseTerms` as written: the parts between commas, each up to its
    * first `:`; `[]` for a null or empty string. */
  function ParseTermsAsWritten(s: Option<JsString>): (r: seq<JsString>)
    ensures Blank(s) ==> r == []
    ensures !Blank(s) ==> |r| == |Split(s.value, COMMA)| && forall i :: 0 <= i < |r| ==> COLON !in r[i]
  {
    if Blank(s) then [] else TermHeads(Split(s.value, COMMA))
  }

  /** `parseTerms` splitting at the separator the listing writes, `;`. */
  function ParseTerms(s: Option<JsString>): (r: seq<JsString>)
    ensures Blank(s) ==> r == []
    ensures !Blank(s) ==> |r| == |Split(s.value, SEMICOLON)| && forall i :: 0 <= i < |r| ==> COLON !in r[i]
  {
    if Blank(s) then [] else TermHeads(Split(s.value, SEMICOLON))
  }

  /** The entries of a term list, none of which holds the separator. */
  lemma EntriesWithout(ts: seq<TermRef>, x: CodeUnit)
    requires x != COLON && !IsDigit(x)
    requires forall i :: 0 <= i < |ts| ==> x !in ts[i].name
    ensures var es := seq(|ts|, i requires 0 <= i < |ts| => TermEntry(ts[i]));
      forall i :: 0 <= i < |es| ==> x !in es[i]
  {
  }

  /** Each entry's text up to its `:` is the term's id. */
  lemma EntryHead(t: TermRef)
    ensures TakeUntil(TermEntry(t), COLON) == DecimalText(t.id)
  {
    TakeUntilAt(DecimalText(t.id), COLON, t.name);
  }

  /** Corrected: the term string of a listing row parses back to the ids of
    * its terms, in order, whenever no name holds a `;`. */
  lemma ParseTermsRoundTrip(ts: seq<TermRef>)
    requires forall i :: 0 <= i < |ts| ==> SEMICOLON !in ts[i].name
    ensures ParseTerms(GroupConcat(ts)) == IdTexts(ts)
  {
    if ts != [] {
      var es := seq(|ts|, i requires 0 <= i < |ts| => TermEntry(ts[i]));
      EntriesWithout(ts, SEMICOLON);
      SplitJoin(es, SEMICOLON);
      forall i | 0 <= i < |ts|
        ensures TakeUntil(es[i], COLON) == DecimalText(ts[i].id)
      {
        EntryHead(ts[i]);
      }
    }
  }

  /** The joined term string up to its first `:` is the first term's id. */
  lemma JoinedHead(ts: seq<TermRef>, es: seq<JsString>)
    requires ts != [] && |es| == |ts|
    requires forall i :: 0 <= i < |ts| ==> es[i] == TermEntry(ts[i])
    ensures TakeUntil(Join(es, SEMICOLON), COLON) == DecimalText(ts[0].id)
  {
    if |ts| == 1 {
      EntryHead(ts[0]);
    } else {
      var tail := ts[0].name + [SEMICOLON] + Join(es[1..], SEMICOLON);
      assert Join(es, SEMICOLON) == DecimalText(ts[0].id) + [COLON] + tail;
      TakeUntilAt(DecimalText(ts[0].id), COLON, tail);
    }
  }

  /** As written: a listing term string whose names hold no comma does not
    * split at all, so only the first term's id is read. */
  lemma ParseTermsAsWrittenKeepsFirst(ts: seq<TermRef>)
    requires ts != []
    requires forall i :: 0 <= i < |ts| ==> COMMA !in ts[i].name
    ensures ParseTermsAsWritten(GroupConcat(ts)) == [DecimalText(ts[0].id)]
  {
    var es := seq(|ts|, i requires 0 <= i < |ts| => TermEntry(ts[i]));
    EntriesWithout(ts, COMMA);
    JoinExcludes(es, SEMICOLON, COMMA);
    var whole := Join(es, SEMICOLON);
    SplitNoSeparator(whole, COMMA);
    JoinedHead(ts, es);
  }

  /** The smallest case: categories `1:a;2:b` are read as `["1"]` as
    * written, and as `["1", "2"]` once split at `;`. */
  lemma TwoCategoriesExample()
    ensures GroupConcat([TermRef(1, Lit("a")), TermRef(2, Lit("b"))]) == Some(Lit("1:a;2:b"))
    ensures ParseTermsAsWritten(Some(Lit("1:a;2:b"))) == [Lit("1")]
    ensures ParseTerms(Some(Lit("1:a;2:b"))) == [Lit("1"), Lit("2")]
  {
    var ts := [TermRef(1, Lit("a")), TermRef(2, Lit("b"))];
    assert DecimalText(1) == Lit("1") && DecimalText(2) == Lit("2");
    assert Join([TermEntry(ts[0]), TermEntry(ts[1])], SEMICOLON) == Lit("1:a;2:b");
    assert seq(|ts|, i requires 0 <= i < |ts| => TermEntry(ts[i])) == [TermEntry(ts[0]), TermEntry(ts[1])];
    ParseTermsAsWrittenKeepsFirst(ts);
    ParseTermsRoundTrip(ts);
    assert IdTexts(ts) == [Lit("1"), Lit("2")];
  }

  /** Corrected: opening the row and saving it unchanged links the post to
    * exactly the terms it had, in order. */
  lemma SaveUnchangedKeepsTerms(cats: seq<TermRef>, tags: seq<TermRef>)
    requires forall i :: 0 <= i < |cats| ==> SEMICOLON !in cats[i].name && cats[i].id > 0
    requires forall i :: 0 <= i < |tags| ==> SEMICOLON !in tags[i].name && tags[i].id > 0
    ensures ParsedIds(ParseTerms(GroupConcat(cats)) + ParseTerms(GroupConcat(tags))) == Ids(cats) + Ids(tags)
  {
    ParseTermsRoundTrip(cats);
    ParseTermsRoundTrip(tags);
    ParsedIdsOfDecimal(IdTexts(cats) + IdTexts(tags), Ids(cats) + Ids(tags));
  }

  /** As written: the same unchanged save keeps only the first category and the first tag. */
  lemma SaveUnchangedAsWrittenDropsTerms(cats: seq<TermRef>, tags: seq<TermRef>)
    requires cats != [] && tags != []
    requires forall i :: 0 <= i < |cats| ==> COMMA !in cats[i].name && cats[i].id > 0
    requires forall i :: 0 <= i < |tags| ==> COMMA !in tags[i].name && tags[i].id > 0
    ensures ParsedIds(ParseTermsAsWritten(GroupConcat(cats)) + ParseTermsAsWritten(GroupConcat(tags)))
            == [cats[0].id, tags[0].id]
  {
    ParseTermsAsWrittenKeepsFirst(cats);
    ParseTermsAsWrittenKeepsFirst(tags);
    ParsedIdsOfDecimal([DecimalText(cats[0].id), DecimalText(tags[0].id)], [cats[0].id, tags[0].id]);
  }

  /** The three text inputs of the row. */
  datatype Field = Title | Url | Status

  /** The row's state: the post it edits and the form's values. */
  class QuickEditForm {
    const postId: int
    var title: JsString
    var url: JsString
    var status: JsString
    var selectedCategories: seq<JsString>
    var selectedTags: seq<JsString>

    /** The initial state: the post's columns, and its term ids. */
    constructor (post: ListedPost)
      ensures postId == post.id && title == post.title && url == post.url && status == post.status
      ensures selectedCategories == ParseTerms(post.categories) && selectedTags == ParseTerms(post.tags)
    {
      postId := post.id;
      title, url, status := post.title, post.url, post.status;
      selectedCategories := ParseTerms(post.categories);
      selectedTags := ParseTerms(post.tags);
    }

    /** `setTitle`, `setUrl` and `setStatus`. */
    method Edit(field: Field, value: JsString)
      modifies this
      ensures title == (if field == Title then value else old(title))
      ensures url == (if field == Url then value else old(url))
      ensures status == (if field == Status then value else old(status))
      ensures selectedCategories == old(selectedCategories) && selectedTags == old(selectedTags)
    {
      match field
      case Title => title := value;
      case Url => url := value;
      case Status => status := value;
    }

    /** `handleCategoryChange(catId)`: flips the id's membership, appending an
      * absent id at the end; the tags are untouched. */
    method HandleCategoryChange(catId: JsString)
      modifies this
      ensures selectedCategories == Toggle(old(selectedCategories), catId)
      ensures catId in selectedCategories <==> catId !in old(selectedCategories)
      ensures forall c :: c != catId ==> (c in selectedCategories <==> c in old(selectedCategories))
      ensures selectedTags == old(selectedTags) && title == old(title) && url == old(url) && status == old(status)
    {
      ToggleFlips(selectedCategories, catId);
      selectedCategories := Toggle(selectedCategories, catId);
    }

    /** `handleTagChange(tagId)`: the same for the tags. */
    method HandleTagChange(tagId: JsString)
      modifies this
      ensures selectedTags == Toggle(old(selectedTags), tagId)
      ensures tagId in selectedTags <==> tagId !in old(selectedTags)
      ensures forall t :: t != tagId ==> (t in selectedTags <==> t in old(selectedTags))
      ensures selectedCategories == old(selectedCategories) && title == old(title) && url == old(url) && status == old(status)
    {
      ToggleFlips(selectedTags, tagId);
      selectedTags := Toggle(selectedTags, tagId);
    }

    /** `handleSave()`: the arguments handed to `onSave`. */
    method HandleSave() returns (id: int, data: EditData)
      ensures id == postId
      ensures data == EditData(Some(title), Some(url), Some(status), Some(selectedCategories), Some(selectedTags))
      ensures !EditRejected(data) <==> title != [] && url != [] && status != []
    {
      id := postId;
      data := EditData(Some(title), Some(url), Some(status), Some(selectedCategories), Some(selectedTags));
    }
  }
}
