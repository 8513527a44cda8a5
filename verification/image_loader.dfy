/** The `next/image` loader (src/app/components/image-loader.js): it sends
  * every image through `/api/getimg/`, keeping only the `size=m` tier of the
  * original query.
  */
module ImageLoader {
  import opened JsText
  import opened UrlParams

  const QMARK: CodeUnit := 0x3F

  function ApiPrefix(): (r: JsString)
    ensures QMARK !in r
  {
    var r := Lit("/api/getimg/");
    assert forall i :: 0 <= i < |r| ==> r[i] != QMARK;
    r
  }

  function SizeSuffix(): (r: JsString)
    ensures |r| > 0 && r[0] == QMARK
  {
    Lit("?size=m")
  }

  /** The second part of `src.split("?")`, which is `undefined` when `src` has no `?`. */
  function QueryPart(src: JsString): Option<JsString> {
    var parts := Split(src, QMARK);
    if |parts| > 1 then Some(parts[1]) else None
  }

  /** The bytes of `size` and of `m`. */
  const SIZE: seq<Byte> := [0x73, 0x69, 0x7A, 0x65]
  const M: seq<Byte> := [0x6D]

  /** `params.get("size") === "m"`. */
  predicate SizeIsM(query: Option<JsString>) {
    GetFirstBytes(ParseQuery(query), SIZE) == Some(M)
  }

  /** `myImageLoader({src})`. */
  function Load(src: JsString): (r: JsString)
    ensures SizeIsM(QueryPart(src)) ==> r == ApiPrefix() + TakeUntil(src, QMARK) + SizeSuffix()
    ensures !SizeIsM(QueryPart(src)) ==> r == ApiPrefix() + TakeUntil(src, QMARK)
  {
    var parts := Split(src, QMARK);
    SplitHead(src, QMARK);
    var path := parts[0];
    var query := if |parts| > 1 then Some(parts[1]) else None;
    if SizeIsM(query) then ApiPrefix() + path + SizeSuffix() else ApiPrefix() + path
  }

  /** The output carries a query string exactly when the size tier is `m`. */
  lemma LoadHasQueryIffSizeM(src: JsString)
    ensures QMARK in Load(src) <==> SizeIsM(QueryPart(src))
  {
    var head := ApiPrefix() + TakeUntil(src, QMARK);
    assert QMARK !in head;
    if SizeIsM(QueryPart(src)) {
      assert Load(src)[|head|] == QMARK;
    }
  }

  /** A `src` without `?` is only prefixed. */
  lemma {:induction false} LoadPlainPath(src: JsString)
    requires QMARK !in src
    ensures Load(src) == ApiPrefix() + src
  {
    SplitNoSeparator(src, QMARK);
  }

  /** Only the text between the first and the second `?` is read. */
  lemma {:induction false} LoadIgnoresAfterSecondMark(path: JsString, query: JsString, rest: JsString)
    requires QMARK !in path && QMARK !in query
    ensures Load(path + [QMARK] + query + [QMARK] + rest) == Load(path + [QMARK] + query)
  {
    var long := path + [QMARK] + query + [QMARK] + rest;
    var short := path + [QMARK] + query;
    var tail := query + [QMARK] + rest;
    assert long == path + [QMARK] + tail;
    SplitAt(path, QMARK, tail);
    SplitAt(query, QMARK, rest);
    assert Split(long, QMARK) == [path] + ([query] + Split(rest, QMARK));
    SplitAt(path, QMARK, query);
    SplitNoSeparator(query, QMARK);
    assert Split(short, QMARK) == [path, query];
    SplitHead(long, QMARK);
    SplitHead(short, QMARK);
    assert QueryPart(long) == QueryPart(short);
    assert TakeUntil(long, QMARK) == TakeUntil(short, QMARK);
  }

  /** The pieces of a query that starts with one ASCII `name=value` pair and a `&`. */
  lemma {:induction false} FirstPairParsed(head: JsString, pair: seq<Byte>, rest: JsString)
    requires forall i :: 0 <= i < |head| ==> head[i] < 0x80
    requires head != [] && head[0] != Unit('?')
    requires Utf8(head) == pair + [0x26] && 0x26 !in pair && pair != []
    ensures ParseQuery(Some(head + rest)) == [ParsePiece(pair)] + FormParse(Utf8(rest))
  {
    var s := head + rest;
    assert s[0] == head[0];
    Utf8AsciiAppend(head, rest);
    assert Utf8(s) == pair + [0x26] + Utf8(rest);
    SplitAt(pair, 0x26, Utf8(rest));
    var parts := Split(Utf8(s), 0x26);
    assert parts == [pair] + Split(Utf8(rest), 0x26);
    assert parts[1..] == Split(Utf8(rest), 0x26);
  }

  /** A `name=value` piece without `+`, `%` or a second `=` parses to its two halves. */
  lemma {:induction false} ParsePiecePlain(name: seq<Byte>, value: seq<Byte>)
    requires 0x3D !in name
    requires forall i :: 0 <= i < |name| ==> name[i] != 0x2B && name[i] != 0x25
    requires forall i :: 0 <= i < |value| ==> value[i] != 0x2B && value[i] != 0x25
    ensures ParsePiece(name + [0x3D] + value) == (name, value)
  {
    var piece := name + [0x3D] + value;
    SplitAt(name, 0x3D, value);
    SplitHead(piece, 0x3D);
    assert TakeUntil(piece, 0x3D) == name;
    assert piece[|name| + 1..] == value;
    assert PlusToSpace(name) == name;
    assert PlusToSpace(value) == value;
  }

  /** `get(name)` on a query that starts with a plain ASCII `name=value&`. */
  lemma {:induction false} FirstPairWins(head: JsString, name: seq<Byte>, value: seq<Byte>, rest: JsString)
    requires forall i :: 0 <= i < |head| ==> head[i] < 0x80
    requires head != [] && head[0] != Unit('?')
    requires Utf8(head) == name + [0x3D] + value + [0x26] && name != []
    requires 0x3D !in name && 0x26 !in name && 0x26 !in value
    requires forall i :: 0 <= i < |name| ==> name[i] != 0x2B && name[i] != 0x25
    requires forall i :: 0 <= i < |value| ==> value[i] != 0x2B && value[i] != 0x25
    ensures GetFirstBytes(ParseQuery(Some(head + rest)), name) == Some(value)
  {
    var pair := name + [0x3D] + value;
    assert 0x26 !in pair;
    FirstPairParsed(head, pair, rest);
    ParsePiecePlain(name, value);
  }

  const L: seq<Byte> := [0x6C]

  /** `size` and the one-letter tiers are plain pair halves. */
  lemma PlainSizeBytes()
    ensures 0x3D !in SIZE && 0x26 !in SIZE && 0x26 !in M && 0x26 !in L
    ensures forall i :: 0 <= i < |SIZE| ==> SIZE[i] != 0x2B && SIZE[i] != 0x25
    ensures forall i :: 0 <= i < |M| ==> M[i] != 0x2B && M[i] != 0x25
    ensures forall i :: 0 <= i < |L| ==> L[i] != 0x2B && L[i] != 0x25
  {
  }

  /** The text `size=m&` and its bytes. */
  lemma SizeMBytes()
    ensures var head := Lit("size=m&");
      && (forall i :: 0 <= i < |head| ==> head[i] < 0x80)
      && head[0] != Unit('?')
      && Utf8(head) == SIZE + [0x3D] + M + [0x26]
  {
    var head := Lit("size=m&");
    Utf8Ascii(head);
    assert Utf8(head) == SIZE + [0x3D] + M + [0x26];
  }

  /** The text `size=l&` and its bytes. */
  lemma SizeLBytes()
    ensures var head := Lit("size=l&");
      && (forall i :: 0 <= i < |head| ==> head[i] < 0x80)
      && head[0] != Unit('?')
      && Utf8(head) == SIZE + [0x3D] + L + [0x26]
  {
    var head := Lit("size=l&");
    Utf8Ascii(head);
    assert Utf8(head) == SIZE + [0x3D] + L + [0x26];
  }

  /** A query whose first pair is `size=m` selects the tier, whatever follows it. */
  lemma SizeFirstPairSelects(rest: JsString)
    ensures SizeIsM(Some(Lit("size=m&") + rest))
  {
    SizeMBytes();
    PlainSizeBytes();
    FirstPairWins(Lit("size=m&"), SIZE, M, rest);
  }

  /** Only the first `size` counts: a later `size=m` does not select the tier. */
  lemma LaterSizeIgnored(rest: JsString)
    ensures !SizeIsM(Some(Lit("size=l&") + rest))
  {
    SizeLBytes();
    PlainSizeBytes();
    FirstPairWins(Lit("size=l&"), SIZE, L, rest);
    assert L != M;
  }
}
