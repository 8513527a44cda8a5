/** `URLSearchParams` as the WHATWG URL Standard defines it (section 6.2,
  * "Interface URLSearchParams"): an ordered list of (name, value) pairs, and
  * the application/x-www-form-urlencoded parser of section 5.1 that reads a
  * query string into such a list.
  */
module UrlParams {
  import opened JsText

  type Entry = (JsString, JsString)

  /** `get(name)`: the value of the first pair with that name. */
  function GetFirst(es: seq<Entry>, name: JsString): (r: Option<JsString>)
    ensures r.None? <==> forall i :: 0 <= i < |es| ==> es[i].0 != name
    ensures r.Some? ==> exists i :: 0 <= i < |es| && es[i] == (name, r.value)
                                    && forall j :: 0 <= j < i ==> es[j].0 != name
  {
    if es == [] then None
    else if es[0].0 == name then Some(es[0].1)
    else
      var r := GetFirst(es[1..], name);
      assert r.Some? ==> exists i :: 1 <= i < |es| && es[i] == (name, r.value)
                                      && forall j :: 1 <= j < i ==> es[j].0 != name;
      r
  }

  /** The values of the pairs with that name, in order (`getAll(name)`). */
  function GetAll(es: seq<Entry>, name: JsString): (r: seq<JsString>)
    ensures |r| <= |es|
    ensures forall v :: v in r <==> (name, v) in es
  {
    if es == [] then []
    else (if es[0].0 == name then [es[0].1] else []) + GetAll(es[1..], name)
  }

  /** `delete(name)`: every pair with that name goes, the others keep their order. */
  function DeleteEntries(es: seq<Entry>, name: JsString): (r: seq<Entry>)
    ensures forall e :: e in r <==> e in es && e.0 != name
  {
    if es == [] then []
    else (if es[0].0 == name then [] else [es[0]]) + DeleteEntries(es[1..], name)
  }

  /** `set(name, value)`: the first pair with that name takes the value and
    * the later ones go; without such a pair, the pair is appended. */
  function SetEntries(es: seq<Entry>, name: JsString, value: JsString): (r: seq<Entry>)
    ensures (name, value) in r
    ensures forall e :: e in r && e.0 != name ==> e in es
    ensures forall e :: e in es && e.0 != name ==> e in r
  {
    if es == [] then [(name, value)]
    else if es[0].0 == name then [(name, value)] + DeleteEntries(es[1..], name)
    else [es[0]] + SetEntries(es[1..], name, value)
  }

  /** After `set(name, value)`, `get(name)` is `value` and it is the only value of that name. */
  lemma {:induction false} SetThenGet(es: seq<Entry>, name: JsString, value: JsString)
    ensures GetFirst(SetEntries(es, name, value), name) == Some(value)
    ensures GetAll(SetEntries(es, name, value), name) == [value]
  {
    if es != [] {
      if es[0].0 == name {
        DeleteThenGet(es[1..], name);
      } else {
        SetThenGet(es[1..], name, value);
      }
    } else {
      assert GetAll([(name, value)], name) == [value] + GetAll([], name);
    }
  }

  /** After `delete(name)` no value of that name is left. */
  lemma {:induction false} DeleteThenGet(es: seq<Entry>, name: JsString)
    ensures GetFirst(DeleteEntries(es, name), name) == None
    ensures GetAll(DeleteEntries(es, name), name) == []
  {
    if es != [] {
      DeleteThenGet(es[1..], name);
      var rest := DeleteEntries(es[1..], name);
      if es[0].0 != name {
        assert DeleteEntries(es, name) == [es[0]] + rest;
        assert ([es[0]] + rest)[1..] == rest;
      } else {
        assert DeleteEntries(es, name) == rest;
      }
    }
  }

  /** `set` leaves the values of every other name as they were, in order. */
  lemma {:induction false} SetKeepsOthers(es: seq<Entry>, name: JsString, value: JsString, other: JsString)
    requires other != name
    ensures GetAll(SetEntries(es, name, value), other) == GetAll(es, other)
  {
    if es == [] {
      assert GetAll([(name, value)], other) == [] + GetAll([], other);
    } else if es[0].0 == name {
      DeleteKeepsOthers(es[1..], name, other);
      assert ([(name, value)] + DeleteEntries(es[1..], name))[1..] == DeleteEntries(es[1..], name);
    } else {
      SetKeepsOthers(es[1..], name, value, other);
      assert ([es[0]] + SetEntries(es[1..], name, value))[1..] == SetEntries(es[1..], name, value);
    }
  }

  /** `delete` leaves the values of every other name as they were, in order. */
  lemma {:induction false} DeleteKeepsOthers(es: seq<Entry>, name: JsString, other: JsString)
    requires other != name
    ensures GetAll(DeleteEntries(es, name), other) == GetAll(es, other)
  {
    if es != [] {
      DeleteKeepsOthers(es[1..], name, other);
      var rest := DeleteEntries(es[1..], name);
      if es[0].0 != name {
        assert DeleteEntries(es, name) == [es[0]] + rest;
        assert ([es[0]] + rest)[1..] == rest;
      } else {
        assert DeleteEntries(es, name) == rest;
      }
    }
  }

  /** The values of one name determine what `get` sees. */
  lemma {:induction false} GetFirstOfAll(es: seq<Entry>, name: JsString)
    ensures GetFirst(es, name) == (if GetAll(es, name) == [] then None else Some(GetAll(es, name)[0]))
  {
    if es != [] && es[0].0 != name {
      GetFirstOfAll(es[1..], name);
    }
  }

  /** A `URLSearchParams` object. */
  class SearchParams {
    var entries: seq<Entry>

    /** `new URLSearchParams(other)`: a copy of another object's pairs. */
    constructor (init: seq<Entry>)
      ensures entries == init
    {
      entries := init;
    }

    function Get(name: JsString): (r: Option<JsString>)
      reads this
      ensures r == GetFirst(entries, name)
    {
      GetFirst(entries, name)
    }

    method Set(name: JsString, value: JsString)
      modifies this
      ensures entries == SetEntries(old(entries), name, value)
      ensures Get(name) == Some(value)
    {
      entries := SetEntries(entries, name, value);
      SetThenGet(old(entries), name, value);
    }

    method Delete(name: JsString)
      modifies this
      ensures entries == DeleteEntries(old(entries), name)
      ensures Get(name) == None
    {
      entries := DeleteEntries(entries, name);
      DeleteThenGet(old(entries), name);
    }
  }

  // ---------------------------------------------------------------------
  // The application/x-www-form-urlencoded parser (URL Standard, section 5.1)

  newtype Byte = x: int | 0 <= x < 0x100

  /** UTF-8 encoding of a JavaScript string, which first turns each lone
    * surrogate into U+FFFD (the "USVString" conversion of WebIDL). */
  function Utf8(s: JsString): seq<Byte>
    decreases |s|
  {
    if s == [] then []
    else
      var c := s[0] as int;
      if c < 0x80 then [c as Byte] + Utf8(s[1..])
      else if c < 0x800 then [(0xC0 + c / 0x40) as Byte, (0x80 + c % 0x40) as Byte] + Utf8(s[1..])
      else if 0xD800 <= c < 0xDC00 && |s| > 1 && 0xDC00 <= s[1] as int < 0xE000 then
        var cp := 0x1_0000 + (c - 0xD800) * 0x400 + (s[1] as int - 0xDC00);
        [(0xF0 + cp / 0x4_0000) as Byte, (0x80 + cp / 0x1000 % 0x40) as Byte,
         (0x80 + cp / 0x40 % 0x40) as Byte, (0x80 + cp % 0x40) as Byte] + Utf8(s[2..])
      else if 0xD800 <= c < 0xE000 then [0xEF, 0xBF, 0xBD] + Utf8(s[1..])
      else [(0xE0 + c / 0x1000) as Byte, (0x80 + c / 0x40 % 0x40) as Byte, (0x80 + c % 0x40) as Byte] + Utf8(s[1..])
  }

  /** An ASCII text is its own UTF-8 encoding. */
  lemma {:induction false} Utf8Ascii(s: JsString)
    requires forall i :: 0 <= i < |s| ==> s[i] < 0x80
    ensures |Utf8(s)| == |s|
    ensures forall i :: 0 <= i < |s| ==> Utf8(s)[i] as int == s[i] as int
  {
    if s != [] {
      Utf8Ascii(s[1..]);
    }
  }

  /** UTF-8 encoding of ASCII text followed by anything is the bytes of the text followed by the encoding of the rest. */
  lemma {:induction false} Utf8AsciiAppend(a: JsString, b: JsString)
    requires forall i :: 0 <= i < |a| ==> a[i] < 0x80
    ensures Utf8(a + b) == Utf8(a) + Utf8(b)
  {
    if a == [] {
      assert a + b == b;
    } else {
      assert (a + b)[1..] == a[1..] + b;
      Utf8AsciiAppend(a[1..], b);
    }
  }

  predicate IsHexByte(b: Byte) {
    (0x30 <= b <= 0x39) || (0x41 <= b <= 0x46) || (0x61 <= b <= 0x66)
  }

  function HexValue(b: Byte): (v: int)
    requires IsHexByte(b)
    ensures 0 <= v < 16
  {
    if b <= 0x39 then b as int - 0x30 else if b <= 0x46 then b as int - 0x41 + 10 else b as int - 0x61 + 10
  }

  /** Percent-decoding (URL Standard, section 1.3): `%` and two hex digits
    * become one byte; every other byte, including a stray `%`, stays. */
  function PercentDecode(b: seq<Byte>): (r: seq<Byte>)
    ensures |r| <= |b|
    ensures (forall i :: 0 <= i < |b| ==> b[i] != 0x25) ==> r == b
  {
    if b == [] then []
    else if b[0] == 0x25 && |b| >= 3 && IsHexByte(b[1]) && IsHexByte(b[2]) then
      [(HexValue(b[1]) * 16 + HexValue(b[2])) as Byte] + PercentDecode(b[3..])
    else [b[0]] + PercentDecode(b[1..])
  }

  /** Every `+` becomes a space. */
  function PlusToSpace(b: seq<Byte>): (r: seq<Byte>)
    ensures |r| == |b|
    ensures forall i :: 0 <= i < |b| ==> r[i] == if b[i] == 0x2B then 0x20 else b[i]
  {
    if b == [] then [] else [if b[0] == 0x2B then 0x20 else b[0]] + PlusToSpace(b[1..])
  }

  /** A parsed pair, with name and value left as the decoded bytes. Turning
    * them into strings (UTF-8 decoding without BOM) maps a byte sequence to
    * an ASCII text exactly when the bytes are that text, so comparisons with
    * ASCII names and values are made on the bytes. */
  type ByteEntry = (seq<Byte>, seq<Byte>)

  /** One `&`-separated piece: the name before the first `=`, the value after it. */
  function ParsePiece(piece: seq<Byte>): ByteEntry {
    var name := TakeUntil(piece, 0x3D);
    var value := if |name| < |piece| then piece[|name| + 1..] else [];
    (PercentDecode(PlusToSpace(name)), PercentDecode(PlusToSpace(value)))
  }

  function ParsePieces(pieces: seq<seq<Byte>>): (r: seq<ByteEntry>)
    ensures |r| <= |pieces|
  {
    if pieces == [] then []
    else (if pieces[0] == [] then [] else [ParsePiece(pieces[0])]) + ParsePieces(pieces[1..])
  }

  /** The form-urlencoded parser: split on `&`, skip empty pieces, parse each. */
  function FormParse(input: seq<Byte>): (r: seq<ByteEntry>)
    ensures input == [] ==> r == []
    ensures input != [] && 0x26 !in input ==> r == [ParsePiece(input)]
  {
    if 0x26 !in input then
      SplitNoSeparator(input, 0x26 as Byte);
      ParsePieces(Split(input, 0x26))
    else ParsePieces(Split(input, 0x26))
  }

  /** `new URLSearchParams(init)` for a string or `undefined` init: a leading
    * `?` is dropped, then the UTF-8 bytes are parsed. */
  function ParseQuery(init: Option<JsString>): (r: seq<ByteEntry>)
    ensures Blank(init) || init == Some([Unit('?')]) ==> r == []
  {
    match init
    case None => []
    case Some(s) =>
      var t := if s != [] && s[0] == Unit('?') then s[1..] else s;
      FormParse(Utf8(t))
  }

  /** `get(name)` on parsed pairs: missing exactly when no pair has the name,
    * and otherwise the value of the first pair that has it. */
  function GetFirstBytes(es: seq<ByteEntry>, name: seq<Byte>): (r: Option<seq<Byte>>)
    ensures r.None? <==> forall i :: 0 <= i < |es| ==> es[i].0 != name
    ensures r.Some? ==> exists i :: 0 <= i < |es| && es[i] == (name, r.value) && forall j :: 0 <= j < i ==> es[j].0 != name
  {
    if es == [] then None
    else if es[0].0 == name then Some(es[0].1)
    else GetFirstBytes(es[1..], name)
  }

  /** The bytes of an ASCII literal. */
  function Ascii(s: string): seq<Byte> {
    Utf8(Lit(s))
  }
}
