/** JavaScript strings and the few string primitives the admin panel relies on.
  *
  * A JavaScript string is a sequence of UTF-16 code units, so `length`,
  * `substring`, `split` and the regular expressions without the `u` flag
  * all count and compare code units.  The model keeps that view: a
  * `JsString` is a `seq<CodeUnit>`, and a supplementary-plane character is
  * two code units that a `substring` may separate.
  */
module JsText {

  /** One UTF-16 code unit. */
  newtype CodeUnit = x: int | 0 <= x < 0x1_0000

  type JsString = seq<CodeUnit>

  /** The code unit of a basic-multilingual-plane character (used for literals). */
  function Unit(c: char): CodeUnit {
    if c as int < 0x1_0000 then c as int as CodeUnit else 0xFFFD
  }

  /** A string literal of the source as code units. */
  function Lit(s: string): (r: JsString)
    ensures |r| == |s|
    ensures forall i :: 0 <= i < |s| ==> r[i] == Unit(s[i])
  {
    seq(|s|, i requires 0 <= i < |s| => Unit(s[i]))
  }

  datatype Option<T> = None | Some(value: T)

  /** `!x` on a string that may be missing: undefined and `""` are falsy. */
  predicate Blank(x: Option<JsString>) {
    x.None? || x.value == []
  }

  /** JavaScript's notion of a number, restricted to what the source produces:
    * the integers `parseInt` yields and NaN. */
  datatype JsNumber = NaN | Int(value: int)
  {
    /** `!x` in JavaScript: NaN and zero are falsy. */
    predicate Falsy() {
      NaN? || value == 0
    }
  }

  /** The `\s` class of ECMAScript regular expressions and the set `trim`
    * removes: WhiteSpace (ECMA-262 section 12.2, including every Unicode
    * Zs code point) and LineTerminator (ECMA-262 section 12.3). */
  predicate IsSpace(c: CodeUnit) {
    c == 0x09 || c == 0x0B || c == 0x0C || c == 0x20 || c == 0xA0 || c == 0xFEFF
    || c == 0x1680 || (0x2000 <= c <= 0x200A) || c == 0x202F || c == 0x205F || c == 0x3000
    || c == 0x0A || c == 0x0D || c == 0x2028 || c == 0x2029
  }

  predicate NoSpace(s: JsString) {
    forall i :: 0 <= i < |s| ==> !IsSpace(s[i])
  }

  predicate IsDigit(c: CodeUnit) {
    0x30 <= c <= 0x39
  }

  /** `s.startsWith(p)`. */
  predicate StartsWith(s: JsString, p: JsString) {
    |p| <= |s| && s[..|p|] == p
  }

  /** `s.endsWith(p)`. */
  predicate EndsWith(s: JsString, p: JsString) {
    |p| <= |s| && s[|s| - |p|..] == p
  }

  /** `hay.includes(needle)`; the empty needle is found in every string. */
  predicate Includes(hay: JsString, needle: JsString)
    decreases |hay|
  {
    StartsWith(hay, needle) || (hay != [] && Includes(hay[1..], needle))
  }

  lemma {:induction false} IncludesEmpty(hay: JsString)
    ensures Includes(hay, [])
  {
  }

  /** The prefix of `s` before the first `d` (all of `s` when there is none). */
  function TakeUntil<T(==)>(s: seq<T>, d: T): (r: seq<T>)
    ensures |r| <= |s| && r == s[..|r|] && d !in r
    ensures |r| < |s| ==> s[|r|] == d
  {
    if s == [] || s[0] == d then [] else [s[0]] + TakeUntil(s[1..], d)
  }

  /** `s.split(d)` for a one-code-unit separator. */
  function Split<T(==)>(s: seq<T>, d: T): (parts: seq<seq<T>>)
    ensures |parts| >= 1
    ensures forall i :: 0 <= i < |parts| ==> d !in parts[i]
    decreases |s|
  {
    if s == [] then [[]]
    else if s[0] == d then [[]] + Split(s[1..], d)
    else
      var rest := Split(s[1..], d);
      [[s[0]] + rest[0]] + rest[1..]
  }

  /** `parts.join(d)`. */
  function Join<T>(parts: seq<seq<T>>, d: T): seq<T>
  {
    if parts == [] then []
    else if |parts| == 1 then parts[0]
    else parts[0] + [d] + Join(parts[1..], d)
  }

  /** Joining after growing the first part at its front grows the result. */
  lemma JoinPrepend<T>(c: T, parts: seq<seq<T>>, d: T)
    requires parts != []
    ensures Join([[c] + parts[0]] + parts[1..], d) == [c] + Join(parts, d)
  {
    var grown := [[c] + parts[0]] + parts[1..];
    assert grown[0] == [c] + parts[0] && grown[1..] == parts[1..];
  }

  /** Splitting and joining on the same separator give the string back. */
  lemma {:induction false} JoinSplit<T>(s: seq<T>, d: T)
    ensures Join(Split(s, d), d) == s
    decreases |s|
  {
    if s == [] {
    } else if s[0] == d {
      var rest := Split(s[1..], d);
      JoinSplit(s[1..], d);
      var parts := [[]] + rest;
      assert parts[0] == [] && parts[1..] == rest;
      assert Join(parts, d) == [d] + Join(rest, d);
      assert s == [d] + s[1..];
    } else {
      var rest := Split(s[1..], d);
      JoinSplit(s[1..], d);
      JoinPrepend(s[0], rest, d);
      assert s == [s[0]] + s[1..];
    }
  }

  /** The first part of a split is the text before the first separator. */
  lemma {:induction false} SplitHead<T>(s: seq<T>, d: T)
    ensures Split(s, d)[0] == TakeUntil(s, d)
    decreases |s|
  {
    if s != [] && s[0] != d {
      SplitHead(s[1..], d);
    }
  }

  /** A string without the separator splits into itself alone. */
  lemma {:induction false} SplitNoSeparator<T>(s: seq<T>, d: T)
    requires d !in s
    ensures Split(s, d) == [s]
    decreases |s|
  {
    if s != [] {
      SplitNoSeparator(s[1..], d);
      assert [s[0]] + s[1..] == s;
    }
  }

  /** Splitting `a + [d] + b`, where `a` has no separator, yields `a` followed by the parts of `b`. */
  lemma {:induction false} SplitAt<T>(a: seq<T>, d: T, b: seq<T>)
    requires d !in a
    ensures Split(a + [d] + b, d) == [a] + Split(b, d)
    decreases |a|
  {
    if a == [] {
      assert a + [d] + b == [d] + b;
      assert ([d] + b)[1..] == b;
    } else {
      assert (a + [d] + b)[1..] == a[1..] + [d] + b;
      SplitAt(a[1..], d, b);
      assert [a[0]] + a[1..] == a;
    }
  }

  /** The last part of a split is the text after the last separator. */
  lemma {:induction false} SplitLast<T>(a: seq<T>, d: T, b: seq<T>)
    requires d !in b
    ensures var p := Split(a + [d] + b, d); p[|p| - 1] == b
    decreases |a|
  {
    if a == [] {
      assert a + [d] + b == [d] + b;
      assert ([d] + b)[1..] == b;
      SplitNoSeparator(b, d);
    } else {
      assert (a + [d] + b)[1..] == a[1..] + [d] + b;
      SplitLast(a[1..], d, b);
      SplitHasTwo(a[1..], d, b);
    }
  }

  /** A string holding the separator splits into at least two parts. */
  lemma {:induction false} SplitHasTwo<T>(a: seq<T>, d: T, b: seq<T>)
    ensures |Split(a + [d] + b, d)| >= 2
    decreases |a|
  {
    if a == [] {
      assert a + [d] + b == [d] + b;
      assert ([d] + b)[1..] == b;
    } else {
      assert (a + [d] + b)[1..] == a[1..] + [d] + b;
      SplitHasTwo(a[1..], d, b);
    }
  }

  /** Splitting at the last separator: the parts of the text before it, then the text after it. */
  lemma {:induction false} SplitLastSeparator<T>(a: seq<T>, d: T, b: seq<T>)
    requires d !in b
    ensures Split(a + [d] + b, d) == Split(a, d) + [b]
    decreases |a|
  {
    if a == [] {
      assert a + [d] + b == [d] + b;
      assert ([d] + b)[1..] == b;
      SplitNoSeparator(b, d);
    } else {
      assert (a + [d] + b)[1..] == a[1..] + [d] + b;
      SplitLastSeparator(a[1..], d, b);
    }
  }

  /** Joining parts that hold no separator and splitting again gives the parts back. */
  lemma {:induction false} SplitJoin<T>(parts: seq<seq<T>>, d: T)
    requires parts != []
    requires forall i :: 0 <= i < |parts| ==> d !in parts[i]
    ensures Split(Join(parts, d), d) == parts
  {
    if |parts| == 1 {
      SplitNoSeparator(parts[0], d);
    } else {
      SplitJoin(parts[1..], d);
      SplitAt(parts[0], d, Join(parts[1..], d));
      assert [parts[0]] + parts[1..] == parts;
    }
  }

  /** A value that is neither the separator nor in any part is not in the join. */
  lemma {:induction false} JoinExcludes<T>(parts: seq<seq<T>>, d: T, x: T)
    requires x != d
    requires forall i :: 0 <= i < |parts| ==> x !in parts[i]
    ensures x !in Join(parts, d)
  {
    if |parts| > 1 {
      JoinExcludes(parts[1..], d, x);
    }
  }

  /** The text before the first separator, when the separator follows `a`. */
  lemma TakeUntilAt<T>(a: seq<T>, d: T, b: seq<T>)
    requires d !in a
    ensures TakeUntil(a + [d] + b, d) == a
  {
    SplitHead(a + [d] + b, d);
    SplitAt(a, d, b);
  }

  /** The value of a run of decimal digits. */
  function DigitsValue(ds: JsString): nat
    requires forall i :: 0 <= i < |ds| ==> IsDigit(ds[i])
  {
    if ds == [] then 0
    else
      assert IsDigit(ds[|ds| - 1]);
      DigitsValue(ds[..|ds| - 1]) * 10 + (ds[|ds| - 1] as int - 0x30)
  }

  /** The longest prefix of decimal digits. */
  function LeadingDigits(s: JsString): (ds: JsString)
    ensures |ds| <= |s| && ds == s[..|ds|]
    ensures forall i :: 0 <= i < |ds| ==> IsDigit(ds[i])
    ensures |ds| < |s| ==> !IsDigit(s[|ds|])
  {
    if s == [] || !IsDigit(s[0]) then [] else [s[0]] + LeadingDigits(s[1..])
  }

  /** `s` without its leading `\s` code units. */
  function TrimStart(s: JsString): (r: JsString)
    ensures |r| <= |s|
    ensures r != [] ==> !IsSpace(r[0])
  {
    if s != [] && IsSpace(s[0]) then TrimStart(s[1..]) else s
  }

  /** What `TrimStart` leaves is a suffix of its argument. */
  lemma {:induction false} TrimStartSuffix(s: JsString)
    ensures TrimStart(s) == s[|s| - |TrimStart(s)|..]
  {
    if s != [] && IsSpace(s[0]) {
      TrimStartSuffix(s[1..]);
    }
  }

  /** `s` without its trailing `\s` code units. */
  function TrimEnd(s: JsString): (r: JsString)
    ensures |r| <= |s| && r == s[..|r|]
    ensures r != [] ==> !IsSpace(r[|r| - 1])
  {
    if s != [] && IsSpace(s[|s| - 1]) then TrimEnd(s[..|s| - 1]) else s
  }

  /** `s.trim()`. */
  function Trim(s: JsString): JsString {
    TrimEnd(TrimStart(s))
  }

  /** `parseInt(s, 10)`: leading white space, an optional sign, then the longest
    * run of decimal digits; NaN when there is no digit. */
  function ParseInt(s: JsString): (n: JsNumber)
  {
    var t := TrimStart(s);
    var negative := t != [] && t[0] == Unit('-');
    var body := if t != [] && (t[0] == Unit('-') || t[0] == Unit('+')) then t[1..] else t;
    var ds := LeadingDigits(body);
    if ds == [] then NaN
    else if negative then Int(-(DigitsValue(ds) as int))
    else Int(DigitsValue(ds))
  }

  /** parseInt reads exactly the digits of a canonical decimal string. */
  lemma {:induction false} ParseIntDigits(ds: JsString)
    requires ds != [] && forall i :: 0 <= i < |ds| ==> IsDigit(ds[i])
    ensures ParseInt(ds) == Int(DigitsValue(ds))
  {
    assert TrimStart(ds) == ds;
    assert !(ds[0] == Unit('-') || ds[0] == Unit('+'));
    LeadingDigitsAll(ds);
  }

  lemma {:induction false} LeadingDigitsAll(ds: JsString)
    requires forall i :: 0 <= i < |ds| ==> IsDigit(ds[i])
    ensures LeadingDigits(ds) == ds
  {
    if ds != [] {
      LeadingDigitsAll(ds[1..]);
    }
  }

  /** parseInt never reads past a non-digit: a text with no digit at all is NaN. */
  lemma ParseIntNoDigit(s: JsString)
    requires forall i :: 0 <= i < |s| ==> !IsDigit(s[i])
    ensures ParseInt(s) == NaN
  {
    var t := TrimStart(s);
    var body := if t != [] && (t[0] == Unit('-') || t[0] == Unit('+')) then t[1..] else t;
    TrimStartSuffix(s);
    assert forall i :: 0 <= i < |body| ==> !IsDigit(body[i]) by {
      forall i | 0 <= i < |body| ensures !IsDigit(body[i]) {
        if t != [] && (t[0] == Unit('-') || t[0] == Unit('+')) {
          assert body[i] == s[|s| - |t| + 1 + i];
        } else {
          assert body[i] == s[|s| - |t| + i];
        }
      }
    }
  }

  /** The decimal digits of a natural number, as `String(n)` writes it. */
  function DecimalText(n: nat): (r: JsString)
    ensures r != [] && forall i :: 0 <= i < |r| ==> IsDigit(r[i])
  {
    if n < 10 then [(0x30 + n) as CodeUnit] else DecimalText(n / 10) + [(0x30 + n % 10) as CodeUnit]
  }

  /** parseInt reads back what String(n) wrote. */
  lemma {:induction false} DecimalTextValue(n: nat)
    ensures DigitsValue(DecimalText(n)) == n
  {
    var r := DecimalText(n);
    if n >= 10 {
      DecimalTextValue(n / 10);
      assert r[..|r| - 1] == DecimalText(n / 10);
    }
  }
}
