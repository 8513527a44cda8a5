/** The page navigation of the admin post list: the stand-alone component
  * (src/app/admin/posts/Pagination.jsx) and the variant inside
  * client-components.jsx. Both read `page` and `limit` from the route's search
  * parameters and write a new `page` back.
  */
module Pagination {
  import opened JsText
  import opened UrlParams

  /** A non-empty run of decimal digits. */
  predicate IsDigits(s: JsString) {
    s != [] && forall i :: 0 <= i < |s| ==> IsDigit(s[i])
  }

  /** `Number(v)` for a search parameter that may be missing: `null` and a
    * text that trims to nothing are 0, an optionally signed run of decimal
    * digits between white space is its value, and any other text is NaN. */
  function NumberOf(v: Option<JsString>): JsNumber {
    if v.None? then Int(0)
    else
      var t := Trim(v.value);
      if t == [] then Int(0)
      else
        var body := if t[0] == Unit('-') || t[0] == Unit('+') then t[1..] else t;
        if !IsDigits(body) then NaN
        else if t[0] == Unit('-') then Int(-(DigitsValue(body) as int))
        else Int(DigitsValue(body))
  }

  /** `Number(x) || fallback`: 0 and NaN are falsy and take the fallback. */
  function OrFallback(n: JsNumber, fallback: int): (r: int)
    ensures n.Falsy() ==> r == fallback
    ensures !n.Falsy() ==> n == Int(r) && r != 0
  {
    if n.Falsy() then fallback else n.value
  }

  /** `Number(searchParams.get("page")) || 1`. */
  function CurrentPage(es: seq<Entry>): (r: int)
    ensures r != 0
  {
    OrFallback(NumberOf(GetFirst(es, Lit("page"))), 1)
  }

  /** `Number(searchParams.get("limit")) || 10`. */
  function Limit(es: seq<Entry>): (r: int)
    ensures r != 0
  {
    OrFallback(NumberOf(GetFirst(es, Lit("limit"))), 10)
  }

  /** A missing, empty, zero or non-numeric `page` is page 1, and the same
    * texts for `limit` give 10. */
  lemma DefaultsWhenFalsy(es: seq<Entry>)
    requires NumberOf(GetFirst(es, Lit("page"))).Falsy() && NumberOf(GetFirst(es, Lit("limit"))).Falsy()
    ensures CurrentPage(es) == 1 && Limit(es) == 10
  {
  }

  /** No parameter at all, or an empty `page` and `limit`: page 1 of 10. */
  lemma DefaultsWhenMissing(es: seq<Entry>)
    requires GetFirst(es, Lit("page")) in {None, Some([])}
    requires GetFirst(es, Lit("limit")) in {None, Some([])}
    ensures CurrentPage(es) == 1 && Limit(es) == 10
  {
    assert Trim([]) == [];
  }

  /** `Math.ceil(totalItems / limit)` on integers. `limit` is never 0 here. */
  function TotalPages(totalItems: nat, limit: int): (r: int)
    requires limit != 0
    ensures limit > 0 ==> (r - 1) * limit < totalItems <= r * limit
    ensures limit < 0 ==> r * limit <= totalItems < (r - 1) * limit
    ensures limit < 0 ==> r <= 0
  {
    if limit > 0 then
      var a: int := totalItems;
      var q := (-a) / limit;
      var m := (-a) % limit;
      assert -a == q * limit + m && 0 <= m < limit;
      assert -q * limit == totalItems + m;
      -q
    else
      var c := -limit;
      var q := totalItems / c;
      var m := totalItems % c;
      assert totalItems == q * c + m && 0 <= m < c;
      assert -q * limit == totalItems - m;
      -q
  }

  /** With a positive limit the page count is never negative, and it is 0 exactly for an empty list. */
  lemma TotalPagesPositiveLimit(totalItems: nat, limit: int)
    requires limit > 0
    ensures TotalPages(totalItems, limit) >= 0
    ensures TotalPages(totalItems, limit) == 0 <==> totalItems == 0
    ensures TotalPages(totalItems, limit) <= 1 <==> totalItems <= limit
  {
    var r := TotalPages(totalItems, limit);
    if r < 0 {
      MulBelow(r, limit, -1);
      assert false;
    }
    if r >= 2 {
      MulAbove(r - 1, limit, 1);
    }
    if r == 1 {
      assert totalItems <= limit;
    }
  }

  /** `a * b <= c * b` for `a <= c` and a positive `b`. */
  lemma MulBelow(a: int, b: int, c: int)
    requires a <= c && b > 0
    ensures a * b <= c * b
  {
    assert c * b - a * b == (c - a) * b;
  }

  /** `a * b >= c * b` for `a >= c` and a positive `b`. */
  lemma MulAbove(a: int, b: int, c: int)
    requires a >= c && b > 0
    ensures a * b >= c * b
  {
    assert a * b - c * b == (a - c) * b;
  }

  /** One page button: the page it goes to, and whether it is highlighted. */
  datatype PageButton = PageButton(page: int, highlighted: bool)

  /** What the component shows: the two arrows' disabled state and the page buttons. */
  datatype View = View(prevDisabled: bool, buttons: seq<PageButton>, nextDisabled: bool)

  /** The component of Pagination.jsx; `Array(totalPages)` throws a RangeError
    * (`None`) for a negative page count. */
  function Render(es: seq<Entry>, totalItems: nat): (r: Option<View>)
    ensures r.Some? <==> TotalPages(totalItems, Limit(es)) >= 0
    ensures r.Some? ==> |r.value.buttons| == TotalPages(totalItems, Limit(es))
  {
    var current := CurrentPage(es);
    var total := TotalPages(totalItems, Limit(es));
    if total < 0 then None
    else Some(View(current <= 1,
                   seq(total, i requires 0 <= i < total => PageButton(i + 1, current == i + 1)),
                   current >= total))
  }

  /** One button per page 1..totalPages in order; a button is highlighted
    * only when it is the current page, and one is highlighted iff the
    * current page is in range; prev and next are disabled at the ends. */
  lemma RenderButtons(es: seq<Entry>, totalItems: nat)
    ensures var total := TotalPages(totalItems, Limit(es));
      Render(es, totalItems).Some? <==> total >= 0
    ensures Render(es, totalItems).Some? ==>
      var v := Render(es, totalItems).value;
      var total := TotalPages(totalItems, Limit(es));
      var current := CurrentPage(es);
      && |v.buttons| == total
      && (forall i :: 0 <= i < |v.buttons| ==> v.buttons[i].page == i + 1)
      && (forall i :: 0 <= i < |v.buttons| && v.buttons[i].highlighted ==> v.buttons[i].page == current)
      && (forall i, j :: 0 <= i < j < |v.buttons| ==> !(v.buttons[i].highlighted && v.buttons[j].highlighted))
      && ((exists i :: 0 <= i < |v.buttons| && v.buttons[i].highlighted) <==> 1 <= current <= total)
      && (v.prevDisabled <==> current <= 1)
      && (v.nextDisabled <==> current >= total)
  {
    if Render(es, totalItems).Some? {
      var v := Render(es, totalItems).value;
      var current := CurrentPage(es);
      if 1 <= current <= |v.buttons| {
        assert v.buttons[current - 1].highlighted;
      }
    }
  }

  /** With a positive limit the component always renders, and its buttons
    * reach every item: `buttons * limit >= totalItems`. */
  lemma RenderPositiveLimit(es: seq<Entry>, totalItems: nat)
    requires Limit(es) > 0
    ensures Render(es, totalItems).Some?
    ensures (|Render(es, totalItems).value.buttons| - 1) * Limit(es) < totalItems <= |Render(es, totalItems).value.buttons| * Limit(es)
  {
    TotalPagesPositiveLimit(totalItems, Limit(es));
  }

  /** A negative `limit` whose magnitude is at most the item count makes the page count negative, and the component throws. */
  lemma NegativeLimitThrows(es: seq<Entry>, totalItems: nat)
    requires Limit(es) < 0 && totalItems >= -Limit(es)
    ensures Render(es, totalItems).None?
  {
    var limit := Limit(es);
    var r := TotalPages(totalItems, limit);
    assert r != 0 by {
      assert r == 0 ==> (r - 1) * limit == -limit;
    }
  }

  /** `n.toString()` for an integer. */
  function IntText(n: int): (r: JsString)
    ensures r != [] && IsDigit(r[|r| - 1])
  {
    if n < 0 then [Unit('-')] + DecimalText(-n) else DecimalText(n)
  }

  /** `Number` reads back what `toString` wrote. */
  lemma NumberOfIntText(n: int)
    ensures NumberOf(Some(IntText(n))) == Int(n)
  {
    TrimIntText(n);
    var s := IntText(n);
    if n < 0 {
      assert s[1..] == DecimalText(-n);
      DecimalTextValue(-n);
    } else {
      DecimalTextValue(n);
    }
  }

  /** `toString` writes no white space around the number. */
  lemma TrimIntText(n: int)
    ensures TrimStart(IntText(n)) == IntText(n)
    ensures Trim(IntText(n)) == IntText(n)
  {
    var s := IntText(n);
    assert !IsSpace(s[0]);
    assert TrimStart(s) == s;
    assert TrimEnd(s) == s;
  }

  /** `parseInt(String(n), 10)` — how the server reads the page back — is `n` too. */
  lemma ParseIntOfIntText(n: int)
    ensures ParseInt(IntText(n)) == Int(n)
  {
    TrimIntText(n);
    var s := IntText(n);
    if n < 0 {
      assert s[1..] == DecimalText(-n);
      LeadingDigitsAll(DecimalText(-n));
      DecimalTextValue(-n);
    } else {
      ParseIntDigits(s);
      DecimalTextValue(n);
    }
  }

  /** `createPageURL(pageNumber)`: the parameters with `page` set to the number. */
  function CreatePageUrl(es: seq<Entry>, pageNumber: int): (r: seq<Entry>)
    ensures GetAll(r, Lit("page")) == [IntText(pageNumber)]
  {
    SetThenGet(es, Lit("page"), IntText(pageNumber));
    SetEntries(es, Lit("page"), IntText(pageNumber))
  }

  /** The page URL changes `page` only: every other parameter keeps its values. */
  lemma PageUrlKeepsOthers(es: seq<Entry>, pageNumber: int, other: JsString)
    requires other != Lit("page")
    ensures GetAll(CreatePageUrl(es, pageNumber), other) == GetAll(es, other)
  {
    SetKeepsOthers(es, Lit("page"), IntText(pageNumber), other);
  }

  /** Following a page link shows that page with the same limit; the server
    * reads the same page number. */
  lemma PageUrlReadBack(es: seq<Entry>, pageNumber: int)
    requires pageNumber != 0
    ensures CurrentPage(CreatePageUrl(es, pageNumber)) == pageNumber
    ensures Limit(CreatePageUrl(es, pageNumber)) == Limit(es)
    ensures GetFirst(CreatePageUrl(es, pageNumber), Lit("page")) == Some(IntText(pageNumber))
    ensures ParseInt(IntText(pageNumber)) == Int(pageNumber)
  {
    SetThenGet(es, Lit("page"), IntText(pageNumber));
    NumberOfIntText(pageNumber);
    ParseIntOfIntText(pageNumber);
    var next := CreatePageUrl(es, pageNumber);
    assert Lit("limit") != Lit("page") by {
      assert Lit("limit")[0] != Lit("page")[0];
    }
    PageUrlKeepsOthers(es, pageNumber, Lit("limit"));
    GetFirstOfAll(es, Lit("limit"));
    GetFirstOfAll(next, Lit("limit"));
  }

  // ---------------------------------------------------------------------
  // The variant in client-components.jsx

  /** `handlePageChange(newPage)`: pages outside `1..totalPages` are ignored
    * (`None`); any other page is written into the parameters. */
  function ClientPageChange(es: seq<Entry>, newPage: int, totalPages: int): (r: Option<seq<Entry>>)
    ensures r.Some? <==> 1 <= newPage <= totalPages
    ensures r.Some? ==> GetAll(r.value, Lit("page")) == [IntText(newPage)]
  {
    if newPage < 1 || newPage > totalPages then None else Some(CreatePageUrl(es, newPage))
  }

  /** A page change happens only for a page in range, and lands on it. */
  lemma ClientPageChangeInRange(es: seq<Entry>, newPage: int, totalPages: int)
    ensures ClientPageChange(es, newPage, totalPages).Some? <==> 1 <= newPage <= totalPages
    ensures ClientPageChange(es, newPage, totalPages).Some? ==>
      && CurrentPage(ClientPageChange(es, newPage, totalPages).value) == newPage
      && Limit(ClientPageChange(es, newPage, totalPages).value) == Limit(es)
  {
    if 1 <= newPage <= totalPages {
      PageUrlReadBack(es, newPage);
    }
  }

  /** What the client variant shows: the two arrows and "page current of total". */
  datatype ClientView = ClientView(prevDisabled: bool, current: int, total: int, nextDisabled: bool)

  /** The client variant renders nothing (`None`) for at most one page. */
  function ClientRender(es: seq<Entry>, totalItems: nat): (r: Option<ClientView>)
    ensures r.Some? ==> r.value.total >= 2 && r.value.current == CurrentPage(es)
    ensures r.Some? ==> r.value.total == TotalPages(totalItems, Limit(es))
  {
    var current := CurrentPage(es);
    var total := TotalPages(totalItems, Limit(es));
    if total <= 1 then None else Some(ClientView(current <= 1, current, total, current >= total))
  }

  /** The client pagination is hidden iff there is at most one page; with a
    * positive limit that is when the items fit on one page. */
  lemma ClientHiddenForOnePage(es: seq<Entry>, totalItems: nat)
    ensures ClientRender(es, totalItems).None? <==> TotalPages(totalItems, Limit(es)) <= 1
    ensures Limit(es) > 0 ==> (ClientRender(es, totalItems).None? <==> totalItems <= Limit(es))
    ensures ClientRender(es, totalItems).Some? ==>
      var v := ClientRender(es, totalItems).value;
      (v.prevDisabled <==> v.current <= 1) && (v.nextDisabled <==> v.current >= v.total) && v.total >= 2
  {
    if Limit(es) > 0 {
      TotalPagesPositiveLimit(totalItems, Limit(es));
    }
  }
}
