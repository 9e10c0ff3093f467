/**
 * The catalog page frontend/src/pages/ProductListing.jsx: the URL filter
 * update (`applyFilters`, `clearFilters`), the request parameters built for
 * the listing endpoint, and the savings badge on each card.
 *
 * The URL's search parameters are a list of (name, value) pairs that may
 * repeat a name, as in URLSearchParams; `get` answers the first value.
 */
module ProductListing {
  import opened Wrappers
  import opened JsText
  import opened JsObject
  import opened ProductModel
  import opened ProductController

  // ---------------------------------------------------------------------------
  // URLSearchParams

  /** `set(name, value)`: the first pair of that name takes the value and the others go; with none, the pair is appended. */
  function SetEntry(ps: seq<(string, string)>, name: string, value: string): seq<(string, string)> {
    if ps == [] then [(name, value)]
    else if ps[0].0 == name then [(name, value)] + JsObject.Delete(ps[1..], name)
    else [ps[0]] + SetEntry(ps[1..], name, value)
  }

  class SearchParams {
    var entries: seq<(string, string)>

    /** `new URLSearchParams(init)`: a copy of the pairs. */
    constructor(init: seq<(string, string)>)
      ensures entries == init
    {
      entries := init;
    }

    method Set(name: string, value: string)
      modifies this
      ensures entries == SetEntry(old(entries), name, value)
    {
      entries := SetEntry(entries, name, value);
    }

    /** `delete(name)`: every pair of that name goes. */
    method Delete(name: string)
      modifies this
      ensures entries == JsObject.Delete(old(entries), name)
    {
      entries := JsObject.Delete(entries, name);
    }
  }

  lemma {:induction false} SetEntryLookup(ps: seq<(string, string)>, name: string, value: string, k: string)
    ensures Lookup(SetEntry(ps, name, value), k) == if k == name then Some(value) else Lookup(ps, k)
  {
    if ps != [] && ps[0].0 != name {
      SetEntryLookup(ps[1..], name, value, k);
    }
  }

  lemma {:induction false} DeleteTwice(ps: seq<(string, string)>, name: string)
    ensures JsObject.Delete(JsObject.Delete(ps, name), name) == JsObject.Delete(ps, name)
  {
    if ps != [] {
      DeleteTwice(ps[1..], name);
    }
  }

  lemma {:induction false} DeleteCommutes(ps: seq<(string, string)>, a: string, b: string)
    ensures JsObject.Delete(JsObject.Delete(ps, a), b) == JsObject.Delete(JsObject.Delete(ps, b), a)
  {
    if ps != [] {
      DeleteCommutes(ps[1..], a, b);
    }
  }

  /** Setting a name and then deleting it is deleting it. */
  lemma {:induction false} DeleteAfterSet(ps: seq<(string, string)>, name: string, value: string)
    ensures JsObject.Delete(SetEntry(ps, name, value), name) == JsObject.Delete(ps, name)
  {
    if ps != [] {
      if ps[0].0 == name {
        DeleteTwice(ps[1..], name);
      } else {
        DeleteAfterSet(ps[1..], name, value);
      }
    }
  }

  /** Setting one name commutes with deleting another. */
  lemma {:induction false} DeleteOtherAfterSet(ps: seq<(string, string)>, name: string, value: string, other: string)
    requires other != name
    ensures JsObject.Delete(SetEntry(ps, name, value), other) == SetEntry(JsObject.Delete(ps, other), name, value)
  {
    if ps != [] {
      if ps[0].0 == name {
        DeleteCommutes(ps[1..], name, other);
      } else {
        DeleteOtherAfterSet(ps[1..], name, value, other);
      }
    }
  }

  // ---------------------------------------------------------------------------
  // applyFilters and clearFilters

  /** One price input applied to the URL: set when non-empty, deleted when empty. */
  function Assign(ps: seq<(string, string)>, name: string, value: string): seq<(string, string)> {
    if value != "" then SetEntry(ps, name, value) else JsObject.Delete(ps, name)
  }

  lemma AssignLookup(ps: seq<(string, string)>, name: string, value: string, k: string)
    ensures Lookup(Assign(ps, name, value), k)
      == if k != name then Lookup(ps, k) else if value != "" then Some(value) else None
  {
    SetEntryLookup(ps, name, value, k);
  }

  lemma AssignThenDelete(ps: seq<(string, string)>, name: string, value: string, other: string)
    ensures JsObject.Delete(Assign(ps, name, value), name) == JsObject.Delete(ps, name)
    ensures other != name ==>
      JsObject.Delete(Assign(ps, name, value), other) == Assign(JsObject.Delete(ps, other), name, value)
  {
    if value != "" {
      DeleteAfterSet(ps, name, value);
      if other != name {
        DeleteOtherAfterSet(ps, name, value, other);
      }
    } else {
      DeleteTwice(ps, name);
      DeleteCommutes(ps, name, other);
    }
  }

  /**
   * `applyFilters`: the URL it navigates to holds the non-empty price inputs
   * as `minPrice` and `maxPrice`, no such parameter for an empty input, and
   * every other parameter exactly as before, in order; the mobile filter
   * panel is then closed.
   */
  method ApplyFilters(searchParams: seq<(string, string)>, minPrice: string, maxPrice: string)
    returns (target: seq<(string, string)>, showMobileFilters: bool)
    ensures Lookup(target, "minPrice") == if minPrice != "" then Some(minPrice) else None
    ensures Lookup(target, "maxPrice") == if maxPrice != "" then Some(maxPrice) else None
    ensures forall k :: k != "minPrice" && k != "maxPrice" ==> Lookup(target, k) == Lookup(searchParams, k)
    ensures JsObject.Delete(JsObject.Delete(target, "minPrice"), "maxPrice")
      == JsObject.Delete(JsObject.Delete(searchParams, "minPrice"), "maxPrice")
    ensures !showMobileFilters
  {
    var params := new SearchParams(searchParams);
    if minPrice != "" {
      params.Set("minPrice", minPrice);
    } else {
      params.Delete("minPrice");
    }
    if maxPrice != "" {
      params.Set("maxPrice", maxPrice);
    } else {
      params.Delete("maxPrice");
    }
    target := params.entries;
    showMobileFilters := false;

    assert target == Assign(Assign(searchParams, "minPrice", minPrice), "maxPrice", maxPrice);
    AssignBoth(searchParams, "minPrice", minPrice, "maxPrice", maxPrice);
  }

  /** Two inputs applied one after the other, to different names. */
  lemma AssignBoth(ps: seq<(string, string)>, a: string, x: string, b: string, y: string)
    requires a != b
    ensures var target := Assign(Assign(ps, a, x), b, y);
      && Lookup(target, a) == (if x != "" then Some(x) else None)
      && Lookup(target, b) == (if y != "" then Some(y) else None)
      && (forall k :: k != a && k != b ==> Lookup(target, k) == Lookup(ps, k))
      && JsObject.Delete(JsObject.Delete(target, a), b) == JsObject.Delete(JsObject.Delete(ps, a), b)
  {
    var afterA := Assign(ps, a, x);
    var target := Assign(afterA, b, y);
    forall k
      ensures Lookup(target, k)
        == if k == b then (if y != "" then Some(y) else None)
           else if k == a then (if x != "" then Some(x) else None)
           else Lookup(ps, k)
    {
      AssignLookup(ps, a, x, k);
      AssignLookup(afterA, b, y, k);
    }
    AssignThenDelete(afterA, b, y, a);
    AssignThenDelete(ps, a, x, a);
    var withoutA := JsObject.Delete(ps, a);
    assert JsObject.Delete(target, a) == Assign(withoutA, b, y);
    AssignThenDelete(withoutA, b, y, b);
  }

  /** What the page keeps: the URL's parameters, the two price inputs, the mobile filter panel. */
  datatype PageState = PageState(
    searchParams: seq<(string, string)>,
    minPrice: string,
    maxPrice: string,
    sortBy: string,
    showMobileFilters: bool)

  /** `clearFilters`: an empty URL, empty price inputs, the panel closed; the sort choice stays. */
  function ClearFilters(s: PageState): (r: PageState)
    ensures forall k :: Lookup(r.searchParams, k).None?
    ensures r.minPrice == "" && r.maxPrice == "" && !r.showMobileFilters
    ensures r.sortBy == s.sortBy
  {
    PageState([], "", "", s.sortBy, false)
  }

  // ---------------------------------------------------------------------------
  // The request parameters of `fetchProducts`

  /** The four URL parameters the page reads with `get`. */
  datatype UrlView = UrlView(category: Option<string>, search: Option<string>, minPrice: Option<string>, maxPrice: Option<string>)

  function ViewOf(searchParams: seq<(string, string)>): UrlView {
    UrlView(
      Lookup(searchParams, "category"), Lookup(searchParams, "search"),
      Lookup(searchParams, "minPrice"), Lookup(searchParams, "maxPrice"))
  }

  /** The sort parameter for the three known choices. */
  function SortParam(sortBy: string): Option<string> {
    if sortBy == "price_low" then Some("gemPrice")
    else if sortBy == "price_high" then Some("-gemPrice")
    else if sortBy == "newest" then Some("-createdAt")
    else None
  }

  /** A pair when the value is present and non-empty. */
  function Optional(name: string, value: Option<string>): seq<(string, string)> {
    if Truthy(value) then [(name, value.value)] else []
  }

  /** The filter parameters as a list, in the order they are assigned. */
  function FilterParams(view: UrlView): seq<(string, string)> {
    Optional("category", view.category) + Optional("keyword", view.search)
      + Optional("gemPrice[gte]", view.minPrice) + Optional("gemPrice[lte]", view.maxPrice)
  }

  function SortParams(sortBy: string): seq<(string, string)> {
    if SortParam(sortBy).Some? then [("sort", SortParam(sortBy).value)] else []
  }

  /** The request parameters as a list, in the order they are assigned. */
  function RequestParams(view: UrlView, sortBy: string): seq<(string, string)> {
    FilterParams(view) + SortParams(sortBy)
  }

  /** The `params` object, filled one conditional assignment at a time. */
  method BuildRequestParams(view: UrlView, sortBy: string) returns (params: seq<(string, string)>)
    ensures params == RequestParams(view, sortBy)
  {
    params := AssignFilters(view);
    ghost var filters := params;
    assert Lookup(filters, "sort").None? by {
      FilterNames(view, "sort");
    }
    ghost var tail := SortParams(sortBy);
    assert params == filters + [];
    if sortBy == "price_low" {
      params := Put(params, "sort", "gemPrice");
      assert params == filters + tail;
    }
    assert sortBy != "price_low" ==> params == filters;
    if sortBy == "price_high" {
      params := Put(params, "sort", "-gemPrice");
      assert params == filters + tail;
    }
    assert sortBy != "price_low" && sortBy != "price_high" ==> params == filters;
    if sortBy == "newest" {
      params := Put(params, "sort", "-createdAt");
      assert params == filters + tail;
    }
  }

  /** The first four assignments, on the empty object. */
  method AssignFilters(view: UrlView) returns (params: seq<(string, string)>)
    ensures params == FilterParams(view)
  {
    ghost var c, w, g, l := Optional("category", view.category), Optional("keyword", view.search),
      Optional("gemPrice[gte]", view.minPrice), Optional("gemPrice[lte]", view.maxPrice);
    params := [];
    if Truthy(view.category) {
      params := Put(params, "category", view.category.value);
    }
    assert params == c;
    if Truthy(view.search) {
      params := Put(params, "keyword", view.search.value);
    }
    assert params == c + w by {
      AssignOptional(c, "keyword", view.search);
    }
    if Truthy(view.minPrice) {
      params := Put(params, "gemPrice[gte]", view.minPrice.value);
    }
    assert params == c + w + g by {
      OptionalMiss("category", view.category, "gemPrice[gte]");
      OptionalMiss("keyword", view.search, "gemPrice[gte]");
      LookupAppend(c, w, "gemPrice[gte]");
      AssignOptional(c + w, "gemPrice[gte]", view.minPrice);
    }
    if Truthy(view.maxPrice) {
      params := Put(params, "gemPrice[lte]", view.maxPrice.value);
    }
    assert params == c + w + g + l by {
      OptionalMiss("category", view.category, "gemPrice[lte]");
      OptionalMiss("keyword", view.search, "gemPrice[lte]");
      OptionalMiss("gemPrice[gte]", view.minPrice, "gemPrice[lte]");
      LookupAppend(c, w, "gemPrice[lte]");
      LookupAppend(c + w, g, "gemPrice[lte]");
      AssignOptional(c + w + g, "gemPrice[lte]", view.maxPrice);
    }
  }

  lemma OptionalMiss(name: string, v: Option<string>, k: string)
    requires k != name
    ensures Lookup(Optional(name, v), k).None?
  {
  }

  /** Assigning a name the object does not have appends it. */
  lemma AssignOptional(o: seq<(string, string)>, name: string, v: Option<string>)
    requires Lookup(o, name).None?
    ensures (if Truthy(v) then Put(o, name, v.value) else o) == o + Optional(name, v)
  {
  }

  /**
   * Each request parameter comes from its URL parameter only when that is
   * non-empty (`search` is sent as `keyword`, the prices as the flat gemPrice
   * bounds), the sort only for a known choice, and nothing else is sent.
   */
  lemma RequestParamsMeaning(view: UrlView, sortBy: string, k: string)
    ensures DistinctKeys(RequestParams(view, sortBy))
    ensures Lookup(RequestParams(view, sortBy), k) ==
      if k == "category" then (if Truthy(view.category) then view.category else None)
      else if k == "keyword" then (if Truthy(view.search) then view.search else None)
      else if k == "gemPrice[gte]" then (if Truthy(view.minPrice) then view.minPrice else None)
      else if k == "gemPrice[lte]" then (if Truthy(view.maxPrice) then view.maxPrice else None)
      else if k == "sort" then SortParam(sortBy)
      else None
  {
    FilterNames(view, k);
    LookupAppend(FilterParams(view), SortParams(sortBy), k);
    RequestParamsDistinct(view, sortBy);
  }

  /** What the filter part answers for each name. */
  lemma FilterNames(view: UrlView, k: string)
    ensures Lookup(FilterParams(view), k) ==
      if k == "category" then (if Truthy(view.category) then view.category else None)
      else if k == "keyword" then (if Truthy(view.search) then view.search else None)
      else if k == "gemPrice[gte]" then (if Truthy(view.minPrice) then view.minPrice else None)
      else if k == "gemPrice[lte]" then (if Truthy(view.maxPrice) then view.maxPrice else None)
      else None
  {
    var c, w, g, l := Optional("category", view.category), Optional("keyword", view.search),
      Optional("gemPrice[gte]", view.minPrice), Optional("gemPrice[lte]", view.maxPrice);
    LookupAppend(c, w, k);
    LookupAppend(c + w, g, k);
    LookupAppend(c + w + g, l, k);
  }

  lemma RequestParamsDistinct(view: UrlView, sortBy: string)
    ensures DistinctKeys(RequestParams(view, sortBy))
  {
    FilterParamsDistinct(view);
    forall k | Lookup(FilterParams(view), k).Some? ensures Lookup(SortParams(sortBy), k).None? {
      FilterNames(view, k);
    }
    DistinctAppend(FilterParams(view), SortParams(sortBy));
  }

  lemma FilterParamsDistinct(view: UrlView)
    ensures DistinctKeys(FilterParams(view))
  {
    var c, w, g, l := Optional("category", view.category), Optional("keyword", view.search),
      Optional("gemPrice[gte]", view.minPrice), Optional("gemPrice[lte]", view.maxPrice);
    OptionalNames("category", view.category);
    OptionalNames("keyword", view.search);
    OptionalNames("gemPrice[gte]", view.minPrice);
    OptionalNames("gemPrice[lte]", view.maxPrice);
    DistinctAppend(c, w);
    forall k | Lookup(c + w, k).Some? ensures Lookup(g, k).None? {
      LookupAppend(c, w, k);
    }
    DistinctAppend(c + w, g);
    forall k | Lookup(c + w + g, k).Some? ensures Lookup(l, k).None? {
      LookupAppend(c + w, g, k);
      LookupAppend(c, w, k);
    }
    DistinctAppend(c + w + g, l);
  }

  /** An optional parameter has at most the one name. */
  lemma OptionalNames(name: string, value: Option<string>)
    ensures DistinctKeys(Optional(name, value))
    ensures forall k :: k != name ==> Lookup(Optional(name, value), k).None?
  {
  }

  /** After `clearFilters` the request carries no filter at all, only the sort. */
  lemma ClearedRequest(s: PageState)
    ensures RequestParams(ViewOf(ClearFilters(s).searchParams), s.sortBy)
      == if SortParam(s.sortBy).Some? then [("sort", SortParam(s.sortBy).value)] else []
  {
  }

  /**
   * End to end: the URL's price bounds reach the store's filter as the
   * gemPrice range, unchanged as text, and the search words as the keyword
   * clause.
   */
  lemma PriceBoundsReachFilter(searchParams: seq<(string, string)>, sortBy: string)
    requires Truthy(Lookup(searchParams, "minPrice")) || Truthy(Lookup(searchParams, "maxPrice"))
    ensures var view := ViewOf(searchParams); var q := RequestParams(view, sortBy);
      Lookup(FilterOf(q), "gemPrice") == Some(Range(
        if Truthy(view.minPrice) then view.minPrice else None,
        if Truthy(view.maxPrice) then view.maxPrice else None))
    ensures var view := ViewOf(searchParams); var q := RequestParams(view, sortBy);
      KeywordOf(q) == if Truthy(view.search) then Some(KeywordSearch(KeywordFields, view.search.value, "i")) else None
  {
    var view := ViewOf(searchParams);
    var q := RequestParams(view, sortBy);
    RequestParamsMeaning(view, sortBy, "gemPrice");
    RequestParamsMeaning(view, sortBy, "gemPrice[gte]");
    RequestParamsMeaning(view, sortBy, "gemPrice[lte]");
    RequestParamsMeaning(view, sortBy, "keyword");
    GemPriceRange(q);
  }

  /** The sort choices reach the store as its sort string. */
  lemma SortChoiceReachesStore(view: UrlView, sortBy: string)
    ensures SortOf(RequestParams(view, sortBy)) == SortParam(sortBy).GetOr("-createdAt")
  {
    RequestParamsMeaning(view, sortBy, "sort");
    var q := RequestParams(view, sortBy);
    if SortParam(sortBy).Some? {
      var s := SortParam(sortBy).value;
      assert ',' !in s;
      JoinSplit(s, ',', ' ');
      assert ReplaceChar(s, ',', ' ') == s;
    }
  }

  // ---------------------------------------------------------------------------
  // The savings badge

  predicate ShowsBadge(p: Product) {
    p.gemPrice < LowestPrice(p.marketplacePrices)
  }

  function BadgeAmount(p: Product): real {
    LowestPrice(p.marketplacePrices) - p.gemPrice
  }

  /**
   * The badge only ever shows a positive amount; with an available offer it
   * is the product's savings, and with none it shows only for a negative
   * GeM price.
   */
  lemma BadgeMeaning(p: Product)
    ensures ShowsBadge(p) ==> BadgeAmount(p) > 0.0
    ensures ShowsBadge(p) && (exists i :: 0 <= i < |p.marketplacePrices| && p.marketplacePrices[i].isAvailable)
      ==> BadgeAmount(p) == Savings(p)
    ensures (forall i :: 0 <= i < |p.marketplacePrices| ==> !p.marketplacePrices[i].isAvailable)
      ==> (ShowsBadge(p) <==> p.gemPrice < 0.0)
  {
    SavingsMeaning(p);
  }
}
