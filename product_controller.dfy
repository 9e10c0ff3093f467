/**
 * The catalog listing `getProducts` (backend/src/controller/productController.js,
 * lines 18-107): from the flat query parameters to the store query (filter,
 * keyword clause, sort, skip, limit) and from the store's answers to the
 * response with its pagination descriptors.
 *
 * The store is two parameters: the awaited `countDocuments()` result and a
 * function from the store query to the awaited `find` result.
 */
module ProductController {
  import opened Wrappers
  import opened JsText
  import opened JsObject
  import opened Json
  import opened OperatorRewrite
  import opened ProductModel

  /** The parameters that steer the listing and are not filter conditions. */
  const RemoveFields: seq<string> := ["select", "sort", "page", "limit", "keyword"]

  /** A filter condition: a string from the query, or the object holding the gemPrice bounds. */
  datatype FilterValue = Text(text: string) | Range(gte: Option<string>, lte: Option<string>)

  datatype Bound = Gte | Lte

  /** The flat query parameter of a bound, as the browser sends it. */
  function FlatKey(b: Bound): string {
    match b
    case Gte => "gemPrice[gte]"
    case Lte => "gemPrice[lte]"
  }

  /** The same name after the operator rewrite. */
  function RewrittenKey(b: Bound): string {
    match b
    case Gte => "gemPrice[$gte]"
    case Lte => "gemPrice[$lte]"
  }

  /** `{ $regex: keyword, $options: 'i' }` on each of the fields, ORed. */
  datatype KeywordSearch = KeywordSearch(fields: seq<string>, pattern: string, options: string)

  const KeywordFields: seq<string> := ["name", "brand", "category", "specs.Model"]

  /** What is handed to the store; the keyword clause is ANDed with the filter. */
  datatype StoreQuery = StoreQuery(
    filter: seq<(string, FilterValue)>,
    keyword: Option<KeywordSearch>,
    sort: string,
    skip: int,
    limit: int)

  datatype PageRef = PageRef(page: int, limit: int)

  datatype Pagination = Pagination(next: Option<PageRef>, prev: Option<PageRef>)

  /** The JSON body: 200 with the list, or 400 with the error message. */
  datatype ListResponse =
    | Listed(count: nat, pagination: Pagination, data: seq<Product>)
    | Failed(message: string)

  function StatusCode(r: ListResponse): nat {
    if r.Listed? then 200 else 400
  }

  // ---------------------------------------------------------------------------
  // The steps, as functions of the query

  /** The query with the given names deleted one after the other. */
  function DeleteAll(q: seq<(string, string)>, names: seq<string>): seq<(string, string)>
    decreases |names|
  {
    if names == [] then q else Delete(DeleteAll(q, names[..|names| - 1]), names[|names| - 1])
  }

  /** The parsed object: every value is a string. */
  function AsText(o: seq<(string, string)>): (r: seq<(string, FilterValue)>)
    ensures |r| == |o|
    ensures forall i :: 0 <= i < |o| ==> r[i] == (o[i].0, Text(o[i].1))
  {
    if o == [] then [] else [(o[0].0, Text(o[0].1))] + AsText(o[1..])
  }

  /** A property value in a condition: objects are truthy, strings when non-empty. */
  predicate FilterTruthy(v: Option<FilterValue>) {
    v.Some? && (v.value.Range? || v.value.text != "")
  }

  /**
   * `queryObj.gemPrice.$gte = raw` (or `$lte`): sets the bound when gemPrice
   * holds an object; on a string the assignment has no effect.
   */
  function SetBound(obj: seq<(string, FilterValue)>, b: Bound, raw: string): seq<(string, FilterValue)> {
    var current: Option<FilterValue> := Lookup(obj, "gemPrice");
    if current.Some? && current.value.Range? then
      var g, l := current.value.gte, current.value.lte;
      Put(obj, "gemPrice", if b == Gte then Range(Some(raw), l) else Range(g, Some(raw)))
    else obj
  }

  /** One block of the gemPrice fix-up. */
  function FixBound(obj: seq<(string, FilterValue)>, query: seq<(string, string)>, b: Bound): seq<(string, FilterValue)> {
    var raw := Lookup(query, FlatKey(b));
    if !Truthy(raw) then obj
    else
      var withObject := if FilterTruthy(Lookup(obj, "gemPrice")) then obj else Put(obj, "gemPrice", Range(None, None));
      Delete(Delete(SetBound(withObject, b, raw.value), FlatKey(b)), RewrittenKey(b))
  }

  /** The filter after deletion, rewrite and parse, before the fix-up. */
  function BaseFilter(query: seq<(string, string)>): seq<(string, FilterValue)> {
    AsText(RewriteFields(DeleteAll(query, RemoveFields)))
  }

  function FilterOf(query: seq<(string, string)>): seq<(string, FilterValue)> {
    FixBound(FixBound(BaseFilter(query), query, Gte), query, Lte)
  }

  function KeywordOf(query: seq<(string, string)>): Option<KeywordSearch> {
    var keyword := Lookup(query, "keyword");
    if Truthy(keyword) then Some(KeywordSearch(KeywordFields, keyword.value, "i")) else None
  }

  function SortOf(query: seq<(string, string)>): string {
    var sort := Lookup(query, "sort");
    if Truthy(sort) then Join(Split(sort.value, ','), " ") else "-createdAt"
  }

  /** `parseInt(req.query[name], 10) || default`: NaN and 0 give the default. */
  function IntParamOr(query: seq<(string, string)>, name: string, default: int): int {
    match Lookup(query, name)
    case None => default
    case Some(v) =>
      match ParseInt(v)
      case None => default
      case Some(n) => if n == 0 then default else n
  }

  function PageOf(query: seq<(string, string)>): int {
    IntParamOr(query, "page", 1)
  }

  function LimitOf(query: seq<(string, string)>): int {
    IntParamOr(query, "limit", 10)
  }

  function PlanOf(query: seq<(string, string)>): StoreQuery {
    var page, limit := PageOf(query), LimitOf(query);
    StoreQuery(FilterOf(query), KeywordOf(query), SortOf(query), (page - 1) * limit, limit)
  }

  /** The descriptors, from the window and the unfiltered total. */
  function PaginationFor(page: int, limit: int, total: int): Pagination {
    Pagination(
      if page * limit < total then Some(PageRef(page + 1, limit)) else None,
      if (page - 1) * limit > 0 then Some(PageRef(page - 1, limit)) else None)
  }

  function ListingOf(
    query: seq<(string, string)>,
    total: Result<nat, string>,
    find: StoreQuery -> Result<seq<Product>, string>): ListResponse
  {
    if total.Failure? then Failed(total.error)
    else
      match find(PlanOf(query))
      case Failure(e) => Failed(e)
      case Success(products) =>
        Listed(|products|, PaginationFor(PageOf(query), LimitOf(query), total.value), products)
  }

  // ---------------------------------------------------------------------------
  // The handler

  /** Lines 22-36: the control parameters deleted, the operators marked, the text parsed back. */
  method ParseFilter(query: seq<(string, string)>) returns (queryObj: seq<(string, FilterValue)>)
    requires DistinctKeys(query)
    ensures queryObj == BaseFilter(query)
  {
    var reqQuery := DeleteControls(query);
    var queryStr := Stringify(reqQuery);
    queryStr := ReplaceOperators(queryStr);
    RewriteQuery(reqQuery);
    queryObj := AsText(ParseObject(queryStr).value);
  }

  /** Lines 22-24: `removeFields.forEach(param => delete reqQuery[param])` on a copy of the query. */
  method DeleteControls(query: seq<(string, string)>) returns (reqQuery: seq<(string, string)>)
    requires DistinctKeys(query)
    ensures reqQuery == DeleteAll(query, RemoveFields) && DistinctKeys(reqQuery)
  {
    reqQuery := query;
    var i := 0;
    while i < |RemoveFields|
      invariant 0 <= i <= |RemoveFields|
      invariant reqQuery == DeleteAll(query, RemoveFields[..i])
      invariant DistinctKeys(reqQuery)
    {
      DeleteAllStep(query, RemoveFields, i);
      reqQuery := Delete(reqQuery, RemoveFields[i]);
      i := i + 1;
    }
    assert RemoveFields[..i] == RemoveFields;
  }

  /** Lines 43-54, one bound: the flat parameter, read from the original query, moved into `gemPrice`. */
  method FixGemPrice(obj: seq<(string, FilterValue)>, query: seq<(string, string)>, b: Bound)
    returns (queryObj: seq<(string, FilterValue)>)
    ensures queryObj == FixBound(obj, query, b)
  {
    queryObj := obj;
    var raw := Lookup(query, FlatKey(b));
    if Truthy(raw) {
      if !FilterTruthy(Lookup(queryObj, "gemPrice")) {
        queryObj := Put(queryObj, "gemPrice", Range(None, None));
      }
      queryObj := SetBound(queryObj, b, raw.value);
      queryObj := Delete(queryObj, FlatKey(b));
      queryObj := Delete(queryObj, RewrittenKey(b));
    }
  }

  lemma PlanOfParts(
    query: seq<(string, string)>, filter: seq<(string, FilterValue)>, keyword: Option<KeywordSearch>,
    sort: string, page: int, limit: int)
    requires filter == FilterOf(query) && keyword == KeywordOf(query) && sort == SortOf(query)
    requires page == PageOf(query) && limit == LimitOf(query)
    ensures StoreQuery(filter, keyword, sort, (page - 1) * limit, limit) == PlanOf(query)
  {
  }

  lemma ListingOfCases(
    query: seq<(string, string)>, total: Result<nat, string>,
    find: StoreQuery -> Result<seq<Product>, string>, plan: StoreQuery)
    requires plan == PlanOf(query)
    ensures StatusCode(ListingOf(query, total, find)) == 200 <==> total.Success? && find(plan).Success?
    ensures total.Failure? ==> ListingOf(query, total, find) == Failed(total.error)
    ensures total.Success? && find(plan).Failure? ==> ListingOf(query, total, find) == Failed(find(plan).error)
    ensures total.Success? && find(plan).Success? ==>
      ListingOf(query, total, find) == Listed(|find(plan).value|, PaginationFor(PageOf(query), LimitOf(query), total.value), find(plan).value)
  {
  }

  lemma PaginationOfParts(
    page: int, limit: int, total: int, startIndex: int, endIndex: int, next: Option<PageRef>, prev: Option<PageRef>)
    requires startIndex == (page - 1) * limit && endIndex == page * limit
    requires next == if endIndex < total then Some(PageRef(page + 1, limit)) else None
    requires prev == if startIndex > 0 then Some(PageRef(page - 1, limit)) else None
    ensures Pagination(next, prev) == PaginationFor(page, limit, total)
  {
  }

  /** `getProducts`, with the store's two answers as parameters. */
  method GetProducts(
    query: seq<(string, string)>,
    total: Result<nat, string>,
    find: StoreQuery -> Result<seq<Product>, string>)
    returns (response: ListResponse)
    requires DistinctKeys(query)
    ensures response == ListingOf(query, total, find)
    ensures response.Listed? <==> total.Success? && find(PlanOf(query)).Success?
    ensures response.Listed? ==> response.count == |response.data| && response.data == find(PlanOf(query)).value
  {
    var queryObj := ParseFilter(query);
    queryObj := FixGemPrice(queryObj, query, Gte);
    queryObj := FixGemPrice(queryObj, query, Lte);

    var keyword: Option<KeywordSearch> := None;
    var keywordParam := Lookup(query, "keyword");
    if Truthy(keywordParam) {
      keyword := Some(KeywordSearch(KeywordFields, keywordParam.value, "i"));
    }

    var sortParam := Lookup(query, "sort");
    var sortBy: string;
    if Truthy(sortParam) {
      sortBy := Join(Split(sortParam.value, ','), " ");
    } else {
      sortBy := "-createdAt";
    }

    var page := IntParamOr(query, "page", 1);
    var limit := IntParamOr(query, "limit", 10);
    var startIndex := (page - 1) * limit;
    var endIndex := page * limit;
    var plan := StoreQuery(queryObj, keyword, sortBy, startIndex, limit);
    PlanOfParts(query, queryObj, keyword, sortBy, page, limit);
    ListingOfCases(query, total, find, plan);
    if total.Failure? {
      return Failed(total.error);
    }

    var products := find(plan);
    if products.Failure? {
      return Failed(products.error);
    }

    var next: Option<PageRef> := None;
    var prev: Option<PageRef> := None;
    if endIndex < total.value {
      next := Some(PageRef(page + 1, limit));
    }
    if startIndex > 0 {
      prev := Some(PageRef(page - 1, limit));
    }
    PaginationOfParts(page, limit, total.value, startIndex, endIndex, next, prev);
    response := Listed(|products.value|, Pagination(next, prev), products.value);
  }

  // ---------------------------------------------------------------------------
  // What the listing promises

  lemma {:induction false} DeleteAllLookup(q: seq<(string, string)>, names: seq<string>, k: string)
    ensures Lookup(DeleteAll(q, names), k) == if k in names then None else Lookup(q, k)
    decreases |names|
  {
    if names != [] {
      var init, last := names[..|names| - 1], names[|names| - 1];
      DeleteAllLookup(q, init, k);
      InInitOrLast(names, k);
    }
  }

  lemma DeleteAllStep(q: seq<(string, string)>, names: seq<string>, i: nat)
    requires i < |names|
    ensures DeleteAll(q, names[..i + 1]) == Delete(DeleteAll(q, names[..i]), names[i])
  {
    assert names[..i + 1][..i] == names[..i];
  }

  lemma InInitOrLast(names: seq<string>, k: string)
    requires names != []
    ensures k in names <==> k in names[..|names| - 1] || k == names[|names| - 1]
  {
    assert names == names[..|names| - 1] + [names[|names| - 1]];
  }

  /** The control parameters are dropped and every other parameter is kept as it was. */
  lemma ControlKeysDropped(query: seq<(string, string)>, k: string)
    ensures Lookup(DeleteAll(query, RemoveFields), k) == if k in RemoveFields then None else Lookup(query, k)
  {
    DeleteAllLookup(query, RemoveFields, k);
  }

  lemma {:induction false} AsTextLookup(o: seq<(string, string)>, k: string)
    ensures Lookup(AsText(o), k) == match Lookup(o, k) case None => None case Some(v) => Some(Text(v))
    decreases |o|
  {
    if o != [] {
      assert AsText(o)[1..] == AsText(o[1..]);
      AsTextLookup(o[1..], k);
    }
  }

  /** Before the fix-up, the filter has each kept parameter under its rewritten name. */
  lemma BaseFilterLookup(query: seq<(string, string)>, k: string)
    ensures Lookup(BaseFilter(query), RewriteField(k, false))
      == if k in RemoveFields then None
         else match Lookup(query, k) case None => None case Some(v) => Some(Text(RewriteField(v, false)))
  {
    var reqQuery := DeleteAll(query, RemoveFields);
    ControlKeysDropped(query, k);
    RewriteFieldsLookup(reqQuery, k);
    AsTextLookup(RewriteFields(reqQuery), RewriteField(k, false));
  }

  /** What one fix-up block does to each name. */
  lemma FixBoundLookup(obj: seq<(string, FilterValue)>, query: seq<(string, string)>, b: Bound, k: string)
    ensures var raw := Lookup(query, FlatKey(b));
      Lookup(FixBound(obj, query, b), k) ==
        if !Truthy(raw) then Lookup(obj, k)
        else if k == FlatKey(b) || k == RewrittenKey(b) then None
        else if k != "gemPrice" then Lookup(obj, k)
        else if FilterTruthy(Lookup(obj, k)) && Lookup(obj, k).value.Text? then Lookup(obj, k)
        else
          var current := if Lookup(obj, k).Some? && Lookup(obj, k).value.Range? then Lookup(obj, k).value else Range(None, None);
          Some(if b == Gte then Range(Some(raw.value), current.lte) else Range(current.gte, Some(raw.value)))
  {
  }

  lemma FixedNames()
    ensures forall b: Bound :: FlatKey(b) != "gemPrice" && RewrittenKey(b) != "gemPrice"
    ensures FlatKey(Gte) != FlatKey(Lte) && FlatKey(Gte) != RewrittenKey(Lte)
    ensures RewrittenKey(Gte) != FlatKey(Lte) && RewrittenKey(Gte) != RewrittenKey(Lte)
    ensures forall c :: c in RemoveFields ==>
      (c != "gemPrice" && c != FlatKey(Gte) && c != FlatKey(Lte) && c != RewrittenKey(Gte) && c != RewrittenKey(Lte))
  {
  }

  /** The control names are plain words: the rewrite leaves them alone. */
  lemma ControlNamesPlain(c: string)
    requires c in RemoveFields
    ensures RewriteField(c, false) == c
  {
    OperatorsAreAlternatives(c);
    RewritePlainWord(c);
  }

  /** None of the control names reaches the store's filter. */
  lemma NoControlKeyInFilter(query: seq<(string, string)>, c: string)
    requires c in RemoveFields
    ensures Lookup(FilterOf(query), c).None?
  {
    ControlNamesPlain(c);
    BaseFilterLookup(query, c);
    FixedNames();
    FixBoundLookup(BaseFilter(query), query, Gte, c);
    FixBoundLookup(FixBound(BaseFilter(query), query, Gte), query, Lte, c);
  }

  lemma GemPriceIsPlain()
    ensures RewriteField("gemPrice", false) == "gemPrice"
  {
    OperatorsAreAlternatives("gemPrice");
    RewritePlainWord("gemPrice");
  }

  /**
   * With a non-empty `gemPrice[gte]` or `gemPrice[lte]` parameter and no
   * non-empty `gemPrice` parameter, the filter holds gemPrice as a range with
   * exactly the given bounds, as raw strings, and neither flat name is left.
   */
  lemma GemPriceRange(query: seq<(string, string)>)
    requires Truthy(Lookup(query, FlatKey(Gte))) || Truthy(Lookup(query, FlatKey(Lte)))
    requires !Truthy(Lookup(query, "gemPrice"))
    ensures var gte := Lookup(query, FlatKey(Gte)); var lte := Lookup(query, FlatKey(Lte));
      Lookup(FilterOf(query), "gemPrice")
        == Some(Range(if Truthy(gte) then gte else None, if Truthy(lte) then lte else None))
    ensures forall b: Bound :: Truthy(Lookup(query, FlatKey(b))) ==>
      Lookup(FilterOf(query), FlatKey(b)).None? && Lookup(FilterOf(query), RewrittenKey(b)).None?
  {
    GemPriceRangeValue(query);
    forall b: Bound | Truthy(Lookup(query, FlatKey(b)))
      ensures Lookup(FilterOf(query), FlatKey(b)).None? && Lookup(FilterOf(query), RewrittenKey(b)).None?
    {
      FlatKeysRemoved(query, b);
    }
  }

  lemma GemPriceRangeValue(query: seq<(string, string)>)
    requires Truthy(Lookup(query, FlatKey(Gte))) || Truthy(Lookup(query, FlatKey(Lte)))
    requires !Truthy(Lookup(query, "gemPrice"))
    ensures var gte := Lookup(query, FlatKey(Gte)); var lte := Lookup(query, FlatKey(Lte));
      Lookup(FilterOf(query), "gemPrice")
        == Some(Range(if Truthy(gte) then gte else None, if Truthy(lte) then lte else None))
  {
    var base := BaseFilter(query);
    GemPriceIsPlain();
    BaseFilterLookup(query, "gemPrice");
    FixedNames();
    var current := Lookup(query, "gemPrice");
    if current.Some? {
      RewriteFieldNonEmpty(current.value, false);
    }
    assert !FilterTruthy(Lookup(base, "gemPrice"));
    FixBoundLookup(base, query, Gte, "gemPrice");
    FixBoundLookup(FixBound(base, query, Gte), query, Lte, "gemPrice");
  }

  /** A truthy flat bound leaves neither its flat key nor its rewritten key behind. */
  lemma FlatKeysRemoved(query: seq<(string, string)>, b: Bound)
    requires Truthy(Lookup(query, FlatKey(b)))
    ensures Lookup(FilterOf(query), FlatKey(b)).None? && Lookup(FilterOf(query), RewrittenKey(b)).None?
  {
    var base := BaseFilter(query);
    FixedNames();
    FixBoundLookup(base, query, Gte, FlatKey(b));
    FixBoundLookup(FixBound(base, query, Gte), query, Lte, FlatKey(b));
    FixBoundLookup(base, query, Gte, RewrittenKey(b));
    FixBoundLookup(FixBound(base, query, Gte), query, Lte, RewrittenKey(b));
  }

  /**
   * A non-empty `gemPrice` parameter wins: the bounds are dropped without a
   * trace (the assignment to a string property does nothing), though the flat
   * names are still deleted.
   */
  lemma GemPriceTextWins(query: seq<(string, string)>)
    requires Truthy(Lookup(query, "gemPrice"))
    ensures Lookup(FilterOf(query), "gemPrice") == Some(Text(RewriteField(Lookup(query, "gemPrice").value, false)))
  {
    var base := BaseFilter(query);
    GemPriceIsPlain();
    BaseFilterLookup(query, "gemPrice");
    FixedNames();
    RewriteFieldNonEmpty(Lookup(query, "gemPrice").value, false);
    FixBoundLookup(base, query, Gte, "gemPrice");
    FixBoundLookup(FixBound(base, query, Gte), query, Lte, "gemPrice");
  }

  /** The keyword clause is there exactly when `keyword` is non-empty, and searches the four fields case-insensitively. */
  lemma KeywordClause(query: seq<(string, string)>)
    ensures KeywordOf(query).Some? <==> Truthy(Lookup(query, "keyword"))
    ensures KeywordOf(query).Some? ==>
      KeywordOf(query).value == KeywordSearch(["name", "brand", "category", "specs.Model"], Lookup(query, "keyword").value, "i")
  {
  }

  /** The sort string is the `sort` parameter with commas turned into spaces; `-createdAt` without one. */
  lemma SortString(query: seq<(string, string)>)
    ensures var sort := Lookup(query, "sort");
      SortOf(query) == if Truthy(sort) then ReplaceChar(sort.value, ',', ' ') else "-createdAt"
    ensures var sort := Lookup(query, "sort");
      Truthy(sort) && ' ' !in sort.value ==> Split(SortOf(query), ' ') == Split(sort.value, ',')
  {
    var sort := Lookup(query, "sort");
    if Truthy(sort) {
      JoinSplit(sort.value, ',', ' ');
      if ' ' !in sort.value {
        SplitKeepsOut(sort.value, ',', ' ');
        SplitJoin(Split(sort.value, ','), ' ');
      }
    }
  }

  /**
   * `parseInt(v, 10) || default` for page and limit: a run of digits, with or
   * without a minus sign, is taken as its value; an all-zero run, an absent
   * parameter and a text with no number at its start give the default.
   */
  lemma PageAndLimit(query: seq<(string, string)>, name: string, default: int, ds: string, t: string)
    requires ds != [] && forall i :: 0 <= i < |ds| ==> IsDigit(ds[i])
    ensures Lookup(query, name) == Some(ds) ==>
      IntParamOr(query, name, default) == if DecimalValue(ds) == 0 then default else DecimalValue(ds)
    ensures Lookup(query, name) == Some("-" + ds) ==>
      IntParamOr(query, name, default) == if DecimalValue(ds) == 0 then default else -(DecimalValue(ds) as int)
    ensures Lookup(query, name).None? ==> IntParamOr(query, name, default) == default
    ensures Lookup(query, name) == Some(t) && NoLeadingNumber(t) ==> IntParamOr(query, name, default) == default
  {
    ParseIntOfDecimal(ds);
    if NoLeadingNumber(t) {
      ParseIntNaN(t);
    }
  }

  /** Every negative page is taken as it is: nothing bounds `page` from below. */
  lemma NegativePagePasses(query: seq<(string, string)>, ds: string)
    requires ds != [] && forall i :: 0 <= i < |ds| ==> IsDigit(ds[i])
    requires DecimalValue(ds) != 0 && Lookup(query, "page") == Some("-" + ds)
    ensures PageOf(query) == -(DecimalValue(ds) as int) < 0
  {
    PageAndLimit(query, "page", 1, ds, ds);
  }

  /** `next` exactly when the window ends before the unfiltered total, `prev` exactly when it does not start at 0. */
  lemma PaginationDescriptors(page: int, limit: int, total: int)
    ensures PaginationFor(page, limit, total).next.Some? <==> page * limit < total
    ensures PaginationFor(page, limit, total).prev.Some? <==> (page - 1) * limit > 0
    ensures PaginationFor(page, limit, total).next.Some? ==> PaginationFor(page, limit, total).next.value == PageRef(page + 1, limit)
    ensures PaginationFor(page, limit, total).prev.Some? ==> PaginationFor(page, limit, total).prev.value == PageRef(page - 1, limit)
  {
  }

  /** Page 2 of 10 with 25 products has both neighbours; page 3 only the previous one. */
  lemma PaginationExamples()
    ensures PaginationFor(2, 10, 25) == Pagination(Some(PageRef(3, 10)), Some(PageRef(1, 10)))
    ensures PaginationFor(3, 10, 25) == Pagination(None, Some(PageRef(2, 10)))
  {
  }
}
