/**
 * The product record of the catalog (backend/src/model/product.js): its
 * enumerations, what the schema requires and fills in by default, the
 * `lowestMarketplacePrice` virtual and the `calculateSavings` method.
 * Prices are exact reals.
 */
module ProductModel {
  import opened Wrappers
  import opened JsText

  // ---------------------------------------------------------------------------
  // Enumerations

  datatype Category =
    | Appliances | Automotive | Baby | Clothing | Electronics
    | Furniture | Grocery | HealthAndBeauty | HomeGoods | Jewellery
    | Office | Sports | Toys | OfficeSupplies | ItPeripherals | OtherCategory

  /** The sixteen category names, in schema order. */
  const CategoryNames: seq<string> := [
    "Appliances", "Automotive", "Baby", "Clothing", "Electronics",
    "Furniture", "Grocery", "Health & Beauty", "Home", "Jewellery",
    "Office", "Sports", "Toys", "Office Supplies", "IT Peripherals", "Other"
  ]

  const AllCategories: seq<Category> := [
    Appliances, Automotive, Baby, Clothing, Electronics,
    Furniture, Grocery, HealthAndBeauty, HomeGoods, Jewellery,
    Office, Sports, Toys, OfficeSupplies, ItPeripherals, OtherCategory
  ]

  function CategoryIndex(c: Category): (i: nat)
    ensures i < |AllCategories| && AllCategories[i] == c
  {
    match c
    case Appliances => 0 case Automotive => 1 case Baby => 2 case Clothing => 3
    case Electronics => 4 case Furniture => 5 case Grocery => 6 case HealthAndBeauty => 7
    case HomeGoods => 8 case Jewellery => 9 case Office => 10 case Sports => 11
    case Toys => 12 case OfficeSupplies => 13 case ItPeripherals => 14 case OtherCategory => 15
  }

  /** The name stored for a category. */
  function CategoryName(c: Category): string {
    CategoryNames[CategoryIndex(c)]
  }

  /** The enum validator of `category`: the position of the name in the list. */
  function FindName(names: seq<string>, s: string): (r: Option<nat>)
    ensures r.Some? ==> r.value < |names| && names[r.value] == s
    ensures r.None? ==> s !in names
  {
    if names == [] then None
    else if names[0] == s then Some(0)
    else match FindName(names[1..], s)
      case None => None
      case Some(i) => Some(i + 1)
  }

  function ParseCategory(s: string): (r: Option<Category>)
    ensures r.Some? <==> s in CategoryNames
  {
    match FindName(CategoryNames, s)
    case None => None
    case Some(i) => Some(AllCategories[i])
  }

  lemma CategoriesDistinct()
    ensures |CategoryNames| == 16
    ensures forall i, j :: 0 <= i < j < |CategoryNames| ==> CategoryNames[i] != CategoryNames[j]
    ensures forall i, j :: 0 <= i < j < |AllCategories| ==> AllCategories[i] != AllCategories[j]
  {
  }

  lemma {:induction false} FindListed(names: seq<string>, i: nat)
    requires i < |names|
    requires forall a, b :: 0 <= a < b < |names| ==> names[a] != names[b]
    ensures FindName(names, names[i]) == Some(i)
  {
    if i > 0 {
      assert names[1..][i - 1] == names[i];
      FindListed(names[1..], i - 1);
    }
  }

  /** Exactly the sixteen names are accepted, and each means its own category. */
  lemma CategoryRoundTrip(c: Category, s: string)
    ensures ParseCategory(CategoryName(c)) == Some(c)
    ensures ParseCategory(s).Some? ==> CategoryName(ParseCategory(s).value) == s
  {
    CategoriesDistinct();
    FindListed(CategoryNames, CategoryIndex(c));
    match FindName(CategoryNames, s)
    case None =>
    case Some(j) =>
      var k := CategoryIndex(AllCategories[j]);
      assert AllCategories[k] == AllCategories[j];
      assert k == j;
  }

  datatype ComparisonType = DirectMatch | SimilarSpecs | Equivalent

  function ComparisonTypeName(t: ComparisonType): string {
    match t
    case DirectMatch => "Direct Match"
    case SimilarSpecs => "Similar Specs"
    case Equivalent => "Equivalent"
  }

  function ParseComparisonType(s: string): (r: Option<ComparisonType>)
    ensures r.Some? ==> ComparisonTypeName(r.value) == s
  {
    if s == "Direct Match" then Some(DirectMatch)
    else if s == "Similar Specs" then Some(SimilarSpecs)
    else if s == "Equivalent" then Some(Equivalent)
    else None
  }

  datatype Marketplace = Amazon | Flipkart | Meesho | OtherMarketplace

  function MarketplaceName(m: Marketplace): string {
    match m
    case Amazon => "Amazon"
    case Flipkart => "Flipkart"
    case Meesho => "Meesho"
    case OtherMarketplace => "Other"
  }

  function ParseMarketplace(s: string): (r: Option<Marketplace>)
    ensures r.Some? ==> MarketplaceName(r.value) == s
  {
    if s == "Amazon" then Some(Amazon)
    else if s == "Flipkart" then Some(Flipkart)
    else if s == "Meesho" then Some(Meesho)
    else if s == "Other" then Some(OtherMarketplace)
    else None
  }

  datatype Status = Active | Inactive

  function StatusName(s: Status): string {
    match s
    case Active => "active"
    case Inactive => "inactive"
  }

  function ParseStatus(s: string): (r: Option<Status>)
    ensures r.Some? ==> StatusName(r.value) == s
  {
    if s == "active" then Some(Active) else if s == "inactive" then Some(Inactive) else None
  }

  /** Every value of the three small enumerations is read back from its name. */
  lemma EnumRoundTrips(t: ComparisonType, m: Marketplace, s: Status)
    ensures ParseComparisonType(ComparisonTypeName(t)) == Some(t)
    ensures ParseMarketplace(MarketplaceName(m)) == Some(m)
    ensures ParseStatus(StatusName(s)) == Some(s)
  {
  }

  // ---------------------------------------------------------------------------
  // The stored record

  datatype Offer = Offer(
    marketplace: Marketplace,
    productUrl: string,
    price: real,
    discount: real,
    isAvailable: bool)

  datatype Image = Image(publicId: string, url: string)

  datatype Product = Product(
    name: string,
    gemProductId: string,
    gemPrice: real,
    description: string,
    category: Category,
    comparisonType: ComparisonType,
    brand: string,
    images: seq<Image>,
    specs: map<string, string>,
    marketplacePrices: seq<Offer>,
    status: Status,
    createdAt: int)

  const MaxNameLength := 100

  /**
   * A key that a Mongoose `Map` accepts: it neither contains `.` nor starts
   * with `$`, and it is none of the reserved names.
   */
  predicate MapKeyOk(k: string) {
    '.' !in k && (k == [] || k[0] != '$') && k != "__proto__" && k != "constructor" && k != "prototype"
  }

  predicate SpecsOk(specs: map<string, string>) {
    forall k :: k in specs ==> MapKeyOk(k)
  }

  /** What every saved product satisfies (the enumerations hold by construction). */
  predicate ValidProduct(p: Product) {
    && p.name != [] && Trim(p.name) == p.name && Utf16Length(p.name) <= MaxNameLength
    && p.gemProductId != [] && p.description != [] && p.brand != []
    && (forall i :: 0 <= i < |p.images| ==> p.images[i].publicId != [] && p.images[i].url != [])
    && (forall i :: 0 <= i < |p.marketplacePrices| ==> p.marketplacePrices[i].productUrl != [])
    && SpecsOk(p.specs)
  }

  // ---------------------------------------------------------------------------
  // Validation of a submitted document

  /**
   * A submitted field with a default and a type: `Absent` is undefined, the
   * only value the default replaces; `Valid` casts to the type; `Invalid` is a
   * value whose cast fails (a text that is not a number, a boolean or a date).
   */
  datatype Typed<T> = Absent | Valid(value: T) | Invalid

  /**
   * An offer as submitted. A `price` of `None` is undefined, null, `''` or a
   * text that is not a number: none has a default, so each fails `required`
   * or the cast under the same path.
   */
  datatype OfferInput = OfferInput(
    marketplace: Option<string>,
    productUrl: Option<string>,
    price: Option<real>,
    discount: Typed<real>,
    isAvailable: Typed<bool>)

  datatype ImageInput = ImageInput(publicId: Option<string>, url: Option<string>)

  /**
   * A submitted Number field after casting. `Unset` is undefined, the only
   * value the default replaces; `Blank` is null, `''` (which casts to null) or
   * a text that does not cast to a number; `Num` is a number or a numeric text.
   */
  datatype NumberInput = Unset | Blank | Num(value: real)

  /** A document as submitted: `None` is a missing (undefined) field. */
  datatype ProductInput = ProductInput(
    name: Option<string>,
    gemProductId: Option<string>,
    gemPrice: NumberInput,
    description: Option<string>,
    category: Option<string>,
    comparisonType: Option<string>,
    brand: Option<string>,
    images: seq<ImageInput>,
    specs: map<string, string>,
    marketplacePrices: seq<OfferInput>,
    status: Option<string>,
    createdAt: Typed<int>)

  /** The `trim` setter runs before validation. */
  function TrimmedName(input: ProductInput): Option<string> {
    match input.name
    case None => None
    case Some(s) => Some(Trim(s))
  }

  /** An enumerated field with a default: missing takes the default, present must be listed. */
  predicate EnumOk<T>(v: Option<string>, parse: string -> Option<T>) {
    v.None? || parse(v.value).Some?
  }

  function OfferErrors(o: OfferInput, path: string): set<string> {
    (if !Truthy(o.marketplace) || ParseMarketplace(o.marketplace.value).None? then {path + ".marketplace"} else {})
    + (if !Truthy(o.productUrl) then {path + ".productUrl"} else {})
    + (if o.price.None? then {path + ".price"} else {})
    + (if o.discount.Invalid? then {path + ".discount"} else {})
    + (if o.isAvailable.Invalid? then {path + ".isAvailable"} else {})
  }

  function ImageErrors(im: ImageInput, path: string): set<string> {
    (if !Truthy(im.publicId) then {path + ".public_id"} else {})
    + (if !Truthy(im.url) then {path + ".url"} else {})
  }

  function OffersErrors(offers: seq<OfferInput>, from: nat): set<string>
    decreases |offers|
  {
    if offers == [] then {}
    else OfferErrors(offers[0], "marketplacePrices." + DecimalString(from)) + OffersErrors(offers[1..], from + 1)
  }

  function ImagesErrors(images: seq<ImageInput>, from: nat): set<string>
    decreases |images|
  {
    if images == [] then {}
    else ImageErrors(images[0], "images." + DecimalString(from)) + ImagesErrors(images[1..], from + 1)
  }

  /**
   * The paths whose validators fail. `required` on a string refuses a missing
   * or empty string. `gemPrice` has a default, which fills in only an undefined
   * value: a null, an empty text or a text that is not a number fails there.
   */
  function ProductErrors(input: ProductInput): set<string> {
    FieldErrors(input) + ImagesErrors(input.images, 0) + OffersErrors(input.marketplacePrices, 0)
  }

  /** The failing paths among the fields that are not lists. */
  function FieldErrors(input: ProductInput): set<string> {
    var name := TrimmedName(input);
    (if !Truthy(name) || Utf16Length(name.value) > MaxNameLength then {"name"} else {})
    + (if !Truthy(input.gemProductId) then {"gemProductId"} else {})
    + (if input.gemPrice.Blank? then {"gemPrice"} else {})
    + (if !Truthy(input.description) then {"description"} else {})
    + (if !Truthy(input.category) || ParseCategory(input.category.value).None? then {"category"} else {})
    + (if !EnumOk(input.comparisonType, ParseComparisonType) then {"comparisonType"} else {})
    + (if !Truthy(input.brand) then {"brand"} else {})
    + (if !EnumOk(input.status, ParseStatus) then {"status"} else {})
    + (if !SpecsOk(input.specs) then {"specs"} else {})
    + (if input.createdAt.Invalid? then {"createdAt"} else {})
  }

  /** The fields that are not lists pass their validators. */
  predicate FieldsOk(input: ProductInput) {
    && Truthy(TrimmedName(input)) && Utf16Length(TrimmedName(input).value) <= MaxNameLength
    && Truthy(input.gemProductId) && !input.gemPrice.Blank? && Truthy(input.description) && Truthy(input.brand)
    && Truthy(input.category) && ParseCategory(input.category.value).Some?
    && EnumOk(input.comparisonType, ParseComparisonType) && EnumOk(input.status, ParseStatus)
    && SpecsOk(input.specs) && !input.createdAt.Invalid?
  }

  lemma FieldErrorsEmpty(input: ProductInput)
    ensures FieldErrors(input) == {} <==> FieldsOk(input)
  {
  }

  lemma UnionEmpty(a: set<string>, b: set<string>, c: set<string>)
    ensures a + b + c == {} <==> a == {} && b == {} && c == {}
  {
    UnionEmpty2(a, b);
    UnionEmpty2(a + b, c);
  }

  lemma UnionEmpty2(a: set<string>, b: set<string>)
    ensures a + b == {} <==> a == {} && b == {}
  {
    if a + b == {} {
      assert forall x :: x in a ==> x in a + b;
    }
  }

  /** The offers have no failing path exactly when each offer passes on its own. */
  lemma {:induction false} OffersErrorsEmpty(offers: seq<OfferInput>, from: nat)
    ensures OffersErrors(offers, from) == {} <==> forall i :: 0 <= i < |offers| ==> OfferOk(offers[i])
    decreases |offers|
  {
    if offers != [] {
      var head := OfferErrors(offers[0], "marketplacePrices." + DecimalString(from));
      UnionEmpty2(head, OffersErrors(offers[1..], from + 1));
      OfferErrorsPath(offers[0], "marketplacePrices." + DecimalString(from));
      OffersErrorsEmpty(offers[1..], from + 1);
      assert forall i :: 1 <= i < |offers| ==> offers[1..][i - 1] == offers[i];
    }
  }

  /** The images have no failing path exactly when each image passes on its own. */
  lemma {:induction false} ImagesErrorsEmpty(images: seq<ImageInput>, from: nat)
    ensures ImagesErrors(images, from) == {} <==> forall i :: 0 <= i < |images| ==> ImageOk(images[i])
    decreases |images|
  {
    if images != [] {
      var head := ImageErrors(images[0], "images." + DecimalString(from));
      UnionEmpty2(head, ImagesErrors(images[1..], from + 1));
      ImageErrorsPath(images[0], "images." + DecimalString(from));
      ImagesErrorsEmpty(images[1..], from + 1);
      assert forall i :: 1 <= i < |images| ==> images[1..][i - 1] == images[i];
    }
  }

  function DefaultOffer(o: OfferInput): Offer
    requires OfferOk(o)
  {
    Offer(ParseMarketplace(o.marketplace.value).value, o.productUrl.value, o.price.value,
          if o.discount.Valid? then o.discount.value else 0.0,
          if o.isAvailable.Valid? then o.isAvailable.value else true)
  }

  /** An offer that passes its validators: a listed marketplace, a link, a price, and casts that succeed. */
  predicate OfferOk(o: OfferInput) {
    && Truthy(o.marketplace) && ParseMarketplace(o.marketplace.value).Some? && Truthy(o.productUrl) && o.price.Some?
    && !o.discount.Invalid? && !o.isAvailable.Invalid?
  }

  /** An image that passes its validators: both texts present and not empty. */
  predicate ImageOk(im: ImageInput) {
    Truthy(im.publicId) && Truthy(im.url)
  }

  lemma OfferErrorsPath(o: OfferInput, path: string)
    ensures OfferErrors(o, path) == {} <==> OfferOk(o)
  {
    var a := if !Truthy(o.marketplace) || ParseMarketplace(o.marketplace.value).None? then {path + ".marketplace"} else {};
    var b := if !Truthy(o.productUrl) then {path + ".productUrl"} else {};
    var c := if o.price.None? then {path + ".price"} else {};
    var d := if o.discount.Invalid? then {path + ".discount"} else {};
    var e := if o.isAvailable.Invalid? then {path + ".isAvailable"} else {};
    UnionEmpty(a, b, c);
    UnionEmpty(a + b + c, d, e);
  }

  lemma ImageErrorsPath(im: ImageInput, path: string)
    ensures ImageErrors(im, path) == {} <==> ImageOk(im)
  {
    var a := if !Truthy(im.publicId) then {path + ".public_id"} else {};
    var b := if !Truthy(im.url) then {path + ".url"} else {};
    UnionEmpty2(a, b);
  }

  /** A document that passes every validator, stated field by field. */
  predicate InputOk(input: ProductInput) {
    && FieldsOk(input)
    && (forall i :: 0 <= i < |input.images| ==> ImageOk(input.images[i]))
    && (forall i :: 0 <= i < |input.marketplacePrices| ==> OfferOk(input.marketplacePrices[i]))
  }

  /** A document has no failing path exactly when it passes every validator. */
  lemma NoErrors(input: ProductInput)
    ensures ProductErrors(input) == {} <==> InputOk(input)
  {
    UnionEmpty(FieldErrors(input), ImagesErrors(input.images, 0), OffersErrors(input.marketplacePrices, 0));
    FieldErrorsEmpty(input);
    OffersErrorsEmpty(input.marketplacePrices, 0);
    ImagesErrorsEmpty(input.images, 0);
  }

  /** The images of a document that passes validation: both texts are present and not empty. */
  function BuildImages(images: seq<ImageInput>): (r: seq<Image>)
    requires forall i :: 0 <= i < |images| ==> ImageOk(images[i])
    ensures |r| == |images|
    ensures forall i :: 0 <= i < |images| ==> images[i].publicId == Some(r[i].publicId) && images[i].url == Some(r[i].url)
    ensures forall i :: 0 <= i < |images| ==> r[i].publicId != [] && r[i].url != []
  {
    seq(|images|, i requires 0 <= i < |images| && ImageOk(images[i]) => Image(images[i].publicId.value, images[i].url.value))
  }

  /** The offers of a document that passes validation, with their defaults; every one has a link. */
  function BuildOffers(offers: seq<OfferInput>): (r: seq<Offer>)
    requires forall i :: 0 <= i < |offers| ==> OfferOk(offers[i])
    ensures |r| == |offers|
    ensures forall i :: 0 <= i < |offers| ==> r[i] == DefaultOffer(offers[i]) && r[i].productUrl != []
  {
    seq(|offers|, i requires 0 <= i < |offers| && OfferOk(offers[i]) => DefaultOffer(offers[i]))
  }

  /** The record a document that passes validation is saved as: setters and defaults applied. */
  function Build(input: ProductInput, now: int): Product
    requires InputOk(input)
  {
    Product(
      TrimmedName(input).value,
      input.gemProductId.value,
      if input.gemPrice.Num? then input.gemPrice.value else 0.0,
      input.description.value,
      ParseCategory(input.category.value).value,
      if input.comparisonType.None? then DirectMatch else ParseComparisonType(input.comparisonType.value).value,
      input.brand.value,
      BuildImages(input.images),
      input.specs,
      BuildOffers(input.marketplacePrices),
      if input.status.None? then Active else ParseStatus(input.status.value).value,
      if input.createdAt.Valid? then input.createdAt.value else now)
  }

  /**
   * `new Product(input).validate()`: the saved record, or the set of failing
   * paths. `now` is `Date.now()`.
   */
  function Validate(input: ProductInput, now: int): (r: Result<Product, set<string>>)
    ensures r.Failure? <==> ProductErrors(input) != {}
    ensures r.Failure? ==> r.error == ProductErrors(input)
  {
    if ProductErrors(input) != {} then Failure(ProductErrors(input))
    else
      NoErrors(input);
      Success(Build(input, now))
  }

  /** Every record validation lets through satisfies the schema. */
  lemma ValidateValid(input: ProductInput, now: int)
    requires Validate(input, now).Success?
    ensures ValidProduct(Validate(input, now).value)
  {
    NoErrors(input);
    BuildValid(input, now);
  }

  lemma BuildValid(input: ProductInput, now: int)
    requires InputOk(input)
    ensures ValidProduct(Build(input, now))
  {
    TrimIdempotent(input.name.value);
  }

  /** The defaults the schema fills in. */
  lemma ValidateDefaults(input: ProductInput, now: int)
    requires Validate(input, now).Success?
    ensures var p := Validate(input, now).value;
      && (input.comparisonType.None? ==> p.comparisonType == DirectMatch)
      && (input.status.None? ==> p.status == Active)
      && (input.gemPrice.Unset? ==> p.gemPrice == 0.0)
      && (input.gemPrice.Num? ==> p.gemPrice == input.gemPrice.value)
      && (input.createdAt.Absent? ==> p.createdAt == now)
      && (input.createdAt.Valid? ==> p.createdAt == input.createdAt.value)
      && |p.marketplacePrices| == |input.marketplacePrices|
      && (forall i :: 0 <= i < |p.marketplacePrices| ==>
            && (input.marketplacePrices[i].discount.Absent? ==> p.marketplacePrices[i].discount == 0.0)
            && (input.marketplacePrices[i].discount.Valid? ==>
                  p.marketplacePrices[i].discount == input.marketplacePrices[i].discount.value)
            && (input.marketplacePrices[i].isAvailable.Absent? ==> p.marketplacePrices[i].isAvailable)
            && (input.marketplacePrices[i].isAvailable.Valid? ==>
                  p.marketplacePrices[i].isAvailable == input.marketplacePrices[i].isAvailable.value))
      && p.name == Trim(input.name.value)
  {
  }

  /** A `gemPrice` that is null, empty or not a number is refused; only an undefined one takes the default. */
  lemma BlankGemPriceRefused(input: ProductInput, now: int)
    ensures input.gemPrice.Blank? ==> Validate(input, now).Failure? && "gemPrice" in Validate(input, now).error
  {
  }

  /** A `createdAt` that is not a date is refused under its own path. */
  lemma InvalidDateRefused(input: ProductInput, now: int)
    ensures input.createdAt.Invalid? ==> Validate(input, now).Failure? && "createdAt" in Validate(input, now).error
  {
  }

  /** A specification key with a `.`, a leading `$` or a reserved name is refused under `specs`. */
  lemma SpecsKeyRefused(input: ProductInput, now: int, k: string)
    requires k in input.specs && !MapKeyOk(k)
    ensures Validate(input, now).Failure? && "specs" in Validate(input, now).error
  {
  }

  /** A name longer than 100 UTF-16 units after trimming, or empty after trimming, is refused. */
  lemma NameLimit(input: ProductInput, now: int)
    requires input.name.Some?
    requires Trim(input.name.value) == [] || Utf16Length(Trim(input.name.value)) > MaxNameLength
    ensures Validate(input, now).Failure? && "name" in Validate(input, now).error
  {
  }

  // ---------------------------------------------------------------------------
  // Lowest available price and savings

  /** The running minimum after one more offer (`None` is the initial Infinity). */
  function MinStep(m: Option<real>, o: Offer): Option<real> {
    if o.isAvailable && (m.None? || o.price < m.value) then Some(o.price) else m
  }

  /** The running minimum over the offers, in order. */
  function LowestAvailable(offers: seq<Offer>): Option<real>
    decreases |offers|
  {
    if offers == [] then None else MinStep(LowestAvailable(offers[..|offers| - 1]), offers[|offers| - 1])
  }

  /** `lowestMarketplacePrice`: the minimum, or 0 when no offer is available. */
  function LowestPrice(offers: seq<Offer>): real {
    LowestAvailable(offers).GetOr(0.0)
  }

  /** `calculateSavings`: the minimum less the GeM price, or 0 when no offer is available. */
  function Savings(p: Product): real {
    match LowestAvailable(p.marketplacePrices)
    case None => 0.0
    case Some(m) => m - p.gemPrice
  }

  /** The running minimum is the least price among the available offers. */
  lemma {:induction false} LowestAvailableIsMinimum(offers: seq<Offer>)
    ensures LowestAvailable(offers).None? <==> forall i :: 0 <= i < |offers| ==> !offers[i].isAvailable
    ensures LowestAvailable(offers).Some? ==>
      (exists i :: 0 <= i < |offers| && offers[i].isAvailable && offers[i].price == LowestAvailable(offers).value)
    ensures LowestAvailable(offers).Some? ==>
      forall i :: 0 <= i < |offers| && offers[i].isAvailable ==> LowestAvailable(offers).value <= offers[i].price
    decreases |offers|
  {
    if offers != [] {
      var init := offers[..|offers| - 1];
      LowestAvailableIsMinimum(init);
      assert forall i :: 0 <= i < |init| ==> init[i] == offers[i];
      var last := |offers| - 1;
      if LowestAvailable(offers) != LowestAvailable(init) {
        assert offers[last].isAvailable && offers[last].price == LowestAvailable(offers).value;
      }
    }
  }

  function AvailableOnly(offers: seq<Offer>): (r: seq<Offer>)
    ensures forall i :: 0 <= i < |r| ==> r[i].isAvailable
    decreases |offers|
  {
    if offers == [] then []
    else AvailableOnly(offers[..|offers| - 1]) + (if offers[|offers| - 1].isAvailable then [offers[|offers| - 1]] else [])
  }

  /** Unavailable offers never matter, whatever their price. */
  lemma {:induction false} UnavailableIgnored(offers: seq<Offer>)
    ensures LowestAvailable(offers) == LowestAvailable(AvailableOnly(offers))
    decreases |offers|
  {
    if offers != [] {
      var init := offers[..|offers| - 1];
      var last := offers[|offers| - 1];
      UnavailableIgnored(init);
      if last.isAvailable {
        var a := AvailableOnly(init) + [last];
        assert AvailableOnly(offers) == a;
        assert a[..|a| - 1] == AvailableOnly(init);
      } else {
        assert AvailableOnly(offers) == AvailableOnly(init) + [];
        assert AvailableOnly(init) + [] == AvailableOnly(init);
      }
    }
  }

  /** The figures the two loops promise, stated on the product. */
  lemma SavingsMeaning(p: Product)
    ensures (forall i :: 0 <= i < |p.marketplacePrices| ==> !p.marketplacePrices[i].isAvailable)
      ==> Savings(p) == 0.0 && LowestPrice(p.marketplacePrices) == 0.0
    ensures (exists i :: 0 <= i < |p.marketplacePrices| && p.marketplacePrices[i].isAvailable)
      ==> Savings(p) == LowestPrice(p.marketplacePrices) - p.gemPrice
  {
    LowestAvailableIsMinimum(p.marketplacePrices);
    if exists i :: 0 <= i < |p.marketplacePrices| && p.marketplacePrices[i].isAvailable {
      var i :| 0 <= i < |p.marketplacePrices| && p.marketplacePrices[i].isAvailable;
      assert LowestAvailable(p.marketplacePrices).Some?;
    }
  }

  /** Offers {500 available, 300 unavailable} and GeM price 450 save 50. */
  lemma SavingsExample(p: Product)
    requires p.gemPrice == 450.0
    requires p.marketplacePrices == [Offer(Amazon, "a", 500.0, 0.0, true), Offer(Flipkart, "f", 300.0, 0.0, false)]
    ensures LowestPrice(p.marketplacePrices) == 500.0
    ensures Savings(p) == 50.0
  {
    var offers := p.marketplacePrices;
    assert offers[..1][..0] == [];
    assert LowestAvailable(offers[..1]) == Some(500.0);
    assert offers[..|offers| - 1] == offers[..1];
    assert LowestAvailable(offers) == Some(500.0);
  }

  /** The `lowestMarketplacePrice` getter. */
  method LowestMarketplacePrice(offers: seq<Offer>) returns (price: real)
    ensures price == LowestPrice(offers)
  {
    var minPrice: Option<real> := None;
    if |offers| > 0 {
      var i := 0;
      while i < |offers|
        invariant 0 <= i <= |offers|
        invariant minPrice == LowestAvailable(offers[..i])
      {
        var mp := offers[i];
        if mp.isAvailable && (minPrice.None? || mp.price < minPrice.value) {
          minPrice := Some(mp.price);
        }
        assert offers[..i + 1][..i] == offers[..i];
        i := i + 1;
      }
      assert offers[..|offers|] == offers;
    }
    price := if minPrice.None? then 0.0 else minPrice.value;
  }

  /** The `calculateSavings` method. */
  method CalculateSavings(p: Product) returns (savings: real)
    ensures savings == Savings(p)
  {
    var offers := p.marketplacePrices;
    var minMarketplacePrice: Option<real> := None;
    var i := 0;
    while i < |offers|
      invariant 0 <= i <= |offers|
      invariant minMarketplacePrice == LowestAvailable(offers[..i])
    {
      var mp := offers[i];
      if mp.isAvailable && (minMarketplacePrice.None? || mp.price < minMarketplacePrice.value) {
        minMarketplacePrice := Some(mp.price);
      }
      assert offers[..i + 1][..i] == offers[..i];
      i := i + 1;
    }
    assert offers[..|offers|] == offers;
    if minMarketplacePrice.None? {
      return 0.0;
    }
    savings := minMarketplacePrice.value - p.gemPrice;
  }
}
