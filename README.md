# A verified model of the GeM price-comparison shop

The shop lists products that have an official GeM price and a set of offers
from marketplaces such as Amazon and Flipkart. Shoppers compare the prices
and pay through the Razorpay gateway. This project models the logic at the
centre of the shop in Dafny and proves what that logic promises:

- **Catalog query** (`ProductController`, with `JsText`, `JsObject`, `Json` and
  `OperatorRewrite`). `getProducts` turns the flat query parameters into a
  store query in these steps:
  - it drops the control keys;
  - it serialises the rest to JSON;
  - it puts `$` before the operator words `gt`, `gte`, `lt`, `lte` and `in`,
    using a regular expression;
  - it parses the result back;
  - it moves the flat `gemPrice[gte]`/`gemPrice[lte]` keys into a nested range;
  - it adds a keyword clause, a sort string and a pagination window with
    `next`/`prev` descriptors.

  The JSON text is modelled exactly, and so is the regular expression's
  word-boundary behaviour. The store is a parameter: a count result and a
  search function.
- **Product record** (`ProductModel`). The schema's required fields,
  enumerations, defaults and name limit are a validation function. The
  `lowestMarketplacePrice` virtual and `calculateSavings` are loops, each
  proved against a specification function.
- **Payments** (`PaymentController`). `verifyPayment` compares the supplied
  signature with the lowercase hexadecimal text of the HMAC-SHA256 (section 2
  of RFC 2104) of "order id|payment id". The HMAC is a parameter that yields
  32 bytes, and the hexadecimal encoding is modelled exactly. A body field
  may be any JSON value: a number, boolean, array or object is carried with
  the text that string concatenation converts it to, or with none when that
  conversion throws. `createPaymentOrder` builds the order options from the amount and a
  timestamp. Both are functions, so identical inputs always give identical
  outcomes.
- **Listing page** (`ProductListing`):
  - the request parameters that `fetchProducts` builds from the URL and the
    sort choice;
  - `applyFilters` on a `URLSearchParams` object, a class with `set` and
    `delete`;
  - `clearFilters`;
  - the savings badge.
- **Product page** (`ProductDetails`): the "you save" / "market price is
  lower" verdict and the cart item.
- **Admin editor** (`AdminProducts`):
  - the blank draft;
  - the handlers that edit its offer rows and its specification map;
  - the "found" column of the product table.
- **Redux product slice** (`ProductSlice`): the store state as a class whose
  reducers assign its fields, checked against a `Reduce` function on state
  values. The rejection message of the thunks is modelled too.

A JavaScript object is a list of (key, value) pairs in insertion order
(`JsObject`). Lookup takes the first match. Assignment replaces a value in
place or appends a new pair. `delete` removes every pair with the key.
Prices are `real`.

## Model

| member | source | states |
|---|---|---|
| JsText.TrimIdempotent | backend/src/model/product.js:7 | trimming a trimmed name changes nothing |
| JsText.ParseIntOfDecimal | backend/src/controller/productController.js:83-84 | `parseInt` reads a run of decimal digits, alone or after a minus sign, back as its value or its negation |
| JsText.DecimalRoundTrip | backend/src/controller/paymentController.js:20 | the decimal text of a number reads back as that number |
| JsText.SplitJoin | backend/src/controller/productController.js:76 | splitting joined parts that do not contain the separator gives back the parts |
| JsText.JoinSplit | backend/src/controller/productController.js:76 | `split(',').join(' ')` replaces each comma by a space and changes nothing else |
| JsText.SplitKeepsOut | backend/src/controller/productController.js:76 | no part of a split holds a character that the text does not hold |
| Json.ParseStringify | backend/src/controller/productController.js:30-36 | `JSON.parse` of `JSON.stringify` of a string-valued object with distinct keys gives back the object |
| Json.StringifyShape | backend/src/controller/productController.js:30 | a non-empty object serialises as `{` followed by its members and `}` |
| OperatorRewrite.OperatorsAreAlternatives | backend/src/controller/productController.js:31 | the operator words are exactly the five alternatives of the pattern |
| OperatorRewrite.Match | backend/src/controller/productController.js:31 | a match at i is one of the five alternatives with a word boundary on both sides; when there is none, no alternative matches there |
| OperatorRewrite.OperatorRunMatches | backend/src/controller/productController.js:31 | at the start of a maximal word run that is an operator word, the pattern matches exactly that run |
| OperatorRewrite.ReplaceLength | backend/src/controller/productController.js:31 | the output length is the input length plus the number of matches |
| OperatorRewrite.ReplaceOperatorsIsMarkRuns | backend/src/controller/productController.js:31 | the regex scan puts `$` before exactly the maximal word runs that are operator words and copies every other character |
| OperatorRewrite.StringifyRewrite | backend/src/controller/productController.js:30-31 | rewriting the JSON text equals serialising the object with every key and value rewritten; keys and values are hit alike |
| OperatorRewrite.RewriteQuery | backend/src/controller/productController.js:30-36 | parsing the rewritten text gives the object with each key and value rewritten |
| OperatorRewrite.UnmarkRewrite | backend/src/controller/productController.js:31 | removing the inserted `$` signs gives back the original text |
| OperatorRewrite.RewriteFieldInjective | backend/src/controller/productController.js:31 | distinct texts stay distinct after the rewrite |
| OperatorRewrite.RewriteFieldsDistinct | backend/src/controller/productController.js:30-36 | distinct keys stay distinct, so no parameter is lost in the round trip |
| OperatorRewrite.RewriteFieldsLookup | backend/src/controller/productController.js:30-36 | the rewritten key maps to the rewritten value |
| OperatorRewrite.RewritePlainWord | backend/src/controller/productController.js:31 | a word that is not an operator is left as it is |
| OperatorRewrite.RewriteFieldNonEmpty | backend/src/controller/productController.js:31 | only the empty text rewrites to the empty text |
| ProductController.AsText | backend/src/controller/productController.js:36 | each parsed value is the text of the same entry, in the same order |
| ProductController.ParseFilter | backend/src/controller/productController.js:21-36 | the loop that deletes control keys, then serialise, rewrite and parse, computes the base filter |
| ProductController.DeleteControls | backend/src/controller/productController.js:21-25 | the loop that deletes `select`, `sort`, `page`, `limit` and `keyword` from the copied query one by one leaves the query without them and keeps names distinct |
| ProductController.FixGemPrice | backend/src/controller/productController.js:43-54 | the in-place gemPrice fix-up computes `FixBound` |
| ProductController.GetProducts | backend/src/controller/productController.js:18-107 | the response is the listing; it succeeds exactly when the count and the search succeed; `count` is the length of the returned list |
| ProductController.PlanOfParts | backend/src/controller/productController.js:56-89 | the store query is the filter, keyword clause and sort, with skip `(page-1)*limit` and the limit |
| ProductController.ListingOfCases | backend/src/controller/productController.js:87-106 | the status is 200 exactly when both store calls succeed; a failed count or search gives 400 with its message, the count first; otherwise the list with its count and pagination |
| ProductController.PaginationOfParts | backend/src/controller/productController.js:85-101 | the descriptors built from `startIndex`/`endIndex` are the pagination of the page, limit and total |
| ProductController.DeleteAllLookup | backend/src/controller/productController.js:25 | after the deletes, a deleted name is absent and every other key keeps its value |
| ProductController.ControlKeysDropped | backend/src/controller/productController.js:21-25 | `select`, `sort`, `page`, `limit` and `keyword` are gone, and every other key/value is kept |
| ProductController.AsTextLookup | backend/src/controller/productController.js:36 | a key of the parsed object maps to the text of its value |
| ProductController.BaseFilterLookup | backend/src/controller/productController.js:21-36 | a parameter that is not a control key reaches the filter with its key and value rewritten |
| ProductController.FixBoundLookup | backend/src/controller/productController.js:43-54 | a truthy bound puts the raw text in a range on `gemPrice` (unless `gemPrice` is already text) and removes both flat keys; other keys are untouched |
| ProductController.FixedNames | backend/src/controller/productController.js:24-53 | the flat and rewritten bound keys, `gemPrice` and the control names are pairwise distinct |
| ProductController.ControlNamesPlain | backend/src/controller/productController.js:24 | no control name contains an operator word |
| ProductController.NoControlKeyInFilter | backend/src/controller/productController.js:21-54 | no control key survives into the final filter |
| ProductController.GemPriceIsPlain | backend/src/controller/productController.js:31 | the key `gemPrice` is not rewritten |
| ProductController.GemPriceRange | backend/src/controller/productController.js:43-54 | with no plain `gemPrice` parameter, `gemPrice` holds exactly the truthy bounds as raw text, and neither flat key remains |
| ProductController.GemPriceTextWins | backend/src/controller/productController.js:43-51 | a truthy plain `gemPrice` parameter stays text, and the bound assignments do nothing to it |
| ProductController.KeywordClause | backend/src/controller/productController.js:59-70 | the keyword clause is present exactly when `keyword` is non-empty, and it searches name, brand, category and specs.Model case-insensitively |
| ProductController.SortString | backend/src/controller/productController.js:75-80 | the sort is the list with commas turned into spaces (the same fields, in order), or `-createdAt` |
| ProductController.PageAndLimit | backend/src/controller/productController.js:83-84 | for every run of decimal digits, page and limit are its value, or its negation after a minus sign; an all-zero run, an absent parameter and a text with no number at its start give the default (1 or 10) |
| ProductController.NegativePagePasses | backend/src/controller/productController.js:83 | every negative integer text is taken as the page as it is: no lower bound applies |
| ProductController.PaginationDescriptors | backend/src/controller/productController.js:85-101 | `next` is present iff `page*limit < total`, `prev` iff `(page-1)*limit > 0`, with page ±1 and the same limit |
| ProductController.PaginationExamples | backend/src/controller/productController.js:95-101 | page 2 of 10 in 25 gives both descriptors; page 3 gives only `prev` |
| ProductModel.CategoriesDistinct | backend/src/model/product.js:27-31 | the 16 category names are pairwise distinct |
| ProductModel.CategoryRoundTrip | backend/src/model/product.js:24-32 | a text is accepted as a category exactly when it is one of the listed names, and it maps back to that name |
| ProductModel.EnumRoundTrips | backend/src/model/product.js:33-37 | each comparison type, marketplace and status name reads back as its value |
| ProductModel.NoErrors | backend/src/model/product.js:3-88 | a document has no failing path exactly when every required field is present and not empty, `gemPrice` is undefined or a number (null, `''` and non-numeric text fail), every enumeration has an allowed value, every `specs` key is one a Mongoose map accepts, a given `createdAt` casts to a date, the trimmed name has at most 100 units, and every image and offer passes its own validators |
| ProductModel.ImageErrorsPath | backend/src/model/product.js:42-51 | an image fails no check exactly when its `public_id` and `url` are both present and not empty |
| ProductModel.OfferErrorsPath | backend/src/model/product.js:56-77 | an offer fails no check exactly when its marketplace is one of the four listed names, its link is present and not empty, its price is present, and a given `discount` casts to a number and a given `isAvailable` to a boolean |
| ProductModel.ValidateValid | backend/src/model/product.js:3-88 | what validation accepts meets the schema predicate |
| ProductModel.BuildValid | backend/src/model/product.js:3-88 | a document that passes every validator is saved as a record that meets the schema predicate |
| ProductModel.ValidateDefaults | backend/src/model/product.js:15-86 | the defaults, each only for an undefined field: comparison type Direct Match, status active, GeM price 0, creation time now, discount 0, offers available; a given GeM price, creation time, discount or availability is kept |
| ProductModel.InvalidDateRefused | backend/src/model/product.js:84-87 | a `createdAt` whose cast to a date fails is refused under `createdAt`; the default fills in only an undefined value |
| ProductModel.BlankGemPriceRefused | backend/src/model/product.js:15-19 | a `gemPrice` that is null, empty or not a number is refused under `gemPrice`: the default fills in only an undefined value |
| ProductModel.SpecsKeyRefused | backend/src/model/product.js:52-55 | a `specs` key that contains `.`, starts with `$` or is `__proto__`, `constructor` or `prototype` is refused under `specs`, as a Mongoose map refuses it |
| ProductModel.NameLimit | backend/src/model/product.js:4-9 | a name that is empty, or longer than 100 units after trimming, is refused under `name` |
| ProductModel.LowestAvailableIsMinimum | backend/src/model/product.js:108-118 | there is no minimum exactly when no offer is available; otherwise it is the price of an available offer and at most every available price |
| ProductModel.UnavailableIgnored | backend/src/model/product.js:94 | unavailable offers never change the minimum, whatever their price |
| ProductModel.SavingsMeaning | backend/src/model/product.js:91-105 | the savings are 0 with no available offer, and otherwise the minimum available price less the GeM price |
| ProductModel.SavingsExample | backend/src/model/product.js:91-105 | offers 500 (available) and 300 (unavailable) with GeM price 450 give 50 |
| ProductModel.LowestMarketplacePrice | backend/src/model/product.js:108-118 | the getter's loop computes the lowest available price, or 0 |
| ProductModel.CalculateSavings | backend/src/model/product.js:91-105 | the method's loop computes the savings |
| PaymentController.Hex | backend/src/controller/paymentController.js:46 | the hexadecimal text has two lowercase digits per byte |
| PaymentController.ParseHexOfHex | backend/src/controller/paymentController.js:46 | the hexadecimal text reads back as the bytes |
| PaymentController.HexInjective | backend/src/controller/paymentController.js:43-48 | different digests have different texts |
| PaymentController.ExpectedSignatureShape | backend/src/controller/paymentController.js:43-46 | the expected signature is 64 characters from 0-9 and a-f |
| PaymentController.VerifyExact | backend/src/controller/paymentController.js:37-62 | with a secret, the answer is 500 exactly when an id's conversion to text throws, 200 exactly when both ids convert and the signature is lowercase hex text that reads as the HMAC of the signed message, and 400 otherwise |
| PaymentController.UnconvertibleIdFails | backend/src/controller/paymentController.js:37-62 | an id whose conversion to text throws (an object with no usable `valueOf` or `toString`) gives 500, whether or not a secret is configured |
| PaymentController.ParseHexIsHex | backend/src/controller/paymentController.js:46-48 | lowercase text that reads as some bytes is the hex text of those bytes |
| PaymentController.MalformedRejected | backend/src/controller/paymentController.js:43-58 | a signature that is not a string, is not 64 characters long, or holds any character outside 0-9a-f is never accepted; with a secret and ids that convert to text the answer is 400 |
| PaymentController.MissingIdSignedAsUndefined | backend/src/controller/paymentController.js:39-41 | a missing id is not refused: it is signed as the text `undefined` |
| PaymentController.SignedMessageSplits | backend/src/controller/paymentController.js:41 | when neither id contains `\|`, the signed text splits back into the two ids |
| PaymentController.OrderAmountInPaise | backend/src/controller/paymentController.js:15-28 | any amount, even zero or negative, goes to the gateway as 100 times the amount, in INR; the gateway's order is answered with 200 as it is, and its error with 500 and the error's message |
| PaymentController.ReceiptTimestamp | backend/src/controller/paymentController.js:20 | the receipt is `receipt_order_` followed by text that reads back as the timestamp |
| PaymentController.ReceiptsDistinct | backend/src/controller/paymentController.js:20 | orders created at different milliseconds get different receipts |
| ProductListing.SearchParams.Set | frontend/src/pages/ProductListing.jsx:32-35 | `set` replaces the first pair with the name, drops the other pairs with it, or appends a pair |
| ProductListing.SearchParams.Delete | frontend/src/pages/ProductListing.jsx:33-36 | `delete` removes every pair with the name |
| ProductListing.SetEntryLookup | frontend/src/pages/ProductListing.jsx:32-35 | after `set`, the name maps to the value and every other name is unchanged |
| ProductListing.DeleteTwice | frontend/src/pages/ProductListing.jsx:33-36 | deleting a name twice is deleting it once |
| ProductListing.DeleteCommutes | frontend/src/pages/ProductListing.jsx:33-36 | deleting two names gives the same result in either order |
| ProductListing.DeleteAfterSet | frontend/src/pages/ProductListing.jsx:32-33 | deleting a name after setting it is deleting it |
| ProductListing.DeleteOtherAfterSet | frontend/src/pages/ProductListing.jsx:32-36 | deleting another name commutes with setting |
| ProductListing.ApplyFilters | frontend/src/pages/ProductListing.jsx:29-40 | minPrice and maxPrice are set when non-empty and absent when empty; every other parameter is unchanged; with both removed, the URL is the old one with both removed; the filter panel is closed |
| ProductListing.ClearFilters | frontend/src/pages/ProductListing.jsx:43-47 | no URL parameter is left, both price inputs are empty, the filter panel is closed, and the sort choice stays |
| ProductListing.ClearedRequest | frontend/src/pages/ProductListing.jsx:43-65 | after clearing, the request carries only the sort |
| ProductListing.AssignFilters | frontend/src/pages/ProductListing.jsx:54-60 | the conditional assignments build category, keyword and the two gemPrice bounds, each only when truthy |
| ProductListing.BuildRequestParams | frontend/src/pages/ProductListing.jsx:54-65 | the assignments build the request parameters |
| ProductListing.RequestParamsMeaning | frontend/src/pages/ProductListing.jsx:54-65 | category goes as `category` and search as `keyword`; minPrice and maxPrice go as `gemPrice[gte]` and `gemPrice[lte]` as raw text; the sort choices map to their sort strings; nothing else is sent |
| ProductListing.FilterNames | frontend/src/pages/ProductListing.jsx:54-60 | the filter part maps each name to its truthy URL value |
| ProductListing.RequestParamsDistinct | frontend/src/pages/ProductListing.jsx:54-65 | the request has no repeated name |
| ProductListing.PriceBoundsReachFilter | frontend/src/pages/ProductListing.jsx:59-60 | from the URL's minPrice and maxPrice to the store: they become the `gemPrice` range clause of the backend's filter |
| ProductListing.SortChoiceReachesStore | frontend/src/pages/ProductListing.jsx:63-65 | the store is sorted by the chosen sort string, or by `-createdAt` for any other choice |
| ProductListing.BadgeMeaning | frontend/src/pages/ProductListing.jsx:186-188 | the badge amount is always positive; it is the savings when an offer is available; with none, the badge shows only for a negative GeM price |
| ProductDetails.VerdictMeaning | frontend/src/pages/ProductDetails.jsx:45-85 | GeM is called cheaper iff its price is below the lowest marketplace price; equal prices read "market lower by 0"; the amount shown is the non-negative gap |
| ProductDetails.NoOfferNeverCheaper | frontend/src/pages/ProductDetails.jsx:45-46 | with no available offer the savings are minus the GeM price, and a positive GeM price is never shown as cheaper |
| ProductDetails.PageAgreesWithSavings | frontend/src/pages/ProductDetails.jsx:45 | with an available offer, the page's savings are what `calculateSavings` returns |
| ProductDetails.CartItemMeaning | frontend/src/pages/ProductDetails.jsx:30-38 | the cart item has the id, the name, the first image's URL (if any), the GeM price, stock 10 and quantity 1 |
| AdminProducts.InitialOffers | frontend/src/pages/AdminProducts.jsx:25-28 | the blank draft has two rows, Amazon and Flipkart, available and without a price |
| AdminProducts.InitialEnums | frontend/src/pages/AdminProducts.jsx:21-23 | the blank draft's category and comparison type are Electronics and Direct Match, both accepted by the schema |
| AdminProducts.InitialSpecs | frontend/src/pages/AdminProducts.jsx:29 | the blank specification map holds exactly Model, Warranty and Color, each empty |
| AdminProducts.WithField | frontend/src/pages/AdminProducts.jsx:65 | the chosen field gets the value; the other fields and availability are kept |
| AdminProducts.HandleMarketplaceChange | frontend/src/pages/AdminProducts.jsx:63-67 | only field f of row i changes; every other row and field is kept |
| AdminProducts.AddMarketplaceMeaning | frontend/src/pages/AdminProducts.jsx:69-74 | one blank, available row is added at the end, and the earlier rows are kept |
| AdminProducts.RemoveMarketplaceMeaning | frontend/src/pages/AdminProducts.jsx:76-79 | the row at i goes and the others keep their order; an index out of range changes nothing |
| AdminProducts.FilterIndexSplit | frontend/src/pages/AdminProducts.jsx:77 | filtering by position removes exactly the position counted from the offset |
| AdminProducts.HandleSpecChange | frontend/src/pages/AdminProducts.jsx:81-88 | key maps to value, except that a new `__proto__` key is swallowed by the inherited setter and adds nothing; a different oldKey is gone; other keys are unchanged; renaming onto an existing key shrinks the map by one; any other new key goes last |
| AdminProducts.DeleteShrinks | frontend/src/pages/AdminProducts.jsx:84 | deleting a present key removes one entry |
| AdminProducts.HandleRemoveSpec | frontend/src/pages/AdminProducts.jsx:94-98 | exactly that key goes, and every other entry is unchanged |
| AdminProducts.AddSpecMeaning | frontend/src/pages/AdminProducts.jsx:90-92 | the empty key maps to the empty value and the other entries are unchanged; when it was absent, it is appended |
| AdminProducts.FoundCountBounds | frontend/src/pages/AdminProducts.jsx:305 | the count is at most the number of offers; it is all of them iff every price is positive, and none iff no price is |
| AdminProducts.FoundCountAppend | frontend/src/pages/AdminProducts.jsx:305 | the count of two lists of rows is the sum of their counts |
| ProductSlice.ProductStore.constructor | frontend/src/redux/productSlice.js:35-42 | the initial state: no products, no product, all flags false, empty message |
| ProductSlice.ProductStore.Reset | frontend/src/redux/productSlice.js:48-53 | `reset` performs the reset transition |
| ProductSlice.ProductStore.OnGetProductsPending | frontend/src/redux/productSlice.js:57-59 | the pending case performs its transition |
| ProductSlice.ProductStore.OnGetProductsFulfilled | frontend/src/redux/productSlice.js:60-64 | the fulfilled case performs its transition |
| ProductSlice.ProductStore.OnGetProductsRejected | frontend/src/redux/productSlice.js:65-69 | the rejected case performs its transition |
| ProductSlice.ProductStore.OnCreateProductFulfilled | frontend/src/redux/productSlice.js:70-74 | the push performs the create transition |
| ProductSlice.ProductStore.Dispatch | frontend/src/redux/productSlice.js:44-76 | the reducer performs each action's transition, and leaves the state alone for an action without a case |
| ProductSlice.ResetMeaning | frontend/src/redux/productSlice.js:48-53 | reset clears the flags and the message, keeps products and product, and is idempotent |
| ProductSlice.PendingMeaning | frontend/src/redux/productSlice.js:57-59 | pending raises isLoading and changes nothing else |
| ProductSlice.FulfilledKeepsError | frontend/src/redux/productSlice.js:60-64 | a load replaces the products and raises isSuccess, but isError and the message stay |
| ProductSlice.RejectedKeepsProducts | frontend/src/redux/productSlice.js:65-69 | a failed load records the message and keeps the products |
| ProductSlice.CreatedAppended | frontend/src/redux/productSlice.js:70-74 | a created product goes at the end, and the earlier ones keep their order |
| ProductSlice.ErrorSticky | frontend/src/redux/productSlice.js:48-74 | once isError is set, only `reset` clears it |
| ProductSlice.CreateWithoutCase | frontend/src/redux/productSlice.js:55-75 | createProduct's pending and rejected actions leave the state unchanged |
| ProductSlice.ProductsOnlyOnFulfilled | frontend/src/redux/productSlice.js:55-75 | without a fulfilled action the products never change |
| ProductSlice.CreatedInOrder | frontend/src/redux/productSlice.js:70-74 | products created one after another are appended in that order |
| ProductSlice.RejectionMessageMeaning | frontend/src/redux/productSlice.js:12 | the message is the server's message, else the error's message, else the error's string form |
| ProductSlice.ServerMessageShown | frontend/src/redux/productSlice.js:12-13 | a failed load explained by the server shows the server's words and keeps the products |

## Left out

Where the product description and the code disagree, the model follows the code:

- `getProducts` has no field whitelist. Any parameter that is not a control key goes to the store.
- `createPaymentOrder` does not validate the amount.
- The signature comparison is `===`, not a constant-time comparison.
- A missing id is signed as `undefined`.
- A negative `page` or `limit` is passed through.
- `calculateSavings` returns 0 when no offer is available.

What the model does not capture:

- The store and HTTP:
  - the Mongoose `find`/`countDocuments` calls become a count result and a search function;
  - how MongoDB casts `gemPrice.$gte`, matches the keyword regular expression, or treats a negative `skip`/`limit` is not modelled;
  - the CRUD wrappers `createProduct`, `getProduct`, `updateProduct` and `deleteProduct` are not modelled;
  - the Express wiring and the auth middleware are not modelled.
- Query parsing:
  - a repeated query parameter (an array) and `qs` nesting are not modelled; a query is a flat list of text pairs with distinct names;
  - the URL encoding between axios and Express is taken as exact.
- JavaScript objects:
  - the key order that JavaScript gives to integer-like property names is not modelled; insertion order is used.
- The JSON parser accepts only the text the serialiser produces:
  - a flat object with string values and no whitespace;
  - not surrogate `\u` escapes.
- ProductController.PageAndLimit: page and limit are exact integers, while the source's are doubles: a digit run above 2^53 rounds (`parseInt("9007199254740993")` is 9007199254740992), a very long run gives Infinity, and `(page - 1) * limit` and `page * limit` round; the same holds for `PlanOf` and `PaginationFor`.
- Numbers:
  - prices are `real`, so Infinity, NaN and floating-point rounding are not modelled;
  - `toFixed` formatting is left out;
  - the `amount * 100` of a non-number body field (JavaScript coercion) is not modelled;
- ProductModel.NoErrors and ProductModel.OfferErrorsPath: a submitted null is not represented for `comparisonType`, `status`, `createdAt`, or an offer's `discount` and `isAvailable`. The enumeration validator accepts null there, a Number, Boolean or Date cast passes null through, and the default fills in only an undefined value, so such a document passes and is stored with null; the model's inputs for these fields are undefined, a value, or (for the three typed fields) a failed cast, and a stored product always holds a value there.
- PaymentController.VerifyPayment: the 500 answer when no secret is configured does not carry Node's error message.
- The gateway and crypto:
  - the Razorpay client, `orders.create`, and the insides of SHA-256 and HMAC are parameters;
  - `process.env` beyond the optional secret is not modelled;
  - `getRazorpayKey` is not modelled.
- Rendering, effects and navigation:
  - the JSX, `useEffect` (including the sync of the price inputs from the URL), `navigate`, the axios and thunk network code, and `alert` are left out;
  - the listing page's request is modelled from the URL values it reads.
- AdminProducts.HandleMarketplaceChange: the source's shallow copy assigns into the row object that the previous draft shares; the model returns a new list and does not capture that aliasing.
- `handleInputChange`, `handleImageChange` and the submit, edit and delete handlers of the admin page are not modelled: they are form plumbing around the store calls.
- The 18% GST in the cart is left out: it is a floating-point multiply formatted with `toFixed`.
- The pages that are pure display or static data, and `adminController.js`, whose counts and revenue sum are store queries, are left out.
- The debug logging is left out.
