/**
 * The product store of frontend/src/redux/productSlice.js: its state, the
 * `reset` reducer, the cases for the `getProducts` and `createProduct`
 * thunks, and the message a failed request is rejected with.
 *
 * The reducers assign fields of the state in place, so the state is a class;
 * `SliceState` is its value, and `Reduce` says what one action does to it.
 */
module ProductSlice {
  import opened Wrappers
  import opened ProductModel

  datatype SliceState = SliceState(
    products: seq<Product>,
    product: Option<Product>,
    isError: bool,
    isSuccess: bool,
    isLoading: bool,
    message: string)

  const InitialState: SliceState := SliceState([], None, false, false, false, "")

  /** The actions the slice sees; the createProduct pending and rejected actions have no case. */
  datatype Action =
    | ResetAction
    | GetProductsPending
    | GetProductsFulfilled(products: seq<Product>)
    | GetProductsRejected(message: string)
    | CreateProductPending
    | CreateProductFulfilled(created: Product)
    | CreateProductRejected(message: string)

  function Reduce(s: SliceState, a: Action): SliceState {
    match a
    case ResetAction => s.(isLoading := false, isSuccess := false, isError := false, message := "")
    case GetProductsPending => s.(isLoading := true)
    case GetProductsFulfilled(ps) => s.(isLoading := false, isSuccess := true, products := ps)
    case GetProductsRejected(m) => s.(isLoading := false, isError := true, message := m)
    case CreateProductFulfilled(p) => s.(isLoading := false, isSuccess := true, products := s.products + [p])
    case CreateProductPending => s
    case CreateProductRejected(_) => s
  }

  class ProductStore {
    var products: seq<Product>
    var product: Option<Product>
    var isError: bool
    var isSuccess: bool
    var isLoading: bool
    var message: string

    function State(): SliceState
      reads this
    {
      SliceState(products, product, isError, isSuccess, isLoading, message)
    }

    /** `initialState`. */
    constructor()
      ensures State() == InitialState
    {
      products := [];
      product := None;
      isError := false;
      isSuccess := false;
      isLoading := false;
      message := "";
    }

    method Reset()
      modifies this
      ensures State() == Reduce(old(State()), ResetAction)
    {
      isLoading := false;
      isSuccess := false;
      isError := false;
      message := "";
    }

    method OnGetProductsPending()
      modifies this
      ensures State() == Reduce(old(State()), GetProductsPending)
    {
      isLoading := true;
    }

    method OnGetProductsFulfilled(payload: seq<Product>)
      modifies this
      ensures State() == Reduce(old(State()), GetProductsFulfilled(payload))
    {
      isLoading := false;
      isSuccess := true;
      products := payload;
    }

    method OnGetProductsRejected(payload: string)
      modifies this
      ensures State() == Reduce(old(State()), GetProductsRejected(payload))
    {
      isLoading := false;
      isError := true;
      message := payload;
    }

    /** `state.products.push(action.payload)`. */
    method OnCreateProductFulfilled(payload: Product)
      modifies this
      ensures State() == Reduce(old(State()), CreateProductFulfilled(payload))
    {
      isLoading := false;
      isSuccess := true;
      products := products + [payload];
    }

    /** The slice's reducer: the case for the action, or the state as it was. */
    method Dispatch(a: Action)
      modifies this
      ensures State() == Reduce(old(State()), a)
    {
      match a
      case ResetAction => Reset();
      case GetProductsPending => OnGetProductsPending();
      case GetProductsFulfilled(ps) => OnGetProductsFulfilled(ps);
      case GetProductsRejected(m) => OnGetProductsRejected(m);
      case CreateProductFulfilled(p) => OnCreateProductFulfilled(p);
      case CreateProductPending =>
      case CreateProductRejected(_) =>
    }
  }

  // ---------------------------------------------------------------------------
  // What the reducers promise

  /** `reset` clears the three flags and the message and keeps the products and the product. */
  lemma ResetMeaning(s: SliceState)
    ensures var r := Reduce(s, ResetAction);
      !r.isLoading && !r.isSuccess && !r.isError && r.message == ""
      && r.products == s.products && r.product == s.product
    ensures Reduce(Reduce(s, ResetAction), ResetAction) == Reduce(s, ResetAction)
    ensures Reduce(InitialState, ResetAction) == InitialState
  {
  }

  /** A pending load raises isLoading and touches nothing else. */
  lemma PendingMeaning(s: SliceState)
    ensures var r := Reduce(s, GetProductsPending);
      r.isLoading && r.products == s.products && r.product == s.product
      && r.isError == s.isError && r.isSuccess == s.isSuccess && r.message == s.message
  {
  }

  /** A successful load replaces the list and raises isSuccess but leaves an earlier isError and its message standing. */
  lemma FulfilledKeepsError(s: SliceState, ps: seq<Product>)
    ensures var r := Reduce(s, GetProductsFulfilled(ps));
      r.products == ps && r.isSuccess && !r.isLoading
      && r.isError == s.isError && r.message == s.message && r.product == s.product
  {
  }

  /** A failed load keeps the list and records the message. */
  lemma RejectedKeepsProducts(s: SliceState, m: string)
    ensures var r := Reduce(s, GetProductsRejected(m));
      r.products == s.products && r.isError && !r.isLoading && r.message == m && r.isSuccess == s.isSuccess
  {
  }

  /** A created product goes at the end; the earlier ones keep their order. */
  lemma CreatedAppended(s: SliceState, p: Product)
    ensures var r := Reduce(s, CreateProductFulfilled(p));
      |r.products| == |s.products| + 1 && r.products[..|s.products|] == s.products
      && r.products[|s.products|] == p
  {
    var r := Reduce(s, CreateProductFulfilled(p));
    assert r.products[..|s.products|] == s.products;
  }

  /** The state after a sequence of actions, in order. */
  function ReduceAll(s: SliceState, actions: seq<Action>): SliceState
    decreases |actions|
  {
    if actions == [] then s else ReduceAll(Reduce(s, actions[0]), actions[1..])
  }

  /** Once set, isError stays set until a `reset`: no thunk outcome clears it. */
  lemma {:induction false} ErrorSticky(s: SliceState, actions: seq<Action>)
    requires s.isError
    requires forall i :: 0 <= i < |actions| ==> !actions[i].ResetAction?
    ensures ReduceAll(s, actions).isError
    decreases |actions|
  {
    if actions != [] {
      assert forall i :: 0 <= i < |actions[1..]| ==> actions[1..][i] == actions[i + 1];
      ErrorSticky(Reduce(s, actions[0]), actions[1..]);
    }
  }

  /** createProduct's pending and rejected actions have no case: they change nothing. */
  lemma CreateWithoutCase(s: SliceState, m: string)
    ensures Reduce(s, CreateProductPending) == s && Reduce(s, CreateProductRejected(m)) == s
  {
  }

  /** Without a fulfilled action the list never changes. */
  lemma {:induction false} ProductsOnlyOnFulfilled(s: SliceState, actions: seq<Action>)
    requires forall i :: 0 <= i < |actions| ==>
      !actions[i].GetProductsFulfilled? && !actions[i].CreateProductFulfilled?
    ensures ReduceAll(s, actions).products == s.products
    decreases |actions|
  {
    if actions != [] {
      assert forall i :: 0 <= i < |actions[1..]| ==> actions[1..][i] == actions[i + 1];
      ProductsOnlyOnFulfilled(Reduce(s, actions[0]), actions[1..]);
    }
  }

  /** Creating products one after another appends them in that order. */
  lemma {:induction false} CreatedInOrder(s: SliceState, created: seq<Product>)
    ensures ReduceAll(s, CreatedActions(created)).products == s.products + created
    decreases |created|
  {
    if created == [] {
      assert s.products + created == s.products;
    } else {
      var s1 := Reduce(s, CreateProductFulfilled(created[0]));
      var actions := CreatedActions(created);
      assert actions[0] == CreateProductFulfilled(created[0]);
      assert actions[1..] == CreatedActions(created[1..]);
      assert ReduceAll(s, actions) == ReduceAll(s1, actions[1..]);
      assert s1.products == s.products + [created[0]];
      CreatedInOrder(s1, created[1..]);
      assert s.products + created == (s.products + [created[0]]) + created[1..];
    }
  }

  function CreatedActions(created: seq<Product>): (r: seq<Action>)
    ensures |r| == |created|
  {
    if created == [] then [] else [CreateProductFulfilled(created[0])] + CreatedActions(created[1..])
  }

  // ---------------------------------------------------------------------------
  // The rejection message

  /** What the thunks read of a failed request: the server's JSON message, the error's message, its string form. */
  datatype RequestError = RequestError(serverMessage: Option<string>, message: string, text: string)

  /** `(response && response.data && response.data.message) || error.message || error.toString()`. */
  function RejectionMessage(e: RequestError): string {
    if e.serverMessage.Some? && e.serverMessage.value != "" then e.serverMessage.value
    else if e.message != "" then e.message
    else e.text
  }

  /** The first non-empty of the three, in that order; the string form when both messages are empty. */
  lemma RejectionMessageMeaning(e: RequestError)
    ensures RejectionMessage(e) in {e.message, e.text} || (e.serverMessage.Some? && RejectionMessage(e) == e.serverMessage.value)
    ensures e.serverMessage.Some? && e.serverMessage.value != "" ==> RejectionMessage(e) == e.serverMessage.value
    ensures (e.serverMessage.None? || e.serverMessage.value == "") && e.message != "" ==> RejectionMessage(e) == e.message
    ensures (e.serverMessage.None? || e.serverMessage.value == "") && e.message == "" ==> RejectionMessage(e) == e.text
  {
  }

  /** The action `getProducts` settles with. */
  function GetProductsOutcome(response: Result<seq<Product>, RequestError>): Action {
    match response
    case Success(ps) => GetProductsFulfilled(ps)
    case Failure(e) => GetProductsRejected(RejectionMessage(e))
  }

  /** A failed load that the server explains shows the server's words; the products on screen stay. */
  lemma ServerMessageShown(s: SliceState, e: RequestError)
    requires e.serverMessage.Some? && e.serverMessage.value != ""
    ensures Reduce(s, GetProductsOutcome(Failure(e))).message == e.serverMessage.value
    ensures Reduce(s, GetProductsOutcome(Failure(e))).products == s.products
  {
  }
}
