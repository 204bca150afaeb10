/** The provider's state: the cart held in memory and the snapshot kept
    under the storage key. Each operation either commits its new cart to
    both at once or leaves both alone. */
module CartStore {
  import opened Items
  import opened Cart

  /** `persisted` is None while nothing has ever been written. */
  datatype Store<A> = Store(cart: seq<Item<A>>, persisted: Option<seq<Item<A>>>)

  /** The stored snapshot is the cart, or there is none and the cart is empty. */
  ghost predicate InSync<A>(s: Store<A>) {
    match s.persisted
    case None => s.cart == []
    case Some(saved) => saved == s.cart
  }

  /** Every amount in the cart is at least 1. */
  ghost predicate PositiveAmounts<A>(cart: seq<Item<A>>) {
    forall i :: 0 <= i < |cart| ==> cart[i].amount >= 1
  }

  /** What every operation keeps, once it holds. */
  ghost predicate Healthy<A>(s: Store<A>) {
    InSync(s) && UniqueIds(s.cart) && PositiveAmounts(s.cart)
  }

  /** The provider's start: the saved snapshot if there is one, else empty. */
  function Initialize<A>(saved: Option<seq<Item<A>>>): (s: Store<A>)
    ensures s.persisted == saved
    ensures InSync(s)
    ensures saved.None? ==> Healthy(s)
  {
    match saved
    case None => Store([], None)
    case Some(items) => Store(items, saved)
  }

  /** One call of the provider, with the answers its requests would get. */
  datatype Call<A> =
    | AddCall(id: int, stock: Fetched<seq<StockEntry>>, catalog: Fetched<seq<Product<A>>>)
    | RemoveCall(id: int)
    | UpdateCall(id: int, amount: int, stock: Fetched<seq<StockEntry>>)

  function Mutation<A>(cart: seq<Item<A>>, call: Call<A>): Change<A> {
    match call
    case AddCall(id, stock, catalog) => AddProduct(cart, stock, catalog, id)
    case RemoveCall(id) => RemoveProduct(cart, id)
    case UpdateCall(id, amount, stock) => UpdateProductAmount(cart, stock, id, amount)
  }

  /** Runs one call: on success the new cart is set and written to storage;
      otherwise neither the cart nor the snapshot moves. */
  function Perform<A>(s: Store<A>, call: Call<A>): (r: (Store<A>, Outcome))
    // the reported outcome is the call's own, and success commits the call's cart
    ensures r.1 == Mutation(s.cart, call).outcome
    ensures r.1 == Ok ==> r.0.cart == Mutation(s.cart, call).cart
    ensures r.1 == Ok ==> r.0.persisted == Some(r.0.cart)
    ensures r.1 != Ok ==> r.0 == s
    ensures InSync(s) ==> InSync(r.0)
    ensures Healthy(s) ==> Healthy(r.0)
  {
    var c := Mutation(s.cart, call);
    if c.outcome == Ok then
      assert UniqueIds(s.cart) ==> UniqueIds(c.cart) by {
        if UniqueIds(s.cart) { MutationKeepsUnique(s.cart, call); }
      }
      assert PositiveAmounts(s.cart) ==> PositiveAmounts(c.cart) by {
        if PositiveAmounts(s.cart) { MutationKeepsPositive(s.cart, call); }
      }
      (Store(c.cart, Some(c.cart)), Ok)
    else
      (s, c.outcome)
  }

  lemma MutationKeepsUnique<A>(cart: seq<Item<A>>, call: Call<A>)
    requires UniqueIds(cart)
    ensures UniqueIds(Mutation(cart, call).cart)
  {
    var c := Mutation(cart, call);
    if c.outcome == Ok && !call.RemoveCall? {
      var x := c.cart[|c.cart| - 1];
      ReplaceCharacterized(cart, x, c.cart);
      ReplaceKeepsUnique(cart, x);
    } else if call.RemoveCall? {
      WithoutKeepsUnique(cart, call.id);
    }
  }

  lemma MutationKeepsPositive<A>(cart: seq<Item<A>>, call: Call<A>)
    requires PositiveAmounts(cart)
    ensures PositiveAmounts(Mutation(cart, call).cart)
  {
    var c := Mutation(cart, call);
    if c.outcome == Ok {
      var w := Without(cart, call.id);
      if call.AddCall? {
        assert Amount(cart, call.id) >= 0 by {
          match FindItem(cart, call.id)
          case None =>
          case Some(x) =>
            var i :| 0 <= i < |cart| && cart[i] == x;
        }
      }
      forall i | 0 <= i < |c.cart|
        ensures c.cart[i].amount >= 1
      {
        if call.RemoveCall? || i < |c.cart| - 1 {
          assert c.cart[i] in w by {
            if !call.RemoveCall? {
              assert c.cart == w + [c.cart[|c.cart| - 1]];
            }
          }
          var j :| 0 <= j < |cart| && cart[j] == c.cart[i];
        }
      }
    }
  }

  /** Replays calls in order, each against the store the previous left. */
  function Run<A>(s: Store<A>, calls: seq<Call<A>>): Store<A>
    decreases |calls|
  {
    if |calls| == 0 then s else Run(Perform(s, calls[0]).0, calls[1..])
  }

  /** From a healthy store (the empty start is one), any sequence of calls
      keeps the snapshot equal to the cart, one entry per id, and every
      amount positive. */
  lemma {:induction false} RunKeepsHealthy<A>(s: Store<A>, calls: seq<Call<A>>)
    requires Healthy(s)
    ensures Healthy(Run(s, calls))
    decreases |calls|
  {
    if |calls| > 0 {
      RunKeepsHealthy(Perform(s, calls[0]).0, calls[1..]);
    }
  }

  /** Worked example: with 2 units in stock, adding the same product three
      times to an empty cart gives 1, then 2, then the out-of-stock outcome
      with nothing changed. */
  lemma ScenarioAddUntilOutOfStock(title: string)
    ensures var stock := Received([StockEntry(1, 2)]);
      var catalog := Received([Product(1, title)]);
      var s0 := Initialize(None);
      var (s1, o1) := Perform(s0, AddCall(1, stock, catalog));
      var (s2, o2) := Perform(s1, AddCall(1, stock, catalog));
      var (s3, o3) := Perform(s2, AddCall(1, stock, catalog));
      && o1 == Ok && s1.cart == [Item(1, 1, title)]
      && o2 == Ok && s2.cart == [Item(1, 2, title)]
      && o3 == OutOfStock && s3 == s2
      && s2.persisted == Some([Item(1, 2, title)])
  {
  }

  /** Worked example: removing the only product empties the cart and the
      snapshot alike. */
  lemma ScenarioRemoveLast(title: string)
    ensures var s0 := Store([Item(1, 1, title)], Some([Item(1, 1, title)]));
      var (s1, o1) := Perform(s0, RemoveCall(1));
      o1 == Ok && s1 == Store([], Some([]))
  {
  }
}
