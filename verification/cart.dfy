/** The three cart mutations of the provider (add one unit, remove a
    product, set a quantity) as pure functions of the current cart and the
    stock and catalog snapshots the provider fetches, plus the provider's
    state: the cart in memory and the copy kept in browser storage. */
module Cart {
  import opened Items

  /** What the user is told. The toasts become outcomes. */
  datatype Outcome =
    | Ok          // the cart was replaced and written to storage
    | OutOfStock  // the "requested quantity out of stock" toast; nothing changed
    | NoChange    // nothing happened and nothing was reported
    | Failed      // a request threw: the generic error toast; nothing changed

  /** The answer to one GET request, or the request throwing. */
  datatype Fetched<T> = Received(data: T) | Unreachable

  /** The cart an operation would commit, and what it reports. */
  datatype Change<A> = Change(cart: seq<Item<A>>, outcome: Outcome)

  /** A new cart entry built from the catalog, with amount 0, or None when
      the catalog does not list the id. */
  function FromCatalog<A>(catalog: seq<Product<A>>, id: int): (r: Option<Item<A>>)
    ensures r.None? <==> id !in ProductIds(catalog)
    ensures r.Some? ==>
      && r.value.id == id && r.value.amount == 0
      // the fields of the first catalog product with the id, as `find` returns it
      && exists i :: 0 <= i < |catalog| && catalog[i].id == id && catalog[i].attrs == r.value.attrs
                     && id !in ProductIds(catalog)[..i]
  {
    match FindProduct(catalog, id)
    case None => None
    case Some(p) => Some(Item(id, 0, p.attrs))
  }

  /** Both requests `addProduct` needs answered: the stock one always, the
      catalog one only when the cart has no entry for the id. */
  ghost predicate AddReachable<A>(cart: seq<Item<A>>, stock: Fetched<seq<StockEntry>>,
                                  catalog: Fetched<seq<Product<A>>>, id: int) {
    stock.Received? && (id in ItemIds(cart) || catalog.Received?)
  }

  /** `addProduct(id)`: one more unit of `id`, if the stock allows it. */
  function AddProduct<A>(cart: seq<Item<A>>, stock: Fetched<seq<StockEntry>>,
                         catalog: Fetched<seq<Product<A>>>, id: int): (r: Change<A>)
    // anything but success leaves the cart as it was
    ensures r.outcome != Ok ==> r.cart == cart
    // a request threw: the stock one, or the catalog one when it was needed
    ensures r.outcome == Failed <==> !AddReachable(cart, stock, catalog, id)
    // the stock lists the id and holds fewer units than one more than the cart has
    ensures r.outcome == OutOfStock <==>
      && AddReachable(cart, stock, catalog, id)
      && id in StockIds(stock.data)
      && StockOf(stock.data, id).value < Amount(cart, id) + 1
    ensures r.outcome == Ok <==>
      && AddReachable(cart, stock, catalog, id)
      && id in StockIds(stock.data)
      && Amount(cart, id) + 1 <= StockOf(stock.data, id).value
      && (id in ItemIds(cart) || id in ProductIds(catalog.data))
    // on success: one entry for the id, last, one unit more (1 if new); the
    // other entries are those of the old cart, in their old order
    ensures r.outcome == Ok ==>
      && |r.cart| > 0
      && r.cart[|r.cart| - 1].id == id
      && r.cart[|r.cart| - 1].amount == Amount(cart, id) + 1
      && (forall i :: 0 <= i < |r.cart| - 1 ==> r.cart[i].id != id)
      && Without(r.cart, id) == Without(cart, id)
    // the entry keeps its catalog fields: the cart's own, or the catalog's when new
    ensures r.outcome == Ok && id in ItemIds(cart) ==>
      r.cart[|r.cart| - 1].attrs == FindItem(cart, id).value.attrs
    ensures r.outcome == Ok && id !in ItemIds(cart) ==>
      r.cart[|r.cart| - 1].attrs == FindProduct(catalog.data, id).value.attrs
  {
    if stock.Unreachable? then Change(cart, Failed)
    else
      var existing := FindItem(cart, id);
      if existing.None? && catalog.Unreachable? then Change(cart, Failed)
      else
        match StockOf(stock.data, id)
        case None => Change(cart, NoChange)
        case Some(available) =>
          if available < Amount(cart, id) + 1 then Change(cart, OutOfStock)
          else
            var base := if existing.Some? then existing else FromCatalog(catalog.data, id);
            match base
            case None => Change(cart, NoChange)
            case Some(x) => Change(Replace(cart, x.(amount := Amount(cart, id) + 1)), Ok)
  }

  /** `removeProduct(id)`: every entry for `id` goes, the rest stay in order. */
  function RemoveProduct<A>(cart: seq<Item<A>>, id: int): (r: Change<A>)
    ensures r.outcome == Ok
    ensures id !in ItemIds(r.cart)
    ensures forall i :: 0 <= i < |r.cart| ==> r.cart[i] in cart
    // every entry with another id is kept, as many times as the cart holds it
    ensures forall j :: 0 <= j < |cart| && cart[j].id != id ==>
      multiset(r.cart)[cart[j]] == multiset(cart)[cart[j]]
    ensures SubsequenceOf(r.cart, cart)
    ensures id !in ItemIds(cart) ==> r.cart == cart
  {
    WithoutIsSubsequence(cart, id);
    assert forall j :: 0 <= j < |cart| && cart[j].id != id ==>
      multiset(Without(cart, id))[cart[j]] == multiset(cart)[cart[j]] by {
      forall j | 0 <= j < |cart| && cart[j].id != id
        ensures multiset(Without(cart, id))[cart[j]] == multiset(cart)[cart[j]]
      {
        WithoutCounts(cart, id, cart[j]);
      }
    }
    Change(Without(cart, id), Ok)
  }

  /** `updateProductAmount({productId: id, amount})`: set the quantity of an
      entry already in the cart, if the stock allows it. */
  function UpdateProductAmount<A>(cart: seq<Item<A>>, stock: Fetched<seq<StockEntry>>,
                                  id: int, amount: int): (r: Change<A>)
    // a non-positive amount returns before the stock is requested
    ensures amount <= 0 ==> r == Change(cart, NoChange)
    ensures r.outcome != Ok ==> r.cart == cart
    ensures r.outcome == Failed <==> amount > 0 && stock.Unreachable?
    ensures r.outcome == OutOfStock <==>
      && amount > 0 && stock.Received?
      && id in ItemIds(cart) && id in StockIds(stock.data)
      && StockOf(stock.data, id).value < amount
    ensures r.outcome == Ok <==>
      && amount > 0 && stock.Received?
      && id in ItemIds(cart) && id in StockIds(stock.data)
      && amount <= StockOf(stock.data, id).value
    // on success: the cart's entry for the id, with exactly `amount`, moved
    // last; the other entries are those of the old cart, in their old order
    ensures r.outcome == Ok ==>
      && |r.cart| > 0
      && r.cart[|r.cart| - 1] == FindItem(cart, id).value.(amount := amount)
      && (forall i :: 0 <= i < |r.cart| - 1 ==> r.cart[i].id != id)
      && Without(r.cart, id) == Without(cart, id)
  {
    if amount <= 0 then Change(cart, NoChange)
    else if stock.Unreachable? then Change(cart, Failed)
    else
      match (StockOf(stock.data, id), FindItem(cart, id))
      case (Some(available), Some(x)) =>
        if available >= amount then Change(Replace(cart, x.(amount := amount)), Ok)
        else Change(cart, OutOfStock)
      case _ => Change(cart, NoChange)
  }

  /** As a dictionary from id to entry, a successful add increments the
      id's entry (or creates it with amount 1) and touches no other id. */
  lemma AddUpdatesView<A>(cart: seq<Item<A>>, stock: Fetched<seq<StockEntry>>,
                          catalog: Fetched<seq<Product<A>>>, id: int)
    requires UniqueIds(cart)
    ensures var r := AddProduct(cart, stock, catalog, id);
      r.outcome == Ok && id in View(cart) ==>
        View(r.cart) == View(cart)[id := View(cart)[id].(amount := View(cart)[id].amount + 1)]
    ensures var r := AddProduct(cart, stock, catalog, id);
      r.outcome == Ok && id !in View(cart) ==>
        View(r.cart) == View(cart)[id := Item(id, 1, FindProduct(catalog.data, id).value.attrs)]
    ensures var r := AddProduct(cart, stock, catalog, id);
      r.outcome != Ok ==> View(r.cart) == View(cart)
  {
    var r := AddProduct(cart, stock, catalog, id);
    if r.outcome == Ok {
      AddViewReplacesLast(cart, stock, catalog, id);
      if id in View(cart) {
        AddBumpsExisting(cart, stock, catalog, id);
      } else {
        AddCreatesFromCatalog(cart, stock, catalog, id);
      }
    }
  }

  lemma AddViewReplacesLast<A>(cart: seq<Item<A>>, stock: Fetched<seq<StockEntry>>,
                               catalog: Fetched<seq<Product<A>>>, id: int)
    requires UniqueIds(cart)
    requires AddProduct(cart, stock, catalog, id).outcome == Ok
    ensures var r := AddProduct(cart, stock, catalog, id);
      View(r.cart) == View(cart)[id := r.cart[|r.cart| - 1]]
  {
    ViewOfReplaced(cart, AddProduct(cart, stock, catalog, id).cart);
  }

  lemma AddBumpsExisting<A>(cart: seq<Item<A>>, stock: Fetched<seq<StockEntry>>,
                            catalog: Fetched<seq<Product<A>>>, id: int)
    requires AddProduct(cart, stock, catalog, id).outcome == Ok
    requires id in View(cart)
    ensures var r := AddProduct(cart, stock, catalog, id);
      r.cart[|r.cart| - 1] == View(cart)[id].(amount := View(cart)[id].amount + 1)
  {
    assert FindItem(cart, id) == Some(View(cart)[id]);
  }

  lemma AddCreatesFromCatalog<A>(cart: seq<Item<A>>, stock: Fetched<seq<StockEntry>>,
                                 catalog: Fetched<seq<Product<A>>>, id: int)
    requires AddProduct(cart, stock, catalog, id).outcome == Ok
    requires id !in View(cart)
    ensures var r := AddProduct(cart, stock, catalog, id);
      r.cart[|r.cart| - 1] == Item(id, 1, FindProduct(catalog.data, id).value.attrs)
  {
  }

  /** As a dictionary, a successful update sets the id's amount and touches
      nothing else. */
  lemma UpdateSetsView<A>(cart: seq<Item<A>>, stock: Fetched<seq<StockEntry>>, id: int, amount: int)
    requires UniqueIds(cart)
    ensures var r := UpdateProductAmount(cart, stock, id, amount);
      && (r.outcome == Ok ==> View(r.cart) == View(cart)[id := View(cart)[id].(amount := amount)])
      && (r.outcome != Ok ==> View(r.cart) == View(cart))
  {
    var r := UpdateProductAmount(cart, stock, id, amount);
    if r.outcome == Ok {
      ViewOfReplaced(cart, r.cart);
    }
  }

  /** As a dictionary, remove deletes the id's key and nothing else. */
  lemma RemoveDropsView<A>(cart: seq<Item<A>>, id: int)
    requires UniqueIds(cart)
    ensures View(RemoveProduct(cart, id).cart) == View(cart) - {id}
  {
    ViewOfWithout(cart, id);
  }

  /** Removing after adding leaves the same cart as removing alone. */
  lemma RemoveUndoesAdd<A>(cart: seq<Item<A>>, stock: Fetched<seq<StockEntry>>,
                           catalog: Fetched<seq<Product<A>>>, id: int)
    ensures RemoveProduct(AddProduct(cart, stock, catalog, id).cart, id) == RemoveProduct(cart, id)
  {
  }

  /** Repeating an update with the same stock changes nothing more. */
  lemma UpdateIdempotent<A>(cart: seq<Item<A>>, stock: Fetched<seq<StockEntry>>, id: int, amount: int)
    ensures var r := UpdateProductAmount(cart, stock, id, amount);
      UpdateProductAmount(r.cart, stock, id, amount) == r
  {
  }

  /** Adding `n` times in a row against the same snapshots. */
  function AddTimes<A>(cart: seq<Item<A>>, stock: Fetched<seq<StockEntry>>,
                       catalog: Fetched<seq<Product<A>>>, id: int, n: nat): seq<Item<A>>
    decreases n
  {
    if n == 0 then cart
    else AddTimes(AddProduct(cart, stock, catalog, id).cart, stock, catalog, id, n - 1)
  }

  function Min(a: int, b: int): int { if a <= b then a else b }
  function Max(a: int, b: int): int { if a <= b then b else a }

  /** Repeated adds raise the quantity one unit at a time up to the stock
      ceiling and then stop; a quantity already above the ceiling stays. */
  lemma {:induction false} AddTimesClimbsToCeiling<A>(cart: seq<Item<A>>, stock: seq<StockEntry>,
                                                     catalog: seq<Product<A>>, id: int, n: nat)
    requires id in StockIds(stock)
    requires id in ItemIds(cart) || id in ProductIds(catalog)
    ensures Amount(AddTimes(cart, Received(stock), Received(catalog), id, n), id)
         == Max(Amount(cart, id), Min(Amount(cart, id) + n, StockOf(stock, id).value))
    decreases n
  {
    if n > 0 {
      var r := AddProduct(cart, Received(stock), Received(catalog), id);
      if r.outcome == Ok {
        assert FindItem(r.cart, id) == Some(r.cart[|r.cart| - 1]);
        assert ItemIds(r.cart)[|r.cart| - 1] == id;
      }
      AddTimesClimbsToCeiling(r.cart, stock, catalog, id, n - 1);
    }
  }

  /** Every entry's id is listed in the stock and its amount is at most the
      units available. */
  ghost predicate WithinStock<A>(cart: seq<Item<A>>, stock: seq<StockEntry>) {
    forall i :: 0 <= i < |cart| ==>
      cart[i].id in StockIds(stock) && cart[i].amount <= StockOf(stock, cart[i].id).value
  }

  /** Filtering by id keeps every remaining entry within its stock. */
  lemma WithoutKeepsWithinStock<A>(cart: seq<Item<A>>, stock: seq<StockEntry>, id: int)
    requires WithinStock(cart, stock)
    ensures WithinStock(Without(cart, id), stock)
  {
    var w := Without(cart, id);
    forall i | 0 <= i < |w|
      ensures w[i].id in StockIds(stock) && w[i].amount <= StockOf(stock, w[i].id).value
    {
      var j :| 0 <= j < |cart| && cart[j] == w[i];
    }
  }

  /** Against one stock snapshot, no operation takes an amount above it. */
  lemma OperationsKeepStockCeiling<A>(cart: seq<Item<A>>, stock: seq<StockEntry>,
                                      catalog: Fetched<seq<Product<A>>>, id: int, amount: int)
    requires WithinStock(cart, stock)
    ensures WithinStock(AddProduct(cart, Received(stock), catalog, id).cart, stock)
    ensures WithinStock(UpdateProductAmount(cart, Received(stock), id, amount).cart, stock)
    ensures WithinStock(RemoveProduct(cart, id).cart, stock)
  {
    WithoutKeepsWithinStock(cart, stock, id);
    AddKeepsStockCeiling(cart, stock, catalog, id);
    UpdateKeepsStockCeiling(cart, stock, id, amount);
  }

  lemma AddKeepsStockCeiling<A>(cart: seq<Item<A>>, stock: seq<StockEntry>,
                                catalog: Fetched<seq<Product<A>>>, id: int)
    requires WithinStock(cart, stock)
    ensures WithinStock(AddProduct(cart, Received(stock), catalog, id).cart, stock)
  {
    var a := AddProduct(cart, Received(stock), catalog, id);
    if a.outcome == Ok {
      WithoutKeepsWithinStock(cart, stock, id);
      assert a.cart == Without(cart, id) + [a.cart[|a.cart| - 1]];
    }
  }

  lemma UpdateKeepsStockCeiling<A>(cart: seq<Item<A>>, stock: seq<StockEntry>, id: int, amount: int)
    requires WithinStock(cart, stock)
    ensures WithinStock(UpdateProductAmount(cart, Received(stock), id, amount).cart, stock)
  {
    var u := UpdateProductAmount(cart, Received(stock), id, amount);
    if u.outcome == Ok {
      WithoutKeepsWithinStock(cart, stock, id);
      assert u.cart == Without(cart, id) + [u.cart[|u.cart| - 1]];
    }
  }
}
