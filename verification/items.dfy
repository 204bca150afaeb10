/** Line items, stock entries and catalog products, with the two sequence
    operations the cart is built from: first-match lookup by id (the
    `Array.prototype.find` calls) and removal of every entry with an id (the
    `Array.prototype.filter` calls). */
module Items {

  datatype Option<T> = None | Some(value: T)

  /** A cart line: the product id, the quantity in the cart, and the
      product's remaining catalog fields (title, price, image), which the
      cart only carries around. */
  datatype Item<A> = Item(id: int, amount: int, attrs: A)

  /** One element of the stock snapshot: units available for a product. */
  datatype StockEntry = StockEntry(id: int, amount: int)

  /** One element of the catalog snapshot. */
  datatype Product<A> = Product(id: int, attrs: A)

  // The id column of a cart, a stock list and a catalog, in order: the
  // three lists the source searches by id, each with its own record type.
  function ItemIds<A>(cart: seq<Item<A>>): seq<int> {
    seq(|cart|, i requires 0 <= i < |cart| => cart[i].id)
  }

  function StockIds(stock: seq<StockEntry>): seq<int> {
    seq(|stock|, i requires 0 <= i < |stock| => stock[i].id)
  }

  function ProductIds<A>(catalog: seq<Product<A>>): seq<int> {
    seq(|catalog|, i requires 0 <= i < |catalog| => catalog[i].id)
  }

  /** Position of the first occurrence of `id`, the way `find` scans. */
  function FirstIndex(ids: seq<int>, id: int): (r: Option<nat>)
    ensures r.None? <==> id !in ids
    ensures r.Some? ==> r.value < |ids| && ids[r.value] == id && id !in ids[..r.value]
  {
    if |ids| == 0 then None
    else if ids[0] == id then Some(0)
    else
      match FirstIndex(ids[1..], id)
      case None => None
      case Some(k) =>
        assert ids[..k + 1] == [ids[0]] + ids[1..][..k];
        Some(k + 1)
  }

  /** The cart entry `cart.find(item => item.id === id)` returns. */
  function FindItem<A>(cart: seq<Item<A>>, id: int): (r: Option<Item<A>>)
    ensures r.None? <==> id !in ItemIds(cart)
    ensures r.Some? ==> r.value.id == id
    ensures r.Some? ==> exists i :: 0 <= i < |cart| && cart[i] == r.value && id !in ItemIds(cart)[..i]
  {
    match FirstIndex(ItemIds(cart), id)
    case None => None
    case Some(i) => Some(cart[i])
  }

  /** Units available for `id` according to the first matching stock entry. */
  function StockOf(stock: seq<StockEntry>, id: int): (r: Option<int>)
    ensures r.None? <==> id !in StockIds(stock)
    ensures r.Some? ==> exists i :: 0 <= i < |stock| && stock[i] == StockEntry(id, r.value) && id !in StockIds(stock)[..i]
  {
    match FirstIndex(StockIds(stock), id)
    case None => None
    case Some(i) => Some(stock[i].amount)
  }

  /** The catalog product `find` returns for `id`. */
  function FindProduct<A>(catalog: seq<Product<A>>, id: int): (r: Option<Product<A>>)
    ensures r.None? <==> id !in ProductIds(catalog)
    ensures r.Some? ==> r.value.id == id
    ensures r.Some? ==> exists i :: 0 <= i < |catalog| && catalog[i] == r.value && id !in ProductIds(catalog)[..i]
  {
    match FirstIndex(ProductIds(catalog), id)
    case None => None
    case Some(i) => Some(catalog[i])
  }

  /** Quantity of `id` in the cart, 0 when the cart has no entry for it. */
  function Amount<A>(cart: seq<Item<A>>, id: int): int {
    match FindItem(cart, id)
    case None => 0
    case Some(x) => x.amount
  }

  /** `cart.filter(item => item.id !== id)`. */
  function Without<A>(cart: seq<Item<A>>, id: int): (r: seq<Item<A>>)
    ensures forall i :: 0 <= i < |r| ==> r[i] in cart && r[i].id != id
    ensures id !in ItemIds(r)
    ensures |r| <= |cart|
    ensures id !in ItemIds(cart) ==> r == cart
  {
    if |cart| == 0 then []
    else
      var rest := Without(cart[1..], id);
      assert forall j :: 1 <= j < |cart| ==> cart[j] == cart[1..][j - 1];
      assert ItemIds(cart[1..]) == ItemIds(cart)[1..];
      assert cart == [cart[0]] + cart[1..];
      assert ItemIds(cart)[0] == cart[0].id;
      if cart[0].id == id then rest else [cart[0]] + rest
  }

  /** At most one entry per id: the invariant the cart operations keep. */
  ghost predicate UniqueIds<A>(cart: seq<Item<A>>) {
    forall i, j :: 0 <= i < j < |cart| ==> cart[i].id != cart[j].id
  }

  /** `a` can be obtained from `b` by deleting elements, so the elements of
      `a` appear in `b` in the same relative order. */
  ghost predicate SubsequenceOf<T>(a: seq<T>, b: seq<T>)
    decreases |b|
  {
    if |a| == 0 then true
    else if |b| == 0 then false
    else if a[0] == b[0] then SubsequenceOf(a[1..], b[1..])
    else SubsequenceOf(a, b[1..])
  }

  /** The cart read as a dictionary: each id present maps to the entry a
      lookup by that id finds. */
  function View<A>(cart: seq<Item<A>>): (m: map<int, Item<A>>)
    ensures forall k :: k in m <==> k in ItemIds(cart)
  {
    map k | k in ItemIds(cart) :: cart[FirstIndex(ItemIds(cart), k).value]
  }

  /** Filtering distributes over concatenation. */
  lemma {:induction false} WithoutAppend<A>(a: seq<Item<A>>, b: seq<Item<A>>, id: int)
    ensures Without(a + b, id) == Without(a, id) + Without(b, id)
    decreases |a|
  {
    if |a| == 0 {
      assert a + b == b;
    } else {
      assert (a + b)[1..] == a[1..] + b;
      WithoutAppend(a[1..], b, id);
    }
  }

  /** The filtered cart is a subsequence of the original. */
  lemma {:induction false} WithoutIsSubsequence<A>(cart: seq<Item<A>>, id: int)
    ensures SubsequenceOf(Without(cart, id), cart)
    decreases |cart|
  {
    if |cart| > 0 {
      WithoutIsSubsequence(cart[1..], id);
      if cart[0].id != id {
        var r := Without(cart, id);
        assert r == [cart[0]] + Without(cart[1..], id);
        assert r[1..] == Without(cart[1..], id);
      } else {
        SubsequenceSkip(Without(cart, id), cart);
      }
    }
  }

  lemma {:induction false} SubsequenceSkip<T>(a: seq<T>, b: seq<T>)
    requires |b| > 0 && SubsequenceOf(a, b[1..])
    ensures SubsequenceOf(a, b)
    decreases |a| + |b|
  {
    if |a| > 0 && a[0] == b[0] {
      SubsequenceTail(a, b[1..]);
    }
  }

  lemma {:induction false} SubsequenceTail<T>(a: seq<T>, b: seq<T>)
    requires |a| > 0 && SubsequenceOf(a, b)
    ensures SubsequenceOf(a[1..], b)
    decreases |a| + |b|
  {
    if a[0] == b[0] {
      SubsequenceSkip(a[1..], b);
    } else {
      SubsequenceTail(a, b[1..]);
      SubsequenceSkip(a[1..], b);
    }
  }

  /** Every entry with another id keeps its multiplicity; entries with the
      id are all gone. */
  lemma {:induction false} WithoutCounts<A>(cart: seq<Item<A>>, id: int, x: Item<A>)
    ensures multiset(Without(cart, id))[x] == if x.id == id then 0 else multiset(cart)[x]
    decreases |cart|
  {
    if |cart| > 0 {
      WithoutCounts(cart[1..], id, x);
      assert cart == [cart[0]] + cart[1..];
    }
  }

  /** Filtering twice by the same id is filtering once. */
  lemma WithoutIdempotent<A>(cart: seq<Item<A>>, id: int)
    ensures Without(Without(cart, id), id) == Without(cart, id)
  {
  }

  /** Filtering keeps the ids unique. */
  lemma {:induction false} WithoutKeepsUnique<A>(cart: seq<Item<A>>, id: int)
    requires UniqueIds(cart)
    ensures UniqueIds(Without(cart, id))
    decreases |cart|
  {
    if |cart| > 0 {
      var rest := Without(cart[1..], id);
      assert UniqueIds(cart[1..]);
      WithoutKeepsUnique(cart[1..], id);
      if cart[0].id != id {
        forall j | 0 <= j < |rest|
          ensures rest[j].id != cart[0].id
        {
          assert rest[j] in cart[1..];
        }
        assert Without(cart, id) == [cart[0]] + rest;
      }
    }
  }

  /** The filter-then-append step: `[...cart.filter(i => i.id !== x.id), x]`. */
  function Replace<A>(cart: seq<Item<A>>, x: Item<A>): (r: seq<Item<A>>)
    ensures |r| > 0 && r[|r| - 1] == x
    ensures forall i :: 0 <= i < |r| - 1 ==> r[i].id != x.id
    ensures Without(r, x.id) == Without(cart, x.id)
    ensures FindItem(r, x.id) == Some(x)
  {
    var r := Without(cart, x.id) + [x];
    WithoutAppend(Without(cart, x.id), [x], x.id);
    assert Without([x], x.id) == [];
    assert r[..|r| - 1] == Without(cart, x.id);
    assert forall i :: 0 <= i < |r| - 1 ==> r[i] in Without(cart, x.id);
    r
  }

  /** The three facts `Replace` promises pin its result down: nothing else
      satisfies them. */
  lemma ReplaceCharacterized<A>(cart: seq<Item<A>>, x: Item<A>, r: seq<Item<A>>)
    requires |r| > 0 && r[|r| - 1] == x
    requires forall i :: 0 <= i < |r| - 1 ==> r[i].id != x.id
    requires Without(r, x.id) == Without(cart, x.id)
    ensures r == Replace(cart, x)
  {
    var prefix := r[..|r| - 1];
    assert r == prefix + [x];
    WithoutAppend(prefix, [x], x.id);
    assert Without([x], x.id) == [];
    assert Without(prefix, x.id) == prefix;
  }

  /** A cart shaped like a replacement of `cart` has the dictionary of one. */
  lemma ViewOfReplaced<A>(cart: seq<Item<A>>, r: seq<Item<A>>)
    requires UniqueIds(cart)
    requires |r| > 0
    requires forall i :: 0 <= i < |r| - 1 ==> r[i].id != r[|r| - 1].id
    requires Without(r, r[|r| - 1].id) == Without(cart, r[|r| - 1].id)
    ensures View(r) == View(cart)[r[|r| - 1].id := r[|r| - 1]]
  {
    ReplaceCharacterized(cart, r[|r| - 1], r);
    ViewOfReplace(cart, r[|r| - 1]);
  }

  /** Replacing keeps at most one entry per id. */
  lemma ReplaceKeepsUnique<A>(cart: seq<Item<A>>, x: Item<A>)
    requires UniqueIds(cart)
    ensures UniqueIds(Replace(cart, x))
  {
    WithoutKeepsUnique(cart, x.id);
  }

  /** Every entry with another id survives the filter. */
  lemma WithoutKeeps<A>(cart: seq<Item<A>>, id: int, j: int)
    requires 0 <= j < |cart| && cart[j].id != id
    ensures cart[j] in Without(cart, id)
  {
    WithoutCounts(cart, id, cart[j]);
    assert cart[j] in multiset(cart);
  }

  /** In a cart with unique ids, the dictionary maps each entry's id to that entry. */
  lemma ViewAt<A>(cart: seq<Item<A>>, i: int)
    requires UniqueIds(cart) && 0 <= i < |cart|
    ensures cart[i].id in View(cart) && View(cart)[cart[i].id] == cart[i]
  {
    var ids := ItemIds(cart);
    assert ids[i] == cart[i].id;
    var j := FirstIndex(ids, cart[i].id).value;
    assert ids[j] == cart[j].id;
  }

  /** Replace-by-id: as a dictionary, `Replace` is an update at `x.id`. */
  lemma ViewOfReplace<A>(cart: seq<Item<A>>, x: Item<A>)
    requires UniqueIds(cart)
    ensures View(Replace(cart, x)) == View(cart)[x.id := x]
  {
    var w := Without(cart, x.id);
    ReplaceKeepsUnique(cart, x);
    assert Replace(cart, x) == w + [x];
    ViewOfAppend(w, x);
    ViewOfWithout(cart, x.id);
    MapUpdateAfterRemove(View(cart), x.id, x);
  }

  lemma MapUpdateAfterRemove<K, V>(m: map<K, V>, k: K, v: V)
    ensures (m - {k})[k := v] == m[k := v]
  {
  }

  /** Appending an entry with a fresh id adds that key to the dictionary. */
  lemma ViewOfAppend<A>(w: seq<Item<A>>, x: Item<A>)
    requires UniqueIds(w + [x])
    ensures View(w + [x]) == View(w)[x.id := x]
  {
    var a := View(w + [x]);
    var b := View(w)[x.id := x];
    ViewOfAppendAgrees(w, x);
    ViewOfAppendKeeps(w, x);
    MapExtensional(a, b);
  }

  lemma MapExtensional<K, V>(a: map<K, V>, b: map<K, V>)
    requires forall k :: k in a ==> k in b && a[k] == b[k]
    requires forall k :: k in b ==> k in a
    ensures a == b
  {
  }

  lemma ViewOfAppendAgrees<A>(w: seq<Item<A>>, x: Item<A>)
    requires UniqueIds(w + [x])
    ensures x.id !in View(w)
    ensures x.id in View(w + [x]) ==> View(w + [x])[x.id] == x
    ensures forall k :: k in View(w + [x]) && k != x.id ==>
      k in View(w) && View(w + [x])[k] == View(w)[k]
  {
    var r := w + [x];
    assert r[|w|] == x;
    assert UniqueIds(w) by {
      assert forall i :: 0 <= i < |w| ==> w[i] == r[i];
    }
    forall j | 0 <= j < |w|
      ensures ItemIds(w)[j] != x.id
    {
      assert r[j] == w[j];
    }
    ViewAt(r, |w|);
    forall k | k in View(r) && k != x.id
      ensures k in View(w) && View(r)[k] == View(w)[k]
    {
      var i :| 0 <= i < |r| && ItemIds(r)[i] == k;
      ViewAt(r, i);
      assert r[i] == w[i];
      ViewAt(w, i);
    }
  }

  lemma ViewOfAppendKeeps<A>(w: seq<Item<A>>, x: Item<A>)
    ensures x.id in View(w + [x])
    ensures forall k :: k in View(w) ==> k in View(w + [x])
  {
    var r := w + [x];
    assert ItemIds(r)[|w|] == x.id;
    forall k | k in View(w)
      ensures k in View(r)
    {
      var j :| 0 <= j < |w| && ItemIds(w)[j] == k;
      assert ItemIds(r)[j] == k;
    }
  }

  /** Filtering by id removes that key from the dictionary and nothing else. */
  lemma ViewOfWithout<A>(cart: seq<Item<A>>, id: int)
    requires UniqueIds(cart)
    ensures View(Without(cart, id)) == View(cart) - {id}
  {
    WithoutKeepsUnique(cart, id);
    ViewOfWithoutAgrees(cart, id);
    ViewOfWithoutKeeps(cart, id);
  }

  lemma ViewOfWithoutAgrees<A>(cart: seq<Item<A>>, id: int)
    requires UniqueIds(cart) && UniqueIds(Without(cart, id))
    ensures forall k :: k in View(Without(cart, id)) ==>
      k in View(cart) && k != id && View(Without(cart, id))[k] == View(cart)[k]
  {
    var w := Without(cart, id);
    forall k | k in View(w)
      ensures k in View(cart) && k != id && View(w)[k] == View(cart)[k]
    {
      var i :| 0 <= i < |w| && ItemIds(w)[i] == k;
      ViewAt(w, i);
      var j :| 0 <= j < |cart| && cart[j] == w[i];
      ViewAt(cart, j);
    }
  }

  lemma ViewOfWithoutKeeps<A>(cart: seq<Item<A>>, id: int)
    ensures forall k :: k in View(cart) && k != id ==> k in View(Without(cart, id))
  {
    var w := Without(cart, id);
    forall k | k in View(cart) && k != id
      ensures k in View(w)
    {
      var j :| 0 <= j < |cart| && ItemIds(cart)[j] == k;
      WithoutKeeps(cart, id, j);
      var i :| 0 <= i < |w| && w[i] == cart[j];
      assert ItemIds(w)[i] == k;
    }
  }
}
