# Shopping-cart mutations, modelled in Dafny

The storefront keeps the shopper's cart in a React provider (`useCart`). It
offers three mutations: add one unit of a product, remove a product, and set
a product's quantity. Add and set check the requested quantity against a
stock list fetched from the server; remove fetches nothing. When the change is
allowed, the provider replaces the cart and writes the new cart to browser
storage.

This project models the rules inside those mutations as pure functions:

- `items.dfy` (module `Items`): the data.
  - A line item `Item(id, amount, attrs)`. The catalog fields are an opaque type parameter.
  - Stock entries and catalog products.
  - The first-match lookups that `Array.find` performs.
  - `Without`, the `Array.filter` that drops every entry with an id.
  - `Replace`, the filter-then-append step that both add and update use.
  - `View`, the cart read as a dictionary from id to entry. It serves as the
    reference meaning of "replace by id".
- `cart.dfy` (module `Cart`): `AddProduct`, `RemoveProduct` and
  `UpdateProductAmount`.
  - Add and set take the cart and the stock (and, for add, catalog) answers
    the source would fetch. A request that throws is `Unreachable`.
    Remove takes only the cart and the id.
  - Each returns the cart it would commit and an `Outcome` that replaces the
    toasts: `Ok`, `OutOfStock`, `NoChange` or `Failed`.
- `store.dfy` (module `CartStore`): the provider's state, the in-memory cart
  plus the stored snapshot.
  - `Perform` commits a successful change to both and leaves both untouched otherwise.
  - `Run` replays a sequence of calls.

Two behaviours of the code differ from what one might expect, and the model
follows the code in both:

- When the stock has no entry for the id, add does nothing and shows no
  out-of-stock message. The model reports this as `NoChange`.
- On start the stored snapshot is parsed without a guard. An unparsable
  snapshot therefore throws rather than yielding an empty cart. Parsing is
  outside the model; see below.

## Model

| member | source | states |
|---|---|---|
| Items.FirstIndex | src/hooks/useCart.tsx:40-41 | the lookup finds an id exactly when it occurs, and returns its first occurrence |
| Items.FindItem | src/hooks/useCart.tsx:41 | the cart lookup returns an entry with the id iff one exists, and it is the first such entry |
| Items.StockOf | src/hooks/useCart.tsx:40 | the stock lookup is defined iff the stock lists the id, and gives the amount of the first matching entry |
| Items.FindProduct | src/hooks/useCart.tsx:45-47 | the catalog lookup returns the first product with the id, or nothing if the catalog lacks it |
| Items.Without | src/hooks/useCart.tsx:73 | the filtered cart has no entry with the id, every entry it keeps comes from the cart, and a cart without the id comes back unchanged |
| Items.WithoutAppend | src/hooks/useCart.tsx:58 | filtering distributes over concatenation |
| Items.WithoutIsSubsequence | src/hooks/useCart.tsx:73 | the entries kept appear in their original relative order |
| Items.WithoutCounts | src/hooks/useCart.tsx:73 | each entry with another id keeps its multiplicity; entries with the id all disappear |
| Items.WithoutIdempotent | src/hooks/useCart.tsx:73 | filtering twice by the same id equals filtering once |
| Items.WithoutKeepsUnique | src/hooks/useCart.tsx:58 | filtering keeps "at most one entry per id" |
| Items.Replace | src/hooks/useCart.tsx:58-60 | filter-then-append puts the entry last, leaves no other entry with its id, keeps the other entries as they were, and a lookup then finds the new entry |
| Items.ReplaceCharacterized | src/hooks/useCart.tsx:58-60 | any cart with the new entry last, no other entry with its id, and the same other entries equals the filter-then-append result |
| Items.ReplaceKeepsUnique | src/hooks/useCart.tsx:58-60 | filter-then-append keeps "at most one entry per id" |
| Items.ViewOfReplace | src/hooks/useCart.tsx:58-60 | seen as a dictionary, filter-then-append updates exactly the entry's id |
| Items.ViewOfWithout | src/hooks/useCart.tsx:73 | seen as a dictionary, filtering deletes exactly the id's key |
| Cart.FromCatalog | src/hooks/useCart.tsx:44-49 | a new entry exists iff the catalog lists the id; it carries the id, amount 0 and the fields of the first catalog product with that id |
| Cart.AddProduct | src/hooks/useCart.tsx:35-69 | fails iff the stock request throws, or the catalog request throws when the cart lacks the id; out of stock iff the stock lists the id with fewer units than the current amount + 1; succeeds iff the stock allows it and an entry exists or can be built; on success there is one entry for the id, last, with amount + 1 (1 if new) and its own or the catalog's fields, and the other entries are unchanged and in order; otherwise the cart is unchanged |
| Cart.RemoveProduct | src/hooks/useCart.tsx:71-80 | always succeeds; the result has no entry with the id; every entry with another id is kept as many times as the cart holds it, and nothing else; the kept entries stay in original order; an absent id leaves the cart unchanged |
| Cart.UpdateProductAmount | src/hooks/useCart.tsx:82-114 | amount <= 0 gives no change whatever the stock answer (stock is never asked); fails iff the stock request throws; out of stock iff the id is in cart and stock and the amount exceeds the stock; succeeds iff it is in both and within stock; on success the cart's entry with exactly that amount is last and the others are unchanged and in order; otherwise the cart is unchanged |
| Cart.AddUpdatesView | src/hooks/useCart.tsx:52-60 | as a dictionary, a successful add bumps the id's entry by one (or creates it with amount 1 from the catalog) and leaves every other id alone; any other outcome changes nothing |
| Cart.UpdateSetsView | src/hooks/useCart.tsx:97-105 | as a dictionary, a successful update sets the id's amount and leaves every other id and field alone; any other outcome changes nothing |
| Cart.RemoveDropsView | src/hooks/useCart.tsx:73-75 | as a dictionary, remove deletes exactly the id's key |
| Cart.RemoveUndoesAdd | src/hooks/useCart.tsx:58-60 | removing after adding gives the same cart as removing alone |
| Cart.UpdateIdempotent | src/hooks/useCart.tsx:97-106 | repeating an update against the same stock answer returns the same cart and outcome |
| Cart.AddTimesClimbsToCeiling | src/hooks/useCart.tsx:53-55 | n adds in a row take the amount a to max(a, min(a + n, stock)): one unit at a time up to the stock ceiling, then no further |
| Cart.OperationsKeepStockCeiling | src/hooks/useCart.tsx:52-106 | against one stock snapshot, if every entry is within its stock, then so is every entry after add, update or remove |
| Cart.AddKeepsStockCeiling | src/hooks/useCart.tsx:52-60 | against one stock snapshot, add keeps every entry within its stock |
| Cart.UpdateKeepsStockCeiling | src/hooks/useCart.tsx:97-105 | against one stock snapshot, update keeps every entry within its stock |
| CartStore.Initialize | src/hooks/useCart.tsx:25-33 | the start state holds the saved snapshot and its cart agrees with it (empty when nothing was saved) |
| CartStore.Perform | src/hooks/useCart.tsx:58-106 | the reported outcome is the call's own; after a successful call the cart is the one the call computed and the stored snapshot equals it; after any other outcome neither the cart nor the snapshot changes; agreement between the two, unique ids and positive amounts are preserved |
| CartStore.RunKeepsHealthy | src/hooks/useCart.tsx:58-61 | from a consistent state, any sequence of calls keeps the snapshot equal to the cart, one entry per id, and every amount positive |
| CartStore.ScenarioAddUntilOutOfStock | src/hooks/useCart.tsx:53-64 | with 2 units in stock and an empty cart, adding three times gives amounts 1 and 2, then out of stock with nothing changed |
| CartStore.ScenarioRemoveLast | src/hooks/useCart.tsx:73-76 | removing the only product empties both the cart and the snapshot |

## Left out

- React wiring is not modelled: the context, the provider component, `useState` and `useCart` (lines 1-24 and 116-129). It is UI framework plumbing.
- The `api.get('/stock')` and `api.get('/products')` requests are not performed. Their answers are parameters, and a request that throws is `Unreachable`, giving `Failed` with nothing changed.
- Toasts are not modelled. The `Outcome` value stands for them.
- Storage and JSON are not modelled. The snapshot is a plain `Option<seq<Item>>`, with no serialisation and no parsing. An unparsable stored snapshot, which makes the source's start-up throw, is not represented.
- Storage write failures are not modelled. In the source, `setCart` runs before `localStorage.setItem`, so a throwing write would leave the cart updated and the snapshot stale, with the generic error toast. The model assumes every write succeeds. On a well-formed cart this is also the only failure `removeProduct` catches; a restored snapshot that is not a list (stored `null`, say) would make its `filter` throw, and the model has no such state.
- Concurrent calls and their lost updates are not modelled; every call here sees the state the previous one left.
- The in-place mutation of the cart's own entry object before `setCart` (lines 56 and 101) is an aliasing artifact; the model builds a new entry instead.
- Cart.AddProduct: when the catalog does not list an id that the cart also lacks, the source goes on to append an entry built from `undefined`, which has no id. The model reports `NoChange` at the point where the source would append. The earlier steps (request failures, no stock entry, out of stock) behave as in the source.
- Amounts are integers. A fractional or NaN `amount`, which a JavaScript `number` allows, is not modelled.
