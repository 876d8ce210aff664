# Shopping cart state of the MarketPlace app, in Dafny

This project models the cart provider of the MarketPlace mobile storefront
(`src/hooks/cart.tsx`). The cart is an ordered list of products. Each product
has an `id`, `title`, `image_url`, `price` and `quantity`. The provider keeps
this list in a single state cell. Each of its three callbacks computes a new
list from the current one and may replace the list through the state setter:

- `increment(id)` adds 1 to the quantity of every entry with that id;
- `decrement(id)` looks at the first entry with that id. If its quantity is 1
  it returns without calling the state setter. Otherwise it subtracts 1 from
  every entry with that id;
- `addToCart(item)` looks for an entry with the same **title**. If one exists
  it calls `increment(item.id)` with the item's own id. Otherwise it appends
  the item with quantity 1.

Files:

- `cart_list.dfy` (module `CartList`) holds the data model and the list
  computations as pure functions on `seq<Product>`. `Find` gives the index of
  the entry JavaScript's `Array.prototype.find` returns: the first match.
  `MapMatching` is the `products.map(...)` shared by increment and decrement.
- `cart_properties.dfy` (module `CartProperties`) holds what the operations
  promise:
  - the per-entry effect of each operation;
  - the floor of decrement;
  - the title dedup rule of addToCart;
  - the invariants each operation keeps;
  - the increment/decrement round trips;
  - concrete traces.
- `cart_store.dfy` (module `CartStore`) holds the class `Cart`, with the one
  mutable field `products`. Its methods assign the function results, as
  `setProducts` does. Its invariant `Valid()` holds in every reachable state:
  titles are unique, and the first entry with each id has quantity at least 1.
  When ids are unique, that makes every quantity at least 1.

The model follows the code as written. The cart is deduplicated by title,
while increment and decrement look entries up by id. So ids are not kept
unique, and two consequences are proved:

- an item whose title is present but whose id is not is silently not added
  (`AddToCartTitleClashIgnored`);
- from an empty cart, three `addToCart` calls and one `decrement` bring a
  quantity to 0 (`ReachableQuantityZero`). The guard inspects only the first
  entry with the id.

Unique ids are therefore a precondition wherever a property needs them. The
"decrement after increment restores the list" round trip needs only
quantities of at least 1, not unique ids.

Increment and decrement change every entry with the id, not only the first.

## Model

| member | source | states |
|---|---|---|
| `CartList.NewEntry` | src/hooks/cart.tsx:85 | the appended entry carries the item's id, title, image and price, with quantity 1 |
| `CartList.Shifted` | src/hooks/cart.tsx:44 | the spread helper `{ ...product, quantity: product.quantity + delta }`, also used with delta -1 at line 61 |
| `CartList.AtFloor` | src/hooks/cart.tsx:54-56 | decrement's guard holds exactly when some entry with the id has quantity 1 and no earlier entry has the id; an absent id makes it false |
| `CartList.HasTitle` | src/hooks/cart.tsx:75-77 | the title lookup succeeds exactly when some entry carries the title |
| `CartList.Find` | src/hooks/cart.tsx:54 | `find` yields the first entry the predicate accepts: that entry matches, none before it does, and nothing is found exactly when no entry matches |
| `CartList.MapMatching` | src/hooks/cart.tsx:42-46 | the map keeps length and order; each entry with the id has its quantity shifted by delta and is otherwise the same; every other entry is unchanged |
| `CartList.Increment` | src/hooks/cart.tsx:39-50 | same length and order; each entry with the id has quantity + 1; only quantities change; entries with another id are unchanged |
| `CartList.Decrement` | src/hooks/cart.tsx:52-64 | same length and order; only quantities of entries with the id change; if the guard fires the list is unchanged, otherwise each entry with the id has quantity - 1 |
| `CartList.AddToCart` | src/hooks/cart.tsx:73-93 | with a title match the length is unchanged; without one the list grows by exactly the new entry at the end and the old entries form its prefix; only quantities of existing entries change |
| `CartProperties.AtFloorIff` | src/hooks/cart.tsx:54-56 | the guard fires if and only if the first entry with the id has quantity 1 |
| `CartProperties.NotAtFloorWhenAbsent` | src/hooks/cart.tsx:54-56 | with the id absent, `productInCart?.quantity === 1` is false |
| `CartProperties.IncrementAbsent` | src/hooks/cart.tsx:41-47 | increment with an absent id returns the list unchanged |
| `CartProperties.DecrementAtFloor` | src/hooks/cart.tsx:54-56 | when the first entry with the id has quantity 1, decrement returns the list unchanged |
| `CartProperties.DecrementLowers` | src/hooks/cart.tsx:58-64 | when that entry's quantity is not 1, every entry with the id loses exactly 1 and every other entry, the length and the order are kept |
| `CartProperties.DecrementAbsent` | src/hooks/cart.tsx:54-64 | decrement with an absent id returns the list unchanged |
| `CartProperties.AddToCartAppends` | src/hooks/cart.tsx:75-85 | with no entry of that title, the result is the old list followed by the item with quantity 1 |
| `CartProperties.AddToCartExisting` | src/hooks/cart.tsx:75-78 | with an entry of that title, the result is `increment(item.id)` with the item's own id; the length is kept, and a title match with another id is not changed |
| `CartProperties.AddToCartTitleClashIgnored` | src/hooks/cart.tsx:75-78 | a present title with an absent id leaves the cart unchanged, so the item is not added |
| `CartProperties.IncrementKeepsPositive` | src/hooks/cart.tsx:41-47 | increment keeps every quantity at least 1, with or without unique ids |
| `CartProperties.DecrementKeepsPositive` | src/hooks/cart.tsx:54-64 | with unique ids, decrement keeps every quantity at least 1 |
| `CartProperties.DecrementBelowFloorWithDuplicateIds` | src/hooks/cart.tsx:54-64 | with a duplicated id, decrement lowers a later entry from 1 to 0 |
| `CartProperties.FirstsPositiveUnique` | src/hooks/cart.tsx:54-64 | with unique ids, first entries at 1 or more means every quantity is at 1 or more |
| `CartProperties.SameFirsts` | src/hooks/cart.tsx:41-64 | a list that differs only in quantities has the first entry of each id at the same positions |
| `CartProperties.IncrementKeepsFirstsPositive` | src/hooks/cart.tsx:41-47 | increment keeps the first entry with each id at quantity 1 or more |
| `CartProperties.DecrementKeepsFirstsPositive` | src/hooks/cart.tsx:54-64 | decrement keeps the first entry with each id at quantity 1 or more, with or without unique ids |
| `CartProperties.AddToCartKeepsFirstsPositive` | src/hooks/cart.tsx:73-93 | addToCart keeps the first entry with each id at quantity 1 or more |
| `CartProperties.AddToCartKeepsPositive` | src/hooks/cart.tsx:73-93 | addToCart keeps every quantity at least 1 |
| `CartProperties.AddToCartKeepsTitlesUnique` | src/hooks/cart.tsx:75-85 | addToCart never creates a second entry with the same title |
| `CartProperties.AddToCartMayDuplicateId` | src/hooks/cart.tsx:75-85 | addToCart can turn a cart with unique ids into one with a repeated id |
| `CartProperties.QuantityOnlyKeepsUniqueness` | src/hooks/cart.tsx:41-64 | a list that differs only in quantities keeps unique titles and unique ids |
| `CartProperties.DecrementAfterIncrement` | src/hooks/cart.tsx:39-64 | with all quantities at least 1, decrement(id) after increment(id) restores the original list |
| `CartProperties.IncrementAfterDecrement` | src/hooks/cart.tsx:39-64 | increment(id) after decrement(id) restores the list unless the guard fired; if it fired, the result is increment(id) alone |
| `CartProperties.AddAddDecrementDecrement` | src/hooks/cart.tsx:39-93 | from an empty cart the quantity goes 1, 2, 1 and stays at 1 |
| `CartProperties.ReachableQuantityZero` | src/hooks/cart.tsx:39-93 | from an empty cart, addToCart(shoe), addToCart(shoe), addToCart(boot with the same id), then decrement reach quantity 0 |
| `CartStore.Cart.constructor` | src/hooks/cart.tsx:29 | the provider starts with an empty list, which satisfies the invariant: unique titles, and the first entry with each id at quantity 1 or more |
| `CartStore.Cart.Increment` | src/hooks/cart.tsx:39-50 | the field becomes `Increment` of the old list; the invariant is kept; quantities of at least 1 stay so |
| `CartStore.Cart.Decrement` | src/hooks/cart.tsx:52-71 | the field becomes `Decrement` of the old list; the invariant is kept; with unique ids every quantity stays at least 1 |
| `CartStore.Cart.AddToCart` | src/hooks/cart.tsx:73-93 | the field becomes `AddToCart` of the old list, through `Increment` when the title is present; the invariant is kept |

## Left out

- AsyncStorage writes (`mergeItem` at cart.tsx lines 65-68 and 79-82, `setItem` at lines 87-90) are foreign asynchronous I/O. They also serialise the list as it was before the update.
- The `loadProducts` effect (lines 31-37) is an empty stub, so there is no hydration to model.
- React machinery is left out: `createContext`, `useState`, `useCallback`, `useMemo` and the provider's rendering. So is the `useCart` null check (lines 103-111), a wrapper over React context.
- `async`/`await` scheduling is left out. So are stale closures: two callbacks fired within one render see the same old `products`. Each modelled call acts on the current list.
- `price` is a JavaScript float. No operation reads it, so it is carried as an opaque `real`.
- `quantity` is a JavaScript number. It is modelled as an unbounded `int`, so neither non-integer quantities nor the loss of precision above 2^53 is modelled.
