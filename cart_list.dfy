/** The cart's list logic: the pure computations that the increment, decrement
    and addToCart callbacks of the cart provider perform on the current list of
    products; each callback may then replace the list through the state setter. */
module CartList {

  datatype Option<T> = None | Some(value: T)

  /** A cart line: a product and how many of it are in the cart. `price` is
      carried along unread; `quantity` is the only field an operation changes. */
  datatype Product = Product(id: string, title: string, imageUrl: string, price: real, quantity: int)

  /** What a caller passes to addToCart: a product without its quantity. */
  datatype Item = Item(id: string, title: string, imageUrl: string, price: real)

  /** The entry addToCart appends for an item not yet in the cart. */
  function NewEntry(item: Item): (p: Product)
    ensures p.quantity == 1
    ensures p.id == item.id && p.title == item.title
    ensures p.imageUrl == item.imageUrl && p.price == item.price
  {
    Product(item.id, item.title, item.imageUrl, item.price, 1)
  }

  /** The index of the entry `Array.prototype.find` returns: the position of
      the first entry that `matches` accepts, or None when there is none. */
  function Find(s: seq<Product>, matches: Product -> bool): (r: Option<nat>)
    ensures r.Some? ==> r.value < |s| && matches(s[r.value])
    ensures r.Some? ==> forall j :: 0 <= j < r.value ==> !matches(s[j])
    ensures r.None? <==> forall j :: 0 <= j < |s| ==> !matches(s[j])
  {
    if s == [] then None
    else if matches(s[0]) then Some(0)
    else match Find(s[1..], matches)
      case None => None
      case Some(k) => Some(k + 1)
  }

  /** The spread `{ ...product, quantity: product.quantity + delta }`: `p`
      with its quantity shifted by `delta`. */
  function Shifted(p: Product, delta: int): (q: Product)
    ensures q.quantity == p.quantity + delta
    ensures q.id == p.id && q.title == p.title
    ensures q.imageUrl == p.imageUrl && q.price == p.price
  {
    p.(quantity := p.quantity + delta)
  }

  /** The `products.map(...)` shared by increment and decrement: every entry
      whose id is `id` has its quantity shifted by `delta`, in place; every
      other entry is kept as it is. */
  function MapMatching(s: seq<Product>, id: string, delta: int): (r: seq<Product>)
    ensures |r| == |s|
    ensures forall i :: 0 <= i < |s| && s[i].id == id ==> r[i] == Shifted(s[i], delta)
    ensures forall i :: 0 <= i < |s| && s[i].id != id ==> r[i] == s[i]
  {
    if s == [] then []
    else [if s[0].id == id then Shifted(s[0], delta) else s[0]] + MapMatching(s[1..], id, delta)
  }

  /** increment(id) (cart.tsx lines 39-50). */
  function Increment(s: seq<Product>, id: string): (r: seq<Product>)
    ensures |r| == |s|
    ensures forall i :: 0 <= i < |s| && s[i].id == id ==> r[i].quantity == s[i].quantity + 1
    ensures forall i :: 0 <= i < |s| ==> r[i] == s[i].(quantity := r[i].quantity)
    ensures forall i :: 0 <= i < |s| && s[i].id != id ==> r[i] == s[i]
  {
    MapMatching(s, id, 1)
  }

  /** The guard of decrement: the first entry with that id (`productInCart`)
      exists and has quantity exactly 1. An absent entry makes
      `productInCart?.quantity` undefined, which is not 1. */
  predicate AtFloor(s: seq<Product>, id: string): (r: bool)
    ensures r ==> exists k :: 0 <= k < |s| && s[k].id == id && s[k].quantity == 1 &&
                              forall j :: 0 <= j < k ==> s[j].id != id
    ensures (exists k :: 0 <= k < |s| && s[k].id == id && s[k].quantity == 1 &&
                         forall j :: 0 <= j < k ==> s[j].id != id) ==> r
  {
    match Find(s, (p: Product) => p.id == id)
    case None => false
    case Some(k) => s[k].quantity == 1
  }

  /** decrement(id) (cart.tsx lines 52-71), without its storage write. */
  function Decrement(s: seq<Product>, id: string): (r: seq<Product>)
    ensures |r| == |s|
    ensures forall i :: 0 <= i < |s| ==> r[i] == s[i].(quantity := r[i].quantity)
    ensures forall i :: 0 <= i < |s| && s[i].id != id ==> r[i] == s[i]
    ensures AtFloor(s, id) ==> r == s
    ensures !AtFloor(s, id) ==>
              forall i :: 0 <= i < |s| && s[i].id == id ==> r[i].quantity == s[i].quantity - 1
  {
    if AtFloor(s, id) then s else MapMatching(s, id, -1)
  }

  /** Whether some entry already carries this title (the lookup at
      cart.tsx line 75). */
  predicate HasTitle(s: seq<Product>, title: string): (r: bool)
    ensures r <==> exists i :: 0 <= i < |s| && s[i].title == title
  {
    Find(s, (p: Product) => p.title == title).Some?
  }

  /** addToCart(item) (cart.tsx lines 73-93), without its storage writes: an
      item whose title is already in the cart increments by the ITEM's id;
      otherwise the item is appended with quantity 1. */
  function AddToCart(s: seq<Product>, item: Item): (r: seq<Product>)
    ensures HasTitle(s, item.title) ==> |r| == |s|
    ensures !HasTitle(s, item.title) ==> |r| == |s| + 1 && r[..|s|] == s && r[|s|] == NewEntry(item)
    ensures forall i :: 0 <= i < |s| ==> r[i] == s[i].(quantity := r[i].quantity)
  {
    if HasTitle(s, item.title) then Increment(s, item.id) else s + [NewEntry(item)]
  }
}
