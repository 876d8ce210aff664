/** What the three cart operations promise, stated over the functions of
    CartList: the per-entry effect of each operation in the source's own terms,
    the floor of decrement, the dedup rule of addToCart, the invariants each
    operation keeps, and the increment/decrement round trips. */
module CartProperties {
  import opened CartList

  /** No two entries share an id. The source does not maintain this. */
  ghost predicate UniqueIds(s: seq<Product>)
  {
    forall i, j :: 0 <= i < j < |s| ==> s[i].id != s[j].id
  }

  /** No two entries share a title: the key addToCart deduplicates by. */
  ghost predicate UniqueTitles(s: seq<Product>)
  {
    forall i, j :: 0 <= i < j < |s| ==> s[i].title != s[j].title
  }

  /** Every quantity is at least 1. */
  ghost predicate AllPositive(s: seq<Product>)
  {
    forall i :: 0 <= i < |s| ==> s[i].quantity >= 1
  }

  /** `k` is the entry `products.find(item => item.id === id)` returns. */
  ghost predicate FirstWithId(s: seq<Product>, id: string, k: nat)
  {
    k < |s| && s[k].id == id && forall j :: 0 <= j < k ==> s[j].id != id
  }

  /** The guard of decrement fires exactly when the first entry with the id
      has quantity 1. */
  lemma AtFloorIff(s: seq<Product>, id: string, k: nat)
    requires FirstWithId(s, id, k)
    ensures AtFloor(s, id) <==> s[k].quantity == 1
  { }

  /** With no entry carrying the id, decrement's guard never fires. */
  lemma NotAtFloorWhenAbsent(s: seq<Product>, id: string)
    requires forall i :: 0 <= i < |s| ==> s[i].id != id
    ensures !AtFloor(s, id)
  { }

  // ---------------------------------------------------------------- increment

  /** increment with an id no entry has returns the list unchanged. */
  lemma IncrementAbsent(s: seq<Product>, id: string)
    requires forall i :: 0 <= i < |s| ==> s[i].id != id
    ensures Increment(s, id) == s
  { }

  // ---------------------------------------------------------------- decrement

  /** When the first entry with the id has quantity 1, decrement is a no-op:
      that entry stays, still at 1, and nothing else changes either. */
  lemma DecrementAtFloor(s: seq<Product>, id: string, k: nat)
    requires FirstWithId(s, id, k) && s[k].quantity == 1
    ensures Decrement(s, id) == s
  { }

  /** When the first entry with the id has a quantity other than 1, decrement
      lowers EVERY entry with that id by exactly 1 and keeps the rest. */
  lemma DecrementLowers(s: seq<Product>, id: string, k: nat)
    requires FirstWithId(s, id, k) && s[k].quantity != 1
    ensures |Decrement(s, id)| == |s|
    ensures forall i :: 0 <= i < |s| && s[i].id == id ==>
              Decrement(s, id)[i] == s[i].(quantity := s[i].quantity - 1)
    ensures forall i :: 0 <= i < |s| && s[i].id != id ==> Decrement(s, id)[i] == s[i]
  { }

  /** decrement with an id no entry has returns the list unchanged. */
  lemma DecrementAbsent(s: seq<Product>, id: string)
    requires forall i :: 0 <= i < |s| ==> s[i].id != id
    ensures Decrement(s, id) == s
  { }

  // ---------------------------------------------------------------- addToCart

  /** An item whose title is new is appended once, at the end, with
      quantity 1; every earlier entry is untouched. */
  lemma AddToCartAppends(s: seq<Product>, item: Item)
    requires forall i :: 0 <= i < |s| ==> s[i].title != item.title
    ensures AddToCart(s, item) == s + [Product(item.id, item.title, item.imageUrl, item.price, 1)]
  { }

  /** An item whose title is already present keeps the length and is exactly
      increment by the ITEM's id; an entry with that title but another id is
      not changed. */
  lemma AddToCartExisting(s: seq<Product>, item: Item, k: nat)
    requires k < |s| && s[k].title == item.title
    ensures AddToCart(s, item) == Increment(s, item.id)
    ensures |AddToCart(s, item)| == |s|
    ensures s[k].id != item.id ==> AddToCart(s, item)[k] == s[k]
  { }

  /** The consequence of deduplicating by title but incrementing by id: an
      item whose title is present but whose id is not leaves the cart as it
      was, so the item is silently not added. */
  lemma AddToCartTitleClashIgnored(s: seq<Product>, item: Item, k: nat)
    requires k < |s| && s[k].title == item.title
    requires forall i :: 0 <= i < |s| ==> s[i].id != item.id
    ensures AddToCart(s, item) == s
  { }

  // ---------------------------------------------------------------- invariants

  /** increment keeps every quantity at least 1, whatever the ids. */
  lemma IncrementKeepsPositive(s: seq<Product>, id: string)
    requires AllPositive(s)
    ensures AllPositive(Increment(s, id))
  { }

  /** With unique ids, decrement keeps every quantity at least 1: the only
      entry it lowers is the one its guard inspected. */
  lemma DecrementKeepsPositive(s: seq<Product>, id: string)
    requires UniqueIds(s) && AllPositive(s)
    ensures AllPositive(Decrement(s, id))
  { }

  /** Without unique ids the floor does not hold: the guard looks only at the
      first entry with the id, and a later one at quantity 1 drops to 0. */
  lemma DecrementBelowFloorWithDuplicateIds()
    ensures var s := [Product("a", "Shoe", "", 10.0, 2), Product("a", "Boot", "", 10.0, 1)];
            AllPositive(s) && !UniqueIds(s) && Decrement(s, "a")[1].quantity == 0
  {
    var s := [Product("a", "Shoe", "", 10.0, 2), Product("a", "Boot", "", 10.0, 1)];
    assert s[0].id == s[1].id;
  }

  /** The first entry with each id has quantity at least 1: what decrement's
      guard protects, whatever the ids. */
  ghost predicate FirstsPositive(s: seq<Product>)
  {
    forall k :: 0 <= k < |s| && (forall j :: 0 <= j < k ==> s[j].id != s[k].id) ==> s[k].quantity >= 1
  }

  /** With unique ids every entry is a first one, so all quantities are at
      least 1. */
  lemma FirstsPositiveUnique(s: seq<Product>)
    requires UniqueIds(s) && FirstsPositive(s)
    ensures AllPositive(s)
  {
    forall k | 0 <= k < |s| ensures s[k].quantity >= 1 {
      assert forall j :: 0 <= j < k ==> s[j].id != s[k].id;
    }
  }

  /** A list that differs only in quantities has its first entries at the
      same positions. */
  lemma SameFirsts(s: seq<Product>, r: seq<Product>, k: nat)
    requires |r| == |s| && forall i :: 0 <= i < |s| ==> r[i] == s[i].(quantity := r[i].quantity)
    requires k < |s|
    ensures (forall j :: 0 <= j < k ==> r[j].id != r[k].id) <==> (forall j :: 0 <= j < k ==> s[j].id != s[k].id)
  {
    assert forall j :: 0 <= j < |s| ==> r[j].id == s[j].id;
  }

  /** increment keeps the first entry with each id at 1 or more. */
  lemma IncrementKeepsFirstsPositive(s: seq<Product>, id: string)
    requires FirstsPositive(s)
    ensures FirstsPositive(Increment(s, id))
  {
    var r := Increment(s, id);
    forall k | 0 <= k < |r| && (forall j :: 0 <= j < k ==> r[j].id != r[k].id) ensures r[k].quantity >= 1 {
      SameFirsts(s, r, k);
    }
  }

  /** decrement keeps the first entry with each id at 1 or more, with or
      without unique ids: the only first entry it lowers is the one its
      guard saw above 1. */
  lemma DecrementKeepsFirstsPositive(s: seq<Product>, id: string)
    requires FirstsPositive(s)
    ensures FirstsPositive(Decrement(s, id))
  {
    var r := Decrement(s, id);
    forall k | 0 <= k < |r| && (forall j :: 0 <= j < k ==> r[j].id != r[k].id) ensures r[k].quantity >= 1 {
      SameFirsts(s, r, k);
      if s[k].id == id {
        assert FirstWithId(s, id, k);
        AtFloorIff(s, id, k);
      }
    }
  }

  /** addToCart keeps the first entry with each id at 1 or more. */
  lemma AddToCartKeepsFirstsPositive(s: seq<Product>, item: Item)
    requires FirstsPositive(s)
    ensures FirstsPositive(AddToCart(s, item))
  {
    if HasTitle(s, item.title) {
      IncrementKeepsFirstsPositive(s, item.id);
    } else {
      var r := AddToCart(s, item);
      forall k | 0 <= k < |r| && (forall j :: 0 <= j < k ==> r[j].id != r[k].id) ensures r[k].quantity >= 1 {
        if k < |s| {
          assert forall j :: 0 <= j < k ==> r[j] == s[j];
          assert r[k] == s[k];
        }
      }
    }
  }

  /** addToCart keeps every quantity at least 1. */
  lemma AddToCartKeepsPositive(s: seq<Product>, item: Item)
    requires AllPositive(s)
    ensures AllPositive(AddToCart(s, item))
  { }

  /** addToCart never introduces a second entry with the same title: the
      dedup rule it implements. */
  lemma AddToCartKeepsTitlesUnique(s: seq<Product>, item: Item)
    requires UniqueTitles(s)
    ensures UniqueTitles(AddToCart(s, item))
  { }

  /** But ids are not deduplicated: an item with a new title and an id
      already in the cart is appended beside it. */
  lemma AddToCartMayDuplicateId()
    ensures var s := [Product("a", "Shoe", "", 10.0, 1)];
            UniqueIds(s) && !UniqueIds(AddToCart(s, Item("a", "Boot", "", 10.0)))
  { }

  /** increment and decrement change quantities only, so they keep titles
      and ids unique. */
  lemma QuantityOnlyKeepsUniqueness(s: seq<Product>, r: seq<Product>)
    requires |r| == |s| && forall i :: 0 <= i < |s| ==> r[i] == s[i].(quantity := r[i].quantity)
    ensures UniqueTitles(s) ==> UniqueTitles(r)
    ensures UniqueIds(s) ==> UniqueIds(r)
  { }

  // ---------------------------------------------------------------- round trips

  /** decrement(id) after increment(id) restores the list whenever the
      quantities are at least 1; unique ids are not needed. */
  lemma DecrementAfterIncrement(s: seq<Product>, id: string)
    requires AllPositive(s)
    ensures Decrement(Increment(s, id), id) == s
  { }

  /** increment(id) after decrement(id) restores the list unless
      decrement's guard fired, in which case it is increment alone. */
  lemma IncrementAfterDecrement(s: seq<Product>, id: string)
    ensures !AtFloor(s, id) ==> Increment(Decrement(s, id), id) == s
    ensures AtFloor(s, id) ==> Increment(Decrement(s, id), id) == Increment(s, id)
  { }

  // ---------------------------------------------------------------- traces

  /** From an empty cart: add a product twice, then decrement twice; the
      quantity goes 1, 2, 1 and then stays at 1. */
  lemma AddAddDecrementDecrement()
    ensures var shoe := Item("a", "Shoe", "", 10.0);
            var s1 := AddToCart([], shoe);
            var s2 := AddToCart(s1, shoe);
            var s3 := Decrement(s2, "a");
            var s4 := Decrement(s3, "a");
            s1 == [Product("a", "Shoe", "", 10.0, 1)] &&
            s2 == [Product("a", "Shoe", "", 10.0, 2)] &&
            s3 == s1 && s4 == s1
  { }

  /** Only addToCart, increment and decrement, starting from an empty cart,
      reach a quantity of 0: the title dedup lets a second entry share an id,
      and decrement's guard inspects only the first. */
  lemma ReachableQuantityZero()
    ensures var shoe := Item("a", "Shoe", "", 10.0);
            var boot := Item("a", "Boot", "", 10.0);
            var s := Decrement(AddToCart(AddToCart(AddToCart([], shoe), shoe), boot), "a");
            |s| == 2 && s[1].quantity == 0
  { }
}
