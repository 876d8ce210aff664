/** The cart provider's state: the one mutable cell `products`, created empty
    and replaced wholesale by each callback, as the state setter does. */
module CartStore {
  import opened CartList
  import opened CartProperties

  class Cart {
    /** The current snapshot that consumers read. */
    var products: seq<Product>

    /** What every reachable cart satisfies: titles are unique (addToCart's
        dedup key) and the first entry with each id has quantity at least 1.
        Ids are not kept unique (see CartProperties.AddToCartMayDuplicateId),
        so a later entry sharing an id may drop below 1. */
    ghost predicate Valid()
      reads this
    {
      UniqueTitles(products) && FirstsPositive(products)
    }

    /** The provider mounts with an empty cart. */
    constructor ()
      ensures Valid() && products == []
    {
      products := [];
    }

    /** increment(id): every entry with the id gains one; the rest, the
        length and the order stay. */
    method Increment(id: string)
      requires Valid()
      modifies this
      ensures Valid()
      ensures products == CartList.Increment(old(products), id)
      ensures AllPositive(old(products)) ==> AllPositive(products)
    {
      var next := CartList.Increment(products, id);
      QuantityOnlyKeepsUniqueness(products, next);
      IncrementKeepsFirstsPositive(products, id);
      if AllPositive(products) {
        IncrementKeepsPositive(products, id);
      }
      products := next;
    }

    /** decrement(id): a no-op when the first entry with the id is at 1,
        otherwise every entry with the id loses one. */
    method Decrement(id: string)
      requires Valid()
      modifies this
      ensures Valid()
      ensures products == CartList.Decrement(old(products), id)
      ensures UniqueIds(old(products)) ==> AllPositive(products)
    {
      var next := CartList.Decrement(products, id);
      QuantityOnlyKeepsUniqueness(products, next);
      DecrementKeepsFirstsPositive(products, id);
      if UniqueIds(products) {
        FirstsPositiveUnique(next);
      }
      products := next;
    }

    /** addToCart(item): an item whose title is already in the cart goes
        through Increment with the item's own id; any other item is appended
        with quantity 1. */
    method AddToCart(item: Item)
      requires Valid()
      modifies this
      ensures Valid()
      ensures products == CartList.AddToCart(old(products), item)
    {
      if HasTitle(products, item.title) {
        Increment(item.id);
      } else {
        var next := products + [NewEntry(item)];
        AddToCartKeepsTitlesUnique(products, item);
        AddToCartKeepsFirstsPositive(products, item);
        products := next;
      }
    }
  }
}
