/**
 The stateful half of the shopping-cart store: the in-memory cart and the
 value persisted under the storage key, hydrated once at construction and
 replaced together by every successful operation. The remote stock and
 product lookups are parameters; the error notification is the returned
 message.
 */
module Store {
  import opened CartState

  /** The initial cart: the persisted cart when the storage key holds one, else empty. */
  function Hydrate(persisted: Option<Cart>): (r: Cart)
    ensures persisted.None? ==> r == []
    ensures forall saved :: persisted == Some(saved) ==> r == saved
  {
    match persisted
    case Some(saved) => saved
    case None => []
  }

  class CartStore {
    /** The in-memory cart, the state behind `setCart`. */
    var cart: Cart
    /** The cart written under the storage key; None while the key is absent. */
    var stored: Option<Cart>

    /** Reloading from storage gives back the in-memory cart. */
    ghost predicate Valid()
      reads this
    {
      Hydrate(stored) == cart
    }

    constructor (persisted: Option<Cart>)
      ensures Valid()
      ensures cart == Hydrate(persisted) && stored == persisted
    {
      cart := Hydrate(persisted);
      stored := persisted;
    }

    /** How one call ends, given the decision taken for it: a commit replaces
        both the in-memory cart and the stored one and notifies nothing; a
        rejection notifies once and changes nothing; an ignored call does neither. */
    twostate predicate Settles(new step: Step, new notice: Option<Message>)
      reads this
    {
      match step
      case Commit(next) => cart == next && stored == Some(next) && notice == None
      case Reject(message) => cart == old(cart) && stored == old(stored) && notice == Some(message)
      case Ignore => cart == old(cart) && stored == old(stored) && notice == None
    }

    /** The commit step: replace the in-memory cart, then persist the same value. */
    method Commit(next: Cart)
      modifies this
      ensures cart == next && stored == Some(next)
      ensures Valid()
    {
      cart := next;
      stored := Some(next);
    }

    method AddProduct(productId: int, stock: Lookup<nat>, product: Lookup<Product>) returns (notice: Option<Message>)
      requires Valid()
      modifies this
      ensures Valid()
      ensures Settles(AddStep(old(cart), productId, stock, product), notice)
      ensures old(WellFormed(cart)) && (product.Found? ==> product.value.id == productId) ==> WellFormed(cart)
      ensures old(UniqueIds(cart)) && (product.Found? ==> product.value.id == productId) && notice.None? ==>
                Find(cart, productId).Some? && Find(cart, productId).value.amount <= stock.value
    {
      var productInCart := Find(cart, productId);
      var desiredAmount := if productInCart.Some? then productInCart.value.amount + 1 else 1;
      if stock.Failed? {
        return Some(AddFailed);
      }
      if desiredAmount > stock.value {
        return Some(OutOfStock);
      }
      if product.Failed? {
        return Some(AddFailed);
      }
      var updatedCart := if productInCart.Some? then Increment(cart, productId)
                         else cart + [product.value.(amount := 1)];
      if WellFormed(cart) && (product.Found? ==> product.value.id == productId) {
        AddKeepsWellFormed(cart, productId, stock, product);
      }
      if UniqueIds(cart) && (product.Found? ==> product.value.id == productId) {
        AddWithinStock(cart, productId, stock, product);
      }
      Commit(updatedCart);
      notice := None;
    }

    method RemoveProduct(productId: int) returns (notice: Option<Message>)
      requires Valid()
      modifies this
      ensures Valid()
      ensures Settles(RemoveStep(old(cart), productId), notice)
      ensures old(WellFormed(cart)) ==> WellFormed(cart)
      ensures !HasId(cart, productId)
    {
      var productExists := Contains(cart, productId);
      if !productExists {
        return Some(RemoveFailed);
      }
      var updatedCart := Without(cart, productId);
      if WellFormed(cart) {
        RemoveKeepsWellFormed(cart, productId);
      }
      Commit(updatedCart);
      notice := None;
    }

    method UpdateProductAmount(productId: int, amount: int, stock: Lookup<nat>) returns (notice: Option<Message>)
      requires Valid()
      modifies this
      ensures Valid()
      ensures Settles(UpdateStep(old(cart), productId, amount, stock), notice)
      ensures old(WellFormed(cart)) ==> WellFormed(cart)
      ensures old(UniqueIds(cart)) && old(HasId(cart, productId)) && amount > 0 && notice.None? ==>
                Find(cart, productId).Some? && Find(cart, productId).value.amount == amount <= stock.value
    {
      if amount <= 0 {
        return None;
      }
      if stock.Failed? {
        return Some(UpdateFailed);
      }
      if amount > stock.value {
        return Some(OutOfStock);
      }
      var updatedCart := WithAmount(cart, productId, amount);
      if WellFormed(cart) {
        UpdateKeepsWellFormed(cart, productId, amount, stock);
      }
      if UniqueIds(cart) && HasId(cart, productId) {
        UpdateWithinStock(cart, productId, amount, stock);
      }
      Commit(updatedCart);
      notice := None;
    }
  }

  // The scenarios below drive the store through single calls; each outcome
  // follows from the contracts alone.

  method ScenarioAddNew()
  {
    var shoe := Product(1, 0, "tenis");
    var store := new CartStore(None);
    AddNew([], 1, 5, shoe);
    var notice := store.AddProduct(1, Found(5), Found(shoe));
    assert notice == None && store.cart == [Product(1, 1, "tenis")] && store.stored == Some(store.cart);
  }

  method ScenarioAddOutOfStock()
  {
    var before := [Product(1, 1, "tenis")];
    var store := new CartStore(Some(before));
    FindAt(before, 1, 0);
    var notice := store.AddProduct(1, Found(1), Found(Product(1, 0, "tenis")));
    assert notice == Some(OutOfStock) && store.cart == before && store.stored == Some(before);
  }

  method ScenarioRemovePresent()
  {
    var before := [Product(1, 2, "tenis"), Product(2, 1, "bota")];
    var store := new CartStore(Some(before));
    RemovePresent(before, 1, 0);
    var notice := store.RemoveProduct(1);
    assert notice == None && store.cart == [Product(2, 1, "bota")];
  }

  method ScenarioRemoveAbsent()
  {
    var store := new CartStore(None);
    var notice := store.RemoveProduct(5);
    assert notice == Some(RemoveFailed) && store.cart == [] && store.stored == None;
  }

  method ScenarioUpdateIgnored()
  {
    var before := [Product(1, 1, "tenis")];
    var store := new CartStore(Some(before));
    var notice := store.UpdateProductAmount(1, 0, Found(3));
    assert notice == None && store.cart == before;
  }

  method ScenarioUpdatePresent()
  {
    var before := [Product(1, 1, "tenis")];
    var store := new CartStore(Some(before));
    UpdatePresent(before, 1, 0, 3, 3);
    var notice := store.UpdateProductAmount(1, 3, Found(3));
    assert notice == None && store.cart == [Product(1, 3, "tenis")];
  }
}
