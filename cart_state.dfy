/**
 The pure half of the shopping-cart store: the cart as an ordered sequence
 of products, the lookups and the next-cart computations that the three
 operations use (`find`, `some`, `map`, `filter`, append), the decision each
 operation takes given the answers of the remote lookups, and the
 properties those decisions keep.
 */
module CartState {

  datatype Option<T> = None | Some(value: T)

  /** The answer of a remote lookup: the request fails, or it yields a value. */
  datatype Lookup<T> = Failed | Found(value: T)

  /** A cart entry. `details` stands for the catalogue fields (title, price,
      image) that the cart carries along without looking at them. */
  datatype Product = Product(id: int, amount: int, details: string)

  type Cart = seq<Product>

  /** The user-facing error notifications. */
  datatype Message = OutOfStock | AddFailed | RemoveFailed | UpdateFailed

  function Text(m: Message): string
  {
    match m
    case OutOfStock => "Quantidade solicitada fora de estoque"
    case AddFailed => "Erro na adição do produto"
    case RemoveFailed => "Erro na remoção do produto"
    case UpdateFailed => "Erro na alteração de quantidade do produto"
  }

  /** Each failure kind shows its own text, so a notification tells which failure it was. */
  lemma TextsDistinct(m: Message, n: Message)
    requires m != n
    ensures Text(m) != Text(n)
  {
  }

  /** What one operation decides: commit a new cart, reject with exactly one
      notification, or do nothing at all. */
  datatype Step = Commit(next: Cart) | Reject(message: Message) | Ignore

  // ----- Properties of carts -----

  ghost predicate HasId(cart: Cart, id: int)
  {
    exists i :: 0 <= i < |cart| && cart[i].id == id
  }

  ghost predicate UniqueIds(cart: Cart)
  {
    forall i, j :: 0 <= i < j < |cart| ==> cart[i].id != cart[j].id
  }

  ghost predicate AllPositive(cart: Cart)
  {
    forall i :: 0 <= i < |cart| ==> cart[i].amount >= 1
  }

  /** The cart invariant: no two entries share an id and every amount is at least one. */
  ghost predicate WellFormed(cart: Cart)
  {
    UniqueIds(cart) && AllPositive(cart)
  }

  /** `k` is the position of the first entry with `id`. */
  ghost predicate FirstWith(cart: Cart, id: int, k: int)
  {
    0 <= k < |cart| && cart[k].id == id && forall j :: 0 <= j < k ==> cart[j].id != id
  }

  // ----- Lookups and next-cart computations -----

  /** `cart.some(p => p.id === id)` */
  function Contains(cart: Cart, id: int): (r: bool)
    ensures r <==> HasId(cart, id)
  {
    if cart == [] then false
    else if cart[0].id == id then true
    else
      var rest := Contains(cart[1..], id);
      assert HasId(cart[1..], id) ==> HasId(cart, id) by {
        if HasId(cart[1..], id) {
          var i :| 0 <= i < |cart[1..]| && cart[1..][i].id == id;
          assert cart[i + 1].id == id;
        }
      }
      assert HasId(cart, id) ==> HasId(cart[1..], id) by {
        if HasId(cart, id) {
          var i :| 0 <= i < |cart| && cart[i].id == id;
          assert i != 0 && cart[1..][i - 1].id == id;
        }
      }
      rest
  }

  /** `cart.find(p => p.id === id)`: the first entry with that id, if any. */
  function Find(cart: Cart, id: int): (r: Option<Product>)
    ensures r.None? <==> !HasId(cart, id)
    ensures r.Some? ==> r.value.id == id && exists k :: FirstWith(cart, id, k) && cart[k] == r.value
  {
    if cart == [] then None
    else if cart[0].id == id then
      assert FirstWith(cart, id, 0);
      Some(cart[0])
    else
      var r := Find(cart[1..], id);
      assert r.Some? ==> exists k :: FirstWith(cart, id, k) && cart[k] == r.value by {
        if r.Some? {
          var k :| FirstWith(cart[1..], id, k) && cart[1..][k] == r.value;
          assert FirstWith(cart, id, k + 1);
        }
      }
      assert HasId(cart[1..], id) <==> HasId(cart, id) by {
        if HasId(cart, id) {
          var i :| 0 <= i < |cart| && cart[i].id == id;
          assert cart[1..][i - 1].id == id;
        }
        if HasId(cart[1..], id) {
          var i :| 0 <= i < |cart[1..]| && cart[1..][i].id == id;
          assert cart[i + 1].id == id;
        }
      }
      r
  }

  /** The `map` of addProduct: every entry with `id` gains one unit. */
  function Increment(cart: Cart, id: int): (r: Cart)
    ensures |r| == |cart|
    ensures forall i :: 0 <= i < |cart| && cart[i].id != id ==> r[i] == cart[i]
    ensures forall i :: 0 <= i < |cart| && cart[i].id == id ==> r[i] == cart[i].(amount := cart[i].amount + 1)
  {
    if cart == [] then []
    else
      var head := if cart[0].id == id then cart[0].(amount := cart[0].amount + 1) else cart[0];
      [head] + Increment(cart[1..], id)
  }

  /** The `map` of updateProductAmount: every entry with `id` gets `amount`. */
  function WithAmount(cart: Cart, id: int, amount: int): (r: Cart)
    ensures |r| == |cart|
    ensures forall i :: 0 <= i < |cart| && cart[i].id != id ==> r[i] == cart[i]
    ensures forall i :: 0 <= i < |cart| && cart[i].id == id ==> r[i] == cart[i].(amount := amount)
  {
    if cart == [] then []
    else
      var head := if cart[0].id == id then cart[0].(amount := amount) else cart[0];
      [head] + WithAmount(cart[1..], id, amount)
  }

  /** The `filter` of removeProduct: the entries whose id differs from `id`, in their order. */
  function Without(cart: Cart, id: int): (r: Cart)
    ensures |r| <= |cart|
    ensures forall i :: 0 <= i < |r| ==> r[i].id != id
    ensures HasId(cart, id) ==> |r| < |cart|
  {
    if cart == [] then []
    else if cart[0].id == id then Without(cart[1..], id)
    else
      assert HasId(cart, id) ==> HasId(cart[1..], id) by {
        if HasId(cart, id) {
          var i :| 0 <= i < |cart| && cart[i].id == id;
          assert cart[1..][i - 1].id == id;
        }
      }
      [cart[0]] + Without(cart[1..], id)
  }

  /** The amount addProduct asks the stock for: one more than the entry's, or one for a new entry. */
  function DesiredAmount(cart: Cart, id: int): (r: int)
    ensures !HasId(cart, id) ==> r == 1
    ensures HasId(cart, id) ==> exists k :: FirstWith(cart, id, k) && r == cart[k].amount + 1
  {
    var inCart := Find(cart, id);
    if inCart.Some? then inCart.value.amount + 1 else 1
  }

  // ----- The three operations, as decisions -----

  /** addProduct: stock lookup, stock check, product lookup, then increment or append. */
  function AddStep(cart: Cart, id: int, stock: Lookup<nat>, product: Lookup<Product>): (r: Step)
    ensures !r.Ignore?
    ensures r.Commit? ==> stock.Found? && product.Found? && DesiredAmount(cart, id) <= stock.value
    ensures r.Commit? ==> |r.next| == if HasId(cart, id) then |cart| else |cart| + 1
    ensures r.Commit? ==> forall i :: 0 <= i < |cart| ==> r.next[i].id == cart[i].id && r.next[i].details == cart[i].details
  {
    if stock.Failed? then Reject(AddFailed)
    else if DesiredAmount(cart, id) > stock.value then Reject(OutOfStock)
    else if product.Failed? then Reject(AddFailed)
    else if Find(cart, id).Some? then Commit(Increment(cart, id))
    else Commit(cart + [product.value.(amount := 1)])
  }

  /** removeProduct: an absent id is an error; otherwise filter the entry out. */
  function RemoveStep(cart: Cart, id: int): (r: Step)
    ensures r.Reject? <==> !HasId(cart, id)
    ensures r.Reject? ==> r.message == RemoveFailed
    ensures r.Commit? ==> |r.next| < |cart| && !HasId(r.next, id)
  {
    if !Contains(cart, id) then Reject(RemoveFailed)
    else Commit(Without(cart, id))
  }

  /** updateProductAmount: a non-positive amount is ignored; otherwise stock lookup, stock check, map. */
  function UpdateStep(cart: Cart, id: int, amount: int, stock: Lookup<nat>): (r: Step)
    ensures r.Ignore? <==> amount <= 0
    ensures r.Commit? ==> stock.Found? && 0 < amount <= stock.value
    ensures r.Commit? ==> |r.next| == |cart| && forall i :: 0 <= i < |cart| ==> r.next[i].id == cart[i].id && r.next[i].details == cart[i].details
    ensures r.Commit? ==> forall i :: 0 <= i < |cart| ==> r.next[i].amount == if cart[i].id == id then amount else cart[i].amount
  {
    if amount <= 0 then Ignore
    else if stock.Failed? then Reject(UpdateFailed)
    else if amount > stock.value then Reject(OutOfStock)
    else Commit(WithAmount(cart, id, amount))
  }

  // ----- Lookups on a cart with unique ids -----

  lemma FindAt(cart: Cart, id: int, k: int)
    requires UniqueIds(cart) && 0 <= k < |cart| && cart[k].id == id
    ensures Find(cart, id) == Some(cart[k])
    ensures DesiredAmount(cart, id) == cart[k].amount + 1
  {
    var r := Find(cart, id);
    var k' :| FirstWith(cart, id, k') && cart[k'] == r.value;
    assert k' == k;
  }

  lemma {:induction false} WithoutAbsent(cart: Cart, id: int)
    requires !HasId(cart, id)
    ensures Without(cart, id) == cart
  {
    if cart != [] {
      assert cart[0].id != id;
      forall i | 0 <= i < |cart[1..]| ensures cart[1..][i].id != id {
        assert cart[1..][i] == cart[i + 1];
      }
      WithoutAbsent(cart[1..], id);
      assert cart == [cart[0]] + cart[1..];
    }
  }

  lemma {:induction false} WithoutAt(cart: Cart, id: int, k: int)
    requires 0 <= k < |cart| && cart[k].id == id
    requires forall j :: 0 <= j < |cart| && j != k ==> cart[j].id != id
    ensures Without(cart, id) == cart[..k] + cart[k + 1..]
  {
    var tail := cart[1..];
    if k == 0 {
      forall i | 0 <= i < |tail| ensures tail[i].id != id {
        assert tail[i] == cart[i + 1];
      }
      WithoutAbsent(tail, id);
      assert cart[..0] + cart[1..] == tail;
    } else {
      forall j | 0 <= j < |tail| && j != k - 1 ensures tail[j].id != id {
        assert tail[j] == cart[j + 1];
      }
      WithoutAt(tail, id, k - 1);
      assert cart[..k] == [cart[0]] + tail[..k - 1];
      assert cart[k + 1..] == tail[k..];
    }
  }

  /** The filter works entry by entry: filtering a concatenation filters each part. */
  lemma {:induction false} WithoutConcat(a: Cart, b: Cart, id: int)
    ensures Without(a + b, id) == Without(a, id) + Without(b, id)
    decreases |a|
  {
    if a == [] {
      assert a + b == b;
    } else {
      assert (a + b)[1..] == a[1..] + b;
      WithoutConcat(a[1..], b, id);
    }
  }

  /** Every entry with another id is kept, each copy of `id` is dropped, and
      the kept entries stay in their order: appending one entry to the cart
      appends it to the result exactly when its id differs. */
  lemma WithoutSnoc(cart: Cart, p: Product, id: int)
    ensures Without(cart + [p], id) == if p.id == id then Without(cart, id) else Without(cart, id) + [p]
  {
    WithoutConcat(cart, [p], id);
  }

  // ----- addProduct -----

  /** An id already in the cart: only that entry changes, by exactly one unit,
      in place; every other entry, the order and the length stay. */
  lemma AddExisting(cart: Cart, id: int, k: int, stock: nat, product: Product)
    requires UniqueIds(cart) && 0 <= k < |cart| && cart[k].id == id
    requires cart[k].amount + 1 <= stock
    ensures AddStep(cart, id, Found(stock), Found(product)) == Commit(cart[k := cart[k].(amount := cart[k].amount + 1)])
  {
    FindAt(cart, id, k);
    var next := Increment(cart, id);
    assert next == cart[k := cart[k].(amount := cart[k].amount + 1)];
  }

  /** A new id: exactly one entry, built from the fetched product with amount
      one, goes at the end, and nothing before it changes. */
  lemma AddNew(cart: Cart, id: int, stock: nat, product: Product)
    requires !HasId(cart, id) && 1 <= stock
    ensures AddStep(cart, id, Found(stock), Found(product)) == Commit(cart + [product.(amount := 1)])
    ensures product.id == id && UniqueIds(cart) ==> UniqueIds(cart + [product.(amount := 1)])
  {
  }

  /** addProduct aborts exactly when a lookup fails or the desired amount
      exceeds the stock; the product lookup is needed even for an entry
      already in the cart. */
  lemma AddAborts(cart: Cart, id: int, stock: Lookup<nat>, product: Lookup<Product>)
    ensures AddStep(cart, id, stock, product).Ignore? == false
    ensures AddStep(cart, id, stock, product).Commit? <==>
              stock.Found? && DesiredAmount(cart, id) <= stock.value && product.Found?
    ensures AddStep(cart, id, stock, product) == Reject(OutOfStock) <==>
              stock.Found? && DesiredAmount(cart, id) > stock.value
    ensures AddStep(cart, id, stock, product) == Reject(AddFailed) <==>
              stock.Failed? || (DesiredAmount(cart, id) <= stock.value && product.Failed?)
  {
  }

  /** After a committed add, the entry for `id` holds the desired amount, which
      the stock observed during the call covers. */
  lemma AddWithinStock(cart: Cart, id: int, stock: Lookup<nat>, product: Lookup<Product>)
    requires UniqueIds(cart)
    requires product.Found? ==> product.value.id == id
    requires AddStep(cart, id, stock, product).Commit?
    ensures var next := AddStep(cart, id, stock, product).next;
            Find(next, id).Some? && Find(next, id).value.amount == DesiredAmount(cart, id) <= stock.value
  {
    var next := AddStep(cart, id, stock, product).next;
    if Find(cart, id).Some? {
      var k :| FirstWith(cart, id, k) && cart[k] == Find(cart, id).value;
      assert UniqueIds(next);
      FindAt(next, id, k);
    } else {
      assert UniqueIds(next);
      FindAt(next, id, |cart|);
    }
  }

  lemma AddKeepsWellFormed(cart: Cart, id: int, stock: Lookup<nat>, product: Lookup<Product>)
    requires WellFormed(cart)
    requires product.Found? ==> product.value.id == id
    ensures AddStep(cart, id, stock, product).Commit? ==> WellFormed(AddStep(cart, id, stock, product).next)
  {
  }

  // ----- removeProduct -----

  /** An absent id is rejected with the removal error. */
  lemma RemoveAbsent(cart: Cart, id: int)
    requires !HasId(cart, id)
    ensures RemoveStep(cart, id) == Reject(RemoveFailed)
  {
  }

  /** A present id: the cart loses exactly that entry; the others keep their order. */
  lemma RemovePresent(cart: Cart, id: int, k: int)
    requires UniqueIds(cart) && 0 <= k < |cart| && cart[k].id == id
    ensures RemoveStep(cart, id) == Commit(cart[..k] + cart[k + 1..])
    ensures |RemoveStep(cart, id).next| == |cart| - 1
  {
    WithoutAt(cart, id, k);
  }

  lemma RemoveKeepsWellFormed(cart: Cart, id: int)
    requires WellFormed(cart)
    ensures RemoveStep(cart, id).Commit? ==> WellFormed(RemoveStep(cart, id).next)
    ensures RemoveStep(cart, id).Commit? ==> !HasId(RemoveStep(cart, id).next, id)
  {
    if Contains(cart, id) {
      var k :| 0 <= k < |cart| && cart[k].id == id;
      WithoutAt(cart, id, k);
      DropKeepsWellFormed(cart, k);
    }
  }

  /** Dropping one entry keeps ids unique and amounts positive. */
  lemma DropKeepsWellFormed(cart: Cart, k: int)
    requires WellFormed(cart) && 0 <= k < |cart|
    ensures WellFormed(cart[..k] + cart[k + 1..])
  {
    var next := cart[..k] + cart[k + 1..];
    forall i | 0 <= i < |next| ensures next[i] == cart[if i < k then i else i + 1] {
    }
  }

  // ----- updateProductAmount -----

  /** A non-positive amount is a silent no-op. */
  lemma UpdateIgnored(cart: Cart, id: int, amount: int, stock: Lookup<nat>)
    ensures UpdateStep(cart, id, amount, stock) == Ignore <==> amount <= 0
  {
  }

  /** A positive amount is rejected when the stock lookup fails or the stock does not cover it. */
  lemma UpdateRejected(cart: Cart, id: int, amount: int, stock: Lookup<nat>)
    requires amount > 0
    ensures stock.Failed? ==> UpdateStep(cart, id, amount, stock) == Reject(UpdateFailed)
    ensures stock.Found? && amount > stock.value ==> UpdateStep(cart, id, amount, stock) == Reject(OutOfStock)
  {
  }

  /** A present id: only that entry's amount changes, to `amount`, in place. */
  lemma UpdatePresent(cart: Cart, id: int, k: int, amount: int, stock: nat)
    requires UniqueIds(cart) && 0 <= k < |cart| && cart[k].id == id
    requires 0 < amount <= stock
    ensures UpdateStep(cart, id, amount, Found(stock)) == Commit(cart[k := cart[k].(amount := amount)])
  {
    assert WithAmount(cart, id, amount) == cart[k := cart[k].(amount := amount)];
  }

  /** An absent id: the commit happens, with the cart as it was. */
  lemma UpdateAbsent(cart: Cart, id: int, amount: int, stock: nat)
    requires !HasId(cart, id)
    requires 0 < amount <= stock
    ensures UpdateStep(cart, id, amount, Found(stock)) == Commit(cart)
  {
    assert WithAmount(cart, id, amount) == cart;
  }

  lemma UpdateKeepsWellFormed(cart: Cart, id: int, amount: int, stock: Lookup<nat>)
    requires WellFormed(cart)
    ensures UpdateStep(cart, id, amount, stock).Commit? ==> WellFormed(UpdateStep(cart, id, amount, stock).next)
  {
  }

  /** After a committed update of an id in the cart, its entry holds exactly
      `amount`, which the stock observed during the call covers. */
  lemma UpdateWithinStock(cart: Cart, id: int, amount: int, stock: Lookup<nat>)
    requires UniqueIds(cart) && HasId(cart, id)
    requires UpdateStep(cart, id, amount, stock).Commit?
    ensures var next := UpdateStep(cart, id, amount, stock).next;
            Find(next, id).Some? && Find(next, id).value == Find(cart, id).value.(amount := amount)
    ensures amount <= stock.value
  {
    var k :| 0 <= k < |cart| && cart[k].id == id;
    var next := WithAmount(cart, id, amount);
    assert UpdateStep(cart, id, amount, stock) == Commit(next);
    assert UniqueIds(next) by {
      forall i, j | 0 <= i < j < |next| ensures next[i].id != next[j].id {
        assert next[i].id == cart[i].id && next[j].id == cart[j].id;
      }
    }
    FindAt(cart, id, k);
    FindAt(next, id, k);
  }

  // ----- Sequences of operations -----

  datatype Op =
    | Add(productId: int, stock: Lookup<nat>, product: Lookup<Product>)
    | Remove(productId: int)
    | Update(productId: int, amount: int, stock: Lookup<nat>)

  function StepOf(cart: Cart, op: Op): Step
  {
    match op
    case Add(id, stock, product) => AddStep(cart, id, stock, product)
    case Remove(id) => RemoveStep(cart, id)
    case Update(id, amount, stock) => UpdateStep(cart, id, amount, stock)
  }

  /** The cart after running `ops` one after another, each atomically. */
  function Replay(cart: Cart, ops: seq<Op>): Cart
    decreases ops
  {
    if ops == [] then cart
    else
      var step := StepOf(cart, ops[0]);
      Replay(if step.Commit? then step.next else cart, ops[1..])
  }

  /** The catalogue answers a product lookup with the product that was asked for. */
  ghost predicate Consistent(op: Op)
  {
    op.Add? && op.product.Found? ==> op.product.value.id == op.productId
  }

  /** No sequence of operations ever produces duplicate ids or an amount below one. */
  lemma {:induction false} ReplayKeepsWellFormed(cart: Cart, ops: seq<Op>)
    requires WellFormed(cart)
    requires forall i :: 0 <= i < |ops| ==> Consistent(ops[i])
    ensures WellFormed(Replay(cart, ops))
    decreases ops
  {
    if ops != [] {
      var step := StepOf(cart, ops[0]);
      assert Consistent(ops[0]);
      match ops[0] {
        case Add(id, stock, product) => AddKeepsWellFormed(cart, id, stock, product);
        case Remove(id) => RemoveKeepsWellFormed(cart, id);
        case Update(id, amount, stock) => UpdateKeepsWellFormed(cart, id, amount, stock);
      }
      assert forall i :: 0 <= i < |ops[1..]| ==> Consistent(ops[1..][i]) by {
        forall i | 0 <= i < |ops[1..]| ensures Consistent(ops[1..][i]) {
          assert ops[1..][i] == ops[i + 1];
        }
      }
      ReplayKeepsWellFormed(if step.Commit? then step.next else cart, ops[1..]);
    }
  }
}
