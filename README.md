# Shopping-cart store, modelled in Dafny

This project models the cart store of the RocketShoes front end (`src/hooks/useCart.tsx`).
The cart is an ordered sequence of products. Each product has an `id` and an `amount`.
Three operations change the cart:

- `addProduct` adds one unit of a product, or appends a new entry with amount one.
- `removeProduct` drops a product's entry.
- `updateProductAmount` sets a product's amount.

`addProduct` and `updateProductAmount` first check the amount against the remote stock.
Every successful call commits: it replaces the in-memory cart and writes the same value under the storage key.
Every failed call shows exactly one error message and changes nothing.

Files:

- `cart_state.dfy`, module `CartState`: the pure half.
  - The data: `Product`, `Cart`, `Message` (with its Portuguese texts in `Text`), and the remote-lookup answer `Lookup`.
  - The lookups and next-cart computations: `Find` (`find`), `Contains` (`some`), `Increment` and `WithAmount` (the two `map`s), `Without` (`filter`).
  - The decision each operation takes, `AddStep`, `RemoveStep` and `UpdateStep`. Each yields `Commit(next)`, `Reject(message)` or `Ignore`.
  - Lemmas that state what each operation does and which invariants it keeps.
  - `Replay` runs a sequence of operations, and a lemma proves the invariants hold over any such sequence.
- `cart_store.dfy`, module `Store`: the stateful half.
  - Class `CartStore` has the fields `cart` (memory) and `stored` (the storage key's value, `None` while absent).
  - `Valid()` says that reloading from storage yields the in-memory cart.
  - `AddProduct`, `RemoveProduct` and `UpdateProductAmount` follow the source's steps and early returns. Each is proved to settle exactly as the matching decision function says.
  - A few scenario methods drive single calls and check the outcomes.

The remote stock and product lookups are parameters of type `Lookup<T>` (`Failed` or `Found(value)`).
The error notification is the method's returned `Option<Message>`.

Two details of the code shape the model:

- The stock check at line 48 compares with `productStock?.amount`, so a stock answer without an amount does not abort. Stock is modelled as a natural number or a failed lookup.
- The product lookup (lines 53-55) runs on every add, before the code branches on whether the entry exists (line 57). So a failed product lookup aborts an increment too. `AddStep` and `AddAborts` reflect this.

## Model

| member | source | states |
|---|---|---|
| CartState.Contains | src/hooks/useCart.tsx:75-77 | the result is true exactly when some entry has the id |
| CartState.Find | src/hooks/useCart.tsx:38-40 | nothing is found exactly when no entry has the id; a found product has the id and is the first entry that does |
| CartState.Increment | src/hooks/useCart.tsx:58-62 | same length; entries with another id are unchanged; each entry with the id gains exactly one unit and keeps its id and details |
| CartState.WithAmount | src/hooks/useCart.tsx:107-109 | same length; entries with another id are unchanged; each entry with the id gets the new amount and keeps its id and details |
| CartState.Without | src/hooks/useCart.tsx:81-83 | no kept entry has the removed id; the cart never grows, and shrinks when the id was present (which entries are kept, and in what order, is stated by WithoutConcat and WithoutSnoc in general) |
| CartState.WithoutConcat | src/hooks/useCart.tsx:81-83 | the filter works entry by entry: filtering a concatenation is the concatenation of the filtered parts, for any cart, duplicates included |
| CartState.WithoutSnoc | src/hooks/useCart.tsx:81-83 | an entry is kept, at its place in the order, exactly when its id differs; every copy of the id is dropped |
| CartState.DesiredAmount | src/hooks/useCart.tsx:42 | one for an id not in the cart; otherwise the amount of the first entry with the id, plus one |
| CartState.FindAt | src/hooks/useCart.tsx:38-42 | in a cart with unique ids, the lookup finds the entry at that id's position, and the desired amount is that entry's amount plus one |
| CartState.WithoutAbsent | src/hooks/useCart.tsx:81-83 | filtering out an id that is absent leaves the cart as it was |
| CartState.WithoutAt | src/hooks/useCart.tsx:81-83 | when position k holds the only entry with the id, filtering out that id deletes exactly that entry; the others keep their order |
| CartState.AddStep | src/hooks/useCart.tsx:36-71 | add never ignores a call; a commit needs both lookups to succeed and the stock to cover the desired amount; a commit keeps every existing entry's id and details at its position and grows the cart by one exactly when the id was absent (exact results in AddExisting, AddNew, AddAborts) |
| CartState.AddExisting | src/hooks/useCart.tsx:38-62 | adding an id already in the cart, with stock for one more unit, commits the cart with only that entry's amount raised by one, in place |
| CartState.AddNew | src/hooks/useCart.tsx:42-63 | adding an absent id, with stock of at least one, commits the cart plus one entry at the end: the fetched product with amount one; ids stay unique when the catalogue answers with the requested id |
| CartState.AddAborts | src/hooks/useCart.tsx:42-70 | add never ignores a call; it commits exactly when both lookups succeed and the stock covers the desired amount; it rejects with out-of-stock exactly when the desired amount exceeds the stock; otherwise it rejects with the generic add error, even for an entry already in the cart |
| CartState.AddWithinStock | src/hooks/useCart.tsx:42-63 | after a committed add, the entry for the id holds exactly the desired amount, and that amount is no more than the stock observed during the call |
| CartState.AddKeepsWellFormed | src/hooks/useCart.tsx:57-63 | a committed add keeps ids unique and every amount at least one, when the catalogue answers with the requested id |
| CartState.RemoveStep | src/hooks/useCart.tsx:73-91 | remove is rejected, with the removal error, exactly when no entry has the id; a commit shortens the cart and leaves no entry with the id (exact result in RemovePresent) |
| CartState.RemoveAbsent | src/hooks/useCart.tsx:75-79 | removing an id not in the cart is rejected with the removal error |
| CartState.RemovePresent | src/hooks/useCart.tsx:75-83 | removing a present id commits the cart minus exactly that entry, the others in their order, one entry shorter |
| CartState.RemoveKeepsWellFormed | src/hooks/useCart.tsx:81-83 | a committed removal keeps ids unique and amounts at least one, and leaves no entry with the removed id |
| CartState.UpdateStep | src/hooks/useCart.tsx:93-117 | update is ignored exactly when the amount is not positive; a commit needs a successful stock lookup covering the amount, keeps the length and every entry's id and details, and sets exactly the entries with the id to the amount |
| CartState.UpdateIgnored | src/hooks/useCart.tsx:98 | update is a silent no-op exactly when the amount is zero or negative |
| CartState.UpdateRejected | src/hooks/useCart.tsx:100-105 | for a positive amount, a failed stock lookup rejects with the update error, and an amount above the stock rejects with out-of-stock |
| CartState.UpdatePresent | src/hooks/useCart.tsx:107-109 | updating a present id within stock commits the cart with only that entry's amount replaced, in place |
| CartState.UpdateAbsent | src/hooks/useCart.tsx:107-113 | updating an absent id within stock still commits, with the cart unchanged and no entry created |
| CartState.UpdateKeepsWellFormed | src/hooks/useCart.tsx:98-109 | a committed update keeps ids unique and every amount at least one |
| CartState.UpdateWithinStock | src/hooks/useCart.tsx:104-109 | after a committed update of a present id, its entry holds exactly the requested amount, and that amount is no more than the observed stock |
| CartState.ReplayKeepsWellFormed | src/hooks/useCart.tsx:36-117 | any sequence of add, remove and update calls, each run atomically, keeps ids unique and amounts at least one |
| CartState.Text | src/hooks/useCart.tsx:49-115 | no contract of its own: the exact notification strings of lines 49, 69, 89, 105 and 115; TextsDistinct states that they differ |
| CartState.TextsDistinct | src/hooks/useCart.tsx:49-115 | two different failure kinds show two different texts |
| Store.Hydrate | src/hooks/useCart.tsx:28-34 | an absent storage key gives the empty cart; a stored cart comes back unchanged |
| Store.CartStore.constructor | src/hooks/useCart.tsx:28-34 | the initial cart is the stored cart when the key is present, else empty; reloading from storage gives the in-memory cart |
| Store.CartStore.Commit | src/hooks/useCart.tsx:65-67 | the in-memory cart and the stored cart both become the new cart |
| Store.CartStore.AddProduct | src/hooks/useCart.tsx:36-71 | the call settles as the add decision says: on success memory and storage both hold the new cart and nothing is notified; on failure exactly one message is returned and memory and storage are unchanged; it keeps the invariants and the stock bound |
| Store.CartStore.RemoveProduct | src/hooks/useCart.tsx:73-91 | the call settles as the remove decision says; it keeps the invariants; afterwards no entry has the id, whether the call committed or failed |
| Store.CartStore.UpdateProductAmount | src/hooks/useCart.tsx:93-117 | the call settles as the update decision says; a non-positive amount changes nothing and notifies nothing; it keeps the invariants; on success a present entry holds exactly the amount, within stock |

## Left out

- React context, provider and `useCart` plumbing (lines 1-27, 119-132): UI wiring with no cart logic.
- The HTTP client (`api.get`): its answers are parameters, `Failed` or `Found(value)`. Waiting for them is not modelled.
- `toast.error`: modelled as the returned `Message`. `Text` gives the exact strings.
- JSON serialisation and `localStorage`: storage is the abstract `stored: Option<Cart>`. A stored blob that does not parse is not modelled. An empty-string blob, which the source treats like an absent key, is not distinguished.
- A storage write that throws (for example when the quota is exceeded) is not modelled. The commit is assumed to succeed.
- JavaScript `undefined`/`NaN` comparisons at lines 48 and 104: the stock amount is a natural number or the lookup failed. In the source, a stock answer without an amount lets both checks pass, and at line 104, which has no `?.`, an empty answer throws and ends in the update error.
- Amounts are integers. Fractional or `NaN` amounts passed to `updateProductAmount` are not modelled.
- Overlapping asynchronous calls, and the lost update that follows when two calls read the same cart: each operation is atomic.
- Product display fields (title, price, image) are one opaque `details` string, carried through unchanged.
- CartState.AddKeepsWellFormed: ids stay unique after an append only when the catalogue answers with the requested id. The source spreads the fetched product into the new entry, so the entry takes the catalogue's id, and the source makes no check.
