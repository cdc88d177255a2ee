# Shopping-cart reducer, modelled in Dafny

This is a model of the cart logic of a small React shop (`simple-shop`). The
cart state is an ordered list of items `{id, name, price, quantity}`. The
reducer `shoppingCartReducer` maps the current state and a dispatched action
to the next state:

- `ADD_ITEM_TO_CART(id)` raises the quantity of the item with that id by one.
  If the cart has no such item, it appends a new item built from the catalog
  entry, with quantity 1.
- `UPDATE_ITEM_QUANTITY(id, amount)` adds a signed `amount` to the item's
  quantity. It splices the item out when the result is zero or below.
  Otherwise it writes the updated item back at the same index.
- Any other action type returns the state unchanged.

Files:

- `find.dfy` (module `Find`): JavaScript's `findIndex`. `FirstIndex` is its
  specification (first match, or -1). `FindIndex` is the left-to-right scan.
- `cart.dfy` (module `ShoppingCart`): the entities (`CartItem`, `Product`,
  `CartState`, `Action`, `CartError`) and the cart invariant `ValidCart`.
  The reducer's specification is the functions `ApplyAdd`, `ApplyUpdate` and
  `Reduce`. `ShoppingCartReducer` is the reducer as the source writes it: it
  copies the item list and then rebuilds the copy by an index write, a push
  or a splice. Its contract ties its result to `Reduce`.
- `cart_properties.dfy` (module `CartProperties`): what each action does to
  the cart, that every action keeps the invariant, that a decrement undoes an
  add, and the worked add/add/decrement/decrement scenario.

The product catalog (`DUMMY_PRODUCTS`, from a module that is not part of this
model) is a parameter: a sequence of `Product(id, title, price)`. Like
JavaScript's `find`, the lookup takes the first entry with the id.

On a missing id the model follows the code:

- Adding an id that is in neither the cart nor the catalog makes the source
  throw when it reads `product.title` (line 37). The model returns
  `Err(ProductNotFound(id))`.
- Updating an id that is not in the cart does not throw. `findIndex` gives
  -1, and the spread of `undefined` gives `{}`. Then `undefined + amount` is
  `NaN`, and `NaN <= 0` is false. So the source stores the copy under the
  array's `-1` property (line 64), which leaves every element as it was. The
  model returns the state with the same items. A stricter reimplementation
  would fail with `NotFound` here; the model keeps the code's behaviour.

## Model

The specification functions `ShoppingCart.ApplyAdd`, `ShoppingCart.ApplyUpdate`
and `ShoppingCart.Reduce` carry no contract of their own. What they promise is
stated by the `CartProperties` lemmas in the rows below, one lemma per branch.

| member | source | states |
|---|---|---|
| `Find.FirstIndex` | src/store/shopping-cart-context.jsx:22-24 | the result is -1 exactly when no element matches; otherwise it is an index whose element matches and no earlier element matches |
| `Find.FindIndex` | src/store/shopping-cart-context.jsx:51-53 | the left-to-right scan returns the first matching index, or -1 when there is none |
| `ShoppingCart.ShoppingCartReducer` | src/store/shopping-cart-context.jsx:18-74 | the step-by-step reducer on a copy of the items computes exactly the next state `Reduce` specifies; the state is a value, so the caller's copy stays as it was |
| `CartProperties.OnlyMatch` | src/store/shopping-cart-context.jsx:22-27 | in a cart with distinct ids, an item with the id is the one `findIndex` finds |
| `CartProperties.AddExistingItem` | src/store/shopping-cart-context.jsx:22-32 | adding an id already in the cart succeeds, keeps the length, raises that item's quantity by exactly 1, keeps its id, name and price, and leaves every other position unchanged |
| `CartProperties.AddNewItem` | src/store/shopping-cart-context.jsx:33-40 | adding an id not in the cart appends exactly one item at the end, with quantity 1 and the title and price of the first catalog entry with that id; the earlier items are unchanged |
| `CartProperties.AddUnknownProduct` | src/store/shopping-cart-context.jsx:34-37 | adding an id found in neither the cart nor the catalog yields the `ProductNotFound` error |
| `CartProperties.UpdateKeepsItem` | src/store/shopping-cart-context.jsx:55-64 | when old quantity + amount > 0, the length is kept, the item stays at its index with quantity old + amount and its other fields unchanged, and every other item is unchanged |
| `CartProperties.UpdateRemovesItem` | src/store/shopping-cart-context.jsx:61-62 | when old quantity + amount <= 0, exactly that item is removed: the length drops by one, earlier items stay in place, later items move up by one in order, and in a valid cart no item with that id remains |
| `CartProperties.UpdateUnknownItem` | src/store/shopping-cart-context.jsx:51-64 | updating an id that is not in the cart leaves the items as they were |
| `CartProperties.OtherActionIsIdentity` | src/store/shopping-cart-context.jsx:73 | an action of any other type returns the state unchanged |
| `CartProperties.AddPreservesValidCart` | src/store/shopping-cart-context.jsx:19-41 | adding keeps ids pairwise distinct and every quantity at least 1, because it appends only an id it did not find |
| `CartProperties.UpdatePreservesValidCart` | src/store/shopping-cart-context.jsx:49-65 | updating keeps ids pairwise distinct and every quantity at least 1, because it removes any item that would drop to 0 or below |
| `CartProperties.ReducePreservesValidCart` | src/store/shopping-cart-context.jsx:18-74 | every action that succeeds maps a valid cart to a valid cart |
| `CartProperties.DecrementUndoesAdd` | src/store/shopping-cart-context.jsx:19-71 | in a valid cart, `UPDATE_ITEM_QUANTITY(id, -1)` right after a successful `ADD_ITEM_TO_CART(id)` gives back the original state |
| `CartProperties.AddAddDecrementDecrement` | src/store/shopping-cart-context.jsx:19-71 | from the empty cart, add, add, update by -1, update by -1 takes the quantity 1, 2, 1 and ends with the empty cart |
| `CartProperties.WidgetScenario` | src/store/shopping-cart-context.jsx:19-71 | the same scenario with catalog entry `p1` / `Widget` / 999 cents |

## Left out

- The React plumbing: `CartContext`, `CartContextProvider`, `useReducer` and the dispatch wrappers `handleAddItemToCart` and `handleUpdateCartItemQuantity` (src/store/shopping-cart-context.jsx:4-8, 76-126). They only forward actions to the reducer.
- `src/App.jsx`: component composition and rendering, with no logic.
- The catalog module `dummy-products` is not part of this model. The catalog is a parameter.
- Floating-point prices: the reducer only copies `price`. The model holds it as an integer number of cents.
- Quantities and amounts are unbounded integers. JavaScript numbers are doubles, and a non-numeric `amount` is not modelled.
- Aliasing: the state is a value. The copies `[...state.items]` (lines 20, 50) and `{...state}` (lines 44, 68) are implicit, and the model has no shared references that could be changed.
- The state has only the `items` field. Updates use `state.(items := ...)`, so any other field would be carried through as `...state` does.
- UpdateUnknownItem: the stray `-1` property that the source adds to the returned array is not modelled. Only the elements are.
- Action type tags are a datatype. The strings `"ADD_ITEM_TO_CART"` and `"UPDATE_ITEM_QUANTITY"`, and the source's mix of `===` and `==` when comparing them, are not modelled.
