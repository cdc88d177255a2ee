/** The shopping-cart state and its reducer: the next cart state computed
    from the current one and a dispatched action. */
module ShoppingCart {
  import opened Find

  type ProductId = string

  /** A line of the cart. `price` is only ever copied from the catalog,
      never computed on; it is held as an integer number of cents. */
  datatype CartItem = CartItem(id: ProductId, name: string, price: int, quantity: int)

  /** A catalog entry, as read from the product list. */
  datatype Product = Product(id: ProductId, title: string, price: int)

  /** The reducer's state: the ordered list of cart items. */
  datatype CartState = CartState(items: seq<CartItem>)

  /** The actions the reducer is dispatched with. `Other` stands for every
      action whose type tag is neither of the two the reducer knows; the tag
      itself plays no part, so it is not kept. */
  datatype Action =
    | AddItemToCart(productId: ProductId)
    | UpdateItemQuantity(productId: ProductId, amount: int)
    | Other

  /** The one failure: adding an id that is neither in the cart nor in the
      catalog, where the source reads `title` of an undefined product. */
  datatype CartError = ProductNotFound(id: ProductId)

  datatype Result<T> = Ok(value: T) | Err(error: CartError)

  /** The predicate handed to `findIndex` over the cart. */
  function ItemHasId(id: ProductId): CartItem -> bool {
    (item: CartItem) => item.id == id
  }

  /** The predicate handed to `find` over the catalog. */
  function ProductHasId(id: ProductId): Product -> bool {
    (product: Product) => product.id == id
  }

  /** The cart invariant: ids pairwise distinct, every quantity at least 1. */
  predicate ValidCart(items: seq<CartItem>) {
    (forall i, j :: 0 <= i < j < |items| ==> items[i].id != items[j].id) &&
    (forall i :: 0 <= i < |items| ==> items[i].quantity >= 1)
  }

  /** `ADD_ITEM_TO_CART` on the item list: bump the quantity of the item
      with this id, or append a fresh line built from the catalog entry. */
  function ApplyAdd(items: seq<CartItem>, id: ProductId, catalog: seq<Product>): Result<seq<CartItem>> {
    var i := FirstIndex(items, ItemHasId(id));
    if i >= 0 then
      Ok(items[i := items[i].(quantity := items[i].quantity + 1)])
    else
      var k := FirstIndex(catalog, ProductHasId(id));
      if k < 0 then Err(ProductNotFound(id))
      else Ok(items + [CartItem(id, catalog[k].title, catalog[k].price, 1)])
  }

  /** `UPDATE_ITEM_QUANTITY` on the item list: shift the item's quantity by
      `amount`, dropping the item when it falls to zero or below. When no
      item has this id, the source writes to the array's `-1` property, which
      leaves every element as it was. */
  function ApplyUpdate(items: seq<CartItem>, id: ProductId, amount: int): seq<CartItem> {
    var i := FirstIndex(items, ItemHasId(id));
    if i < 0 then items
    else
      var q := items[i].quantity + amount;
      if q <= 0 then items[..i] + items[i + 1..]
      else items[i := items[i].(quantity := q)]
  }

  /** The reducer as a function of the old state and the action. */
  function Reduce(state: CartState, action: Action, catalog: seq<Product>): Result<CartState> {
    match action
    case AddItemToCart(id) =>
      (match ApplyAdd(state.items, id, catalog)
       case Ok(items) => Ok(state.(items := items))
       case Err(e) => Err(e))
    case UpdateItemQuantity(id, amount) => Ok(state.(items := ApplyUpdate(state.items, id, amount)))
    case Other => Ok(state)
  }

  /** The reducer as the source writes it: copy the item list, locate the
      item with `findIndex`, then rebuild the copy by an index write, a push
      or a splice. The state is a value, so the caller's state stays as it
      was; the result is the specification's next state. */
  method ShoppingCartReducer(state: CartState, action: Action, catalog: seq<Product>)
    returns (r: Result<CartState>)
    ensures r == Reduce(state, action, catalog)
  {
    match action {
      case AddItemToCart(id) =>
        var updatedItems := state.items;
        var existingIndex := FindIndex(updatedItems, ItemHasId(id));
        if existingIndex >= 0 {
          var existing := updatedItems[existingIndex];
          updatedItems := updatedItems[existingIndex := existing.(quantity := existing.quantity + 1)];
        } else {
          var k := FindIndex(catalog, ProductHasId(id));
          if k < 0 {
            return Err(ProductNotFound(id));
          }
          var product := catalog[k];
          updatedItems := updatedItems + [CartItem(id, product.title, product.price, 1)];
        }
        r := Ok(state.(items := updatedItems));
      case UpdateItemQuantity(id, amount) =>
        var updatedItems := state.items;
        var updatedIndex := FindIndex(updatedItems, ItemHasId(id));
        if updatedIndex >= 0 {
          var updatedItem := updatedItems[updatedIndex];
          updatedItem := updatedItem.(quantity := updatedItem.quantity + amount);
          if updatedItem.quantity <= 0 {
            updatedItems := updatedItems[..updatedIndex] + updatedItems[updatedIndex + 1..];
          } else {
            updatedItems := updatedItems[updatedIndex := updatedItem];
          }
        }
        r := Ok(state.(items := updatedItems));
      case Other =>
        r := Ok(state);
    }
  }
}
