/** What the cart reducer guarantees, action by action, and the invariant it
    keeps. Positions are stated for the first item carrying the id; in a
    valid cart that is the only one (`OnlyMatch`). */
module CartProperties {
  import opened Find
  import opened ShoppingCart

  /** In a valid cart, an item with the id is the first item with that id. */
  lemma OnlyMatch(items: seq<CartItem>, id: ProductId, k: int)
    requires ValidCart(items)
    requires 0 <= k < |items| && items[k].id == id
    ensures forall j :: 0 <= j < k ==> items[j].id != id
    ensures FirstIndex(items, ItemHasId(id)) == k
  {
  }

  /** Adding an id already in the cart keeps the length, raises that item's
      quantity by exactly one, and leaves every other field and item as it was. */
  lemma AddExistingItem(state: CartState, id: ProductId, catalog: seq<Product>, k: int)
    requires 0 <= k < |state.items| && state.items[k].id == id
    requires forall j :: 0 <= j < k ==> state.items[j].id != id
    ensures Reduce(state, AddItemToCart(id), catalog).Ok?
    ensures var items := Reduce(state, AddItemToCart(id), catalog).value.items;
      |items| == |state.items| &&
      items[k].quantity == state.items[k].quantity + 1 &&
      items[k].id == id &&
      items[k].name == state.items[k].name &&
      items[k].price == state.items[k].price &&
      forall j :: 0 <= j < |items| && j != k ==> items[j] == state.items[j]
  {
  }

  /** Adding an id that is not in the cart appends exactly one item, at the
      end, with quantity 1 and the name and price of the id's (first) catalog
      entry; the earlier items are kept as they were. */
  lemma AddNewItem(state: CartState, id: ProductId, catalog: seq<Product>, k: int)
    requires forall j :: 0 <= j < |state.items| ==> state.items[j].id != id
    requires 0 <= k < |catalog| && catalog[k].id == id
    requires forall j :: 0 <= j < k ==> catalog[j].id != id
    ensures Reduce(state, AddItemToCart(id), catalog).Ok?
    ensures var items := Reduce(state, AddItemToCart(id), catalog).value.items;
      |items| == |state.items| + 1 &&
      items[..|state.items|] == state.items &&
      items[|state.items|] == CartItem(id, catalog[k].title, catalog[k].price, 1)
  {
  }

  /** Adding an id found neither in the cart nor in the catalog fails. */
  lemma AddUnknownProduct(state: CartState, id: ProductId, catalog: seq<Product>)
    requires forall j :: 0 <= j < |state.items| ==> state.items[j].id != id
    requires forall j :: 0 <= j < |catalog| ==> catalog[j].id != id
    ensures Reduce(state, AddItemToCart(id), catalog) == Err(ProductNotFound(id))
  {
  }

  /** An update that leaves the quantity positive keeps the length and the
      item's position, sets its quantity to old + amount, keeps its other
      fields, and leaves every other item as it was. */
  lemma UpdateKeepsItem(state: CartState, id: ProductId, amount: int, catalog: seq<Product>, k: int)
    requires 0 <= k < |state.items| && state.items[k].id == id
    requires forall j :: 0 <= j < k ==> state.items[j].id != id
    requires state.items[k].quantity + amount > 0
    ensures Reduce(state, UpdateItemQuantity(id, amount), catalog).Ok?
    ensures var items := Reduce(state, UpdateItemQuantity(id, amount), catalog).value.items;
      |items| == |state.items| &&
      items[k].quantity == state.items[k].quantity + amount &&
      items[k].id == id &&
      items[k].name == state.items[k].name &&
      items[k].price == state.items[k].price &&
      forall j :: 0 <= j < |items| && j != k ==> items[j] == state.items[j]
  {
  }

  /** An update that brings the quantity to zero or below removes exactly
      that item: the length drops by one, the items before it stay in place,
      the items after it move up by one, and in a valid cart no item with
      the id remains. */
  lemma UpdateRemovesItem(state: CartState, id: ProductId, amount: int, catalog: seq<Product>, k: int)
    requires 0 <= k < |state.items| && state.items[k].id == id
    requires forall j :: 0 <= j < k ==> state.items[j].id != id
    requires state.items[k].quantity + amount <= 0
    ensures Reduce(state, UpdateItemQuantity(id, amount), catalog).Ok?
    ensures var items := Reduce(state, UpdateItemQuantity(id, amount), catalog).value.items;
      |items| == |state.items| - 1 &&
      (forall j :: 0 <= j < k ==> items[j] == state.items[j]) &&
      (forall j :: k <= j < |items| ==> items[j] == state.items[j + 1]) &&
      (ValidCart(state.items) ==> forall j :: 0 <= j < |items| ==> items[j].id != id)
  {
  }

  /** An update for an id not in the cart leaves the items as they were (the
      source's write lands on the array's `-1` property, not on an element). */
  lemma UpdateUnknownItem(state: CartState, id: ProductId, amount: int, catalog: seq<Product>)
    requires forall j :: 0 <= j < |state.items| ==> state.items[j].id != id
    ensures Reduce(state, UpdateItemQuantity(id, amount), catalog) == Ok(state)
  {
  }

  /** Any other action type returns the state unchanged. */
  lemma OtherActionIsIdentity(state: CartState, catalog: seq<Product>)
    ensures Reduce(state, Other, catalog) == Ok(state)
  {
  }

  /** Adding keeps the cart invariant: an item is appended only when no item
      carries its id, and it starts at quantity 1. */
  lemma AddPreservesValidCart(items: seq<CartItem>, id: ProductId, catalog: seq<Product>)
    requires ValidCart(items)
    requires ApplyAdd(items, id, catalog).Ok?
    ensures ValidCart(ApplyAdd(items, id, catalog).value)
  {
  }

  /** Updating keeps the cart invariant: an item whose quantity would drop
      to zero or below is spliced out, and splicing keeps ids distinct. */
  lemma UpdatePreservesValidCart(items: seq<CartItem>, id: ProductId, amount: int)
    requires ValidCart(items)
    ensures ValidCart(ApplyUpdate(items, id, amount))
  {
  }

  /** Every action keeps the cart invariant: ids pairwise distinct and
      every quantity at least 1. */
  lemma ReducePreservesValidCart(state: CartState, action: Action, catalog: seq<Product>)
    requires ValidCart(state.items)
    requires Reduce(state, action, catalog).Ok?
    ensures ValidCart(Reduce(state, action, catalog).value.items)
  {
  }

  /** Decrementing by one right after adding undoes the add, in a valid
      cart: a new item is appended with quantity 1 and then spliced out; an
      existing one goes from q to q + 1 and back to q >= 1. */
  lemma DecrementUndoesAdd(state: CartState, id: ProductId, catalog: seq<Product>)
    requires ValidCart(state.items)
    requires Reduce(state, AddItemToCart(id), catalog).Ok?
    ensures Reduce(Reduce(state, AddItemToCart(id), catalog).value, UpdateItemQuantity(id, -1), catalog) == Ok(state)
  {
    var items := state.items;
    var added := Reduce(state, AddItemToCart(id), catalog).value.items;
    var i := FirstIndex(items, ItemHasId(id));
    if i >= 0 {
      assert added[i].id == id;
      assert FirstIndex(added, ItemHasId(id)) == i by {
        assert ItemHasId(id)(added[i]);
        assert forall j :: 0 <= j < i ==> added[j] == items[j];
      }
      assert added[i := items[i]] == items;
    } else {
      var n := |items|;
      assert added[n].id == id;
      assert FirstIndex(added, ItemHasId(id)) == n by {
        assert ItemHasId(id)(added[n]);
        assert forall j :: 0 <= j < n ==> added[j] == items[j];
      }
      assert added[..n] + added[n + 1..] == items;
    }
  }

  /** The worked scenario from the empty cart: add p, add p, update(p, -1),
      update(p, -1) takes p's quantity 1, 2, 1 and leaves the cart empty. */
  lemma AddAddDecrementDecrement(id: ProductId, catalog: seq<Product>, k: int)
    requires 0 <= k < |catalog| && catalog[k].id == id
    requires forall j :: 0 <= j < k ==> catalog[j].id != id
    ensures var item := CartItem(id, catalog[k].title, catalog[k].price, 1);
      Reduce(CartState([]), AddItemToCart(id), catalog) == Ok(CartState([item])) &&
      Reduce(CartState([item]), AddItemToCart(id), catalog) == Ok(CartState([item.(quantity := 2)])) &&
      Reduce(CartState([item.(quantity := 2)]), UpdateItemQuantity(id, -1), catalog) == Ok(CartState([item])) &&
      Reduce(CartState([item]), UpdateItemQuantity(id, -1), catalog) == Ok(CartState([]))
  {
    var item := CartItem(id, catalog[k].title, catalog[k].price, 1);
    AddNewItem(CartState([]), id, catalog, k);
    assert [item][..0] + [item][1..] == [];
    assert FirstIndex([item], ItemHasId(id)) == 0 by {
      assert ItemHasId(id)(item);
    }
    assert FirstIndex([item.(quantity := 2)], ItemHasId(id)) == 0 by {
      assert ItemHasId(id)(item.(quantity := 2));
    }
    assert [item][0 := item.(quantity := 2)] == [item.(quantity := 2)];
    assert [item.(quantity := 2)][0 := item] == [item];
  }

  /** The same scenario on a one-product catalog, with concrete values. */
  lemma WidgetScenario()
    ensures var catalog := [Product("p1", "Widget", 999)];
      var widget := CartItem("p1", "Widget", 999, 1);
      Reduce(CartState([]), AddItemToCart("p1"), catalog) == Ok(CartState([widget])) &&
      Reduce(CartState([widget]), AddItemToCart("p1"), catalog) == Ok(CartState([widget.(quantity := 2)])) &&
      Reduce(CartState([widget.(quantity := 2)]), UpdateItemQuantity("p1", -1), catalog) == Ok(CartState([widget])) &&
      Reduce(CartState([widget]), UpdateItemQuantity("p1", -1), catalog) == Ok(CartState([]))
  {
    AddAddDecrementDecrement("p1", [Product("p1", "Widget", 999)], 0);
  }
}
