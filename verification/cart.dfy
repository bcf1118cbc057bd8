/** The session cart: a dict from sku to an entry holding a snapshot of the brand and
    sale price taken when the sku was first added, and the accumulated quantity. The
    cart is passed in and returned instead of living in the session object. */
module Cart {
  import opened Options
  import opened Dicts
  import opened Inventory

  datatype CartEntry = CartEntry(brand: string, sku: string, sp: int, qty: int)

  type Cart = Dict<string, CartEntry>

  /** `add_to_cart` answers "Invalid SKU" with status 400 and does not write the session. */
  datatype CartError = InvalidSku

  /** The entry created when a sku is first added: brand, sku and sale price copied from
      the inventory record. */
  function Snapshot(item: Item, qty: int): CartEntry {
    CartEntry(item.brand, item.sku, item.finalsp, qty)
  }

  /** `sp * qty` of one entry. */
  function LineTotal(e: CartEntry): int {
    e.sp * e.qty
  }

  /** A cart whose entries all describe the sku they are stored under. */
  predicate SkuKeyedCart(cart: Cart) {
    forall k :: k in cart.entries ==> cart.entries[k].sku == k
  }

  /** `add_to_cart`: the sku must exist in the inventory; nothing else is checked. The
      quantity may be zero or negative and may exceed the stock. */
  function AddToCart(inv: Inventory, cart: Cart, sku: string, qty: int): (r: Result<Cart, CartError>)
    requires cart.Valid()
    ensures r.Failure? <==> sku !in inv
    ensures r.Success? ==>
      && r.value.Valid()
      && r.value.entries.Keys == cart.entries.Keys + {sku}
      && (forall k :: k in cart.entries && k != sku ==> r.value.entries[k] == cart.entries[k])
    ensures r.Success? && sku in cart.entries ==>
      r.value.entries[sku] == cart.entries[sku].(qty := cart.entries[sku].qty + qty)
    ensures r.Success? && sku !in cart.entries ==>
      r.value.entries[sku] == CartEntry(inv[sku].brand, inv[sku].sku, inv[sku].finalsp, qty)
    ensures r.Success? && SkuKeyed(inv) && SkuKeyedCart(cart) ==> SkuKeyedCart(r.value)
  {
    if sku !in inv then Failure(InvalidSku)
    else if sku in cart.entries then
      var e := cart.entries[sku];
      Success(Put(cart, sku, e.(qty := e.qty + qty)))
    else
      Success(Put(cart, sku, Snapshot(inv[sku], qty)))
  }

  /** `remove_from_cart`: deletes the entry when present. */
  function RemoveFromCart(cart: Cart, sku: string): (r: Cart)
    requires cart.Valid()
    ensures r.Valid()
    ensures r.entries.Keys == cart.entries.Keys - {sku}
    ensures forall k :: k in r.entries ==> r.entries[k] == cart.entries[k]
    ensures sku !in cart.entries ==> r == cart
  {
    Delete(cart, sku)
  }

  /** The sum of the line totals of the given keys' entries, in the given order. */
  function SumLines(keys: seq<string>, entries: map<string, CartEntry>): (r: int)
    requires forall k :: k in keys ==> k in entries
    ensures keys == [] ==> r == 0
  {
    if keys == [] then 0
    else SumLines(keys[..|keys| - 1], entries) + LineTotal(entries[keys[|keys| - 1]])
  }

  /** The grand total shown by `view_cart`. */
  function Total(cart: Cart): (r: int)
    requires cart.Valid()
    ensures cart.entries == map[] ==> r == 0
  {
    assert cart.entries == map[] ==> cart.order == [] by {
      if cart.order != [] {
        assert cart.order[0] in cart.entries;
      }
    }
    SumLines(cart.order, cart.entries)
  }

  // ---------------------------------------------------------------------------
  // Properties

  /** Removing twice is removing once. */
  lemma {:induction false} RemoveIdempotent(cart: Cart, sku: string)
    requires cart.Valid()
    ensures RemoveFromCart(RemoveFromCart(cart, sku), sku) == RemoveFromCart(cart, sku)
  {
  }

  /** Adding a sku that was not in the cart and removing it again gives back the cart
      exactly, entry order included. */
  lemma {:induction false} RemoveUndoesFreshAdd(inv: Inventory, cart: Cart, sku: string, qty: int)
    requires cart.Valid()
    requires sku in inv && sku !in cart.entries
    ensures RemoveFromCart(AddToCart(inv, cart, sku, qty).value, sku) == cart
  {
  }

  /** Two adds of the same sku are one add of the summed quantity: one entry, with the
      price snapshot of the first add. */
  lemma {:induction false} AddsAccumulate(inv: Inventory, cart: Cart, sku: string, a: int, b: int)
    requires cart.Valid()
    requires sku in inv
    ensures AddToCart(inv, AddToCart(inv, cart, sku, a).value, sku, b) == AddToCart(inv, cart, sku, a + b)
  {
    var once := AddToCart(inv, cart, sku, a).value;
    var e := once.entries[sku];
    assert e.(qty := e.qty + b) == (if sku in cart.entries then cart.entries[sku] else Snapshot(inv[sku], 0)).(qty := e.qty + b);
    assert once.entries[sku := e.(qty := e.qty + b)] == cart.entries[sku := e.(qty := e.qty + b)];
  }

  /** Adding `qty` of a sku raises the total by `qty` times that sku's price in the cart:
      the snapshot already there, or the inventory's sale price for a new entry. */
  lemma {:induction false} TotalAfterAdd(inv: Inventory, cart: Cart, sku: string, qty: int)
    requires cart.Valid()
    requires sku in inv
    ensures var sp := if sku in cart.entries then cart.entries[sku].sp else inv[sku].finalsp;
            Total(AddToCart(inv, cart, sku, qty).value) == Total(cart) + sp * qty
  {
    var c' := AddToCart(inv, cart, sku, qty).value;
    if sku in cart.entries {
      var e := cart.entries[sku];
      SumLinesUpdate(cart.order, cart.entries, sku, e.(qty := e.qty + qty));
      assert e.sp * (e.qty + qty) == e.sp * e.qty + e.sp * qty;
    } else {
      assert c'.order[..|c'.order| - 1] == cart.order;
      SumLinesUnaffected(cart.order, cart.entries, sku, Snapshot(inv[sku], qty));
    }
  }

  /** Removing a sku lowers the total by that entry's line total; removing an absent
      sku leaves it. */
  lemma {:induction false} TotalAfterRemove(cart: Cart, sku: string)
    requires cart.Valid()
    ensures Total(RemoveFromCart(cart, sku)) ==
            Total(cart) - (if sku in cart.entries then LineTotal(cart.entries[sku]) else 0)
  {
    if sku in cart.entries {
      SumLinesWithout(cart.order, cart.entries, sku);
      SumLinesAgree(Without(cart.order, sku), cart.entries, cart.entries - {sku});
    }
  }

  /** Changing an entry whose key is not listed does not change the sum. */
  lemma {:induction false} SumLinesUnaffected(keys: seq<string>, entries: map<string, CartEntry>, k: string, e: CartEntry)
    requires forall x :: x in keys ==> x in entries
    requires k !in keys
    ensures SumLines(keys, entries[k := e]) == SumLines(keys, entries)
  {
    if keys != [] {
      SumLinesUnaffected(keys[..|keys| - 1], entries, k, e);
    }
  }

  /** Changing the entry of a key listed once changes the sum by the difference of the
      two line totals. */
  lemma {:induction false} SumLinesUpdate(keys: seq<string>, entries: map<string, CartEntry>, k: string, e: CartEntry)
    requires forall x :: x in keys ==> x in entries
    requires Distinct(keys) && k in keys
    ensures SumLines(keys, entries[k := e]) == SumLines(keys, entries) - LineTotal(entries[k]) + LineTotal(e)
  {
    var init := keys[..|keys| - 1];
    if keys[|keys| - 1] == k {
      assert k !in init;
      SumLinesUnaffected(init, entries, k, e);
    } else {
      SumLinesUpdate(init, entries, k, e);
    }
  }

  /** Dropping a key listed once from the order lowers the sum by its line total. */
  lemma {:induction false} SumLinesWithout(keys: seq<string>, entries: map<string, CartEntry>, k: string)
    requires forall x :: x in keys ==> x in entries
    requires Distinct(keys) && k in keys
    ensures SumLines(Without(keys, k), entries) == SumLines(keys, entries) - LineTotal(entries[k])
  {
    var init := keys[..|keys| - 1];
    var last := keys[|keys| - 1];
    assert SumLines(keys, entries) == SumLines(init, entries) + LineTotal(entries[last]);
    if last == k {
      assert k !in init;
      assert Without(keys, k) == Without(init, k) == init;
    } else {
      assert k in init;
      SumLinesWithout(init, entries, k);
      var w := Without(init, k);
      assert Without(keys, k) == w + [last];
      assert (w + [last])[..|w|] == w;
      assert SumLines(w + [last], entries) == SumLines(w, entries) + LineTotal(entries[last]);
    }
  }

  /** The sum reads only the entries of the listed keys. */
  lemma {:induction false} SumLinesAgree(keys: seq<string>, m1: map<string, CartEntry>, m2: map<string, CartEntry>)
    requires forall x :: x in keys ==> x in m1 && x in m2 && m1[x] == m2[x]
    ensures SumLines(keys, m1) == SumLines(keys, m2)
  {
    if keys != [] {
      SumLinesAgree(keys[..|keys| - 1], m1, m2);
    }
  }
}
