/** `submit_order`: the cart becomes rows of the `orders` ledger, each sku's stock is
    decremented by its cart quantity, and the cart is cleared. */
module Orders {
  import opened Dicts
  import opened Inventory
  import opened Cart

  datatype OrderRow = OrderRow(
    timestamp: string, customerName: string, mobile: string, sku: string,
    sp: int, quantity: int, total: int, paymentMode: string)

  /** The two tables: the inventory, and the order ledger in insertion order. */
  datatype Store = Store(inventory: Inventory, orders: seq<OrderRow>)

  /** The fields of the checkout form. */
  datatype Customer = Customer(name: string, mobile: string, payment: string)

  datatype Committed = Committed(store: Store, cart: Cart)

  /** `row` records the sale of cart entry `e`, stored under `sku`, to customer `c` at
      time `timestamp`, with the total computed from the recorded price and quantity. */
  predicate IsOrderLine(row: OrderRow, timestamp: string, c: Customer, sku: string, e: CartEntry) {
    && row.timestamp == timestamp
    && row.customerName == c.name
    && row.mobile == c.mobile
    && row.paymentMode == c.payment
    && row.sku == sku
    && row.sp == e.sp
    && row.quantity == e.qty
    && row.total == row.quantity * row.sp
  }

  /** `inv` after `UPDATE inventory SET quantity = quantity - qty WHERE sku = ?`:
      no lower bound, and no change when the sku is not in the table. */
  function Decrement(inv: Inventory, sku: string, qty: int): Inventory {
    if sku in inv then inv[sku := inv[sku].(quantity := inv[sku].quantity - qty)] else inv
  }

  /** The body of the checkout loop run over `keys`, in order: one INSERT into `orders`
      and one decrement per key. */
  function CommitLines(s: Store, keys: seq<string>, entries: map<string, CartEntry>, c: Customer, timestamp: string): (r: Store)
    requires forall k :: k in keys ==> k in entries
    requires Distinct(keys)
    ensures |r.orders| == |s.orders| + |keys|
    ensures r.orders[..|s.orders|] == s.orders
    ensures forall i :: 0 <= i < |keys| ==>
      IsOrderLine(r.orders[|s.orders| + i], timestamp, c, keys[i], entries[keys[i]])
    ensures r.inventory.Keys == s.inventory.Keys
    ensures forall k :: k in s.inventory ==>
      r.inventory[k] ==
        if k in keys then s.inventory[k].(quantity := s.inventory[k].quantity - entries[k].qty)
        else s.inventory[k]
  {
    if keys == [] then s
    else
      var init := keys[..|keys| - 1];
      var sku := keys[|keys| - 1];
      var prev := CommitLines(s, init, entries, c, timestamp);
      var e := entries[sku];
      var row := OrderRow(timestamp, c.name, c.mobile, sku, e.sp, e.qty, e.qty * e.sp, c.payment);
      assert sku !in init;
      Store(Decrement(prev.inventory, sku, e.qty), prev.orders + [row])
  }

  /** `submit_order`: rows for the cart entries in cart order, all with the one
      timestamp, appended after the existing ledger; each cart sku's stock reduced by
      exactly its cart quantity, possibly below zero; other records and earlier rows
      untouched; the cart emptied. An empty cart commits nothing and is not an error. */
  function SubmitOrder(s: Store, cart: Cart, c: Customer, timestamp: string): (r: Committed)
    requires cart.Valid()
    ensures r.cart.entries == map[] && r.cart.order == []
    ensures |r.store.orders| == |s.orders| + |cart.entries| == |s.orders| + |cart.order|
    ensures r.store.orders[..|s.orders|] == s.orders
    ensures forall i :: 0 <= i < |cart.order| ==>
      IsOrderLine(r.store.orders[|s.orders| + i], timestamp, c, cart.order[i], cart.entries[cart.order[i]])
    ensures r.store.inventory.Keys == s.inventory.Keys
    ensures forall k :: k in s.inventory ==>
      r.store.inventory[k] ==
        if k in cart.entries
        then s.inventory[k].(quantity := s.inventory[k].quantity - cart.entries[k].qty)
        else s.inventory[k]
    ensures SkuKeyed(s.inventory) ==> SkuKeyed(r.store.inventory)
  {
    DistinctCardinality(cart);
    Committed(CommitLines(s, cart.order, cart.entries, c, timestamp), Empty())
  }

  /** The sum of the `total` column of `rows`. */
  function SumTotals(rows: seq<OrderRow>): int {
    if rows == [] then 0 else SumTotals(rows[..|rows| - 1]) + rows[|rows| - 1].total
  }

  /** The rows one checkout appends add up to the cart total the customer was shown. */
  lemma {:induction false} CheckoutTotalIsCartTotal(s: Store, cart: Cart, c: Customer, timestamp: string)
    requires cart.Valid()
    ensures SumTotals(SubmitOrder(s, cart, c, timestamp).store.orders[|s.orders|..]) == Total(cart)
  {
    CommitLinesTotal(s, cart.order, cart.entries, c, timestamp);
  }

  lemma {:induction false} CommitLinesTotal(s: Store, keys: seq<string>, entries: map<string, CartEntry>, c: Customer, timestamp: string)
    requires forall k :: k in keys ==> k in entries
    requires Distinct(keys)
    ensures SumTotals(CommitLines(s, keys, entries, c, timestamp).orders[|s.orders|..]) == SumLines(keys, entries)
  {
    var added := CommitLines(s, keys, entries, c, timestamp).orders[|s.orders|..];
    if keys == [] {
      assert added == [];
    } else {
      var init := keys[..|keys| - 1];
      var prevAdded := CommitLines(s, init, entries, c, timestamp).orders[|s.orders|..];
      CommitLinesTotal(s, init, entries, c, timestamp);
      assert added[..|added| - 1] == prevAdded;
      var e := entries[keys[|keys| - 1]];
      assert added[|added| - 1].total == e.qty * e.sp;
    }
  }

  /** The checkout performs no stock check: a cart quantity above the stock leaves the
      record with negative quantity. */
  lemma {:induction false} CheckoutMayOversell(s: Store, cart: Cart, c: Customer, timestamp: string, sku: string)
    requires cart.Valid()
    requires sku in s.inventory && sku in cart.entries
    requires cart.entries[sku].qty > s.inventory[sku].quantity
    ensures SubmitOrder(s, cart, c, timestamp).store.inventory[sku].quantity < 0
  {
  }

  /** The ledger is append-only: a run of checkouts keeps every earlier row in place. */
  lemma {:induction false} CheckoutsOnlyAppend(s: Store, cart1: Cart, c1: Customer, t1: string, cart2: Cart, c2: Customer, t2: string)
    requires cart1.Valid() && cart2.Valid()
    ensures var s1 := SubmitOrder(s, cart1, c1, t1).store;
            var s2 := SubmitOrder(s1, cart2, c2, t2).store;
            |s2.orders| == |s.orders| + |cart1.entries| + |cart2.entries| &&
            s2.orders[..|s.orders|] == s.orders
  {
  }
}
