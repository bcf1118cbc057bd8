/** The grouping loop of `view_orders`: rows, as the query returns them (most recent
    first), are bucketed by the text key `"name | mobile"`; each bucket keeps its rows in
    the order met and a running grand total. */
module OrderGroups {
  import opened Dicts
  import opened Cart
  import opened Orders

  datatype Bucket = Bucket(orders: seq<OrderRow>, grandTotal: int)

  type Grouped = Dict<string, Bucket>

  /** `f"{name} | {mobile}"` */
  function GroupKey(row: OrderRow): string {
    row.customerName + " | " + row.mobile
  }

  /** The rows whose key is `k`, in their original order. */
  function RowsWithKey(rows: seq<OrderRow>, k: string): seq<OrderRow> {
    if rows == [] then []
    else
      var prev := RowsWithKey(rows[..|rows| - 1], k);
      var last := rows[|rows| - 1];
      if GroupKey(last) == k then prev + [last] else prev
  }

  /** `g` is the grouping of `rows`: one bucket per key that occurs, holding exactly the
      rows with that key in their original order, with the sum of their totals. */
  ghost predicate Groups(g: Grouped, rows: seq<OrderRow>) {
    && g.Valid()
    && (forall k :: k in g.entries <==> |RowsWithKey(rows, k)| > 0)
    && (forall k :: k in g.entries ==> g.entries[k].orders == RowsWithKey(rows, k))
    && (forall k :: k in g.entries ==> g.entries[k].grandTotal == SumTotals(RowsWithKey(rows, k)))
  }

  /** One turn of the loop: open the bucket if the key is new, append the row, add its
      total to the bucket's grand total. */
  function AddRow(g: Grouped, row: OrderRow): Grouped
    requires g.Valid()
  {
    var k := GroupKey(row);
    var b := if k in g.entries then g.entries[k] else Bucket([], 0);
    Put(g, k, Bucket(b.orders + [row], b.grandTotal + row.total))
  }

  /** The grouping loop over `rows`, in order. */
  function GroupOrders(rows: seq<OrderRow>): (g: Grouped)
    ensures Groups(g, rows)
  {
    if rows == [] then Empty()
    else
      var prev := GroupOrders(rows[..|rows| - 1]);
      AddRowKeepsGroups(rows, prev);
      AddRow(prev, rows[|rows| - 1])
  }

  lemma {:induction false} AddRowKeepsGroups(rows: seq<OrderRow>, prev: Grouped)
    requires rows != []
    requires Groups(prev, rows[..|rows| - 1])
    ensures Groups(AddRow(prev, rows[|rows| - 1]), rows)
  {
    var init := rows[..|rows| - 1];
    var row := rows[|rows| - 1];
    var key := GroupKey(row);
    var g := AddRow(prev, row);
    var nb := RowsWithKey(init, key) + [row];
    assert RowsWithKey(rows, key) == nb;
    assert nb[..|nb| - 1] == RowsWithKey(init, key);
    if key !in prev.entries {
      assert RowsWithKey(init, key) == [];
    }
    assert g.entries[key].orders == nb;
    assert g.entries[key].grandTotal == SumTotals(nb);
    forall k
      ensures k in g.entries <==> |RowsWithKey(rows, k)| > 0
      ensures k in g.entries ==> g.entries[k].orders == RowsWithKey(rows, k)
      ensures k in g.entries ==> g.entries[k].grandTotal == SumTotals(RowsWithKey(rows, k))
    {
      if k != key {
        assert RowsWithKey(rows, k) == RowsWithKey(init, k);
      }
    }
  }

  /** A row is kept by the filter for `k` exactly when it is one of the rows and has key `k`. */
  lemma {:induction false} RowsWithKeyMembers(rows: seq<OrderRow>, k: string, x: OrderRow)
    ensures x in RowsWithKey(rows, k) <==> x in rows && GroupKey(x) == k
  {
    if rows != [] {
      var init := rows[..|rows| - 1];
      RowsWithKeyMembers(init, k, x);
      assert rows == init + [rows[|rows| - 1]];
    }
  }

  // ---------------------------------------------------------------------------
  // Properties. They are stated for any `g` with `Groups(g, rows)`, which
  // `GroupOrders(rows)` is proved to be.

  /** Every row lands in exactly one bucket: the one under its own key. */
  lemma {:induction false} EveryRowInExactlyOneBucket(rows: seq<OrderRow>, g: Grouped, i: int)
    requires Groups(g, rows)
    requires 0 <= i < |rows|
    ensures GroupKey(rows[i]) in g.entries
    ensures rows[i] in g.entries[GroupKey(rows[i])].orders
    ensures forall k :: k in g.entries && rows[i] in g.entries[k].orders ==> k == GroupKey(rows[i])
  {
    RowsWithKeyMembers(rows, GroupKey(rows[i]), rows[i]);
    forall k | k in g.entries && rows[i] in g.entries[k].orders
      ensures k == GroupKey(rows[i])
    {
      RowsWithKeyMembers(rows, k, rows[i]);
    }
  }

  /** Filtering distributes over concatenation. */
  lemma {:induction false} RowsWithKeyAppend(a: seq<OrderRow>, b: seq<OrderRow>, k: string)
    ensures RowsWithKey(a + b, k) == RowsWithKey(a, k) + RowsWithKey(b, k)
    decreases |b|
  {
    if b == [] {
      assert a + b == a;
    } else {
      var init := b[..|b| - 1];
      assert (a + b)[..|a + b| - 1] == a + init;
      RowsWithKeyAppend(a, init, k);
    }
  }

  lemma {:induction false} SumTotalsAppend(a: seq<OrderRow>, b: seq<OrderRow>)
    ensures SumTotals(a + b) == SumTotals(a) + SumTotals(b)
    decreases |b|
  {
    if b == [] {
      assert a + b == a;
    } else {
      var init := b[..|b| - 1];
      assert (a + b)[..|a + b| - 1] == a + init;
      SumTotalsAppend(a, init);
    }
  }

  /** Rows of two stretches of the ledger (two checkouts, say) under one key merge into
      one bucket whose grand total is the sum of both stretches' totals for that key. */
  lemma {:induction false} BucketsMerge(a: seq<OrderRow>, b: seq<OrderRow>, g: Grouped, k: string)
    requires Groups(g, a + b)
    requires k in g.entries
    ensures g.entries[k].orders == RowsWithKey(a, k) + RowsWithKey(b, k)
    ensures g.entries[k].grandTotal == SumTotals(RowsWithKey(a, k)) + SumTotals(RowsWithKey(b, k))
  {
    RowsWithKeyAppend(a, b, k);
    SumTotalsAppend(RowsWithKey(a, k), RowsWithKey(b, k));
  }

  /** The rows of one checkout form a single bucket, keyed by the customer, whose grand
      total is the cart total; an empty cart adds no bucket. */
  lemma {:induction false} CheckoutIsOneBucket(s: Store, cart: Cart, c: Customer, timestamp: string, g: Grouped)
    requires cart.Valid()
    requires Groups(g, SubmitOrder(s, cart, c, timestamp).store.orders[|s.orders|..])
    ensures cart.entries == map[] ==> g.entries == map[]
    ensures cart.entries != map[] ==> g.entries.Keys == {c.name + " | " + c.mobile}
    ensures cart.entries != map[] ==> g.entries[c.name + " | " + c.mobile].grandTotal == Total(cart)
  {
    var r := SubmitOrder(s, cart, c, timestamp).store;
    var added := r.orders[|s.orders|..];
    var key := c.name + " | " + c.mobile;
    assert |added| == |cart.order| == |cart.entries|;
    forall i | 0 <= i < |added|
      ensures GroupKey(added[i]) == key
    {
      assert added[i] == r.orders[|s.orders| + i];
      assert IsOrderLine(r.orders[|s.orders| + i], timestamp, c, cart.order[i], cart.entries[cart.order[i]]);
    }
    CheckoutTotalIsCartTotal(s, cart, c, timestamp);
    OneKeyIsOneBucket(added, g, key);
    if cart.entries == map[] {
      assert |cart.entries| == 0;
    }
  }

  /** Rows that all share one key group into that single bucket, with all their total. */
  lemma {:induction false} OneKeyIsOneBucket(rows: seq<OrderRow>, g: Grouped, key: string)
    requires Groups(g, rows)
    requires forall i :: 0 <= i < |rows| ==> GroupKey(rows[i]) == key
    ensures rows == [] ==> g.entries == map[]
    ensures rows != [] ==> g.entries.Keys == {key} && g.entries[key].grandTotal == SumTotals(rows)
  {
    if rows == [] {
      forall k
        ensures k !in g.entries
      {
        assert RowsWithKey(rows, k) == [];
      }
    } else {
      SameKeyKeepsAll(rows, key);
      assert |RowsWithKey(rows, key)| > 0;
      assert key in g.entries;
      forall k | k != key
        ensures k !in g.entries
      {
        SameKeyDropsOthers(rows, key, k);
      }
      assert g.entries.Keys == {key};
      assert g.entries[key].grandTotal == SumTotals(RowsWithKey(rows, key));
    }
  }

  /** When all rows share `key`, the filter for `key` keeps them all. */
  lemma {:induction false} SameKeyKeepsAll(rows: seq<OrderRow>, key: string)
    requires forall i :: 0 <= i < |rows| ==> GroupKey(rows[i]) == key
    ensures RowsWithKey(rows, key) == rows
  {
    if rows != [] {
      var init := rows[..|rows| - 1];
      SameKeyKeepsAll(init, key);
      assert init + [rows[|rows| - 1]] == rows;
    }
  }

  /** When all rows share `key`, the filter for any other key keeps none of them. */
  lemma {:induction false} SameKeyDropsOthers(rows: seq<OrderRow>, key: string, other: string)
    requires forall i :: 0 <= i < |rows| ==> GroupKey(rows[i]) == key
    requires other != key
    ensures RowsWithKey(rows, other) == []
  {
    if rows != [] {
      SameKeyDropsOthers(rows[..|rows| - 1], key, other);
    }
  }

  /** The key is plain text, so two different customers can share a bucket: a name that
      itself contains `" | "` collides with a shorter name and a longer mobile. */
  lemma {:induction false} KeysCanCollide(r1: OrderRow, r2: OrderRow)
    requires r1.customerName == "Jane | 555" && r1.mobile == "1"
    requires r2.customerName == "Jane" && r2.mobile == "555 | 1"
    ensures r1.customerName != r2.customerName
    ensures GroupKey(r1) == GroupKey(r2)
  {
  }
}
