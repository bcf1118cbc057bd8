/** The `inventory` table and the two manual edits of the manage page.

    The table is a map from the `sku` column to its record: `sku` is declared UNIQUE, so
    no two records share one. Each record also carries its own copy of the sku (the column
    the cart snapshot reads back); `SkuKeyed` says the copy agrees with the key, and every
    operation of this model keeps it. Prices are integers (cents) rather than floats. */
module Inventory {
  import opened Options

  datatype Item = Item(brand: string, category: string, sku: string, mrp: int, finalsp: int, quantity: int)

  type Inventory = map<string, Item>

  /** Every record is stored under its own sku, so the skus of the records are unique. */
  predicate SkuKeyed(inv: Inventory) {
    forall k :: k in inv ==> inv[k].sku == k
  }

  /** Why a manual edit printed an error instead of changing the table. The request
      still succeeds: the page is rendered as usual. */
  datatype EditError =
    | MalformedField   // float() or int() of a form field raised
    | DuplicateSku     // the INSERT hit the UNIQUE constraint on sku

  datatype Edit = Edit(inventory: Inventory, error: Option<EditError>)

  /** The fields of the "add new" form; a numeric field is None when it does not parse. */
  datatype NewItemForm = NewItemForm(
    brand: string, category: string, sku: string,
    mrp: Option<int>, sp: Option<int>, qty: Option<int>)

  /** A form field parsed as a whole: all numbers parse, or none of the INSERT happens. */
  predicate Parses(f: NewItemForm) {
    f.mrp.Some? && f.sp.Some? && f.qty.Some?
  }

  /** `action == 'add-new'`: a plain INSERT inside a try block. */
  function AddNew(inv: Inventory, f: NewItemForm): (r: Edit)
    ensures r.error.None? <==> Parses(f) && f.sku !in inv
    ensures !Parses(f) ==> r.error == Some(MalformedField)
    ensures Parses(f) && f.sku in inv ==> r.error == Some(DuplicateSku)
    ensures r.error.Some? ==> r.inventory == inv
    ensures r.error.None? ==>
      && r.inventory.Keys == inv.Keys + {f.sku}
      && r.inventory[f.sku] == Item(f.brand, f.category, f.sku, f.mrp.value, f.sp.value, f.qty.value)
      && (forall k :: k in inv ==> r.inventory[k] == inv[k])
    ensures SkuKeyed(inv) ==> SkuKeyed(r.inventory)
  {
    if !Parses(f) then Edit(inv, Some(MalformedField))
    else if f.sku in inv then Edit(inv, Some(DuplicateSku))
    else Edit(inv[f.sku := Item(f.brand, f.category, f.sku, f.mrp.value, f.sp.value, f.qty.value)], None)
  }

  /** `action == 'update-existing'`: `UPDATE ... SET quantity = quantity + delta WHERE
      brand = ? AND sku = ?`. When no row matches, zero rows change and no error is
      reported; the delta is not required to be positive. */
  function UpdateExisting(inv: Inventory, brand: string, sku: string, delta: Option<int>): (r: Edit)
    ensures r.error.Some? <==> delta.None?
    ensures r.error.Some? ==> r.error.value == MalformedField
    ensures r.inventory.Keys == inv.Keys
    ensures forall k :: k in inv && k != sku ==> r.inventory[k] == inv[k]
    ensures sku in inv ==>
      r.inventory[sku] ==
        if delta.Some? && inv[sku].brand == brand
        then inv[sku].(quantity := inv[sku].quantity + delta.value)
        else inv[sku]
    ensures SkuKeyed(inv) ==> SkuKeyed(r.inventory)
  {
    if delta.None? then Edit(inv, Some(MalformedField))
    else if sku in inv && inv[sku].brand == brand then
      Edit(inv[sku := inv[sku].(quantity := inv[sku].quantity + delta.value)], None)
    else Edit(inv, None)
  }

  /** What the manage page was asked to do. */
  datatype ManageRequest =
    | ShowPage                                                   // GET
    | AddNewItem(form: NewItemForm)                              // POST, action 'add-new'
    | UpdateQuantity(brand: string, sku: string, delta: Option<int>)  // POST, action 'update-existing'
    | OtherAction                                                // POST, any other action

  /** The state change made by one request to the manage page, before it renders the table. */
  function Manage(inv: Inventory, req: ManageRequest): (r: Edit)
    ensures (req.ShowPage? || req.OtherAction?) ==> r == Edit(inv, None)
    ensures req.AddNewItem? ==> r == AddNew(inv, req.form)
    ensures req.UpdateQuantity? ==> r == UpdateExisting(inv, req.brand, req.sku, req.delta)
    ensures SkuKeyed(inv) ==> SkuKeyed(r.inventory)
  {
    match req
    case ShowPage => Edit(inv, None)
    case AddNewItem(f) => AddNew(inv, f)
    case UpdateQuantity(b, s, d) => UpdateExisting(inv, b, s, d)
    case OtherAction => Edit(inv, None)
  }
}
