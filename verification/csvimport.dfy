/** `import_inventory_from_csv`: every row is offered to the table with INSERT OR IGNORE,
    so a row whose sku is already present changes nothing, yet it is counted as
    inserted; a row whose parameters cannot be built is counted as skipped and the loop
    goes on with the next row. */
module CsvImport {
  import opened Options
  import opened Text
  import opened Inventory

  /** One row as the CSV reader yields it. A text cell is None when the row is too
      short to have it; a number is None when `float()` or `int()` raises on its cell. */
  datatype CsvRow = CsvRow(
    brand: Option<string>, category: Option<string>, sku: Option<string>,
    mrp: Option<int>, finalsp: Option<int>, quantity: Option<int>)

  /** The record the INSERT would write: text cells stripped, numbers parsed; None when
      building any parameter raises. */
  function ParseRow(row: CsvRow): (r: Option<Item>)
    ensures r.Some? <==>
      && row.brand.Some? && row.category.Some? && row.sku.Some?
      && row.mrp.Some? && row.finalsp.Some? && row.quantity.Some?
    ensures r.Some? ==>
      && r.value.brand == Strip(row.brand.value)
      && r.value.category == Strip(row.category.value)
      && r.value.sku == Strip(row.sku.value)
    ensures r.Some? ==>
      && r.value.mrp == row.mrp.value && r.value.finalsp == row.finalsp.value
      && r.value.quantity == row.quantity.value
  {
    if row.brand.Some? && row.category.Some? && row.sku.Some?
       && row.mrp.Some? && row.finalsp.Some? && row.quantity.Some?
    then Some(Item(Strip(row.brand.value), Strip(row.category.value), Strip(row.sku.value),
                   row.mrp.value, row.finalsp.value, row.quantity.value))
    else None
  }

  /** The table and the two counters of the loop. */
  datatype Import = Import(inventory: Inventory, inserted: nat, skipped: nat)

  /** One turn of the loop. */
  function ImportRow(acc: Import, row: CsvRow): (r: Import)
    ensures ParseRow(row).None? ==> r == acc.(skipped := acc.skipped + 1)
    ensures ParseRow(row).Some? ==> r.inserted == acc.inserted + 1 && r.skipped == acc.skipped
    ensures ParseRow(row).Some? && ParseRow(row).value.sku in acc.inventory ==> r.inventory == acc.inventory
    ensures ParseRow(row).Some? && ParseRow(row).value.sku !in acc.inventory ==>
      r.inventory == acc.inventory[ParseRow(row).value.sku := ParseRow(row).value]
    ensures SkuKeyed(acc.inventory) ==> SkuKeyed(r.inventory)
  {
    match ParseRow(row)
    case None => acc.(skipped := acc.skipped + 1)
    case Some(item) =>
      var inv := if item.sku in acc.inventory then acc.inventory else acc.inventory[item.sku := item];
      Import(inv, acc.inserted + 1, acc.skipped)
  }

  /** The number of rows that fail to parse. */
  function MalformedCount(rows: seq<CsvRow>): nat {
    if rows == [] then 0
    else MalformedCount(rows[..|rows| - 1]) + (if ParseRow(rows[|rows| - 1]).None? then 1 else 0)
  }

  /** The stripped skus of the rows that parse. */
  function ImportedSkus(rows: seq<CsvRow>): set<string> {
    if rows == [] then {}
    else
      var last := ParseRow(rows[|rows| - 1]);
      ImportedSkus(rows[..|rows| - 1]) + (if last.Some? then {last.value.sku} else {})
  }

  /** The loop over `rows`, in order, starting from `acc`. */
  function ImportFrom(acc: Import, rows: seq<CsvRow>): (r: Import)
    ensures r.inserted + r.skipped == acc.inserted + acc.skipped + |rows|
    ensures r.skipped == acc.skipped + MalformedCount(rows)
    ensures r.inventory.Keys == acc.inventory.Keys + ImportedSkus(rows)
    ensures forall k :: k in acc.inventory ==> k in r.inventory && r.inventory[k] == acc.inventory[k]
    ensures SkuKeyed(acc.inventory) ==> SkuKeyed(r.inventory)
  {
    if rows == [] then acc
    else ImportRow(ImportFrom(acc, rows[..|rows| - 1]), rows[|rows| - 1])
  }

  /** `import_inventory_from_csv` on rows already read from the file: the final table
      and the two counts it prints. Existing records, quantity included, are never
      changed; the new keys are exactly the stripped skus of the rows that parse; every
      row is counted once, as inserted or as skipped. */
  function ImportInventory(inv: Inventory, rows: seq<CsvRow>): (r: Import)
    ensures r.inserted + r.skipped == |rows|
    ensures r.skipped == MalformedCount(rows)
    ensures r.inventory.Keys == inv.Keys + ImportedSkus(rows)
    ensures forall k :: k in inv ==> k in r.inventory && r.inventory[k] == inv[k]
    ensures SkuKeyed(inv) ==> SkuKeyed(r.inventory)
  {
    ImportFrom(Import(inv, 0, 0), rows)
  }

  // ---------------------------------------------------------------------------
  // Properties

  /** `inserted` counts ignored duplicates too, so it bounds the number of new records
      from above. */
  lemma {:induction false} InsertedBoundsNewRecords(inv: Inventory, rows: seq<CsvRow>)
    ensures |ImportInventory(inv, rows).inventory| <= |inv| + ImportInventory(inv, rows).inserted
  {
    var r := ImportInventory(inv, rows);
    ImportedSkusBound(rows);
    assert r.inventory.Keys == inv.Keys + ImportedSkus(rows);
    assert |inv.Keys + ImportedSkus(rows)| <= |inv.Keys| + |ImportedSkus(rows)|;
    assert |r.inventory| == |r.inventory.Keys|;
    assert |inv| == |inv.Keys|;
  }

  lemma {:induction false} ImportedSkusBound(rows: seq<CsvRow>)
    ensures |ImportedSkus(rows)| <= |rows| - MalformedCount(rows)
  {
    if rows != [] {
      ImportedSkusBound(rows[..|rows| - 1]);
    }
  }

  /** Within one batch the first parsable row for a new sku decides its record: later
      rows with the same stripped sku are ignored. */
  lemma {:induction false} FirstRowWins(inv: Inventory, rows: seq<CsvRow>, i: int)
    requires 0 <= i < |rows|
    requires ParseRow(rows[i]).Some? && ParseRow(rows[i]).value.sku !in inv
    requires forall j :: 0 <= j < i && ParseRow(rows[j]).Some? ==> ParseRow(rows[j]).value.sku != ParseRow(rows[i]).value.sku
    ensures var r := ImportInventory(inv, rows);
            ParseRow(rows[i]).value.sku in r.inventory && r.inventory[ParseRow(rows[i]).value.sku] == ParseRow(rows[i]).value
  {
    FirstRowWinsFrom(Import(inv, 0, 0), rows, i);
  }

  lemma {:induction false} FirstRowWinsFrom(acc: Import, rows: seq<CsvRow>, i: int)
    requires 0 <= i < |rows|
    requires ParseRow(rows[i]).Some? && ParseRow(rows[i]).value.sku !in acc.inventory
    requires forall j :: 0 <= j < i && ParseRow(rows[j]).Some? ==> ParseRow(rows[j]).value.sku != ParseRow(rows[i]).value.sku
    ensures var r := ImportFrom(acc, rows);
            ParseRow(rows[i]).value.sku in r.inventory && r.inventory[ParseRow(rows[i]).value.sku] == ParseRow(rows[i]).value
  {
    var item := ParseRow(rows[i]).value;
    var init := rows[..|rows| - 1];
    var last := rows[|rows| - 1];
    var prev := ImportFrom(acc, init);
    assert ImportFrom(acc, rows) == ImportRow(prev, last);
    if i == |rows| - 1 {
      NotYetImported(acc, init, item.sku);
      assert ImportRow(prev, last).inventory == prev.inventory[item.sku := item];
    } else {
      assert init[i] == rows[i];
      FirstRowWinsFrom(acc, init, i);
      assert item.sku in prev.inventory && prev.inventory[item.sku] == item;
      var p := ParseRow(last);
      if p.Some? && p.value.sku !in prev.inventory {
        assert p.value.sku != item.sku;
      }
    }
  }

  lemma {:induction false} NotYetImported(acc: Import, rows: seq<CsvRow>, sku: string)
    requires sku !in acc.inventory
    requires forall j :: 0 <= j < |rows| && ParseRow(rows[j]).Some? ==> ParseRow(rows[j]).value.sku != sku
    ensures sku !in ImportFrom(acc, rows).inventory
  {
    if rows != [] {
      NotYetImported(acc, rows[..|rows| - 1], sku);
    }
  }

  /** A row that does not parse costs one `skipped` and nothing else: the rest of the
      batch is imported exactly as if the row were absent. */
  lemma {:induction false} MalformedRowIsSkipped(inv: Inventory, before: seq<CsvRow>, bad: CsvRow, after: seq<CsvRow>)
    requires ParseRow(bad).None?
    ensures var r := ImportInventory(inv, before + after);
            ImportInventory(inv, before + [bad] + after) == r.(skipped := r.skipped + 1)
  {
    var acc := Import(inv, 0, 0);
    assert before + [bad] + after == (before + [bad]) + after;
    ImportSplit(acc, before + [bad], after);
    ImportSplit(acc, before, after);
    var mid := ImportFrom(acc, before);
    assert (before + [bad])[..|before + [bad]| - 1] == before;
    assert ImportFrom(acc, before + [bad]) == ImportRow(mid, bad);
    assert ImportRow(mid, bad) == mid.(skipped := mid.skipped + 1);
    SkippedShifts(mid, after);
  }

  /** Importing a concatenation is importing the first part, then the second. */
  lemma {:induction false} ImportSplit(acc: Import, a: seq<CsvRow>, b: seq<CsvRow>)
    ensures ImportFrom(acc, a + b) == ImportFrom(ImportFrom(acc, a), b)
    decreases |b|
  {
    if b == [] {
      assert a + b == a;
    } else {
      assert (a + b)[..|a + b| - 1] == a + b[..|b| - 1];
      ImportSplit(acc, a, b[..|b| - 1]);
    }
  }

  /** The skipped counter does not influence anything else the loop does. */
  lemma {:induction false} SkippedShifts(acc: Import, rows: seq<CsvRow>)
    ensures var r := ImportFrom(acc, rows);
            ImportFrom(acc.(skipped := acc.skipped + 1), rows) == r.(skipped := r.skipped + 1)
  {
    if rows != [] {
      SkippedShifts(acc, rows[..|rows| - 1]);
    }
  }

  /** Stripping makes a sku cell padded with whitespace the same sku as the bare cell:
      after a row for `sku`, a row for `" sku "` is an ignored duplicate. */
  lemma {:induction false} PaddedSkuIsDuplicate(inv: Inventory, first: CsvRow, second: CsvRow, pre: string, post: string)
    requires ParseRow(first).Some? && ParseRow(second).Some?
    requires AllSpace(pre) && AllSpace(post)
    requires second.sku.value == pre + first.sku.value + post
    requires ParseRow(first).value.sku !in inv
    ensures ImportInventory(inv, [first, second]).inventory == inv[ParseRow(first).value.sku := ParseRow(first).value]
  {
    StripIgnoresPadding(pre, first.sku.value, post);
    SecondRowIgnored(inv, first, second);
  }

  lemma {:induction false} SecondRowIgnored(inv: Inventory, first: CsvRow, second: CsvRow)
    requires ParseRow(first).Some? && ParseRow(second).Some?
    requires ParseRow(second).value.sku == ParseRow(first).value.sku
    requires ParseRow(first).value.sku !in inv
    ensures ImportInventory(inv, [first, second]).inventory == inv[ParseRow(first).value.sku := ParseRow(first).value]
  {
    var acc := Import(inv, 0, 0);
    assert [first, second][..1] == [first];
    assert [first][..0] == [];
    var one := ImportFrom(acc, [first]);
    assert one == ImportRow(ImportFrom(acc, []), first);
    assert ImportFrom(acc, [first, second]) == ImportRow(one, second);
  }
}
