/** The item service: reads of the item table, whose rows use snake_case attribute names. */
module Items {
  import opened Wrappers
  import opened Models
  import Text

  /** A row of the item table, attribute for attribute. */
  datatype ItemRow = ItemRow(
    item_id: string,
    category_id: string,
    name: string,
    sci_name: string,
    habitat: string,
    diet: string,
    biology: string,
    fun_fact: string,
    synonyms: seq<string>)

  /** `fromDbItemToModel`: each snake_case attribute becomes its camelCase field. */
  function FromRow(row: ItemRow): Item {
    Item(row.item_id, row.category_id, row.name, row.sci_name, row.habitat,
         row.diet, row.biology, row.fun_fact, row.synonyms)
  }

  /** The row an item is stored as (the inverse mapping). */
  function ToRow(item: Item): ItemRow {
    ItemRow(item.itemId, item.categoryId, item.name, item.sciName, item.habitat,
            item.diet, item.biology, item.funFact, item.synonyms)
  }

  /** The field mapping is one to one: no attribute is dropped, merged or renamed onto another. */
  lemma FromRowIsBijective(row: ItemRow, item: Item)
    ensures ToRow(FromRow(row)) == row
    ensures FromRow(ToRow(item)) == item
    ensures FromRow(row) == item <==> row == ToRow(item)
  {
  }

  const ItemNotFound := "Item not found"

  /** `getItemById`: the first row with that `item_id`, or the "Item not found" error; never nothing. */
  function GetItemById(rows: seq<ItemRow>, itemId: string): (r: Result<Item>)
    ensures r.Ok? <==> exists row :: row in rows && row.item_id == itemId
    ensures r.Ok? ==> r.value.itemId == itemId && ToRow(r.value) in rows
    ensures r.Err? ==> r.message == ItemNotFound
  {
    if rows == [] then Err(ItemNotFound)
    else if rows[0].item_id == itemId then Ok(FromRow(rows[0]))
    else GetItemById(rows[1..], itemId)
  }

  /** What `getItemsByIds` returns: for each id in turn, the item found for it; ids whose lookup fails are skipped. */
  function FoundItems(rows: seq<ItemRow>, ids: seq<string>): (items: seq<Item>)
    ensures |items| <= |ids|
    ensures forall k :: 0 <= k < |items| ==> items[k].itemId in ids && GetItemById(rows, items[k].itemId) == Ok(items[k])
    ensures forall id :: id in ids && GetItemById(rows, id).Ok? ==> GetItemById(rows, id).value in items
  {
    if ids == [] then []
    else
      var prefix := FoundItems(rows, ids[..|ids| - 1]);
      var id := Text.Last(ids);
      assert ids == ids[..|ids| - 1] + [id];
      match GetItemById(rows, id)
      case Ok(item) => prefix + [item]
      case Err(_) => prefix
  }

  /** The ids are looked up independently: the result for a list of ids is the result for its first
      part followed by the result for the rest. */
  lemma {:induction false} FoundItemsAppend(rows: seq<ItemRow>, a: seq<string>, b: seq<string>)
    ensures FoundItems(rows, a + b) == FoundItems(rows, a) + FoundItems(rows, b)
    decreases |b|
  {
    if b == [] {
      assert a + b == a;
    } else {
      var init := b[..|b| - 1];
      assert (a + b)[..|a + b| - 1] == a + init;
      assert Text.Last(a + b) == Text.Last(b);
      FoundItemsAppend(rows, a, init);
    }
  }

  /** One id contributes its item when the lookup succeeds and nothing when it fails. */
  lemma FoundItemsOfOne(rows: seq<ItemRow>, id: string)
    ensures FoundItems(rows, [id]) == match GetItemById(rows, id) case Ok(item) => [item] case Err(_) => []
  {
    assert [id][..0] == [];
  }

  /** `getItemsByIds`: looks the ids up one by one and keeps the ones found, in order. */
  method GetItemsByIds(rows: seq<ItemRow>, itemIds: seq<string>) returns (items: seq<Item>)
    ensures items == FoundItems(rows, itemIds)
  {
    if |itemIds| == 0 {
      return [];
    }
    items := [];
    for k := 0 to |itemIds|
      invariant items == FoundItems(rows, itemIds[..k])
    {
      assert itemIds[..k + 1][..k] == itemIds[..k];
      var found := GetItemById(rows, itemIds[k]);
      if found.Ok? {
        items := items + [found.value];
      }
    }
    assert itemIds[..|itemIds|] == itemIds;
  }

  /** When every id is found, the result lines up with the ids one for one, duplicates included. */
  lemma {:induction false} AllFoundLinesUp(rows: seq<ItemRow>, ids: seq<string>)
    requires forall id :: id in ids ==> GetItemById(rows, id).Ok?
    ensures |FoundItems(rows, ids)| == |ids|
    ensures forall k :: 0 <= k < |ids| ==> FoundItems(rows, ids)[k] == GetItemById(rows, ids[k]).value
  {
    if ids != [] {
      var init := ids[..|ids| - 1];
      assert forall id :: id in init ==> id in ids;
      AllFoundLinesUp(rows, init);
      var id := Text.Last(ids);
      assert id in ids;
      var item := GetItemById(rows, id).value;
      assert FoundItems(rows, ids) == FoundItems(rows, init) + [item];
      forall k | 0 <= k < |ids|
        ensures FoundItems(rows, ids)[k] == GetItemById(rows, ids[k]).value
      {
        if k < |init| {
          assert ids[k] == init[k];
        }
      }
    }
  }

  /** With no id found (in particular with no ids at all) the result is empty. */
  lemma {:induction false} NoneFoundIsEmpty(rows: seq<ItemRow>, ids: seq<string>)
    requires forall id :: id in ids ==> GetItemById(rows, id).Err?
    ensures FoundItems(rows, ids) == []
  {
    if ids != [] {
      var init := ids[..|ids| - 1];
      assert forall id :: id in init ==> id in ids;
      NoneFoundIsEmpty(rows, init);
      assert Text.Last(ids) in ids;
    }
  }

  /** The rows of a category, in scan order. */
  function CategoryRows(rows: seq<ItemRow>, categoryId: string): seq<ItemRow> {
    Text.Filter(rows, (row: ItemRow) => row.category_id == categoryId)
  }

  /** `getItemsByCategoryId`: the scanned rows whose `category_id` matches, converted, in scan order. */
  function ItemsByCategory(rows: seq<ItemRow>, categoryId: string): (items: seq<Item>)
    ensures |items| <= |rows|
    ensures forall k :: 0 <= k < |items| ==> items[k].categoryId == categoryId && ToRow(items[k]) in rows
    ensures forall row :: row in rows && row.category_id == categoryId ==> FromRow(row) in items
  {
    if rows == [] then []
    else
      var rest := ItemsByCategory(rows[1..], categoryId);
      if rows[0].category_id == categoryId then [FromRow(rows[0])] + rest else rest
  }

  /** The category's items are its scanned rows, converted one for one and kept in scan order. */
  lemma {:induction false} ItemsByCategoryInScanOrder(rows: seq<ItemRow>, categoryId: string)
    ensures var matching := CategoryRows(rows, categoryId);
            |ItemsByCategory(rows, categoryId)| == |matching| &&
            forall k :: 0 <= k < |matching| ==> ItemsByCategory(rows, categoryId)[k] == FromRow(matching[k])
  {
    if rows != [] {
      ItemsByCategoryInScanOrder(rows[1..], categoryId);
    }
  }
}
