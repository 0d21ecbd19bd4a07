/**
 * The `sItems` state of `ShoppingListApp` as an object: one field holding the
 * list, reassigned by the four callbacks (add, begin edit, save edit, delete).
 */
module ShoppingListStore {
  import opened Wrappers
  import opened KotlinText
  import opened ShoppingListModel

  class ShoppingList {
    var items: seq<ShoppingItem>

    /** Ids start at 1 and all rows in edit mode share one id. */
    ghost predicate Valid()
      reads this
    {
      ListInvariant(items)
    }

    /** `mutableStateOf(listOf<ShoppingItem>())`: the list starts empty. */
    constructor ()
      ensures Valid() && items == []
    {
      items := [];
    }

    /**
     * The dialog's "Add" button: with a non-blank name, append a new item
     * whose id is the current size plus one, with the parsed quantity and
     * the app's current address.
     */
    method Add(name: string, qtyText: string, address: string)
      requires Valid()
      requires !IsBlank(name) ==> ParseInt(qtyText).Some?
      modifies this
      ensures Valid()
      ensures items == AddItem(old(items), name, qtyText, address)
    {
      AddItemKeepsInvariant(items, name, qtyText, address);
      if !IsBlank(name) {
        var newItem := ShoppingItem(|items| + 1, name, ParseInt(qtyText).value, false, address);
        items := items + [newItem];
      }
    }

    /** The row's edit icon: put every item with id `target` in edit mode, and no other. */
    method BeginEdit(target: int)
      requires Valid()
      modifies this
      ensures Valid()
      ensures items == MarkEditing(old(items), target)
    {
      MarkEditingKeepsInvariant(items, target);
      items := MarkEditing(items, target);
    }

    /**
     * The editor's "Save": close every editor, then overwrite name, quantity
     * and address of the first item with id `target`, in place.
     */
    method CommitEdit(target: int, editedName: string, editedQty: Int32, address: string)
      requires Valid()
      modifies this
      ensures Valid()
      ensures items == ApplyEdit(old(items), target, editedName, editedQty, address)
    {
      ApplyEditKeepsInvariant(items, target, editedName, editedQty, address);
      items := ClearEditing(items);
      var found := IndexOfId(items, target);
      if found.Some? {
        var k := found.value;
        items := items[k := items[k].(name := editedName, quantity := editedQty, address := address)];
      }
    }

    /** The row's delete icon: `sItems - item`. */
    method Delete(item: ShoppingItem)
      requires Valid()
      modifies this
      ensures Valid()
      ensures items == RemoveFirst(old(items), item)
    {
      RemoveFirstKeepsInvariant(items, item);
      items := RemoveFirst(items, item);
    }
  }

  /** Adding "Milk" (2) and then "Bread" (1) to the empty list numbers them 1 and 2. */
  lemma SessionAdds()
    ensures !IsBlank("Milk") && !IsBlank("Bread") && ParseInt("2").Some? && ParseInt("1").Some?
    ensures AddItem(AddItem([], "Milk", "2", ""), "Bread", "1", "")
            == [ShoppingItem(1, "Milk", 2, false, ""), ShoppingItem(2, "Bread", 1, false, "")]
  {
    var milk := ShoppingItem(1, "Milk", 2, false, "");
    ParseIntAccepts();
    assert !IsWhitespace("Milk"[0]);
    assert !IsWhitespace("Bread"[0]);
    assert ParseInt("2") == Some(2) && ParseInt("1") == Some(1);
    assert AddItem([], "Milk", "2", "") == [milk];
  }

  lemma SessionEdits(bread: ShoppingItem)
    requires bread == ShoppingItem(2, "Bread", 1, false, "")
    ensures ApplyEdit(MarkEditing([bread], 2), 2, "Bread", EditorQuantity("3"), "") == [bread.(quantity := 3)]
  {
  }

  /** A session: add two items, delete the first, edit the second's quantity to 3. */
  method SampleSession() {
    var milk := ShoppingItem(1, "Milk", 2, false, "");
    var bread := ShoppingItem(2, "Bread", 1, false, "");
    SessionAdds();
    SessionEdits(bread);
    RemoveFirstAt([milk, bread], milk, 0);
    assert [milk, bread][..0] + [milk, bread][1..] == [bread];

    var list := new ShoppingList();
    list.Add("Milk", "2", "");
    list.Add("Bread", "1", "");
    assert list.items == [milk, bread];
    list.Delete(milk);
    assert list.items == [bread];
    list.BeginEdit(2);
    list.CommitEdit(2, "Bread", EditorQuantity("3"), "");
    assert list.items == [ShoppingItem(2, "Bread", 3, false, "")];
  }
}
