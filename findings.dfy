/**
 * New items take `sItems.size + 1` as their id. Once an item has been
 * deleted, the next add can reuse an id that is still in the list; with two
 * rows sharing an id, the edit icon opens both and "Save" on the second row
 * overwrites the first. The first half of this module shows that on the code
 * as written; the second half numbers items from a counter that only grows,
 * and proves that ids then stay unique and at most one row is ever in edit mode.
 */
module Findings {
  import opened Wrappers
  import opened KotlinText
  import opened ShoppingListModel

  // ---------------------------------------------------------------------------
  // As written: ids derived from the list size

  /**
   * Add `a`, add `b`, delete the first item, add `c`: the items named `b`
   * and `c` both get id 2.
   */
  lemma SizeBasedIdsCollide(a: string, b: string, c: string, qty: string, address: string)
    requires !IsBlank(a) && !IsBlank(b) && !IsBlank(c) && ParseInt(qty).Some?
    ensures var two := AddItem(AddItem([], a, qty, address), b, qty, address);
      var s := AddItem(RemoveFirst(two, two[0]), c, qty, address);
      |s| == 2 && s[0].name == b && s[1].name == c && s[0].id == 2 && s[1].id == 2 && !UniqueIds(s)
  {
  }

  /** With two rows sharing an id, the edit icon of the later row opens both editors. */
  lemma CollidingIdsOpenTwoEditors(items: seq<ShoppingItem>, i: nat, j: nat)
    requires i < j < |items| && items[i].id == items[j].id
    ensures MarkEditing(items, items[j].id)[i].isEditing && MarkEditing(items, items[j].id)[j].isEditing
    ensures !AtMostOneEditing(MarkEditing(items, items[j].id))
  {
  }

  /**
   * With two rows sharing an id, saving the later row's editor writes the new
   * values into an earlier row, and the later row only has its editor closed.
   */
  lemma CollidingIdsMisdirectSave(items: seq<ShoppingItem>, i: nat, j: nat, name: string, quantity: Int32, address: string)
    requires i < j < |items| && items[i].id == items[j].id
    ensures IndexOfId(items, items[j].id).Some? && IndexOfId(items, items[j].id).value <= i
    ensures ApplyEdit(items, items[j].id, name, quantity, address)[j] == items[j].(isEditing := false)
    ensures ApplyEdit(items, items[j].id, name, quantity, address)[IndexOfId(items, items[j].id).value]
            == ShoppingItem(items[j].id, name, quantity, false, address)
  {
  }

  // ---------------------------------------------------------------------------
  // Corrected: ids drawn from a counter

  /** Every id in the list is below `nextId`. */
  predicate IdsBelow(items: seq<ShoppingItem>, nextId: int) {
    forall it :: it in items ==> it.id < nextId
  }

  /** The list together with its id counter. */
  predicate CountedInvariant(items: seq<ShoppingItem>, nextId: int) {
    ListInvariant(items) && UniqueIds(items) && IdsBelow(items, nextId)
  }

  /** Add as intended: the new item takes the counter's value and the counter moves on. */
  function AddItemCounted(items: seq<ShoppingItem>, nextId: int, name: string, qtyText: string, address: string)
    : (r: (seq<ShoppingItem>, int))
    requires !IsBlank(name) ==> ParseInt(qtyText).Some?
    ensures IsBlank(name) ==> r == (items, nextId)
    ensures !IsBlank(name) ==> r.1 == nextId + 1 && |r.0| == |items| + 1 && r.0[..|items|] == items
    ensures !IsBlank(name) ==> r.0[|items|] == ShoppingItem(nextId, name, ParseInt(qtyText).value, false, address)
  {
    if IsBlank(name) then (items, nextId)
    else (items + [ShoppingItem(nextId, name, ParseInt(qtyText).value, false, address)], nextId + 1)
  }

  /** The counter starts at 1 on the empty list. */
  lemma CountedStart()
    ensures CountedInvariant([], 1)
  {
  }

  lemma AddItemCountedKeepsIdsUnique(items: seq<ShoppingItem>, nextId: int, name: string, qtyText: string, address: string)
    requires CountedInvariant(items, nextId) && nextId >= 1
    requires !IsBlank(name) ==> ParseInt(qtyText).Some?
    ensures var r := AddItemCounted(items, nextId, name, qtyText, address);
      CountedInvariant(r.0, r.1) && r.1 >= 1
  {
  }

  lemma MarkEditingKeepsIdsUnique(items: seq<ShoppingItem>, nextId: int, target: int)
    requires CountedInvariant(items, nextId)
    ensures CountedInvariant(MarkEditing(items, target), nextId)
  {
  }

  lemma ApplyEditKeepsIdsUnique(items: seq<ShoppingItem>, nextId: int, target: int, name: string, quantity: Int32, address: string)
    requires CountedInvariant(items, nextId)
    ensures CountedInvariant(ApplyEdit(items, target, name, quantity, address), nextId)
  {
  }

  lemma RemoveFirstKeepsIdsUnique(items: seq<ShoppingItem>, nextId: int, x: ShoppingItem)
    requires CountedInvariant(items, nextId)
    ensures CountedInvariant(RemoveFirst(items, x), nextId)
  {
    var r := RemoveFirst(items, x);
    RemoveFirstKeepsInvariant(items, x);
    forall a | a in r ensures a in items {
      assert a in multiset(r);
    }
    var found := IndexOf(items, x);
    if found.Some? {
      RemoveFirstAt(items, x, found.value);
      DropKeepsIdsUnique(items, found.value);
    }
  }

  lemma DropKeepsIdsUnique(items: seq<ShoppingItem>, k: nat)
    requires UniqueIds(items) && k < |items|
    ensures UniqueIds(items[..k] + items[k + 1..])
  {
  }

  /** Dropping position `k` shifts the later items down by one. */
  lemma DropShifts(items: seq<ShoppingItem>, k: nat, r: seq<ShoppingItem>)
    requires k < |items| && r == items[..k] + items[k + 1..]
    ensures |r| == |items| - 1
    ensures forall n :: 0 <= n < |r| ==> r[n] == items[if n < k then n else n + 1]
  {
  }

  /** With counter ids, at most one row is in edit mode in every reachable list. */
  lemma CountedSingleEditor(items: seq<ShoppingItem>, nextId: int)
    requires CountedInvariant(items, nextId)
    ensures AtMostOneEditing(items)
  {
  }

  /** With counter ids, once an item is deleted no row answers to its id any more. */
  lemma CountedDeletedIdIsGone(items: seq<ShoppingItem>, nextId: int, x: ShoppingItem)
    requires CountedInvariant(items, nextId) && x in items
    ensures IndexOfId(RemoveFirst(items, x), x.id).None?
  {
    var k := IndexOf(items, x).value;
    RemoveFirstAt(items, x, k);
    DropShifts(items, k, RemoveFirst(items, x));
  }

  /** The same add, add, delete, add session with counter ids: the third item gets id 3. */
  lemma CountedIdsDoNotCollide(a: string, b: string, c: string, qty: string, address: string)
    requires !IsBlank(a) && !IsBlank(b) && !IsBlank(c) && ParseInt(qty).Some?
    ensures var one := AddItemCounted([], 1, a, qty, address);
      var two := AddItemCounted(one.0, one.1, b, qty, address);
      var s := AddItemCounted(RemoveFirst(two.0, two.0[0]), two.1, c, qty, address);
      |s.0| == 2 && s.0[0].id == 2 && s.0[1].id == 3 && UniqueIds(s.0)
  {
  }
}
