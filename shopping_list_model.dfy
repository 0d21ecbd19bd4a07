/**
 * The shopping list as values: the `ShoppingItem` record and the list
 * transformations that the callbacks of `ShoppingListApp` assign to `sItems`.
 * Each callback rebuilds the list from the current one; here each is a
 * function from the old list to the new one.
 */
module ShoppingListModel {
  import opened Wrappers
  import opened KotlinText

  /** One row of the list. `isEditing` selects the inline editor for that row. */
  datatype ShoppingItem = ShoppingItem(id: int, name: string, quantity: Int32, isEditing: bool, address: string)

  /** `a` and `b` agree on every field except possibly `isEditing`. */
  predicate SameExceptFlag(a: ShoppingItem, b: ShoppingItem) {
    a.id == b.id && a.name == b.name && a.quantity == b.quantity && a.address == b.address
  }

  // ---------------------------------------------------------------------------
  // Add

  /**
   * The "Add" button: a blank name does nothing; otherwise a new, non-editing
   * item numbered one past the current size goes at the end. The quantity
   * text must parse (the source calls `toInt()`, which throws otherwise).
   */
  function AddItem(items: seq<ShoppingItem>, name: string, qtyText: string, address: string): (r: seq<ShoppingItem>)
    requires !IsBlank(name) ==> ParseInt(qtyText).Some?
    ensures IsBlank(name) ==> r == items
    ensures !IsBlank(name) ==> |r| == |items| + 1 && r[..|items|] == items
    ensures !IsBlank(name) ==> r[|items|] == ShoppingItem(|items| + 1, name, ParseInt(qtyText).value, false, address)
  {
    if IsBlank(name) then items
    else items + [ShoppingItem(|items| + 1, name, ParseInt(qtyText).value, false, address)]
  }

  // ---------------------------------------------------------------------------
  // Begin edit

  /** The edit icon: every item is copied, editing exactly when its id is `target`. */
  function MarkEditing(items: seq<ShoppingItem>, target: int): (r: seq<ShoppingItem>)
    ensures |r| == |items|
    ensures forall i :: 0 <= i < |r| ==> SameExceptFlag(r[i], items[i]) && (r[i].isEditing <==> items[i].id == target)
  {
    if items == [] then []
    else [items[0].(isEditing := items[0].id == target)] + MarkEditing(items[1..], target)
  }

  // ---------------------------------------------------------------------------
  // Commit edit

  /** Every item copied with its editing flag cleared. */
  function ClearEditing(items: seq<ShoppingItem>): (r: seq<ShoppingItem>)
    ensures |r| == |items|
    ensures forall i :: 0 <= i < |r| ==> SameExceptFlag(r[i], items[i]) && !r[i].isEditing
  {
    if items == [] then []
    else [items[0].(isEditing := false)] + ClearEditing(items[1..])
  }

  /** `k` is the position of the first item whose id is `target`. */
  predicate IsFirstWithId(items: seq<ShoppingItem>, k: int, target: int) {
    0 <= k < |items| && items[k].id == target && forall j :: 0 <= j < k ==> items[j].id != target
  }

  /** `find { it.id == target }`, as the position of the item found. */
  function IndexOfId(items: seq<ShoppingItem>, target: int): (r: Option<nat>)
    ensures r.Some? ==> IsFirstWithId(items, r.value, target)
    ensures r.None? ==> forall j :: 0 <= j < |items| ==> items[j].id != target
  {
    if items == [] then None
    else if items[0].id == target then Some(0)
    else match IndexOfId(items[1..], target)
      case None => None
      case Some(k) => Some(k + 1)
  }

  /**
   * The editor's "Save": clear every editing flag, then overwrite name,
   * quantity and address of the first item whose id is `target`.
   */
  function ApplyEdit(items: seq<ShoppingItem>, target: int, name: string, quantity: Int32, address: string): (r: seq<ShoppingItem>)
    ensures |r| == |items|
    ensures forall i :: 0 <= i < |r| ==> r[i].id == items[i].id && !r[i].isEditing
    ensures forall i :: 0 <= i < |r| && IsFirstWithId(items, i, target) ==>
              r[i] == ShoppingItem(target, name, quantity, false, address)
    ensures forall i :: 0 <= i < |r| && !IsFirstWithId(items, i, target) ==>
              r[i] == items[i].(isEditing := false)
  {
    var cleared := ClearEditing(items);
    match IndexOfId(cleared, target)
    case None => cleared
    case Some(k) => cleared[k := cleared[k].(name := name, quantity := quantity, address := address)]
  }

  /** The quantity the editor hands to "Save": the parsed text, or 1 when it does not parse. */
  function EditorQuantity(text: string): (q: Int32)
    ensures ParseInt(text).Some? ==> q == ParseInt(text).value
    ensures ParseInt(text).None? ==> q == 1
  {
    match ParseInt(text)
    case Some(v) => v
    case None => 1
  }

  // ---------------------------------------------------------------------------
  // Delete

  /** `indexOf(x)`: the first position holding an item equal to `x`. */
  function IndexOf(items: seq<ShoppingItem>, x: ShoppingItem): (r: Option<nat>)
    ensures r.Some? ==> r.value < |items| && items[r.value] == x && forall j :: 0 <= j < r.value ==> items[j] != x
    ensures r.None? ==> x !in items
  {
    if items == [] then None
    else if items[0] == x then Some(0)
    else match IndexOf(items[1..], x)
      case None => None
      case Some(k) => Some(k + 1)
  }

  /** `items - x`: the list without the first element equal to `x`. */
  function RemoveFirst(items: seq<ShoppingItem>, x: ShoppingItem): (r: seq<ShoppingItem>)
    ensures x !in items ==> r == items
    ensures x in items ==> |r| == |items| - 1
    ensures multiset(r) == multiset(items) - multiset{x}
  {
    if items == [] then []
    else if items[0] == x then
      assert items == [items[0]] + items[1..];
      items[1..]
    else
      assert items == [items[0]] + items[1..];
      [items[0]] + RemoveFirst(items[1..], x)
  }

  // ---------------------------------------------------------------------------
  // What every reachable list satisfies

  /** Ids start at 1. */
  predicate IdsPositive(items: seq<ShoppingItem>) {
    forall it :: it in items ==> it.id >= 1
  }

  /** All items in edit mode carry the same id. */
  predicate EditorsShareId(items: seq<ShoppingItem>) {
    forall a, b :: a in items && b in items && a.isEditing && b.isEditing ==> a.id == b.id
  }

  /** The invariant every list reached from the empty list keeps. */
  predicate ListInvariant(items: seq<ShoppingItem>) {
    IdsPositive(items) && EditorsShareId(items)
  }

  /** No two positions hold the same id. */
  predicate UniqueIds(items: seq<ShoppingItem>) {
    forall i, j :: 0 <= i < |items| && 0 <= j < |items| && items[i].id == items[j].id ==> i == j
  }

  /** At most one position is in edit mode. */
  predicate AtMostOneEditing(items: seq<ShoppingItem>) {
    forall i, j :: 0 <= i < |items| && 0 <= j < |items| && items[i].isEditing && items[j].isEditing ==> i == j
  }

  lemma AddItemKeepsInvariant(items: seq<ShoppingItem>, name: string, qtyText: string, address: string)
    requires ListInvariant(items)
    requires !IsBlank(name) ==> ParseInt(qtyText).Some?
    ensures ListInvariant(AddItem(items, name, qtyText, address))
  {
  }

  /** Begin-edit yields the invariant from any list with positive ids. */
  lemma MarkEditingKeepsInvariant(items: seq<ShoppingItem>, target: int)
    requires IdsPositive(items)
    ensures ListInvariant(MarkEditing(items, target))
  {
  }

  lemma ApplyEditKeepsInvariant(items: seq<ShoppingItem>, target: int, name: string, quantity: Int32, address: string)
    requires IdsPositive(items)
    ensures ListInvariant(ApplyEdit(items, target, name, quantity, address))
  {
  }

  lemma RemoveFirstKeepsInvariant(items: seq<ShoppingItem>, x: ShoppingItem)
    requires ListInvariant(items)
    ensures ListInvariant(RemoveFirst(items, x))
  {
    var r := RemoveFirst(items, x);
    forall a | a in r ensures a in items {
      assert a in multiset(r);
    }
  }

  /** Where ids are unique, the shared-id invariant means at most one row is being edited. */
  lemma UniqueIdsGiveOneEditor(items: seq<ShoppingItem>)
    requires UniqueIds(items) && EditorsShareId(items)
    ensures AtMostOneEditing(items)
  {
  }

  /** With unique ids, begin-edit opens exactly the row that holds the target id. */
  lemma MarkEditingOpensOnlyTarget(items: seq<ShoppingItem>, target: int, k: nat)
    requires UniqueIds(items)
    requires k < |items| && items[k].id == target
    ensures forall i :: 0 <= i < |items| ==> (MarkEditing(items, target)[i].isEditing <==> i == k)
  {
  }

  /** Marking the rows with `target` a second time changes nothing: `MarkEditing` is idempotent. */
  lemma MarkEditingIdempotent(items: seq<ShoppingItem>, target: int)
    ensures MarkEditing(MarkEditing(items, target), target) == MarkEditing(items, target)
  {
  }

  // ---------------------------------------------------------------------------
  // Committing an edit

  /** Save does not depend on which rows were in edit mode before. */
  lemma ApplyEditIgnoresFlags(items: seq<ShoppingItem>, editingId: int, target: int, name: string, quantity: Int32, address: string)
    ensures ApplyEdit(MarkEditing(items, editingId), target, name, quantity, address) == ApplyEdit(items, target, name, quantity, address)
  {
  }

  /** Save of a target id that no item holds only closes the editors. */
  lemma ApplyEditUnknownId(items: seq<ShoppingItem>, target: int, name: string, quantity: Int32, address: string)
    requires forall j :: 0 <= j < |items| ==> items[j].id != target
    ensures ApplyEdit(items, target, name, quantity, address) == ClearEditing(items)
  {
  }

  /**
   * Opening the editor on the first row with `target` and saving it untouched
   * (the quantity field starts as the quantity's `toString()`), while the
   * app's current address is still the row's, changes nothing but the flags.
   */
  lemma SaveUntouchedEditor(items: seq<ShoppingItem>, target: int, k: nat)
    requires IsFirstWithId(items, k, target)
    ensures ApplyEdit(items, target, items[k].name, EditorQuantity(IntToString(items[k].quantity)), items[k].address)
            == ClearEditing(items)
  {
  }

  /** The editor passes zero and negative quantities through; only text that does not parse becomes 1. */
  lemma EditorQuantityNotClamped()
    ensures EditorQuantity("0") == 0 && EditorQuantity("-3") == -3
    ensures EditorQuantity("") == 1 && EditorQuantity("1a") == 1
  {
  }

  // ---------------------------------------------------------------------------
  // Delete

  /** The element removed is the first one equal to `x`; the others keep their order. */
  lemma {:induction false} RemoveFirstAt(items: seq<ShoppingItem>, x: ShoppingItem, k: nat)
    requires k < |items| && items[k] == x
    requires forall j :: 0 <= j < k ==> items[j] != x
    ensures RemoveFirst(items, x) == items[..k] + items[k + 1..]
  {
    if k > 0 {
      RemoveFirstAt(items[1..], x, k - 1);
      DropAtCons(items, k);
    }
  }

  lemma DropAtCons(items: seq<ShoppingItem>, k: nat)
    requires 0 < k < |items|
    ensures items[..k] + items[k + 1..] == [items[0]] + (items[1..][..k - 1] + items[1..][k..])
  {
  }

  /** Deleting the only copy of an item leaves no copy behind. */
  lemma RemoveFirstOnlyCopy(items: seq<ShoppingItem>, x: ShoppingItem)
    requires multiset(items)[x] == 1
    ensures x !in RemoveFirst(items, x)
  {
  }
}
