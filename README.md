# Shopping list: a verified model of the list state

`ShoppingListApp` (a Jetpack Compose screen) keeps the shopping list in one
state variable, `sItems`, an ordered list of `ShoppingItem` records
(`id`, `name`, `quantity`, `isEditing`, `address`). Four UI callbacks
reassign it:

- **add** (dialog "Add" button): ignored for a blank name; otherwise appends
  a new item whose id is the list size plus one, with the quantity parsed by
  `toInt()` and the app's current address;
- **begin edit** (edit icon): rebuilds the list, putting in edit mode every
  item whose id is the clicked row's id, and no other;
- **commit edit** (editor "Save"): rebuilds the list with every edit flag
  cleared, then finds the first item with the edited row's id and overwrites
  its name, quantity and address in place;
- **delete** (delete icon): `sItems - item`, which drops the first element
  structurally equal to the clicked item.

The inline editor turns its quantity text into a number with
`toIntOrNull() ?: 1`.

The model is split into five modules:

- `wrappers.dfy` — `Option`, for Kotlin's nullable results.
- `kotlin_text.dfy` — `KotlinText`: Kotlin's 32-bit `Int`, `isBlank()`,
  `toIntOrNull()` and `Int.toString()`, with the round trip between the last two.
- `shopping_list_model.dfy` — `ShoppingListModel`: the `ShoppingItem`
  datatype and each callback as a function from the old list to the new one,
  the invariant every reachable list keeps, and the lemmas about them.
- `shopping_list_store.dfy` — `ShoppingListStore`: class `ShoppingList`, whose
  field `items` is `sItems`, with one method per callback. Each method is
  proved to leave `items` equal to the model function applied to the old list,
  and to keep `Valid()`. `SampleSession` drives the class through add, add,
  delete, edit.
- `findings.dfy` — `Findings`: the id collision that size-based ids allow,
  and a counter-based add for which ids are proved unique.

The invariant the code actually keeps is weaker than "at most one item is
being edited": ids are at least 1, and all items in edit mode share one id
(`ListInvariant`). Only with unique ids does that give a single editor
(`UniqueIdsGiveOneEditor`), and size-based ids are not unique.

## What the code does not guarantee

The model follows the code in `ShoppingList.kt`, and these properties do not
hold there:

- Ids are not unique. A new item takes `sItems.size + 1` (:165), so after a
  delete the next add can reuse an id still in the list
  (`Findings.SizeBasedIdsCollide`; see Findings).
- Quantities can be zero or negative. `toInt()` on add (:167) and
  `toIntOrNull() ?: 1` in the editor (:261) accept "0" and "-3"; only text
  that does not parse becomes 1 (`ShoppingListModel.EditorQuantityNotClamped`).
- "Save" does not check the name (:261), so a blank name can be stored
  (`ShoppingListModel.ApplyEdit` puts any name in place).
- "Save" always writes the app's current address over the item's own (:136).
- Delete is `sItems - item` (:145): it removes the first element structurally
  equal to the whole record, not the item with a given id
  (`ShoppingListModel.RemoveFirstAt`).

## Model

| member | source | states |
|---|---|---|
| `KotlinText.IsBlank` | app/src/main/java/eu/tutorials/shoppinglistapp/ShoppingList.kt:163 | `isNotBlank()` holds exactly when some character is not JVM whitespace (`Character.isWhitespace` or `isSpaceChar`); the empty string is blank |
| `KotlinText.BlankExamples` | app/src/main/java/eu/tutorials/shoppinglistapp/ShoppingList.kt:163 | tabs, line breaks, no-break and ideographic spaces are blank; a letter, U+0085 and U+200B are not |
| `KotlinText.ParseInt` | app/src/main/java/eu/tutorials/shoppinglistapp/ShoppingList.kt:261 | `toIntOrNull()`: text is accepted only as an optional '+' or '-' followed by ASCII digits; a negative result needs a '-'; an unsigned digit string within `Int.MAX_VALUE` parses to its value; text starting with anything else is null |
| `KotlinText.IntToString` | app/src/main/java/eu/tutorials/shoppinglistapp/ShoppingList.kt:234 | `Int.toString()`: non-empty, a leading '-' exactly for negative values, then decimal digits with no leading zero except for "0" itself |
| `KotlinText.NatToDigits` | app/src/main/java/eu/tutorials/shoppinglistapp/ShoppingList.kt:234 | the digits `toString()` prints for a non-negative value are non-empty decimal digits, read back to the same value, with no leading zero |
| `KotlinText.ParseIntOfToString` | app/src/main/java/eu/tutorials/shoppinglistapp/ShoppingList.kt:234 | `toIntOrNull()` of `toString()` of any `Int` gives that `Int` back |
| `KotlinText.ParseIntRejectsOverflow` | app/src/main/java/eu/tutorials/shoppinglistapp/ShoppingList.kt:261 | digit strings above `Int.MAX_VALUE` parse to null; with a '-' only `Int.MIN_VALUE` is accepted |
| `KotlinText.ParseIntRejectsNonDigits` | app/src/main/java/eu/tutorials/shoppinglistapp/ShoppingList.kt:261 | empty text, a lone sign, letters, spaces and a double sign parse to null |
| `KotlinText.ParseIntAccepts` | app/src/main/java/eu/tutorials/shoppinglistapp/ShoppingList.kt:261 | zero, negative numbers, a '+' sign and leading zeros parse |
| `ShoppingListModel.AddItem` | app/src/main/java/eu/tutorials/shoppinglistapp/ShoppingList.kt:162-174 | a blank name leaves the list unchanged; otherwise exactly one item is appended, earlier items unchanged and in order, with id old length + 1, the given name, the parsed quantity, the current address and not in edit mode |
| `ShoppingListModel.MarkEditing` | app/src/main/java/eu/tutorials/shoppinglistapp/ShoppingList.kt:143 | length and every item's id, name, quantity and address are kept; an item is in edit mode exactly when its id is the target |
| `ShoppingListModel.ClearEditing` | app/src/main/java/eu/tutorials/shoppinglistapp/ShoppingList.kt:131 | length and all fields but the flag are kept; no item is in edit mode |
| `ShoppingListModel.IndexOfId` | app/src/main/java/eu/tutorials/shoppinglistapp/ShoppingList.kt:132 | `find` by id: the position found holds the id and no earlier one does; none is found only when no item has the id |
| `ShoppingListModel.ApplyEdit` | app/src/main/java/eu/tutorials/shoppinglistapp/ShoppingList.kt:129-137 | length, order and ids are kept and no item is in edit mode; the first item with the target id gets the new name, quantity and address; every other item is unchanged but for its cleared flag |
| `ShoppingListModel.EditorQuantity` | app/src/main/java/eu/tutorials/shoppinglistapp/ShoppingList.kt:261 | the quantity is the parsed integer when the text parses, and 1 otherwise |
| `ShoppingListModel.IndexOf` | app/src/main/java/eu/tutorials/shoppinglistapp/ShoppingList.kt:145 | the first position holding an equal item, or none when no item is equal |
| `ShoppingListModel.RemoveFirst` | app/src/main/java/eu/tutorials/shoppinglistapp/ShoppingList.kt:145 | without an equal element the list is unchanged; otherwise it is one shorter and has one copy fewer of that element, the rest as a multiset unchanged |
| `ShoppingListModel.AddItemKeepsInvariant` | app/src/main/java/eu/tutorials/shoppinglistapp/ShoppingList.kt:162-174 | add keeps ids at least 1 and all items in edit mode sharing one id |
| `ShoppingListModel.MarkEditingKeepsInvariant` | app/src/main/java/eu/tutorials/shoppinglistapp/ShoppingList.kt:143 | begin edit on a list with positive ids yields the invariant, whatever the flags were |
| `ShoppingListModel.ApplyEditKeepsInvariant` | app/src/main/java/eu/tutorials/shoppinglistapp/ShoppingList.kt:129-137 | save keeps ids at least 1 and leaves no item in edit mode |
| `ShoppingListModel.RemoveFirstKeepsInvariant` | app/src/main/java/eu/tutorials/shoppinglistapp/ShoppingList.kt:145 | delete keeps the invariant: every remaining item was in the list |
| `ShoppingListModel.UniqueIdsGiveOneEditor` | app/src/main/java/eu/tutorials/shoppinglistapp/ShoppingList.kt:126-143 | when ids are unique, the invariant means at most one row shows the editor |
| `ShoppingListModel.MarkEditingOpensOnlyTarget` | app/src/main/java/eu/tutorials/shoppinglistapp/ShoppingList.kt:143 | with unique ids, begin edit puts exactly the row holding the target id in edit mode (both directions) |
| `ShoppingListModel.MarkEditingIdempotent` | app/src/main/java/eu/tutorials/shoppinglistapp/ShoppingList.kt:143 | `MarkEditing` is idempotent: marking the rows with a given id a second time changes nothing |
| `ShoppingListModel.ApplyEditIgnoresFlags` | app/src/main/java/eu/tutorials/shoppinglistapp/ShoppingList.kt:129-137 | the result of save does not depend on which rows were in edit mode before |
| `ShoppingListModel.ApplyEditUnknownId` | app/src/main/java/eu/tutorials/shoppinglistapp/ShoppingList.kt:132-137 | when no item has the target id, save only clears the flags |
| `ShoppingListModel.SaveUntouchedEditor` | app/src/main/java/eu/tutorials/shoppinglistapp/ShoppingList.kt:232-261 | saving an editor whose fields were left as opened (quantity shown with `toString()`) under the row's own address changes nothing but the flags |
| `ShoppingListModel.EditorQuantityNotClamped` | app/src/main/java/eu/tutorials/shoppinglistapp/ShoppingList.kt:261 | "0" and "-3" give 0 and -3; only unparsable text gives 1, so a quantity of at least 1 is not guaranteed |
| `ShoppingListModel.RemoveFirstAt` | app/src/main/java/eu/tutorials/shoppinglistapp/ShoppingList.kt:145 | delete removes exactly the first position holding the item; the other items keep their relative order |
| `ShoppingListModel.RemoveFirstOnlyCopy` | app/src/main/java/eu/tutorials/shoppinglistapp/ShoppingList.kt:145 | deleting the only copy of an item leaves no copy behind |
| `ShoppingListStore.ShoppingList.constructor` | app/src/main/java/eu/tutorials/shoppinglistapp/ShoppingList.kt:71 | the list starts empty and satisfies the invariant |
| `ShoppingListStore.ShoppingList.Add` | app/src/main/java/eu/tutorials/shoppinglistapp/ShoppingList.kt:162-174 | the new list is `AddItem` of the old one; the invariant is kept |
| `ShoppingListStore.ShoppingList.BeginEdit` | app/src/main/java/eu/tutorials/shoppinglistapp/ShoppingList.kt:141-143 | the new list is `MarkEditing` of the old one; the invariant is kept |
| `ShoppingListStore.ShoppingList.CommitEdit` | app/src/main/java/eu/tutorials/shoppinglistapp/ShoppingList.kt:129-137 | clearing the flags and then updating the found item in place gives `ApplyEdit` of the old list; the invariant is kept |
| `ShoppingListStore.ShoppingList.Delete` | app/src/main/java/eu/tutorials/shoppinglistapp/ShoppingList.kt:144-145 | the new list is `RemoveFirst` of the old one; the invariant is kept |
| `ShoppingListStore.SessionAdds` | app/src/main/java/eu/tutorials/shoppinglistapp/ShoppingList.kt:162-174 | adding "Milk" (2) then "Bread" (1) to the empty list gives items 1 and 2 in that order |
| `ShoppingListStore.SessionEdits` | app/src/main/java/eu/tutorials/shoppinglistapp/ShoppingList.kt:129-143 | opening the editor on "Bread" and saving quantity text "3" gives the one item with quantity 3, not in edit mode |
| `Findings.SizeBasedIdsCollide` | app/src/main/java/eu/tutorials/shoppinglistapp/ShoppingList.kt:165 | add, add, delete the first item, add: the two remaining items both have id 2, so ids are not unique |
| `Findings.CollidingIdsOpenTwoEditors` | app/src/main/java/eu/tutorials/shoppinglistapp/ShoppingList.kt:143 | two rows sharing an id are both put in edit mode by the later row's edit icon |
| `Findings.CollidingIdsMisdirectSave` | app/src/main/java/eu/tutorials/shoppinglistapp/ShoppingList.kt:129-137 | with two rows sharing an id, saving the later row's editor writes into an earlier row and leaves the later row's values as they were |
| `Findings.AddItemCounted` | app/src/main/java/eu/tutorials/shoppinglistapp/ShoppingList.kt:164-170 | corrected add: as the source's add, but the new id is the counter's value and the counter advances by one |
| `Findings.CountedStart` | app/src/main/java/eu/tutorials/shoppinglistapp/ShoppingList.kt:71 | the empty list with counter 1 satisfies the corrected invariant |
| `Findings.AddItemCountedKeepsIdsUnique` | app/src/main/java/eu/tutorials/shoppinglistapp/ShoppingList.kt:164-170 | corrected add keeps ids unique and below the counter |
| `Findings.MarkEditingKeepsIdsUnique` | app/src/main/java/eu/tutorials/shoppinglistapp/ShoppingList.kt:143 | begin edit keeps ids unique and below the counter |
| `Findings.ApplyEditKeepsIdsUnique` | app/src/main/java/eu/tutorials/shoppinglistapp/ShoppingList.kt:129-137 | save keeps ids unique and below the counter |
| `Findings.RemoveFirstKeepsIdsUnique` | app/src/main/java/eu/tutorials/shoppinglistapp/ShoppingList.kt:145 | delete keeps ids unique and below the counter |
| `Findings.DropKeepsIdsUnique` | app/src/main/java/eu/tutorials/shoppinglistapp/ShoppingList.kt:145 | removing one position from a list with unique ids leaves ids unique |
| `Findings.CountedSingleEditor` | app/src/main/java/eu/tutorials/shoppinglistapp/ShoppingList.kt:126-143 | with counter ids, at most one row is ever in edit mode |
| `Findings.CountedDeletedIdIsGone` | app/src/main/java/eu/tutorials/shoppinglistapp/ShoppingList.kt:145 | with counter ids, after deleting an item no row has its id, so a later edit of that id finds nothing |
| `Findings.CountedIdsDoNotCollide` | app/src/main/java/eu/tutorials/shoppinglistapp/ShoppingList.kt:165 | the add, add, delete, add session with counter ids gives ids 2 and 3, which are unique |

## Findings

| source | as written | input that shows it | evidently intended | confidence | as-written member | corrected member |
|---|---|---|---|---|---|---|
| app/src/main/java/eu/tutorials/shoppinglistapp/ShoppingList.kt:165 | a new item's id is `sItems.size + 1` | add, add, delete the first item, add: both remaining items get id 2; the edit icon then opens both editors, and saving the later one rewrites the earlier row | ids unique within the list, so that edit and save act on the clicked row only | high (proved on the model; not executed) | `Findings.SizeBasedIdsCollide` | `Findings.AddItemCountedKeepsIdsUnique` |

The class `ShoppingList` keeps the size-based rule, because it models the code
as written. The corrected add (`Findings.AddItemCounted`) carries a counter
beside the list. With it, all four operations keep ids unique
(`Findings.*KeepsIdsUnique`), at most one row is in edit mode
(`Findings.CountedSingleEditor`), and a deleted id stays gone
(`Findings.CountedDeletedIdIsGone`).

## Left out

- Compose layout and rendering (`Column`, `LazyColumn`, `Row`, `Text`, the row and editor composables) are UI with no list logic.
- Location permission handling, the `Toast` messages and the rationale checks are platform calls.
- The "Address" button and the navigation to the location screen are left out. `LocationUtils` and `LocationViewModel` are not part of this model. The address enters only as an opaque string parameter.
- The "Item bought" checkbox is per-row UI state that is never stored in `ShoppingItem`.
- Dialog visibility and the text-field buffers (`showDialog`, `itemName`, `itemQty`, `editedName`, `editedQty`) appear only as operation inputs. Their reset after an add is not modelled.
- ShoppingListStore.ShoppingList.Add: the `NumberFormatException` that `toInt()` throws on a non-numeric quantity with a non-blank name is a precondition, not modelled behaviour.
- ShoppingListModel.AddItem: has the same precondition as `ShoppingList.Add`; the exception path of `toInt()` is not modelled.
- KotlinText.ParseInt: accepts ASCII digits only. On the JVM both `toIntOrNull()` in the editor and `toInt()` on add also accept other Unicode decimal digits (through `Character.digit`), so the editor maps "٣" to 1 where the source gives 3, and the precondition of `AddItem` and `ShoppingList.Add` excludes quantity text such as "٣" that the source accepts.
- ShoppingListModel.AddItem: the id is an unbounded integer. The 32-bit wrap of `size + 1` would need a list of 2^31 - 1 items and is not modelled.
- Compose recomposition, and whether the UI observes the in-place field update during save, are framework behaviour. Save mutates only the item copy that the flag-clearing `map` just created, so modelling it on values loses no aliasing.
