# Todo list: store, view and handlers

A model of the browser to-do widget in `script.js`. The page keeps the same
labels in three places:

- the `"todos"` key of `localStorage`, which is either absent or holds an ordered list of labels;
- the children of `.todo-list`, one entry per item;
- the text field the next label is typed into.

The handlers `addTodo`, `deleteCheck` and `filterTodo` and the restore step
`getLocalTodos` keep these three in step through the store helpers
`saveLocalTodos` and `removeLocalTodos`. Every helper reads the key (absent
means `[]`), changes the list and writes the whole list back.

Files:

- `jsarray.dfy` (module `JsArray`) models the two ECMAScript array built-ins the store relies on:
  - `indexOf` returns -1 when the element is absent;
  - `splice(start, deleteCount)` clamps a negative or too large start;
  - `RemoveFirst` is an independent reference definition that `splice(indexOf(x), 1)` is proved against.
- `store.dfy` (module `Store`) models the key as `Option<seq<string>>`:
  - `Load`, `Save` and `Remove` give what each helper leaves behind;
  - lemmas cover the round trip, removal of a present label, removal of an absent label, and the double removal.
- `view.dfy` (module `View`) models the list's children:
  - an entry is a record of its label, the `completed` and `slide` classes, and whether it is displayed;
  - `Live` gives the labels of the entries not yet marked for removal;
  - `Shown` is the filter rule.
- `app.dfy` (module `TodoApp`) holds the class `App`:
  - its fields are `store`, `view` and `input`, and each handler is a method;
  - `getLocalTodos` and `filterTodo` are loops over the list, as in the source;
  - the two branches of `deleteCheck` are the methods `Trash` and `ToggleComplete`;
  - the trash button's `transitionend` callback is a separate step, `FinishRemoval`;
  - `Synced()` is the invariant that the stored labels are, counted with repetition, the labels of the live entries. `Mirrored()` is the stronger invariant that they are the same labels in view order.
  - The client method `TrashTwiceBeforeTransition` plays one concrete event sequence: two trash clicks on the same entry before its transition ends. The second click removes a different, still visible label from the store.

A new entry is displayed whatever filter was chosen last: neither `addTodo`
nor `getLocalTodos` sets its display (`View.Rendered`, `TodoApp.App.AddTodo`).

Edge cases of `script.js` that the model keeps:

- Removing a label that is not stored is not a no-op: `indexOf` returns -1 and `splice(-1, 1)` drops the last stored label (`Store.RemoveAbsent`, `Store.RemoveTwice`).
- `addTodo` has no emptiness check: an empty text is rendered and stored like any other (`TodoApp.App.AddTodo`).
- Removal matches by label, so with duplicate labels the store loses the first stored copy, which need not be the clicked one. The store then stays in step with the view as a multiset (`TodoApp.TrashKeepsCount`). The order is guaranteed to be kept when no earlier live entry has the same label (`TodoApp.TrashKeepsOrder`).

## Model

| member | source | states |
|---|---|---|
| `JsArray.IndexOf` | script.js:180 | The result is -1 exactly when the label is absent. Otherwise the element at that index equals the label and none before it does. |
| `JsArray.ActualStart` | script.js:180 | The start `splice` uses is never past the end of the list. |
| `JsArray.SpliceKeeps` | script.js:180 | `splice(start, deleteCount)` keeps the elements before the actual start, removes the clamped count (never negative, never past the end), and keeps everything after the removed run in order. |
| `JsArray.RemoveFirstAt` | script.js:179-181 | Dropping the first occurrence at index i leaves the elements before i and after i in their order. |
| `JsArray.RemoveFirstMultiset` | script.js:180 | Removing a present element shortens the list by one and takes exactly one copy of it out of the multiset. |
| `JsArray.SpliceIndexOfPresent` | script.js:180 | For a present element, `splice(indexOf(x), 1)` equals removing the first occurrence of x. |
| `JsArray.SpliceIndexOfAbsent` | script.js:180 | For an absent element, `splice(indexOf(x), 1)` drops the last element of a non-empty list and leaves an empty list empty. |
| `Store.Load` | script.js:133-137 | An absent key reads as the empty list (the same read stands at lines 144-148 and 173-177). |
| `Store.Save` | script.js:131-140 | After `saveLocalTodos` the key is present and reads back as the old list (`[]` if absent) with the label appended. |
| `Store.Remove` | script.js:171-182 | `removeLocalTodos` always writes the key, even when it was absent. |
| `Store.SaveAllLoad` | script.js:131-140 | Saving L1..Ln in turn reads back as the old list followed by L1..Ln, and the key is present once anything was saved. |
| `Store.SaveAllFromAbsent` | script.js:131-140 | From an absent key, saving L1..Ln leaves exactly [L1..Ln]. |
| `Store.RemovePresent` | script.js:171-182 | A stored label loses exactly its first occurrence; the other labels keep their order, and the multiset loses one copy. |
| `Store.RemoveAbsent` | script.js:173-181 | A label that is not stored makes the helper drop the last stored label; an empty or absent list is written back as `[]`. |
| `Store.RemoveLength` | script.js:173-181 | Whatever the label, a non-empty list loses exactly one label and an empty one stays empty. |
| `Store.RemoveTwice` | script.js:171-182 | Removing a label stored once, twice over, drops that label and then the last of the remaining labels, which is a different one. |
| `View.NewEntry` | script.js:33-70 | A freshly built entry carries its label and is neither completed nor sliding, and it is displayed (the restore loop builds the same entry at lines 150-167). |
| `View.Rendered` | script.js:149-168 | One entry per label, in order, each carrying its label, not completed, not sliding and displayed. |
| `View.RenderedAppend` | script.js:149-168 | Rendering a concatenation gives the concatenation of the renderings. |
| `View.LiveMembers` | script.js:81-92 | A label is live exactly when some entry not marked `slide` carries it. |
| `View.LiveAppend` | script.js:81-92 | The live labels of a concatenation are the concatenation of the live labels. |
| `View.LiveRendered` | script.js:142-169 | Restored entries are all live, and their labels are the stored labels in stored order. |
| `View.LiveIgnoresFlags` | script.js:97-129 | The live labels do not depend on the `completed` class or on the display setting. |
| `View.LiveSlide` | script.js:81-87 | Marking a live entry `slide` removes its label from the live labels and keeps those before and after it. |
| `View.DetachSlid` | script.js:89-92 | Detaching an entry already marked `slide` leaves the live labels unchanged. |
| `View.Shown` | script.js:109-127 | `all` displays the entry, `completed` displays it exactly when it is completed, `incomplete` exactly when it is not, and any other value keeps its current display. |
| `View.ShownPartitions` | script.js:109-127 | `all` shows every entry, and every entry is shown by exactly one of `completed` and `incomplete`. |
| `TodoApp.OnlyFirstToken` | script.js:81 | The click dispatch (`classList[0] ===`, lines 81 and 97) decides on the first class token alone, whatever tokens follow; a target without classes matches nothing. |
| `TodoApp.App.constructor` | script.js:7-10 | A page that has just opened holds whatever the key holds, shows no entries and has an empty field. |
| `TodoApp.App.SaveLocalTodos` | script.js:131-140 | The key ends up present, holding the old list with the label appended. Nothing else changes. |
| `TodoApp.App.GetLocalTodos` | script.js:142-169 | The restore step appends one fresh entry per stored label, in stored order, after the existing entries. The store is unchanged, and the stored labels become the live labels when the view was empty. |
| `TodoApp.App.RemoveLocalTodos` | script.js:171-182 | A present label loses its first occurrence. An absent label makes the helper drop the last stored label. The key is written in both cases. |
| `TodoApp.App.AddTodo` | script.js:26-72 | The view gains exactly one fresh entry at the end with the field's text, even an empty one. The store gains the same text at the end. The field becomes empty. Both sync invariants are preserved. |
| `TodoApp.App.DeleteCheck` | script.js:75-104 | Dispatch uses only the first class token. `trash-btn` marks only that entry `slide` and removes its label from the store at once. `complete-btn` toggles `completed` on that entry only and leaves the store alone. Any other class changes nothing. `Synced` is preserved unless an already sliding entry is trashed again. |
| `TodoApp.App.Trash` | script.js:82-92 | Only the clicked entry is marked `slide`, and its label is removed from the store at once. Both sync invariants are kept for a live entry, the order one when no earlier live entry has its label. |
| `TodoApp.App.ToggleComplete` | script.js:98-102 | Only the clicked entry's `completed` flips; the live labels and both sync invariants are unchanged. |
| `TodoApp.App.FinishRemoval` | script.js:89-92 | `transitionend` removes just that entry, and the other entries keep their order. The live labels and both sync invariants are unchanged. |
| `TodoApp.App.FilterTodo` | script.js:106-129 | `all` shows every entry. `completed` shows exactly the completed entries, and `incomplete` exactly the others. Any other value changes nothing. Labels, `completed`, `slide` and the store are untouched. |
| `TodoApp.TrashKeepsCount` | script.js:81-87 | A trash click on a live entry keeps the stored labels equal, as a multiset, to the live labels. |
| `TodoApp.TrashKeepsOrder` | script.js:179-180 | When no earlier live entry has the clicked label, a store that mirrored the view in order still does after the trash click. |
| `TodoApp.CompleteTwice` | script.js:97-103 | Two clicks on the same complete button restore the view exactly and leave the store and the field unchanged. |

## Left out

- DOM element lookup and event-listener registration (script.js:7-24) have no logic. The handlers are methods called directly.
- `event.preventDefault()` in `addTodo` only stops the page reload, so it has no counterpart.
- How an entry is built is left out: the `div`, `li` and `button` elements, the styling classes `todo` and `todo-item`, and the icon markup. An entry is a record. A click on the icon inside a button has the icon's first class token, so it counts as "any other class", which does nothing.
- JSON serialisation is the identity on the list. The uncaught exception on a corrupted stored value is not modelled.
- A label's `innerText` is taken to read back exactly as written. In a browser, reading `innerText` back collapses and trims white space, so a label such as " a  b " reads back as "a b". Such a label is then not found in the store, and its trash click takes the absent-label path at script.js:180, which drops the last stored label. `Synced` is preserved across trash clicks only under this assumption.
- `transitionend` is an explicit step that requires the entry to be marked `slide`. A transition that never fires simply means the step is never taken. A second callback on an entry that is already detached does nothing, so it is not modelled.
- CSS display strings are a boolean. `filterTodo` walks the entries only: other child nodes that the page markup might place in `.todo-list` are outside the model, since index.html is not part of this model.
- `localStorage` quota or availability errors are not modelled.
