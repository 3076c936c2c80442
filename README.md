# Kanban board, calendar and guest book core, in Dafny

This project models the core of a Next.js note-taking application whose pages
are block documents. Some blocks embed interactive widgets, and a Convex
backend stores the data. The model covers:

- **The kanban board editor.**
  - The board is a list of columns. Each column holds an ordered list of
    placements, one for each document on it.
  - The `useKanbanBoard` hook adds, removes, renames, moves and recolours
    columns. It also adds, moves, removes and recolours document placements,
    and looks placements up with `getDocument`.
  - The views sit on top of the hook: the board, the column, the document
    card and the drag gaps. They compute drag targets, checkbox counters,
    priority outlines, the column search filter and drop indices.
- **Saving.** A board is saved as JSON text and reloaded from it.
- **Ids.** `generateId` draws its digits from `Math.random()`, and the
  backend's comment ids come from `uuidv4`.
- **The calendar document.** This covers the `useCalendarDocument` hook,
  `newCalendarDocument` and the month grid of `MakeCalendar` (which cells are
  checked and which one is hovered).
- **The chart, pie chart and guest book blocks.**
  - Table edits on both chart blocks.
  - The guest book's comment form, with its validation, and the trash button
    with its password prompt.
- **The search dialog store.**
- **The Convex functions of the `boards`, `calendars` and `guestbooks` tables.**
  - Each table is a class over a map from id to record.
  - Ids are handed out in increasing order.
  - Each function keeps the source's order of checks, which differs by family:
    - `create`, `getSidebar` and `getTrash` need a signed-in caller.
    - The mutations `archive`, `update`, `removeIcon`, `restore` and `remove`
      check the caller's identity, then that the row exists, then that the
      caller owns it.
    - `getById` of boards and calendars checks that the row exists, returns
      it when it is published and not archived, and otherwise checks the
      caller's identity and then ownership.
    - The guest book's `addComment` and `get` check only that the book exists.
    - `removeComment` checks the book, then the first comment with the id.
      With a non-empty password it then compares passwords; without one it
      checks the caller's identity and then ownership of the book.

Randomness (`Math.random()`), the clock and the parsed dates are parameters
of the operations that use them.

The React state of each component is a class whose fields are its `useState`
variables and whose methods are its handlers. The state held by the parent
block, which the hooks report to through `onChange`, is a field that
collects the reports. Everything computed purely is a function, and the
properties are lemmas about those functions.

## Model

| member | source | states |
|---|---|---|
| `JsArrays.RelativeIndex` | hooks/use-kanban-board.tsx:74-78 | the index that `slice` uses is at most the length; it is `i` when `i` is in range, the length when `i` is too large, and counts back from the end (clamped at 0) when `i` is negative |
| `JsArrays.Delete` | hooks/use-kanban-board.tsx:72 | removing index `k` shifts the later elements down by one and takes exactly one copy of `s[k]` out of the multiset |
| `JsArrays.InsertAt` | hooks/use-kanban-board.tsx:74-78 | `x` lands at the normalised index; the elements before it keep their indices and the rest shift up by one; deleting the inserted slot gives `s` back; the multiset gains exactly `x` |
| `JsArrays.SpliceOne` | components/blocks/chart.tsx:35-39 | `splice(i, 1)` deletes index `i`, or `len + i` when `-len <= i < 0`; below `-len` the start is clamped to 0 and the first element goes; nothing changes when `i >= len` or the array is empty |
| `HexIds.Hex` | types/kanbanboard.ts:36 | `toString(16)` gives lowercase hexadecimal digits with no leading zero |
| `HexIds.HexRoundTrip` | types/kanbanboard.ts:36 | reading the base-16 text back gives the number |
| `HexIds.HexLength` | types/kanbanboard.ts:36 | a number in [16^(k-1), 16^k) prints with exactly k digits, which is why the `1xxxx` form of `S4` always has five |
| `HexIds.S4` | types/kanbanboard.ts:35-37 | `S4` gives four hex digits whose value is `floor(r * 0x10000)`, leading zeros kept |
| `HexIds.S4Injective` | types/kanbanboard.ts:35-37 | two draws give the same group exactly when they agree to 1/65536 |
| `HexIds.GenerateId` | types/kanbanboard.ts:34-39 | an id is 16 hex digits, made of the four `S4` groups in draw order |
| `HexIds.GenerateIdDetermined` | types/kanbanboard.ts:34-39 | two ids are equal if and only if each pair of draws agrees to 1/65536 |
| `HexIds.Uuid4` | convex/guestbooks.ts:129-135 | the uuid has 36 characters, with dashes at 8, 13, 18 and 23 and the version digit `4`; each `x` is the digit of its draw, and `y` is that digit with its top bits forced to `10` |
| `HexIds.Uuid4Decode` | convex/guestbooks.ts:129-135 | the draws can be read back from the uuid; the variant digit keeps its draw's low two bits and lies in 8..11 |
| `JsNumbers.ToNumber` | types/calendar.ts:29 | unary `+` maps "" to 0 and a string of decimal digits to its non-negative value; it gives `NaN` exactly when some character is not a digit |
| `JsNumbers.DecimalString` | components/KanbanBoard/board-document.tsx:101 | `toString()` of a count gives decimal digits with no leading zero |
| `JsNumbers.ToNumberRoundTrip` | types/calendar.ts:29 | a day number printed in decimal and read back with `+` is the same number |
| `JsonValues.Field` | components/KanbanBoard/board-view.tsx:30 | looking a key up in an object finds nothing exactly when no field has that key |
| `JsonValues.Optional` | components/KanbanBoard/board-view.tsx:32 | `JSON.stringify` writes a key whose value is defined and leaves out an `undefined` one |
| `JsonValues.FieldAfterOptional` | components/KanbanBoard/board-view.tsx:29-34 | an optional field changes the lookup of its own key only, and then only when it is defined |
| `Collection.IndexOf` | hooks/use-kanban-board.tsx:164-168 | the result is the first slot holding the document; `None` exactly when no slot holds it |
| `Collection.Locate` | hooks/use-kanban-board.tsx:162-171 | the result is the first position holding the document, in column-then-slot order; `None` exactly when the document is not placed |
| `Collection.FindPlacement` | hooks/use-kanban-board.tsx:162-171 | `getDocument` finds a placement exactly when the document is placed, and the placement found has the document's id |
| `Collection.LocateUnique` | hooks/use-kanban-board.tsx:162-171 | with at most one placement per document, the placement is found exactly where it sits |
| `Collection.GetDocument` | hooks/use-kanban-board.tsx:162-171 | the nested loop with its early return gives the placement that `FindPlacement` specifies |
| `Collection.NewElement` | hooks/use-kanban-board.tsx:40-50 | the new, empty column is appended after the unchanged columns |
| `Collection.RemoveElement` | hooks/use-kanban-board.tsx:52-56 | a column is kept if and only if its id is not the removed id |
| `Collection.RemoveAbsentElement` | hooks/use-kanban-board.tsx:52-56 | removing an id that no column has changes nothing |
| `Collection.RemoveElementAt` | hooks/use-kanban-board.tsx:52-56 | with distinct ids, removing a column's id deletes exactly that index |
| `Collection.RenameElement` | hooks/use-kanban-board.tsx:58-62 | only the matching column's name changes |
| `Collection.SetElementAttrs` | hooks/use-kanban-board.tsx:81-87 | only the matching column's attributes change |
| `Collection.ElementIndex` | hooks/use-kanban-board.tsx:67-68 | `findIndex` gives the first column with the id |
| `Collection.MoveElementPermutes` | hooks/use-kanban-board.tsx:64-79 | moving a column permutes the board; the column lands at the (possibly decremented) target, and the other columns keep their order |
| `Collection.MoveElementIsInsert` | hooks/use-kanban-board.tsx:64-79 | a move deletes the column and reinserts it at `index - 1` when `index` lies beyond the column's old index, and at `index` otherwise |
| `Collection.MoveElementKeeps` | hooks/use-kanban-board.tsx:64-79 | moving a column keeps the invariant, and every placement is still found |
| `Collection.MoveElementFinds` | hooks/use-kanban-board.tsx:64-79 | every placement of the board is found after a move |
| `Collection.RemoveAt` | hooks/use-kanban-board.tsx:99 | removing one placement changes only its own column's list of placements |
| `Collection.AppendTo` | hooks/use-kanban-board.tsx:101 | the placement is appended to the matching column; the other columns are unchanged |
| `Collection.InsertInto` | hooks/use-kanban-board.tsx:117-122 | the placement is inserted with `slice` rules into the matching column; the other columns are unchanged |
| `Collection.ReplaceAt` | hooks/use-kanban-board.tsx:142-144 | exactly one slot changes and the shape stays the same |
| `Collection.RemoveAtPlaced` | hooks/use-kanban-board.tsx:99 | after a placement is removed, a document is placed if and only if it was placed before and is not the removed one |
| `Collection.RemoveAtKeeps` | hooks/use-kanban-board.tsx:131-133 | removing a placement keeps the invariant, unplaces its document and leaves every other placement where it was |
| `Collection.InsertIntoPlaced` | hooks/use-kanban-board.tsx:117-122 | after an insert, a document is placed if and only if it was placed before, or it is the inserted document and the target column exists |
| `Collection.InsertIntoKeeps` | hooks/use-kanban-board.tsx:117-122 | inserting a placement of an unplaced document keeps the invariant; the document is placed if and only if the target column exists |
| `Collection.AppendIsInsert` | hooks/use-kanban-board.tsx:89-122 | appending to a column is inserting at its end |
| `Collection.AppendToAbsent` | hooks/use-kanban-board.tsx:89-104 | appending to a missing column changes nothing |
| `Collection.AppendKeeps` | hooks/use-kanban-board.tsx:94-96 | appending a new placement keeps the invariant, and `getDocument` then finds it |
| `Collection.AddDocumentKeeps` | hooks/use-kanban-board.tsx:89-104 | `onAddDocument` keeps the invariant; the document ends last in the target column with its old attributes (or bare, when it was unplaced); nothing else moves; with no such column the document leaves the board |
| `Collection.MoveDocumentKeeps` | hooks/use-kanban-board.tsx:106-123 | `onMoveDocument` keeps the invariant and the placement's attributes; an unplaced document changes nothing; nothing else moves |
| `Collection.MoveDocumentLands` | hooks/use-kanban-board.tsx:112-122 | the placement lands at the normalised target index, decremented against its slot in its old column |
| `Collection.RemoveDocumentKeeps` | hooks/use-kanban-board.tsx:125-134 | `onRemoveDocument` unplaces the document, changes nothing else and keeps the invariant |
| `Collection.ReplacePlacementKeeps` | hooks/use-kanban-board.tsx:136-145 | replacing a placement keeps the invariant, and `getDocument` then finds the new placement |
| `Collection.DeleteElementKeeps` | hooks/use-kanban-board.tsx:52-56 | deleting a column keeps the invariant, unplaces exactly its documents, and every other placement is still found |
| `Collection.NewElementKeeps` | hooks/use-kanban-board.tsx:40-50 | adding a column with a fresh id keeps the invariant, and every lookup is unchanged |
| `Collection.RemoveElementKeeps` | hooks/use-kanban-board.tsx:52-56 | removing a column keeps the invariant, and every placement outside it is still found |
| `Collection.SameContentKeeps` | hooks/use-kanban-board.tsx:58-87 | renaming or recolouring a column keeps the invariant and every lookup |
| `KanbanTypes.IdDraw.Id` | types/kanbanboard.ts:34-39 | the id drawn for a column or calendar entry is 16 hex digits |
| `KanbanTypes.NewKanbanBoard` | types/kanbanboard.ts:21-32 | there is one empty, uncoloured column for each name, in order, each with a generated id |
| `KanbanTypes.NewKanbanBoardWellFormed` | types/kanbanboard.ts:21-32 | a fresh board places no document, and its column ids are distinct when the draws differ |
| `KanbanTypes.SetDocColorKeeps` | hooks/use-kanban-board.tsx:136-145 | setting a document's colour keeps the invariant, its column and its priority; no other placement changes |
| `KanbanTypes.RemoveColumnThenAdd` | hooks/use-kanban-board.tsx:52-104 | a document from a removed column, added to another column, comes back bare: its colour and priority are forgotten |
| `KanbanTypes.MoveFirstColumnExample` | hooks/use-kanban-board.tsx:64-79 | moving the first of three columns to index 2 gives `[B, A, C]` |
| `KanbanTypes.MoveLastColumnExample` | hooks/use-kanban-board.tsx:64-79 | moving the last of three columns to index 0 gives `[C, A, B]` |
| `KanbanHook.KanbanBoardEditor.constructor` | hooks/use-kanban-board.tsx:26-38 | the state is the initial board, or an empty board when there is none, and it is reported once |
| `KanbanHook.KanbanBoardEditor.Commit` | hooks/use-kanban-board.tsx:34-38 | every new state is reported to the parent |
| `KanbanHook.KanbanBoardEditor.NewElement` | hooks/use-kanban-board.tsx:40-50 | the board gains an "untitled" column; the invariant is kept when the id is fresh |
| `KanbanHook.KanbanBoardEditor.RemoveElement` | hooks/use-kanban-board.tsx:52-56 | the new state is `RemoveElement` of the old one, and the invariant is kept |
| `KanbanHook.KanbanBoardEditor.RenameElement` | hooks/use-kanban-board.tsx:58-62 | the new state is the renamed board, and the invariant is kept |
| `KanbanHook.KanbanBoardEditor.MoveElement` | hooks/use-kanban-board.tsx:64-79 | the new state is the board with the column reinserted, and the invariant is kept |
| `KanbanHook.KanbanBoardEditor.ElementSetColor` | hooks/use-kanban-board.tsx:81-87 | only the column's colour changes, and the invariant is kept |
| `KanbanHook.KanbanBoardEditor.AddDocument` | hooks/use-kanban-board.tsx:89-104 | the new state is `AddDocument`, and the invariant is kept |
| `KanbanHook.KanbanBoardEditor.MoveDocument` | hooks/use-kanban-board.tsx:106-123 | an unplaced document changes nothing; otherwise the new state is `MoveDocument`, and the invariant is kept |
| `KanbanHook.KanbanBoardEditor.RemoveDocument` | hooks/use-kanban-board.tsx:125-134 | an unplaced document changes nothing; otherwise the document is unplaced, and the invariant is kept |
| `KanbanHook.KanbanBoardEditor.DocumentSetColor` | hooks/use-kanban-board.tsx:136-145 | an unplaced document changes nothing; otherwise the new state is `SetDocColor`, and the invariant is kept |
| `KanbanJson.ColorRoundTrip` | types/kanbanboard.ts:10 | a colour pair is read back from its JSON |
| `KanbanJson.PlacementRoundTrip` | types/kanbanboard.ts:13-18 | a placement is read back from its JSON, including absent colour and priority |
| `KanbanJson.PlacementsRoundTrip` | types/kanbanboard.ts:13-18 | a list of placements is read back in order |
| `KanbanJson.ElementRoundTrip` | types/kanbanboard.ts:5-11 | a column is read back from its JSON |
| `KanbanJson.ElementsRoundTrip` | types/kanbanboard.ts:5-11 | a list of columns is read back in order |
| `KanbanJson.BoardRoundTrip` | components/KanbanBoard/board-view.tsx:29-34 | every board is read back from its encoding, attributes and order included |
| `CalendarTypes.NewCalendarDocument` | types/calendar.ts:20-33 | each name gives an entry with a generated id, `calendarIndex = +name` and `calendarMonth` the zero-based month of the current date plus 2, in order, placing no document |
| `CalendarTypes.NewCalendarDays` | types/calendar.ts:20-33 | entries named by day numbers carry those days as `calendarIndex` |
| `CalendarHook.CalendarDocumentEditor.constructor` | hooks/use-calendar-document.tsx:19-31 | the state is the initial calendar, or an empty one for the current month, and it is reported once |
| `CalendarHook.CalendarDocumentEditor.Commit` | hooks/use-calendar-document.tsx:27-31 | every new state is reported to the parent |
| `CalendarHook.CalendarDocumentEditor.NewElement` | hooks/use-calendar-document.tsx:33-43 | the calendar gains an entry with no attributes; the invariant is kept when the id is fresh |
| `CalendarHook.CalendarDocumentEditor.AddDocument` | hooks/use-calendar-document.tsx:45-69 | an unplaced document gets a bare placement at the end of the entry; a placed one moves there with its attributes (its `name` included); when no entry has the target id the document leaves the calendar; the invariant is kept |
| `Drag.StatusTarget` | components/KanbanBoard/board-element.tsx:105-120 | "none" clears the target; "before" item `i` selects `i` and "after" selects `i + 1` |
| `Drag.AdjacentTargetsAgree` | components/KanbanBoard/board-element.tsx:105-120 | "after" item `i` and "before" item `i + 1` select the same slot |
| `Drag.Midpoint` | components/KanbanBoard/board-document.tsx:71-85 | the status is "before" exactly when the pointer is in the first half, and it is never "none" |
| `Drag.MidpointMonotone` | components/KanbanBoard/board-document.tsx:71-85 | moving the pointer forward never turns "after" back into "before" |
| `ArrayDragSpace.Layout` | components/array-drag-space.tsx:35-43 | there is no layout without children; otherwise a gap comes before each child plus a trailing gap, `2n + 1` items |
| `ArrayDragSpace.Interleave` | components/array-drag-space.tsx:37-43 | gap `i` is enabled exactly when `i` is the highlighted index and reports `onDragToIndex(i)`; the trailing gap reports `onDragToLast` |
| `ArrayDragSpace.ChildrenKept` | components/array-drag-space.tsx:37-43 | the layout keeps the children in order |
| `ArrayDragSpace.LayoutGaps` | components/array-drag-space.tsx:35-43 | exactly the gap at the highlighted index is enabled |
| `BoardDocumentView.CompletedAtMostAll` | components/KanbanBoard/board-document.tsx:91-102 | the completed count never exceeds the checkbox count |
| `BoardDocumentView.NoCheckboxes` | components/KanbanBoard/board-document.tsx:94-96 | the checkbox count is 0 exactly when no block is a checkbox |
| `BoardDocumentView.Checks` | components/KanbanBoard/board-document.tsx:91-102 | there is no counter without content or without checkboxes; otherwise it counts the checkboxes that are checked and all the checkboxes |
| `BoardDocumentView.ChecksLabel` | components/KanbanBoard/board-document.tsx:101 | the label `completed/all` is shown exactly when there are counts |
| `BoardDocumentView.ChecksLabelReads` | components/KanbanBoard/board-document.tsx:101 | the two numbers of the label read back as the counts |
| `BoardDocumentView.Outline` | components/KanbanBoard/board-document.tsx:112-116 | there is an outline exactly when there is a priority, drawn in that priority's colour |
| `BoardDocumentView.OutlineDistinguishes` | components/KanbanBoard/board-document.tsx:50-54 | distinct priorities are outlined in distinct colours |
| `BoardDocumentView.RenderPlacement` | components/KanbanBoard/board-document.tsx:43-47 | a placement whose document is missing is removed from the board, and otherwise it is shown |
| `BoardDocumentView.DocumentDragOver` | components/KanbanBoard/board-document.tsx:71-85 | only a document drag reports a status, and that status is the pointer's half |
| `BoardDocumentView.DocumentDragLeave` | components/KanbanBoard/board-document.tsx:87-89 | leaving the card clears the target |
| `BoardDocumentView.ClearColorPatch` | components/KanbanBoard/board-document.tsx:156 | the crossed-out square clears the colour |
| `BoardDocumentView.SwatchPatch` | components/KanbanBoard/board-document.tsx:158-169 | swatch `i` sets that colour pair |
| `BoardDocumentView.FlagPatch` | components/KanbanBoard/board-document.tsx:174-186 | flag `i` sets priority `i + 1` |
| `BoardDocumentView.UnflagPatch` | components/KanbanBoard/board-document.tsx:189-194 | the plain flag clears the priority |
| `BoardDocumentView.MemoInputPatch` | components/KanbanBoard/board-document.tsx:198-202 | the memo input sends the typed text |
| `BoardDocumentView.FlagMatchesOutline` | components/KanbanBoard/board-document.tsx:174-186 | flag `i` is drawn in the outline colour of the priority it sets |
| `BoardDocumentView.ColorPatchApplies` | components/KanbanBoard/board-document.tsx:156-169 | a colour patch applied through the hook keeps the invariant and changes only that document's colour |
| `BoardElementView.FirstWithId` | components/KanbanBoard/board-element.tsx:54 | the first loaded document with the id; `None` exactly when there is none |
| `BoardElementView.ContentDocuments` | components/KanbanBoard/board-element.tsx:53-55 | there are no entries while the documents are not loaded; otherwise there is one entry per placement, paired with its document |
| `BoardElementView.EntriesRender` | components/KanbanBoard/board-element.tsx:53-55 | each entry keeps its placement, and its document has the placement's id |
| `BoardElementView.LowerChar` | components/KanbanBoard/board-element.tsx:50 | ASCII capitals become lower case, and the result is never a capital |
| `BoardElementView.Lower` | components/KanbanBoard/board-element.tsx:50 | `toLowerCase` works character by character |
| `BoardElementView.LowerIdempotent` | components/KanbanBoard/board-element.tsx:49-51 | lowering twice is lowering once |
| `BoardElementView.IncludesTrivial` | components/KanbanBoard/board-element.tsx:50 | the empty search and the string itself are included |
| `BoardElementView.FilterBySearch` | components/KanbanBoard/board-element.tsx:49-51 | a document is kept if and only if its lower-cased title contains the lower-cased search |
| `BoardElementView.FilterSplit` | components/KanbanBoard/board-element.tsx:49-51 | the filter goes document by document: one document is kept exactly when it matches, and the filter of `a + b` is the filter of `a` followed by that of `b`, so the kept documents stay in order with their repetitions |
| `BoardElementView.FilteredDocuments` | components/KanbanBoard/board-element.tsx:49-51 | the list is undefined while the documents are not loaded; otherwise it is `FilterBySearch` of the loaded list: exactly the matching documents, in order |
| `BoardElementView.EmptySearchKeepsAll` | components/KanbanBoard/board-element.tsx:49-51 | an empty search keeps every document, in order |
| `BoardElementView.SearchIgnoresCase` | components/KanbanBoard/board-element.tsx:49-51 | the case of the search makes no difference |
| `BoardElementView.ColumnGaps` | components/KanbanBoard/board-element.tsx:321-353 | there is a gap before each document plus a trailing gap; gap `i` is highlighted exactly when it is the selected index; the trailing gap is hidden only in an empty column |
| `BoardElementView.OneGapHighlighted` | components/KanbanBoard/board-element.tsx:321-353 | at most one gap is highlighted, and only the selected one |
| `BoardElementView.ColumnSwatchApplies` | components/KanbanBoard/board-element.tsx:66-75 | a column swatch recolours only that column |
| `BoardElementView.BoardElement.constructor` | components/KanbanBoard/board-element.tsx:42-47 | the column starts not editing, with an empty search and no drop target |
| `BoardElementView.BoardElement.EnableInput` | components/KanbanBoard/board-element.tsx:77-84 | the name input is shown exactly when the column is editable |
| `BoardElementView.BoardElement.DisableInput` | components/KanbanBoard/board-element.tsx:87 | editing ends |
| `BoardElementView.BoardElement.OnKeyDown` | components/KanbanBoard/board-element.tsx:89-94 | Enter ends editing, and other keys change nothing |
| `BoardElementView.BoardElement.SetSearch` | components/KanbanBoard/board-element.tsx:290 | the search becomes the typed value |
| `BoardElementView.BoardElement.OnDocumentDragOver` | components/KanbanBoard/board-element.tsx:105-120 | the target is the slot that the card's status selects |
| `BoardElementView.BoardElement.OnDocumentIndexDragOver` | components/KanbanBoard/board-element.tsx:122-132 | only a document drag selects the hovered gap |
| `BoardElementView.BoardElement.OnDragOver` | components/KanbanBoard/board-element.tsx:134-151 | a document drag clears the target; a column drag reports the pointer's half to the board |
| `BoardElementView.BoardElement.OnDragLeave` | components/KanbanBoard/board-element.tsx:153-155 | leaving the column reports "none" |
| `BoardElementView.BoardElement.OnDrop` | components/KanbanBoard/board-element.tsx:157-165 | a document drop moves the document to the target index, or after the shown entries when there is no target, and clears the target; other drops do nothing |
| `BoardElementView.DropFallback` | components/KanbanBoard/board-element.tsx:157-165 | the fallback index is the column's length once its documents are loaded, and 0 while they are not |
| `BoardElementView.DropAtEndFromOtherColumn` | hooks/use-kanban-board.tsx:106-123 | a drop at the end of a longer column, coming from another column, lands one slot before the end, because the index is decremented against the old slot |
| `BoardViewState.SeedBoard` | components/KanbanBoard/board-view.tsx:29-30 | the board starts empty for missing or empty content, and is parsed from the content otherwise |
| `BoardViewState.ReloadRestoresBoard` | components/KanbanBoard/board-view.tsx:29-34 | reloading what `onChange` saved gives the same board |
| `BoardViewState.OrientedData` | components/KanbanBoard/board-view.tsx:36-51 | the computed map stays empty, because its only insertion sits behind `if (false)` |
| `BoardViewState.HighlightIndex` | components/KanbanBoard/board-view.tsx:106 | with no target the highlight index is -1 |
| `BoardViewState.GapsHighlightTarget` | components/KanbanBoard/board-view.tsx:105-110 | exactly the column gap at the target is highlighted, and none without a target |
| `BoardViewState.ContentLength` | components/KanbanBoard/board-view.tsx:62 | the column count, or 0 with no board |
| `BoardViewState.BoardView.constructor` | components/KanbanBoard/board-view.tsx:27 | the view starts with no target and empty oriented data |
| `BoardViewState.BoardView.OnConnectedCalendar` | components/KanbanBoard/board-view.tsx:37-51 | the effect runs only for a calendar with content, and it leaves the map empty |
| `BoardViewState.BoardView.OnElementDragOver` | components/KanbanBoard/board-view.tsx:70-85 | the target is the slot that the column's status selects |
| `BoardViewState.BoardView.OnElementIndexDragOver` | components/KanbanBoard/board-view.tsx:87-97 | only a column drag selects the hovered gap |
| `BoardViewState.BoardView.OnDragOver` | components/KanbanBoard/board-view.tsx:53-57 | only column drags are accepted |
| `BoardViewState.BoardView.OnDrop` | components/KanbanBoard/board-view.tsx:59-68 | a column drop moves the column to the target, or to the end when there is none, and clears the target |
| `BoardViewState.DropWithoutTargetMovesLast` | components/KanbanBoard/board-view.tsx:59-68 | a drop with no target moves the column to the last place |
| `BoardViewState.AfterAndBeforeAgree` | components/KanbanBoard/board-view.tsx:70-85 | "after" column `i` and "before" column `i + 1` give the same move |
| `Tables.AddRow` | components/blocks/chart.tsx:25-28 | a row is appended after the unchanged rows |
| `Tables.AddColumn` | components/blocks/chart.tsx:30-33 | every row gains an empty last cell |
| `Tables.DeleteRow` | components/blocks/chart.tsx:35-39 | `splice(index, 1)` deletes one row, counting back from the end for an index in `[-len, 0)` and deleting row 0 below `-len`; nothing changes when `index >= len` or the table is empty |
| `Tables.DeleteColumn` | components/blocks/chart.tsx:41-48 | every row loses the cell that `splice` picks in it |
| `Tables.SetCell` | components/blocks/chart.tsx:50-61 | only the addressed cell changes, and the shape stays the same |
| `Tables.DeleteAddedRow` | components/blocks/chart.tsx:25-39 | deleting the row just added gives the table back |
| `Tables.DeleteAddedColumn` | components/blocks/chart.tsx:30-48 | deleting the column just added gives a rectangular table back |
| `Tables.SetCellTwice` | components/blocks/chart.tsx:50-61 | the last write wins, and writing a cell's own value changes nothing |
| `Tables.TableRoundTrip` | components/blocks/chart.tsx:159-166 | a stored table is read back as the same table |
| `Tables.OnChange` | components/blocks/chart.tsx:159-165 | the block becomes a "chart" with the new name and renders the new table |
| `ChartBlock.DefaultTableData` | components/blocks/chart.tsx:11-14 | the default table is a header row of three names and one empty row |
| `ChartBlock.ChartAddRow` | components/blocks/chart.tsx:25-28 | the new row always has three empty cells |
| `ChartBlock.AddRowBreaksShape` | components/blocks/chart.tsx:25-28 | on a table whose width is not three, adding a row breaks its rectangular shape |
| `ChartBlock.DeleteLastRow` | components/blocks/chart.tsx:66 | the last row goes, and an empty table stays empty |
| `ChartBlock.DeleteLastColumn` | components/blocks/chart.tsx:78 | an empty table has no first row to measure; otherwise every row is spliced at the first row's last index: a row at least that wide loses the cell there, a shorter row is unchanged, and with an empty first row every non-empty row loses its last cell |
| `ChartBlock.DeleteLastColumnUndoesAdd` | components/blocks/chart.tsx:30-48 | on a rectangular table, deleting the last column undoes "Add Column" |
| `ChartBlock.InsertChartBlock` | components/blocks/chart.tsx:173-190 | the inserted block is a "chart" with the default name, rendering the default table |
| `PieChartBlock.DefaultTableData` | components/blocks/PieChart.tsx:9-13 | the default table is three labelled rows with empty values |
| `PieChartBlock.PieAddRow` | components/blocks/PieChart.tsx:30-33 | the new row is `["", ""]` |
| `PieChartBlock.PieAddRowKeepsShape` | components/blocks/PieChart.tsx:30-33 | a two-column table stays two columns wide |
| `PieChartBlock.DeleteRowButton` | components/blocks/PieChart.tsx:73-75 | the minus button of row `i` deletes that row and keeps the others in order |
| `PieChartBlock.OnChartCreated` | components/blocks/PieChart.tsx:132-136 | converting changes only the type, to "piechart" |
| `PieChartBlock.ControlsFor` | components/blocks/PieChart.tsx:69-100 | in preview the inputs are disabled and the buttons hidden, and in the editor the reverse |
| `PieChartBlock.InsertPieChartBlock` | components/blocks/PieChart.tsx:148-162 | the inserted block renders the default pie table, and its id is the clock reading's decimal text, which reads back as that reading |
| `Access.Message` | convex/guestbooks.ts:63-95 | every failure throws a non-empty message |
| `Access.MessagesDistinct` | convex/guestbooks.ts:63-95 | distinct failures throw distinct messages |
| `Access.OwnerCheck` | convex/boards.ts:8-24 | the check passes exactly for a signed-in owner; otherwise it fails with "Not authenticated", then "Not found", then "Unauthorized", in that order |
| `Access.ReadCheck` | convex/boards.ts:61-83 | a missing row is "Not found"; a published, unarchived row is open to anyone; otherwise only the owner may read |
| `Access.ReadAllowed` | convex/boards.ts:58-85 | reading is allowed exactly when the row exists and is public or the caller owns it; the owner always may read |
| `Boards.ApplyPatch` | convex/boards.ts:127-141 | each supplied field is overwritten; the owner, the archive flag and the calendar are kept |
| `Boards.ApplyPatchIdempotent` | convex/boards.ts:127-141 | an empty patch changes nothing, and patching twice is patching once |
| `Boards.OwnerOf` | convex/boards.ts:16-20 | the owner of a row that exists |
| `Boards.VisibilityOf` | convex/boards.ts:63-80 | the read rule sees a row exactly when it exists, with its owner and its published and archived flags |
| `Boards.Listed` | convex/boards.ts:97-104 | newest first (strictly decreasing ids); an id is listed exactly when it is the user's and its archive flag matches |
| `Boards.SidebarOrTrash` | convex/boards.ts:97-104 | a board is in its owner's sidebar or in their trash, never both |
| `Boards.BoardStore.Create` | convex/boards.ts:34-56 | an anonymous caller is refused; otherwise a fresh id gets a private, unarchived board |
| `Boards.BoardStore.GetById` | convex/boards.ts:58-85 | the row is returned exactly when the read rule allows it, and otherwise the rule's failure |
| `Boards.BoardStore.GetSidebar` | convex/boards.ts:87-108 | the caller's unarchived boards, newest first |
| `Boards.BoardStore.GetTrash` | convex/boards.ts:178-197 | the caller's archived boards, newest first |
| `Boards.BoardStore.Guarded` | convex/boards.ts:8-24 | an update is written exactly when the owner check passes |
| `Boards.BoardStore.Archive` | convex/boards.ts:5-32 | the owner's board becomes archived and nothing else changes; any failure changes nothing |
| `Boards.BoardStore.Restore` | convex/boards.ts:199-226 | the owner's board is unarchived and nothing else changes |
| `Boards.BoardStore.Update` | convex/boards.ts:110-145 | the owner's board gets the patch |
| `Boards.BoardStore.RemoveIcon` | convex/boards.ts:147-176 | the owner's board loses its icon |
| `Boards.BoardStore.Remove` | convex/boards.ts:228-253 | the owner's board is deleted |
| `Boards.ArchiveMovesToTrash` | convex/boards.ts:5-32 | archiving moves a board from the sidebar to the trash, restoring moves it back, and other boards stay where they are |
| `Calendars.VisibilityOf` | convex/calendars.ts:35-43 | the read rule sees a row exactly when it exists, with its owner and its published and archived flags |
| `Calendars.NewCalendarIsPrivate` | convex/calendars.ts:19-24 | a new calendar can be read by its creator only |
| `Calendars.CalendarStore.Create` | convex/calendars.ts:6-28 | an anonymous caller is refused; otherwise a private calendar is created under a fresh id |
| `Calendars.CalendarStore.GetById` | convex/calendars.ts:30-57 | the row is returned exactly when it exists and is public or the caller owns it |
| `Guestbooks.FirstComment` | convex/guestbooks.ts:67 | the first comment with the id; `None` exactly when no comment has it |
| `Guestbooks.WithoutComment` | convex/guestbooks.ts:79-80 | a comment is kept if and only if its id differs |
| `Guestbooks.WithoutSplit` | convex/guestbooks.ts:79-80 | the filter goes comment by comment: one comment is kept exactly when its id differs, and the filter of `a + b` is the filter of `a` followed by that of `b`, so the remaining comments keep their order and repetitions |
| `Guestbooks.FirstCommentAppend` | convex/guestbooks.ts:39-47 | an appended comment is found only when no earlier comment has its id |
| `Guestbooks.WithoutAbsentComment` | convex/guestbooks.ts:79-80 | filtering an absent id changes nothing |
| `Guestbooks.RemovedCommentIsGone` | convex/guestbooks.ts:67-80 | after a removal no comment has the id, so removing it again is "Not found" |
| `Guestbooks.RemoveCheck` | convex/guestbooks.ts:61-103 | a missing book or comment is "Not found"; with a non-empty password, removal passes exactly when it equals the comment's; otherwise it passes only for the book's owner |
| `Guestbooks.PasswordDecidesAlone` | convex/guestbooks.ts:73-95 | a wrong password is refused even for the owner, and an empty password counts as none |
| `Guestbooks.Public` | convex/guestbooks.ts:118-125 | `get` strips each comment's password and keeps everything else |
| `Guestbooks.PublicHidesPasswords` | convex/guestbooks.ts:118-125 | no password is visible, and stripping twice is stripping once |
| `Guestbooks.NewComment` | convex/guestbooks.ts:40-47 | the comment keeps its password and gets a 36-character uuid |
| `Guestbooks.AddedCommentRemovable` | convex/guestbooks.ts:25-83 | a comment just added is removed with its own non-empty password, whoever the caller is, provided no earlier comment drew the same uuid |
| `Guestbooks.GuestbookStore.Create` | convex/guestbooks.ts:6-23 | an anonymous caller is refused; otherwise an empty book owned by the caller is created |
| `Guestbooks.GuestbookStore.AddComment` | convex/guestbooks.ts:25-52 | anyone may comment; a missing book is "Not found"; otherwise the comment is appended |
| `Guestbooks.GuestbookStore.RemoveComment` | convex/guestbooks.ts:54-105 | the result is `RemoveCheck`; on success the book's comments become `WithoutComment` of the old ones (every comment with the id goes, the rest keep their order), and on failure nothing changes |
| `Guestbooks.GuestbookStore.Get` | convex/guestbooks.ts:107-127 | a missing book is "Not found"; otherwise the book is returned with its passwords hidden |
| `GuestbookBlock.InsertGuestbookBlock` | components/blocks/guestbook.tsx:243-254 | the inserted block has no book yet |
| `GuestbookBlock.BookQuery` | components/blocks/guestbook.tsx:48-49 | the query is skipped exactly while the id is "" |
| `GuestbookBlock.ViewOf` | components/blocks/guestbook.tsx:118-136 | without a book the block shows the "Add guestbook" prompt; otherwise it shows the comment count and the comments |
| `GuestbookBlock.OnCreated` | components/blocks/guestbook.tsx:61-65 | the new book's id becomes the block's, so the block queries it |
| `GuestbookBlock.FormError` | components/blocks/guestbook.tsx:67-90 | the form is accepted exactly when all three fields are non-empty; otherwise the message names the first empty one |
| `GuestbookBlock.CommentForm.constructor` | components/blocks/guestbook.tsx:54-59 | the form starts with empty fields and no message |
| `GuestbookBlock.CommentForm.SetFields` | components/blocks/guestbook.tsx:57-59 | the fields hold the typed values |
| `GuestbookBlock.CommentForm.OnPushComment` | components/blocks/guestbook.tsx:67-104 | an incomplete form shows its message and calls nothing; a complete one calls `addComment` once and clears the fields |
| `GuestbookBlock.CommentForm.ExpireError` | components/blocks/guestbook.tsx:67-75 | the timer clears the message and keeps the fields |
| `GuestbookBlock.OnRemove` | components/blocks/guestbook.tsx:106-116 | the password is passed on only in the published view |
| `GuestbookBlock.EditorRemovalNeedsOwner` | components/blocks/guestbook.tsx:106-116 | a removal from the editor, or with an empty password, succeeds only for the book's owner |
| `GuestbookBlock.CommentTrash.constructor` | components/blocks/guestbook.tsx:197-198 | the password input starts hidden and empty |
| `GuestbookBlock.CommentTrash.SetPassword` | components/blocks/guestbook.tsx:228-232 | the input holds the typed password |
| `GuestbookBlock.CommentTrash.OnTrashClick` | components/blocks/guestbook.tsx:202-210 | in the published view the first click reveals the input and the next one removes with the password; in the editor a click removes without one |
| `GuestbookBlock.PublishedDeleteTakesTwoClicks` | components/blocks/guestbook.tsx:202-210 | published deletion takes two clicks and sends the typed password |
| `GuestbookBlock.EditorDeleteTakesOneClick` | components/blocks/guestbook.tsx:202-210 | in the editor one click deletes, without a password |
| `MakeCalendarGrid.Without` | components/make-calendar.tsx:51 | a value is kept if and only if it differs from the removed one |
| `MakeCalendarGrid.Toggle` | components/make-calendar.tsx:46-56 | a checked index is removed and an unchecked one appended |
| `MakeCalendarGrid.ToggleFlips` | components/make-calendar.tsx:46-56 | a click flips only that cell's membership and keeps the list free of duplicates |
| `MakeCalendarGrid.ToggleTwice` | components/make-calendar.tsx:46-56 | clicking an unchecked cell twice restores the list |
| `MakeCalendarGrid.MakeCalendar.constructor` | components/make-calendar.tsx:24-26 | the grid starts with no cell checked and none hovered |
| `MakeCalendarGrid.MakeCalendar.DateClick` | components/make-calendar.tsx:46-56 | the checked list is toggled at the cell |
| `MakeCalendarGrid.MakeCalendar.HandleMouseEnter` | components/make-calendar.tsx:28-30 | the hovered cell is recorded |
| `MakeCalendarGrid.MakeCalendar.HandleMouseLeave` | components/make-calendar.tsx:32-34 | the hover is cleared |
| `MakeCalendarGrid.HoverShowsOnePlus` | components/make-calendar.tsx:28-34 | while a cell is hovered only it shows the plus icon, and after leaving none does |
| `MakeCalendarGrid.CreateMonth` | components/make-calendar.tsx:62-70 | every day from start to end inclusive, in order, or none when the end comes first |
| `SearchDialog.SearchStore.constructor` | hooks/use-search.tsx:12 | the dialog starts closed |
| `SearchDialog.SearchStore.OnOpen` | hooks/use-search.tsx:13 | opening opens it |
| `SearchDialog.SearchStore.OnClose` | hooks/use-search.tsx:14 | closing closes it |
| `SearchDialog.SearchStore.Toggle` | hooks/use-search.tsx:16 | toggling flips it |
| `SearchDialog.ToggleTwice` | hooks/use-search.tsx:12-16 | two toggles restore the state, and opening and closing do not depend on it |

## Left out

- **JSON text.** JSON text syntax is not modelled. `JSON.parse` and `JSON.stringify` work on a value tree, and the lemmas state the round trip over that tree.
- **React runtime.**
  - React's scheduling is not modelled. Each `setContent` followed by its reporting effect is a single `Commit`.
  - Re-render order, memoisation and `useMemo` are not modelled.
  - The reporting effect depends on `[content, onBoardChanged]`, and the board view passes a new `onBoardChanged` closure on every render (components/KanbanBoard/board-view.tsx:31-33, hooks/use-kanban-board.tsx:34-38). Every re-render of the board view, such as one caused by a column drag-over or the documents query arriving, therefore reports the same board again and saves it again. The model's one report per `Commit`, and the single report at mounting, hold only for a stable callback.
- **Drag geometry.** Pointer geometry is reduced to an offset and a size (`real`). The `rootRef` null check is dropped because the element is always mounted.
- **Placement identity.** Placements are values. The source looks a placement up by object identity and mutates it in place through `getDocument`. The model replaces it by position, which is the same placement under the at-most-once invariant.
- **Missing hook attribute setters.** The hook does not provide `onElementSetAttribute` (components/KanbanBoard/board-element.tsx:60) or `onDocumentSetAttribute` (components/KanbanBoard/board-document.tsx:29). The popover patches are modelled as values and applied through the hook's colour setters.
- **Dates.** `date-fns` and `parseDateByIndex` are replaced by consecutive day numbers or a parameter. Week-day styling and the "today" marker are not modelled. components/calendar-day.tsx is not part of this model.
- `BoardElementView.Lower`: lower-cases ASCII letters only; JavaScript's full Unicode case mapping is not modelled.
- `BoardElementView.LowerChar`: the per-character step of `Lower`, with the same ASCII-only gap.
- `CalendarTypes.CalendarDocAttrs`: the optional `content?: []` field of a calendar document (types/calendar.ts:17) is not modelled; it is always empty and nothing in the calendar hook reads it.
- `JsNumbers.ToNumber`: reads plain decimal digits only. Whitespace, signs, decimals and hex literals, which unary `+` also accepts, are not modelled.
- **Convex runtime.**
  - The runtime, `async` and `ctx.db` are not modelled. Each table is a map with increasing natural-number ids, which stand for creation order.
  - The `documents` table and its functions are not part of this model.
- `KanbanHook.KanbanBoardEditor.MoveElement`: requires the column id to be present. For a missing id the hook would insert `undefined` into the board, and that case is not modelled.
- `Guestbooks.GuestbookStore.AddComment`: the clock's text and the 31 random draws of `uuidv4` are parameters. The draws are required to be digits below 16.
- `PieChartBlock.InsertPieChartBlock`: the `Date.now()` reading is a parameter, and where the editor puts the block (after the cursor's block) is not modelled, as for `ChartBlock.InsertChartBlock`.
- **UI side effects.** Toasts, routing, focus and `setTimeout` scheduling are not modelled. The timer's effect is the separate `ExpireError` step.
- **Other files.** The toolbar, the document editor, the title component and the OpenAI route are not part of this model.
