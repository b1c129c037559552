# Visual alias editor — a Dafny model

This project models the decision logic of the block-based type-alias editor in
`ui_alias_editor`. That logic has three parts:

- **The type printer.** `ast_to_rust_string` prints a `TypeAstNode` tree as
  Rust type syntax. `generate_preview_code` wraps the printed type in the
  `pub type … = …;` preview template.
- **The slot-placement state machine of `VisualAliasEditor`.** It is made of
  `add_block_to_canvas`, `select_slot` and `add_type_from_picker`, plus:
  - the branch decisions of `save`, `update_preview` and `new_with_file`;
  - the pending-click dispatch at the top of `render`, where an empty
    `BlockId` is the sentinel for a click on the empty canvas.
- **The type picker's delegate, `TypeLibraryPalette`.** This covers:
  - building the category list: "Primitives" first, then the constructor
    registry grouped by category and sorted by category name;
  - the item accessors and `TypeItem::to_block`;
  - the one-shot selection slot (`confirm`, `take_selected_item`, `target_slot`).

Modules:

| module | file | contents |
|---|---|---|
| `Wrappers` | wrappers.dfy | `Option` |
| `TypeAst` | type_ast.dfy | the tree, well-formed names, `Normal` (leaf kinds collapsed) |
| `RustPrinter` | rust_printer.dfy | `Join`, `Print`, the preview text, splitting text into lines |
| `TypeParser` | type_parser.dfy | a reader for printed types, the printer's round trip |
| `StringOrder` | string_order.dfy | Rust's `&str` order, proved a strict total order |
| `Blocks` | blocks.dfy | `BlockId`, slot references, the block an item asks for |
| `TypePalette` | type_palette.dfy | items, grouping, sorting, `new`, the selection slot |
| `VisualEditor` | visual_editor.dfy | editor state, transitions, save/load, the invariant |

How the canvas is modelled:

- The canvas (`BlockCanvas`, `TypeBlock`) is not part of this model.
- The editor is generic in the block type, and a canvas is just an optional
  root.
- Four operations are function-valued inputs, collected in `CanvasOps`:
  `fill_slot` (returns `None` when it refuses), `to_ast`, `TypeBlock::from_ast`,
  and the block constructors `to_block` asks for.
- Each transition is a pure function from editor record to editor record. Any
  `ShowTypePickerRequest` it emits is returned as a value.

Every transition keeps one invariant, `VisualEditor.Consistent`, which has two
parts:

- a block never waits in `pending_block` while a slot is selected;
- unless the preview is marked stale, it shows exactly what `update_preview`
  would compute from the canvas.

The printer's partner is a parser. For trees whose names are non-empty and
contain none of `< > ( ) ,`, reading the printed text back gives the tree again. The only thing
lost is which of the three leaf kinds a leaf was: `Primitive`, `Path` and
`AliasRef` print identically. So two well-formed trees print alike exactly when
they agree up to leaf kind.

Behaviours of the code that the model keeps as written:

- **`toggle_palette` passes the selected slot.** Its comment says "no target
  slot", but the code passes `selected_slot`. The model follows the code
  (`VisualEditor.PickerRequestTargets`).
- **`select_slot` can drop the pending block.** It `take`s the pending block
  before trying to place it. If `fill_slot` then refuses, the block is gone
  (`VisualEditor.SelectSlotPlacesPendingBlock`).
- **Filling a target slot keeps the pending block.** When
  `add_type_from_picker` fills an explicit target slot, it clears the selection
  but leaves `pending_block` alone.
- **A one-element tuple prints as `(T)`.** Rust reads that as the
  parenthesised type `T`, not the 1-tuple `(T,)`.
- **"Primitives" can appear twice.** A registry category literally named
  "Primitives" produces a second "Primitives" group after the first one. The
  sorted tail has no duplicate names.
- **Group names are compared by character code.** Rust orders `&str` keys by
  UTF-8 bytes, which agrees with code-point order.

## Model

| member | source | states |
|---|---|---|
| RustPrinter.LeavesPrintTheirText | ui_alias_editor/src/visual_editor.rs:290-292 | a `Primitive`, `Path` or `AliasRef` node prints as its stored text, unchanged |
| RustPrinter.EmptyChildListsPrintEmptyBrackets | ui_alias_editor/src/visual_editor.rs:293-316 | with no children the brackets stay: `name<>`, `()`, `fn() -> ret` |
| RustPrinter.OneChildPrintsWithoutComma | ui_alias_editor/src/visual_editor.rs:293-316 | a single child is printed with no separator and no trailing comma: `name<T>`, `(T)`, `fn(T) -> ret` |
| RustPrinter.TwoChildrenPrintCommaSeparated | ui_alias_editor/src/visual_editor.rs:293-316 | children are printed recursively, in order, separated by ", ", inside `name<…>`, `(…)` or `fn(…) -> ret` |
| RustPrinter.Join | ui_alias_editor/src/visual_editor.rs:298-314 | the `.join(", ")` of the printed children; no separator around one part (`RustPrinter.OneChildPrintsWithoutComma`), one between two (`RustPrinter.TwoChildrenPrintCommaSeparated`, via `JoinTwoPrinted`), and undone by `Lines` for newlines (`RustPrinter.LinesOfJoin`) |
| RustPrinter.PrintEach | ui_alias_editor/src/visual_editor.rs:294-297 | the mapped list has one entry per child, the i-th being that child's printed text |
| RustPrinter.Print | ui_alias_editor/src/visual_editor.rs:288-318 | the printer; its properties are carried by `RustPrinter.LeavesPrintTheirText`, `EmptyChildListsPrintEmptyBrackets`, `OneChildPrintsWithoutComma`, `TwoChildrenPrintCommaSeparated` and its inverse `TypeParser.ParsePrintRoundTrip` |
| TypeParser.ParsePrinted | ui_alias_editor/src/visual_editor.rs:288-318 | a printed well-formed tree, followed by any text a larger type could follow it with, reads back as the tree (leaf kinds collapsed), leaving that text unread |
| TypeParser.ParsePrintRoundTrip | ui_alias_editor/src/visual_editor.rs:288-318 | reading the printed text of a well-formed tree gives back the tree up to leaf kind, with nothing left over |
| TypeParser.PrintIgnoresLeafKind | ui_alias_editor/src/visual_editor.rs:290-292 | a tree and its leaf-kind-collapsed form print the same |
| TypeParser.PrintDistinguishesTrees | ui_alias_editor/src/visual_editor.rs:288-318 | two well-formed trees print alike if and only if they agree up to leaf kind |
| RustPrinter.PreviewIsTemplate | ui_alias_editor/src/visual_editor.rs:274-286 | for every display name and type, the preview is the template text: header, newline, `pub type N = T;` with the printed type, a blank line, usage header, newline, `// let value: N = ...;` |
| RustPrinter.PreviewDeclaresAlias | ui_alias_editor/src/visual_editor.rs:274-286 | when the display name and printed type contain no newline, the preview splits into exactly those five lines |
| RustPrinter.GeneratePreviewCode | ui_alias_editor/src/visual_editor.rs:274-286 | the preview template; stated by `RustPrinter.PreviewIsTemplate` and `RustPrinter.PreviewDeclaresAlias` |
| RustPrinter.LinesOfJoin | ui_alias_editor/src/visual_editor.rs:277-285 | splitting at newlines recovers lines that were joined with newlines |
| StringOrder.Less | ui_alias_editor/src/type_palette.rs:79 | the `&str` key order of `sort_by_key`; proved a strict total order by `StringOrder.LessIrreflexive`, `StringOrder.LessAsymmetric`, `StringOrder.LessTransitive` and `StringOrder.LessConnected` |
| StringOrder.LessTransitive | ui_alias_editor/src/type_palette.rs:79 | the key order used by `sort_by_key` is transitive |
| StringOrder.LessConnected | ui_alias_editor/src/type_palette.rs:79 | any two different category names are ordered one way or the other |
| TypePalette.Name | ui_alias_editor/src/type_palette.rs:12-17 | the item's name; stated by `TypePalette.ItemDisplayMatchesBlock` |
| TypePalette.Description | ui_alias_editor/src/type_palette.rs:19-24 | "Primitive type" or the constructor's description; stated by `TypePalette.ItemDisplayMatchesBlock` |
| TypePalette.Icon | ui_alias_editor/src/type_palette.rs:26-31 | `Code` for primitives, `Box` for constructors; stated by `TypePalette.ItemDisplayMatchesBlock` |
| TypePalette.Keywords | ui_alias_editor/src/type_palette.rs:33-35 | no keywords; stated by `TypePalette.ItemDisplayMatchesBlock` |
| TypePalette.Documentation | ui_alias_editor/src/type_palette.rs:37-39 | no documentation; stated by `TypePalette.ItemDisplayMatchesBlock` |
| TypePalette.ToBlock | ui_alias_editor/src/type_palette.rs:126-133 | the block an item asks for; stated by `TypePalette.ItemDisplayMatchesBlock` and `TypePalette.ToBlockForgetsOnlyDescription` |
| TypePalette.ItemDisplayMatchesBlock | ui_alias_editor/src/type_palette.rs:12-39 | the block carries the item's name; the `Code` icon marks exactly the primitive blocks and `Box` exactly the constructor blocks; primitives describe themselves as "Primitive type", constructors by their stored description; no keywords, no documentation |
| TypePalette.ToBlockForgetsOnlyDescription | ui_alias_editor/src/type_palette.rs:126-133 | two items give the same block if and only if they are the same kind with the same name (and arity), whatever their descriptions |
| TypePalette.PrimitiveItems | ui_alias_editor/src/type_palette.rs:57-60 | one `Primitive` item per primitive name, in the same order |
| TypePalette.Push | ui_alias_editor/src/type_palette.rs:66-75 | one `entry(..).or_insert_with(..).push(..)`; stated by `TypePalette.PushFilesItem` and `TypePalette.PushKeepsKeysDistinct` |
| TypePalette.GroupByCategory | ui_alias_editor/src/type_palette.rs:64-75 | the grouping loop; stated by `TypePalette.GroupByCategoryFilters` |
| TypePalette.SortByKey | ui_alias_editor/src/type_palette.rs:77-79 | the sort by category name; stated by `TypePalette.SortByKeySorts` |
| TypePalette.PushFilesItem | ui_alias_editor/src/type_palette.rs:66-75 | pushing appends the item to its category's group, creating the group if needed, and leaves every other group as it was |
| TypePalette.PushKeepsKeysDistinct | ui_alias_editor/src/type_palette.rs:66-69 | a push never creates a second group for an existing category |
| TypePalette.GroupByCategoryFilters | ui_alias_editor/src/type_palette.rs:64-75 | one group per registry category, each holding exactly that category's constructors in registry order, all constructors counted once |
| TypePalette.InsertByKeyPermutes | ui_alias_editor/src/type_palette.rs:78-79 | inserting adds exactly the one group |
| TypePalette.InsertByKeyKeepsSorted | ui_alias_editor/src/type_palette.rs:78-79 | inserting a group with a new name into strictly ascending groups keeps them strictly ascending |
| TypePalette.SortByKeySorts | ui_alias_editor/src/type_palette.rs:77-79 | sorting groups with distinct names permutes them into strictly ascending name order |
| TypePalette.New | ui_alias_editor/src/type_palette.rs:49-90 | the palette's construction; stated by `TypePalette.NewListsPrimitivesThenSortedCategories` and `TypePalette.NewListsEveryConstructor` |
| TypePalette.NewListsPrimitivesThenSortedCategories | ui_alias_editor/src/type_palette.rs:49-90 | "Primitives" comes first with one item per primitive in order. The rest are the registry's categories, each exactly once, strictly ascending, each holding exactly its constructors in registry order. The item count equals the registry size. Nothing is selected, and the target slot is the one given |
| TypePalette.NewListsEveryConstructor | ui_alias_editor/src/type_palette.rs:63-83 | every registry entry is listed under the category it names |
| TypePalette.Confirm | ui_alias_editor/src/type_palette.rs:112-114 | confirming stores the item and changes neither the categories nor the target slot |
| TypePalette.TakeSelectedItem | ui_alias_editor/src/type_palette.rs:92-94 | taking returns the stored item and leaves nothing stored |
| TypePalette.ConfirmThenTakeOnce | ui_alias_editor/src/type_palette.rs:92-114 | `confirm(item)` then `take_selected_item()` returns that item, and a second take returns `None` |
| TypePalette.TargetSlot | ui_alias_editor/src/type_palette.rs:96-98 | `target_slot()`; stated by `TypePalette.TargetSlotIsFixed` |
| TypePalette.Categories | ui_alias_editor/src/type_palette.rs:108-110 | `categories()`; the categories `new` builds, unchanged by `confirm` and `take` (`TypePalette.Confirm`, `TypePalette.ConfirmThenTakeOnce`) |
| TypePalette.TargetSlotIsFixed | ui_alias_editor/src/type_palette.rs:49-98 | `target_slot()` is the slot passed to `new`, before and after `confirm` and `take_selected_item` |
| VisualEditor.AddBlockToCanvas | ui_alias_editor/src/visual_editor.rs:195-218 | No root: the block becomes the root and error, pending block and selection are cleared. Root and selected slot: on success the canvas is the filled one and all three are cleared; on refusal the error is "Failed to fill slot" and selection and pending block are kept. Root, no slot: the block waits, the prompt is shown, the canvas is untouched. The preview is marked stale on every path |
| VisualEditor.SelectSlot | ui_alias_editor/src/visual_editor.rs:221-233 | the slot is always recorded; a pending block is taken out and placed; otherwise a picker request for exactly that slot is emitted, and only then |
| VisualEditor.SelectSlotPlacesPendingBlock | ui_alias_editor/src/visual_editor.rs:221-233 | with a root, the pending block is offered to exactly the clicked slot; on refusal the selection stays but the block is lost |
| VisualEditor.AddTypeFromPicker | ui_alias_editor/src/visual_editor.rs:236-253 | with a target slot the item's block fills that slot (success clears error and selection; refusal sets "Failed to fill slot"); the pending block is kept either way; without a target it behaves as `add_block_to_canvas`; the preview is marked stale |
| VisualEditor.PreviewText | ui_alias_editor/src/visual_editor.rs:256-270 | what `update_preview` computes; stated by `VisualEditor.PreviewReflectsCanvas` |
| VisualEditor.PreviewReflectsCanvas | ui_alias_editor/src/visual_editor.rs:256-270 | no root: the add-type hint, one line; an incomplete tree: the fill-slots hint, one line; a complete tree: the template text declaring the alias with the printed type, for every display name, and exactly five lines when the name and printed type contain no newline |
| VisualEditor.DispatchSelection | ui_alias_editor/src/visual_editor.rs:336-346 | no pending click: nothing; an empty `BlockId`: a picker request with no target and no state change; any other id: `select_slot` |
| VisualEditor.SlotClick | ui_alias_editor/src/visual_editor.rs:462-467 | the value a slot click stores; stated by `VisualEditor.ClicksAreDispatched` |
| VisualEditor.EmptyStateClick | ui_alias_editor/src/visual_editor.rs:470-477 | the empty-`BlockId` sentinel an empty-canvas click stores; stated by `VisualEditor.ClicksAreDispatched` |
| VisualEditor.ClicksAreDispatched | ui_alias_editor/src/visual_editor.rs:462-477 | the empty-canvas click opens the root picker; a slot click on a block with a non-empty id selects that slot |
| VisualEditor.Render | ui_alias_editor/src/visual_editor.rs:322-346 | The preview is recomputed exactly when it is marked stale, and is unmarked afterwards. With no pending click or the empty-state sentinel, nothing else changes; the sentinel emits a picker request with no target, and no click emits nothing. A real slot click is handed to `select_slot` on the refreshed editor. Every frame keeps a consistent editor consistent |
| VisualEditor.DispatchKeepsConsistent | ui_alias_editor/src/visual_editor.rs:336-346 | dispatching a pending click keeps the invariant |
| VisualEditor.Save | ui_alias_editor/src/visual_editor.rs:143-183 | No file path: nothing. No root: "Cannot save empty type". Incomplete tree: the empty-slots error. Otherwise an asset with schema version 1, the editor's names, the tree, and `None` for an empty description, with the error cleared or set from the write outcome. Only the error message changes |
| VisualEditor.SaveWritesOnlyCompleteTypes | ui_alias_editor/src/visual_editor.rs:143-183 | an asset is handed over if and only if there is a file path, a root and a complete tree |
| VisualEditor.Load | ui_alias_editor/src/visual_editor.rs:60-137 | A parsed asset gives its names, its description (`None` becomes empty) and a root built from its tree. An unreadable file gives a new alias; a parse failure also sets "Failed to parse: …". The preview starts fresh, with no selection and no pending block |
| VisualEditor.SaveThenLoadRestoresDocument | ui_alias_editor/src/visual_editor.rs:62-159 | loading a saved asset restores name, display name and description, and a root built from the saved tree |
| VisualEditor.LoadIsConsistent | ui_alias_editor/src/visual_editor.rs:115-134 | a freshly loaded editor satisfies the invariant |
| VisualEditor.AddBlockKeepsConsistent | ui_alias_editor/src/visual_editor.rs:195-218 | `add_block_to_canvas` keeps the invariant |
| VisualEditor.SelectSlotKeepsConsistent | ui_alias_editor/src/visual_editor.rs:221-233 | `select_slot` keeps the invariant |
| VisualEditor.Step | ui_alias_editor/src/visual_editor.rs:143-346 | one handler run (picked type, render, add-type button, save); stated by `VisualEditor.StepKeepsConsistent` and `VisualEditor.PickerRequestTargets` |
| VisualEditor.StepKeepsConsistent | ui_alias_editor/src/visual_editor.rs:143-346 | every handler (picked type, render, add-type button, save) keeps the invariant |
| VisualEditor.RunKeepsConsistent | ui_alias_editor/src/visual_editor.rs:143-346 | every editor reachable by a sequence of events from a consistent one is consistent |
| VisualEditor.PickerRequestTargets | ui_alias_editor/src/visual_editor.rs:185-233 | the add-type button targets the selected slot; `select_slot` targets exactly its slot, and emits nothing when it places a pending block |

## Left out

- Rendering is left out because it is presentation only. That covers layout,
  theming, `hsla` colours, fonts, resizable panels, buttons, the
  `Panel`/`Focusable`/`EventEmitter` impls, and the show/hide-preview toggle.
- File reading and writing and `serde_json` are I/O and a foreign library.
  Their outcomes are inputs (`LoadSource`, `WriteOutcome`). Error texts are
  modelled as strings, and the asset's empty `meta` object is omitted.
- The `Arc<Mutex<…>>` pending-click cell and its closures are callback
  plumbing. Only the value a render finds in the cell is modelled; a poisoned
  lock reads as no click.
- `BlockCanvas`, `TypeBlock` (`from_ast`, `to_ast`, `primitive`, `constructor`)
  and `fill_slot` are not part of this model; they are the function inputs of
  `CanvasOps`. A refused `fill_slot` is taken to leave the canvas unchanged.
- `get_all_type_constructors`, the contents of `PRIMITIVES`, and `IconName`
  beyond `Code` and `Box` are external data. The first two are inputs.
- Only the fields the printer reads are modelled in `TypeAstNode`. The other
  fields of its `Constructor` variant are unknown here.
- Some members are trivial getters or constants and are not modelled:
  `file_path`, `placeholder` (the fixed text "Search for types..."),
  `categories_collapsed_by_default` and `supports_docs`.
- Text typed into the preview's code-editor input is not an event of the
  model. The invariant's claim that an unmarked preview equals what
  `update_preview` computes assumes only `update_preview` writes that input.
- `InputState` configuration, `cx.notify`, `cx.emit` and `eprintln!` are not
  modelled. Emitted requests are returned values.
- TypePalette.Push keeps groups in first-seen order, where the source's
  `HashMap` iterates in an unspecified order, and TypePalette.SortByKey is not
  stable where `sort_by_key` is. Both differences are erased or never arise:
  the sort fixes the order of the groups, and the grouping never yields two
  groups with one name (`TypePalette.GroupByCategoryFilters`).
- RustPrinter.PreviewDeclaresAlias states the five-line split only for a
  display name and printed type without newlines; a name such as "A\nB" gives
  more lines. The text itself is fixed for every input by
  `RustPrinter.PreviewIsTemplate`.
- VisualEditor.PreviewReflectsCanvas states the five-line split only under the
  same newline-free condition; its template-text clause holds for every input.
- RustPrinter.TwoChildrenPrintCommaSeparated states the separator for two
  children. The general n-child shape is the definition of `Print` itself.
  What the model proves about it in general is the round trip.
- TypeParser.PrintDistinguishesTrees holds only for well-formed trees, whose
  names are non-empty and contain none of `< > ( ) ,`. With such characters in
  a name, different trees can print alike.
