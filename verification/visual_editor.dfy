/**
  The decision logic of the visual alias editor (`VisualAliasEditor`):
  placing blocks into slots, the picker requests it emits, the preview it
  keeps, and what save and load do. The canvas is abstract: an optional
  root plus the canvas operations this file calls, passed in as functions
  (`CanvasOps`), because `BlockCanvas` and `TypeBlock` are not part of this
  model. `B` is the block type.
 */
module VisualEditor {
  import opened Wrappers
  import opened Blocks
  import opened TypeAst
  import RustPrinter
  import TypePalette

  datatype Canvas<B> = Canvas(root: Option<B>)

  /**
    The canvas and block operations the editor calls: `fill_slot` (None when
    it refuses; the canvas is then left as it was), `to_ast` (None while a
    slot is empty), `TypeBlock::from_ast`, and the block constructors that
    `to_block` asks for.
   */
  datatype CanvasOps<!B> = CanvasOps(
    fillSlot: (Canvas<B>, SlotRef, B) -> Option<Canvas<B>>,
    toAst: B -> Option<TypeAstNode>,
    fromAst: TypeAstNode -> B,
    build: BlockSpec -> B)

  datatype Editor<B> = Editor(
    filePath: Option<string>,
    name: string,
    displayName: string,
    description: string,
    canvas: Canvas<B>,
    preview: string,              // the text of the preview input
    previewNeedsUpdate: bool,
    errorMessage: Option<string>,
    showPreview: bool,
    selectedSlot: Option<SlotRef>,
    pendingBlock: Option<B>)

  /** The event the editor emits to open the type picker (`ShowTypePickerRequest`). */
  datatype PickerRequest = ShowTypePicker(targetSlot: Option<SlotRef>)

  const FillFailed: string := "Failed to fill slot"
  const PlacePrompt: string := "Click on an empty slot to place this type"
  const EmptyTypeError: string := "Cannot save empty type"
  const EmptySlotsError: string := "Type has empty slots - fill all slots before saving"
  const FillSlotsHint: string := "// Fill all slots to see generated code"
  const AddTypeHint: string := "// Click to add a type or use the Add Type button"
  const NewAliasName: string := "New Alias"

  /** Each preview hint is a single line. */
  lemma HintsAreSingleLines()
    ensures RustPrinter.NoNewline(FillSlotsHint) && RustPrinter.NoNewline(AddTypeHint)
  {
    FillSlotsHintIsOneLine();
    AddTypeHintIsOneLine();
  }

  // each hint is cut into pieces only to help the prover; the pieces concatenate to the constant
  lemma FillSlotsHintIsOneLine()
    ensures RustPrinter.NoNewline(FillSlotsHint)
  {
    var a, b := "// Fill all slots", " to see generated code";
    assert FillSlotsHint == a + b;
    NoNewlineSplit(a, b);
  }

  lemma AddTypeHintIsOneLine()
    ensures RustPrinter.NoNewline(AddTypeHint)
  {
    var a, b, c := "// Click to add", " a type or use", " the Add Type button";
    assert AddTypeHint == a + (b + c);
    NoNewlineSplit(b, c);
    NoNewlineSplit(a, b + c);
  }

  lemma NoNewlineSplit(a: string, b: string)
    requires RustPrinter.NoNewline(a) && RustPrinter.NoNewline(b)
    ensures RustPrinter.NoNewline(a + b)
  {
    assert forall c :: c in a + b <==> c in a || c in b;
  }

  /** The fields a placement never touches. */
  predicate SameDocument<B>(s: Editor<B>, r: Editor<B>) {
    && r.filePath == s.filePath
    && r.name == s.name
    && r.displayName == s.displayName
    && r.description == s.description
    && r.preview == s.preview
    && r.showPreview == s.showPreview
  }

  // ----- placing blocks -----

  /** `add_block_to_canvas`. */
  function AddBlockToCanvas<B>(s: Editor<B>, block: B, fill: (Canvas<B>, SlotRef, B) -> Option<Canvas<B>>): (r: Editor<B>)
    ensures r.previewNeedsUpdate
    ensures SameDocument(s, r)
    // no root yet: the block becomes the root and the placement state is cleared
    ensures s.canvas.root.None? ==>
      r.canvas.root == Some(block) && r.errorMessage.None? && r.pendingBlock.None? && r.selectedSlot.None?
    // a root and a selected slot: the block goes into that slot
    ensures s.canvas.root.Some? && s.selectedSlot.Some? && fill(s.canvas, s.selectedSlot.value, block).Some? ==>
      r.canvas == fill(s.canvas, s.selectedSlot.value, block).value
      && r.errorMessage.None? && r.selectedSlot.None? && r.pendingBlock.None?
    ensures s.canvas.root.Some? && s.selectedSlot.Some? && fill(s.canvas, s.selectedSlot.value, block).None? ==>
      r.canvas == s.canvas && r.errorMessage == Some(FillFailed)
      && r.selectedSlot == s.selectedSlot && r.pendingBlock == s.pendingBlock
    // a root but no slot: the block waits and the user is prompted
    ensures s.canvas.root.Some? && s.selectedSlot.None? ==>
      r.canvas == s.canvas && r.pendingBlock == Some(block) && r.errorMessage == Some(PlacePrompt)
      && r.selectedSlot.None?
  {
    var placed :=
      if s.canvas.root.None? then
        s.(canvas := Canvas(Some(block)), errorMessage := None, pendingBlock := None, selectedSlot := None)
      else if s.selectedSlot.Some? then
        match fill(s.canvas, s.selectedSlot.value, block)
        case Some(c) => s.(canvas := c, errorMessage := None, selectedSlot := None, pendingBlock := None)
        case None => s.(errorMessage := Some(FillFailed))
      else
        s.(pendingBlock := Some(block), errorMessage := Some(PlacePrompt));
    placed.(previewNeedsUpdate := true)
  }

  /** `select_slot`: records the slot, then places the pending block or asks for a type. */
  function SelectSlot<B>(s: Editor<B>, slot: SlotRef, fill: (Canvas<B>, SlotRef, B) -> Option<Canvas<B>>): (r: (Editor<B>, Option<PickerRequest>))
    ensures r.1.Some? <==> s.pendingBlock.None?
    ensures s.pendingBlock.None? ==>
      r.0 == s.(selectedSlot := Some(slot)) && r.1 == Some(ShowTypePicker(Some(slot)))
    ensures s.pendingBlock.Some? ==>
      r.0 == AddBlockToCanvas(s.(selectedSlot := Some(slot), pendingBlock := None), s.pendingBlock.value, fill)
  {
    var s1 := s.(selectedSlot := Some(slot));
    match s1.pendingBlock
    case Some(block) => (AddBlockToCanvas(s1.(pendingBlock := None), block, fill), None)
    case None => (s1, Some(ShowTypePicker(Some(slot))))
  }

  /**
    A pending block and a clicked slot: on a canvas with a root the block is
    offered to exactly that slot. If the canvas refuses, the block is gone:
    it was taken out of `pending_block` before the attempt.
   */
  lemma SelectSlotPlacesPendingBlock<B>(s: Editor<B>, slot: SlotRef, fill: (Canvas<B>, SlotRef, B) -> Option<Canvas<B>>)
    requires s.pendingBlock.Some? && s.canvas.root.Some?
    ensures var r := SelectSlot(s, slot, fill).0;
      && r.previewNeedsUpdate
      && (fill(s.canvas, slot, s.pendingBlock.value).Some? ==>
            r.canvas == fill(s.canvas, slot, s.pendingBlock.value).value
            && r.selectedSlot.None? && r.pendingBlock.None? && r.errorMessage.None?)
      && (fill(s.canvas, slot, s.pendingBlock.value).None? ==>
            r.canvas == s.canvas && r.selectedSlot == Some(slot)
            && r.pendingBlock.None? && r.errorMessage == Some(FillFailed))
  {
  }

  /** `add_type_from_picker`. */
  function AddTypeFromPicker<B>(s: Editor<B>, item: TypePalette.TypeItem, target: Option<SlotRef>, ops: CanvasOps<B>): (r: Editor<B>)
    ensures r.previewNeedsUpdate
    ensures SameDocument(s, r)
    ensures target.Some? && ops.fillSlot(s.canvas, target.value, ops.build(TypePalette.ToBlock(item))).Some? ==>
      r.canvas == ops.fillSlot(s.canvas, target.value, ops.build(TypePalette.ToBlock(item))).value
      && r.errorMessage.None? && r.selectedSlot.None? && r.pendingBlock == s.pendingBlock
    ensures target.Some? && ops.fillSlot(s.canvas, target.value, ops.build(TypePalette.ToBlock(item))).None? ==>
      r.canvas == s.canvas && r.errorMessage == Some(FillFailed)
      && r.selectedSlot == s.selectedSlot && r.pendingBlock == s.pendingBlock
    ensures target.None? ==> r == AddBlockToCanvas(s, ops.build(TypePalette.ToBlock(item)), ops.fillSlot)
  {
    var block := ops.build(TypePalette.ToBlock(item));
    var placed :=
      match target
      case Some(slot) =>
        (match ops.fillSlot(s.canvas, slot, block)
         case Some(c) => s.(canvas := c, errorMessage := None, selectedSlot := None)
         case None => s.(errorMessage := Some(FillFailed)))
      case None => AddBlockToCanvas(s, block, ops.fillSlot);
    placed.(previewNeedsUpdate := true)
  }

  // ----- the preview -----

  /** The text `update_preview` puts into the preview. */
  function PreviewText<B>(canvas: Canvas<B>, displayName: string, toAst: B -> Option<TypeAstNode>): (r: string) {
    match canvas.root
    case None => AddTypeHint
    case Some(root) =>
      match toAst(root)
      case None => FillSlotsHint
      case Some(ast) => RustPrinter.GeneratePreviewCode(displayName, ast)
  }

  /**
    With a complete tree the preview declares the alias with the printed
    type on its second line; otherwise it is a one-line hint saying what is
    missing.
   */
  lemma PreviewReflectsCanvas<B>(canvas: Canvas<B>, displayName: string, toAst: B -> Option<TypeAstNode>)
    ensures canvas.root.None? ==> RustPrinter.Lines(PreviewText(canvas, displayName, toAst)) == [AddTypeHint]
    ensures canvas.root.Some? && toAst(canvas.root.value).None? ==>
      RustPrinter.Lines(PreviewText(canvas, displayName, toAst)) == [FillSlotsHint]
    ensures canvas.root.Some? && toAst(canvas.root.value).Some? ==>
      PreviewText(canvas, displayName, toAst)
        == RustPrinter.PreviewHeader + "\n" + RustPrinter.AliasDeclaration(displayName, toAst(canvas.root.value).value)
           + "\n\n" + RustPrinter.UsageHeader + "\n" + RustPrinter.UsageLine(displayName)
    ensures (canvas.root.Some? && toAst(canvas.root.value).Some?
             && RustPrinter.NoNewline(displayName)
             && RustPrinter.NoNewline(RustPrinter.Print(toAst(canvas.root.value).value))) ==>
      RustPrinter.Lines(PreviewText(canvas, displayName, toAst))
        == [RustPrinter.PreviewHeader, RustPrinter.AliasDeclaration(displayName, toAst(canvas.root.value).value),
            "", RustPrinter.UsageHeader, RustPrinter.UsageLine(displayName)]
  {
    match canvas.root
    case None =>
      HintsAreSingleLines();
      RustPrinter.LinesOfSingleLine(AddTypeHint);
    case Some(root) =>
      match toAst(root)
      case None =>
        HintsAreSingleLines();
        RustPrinter.LinesOfSingleLine(FillSlotsHint);
      case Some(ast) =>
        RustPrinter.PreviewIsTemplate(displayName, ast);
        if RustPrinter.NoNewline(displayName) && RustPrinter.NoNewline(RustPrinter.Print(ast)) {
          RustPrinter.PreviewDeclaresAlias(displayName, ast);
        }
  }

  // ----- render: preview refresh and the pending click -----

  /** The value the empty-canvas click handler leaves for the next render: the sentinel. */
  function EmptyStateClick(): (r: Option<SlotRef>) {
    Some((BlockId(""), 0))
  }

  /** The value a slot's click handler leaves for the next render. */
  function SlotClick(parent: BlockId, index: nat): (r: Option<SlotRef>) {
    Some((parent, index))
  }

  /** The dispatch of a pending click in `render`. */
  function DispatchSelection<B>(s: Editor<B>, selection: Option<SlotRef>, fill: (Canvas<B>, SlotRef, B) -> Option<Canvas<B>>): (r: (Editor<B>, Option<PickerRequest>))
    ensures selection.None? ==> r == (s, None)
    ensures selection.Some? && selection.value.0.key == "" ==> r == (s, Some(ShowTypePicker(None)))
    ensures selection.Some? && selection.value.0.key != "" ==> r == SelectSlot(s, selection.value, fill)
  {
    match selection
    case None => (s, None)
    case Some((id, index)) =>
      if |id.key| == 0 then (s, Some(ShowTypePicker(None)))
      else SelectSlot(s, (id, index), fill)
  }

  /**
    A click on the empty canvas opens the picker with no target and changes
    nothing; a click on a slot of a block with a non-empty id is a slot
    selection.
   */
  lemma ClicksAreDispatched<B>(s: Editor<B>, parent: BlockId, index: nat, fill: (Canvas<B>, SlotRef, B) -> Option<Canvas<B>>)
    ensures DispatchSelection(s, EmptyStateClick(), fill) == (s, Some(ShowTypePicker(None)))
    ensures parent.key != "" ==> DispatchSelection(s, SlotClick(parent, index), fill) == SelectSlot(s, (parent, index), fill)
    ensures parent.key != "" && s.pendingBlock.None? ==>
      DispatchSelection(s, SlotClick(parent, index), fill).1 == Some(ShowTypePicker(Some((parent, index))))
  {
  }

  /** One `render`: refresh a stale preview, then dispatch the pending click. */
  function Render<B>(s: Editor<B>, selection: Option<SlotRef>, ops: CanvasOps<B>): (r: (Editor<B>, Option<PickerRequest>))
    // without a slot selection only the preview changes; the sentinel opens the root picker
    ensures selection.None? || selection.value.0.key == "" ==>
      && r.0 == s.(preview := r.0.preview, previewNeedsUpdate := false)
      && r.1 == (if selection.None? then None else Some(ShowTypePicker(None)))
    // ... and the frame ends with a fresh preview of the untouched canvas
    ensures Consistent(s, ops.toAst) && (selection.None? || selection.value.0.key == "") ==>
      && !r.0.previewNeedsUpdate
      && r.0.preview == PreviewText(r.0.canvas, r.0.displayName, ops.toAst)
      && r.0.canvas == s.canvas
    // every frame keeps the editor consistent
    ensures Consistent(s, ops.toAst) ==> Consistent(r.0, ops.toAst)
    // a preview is recomputed exactly when it is marked stale
    ensures selection.None? || selection.value.0.key == "" ==>
      r.0.preview == (if s.previewNeedsUpdate then PreviewText(s.canvas, s.displayName, ops.toAst) else s.preview)
    // a slot click is handled after that refresh
    ensures selection.Some? && selection.value.0.key != "" ==>
      r == SelectSlot(if s.previewNeedsUpdate
                      then s.(preview := PreviewText(s.canvas, s.displayName, ops.toAst), previewNeedsUpdate := false)
                      else s,
                      selection.value, ops.fillSlot)
  {
    var refreshed :=
      if s.previewNeedsUpdate then
        s.(preview := PreviewText(s.canvas, s.displayName, ops.toAst), previewNeedsUpdate := false)
      else s;
    DispatchKeepsConsistent(refreshed, selection, ops);
    DispatchSelection(refreshed, selection, ops.fillSlot)
  }

  // ----- save and load -----

  datatype TypeKind = Alias

  /** The asset written on save (`AliasAsset`); its empty `meta` object is not modelled. */
  datatype AliasAsset = AliasAsset(
    schemaVersion: nat,
    typeKind: TypeKind,
    name: string,
    displayName: string,
    description: Option<string>,
    ast: TypeAstNode)

  /** What serializing and writing the asset came to. */
  datatype WriteOutcome = Written | SerializeFailed(serializeError: string) | WriteFailed(writeError: string)

  /** `save`: the editor after the attempt, and the asset handed to the serializer, if any. */
  function Save<B>(s: Editor<B>, toAst: B -> Option<TypeAstNode>, outcome: WriteOutcome): (r: (Editor<B>, Option<AliasAsset>))
    ensures r.0 == s.(errorMessage := r.0.errorMessage)
    ensures s.filePath.None? ==> r == (s, None)
    ensures s.filePath.Some? && s.canvas.root.None? ==>
      r.0.errorMessage == Some(EmptyTypeError) && r.1.None?
    ensures s.filePath.Some? && s.canvas.root.Some? && toAst(s.canvas.root.value).None? ==>
      r.0.errorMessage == Some(EmptySlotsError) && r.1.None?
    ensures s.filePath.Some? && s.canvas.root.Some? && toAst(s.canvas.root.value).Some? ==>
      && r.1.Some?
      && r.1.value.schemaVersion == 1
      && r.1.value.name == s.name && r.1.value.displayName == s.displayName
      && (r.1.value.description.None? <==> s.description == "")
      && (s.description != "" ==> r.1.value.description == Some(s.description))
      && r.1.value.ast == toAst(s.canvas.root.value).value
      && (outcome.Written? ==> r.0.errorMessage.None?)
      && (outcome.SerializeFailed? ==> r.0.errorMessage == Some("Failed to serialize: " + outcome.serializeError))
      && (outcome.WriteFailed? ==> r.0.errorMessage == Some("Failed to save: " + outcome.writeError))
  {
    if s.filePath.None? then (s, None)
    else
      match s.canvas.root
      case None => (s.(errorMessage := Some(EmptyTypeError)), None)
      case Some(root) =>
        match toAst(root)
        case None => (s.(errorMessage := Some(EmptySlotsError)), None)
        case Some(ast) =>
          var asset := AliasAsset(1, Alias, s.name, s.displayName,
                                  if s.description == "" then None else Some(s.description), ast);
          var message :=
            match outcome
            case Written => None
            case SerializeFailed(e) => Some("Failed to serialize: " + e)
            case WriteFailed(e) => Some("Failed to save: " + e);
          (s.(errorMessage := message), Some(asset))
  }

  /** What reading and parsing the file came to in `new_with_file`. */
  datatype LoadSource = Unreadable | Malformed(parseError: string) | Parsed(asset: AliasAsset)

  /** `new_with_file`: the editor as first shown, preview already filled in. */
  function Load<B>(path: string, source: LoadSource, ops: CanvasOps<B>): (r: Editor<B>)
    ensures r.filePath == Some(path)
    ensures r.selectedSlot.None? && r.pendingBlock.None? && r.showPreview
    ensures !r.previewNeedsUpdate && r.preview == PreviewText(r.canvas, r.displayName, ops.toAst)
    ensures source.Parsed? ==>
      && r.name == source.asset.name && r.displayName == source.asset.displayName
      && r.description == (if source.asset.description.Some? then source.asset.description.value else "")
      && r.canvas.root == Some(ops.fromAst(source.asset.ast))
      && r.errorMessage.None?
    ensures !source.Parsed? ==>
      r.name == "" && r.displayName == NewAliasName && r.description == "" && r.canvas.root.None?
    ensures source.Unreadable? ==> r.errorMessage.None?
    ensures source.Malformed? ==> r.errorMessage == Some("Failed to parse: " + source.parseError)
  {
    var (name, displayName, description, root, error) :=
      match source
      case Parsed(a) =>
        (a.name, a.displayName, if a.description.Some? then a.description.value else "", Some(ops.fromAst(a.ast)), None)
      case Malformed(e) => ("", NewAliasName, "", None, Some("Failed to parse: " + e))
      case Unreadable => ("", NewAliasName, "", None, None);
    var canvas := Canvas(root);
    Editor(Some(path), name, displayName, description, canvas, PreviewText(canvas, displayName, ops.toAst),
           false, error, true, None, None)
  }

  /**
    Saving and loading the saved asset back gives the same name, display
    name and description (an empty description survives as `None`), and the
    block built from the saved tree.
   */
  lemma SaveThenLoadRestoresDocument<B>(s: Editor<B>, ops: CanvasOps<B>)
    requires s.filePath.Some?
    requires Save(s, ops.toAst, Written).1.Some?
    ensures var l := Load(s.filePath.value, Parsed(Save(s, ops.toAst, Written).1.value), ops);
      && l.name == s.name && l.displayName == s.displayName && l.description == s.description
      && l.canvas.root == Some(ops.fromAst(ops.toAst(s.canvas.root.value).value))
      && l.errorMessage.None?
  {
  }

  /** Save hands an asset over exactly when the canvas has a root whose tree is complete. */
  lemma SaveWritesOnlyCompleteTypes<B>(s: Editor<B>, toAst: B -> Option<TypeAstNode>, outcome: WriteOutcome)
    ensures Save(s, toAst, outcome).1.Some? <==>
      s.filePath.Some? && s.canvas.root.Some? && toAst(s.canvas.root.value).Some?
  {
  }

  // ----- the editor as a whole -----

  datatype Event =
    | PickedType(item: TypePalette.TypeItem, target: Option<SlotRef>)   // the picker confirmed an item
    | Frame(selection: Option<SlotRef>)                                 // a render, with the pending click
    | PaletteToggled                                                    // the "Add Type" button
    | SaveRequested(outcome: WriteOutcome)                              // the "Save" button

  /** One event, as the editor's handlers process it; returns any picker request emitted. */
  function Step<B>(s: Editor<B>, e: Event, ops: CanvasOps<B>): (r: (Editor<B>, Option<PickerRequest>)) {
    match e
    case PickedType(item, target) => (AddTypeFromPicker(s, item, target, ops), None)
    case Frame(selection) => Render(s, selection, ops)
    case PaletteToggled => (s, Some(ShowTypePicker(s.selectedSlot)))
    case SaveRequested(outcome) => (Save(s, ops.toAst, outcome).0, None)
  }

  /**
    What the handlers keep true: a block never waits while a slot is
    selected, and a preview not marked stale shows the canvas as it is.
   */
  predicate Consistent<B>(s: Editor<B>, toAst: B -> Option<TypeAstNode>) {
    && !(s.selectedSlot.Some? && s.pendingBlock.Some?)
    && (!s.previewNeedsUpdate ==> s.preview == PreviewText(s.canvas, s.displayName, toAst))
  }

  lemma LoadIsConsistent<B>(path: string, source: LoadSource, ops: CanvasOps<B>)
    ensures Consistent(Load(path, source, ops), ops.toAst)
  {
  }

  lemma AddBlockKeepsConsistent<B>(s: Editor<B>, block: B, ops: CanvasOps<B>)
    requires Consistent(s, ops.toAst)
    ensures Consistent(AddBlockToCanvas(s, block, ops.fillSlot), ops.toAst)
  {
  }

  lemma SelectSlotKeepsConsistent<B>(s: Editor<B>, slot: SlotRef, ops: CanvasOps<B>)
    ensures Consistent(s, ops.toAst) ==> Consistent(SelectSlot(s, slot, ops.fillSlot).0, ops.toAst)
  {
    if Consistent(s, ops.toAst) && s.pendingBlock.Some? {
      AddBlockKeepsConsistent(s.(selectedSlot := Some(slot), pendingBlock := None), s.pendingBlock.value, ops);
    }
  }

  /** Dispatching a click keeps the editor consistent. */
  lemma DispatchKeepsConsistent<B>(s: Editor<B>, selection: Option<SlotRef>, ops: CanvasOps<B>)
    ensures Consistent(s, ops.toAst) ==> Consistent(DispatchSelection(s, selection, ops.fillSlot).0, ops.toAst)
  {
    if selection.Some? {
      SelectSlotKeepsConsistent(s, selection.value, ops);
    }
  }

  /** Every event keeps the editor consistent. */
  lemma StepKeepsConsistent<B>(s: Editor<B>, e: Event, ops: CanvasOps<B>)
    requires Consistent(s, ops.toAst)
    ensures Consistent(Step(s, e, ops).0, ops.toAst)
  {
    match e
    case PickedType(item, target) =>
      if target.None? {
        AddBlockKeepsConsistent(s, ops.build(TypePalette.ToBlock(item)), ops);
      }
    case Frame(selection) =>
    case PaletteToggled =>
    case SaveRequested(outcome) =>
  }

  /** The editor after a sequence of events. */
  function Run<B>(s: Editor<B>, events: seq<Event>, ops: CanvasOps<B>): (r: Editor<B>)
    decreases |events|
  {
    if |events| == 0 then s else Run(Step(s, events[0], ops).0, events[1..], ops)
  }

  /** Every editor reachable from a load is consistent. */
  lemma {:induction false} RunKeepsConsistent<B>(s: Editor<B>, events: seq<Event>, ops: CanvasOps<B>)
    requires Consistent(s, ops.toAst)
    ensures Consistent(Run(s, events, ops), ops.toAst)
    decreases |events|
  {
    if |events| > 0 {
      StepKeepsConsistent(s, events[0], ops);
      RunKeepsConsistent(Step(s, events[0], ops).0, events[1..], ops);
    }
  }

  /** The picker requests each handler emits, and the slot each one targets. */
  lemma PickerRequestTargets<B>(s: Editor<B>, slot: SlotRef, ops: CanvasOps<B>)
    ensures Step(s, PaletteToggled, ops).1 == Some(ShowTypePicker(s.selectedSlot))
    ensures s.pendingBlock.None? ==> SelectSlot(s, slot, ops.fillSlot).1 == Some(ShowTypePicker(Some(slot)))
    ensures s.pendingBlock.Some? ==> SelectSlot(s, slot, ops.fillSlot).1.None?
  {
  }
}
