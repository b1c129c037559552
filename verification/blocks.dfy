/**
  Identifiers shared by the palette and the editor. The block tree itself
  (`TypeBlock`, `BlockCanvas`) is not part of this model.
 */
module Blocks {

  /** A block's identity; the empty key is used as a sentinel by the editor. */
  datatype BlockId = BlockId(key: string)

  /** A slot: the parent block and the slot's index in it. */
  type SlotRef = (BlockId, nat)

  /** The fresh block a palette item asks for: `TypeBlock::primitive` or `TypeBlock::constructor`. */
  datatype BlockSpec =
    | PrimitiveBlock(name: string)
    | ConstructorBlock(name: string, arity: nat)
}
