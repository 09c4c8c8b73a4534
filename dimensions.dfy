/**
 * The fixed chunk dimensions shared by every component (`Chunk::WIDTH`,
 * `Chunk::HEIGHT`, `Chunk::LENGTH`, `Chunk::VOLUME`), and the block-type ids
 * the core relies on.
 */
module Dimensions {
  import opened Bits

  const WIDTH: nat := 16
  const HEIGHT: nat := 256
  const LENGTH: nat := 16
  const VOLUME: nat := WIDTH * HEIGHT * LENGTH

  /** Block-type ids (a `u8`). Only `AIR == 0` matters to storage and meshing;
      the others are the values of the block-type enumeration in declaration order. */
  const AIR: byte := 0
  const DIRT: byte := 1
  const GRASS_BLOCK: byte := 2
  const STONE: byte := 3
  const COBBLESTONE: byte := 4
  const BEDROCK: byte := 5
  const GRAVEL: byte := 6
  const SAND: byte := 7
}
