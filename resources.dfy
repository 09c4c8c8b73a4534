/**
 * The client's block resources: the terrain atlas, a 16 x 16 grid of
 * textures addressed by item id, and the block registry, an append-only
 * table of per-face texture ids indexed by block id with entry 0 as the
 * fallback for unknown ids.
 */
module Resources {
  const NUM_ITEMS_X: nat := 16
  const NUM_ITEMS_Y: nat := 16

  /** `TerrainAtlas::get_uv`: the column and row of an atlas item. */
  function GetUv(id: nat): (uv: (nat, nat))
    ensures uv.0 < NUM_ITEMS_X
    ensures NUM_ITEMS_X * uv.1 + uv.0 == id
  {
    (id % NUM_ITEMS_X, id / NUM_ITEMS_X)
  }

  /** The cell is unique: any column/row pair that addresses `id` is `GetUv(id)`. */
  lemma GetUvUnique(id: nat, u: nat, v: nat)
    requires u < NUM_ITEMS_X && NUM_ITEMS_X * v + u == id
    ensures GetUv(id) == (u, v)
  {
  }

  /** `Block`: the atlas item of each of the six faces. */
  datatype Block = Block(left: nat, right: nat, bottom: nat, top: nat, back: nat, front: nat)

  /** `Block::all`: the same texture on every face. */
  function All(texture: nat): (b: Block)
    ensures b.left == b.right == b.bottom == b.top == b.back == b.front == texture
  {
    Block(texture, texture, texture, texture, texture, texture)
  }

  /** `Block::side`: one texture on the four sides, others on top and bottom. */
  function Side(side: nat, top: nat, bottom: nat): (b: Block)
    ensures b.left == b.right == b.back == b.front == side
    ensures b.top == top && b.bottom == bottom
  {
    Block(side, side, bottom, top, side, side)
  }

  /** `BlockRegistry::get` over the table: the entry `id`, or entry 0 when
      `id` is past the end. */
  function Lookup(table: seq<Block>, id: nat): (b: Block)
    requires |table| > 0
    ensures id < |table| ==> b == table[id]
    ensures id >= |table| ==> b == table[0]
  {
    if id < |table| then table[id] else table[0]
  }

  /** Appending never changes what an existing id looks up, and the new id
      finds the new block. */
  lemma LookupAfterRegister(table: seq<Block>, block: Block, id: nat)
    requires |table| > 0
    ensures Lookup(table + [block], id) ==
            if id < |table| then Lookup(table, id) else if id == |table| then block else table[0]
  {
  }

  class BlockRegistry {
    var blocks: seq<Block>

    ghost predicate Valid()
      reads this
    {
      |blocks| > 0
    }

    /** `BlockRegistry::create`: only the fallback `Block::all(0)`. */
    constructor ()
      ensures Valid() && blocks == [All(0)]
    {
      blocks := [All(0)];
    }

    /** `register`: append; the new block gets id `old(|blocks|)`. */
    method Register(block: Block)
      requires Valid()
      modifies this
      ensures Valid() && blocks == old(blocks) + [block]
      ensures Get(old(|blocks|)) == block
      ensures forall id: nat | id < old(|blocks|) :: Get(id) == old(Get(id))
    {
      blocks := blocks + [block];
    }

    /** `get`: never fails, unknown ids fall back to entry 0. */
    function Get(id: nat): (b: Block)
      requires Valid()
      reads this
      ensures id < |blocks| ==> b == blocks[id]
      ensures id >= |blocks| ==> b == blocks[0]
    {
      Lookup(blocks, id)
    }
  }
}
