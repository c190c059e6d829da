/**
 * The world store the queue coordinator writes into: its values, its state,
 * the calls the coordinator makes on it, and a mutable `World` object whose
 * methods are those calls.
 *
 * Engine values (materials, block data, biomes, items, NBT tags) are opaque
 * here and represented by naturals. Material 0 with data 0 is the legacy
 * numeric id of air, the block `BlockUtil.get(0, 0)` denotes.
 */
module Store {

  datatype Option<+T> = None | Some(value: T)

  type Material = nat
  type BlockData = nat
  type Biome = nat
  type Item = nat
  type Tag = nat

  /** An absolute block coordinate (WorldEdit's BlockVector3). */
  datatype Coord = Coord(x: int, y: int, z: int)

  /** WorldEdit's BaseBlock: a type, its data, and an optional NBT tag. */
  datatype Block = Block(material: Material, data: BlockData, nbt: Option<Tag>)

  /** A BlockState: a block without its NBT tag. */
  datatype BlockState = BlockState(material: Material, data: BlockData)

  /** What an unwritten coordinate holds. */
  const Air := Block(0, 0, None)

  function StateOf(b: Block): BlockState {
    BlockState(b.material, b.data)
  }

  /** Outcome of a primary `setBlock`: accepted, or refused with a WorldEditException. */
  datatype WriteResult = Ok | Err

  /** Every call the coordinator makes on the store, in the order made. */
  datatype Event =
    | Placed(at: Coord, block: Block)
    | Refused(at: Coord, block: Block)
    | InventoryCleared(at: Coord)
    | TypeSet(at: Coord, material: Material)
    | DataSet(at: Coord, data: BlockData)
    | BiomeSet(at: Coord, biome: Biome)
    | TagRestored(world: string, at: Coord, tag: Tag)

  /**
   * The store's observable state: the block at each written coordinate, the
   * items recorded in the block entity at a coordinate, the biome at each
   * written coordinate, and the log of calls. Whether a coordinate is a
   * container follows from the block there (`Engine.isContainer`).
   */
  datatype WorldState = WorldState(
    blocks: map<Coord, Block>,
    inventories: map<Coord, seq<Item>>,
    biomes: map<Coord, Biome>,
    trace: seq<Event>)

  function Read(st: WorldState, c: Coord): Block {
    if c in st.blocks then st.blocks[c] else Air
  }

  /** The items held at `c`; none where no block entity holds any. */
  function Contents(st: WorldState, c: Coord): seq<Item> {
    if c in st.inventories then st.inventories[c] else []
  }

  /** `s` and `t` hold the same block and the same contents at every coordinate outside `cs`. */
  ghost predicate CellsAgreeOutside(s: WorldState, t: WorldState, cs: set<Coord>) {
    forall c :: c !in cs ==> Read(s, c) == Read(t, c) && Contents(s, c) == Contents(t, c)
  }

  /** The behaviour of the engine behind the store, fixed for one world. */
  datatype Engine = Engine(
    name: string,
    // whether `setBlock` accepts this block at this coordinate
    primary: (Coord, Block) -> WriteResult,
    // Bukkit's BlockData.matches(existing, target)
    matches: (BlockData, BlockData) -> bool,
    // BukkitBlockUtil.get: the state WorldEdit derives from a live block of this material and data
    blockUtil: (Material, BlockData) -> BlockState,
    // whether a block of this material has a Container block state
    isContainer: Material -> bool)

  // The store's primitive operations on a state. Each logs its call.

  /** An accepted write replaces the block entity: what the new block holds comes from its own (opaque) tag. */
  function WithBlock(st: WorldState, c: Coord, b: Block): WorldState
  {
    st.(blocks := st.blocks[c := b], inventories := st.inventories - {c}, trace := st.trace + [Placed(c, b)])
  }

  function WithRefusal(st: WorldState, c: Coord, b: Block): WorldState
  {
    st.(trace := st.trace + [Refused(c, b)])
  }

  function WithInventoryCleared(st: WorldState, c: Coord): WorldState
  {
    st.(inventories := st.inventories - {c}, trace := st.trace + [InventoryCleared(c)])
  }

  /** Block `b` given material `m`: a new material comes without the old block entity, so without its tag. */
  function Retyped(b: Block, m: Material): (r: Block)
    ensures r.material == m && r.data == b.data
    ensures r.nbt == if m == b.material then b.nbt else None
  {
    if m == b.material then b else Block(m, b.data, None)
  }

  /** Changing a block's material discards its block entity: its tag and what it held. */
  function WithType(st: WorldState, c: Coord, m: Material): WorldState
  {
    st.(blocks := st.blocks[c := Retyped(Read(st, c), m)],
        inventories := if m == Read(st, c).material then st.inventories else st.inventories - {c},
        trace := st.trace + [TypeSet(c, m)])
  }

  function WithData(st: WorldState, c: Coord, d: BlockData): WorldState
  {
    st.(blocks := st.blocks[c := Read(st, c).(data := d)], trace := st.trace + [DataSet(c, d)])
  }

  function WithBiome(st: WorldState, c: Coord, b: Biome): WorldState
  {
    st.(biomes := st.biomes[c := b], trace := st.trace + [BiomeSet(c, b)])
  }

  /** The tag-restore side channel: records that the tag was handed to the engine for that world and coordinate. */
  function WithTagRestored(st: WorldState, world: string, c: Coord, tag: Tag): WorldState
  {
    st.(trace := st.trace + [TagRestored(world, c, tag)])
  }

  /** The live world: one object the coordinator mutates call by call. */
  class World {
    const engine: Engine
    // whether the WorldEdit world adapts to a loaded Bukkit world
    const adapts: bool
    var blocks: map<Coord, Block>
    var inventories: map<Coord, seq<Item>>
    var biomes: map<Coord, Biome>
    var trace: seq<Event>

    function State(): WorldState
      reads this
    {
      WorldState(blocks, inventories, biomes, trace)
    }

    constructor (engine: Engine, adapts: bool, initial: WorldState)
      ensures this.engine == engine && this.adapts == adapts
      ensures State() == initial
    {
      this.engine := engine;
      this.adapts := adapts;
      blocks, inventories, biomes, trace := initial.blocks, initial.inventories, initial.biomes, initial.trace;
    }

    method GetBlockAt(c: Coord) returns (b: Block)
      ensures b == Read(State(), c)
    {
      b := if c in blocks then blocks[c] else Air;
    }

    /** `existing.getState() instanceof Container`, for the block at `c`. */
    function IsContainer(c: Coord): (r: bool)
      reads this
      ensures r <==> engine.isContainer(Read(State(), c).material)
    {
      engine.isContainer(if c in blocks then blocks[c].material else Air.material)
    }

    /** `setBlock`: either the engine accepts the block, or it throws and nothing changes but the log. */
    method SetBlock(c: Coord, b: Block) returns (r: WriteResult)
      modifies this
      ensures r == engine.primary(c, b)
      ensures State() == if r.Ok? then WithBlock(old(State()), c, b) else WithRefusal(old(State()), c, b)
    {
      r := engine.primary(c, b);
      if r.Ok? {
        blocks := blocks[c := b];
        inventories := inventories - {c};
        trace := trace + [Placed(c, b)];
      } else {
        trace := trace + [Refused(c, b)];
      }
    }

    method ClearInventory(c: Coord)
      modifies this
      ensures State() == WithInventoryCleared(old(State()), c)
      ensures Contents(State(), c) == []
    {
      inventories := inventories - {c};
      trace := trace + [InventoryCleared(c)];
    }

    method SetType(c: Coord, m: Material)
      modifies this
      ensures State() == WithType(old(State()), c, m)
    {
      var b := if c in blocks then blocks[c] else Air;
      blocks := blocks[c := if m == b.material then b else Block(m, b.data, None)];
      if m != b.material {
        inventories := inventories - {c};
      }
      trace := trace + [TypeSet(c, m)];
    }

    method SetBlockData(c: Coord, d: BlockData)
      modifies this
      ensures State() == WithData(old(State()), c, d)
    {
      var b := if c in blocks then blocks[c] else Air;
      blocks := blocks[c := b.(data := d)];
      trace := trace + [DataSet(c, d)];
    }

    method SetBiome(c: Coord, b: Biome)
      modifies this
      ensures State() == WithBiome(old(State()), c, b)
    {
      biomes := biomes[c := b];
      trace := trace + [BiomeSet(c, b)];
    }

    method RestoreTag(world: string, c: Coord, tag: Tag)
      modifies this
      ensures State() == WithTagRestored(old(State()), world, c, tag)
    {
      trace := trace + [TagRestored(world, c, tag)];
    }
  }
}
