/**
 * The Bukkit queue coordinator: the object that owns the staged chunk edits
 * of one world, hands them to a chunk coordinator, and (unless a consumer was
 * supplied) writes each chunk into the world with its built-in consumer.
 */
module BukkitQueue {
  import opened Store
  import opened Layout
  import opened ChunkWrite

  /** A completion callback (a Runnable), identified by value. */
  datatype Task = Task(id: nat)

  /** The chunk consumer handed to the chunk coordinator: one set earlier on the queue, or the built-in one. */
  datatype ChunkConsumer = Preset(id: nat) | BuiltIn

  /** What is done with an exception thrown inside the chunk coordinator. */
  datatype ThrowableHandler = PrintStackTrace

  /** The settings `enqueue` passes to the chunk coordinator builder. */
  datatype CoordinatorConfig = CoordinatorConfig(
    world: string,
    chunks: set<ChunkKey>,
    initialBatchSize: nat,
    maxIterationTime: nat,
    throwableConsumer: ThrowableHandler,
    finalAction: Option<Task>,
    consumer: ChunkConsumer)

  const INITIAL_BATCH_SIZE: nat := 3
  // milliseconds per scheduler iteration
  const MAX_ITERATION_TIME: nat := 40

  /**
   * What `getBlock` can report for a coordinate the cell pass wrote `b` to:
   * the state `BukkitBlockUtil.get` derives from `b`'s type and data, or the
   * state of a live block that was kept because its data already matched.
   */
  predicate ShowsWrite(w: Engine, s: BlockState, b: Block) {
    s == w.blockUtil(b.material, b.data) || (w.blockUtil(s.material, s.data) == s && w.matches(s.data, b.data))
  }

  predicate InInt32Range(c: Coord) {
    -0x8000_0000 <= c.x < 0x8000_0000 && -0x8000_0000 <= c.y < 0x8000_0000 && -0x8000_0000 <= c.z < 0x8000_0000
  }

  class BukkitQueueCoordinator {
    const world: World
    // the slot-offset tables of the layered chunk layout
    const offsets: OffsetTable
    // staged by the base queue: the pending edits of each chunk
    var blockChunks: map<ChunkKey, LocalChunk>
    // set on the base queue: a consumer replacing the built-in one
    var chunkConsumer: Option<nat>
    var whenDone: Option<Task>

    /** A queue over `world` holding the edits and consumer the base queue has staged. */
    constructor (world: World, offsets: OffsetTable, staged: map<ChunkKey, LocalChunk>, consumer: Option<nat>)
      ensures this.world == world && this.offsets == offsets
      ensures blockChunks == staged && chunkConsumer == consumer && whenDone == None
    {
      this.world := world;
      this.offsets := offsets;
      blockChunks := staged;
      chunkConsumer := consumer;
      whenDone := None;
    }

    /**
     * The state `BukkitBlockUtil.get` derives from the live block at a
     * coordinate; air when the world is not loaded in Bukkit.
     */
    function GetBlock(x: Int32, y: Int32, z: Int32): (s: BlockState)
      reads world
      ensures world.adapts ==> s == world.engine.blockUtil(Read(world.State(), Coord(x, y, z)).material,
                                                          Read(world.State(), Coord(x, y, z)).data)
      ensures !world.adapts ==> s == BlockState(0, 0)
    {
      if world.adapts then
        var live := Read(world.State(), Coord(x, y, z));
        world.engine.blockUtil(live.material, live.data)
      else BlockState(0, 0)
    }

    method SetCompleteTask(t: Option<Task>)
      modifies this
      ensures whenDone == t
      ensures blockChunks == old(blockChunks) && chunkConsumer == old(chunkConsumer)
    {
      whenDone := t;
    }

    /** Configures the chunk coordinator for the staged chunks. */
    method Enqueue() returns (cfg: CoordinatorConfig)
      ensures cfg.world == world.engine.name && cfg.chunks == blockChunks.Keys
      ensures cfg.initialBatchSize == INITIAL_BATCH_SIZE && cfg.maxIterationTime == MAX_ITERATION_TIME
      ensures cfg.throwableConsumer == PrintStackTrace && cfg.finalAction == whenDone
      ensures cfg.consumer == BuiltIn <==> chunkConsumer.None?
      ensures chunkConsumer.Some? ==> cfg.consumer == Preset(chunkConsumer.value)
    {
      var consumer := BuiltIn;
      if chunkConsumer.Some? {
        consumer := Preset(chunkConsumer.value);
      }
      cfg := CoordinatorConfig(world.engine.name, blockChunks.Keys, INITIAL_BATCH_SIZE, MAX_ITERATION_TIME,
                               PrintStackTrace, whenDone, consumer);
    }

    /** The built-in consumer applied to one chunk key. */
    method ApplyChunk(key: ChunkKey) returns (outcome: Outcome)
      modifies world
      ensures Applied(world.State(), outcome) == Consume(old(world.State()), world.engine, offsets, blockChunks, key)
    {
      if key !in blockChunks {
        return MissingChunk;
      }
      var lc := blockChunks[key];
      var sx := ShiftLeft4(key.x);
      var sz := ShiftLeft4(key.z);
      WriteCellPass(key, sx, sz, lc);
      var complete := WriteBiomePass(key, sx, sz, lc);
      if !complete {
        return BiomeLayerMissing(|lc.biomes|);
      }
      WriteTilePass(lc);
      outcome := Completed;
    }

    method WriteCellPass(key: ChunkKey, sx: Int32, sz: Int32, lc: LocalChunk)
      requires sx == ShiftLeft4(key.x) && sz == ShiftLeft4(key.z)
      modifies world
      ensures world.State() == CellPass(old(world.State()), world.engine, offsets, key, lc)
    {
      ghost var st0 := world.State();
      var layer := 0;
      while layer < |lc.baseblocks|
        invariant layer <= |lc.baseblocks|
        invariant world.State() == WriteCells(st0, world.engine, LayerTargets(offsets, key, lc.baseblocks, layer))
      {
        if lc.baseblocks[layer].Some? {
          ghost var done := LayerTargets(offsets, key, lc.baseblocks, layer);
          var slots := lc.baseblocks[layer].value;
          WriteCellLayer(key, sx, sz, layer, slots);
          WriteCellsAppend(st0, world.engine, done, SlotTargets(offsets, key, layer, slots, |slots|));
        }
        layer := layer + 1;
      }
    }

    /** The non-null slots of one block layer, in slot order. */
    method WriteCellLayer(key: ChunkKey, sx: Int32, sz: Int32, layer: nat, slots: seq<Option<Block>>)
      requires sx == ShiftLeft4(key.x) && sz == ShiftLeft4(key.z)
      modifies world
      ensures world.State() == WriteCells(old(world.State()), world.engine, SlotTargets(offsets, key, layer, slots, |slots|))
    {
      ghost var st0 := world.State();
      var j := 0;
      while j < |slots|
        invariant j <= |slots|
        invariant world.State() == WriteCells(st0, world.engine, SlotTargets(offsets, key, layer, slots, j))
      {
        if slots[j].Some? {
          var off := offsets(layer, j);
          var c := Coord(Wrap32(sx + off.dx), off.dy, Wrap32(sz + off.dz));
          WriteSlot(c, slots[j].value);
          WriteCellsSnoc(st0, world.engine, SlotTargets(offsets, key, layer, slots, j), Target(c, slots[j].value));
        }
        j := j + 1;
      }
    }

    /** One non-null slot: the primary write and, when it is refused, the direct fallback. */
    method WriteSlot(c: Coord, b: Block)
      modifies world
      ensures world.State() == PlaceCell(old(world.State()), world.engine, Target(c, b))
    {
      var r := world.SetBlock(c, b);
      if r.Err? {
        var existing := world.GetBlockAt(c);
        if AlreadyMatches(world.engine, existing, b) {
          return;
        }
        if world.IsContainer(c) {
          world.ClearInventory(c);
        }
        world.SetType(c, b.material);
        world.SetBlockData(c, b.data);
        if b.nbt.Some? {
          world.RestoreTag(world.engine.name, c, b.nbt.value);
        }
      }
    }

    /** The biome pass; `complete` is false when the biome array runs out before the block layers do. */
    method WriteBiomePass(key: ChunkKey, sx: Int32, sz: Int32, lc: LocalChunk) returns (complete: bool)
      requires sx == ShiftLeft4(key.x) && sz == ShiftLeft4(key.z)
      modifies world
      ensures complete <==> |lc.biomes| >= |lc.baseblocks|
      ensures world.State() == WriteBiomes(old(world.State()), BiomeTargets(offsets, key, lc))
    {
      ghost var st0 := world.State();
      var layer := 0;
      while layer < |lc.baseblocks|
        invariant layer <= |lc.baseblocks| && layer <= |lc.biomes|
        invariant world.State() == WriteBiomes(st0, LayerTargets(offsets, key, lc.biomes, layer))
      {
        if layer >= |lc.biomes| {
          return false;
        }
        if lc.biomes[layer].Some? {
          ghost var done := LayerTargets(offsets, key, lc.biomes, layer);
          var slots := lc.biomes[layer].value;
          WriteBiomeLayer(key, sx, sz, layer, slots);
          WriteBiomesAppend(st0, done, SlotTargets(offsets, key, layer, slots, |slots|));
        }
        layer := layer + 1;
      }
      complete := true;
    }

    /** The non-null slots of one biome layer, in slot order. */
    method WriteBiomeLayer(key: ChunkKey, sx: Int32, sz: Int32, layer: nat, slots: seq<Option<Biome>>)
      requires sx == ShiftLeft4(key.x) && sz == ShiftLeft4(key.z)
      modifies world
      ensures world.State() == WriteBiomes(old(world.State()), SlotTargets(offsets, key, layer, slots, |slots|))
    {
      ghost var st0 := world.State();
      var j := 0;
      while j < |slots|
        invariant j <= |slots|
        invariant world.State() == WriteBiomes(st0, SlotTargets(offsets, key, layer, slots, j))
      {
        if slots[j].Some? {
          var off := offsets(layer, j);
          var c := Coord(Wrap32(sx + off.dx), off.dy, Wrap32(sz + off.dz));
          world.SetBiome(c, slots[j].value);
          WriteBiomesSnoc(st0, SlotTargets(offsets, key, layer, slots, j), Target(c, slots[j].value));
        }
        j := j + 1;
      }
    }

    /** The tile pass: each tile entry in the map's order. */
    method WriteTilePass(lc: LocalChunk)
      modifies world
      ensures world.State() == WriteTiles(old(world.State()), world.engine, lc.tiles)
    {
      ghost var st0 := world.State();
      if |lc.tiles| > 0 {
        var i := 0;
        while i < |lc.tiles|
          invariant i <= |lc.tiles|
          invariant world.State() == WriteTiles(st0, world.engine, lc.tiles[..i])
        {
          WriteTile(lc.tiles[i].0, lc.tiles[i].1);
          WriteTilesSnoc(st0, world.engine, lc.tiles[..i], lc.tiles[i]);
          assert lc.tiles[..i + 1] == lc.tiles[..i] + [lc.tiles[i]];
          i := i + 1;
        }
        assert lc.tiles[..i] == lc.tiles;
      }
    }

    /** One tile entry: the live block with the tag merged in, and the tag restore when that write is refused. */
    method WriteTile(c: Coord, tag: Tag)
      modifies world
      ensures world.State() == TileWrite(old(world.State()), world.engine, c, tag)
    {
      var live := world.GetBlockAt(c);
      var b := Block(live.material, live.data, Some(tag));
      var r := world.SetBlock(c, b);
      if r.Err? {
        world.RestoreTag(world.engine.name, c, tag);
      }
    }
  }

  /** The final action `enqueue` configures is the task passed to the last `setCompleteTask`. */
  method LastCompleteTaskWins(q: BukkitQueueCoordinator, first: Option<Task>, last: Option<Task>) returns (cfg: CoordinatorConfig)
    modifies q
    ensures cfg.finalAction == last && cfg.chunks == old(q.blockChunks).Keys
    ensures cfg.consumer == BuiltIn <==> old(q.chunkConsumer).None?
  {
    q.SetCompleteTask(first);
    q.SetCompleteTask(last);
    cfg := q.Enqueue();
  }

  /**
   * Every chunk `enqueue` schedules has a LocalChunk: the built-in consumer
   * then run on a key never fails with the missing-chunk error on a
   * scheduled key, fails with it on every other key, and in that case
   * leaves the world as it was.
   */
  method ScheduledChunksPresent(q: BukkitQueueCoordinator, key: ChunkKey) returns (cfg: CoordinatorConfig, outcome: Outcome)
    modifies q.world
    ensures cfg.chunks == q.blockChunks.Keys
    ensures cfg.consumer == BuiltIn <==> q.chunkConsumer.None?
    ensures outcome == MissingChunk <==> key !in cfg.chunks
    ensures outcome == MissingChunk ==> q.world.State() == old(q.world.State())
  {
    cfg := q.Enqueue();
    outcome := q.ApplyChunk(key);
  }

  /**
   * What `getBlock` reports after the built-in consumer wrote a chunk into a
   * loaded world: at the coordinate of a slot's last write, the state that
   * slot asked for, or a live block that already matched it.
   */
  lemma GetBlockSeesCellWrites(q: BukkitQueueCoordinator, st0: WorldState, key: ChunkKey, i: nat)
    requires q.world.adapts && key in q.blockChunks
    requires q.world.State() == Consume(st0, q.world.engine, q.offsets, q.blockChunks, key).state
    requires i < |CellTargets(q.offsets, key, q.blockChunks[key])|
    requires LastAt(CellTargets(q.offsets, key, q.blockChunks[key]), i)
    ensures var t := CellTargets(q.offsets, key, q.blockChunks[key])[i];
      InInt32Range(t.at) && ShowsWrite(q.world.engine, q.GetBlock(t.at.x, t.at.y, t.at.z), t.value)
  {
    var lc := q.blockChunks[key];
    var ts := CellTargets(q.offsets, key, lc);
    var t := ts[i];
    LayerTargetsExact(q.offsets, key, lc.baseblocks, |lc.baseblocks|, t);
    ConsumeRealizes(st0, q.world.engine, q.offsets, q.blockChunks, key, i);
  }
}
