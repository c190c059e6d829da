# Bukkit queue coordinator: the chunk write procedure

This project models PlotSquared's `BukkitQueueCoordinator`. The class owns
the staged edits of one world: a `LocalChunk` per chunk key. `enqueue()`
does two things:

- It configures a chunk coordinator for all staged chunk keys: initial
  batch size 3, 40 ms per iteration, `printStackTrace` for exceptions, and
  the task from `setCompleteTask` as final action.
- It supplies the per-chunk consumer. This is the one set on the queue
  when there is one; otherwise it is the built-in consumer.

The built-in consumer writes one chunk into the world in three passes:

1. **Cell pass.** For every non-null slot of every non-null block layer,
   it tries a primary `setBlock` at the slot's coordinate. The coordinate
   is the chunk origin `X << 4`, `Z << 4` plus the offset-table entry, in
   32-bit `int` arithmetic. When the primary write is refused, a fallback
   runs on the live block:
   - it does nothing if the live block already matches;
   - otherwise it clears a container's inventory;
   - then it sets the type, then the data;
   - then it hands the NBT tag to the tag-restore channel when the block
     has one.
2. **Biome pass.** One `setBiome` per non-null biome slot, with the same
   indexing. Its layer loop runs over the *block*-layer count.
3. **Tile pass.** One write per tile entry: the live block with the tag
   merged in. When that write is refused, the tag goes to the
   tag-restore channel instead.

The project has four files:

- `store.dfy` (module `Store`) is the world the coordinator writes into.
  - `WorldState` holds the blocks, the items held at each coordinate (a
    container's inventory), the biomes, and a log of every call made on
    the store.
  - The class `World` is the mutable store. Its methods are the calls the
    coordinator makes (`setBlock`, `getBlock`, inventory clear,
    `setType`, `setBlockData`, `setBiome`, `restoreTag`). Each is
    specified by a function on `WorldState`.
  - Engine behaviour that is not visible is a parameter (`Engine`):
    - whether a primary write is accepted;
    - `BlockData.matches`;
    - `BukkitBlockUtil.get`, the state derived from a live block's type
      and data, which need not equal its adapted `BlockData`;
    - whether a material's block state is a `Container`.
- `layout.dfy` (module `Layout`) holds Java `int` wrap-around, `X << 4`,
  and the slot coordinate `CellCoord`. The offset tables of `MainUtil` are
  a parameter (`OffsetTable`, from layer and slot to a `short` triple).
- `chunkwrite.dfy` (module `ChunkWrite`) gives what the consumer does as
  functions of the world state: `PlaceCell` (one slot), `WriteCells`,
  `WriteBiomes`, `WriteTiles` and `Consume` (one chunk, with its outcome).
  It also holds the lemmas about them: which writes happen and where, the
  fallback's short-circuit and order, completeness, the frame, pass
  ordering, and idempotence of a slot write.
- `coordinator.dfy` (module `BukkitQueue`) holds the class
  `BukkitQueueCoordinator`. Its fields are the world, the staged chunks,
  the preset consumer and `whenDone`. It has:
  - `getBlock`, `setCompleteTask` and `enqueue`'s configuration;
  - the built-in consumer, written imperatively: nested loops over layers
    and slots against the `World` object. The consumer is proved to leave
    the world in exactly the state `ChunkWrite.Consume` describes.

How the consumer can end (`Outcome`):

- `Completed`.
- `MissingChunk`: the `NullPointerException` for a key with no
  `LocalChunk`, thrown before the world is touched.
- `BiomeLayerMissing(n)`: the `ArrayIndexOutOfBoundsException` of
  `getBiomes()[layer]` when the biome array has fewer layers than the
  block array. It is thrown partway through the biome pass, after the
  whole cell pass. The tile pass then does not run.

## Model

Source paths are relative to the repository root.

| member | source | states |
|---|---|---|
| Layout.Wrap32 | Bukkit/src/main/java/com/plotsquared/bukkit/queue/BukkitQueueCoordinator.java:106-108 | `int` addition: the result equals the exact sum when that is in range, and is congruent to it modulo 2^32 always |
| Layout.ShiftLeft4 | Bukkit/src/main/java/com/plotsquared/bukkit/queue/BukkitQueueCoordinator.java:94-95 | `X << 4` on an `int` equals `16 * X` exactly when `-2^27 <= X < 2^27`, and is congruent to it modulo 2^32 always |
| Layout.CellCoord | Bukkit/src/main/java/com/plotsquared/bukkit/queue/BukkitQueueCoordinator.java:94-95 | a slot's coordinate: `y` is the table's `y`; horizontally it is congruent to `16*X + dx` (`16*Z + dz`) modulo 2^32, and equal to it whenever that value fits in an `int`, even if `X << 4` alone wrapped |
| Layout.CellCoordExact | Bukkit/src/main/java/com/plotsquared/bukkit/queue/BukkitQueueCoordinator.java:94-108 | for chunk keys within 2^26 of the origin no arithmetic wraps: a slot lands at `(16*X + dx, dy, 16*Z + dz)` |
| Layout.ShiftLeft4Wraps | Bukkit/src/main/java/com/plotsquared/bukkit/queue/BukkitQueueCoordinator.java:94 | the origin does wrap for `X = 2^27`: `X << 4` is `-2^31` |
| Store.World.GetBlockAt | Bukkit/src/main/java/com/plotsquared/bukkit/queue/BukkitQueueCoordinator.java:123 | reading the live block returns the block stored at the coordinate (air when none was written) |
| Store.World.IsContainer | Bukkit/src/main/java/com/plotsquared/bukkit/queue/BukkitQueueCoordinator.java:131 | `existing.getState() instanceof Container`: decided by the material of the block currently at the coordinate |
| Store.World.SetBlock | Bukkit/src/main/java/com/plotsquared/bukkit/queue/BukkitQueueCoordinator.java:110 | the primary write either stores the block and replaces what the coordinate held (its new contents come from its own tag), or is refused (the WorldEditException) and stores nothing; either way the attempt is logged |
| Store.World.ClearInventory | Bukkit/src/main/java/com/plotsquared/bukkit/queue/BukkitQueueCoordinator.java:131-133 | the items at the coordinate are gone and nothing else changes |
| Store.World.SetType | Bukkit/src/main/java/com/plotsquared/bukkit/queue/BukkitQueueCoordinator.java:135 | the block at the coordinate gets the material; a change of material discards the old block entity, so its tag and its items; nothing else changes |
| Store.World.SetBlockData | Bukkit/src/main/java/com/plotsquared/bukkit/queue/BukkitQueueCoordinator.java:136 | the block at the coordinate gets the data and nothing else changes |
| Store.World.SetBiome | Bukkit/src/main/java/com/plotsquared/bukkit/queue/BukkitQueueCoordinator.java:160 | the biome at the coordinate is set and nothing else changes |
| Store.World.RestoreTag | Bukkit/src/main/java/com/plotsquared/bukkit/queue/BukkitQueueCoordinator.java:139-142 | the tag is handed to the restore channel for the world's name and the coordinate; no block changes |
| ChunkWrite.SlotTargetsExact | Bukkit/src/main/java/com/plotsquared/bukkit/queue/BukkitQueueCoordinator.java:101-110 | within one layer, a write of value v at c is made exactly when some slot j holds v and c is slot j's computed coordinate; null slots cause no write |
| ChunkWrite.LayerTargetsExact | Bukkit/src/main/java/com/plotsquared/bukkit/queue/BukkitQueueCoordinator.java:96-110 | over all layers, a write is made exactly for the non-null slots of the non-null layers, at `CellCoord(key, offsets(l, j))`; both directions |
| ChunkWrite.SlotTargets | Bukkit/src/main/java/com/plotsquared/bukkit/queue/BukkitQueueCoordinator.java:101-104 | one layer's writes: at most one per slot among the first `n`, and none when those slots are all null |
| ChunkWrite.SlotAttemptedAt | Bukkit/src/main/java/com/plotsquared/bukkit/queue/BukkitQueueCoordinator.java:94-110 | every non-null slot j of a non-null layer l is written at `(16*X + x_loc[l][j], y_loc[l][j], 16*Z + z_loc[l][j])` with its block (keys within 2^26 of the origin) |
| ChunkWrite.PrimaryAccepted | Bukkit/src/main/java/com/plotsquared/bukkit/queue/BukkitQueueCoordinator.java:109-111 | when the primary write is accepted, the only call is that write and the coordinate holds the block: no fallback runs |
| ChunkWrite.FallbackShortCircuit | Bukkit/src/main/java/com/plotsquared/bukkit/queue/BukkitQueueCoordinator.java:123-129 | when `BukkitBlockUtil.get` of the live block equals its adapted data and that data matches the target's, only the refusal is logged and no block, contents or biome changes |
| ChunkWrite.FallbackInOrder | Bukkit/src/main/java/com/plotsquared/bukkit/queue/BukkitQueueCoordinator.java:131-143 | otherwise the calls are: refusal, inventory clear (exactly when the live block's material is a container), type, data, tag restore (exactly when the block has NBT); the coordinate ends with the target type and data, without the old tag when the material changed, and holds no items when it was a container or changed material |
| ChunkWrite.Fallback | Bukkit/src/main/java/com/plotsquared/bukkit/queue/BukkitQueueCoordinator.java:113-143 | after a refused write the coordinate has the target's type and data or a live block that already matched; biomes stay and the log only grows |
| ChunkWrite.PlaceCell | Bukkit/src/main/java/com/plotsquared/bukkit/queue/BukkitQueueCoordinator.java:109-143 | one non-null slot: afterwards the coordinate has the target's type and data or a live block that already matched; biomes stay and at least one call is logged |
| ChunkWrite.PlaceCellState | Bukkit/src/main/java/com/plotsquared/bukkit/queue/BukkitQueueCoordinator.java:109-143 | what one slot leaves in its blocks, contents and biomes, case by case: accepted (contents replaced), refused and matching, refused and rewritten (old tag and items gone on a change of material) |
| ChunkWrite.PlaceCellEffect | Bukkit/src/main/java/com/plotsquared/bukkit/queue/BukkitQueueCoordinator.java:109-143 | after one slot the coordinate has the target's type and data, or a live block that already matched; no other coordinate and no biome changes |
| ChunkWrite.PlaceCellLog | Bukkit/src/main/java/com/plotsquared/bukkit/queue/BukkitQueueCoordinator.java:109-112 | each slot makes exactly one primary attempt, for its own block; its fallback makes none and no slot sets a biome |
| ChunkWrite.PlaceCellIdempotent | Bukkit/src/main/java/com/plotsquared/bukkit/queue/BukkitQueueCoordinator.java:109-143 | writing a slot a second time changes nothing but the log, given that the engine decides the primary write from the coordinate and block alone |
| ChunkWrite.WriteCellsLog | Bukkit/src/main/java/com/plotsquared/bukkit/queue/BukkitQueueCoordinator.java:96-146 | the cell pass attempts every target once, in loop order; a refused write does not stop the pass; the pass only appends calls and never sets a biome |
| ChunkWrite.WriteCellsAppend | Bukkit/src/main/java/com/plotsquared/bukkit/queue/BukkitQueueCoordinator.java:96-101 | the pass over two runs of slots is the pass over the second run after the pass over the first (layer after layer) |
| ChunkWrite.WriteCellsFrame | Bukkit/src/main/java/com/plotsquared/bukkit/queue/BukkitQueueCoordinator.java:96-146 | no coordinate outside the targets changes its block or contents, and no biome changes |
| ChunkWrite.WriteCellsLast | Bukkit/src/main/java/com/plotsquared/bukkit/queue/BukkitQueueCoordinator.java:96-146 | the last write to a coordinate decides it: it has that target's type and data, or a live block that already matched |
| ChunkWrite.WriteCells | Bukkit/src/main/java/com/plotsquared/bukkit/queue/BukkitQueueCoordinator.java:96-146 | the cell pass leaves every biome as it was and logs at least one call per target |
| ChunkWrite.BiomeCalls | Bukkit/src/main/java/com/plotsquared/bukkit/queue/BukkitQueueCoordinator.java:152-160 | the biome pass's calls: one `setBiome` per target, position k holding target k |
| ChunkWrite.WriteBiomes | Bukkit/src/main/java/com/plotsquared/bukkit/queue/BukkitQueueCoordinator.java:147-162 | the biome pass leaves every block and all contents as they were and logs exactly one call per target |
| ChunkWrite.WriteBiomesEffect | Bukkit/src/main/java/com/plotsquared/bukkit/queue/BukkitQueueCoordinator.java:147-162 | the biome pass appends exactly one `setBiome` per target, in order, and changes no block and no contents |
| ChunkWrite.WriteBiomesAppend | Bukkit/src/main/java/com/plotsquared/bukkit/queue/BukkitQueueCoordinator.java:147-152 | the biome pass over two runs of slots is the pass over the second after the first |
| ChunkWrite.WriteBiomesFrame | Bukkit/src/main/java/com/plotsquared/bukkit/queue/BukkitQueueCoordinator.java:147-162 | a coordinate no biome target names keeps its biome |
| ChunkWrite.WriteBiomesLast | Bukkit/src/main/java/com/plotsquared/bukkit/queue/BukkitQueueCoordinator.java:147-162 | the last biome target at a coordinate is its biome |
| ChunkWrite.BiomeLayersReached | Bukkit/src/main/java/com/plotsquared/bukkit/queue/BukkitQueueCoordinator.java:147-148 | the biome loop is bounded by the block-layer count and stops at the first layer the biome array lacks |
| ChunkWrite.BiomeTargetsExact | Bukkit/src/main/java/com/plotsquared/bukkit/queue/BukkitQueueCoordinator.java:147-160 | the biome pass writes exactly the non-null slots of the non-null biome layers below both layer counts, at the same computed coordinates as the cell pass; both directions |
| ChunkWrite.TileBlock | Bukkit/src/main/java/com/plotsquared/bukkit/queue/BukkitQueueCoordinator.java:166 | `toBaseBlock(tag)`: the live block's type and data with the entry's tag |
| ChunkWrite.TileWrite | Bukkit/src/main/java/com/plotsquared/bukkit/queue/BukkitQueueCoordinator.java:165-172 | one tile entry keeps the type and data at its coordinate and the biomes; afterwards the merged block is there or the last call handed the tag to the restore channel |
| ChunkWrite.TileTargets | Bukkit/src/main/java/com/plotsquared/bukkit/queue/BukkitQueueCoordinator.java:163-167 | one write per tile entry, in order, at the entry's coordinate, carrying the live block's type and data with the entry's tag |
| ChunkWrite.TileWriteLog | Bukkit/src/main/java/com/plotsquared/bukkit/queue/BukkitQueueCoordinator.java:165-172 | a tile entry makes one primary attempt; when it is refused it then restores the tag, and only then |
| ChunkWrite.TileWriteEffect | Bukkit/src/main/java/com/plotsquared/bukkit/queue/BukkitQueueCoordinator.java:165-172 | an accepted tile write puts the merged block in place; a refused one hands the tag to the restore channel for that coordinate |
| ChunkWrite.WriteTiles | Bukkit/src/main/java/com/plotsquared/bukkit/queue/BukkitQueueCoordinator.java:163-174 | the tile pass leaves every biome as it was and logs at least one call per entry |
| ChunkWrite.WriteTilesKeepsStates | Bukkit/src/main/java/com/plotsquared/bukkit/queue/BukkitQueueCoordinator.java:163-174 | the tile pass changes no type, no data and no biome; coordinates outside the tile map keep their block and contents |
| ChunkWrite.WriteTilesLog | Bukkit/src/main/java/com/plotsquared/bukkit/queue/BukkitQueueCoordinator.java:163-174 | every tile entry is attempted once, in order, with no filter on what the cell pass wrote, using the block live before the tile pass |
| ChunkWrite.WriteTilesLast | Bukkit/src/main/java/com/plotsquared/bukkit/queue/BukkitQueueCoordinator.java:163-174 | for the last entry at a coordinate: if the merged block is accepted it is the block there; if refused, the pass logged a tag restore for that coordinate and tag |
| ChunkWrite.Consume | Bukkit/src/main/java/com/plotsquared/bukkit/queue/BukkitQueueCoordinator.java:86-175 | a missing LocalChunk fails and leaves the world as it was; otherwise the consumer completes exactly when the biome array has at least as many layers as the block array, and fails at layer `|biomes|` otherwise |
| ChunkWrite.ConsumeRealizes | Bukkit/src/main/java/com/plotsquared/bukkit/queue/BukkitQueueCoordinator.java:96-174 | whatever the outcome, each coordinate's last cell target holds after the consumer: the biome and tile passes keep types and data |
| ChunkWrite.ConsumeFrame | Bukkit/src/main/java/com/plotsquared/bukkit/queue/BukkitQueueCoordinator.java:86-175 | a coordinate that is neither a cell target nor a tile coordinate keeps its block and contents; one that is not a biome target keeps its biome |
| ChunkWrite.PassOrder | Bukkit/src/main/java/com/plotsquared/bukkit/queue/BukkitQueueCoordinator.java:96-174 | the `setBiome` calls form one block between the cell pass's calls and the tile pass's; the attempts are the cell targets, then (on completion only) the tile targets |
| BukkitQueue.BukkitQueueCoordinator.constructor | Bukkit/src/main/java/com/plotsquared/bukkit/queue/BukkitQueueCoordinator.java:66-71 | a queue over the world, with the staged edits and consumer of the base queue and no completion task |
| BukkitQueue.BukkitQueueCoordinator.GetBlock | Bukkit/src/main/java/com/plotsquared/bukkit/queue/BukkitQueueCoordinator.java:73-81 | when the world adapts to a Bukkit world, the state `BukkitBlockUtil.get` derives from the live block; otherwise the default air state `BlockUtil.get(0, 0)` |
| BukkitQueue.GetBlockSeesCellWrites | Bukkit/src/main/java/com/plotsquared/bukkit/queue/BukkitQueueCoordinator.java:73-81 | after the consumer ran on a chunk of a loaded world, `getBlock` at a slot's last write reports `BukkitBlockUtil.get` of the slot's type and data, or the state of a kept live block whose data matched and whose two views agree |
| BukkitQueue.BukkitQueueCoordinator.SetCompleteTask | Bukkit/src/main/java/com/plotsquared/bukkit/queue/BukkitQueueCoordinator.java:184-186 | `whenDone` becomes the given task (possibly none); the staged chunks and consumer are unchanged |
| BukkitQueue.BukkitQueueCoordinator.Enqueue | Bukkit/src/main/java/com/plotsquared/bukkit/queue/BukkitQueueCoordinator.java:84-180 | the consumer is the preset one when it exists and the built-in one exactly when there is none; the configuration is this world, every staged chunk key, batch size 3, 40 ms, `printStackTrace`, final action `whenDone` |
| BukkitQueue.LastCompleteTaskWins | Bukkit/src/main/java/com/plotsquared/bukkit/queue/BukkitQueueCoordinator.java:184-186 | after two `setCompleteTask` calls, `enqueue` configures the last task as final action |
| BukkitQueue.ScheduledChunksPresent | Bukkit/src/main/java/com/plotsquared/bukkit/queue/BukkitQueueCoordinator.java:84-91 | `enqueue` configures exactly the staged keys, and the built-in consumer run afterwards fails with the missing-chunk error exactly on a key outside that set, leaving the world unchanged |
| BukkitQueue.BukkitQueueCoordinator.ApplyChunk | Bukkit/src/main/java/com/plotsquared/bukkit/queue/BukkitQueueCoordinator.java:86-175 | the imperative consumer leaves the world in exactly the state `Consume` gives, with the same outcome |
| BukkitQueue.BukkitQueueCoordinator.WriteCellPass | Bukkit/src/main/java/com/plotsquared/bukkit/queue/BukkitQueueCoordinator.java:96-146 | the layer loop over block layers, skipping null layers, computes `WriteCells` over the cell targets |
| BukkitQueue.BukkitQueueCoordinator.WriteCellLayer | Bukkit/src/main/java/com/plotsquared/bukkit/queue/BukkitQueueCoordinator.java:101-145 | the slot loop, skipping null slots, computes `WriteCells` over the layer's targets at the `int` coordinates |
| BukkitQueue.BukkitQueueCoordinator.WriteSlot | Bukkit/src/main/java/com/plotsquared/bukkit/queue/BukkitQueueCoordinator.java:109-144 | the primary write and its fallback compute `PlaceCell` |
| BukkitQueue.BukkitQueueCoordinator.WriteBiomePass | Bukkit/src/main/java/com/plotsquared/bukkit/queue/BukkitQueueCoordinator.java:147-162 | the biome layer loop, bounded by the block-layer count, computes `WriteBiomes` over the biome targets and reports whether it ran out of biome layers |
| BukkitQueue.BukkitQueueCoordinator.WriteBiomeLayer | Bukkit/src/main/java/com/plotsquared/bukkit/queue/BukkitQueueCoordinator.java:152-161 | the biome slot loop computes `WriteBiomes` over the layer's targets |
| BukkitQueue.BukkitQueueCoordinator.WriteTilePass | Bukkit/src/main/java/com/plotsquared/bukkit/queue/BukkitQueueCoordinator.java:163-174 | the tile loop in the map's order computes `WriteTiles` |
| BukkitQueue.BukkitQueueCoordinator.WriteTile | Bukkit/src/main/java/com/plotsquared/bukkit/queue/BukkitQueueCoordinator.java:165-172 | one tile entry computes `TileWrite` |

## Left out

- Scheduling. The batching, the time budget and the final-action call
  happen in the chunk coordinator. What runs the consumer over the
  scheduled keys is not part of this model. Only the configured values
  are modelled.
- `super.enqueue()` and the rest of `BasicQueueCoordinator`: the staged
  edits, and the consumer set on the base queue, are constructor inputs,
  and `Enqueue` does not return the base class's boolean. The builder chain
  in `enqueue()` never calls a build or start method. What uses it lives
  outside this file.
- Bukkit and WorldEdit adaptation. `BukkitBlockUtil.get`,
  `BlockData.matches`, the `Container` test and the primary write's
  success are parameters of `Engine`; `BukkitAdapter.adapt` is the
  identity on the opaque values. Blocks, materials, data, biomes,
  items and tags are opaque naturals, and a block's data is its
  `BlockData`.
- The WorldEdit world and the Bukkit world's blocks are one store.
  - `chunk.getBlock(x, y, z)` is modelled as a read at the absolute
    coordinate, and the tag restore uses that coordinate.
  - Of the engine-internal effects of `setType`, only the block entity's
    replacement is modelled: a change of material discards the old
    block's tag and items, and a container it creates holds nothing. Physics is
    not modelled. `setType` leaves the data as it was; the following
    `setBlockData` sets it.
  - The items a placed block's NBT tag carries are not recorded: after an
    accepted write the coordinate holds no items in the model.
- ChunkWrite.FallbackInOrder: the tag restore (`StateWrapper.restoreTag`)
  is only logged. What it rebuilds at the coordinate (a chest's items,
  for one) is not modelled, so "holds no items" is the model's state
  before that rebuild, not the world's after it.
- ChunkWrite.PlaceCellState: the same holds for its contents clause in the
  rewritten case when the target has NBT data.
- Store.Engine.primary: whether the primary write is accepted depends
  only on the coordinate and the block, not on the world's state. This
  decides that a slot written twice is refused twice, which
  `PlaceCellIdempotent` relies on.
- The lighting and neighbour side-effect flags (lines 69-70). They are
  passed through and their effects are engine-internal.
- The lazy lookup of the Bukkit world and chunk. Also not modelled: a
  `null` Bukkit world at that point, and any exception other than the
  refused primary write inside the cell and tile passes.
- `MainUtil`'s offset tables are not part of this model. They are a
  parameter defined at every layer and slot, so an index past the tables
  does not occur in the model.
- The tile map is given as its entries in iteration order. The model does
  not need its coordinates to be distinct.
- `printStackTrace`: only the choice of handler is recorded.
- The dependency-injection fields and the unused private helpers
  `setMaterial` and `equals` (lines 188-195).
- Concurrency and what other readers of the world see between calls.
- `Store.World.GetBlockAt`: a coordinate that was never written reads as
  air.
