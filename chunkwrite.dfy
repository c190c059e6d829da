/**
 * What the built-in chunk consumer does to the world for one chunk key,
 * stated as functions of the world's state: the cell pass with its fallback,
 * the biome pass and the tile pass. The imperative consumer in module
 * BukkitQueue is proved to compute exactly `Consume`; the lemmas here say
 * what `Consume` does.
 */
module ChunkWrite {
  import opened Store
  import opened Layout

  /**
   * The pending edits of one chunk (LocalChunk): block layers and biome layers,
   * each layer and each slot possibly null, and the tile map, given as its
   * entries in the map's iteration order.
   */
  datatype LocalChunk = LocalChunk(
    baseblocks: seq<Option<seq<Option<Block>>>>,
    biomes: seq<Option<seq<Option<Biome>>>>,
    tiles: seq<(Coord, Tag)>)

  /** One write the consumer makes: a value for a coordinate. */
  datatype Target<T> = Target(at: Coord, value: T)

  ghost function CoordsOf<T>(ts: seq<Target<T>>): set<Coord> {
    set t | t in ts :: t.at
  }

  /** Whether no target after index `i` is at the coordinate of `ts[i]`: `ts[i]` is the last write there. */
  ghost predicate LastAt<T>(ts: seq<Target<T>>, i: nat)
    requires i < |ts|
  {
    forall k :: i < k < |ts| ==> ts[k].at != ts[i].at
  }

  // ---------------------------------------------------------------------
  // Which slots are written, and where (the shared layer/slot indexing)
  // ---------------------------------------------------------------------

  /** The writes of the first `n` slots of layer `layer`, in loop order. */
  function SlotTargets<T>(offsets: OffsetTable, key: ChunkKey, layer: nat, slots: seq<Option<T>>, n: nat): (ts: seq<Target<T>>)
    requires n <= |slots|
    ensures |ts| <= n
    ensures (forall j :: 0 <= j < n ==> slots[j].None?) ==> ts == []
    decreases n
  {
    if n == 0 then []
    else
      var prev := SlotTargets(offsets, key, layer, slots, n - 1);
      match slots[n - 1]
      case None => prev
      case Some(v) => prev + [Target(CellCoord(key, offsets(layer, n - 1)), v)]
  }

  /** The writes of the first `n` layers, in loop order. */
  function LayerTargets<T>(offsets: OffsetTable, key: ChunkKey, layers: seq<Option<seq<Option<T>>>>, n: nat): (ts: seq<Target<T>>)
    requires n <= |layers|
    decreases n
  {
    if n == 0 then []
    else
      var prev := LayerTargets(offsets, key, layers, n - 1);
      match layers[n - 1]
      case None => prev
      case Some(slots) => prev + SlotTargets(offsets, key, n - 1, slots, |slots|)
  }

  /** A write is made for slot `j` of a layer exactly when that slot is non-null, at the slot's computed coordinate. */
  lemma {:induction false} SlotTargetsExact<T>(offsets: OffsetTable, key: ChunkKey, layer: nat, slots: seq<Option<T>>, n: nat, t: Target<T>)
    requires n <= |slots|
    ensures t in SlotTargets(offsets, key, layer, slots, n) <==>
      exists j :: 0 <= j < n && slots[j] == Some(t.value) && t.at == CellCoord(key, offsets(layer, j))
  {
    if n > 0 {
      SlotTargetsExact(offsets, key, layer, slots, n - 1, t);
      var prev := SlotTargets(offsets, key, layer, slots, n - 1);
      if slots[n - 1] == Some(t.value) && t.at == CellCoord(key, offsets(layer, n - 1)) {
        assert t == Target(CellCoord(key, offsets(layer, n - 1)), slots[n - 1].value);
      }
    }
  }

  /**
   * Writes happen at exactly the computed coordinates: `t` is written by the
   * first `n` layers exactly when some non-null slot `j` of a non-null layer
   * `l < n` holds `t`'s value and `t` is at `CellCoord(key, offsets(l, j))`.
   * Null layers and null slots cause no write.
   */
  lemma {:induction false} LayerTargetsExact<T>(offsets: OffsetTable, key: ChunkKey, layers: seq<Option<seq<Option<T>>>>, n: nat, t: Target<T>)
    requires n <= |layers|
    ensures t in LayerTargets(offsets, key, layers, n) <==>
      exists l, j :: 0 <= l < n && layers[l].Some? && 0 <= j < |layers[l].value| &&
        layers[l].value[j] == Some(t.value) && t.at == CellCoord(key, offsets(l, j))
  {
    if n > 0 {
      LayerTargetsExact(offsets, key, layers, n - 1, t);
      var l := n - 1;
      if layers[l].Some? {
        var slots := layers[l].value;
        SlotTargetsExact(offsets, key, l, slots, |slots|, t);
        if t in SlotTargets(offsets, key, l, slots, |slots|) {
          var j :| 0 <= j < |slots| && slots[j] == Some(t.value) && t.at == CellCoord(key, offsets(l, j));
          assert layers[l].value[j] == Some(t.value);
        }
      }
    }
  }

  // ---------------------------------------------------------------------
  // The call log: which primary writes were attempted
  // ---------------------------------------------------------------------

  /** The primary `setBlock` calls in a log, accepted or refused, in order. */
  function Attempts(tr: seq<Event>): seq<Target<Block>>
    decreases |tr|
  {
    if tr == [] then []
    else
      Attempts(tr[..|tr| - 1]) +
      match tr[|tr| - 1]
      case Placed(c, b) => [Target(c, b)]
      case Refused(c, b) => [Target(c, b)]
      case _ => []
  }

  lemma {:induction false} AttemptsAppend(a: seq<Event>, b: seq<Event>)
    ensures Attempts(a + b) == Attempts(a) + Attempts(b)
    decreases |b|
  {
    if b == [] {
      assert a + b == a;
    } else {
      AttemptsAppend(a, b[..|b| - 1]);
      assert (a + b)[..|a + b| - 1] == a + b[..|b| - 1];
    }
  }

  lemma AttemptsSingle(e: Event)
    ensures Attempts([e]) == if e.Placed? || e.Refused? then [Target(e.at, e.block)] else []
  {
    assert [e][..0] == [];
  }

  /** No call in `calls` is a `setBiome`. */
  ghost predicate NoBiomeCalls(calls: seq<Event>) {
    forall i :: 0 <= i < |calls| ==> !calls[i].BiomeSet?
  }

  /** Log `b` is log `a` followed by more calls, none of them a `setBiome`. */
  ghost predicate ExtendsWithoutBiomes(a: seq<Event>, b: seq<Event>) {
    |a| <= |b| && b[..|a|] == a && NoBiomeCalls(b[|a|..])
  }

  lemma ExtendsBy(a: seq<Event>, calls: seq<Event>)
    requires NoBiomeCalls(calls)
    ensures ExtendsWithoutBiomes(a, a + calls)
  {
    assert (a + calls)[..|a|] == a;
    assert (a + calls)[|a|..] == calls;
  }

  lemma ExtendsTrans(a: seq<Event>, b: seq<Event>, c: seq<Event>)
    requires ExtendsWithoutBiomes(a, b) && ExtendsWithoutBiomes(b, c)
    ensures ExtendsWithoutBiomes(a, c)
  {
    assert c[..|a|] == c[..|b|][..|a|];
    forall i | 0 <= i < |c| - |a|
      ensures !c[|a|..][i].BiomeSet?
    {
      if |a| + i < |b| {
        assert c[|a|..][i] == b[|a|..][i];
      } else {
        assert c[|a|..][i] == c[|b|..][|a| + i - |b|];
      }
    }
  }

  /** Two extensions in a row, each attempting its own targets. */
  lemma LogStep(t0: seq<Event>, t1: seq<Event>, t2: seq<Event>, a: seq<Target<Block>>, b: seq<Target<Block>>)
    requires Attempts(t1) == Attempts(t0) + a && ExtendsWithoutBiomes(t0, t1)
    requires Attempts(t2) == Attempts(t1) + b && ExtendsWithoutBiomes(t1, t2)
    ensures Attempts(t2) == Attempts(t0) + (a + b) && ExtendsWithoutBiomes(t0, t2)
  {
    ExtendsTrans(t0, t1, t2);
  }

  /**
   * Three logs in a row: `t1` extends `t0` with no `setBiome`, `t2` is `t1`
   * followed by `setBiome` calls only, `t3` extends `t2` with no `setBiome`.
   * Then the `setBiome` calls in `t3` after `t0` are exactly positions
   * `|t1|` to `|t2|`.
   */
  lemma BiomeBlockBetween(t0: seq<Event>, t1: seq<Event>, bs: seq<Event>, t3: seq<Event>)
    requires ExtendsWithoutBiomes(t0, t1)
    requires forall i :: 0 <= i < |bs| ==> bs[i].BiomeSet?
    requires ExtendsWithoutBiomes(t1 + bs, t3)
    ensures |t0| <= |t1| <= |t1| + |bs| <= |t3|
    ensures t3[..|t0|] == t0 && t3[..|t1|] == t1
    ensures forall k :: |t0| <= k < |t3| ==> (t3[k].BiomeSet? <==> |t1| <= k < |t1| + |bs|)
  {
    var t2 := t1 + bs;
    assert t3[..|t1|] == t3[..|t2|][..|t1|];
    assert t3[..|t0|] == t3[..|t1|][..|t0|];
    forall k | |t0| <= k < |t3|
      ensures t3[k].BiomeSet? <==> |t1| <= k < |t2|
    {
      if k < |t1| {
        assert t3[k] == t1[k] == t1[|t0|..][k - |t0|];
      } else if k < |t2| {
        assert t3[k] == bs[k - |t1|];
      } else {
        assert t3[k] == t3[|t2|..][k - |t2|];
      }
    }
  }

  // ---------------------------------------------------------------------
  // The cell pass: one slot
  // ---------------------------------------------------------------------

  /**
   * The fallback's short-circuit: the state `BukkitBlockUtil.get` derives from
   * the live block equals its adapted block data, and that data matches the target's.
   */
  predicate AlreadyMatches(w: Engine, existing: Block, b: Block) {
    w.blockUtil(existing.material, existing.data) == StateOf(existing) && w.matches(existing.data, b.data)
  }

  /** What the cell pass guarantees of a coordinate: the target's type and data, or a live block that already matched it. */
  ghost predicate Realizes(w: Engine, cell: Block, b: Block) {
    (cell.material == b.material && cell.data == b.data) || AlreadyMatches(w, cell, b)
  }

  /** The fallback after a refused primary write of `b` at `c`: afterwards `c` realizes `b`, and the log was only extended. */
  function Fallback(st: WorldState, w: Engine, c: Coord, b: Block): (r: WorldState)
    ensures Realizes(w, Read(r, c), b) && r.biomes == st.biomes
    ensures |st.trace| <= |r.trace|
  {
    if AlreadyMatches(w, Read(st, c), b) then st
    else
      var cleared := if w.isContainer(Read(st, c).material) then WithInventoryCleared(st, c) else st;
      var shaped := WithData(WithType(cleared, c, b.material), c, b.data);
      if b.nbt.Some? then WithTagRestored(shaped, w.name, c, b.nbt.value) else shaped
  }

  /**
   * One non-null slot of the cell pass: the primary write, and the fallback
   * when it is refused. Afterwards the coordinate realizes the target and no
   * other coordinate, and no biome, has changed.
   */
  function PlaceCell(st: WorldState, w: Engine, t: Target<Block>): (r: WorldState)
    ensures Realizes(w, Read(r, t.at), t.value) && r.biomes == st.biomes
    ensures |st.trace| < |r.trace|
  {
    if w.primary(t.at, t.value).Ok? then WithBlock(st, t.at, t.value)
    else Fallback(WithRefusal(st, t.at, t.value), w, t.at, t.value)
  }

  /** After one slot the coordinate realizes its target; no other coordinate, and no biome, has changed. */
  lemma PlaceCellEffect(st: WorldState, w: Engine, t: Target<Block>)
    ensures Realizes(w, Read(PlaceCell(st, w, t), t.at), t.value)
    ensures CellsAgreeOutside(PlaceCell(st, w, t), st, {t.at}) && PlaceCell(st, w, t).biomes == st.biomes
  {
    PlaceCellState(st, w, t);
  }

  /** When the primary write succeeds, the block is in place and no fallback call is made. */
  lemma PrimaryAccepted(st: WorldState, w: Engine, t: Target<Block>)
    requires w.primary(t.at, t.value).Ok?
    ensures PlaceCell(st, w, t).trace == st.trace + [Placed(t.at, t.value)]
    ensures Read(PlaceCell(st, w, t), t.at) == t.value
  {
  }

  /** A refused write whose live block already matches changes nothing in the world; only the refusal is logged. */
  lemma FallbackShortCircuit(st: WorldState, w: Engine, t: Target<Block>)
    requires w.primary(t.at, t.value).Err? && AlreadyMatches(w, Read(st, t.at), t.value)
    ensures PlaceCell(st, w, t).trace == st.trace + [Refused(t.at, t.value)]
    ensures CellsAgreeOutside(PlaceCell(st, w, t), st, {}) && PlaceCell(st, w, t).biomes == st.biomes
  {
  }

  /**
   * Otherwise the fallback clears a container's inventory first, then sets the
   * type, then the data, and hands the tag to the restore channel exactly when
   * the target has NBT data. The block ends with the target's type and data.
   */
  lemma FallbackInOrder(st: WorldState, w: Engine, t: Target<Block>)
    requires w.primary(t.at, t.value).Err? && !AlreadyMatches(w, Read(st, t.at), t.value)
    ensures var c, b := t.at, t.value;
      PlaceCell(st, w, t).trace ==
        st.trace + [Refused(c, b)]
        + (if w.isContainer(Read(st, c).material) then [InventoryCleared(c)] else [])
        + [TypeSet(c, b.material), DataSet(c, b.data)]
        + (if b.nbt.Some? then [TagRestored(w.name, c, b.nbt.value)] else [])
    ensures Read(PlaceCell(st, w, t), t.at) == Retyped(Read(st, t.at), t.value.material).(data := t.value.data)
    ensures var m := Read(st, t.at).material;
      Contents(PlaceCell(st, w, t), t.at) == if w.isContainer(m) || m != t.value.material then [] else Contents(st, t.at)
  {
    PlaceCellState(st, w, t);
    PlaceCellTrace(st, w, t);
  }

  /** The calls the fallback makes after a refusal, in order. */
  function FallbackCalls(st: WorldState, w: Engine, c: Coord, b: Block): seq<Event> {
    if AlreadyMatches(w, Read(st, c), b) then []
    else
      (if w.isContainer(Read(st, c).material) then [InventoryCleared(c)] else [])
      + [TypeSet(c, b.material), DataSet(c, b.data)]
      + (if b.nbt.Some? then [TagRestored(w.name, c, b.nbt.value)] else [])
  }

  lemma FallbackLog(st: WorldState, w: Engine, c: Coord, b: Block)
    ensures Fallback(st, w, c, b).trace == st.trace + FallbackCalls(st, w, c, b)
  {
    if !AlreadyMatches(w, Read(st, c), b) {
      var container := w.isContainer(Read(st, c).material);
      var pre: seq<Event> := if container then [InventoryCleared(c)] else [];
      var post: seq<Event> := if b.nbt.Some? then [TagRestored(w.name, c, b.nbt.value)] else [];
      var cleared := if container then WithInventoryCleared(st, c) else st;
      assert cleared.trace == st.trace + pre;
      var shaped := WithData(WithType(cleared, c, b.material), c, b.data);
      assert shaped.trace == st.trace + (pre + [TypeSet(c, b.material), DataSet(c, b.data)]);
      assert Fallback(st, w, c, b).trace == shaped.trace + post;
    }
  }

  /** The calls one slot makes: the primary attempt, then the fallback's calls when it is refused. */
  function PlaceCellCalls(st: WorldState, w: Engine, t: Target<Block>): seq<Event> {
    if w.primary(t.at, t.value).Ok? then [Placed(t.at, t.value)]
    else [Refused(t.at, t.value)] + FallbackCalls(st, w, t.at, t.value)
  }

  lemma PlaceCellTrace(st: WorldState, w: Engine, t: Target<Block>)
    ensures PlaceCell(st, w, t).trace == st.trace + PlaceCellCalls(st, w, t)
  {
    if w.primary(t.at, t.value).Err? {
      var refused := WithRefusal(st, t.at, t.value);
      FallbackLog(refused, w, t.at, t.value);
      assert FallbackCalls(refused, w, t.at, t.value) == FallbackCalls(st, w, t.at, t.value);
    }
  }

  /** Apart from its first call, a slot's calls are neither primary writes nor `setBiome`. */
  lemma PlaceCellCallsShape(st: WorldState, w: Engine, t: Target<Block>)
    ensures var calls := PlaceCellCalls(st, w, t);
      |calls| >= 1 && Attempts(calls[..1]) == [t] &&
      forall i :: 0 <= i < |calls| ==> !calls[i].BiomeSet? && (i > 0 ==> !calls[i].Placed? && !calls[i].Refused?)
  {
    var calls := PlaceCellCalls(st, w, t);
    AttemptsSingle(calls[0]);
    assert calls[..1] == [calls[0]];
  }

  /** A log with no primary write has no attempts. */
  lemma {:induction false} NoAttemptsIn(calls: seq<Event>)
    requires forall i :: 0 <= i < |calls| ==> !calls[i].Placed? && !calls[i].Refused?
    ensures Attempts(calls) == []
    decreases |calls|
  {
    if calls != [] {
      NoAttemptsIn(calls[..|calls| - 1]);
    }
  }

  /** Each slot makes exactly one primary attempt, for its own target, and never sets a biome. */
  lemma PlaceCellLog(st: WorldState, w: Engine, t: Target<Block>)
    ensures Attempts(PlaceCell(st, w, t).trace) == Attempts(st.trace) + [t]
    ensures ExtendsWithoutBiomes(st.trace, PlaceCell(st, w, t).trace)
  {
    var calls := PlaceCellCalls(st, w, t);
    PlaceCellTrace(st, w, t);
    PlaceCellCallsShape(st, w, t);
    CallsLog(st.trace, calls, [t]);
  }

  /** A log extended by calls whose first call makes the attempts `ts` and whose other calls make none. */
  lemma CallsLog(tr: seq<Event>, calls: seq<Event>, ts: seq<Target<Block>>)
    requires |calls| >= 1 && Attempts(calls[..1]) == ts
    requires forall i :: 0 <= i < |calls| ==> !calls[i].BiomeSet? && (i > 0 ==> !calls[i].Placed? && !calls[i].Refused?)
    ensures Attempts(tr + calls) == Attempts(tr) + ts
    ensures ExtendsWithoutBiomes(tr, tr + calls)
  {
    var rest := calls[1..];
    assert calls == calls[..1] + rest;
    assert forall i :: 0 <= i < |rest| ==> rest[i] == calls[i + 1];
    NoAttemptsIn(rest);
    AttemptsAppend(calls[..1], rest);
    AttemptsAppend(tr, calls);
    ExtendsBy(tr, calls);
  }

  /** What one slot leaves in the world, in closed form. */
  lemma PlaceCellState(st: WorldState, w: Engine, t: Target<Block>)
    ensures var r, c, b := PlaceCell(st, w, t), t.at, t.value;
      var refused := w.primary(c, b).Err?; var matched := AlreadyMatches(w, Read(st, c), b);
      var m := Read(st, c).material;
      r.blocks == (if !refused then st.blocks[c := b]
                   else if matched then st.blocks
                   else st.blocks[c := Retyped(Read(st, c), b.material).(data := b.data)]) &&
      r.inventories == (if !refused || (!matched && (w.isContainer(m) || m != b.material)) then st.inventories - {c}
                        else st.inventories) &&
      r.biomes == st.biomes
  {
    var c, b := t.at, t.value;
    if w.primary(c, b).Err? && !AlreadyMatches(w, Read(st, c), b) {
      var refused := WithRefusal(st, c, b);
      var cleared := if w.isContainer(Read(st, c).material) then WithInventoryCleared(refused, c) else refused;
      assert Read(cleared, c) == Read(st, c);
      var typed := WithType(cleared, c, b.material);
      assert typed.blocks == st.blocks[c := Retyped(Read(st, c), b.material)];
      if w.isContainer(Read(st, c).material) {
        assert typed.inventories == st.inventories - {c};
      }
    }
  }

  /** Writing a slot twice leaves the world as writing it once: only the log grows (the fallback's short-circuit and re-clearing). */
  lemma PlaceCellIdempotent(st: WorldState, w: Engine, t: Target<Block>)
    ensures var once := PlaceCell(st, w, t); PlaceCell(once, w, t).(trace := once.trace) == once
  {
    var once := PlaceCell(st, w, t);
    var twice := PlaceCell(once, w, t);
    var c, b := t.at, t.value;
    PlaceCellState(st, w, t);
    PlaceCellState(once, w, t);
    if w.primary(c, b).Ok? {
      assert once.blocks[c := b] == once.blocks;
      assert once.inventories - {c} == once.inventories;
    } else if !AlreadyMatches(w, Read(st, c), b) {
      var shaped := Retyped(Read(st, c), b.material).(data := b.data);
      assert Read(once, c) == shaped;
      if !AlreadyMatches(w, shaped, b) {
        assert once.blocks[c := shaped] == once.blocks;
        var m := Read(st, c).material;
        if w.isContainer(m) || m != b.material {
          assert once.inventories - {c} == once.inventories;
        }
      }
    }
  }

  // ---------------------------------------------------------------------
  // The cell pass: all slots
  // ---------------------------------------------------------------------

  /** The slot protocol applied to each target in order: no biome changes, and each target adds at least one call to the log. */
  function WriteCells(st: WorldState, w: Engine, ts: seq<Target<Block>>): (r: WorldState)
    ensures r.biomes == st.biomes
    ensures |st.trace| + |ts| <= |r.trace|
    decreases |ts|
  {
    if ts == [] then st else PlaceCell(WriteCells(st, w, ts[..|ts| - 1]), w, ts[|ts| - 1])
  }

  lemma WriteCellsSnoc(st: WorldState, w: Engine, ts: seq<Target<Block>>, t: Target<Block>)
    ensures WriteCells(st, w, ts + [t]) == PlaceCell(WriteCells(st, w, ts), w, t)
  {
    assert (ts + [t])[..|ts|] == ts;
  }

  /** The cell pass over two runs of targets is the pass over the second after the pass over the first. */
  lemma {:induction false} WriteCellsAppend(st: WorldState, w: Engine, a: seq<Target<Block>>, b: seq<Target<Block>>)
    ensures WriteCells(st, w, a + b) == WriteCells(WriteCells(st, w, a), w, b)
    decreases |b|
  {
    if b == [] {
      assert a + b == a;
    } else {
      var b' := b[..|b| - 1];
      WriteCellsAppend(st, w, a, b');
      assert (a + b)[..|a + b| - 1] == a + b';
    }
  }

  /**
   * Every target is attempted, in order, one attempt each: a refused write
   * never stops the pass. The log is only extended, and with no `setBiome`.
   */
  lemma {:induction false} WriteCellsLog(st: WorldState, w: Engine, ts: seq<Target<Block>>)
    ensures Attempts(WriteCells(st, w, ts).trace) == Attempts(st.trace) + ts
    ensures ExtendsWithoutBiomes(st.trace, WriteCells(st, w, ts).trace)
    decreases |ts|
  {
    if ts == [] {
      ExtendsBy(st.trace, []);
      assert st.trace + [] == st.trace;
    } else {
      var prefix := ts[..|ts| - 1];
      var t := ts[|ts| - 1];
      assert prefix + [t] == ts;
      WriteCellsLog(st, w, prefix);
      WriteCellsStepLog(st, w, prefix, t);
      LogStep(st.trace, WriteCells(st, w, prefix).trace, WriteCells(st, w, prefix + [t]).trace, prefix, [t]);
    }
  }

  lemma WriteCellsStepLog(st: WorldState, w: Engine, ts: seq<Target<Block>>, t: Target<Block>)
    ensures Attempts(WriteCells(st, w, ts + [t]).trace) == Attempts(WriteCells(st, w, ts).trace) + [t]
    ensures ExtendsWithoutBiomes(WriteCells(st, w, ts).trace, WriteCells(st, w, ts + [t]).trace)
  {
    WriteCellsSnoc(st, w, ts, t);
    PlaceCellLog(WriteCells(st, w, ts), w, t);
  }

  /** Nothing outside the targets' coordinates changes, and no biome changes. */
  lemma {:induction false} WriteCellsFrame(st: WorldState, w: Engine, ts: seq<Target<Block>>)
    ensures CellsAgreeOutside(WriteCells(st, w, ts), st, CoordsOf(ts))
    ensures WriteCells(st, w, ts).biomes == st.biomes
    decreases |ts|
  {
    if ts != [] {
      var prefix := ts[..|ts| - 1];
      WriteCellsFrame(st, w, prefix);
      PlaceCellEffect(WriteCells(st, w, prefix), w, ts[|ts| - 1]);
      assert CoordsOf(ts) == CoordsOf(prefix) + {ts[|ts| - 1].at} by {
        assert ts == prefix + [ts[|ts| - 1]];
      }
    }
  }

  /** The last write to a coordinate decides it: afterwards the coordinate realizes that target. */
  lemma {:induction false} WriteCellsLast(st: WorldState, w: Engine, ts: seq<Target<Block>>, i: nat)
    requires i < |ts| && LastAt(ts, i)
    ensures Realizes(w, Read(WriteCells(st, w, ts), ts[i].at), ts[i].value)
    decreases |ts|
  {
    var prefix := ts[..|ts| - 1];
    PlaceCellEffect(WriteCells(st, w, prefix), w, ts[|ts| - 1]);
    if i < |ts| - 1 {
      assert prefix[i] == ts[i];
      WriteCellsLast(st, w, prefix, i);
    }
  }

  // ---------------------------------------------------------------------
  // The biome pass
  // ---------------------------------------------------------------------

  function BiomeAt(st: WorldState, c: Coord): Option<Biome> {
    if c in st.biomes then Some(st.biomes[c]) else None
  }

  /** One `setBiome` per target, in order; blocks and contents stay as they were. */
  function WriteBiomes(st: WorldState, ts: seq<Target<Biome>>): (r: WorldState)
    ensures r.blocks == st.blocks && r.inventories == st.inventories
    ensures |r.trace| == |st.trace| + |ts|
    decreases |ts|
  {
    if ts == [] then st else
      var prev := WriteBiomes(st, ts[..|ts| - 1]);
      WithBiome(prev, ts[|ts| - 1].at, ts[|ts| - 1].value)
  }

  lemma WriteBiomesSnoc(st: WorldState, ts: seq<Target<Biome>>, t: Target<Biome>)
    ensures WriteBiomes(st, ts + [t]) == WithBiome(WriteBiomes(st, ts), t.at, t.value)
  {
    assert (ts + [t])[..|ts|] == ts;
  }

  lemma {:induction false} WriteBiomesAppend(st: WorldState, a: seq<Target<Biome>>, b: seq<Target<Biome>>)
    ensures WriteBiomes(st, a + b) == WriteBiomes(WriteBiomes(st, a), b)
    decreases |b|
  {
    if b == [] {
      assert a + b == a;
    } else {
      var b' := b[..|b| - 1];
      WriteBiomesAppend(st, a, b');
      assert (a + b)[..|a + b| - 1] == a + b';
    }
  }

  /** The calls of the biome pass: one `setBiome` per target, in order. */
  function BiomeCalls(ts: seq<Target<Biome>>): (calls: seq<Event>)
    ensures |calls| == |ts|
    ensures forall k :: 0 <= k < |ts| ==> calls[k] == BiomeSet(ts[k].at, ts[k].value)
    decreases |ts|
  {
    if ts == [] then [] else BiomeCalls(ts[..|ts| - 1]) + [BiomeSet(ts[|ts| - 1].at, ts[|ts| - 1].value)]
  }

  /**
   * The biome pass logs exactly one `setBiome` per target, in order, and
   * changes no block and no inventory.
   */
  lemma {:induction false} WriteBiomesEffect(st: WorldState, ts: seq<Target<Biome>>)
    ensures var r := WriteBiomes(st, ts);
      r.blocks == st.blocks && r.inventories == st.inventories && r.trace == st.trace + BiomeCalls(ts)
    decreases |ts|
  {
    if ts != [] {
      WriteBiomesEffect(st, ts[..|ts| - 1]);
    }
  }

  /** Biomes outside the pass's targets stay. */
  lemma {:induction false} WriteBiomesFrame(st: WorldState, ts: seq<Target<Biome>>, c: Coord)
    requires c !in CoordsOf(ts)
    ensures BiomeAt(WriteBiomes(st, ts), c) == BiomeAt(st, c)
    decreases |ts|
  {
    if ts != [] {
      var prefix := ts[..|ts| - 1];
      assert ts == prefix + [ts[|ts| - 1]];
      assert c !in CoordsOf(prefix);
      WriteBiomesFrame(st, prefix, c);
    }
  }

  /** The last biome target at a coordinate is that coordinate's biome. */
  lemma {:induction false} WriteBiomesLast(st: WorldState, ts: seq<Target<Biome>>, i: nat)
    requires i < |ts| && LastAt(ts, i)
    ensures BiomeAt(WriteBiomes(st, ts), ts[i].at) == Some(ts[i].value)
    decreases |ts|
  {
    if i < |ts| - 1 {
      var prefix := ts[..|ts| - 1];
      assert prefix[i] == ts[i];
      WriteBiomesLast(st, prefix, i);
    }
  }

  // ---------------------------------------------------------------------
  // The tile pass
  // ---------------------------------------------------------------------

  /** The live block at `c` with `tag` merged in (BlockState.toBaseBlock). */
  function TileBlock(st: WorldState, c: Coord, tag: Tag): (b: Block)
    ensures StateOf(b) == StateOf(Read(st, c)) && b.nbt == Some(tag)
  {
    Block(Read(st, c).material, Read(st, c).data, Some(tag))
  }

  /**
   * One tile entry: write the merged block; if that is refused, restore the
   * tag through the side channel. Either the merged block is in place or the
   * last call handed the tag over; the type and data at `c` stay.
   */
  function TileWrite(st: WorldState, w: Engine, c: Coord, tag: Tag): (r: WorldState)
    ensures StateOf(Read(r, c)) == StateOf(Read(st, c)) && r.biomes == st.biomes
    ensures |r.trace| > |st.trace|
    ensures Read(r, c) == TileBlock(st, c, tag) || r.trace[|r.trace| - 1] == TagRestored(w.name, c, tag)
  {
    var b := TileBlock(st, c, tag);
    if w.primary(c, b).Ok? then WithBlock(st, c, b)
    else WithTagRestored(WithRefusal(st, c, b), w.name, c, tag)
  }

  /** Every tile entry in order, with no filter on what the cell pass wrote; no biome changes and each entry adds a call. */
  function WriteTiles(st: WorldState, w: Engine, tiles: seq<(Coord, Tag)>): (r: WorldState)
    ensures r.biomes == st.biomes
    ensures |st.trace| + |tiles| <= |r.trace|
    decreases |tiles|
  {
    if tiles == [] then st else
      var prev := WriteTiles(st, w, tiles[..|tiles| - 1]);
      TileWrite(prev, w, tiles[|tiles| - 1].0, tiles[|tiles| - 1].1)
  }

  lemma WriteTilesSnoc(st: WorldState, w: Engine, tiles: seq<(Coord, Tag)>, e: (Coord, Tag))
    ensures WriteTiles(st, w, tiles + [e]) == TileWrite(WriteTiles(st, w, tiles), w, e.0, e.1)
  {
    assert (tiles + [e])[..|tiles|] == tiles;
  }

  function TileCoords(tiles: seq<(Coord, Tag)>): set<Coord> {
    set e | e in tiles :: e.0
  }

  /** The writes the tile pass attempts, in order: each entry's coordinate with its live block and the entry's tag. */
  function TileTargets(st: WorldState, tiles: seq<(Coord, Tag)>): (ts: seq<Target<Block>>)
    ensures |ts| == |tiles|
    ensures forall k :: 0 <= k < |tiles| ==> ts[k].at == tiles[k].0 && ts[k].value == TileBlock(st, tiles[k].0, tiles[k].1)
    decreases |tiles|
  {
    if tiles == [] then []
    else
      var e := tiles[|tiles| - 1];
      TileTargets(st, tiles[..|tiles| - 1]) + [Target(e.0, TileBlock(st, e.0, e.1))]
  }

  /**
   * The tile pass changes only tags: every coordinate keeps its type and data,
   * biomes are untouched, and coordinates outside the tile map keep their
   * block and their contents.
   */
  lemma {:induction false} WriteTilesKeepsStates(st: WorldState, w: Engine, tiles: seq<(Coord, Tag)>, c: Coord)
    ensures var r := WriteTiles(st, w, tiles);
      StateOf(Read(r, c)) == StateOf(Read(st, c)) && r.biomes == st.biomes &&
      (c !in TileCoords(tiles) ==> Read(r, c) == Read(st, c) && Contents(r, c) == Contents(st, c))
    decreases |tiles|
  {
    if tiles != [] {
      var prefix := tiles[..|tiles| - 1];
      var e := tiles[|tiles| - 1];
      WriteTilesKeepsStates(st, w, prefix, c);
      TileWriteKeeps(WriteTiles(st, w, prefix), w, e.0, e.1, c);
      assert TileCoords(tiles) == TileCoords(prefix) + {e.0} by {
        assert tiles == prefix + [e];
      }
    }
  }

  /** One tile entry keeps every type and data, and leaves other coordinates alone. */
  lemma TileWriteKeeps(st: WorldState, w: Engine, c: Coord, tag: Tag, c': Coord)
    ensures var r := TileWrite(st, w, c, tag);
      StateOf(Read(r, c')) == StateOf(Read(st, c')) &&
      (c' != c ==> Read(r, c') == Read(st, c') && Contents(r, c') == Contents(st, c'))
  {
  }

  /**
   * Every tile entry is attempted exactly once, in order, with the live block
   * at its coordinate (as it was before the tile pass) and the entry's tag;
   * the log is only extended, and with no `setBiome`.
   */
  lemma {:induction false} WriteTilesLog(st: WorldState, w: Engine, tiles: seq<(Coord, Tag)>)
    ensures Attempts(WriteTiles(st, w, tiles).trace) == Attempts(st.trace) + TileTargets(st, tiles)
    ensures ExtendsWithoutBiomes(st.trace, WriteTiles(st, w, tiles).trace)
    decreases |tiles|
  {
    if tiles == [] {
      ExtendsBy(st.trace, []);
      assert st.trace + [] == st.trace;
    } else {
      var prefix := tiles[..|tiles| - 1];
      var e := tiles[|tiles| - 1];
      var mid := WriteTiles(st, w, prefix);
      WriteTilesLog(st, w, prefix);
      WriteTilesKeepsStates(st, w, prefix, e.0);
      assert TileBlock(mid, e.0, e.1) == TileBlock(st, e.0, e.1);
      TileWriteLog(mid, w, e.0, e.1);
      LogStep(st.trace, mid.trace, WriteTiles(st, w, tiles).trace, TileTargets(st, prefix), [Target(e.0, TileBlock(st, e.0, e.1))]);
    }
  }

  /** The calls one tile entry makes: the write, and the tag restore when the write is refused. */
  function TileCalls(st: WorldState, w: Engine, c: Coord, tag: Tag): seq<Event> {
    var b := TileBlock(st, c, tag);
    if w.primary(c, b).Ok? then [Placed(c, b)] else [Refused(c, b), TagRestored(w.name, c, tag)]
  }

  lemma TileWriteLog(st: WorldState, w: Engine, c: Coord, tag: Tag)
    ensures TileWrite(st, w, c, tag).trace == st.trace + TileCalls(st, w, c, tag)
    ensures Attempts(TileWrite(st, w, c, tag).trace) == Attempts(st.trace) + [Target(c, TileBlock(st, c, tag))]
    ensures ExtendsWithoutBiomes(st.trace, TileWrite(st, w, c, tag).trace)
  {
    var calls := TileCalls(st, w, c, tag);
    AttemptsSingle(calls[0]);
    assert calls[..1] == [calls[0]];
    CallsLog(st.trace, calls, [Target(c, TileBlock(st, c, tag))]);
  }

  /** Log `tr` has a tag restore for `c` with `tag` after the first `|start|` calls. */
  ghost predicate TagRestoredSince(start: seq<Event>, tr: seq<Event>, world: string, c: Coord, tag: Tag) {
    exists k :: |start| <= k < |tr| && tr[k] == TagRestored(world, c, tag)
  }

  /**
   * The last entry for a coordinate decides it: when the merged block is
   * accepted it is the coordinate's block; when it is refused the tag was
   * handed to the restore channel for that coordinate.
   */
  lemma {:induction false} WriteTilesLast(st: WorldState, w: Engine, tiles: seq<(Coord, Tag)>, i: nat)
    requires i < |tiles| && forall k :: i < k < |tiles| ==> tiles[k].0 != tiles[i].0
    ensures w.primary(tiles[i].0, TileBlock(st, tiles[i].0, tiles[i].1)).Ok? ==>
      Read(WriteTiles(st, w, tiles), tiles[i].0) == TileBlock(st, tiles[i].0, tiles[i].1)
    ensures w.primary(tiles[i].0, TileBlock(st, tiles[i].0, tiles[i].1)).Err? ==>
      TagRestoredSince(st.trace, WriteTiles(st, w, tiles).trace, w.name, tiles[i].0, tiles[i].1)
    decreases |tiles|
  {
    var c, tag := tiles[i].0, tiles[i].1;
    var prefix := tiles[..|tiles| - 1];
    var e := tiles[|tiles| - 1];
    var mid := WriteTiles(st, w, prefix);
    assert WriteTiles(st, w, tiles) == TileWrite(mid, w, e.0, e.1);
    WriteTilesLog(st, w, prefix);
    TileWriteLog(mid, w, e.0, e.1);
    if i == |tiles| - 1 {
      WriteTilesKeepsStates(st, w, prefix, c);
      assert TileBlock(mid, c, tag) == TileBlock(st, c, tag);
      TileWriteEffect(mid, w, c, tag);
      if w.primary(c, TileBlock(st, c, tag)).Err? {
        TagRestoredWidens(st.trace, mid.trace, WriteTiles(st, w, tiles).trace, w.name, c, tag);
      }
    } else {
      assert prefix[i] == tiles[i];
      WriteTilesLast(st, w, prefix, i);
      TileWriteElsewhere(mid, w, e.0, e.1, c);
      if w.primary(c, TileBlock(st, c, tag)).Err? {
        TagRestoredExtends(st.trace, mid.trace, WriteTiles(st, w, tiles).trace, w.name, c, tag);
      }
    }
  }

  /** One tile entry: an accepted write puts the merged block in place; a refused one restores the tag. */
  lemma TileWriteEffect(st: WorldState, w: Engine, c: Coord, tag: Tag)
    ensures w.primary(c, TileBlock(st, c, tag)).Ok? ==> Read(TileWrite(st, w, c, tag), c) == TileBlock(st, c, tag)
    ensures w.primary(c, TileBlock(st, c, tag)).Err? ==>
      TagRestoredSince(st.trace, TileWrite(st, w, c, tag).trace, w.name, c, tag)
  {
    var r := TileWrite(st, w, c, tag);
    if w.primary(c, TileBlock(st, c, tag)).Err? {
      assert r.trace[|st.trace| + 1] == TagRestored(w.name, c, tag);
    }
  }

  lemma TileWriteElsewhere(st: WorldState, w: Engine, c: Coord, tag: Tag, c': Coord)
    requires c' != c
    ensures Read(TileWrite(st, w, c, tag), c') == Read(st, c')
  {
  }

  lemma TagRestoredWidens(a: seq<Event>, b: seq<Event>, tr: seq<Event>, world: string, c: Coord, tag: Tag)
    requires |a| <= |b| && TagRestoredSince(b, tr, world, c, tag)
    ensures TagRestoredSince(a, tr, world, c, tag)
  {
  }

  lemma TagRestoredExtends(a: seq<Event>, b: seq<Event>, tr: seq<Event>, world: string, c: Coord, tag: Tag)
    requires TagRestoredSince(a, b, world, c, tag) && ExtendsWithoutBiomes(b, tr)
    ensures TagRestoredSince(a, tr, world, c, tag)
  {
    var k :| |a| <= k < |b| && b[k] == TagRestored(world, c, tag);
    assert tr[k] == tr[..|b|][k];
  }

  // ---------------------------------------------------------------------
  // One chunk: the three passes
  // ---------------------------------------------------------------------

  /** How the consumer ends: normally, with an NPE for a missing LocalChunk, or with an index error on the biome array. */
  datatype Outcome = Completed | MissingChunk | BiomeLayerMissing(layer: nat)

  datatype Applied = Applied(state: WorldState, outcome: Outcome)

  function CellTargets(offsets: OffsetTable, key: ChunkKey, lc: LocalChunk): seq<Target<Block>> {
    LayerTargets(offsets, key, lc.baseblocks, |lc.baseblocks|)
  }

  /** The biome loop runs over the block-layer count and stops at the first layer the biome array lacks. */
  function BiomeLayersReached(lc: LocalChunk): (n: nat)
    ensures n <= |lc.biomes| && n <= |lc.baseblocks|
    ensures n == |lc.baseblocks| || n == |lc.biomes|
  {
    if |lc.biomes| < |lc.baseblocks| then |lc.biomes| else |lc.baseblocks|
  }

  function BiomeTargets(offsets: OffsetTable, key: ChunkKey, lc: LocalChunk): seq<Target<Biome>> {
    LayerTargets(offsets, key, lc.biomes, BiomeLayersReached(lc))
  }

  function CellPass(st: WorldState, w: Engine, offsets: OffsetTable, key: ChunkKey, lc: LocalChunk): WorldState {
    WriteCells(st, w, CellTargets(offsets, key, lc))
  }

  /**
   * The built-in consumer for chunk `key`: cell pass, then biome pass, then
   * tile pass. A missing LocalChunk fails before the world is touched; a
   * biome array shorter than the block-layer array fails inside the biome
   * pass, after the cell pass, and the tile pass does not run.
   */
  function Consume(st: WorldState, w: Engine, offsets: OffsetTable, chunks: map<ChunkKey, LocalChunk>, key: ChunkKey): (r: Applied)
    ensures key !in chunks ==> r == Applied(st, MissingChunk)
    ensures key in chunks ==>
      (r.outcome == Completed <==> |chunks[key].biomes| >= |chunks[key].baseblocks|) &&
      (r.outcome != Completed ==> r.outcome == BiomeLayerMissing(|chunks[key].biomes|))
  {
    if key !in chunks then Applied(st, MissingChunk)
    else
      var lc := chunks[key];
      var cells := CellPass(st, w, offsets, key, lc);
      var biomes := WriteBiomes(cells, BiomeTargets(offsets, key, lc));
      if |lc.biomes| < |lc.baseblocks| then Applied(biomes, BiomeLayerMissing(|lc.biomes|))
      else Applied(WriteTiles(biomes, w, lc.tiles), Completed)
  }

  /**
   * The biome pass writes exactly the non-null slots of the non-null biome
   * layers below both layer counts, at the same coordinates as the cell pass.
   */
  lemma BiomeTargetsExact(offsets: OffsetTable, key: ChunkKey, lc: LocalChunk, t: Target<Biome>)
    ensures t in BiomeTargets(offsets, key, lc) <==>
      exists l, j :: 0 <= l < |lc.baseblocks| && l < |lc.biomes| && lc.biomes[l].Some? &&
        0 <= j < |lc.biomes[l].value| && lc.biomes[l].value[j] == Some(t.value) && t.at == CellCoord(key, offsets(l, j))
  {
    LayerTargetsExact(offsets, key, lc.biomes, BiomeLayersReached(lc), t);
  }

  /**
   * For a chunk within 2^26 chunks of the origin, every non-null slot `j` of
   * every non-null block layer `l` is a cell target at
   * `(16 * X + dx, dy, 16 * Z + dz)` with the offsets of `(l, j)`.
   */
  lemma SlotAttemptedAt(offsets: OffsetTable, key: ChunkKey, lc: LocalChunk, l: nat, j: nat)
    requires -0x400_0000 <= key.x < 0x400_0000 && -0x400_0000 <= key.z < 0x400_0000
    requires l < |lc.baseblocks| && lc.baseblocks[l].Some? && j < |lc.baseblocks[l].value|
    requires lc.baseblocks[l].value[j].Some?
    ensures var off := offsets(l, j);
      Target(Coord(16 * key.x + off.dx, off.dy, 16 * key.z + off.dz), lc.baseblocks[l].value[j].value)
        in CellTargets(offsets, key, lc)
  {
    var off := offsets(l, j);
    CellCoordExact(key, off);
    LayerTargetsExact(offsets, key, lc.baseblocks, |lc.baseblocks|, Target(CellCoord(key, off), lc.baseblocks[l].value[j].value));
  }

  /**
   * Completeness of the cell pass: whatever the outcome, once a chunk's
   * LocalChunk exists, the last cell target at each coordinate is realized
   * there after the consumer (the biome and tile passes keep types and data).
   */
  lemma ConsumeRealizes(st: WorldState, w: Engine, offsets: OffsetTable, chunks: map<ChunkKey, LocalChunk>, key: ChunkKey, i: nat)
    requires key in chunks
    requires i < |CellTargets(offsets, key, chunks[key])| && LastAt(CellTargets(offsets, key, chunks[key]), i)
    ensures var t := CellTargets(offsets, key, chunks[key])[i];
      Realizes(w, Read(Consume(st, w, offsets, chunks, key).state, t.at), t.value)
  {
    var lc := chunks[key];
    var ts := CellTargets(offsets, key, lc);
    var t := ts[i];
    var cells := CellPass(st, w, offsets, key, lc);
    WriteCellsLast(st, w, ts, i);
    var biomes := WriteBiomes(cells, BiomeTargets(offsets, key, lc));
    WriteBiomesEffect(cells, BiomeTargets(offsets, key, lc));
    assert Read(biomes, t.at) == Read(cells, t.at);
    if |lc.biomes| >= |lc.baseblocks| {
      WriteTilesKeepsStates(biomes, w, lc.tiles, t.at);
    }
  }

  /**
   * Nothing at other coordinates changes: a coordinate that is neither a cell
   * target nor a tile coordinate keeps its block and container contents, and
   * one that is not a biome target keeps its biome.
   */
  lemma ConsumeFrame(st: WorldState, w: Engine, offsets: OffsetTable, chunks: map<ChunkKey, LocalChunk>, key: ChunkKey, c: Coord)
    requires key in chunks
    ensures var lc := chunks[key]; var r := Consume(st, w, offsets, chunks, key).state;
      (c !in CoordsOf(CellTargets(offsets, key, lc)) && c !in TileCoords(lc.tiles) ==>
        Read(r, c) == Read(st, c) && Contents(r, c) == Contents(st, c)) &&
      (c !in CoordsOf(BiomeTargets(offsets, key, lc)) ==> BiomeAt(r, c) == BiomeAt(st, c))
  {
    var lc := chunks[key];
    var cells := CellPass(st, w, offsets, key, lc);
    WriteCellsFrame(st, w, CellTargets(offsets, key, lc));
    var biomes := WriteBiomes(cells, BiomeTargets(offsets, key, lc));
    WriteBiomesEffect(cells, BiomeTargets(offsets, key, lc));
    if c !in CoordsOf(BiomeTargets(offsets, key, lc)) {
      WriteBiomesFrame(cells, BiomeTargets(offsets, key, lc), c);
    }
    if |lc.biomes| >= |lc.baseblocks| {
      WriteTilesKeepsStates(biomes, w, lc.tiles, c);
    }
  }

  /** The biome pass makes no primary attempt. */
  lemma {:induction false} BiomeCallsNoAttempts(ts: seq<Target<Biome>>)
    ensures Attempts(BiomeCalls(ts)) == []
    decreases |ts|
  {
    if ts != [] {
      var calls := BiomeCalls(ts);
      BiomeCallsNoAttempts(ts[..|ts| - 1]);
      assert calls[..|calls| - 1] == BiomeCalls(ts[..|ts| - 1]);
    }
  }

  /**
   * The passes run in a fixed order. In the calls the consumer logs, the
   * `setBiome` calls form one block, from `p` to `q`: before it come exactly
   * the cell pass's primary attempts (and their fallbacks), after it the tile
   * pass's, and the attempts of the whole run are the cell targets followed,
   * when the consumer completes, by the tile targets.
   */
  lemma PassOrder(st: WorldState, w: Engine, offsets: OffsetTable, chunks: map<ChunkKey, LocalChunk>, key: ChunkKey)
    requires key in chunks
    ensures var lc := chunks[key]; var r := Consume(st, w, offsets, chunks, key).state.trace;
      var cells := CellPass(st, w, offsets, key, lc);
      var p := |cells.trace|; var q := p + |BiomeTargets(offsets, key, lc)|;
      |st.trace| <= p <= q <= |r| && r[..|st.trace|] == st.trace &&
      (forall k :: |st.trace| <= k < |r| ==> (r[k].BiomeSet? <==> p <= k < q)) &&
      Attempts(r[..p]) == Attempts(st.trace) + CellTargets(offsets, key, lc) &&
      Attempts(r) == Attempts(st.trace) + CellTargets(offsets, key, lc) +
        (if |lc.biomes| >= |lc.baseblocks| then TileTargets(cells, lc.tiles) else [])
  {
    var lc := chunks[key];
    var r := Consume(st, w, offsets, chunks, key).state.trace;
    var bts := BiomeTargets(offsets, key, lc);
    var cells := CellPass(st, w, offsets, key, lc);
    CellAndBiomeLog(st, w, offsets, key, lc);
    TilePassLog(st, w, offsets, chunks, key);
    var tts := if |lc.biomes| >= |lc.baseblocks| then TileTargets(cells, lc.tiles) else [];
    BiomeBlockBetween(st.trace, cells.trace, BiomeCalls(bts), r);
    AttemptsOfPasses(st.trace, cells.trace, BiomeCalls(bts), r, CellTargets(offsets, key, lc), tts);
  }

  /** The cell pass's log, then the biome pass's `setBiome` block. */
  lemma CellAndBiomeLog(st: WorldState, w: Engine, offsets: OffsetTable, key: ChunkKey, lc: LocalChunk)
    ensures var cells := CellPass(st, w, offsets, key, lc); var bts := BiomeTargets(offsets, key, lc);
      ExtendsWithoutBiomes(st.trace, cells.trace) &&
      Attempts(cells.trace) == Attempts(st.trace) + CellTargets(offsets, key, lc) &&
      WriteBiomes(cells, bts).trace == cells.trace + BiomeCalls(bts) &&
      Attempts(BiomeCalls(bts)) == []
  {
    var cells := CellPass(st, w, offsets, key, lc);
    var bts := BiomeTargets(offsets, key, lc);
    WriteCellsLog(st, w, CellTargets(offsets, key, lc));
    WriteBiomesEffect(cells, bts);
    BiomeCallsNoAttempts(bts);
  }

  /** The tile pass's log after the biome pass: only when the consumer completes does it attempt anything. */
  lemma TilePassLog(st: WorldState, w: Engine, offsets: OffsetTable, chunks: map<ChunkKey, LocalChunk>, key: ChunkKey)
    requires key in chunks
    ensures var lc := chunks[key]; var cells := CellPass(st, w, offsets, key, lc);
      var biomes := WriteBiomes(cells, BiomeTargets(offsets, key, lc));
      var r := Consume(st, w, offsets, chunks, key).state.trace;
      ExtendsWithoutBiomes(biomes.trace, r) &&
      Attempts(r) == Attempts(biomes.trace) + (if |lc.biomes| >= |lc.baseblocks| then TileTargets(cells, lc.tiles) else [])
  {
    var lc := chunks[key];
    var cells := CellPass(st, w, offsets, key, lc);
    var bts := BiomeTargets(offsets, key, lc);
    var biomes := WriteBiomes(cells, bts);
    if |lc.biomes| >= |lc.baseblocks| {
      WriteTilesLog(biomes, w, lc.tiles);
      WriteBiomesEffect(cells, bts);
      forall k | 0 <= k < |lc.tiles|
        ensures Read(biomes, lc.tiles[k].0) == Read(cells, lc.tiles[k].0)
      {
      }
      TileTargetsSameBlocks(biomes, cells, lc.tiles);
    } else {
      ExtendsBy(biomes.trace, []);
      assert biomes.trace + [] == biomes.trace;
    }
  }

  /** The attempts of three consecutive segments, the middle one making none. */
  lemma AttemptsOfPasses(t0: seq<Event>, t1: seq<Event>, bs: seq<Event>, t3: seq<Event>,
                         cts: seq<Target<Block>>, tts: seq<Target<Block>>)
    requires Attempts(t1) == Attempts(t0) + cts && Attempts(bs) == []
    requires |t1| <= |t3| && t3[..|t1|] == t1 && Attempts(t3) == Attempts(t1 + bs) + tts
    ensures Attempts(t3[..|t1|]) == Attempts(t0) + cts
    ensures Attempts(t3) == Attempts(t0) + cts + tts
  {
    AttemptsAppend(t1, bs);
    assert Attempts(t1) + [] == Attempts(t1);
  }

  /** The tile targets depend only on the blocks at the tile coordinates. */
  lemma {:induction false} TileTargetsSameBlocks(s: WorldState, t: WorldState, tiles: seq<(Coord, Tag)>)
    requires forall k :: 0 <= k < |tiles| ==> Read(s, tiles[k].0) == Read(t, tiles[k].0)
    ensures TileTargets(s, tiles) == TileTargets(t, tiles)
    decreases |tiles|
  {
    if tiles != [] {
      TileTargetsSameBlocks(s, t, tiles[..|tiles| - 1]);
    }
  }
}
