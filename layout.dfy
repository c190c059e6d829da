/**
 * Where a chunk's layered slots land in the world: Java's 32-bit `int`
 * arithmetic on chunk coordinates, and the per-layer, per-slot offset table.
 */
module Layout {
  import opened Store

  const TWO_32: int := 0x1_0000_0000

  type Int32 = x: int | -0x8000_0000 <= x < 0x8000_0000
  type Int16 = x: int | -0x8000 <= x < 0x8000

  /** Java's `int` wrap-around: the value of `v` taken modulo 2^32 into the signed range. */
  function Wrap32(v: int): (r: Int32)
    ensures -0x8000_0000 <= v < 0x8000_0000 ==> r == v
    ensures (v - r) % TWO_32 == 0
  {
    (v + 0x8000_0000) % TWO_32 - 0x8000_0000
  }

  /** Java's `v << 4` on an `int`: exact exactly when `16 * v` fits. */
  function ShiftLeft4(v: Int32): (r: Int32)
    ensures r == 16 * v <==> -0x800_0000 <= v < 0x800_0000
    ensures (16 * v - r) % TWO_32 == 0
  {
    Wrap32(16 * v)
  }

  /** A chunk key (WorldEdit's BlockVector2). */
  datatype ChunkKey = ChunkKey(x: Int32, z: Int32)

  /** One entry of the `x_loc`, `y_loc` and `z_loc` tables (Java `short`s). */
  datatype Offset = Offset(dx: Int16, dy: Int16, dz: Int16)

  /** The tables indexed by layer and slot. */
  type OffsetTable = (nat, nat) -> Offset

  /**
   * The absolute coordinate of a slot: origin `X << 4`, `Z << 4` plus the
   * offset, in `int` arithmetic. Horizontally it is congruent to
   * `16 * X + dx` (and `16 * Z + dz`) modulo 2^32, and equal to it whenever
   * that fits in an `int`, even if `X << 4` alone wrapped.
   */
  function CellCoord(key: ChunkKey, off: Offset): (c: Coord)
    ensures c.y == off.dy
    ensures (16 * key.x + off.dx - c.x) % TWO_32 == 0 && (16 * key.z + off.dz - c.z) % TWO_32 == 0
    ensures -0x8000_0000 <= 16 * key.x + off.dx < 0x8000_0000 ==> c.x == 16 * key.x + off.dx
    ensures -0x8000_0000 <= 16 * key.z + off.dz < 0x8000_0000 ==> c.z == 16 * key.z + off.dz
  {
    WrapSum(key.x, off.dx);
    WrapSum(key.z, off.dz);
    Coord(Wrap32(ShiftLeft4(key.x) + off.dx), off.dy, Wrap32(ShiftLeft4(key.z) + off.dz))
  }

  /** Wrapping `X << 4` and then the sum is wrapping the exact sum once. */
  lemma WrapSum(v: Int32, d: Int16)
    ensures (16 * v + d - Wrap32(ShiftLeft4(v) + d)) % TWO_32 == 0
    ensures -0x8000_0000 <= 16 * v + d < 0x8000_0000 ==> Wrap32(ShiftLeft4(v) + d) == 16 * v + d
  {
    var s := ShiftLeft4(v);
    var r := Wrap32(s + d);
    var a := 16 * v - s;
    var b := s + d - r;
    assert a % TWO_32 == 0 && b % TWO_32 == 0;
    assert a == (a / TWO_32) * TWO_32 && b == (b / TWO_32) * TWO_32;
    assert 16 * v + d - r == (a / TWO_32 + b / TWO_32) * TWO_32;
  }

  /**
   * For every chunk inside 2^26 chunks of the origin (far beyond the game's
   * world border) no arithmetic wraps: the slot lands at
   * `(16 * X + dx, dy, 16 * Z + dz)`.
   */
  lemma CellCoordExact(key: ChunkKey, off: Offset)
    requires -0x400_0000 <= key.x < 0x400_0000 && -0x400_0000 <= key.z < 0x400_0000
    ensures CellCoord(key, off) == Coord(16 * key.x + off.dx, off.dy, 16 * key.z + off.dz)
  {
  }

  /** The first chunk whose origin wraps: `X << 4` for `X = 2^27` is `-2^31`. */
  lemma ShiftLeft4Wraps()
    ensures ShiftLeft4(0x800_0000) == -0x8000_0000
  {
  }
}
