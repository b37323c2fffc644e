/** The raycaster's texture layout: every listed cell owns `deg` consecutive
    texels of one texture row (one per neighbour direction), `per_row` cells
    share a row of `length` texels, and `rows` rows are allocated.  A cell is
    named in the shader by `enc`, the texture coordinates of its first
    texel's centre. */
module TextureLayout {
  import opened Arith

  /** The width of the data textures in texels. */
  const Length: int := 4096

  /** `per_row`: how many cells fit in one row. */
  function PerRow(deg: int): int
    requires 1 <= deg <= Length
  {
    Length / deg
  }

  /** The number of directions of a cell: the rank of the tiling, plus two
      (up and down) in product geometries. */
  function Degree(s7: int, prod: bool): int {
    if prod then s7 + 2 else s7
  }

  /** `u`: the texel of direction `i` of cell `id`.  Cell ids are
      nonnegative, where the Euclidean `/` and `%` used here agree with C's
      truncating ones; for a negative `id` this is not the source's value. */
  function Slot(deg: int, id: int, i: int): int
    requires 1 <= deg <= Length
  {
    id / PerRow(deg) * Length + id % PerRow(deg) * deg + i
  }

  /** The cell a texel belongs to, read back from its position. */
  function SlotCell(deg: int, u: int): int
    requires 1 <= deg <= Length
  {
    u / Length * PerRow(deg) + u % Length / deg
  }

  /** The direction a texel stands for, read back from its position. */
  function SlotDir(deg: int, u: int): int
    requires 1 <= deg <= Length
  {
    u % Length % deg
  }

  /** A texel that some direction of some cell uses: the tail of a row past
      the last full cell stays unused. */
  predicate UsedTexel(deg: int, u: int)
    requires 1 <= deg <= Length
  {
    u % Length < PerRow(deg) * deg
  }

  /** The cells of a row fill at most the row. */
  lemma RowFits(deg: int)
    requires 1 <= deg <= Length
    ensures 1 <= PerRow(deg) && PerRow(deg) * deg <= Length
  {
    assert Length == PerRow(deg) * deg + Length % deg;
  }

  /** The position of direction `i` of cell `id` inside its row. */
  lemma InRow(deg: int, id: int, i: int)
    requires 1 <= deg <= Length && 0 <= i < deg
    ensures 0 <= id % PerRow(deg) * deg + i < PerRow(deg) * deg
  {
    RowFits(deg);
    var r := id % PerRow(deg);
    MulMono(0, r, deg);
    MulMono(r + 1, PerRow(deg), deg);
  }

  /** Reading a texel's position back gives the cell and the direction it
      was computed from. */
  lemma SlotDecode(deg: int, id: int, i: int)
    requires 1 <= deg <= Length && 0 <= i < deg
    ensures UsedTexel(deg, Slot(deg, id, i))
    ensures SlotCell(deg, Slot(deg, id, i)) == id
    ensures SlotDir(deg, Slot(deg, id, i)) == i
  {
    RowFits(deg);
    InRow(deg, id, i);
    var u := Slot(deg, id, i);
    var q, r := id / PerRow(deg), id % PerRow(deg);
    DivModUnique(u, Length, q, r * deg + i);
    DivModUnique(r * deg + i, deg, r, i);
  }

  /** Conversely, every used texel is the slot of the cell and direction read
      back from it. */
  lemma SlotEncode(deg: int, u: int)
    requires 1 <= deg <= Length && UsedTexel(deg, u)
    ensures 0 <= SlotDir(deg, u) < deg
    ensures Slot(deg, SlotCell(deg, u), SlotDir(deg, u)) == u
  {
    RowFits(deg);
    var q, w := u / Length, u % Length;
    var r, i := w / deg, w % deg;
    assert w == r * deg + i;
    if r >= PerRow(deg) {
      MulMono(PerRow(deg), r, deg);
      assert false;
    }
    var id := q * PerRow(deg) + r;
    DivModUnique(id, PerRow(deg), q, r);
  }

  /** Distinct (cell, direction) pairs get distinct texels. */
  lemma SlotInjective(deg: int, id1: int, i1: int, id2: int, i2: int)
    requires 1 <= deg <= Length && 0 <= i1 < deg && 0 <= i2 < deg
    requires (id1, i1) != (id2, i2)
    ensures Slot(deg, id1, i1) != Slot(deg, id2, i2)
  {
    SlotDecode(deg, id1, i1);
    SlotDecode(deg, id2, i2);
  }

  /** Every texel of a listed cell lies inside the `length * rows` texels
      allocated for each data texture. */
  lemma SlotInRange(deg: int, rows: int, id: int, i: int)
    requires 1 <= deg <= Length && 0 <= id < PerRow(deg) * rows && 0 <= i < deg
    ensures 0 <= Slot(deg, id, i) < Length * rows
  {
    RowFits(deg);
    InRow(deg, id, i);
    var q := id / PerRow(deg);
    assert id == q * PerRow(deg) + id % PerRow(deg);
    if q >= rows {
      MulMono(rows, q, PerRow(deg));
      assert false;
    }
    MulMono(0, q, Length);
    MulMono(q + 1, rows, Length);
  }

  /** `rows`: the number of rows holding `count` cells, rounded up by
      `next_p2` (a power of two not below its argument). */
  function Rows(count: int, deg: int, nextP2: int -> int): int
    requires 1 <= deg <= Length
  {
    nextP2((count + PerRow(deg) - 1) / PerRow(deg))
  }

  /** When `next_p2` does not round down, the rows hold every listed cell. */
  lemma RowsHoldAll(count: int, deg: int, nextP2: int -> int)
    requires 1 <= deg <= Length && count >= 0
    requires nextP2((count + PerRow(deg) - 1) / PerRow(deg)) >= (count + PerRow(deg) - 1) / PerRow(deg)
    ensures Rows(count, deg, nextP2) * PerRow(deg) >= count
  {
    RowFits(deg);
    var p := PerRow(deg);
    var n := (count + p - 1) / p;
    assert count + p - 1 == n * p + (count + p - 1) % p;
    MulMono(n, Rows(count, deg, nextP2), p);
  }

  /** `enc(id, a)`, over the reals: the texture coordinates of the centre of
      direction `a`'s texel of cell `id`. */
  function Enc(deg: int, rows: int, id: int, a: int): (real, real)
    requires 1 <= deg <= Length && rows >= 1
  {
    var col := id % PerRow(deg) * deg + a;
    var row := id / PerRow(deg);
    ((col as real + 0.5) / Length as real, (row as real + 0.5) / rows as real)
  }

  /** The shader's lookup of a coordinate pair: the column and the row of
      the texel it falls in. */
  function Texel(rows: int, c: (real, real)): (int, int) {
    ((c.0 * Length as real).Floor, (c.1 * rows as real).Floor)
  }

  /** Scaling a texel centre back up lands in that texel. */
  lemma CentreFloor(n: int, d: int)
    requires d >= 1
    ensures ((n as real + 0.5) / d as real * d as real).Floor == n
  {
    assert (n as real + 0.5) / d as real * d as real == n as real + 0.5;
  }

  /** A texel centre lies strictly between 0 and 1 when the texel does. */
  lemma CentreInside(n: int, d: int)
    requires 0 <= n < d
    ensures 0.0 < (n as real + 0.5) / d as real < 1.0
  {
    var c, r := n as real + 0.5, d as real;
    var q := c / r;
    assert q * r == c;
    PositiveFactor(q, r);
    assert (1.0 - q) * r == r - c;
    PositiveFactor(1.0 - q, r);
  }

  /** A product with a positive factor is positive only if the other factor is. */
  lemma PositiveFactor(a: real, r: real)
    requires r > 0.0 && a * r > 0.0
    ensures a > 0.0
  {
  }

  /** The column and row `enc` is computed from fit the allocated rows. */
  lemma EncTexel(deg: int, rows: int, id: int, a: int)
    requires 1 <= deg <= Length && rows >= 1 && 0 <= id < PerRow(deg) * rows && 0 <= a < deg
    ensures 0 <= id % PerRow(deg) * deg + a < Length
    ensures 0 <= id / PerRow(deg) < rows
  {
    RowFits(deg);
    InRow(deg, id, a);
    DivBelow(id, PerRow(deg), rows);
  }

  /** `enc` names exactly the texel `u` addresses: column `u % length` of
      row `u / length`. */
  lemma EncAddressesSlot(deg: int, rows: int, id: int, a: int)
    requires 1 <= deg <= Length && rows >= 1 && 0 <= id < PerRow(deg) * rows && 0 <= a < deg
    ensures Texel(rows, Enc(deg, rows, id, a)) == (Slot(deg, id, a) % Length, Slot(deg, id, a) / Length)
  {
    var col, row := id % PerRow(deg) * deg + a, id / PerRow(deg);
    EncTexel(deg, rows, id, a);
    CentreFloor(col, Length);
    CentreFloor(row, rows);
    var c := Enc(deg, rows, id, a);
    assert c.0 == (col as real + 0.5) / Length as real;
    assert c.1 == (row as real + 0.5) / rows as real;
    assert Texel(rows, c).0 == col;
    assert Texel(rows, c).1 == row;
    assert Slot(deg, id, a) == row * Length + col;
    DivModUnique(Slot(deg, id, a), Length, row, col);
  }

  /** `enc` of a listed cell lies strictly inside the unit square. */
  lemma EncInUnitSquare(deg: int, rows: int, id: int, a: int)
    requires 1 <= deg <= Length && rows >= 1 && 0 <= id < PerRow(deg) * rows && 0 <= a < deg
    ensures 0.0 < Enc(deg, rows, id, a).0 < 1.0 && 0.0 < Enc(deg, rows, id, a).1 < 1.0
  {
    EncTexel(deg, rows, id, a);
    CentreInside(id % PerRow(deg) * deg + a, Length);
    CentreInside(id / PerRow(deg), rows);
  }
}
