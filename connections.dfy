/** The data textures `cast` uploads for the raycaster: for every direction
    of every listed cell, one texel in each of `connections` (where the ray
    goes next, and which transition matrix it applies), `wallcolor` and
    `texturemap`.  Transition matrices are kept once each in `ms`, found by
    `eqmatrix` or appended.

    The cell graph, the colours and the matrices are computed by code that
    is not part of this model: a listed cell is given by its directions, each
    a `Link` carrying what that code produced. */
module Connections {
  import opened TextureLayout

  /** One texel: an `array<float, 4>`. */
  datatype Texel4 = Texel4(x: real, y: real, z: real, w: real)

  /** The value the texture vectors are created with. */
  const Blank: Texel4 := Texel4(0.0, 0.0, 0.0, 0.0)

  /** `acolor(color_out_of_range | 0xFF)`: RGBA bytes 0x0F, 0x08, 0x00, 0xFF
      scaled to [0, 1]. */
  const OutOfRangeColor: Texel4 := Texel4(15.0 / 255.0, 8.0 / 255.0, 0.0, 1.0)

  /** `makevertex(0.1, 0, 0)`. */
  const OutOfRangeTexture: Texel4 := Texel4(0.1, 0.0, 0.0, 1.0)

  /** Direction `i` of a listed cell: a neighbour outside the list, or the
      neighbour's position in the list with the wall colour, the texture
      entry (none when the source leaves it untouched) and the transition
      matrix computed for it. */
  datatype Link<M> = OutOfRange | Link(target: int, wall: Texel4, tex: Option<Texel4>, t: M)

  datatype Option<T> = None | Some(value: T)

  /** The listed cells, each with its directions. */
  type Scene<M> = seq<seq<Link<M>>>

  /** Every cell has at most `deg` directions, every in-list neighbour is a
      listed cell, and the texture rows hold every cell. */
  predicate WellFormed<M>(scene: Scene<M>, deg: int, rows: int) {
    && 1 <= deg <= Length && rows >= 1
    && |scene| <= PerRow(deg) * rows
    && forall id :: 0 <= id < |scene| ==> |scene[id]| <= deg && forall i :: 0 <= i < |scene[id]| ==>
         (scene[id][i].Link? ==> 0 <= scene[id][i].target < |scene|)
  }

  /** `(k + .5) / 1024.`: matrix index k as stored in a connection. */
  function Code(k: int): real {
    (k as real + 0.5) / 1024.0
  }

  /** The shader's `int(z * 1024.)` for a nonnegative `z`. */
  function Decode(z: real): int {
    (z * 1024.0).Floor
  }

  /** The shader reads back the matrix index the connection stores; the
      indices are nonnegative, where `int()` and the floor agree. */
  lemma CodeDecodes(k: int)
    requires k >= 0
    ensures Decode(Code(k)) == k
  {
    assert Code(k) * 1024.0 == k as real + 0.5;
  }

  /** `k` is where the dedup loop leaves matrix `t` in `ms`: the first entry
      `eqmatrix` accepts, or `t` itself appended after all entries it
      rejects. */
  ghost predicate FirstMatch<M>(ms: seq<M>, t: M, eq: (M, M) -> bool, k: int) {
    && 0 <= k < |ms|
    && (forall j :: 0 <= j < k ==> !eq(ms[j], t))
    && (eq(ms[k], t) || ms[k] == t)
  }

  /** A match stays the first match when entries are appended. */
  lemma FirstMatchStable<M>(ms: seq<M>, ms': seq<M>, t: M, eq: (M, M) -> bool, k: int)
    requires |ms| <= |ms'| && ms'[..|ms|] == ms
    requires FirstMatch(ms, t, eq, k)
    ensures FirstMatch(ms', t, eq, k)
  {
    assert forall j :: 0 <= j <= k ==> ms'[j] == ms[j];
  }

  /** The dedup loop `for(k = 0; k <= isize(ms); k++)`: skip the entries
      `eqmatrix` rejects; at the first one it accepts, or past the end after
      appending `t`, stop with that index. */
  method FindOrAppend<M>(ms: seq<M>, t: M, eq: (M, M) -> bool) returns (k: int, ms': seq<M>)
    ensures 0 <= k <= |ms|
    ensures k < |ms| ==> eq(ms[k], t) && ms' == ms
    ensures k == |ms| ==> ms' == ms + [t]
    ensures forall j :: 0 <= j < k ==> !eq(ms[j], t)
    ensures FirstMatch(ms', t, eq, k)
  {
    k := 0;
    while k < |ms| && !eq(ms[k], t)
      invariant 0 <= k <= |ms|
      invariant forall j :: 0 <= j < k ==> !eq(ms[j], t)
    {
      k := k + 1;
    }
    if k == |ms| {
      ms' := ms + [t];
    } else {
      ms' := ms;
    }
  }

  /** The connection texel of a link to `target` whose matrix is `ms[k]`:
      the neighbour's first texel and the matrix index. */
  function Connection(deg: int, rows: int, target: int, k: int): Texel4
    requires 1 <= deg <= Length && rows >= 1
  {
    var e := Enc(deg, rows, target, 0);
    Texel4(e.0, e.1, Code(k), 0.0)
  }

  /** The three texels of direction `i` of cell `id` once it is filled. */
  ghost predicate Entry<M>(scene: Scene<M>, deg: int, rows: int, ms: seq<M>, eq: (M, M) -> bool,
                           codes: map<(int, int), int>, id: int, i: int, c: Texel4, w: Texel4, x: Texel4)
    requires 1 <= deg <= Length && rows >= 1
    requires 0 <= id < |scene| && 0 <= i < |scene[id]|
  {
    match scene[id][i]
    case OutOfRange => w == OutOfRangeColor && x == OutOfRangeTexture && c == Blank
    case Link(target, wall, tex, t) =>
      && (id, i) in codes && FirstMatch(ms, t, eq, codes[(id, i)])
      && c == Connection(deg, rows, target, codes[(id, i)])
      && w == wall
      && x == (if tex.Some? then tex.value else Blank)
  }

  /** Direction `i` of cell `id` comes before position (cid, ci) of the
      fill loop. */
  predicate Before(id: int, i: int, cid: int, ci: int) {
    (0 <= id < cid && 0 <= i) || (id == cid && 0 <= i < ci)
  }

  /** Texel `u` belongs to a direction filled before (cid, ci). */
  predicate WrittenBefore<M>(scene: Scene<M>, deg: int, u: int, cid: int, ci: int)
    requires 1 <= deg <= Length && 0 <= cid <= |scene|
  {
    && UsedTexel(deg, u)
    && Before(SlotCell(deg, u), SlotDir(deg, u), cid, ci)
    && SlotCell(deg, u) < |scene|
    && SlotDir(deg, u) < |scene[SlotCell(deg, u)]|
  }

  /** Every direction before position (cid, ci) of the fill loop is filled. */
  ghost predicate Filled<M>(scene: Scene<M>, deg: int, rows: int, ms: seq<M>, eq: (M, M) -> bool,
                            codes: map<(int, int), int>, conn: seq<Texel4>, wall: seq<Texel4>, tex: seq<Texel4>,
                            cid: int, ci: int)
    requires WellFormed(scene, deg, rows) && 0 <= cid
    requires |conn| == |wall| == |tex| == Length * rows
  {
    forall id, i :: Before(id, i, cid, ci) && id < |scene| && i < |scene[id]| ==>
      0 <= Slot(deg, id, i) < Length * rows &&
      Entry(scene, deg, rows, ms, eq, codes, id, i,
            conn[Slot(deg, id, i)], wall[Slot(deg, id, i)], tex[Slot(deg, id, i)])
  }

  /** Every texel not filled before position (cid, ci) is still blank. */
  ghost predicate Untouched<M>(scene: Scene<M>, deg: int, rows: int,
                               conn: seq<Texel4>, wall: seq<Texel4>, tex: seq<Texel4>, cid: int, ci: int)
    requires WellFormed(scene, deg, rows) && 0 <= cid <= |scene|
    requires |conn| == |wall| == |tex| == Length * rows
  {
    forall u :: 0 <= u < Length * rows && !WrittenBefore(scene, deg, u, cid, ci) ==>
      conn[u] == Blank && wall[u] == Blank && tex[u] == Blank
  }

  /** The state of the textures at position (cid, ci) of the fill loop: every
      direction before it is filled, every other texel is still blank. */
  ghost predicate Done<M>(scene: Scene<M>, deg: int, rows: int, ms: seq<M>, eq: (M, M) -> bool,
                          codes: map<(int, int), int>, conn: seq<Texel4>, wall: seq<Texel4>, tex: seq<Texel4>,
                          cid: int, ci: int)
    requires WellFormed(scene, deg, rows) && 0 <= cid <= |scene|
  {
    && |conn| == |wall| == |tex| == Length * rows
    && Filled(scene, deg, rows, ms, eq, codes, conn, wall, tex, cid, ci)
    && Untouched(scene, deg, rows, conn, wall, tex, cid, ci)
  }

  /** The texel of a direction is inside the textures. */
  lemma SlotOfListed<M>(scene: Scene<M>, deg: int, rows: int, id: int, i: int)
    requires WellFormed(scene, deg, rows) && 0 <= id < |scene| && 0 <= i < |scene[id]|
    ensures 0 <= Slot(deg, id, i) < Length * rows
    ensures UsedTexel(deg, Slot(deg, id, i))
    ensures SlotCell(deg, Slot(deg, id, i)) == id && SlotDir(deg, Slot(deg, id, i)) == i
  {
    SlotInRange(deg, rows, id, i);
    SlotDecode(deg, id, i);
  }

  /** Filling direction `i` of cell `id` keeps the earlier directions
      filled and adds this one. */
  lemma FillStepFilled<M>(scene: Scene<M>, deg: int, rows: int, eq: (M, M) -> bool,
                          ms: seq<M>, codes: map<(int, int), int>, conn: seq<Texel4>, wall: seq<Texel4>, tex: seq<Texel4>,
                          ms': seq<M>, codes': map<(int, int), int>, c: Texel4, w: Texel4, x: Texel4, id: int, i: int)
    requires WellFormed(scene, deg, rows) && 0 <= id < |scene| && 0 <= i < |scene[id]|
    requires |conn| == |wall| == |tex| == Length * rows
    requires Filled(scene, deg, rows, ms, eq, codes, conn, wall, tex, id, i)
    requires |ms| <= |ms'| && ms'[..|ms|] == ms
    requires forall p :: p in codes && p != (id, i) ==> p in codes' && codes'[p] == codes[p]
    requires 0 <= Slot(deg, id, i) < Length * rows
    requires Entry(scene, deg, rows, ms', eq, codes', id, i, c, w, x)
    ensures Filled(scene, deg, rows, ms', eq, codes',
                   conn[Slot(deg, id, i) := c], wall[Slot(deg, id, i) := w], tex[Slot(deg, id, i) := x], id, i + 1)
  {
    var u := Slot(deg, id, i);
    var conn', wall', tex' := conn[u := c], wall[u := w], tex[u := x];
    forall id', i' | Before(id', i', id, i + 1) && id' < |scene| && i' < |scene[id']|
      ensures 0 <= Slot(deg, id', i') < Length * rows
      ensures Entry(scene, deg, rows, ms', eq, codes', id', i',
                    conn'[Slot(deg, id', i')], wall'[Slot(deg, id', i')], tex'[Slot(deg, id', i')])
    {
      SlotInRange(deg, rows, id', i');
      var v := Slot(deg, id', i');
      if (id', i') == (id, i) {
        assert conn'[v] == c && wall'[v] == w && tex'[v] == x;
      } else {
        assert Before(id', i', id, i);
        SlotInjective(deg, id', i', id, i);
        assert conn'[v] == conn[v] && wall'[v] == wall[v] && tex'[v] == tex[v];
        EntryKept(scene, deg, rows, eq, ms, codes, ms', codes', id', i', conn[v], wall[v], tex[v]);
      }
    }
  }

  /** A filled direction stays filled when `ms` grows and other directions
      get their matrix indices. */
  lemma EntryKept<M>(scene: Scene<M>, deg: int, rows: int, eq: (M, M) -> bool,
                     ms: seq<M>, codes: map<(int, int), int>, ms': seq<M>, codes': map<(int, int), int>,
                     id: int, i: int, c: Texel4, w: Texel4, x: Texel4)
    requires 1 <= deg <= Length && rows >= 1 && 0 <= id < |scene| && 0 <= i < |scene[id]|
    requires |ms| <= |ms'| && ms'[..|ms|] == ms
    requires (id, i) in codes ==> (id, i) in codes' && codes'[(id, i)] == codes[(id, i)]
    requires Entry(scene, deg, rows, ms, eq, codes, id, i, c, w, x)
    ensures Entry(scene, deg, rows, ms', eq, codes', id, i, c, w, x)
  {
    if scene[id][i].Link? {
      FirstMatchStable(ms, ms', scene[id][i].t, eq, codes[(id, i)]);
    }
  }

  /** Filling direction `i` of cell `id` writes only its own texel. */
  lemma FillStepUntouched<M>(scene: Scene<M>, deg: int, rows: int,
                             conn: seq<Texel4>, wall: seq<Texel4>, tex: seq<Texel4>,
                             c: Texel4, w: Texel4, x: Texel4, id: int, i: int)
    requires WellFormed(scene, deg, rows) && 0 <= id < |scene| && 0 <= i < |scene[id]|
    requires |conn| == |wall| == |tex| == Length * rows
    requires Untouched(scene, deg, rows, conn, wall, tex, id, i)
    requires 0 <= Slot(deg, id, i) < Length * rows
    ensures Untouched(scene, deg, rows,
                      conn[Slot(deg, id, i) := c], wall[Slot(deg, id, i) := w], tex[Slot(deg, id, i) := x], id, i + 1)
  {
    SlotDecode(deg, id, i);
    var u := Slot(deg, id, i);
    forall u' | 0 <= u' < Length * rows && !WrittenBefore(scene, deg, u', id, i + 1)
      ensures u' != u && !WrittenBefore(scene, deg, u', id, i)
    {
    }
  }

  /** Position (id, |directions of id|) of the fill loop is position
      (id + 1, 0). */
  lemma NextCell<M>(scene: Scene<M>, deg: int, rows: int, eq: (M, M) -> bool,
                    ms: seq<M>, codes: map<(int, int), int>, conn: seq<Texel4>, wall: seq<Texel4>, tex: seq<Texel4>, id: int)
    requires WellFormed(scene, deg, rows) && 0 <= id < |scene|
    requires Done(scene, deg, rows, ms, eq, codes, conn, wall, tex, id, |scene[id]|)
    ensures Done(scene, deg, rows, ms, eq, codes, conn, wall, tex, id + 1, 0)
  {
    forall id', i' | Before(id', i', id + 1, 0) && id' < |scene| && i' < |scene[id']|
      ensures Before(id', i', id, |scene[id]|)
    {
    }
    forall u | 0 <= u < Length * rows && !WrittenBefore(scene, deg, u, id, |scene[id]|)
      ensures !WrittenBefore(scene, deg, u, id + 1, 0)
    {
    }
  }

  /** The body of the loop over the listed cells, for cell `id`: one texel
      of each texture per direction, and the dedup of its matrices. */
  method FillCell<M>(scene: Scene<M>, deg: int, rows: int, eq: (M, M) -> bool,
                     conn: array<Texel4>, wall: array<Texel4>, tex: array<Texel4>,
                     ms: seq<M>, ghost codes: map<(int, int), int>, id: int)
    returns (ms': seq<M>, ghost codes': map<(int, int), int>)
    requires WellFormed(scene, deg, rows) && 0 <= id < |scene|
    requires conn != wall && conn != tex && wall != tex
    requires Done(scene, deg, rows, ms, eq, codes, conn[..], wall[..], tex[..], id, 0)
    modifies conn, wall, tex
    ensures Done(scene, deg, rows, ms', eq, codes', conn[..], wall[..], tex[..], id + 1, 0)
    ensures |ms| <= |ms'| <= |ms| + |scene[id]| && ms'[..|ms|] == ms
  {
    ms', codes' := ms, codes;
    var i := 0;
    while i < |scene[id]|
      invariant 0 <= i <= |scene[id]|
      invariant Done(scene, deg, rows, ms', eq, codes', conn[..], wall[..], tex[..], id, i)
      invariant |ms| <= |ms'| <= |ms| + i && ms'[..|ms|] == ms
    {
      SlotOfListed(scene, deg, rows, id, i);
      var u := Slot(deg, id, i);
      ghost var c0, w0, x0, ms0, codes0 := conn[..], wall[..], tex[..], ms', codes';
      match scene[id][i] {
        case OutOfRange =>
          wall[u] := OutOfRangeColor;
          tex[u] := OutOfRangeTexture;
          assert c0[u] == Blank;
        case Link(target, wc, tx, t) =>
          wall[u] := wc;
          if tx.Some? {
            tex[u] := tx.value;
          } else {
            assert x0[u] == Blank;
          }
          var k;
          k, ms' := FindOrAppend(ms', t, eq);
          codes' := codes'[(id, i) := k];
          conn[u] := Connection(deg, rows, target, k);
      }
      assert conn[..] == c0[u := conn[u]] && wall[..] == w0[u := wall[u]] && tex[..] == x0[u := tex[u]];
      FillStepFilled(scene, deg, rows, eq, ms0, codes0, c0, w0, x0, ms', codes', conn[u], wall[u], tex[u], id, i);
      FillStepUntouched(scene, deg, rows, c0, w0, x0, conn[u], wall[u], tex[u], id, i);
      assert ms'[..|ms|] == ms0[..|ms|];
      i := i + 1;
    }
    NextCell(scene, deg, rows, eq, ms', codes', conn[..], wall[..], tex[..], id);
  }

  /** The texture part of `cast`: create the three vectors of
      `length * rows` blank texels, then fill the directions of every listed
      cell in list order.  Afterwards every direction's texels are as
      `Entry` says, every other texel is blank, and `ms` has kept its
      entries and grown by at most one matrix per direction. */
  method FillTextures<M>(scene: Scene<M>, deg: int, rows: int, eq: (M, M) -> bool, ms0: seq<M>)
    returns (conn: array<Texel4>, wall: array<Texel4>, tex: array<Texel4>, ms: seq<M>, ghost codes: map<(int, int), int>)
    requires WellFormed(scene, deg, rows)
    ensures fresh(conn) && fresh(wall) && fresh(tex)
    ensures Done(scene, deg, rows, ms, eq, codes, conn[..], wall[..], tex[..], |scene|, 0)
    ensures |ms0| <= |ms| && ms[..|ms0|] == ms0
  {
    conn := new Texel4[Length * rows](_ => Blank);
    wall := new Texel4[Length * rows](_ => Blank);
    tex := new Texel4[Length * rows](_ => Blank);
    ms, codes := ms0, map[];
    var id := 0;
    while id < |scene|
      invariant 0 <= id <= |scene|
      invariant fresh(conn) && fresh(wall) && fresh(tex)
      invariant Done(scene, deg, rows, ms, eq, codes, conn[..], wall[..], tex[..], id, 0)
      invariant |ms0| <= |ms| && ms[..|ms0|] == ms0
    {
      ghost var before := ms;
      ms, codes := FillCell(scene, deg, rows, eq, conn, wall, tex, ms, codes, id);
      assert ms[..|ms0|] == before[..|ms0|];
      id := id + 1;
    }
  }

  /** What the shader reads from the connection texel of a filled link: the
      texel of the neighbour's first direction, and an index of `ms` where
      that direction's matrix is (or an entry `eqmatrix` equates with it). */
  lemma ConnectionLeadsToNeighbour<M>(scene: Scene<M>, deg: int, rows: int, ms: seq<M>, eq: (M, M) -> bool,
                                      codes: map<(int, int), int>, id: int, i: int, c: Texel4, w: Texel4, x: Texel4)
    requires WellFormed(scene, deg, rows) && 0 <= id < |scene| && 0 <= i < |scene[id]|
    requires scene[id][i].Link?
    requires Entry(scene, deg, rows, ms, eq, codes, id, i, c, w, x)
    ensures var n := scene[id][i].target;
      Texel(rows, (c.x, c.y)) == (Slot(deg, n, 0) % Length, Slot(deg, n, 0) / Length)
    ensures 0 <= Decode(c.z) < |ms| && (eq(ms[Decode(c.z)], scene[id][i].t) || ms[Decode(c.z)] == scene[id][i].t)
  {
    var n := scene[id][i].target;
    RowFits(deg);
    EncAddressesSlot(deg, rows, n, 0);
    CodeDecodes(codes[(id, i)]);
  }
}
