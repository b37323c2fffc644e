/** The inverse-geodesic table (`tabled_inverses`): three dimensions and a
    flat vector of samples, its allocation, and its binary layout.

    The flattening of (x, y, z) is row-major with Z varying fastest:
    `(x * PRECY + y) * PRECZ + z`. */
module Table {
  import opened Floats
  import opened Arith

  /** The flat position of grid point (x, y, z). */
  function Index(precY: int, precZ: int, x: int, y: int, z: int): int {
    (x * precY + y) * precZ + z
  }

  predicate InGrid(precX: int, precY: int, precZ: int, x: int, y: int, z: int) {
    0 <= x < precX && 0 <= y < precY && 0 <= z < precZ
  }

  /** The grid point at flat position `i`: the inverse of `Index`. */
  function Coords(precY: int, precZ: int, i: int): (int, int, int)
    requires precY > 0 && precZ > 0
  {
    (i / precZ / precY, i / precZ % precY, i % precZ)
  }

  /** `Coords` recovers the grid point from its flat position, so distinct
      grid points have distinct positions. */
  lemma CoordsOfIndex(precY: int, precZ: int, x: int, y: int, z: int)
    requires 0 <= y < precY && 0 <= z < precZ
    ensures Coords(precY, precZ, Index(precY, precZ, x, y, z)) == (x, y, z)
  {
    var i := Index(precY, precZ, x, y, z);
    DivModUnique(i, precZ, x * precY + y, z);
    DivModUnique(x * precY + y, precY, x, y);
  }

  /** Every grid point has a position inside the table. */
  lemma IndexInRange(precX: int, precY: int, precZ: int, x: int, y: int, z: int)
    requires InGrid(precX, precY, precZ, x, y, z)
    ensures 0 <= Index(precY, precZ, x, y, z) < precX * precY * precZ
  {
    MulMono(0, x, precY);
    MulMono(x + 1, precX, precY);
    assert x * precY + y < precX * precY;
    MulMono(0, x * precY + y, precZ);
    MulMono(x * precY + y + 1, precX * precY, precZ);
  }

  /** Every position inside the table is the position of exactly one grid
      point. */
  lemma IndexOfCoords(precX: int, precY: int, precZ: int, i: int)
    requires precY > 0 && precZ > 0 && 0 <= i < precX * precY * precZ
    ensures var (x, y, z) := Coords(precY, precZ, i);
      InGrid(precX, precY, precZ, x, y, z) && Index(precY, precZ, x, y, z) == i
  {
    var q := i / precZ;
    DivBelow(i, precZ, precX * precY);
    DivBelow(q, precY, precX);
    var x, y, z := q / precY, q % precY, i % precZ;
    assert Coords(precY, precZ, i) == (x, y, z);
    assert Index(precY, precZ, x, y, z) == (x * precY + y) * precZ + z;
  }

  /** The sample at grid point (x, y, z) of a flat table; outside the vector
      it reads as zero (never used: every caller stays inside the grid). */
  function At(tab: seq<PtLow>, precY: int, precZ: int, x: int, y: int, z: int): PtLow {
    var i := Index(precY, precZ, x, y, z);
    if 0 <= i < |tab| then tab[i] else Zero
  }

  /** Two tables of the same grid that agree at every grid point are equal. */
  lemma GridExtensionality(a: seq<PtLow>, b: seq<PtLow>, precX: int, precY: int, precZ: int)
    requires precY > 0 && precZ > 0
    requires |a| == |b| == precX * precY * precZ
    requires forall x, y, z :: InGrid(precX, precY, precZ, x, y, z) ==>
               At(a, precY, precZ, x, y, z) == At(b, precY, precZ, x, y, z)
    ensures a == b
  {
    forall i | 0 <= i < |a|
      ensures a[i] == b[i]
    {
      IndexOfCoords(precX, precY, precZ, i);
      var (x, y, z) := Coords(precY, precZ, i);
      assert At(a, precY, precZ, x, y, z) == At(b, precY, precZ, x, y, z);
    }
  }

  /** `vector::resize`: keep the first `n` entries, pad with zero samples. */
  function Resize(s: seq<PtLow>, n: nat): (r: seq<PtLow>)
    ensures |r| == n
    ensures forall i :: 0 <= i < n && i < |s| ==> r[i] == s[i]
    ensures forall i :: |s| <= i < n ==> r[i] == Zero
  {
    if n <= |s| then s[..n] else s + seq(n - |s|, _ => Zero)
  }

  /** The table object.  The builder fills it in place through `Set`. */
  class TabledInverses {
    var precX: int
    var precY: int
    var precZ: int
    var tab: seq<PtLow>

    /** An empty table. */
    constructor ()
      ensures precX == 0 && precY == 0 && precZ == 0 && tab == []
    {
      precX, precY, precZ := 0, 0, 0;
      tab := [];
    }

    /** The vector holds exactly one sample per grid point. */
    predicate Valid()
      reads this
    {
      precX >= 0 && precY >= 0 && precZ >= 0 && |tab| == precX * precY * precZ
    }

    /** `get_int(x, y, z)` read as a value. */
    function Get(x: int, y: int, z: int): PtLow
      reads this
      requires Valid() && InGrid(precX, precY, precZ, x, y, z)
    {
      At(tab, precY, precZ, x, y, z)
    }

    /** `get_int(x, y, z) = p`: one entry changes, nothing else does. */
    method Set(x: int, y: int, z: int, p: PtLow)
      requires Valid() && InGrid(precX, precY, precZ, x, y, z)
      modifies this
      ensures Valid() && precX == old(precX) && precY == old(precY) && precZ == old(precZ)
      ensures Get(x, y, z) == p
      ensures forall x', y', z' :: InGrid(precX, precY, precZ, x', y', z') && (x', y', z') != (x, y, z) ==>
                At(tab, precY, precZ, x', y', z') == At(old(tab), precY, precZ, x', y', z')
    {
      IndexInRange(precX, precY, precZ, x, y, z);
      tab := tab[Index(precY, precZ, x, y, z) := p];
      forall x', y', z' | InGrid(precX, precY, precZ, x', y', z') && (x', y', z') != (x, y, z)
        ensures Index(precY, precZ, x', y', z') != Index(precY, precZ, x, y, z)
      {
        CoordsOfIndex(precY, precZ, x', y', z');
        CoordsOfIndex(precY, precZ, x, y, z);
      }
    }

    /** `alloc_table(tab, X, Y, Z)`: set the dimensions and resize the vector
        to X * Y * Z samples.  Entries that existed before keep their values;
        new ones are zero. */
    method Alloc(x: int, y: int, z: int)
      requires x >= 0 && y >= 0 && z >= 0
      modifies this
      ensures Valid() && precX == x && precY == y && precZ == z
      ensures tab == Resize(old(tab), x * y * z)
    {
      precX, precY, precZ := x, y, z;
      MulMono(0, x, y);
      MulMono(0, x * y, z);
      tab := Resize(tab, x * y * z);
    }
  }

  /** A word of the table file: `fint` writes an int, `ffloat` and the block
      write of the samples write floats. */
  datatype Word = IntWord(i: int) | FloatWord(f: F32)

  /** The words of the samples, three per sample, in table order. */
  function Records(tab: seq<PtLow>): (w: seq<Word>)
    ensures |w| == 3 * |tab|
  {
    if tab == [] then []
    else [FloatWord(tab[0].x), FloatWord(tab[0].y), FloatWord(tab[0].z)] + Records(tab[1..])
  }

  /** The table file: the three dimensions, then the samples. */
  function Encode(precX: int, precY: int, precZ: int, tab: seq<PtLow>): seq<Word> {
    [IntWord(precX), IntWord(precY), IntWord(precZ)] + Records(tab)
  }

  /** `write_table`: the file written for a table. */
  method WriteTable(t: TabledInverses) returns (file: seq<Word>)
    requires t.Valid()
    ensures file == Encode(t.precX, t.precY, t.precZ, t.tab)
    ensures |file| == 3 + 3 * t.precX * t.precY * t.precZ
  {
    file := [];
    file := file + [IntWord(t.precX)];
    file := file + [IntWord(t.precY)];
    file := file + [IntWord(t.precZ)];
    file := file + Records(t.tab);
  }

  datatype Option<T> = None | Some(value: T)

  /** Reads samples back from their words. */
  function DecodeRecords(w: seq<Word>): Option<seq<PtLow>> {
    if w == [] then Some([])
    else if |w| < 3 || !w[0].FloatWord? || !w[1].FloatWord? || !w[2].FloatWord? then None
    else
      match DecodeRecords(w[3..])
      case None => None
      case Some(rest) => Some([PtLow(w[0].f, w[1].f, w[2].f)] + rest)
  }

  /** The reader the layout calls for: three nonnegative dimensions, then
      exactly X * Y * Z samples. */
  function Decode(file: seq<Word>): Option<(int, int, int, seq<PtLow>)> {
    if |file| < 3 || !file[0].IntWord? || !file[1].IntWord? || !file[2].IntWord? then None
    else
      var x, y, z := file[0].i, file[1].i, file[2].i;
      if x < 0 || y < 0 || z < 0 || |file| - 3 != 3 * (x * y * z) then None
      else
        match DecodeRecords(file[3..])
        case None => None
        case Some(tab) => Some((x, y, z, tab))
  }

  lemma {:induction false} RecordsRoundTrip(tab: seq<PtLow>)
    ensures DecodeRecords(Records(tab)) == Some(tab)
  {
    if tab != [] {
      RecordsRoundTrip(tab[1..]);
      assert Records(tab)[3..] == Records(tab[1..]);
      assert [tab[0]] + tab[1..] == tab;
    }
  }

  lemma {:induction false} DecodeRecordsExact(w: seq<Word>, tab: seq<PtLow>)
    requires DecodeRecords(w) == Some(tab)
    ensures Records(tab) == w
  {
    if w != [] {
      var rest := DecodeRecords(w[3..]).value;
      DecodeRecordsExact(w[3..], rest);
      assert tab == [PtLow(w[0].f, w[1].f, w[2].f)] + rest;
      assert tab[1..] == rest;
      assert w == w[..3] + w[3..];
    }
  }

  /** Reading back a written table recovers the dimensions and every sample. */
  lemma EncodeDecode(t: TabledInverses)
    requires t.Valid()
    ensures Decode(Encode(t.precX, t.precY, t.precZ, t.tab)) == Some((t.precX, t.precY, t.precZ, t.tab))
  {
    var file := Encode(t.precX, t.precY, t.precZ, t.tab);
    assert file[3..] == Records(t.tab);
    RecordsRoundTrip(t.tab);
  }

  /** Conversely, a file the reader accepts is exactly the file written for
      what it read, and the samples it read fill an X * Y * Z table. */
  lemma DecodeEncode(file: seq<Word>)
    requires Decode(file).Some?
    ensures var (x, y, z, tab) := Decode(file).value;
      x >= 0 && y >= 0 && z >= 0 && |tab| == x * y * z && Encode(x, y, z, tab) == file
  {
    var (x, y, z, tab) := Decode(file).value;
    DecodeRecordsExact(file[3..], tab);
    assert file == file[..3] + file[3..];
  }
}
