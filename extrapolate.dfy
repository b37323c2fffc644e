/** The boundary extrapolation at the end of `build_sols`.  The solver fills
    the cells with x < last_x, y < last_y and z in the solved slices; three
    passes then fill the rest of the table in place, each written sample
    being `prev * 2 - prevprev` along one axis:

    - the Z pass writes z = last_z (and z = 0 in the Nih family) for
      x < last_x, y < last_y;
    - the Y pass writes y = last_y for x < last_x and every z;
    - the X pass writes x = last_x for every y and z.

    Each pass is specified pointwise against the table as it was before the
    pass; `FinishedDependsOnlyOnSolved` shows that the finished table is a
    function of the solved cells alone. */
module Extrapolate {
  import opened Floats
  import opened Table

  /** The sample at (x, y, z) after the Z pass, given the table `tab` before
      it.  The Nih write at z = 0 reads z = 1 and z = 2 after the last_z
      write, as the source does. */
  function ZPassAt(tab: seq<PtLow>, precX: int, precY: int, precZ: int, nih: bool, x: int, y: int, z: int): PtLow
    decreases if z == 0 then 1 else 0
  {
    var lastX, lastY, lastZ := precX - 1, precY - 1, precZ - 1;
    if x < lastX && y < lastY && z == lastZ then
      Extrapolate(At(tab, precY, precZ, x, y, z - 1), At(tab, precY, precZ, x, y, z - 2))
    else if nih && x < lastX && y < lastY && z == 0 then
      Extrapolate(ZPassAt(tab, precX, precY, precZ, nih, x, y, 1), ZPassAt(tab, precX, precY, precZ, nih, x, y, 2))
    else
      At(tab, precY, precZ, x, y, z)
  }

  /** The sample at (x, y, z) after the Y pass. */
  function YPassAt(tab: seq<PtLow>, precX: int, precY: int, precZ: int, x: int, y: int, z: int): PtLow {
    if x < precX - 1 && y == precY - 1 then
      Extrapolate(At(tab, precY, precZ, x, y - 1, z), At(tab, precY, precZ, x, y - 2, z))
    else
      At(tab, precY, precZ, x, y, z)
  }

  /** The sample at (x, y, z) after the X pass. */
  function XPassAt(tab: seq<PtLow>, precX: int, precY: int, precZ: int, x: int, y: int, z: int): PtLow {
    if x == precX - 1 then
      Extrapolate(At(tab, precY, precZ, x - 1, y, z), At(tab, precY, precZ, x - 2, y, z))
    else
      At(tab, precY, precZ, x, y, z)
  }

  /** The whole table after each pass. */
  function ZPassed(tab: seq<PtLow>, precX: int, precY: int, precZ: int, nih: bool): (r: seq<PtLow>)
    ensures |r| == |tab|
  {
    if precY <= 0 || precZ <= 0 then tab
    else
      seq(|tab|, i requires 0 <= i < |tab| =>
        var c := Coords(precY, precZ, i); ZPassAt(tab, precX, precY, precZ, nih, c.0, c.1, c.2))
  }

  function YPassed(tab: seq<PtLow>, precX: int, precY: int, precZ: int): (r: seq<PtLow>)
    ensures |r| == |tab|
  {
    if precY <= 0 || precZ <= 0 then tab
    else
      seq(|tab|, i requires 0 <= i < |tab| =>
        var c := Coords(precY, precZ, i); YPassAt(tab, precX, precY, precZ, c.0, c.1, c.2))
  }

  function XPassed(tab: seq<PtLow>, precX: int, precY: int, precZ: int): (r: seq<PtLow>)
    ensures |r| == |tab|
  {
    if precY <= 0 || precZ <= 0 then tab
    else
      seq(|tab|, i requires 0 <= i < |tab| =>
        var c := Coords(precY, precZ, i); XPassAt(tab, precX, precY, precZ, c.0, c.1, c.2))
  }

  /** Reading a grid point of a passed table gives the pointwise value. */
  lemma PassedAt(tab: seq<PtLow>, precX: int, precY: int, precZ: int, nih: bool, x: int, y: int, z: int)
    requires |tab| == precX * precY * precZ && InGrid(precX, precY, precZ, x, y, z)
    ensures At(ZPassed(tab, precX, precY, precZ, nih), precY, precZ, x, y, z) == ZPassAt(tab, precX, precY, precZ, nih, x, y, z)
    ensures At(YPassed(tab, precX, precY, precZ), precY, precZ, x, y, z) == YPassAt(tab, precX, precY, precZ, x, y, z)
    ensures At(XPassed(tab, precX, precY, precZ), precY, precZ, x, y, z) == XPassAt(tab, precX, precY, precZ, x, y, z)
  {
    IndexInRange(precX, precY, precZ, x, y, z);
    CoordsOfIndex(precY, precZ, x, y, z);
  }

  /** The table after all three passes. */
  function Finished(tab: seq<PtLow>, precX: int, precY: int, precZ: int, nih: bool): (r: seq<PtLow>)
    ensures |r| == |tab|
  {
    XPassed(YPassed(ZPassed(tab, precX, precY, precZ, nih), precX, precY, precZ), precX, precY, precZ)
  }

  /** The cells the solver fills: x < last_x, y < last_y, and a slice that
      is not skipped. */
  predicate Solved(precX: int, precY: int, precZ: int, nih: bool, x: int, y: int, z: int) {
    0 <= x < precX - 1 && 0 <= y < precY - 1 && 0 <= z < precZ - 1 && !(nih && z == 0)
  }

  /** Tables that agree on the solved cells agree, after the Z pass, on every
      cell with x < last_x and y < last_y. */
  lemma ZPassReadsSolved(a: seq<PtLow>, b: seq<PtLow>, precX: int, precY: int, precZ: int, nih: bool)
    requires precZ >= 3 && (nih ==> precZ >= 4)
    requires forall x, y, z :: Solved(precX, precY, precZ, nih, x, y, z) ==>
               At(a, precY, precZ, x, y, z) == At(b, precY, precZ, x, y, z)
    ensures forall x, y, z :: 0 <= x < precX - 1 && 0 <= y < precY - 1 && 0 <= z < precZ ==>
              ZPassAt(a, precX, precY, precZ, nih, x, y, z) == ZPassAt(b, precX, precY, precZ, nih, x, y, z)
  {
    forall x, y, z | 0 <= x < precX - 1 && 0 <= y < precY - 1 && 0 <= z < precZ
      ensures ZPassAt(a, precX, precY, precZ, nih, x, y, z) == ZPassAt(b, precX, precY, precZ, nih, x, y, z)
    {
      if nih && z == 0 {
        assert Solved(precX, precY, precZ, nih, x, y, 1);
        assert Solved(precX, precY, precZ, nih, x, y, 2);
      } else if z == precZ - 1 {
        assert Solved(precX, precY, precZ, nih, x, y, z - 1);
        assert Solved(precX, precY, precZ, nih, x, y, z - 2);
      } else {
        assert Solved(precX, precY, precZ, nih, x, y, z);
      }
    }
  }

  /** Tables that agree on x < last_x, y < last_y agree, after the Y pass, on
      every cell with x < last_x. */
  lemma YPassReadsFilled(a: seq<PtLow>, b: seq<PtLow>, precX: int, precY: int, precZ: int)
    requires precY >= 3
    requires forall x, y, z :: 0 <= x < precX - 1 && 0 <= y < precY - 1 && 0 <= z < precZ ==>
               At(a, precY, precZ, x, y, z) == At(b, precY, precZ, x, y, z)
    ensures forall x, y, z :: 0 <= x < precX - 1 && 0 <= y < precY && 0 <= z < precZ ==>
              YPassAt(a, precX, precY, precZ, x, y, z) == YPassAt(b, precX, precY, precZ, x, y, z)
  {
  }

  /** Tables that agree on x < last_x agree, after the X pass, everywhere. */
  lemma XPassReadsFilled(a: seq<PtLow>, b: seq<PtLow>, precX: int, precY: int, precZ: int)
    requires precX >= 3
    requires forall x, y, z :: 0 <= x < precX - 1 && 0 <= y < precY && 0 <= z < precZ ==>
               At(a, precY, precZ, x, y, z) == At(b, precY, precZ, x, y, z)
    ensures forall x, y, z :: InGrid(precX, precY, precZ, x, y, z) ==>
              XPassAt(a, precX, precY, precZ, x, y, z) == XPassAt(b, precX, precY, precZ, x, y, z)
  {
  }

  /** Every read of the three passes is of a solved cell or of one an
      earlier write filled: two tables that agree on the solved cells are
      equal once extrapolated.  This needs PRECX, PRECY, PRECZ >= 3, and
      PRECZ >= 4 in the Nih family (with PRECZ = 3 there, last_z = 2 is
      extrapolated from the unsolved slice z = 0). */
  lemma FinishedDependsOnlyOnSolved(a: seq<PtLow>, b: seq<PtLow>, precX: int, precY: int, precZ: int, nih: bool)
    requires precX >= 3 && precY >= 3 && precZ >= 3 && (nih ==> precZ >= 4)
    requires |a| == |b| == precX * precY * precZ
    requires forall x, y, z :: Solved(precX, precY, precZ, nih, x, y, z) ==>
               At(a, precY, precZ, x, y, z) == At(b, precY, precZ, x, y, z)
    ensures Finished(a, precX, precY, precZ, nih) == Finished(b, precX, precY, precZ, nih)
  {
    var za, zb := ZPassed(a, precX, precY, precZ, nih), ZPassed(b, precX, precY, precZ, nih);
    ZPassReadsSolved(a, b, precX, precY, precZ, nih);
    forall x, y, z | 0 <= x < precX - 1 && 0 <= y < precY - 1 && 0 <= z < precZ
      ensures At(za, precY, precZ, x, y, z) == At(zb, precY, precZ, x, y, z)
    {
      PassedAt(a, precX, precY, precZ, nih, x, y, z);
      PassedAt(b, precX, precY, precZ, nih, x, y, z);
    }
    var ya, yb := YPassed(za, precX, precY, precZ), YPassed(zb, precX, precY, precZ);
    YPassReadsFilled(za, zb, precX, precY, precZ);
    forall x, y, z | 0 <= x < precX - 1 && 0 <= y < precY && 0 <= z < precZ
      ensures At(ya, precY, precZ, x, y, z) == At(yb, precY, precZ, x, y, z)
    {
      PassedAt(za, precX, precY, precZ, nih, x, y, z);
      PassedAt(zb, precX, precY, precZ, nih, x, y, z);
    }
    var xa, xb := XPassed(ya, precX, precY, precZ), XPassed(yb, precX, precY, precZ);
    XPassReadsFilled(ya, yb, precX, precY, precZ);
    forall x, y, z | InGrid(precX, precY, precZ, x, y, z)
      ensures At(xa, precY, precZ, x, y, z) == At(xb, precY, precZ, x, y, z)
    {
      PassedAt(ya, precX, precY, precZ, nih, x, y, z);
      PassedAt(yb, precX, precY, precZ, nih, x, y, z);
    }
    GridExtensionality(xa, xb, precX, precY, precZ);
  }

  /** The three passes, named for the progress invariant they share. */
  datatype Pass = ZAxis(nih: bool) | YAxis | XAxis

  /** The sample at (x, y, z) after pass `p`. */
  function PassAt(p: Pass, tab: seq<PtLow>, precX: int, precY: int, precZ: int, x: int, y: int, z: int): PtLow {
    match p
    case ZAxis(nih) => ZPassAt(tab, precX, precY, precZ, nih, x, y, z)
    case YAxis => YPassAt(tab, precX, precY, precZ, x, y, z)
    case XAxis => XPassAt(tab, precX, precY, precZ, x, y, z)
  }

  /** The whole table after pass `p`. */
  function Passed(p: Pass, tab: seq<PtLow>, precX: int, precY: int, precZ: int): seq<PtLow> {
    match p
    case ZAxis(nih) => ZPassed(tab, precX, precY, precZ, nih)
    case YAxis => YPassed(tab, precX, precY, precZ)
    case XAxis => XPassed(tab, precX, precY, precZ)
  }

  /** Part way through pass `p` over the table `tab0`: the columns before
      (x, y), in loop order, hold the pass's values, every other column its
      value from before the pass. */
  ghost predicate Progress(p: Pass, tab: seq<PtLow>, tab0: seq<PtLow>, precX: int, precY: int, precZ: int, x: int, y: int) {
    forall x', y', z' :: InGrid(precX, precY, precZ, x', y', z') ==>
      At(tab, precY, precZ, x', y', z') ==
        if x' < x || (x' == x && y' < y) then PassAt(p, tab0, precX, precY, precZ, x', y', z')
        else At(tab0, precY, precZ, x', y', z')
  }

  /** Before a pass, the columns the pass leaves alone can be counted as done. */
  lemma ProgressStart(p: Pass, tab0: seq<PtLow>, precX: int, precY: int, precZ: int, x: int)
    requires forall x', y', z' :: InGrid(precX, precY, precZ, x', y', z') && x' < x ==>
               PassAt(p, tab0, precX, precY, precZ, x', y', z') == At(tab0, precY, precZ, x', y', z')
    ensures Progress(p, tab0, tab0, precX, precY, precZ, x, 0)
  {
  }

  /** Writing column (x, y) with the pass's values moves the progress on by
      one column. */
  lemma ProgressStep(p: Pass, before: seq<PtLow>, after: seq<PtLow>, tab0: seq<PtLow>,
                     precX: int, precY: int, precZ: int, x: int, y: int)
    requires Progress(p, before, tab0, precX, precY, precZ, x, y)
    requires forall z' :: 0 <= z' < precZ ==>
               At(after, precY, precZ, x, y, z') == PassAt(p, tab0, precX, precY, precZ, x, y, z')
    requires forall x', y', z' :: InGrid(precX, precY, precZ, x', y', z') && (x', y') != (x, y) ==>
               At(after, precY, precZ, x', y', z') == At(before, precY, precZ, x', y', z')
    ensures Progress(p, after, tab0, precX, precY, precZ, x, y + 1)
  {
    forall x', y', z' | InGrid(precX, precY, precZ, x', y', z')
      ensures At(after, precY, precZ, x', y', z') ==
                if x' < x || (x' == x && y' < y + 1) then PassAt(p, tab0, precX, precY, precZ, x', y', z')
                else At(tab0, precY, precZ, x', y', z')
    {
      if (x', y') != (x, y) {
        assert At(after, precY, precZ, x', y', z') == At(before, precY, precZ, x', y', z');
      }
    }
  }

  /** Columns the pass leaves alone can be skipped. */
  lemma ProgressSkip(p: Pass, tab: seq<PtLow>, tab0: seq<PtLow>, precX: int, precY: int, precZ: int, x: int, y0: int, y1: int)
    requires y0 <= y1 && Progress(p, tab, tab0, precX, precY, precZ, x, y0)
    requires forall y', z' :: InGrid(precX, precY, precZ, x, y', z') && y0 <= y' < y1 ==>
               PassAt(p, tab0, precX, precY, precZ, x, y', z') == At(tab0, precY, precZ, x, y', z')
    ensures Progress(p, tab, tab0, precX, precY, precZ, x, y1)
  {
  }

  /** When the rest of row x is left alone by the pass, the next row starts. */
  lemma ProgressNextRow(p: Pass, tab: seq<PtLow>, tab0: seq<PtLow>, precX: int, precY: int, precZ: int, x: int, y: int)
    requires Progress(p, tab, tab0, precX, precY, precZ, x, y)
    requires forall y', z' :: InGrid(precX, precY, precZ, x, y', z') && y' >= y ==>
               PassAt(p, tab0, precX, precY, precZ, x, y', z') == At(tab0, precY, precZ, x, y', z')
    ensures Progress(p, tab, tab0, precX, precY, precZ, x + 1, 0)
  {
  }

  /** When the remaining rows are left alone by the pass, the table is the
      passed table. */
  lemma ProgressDone(p: Pass, tab: seq<PtLow>, tab0: seq<PtLow>, precX: int, precY: int, precZ: int, x: int)
    requires precX >= 0 && precY >= 0 && precZ >= 0 && |tab| == |tab0| == precX * precY * precZ
    requires Progress(p, tab, tab0, precX, precY, precZ, x, 0)
    requires forall x', y', z' :: InGrid(precX, precY, precZ, x', y', z') && x' >= x ==>
               PassAt(p, tab0, precX, precY, precZ, x', y', z') == At(tab0, precY, precZ, x', y', z')
    ensures tab == Passed(p, tab0, precX, precY, precZ)
  {
    var nih := if p.ZAxis? then p.nih else false;
    forall x', y', z' | InGrid(precX, precY, precZ, x', y', z')
      ensures At(tab, precY, precZ, x', y', z') == At(Passed(p, tab0, precX, precY, precZ), precY, precZ, x', y', z')
    {
      PassedAt(tab0, precX, precY, precZ, nih, x', y', z');
    }
    if precY > 0 && precZ > 0 {
      GridExtensionality(tab, Passed(p, tab0, precX, precY, precZ), precX, precY, precZ);
    } else {
      assert precX * precY * precZ == 0;
    }
  }

  /** The Z pass (the first `for x / for y` loop nest). */
  method ZPass(t: TabledInverses, nih: bool)
    requires t.Valid() && t.precZ >= 3
    modifies t
    ensures t.Valid() && t.precX == old(t.precX) && t.precY == old(t.precY) && t.precZ == old(t.precZ)
    ensures t.tab == ZPassed(old(t.tab), t.precX, t.precY, t.precZ, nih)
  {
    ghost var tab0 := t.tab;
    var lastX, lastY := t.precX - 1, t.precY - 1;
    var x := 0;
    ProgressStart(ZAxis(nih), tab0, t.precX, t.precY, t.precZ, x);
    while x < lastX
      invariant t.Valid() && t.precX == old(t.precX) && t.precY == old(t.precY) && t.precZ == old(t.precZ)
      invariant 0 <= x && (lastX >= 0 ==> x <= lastX)
      invariant Progress(ZAxis(nih), t.tab, tab0, t.precX, t.precY, t.precZ, x, 0)
    {
      var y := 0;
      while y < lastY
        invariant t.Valid() && t.precX == old(t.precX) && t.precY == old(t.precY) && t.precZ == old(t.precZ)
        invariant 0 <= y && (lastY >= 0 ==> y <= lastY)
        invariant Progress(ZAxis(nih), t.tab, tab0, t.precX, t.precY, t.precZ, x, y)
      {
        ghost var before := t.tab;
        ZColumn(t, tab0, nih, x, y);
        ProgressStep(ZAxis(nih), before, t.tab, tab0, t.precX, t.precY, t.precZ, x, y);
        y := y + 1;
      }
      ProgressNextRow(ZAxis(nih), t.tab, tab0, t.precX, t.precY, t.precZ, x, y);
      x := x + 1;
    }
    ProgressDone(ZAxis(nih), t.tab, tab0, t.precX, t.precY, t.precZ, x);
  }

  /** The body of the Z pass for one column (x, y): the `for z = last_z` loop,
      then the Nih write at z = 0. */
  method ZColumn(t: TabledInverses, ghost tab0: seq<PtLow>, nih: bool, x: int, y: int)
    requires t.Valid() && t.precZ >= 3 && 0 <= x < t.precX - 1 && 0 <= y < t.precY - 1
    requires forall z' :: 0 <= z' < t.precZ ==> At(t.tab, t.precY, t.precZ, x, y, z') == At(tab0, t.precY, t.precZ, x, y, z')
    modifies t
    ensures t.Valid() && t.precX == old(t.precX) && t.precY == old(t.precY) && t.precZ == old(t.precZ)
    ensures forall z' :: 0 <= z' < t.precZ ==>
              At(t.tab, t.precY, t.precZ, x, y, z') == PassAt(ZAxis(nih), tab0, t.precX, t.precY, t.precZ, x, y, z')
    ensures forall x', y', z' :: InGrid(t.precX, t.precY, t.precZ, x', y', z') && (x', y') != (x, y) ==>
              At(t.tab, t.precY, t.precZ, x', y', z') == old(At(t.tab, t.precY, t.precZ, x', y', z'))
  {
    ZTail(t, tab0, nih, x, y);
    if nih {
      ghost var before := t.tab;
      t.Set(x, y, 0, Extrapolate(t.Get(x, y, 1), t.Get(x, y, 2)));
      assert At(t.tab, t.precY, t.precZ, x, y, 0) == ZPassAt(tab0, t.precX, t.precY, t.precZ, nih, x, y, 0);
    }
  }

  /** The `for z = last_z` loop of one column of the Z pass. */
  method ZTail(t: TabledInverses, ghost tab0: seq<PtLow>, nih: bool, x: int, y: int)
    requires t.Valid() && t.precZ >= 3 && 0 <= x < t.precX - 1 && 0 <= y < t.precY - 1
    requires forall z' :: 0 <= z' < t.precZ ==> At(t.tab, t.precY, t.precZ, x, y, z') == At(tab0, t.precY, t.precZ, x, y, z')
    modifies t
    ensures t.Valid() && t.precX == old(t.precX) && t.precY == old(t.precY) && t.precZ == old(t.precZ)
    ensures forall z' :: 0 <= z' < t.precZ ==>
              At(t.tab, t.precY, t.precZ, x, y, z') ==
                if z' == t.precZ - 1 then ZPassAt(tab0, t.precX, t.precY, t.precZ, nih, x, y, z')
                else At(tab0, t.precY, t.precZ, x, y, z')
    ensures forall x', y', z' :: InGrid(t.precX, t.precY, t.precZ, x', y', z') && (x', y') != (x, y) ==>
              At(t.tab, t.precY, t.precZ, x', y', z') == old(At(t.tab, t.precY, t.precZ, x', y', z'))
  {
    var lastZ := t.precZ - 1;
    var z := lastZ;
    while z < t.precZ
      invariant t.Valid() && t.precX == old(t.precX) && t.precY == old(t.precY) && t.precZ == old(t.precZ)
      invariant lastZ <= z <= t.precZ
      invariant forall z' :: 0 <= z' < t.precZ ==>
                  At(t.tab, t.precY, t.precZ, x, y, z') ==
                    if lastZ <= z' < z then ZPassAt(tab0, t.precX, t.precY, t.precZ, nih, x, y, z')
                    else At(tab0, t.precY, t.precZ, x, y, z')
      invariant forall x', y', z' :: InGrid(t.precX, t.precY, t.precZ, x', y', z') && (x', y') != (x, y) ==>
                  At(t.tab, t.precY, t.precZ, x', y', z') == old(At(t.tab, t.precY, t.precZ, x', y', z'))
    {
      t.Set(x, y, z, Extrapolate(t.Get(x, y, z - 1), t.Get(x, y, z - 2)));
      z := z + 1;
    }
  }

  /** The Y pass. */
  method YPass(t: TabledInverses)
    requires t.Valid() && t.precY >= 3
    modifies t
    ensures t.Valid() && t.precX == old(t.precX) && t.precY == old(t.precY) && t.precZ == old(t.precZ)
    ensures t.tab == YPassed(old(t.tab), t.precX, t.precY, t.precZ)
  {
    ghost var tab0 := t.tab;
    var lastX, lastY := t.precX - 1, t.precY - 1;
    var x := 0;
    ProgressStart(YAxis, tab0, t.precX, t.precY, t.precZ, x);
    while x < lastX
      invariant t.Valid() && t.precX == old(t.precX) && t.precY == old(t.precY) && t.precZ == old(t.precZ)
      invariant 0 <= x && (lastX >= 0 ==> x <= lastX)
      invariant Progress(YAxis, t.tab, tab0, t.precX, t.precY, t.precZ, x, 0)
    {
      ProgressSkip(YAxis, t.tab, tab0, t.precX, t.precY, t.precZ, x, 0, lastY);
      var y := lastY;
      while y < t.precY
        invariant t.Valid() && t.precX == old(t.precX) && t.precY == old(t.precY) && t.precZ == old(t.precZ)
        invariant lastY <= y <= t.precY
        invariant Progress(YAxis, t.tab, tab0, t.precX, t.precY, t.precZ, x, y)
      {
        ghost var before := t.tab;
        YRow(t, tab0, x, y);
        ProgressStep(YAxis, before, t.tab, tab0, t.precX, t.precY, t.precZ, x, y);
        y := y + 1;
      }
      ProgressNextRow(YAxis, t.tab, tab0, t.precX, t.precY, t.precZ, x, y);
      x := x + 1;
    }
    ProgressDone(YAxis, t.tab, tab0, t.precX, t.precY, t.precZ, x);
  }

  /** The innermost `for z` loop of the Y pass at (x, y = last_y). */
  method YRow(t: TabledInverses, ghost tab0: seq<PtLow>, x: int, y: int)
    requires t.Valid() && t.precY >= 3 && 0 <= x < t.precX - 1 && y == t.precY - 1
    requires forall y', z' :: 0 <= y' < t.precY && 0 <= z' < t.precZ ==>
               At(t.tab, t.precY, t.precZ, x, y', z') == At(tab0, t.precY, t.precZ, x, y', z')
    modifies t
    ensures t.Valid() && t.precX == old(t.precX) && t.precY == old(t.precY) && t.precZ == old(t.precZ)
    ensures forall z' :: 0 <= z' < t.precZ ==>
              At(t.tab, t.precY, t.precZ, x, y, z') == PassAt(YAxis, tab0, t.precX, t.precY, t.precZ, x, y, z')
    ensures forall x', y', z' :: InGrid(t.precX, t.precY, t.precZ, x', y', z') && (x', y') != (x, y) ==>
              At(t.tab, t.precY, t.precZ, x', y', z') == old(At(t.tab, t.precY, t.precZ, x', y', z'))
  {
    var z := 0;
    while z < t.precZ
      invariant t.Valid() && t.precX == old(t.precX) && t.precY == old(t.precY) && t.precZ == old(t.precZ)
      invariant 0 <= z <= t.precZ
      invariant forall z' :: 0 <= z' < z ==>
                  At(t.tab, t.precY, t.precZ, x, y, z') == YPassAt(tab0, t.precX, t.precY, t.precZ, x, y, z')
      invariant forall x', y', z' :: InGrid(t.precX, t.precY, t.precZ, x', y', z') && ((x', y') != (x, y) || z' >= z) ==>
                  At(t.tab, t.precY, t.precZ, x', y', z') == old(At(t.tab, t.precY, t.precZ, x', y', z'))
    {
      t.Set(x, y, z, Extrapolate(t.Get(x, y - 1, z), t.Get(x, y - 2, z)));
      z := z + 1;
    }
  }

  /** The X pass. */
  method XPass(t: TabledInverses)
    requires t.Valid() && t.precX >= 3
    modifies t
    ensures t.Valid() && t.precX == old(t.precX) && t.precY == old(t.precY) && t.precZ == old(t.precZ)
    ensures t.tab == XPassed(old(t.tab), t.precX, t.precY, t.precZ)
  {
    ghost var tab0 := t.tab;
    var lastX := t.precX - 1;
    var x := lastX;
    ProgressStart(XAxis, tab0, t.precX, t.precY, t.precZ, x);
    while x < t.precX
      invariant t.Valid() && t.precX == old(t.precX) && t.precY == old(t.precY) && t.precZ == old(t.precZ)
      invariant lastX <= x <= t.precX
      invariant Progress(XAxis, t.tab, tab0, t.precX, t.precY, t.precZ, x, 0)
    {
      var y := 0;
      while y < t.precY
        invariant t.Valid() && t.precX == old(t.precX) && t.precY == old(t.precY) && t.precZ == old(t.precZ)
        invariant 0 <= y <= t.precY
        invariant Progress(XAxis, t.tab, tab0, t.precX, t.precY, t.precZ, x, y)
      {
        ghost var before := t.tab;
        XRow(t, tab0, x, y);
        ProgressStep(XAxis, before, t.tab, tab0, t.precX, t.precY, t.precZ, x, y);
        y := y + 1;
      }
      ProgressNextRow(XAxis, t.tab, tab0, t.precX, t.precY, t.precZ, x, y);
      x := x + 1;
    }
    ProgressDone(XAxis, t.tab, tab0, t.precX, t.precY, t.precZ, x);
  }

  /** The innermost `for z` loop of the X pass at (x = last_x, y). */
  method XRow(t: TabledInverses, ghost tab0: seq<PtLow>, x: int, y: int)
    requires t.Valid() && t.precX >= 3 && x == t.precX - 1 && 0 <= y < t.precY
    requires forall x', z' :: 0 <= x' < t.precX && 0 <= z' < t.precZ && x' != x ==>
               At(t.tab, t.precY, t.precZ, x', y, z') == At(tab0, t.precY, t.precZ, x', y, z')
    modifies t
    ensures t.Valid() && t.precX == old(t.precX) && t.precY == old(t.precY) && t.precZ == old(t.precZ)
    ensures forall z' :: 0 <= z' < t.precZ ==>
              At(t.tab, t.precY, t.precZ, x, y, z') == PassAt(XAxis, tab0, t.precX, t.precY, t.precZ, x, y, z')
    ensures forall x', y', z' :: InGrid(t.precX, t.precY, t.precZ, x', y', z') && (x', y') != (x, y) ==>
              At(t.tab, t.precY, t.precZ, x', y', z') == old(At(t.tab, t.precY, t.precZ, x', y', z'))
  {
    var z := 0;
    while z < t.precZ
      invariant t.Valid() && t.precX == old(t.precX) && t.precY == old(t.precY) && t.precZ == old(t.precZ)
      invariant 0 <= z <= t.precZ
      invariant forall z' :: 0 <= z' < z ==>
                  At(t.tab, t.precY, t.precZ, x, y, z') == XPassAt(tab0, t.precX, t.precY, t.precZ, x, y, z')
      invariant forall x', y', z' :: InGrid(t.precX, t.precY, t.precZ, x', y', z') && ((x', y') != (x, y) || z' >= z) ==>
                  At(t.tab, t.precY, t.precZ, x', y', z') == old(At(t.tab, t.precY, t.precZ, x', y', z'))
    {
      t.Set(x, y, z, Extrapolate(t.Get(x - 1, y, z), t.Get(x - 2, y, z)));
      z := z + 1;
    }
  }

  /** The three passes in order, as `build_sols` runs them after the solve. */
  method ExtrapolateAll(t: TabledInverses, nih: bool)
    requires t.Valid() && t.precX >= 3 && t.precY >= 3 && t.precZ >= 3
    modifies t
    ensures t.Valid() && t.precX == old(t.precX) && t.precY == old(t.precY) && t.precZ == old(t.precZ)
    ensures t.tab == Finished(old(t.tab), t.precX, t.precY, t.precZ, nih)
  {
    ZPass(t, nih);
    YPass(t);
    XPass(t);
  }
}
