/** `build_sols`: allocate the table, solve every cell of every slice that is
    not skipped (one worker per Z slice, each walking its slice in growing
    squares), then extrapolate the boundary. */
module Build {
  import opened Numerics
  import opened Floats
  import opened Remap
  import opened Solver
  import opened Parallel
  import opened Table
  import opened Extrapolate

  /** The integration precision passed to the exponential map. */
  const Prec: int := 100

  /** The solver's target error (`minerr`). */
  const MinErr: real := 0.000001

  /** The largest error of a sample that is written to the table. */
  const AcceptErr: real := 0.001

  /** A candidate this close ends the candidate loop early. */
  const EarlyStop: real := 0.000000001

  /** The point cell (ix, iy, iz) asks for: each grid coordinate scaled to
      [0, 1] and mapped to the tangent coordinate (`ix_to_x` for X and Y,
      `iz_to_z` for Z). */
  function Target(nm: Numerics, g: Geometry, precX: int, precY: int, precZ: int, ix: int, iy: int, iz: int): Vec3
    requires precX > 1 && precY > 1 && precZ > 1
  {
    Vec3(Atanh(nm, Bisection(nm, ix as real / (precX - 1) as real, 100).0),
         Atanh(nm, Bisection(nm, iy as real / (precY - 1) as real, 100).0),
         IzToZ(nm, g, iz as real / (precZ - 1) as real))
  }

  predicate InRect(lastX: int, lastY: int, p: (int, int)) {
    0 <= p.0 < lastX && 0 <= p.1 < lastY
  }

  predicate NoDuplicates(order: seq<(int, int)>) {
    forall i, j :: 0 <= i < j < |order| ==> order[i] != order[j]
  }

  function Max(a: int, b: int): int { if a < b then b else a }
  function Min(a: int, b: int): int { if a < b then a else b }

  /** The growing-square walk of one slice: for it = 0, 1, ..., the ring of
      cells with max(x, y) = it, each only when it lies in the solved
      rectangle x < last_x, y < last_y.  Every cell of the rectangle is
      visited exactly once and nothing outside it is. */
  method GrowingSquareOrder(lastX: int, lastY: int) returns (order: seq<(int, int)>)
    ensures forall j :: 0 <= j < |order| ==> InRect(lastX, lastY, order[j])
    ensures forall p :: InRect(lastX, lastY, p) ==> p in order
    ensures NoDuplicates(order)
    ensures forall i, j :: 0 <= i < j < |order| ==> Max(order[i].0, order[i].1) <= Max(order[j].0, order[j].1)
  {
    order := [];
    var it := 0;
    while it < Max(lastX, lastY)
      invariant 0 <= it && (Max(lastX, lastY) >= 0 ==> it <= Max(lastX, lastY))
      invariant forall j :: 0 <= j < |order| ==> InRect(lastX, lastY, order[j]) && Max(order[j].0, order[j].1) < it
      invariant forall p :: InRect(lastX, lastY, p) && Max(p.0, p.1) < it ==> p in order
      invariant NoDuplicates(order)
      invariant forall i, j :: 0 <= i < j < |order| ==> Max(order[i].0, order[i].1) <= Max(order[j].0, order[j].1)
    {
      var ring := Ring(lastX, lastY, it);
      order := order + ring;
      it := it + 1;
    }
  }

  /** One step of the walk: (it, a) and (a, it) for a = 0 .. it - 1, then
      (it, it), keeping those inside the rectangle.  These are exactly the
      rectangle's cells with max(x, y) = it. */
  method Ring(lastX: int, lastY: int, it: int) returns (ring: seq<(int, int)>)
    requires it >= 0
    ensures forall j :: 0 <= j < |ring| ==> InRect(lastX, lastY, ring[j]) && Max(ring[j].0, ring[j].1) == it
    ensures forall p :: InRect(lastX, lastY, p) && Max(p.0, p.1) == it ==> p in ring
    ensures NoDuplicates(ring)
  {
    ring := [];
    var a := 0;
    while a < it
      invariant 0 <= a <= it
      invariant forall j :: 0 <= j < |ring| ==>
                  InRect(lastX, lastY, ring[j]) && Max(ring[j].0, ring[j].1) == it && Min(ring[j].0, ring[j].1) < a
      invariant forall p :: InRect(lastX, lastY, p) && Max(p.0, p.1) == it && Min(p.0, p.1) < a ==> p in ring
      invariant NoDuplicates(ring)
    {
      if it < lastX && a < lastY {
        ring := ring + [(it, a)];
      }
      if a < lastX && it < lastY {
        ring := ring + [(a, it)];
      }
      a := a + 1;
    }
    if it < lastX && it < lastY {
      ring := ring + [(it, it)];
    }
  }

  /** The candidate with the smallest error (`solved_candidates` sorted by
      decreasing error, then `back()`). */
  method BestCandidate(nm: Numerics, g: Geometry, v: Vec3, solved: seq<Vec3>) returns (cand: Vec3)
    requires |solved| > 0
    ensures cand in solved
    ensures forall s :: s in solved ==> PointError(nm, g, v, cand, Prec) <= PointError(nm, g, v, s, Prec)
  {
    cand := solved[0];
    var i := 1;
    while i < |solved|
      invariant 1 <= i <= |solved|
      invariant cand in solved[..i]
      invariant forall j :: 0 <= j < i ==> PointError(nm, g, v, cand, Prec) <= PointError(nm, g, v, solved[j], Prec)
    {
      if PointError(nm, g, v, solved[i], Prec) <= PointError(nm, g, v, cand, Prec) {
        cand := solved[i];
      }
      i := i + 1;
    }
  }

  /** How the work on one cell (and on the whole build) ends: normally, or
      with the process exit code (1: the solver cannot improve, 4: a sample
      is not finite), or with the solver's iteration budget exhausted. */
  datatype CellOutcome = Written | Skipped | CellExit(code: int) | CellOutOfFuel

  /** The candidate loop of `solve_at`: solve from each candidate (only the
      origin), stop early on an error below 1e-9, and pick the best.  The
      result is never worse than the origin itself. */
  method SolveCandidates(nm: Numerics, g: Geometry, v: Vec3, fuel: nat) returns (out: CellOutcome, cand: Vec3)
    ensures out == Written || out == CellExit(1) || out == CellOutOfFuel
    ensures out == Written ==> PointError(nm, g, v, cand, Prec) <= PointError(nm, g, v, Origin, Prec)
  {
    var candidates := [Origin];
    var solved: seq<Vec3> := [];
    var i := 0;
    while i < |candidates|
      invariant 0 <= i <= |candidates| && |solved| == i
      invariant forall s :: s in solved ==> PointError(nm, g, v, s, Prec) <= PointError(nm, g, v, Origin, Prec)
    {
      var r, _ := IterativeSolve(nm, g, v, candidates[i], Prec, MinErr, fuel);
      if r.CannotImprove? {
        return CellExit(1), r.at;
      } else if r.OutOfFuel? {
        return CellOutOfFuel, r.at;
      }
      solved := solved + [r.at];
      i := i + 1;
      if SolError(nm, g, v, Exp(nm, r.at, Prec)) < EarlyStop {
        break;
      }
    }
    cand := BestCandidate(nm, g, v, solved);
    out := Written;
  }

  /** `solve_at(ix, iy)` in slice `iz`: solve for the cell's target, and
      write the canonical projection of the best candidate only if its error
      is at most 1e-3; a non-finite sample then ends the process. */
  method SolveAt(nm: Numerics, g: Geometry, t: TabledInverses, ix: int, iy: int, iz: int, fuel: nat)
    returns (out: CellOutcome, cand: Vec3)
    requires t.Valid() && t.precX > 1 && t.precY > 1 && t.precZ > 1
    requires InGrid(t.precX, t.precY, t.precZ, ix, iy, iz)
    modifies t
    ensures t.Valid() && t.precX == old(t.precX) && t.precY == old(t.precY) && t.precZ == old(t.precZ)
    ensures out == Written ==> CellWritten(nm, g, t.precX, t.precY, t.precZ, ix, iy, iz, cand, t.Get(ix, iy, iz))
    ensures out == Skipped ==> CellRejected(nm, g, t.precX, t.precY, t.precZ, ix, iy, iz, cand) && t.tab == old(t.tab)
    ensures out.CellExit? ==> out.code == 1 || out.code == 4
    ensures out == CellExit(4) ==>
              PointError(nm, g, Target(nm, g, t.precX, t.precY, t.precZ, ix, iy, iz), cand, Prec) <= AcceptErr &&
              !Can(nm, cand).IsFinite()
    ensures out == CellExit(1) || out == CellOutOfFuel ==> t.tab == old(t.tab)
    ensures forall x', y', z' :: InGrid(t.precX, t.precY, t.precZ, x', y', z') && (x', y', z') != (ix, iy, iz) ==>
              At(t.tab, t.precY, t.precZ, x', y', z') == At(old(t.tab), t.precY, t.precZ, x', y', z')
  {
    var x := IxToX(nm, ix as real / (t.precX - 1) as real);
    var y := IxToX(nm, iy as real / (t.precY - 1) as real);
    var z := IzToZ(nm, g, iz as real / (t.precZ - 1) as real);
    var v := Vec3(x, y, z);
    assert v == Target(nm, g, t.precX, t.precY, t.precZ, ix, iy, iz);
    out, cand := SolveCandidates(nm, g, v, fuel);
    if out != Written {
      return;
    }
    var xerr := SolError(nm, g, v, Exp(nm, cand, Prec));
    if xerr > AcceptErr {
      return Skipped, cand;
    }
    var so := Can(nm, cand);
    t.Set(ix, iy, iz, so);
    if !so.IsFinite() {
      return CellExit(4), cand;
    }
  }

  /** A cell is written with the canonical projection of a candidate whose
      error is at most 1e-3 and no worse than the origin's; the sample is
      finite. */
  predicate CellWritten(nm: Numerics, g: Geometry, precX: int, precY: int, precZ: int, ix: int, iy: int, iz: int,
                        cand: Vec3, sample: PtLow)
    requires precX > 1 && precY > 1 && precZ > 1
  {
    var v := Target(nm, g, precX, precY, precZ, ix, iy, iz);
    && PointError(nm, g, v, cand, Prec) <= AcceptErr
    && PointError(nm, g, v, cand, Prec) <= PointError(nm, g, v, Origin, Prec)
    && sample == Can(nm, cand)
    && sample.IsFinite()
  }

  /** The best candidate of a cell was too far off (error above 1e-3) even
      though it is no worse than the origin. */
  predicate CellRejected(nm: Numerics, g: Geometry, precX: int, precY: int, precZ: int, ix: int, iy: int, iz: int, cand: Vec3)
    requires precX > 1 && precY > 1 && precZ > 1
  {
    var v := Target(nm, g, precX, precY, precZ, ix, iy, iz);
    && PointError(nm, g, v, cand, Prec) > AcceptErr
    && PointError(nm, g, v, cand, Prec) <= PointError(nm, g, v, Origin, Prec)
  }

  /** A solved cell ends either written with its candidate's canonical
      projection, or rejected and left as it was. */
  predicate CellDone(nm: Numerics, g: Geometry, precX: int, precY: int, precZ: int, x: int, y: int, z: int,
                     cand: Vec3, now: PtLow, before: PtLow)
    requires precX > 1 && precY > 1 && precZ > 1
  {
    || CellWritten(nm, g, precX, precY, precZ, x, y, z, cand, now)
    || (CellRejected(nm, g, precX, precY, precZ, x, y, z, cand) && now == before)
  }

  /** Every cell of `ps` in slice `iz` is done, relative to `tab0`, with its
      candidate in `cands`. */
  ghost predicate SliceDone(nm: Numerics, g: Geometry, precX: int, precY: int, precZ: int, iz: int,
                            ps: seq<(int, int)>, cands: map<(int, int), Vec3>, tab: seq<PtLow>, tab0: seq<PtLow>)
    requires precX > 1 && precY > 1 && precZ > 1
  {
    forall p :: p in ps ==>
      p in cands &&
      CellDone(nm, g, precX, precY, precZ, p.0, p.1, iz, cands[p],
               At(tab, precY, precZ, p.0, p.1, iz), At(tab0, precY, precZ, p.0, p.1, iz))
  }

  /** Solving one more cell, which changes no other cell of the grid, extends
      the cells done by that cell. */
  lemma SliceDoneStep(nm: Numerics, g: Geometry, precX: int, precY: int, precZ: int, iz: int,
                      ps: seq<(int, int)>, p: (int, int), cands: map<(int, int), Vec3>, cand: Vec3,
                      before: seq<PtLow>, after: seq<PtLow>, tab0: seq<PtLow>)
    requires precX > 1 && precY > 1 && precZ > 1 && 0 <= iz < precZ
    requires SliceDone(nm, g, precX, precY, precZ, iz, ps, cands, before, tab0)
    requires p !in ps && forall q :: q in ps ==> InRect(precX, precY, q)
    requires forall x', y', z' :: InGrid(precX, precY, precZ, x', y', z') && (x', y', z') != (p.0, p.1, iz) ==>
               At(after, precY, precZ, x', y', z') == At(before, precY, precZ, x', y', z')
    requires CellDone(nm, g, precX, precY, precZ, p.0, p.1, iz, cand,
                      At(after, precY, precZ, p.0, p.1, iz), At(tab0, precY, precZ, p.0, p.1, iz))
    ensures SliceDone(nm, g, precX, precY, precZ, iz, ps + [p], cands[p := cand], after, tab0)
  {
    forall q | q in ps + [p]
      ensures q in cands[p := cand] &&
              CellDone(nm, g, precX, precY, precZ, q.0, q.1, iz, cands[p := cand][q],
                       At(after, precY, precZ, q.0, q.1, iz), At(tab0, precY, precZ, q.0, q.1, iz))
    {
      if q != p {
        assert q in ps && InGrid(precX, precY, precZ, q.0, q.1, iz);
      }
    }
  }

  /** How a slice, or the whole build, ends: normally, with a process exit
      code, or with the solver's iteration budget exhausted. */
  datatype RunOutcome = Completed | Exited(code: int) | FuelExhausted

  /** The worker action `act(tid, iz)`: skip slice 0 in Nil and the last
      slice; otherwise solve every cell of the rectangle x < last_x,
      y < last_y of slice `iz` in growing-square order.  On completion each
      of those cells is done (written or rejected, with the candidate
      recorded in `cands`) and every other cell is unchanged. */
  method SolveSlice(nm: Numerics, g: Geometry, t: TabledInverses, iz: int, fuel: nat)
    returns (out: RunOutcome, ghost cands: map<(int, int), Vec3>)
    requires t.Valid() && t.precX > 1 && t.precY > 1 && t.precZ > 1 && 0 <= iz < t.precZ
    modifies t
    ensures t.Valid() && t.precX == old(t.precX) && t.precY == old(t.precY) && t.precZ == old(t.precZ)
    ensures out.Exited? ==> out.code == 1 || out.code == 4
    ensures (g.nih && iz == 0) || iz == t.precZ - 1 ==> out == Completed && t.tab == old(t.tab)
    ensures out == Completed ==>
              forall x, y :: Solved(t.precX, t.precY, t.precZ, g.nih, x, y, iz) ==>
                (x, y) in cands &&
                CellDone(nm, g, t.precX, t.precY, t.precZ, x, y, iz, cands[(x, y)],
                         At(t.tab, t.precY, t.precZ, x, y, iz), At(old(t.tab), t.precY, t.precZ, x, y, iz))
    ensures forall x, y, z :: InGrid(t.precX, t.precY, t.precZ, x, y, z) && !(z == iz && Solved(t.precX, t.precY, t.precZ, g.nih, x, y, z)) ==>
              At(t.tab, t.precY, t.precZ, x, y, z) == At(old(t.tab), t.precY, t.precZ, x, y, z)
  {
    cands := map[];
    if (g.nih && iz == 0) || iz == t.precZ - 1 {
      return Completed, cands;
    }
    var order := GrowingSquareOrder(t.precX - 1, t.precY - 1);
    var i := 0;
    while i < |order|
      invariant 0 <= i <= |order|
      invariant t.Valid() && t.precX == old(t.precX) && t.precY == old(t.precY) && t.precZ == old(t.precZ)
      invariant SliceDone(nm, g, t.precX, t.precY, t.precZ, iz, order[..i], cands, t.tab, old(t.tab))
      invariant forall x, y, z :: InGrid(t.precX, t.precY, t.precZ, x, y, z) && !(z == iz && (x, y) in order[..i]) ==>
                  At(t.tab, t.precY, t.precZ, x, y, z) == At(old(t.tab), t.precY, t.precZ, x, y, z)
    {
      var p := order[i];
      assert p !in order[..i];
      ghost var before := t.tab;
      var r, cand := SolveAt(nm, g, t, p.0, p.1, iz, fuel);
      if r.CellExit? {
        return Exited(r.code), cands;
      } else if r == CellOutOfFuel {
        return FuelExhausted, cands;
      }
      SliceDoneStep(nm, g, t.precX, t.precY, t.precZ, iz, order[..i], p, cands, cand, before, t.tab, old(t.tab));
      cands := cands[p := cand];
      assert order[..i + 1] == order[..i] + [p];
      i := i + 1;
    }
    assert order[..i] == order;
    out := Completed;
  }

  /** `build_sols(PRECX, PRECY, PRECZ)`: allocate the table (keeping what
      the vector held before), run the worker action on every slice, then
      extrapolate the boundary.  On completion the table is the
      extrapolation of `filled`, in which every solved cell is done with its
      candidate in `cands` (a rejected one keeps its allocated value) and
      every other cell keeps its allocated value. */
  method BuildSols(nm: Numerics, g: Geometry, t: TabledInverses, precX: int, precY: int, precZ: int, fuel: nat)
    returns (out: RunOutcome, ghost cands: map<(int, int, int), Vec3>, ghost filled: seq<PtLow>)
    requires precX >= 3 && precY >= 3 && precZ >= 3
    modifies t
    ensures t.Valid() && t.precX == precX && t.precY == precY && t.precZ == precZ
    ensures out.Exited? ==> out.code == 1 || out.code == 4
    ensures out == Completed ==> |filled| == precX * precY * precZ && t.tab == Finished(filled, precX, precY, precZ, g.nih)
    ensures out == Completed ==>
              var alloc := Resize(old(t.tab), precX * precY * precZ);
              forall x, y, z :: InGrid(precX, precY, precZ, x, y, z) ==>
                if Solved(precX, precY, precZ, g.nih, x, y, z) then
                  (x, y, z) in cands &&
                  CellDone(nm, g, precX, precY, precZ, x, y, z, cands[(x, y, z)],
                           At(filled, precY, precZ, x, y, z), At(alloc, precY, precZ, x, y, z))
                else
                  At(filled, precY, precZ, x, y, z) == At(alloc, precY, precZ, x, y, z)
  {
    t.Alloc(precX, precY, precZ);
    ghost var alloc := t.tab;
    cands, filled := map[], t.tab;
    var calls := Parallelize(precZ, 0, precZ);
    ghost var done: seq<int> := [];
    var j := 0;
    while j < |calls|
      invariant 0 <= j <= |calls| && |done| == j
      invariant forall k :: 0 <= k < j ==> done[k] == calls[k].1
      invariant t.Valid() && t.precX == precX && t.precY == precY && t.precZ == precZ
      invariant forall x, y, z :: InGrid(precX, precY, precZ, x, y, z) ==>
                  if Solved(precX, precY, precZ, g.nih, x, y, z) && z in done then
                    (x, y, z) in cands &&
                    CellDone(nm, g, precX, precY, precZ, x, y, z, cands[(x, y, z)],
                             At(t.tab, precY, precZ, x, y, z), At(alloc, precY, precZ, x, y, z))
                  else
                    At(t.tab, precY, precZ, x, y, z) == At(alloc, precY, precZ, x, y, z)
    {
      var iz := calls[j].1;
      assert iz !in done;
      var r, sliceCands := SolveSlice(nm, g, t, iz, fuel);
      if r != Completed {
        return r, cands, t.tab;
      }
      cands := cands + map q | q in sliceCands :: (q.0, q.1, iz) := sliceCands[q];
      done := done + [iz];
      j := j + 1;
    }
    forall z | 0 <= z < precZ
      ensures z in done
    {
      var k :| 0 <= k < |calls| && calls[k] == (Owner(precZ, 0, z), z);
    }
    filled := t.tab;
    ExtrapolateAll(t, g.nih);
    out := Completed;
  }
}
