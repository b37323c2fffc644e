# Inverse-geodesic tables and raycaster data packing, modelled in Dafny

HyperRogue draws the non-isotropic geometries Sol and Nih with a raycaster.
Its exponential map has no closed-form inverse, so a development tool,
`devmods/solv-table.cpp`, computes one numerically for every point of an
X × Y × Z grid and writes the samples to a table file. `raycaster.cpp`
decides when the raycaster is used. Before each frame it packs the
neighbourhood of the viewer into data textures for the shader.

This project models both pieces:

- **`solv-table.cpp`.** The modelled operations are:
  - the round-robin `parallelize`;
  - the coordinate remapping (`z_to_iz`, `iz_to_z`, the `ix_to_x` bisection);
  - `solerror`, `can`/`uncan` and the float-sample operators with `zflip`;
  - the control skeleton of the damped Newton solver `iterative_solve`;
  - `alloc_table` and `write_table`, with a reader for the layout;
  - `build_sols`, which covers slice skipping, the growing-square walk of
    a slice, the per-cell write rule and the three boundary extrapolation
    passes.
- **`raycaster.cpp`.** The modelled operations are:
  - the GLES getter builder (`add`, `build_getter`);
  - the texture-slot layout (`deg`, `per_row`, `u`, `rows`, `enc`);
  - the fill loop of the three data textures, with the find-or-append
    dedup of transition matrices;
  - `available`, `requested`, the `want_use` cycle and the
    `*_current` settings.

Modules:

- **Numerics.** `Vec3` and powers of two. Every transcendental function
  (`tanh`, `atanh`, `sqrt`, the numerical exponential map, `x_to_ix`,
  matrix inversion) is a field of a `Numerics` record. That record is
  passed in, and nothing is assumed about it beyond what a lemma's own
  `requires` states.
- **Floats.** `float` is modelled as a real or ±∞ or NaN, with no
  rounding. Also `ptlow`, `mlow`, the `ptlow` operators and `zflip`.
- **Remap.** `z_to_iz`, `iz_to_z`, `solerror`, `can`, `uncan` and `ix_to_x`.
- **Parallel.** `parallelize`, taken as the log of `action(k, i)` calls.
- **Solver.** `iterative_solve` and its parts: the Newton step, the
  11 step sizes, and the 27-offset exhaustive search.
- **Table.** `tabled_inverses` as a class, `alloc_table`, `write_table`,
  and a decoder for the file layout.
- **Extrapolate.** The three passes at the end of `build_sols`, both as
  functions of the table and as in-place methods.
- **Build.** `build_sols` and its worker action and `solve_at`.
- **Getter, TextureLayout, Connections, RayModes.** The `raycaster.cpp`
  parts.

Behaviours of the code worth noting:

- A table cell whose best solution has error above 1e-3 is not written.
  It keeps the value `alloc_table` leaves in it. `resize` keeps the
  old contents of a previously loaded table, so that value is zero only
  for a fresh table.
- `requested()` is false while a texture is active, even with
  `want_use == 2`. The model takes `CAP_TEXTURE` as enabled.
- The sample index is `(x*PRECY + y)*PRECZ + z`. `get_int` is not part
  of this model; this convention is the one both the writer and the
  reader here use.

## Model

| member | source | states |
|---|---|---|
| Parallel.WorkersPartition | devmods/solv-table.cpp:36-43 | every index in [Nmin, Nmax) belongs to worker (i − Nmin) mod threads and to no other worker |
| Parallel.Parallelize | devmods/solv-table.cpp:36-43 | every call made is (k, i) with k the owner of i; every i in range is called; no index is called twice; no threads means no calls |
| Parallel.WorkerCalls | devmods/solv-table.cpp:39-41 | worker k visits exactly the indices it owns, in increasing order |
| Parallel.OneIndexPerWorker | devmods/solv-table.cpp:290 | with as many workers as slices (`parallelize(PRECZ, 0, PRECZ, …)`), worker k handles only slice k |
| Floats.ToF32 | devmods/solv-table.cpp:134 | the float conversion keeps a representable value exactly, overflows to ±inf beyond the float range, and never yields NaN from a real |
| Floats.AddF | devmods/solv-table.cpp:138 | a sum of finite floats that stays in range is exact; NaN propagates |
| Floats.MulF | devmods/solv-table.cpp:140 | a product of a finite float that stays in range is exact; NaN propagates |
| Floats.MLow | devmods/solv-table.cpp:134 | `mlow` gives a finite sample exactly when all three coordinates are in float range, and then holds them unchanged |
| Floats.ZFlip | devmods/solv-table.cpp:208 | `zflip` swaps x and y and negates z, and keeps finiteness |
| Floats.ZFlipInvolution | devmods/solv-table.cpp:208 | applying `zflip` twice gives back the sample |
| Floats.ExtrapolateFinite | devmods/solv-table.cpp:295 | for finite samples with no overflow, `a*2 - b` is the exact linear extrapolation |
| Floats.ExtrapolateNaN | devmods/solv-table.cpp:295 | a NaN coordinate in either input gives a NaN in the extrapolated sample |
| Floats.ExtrapolateConstant | devmods/solv-table.cpp:295 | extrapolating from two equal samples gives that sample |
| Numerics.Vec3.Set | devmods/solv-table.cpp:113 | setting one coordinate changes that coordinate only |
| Numerics.AxisUnit | devmods/solv-table.cpp:64 | the unit vectors `c[a]` are 1 on axis a and 0 elsewhere |
| Numerics.AxisDisplaces | devmods/solv-table.cpp:69 | `at + c[a] * e` moves coordinate a by e and keeps the other two |
| Numerics.Pow2Add | devmods/solv-table.cpp:192-196 | 2^(a+b) = 2^a · 2^b, the step halving and bisection scale |
| Numerics.WidthHalves | devmods/solv-table.cpp:193-195 | each bisection step halves the interval width |
| Numerics.WidthDecreasing | devmods/solv-table.cpp:109 | the widths 2^−n strictly decrease, so the fallback's step sizes shrink |
| Numerics.HypotNegate | devmods/solv-table.cpp:48 | `hypot_d` of a difference does not depend on its sign |
| Remap.ZRoundTrip | devmods/solv-table.cpp:200-202 | in the Sol and Nih families (exactly one flag set), `iz_to_z` undoes `z_to_iz` when `atanh` undoes `tanh` |
| Remap.SolNihNoRoundTrip | devmods/solv-table.cpp:200-202 | in Sol-Nih (both flags set) `iz_to_z` does not undo `z_to_iz`: a point with tanh(z) = 1/2 comes back as 0 |
| Remap.SolErrorSymmetric | devmods/solv-table.cpp:45-49 | `solerror` is symmetric, and a point's error against itself is `sqrt(0)` |
| Remap.Can | devmods/solv-table.cpp:142-149 | a point at distance 0 maps to the zero sample |
| Remap.CanFinite | devmods/solv-table.cpp:142-149 | for a real square root and a `tanh` bounded by 1, `can` of any point has finite coordinates |
| Remap.Uncan | devmods/solv-table.cpp:151-158 | for finite samples only: a zero sample maps to the origin; a sample of norm 1 is scaled to distance 30 instead of `atanh(1)` |
| Remap.BisectionBracket | devmods/solv-table.cpp:190-196 | after n steps 0 ≤ minx < maxx ≤ 1 and maxx − minx = 2^−n; minx is 0 or a point where `x_to_ix(atanh(x)) < ix`, maxx is 1 or a point where it is not |
| Remap.BisectionSeparates | devmods/solv-table.cpp:190-196 | if the predicate is monotone, it holds on (0, minx] and fails on [maxx, 1) |
| Remap.IxToX | devmods/solv-table.cpp:190-198 | `ix_to_x` returns `atanh` of the lower end of the bracket after 100 steps |
| Solver.Displaced | devmods/solv-table.cpp:69 | the displaced point `at + c[a] * eps` is `at` with coordinate a increased by eps |
| Solver.NewtonStep | devmods/solv-table.cpp:68-84 | the step is the clamped `inverse(U) * (xp − ver)` with U the forward-difference Jacobian |
| Solver.ClampScales | devmods/solv-table.cpp:84 | clamping multiplies the step by a factor in (0, 1], whatever the square root returns |
| Solver.ClampBounded | devmods/solv-table.cpp:84 | the clamped step has length at most 0.1 and is the raw step scaled by a factor in (0, 1] |
| Solver.TryStepSizes | devmods/solv-table.cpp:86-125 | a step is accepted only with strictly smaller error, at the first of bonus/2^j, j ≤ 10, that gives one; when none is accepted all 11 were tried and failed |
| Solver.PatternBijection | devmods/solv-table.cpp:110-113 | k = 0..26 read as three base-3 digits gives every sign pattern in {−1, 0, 1}³ exactly once |
| Solver.ApplyOffset | devmods/solv-table.cpp:111-113 | the digit loop adds s · pattern(k) to the point |
| Solver.ZeroOffsetNeverAccepted | devmods/solv-table.cpp:110-118 | k = 0 is the zero offset and can never reduce the error |
| Solver.ThresholdCrossing | devmods/solv-table.cpp:109 | 2^−29 is above the threshold 1e-9 and 2^−30 is not |
| Solver.ScaleThreshold | devmods/solv-table.cpp:109 | `abs(s) > 1e-9` holds for s = 2^−n exactly when n < 30, so the fallback tries 30 scales |
| Solver.ScanPatterns | devmods/solv-table.cpp:110-119 | at one scale, the first offset with smaller error is taken; if none is found, all 27 failed |
| Solver.ExhaustiveSearch | devmods/solv-table.cpp:108-121 | the fallback takes the first improving offset in scale-then-pattern order; if there is none, every one of the 30 × 27 offsets failed |
| Solver.IterativeSolve | devmods/solv-table.cpp:51-132 | the error never increases and the accepted errors strictly decrease; a candidate already within `minerr` is returned unchanged; a returned point is within `minerr` or is at most 999 with all 11 step sizes failing; `exit(1)` happens only above 999 after every step size and offset failed |
| Table.CoordsOfIndex | devmods/solv-table.cpp:183-188 | the flat index determines (x, y, z) |
| Table.IndexInRange | devmods/solv-table.cpp:187 | every grid point's index is inside the X·Y·Z samples |
| Table.IndexOfCoords | devmods/solv-table.cpp:187 | every flat position is the index of exactly one grid point |
| Table.GridExtensionality | devmods/solv-table.cpp:187 | two tables agreeing at every grid point are equal |
| Table.Resize | devmods/solv-table.cpp:187 | `resize` keeps the old prefix and fills new samples with zero |
| Table.TabledInverses.constructor | devmods/solv-table.cpp:213 | a new table is empty with zero dimensions |
| Table.TabledInverses.Set | devmods/solv-table.cpp:268-270 | writing a cell changes that cell only |
| Table.TabledInverses.Alloc | devmods/solv-table.cpp:183-188 | `alloc_table` sets the three dimensions and resizes the samples to X·Y·Z |
| Table.Records | devmods/solv-table.cpp:179 | three floats per sample |
| Table.WriteTable | devmods/solv-table.cpp:171-181 | the file is PRECX, PRECY, PRECZ followed by 3·X·Y·Z floats in table order |
| Table.RecordsRoundTrip | devmods/solv-table.cpp:179 | the samples are read back exactly from their floats |
| Table.DecodeRecordsExact | devmods/solv-table.cpp:179 | the float words are exactly the records of the samples read back from them |
| Table.EncodeDecode | devmods/solv-table.cpp:171-181 | reading a written table gives back its dimensions and samples |
| Table.DecodeEncode | devmods/solv-table.cpp:171-181 | every file the reader accepts is the one `write_table` writes for what it reads |
| Extrapolate.PassedAt | devmods/solv-table.cpp:292-308 | each pass's result at (x, y, z) is the per-cell rule of that pass |
| Extrapolate.ZPassed | devmods/solv-table.cpp:292-298 | the Z pass keeps the table size |
| Extrapolate.ZPass | devmods/solv-table.cpp:292-298 | the in-place Z pass leaves exactly the table the Z rule gives: z = last_z (and z = 0 in Nih) of x < last_x, y < last_y becomes 2·prev − prevprev, nothing else changes |
| Extrapolate.ZColumn | devmods/solv-table.cpp:294-297 | one (x, y) column is extrapolated and every other column is unchanged |
| Extrapolate.ZTail | devmods/solv-table.cpp:294-295 | the `z = last_z` loop sets the top sample of one column to 2·prev − prevprev and changes nothing else |
| Extrapolate.YPass | devmods/solv-table.cpp:300-303 | the Y pass writes exactly y = last_y for x < last_x and every z |
| Extrapolate.YRow | devmods/solv-table.cpp:302-303 | one (x, last_y) row is extrapolated and everything else is unchanged |
| Extrapolate.XPass | devmods/solv-table.cpp:305-308 | the X pass writes exactly x = last_x for every y and z |
| Extrapolate.XRow | devmods/solv-table.cpp:306-308 | one (last_x, y) row is extrapolated and everything else is unchanged |
| Extrapolate.ExtrapolateAll | devmods/solv-table.cpp:292-308 | the three passes in order give `Finished` of the solved table |
| Extrapolate.ZPassReadsSolved | devmods/solv-table.cpp:292-298 | with PRECZ ≥ 3 (≥ 4 in Nih), the Z pass's results depend only on solved cells |
| Extrapolate.YPassReadsFilled | devmods/solv-table.cpp:300-303 | the Y pass reads only cells the Z pass or the solver filled |
| Extrapolate.XPassReadsFilled | devmods/solv-table.cpp:305-308 | the X pass reads only cells the earlier passes filled |
| Extrapolate.FinishedDependsOnlyOnSolved | devmods/solv-table.cpp:292-308 | two tables that agree on the solved cells end equal after the three passes, so every index is covered by a solved or extrapolated value |
| Build.Ring | devmods/solv-table.cpp:280-284 | one round of the walk visits, once each, exactly the rectangle cells with max(x, y) = it |
| Build.GrowingSquareOrder | devmods/solv-table.cpp:279-287 | the walk of a slice visits every cell with x < last_x, y < last_y exactly once and nothing else, in rings of nondecreasing max(x, y) |
| Build.BestCandidate | devmods/solv-table.cpp:245-247 | the chosen solution is one of the solved candidates with the least error |
| Build.SolveCandidates | devmods/solv-table.cpp:226-247 | the candidate loop yields a solution no worse than the origin, or the solver's `exit(1)` |
| Build.SolveAt | devmods/solv-table.cpp:219-277 | a solution within 1e-3 is written as `can(cand)` and must be finite (else `exit(4)`); one above 1e-3 leaves the cell unchanged; no other cell changes |
| Build.SolveSlice | devmods/solv-table.cpp:216-288 | slice PRECZ−1 and, in Nih, slice 0 are skipped untouched; otherwise every rectangle cell of the slice ends written or rejected-and-unchanged, and nothing else changes |
| Build.BuildSols | devmods/solv-table.cpp:210-309 | after allocation, each solved cell ends written or rejected, every other cell keeps its allocation value, and on completion the table is the three passes applied to that result; the only exits are 1 and 4 |
| Getter.MidInside | raycaster.cpp:148 | mid = (lo+hi)/2 lies strictly between lo and hi, so `add` terminates |
| Getter.PlanSelects | raycaster.cpp:144-155 | the decision tree for [lo, hi) returns `name[i]` for every i in range |
| Getter.PlanLeaves | raycaster.cpp:144-155 | the tree reads exactly the elements lo, …, hi−1, once each, in order |
| Getter.Add | raycaster.cpp:144-155 | `add` appends the text of the decision tree for [lo, hi) to `tgt` |
| Getter.BuildGetter | raycaster.cpp:157-161 | the getter is the signature line, the tree for [0, index) and a newline; it selects `name[i]` for every i < index and reads exactly 0..index−1 |
| TextureLayout.RowFits | raycaster.cpp:885-886 | at least one cell fits a row, and per_row cells fit in `length` texels |
| TextureLayout.SlotDecode | raycaster.cpp:961 | the cell and direction can be read back from slot u |
| TextureLayout.SlotEncode | raycaster.cpp:961 | every used texel is the slot of the cell and direction read back from it |
| TextureLayout.SlotInjective | raycaster.cpp:961 | distinct (cell, direction) pairs get distinct slots |
| TextureLayout.SlotInRange | raycaster.cpp:954-961 | every slot of a cell id < per_row·rows lies in the `length·rows` texels allocated |
| TextureLayout.RowsHoldAll | raycaster.cpp:920 | if `next_p2(n)` ≥ n, rows·per_row ≥ the number of listed cells |
| TextureLayout.EncAddressesSlot | raycaster.cpp:844-849 | the texel that `enc(id, a)` falls in is column u mod length and row u / length of slot u |
| TextureLayout.EncInUnitSquare | raycaster.cpp:844-849 | `enc` of a listed cell lies strictly inside the unit square |
| Connections.CodeDecodes | raycaster.cpp:1004 | the shader's `int(z * 1024.)` reads back k from (k + .5)/1024 |
| Connections.FirstMatchStable | raycaster.cpp:1001-1006 | appending matrices keeps earlier dedup results valid |
| Connections.FindOrAppend | raycaster.cpp:1001-1006 | k is the first entry `eqmatrix` accepts; otherwise k = old size and the matrix is appended; entries before k are rejected and `ms` grows by at most one |
| Connections.FillCell | raycaster.cpp:959-1007 | after a cell's directions, every earlier direction's three texels hold its entry and every other texel is still blank; `ms` keeps its prefix |
| Connections.FillTextures | raycaster.cpp:954-1008 | the three vectors of `length·rows` texels end with every listed direction filled (out-of-range colour and texture, or connection, wall colour and texture) and every other texel blank |
| Connections.ConnectionLeadsToNeighbour | raycaster.cpp:961-1004 | a link's connection texel addresses the neighbour's first slot, and its z decodes to an `ms` entry for the link's matrix |
| RayModes.AvailableExactly | raycaster.cpp:61-76 | the rule cascade of `available()` as one formula |
| RayModes.RequestedExactly | raycaster.cpp:79-87 | `requested()` holds iff want_use ≠ 0, no texture is active, the raycaster is available, and want_use = 2 or racing or quotient |
| RayModes.CMod | raycaster.cpp:1086 | C's `%` by a positive divisor is a − b·trunc(a/b): within (−b, b), nonnegative for a nonnegative dividend and nonpositive for a negative one |
| RayModes.RaySettings.constructor | raycaster.cpp:23-37 | defaults: want_use 1, 600 and 60 iterations, exponential ranges 4 and 10 |
| RayModes.RaySettings.CycleWantUse | raycaster.cpp:1086 | want_use goes 0 → 1 → 2 → 0, and nothing else changes |
| RayModes.CycleReturns | raycaster.cpp:1086 | three presses bring want_use back |
| RayModes.RaySettings.MaxIterCurrent | raycaster.cpp:46-49 | `max_iter_sol` in nonisotropic geometry, `max_iter_iso` otherwise |
| RayModes.RaySettings.SetMaxIterCurrent | raycaster.cpp:1147 | editing through the returned reference changes only the current geometry's limit |
| RayModes.RaySettings.ExpDecayCurrent | raycaster.cpp:42-44 | `exp_decay_exp` in Sol/Nih or hyperbolic geometry, `exp_decay_poly` otherwise |
| RayModes.RaySettings.SetExpDecayCurrent | raycaster.cpp:1093 | editing through the returned reference changes only the current geometry's range |

## Left out

- Floating-point rounding is left out: `ld` is a real, and `float` is a real with overflow to ±inf only.
- Solver.IterativeSolve: errors are reals, so a NaN error cannot arise. In the code `while(err > minerr)` is false on NaN, so a NaN error returns the candidate at once.
- Build.SolveAt: errors are reals, so the NaN case of `if(xerr > 1e-3)` is not modelled. In the code that test is false on NaN, so a cell whose error is NaN is written with `can(cand)` and is not rejected. With a forward map that returns NaN, the origin is written as (0, 0, 0) and there is no `exit(4)`. The CellWritten guarantee (error at most 1e-3) holds only for non-NaN errors.
- Remap.ZRoundTrip does not cover Sol-Nih. There the error metric compresses Z as in Sol while the targets expand Z as in Nih (Remap.SolNihNoRoundTrip). This changes only how `solerror` weighs Z, not which points the solver aims at.
- Every transcendental function and the numerical exponential map are abstract parameters. So are `x_to_ix` and matrix inversion. Facts about them appear only as a lemma's `requires`.
- Threads and the mutex are left out. `parallelize` is the sequential log of its calls, and workers run one after another. This is enough because they write disjoint slices.
- Logging is left out: `println`, the progress lines and the debug output.
- `max_err` is assigned and never read, so it is not modelled.
- Build.SolveCandidates: the candidate list has only the origin, so the sort over the solved candidates is modelled as picking the least error (Build.BestCandidate).
- Solver.IterativeSolve, Build.SolveAt, Build.SolveSlice and Build.BuildSols take a `fuel` bound on Newton iterations. Over the reals a strictly decreasing error need not reach `minerr`, so the model reports running out of fuel instead of looping.
- Build.BuildSols requires every dimension to be at least 3. With fewer, the source's extrapolation reads outside the table.
- Extrapolate.ZPassReadsSolved and Extrapolate.FinishedDependsOnlyOnSolved require PRECZ ≥ 4 in Nih. With PRECZ = 3 the Z pass there reads slice 0, which holds its allocation value.
- `uncan_info` is left out: it is `uncan` with logging. `ptd` is also left out; it is not used.
- `readArgs`, the command line and file I/O are left out. `write_table` returns its words instead of writing a file.
- 32-bit `int` overflow of the dimensions and indices is not modelled.
- The fourth (w) coordinate of points is not modelled.
- In `raycaster.cpp`, GLSL generation and OpenGL calls are left out. So are the cell lister, `ids`, and the colour, darkening and texture choices of a wall. Each direction of a listed cell is given with the values that code computes (`Connections.Link`).
- Connections assumes every listed cell has at most `deg` directions (`WellFormed`). The code sets `deg` from the tiling's rank and does not check any cell's type against it.
- TextureLayout.SlotDecode, SlotEncode and SlotInjective are stated with Euclidean `/` and `%`. They match the code's truncating arithmetic only for nonnegative cell ids, and ids are always nonnegative.
- Remap.Uncan requires a finite sample. The code also accepts infinite or NaN samples, but it calls `uncan` only from code that is commented out.
- `eqmatrix` is an abstract equality. `next_p2` is a parameter.
- Assigning `Id` to `ms[S7]` and `ms[S7+1]` after the fill loop in product geometry is not modelled.
- `glhr::acolor` and `glhr::makevertex` are taken to scale RGBA bytes by 1/255 and to set w = 1, respectively. `glhr` is not part of this model.
- The reflection matrices pushed when `reflect_val` is set are not modelled. `ms` is an input sequence.
- The configuration dialog is modelled only through the `want_use` cycle and the two `*_current` settings.
