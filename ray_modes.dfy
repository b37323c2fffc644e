/** When the raycaster is used, and which of its per-geometry settings the
    configuration dialog shows and edits. */
module RayModes {

  /** The projection model, as far as the raycaster cares. */
  datatype Projection = Perspective | Geodesic | OtherProjection

  /** What `available` and `requested` read from the running program. */
  datatype Env = Env(
    noGUI: bool,           // built without a GUI
    usingGL: bool,         // rendering through OpenGL
    wdim: int,             // dimension of the world
    hyperbolic: bool,
    euclid: bool,
    nil: bool,
    solnih: bool,          // `sn::in()`: Sol, Nih or Sol-Nih
    prod: bool,            // a product geometry
    pure: bool,            // the pure (unmodified) tiling
    kite: bool,            // the kite-and-dart tiling
    binaryTiling: bool,    // `bt::in()`
    s7: int,               // the rank of the tiling
    pmodel: Projection,
    textureActive: bool,   // a texture is being drawn
    racing: bool,          // racing mode
    quotient: bool         // a quotient space
  )

  /** `available()`: the rules in order, the first that applies decides. */
  predicate Available(e: Env) {
    if e.noGUI then false
    else if !e.usingGL then false
    else if e.wdim == 2 then false
    else if e.hyperbolic && e.pmodel == Perspective && !e.kite then true
    else if e.nil && e.s7 == 8 then false
    else if (e.solnih || e.nil) && e.pmodel == Geodesic then true
    else if e.euclid && e.pmodel == Perspective && !e.binaryTiling then true
    else if e.prod && e.pure then true
    else false
  }

  /** The cases in which the raycaster is available, as one formula: a GL
      window of a 3D world, in a hyperbolic perspective view (not of the kite
      tiling), or, unless it is Nil with rank 8, a geodesic view of
      Sol/Nih/Nil, a Euclidean perspective view (not binary tiling), or a
      pure product geometry. */
  lemma AvailableExactly(e: Env)
    ensures Available(e) <==>
      && !e.noGUI && e.usingGL && e.wdim != 2
      && (|| (e.hyperbolic && e.pmodel == Perspective && !e.kite)
          || (!(e.nil && e.s7 == 8) &&
              (|| ((e.solnih || e.nil) && e.pmodel == Geodesic)
               || (e.euclid && e.pmodel == Perspective && !e.binaryTiling)
               || (e.prod && e.pure))))
  {
  }

  /** `requested()`: not when switched off, not while a texture is drawn, not
      when unavailable; always when switched on; in the "smart" setting 1
      only for racing and quotient spaces. */
  predicate Requested(wantUse: int, e: Env) {
    if wantUse == 0 then false
    else if e.textureActive then false
    else if !Available(e) then false
    else if wantUse == 2 then true
    else e.racing || e.quotient
  }

  /** The raycaster is requested exactly when it is available, no texture is
      drawn, and it is either switched on or in the smart setting for a
      racing or quotient space. */
  lemma RequestedExactly(wantUse: int, e: Env)
    ensures Requested(wantUse, e) <==>
      wantUse != 0 && !e.textureActive && Available(e) && (wantUse == 2 || e.racing || e.quotient)
  {
  }

  /** C's `%` on `int`: `a - b * trunc(a / b)`, so the remainder takes the
      sign of the dividend. */
  function CMod(a: int, b: int): (r: int)
    requires b > 0
    ensures -b < r < b
    ensures a >= 0 ==> 0 <= r && r == a - b * (a / b)
    ensures a < 0 ==> r <= 0 && r == a + b * ((-a) / b)
  {
    if a >= 0 then a % b else -((-a) % b)
  }

  /** The raycaster's settings that the dialog edits. */
  class RaySettings {
    var wantUse: int
    var maxIterSol: int
    var maxIterIso: int
    var expDecayExp: real
    var expDecayPoly: real

    /** The defaults: smart setting, 600 steps in nonisotropic geometries
        and 60 in the others, exponential ranges 4 and 10. */
    constructor ()
      ensures wantUse == 1 && maxIterSol == 600 && maxIterIso == 60
      ensures expDecayExp == 4.0 && expDecayPoly == 10.0
    {
      wantUse := 1;
      maxIterSol, maxIterIso := 600, 60;
      expDecayExp, expDecayPoly := 4.0, 10.0;
    }

    /** The dialog's "use raycasting?" action: `want_use++; want_use %= 3;`. */
    method CycleWantUse()
      modifies this
      ensures wantUse == CMod(old(wantUse) + 1, 3)
      ensures 0 <= old(wantUse) <= 2 ==> 0 <= wantUse <= 2
      ensures old(wantUse) == 0 ==> wantUse == 1
      ensures old(wantUse) == 1 ==> wantUse == 2
      ensures old(wantUse) == 2 ==> wantUse == 0
      ensures maxIterSol == old(maxIterSol) && maxIterIso == old(maxIterIso)
      ensures expDecayExp == old(expDecayExp) && expDecayPoly == old(expDecayPoly)
    {
      wantUse := wantUse + 1;
      wantUse := CMod(wantUse, 3);
    }

    /** `max_iter_current()`: the step limit of the current geometry. */
    function MaxIterCurrent(nonisotropic: bool): (r: int)
      reads this
      ensures r == maxIterSol <== nonisotropic
      ensures r == maxIterIso <== !nonisotropic
    {
      if nonisotropic then maxIterSol else maxIterIso
    }

    /** Editing through the reference `max_iter_current()` returns: exactly
        the current geometry's limit changes. */
    method SetMaxIterCurrent(nonisotropic: bool, v: int)
      modifies this
      ensures MaxIterCurrent(nonisotropic) == v
      ensures nonisotropic ==> maxIterIso == old(maxIterIso)
      ensures !nonisotropic ==> maxIterSol == old(maxIterSol)
      ensures wantUse == old(wantUse) && expDecayExp == old(expDecayExp) && expDecayPoly == old(expDecayPoly)
    {
      if nonisotropic {
        maxIterSol := v;
      } else {
        maxIterIso := v;
      }
    }

    /** `exp_decay_current()`: the exponential range used in Sol/Nih and
        hyperbolic geometry, the polynomial one elsewhere. */
    function ExpDecayCurrent(solnih: bool, hyperbolic: bool): (r: real)
      reads this
      ensures r == expDecayExp <== solnih || hyperbolic
      ensures r == expDecayPoly <== !(solnih || hyperbolic)
    {
      if solnih || hyperbolic then expDecayExp else expDecayPoly
    }

    /** Editing through the reference `exp_decay_current()` returns. */
    method SetExpDecayCurrent(solnih: bool, hyperbolic: bool, v: real)
      modifies this
      ensures ExpDecayCurrent(solnih, hyperbolic) == v
      ensures solnih || hyperbolic ==> expDecayPoly == old(expDecayPoly)
      ensures !(solnih || hyperbolic) ==> expDecayExp == old(expDecayExp)
      ensures wantUse == old(wantUse) && maxIterSol == old(maxIterSol) && maxIterIso == old(maxIterIso)
    {
      if solnih || hyperbolic {
        expDecayExp := v;
      } else {
        expDecayPoly := v;
      }
    }
  }

  /** Three presses of the dialog action bring every setting back. */
  lemma CycleReturns(w: int)
    requires 0 <= w <= 2
    ensures CMod(CMod(CMod(w + 1, 3) + 1, 3) + 1, 3) == w
  {
  }
}
