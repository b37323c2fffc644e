/** The array getters of the GLES shaders: `build_getter` writes a function
    `get_<name>(int i)` that returns `name[i]` through a balanced tree of
    comparisons, because those shaders cannot index a uniform array by a
    variable.  `add` writes the tree for indices [lo, hi). */
module Getter {

  /** C's `/` on `int`: the quotient truncated toward zero. */
  function CDiv(a: int, b: int): int
    requires b > 0
  {
    if a >= 0 then a / b else -((-a) / b)
  }

  /** The split point `add` uses lies strictly inside every range of two or
      more indices, so both halves are smaller. */
  lemma MidInside(lo: int, hi: int)
    requires lo + 1 < hi
    ensures lo < CDiv(lo + hi, 2) < hi
  {
  }

  /** The decision tree written into the shader. */
  datatype Tree = Leaf(index: int) | Split(mid: int, below: Tree, above: Tree)

  /** The tree `add(tgt, type, name, lo, hi)` writes. */
  function Plan(lo: int, hi: int): Tree
    requires lo < hi
    decreases hi - lo
  {
    if lo + 1 == hi then Leaf(lo)
    else
      MidInside(lo, hi);
      var mid := CDiv(lo + hi, 2);
      Split(mid, Plan(lo, mid), Plan(mid, hi))
  }

  /** What the generated getter returns for `i`: the index of the array
      element it reads. */
  function Select(t: Tree, i: int): int {
    match t
    case Leaf(k) => k
    case Split(mid, below, above) => if i < mid then Select(below, i) else Select(above, i)
  }

  /** The array elements the getter can return, left to right. */
  function Leaves(t: Tree): seq<int> {
    match t
    case Leaf(k) => [k]
    case Split(_, below, above) => Leaves(below) + Leaves(above)
  }

  /** The getter for [lo, hi) returns `name[i]` for every i in the range. */
  lemma {:induction false} PlanSelects(lo: int, hi: int, i: int)
    requires lo <= i < hi
    ensures Select(Plan(lo, hi), i) == i
    decreases hi - lo
  {
    if lo + 1 < hi {
      MidInside(lo, hi);
      var mid := CDiv(lo + hi, 2);
      if i < mid {
        PlanSelects(lo, mid, i);
      } else {
        PlanSelects(mid, hi, i);
      }
    }
  }

  /** The getter for [lo, hi) reads exactly the elements lo, ..., hi - 1,
      each once, in order. */
  lemma {:induction false} PlanLeaves(lo: int, hi: int)
    requires lo < hi
    ensures Leaves(Plan(lo, hi)) == seq(hi - lo, k => lo + k)
    decreases hi - lo
  {
    if lo + 1 < hi {
      MidInside(lo, hi);
      var mid := CDiv(lo + hi, 2);
      PlanLeaves(lo, mid);
      PlanLeaves(mid, hi);
      assert seq(hi - lo, k => lo + k) == seq(mid - lo, k => lo + k) + seq(hi - mid, k => mid + k);
    }
  }

  function DigitChar(d: int): char
    requires 0 <= d < 10
  {
    "0123456789"[d]
  }

  /** `its`: the decimal text of an integer. */
  function Its(n: int): string
    decreases if n < 0 then 1 - n else n
  {
    if n < 0 then "-" + Its(-n)
    else if n < 10 then [DigitChar(n)]
    else Its(n / 10) + [DigitChar(n % 10)]
  }

  /** The shader text of a tree. */
  function Render(name: string, t: Tree): string {
    match t
    case Leaf(k) => "{ return " + name + "[" + Its(k) + "]; }"
    case Split(mid, below, above) =>
      "{ if(i<" + Its(mid) + ") " + Render(name, below) + " else " + Render(name, above) + " }"
  }

  /** `add(tgt, type, name, lo, hi)`: appends the getter body for [lo, hi) to
      `tgt`, returned as `out`. */
  method Add(tgt: string, name: string, lo: int, hi: int) returns (out: string)
    requires lo < hi
    ensures out == tgt + Render(name, Plan(lo, hi))
    decreases hi - lo
  {
    out := tgt;
    if lo + 1 == hi {
      out := out + "{ return " + name + "[" + Its(lo) + "]; }";
    } else {
      MidInside(lo, hi);
      var mid := CDiv(lo + hi, 2);
      out := out + "{ if(i<" + Its(mid) + ") ";
      out := Add(out, name, lo, mid);
      out := out + " else ";
      out := Add(out, name, mid, hi);
      out := out + " }";
    }
  }

  /** The signature line of a getter. */
  function Signature(ty: string, name: string): string {
    ty + " get_" + name + "(int i) \n"
  }

  /** `build_getter(type, name, index)`: the signature line, the body for
      indices [0, index), and a newline. */
  method BuildGetter(ty: string, name: string, index: int) returns (s: string)
    requires index >= 1
    ensures s == Signature(ty, name) + Render(name, Plan(0, index)) + "\n"
    ensures forall i :: 0 <= i < index ==> Select(Plan(0, index), i) == i
    ensures Leaves(Plan(0, index)) == seq(index, k => k)
  {
    s := Signature(ty, name);
    s := Add(s, name, 0, index);
    s := s + "\n";
    forall i | 0 <= i < index
      ensures Select(Plan(0, index), i) == i
    {
      PlanSelects(0, index, i);
    }
    PlanLeaves(0, index);
  }
}
