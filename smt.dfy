/** The fragment of the solver's input language the encoders build: linear
    real terms, integer terms with `If(c, 1, 0)` indicators and `Sum`, the
    comparisons, `And`, `Not` and `Implies`; what an assignment of values to
    the symbolic variables makes true; and the append-only constraint store
    that stands for the solver object. */
module Smt {

  /** A symbolic variable. Features are `Named` by their column; the encoders'
      bookkeeping variables are `Indexed` (`out_3` is `Indexed("out", [3])`,
      `ind_1_1_2` is `Indexed("ind", [1, 1, 2])`). */
  datatype Var = Named(name: string) | Indexed(base: string, index: seq<int>)

  datatype Rel = Lt | Le | Gt | Ge | Eq

  predicate Compare(rel: Rel, x: real, y: real)
  {
    match rel
    case Lt => x < y
    case Le => x <= y
    case Gt => x > y
    case Ge => x >= y
    case Eq => x == y
  }

  datatype RealTerm =
    | RVar(v: Var)
    | RConst(c: real)
    | RAdd(left: RealTerm, right: RealTerm)
    | RSub(left: RealTerm, right: RealTerm)
    | RMul(coefficient: real, factor: RealTerm)
    | RSum(terms: seq<RealTerm>)

  datatype IntTerm =
    | IVar(v: Var)
    | IConst(c: int)
    | IIte(cond: Formula, yes: int, no: int)   // If(cond, yes, no)
    | ISum(terms: seq<IntTerm>)

  datatype Formula =
    | FTrue
    | BVar(v: Var)
    | RCmp(rel: Rel, lhs: RealTerm, rhs: RealTerm)
    | ICmp(irel: Rel, ilhs: IntTerm, irhs: IntTerm)
    | And(conjuncts: seq<Formula>)
    | Not(body: Formula)
    | Implies(premise: Formula, conclusion: Formula)

  /** A value for every real, integer and Boolean variable (a solver model). */
  datatype Assignment = Assignment(reals: Var -> real, ints: Var -> int, bools: Var -> bool)
  {
    /** The same assignment with the integer variable `v` set to `x`. */
    function WithInt(v: Var, x: int): Assignment
    {
      Assignment(reals, w => if w == v then x else ints(w), bools)
    }
  }

  function EvalReal(t: RealTerm, a: Assignment): real
  {
    match t
    case RVar(v) => a.reals(v)
    case RConst(c) => c
    case RAdd(l, r) => EvalReal(l, a) + EvalReal(r, a)
    case RSub(l, r) => EvalReal(l, a) - EvalReal(r, a)
    case RMul(k, f) => k * EvalReal(f, a)
    case RSum(ts) => SumReals(ts, a)
  }

  function SumReals(ts: seq<RealTerm>, a: Assignment): real
  {
    if ts == [] then 0.0 else EvalReal(ts[0], a) + SumReals(ts[1..], a)
  }

  function EvalInt(t: IntTerm, a: Assignment): int
  {
    match t
    case IVar(v) => a.ints(v)
    case IConst(c) => c
    case IIte(c, y, n) => if Holds(c, a) then y else n
    case ISum(ts) => SumInts(ts, a)
  }

  function SumInts(ts: seq<IntTerm>, a: Assignment): int
  {
    if ts == [] then 0 else EvalInt(ts[0], a) + SumInts(ts[1..], a)
  }

  /** The truth value of a formula under an assignment. */
  predicate Holds(f: Formula, a: Assignment)
  {
    match f
    case FTrue => true
    case BVar(v) => a.bools(v)
    case RCmp(rel, l, r) => Compare(rel, EvalReal(l, a), EvalReal(r, a))
    case ICmp(rel, l, r) => Compare(rel, EvalInt(l, a) as real, EvalInt(r, a) as real)
    case And(fs) => forall k | 0 <= k < |fs| :: Holds(fs[k], a)
    case Not(g) => !Holds(g, a)
    case Implies(p, q) => Holds(p, a) ==> Holds(q, a)
  }

  /** An assignment satisfies a list of constraints when it satisfies each one. */
  predicate AllHold(cs: seq<Formula>, a: Assignment)
  {
    forall k | 0 <= k < |cs| :: Holds(cs[k], a)
  }

  lemma AllHoldAppend(cs: seq<Formula>, ds: seq<Formula>, a: Assignment)
    ensures AllHold(cs + ds, a) <==> AllHold(cs, a) && AllHold(ds, a)
  {
    if AllHold(cs, a) && AllHold(ds, a) {
      forall k | 0 <= k < |cs + ds| ensures Holds((cs + ds)[k], a) {
        if k >= |cs| {
          assert (cs + ds)[k] == ds[k - |cs|];
        }
      }
    }
    if AllHold(cs + ds, a) {
      forall k | 0 <= k < |cs| ensures Holds(cs[k], a) {
        assert (cs + ds)[k] == cs[k];
      }
      forall k | 0 <= k < |ds| ensures Holds(ds[k], a) {
        assert (cs + ds)[|cs| + k] == ds[k];
      }
    }
  }

  /** The solver object, seen as the list of constraints added to it so far. */
  class ConstraintStore {
    var constraints: seq<Formula>

    constructor ()
      ensures constraints == []
    {
      constraints := [];
    }

    /** `solver.add(f)` */
    method Add(f: Formula)
      modifies this
      ensures constraints == old(constraints) + [f]
    {
      constraints := constraints + [f];
    }

    /** True when `a` is a model of every constraint added so far. */
    predicate SatisfiedBy(a: Assignment)
      reads this
    {
      AllHold(constraints, a)
    }
  }
}
