/** The epsilon-box around the reference input (the pre-constraints) and the
    "class differs from the reference" post-constraint, which all encoders
    share. */
module Neighbourhood {
  import opened Smt

  /** The one-row reference input: every feature column with its value, in
      column order, and its label `truth`, held in the last column. */
  datatype Reference<L> = Reference(columns: seq<(string, real)>, truth: L)
  {
    /** The feature column names, `ref_input.columns[:-1]`. */
    function Features(): (fs: seq<string>)
      ensures |fs| == |columns|
      ensures forall k :: 0 <= k < |columns| ==> fs[k] == columns[k].0
    {
      seq(|columns|, k requires 0 <= k < |columns| => columns[k].0)
    }
  }

  /** The solver variable `X[f]` of feature `f`. */
  function FeatureVar(f: string): Var
  {
    Named(f)
  }

  /** Every feature lies within `eps` of its reference value. */
  predicate InBox(columns: seq<(string, real)>, eps: real, a: Assignment)
  {
    forall k | 0 <= k < |columns| ::
      columns[k].1 - eps <= a.reals(FeatureVar(columns[k].0)) <= columns[k].1 + eps
  }

  /** `X[feature] <= R[feature] + epsilon` */
  function UpperBound(column: (string, real), eps: real): Formula
  {
    RCmp(Le, RVar(FeatureVar(column.0)), RAdd(RConst(column.1), RConst(eps)))
  }

  /** `R[feature] - epsilon <= X[feature]` */
  function LowerBound(column: (string, real), eps: real): Formula
  {
    RCmp(Le, RSub(RConst(column.1), RConst(eps)), RVar(FeatureVar(column.0)))
  }

  lemma BoundsMeaning(column: (string, real), eps: real, a: Assignment)
    ensures AllHold([UpperBound(column, eps), LowerBound(column, eps)], a)
      <==> column.1 - eps <= a.reals(FeatureVar(column.0)) <= column.1 + eps
  {
    var x := RVar(FeatureVar(column.0));
    assert EvalReal(x, a) == a.reals(FeatureVar(column.0));
    assert EvalReal(RAdd(RConst(column.1), RConst(eps)), a) == column.1 + eps;
    assert EvalReal(RSub(RConst(column.1), RConst(eps)), a) == column.1 - eps;
    var cs := [UpperBound(column, eps), LowerBound(column, eps)];
    assert AllHold(cs, a) <==> Holds(cs[0], a) && Holds(cs[1], a);
  }

  /** The constraints `add_pre` adds, two per feature in column order; an
      assignment satisfies them exactly when it lies in the epsilon-box. */
  function PreConstraints(columns: seq<(string, real)>, eps: real): (cs: seq<Formula>)
    ensures |cs| == 2 * |columns|
    ensures forall a :: AllHold(cs, a) <==> InBox(columns, eps, a)
  {
    if columns == [] then []
    else
      var n := |columns| - 1;
      var init := PreConstraints(columns[..n], eps);
      var cs := init + [UpperBound(columns[n], eps), LowerBound(columns[n], eps)];
      assert forall a :: AllHold(cs, a) <==> InBox(columns, eps, a) by {
        forall a ensures AllHold(cs, a) <==> InBox(columns, eps, a) {
          AllHoldAppend(init, [UpperBound(columns[n], eps), LowerBound(columns[n], eps)], a);
          BoundsMeaning(columns[n], eps, a);
          assert InBox(columns, eps, a) <==> (InBox(columns[..n], eps, a)
            && columns[n].1 - eps <= a.reals(FeatureVar(columns[n].0)) <= columns[n].1 + eps);
        }
      }
      cs
  }

  /** `add_pre`: for each feature, the upper then the lower bound. */
  method AddPre(store: ConstraintStore, columns: seq<(string, real)>, eps: real)
    modifies store
    ensures store.constraints == old(store.constraints) + PreConstraints(columns, eps)
  {
    var k := 0;
    while k < |columns|
      invariant 0 <= k <= |columns|
      invariant store.constraints == old(store.constraints) + PreConstraints(columns[..k], eps)
    {
      store.Add(UpperBound(columns[k], eps));
      store.Add(LowerBound(columns[k], eps));
      assert columns[..k + 1][..k] == columns[..k];
      k := k + 1;
    }
    assert columns[..k] == columns;
  }

  /** `Not(out == O)`: it holds exactly when the output differs from `o`. */
  function PostConstraint(out: Var, o: int): (f: Formula)
    ensures forall a :: Holds(f, a) <==> a.ints(out) != o
  {
    var f := Not(ICmp(Eq, IVar(out), IConst(o)));
    assert forall a :: Holds(f, a) <==> a.ints(out) != o by {
      forall a ensures Holds(f, a) <==> a.ints(out) != o {
        assert Holds(f, a) <==> !Holds(ICmp(Eq, IVar(out), IConst(o)), a);
        assert EvalInt(IVar(out), a) == a.ints(out) && EvalInt(IConst(o), a) == o;
        assert (a.ints(out) as real == o as real) <==> a.ints(out) == o;
      }
    }
    f
  }

  /** `add_post` */
  method AddPost(store: ConstraintStore, out: Var, o: int)
    modifies store
    ensures store.constraints == old(store.constraints) + [PostConstraint(out, o)]
  {
    store.Add(PostConstraint(out, o));
  }
}
