/** The voting encoding shared by the random-forest and the multiclass SVM
    encoders: Boolean indicators tied to a condition (`ind == If(c, 1, 0)`),
    vote counters (`count == Sum(inds)`, each indicator counting 1 when true)
    and the max-count rule that sends the output to the class whose counter is
    at least every other counter. */
module Voting {
  import opened Smt

  /** `If(c, 1, 0)` */
  function Indicator(c: Formula): IntTerm
  {
    IIte(c, 1, 0)
  }

  /** `ind == If(cond, 1, 0)` with a Boolean `ind`: the solver reads the
      Boolean as `If(ind, 1, 0)`, so the constraint ties the indicator to the
      condition. */
  function IndicatorLink(ind: Var, cond: Formula): (f: Formula)
    ensures forall a :: Holds(f, a) <==> (a.bools(ind) <==> Holds(cond, a))
  {
    var f := ICmp(Eq, Indicator(BVar(ind)), Indicator(cond));
    assert forall a :: EvalInt(Indicator(BVar(ind)), a) == (if a.bools(ind) then 1 else 0);
    f
  }

  /** Each indicator as an integer term. */
  function Indicators(inds: seq<Var>): (ts: seq<IntTerm>)
    ensures |ts| == |inds|
  {
    if inds == [] then [] else [Indicator(BVar(inds[0]))] + Indicators(inds[1..])
  }

  /** How many of the indicators are true. */
  function TrueCount(a: Assignment, inds: seq<Var>): (n: nat)
    ensures n <= |inds|
  {
    if inds == [] then 0 else (if a.bools(inds[0]) then 1 else 0) + TrueCount(a, inds[1..])
  }

  lemma {:induction false} SumIndicators(a: Assignment, inds: seq<Var>)
    ensures SumInts(Indicators(inds), a) == TrueCount(a, inds)
  {
    if inds != [] {
      var ts := Indicators(inds);
      assert ts[0] == Indicator(BVar(inds[0])) && ts[1..] == Indicators(inds[1..]);
      assert EvalInt(ts[0], a) == if a.bools(inds[0]) then 1 else 0;
      assert SumInts(ts, a) == EvalInt(ts[0], a) + SumInts(ts[1..], a);
      SumIndicators(a, inds[1..]);
    }
  }

  lemma {:induction false} TrueCountSnoc(a: Assignment, inds: seq<Var>, v: Var)
    ensures TrueCount(a, inds + [v]) == TrueCount(a, inds) + (if a.bools(v) then 1 else 0)
  {
    if inds == [] {
      assert inds + [v] == [v] && [v][1..] == [];
    } else {
      assert (inds + [v])[0] == inds[0] && (inds + [v])[1..] == inds[1..] + [v];
      TrueCountSnoc(a, inds[1..], v);
    }
  }

  /** `count == Sum(inds)`; an empty list sums to the constant 0. */
  function CountConstraint(count: Var, inds: seq<Var>): (f: Formula)
    ensures forall a :: Holds(f, a) <==> a.ints(count) == TrueCount(a, inds)
  {
    var f := ICmp(Eq, IVar(count), if inds == [] then IConst(0) else ISum(Indicators(inds)));
    assert forall a :: Holds(f, a) <==> a.ints(count) == TrueCount(a, inds) by {
      forall a ensures Holds(f, a) <==> a.ints(count) == TrueCount(a, inds) {
        SumIndicators(a, inds);
        assert EvalInt(IVar(count), a) == a.ints(count);
      }
    }
    f
  }

  /** `count[i] >= count[j]` for every `j < m` other than `i`, in order. */
  function Dominance(counts: seq<Var>, i: nat, m: nat): (cs: seq<Formula>)
    requires i < |counts| && m <= |counts|
    ensures forall a :: AllHold(cs, a) <==>
      forall j :: 0 <= j < m && j != i ==> a.ints(counts[i]) >= a.ints(counts[j])
  {
    if m == 0 then []
    else
      var init := Dominance(counts, i, m - 1);
      var last := if m - 1 != i then [ICmp(Ge, IVar(counts[i]), IVar(counts[m - 1]))] else [];
      assert forall a :: AllHold(init + last, a) <==>
        forall j :: 0 <= j < m && j != i ==> a.ints(counts[i]) >= a.ints(counts[j]) by {
        forall a ensures AllHold(init + last, a) <==>
          forall j :: 0 <= j < m && j != i ==> a.ints(counts[i]) >= a.ints(counts[j]) {
          AllHoldAppend(init, last, a);
          if m - 1 != i {
            assert last[0] == ICmp(Ge, IVar(counts[i]), IVar(counts[m - 1]));
            assert EvalInt(IVar(counts[i]), a) == a.ints(counts[i]);
            assert EvalInt(IVar(counts[m - 1]), a) == a.ints(counts[m - 1]);
            assert AllHold(last, a) <==> a.ints(counts[i]) >= a.ints(counts[m - 1]);
          }
        }
      }
      init + last
  }

  /** Counter `i` is at least every counter. */
  predicate IsMaximal(a: Assignment, counts: seq<Var>, i: nat)
    requires i < |counts|
  {
    forall j :: 0 <= j < |counts| ==> a.ints(counts[j]) <= a.ints(counts[i])
  }

  /** `Implies(And([count[i] >= count[j] for j != i]), out == i)` */
  function MaxRule(counts: seq<Var>, out: Var, i: nat): (f: Formula)
    requires i < |counts|
    ensures forall a :: Holds(f, a) <==> (IsMaximal(a, counts, i) ==> a.ints(out) == i)
  {
    var f := Implies(And(Dominance(counts, i, |counts|)), ICmp(Eq, IVar(out), IConst(i)));
    assert forall a :: Holds(f, a) <==> (IsMaximal(a, counts, i) ==> a.ints(out) == i) by {
      forall a ensures Holds(f, a) <==> (IsMaximal(a, counts, i) ==> a.ints(out) == i) {
        assert EvalInt(IVar(out), a) == a.ints(out);
        assert Holds(ICmp(Eq, IVar(out), IConst(i)), a) <==> a.ints(out) == i;
        assert Holds(And(Dominance(counts, i, |counts|)), a) <==> AllHold(Dominance(counts, i, |counts|), a);
        assert IsMaximal(a, counts, i) <==>
          forall j :: 0 <= j < |counts| && j != i ==> a.ints(counts[i]) >= a.ints(counts[j]);
      }
    }
    f
  }

  /** The max-count rules for classes `0 .. m-1`, in class order. */
  function MaxCountRules(counts: seq<Var>, out: Var, m: nat): (cs: seq<Formula>)
    requires m <= |counts|
    ensures |cs| == m
  {
    if m == 0 then [] else MaxCountRules(counts, out, m - 1) + [MaxRule(counts, out, m - 1)]
  }

  lemma {:induction false} MaxCountRulesAt(counts: seq<Var>, out: Var, m: nat, k: nat)
    requires m <= |counts| && k < m
    ensures MaxCountRules(counts, out, m)[k] == MaxRule(counts, out, k)
  {
    if k < m - 1 {
      MaxCountRulesAt(counts, out, m - 1, k);
    }
  }

  /** The max-count rules hold exactly when every class whose counter is
      maximal is the output. */
  lemma MaxCountRulesMeaning(counts: seq<Var>, out: Var, a: Assignment)
    ensures AllHold(MaxCountRules(counts, out, |counts|), a)
      <==> forall i :: 0 <= i < |counts| && IsMaximal(a, counts, i) ==> a.ints(out) == i
  {
    var cs := MaxCountRules(counts, out, |counts|);
    if AllHold(cs, a) {
      forall i | 0 <= i < |counts| && IsMaximal(a, counts, i) ensures a.ints(out) == i {
        MaxCountRulesAt(counts, out, |counts|, i);
        assert Holds(cs[i], a);
      }
    }
    if forall i :: 0 <= i < |counts| && IsMaximal(a, counts, i) ==> a.ints(out) == i {
      forall k | 0 <= k < |cs| ensures Holds(cs[k], a) {
        MaxCountRulesAt(counts, out, |counts|, k);
      }
    }
  }

  /** The loop that adds one max-count rule per class. */
  method AddMaxCount(store: ConstraintStore, counts: seq<Var>, out: Var)
    modifies store
    ensures store.constraints == old(store.constraints) + MaxCountRules(counts, out, |counts|)
  {
    var i := 0;
    while i < |counts|
      invariant 0 <= i <= |counts|
      invariant store.constraints == old(store.constraints) + MaxCountRules(counts, out, i)
    {
      store.Add(MaxRule(counts, out, i));
      i := i + 1;
    }
  }

  /** A class with the largest counter among the first `m` classes. */
  function ArgMax(a: Assignment, counts: seq<Var>, m: nat): (k: nat)
    requires 0 < m <= |counts|
    ensures k < m
    ensures forall j :: 0 <= j < m ==> a.ints(counts[j]) <= a.ints(counts[k])
  {
    if m == 1 then 0
    else
      var k := ArgMax(a, counts, m - 1);
      if a.ints(counts[m - 1]) > a.ints(counts[k]) then m - 1 else k
  }

  /** With at least one class, the max-count rules hold exactly when the
      output is a class whose counter is strictly larger than every other
      counter: the output is the plurality winner, and when two classes share
      the largest count no output value satisfies the rules. */
  lemma MaxCountOutcome(counts: seq<Var>, out: Var, a: Assignment)
    requires |counts| > 0
    ensures AllHold(MaxCountRules(counts, out, |counts|), a) <==>
      && 0 <= a.ints(out) < |counts|
      && forall j :: 0 <= j < |counts| && j != a.ints(out) ==>
           a.ints(counts[j]) < a.ints(counts[a.ints(out)])
  {
    MaxCountRulesMeaning(counts, out, a);
    var o := a.ints(out);
    if AllHold(MaxCountRules(counts, out, |counts|), a) {
      var m := ArgMax(a, counts, |counts|);
      assert IsMaximal(a, counts, m);
      assert o == m;
      forall j | 0 <= j < |counts| && j != o ensures a.ints(counts[j]) < a.ints(counts[o]) {
        if a.ints(counts[j]) >= a.ints(counts[o]) {
          assert IsMaximal(a, counts, j);
        }
      }
    }
  }

  /** Two distinct classes that both reach the largest count leave no output
      value that satisfies the max-count rules. */
  lemma TiedMaximumInfeasible(counts: seq<Var>, out: Var, a: Assignment, i: nat, j: nat)
    requires i < |counts| && j < |counts| && i != j
    requires IsMaximal(a, counts, i) && IsMaximal(a, counts, j)
    ensures !AllHold(MaxCountRules(counts, out, |counts|), a)
  {
    MaxCountRulesMeaning(counts, out, a);
  }
}
