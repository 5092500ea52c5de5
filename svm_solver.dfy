/** The support-vector-machine encoders. The binary one ties the output to
    the sign of one linear score. The multiclass one is one-vs-one: a score
    `Y_i_j` per pair of classes `1 <= i < j <= n` taken from the coefficient
    table row by row, a win indicator for each side of each pair, a win
    counter per class and the max-count rule for the output. */
module Svm {
  import opened Wrappers
  import opened Smt
  import opened ClassMapping
  import opened Neighbourhood
  import opened Voting

  /** The output variable `out` of both encoders. */
  const Out: Var := Named("out")

  // ---------------------------------------------------------------------
  // Linear scores

  /** `Sum([value * X[column] for column, value in weights])` */
  function LinearTerm(weights: seq<(string, real)>): RealTerm
  {
    RSum(seq(|weights|, k requires 0 <= k < |weights| => RMul(weights[k].1, RVar(FeatureVar(weights[k].0)))))
  }

  /** The value of a weighted sum of features under `a`. */
  function LinearValue(weights: seq<(string, real)>, a: Assignment): real
  {
    if weights == [] then 0.0
    else weights[0].1 * a.reals(FeatureVar(weights[0].0)) + LinearValue(weights[1..], a)
  }

  lemma {:induction false} LinearTermValue(weights: seq<(string, real)>, a: Assignment)
    ensures EvalReal(LinearTerm(weights), a) == LinearValue(weights, a)
  {
    var ts := LinearTerm(weights).terms;
    assert EvalReal(LinearTerm(weights), a) == SumReals(ts, a);
    if weights != [] {
      LinearTermValue(weights[1..], a);
      assert ts[1..] == LinearTerm(weights[1..]).terms;
      assert EvalReal(ts[0], a) == weights[0].1 * a.reals(FeatureVar(weights[0].0));
    }
  }

  // ---------------------------------------------------------------------
  // The binary classifier

  /** `w[i]` paired with the feature of column `i`, for `X = {i: Real(feature)}`. */
  function Positional(w: seq<real>, features: seq<string>): (weights: seq<(string, real)>)
    requires |w| <= |features|
    ensures |weights| == |w| && forall i :: 0 <= i < |w| ==> weights[i] == (features[i], w[i])
  {
    seq(|w|, i requires 0 <= i < |w| => (features[i], w[i]))
  }

  /** `Implies(score > 0, out == 1)` and `Implies(score < 0, out == -1)`. */
  function SignRules(score: RealTerm): seq<Formula>
  {
    [Implies(RCmp(Gt, score, RConst(0.0)), ICmp(Eq, IVar(Out), IConst(1))),
     Implies(RCmp(Lt, score, RConst(0.0)), ICmp(Eq, IVar(Out), IConst(-1)))]
  }

  lemma SignRulesMeaning(score: RealTerm, a: Assignment)
    ensures AllHold(SignRules(score), a) <==>
      (EvalReal(score, a) > 0.0 ==> a.ints(Out) == 1) && (EvalReal(score, a) < 0.0 ==> a.ints(Out) == -1)
  {
    var cs := SignRules(score);
    var x := EvalReal(score, a);
    assert EvalInt(IVar(Out), a) == a.ints(Out);
    assert Holds(cs[0], a) <==> (x > 0.0 ==> a.ints(Out) == 1) by {
      assert Holds(RCmp(Gt, score, RConst(0.0)), a) <==> x > 0.0;
      assert Holds(ICmp(Eq, IVar(Out), IConst(1)), a) <==> a.ints(Out) == 1;
    }
    assert Holds(cs[1], a) <==> (x < 0.0 ==> a.ints(Out) == -1) by {
      assert Holds(RCmp(Lt, score, RConst(0.0)), a) <==> x < 0.0;
      assert Holds(ICmp(Eq, IVar(Out), IConst(-1)), a) <==> a.ints(Out) == -1;
    }
    assert AllHold(cs, a) <==> Holds(cs[0], a) && Holds(cs[1], a);
  }

  /** The weights and bias of the binary classifier: the first row of the
      coefficient table, whose last entry is the bias. */
  function Hyperplane(table: seq<seq<real>>): (r: Result<(seq<real>, real)>)
    ensures r.Ok? <==> table != [] && table[0] != []
    ensures r.Ok? ==> table[0] == r.value.0 + [r.value.1]
  {
    if table == [] || table[0] == [] then Err(IndexError)
    else
      var values := table[0];
      assert values == values[..|values| - 1] + [values[|values| - 1]];
      Ok((values[..|values| - 1], values[|values| - 1]))
  }

  /** The constraints of the binary query, in the order they are added: box,
      `out != O` with the reference label taken as it is, the sign rules.
      With no weight at all the empty `Sum` is the number 0, the comparison
      `0 + b > 0` is a plain truth value and `Implies` rejects it. */
  function BinaryQuery(table: seq<seq<real>>, ref: Reference<int>, eps: real): (r: Result<seq<Formula>>)
  {
    var (w, b) :- Hyperplane(table);
    if |w| == 0 then Err(NotAFormula)
    else if |w| > |ref.columns| then Err(MissingPosition(|ref.columns|))
    else
      var score := RAdd(LinearTerm(Positional(w, ref.Features())), RConst(b));
      Ok(PreConstraints(ref.columns, eps) + [PostConstraint(Out, ref.truth)] + SignRules(score))
  }

  /** The binary query is built exactly when the first coefficient row holds
      at least one weight besides the bias and no more weights than there
      are feature columns; otherwise it names the failure. */
  lemma BinaryQueryOk(table: seq<seq<real>>, ref: Reference<int>, eps: real)
    ensures BinaryQuery(table, ref, eps).Ok? <==>
      Hyperplane(table).Ok? && 0 < |Hyperplane(table).value.0| <= |ref.columns|
    ensures table == [] || table[0] == [] ==> BinaryQuery(table, ref, eps) == Err(IndexError)
    ensures |table| > 0 && |table[0]| == 1 ==> BinaryQuery(table, ref, eps) == Err(NotAFormula)
    ensures |table| > 0 && |table[0]| > |ref.columns| + 1 ==>
      BinaryQuery(table, ref, eps) == Err(MissingPosition(|ref.columns|))
  {
    if |table| > 0 && |table[0]| > 0 {
      assert |Hyperplane(table).value.0| == |table[0]| - 1;
    }
  }

  /** The binary score `Σ w_i·x_i + b` of a point. */
  function BinaryScore(w: seq<real>, b: real, features: seq<string>, a: Assignment): real
    requires |w| <= |features|
  {
    LinearValue(Positional(w, features), a) + b
  }

  /** What the binary query means: the point is in the box, the output is
      not the reference label, a positive score makes it 1 and a negative
      score makes it -1. */
  lemma BinaryQueryMeaning(table: seq<seq<real>>, ref: Reference<int>, eps: real, a: Assignment)
    requires BinaryQuery(table, ref, eps).Ok?
    ensures Hyperplane(table).Ok? && |Hyperplane(table).value.0| <= |ref.columns|
    ensures var (w, b) := Hyperplane(table).value;
      AllHold(BinaryQuery(table, ref, eps).value, a) <==>
        && InBox(ref.columns, eps, a)
        && a.ints(Out) != ref.truth
        && (BinaryScore(w, b, ref.Features(), a) > 0.0 ==> a.ints(Out) == 1)
        && (BinaryScore(w, b, ref.Features(), a) < 0.0 ==> a.ints(Out) == -1)
  {
    var (w, b) := Hyperplane(table).value;
    var score := RAdd(LinearTerm(Positional(w, ref.Features())), RConst(b));
    var pre := PreConstraints(ref.columns, eps);
    var post := [PostConstraint(Out, ref.truth)];
    assert BinaryQuery(table, ref, eps).value == pre + post + SignRules(score);
    AllHoldAppend(pre + post, SignRules(score), a);
    AllHoldAppend(pre, post, a);
    assert AllHold(post, a) <==> a.ints(Out) != ref.truth by {
      assert post[0] == PostConstraint(Out, ref.truth);
    }
    SignRulesMeaning(score, a);
    LinearTermValue(Positional(w, ref.Features()), a);
  }

  /** A point of the box whose score is exactly zero is a counterexample with
      any output other than the reference label: nothing else constrains `out`. */
  lemma ZeroScoreLeavesOutputFree(table: seq<seq<real>>, ref: Reference<int>, eps: real, a: Assignment, v: int)
    requires BinaryQuery(table, ref, eps).Ok?
    requires Hyperplane(table).Ok? && |Hyperplane(table).value.0| <= |ref.columns|
    requires BinaryScore(Hyperplane(table).value.0, Hyperplane(table).value.1, ref.Features(), a) == 0.0
    requires InBox(ref.columns, eps, a) && v != ref.truth
    ensures AllHold(BinaryQuery(table, ref, eps).value, a.WithInt(Out, v))
  {
    var b := a.WithInt(Out, v);
    var (w, bias) := Hyperplane(table).value;
    BinaryQueryMeaning(table, ref, eps, b);
    assert LinearValue(Positional(w, ref.Features()), b) == LinearValue(Positional(w, ref.Features()), a) by {
      LinearValueReals(Positional(w, ref.Features()), a, b);
    }
    assert InBox(ref.columns, eps, b);
  }

  lemma {:induction false} LinearValueReals(weights: seq<(string, real)>, a: Assignment, b: Assignment)
    requires a.reals == b.reals
    ensures LinearValue(weights, a) == LinearValue(weights, b)
  {
    if weights != [] {
      LinearValueReals(weights[1..], a, b);
    }
  }

  /** The one-feature classifier with weight 1 and bias 0 at the reference
      point `x = 1` of label 1: with epsilon 0 no assignment satisfies the
      query; with epsilon 2 the point `x = -1` with output -1 does. */
  lemma BinaryExample(a: Assignment)
    ensures !AllHold(BinaryQuery([[1.0, 0.0]], Reference([("x", 1.0)], 1), 0.0).value, a)
    ensures var x := Assignment(v => if v == Named("x") then -1.0 else 0.0, v => -1, v => false);
      AllHold(BinaryQuery([[1.0, 0.0]], Reference([("x", 1.0)], 1), 2.0).value, x)
      && x.reals(FeatureVar("x")) < 0.0
  {
    var ref := Reference([("x", 1.0)], 1);
    var table := [[1.0, 0.0]];
    assert Hyperplane(table) == Ok(([1.0], 0.0)) by {
      assert table[0][..1] == [1.0];
    }
    assert ref.Features() == ["x"];
    assert Positional([1.0], ["x"]) == [("x", 1.0)];
    assert forall c :: BinaryScore([1.0], 0.0, ["x"], c) == c.reals(Named("x")) by {
      forall c ensures BinaryScore([1.0], 0.0, ["x"], c) == c.reals(Named("x")) {
        var ws := Positional([1.0], ["x"]);
        assert ws == [("x", 1.0)] && ws[1..] == [];
        assert LinearValue(ws[1..], c) == 0.0;
        assert LinearValue(ws, c) == 1.0 * c.reals(FeatureVar("x")) + 0.0;
      }
    }
    BinaryQueryMeaning(table, ref, 0.0, a);
    assert InBox(ref.columns, 0.0, a) ==> a.reals(Named("x")) == 1.0 by {
      assert ref.columns[0] == ("x", 1.0);
    }
    var x := Assignment(v => if v == Named("x") then -1.0 else 0.0, v => -1, v => false);
    BinaryQueryMeaning(table, ref, 2.0, x);
    assert InBox(ref.columns, 2.0, x);
  }

  /** `svmbin_solver` up to the solver call. */
  method SvmBinSolver(table: seq<seq<real>>, ref: Reference<int>, eps: real) returns (res: Result<ConstraintStore>)
    ensures res.Ok? <==> BinaryQuery(table, ref, eps).Ok?
    ensures res.Ok? ==> fresh(res.value) && res.value.constraints == BinaryQuery(table, ref, eps).value
    ensures res.Err? ==> res.error == BinaryQuery(table, ref, eps).error
  {
    if |table| == 0 || |table[0]| == 0 {
      return Err(IndexError);
    }
    var values := table[0];
    var w := values[..|values| - 1];
    var b := values[|values| - 1];
    var solver := new ConstraintStore();
    AddPre(solver, ref.columns, eps);
    AddPost(solver, Out, ref.truth);
    if |w| == 0 {
      return Err(NotAFormula);
    }
    if |w| > |ref.columns| {
      return Err(MissingPosition(|ref.columns|));
    }
    var score := RAdd(LinearTerm(Positional(w, ref.Features())), RConst(b));
    solver.Add(Implies(RCmp(Gt, score, RConst(0.0)), ICmp(Eq, IVar(Out), IConst(1))));
    solver.Add(Implies(RCmp(Lt, score, RConst(0.0)), ICmp(Eq, IVar(Out), IConst(-1))));
    return Ok(solver);
  }

  // ---------------------------------------------------------------------
  // The class pairs

  /** The pairs `(i, j)`, `(i, j + 1)`, ..., `(i, n)`: the inner loop
      `for j in range(i + 1, n + 1)` from `j` on. */
  function RowFrom(i: int, j: int, n: int): (row: seq<(int, int)>)
    ensures |row| == if j > n then 0 else n + 1 - j
    decreases n + 1 - j
  {
    if j > n then [] else [(i, j)] + RowFrom(i, j + 1, n)
  }

  lemma {:induction false} RowFromAt(i: int, j: int, n: int, t: nat)
    requires t < |RowFrom(i, j, n)|
    ensures RowFrom(i, j, n)[t] == (i, j + t)
    decreases n + 1 - j
  {
    if t > 0 {
      RowFromAt(i, j + 1, n, t - 1);
    }
  }

  /** The pairs of first class `i`. */
  function Row(i: int, n: int): seq<(int, int)>
  {
    RowFrom(i, i + 1, n)
  }

  /** The pairs whose first class is below `i`, in the loop order of
      `[(i, j) for i in range(1, n) for j in range(i + 1, n + 1)]`. */
  function PairsBefore(i: int, n: int): (ps: seq<(int, int)>)
    decreases i
  {
    if i <= 1 then [] else PairsBefore(i - 1, n) + Row(i - 1, n)
  }

  /** All pairs `(i, j)` of classes with `1 <= i < j <= n`, in loop order. */
  function Pairs(n: int): seq<(int, int)>
  {
    PairsBefore(n, n)
  }

  lemma {:induction false} PairsBeforeLength(i: int, n: int)
    requires 1 <= i <= n + 1
    ensures 2 * |PairsBefore(i, n)| == (i - 1) * (2 * n - i)
    decreases i
  {
    if i > 1 {
      PairsBeforeLength(i - 1, n);
      assert |Row(i - 1, n)| == n + 1 - i;
    }
  }

  /** There are `n(n-1)/2` pairs. */
  lemma PairsLength(n: nat)
    ensures 2 * |Pairs(n)| == n * (n - 1)
  {
    if n >= 1 {
      PairsBeforeLength(n, n);
    }
  }

  lemma {:induction false} RowFromMembers(i: int, j: int, n: int, p: (int, int))
    ensures p in RowFrom(i, j, n) <==> p.0 == i && j <= p.1 <= n
    decreases n + 1 - j
  {
    if j <= n {
      RowFromMembers(i, j + 1, n, p);
    }
  }

  lemma {:induction false} PairsBeforeMembers(i: int, n: int, p: (int, int))
    ensures p in PairsBefore(i, n) <==> 1 <= p.0 < i && p.0 < p.1 <= n
    decreases i
  {
    if i > 1 {
      PairsBeforeMembers(i - 1, n, p);
      RowFromMembers(i - 1, i, n, p);
    }
  }

  /** The pairs are exactly the `(i, j)` with `1 <= i < j <= n`. */
  lemma PairsMembers(n: int, p: (int, int))
    ensures p in Pairs(n) <==> 1 <= p.0 < p.1 <= n
  {
    PairsBeforeMembers(n, n, p);
  }

  lemma {:induction false} PairsBeforePrefix(i: int, m: int, n: int)
    requires i <= m
    ensures |PairsBefore(i, n)| <= |PairsBefore(m, n)|
    ensures PairsBefore(m, n)[..|PairsBefore(i, n)|] == PairsBefore(i, n)
    decreases m
  {
    if i < m && m > 1 {
      PairsBeforePrefix(i, m - 1, n);
      var ps := PairsBefore(m - 1, n);
      assert (ps + Row(m - 1, n))[..|ps|] == ps;
    }
  }

  /** In loop order, pair `(i, j)` comes after the pairs of the classes below
      `i` and the `j - i - 1` pairs of `i` before it. */
  lemma PairAt(n: int, i: int, j: int)
    requires 1 <= i < j <= n
    ensures |PairsBefore(i, n)| + (j - i - 1) < |Pairs(n)|
    ensures Pairs(n)[|PairsBefore(i, n)| + (j - i - 1)] == (i, j)
  {
    PairsBeforePrefix(i + 1, n, n);
    var k := |PairsBefore(i, n)| + (j - i - 1);
    assert PairsBefore(i + 1, n) == PairsBefore(i, n) + Row(i, n);
    RowFromAt(i, i + 1, n, j - i - 1);
    assert Pairs(n)[k] == PairsBefore(i + 1, n)[k];
  }

  /** Every listed pair has its smaller class first. */
  predicate Ordered(ps: seq<(int, int)>)
  {
    forall k :: 0 <= k < |ps| ==> ps[k].0 < ps[k].1
  }

  lemma PairsOrdered(n: int)
    ensures Ordered(Pairs(n))
  {
    forall k | 0 <= k < |Pairs(n)| ensures Pairs(n)[k].0 < Pairs(n)[k].1 {
      PairsMembers(n, Pairs(n)[k]);
    }
  }

  // ---------------------------------------------------------------------
  // The multiclass variables

  /** The score variable `Y_i_j` of pair `(i, j)`. */
  function YVar(p: (int, int)): Var
  {
    Indexed("Y", [p.0, p.1])
  }

  /** The score variables of the listed pairs. */
  function YVars(ps: seq<(int, int)>): (ys: seq<Var>)
    ensures |ys| == |ps|
  {
    seq(|ps|, k requires 0 <= k < |ps| => YVar(ps[k]))
  }

  lemma YVarsAt(ps: seq<(int, int)>, k: nat)
    requires k < |ps|
    ensures YVars(ps)[k] == YVar(ps[k])
  {
  }

  /** `Y`: the score variables, one per pair in loop order. */
  function YList(n: int): (ys: seq<Var>)
    ensures |ys| == |Pairs(n)|
  {
    YVars(Pairs(n))
  }

  /** The indicator `ind_c_i_j`: class `c` wins pair `(i, j)`. */
  function WinVar(c: int, p: (int, int)): Var
  {
    Indexed("ind", [c, p.0, p.1])
  }

  /** The counter `count_c` of the wins of class `c`. */
  function CountVar(c: int): Var
  {
    Indexed("count", [c])
  }

  /** `count`: the counters of the classes `1 .. n`; slot `s` holds class `s + 1`. */
  function Counts(n: nat): (cs: seq<Var>)
    ensures |cs| == n && forall s :: 0 <= s < n ==> cs[s] == CountVar(s + 1)
  {
    seq(n, s requires 0 <= s < n => CountVar(s + 1))
  }

  // ---------------------------------------------------------------------
  // The pairwise scores

  /** One row of the multiclass coefficient table once its first column is
      dropped: each feature column's weight, by column name, and the `Bias`. */
  datatype CoefRow = CoefRow(weights: seq<(string, real)>, bias: real)

  /** The first weight column that is not a feature. */
  function MissingColumn(weights: seq<(string, real)>, features: seq<string>): (r: Option<string>)
    ensures r.None? <==> forall k :: 0 <= k < |weights| ==> weights[k].0 in features
    ensures r.Some? ==> r.value !in features
  {
    if weights == [] then None
    else if weights[0].0 !in features then Some(weights[0].0)
    else
      var r := MissingColumn(weights[1..], features);
      assert forall k :: 1 <= k < |weights| ==> weights[k] == weights[1..][k - 1];
      r
  }

  /** `Sum([value * X[column] for column, value in row.items()]) + bias[index]`. */
  function RowScore(row: CoefRow, features: seq<string>): (r: Result<RealTerm>)
    ensures r.Ok? <==> MissingColumn(row.weights, features).None?
  {
    match MissingColumn(row.weights, features)
    case Some(column) => Err(UnknownFeature(column))
    case None => Ok(RAdd(LinearTerm(row.weights), RConst(row.bias)))
  }

  /** `Y[index] == score of row index`, row by row, or the first error. */
  function ScoreConstraints(rows: seq<CoefRow>, ys: seq<Var>, features: seq<string>): (r: Result<seq<Formula>>)
    ensures r.Ok? ==> |r.value| == |rows|
  {
    if rows == [] then Ok([])
    else
      var n := |rows| - 1;
      var init :- ScoreConstraints(rows[..n], ys, features);
      if n >= |ys| then Err(IndexError)
      else
        var score :- RowScore(rows[n], features);
        Ok(init + [RCmp(Eq, RVar(ys[n]), score)])
  }

  /** Every pair that has a coefficient row gets that row's score. */
  predicate ScoresHold(a: Assignment, rows: seq<CoefRow>, ys: seq<Var>)
    requires |rows| <= |ys|
  {
    forall k :: 0 <= k < |rows| ==> a.reals(ys[k]) == LinearValue(rows[k].weights, a) + rows[k].bias
  }

  /** The score constraints exist exactly when there are no more rows than
      pairs and every weight column is a feature. */
  lemma {:induction false} ScoreConstraintsOk(rows: seq<CoefRow>, ys: seq<Var>, features: seq<string>)
    ensures ScoreConstraints(rows, ys, features).Ok? <==>
      |rows| <= |ys| && forall k :: 0 <= k < |rows| ==> MissingColumn(rows[k].weights, features).None?
  {
    if rows != [] {
      var n := |rows| - 1;
      ScoreConstraintsOk(rows[..n], ys, features);
      assert forall k :: 0 <= k < n ==> rows[..n][k] == rows[k];
    }
  }

  /** The constraint `Y == score` of one row holds exactly when the variable
      carries the row's linear score plus its bias. */
  lemma RowScoreHolds(row: CoefRow, y: Var, features: seq<string>, a: Assignment)
    requires RowScore(row, features).Ok?
    ensures Holds(RCmp(Eq, RVar(y), RowScore(row, features).value), a) <==>
      a.reals(y) == LinearValue(row.weights, a) + row.bias
  {
    var score := RowScore(row, features).value;
    assert score == RAdd(LinearTerm(row.weights), RConst(row.bias));
    LinearTermValue(row.weights, a);
    assert EvalReal(score, a) == LinearValue(row.weights, a) + row.bias;
  }

  lemma ScoresHoldSnoc(a: Assignment, rows: seq<CoefRow>, ys: seq<Var>)
    requires 0 < |rows| <= |ys|
    ensures ScoresHold(a, rows, ys) <==>
      ScoresHold(a, rows[..|rows| - 1], ys)
      && a.reals(ys[|rows| - 1]) == LinearValue(rows[|rows| - 1].weights, a) + rows[|rows| - 1].bias
  {
    assert forall k :: 0 <= k < |rows| - 1 ==> rows[..|rows| - 1][k] == rows[k];
  }

  /** Once they exist, the score constraints hold exactly when each scored
      pair's variable equals its row's score. */
  lemma {:induction false} ScoreConstraintsMeaning(rows: seq<CoefRow>, ys: seq<Var>, features: seq<string>,
                                                   a: Assignment)
    requires ScoreConstraints(rows, ys, features).Ok?
    ensures |rows| <= |ys|
    ensures AllHold(ScoreConstraints(rows, ys, features).value, a) <==> ScoresHold(a, rows, ys)
  {
    ScoreConstraintsOk(rows, ys, features);
    if rows != [] {
      var n := |rows| - 1;
      ScoreConstraintsMeaning(rows[..n], ys, features, a);
      var init := ScoreConstraints(rows[..n], ys, features).value;
      var f := RCmp(Eq, RVar(ys[n]), RowScore(rows[n], features).value);
      assert ScoreConstraints(rows, ys, features).value == init + [f];
      AllHoldAppend(init, [f], a);
      assert AllHold([f], a) <==> Holds(f, a) by {
        assert [f][0] == f;
      }
      RowScoreHolds(rows[n], ys[n], features, a);
      ScoresHoldSnoc(a, rows, ys);
    }
  }

  /** The row loop: one score constraint per coefficient row. */
  method AddScores(store: ConstraintStore, rows: seq<CoefRow>, ys: seq<Var>, features: seq<string>)
    returns (res: Result<()>)
    modifies store
    ensures res.Ok? <==> ScoreConstraints(rows, ys, features).Ok?
    ensures res.Ok? ==> store.constraints == old(store.constraints) + ScoreConstraints(rows, ys, features).value
    ensures res.Err? ==> res.error == ScoreConstraints(rows, ys, features).error
  {
    for index := 0 to |rows|
      invariant ScoreConstraints(rows[..index], ys, features).Ok?
      invariant store.constraints == old(store.constraints) + ScoreConstraints(rows[..index], ys, features).value
    {
      assert rows[..index + 1][..index] == rows[..index] && rows[..index + 1][index] == rows[index];
      if index >= |ys| {
        ScoreConstraintsPrefixErr(rows, index + 1, ys, features);
        return Err(IndexError);
      }
      var score := RowScore(rows[index], features);
      if score.Err? {
        ScoreConstraintsPrefixErr(rows, index + 1, ys, features);
        return Err(score.error);
      }
      store.Add(RCmp(Eq, RVar(ys[index]), score.value));
    }
    assert rows[..|rows|] == rows;
    return Ok(());
  }

  lemma {:induction false} ScoreConstraintsPrefixErr(rows: seq<CoefRow>, i: nat, ys: seq<Var>, features: seq<string>)
    requires i <= |rows| && ScoreConstraints(rows[..i], ys, features).Err?
    ensures ScoreConstraints(rows, ys, features) == ScoreConstraints(rows[..i], ys, features)
  {
    if i < |rows| {
      var n := |rows| - 1;
      assert rows[..n][..i] == rows[..i];
      ScoreConstraintsPrefixErr(rows[..n], i, ys, features);
    } else {
      assert rows[..i] == rows;
    }
  }

  // ---------------------------------------------------------------------
  // The win indicators

  /** `ind_i_i_j == If(Y_i_j > 0, 1, 0)` and `ind_j_i_j == If(Y_i_j < 0, 1, 0)`. */
  function PairWins(p: (int, int)): seq<Formula>
  {
    [IndicatorLink(WinVar(p.0, p), RCmp(Gt, RVar(YVar(p)), RConst(0.0))),
     IndicatorLink(WinVar(p.1, p), RCmp(Lt, RVar(YVar(p)), RConst(0.0)))]
  }

  /** The indicator constraints of the listed pairs, in order. */
  function WinLinks(ps: seq<(int, int)>): seq<Formula>
  {
    if ps == [] then [] else WinLinks(ps[..|ps| - 1]) + PairWins(ps[|ps| - 1])
  }

  /** The first class of pair `p` wins when its score is positive, the second
      when it is negative. */
  predicate PairLinked(a: Assignment, p: (int, int))
  {
    && (a.bools(WinVar(p.0, p)) <==> a.reals(YVar(p)) > 0.0)
    && (a.bools(WinVar(p.1, p)) <==> a.reals(YVar(p)) < 0.0)
  }

  predicate WinsLinked(a: Assignment, ps: seq<(int, int)>)
  {
    forall k :: 0 <= k < |ps| ==> PairLinked(a, ps[k])
  }

  lemma WinsLinkedSnoc(a: Assignment, ps: seq<(int, int)>)
    requires ps != []
    ensures WinsLinked(a, ps) <==> WinsLinked(a, ps[..|ps| - 1]) && PairLinked(a, ps[|ps| - 1])
  {
    assert forall k :: 0 <= k < |ps| - 1 ==> ps[..|ps| - 1][k] == ps[k];
  }

  lemma PairWinsMeaning(p: (int, int), a: Assignment)
    ensures AllHold(PairWins(p), a) <==> PairLinked(a, p)
  {
    var cs := PairWins(p);
    assert EvalReal(RVar(YVar(p)), a) == a.reals(YVar(p));
    assert AllHold(cs, a) <==> Holds(cs[0], a) && Holds(cs[1], a);
  }

  lemma {:induction false} WinLinksMeaning(ps: seq<(int, int)>, a: Assignment)
    ensures AllHold(WinLinks(ps), a) <==> WinsLinked(a, ps)
  {
    if ps != [] {
      var n := |ps| - 1;
      WinLinksMeaning(ps[..n], a);
      AllHoldAppend(WinLinks(ps[..n]), PairWins(ps[n]), a);
      PairWinsMeaning(ps[n], a);
      WinsLinkedSnoc(a, ps);
    }
  }

  /** Of the two indicators of a pair at most one holds, and neither holds
      when the pair's score is exactly zero. */
  lemma AtMostOneWinner(a: Assignment, p: (int, int))
    requires PairLinked(a, p) && p.0 != p.1
    ensures !(a.bools(WinVar(p.0, p)) && a.bools(WinVar(p.1, p)))
    ensures a.reals(YVar(p)) == 0.0 ==> !a.bools(WinVar(p.0, p)) && !a.bools(WinVar(p.1, p))
  {
  }

  lemma WinLinksSnoc(ps: seq<(int, int)>, k: nat, base: seq<Formula>)
    requires k < |ps|
    ensures base + WinLinks(ps[..k + 1]) == base + WinLinks(ps[..k]) + PairWins(ps[k])
  {
    assert ps[..k + 1][..k] == ps[..k];
  }

  /** The two indicator constraints of pair `(i, j)`, whose score is `y`. */
  method AddPairWins(store: ConstraintStore, i: int, j: int, y: Var)
    requires y == YVar((i, j))
    modifies store
    ensures store.constraints == old(store.constraints) + PairWins((i, j))
  {
    store.Add(IndicatorLink(WinVar(i, (i, j)), RCmp(Gt, RVar(y), RConst(0.0))));
    store.Add(IndicatorLink(WinVar(j, (i, j)), RCmp(Lt, RVar(y), RConst(0.0))));
  }

  /** The indicator loop: pairs in nested order, with the counter `k`
      naming the score `Y[k]` of the current pair. */
  method AddWinLinks(store: ConstraintStore, n: int, ys: seq<Var>)
    requires ys == YList(n)
    modifies store
    ensures store.constraints == old(store.constraints) + WinLinks(Pairs(n))
  {
    ghost var ps := Pairs(n);
    var k := 0;
    var i := 1;
    while i < n
      invariant 1 <= i && (n >= 1 ==> i <= n)
      invariant k == |PairsBefore(i, n)| <= |ps|
      invariant store.constraints == old(store.constraints) + WinLinks(ps[..k])
    {
      var j := i + 1;
      while j <= n
        invariant i + 1 <= j <= n + 1
        invariant k == |PairsBefore(i, n)| + (j - i - 1) <= |ps|
        invariant store.constraints == old(store.constraints) + WinLinks(ps[..k])
      {
        PairAt(n, i, j);
        YVarsAt(ps, k);
        WinLinksSnoc(ps, k, old(store.constraints));
        AddPairWins(store, i, j, ys[k]);
        k := k + 1;
        j := j + 1;
      }
      assert PairsBefore(i + 1, n) == PairsBefore(i, n) + Row(i, n);
      i := i + 1;
    }
    if n >= 1 {
      assert ps[..k] == ps;
    }
  }

  // ---------------------------------------------------------------------
  // The win counters

  /** `[ind[(c, i, j)] for (i, j) in pairs if i == c or j == c]` */
  function CountInds(ps: seq<(int, int)>, c: int): seq<Var>
  {
    if ps == [] then []
    else (if ps[0].0 == c || ps[0].1 == c then [WinVar(c, ps[0])] else []) + CountInds(ps[1..], c)
  }

  /** 1 when class `c` wins pair `p`, else 0. */
  function Won(a: Assignment, p: (int, int), c: int): nat
  {
    if (p.0 == c && a.reals(YVar(p)) > 0.0) || (p.1 == c && a.reals(YVar(p)) < 0.0) then 1 else 0
  }

  /** How many of the listed pairs class `c` wins. */
  function ClassWins(a: Assignment, ps: seq<(int, int)>, c: int): nat
  {
    if ps == [] then 0 else Won(a, ps[0], c) + ClassWins(a, ps[1..], c)
  }

  /** With the indicators linked, the true indicators among those of class
      `c` are the pairs `c` wins, and there are at most as many as pairs
      involving `c`. */
  lemma {:induction false} CountIndsWins(a: Assignment, ps: seq<(int, int)>, c: int)
    requires Ordered(ps) && WinsLinked(a, ps)
    ensures TrueCount(a, CountInds(ps, c)) == ClassWins(a, ps, c) <= |CountInds(ps, c)|
  {
    if ps != [] {
      assert Ordered(ps[1..]) && WinsLinked(a, ps[1..]) by {
        assert forall k :: 0 <= k < |ps| - 1 ==> ps[1..][k] == ps[k + 1];
      }
      assert PairLinked(a, ps[0]) && ps[0].0 < ps[0].1;
      CountIndsWins(a, ps[1..], c);
      var head := if ps[0].0 == c || ps[0].1 == c then [WinVar(c, ps[0])] else [];
      TrueCountAppend(a, head, CountInds(ps[1..], c));
      if head != [] {
        assert head[1..] == [];
      }
    }
  }

  lemma {:induction false} TrueCountAppend(a: Assignment, xs: seq<Var>, ys: seq<Var>)
    ensures TrueCount(a, xs + ys) == TrueCount(a, xs) + TrueCount(a, ys)
  {
    if xs == [] {
      assert xs + ys == ys;
    } else {
      assert (xs + ys)[0] == xs[0] && (xs + ys)[1..] == xs[1..] + ys;
      TrueCountAppend(a, xs[1..], ys);
    }
  }

  lemma {:induction false} CountIndsAppend(ps: seq<(int, int)>, qs: seq<(int, int)>, c: int)
    ensures CountInds(ps + qs, c) == CountInds(ps, c) + CountInds(qs, c)
  {
    if ps == [] {
      assert ps + qs == qs;
    } else {
      assert (ps + qs)[0] == ps[0] && (ps + qs)[1..] == ps[1..] + qs;
      CountIndsAppend(ps[1..], qs, c);
      var head := if ps[0].0 == c || ps[0].1 == c then [WinVar(c, ps[0])] else [];
      calc {
        CountInds(ps + qs, c);
        head + CountInds(ps[1..] + qs, c);
        head + (CountInds(ps[1..], c) + CountInds(qs, c));
        (head + CountInds(ps[1..], c)) + CountInds(qs, c);
        CountInds(ps, c) + CountInds(qs, c);
      }
    }
  }

  /** How many pairs of the row from `(i, j)` on involve class `c`. */
  lemma {:induction false} InvolvedRowFrom(i: int, j: int, n: int, c: int)
    requires i < j
    ensures |CountInds(RowFrom(i, j, n), c)| ==
      if c == i then (if j > n then 0 else n + 1 - j)
      else if j <= c <= n then 1
      else 0
    decreases n + 1 - j
  {
    if j <= n {
      var row := RowFrom(i, j, n);
      assert row[0] == (i, j) && row[1..] == RowFrom(i, j + 1, n);
      InvolvedRowFrom(i, j + 1, n, c);
    }
  }

  /** How many pairs with first class below `i` involve class `c`. */
  lemma {:induction false} InvolvedBefore(i: int, n: int, c: int)
    requires 1 <= i <= n && 1 <= c <= n
    ensures |CountInds(PairsBefore(i, n), c)| == if c < i then n - 1 else i - 1
    decreases i
  {
    if i > 1 {
      InvolvedBefore(i - 1, n, c);
      CountIndsAppend(PairsBefore(i - 1, n), Row(i - 1, n), c);
      InvolvedRowFrom(i - 1, i, n, c);
    }
  }

  /** Each class takes part in exactly `n - 1` pairs. */
  lemma InvolvedPairs(n: int, c: int)
    requires 1 <= c <= n
    ensures |CountInds(Pairs(n), c)| == n - 1
  {
    InvolvedBefore(n, n, c);
  }

  /** `count_c == Sum(...)` for the classes `1 .. m`, in class order. */
  function CountRules(n: int, m: nat): seq<Formula>
  {
    if m == 0 then [] else CountRules(n, m - 1) + [CountConstraint(CountVar(m), CountInds(Pairs(n), m))]
  }

  lemma {:induction false} CountRulesMeaning(n: int, m: nat, a: Assignment)
    ensures AllHold(CountRules(n, m), a) <==>
      forall c :: 1 <= c <= m ==> a.ints(CountVar(c)) == TrueCount(a, CountInds(Pairs(n), c))
  {
    if m > 0 {
      var f := CountConstraint(CountVar(m), CountInds(Pairs(n), m));
      CountRulesMeaning(n, m - 1, a);
      AllHoldAppend(CountRules(n, m - 1), [f], a);
      assert AllHold([f], a) <==> Holds(f, a) by {
        assert [f][0] == f;
      }
    }
  }

  /** The counter loop `for c in range(1, n + 1)`. */
  method AddCounts(store: ConstraintStore, n: nat)
    modifies store
    ensures store.constraints == old(store.constraints) + CountRules(n, n)
  {
    for c := 1 to n + 1
      invariant store.constraints == old(store.constraints) + CountRules(n, c - 1)
    {
      store.Add(CountConstraint(CountVar(c), CountInds(Pairs(n), c)));
    }
  }

  /** Total wins of the classes `1 .. m` over the listed pairs. */
  function WinTotal(a: Assignment, ps: seq<(int, int)>, m: nat): nat
  {
    if m == 0 then 0 else WinTotal(a, ps, m - 1) + ClassWins(a, ps, m)
  }

  /** Wins of the classes `1 .. m` in the single pair `p`. */
  function PairTotal(a: Assignment, p: (int, int), m: nat): nat
  {
    if m == 0 then 0 else PairTotal(a, p, m - 1) + Won(a, p, m)
  }

  lemma {:induction false} PairTotalAtMostOne(a: Assignment, p: (int, int), m: nat)
    ensures PairTotal(a, p, m) == if a.reals(YVar(p)) > 0.0 then (if 1 <= p.0 <= m then 1 else 0)
                                 else if a.reals(YVar(p)) < 0.0 then (if 1 <= p.1 <= m then 1 else 0)
                                 else 0
  {
    if m > 0 {
      PairTotalAtMostOne(a, p, m - 1);
    }
  }

  lemma {:induction false} WinTotalCons(a: Assignment, ps: seq<(int, int)>, m: nat)
    requires ps != []
    ensures WinTotal(a, ps, m) == PairTotal(a, ps[0], m) + WinTotal(a, ps[1..], m)
  {
    if m > 0 {
      WinTotalCons(a, ps, m - 1);
    }
  }

  /** Each pair has at most one winner, so the wins of all classes together
      are at most the number of pairs. */
  lemma {:induction false} WinTotalBound(a: Assignment, ps: seq<(int, int)>, m: nat)
    ensures WinTotal(a, ps, m) <= |ps|
  {
    if ps == [] {
      WinTotalEmpty(a, m);
    } else {
      WinTotalCons(a, ps, m);
      PairTotalAtMostOne(a, ps[0], m);
      WinTotalBound(a, ps[1..], m);
    }
  }

  lemma {:induction false} WinTotalEmpty(a: Assignment, m: nat)
    ensures WinTotal(a, [], m) == 0
  {
    if m > 0 {
      WinTotalEmpty(a, m - 1);
    }
  }

  // ---------------------------------------------------------------------
  // The multiclass query

  /** The vote constraints of `n` classes in the order they are added:
      indicators, counters, max-count rules. */
  function SvmVoting(n: nat): seq<Formula>
  {
    WinLinks(Pairs(n)) + CountRules(n, n) + MaxCountRules(Counts(n), Out, n)
  }

  /** Class slot `s` (class `s + 1`) has strictly more wins than every other class. */
  predicate WinsOutright(a: Assignment, n: nat, s: int)
  {
    && 0 <= s < n
    && forall c :: 1 <= c <= n && c != s + 1 ==> ClassWins(a, Pairs(n), c) < ClassWins(a, Pairs(n), s + 1)
  }

  /** What the vote constraints mean: the indicators record the pairwise
      outcomes, each counter holds its class's wins, and the output is the
      slot of the class with strictly more wins than any other. */
  lemma SvmVotingMeaning(n: nat, a: Assignment)
    requires n > 0
    ensures AllHold(SvmVoting(n), a) <==>
      && WinsLinked(a, Pairs(n))
      && (forall c :: 1 <= c <= n ==> a.ints(CountVar(c)) == ClassWins(a, Pairs(n), c))
      && WinsOutright(a, n, a.ints(Out))
  {
    var links := WinLinks(Pairs(n));
    var counts := CountRules(n, n);
    var max := MaxCountRules(Counts(n), Out, n);
    AllHoldAppend(links + counts, max, a);
    AllHoldAppend(links, counts, a);
    WinLinksMeaning(Pairs(n), a);
    CountRulesMeaning(n, n, a);
    if WinsLinked(a, Pairs(n)) {
      PairsOrdered(n);
      forall c | 1 <= c <= n ensures TrueCount(a, CountInds(Pairs(n), c)) == ClassWins(a, Pairs(n), c) {
        CountIndsWins(a, Pairs(n), c);
      }
      if forall c :: 1 <= c <= n ==> a.ints(CountVar(c)) == ClassWins(a, Pairs(n), c) {
        MaxCountWinsOutright(n, a);
      }
    }
  }

  /** With every counter holding its class's wins, the max-count rules hold
      exactly when the output is the slot of the outright winner. */
  lemma MaxCountWinsOutright(n: nat, a: Assignment)
    requires n > 0
    requires forall c :: 1 <= c <= n ==> a.ints(CountVar(c)) == ClassWins(a, Pairs(n), c)
    ensures AllHold(MaxCountRules(Counts(n), Out, n), a) <==> WinsOutright(a, n, a.ints(Out))
  {
    var cs := Counts(n);
    MaxCountOutcome(cs, Out, a);
    var o := a.ints(Out);
    if 0 <= o < n {
      var best := ClassWins(a, Pairs(n), o + 1);
      assert a.ints(cs[o]) == best;
      if forall j :: 0 <= j < n && j != o ==> a.ints(cs[j]) < a.ints(cs[o]) {
        forall c | 1 <= c <= n && c != o + 1 ensures ClassWins(a, Pairs(n), c) < best {
          assert a.ints(cs[c - 1]) < a.ints(cs[o]);
        }
      }
      if WinsOutright(a, n, o) {
        forall j | 0 <= j < n && j != o ensures a.ints(cs[j]) < a.ints(cs[o]) {
          assert a.ints(cs[j]) == ClassWins(a, Pairs(n), j + 1);
        }
      }
    }
  }

  /** The values of the counters of the classes `1 .. m` added up. */
  function CounterSum(a: Assignment, m: nat): int
  {
    if m == 0 then 0 else CounterSum(a, m - 1) + a.ints(CountVar(m))
  }

  lemma {:induction false} CounterSumWins(a: Assignment, n: nat, m: nat)
    requires m <= n
    requires forall c :: 1 <= c <= n ==> a.ints(CountVar(c)) == ClassWins(a, Pairs(n), c)
    ensures CounterSum(a, m) == WinTotal(a, Pairs(n), m)
  {
    if m > 0 {
      CounterSumWins(a, n, m - 1);
    }
  }

  /** Under the vote constraints each counter lies between 0 and `n - 1`, and
      the counters together do not exceed the number of pairs,
      `n * (n - 1) / 2`. */
  lemma CountBounds(n: nat, a: Assignment)
    requires n > 0 && AllHold(SvmVoting(n), a)
    ensures forall c :: 1 <= c <= n ==> 0 <= a.ints(CountVar(c)) <= n - 1
    ensures 2 * CounterSum(a, n) <= n * (n - 1)
  {
    SvmVotingMeaning(n, a);
    PairsLength(n);
    CounterSumWins(a, n, n);
    PairsOrdered(n);
    forall c | 1 <= c <= n ensures 0 <= a.ints(CountVar(c)) <= n - 1 {
      CountIndsWins(a, Pairs(n), c);
      InvolvedPairs(n, c);
    }
    WinTotalBound(a, Pairs(n), n);
  }

  /** Two classes sharing the largest number of wins leave no output that
      satisfies the vote constraints. */
  lemma SvmTieInfeasible(n: nat, a: Assignment, s: int, t: int)
    requires 1 <= s <= n && 1 <= t <= n && s != t
    requires forall c :: 1 <= c <= n ==> ClassWins(a, Pairs(n), c) <= ClassWins(a, Pairs(n), s)
    requires ClassWins(a, Pairs(n), t) == ClassWins(a, Pairs(n), s)
    ensures !AllHold(SvmVoting(n), a)
  {
    SvmVotingMeaning(n, a);
  }

  /** The constraints of the multiclass query, in the order they are added:
      box, `out != O`, the pairwise scores, then the vote. */
  function ClassesQuery(rows: seq<CoefRow>, ref: Reference<string>, eps: real, o: int, n: nat)
    : (r: Result<seq<Formula>>)
    ensures r.Ok? <==> ScoreConstraints(rows, YList(n), ref.Features()).Ok?
  {
    var scores :- ScoreConstraints(rows, YList(n), ref.Features());
    Ok(PreConstraints(ref.columns, eps) + [PostConstraint(Out, o)] + scores + SvmVoting(n))
  }

  /** The multiclass query: `class_mapping` from the class list, the
      reference class looked up, then the constraints. */
  function SvmQuery(rows: seq<CoefRow>, classes: seq<string>, ref: Reference<string>, eps: real)
    : (r: Result<seq<Formula>>)
    ensures r.Ok? ==> ref.truth in classes && |classes| > 0
  {
    var mapping := Enumerate(classes);
    if ref.truth !in mapping then Err(UnknownLabel(ref.truth))
    else ClassesQuery(rows, ref, eps, mapping[ref.truth], |classes|)
  }

  /** What the multiclass query means: the point is in the box, the scored
      pairs carry their rows' scores, the indicators and counters record the
      pairwise wins, and the output is the slot of the outright winner, other
      than the reference class. */
  lemma ClassesQueryMeaning(rows: seq<CoefRow>, ref: Reference<string>, eps: real, o: int, n: nat, a: Assignment)
    requires n > 0 && ClassesQuery(rows, ref, eps, o, n).Ok?
    ensures |rows| <= |Pairs(n)|
    ensures AllHold(ClassesQuery(rows, ref, eps, o, n).value, a) <==>
      && InBox(ref.columns, eps, a)
      && a.ints(Out) != o
      && ScoresHold(a, rows, YList(n))
      && WinsLinked(a, Pairs(n))
      && (forall c :: 1 <= c <= n ==> a.ints(CountVar(c)) == ClassWins(a, Pairs(n), c))
      && WinsOutright(a, n, a.ints(Out))
  {
    var pre := PreConstraints(ref.columns, eps);
    var post := [PostConstraint(Out, o)];
    var scores := ScoreConstraints(rows, YList(n), ref.Features()).value;
    ScoreConstraintsMeaning(rows, YList(n), ref.Features(), a);
    AllHoldAppend(pre + post + scores, SvmVoting(n), a);
    AllHoldAppend(pre + post, scores, a);
    AllHoldAppend(pre, post, a);
    assert AllHold(post, a) <==> a.ints(Out) != o by {
      assert post[0] == PostConstraint(Out, o);
    }
    SvmVotingMeaning(n, a);
  }

  /** With distinct class names, an assignment satisfying the multiclass
      query decodes, through `class_mapping`, to a class of the list other
      than the reference class. */
  lemma SvmCounterexampleDecodes(rows: seq<CoefRow>, classes: seq<string>, ref: Reference<string>, eps: real,
                                 a: Assignment)
    requires Distinct(classes)
    requires SvmQuery(rows, classes, ref, eps).Ok? && AllHold(SvmQuery(rows, classes, ref, eps).value, a)
    ensures Decode(classes, a.ints(Out)).Some?
    ensures Decode(classes, a.ints(Out)).value in classes
    ensures Decode(classes, a.ints(Out)).value != ref.truth
  {
    var mapping := Enumerate(classes);
    var o := mapping[ref.truth];
    ClassesQueryMeaning(rows, ref, eps, o, |classes|, a);
    DecodeInvertsMapping(classes, ref.truth, a.ints(Out));
  }

  /** The vote constraints, in the order `svm_solver` adds them. */
  method AddSvmVoting(store: ConstraintStore, n: nat)
    modifies store
    ensures store.constraints == old(store.constraints) + SvmVoting(n)
  {
    ghost var links, counts := WinLinks(Pairs(n)), CountRules(n, n);
    AddWinLinks(store, n, YList(n));
    AddCounts(store, n);
    var slots := Counts(n);
    AddMaxCount(store, slots, Out);
    assert store.constraints == old(store.constraints) + links + counts + MaxCountRules(Counts(n), Out, n);
  }

  /** A fresh solver filled in the order of `svm_solver`. */
  method FillSvmSolver(rows: seq<CoefRow>, ref: Reference<string>, eps: real, o: int, n: nat)
    returns (res: Result<ConstraintStore>)
    ensures res.Ok? <==> ClassesQuery(rows, ref, eps, o, n).Ok?
    ensures res.Ok? ==> fresh(res.value) && res.value.constraints == ClassesQuery(rows, ref, eps, o, n).value
    ensures res.Err? ==> res.error == ClassesQuery(rows, ref, eps, o, n).error
  {
    var features := ref.Features();
    ghost var encoded := ScoreConstraints(rows, YList(n), features);
    var solver := new ConstraintStore();
    AddPre(solver, ref.columns, eps);
    AddPost(solver, Out, o);
    ghost var head := solver.constraints;
    var scores := AddScores(solver, rows, YList(n), features);
    if scores.Err? {
      return Err(scores.error);
    }
    AddSvmVoting(solver, n);
    assert solver.constraints == head + encoded.value + SvmVoting(n);
    return Ok(solver);
  }

  /** `svm_solver` up to the solver call. */
  method SvmSolver(rows: seq<CoefRow>, classes: seq<string>, ref: Reference<string>, eps: real)
    returns (res: Result<ConstraintStore>)
    ensures res.Ok? <==> SvmQuery(rows, classes, ref, eps).Ok?
    ensures res.Ok? ==> fresh(res.value) && res.value.constraints == SvmQuery(rows, classes, ref, eps).value
    ensures res.Err? ==> res.error == SvmQuery(rows, classes, ref, eps).error
  {
    var mapping := Enumerate(classes);
    if ref.truth !in mapping {
      return Err(UnknownLabel(ref.truth));
    }
    res := FillSvmSolver(rows, ref, eps, mapping[ref.truth], |classes|);
  }
}
