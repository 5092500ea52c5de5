/** The random-forest encoder: grouping the exported rule table by tree, and
    the robustness query built from it: the epsilon-box, "the forest's
    output differs from the reference class", one output variable per tree
    tied to that tree's rules, a Boolean vote indicator per tree and class,
    one vote counter per class and the max-count rule for the final output. */
module RandomForest {
  import opened Wrappers
  import opened Text
  import opened Smt
  import opened ClassMapping
  import opened Neighbourhood
  import opened RuleEncoding
  import opened Voting

  /** One row of the forest's rule table: the tree it belongs to, the class
      it predicts and its condition text, whose terms are joined by ` & `. */
  datatype RfRow<C> = RfRow(ntree: int, pred: C, condition: string)

  // ---------------------------------------------------------------------
  // The structure

  /** Some row belongs to tree `t`. */
  predicate HasTree<C>(rows: seq<RfRow<C>>, t: int)
  {
    exists k :: 0 <= k < |rows| && rows[k].ntree == t
  }

  lemma HasTreeSnoc<C>(rows: seq<RfRow<C>>, t: int)
    requires rows != []
    ensures HasTree(rows, t) <==> HasTree(rows[..|rows| - 1], t) || rows[|rows| - 1].ntree == t
  {
    var n := |rows| - 1;
    if HasTree(rows[..n], t) {
      var k :| 0 <= k < n && rows[..n][k].ntree == t;
      assert rows[k].ntree == t;
    }
    if HasTree(rows, t) && rows[n].ntree != t {
      var k :| 0 <= k < |rows| && rows[k].ntree == t;
      assert rows[..n][k].ntree == t;
    }
  }

  /** `rf_rules['ntree'].unique()`: every tree number once, in order of first
      appearance. */
  function UniqueTrees<C>(rows: seq<RfRow<C>>): (ts: seq<int>)
    ensures Distinct(ts)
    ensures forall t :: t in ts <==> HasTree(rows, t)
  {
    if rows == [] then []
    else
      var n := |rows| - 1;
      var init := UniqueTrees(rows[..n]);
      HasTreeSnoc(rows, rows[n].ntree);
      assert forall t :: HasTree(rows, t) <==> HasTree(rows[..n], t) || rows[n].ntree == t by {
        forall t ensures HasTree(rows, t) <==> HasTree(rows[..n], t) || rows[n].ntree == t {
          HasTreeSnoc(rows, t);
        }
      }
      if rows[n].ntree in init then init else init + [rows[n].ntree]
  }

  /** The rule of one row: its class with its condition split on ` & `. */
  function RowRule(row: RfRow<int>): Rule
  {
    Rule(row.pred, Split(row.condition, " & "))
  }

  /** The rules of tree `t`: the rules of its rows, in table order. */
  function TreeRules(rows: seq<RfRow<int>>, t: int): (rules: seq<Rule>)
    ensures |rules| <= |rows|
    ensures forall r :: r in rules ==> exists k :: 0 <= k < |rows| && rows[k].ntree == t && r == RowRule(rows[k])
  {
    if rows == [] then []
    else
      var n := |rows| - 1;
      var init := TreeRules(rows[..n], t);
      assert forall r :: r in init ==> exists k :: 0 <= k < |rows| && rows[k].ntree == t && r == RowRule(rows[k]) by {
        forall r | r in init ensures exists k :: 0 <= k < |rows| && rows[k].ntree == t && r == RowRule(rows[k]) {
          var k :| 0 <= k < n && rows[..n][k].ntree == t && r == RowRule(rows[..n][k]);
          assert rows[k] == rows[..n][k];
        }
      }
      init + (if rows[n].ntree == t then [RowRule(rows[n])] else [])
  }

  /** How many of the first `k` rows belong to tree `t`. */
  function Rank<C>(rows: seq<RfRow<C>>, t: int, k: nat): nat
    requires k <= |rows|
  {
    if k == 0 then 0 else Rank(rows, t, k - 1) + (if rows[k - 1].ntree == t then 1 else 0)
  }

  lemma {:induction false} RankPrefix<C>(rows: seq<RfRow<C>>, t: int, n: nat, k: nat)
    requires k <= n <= |rows|
    ensures Rank(rows[..n], t, k) == Rank(rows, t, k)
  {
    if k > 0 {
      assert rows[..n][k - 1] == rows[k - 1];
      RankPrefix(rows, t, n, k - 1);
    }
  }

  /** Tree `t` has one rule per row of tree `t`, and the rule of its row `k`
      sits at the position counting the earlier rows of tree `t`: the rules
      are the rows of the tree, each once, in table order. */
  lemma {:induction false} TreeRulesInOrder(rows: seq<RfRow<int>>, t: int)
    ensures |TreeRules(rows, t)| == Rank(rows, t, |rows|)
    ensures forall k :: 0 <= k < |rows| && rows[k].ntree == t ==>
      Rank(rows, t, k) < |TreeRules(rows, t)| && TreeRules(rows, t)[Rank(rows, t, k)] == RowRule(rows[k])
  {
    if rows != [] {
      var n := |rows| - 1;
      var init := TreeRules(rows[..n], t);
      TreeRulesInOrder(rows[..n], t);
      RankPrefix(rows, t, n, n);
      assert |rows[..n]| == n;
      forall k | 0 <= k < |rows| && rows[k].ntree == t
        ensures Rank(rows, t, k) < |TreeRules(rows, t)| && TreeRules(rows, t)[Rank(rows, t, k)] == RowRule(rows[k])
      {
        if k < n {
          assert rows[..n][k] == rows[k];
          RankPrefix(rows, t, n, k);
        }
      }
    }
  }

  /** Every row of tree `t` gives a rule of tree `t`. */
  lemma {:induction false} TreeRulesComplete(rows: seq<RfRow<int>>, k: nat)
    requires k < |rows|
    ensures RowRule(rows[k]) in TreeRules(rows, rows[k].ntree)
  {
    var n := |rows| - 1;
    if k < n {
      assert rows[..n][k] == rows[k];
      TreeRulesComplete(rows[..n], k);
    }
  }

  /** A tree number no row carries has no rules. */
  lemma {:induction false} TreeRulesOfAbsent(rows: seq<RfRow<int>>, t: int)
    requires !HasTree(rows, t)
    ensures TreeRules(rows, t) == []
  {
    if rows != [] {
      HasTreeSnoc(rows, t);
      TreeRulesOfAbsent(rows[..|rows| - 1], t);
    }
  }

  /** `create_rf_structure`: the rules of every tree, trees in order of first
      appearance. */
  function RfStructure(rows: seq<RfRow<int>>): (trees: seq<seq<Rule>>)
    ensures |trees| == |UniqueTrees(rows)|
  {
    var ts := UniqueTrees(rows);
    seq(|ts|, i requires 0 <= i < |ts| => TreeRules(rows, ts[i]))
  }

  /** The conditions of a rule are its condition text cut at every ` & `:
      joining them back gives the text again. */
  lemma RowRuleRejoins(row: RfRow<int>)
    ensures Join(RowRule(row).terms, " & ") == row.condition
  {
    JoinSplit(row.condition, " & ");
  }

  /** How many rules the trees `ts` hold together. */
  function SumSizes(rows: seq<RfRow<int>>, ts: seq<int>): nat
  {
    if ts == [] then 0 else SumSizes(rows, ts[..|ts| - 1]) + |TreeRules(rows, ts[|ts| - 1])|
  }

  /** How often `x` occurs in `ts`. */
  function Occurrences(ts: seq<int>, x: int): nat
  {
    if ts == [] then 0 else Occurrences(ts[..|ts| - 1], x) + (if ts[|ts| - 1] == x then 1 else 0)
  }

  lemma {:induction false} OccurrencesOfDistinct(ts: seq<int>, x: int)
    requires Distinct(ts)
    ensures Occurrences(ts, x) == if x in ts then 1 else 0
  {
    if ts != [] {
      var n := |ts| - 1;
      assert Distinct(ts[..n]);
      assert x in ts <==> x in ts[..n] || x == ts[n] by {
        assert ts == ts[..n] + [ts[n]];
      }
      OccurrencesOfDistinct(ts[..n], x);
    }
  }

  /** One more row adds one rule to every listed tree it belongs to. */
  lemma {:induction false} SumSizesSnoc(rows: seq<RfRow<int>>, ts: seq<int>)
    requires rows != []
    ensures SumSizes(rows, ts)
         == SumSizes(rows[..|rows| - 1], ts) + Occurrences(ts, rows[|rows| - 1].ntree)
  {
    if ts != [] {
      SumSizesSnoc(rows, ts[..|ts| - 1]);
    }
  }

  /** Every row lands in exactly one tree: the trees of the structure hold
      as many rules together as the table has rows. */
  lemma {:induction false} StructureCoversRows(rows: seq<RfRow<int>>)
    ensures SumSizes(rows, UniqueTrees(rows)) == |rows|
  {
    if rows != [] {
      var n := |rows| - 1;
      var x := rows[n].ntree;
      var init := UniqueTrees(rows[..n]);
      StructureCoversRows(rows[..n]);
      SumSizesSnoc(rows, init);
      OccurrencesOfDistinct(init, x);
      if x !in init {
        assert UniqueTrees(rows) == init + [x];
        assert (init + [x])[..|init|] == init;
        TreeRulesOfAbsent(rows[..n], x);
      }
    }
  }

  /** Entry `i` of the structure is the tree with the `i`-th tree number; each
      row's rule sits in the entry of its tree. */
  lemma StructureEntries(rows: seq<RfRow<int>>, k: nat)
    requires k < |rows|
    ensures rows[k].ntree in UniqueTrees(rows)
    ensures exists i :: 0 <= i < |UniqueTrees(rows)| && UniqueTrees(rows)[i] == rows[k].ntree
                        && RowRule(rows[k]) in RfStructure(rows)[i]
  {
    assert HasTree(rows, rows[k].ntree);
    var ts := UniqueTrees(rows);
    var i :| 0 <= i < |ts| && ts[i] == rows[k].ntree;
    TreeRulesComplete(rows, k);
    assert RfStructure(rows)[i] == TreeRules(rows, ts[i]);
  }

  /** The row loop of `create_rf_structure` for one tree number. */
  method CollectTree(rows: seq<RfRow<int>>, t: int) returns (rules: seq<Rule>)
    ensures rules == TreeRules(rows, t)
  {
    rules := [];
    for k := 0 to |rows|
      invariant rules == TreeRules(rows[..k], t)
    {
      assert rows[..k + 1][..k] == rows[..k] && rows[..k + 1][k] == rows[k];
      if rows[k].ntree == t {
        var conditions := Split(rows[k].condition, " & ");
        rules := rules + [Rule(rows[k].pred, conditions)];
      }
    }
    assert rows[..|rows|] == rows;
  }

  /** `create_rf_structure`: for each tree number, the rules of its rows. */
  method CreateRfStructure(rows: seq<RfRow<int>>) returns (trees: seq<seq<Rule>>)
    ensures trees == RfStructure(rows)
  {
    var unique := UniqueTrees(rows);
    trees := [];
    for i := 0 to |unique|
      invariant |trees| == i
      invariant forall j :: 0 <= j < i ==> trees[j] == TreeRules(rows, unique[j])
    {
      var tree := CollectTree(rows, unique[i]);
      trees := trees + [tree];
    }
  }

  // ---------------------------------------------------------------------
  // The class mapping

  /** The labels of the prediction column. */
  function Labels(rows: seq<RfRow<string>>): (ls: seq<string>)
    ensures |ls| == |rows| && forall k :: 0 <= k < |rows| ==> ls[k] == rows[k].pred
  {
    seq(|rows|, k requires 0 <= k < |rows| => rows[k].pred)
  }

  /** The class mapping of a table. */
  function RfMapping(rows: seq<RfRow<string>>): (m: map<string, nat>)
    ensures forall k :: 0 <= k < |rows| ==> rows[k].pred in m
  {
    LabelMapping(Labels(rows))
  }

  /** How many classes the table has, `len(rf_rules['pred'].unique())`. */
  function ClassCount(rows: seq<RfRow<string>>): nat
  {
    |SortedLabels(Labels(rows))|
  }

  /** `rf_rules['pred'] = [mapping[x] for x in rf_rules['pred']]` */
  function MapRows(rows: seq<RfRow<string>>, mapping: map<string, nat>): (r: seq<RfRow<int>>)
    requires forall k :: 0 <= k < |rows| ==> rows[k].pred in mapping
    ensures |r| == |rows|
    ensures forall k :: 0 <= k < |rows| ==>
      r[k] == RfRow(rows[k].ntree, mapping[rows[k].pred] as int, rows[k].condition)
  {
    seq(|rows|, k requires 0 <= k < |rows| =>
      RfRow(rows[k].ntree, mapping[rows[k].pred] as int, rows[k].condition))
  }

  /** Every mapped prediction is a class index below the class count, and
      distinct labels get distinct indices. */
  lemma MappedClasses(rows: seq<RfRow<string>>, k: nat)
    requires k < |rows|
    ensures 0 <= MapRows(rows, RfMapping(rows))[k].pred < ClassCount(rows)
  {
    LabelMappingIsRanking(Labels(rows));
  }

  // ---------------------------------------------------------------------
  // The solver variables

  /** The forest's output variable `final_out`. */
  const FinalOut: Var := Named("final_out")

  /** The output variable `out_i` of tree `i`. */
  function OutVar(i: nat): Var
  {
    Indexed("out", [i])
  }

  /** The indicator `ind_i_j`: tree `i` votes for class `j`. */
  function IndVar(i: nat, j: nat): Var
  {
    Indexed("ind", [i, j])
  }

  /** The counter `count_j` of the votes for class `j`. */
  function CountVar(j: nat): Var
  {
    Indexed("count", [j])
  }

  /** `count`: the counters of the classes `0 .. classes-1`. */
  function Counts(classes: nat): (cs: seq<Var>)
    ensures |cs| == classes && forall j :: 0 <= j < classes ==> cs[j] == CountVar(j)
  {
    seq(classes, j requires 0 <= j < classes => CountVar(j))
  }

  lemma FlatIndex(i: nat, j: nat, trees: nat, classes: nat)
    requires i < trees && j < classes
    ensures i * classes + j < trees * classes
  {
    assert (i + 1) * classes == i * classes + classes;
    assert (i + 1) * classes <= trees * classes;
  }

  lemma MulMonotone(x: nat, y: nat, c: nat)
    requires x <= y
    ensures x * c <= y * c
  {
    assert y * c == x * c + (y - x) * c;
  }

  /** Distinct (tree, class) pairs get distinct flat indices `i * classes + j`. */
  lemma FlatIndexInjective(classes: nat, i1: nat, j1: nat, i2: nat, j2: nat)
    requires j1 < classes && j2 < classes
    requires i1 * classes + j1 == i2 * classes + j2
    ensures i1 == i2 && j1 == j2
  {
    if i1 < i2 {
      assert (i1 + 1) * classes == i1 * classes + classes;
      MulMonotone(i1 + 1, i2, classes);
    } else if i2 < i1 {
      assert (i2 + 1) * classes == i2 * classes + classes;
      MulMonotone(i2 + 1, i1, classes);
    }
  }

  /** Every position below `trees * classes` is the flat index of the pair
      `(k / classes, k % classes)`. */
  lemma FlatIndexOnto(trees: nat, classes: nat, k: nat)
    requires k < trees * classes
    ensures classes > 0 && k / classes < trees && k % classes < classes
    ensures (k / classes) * classes + k % classes == k
  {
    var i := k / classes;
    if i >= trees {
      MulMonotone(trees, i, classes);
    }
  }

  /** `ind`: the indicators listed tree by tree. */
  function IndList(trees: nat, classes: nat): (inds: seq<Var>)
    ensures |inds| == trees * classes
  {
    if trees == 0 then []
    else
      assert (trees - 1) * classes + classes == trees * classes;
      IndList(trees - 1, classes) + seq(classes, j requires 0 <= j < classes => IndVar(trees - 1, j))
  }

  /** Position `i * classes + j` of the list holds `ind_i_j`. */
  lemma {:induction false} IndListAt(trees: nat, classes: nat, i: nat, j: nat)
    requires i < trees && j < classes
    ensures i * classes + j < |IndList(trees, classes)|
    ensures IndList(trees, classes)[i * classes + j] == IndVar(i, j)
  {
    FlatIndex(i, j, trees, classes);
    var init := IndList(trees - 1, classes);
    var row := seq(classes, j requires 0 <= j < classes => IndVar(trees - 1, j));
    assert IndList(trees, classes) == init + row;
    if i < trees - 1 {
      FlatIndex(i, j, trees - 1, classes);
      IndListAt(trees - 1, classes, i, j);
      assert (init + row)[i * classes + j] == init[i * classes + j];
    } else {
      assert i * classes + j - |init| == j;
      assert (init + row)[i * classes + j] == row[j];
    }
  }

  // ---------------------------------------------------------------------
  // The trees

  /** Each tree's rules tied to that tree's output, trees in order, or the
      first error met. */
  function EncodeForest(trees: seq<seq<Rule>>, features: seq<string>, parse: string -> Option<real>)
    : (r: Result<seq<Formula>>)
  {
    if trees == [] then Ok([])
    else
      var n := |trees| - 1;
      var init :- EncodeForest(trees[..n], features, parse);
      var last :- EncodeRules(trees[n], features, OutVar(n), parse);
      Ok(init + last)
  }

  /** Every tree's rules parse, and every rule of tree `i` that `a` matches
      gives `out_i` its class. */
  predicate TreesRespected(a: Assignment, trees: seq<seq<Rule>>, features: seq<string>,
                           parse: string -> Option<real>)
  {
    forall i | 0 <= i < |trees| ::
      ParseRules(trees[i], features, parse).Ok?
      && RulesRespected(a, ParseRules(trees[i], features, parse).value, OutVar(i))
  }

  lemma TreesRespectedSnoc(a: Assignment, trees: seq<seq<Rule>>, features: seq<string>,
                           parse: string -> Option<real>)
    requires trees != []
    ensures var n := |trees| - 1;
      TreesRespected(a, trees, features, parse) <==>
        && TreesRespected(a, trees[..n], features, parse)
        && ParseRules(trees[n], features, parse).Ok?
        && RulesRespected(a, ParseRules(trees[n], features, parse).value, OutVar(n))
  {
    var n := |trees| - 1;
    assert forall i :: 0 <= i < n ==> trees[..n][i] == trees[i];
  }

  /** The trees encode exactly when every tree's rules encode. */
  lemma EncodeForestLast(trees: seq<seq<Rule>>, features: seq<string>, parse: string -> Option<real>)
    requires trees != []
    ensures var n := |trees| - 1;
      EncodeForest(trees, features, parse).Ok? <==>
        EncodeForest(trees[..n], features, parse).Ok? && EncodeRules(trees[n], features, OutVar(n), parse).Ok?
  {
  }

  lemma {:induction false} EncodeForestOk(trees: seq<seq<Rule>>, features: seq<string>,
                                          parse: string -> Option<real>)
    ensures EncodeForest(trees, features, parse).Ok? <==>
      forall i :: 0 <= i < |trees| ==> EncodeRules(trees[i], features, OutVar(i), parse).Ok?
  {
    if trees != [] {
      var n := |trees| - 1;
      var init := trees[..n];
      EncodeForestOk(init, features, parse);
      EncodeForestLast(trees, features, parse);
      if EncodeForest(trees, features, parse).Ok? {
        forall i | 0 <= i < |trees| ensures EncodeRules(trees[i], features, OutVar(i), parse).Ok? {
          if i < n {
            assert init[i] == trees[i];
          }
        }
      }
      if forall i :: 0 <= i < |trees| ==> EncodeRules(trees[i], features, OutVar(i), parse).Ok? {
        forall i | 0 <= i < n ensures EncodeRules(init[i], features, OutVar(i), parse).Ok? {
          assert init[i] == trees[i];
        }
      }
    }
  }

  /** A point satisfies the encoding of the trees exactly when every tree's
      output obeys the rules of that tree that the point matches. */
  lemma {:induction false} EncodeForestMeaning(trees: seq<seq<Rule>>, features: seq<string>,
                                               parse: string -> Option<real>, a: Assignment)
    requires EncodeForest(trees, features, parse).Ok?
    ensures AllHold(EncodeForest(trees, features, parse).value, a) <==> TreesRespected(a, trees, features, parse)
  {
    if trees != [] {
      var n := |trees| - 1;
      var e := EncodeForest(trees[..n], features, parse);
      var l := EncodeRules(trees[n], features, OutVar(n), parse);
      assert e.Ok? && l.Ok? && EncodeForest(trees, features, parse).value == e.value + l.value;
      EncodeForestMeaning(trees[..n], features, parse, a);
      AllHoldAppend(e.value, l.value, a);
      EncodeRulesMeaning(trees[n], features, OutVar(n), parse, a);
      TreesRespectedSnoc(a, trees, features, parse);
    }
  }

  lemma EncodeForestSnoc(trees: seq<seq<Rule>>, i: nat, features: seq<string>, parse: string -> Option<real>)
    requires i < |trees| && EncodeForest(trees[..i], features, parse).Ok?
    ensures var model := EncodeRules(trees[i], features, OutVar(i), parse);
      EncodeForest(trees[..i + 1], features, parse) ==
        if model.Ok? then Ok(EncodeForest(trees[..i], features, parse).value + model.value) else Err(model.error)
  {
    assert trees[..i + 1][..i] == trees[..i] && trees[..i + 1][i] == trees[i];
  }

  lemma {:induction false} EncodeForestPrefixErr(trees: seq<seq<Rule>>, i: nat, features: seq<string>,
                                                 parse: string -> Option<real>)
    requires i <= |trees| && EncodeForest(trees[..i], features, parse).Err?
    ensures EncodeForest(trees, features, parse) == EncodeForest(trees[..i], features, parse)
  {
    if i < |trees| {
      var n := |trees| - 1;
      assert trees[..n][..i] == trees[..i];
      EncodeForestPrefixErr(trees[..n], i, features, parse);
    } else {
      assert trees[..i] == trees;
    }
  }

  /** The loop `add_model(rf_structure[i], X, out[i], solver)` over the trees. */
  method AddForest(store: ConstraintStore, trees: seq<seq<Rule>>, features: seq<string>,
                   parse: string -> Option<real>)
    returns (res: Result<()>)
    modifies store
    ensures res.Ok? <==> EncodeForest(trees, features, parse).Ok?
    ensures res.Ok? ==> store.constraints == old(store.constraints) + EncodeForest(trees, features, parse).value
    ensures res.Err? ==> res.error == EncodeForest(trees, features, parse).error
  {
    for i := 0 to |trees|
      invariant EncodeForest(trees[..i], features, parse).Ok?
      invariant store.constraints == old(store.constraints) + EncodeForest(trees[..i], features, parse).value
    {
      EncodeForestSnoc(trees, i, features, parse);
      ghost var before := store.constraints;
      var model := AddModel(store, trees[i], features, OutVar(i), parse);
      if model.Err? {
        EncodeForestPrefixErr(trees, i + 1, features, parse);
        return Err(model.error);
      }
      assert store.constraints == before + EncodeRules(trees[i], features, OutVar(i), parse).value;
    }
    assert trees[..|trees|] == trees;
    return Ok(());
  }

  // ---------------------------------------------------------------------
  // The vote

  /** `ind_i_j == If(out_i == j, 1, 0)` */
  function TreeVote(i: nat, j: nat): (f: Formula)
    ensures forall a :: Holds(f, a) <==> (a.bools(IndVar(i, j)) <==> a.ints(OutVar(i)) == j)
  {
    var cond := ICmp(Eq, IVar(OutVar(i)), IConst(j));
    assert forall a :: Holds(cond, a) <==> a.ints(OutVar(i)) == j by {
      forall a ensures Holds(cond, a) <==> a.ints(OutVar(i)) == j {
        assert EvalInt(IVar(OutVar(i)), a) == a.ints(OutVar(i));
      }
    }
    IndicatorLink(IndVar(i, j), cond)
  }

  /** The indicator constraints of tree `i` for the classes `0 .. m-1`. */
  function TreeVotes(i: nat, m: nat): (cs: seq<Formula>)
    ensures |cs| == m
  {
    if m == 0 then [] else TreeVotes(i, m - 1) + [TreeVote(i, m - 1)]
  }

  lemma {:induction false} TreeVotesAt(i: nat, m: nat, j: nat)
    requires j < m
    ensures TreeVotes(i, m)[j] == TreeVote(i, j)
  {
    if j < m - 1 {
      TreeVotesAt(i, m - 1, j);
    }
  }

  /** The indicator constraints of the trees `0 .. trees-1`, tree by tree. */
  function VoteLinks(trees: nat, classes: nat): seq<Formula>
  {
    if trees == 0 then [] else VoteLinks(trees - 1, classes) + TreeVotes(trees - 1, classes)
  }

  /** Every indicator `ind_i_j` of tree `i` is true exactly when the tree outputs `j`. */
  predicate TreeLinked(a: Assignment, i: nat, classes: nat)
  {
    forall j :: 0 <= j < classes ==> (a.bools(IndVar(i, j)) <==> a.ints(OutVar(i)) == j)
  }

  /** Every indicator `ind_i_j` is true exactly when tree `i` outputs `j`. */
  predicate VotesLinked(a: Assignment, trees: nat, classes: nat)
  {
    forall i :: 0 <= i < trees ==> TreeLinked(a, i, classes)
  }

  lemma TreeVotesMeaning(i: nat, classes: nat, a: Assignment)
    ensures AllHold(TreeVotes(i, classes), a) <==> TreeLinked(a, i, classes)
  {
    var row := TreeVotes(i, classes);
    if AllHold(row, a) {
      forall j | 0 <= j < classes ensures (a.bools(IndVar(i, j)) <==> a.ints(OutVar(i)) == j) {
        TreeVotesAt(i, classes, j);
        assert Holds(row[j], a);
      }
    }
    if TreeLinked(a, i, classes) {
      forall j | 0 <= j < classes ensures Holds(row[j], a) {
        TreeVotesAt(i, classes, j);
      }
    }
  }

  lemma VotesLinkedSnoc(a: Assignment, trees: nat, classes: nat)
    requires trees > 0
    ensures VotesLinked(a, trees, classes) <==> VotesLinked(a, trees - 1, classes) && TreeLinked(a, trees - 1, classes)
  {
  }

  lemma {:induction false} VoteLinksMeaning(trees: nat, classes: nat, a: Assignment)
    ensures AllHold(VoteLinks(trees, classes), a) <==> VotesLinked(a, trees, classes)
  {
    if trees > 0 {
      var i := trees - 1;
      assert VoteLinks(trees, classes) == VoteLinks(i, classes) + TreeVotes(i, classes);
      VoteLinksMeaning(i, classes, a);
      AllHoldAppend(VoteLinks(i, classes), TreeVotes(i, classes), a);
      TreeVotesMeaning(i, classes, a);
      VotesLinkedSnoc(a, trees, classes);
    }
  }

  /** `[ind[i * classes + j] for i in range(trees)]`: the indicators of class `j`. */
  function Column(trees: nat, j: nat): (vs: seq<Var>)
    ensures |vs| == trees && forall i :: 0 <= i < trees ==> vs[i] == IndVar(i, j)
  {
    seq(trees, i requires 0 <= i < trees => IndVar(i, j))
  }

  /** `count_j == Sum(...)` for the classes `0 .. m-1`. */
  function Tallies(trees: nat, m: nat): (cs: seq<Formula>)
    ensures |cs| == m
  {
    if m == 0 then [] else Tallies(trees, m - 1) + [CountConstraint(CountVar(m - 1), Column(trees, m - 1))]
  }

  lemma {:induction false} TalliesAt(trees: nat, m: nat, j: nat)
    requires j < m
    ensures Tallies(trees, m)[j] == CountConstraint(CountVar(j), Column(trees, j))
  {
    if j < m - 1 {
      TalliesAt(trees, m - 1, j);
    }
  }

  /** How many of the trees `0 .. trees-1` output class `j`. */
  function Votes(a: Assignment, trees: nat, j: int): (v: nat)
    ensures v <= trees
  {
    if trees == 0 then 0 else Votes(a, trees - 1, j) + (if a.ints(OutVar(trees - 1)) == j then 1 else 0)
  }

  /** With the indicators linked, the true indicators of class `j` are the
      trees that output `j`. */
  lemma {:induction false} ColumnCountsVotes(a: Assignment, trees: nat, classes: nat, j: nat)
    requires VotesLinked(a, trees, classes) && j < classes
    ensures TrueCount(a, Column(trees, j)) == Votes(a, trees, j)
  {
    if trees > 0 {
      assert VotesLinked(a, trees - 1, classes);
      assert TreeLinked(a, trees - 1, classes);
      ColumnCountsVotes(a, trees - 1, classes, j);
      assert Column(trees, j) == Column(trees - 1, j) + [IndVar(trees - 1, j)];
      TrueCountSnoc(a, Column(trees - 1, j), IndVar(trees - 1, j));
    }
  }

  /** The vote constraints in the order they are added: indicators, counters,
      max-count rules. */
  function ForestVoting(trees: nat, classes: nat): seq<Formula>
  {
    VoteLinks(trees, classes) + Tallies(trees, classes) + MaxCountRules(Counts(classes), FinalOut, classes)
  }

  /** Class `w` is the strict plurality winner of the trees' outputs. */
  predicate PluralityWinner(a: Assignment, trees: nat, classes: nat, w: int)
  {
    && 0 <= w < classes
    && forall j :: 0 <= j < classes && j != w ==> Votes(a, trees, j) < Votes(a, trees, w)
  }

  /** What the vote constraints mean: the indicators record the trees'
      outputs, each counter holds its class's votes, and the final output is
      the class with strictly more votes than any other; with a tie for the
      most votes nothing satisfies them. */
  lemma ForestVotingMeaning(trees: nat, classes: nat, a: Assignment)
    requires classes > 0
    ensures AllHold(ForestVoting(trees, classes), a) <==>
      && VotesLinked(a, trees, classes)
      && (forall j :: 0 <= j < classes ==> a.ints(CountVar(j)) == Votes(a, trees, j))
      && PluralityWinner(a, trees, classes, a.ints(FinalOut))
  {
    var links := VoteLinks(trees, classes);
    var tallies := Tallies(trees, classes);
    var counts := Counts(classes);
    var max := MaxCountRules(counts, FinalOut, classes);
    AllHoldAppend(links + tallies, max, a);
    AllHoldAppend(links, tallies, a);
    VoteLinksMeaning(trees, classes, a);
    MaxCountOutcome(counts, FinalOut, a);
    if VotesLinked(a, trees, classes) {
      assert AllHold(tallies, a) <==> forall j :: 0 <= j < classes ==> a.ints(CountVar(j)) == Votes(a, trees, j) by {
        forall j | 0 <= j < classes
          ensures Holds(tallies[j], a) <==> a.ints(CountVar(j)) == Votes(a, trees, j)
        {
          TalliesAt(trees, classes, j);
          ColumnCountsVotes(a, trees, classes, j);
        }
      }
    }
  }

  /** The votes of the classes `0 .. m-1` together. */
  function VoteTotal(a: Assignment, trees: nat, m: nat): nat
  {
    if m == 0 then 0 else VoteTotal(a, trees, m - 1) + Votes(a, trees, m - 1)
  }

  lemma {:induction false} VoteTotalSnoc(a: Assignment, trees: nat, m: nat)
    ensures VoteTotal(a, trees + 1, m) ==
      VoteTotal(a, trees, m) + (if 0 <= a.ints(OutVar(trees)) < m then 1 else 0)
  {
    if m > 0 {
      VoteTotalSnoc(a, trees, m - 1);
    }
  }

  /** Each tree votes for at most one class, so the votes of all classes
      together are at most the number of trees. */
  lemma {:induction false} VoteTotalBound(a: Assignment, trees: nat, m: nat)
    ensures VoteTotal(a, trees, m) <= trees
  {
    if trees > 0 {
      VoteTotalBound(a, trees - 1, m);
      VoteTotalSnoc(a, trees - 1, m);
    } else if m > 0 {
      VoteTotalBound(a, 0, m - 1);
    }
  }

  /** The values of the counters `count_0 .. count_{m-1}` added up. */
  function CounterSum(a: Assignment, m: nat): int
  {
    if m == 0 then 0 else CounterSum(a, m - 1) + a.ints(CountVar(m - 1))
  }

  lemma {:induction false} CounterSumVotes(a: Assignment, trees: nat, m: nat)
    requires forall j :: 0 <= j < m ==> a.ints(CountVar(j)) == Votes(a, trees, j)
    ensures CounterSum(a, m) == VoteTotal(a, trees, m)
  {
    if m > 0 {
      CounterSumVotes(a, trees, m - 1);
    }
  }

  /** Under the vote constraints every counter lies between 0 and the number
      of trees, and the counters sum to at most the number of trees. */
  lemma CountBounds(trees: nat, classes: nat, a: Assignment)
    requires classes > 0 && AllHold(ForestVoting(trees, classes), a)
    ensures forall j :: 0 <= j < classes ==> 0 <= a.ints(CountVar(j)) <= trees
    ensures CounterSum(a, classes) <= trees
  {
    ForestVotingMeaning(trees, classes, a);
    VoteTotalBound(a, trees, classes);
    CounterSumVotes(a, trees, classes);
  }

  /** With a single class the final output is forced to that class. */
  lemma SingleClassForcesZero(trees: nat, a: Assignment)
    requires AllHold(ForestVoting(trees, 1), a)
    ensures a.ints(FinalOut) == 0
  {
    ForestVotingMeaning(trees, 1, a);
  }

  /** Three trees voting 0, 0 and 1 over two classes leave class 0 as the
      only possible final output. */
  lemma MajorityExample(a: Assignment)
    requires a.ints(OutVar(0)) == 0 && a.ints(OutVar(1)) == 0 && a.ints(OutVar(2)) == 1
    requires AllHold(ForestVoting(3, 2), a)
    ensures a.ints(FinalOut) == 0
  {
    assert PluralityWinner(a, 3, 2, a.ints(FinalOut)) by {
      ForestVotingMeaning(3, 2, a);
    }
    assert Votes(a, 1, 0) == 1 && Votes(a, 1, 1) == 0;
    assert Votes(a, 2, 0) == 2 && Votes(a, 2, 1) == 0;
    assert Votes(a, 3, 0) == 2 && Votes(a, 3, 1) == 1;
  }

  /** Two trees voting 0 and 1 over two classes tie, and no assignment
      satisfies the vote constraints. */
  lemma TieExample(a: Assignment)
    requires a.ints(OutVar(0)) == 0 && a.ints(OutVar(1)) == 1
    ensures !AllHold(ForestVoting(2, 2), a)
  {
    assert Votes(a, 1, 0) == 1 && Votes(a, 1, 1) == 0;
    assert Votes(a, 2, 0) == 1 && Votes(a, 2, 1) == 1;
    assert !PluralityWinner(a, 2, 2, a.ints(FinalOut));
    ForestVotingMeaning(2, 2, a);
  }

  /** The inner indicator loop for tree `i`, each constraint on `ind[i * classes + j]`. */
  method AddTreeVotes(store: ConstraintStore, ind: seq<Var>, trees: nat, classes: nat, i: nat)
    requires ind == IndList(trees, classes) && i < trees
    modifies store
    ensures store.constraints == old(store.constraints) + TreeVotes(i, classes)
  {
    for j := 0 to classes
      invariant store.constraints == old(store.constraints) + TreeVotes(i, j)
    {
      IndListAt(trees, classes, i, j);
      store.Add(IndicatorLink(ind[i * classes + j], ICmp(Eq, IVar(OutVar(i)), IConst(j))));
    }
  }

  /** The nested indicator loop over trees and classes. */
  method AddVoteLinks(store: ConstraintStore, ind: seq<Var>, trees: nat, classes: nat)
    requires ind == IndList(trees, classes)
    modifies store
    ensures store.constraints == old(store.constraints) + VoteLinks(trees, classes)
  {
    for i := 0 to trees
      invariant store.constraints == old(store.constraints) + VoteLinks(i, classes)
    {
      AddTreeVotes(store, ind, trees, classes, i);
    }
  }

  /** `[ind[i * classes + j] for i in range(trees)]` */
  function Picked(ind: seq<Var>, trees: nat, classes: nat, j: nat): (vs: seq<Var>)
    requires ind == IndList(trees, classes) && j < classes
    ensures vs == Column(trees, j)
  {
    var vs := seq(trees, i requires 0 <= i < trees => IndListAt(trees, classes, i, j); ind[i * classes + j]);
    assert forall i | 0 <= i < trees :: vs[i] == IndVar(i, j) by {
      forall i | 0 <= i < trees ensures vs[i] == IndVar(i, j) {
        IndListAt(trees, classes, i, j);
      }
    }
    vs
  }

  /** The counter loop: `count_j == Sum(...)` for each class. */
  method AddTallies(store: ConstraintStore, ind: seq<Var>, trees: nat, classes: nat)
    requires ind == IndList(trees, classes)
    modifies store
    ensures store.constraints == old(store.constraints) + Tallies(trees, classes)
  {
    for j := 0 to classes
      invariant store.constraints == old(store.constraints) + Tallies(trees, j)
    {
      store.Add(CountConstraint(CountVar(j), Picked(ind, trees, classes, j)));
    }
  }

  // ---------------------------------------------------------------------
  // The query

  /** The constraints of a forest query in the order they are added: box,
      `final_out != O`, every tree's rules, then the vote. */
  function ForestQuery(trees: seq<seq<Rule>>, ref: Reference<string>, eps: real, o: int, classes: nat,
                       parse: string -> Option<real>)
    : (r: Result<seq<Formula>>)
    ensures r.Ok? <==> EncodeForest(trees, ref.Features(), parse).Ok?
  {
    var models :- EncodeForest(trees, ref.Features(), parse);
    Ok(PreConstraints(ref.columns, eps) + [PostConstraint(FinalOut, o)] + models + ForestVoting(|trees|, classes))
  }

  /** The constraints of the random-forest query: the table's classes are
      mapped, its trees grouped and the reference class looked up. */
  function RfQuery(rows: seq<RfRow<string>>, ref: Reference<string>, eps: real, parse: string -> Option<real>)
    : (r: Result<seq<Formula>>)
    ensures r.Ok? ==> ref.truth in RfMapping(rows) && ClassCount(rows) > 0
  {
    var mapping := RfMapping(rows);
    var trees := RfStructure(MapRows(rows, mapping));
    if ref.truth !in mapping then Err(UnknownLabel(ref.truth))
    else
      LabelMappingIsRanking(Labels(rows));
      ForestQuery(trees, ref, eps, mapping[ref.truth], ClassCount(rows), parse)
  }

  /** What a forest query's constraints mean: the point is in the box, each
      tree's output obeys the matched rules of that tree, the final output is
      the strict plurality winner of the trees' outputs, and it differs from
      the reference class. */
  lemma ForestQueryMeaning(trees: seq<seq<Rule>>, ref: Reference<string>, eps: real, o: int, classes: nat,
                           parse: string -> Option<real>, a: Assignment)
    requires classes > 0 && ForestQuery(trees, ref, eps, o, classes, parse).Ok?
    ensures AllHold(ForestQuery(trees, ref, eps, o, classes, parse).value, a) <==>
      && InBox(ref.columns, eps, a)
      && a.ints(FinalOut) != o
      && TreesRespected(a, trees, ref.Features(), parse)
      && VotesLinked(a, |trees|, classes)
      && (forall j :: 0 <= j < classes ==> a.ints(CountVar(j)) == Votes(a, |trees|, j))
      && PluralityWinner(a, |trees|, classes, a.ints(FinalOut))
  {
    var pre := PreConstraints(ref.columns, eps);
    var post := [PostConstraint(FinalOut, o)];
    var models := EncodeForest(trees, ref.Features(), parse).value;
    var vote := ForestVoting(|trees|, classes);
    AllHoldAppend(pre + post + models, vote, a);
    AllHoldAppend(pre + post, models, a);
    AllHoldAppend(pre, post, a);
    assert AllHold(post, a) <==> a.ints(FinalOut) != o by {
      assert post[0] == PostConstraint(FinalOut, o);
    }
    EncodeForestMeaning(trees, ref.Features(), parse, a);
    ForestVotingMeaning(|trees|, classes, a);
  }

  /** An assignment satisfying the random-forest query decodes, through the
      class mapping, to a label of the table other than the reference label:
      the final output is a class index, unlike a decision tree's output. */
  lemma RfCounterexampleDecodes(rows: seq<RfRow<string>>, ref: Reference<string>, eps: real,
                                parse: string -> Option<real>, a: Assignment)
    requires RfQuery(rows, ref, eps, parse).Ok? && AllHold(RfQuery(rows, ref, eps, parse).value, a)
    ensures Decode(SortedLabels(Labels(rows)), a.ints(FinalOut)).Some?
    ensures Decode(SortedLabels(Labels(rows)), a.ints(FinalOut)).value in Labels(rows)
    ensures Decode(SortedLabels(Labels(rows)), a.ints(FinalOut)).value != ref.truth
  {
    var sorted := SortedLabels(Labels(rows));
    var mapping := RfMapping(rows);
    var trees := RfStructure(MapRows(rows, mapping));
    var o := mapping[ref.truth];
    assert RfQuery(rows, ref, eps, parse) == ForestQuery(trees, ref, eps, o, ClassCount(rows), parse);
    ForestQueryMeaning(trees, ref, eps, o, ClassCount(rows), parse, a);
    SortedIsDistinct(sorted);
    DecodeInvertsMapping(sorted, ref.truth, a.ints(FinalOut));
  }

  /** The indicator and counter constraints, over one `ind` list. */
  method AddVoteCounts(store: ConstraintStore, trees: nat, classes: nat)
    modifies store
    ensures store.constraints == old(store.constraints) + (VoteLinks(trees, classes) + Tallies(trees, classes))
  {
    var ind := IndList(trees, classes);
    ghost var links, tallies := VoteLinks(trees, classes), Tallies(trees, classes);
    AddVoteLinks(store, ind, trees, classes);
    AddTallies(store, ind, trees, classes);
    assert store.constraints == old(store.constraints) + links + tallies;
  }

  /** The indicator, counter and max-count constraints, in that order. */
  method AddForestVoting(store: ConstraintStore, trees: nat, classes: nat)
    modifies store
    ensures store.constraints == old(store.constraints) + ForestVoting(trees, classes)
  {
    ghost var votes := VoteLinks(trees, classes) + Tallies(trees, classes);
    AddVoteCounts(store, trees, classes);
    var counts := Counts(classes);
    AddMaxCount(store, counts, FinalOut);
    assert store.constraints == old(store.constraints) + votes + MaxCountRules(counts, FinalOut, classes);
  }

  /** A fresh solver filled in the order of `rf_smt_solver`. */
  method FillForestSolver(trees: seq<seq<Rule>>, ref: Reference<string>, eps: real, o: int, classes: nat,
                          parse: string -> Option<real>)
    returns (res: Result<ConstraintStore>)
    ensures res.Ok? <==> ForestQuery(trees, ref, eps, o, classes, parse).Ok?
    ensures res.Ok? ==> fresh(res.value) && res.value.constraints == ForestQuery(trees, ref, eps, o, classes, parse).value
    ensures res.Err? ==> res.error == ForestQuery(trees, ref, eps, o, classes, parse).error
  {
    var features := ref.Features();
    ghost var encoded := EncodeForest(trees, features, parse);
    var solver := new ConstraintStore();
    AddPre(solver, ref.columns, eps);
    AddPost(solver, FinalOut, o);
    ghost var head := solver.constraints;
    var models := AddForest(solver, trees, features, parse);
    if models.Err? {
      return Err(models.error);
    }
    AddForestVoting(solver, |trees|, classes);
    assert solver.constraints == head + encoded.value + ForestVoting(|trees|, classes);
    return Ok(solver);
  }

  /** `rf_solver` up to the solver call: map the classes, group the trees,
      look up the reference class and fill a fresh solver. */
  method RfSolver(rows: seq<RfRow<string>>, ref: Reference<string>, eps: real, parse: string -> Option<real>)
    returns (res: Result<ConstraintStore>)
    ensures res.Ok? <==> RfQuery(rows, ref, eps, parse).Ok?
    ensures res.Ok? ==> fresh(res.value) && res.value.constraints == RfQuery(rows, ref, eps, parse).value
    ensures res.Err? ==> res.error == RfQuery(rows, ref, eps, parse).error
  {
    var mapping := RfMapping(rows);
    var trees := CreateRfStructure(MapRows(rows, mapping));
    if ref.truth !in mapping {
      return Err(UnknownLabel(ref.truth));
    }
    res := FillForestSolver(trees, ref, eps, mapping[ref.truth], ClassCount(rows), parse);
  }
}
