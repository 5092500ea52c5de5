# Robustness queries for exported classifiers, in Dafny

This project models the constraint compiler of `ml_solvers/z3_solvers/`. The
compiler turns a classifier exported as a table into a set of constraints and
hands them to a solver. The classifier is one of:

- a decision tree's rules;
- a random forest's rules;
- a linear SVM's coefficients.

The constraints are satisfiable exactly when some point in the epsilon-box
around a reference input gets a class other than the reference class. Such a
point is a counterexample to local robustness.

The solver's constraints are modelled as a small formula datatype (`Smt`) with
an evaluation semantics over an assignment of reals, integers and Booleans to
variables. `solver.add` is the method `Add` of an append-only
`ConstraintStore` class. Every encoder is:

- a specification function that lists the constraints in the order the source
  adds them;
- a method that fills a fresh store with loops shaped like the source's, proved
  to produce exactly that list;
- lemmas that state what the constraints force under any assignment.

The modules:

- `Wrappers`: `Option`, `Result` and the errors the source raises. These are
  `IndexError`, an unknown label or feature (`KeyError`), a missing positional
  feature, a term that does not split in two (`ValueError`) and an unreadable
  threshold.
- `Text`: the string operations the source relies on: whitespace `split()`,
  `" ".join`, `str.split(sep)`, substring search.
- `Smt`: terms, formulas, `Holds`/`AllHold`, and the `ConstraintStore` class.
- `ClassMapping`: the sorted-label mapping of the tree encoders, the
  `enumerate` mapping of the multiclass SVM, and the decoder applied to the
  solver's output.
- `Neighbourhood`: the reference input, the epsilon-box pre-constraints and the
  `out != O` post-constraint.
- `RuleEncoding`: the operator scan and term parser of `add_model`, and the
  "conjunction implies output == class" rules. These are shared, word for
  word, by the decision-tree and random-forest encoders.
- `Voting`: indicator, counter and max-count constraints, shared by the forest
  and the multiclass SVM.
- `DecisionTree`, `RandomForest`, `Svm`: the three encoders.

Some consequences of the encoding that one might not expect at first sight:

- **Ties.** A tie for the largest vote count does not leave the output free to
  be any tied class. Both max-count implications fire with different values,
  so no assignment satisfies the constraints
  (`Voting.TiedMaximumInfeasible`, `RandomForest.TieExample`,
  `Svm.SvmTieInfeasible`).
- **Uncovered reference point.** A single-rule tree whose rule misses the
  reference point is satisfiable at epsilon 0: at a point no rule meets, the
  output is constrained only by `out != O`.
  A point inside the rule's region can never be a counterexample, because the
  rule forces the reference class there (`DecisionTree.SingleRuleExample`,
  `DecisionTree.UncoveredPointIsCounterexample`).
- **Undecodable output.** At such an uncovered point the output may also take
  a value that indexes no class, for instance one past the last index; the
  decoder's search for the class name then finds nothing and raises
  `StopIteration` (`DecisionTree.UncoveredOutputUndecodable`). The forest
  and multiclass SVM have no such gap: their output is always a listed class
  other than the reference one (`RandomForest.RfCounterexampleDecodes`,
  `Svm.SvmCounterexampleDecodes`).
- **Bias-only hyperplane.** A binary SVM whose coefficient row holds only the
  bias sums no products; the score is then a plain truth value, which the
  solver refuses as the premise of an implication (`Svm.BinaryQueryOk`).

## Model

| member | source | states |
|---|---|---|
| Text.Words | ml_solvers/z3_solvers/dt_solver.py:33 | `split()` yields non-empty words free of whitespace |
| Text.WordsKeepNonSpace | ml_solvers/z3_solvers/dt_solver.py:32-33 | concatenating the words of the joined cells gives back exactly their non-whitespace characters, in order |
| Text.Find | ml_solvers/z3_solvers/dt_solver.py:117 | substring search: the result is the first position where the pattern occurs, and `None` exactly when it occurs nowhere |
| Text.Split | ml_solvers/z3_solvers/rf_solver.py:41 | `str.split(sep)` gives at least one part, and no part contains the separator |
| Text.JoinSplit | ml_solvers/z3_solvers/rf_solver.py:41 | joining the parts of `s.split(sep)` with `sep` gives back `s` |
| Text.SplitAroundSeparator | ml_solvers/z3_solvers/dt_solver.py:123 | `(f + sep + t).split(sep)` is `[f, t]` when neither side holds the separator's first character |
| ClassMapping.SortedLabels | ml_solvers/z3_solvers/dt_solver.py:160 | `sorted(set(labels))` is strictly increasing and holds exactly the labels |
| ClassMapping.LabelMappingIsRanking | ml_solvers/z3_solvers/dt_solver.py:160 | the label mapping sends the distinct labels bijectively and in order onto `0 .. k-1`, `k` the number of distinct labels; the `v`-th sorted label maps to `v` |
| ClassMapping.Enumerate | ml_solvers/z3_solvers/svm_solver.py:78 | `{label: idx for idx, label in enumerate(classes)}` has exactly the listed classes as keys; each maps to a position holding it, the last one when a class repeats |
| ClassMapping.EnumerateDistinct | ml_solvers/z3_solvers/svm_solver.py:78 | with distinct classes, `class_list[i]` maps to `i` |
| ClassMapping.Decode | ml_solvers/z3_solvers/svm_solver.py:148 | the decoder returns a label whose index is the solver's value, and `None` (no key found by `next`) exactly when no label has it |
| ClassMapping.DecodeInvertsMapping | ml_solvers/z3_solvers/svm_solver.py:148 | with distinct classes, decoding a class's index gives back the class, and decoding succeeds exactly for `0 <= v < n` |
| Smt.ConstraintStore.constructor | ml_solvers/z3_solvers/dt_solver.py:87 | a new solver holds no constraints |
| Smt.ConstraintStore.Add | ml_solvers/z3_solvers/dt_solver.py:101 | `solver.add` appends one constraint and keeps the earlier ones |
| Neighbourhood.Reference.Features | ml_solvers/z3_solvers/dt_solver.py:90 | the feature names are the reference input's columns but the last, in order |
| Neighbourhood.BoundsMeaning | ml_solvers/z3_solvers/dt_solver.py:101-102 | the two bounds of a feature hold exactly when `R[f] - eps <= X[f] <= R[f] + eps` |
| Neighbourhood.PreConstraints | ml_solvers/z3_solvers/dt_solver.py:99-102 | two constraints per feature, which hold exactly when every feature lies in its box |
| Neighbourhood.AddPre | ml_solvers/z3_solvers/dt_solver.py:99-102 | the loop appends exactly the pre-constraints |
| Neighbourhood.PostConstraint | ml_solvers/z3_solvers/dt_solver.py:105-106 | `Not(out == O)` holds exactly when the output differs from the reference class |
| Neighbourhood.AddPost | ml_solvers/z3_solvers/dt_solver.py:105-106 | appends exactly the post-constraint |
| RuleEncoding.FirstMatch | ml_solvers/z3_solvers/dt_solver.py:116-119 | the position of the first operator, in list order, that occurs in the term, or `None` exactly when none occurs |
| RuleEncoding.ScanOperator | ml_solvers/z3_solvers/dt_solver.py:114-119 | the loop with `break` returns the first of `<=, >=, <, >` found in the term, or `None` |
| RuleEncoding.RenderedOperator | ml_solvers/z3_solvers/dt_solver.py:114-119 | a term written with operator `op` between operator-free name and threshold is read with `op`; `x<=v` is never taken for `<` |
| RuleEncoding.ParseTermMeaning | ml_solvers/z3_solvers/dt_solver.py:120-124 | a term is skipped exactly when it holds no operator; a parsed term is feature, first operator and threshold text; `BadTerm` means the term did not split in two, `UnknownFeature` names a non-feature |
| RuleEncoding.ParseRendered | ml_solvers/z3_solvers/dt_solver.py:123-133 | round trip: writing a condition as `feature op threshold` and reading it back gives the condition |
| RuleEncoding.AtomMeaning | ml_solvers/z3_solvers/dt_solver.py:126-133 | the comparison added for a term holds exactly when the feature's value compares with the threshold under the term's operator |
| RuleEncoding.ParseRules | ml_solvers/z3_solvers/dt_solver.py:111 | one parsed rule per rule, each keeping its rule's class |
| RuleEncoding.EncodeTermsMeaning | ml_solvers/z3_solvers/dt_solver.py:112-133 | the running conjunction fails exactly where parsing the terms fails, with the same error; otherwise it holds exactly when its start and every parsed condition hold |
| RuleEncoding.RuleMeaning | ml_solvers/z3_solvers/dt_solver.py:136 | one rule's implication holds exactly when meeting its conditions implies `out == class` |
| RuleEncoding.EncodeRulesMeaning | ml_solvers/z3_solvers/dt_solver.py:109-136 | the rule constraints fail exactly where parsing fails, with the same error; otherwise they hold exactly when every rule the point meets gives the output its class |
| RuleEncoding.BuildCondition | ml_solvers/z3_solvers/dt_solver.py:112-133 | the loop builds the running conjunction of the rule's terms, or stops at the first error |
| RuleEncoding.AddModel | ml_solvers/z3_solvers/dt_solver.py:109-136 | `add_model` appends exactly the rule constraints, or reports the first error |
| Voting.IndicatorLink | ml_solvers/z3_solvers/rf_solver.py:130 | `ind == If(c, 1, 0)` on a Boolean holds exactly when the indicator is true iff the condition holds |
| Voting.CountConstraint | ml_solvers/z3_solvers/rf_solver.py:138 | `count == Sum(inds)` holds exactly when the counter equals the number of true indicators (0 for none) |
| Voting.Dominance | ml_solvers/z3_solvers/rf_solver.py:144 | the `And` holds exactly when `count[i] >= count[j]` for every other class `j` |
| Voting.MaxRule | ml_solvers/z3_solvers/rf_solver.py:145 | the implication holds exactly when "counter `i` is maximal" implies the output is `i` |
| Voting.MaxCountRulesMeaning | ml_solvers/z3_solvers/rf_solver.py:142-145 | the max-count rules hold exactly when every class with a maximal counter equals the output |
| Voting.MaxCountOutcome | ml_solvers/z3_solvers/rf_solver.py:142-145 | with one class or more, the rules hold exactly when the output is a class whose counter beats every other counter strictly |
| Voting.TiedMaximumInfeasible | ml_solvers/z3_solvers/rf_solver.py:142-145 | two classes sharing the maximal count make the rules unsatisfiable |
| Voting.AddMaxCount | ml_solvers/z3_solvers/rf_solver.py:143-145 | the loop appends one max-count rule per class, in class order |
| DecisionTree.BuildBlocks | ml_solvers/z3_solvers/dt_solver.py:36-50 | the block loop computes the blocks of the row's words |
| DecisionTree.ScanInvariant | ml_solvers/z3_solvers/dt_solver.py:40-46 | loop invariant: the closed blocks woven with `&`, then the open block, are the non-`nan` words read so far, and no block holds `nan` or `&` |
| DecisionTree.BlocksShape | ml_solvers/z3_solvers/dt_solver.py:40-50 | no block holds a `nan` token (any case) or `&`; weaving the blocks with `&` gives back the non-`nan` words, where a trailing `&` closes the last block without an empty one |
| DecisionTree.IndexOf | ml_solvers/z3_solvers/dt_solver.py:56 | `block.index('to')`: the first position holding the word, present exactly when the word is in the block |
| DecisionTree.ExpandBlock | ml_solvers/z3_solvers/dt_solver.py:54-62 | a block fails exactly when its first `to` is its last word; otherwise it gives two conditions with `to` and its concatenation without |
| DecisionTree.RangeBlockConditions | ml_solvers/z3_solvers/dt_solver.py:55-60 | a range block `f … lo to hi` yields `f>=lo` then `f<hi`, which parse to exactly those two conditions |
| DecisionTree.ExpandAll | ml_solvers/z3_solvers/dt_solver.py:53-62 | a row's condition count is the sum over its blocks of 2 for a range block and 1 otherwise |
| DecisionTree.ExpandBlocks | ml_solvers/z3_solvers/dt_solver.py:53-62 | the expansion loop computes the row's conditions, or stops at the first range block that ends in `to` |
| DecisionTree.BuildRowConditions | ml_solvers/z3_solvers/dt_solver.py:27-63 | one row's words, blocks and conditions, as the source computes them |
| DecisionTree.CollectConditions | ml_solvers/z3_solvers/dt_solver.py:26-63 | the row loop collects every row's conditions, or the first row's error |
| DecisionTree.Pair | ml_solvers/z3_solvers/dt_solver.py:70-72 | entry `k` pairs row `k`'s class with row `k`'s conditions |
| DecisionTree.PairRows | ml_solvers/z3_solvers/dt_solver.py:65-72 | the pairing loop computes that pairing |
| DecisionTree.DtStructure | ml_solvers/z3_solvers/dt_solver.py:14-74 | one rule per row, in row order, with the row's class |
| DecisionTree.DtStructureEntry | ml_solvers/z3_solvers/dt_solver.py:63-72 | rule `k` is row `k`'s class with row `k`'s conditions |
| DecisionTree.CreateDecisionTreeStructure | ml_solvers/z3_solvers/dt_solver.py:14-74 | `create_decision_tree_structure` computes the structure, or the first row's error |
| DecisionTree.DtMapping | ml_solvers/z3_solvers/dt_solver.py:160 | every row's label has an index |
| DecisionTree.MapRows | ml_solvers/z3_solvers/dt_solver.py:161 | each row's class is replaced by its label's index, and the cells are kept |
| DecisionTree.TreeQuery | ml_solvers/z3_solvers/dt_solver.py:139-141 | the query is built exactly when the rules encode, with two box constraints per feature, one per rule and the post-constraint |
| DecisionTree.DtQuery | ml_solvers/z3_solvers/dt_solver.py:93 | a query exists only when the structure is built and the reference label is a known class |
| DecisionTree.TreeQueryMeaning | ml_solvers/z3_solvers/dt_solver.py:139-141 | the constraints hold exactly when the point is in the box, every rule it meets gives `out` its class, and `out != O` |
| DecisionTree.UncoveredPointIsCounterexample | ml_solvers/z3_solvers/dt_solver.py:136 | a point in the box that meets no rule, with `out := O + 1`, satisfies all constraints |
| DecisionTree.UncoveredOutputFree | ml_solvers/z3_solvers/dt_solver.py:136-141 | a point in the box that meets no rule, with any output other than `O`, satisfies all constraints |
| DecisionTree.UncoveredOutputUndecodable | ml_solvers/z3_solvers/dt_solver.py:151 | at a point in the box that meets no rule, the output one past the last class index satisfies all constraints and decodes to no class |
| DecisionTree.MatchedRuleDecides | ml_solvers/z3_solvers/dt_solver.py:136 | a satisfying point that meets rule `k` has `out == class_k`, and that class is not the reference class |
| DecisionTree.SingleRuleExample | ml_solvers/z3_solvers/dt_solver.py:109-141 | rule `(0, x>1 & y<=2)`, reference `(0, 0, label 0)`, epsilon 0: `x = y = 0, out = 1` satisfies the query, and no solution lies in the rule's region |
| DecisionTree.FillTreeSolver | ml_solvers/z3_solvers/dt_solver.py:87-141 | a fresh solver ends up holding exactly the query's constraints, or the encoding error is returned |
| DecisionTree.DtSolver | ml_solvers/z3_solvers/dt_solver.py:160-165 | mapping, structure and solver filling give exactly the decision-tree query, or its error |
| RandomForest.UniqueTrees | ml_solvers/z3_solvers/rf_solver.py:25 | the tree numbers are distinct, and are exactly the `ntree` values present |
| RandomForest.TreeRules | ml_solvers/z3_solvers/rf_solver.py:33-49 | every rule of tree `t` comes from a row with `ntree == t` |
| RandomForest.TreeRulesInOrder | ml_solvers/z3_solvers/rf_solver.py:33-49 | tree `t` has one rule per row with `ntree == t`, in row order: the row that is the `r`-th of tree `t` gives its `r`-th rule |
| RandomForest.TreeRulesComplete | ml_solvers/z3_solvers/rf_solver.py:33-49 | every row's rule is among its tree's rules |
| RandomForest.RfStructure | ml_solvers/z3_solvers/rf_solver.py:31-52 | one tree per distinct `ntree` value |
| RandomForest.StructureCoversRows | ml_solvers/z3_solvers/rf_solver.py:31-52 | the trees' rule counts add up to the number of rows |
| RandomForest.StructureEntries | ml_solvers/z3_solvers/rf_solver.py:31-52 | every row's rule sits in the tree of its `ntree` value |
| RandomForest.RowRuleRejoins | ml_solvers/z3_solvers/rf_solver.py:41-44 | joining a rule's terms with `' & '` gives back the row's condition text |
| RandomForest.CollectTree | ml_solvers/z3_solvers/rf_solver.py:33-49 | the row loop collects one tree's rules |
| RandomForest.CreateRfStructure | ml_solvers/z3_solvers/rf_solver.py:14-53 | `create_rf_structure` computes the grouped trees |
| RandomForest.RfMapping | ml_solvers/z3_solvers/rf_solver.py:164 | every row's prediction has an index |
| RandomForest.MapRows | ml_solvers/z3_solvers/rf_solver.py:165 | each row's prediction is replaced by its index, and tree and condition are kept |
| RandomForest.MappedClasses | ml_solvers/z3_solvers/rf_solver.py:164-165 | every mapped prediction lies in `0 .. C-1`, `C` the number of distinct predictions |
| RandomForest.FlatIndex | ml_solvers/z3_solvers/rf_solver.py:130 | `i*C + j` lies below `T*C` |
| RandomForest.FlatIndexInjective | ml_solvers/z3_solvers/rf_solver.py:130 | distinct (tree, class) pairs get distinct flat indices |
| RandomForest.FlatIndexOnto | ml_solvers/z3_solvers/rf_solver.py:130 | every position below `T*C` is the flat index of `(k / C, k % C)` |
| RandomForest.IndListAt | ml_solvers/z3_solvers/rf_solver.py:125 | position `i*C + j` of `ind` holds the indicator of tree `i` and class `j` |
| RandomForest.EncodeForestOk | ml_solvers/z3_solvers/rf_solver.py:120-121 | the forest encodes exactly when every tree's rules encode against that tree's output variable |
| RandomForest.EncodeForestMeaning | ml_solvers/z3_solvers/rf_solver.py:120-121 | the tree constraints hold exactly when each tree's output obeys every rule of that tree the point meets |
| RandomForest.AddForest | ml_solvers/z3_solvers/rf_solver.py:120-121 | the loop appends every tree's rules in tree order, or reports the first error |
| RandomForest.TreeVote | ml_solvers/z3_solvers/rf_solver.py:130 | the indicator constraint holds exactly when `ind_i_j` is true iff `out_i == j` |
| RandomForest.TreeVotesMeaning | ml_solvers/z3_solvers/rf_solver.py:129-130 | one tree's indicator constraints hold exactly when each of its indicators records whether the tree outputs that class |
| RandomForest.VoteLinksMeaning | ml_solvers/z3_solvers/rf_solver.py:128-130 | all indicator constraints hold exactly when every indicator records its tree's output |
| RandomForest.TalliesAt | ml_solvers/z3_solvers/rf_solver.py:137-138 | the `j`-th counter constraint sums the indicators of class `j` over the trees |
| RandomForest.ColumnCountsVotes | ml_solvers/z3_solvers/rf_solver.py:137-138 | with linked indicators, class `j`'s true indicators number the trees that output `j` |
| RandomForest.ForestVotingMeaning | ml_solvers/z3_solvers/rf_solver.py:125-145 | the vote constraints hold exactly when the indicators are linked, each counter holds its class's tree votes, and `final_out` is the class with strictly the most votes |
| RandomForest.CountBounds | ml_solvers/z3_solvers/rf_solver.py:134-138 | every counter lies in `0 .. T`, and the counters add up to at most `T` |
| RandomForest.SingleClassForcesZero | ml_solvers/z3_solvers/rf_solver.py:142-145 | with one class the empty `And` holds and `final_out` is forced to 0 |
| RandomForest.MajorityExample | ml_solvers/z3_solvers/rf_solver.py:142-145 | trees voting 0, 0, 1 force `final_out == 0` |
| RandomForest.TieExample | ml_solvers/z3_solvers/rf_solver.py:142-145 | two trees voting 0 and 1 leave the vote constraints unsatisfiable |
| RandomForest.AddTreeVotes | ml_solvers/z3_solvers/rf_solver.py:129-130 | the inner loop appends one tree's indicator constraints |
| RandomForest.AddVoteLinks | ml_solvers/z3_solvers/rf_solver.py:128-130 | the nested loops append all indicator constraints, tree by tree |
| RandomForest.Picked | ml_solvers/z3_solvers/rf_solver.py:138 | the indicators picked at `i*C + j` for all trees are class `j`'s column |
| RandomForest.AddTallies | ml_solvers/z3_solvers/rf_solver.py:137-138 | the loop appends one counter constraint per class |
| RandomForest.AddForestVoting | ml_solvers/z3_solvers/rf_solver.py:125-145 | indicators, counters and max-count rules are appended in that order |
| RandomForest.ForestQuery | ml_solvers/z3_solvers/rf_solver.py:118-145 | the forest query is built exactly when every tree encodes |
| RandomForest.RfQuery | ml_solvers/z3_solvers/rf_solver.py:72 | a query exists only when the reference label is a known class, and then there is at least one class |
| RandomForest.ForestQueryMeaning | ml_solvers/z3_solvers/rf_solver.py:118-145 | the constraints hold exactly when the point is in the box, `final_out != O`, every tree obeys its rules, and `final_out` is the strict plurality of the trees' outputs |
| RandomForest.FillForestSolver | ml_solvers/z3_solvers/rf_solver.py:66-145 | a fresh solver ends up holding exactly the forest query's constraints, or the encoding error is returned |
| RandomForest.RfSolver | ml_solvers/z3_solvers/rf_solver.py:164-169 | mapping, grouping and solver filling give exactly the random-forest query, or its error |
| Svm.LinearTermValue | ml_solvers/z3_solvers/svm_solver.py:48 | the `Sum` of `w_i * X_i` evaluates to the weighted sum of the feature values |
| Svm.Positional | ml_solvers/z3_solvers/svm_solver.py:27 | weight `i` pairs with the feature in position `i` |
| Svm.Hyperplane | ml_solvers/z3_solvers/svm_solver.py:18-20 | the first row is read exactly when the table and that row are non-empty; the weights followed by the bias give back the row |
| Svm.SignRulesMeaning | ml_solvers/z3_solvers/svm_solver.py:48-49 | the two implications hold exactly when a positive score gives `out == 1` and a negative one `out == -1` |
| Svm.BinaryQueryMeaning | ml_solvers/z3_solvers/svm_solver.py:34-49 | the binary query holds exactly when the point is in the box, `out` differs from the raw reference label, and the sign implications hold |
| Svm.ZeroScoreLeavesOutputFree | ml_solvers/z3_solvers/svm_solver.py:48-49 | at score 0 any output other than the reference label satisfies the query |
| Svm.BinaryExample | ml_solvers/z3_solvers/svm_solver.py:34-49 | weights `[1]`, bias 0, reference `x = 1`, label 1: no solution at epsilon 0; `x = -1, out = -1` is a solution at epsilon 2 |
| Svm.BinaryQueryOk | ml_solvers/z3_solvers/svm_solver.py:18-49 | the binary query is built exactly when the first row holds at least one weight and no more weights than the reference has features; an empty table or row, a bias-only row and an over-long row each give their own error |
| Svm.SvmBinSolver | ml_solvers/z3_solvers/svm_solver.py:22-49 | the solver holds exactly the binary query's constraints, or the error is returned (including the refusal of a bias-only row) |
| Svm.PairsLength | ml_solvers/z3_solvers/svm_solver.py:107 | the class pairs number `n(n-1)/2` |
| Svm.PairsMembers | ml_solvers/z3_solvers/svm_solver.py:107 | `(i, j)` is listed exactly when `1 <= i < j <= n` |
| Svm.PairsOrdered | ml_solvers/z3_solvers/svm_solver.py:107 | the pairs come in strictly increasing lexicographic order, so none repeats |
| Svm.PairAt | ml_solvers/z3_solvers/svm_solver.py:116-125 | the counter `k` of the indicator loop at `(i, j)` indexes the pair `(i, j)`, the same pair that names `Y[k]` |
| Svm.YVarsAt | ml_solvers/z3_solvers/svm_solver.py:107 | `Y[k]` is the score variable of the `k`-th pair |
| Svm.RowScore | ml_solvers/z3_solvers/svm_solver.py:111 | a row's score term fails exactly with a weight column that is not a feature |
| Svm.ScoreConstraintsOk | ml_solvers/z3_solvers/svm_solver.py:110-111 | the score constraints are built exactly when there are no more rows than pairs and every weight column is a feature |
| Svm.ScoreConstraintsMeaning | ml_solvers/z3_solvers/svm_solver.py:110-111 | the score constraints hold exactly when each `Y[index]` equals row `index`'s weighted sum plus its bias |
| Svm.AddScores | ml_solvers/z3_solvers/svm_solver.py:110-111 | the row loop appends the score constraints, or stops at the first `IndexError` or unknown column |
| Svm.PairWinsMeaning | ml_solvers/z3_solvers/svm_solver.py:120-124 | `ind(i,i,j)` holds iff `Y_k > 0`, and `ind(j,i,j)` holds iff `Y_k < 0` |
| Svm.AtMostOneWinner | ml_solvers/z3_solvers/svm_solver.py:120-124 | at most one class of a pair wins, and neither does when `Y_k == 0` |
| Svm.WinLinksMeaning | ml_solvers/z3_solvers/svm_solver.py:115-125 | all indicator constraints hold exactly when every pair's indicators record the sign of its score |
| Svm.AddPairWins | ml_solvers/z3_solvers/svm_solver.py:120-124 | appends one pair's two indicator constraints |
| Svm.AddWinLinks | ml_solvers/z3_solvers/svm_solver.py:115-125 | the nested loops with the counter `k` append the indicator constraints of every pair, in pair order |
| Svm.CountIndsWins | ml_solvers/z3_solvers/svm_solver.py:130-131 | with linked indicators, class `c`'s true indicators number the pairs that `c` wins |
| Svm.InvolvedPairs | ml_solvers/z3_solvers/svm_solver.py:130-131 | each class takes part in exactly `n - 1` pairs |
| Svm.CountRulesMeaning | ml_solvers/z3_solvers/svm_solver.py:130-131 | the counter constraints hold exactly when `count[c-1]` is the number of true indicators of class `c` |
| Svm.AddCounts | ml_solvers/z3_solvers/svm_solver.py:130-131 | the loop appends one counter constraint per class |
| Svm.SvmVotingMeaning | ml_solvers/z3_solvers/svm_solver.py:115-138 | the vote constraints hold exactly when the indicators are linked, each counter holds its class's wins, and `out` is the slot of the class with strictly the most wins |
| Svm.MaxCountWinsOutright | ml_solvers/z3_solvers/svm_solver.py:135-138 | with correct counters, the max-count rules hold exactly when count slot `out` (class `out + 1`) wins outright |
| Svm.CountBounds | ml_solvers/z3_solvers/svm_solver.py:129-131 | every counter lies in `0 .. n-1`, and the counters add up to at most `n(n-1)/2` |
| Svm.SvmTieInfeasible | ml_solvers/z3_solvers/svm_solver.py:135-138 | two classes sharing the most wins leave the vote constraints unsatisfiable |
| Svm.AddSvmVoting | ml_solvers/z3_solvers/svm_solver.py:115-138 | indicators, counters and max-count rules are appended in that order |
| Svm.ClassesQuery | ml_solvers/z3_solvers/svm_solver.py:93-138 | the multiclass query is built exactly when the score constraints are |
| Svm.SvmQuery | ml_solvers/z3_solvers/svm_solver.py:88 | a query exists only when the reference label is in the class list, which is then non-empty |
| Svm.ClassesQueryMeaning | ml_solvers/z3_solvers/svm_solver.py:93-138 | the constraints hold exactly when the point is in the box, `out != O`, the scores hold, the indicators and counters record the wins, and `out` is the outright winner's slot |
| RandomForest.RfCounterexampleDecodes | ml_solvers/z3_solvers/rf_solver.py:155 | a satisfying assignment's `final_out` decodes to a label of the table other than the reference label |
| Svm.SvmCounterexampleDecodes | ml_solvers/z3_solvers/svm_solver.py:148 | with distinct class names, a satisfying assignment decodes to a listed class other than the reference class |
| Svm.FillSvmSolver | ml_solvers/z3_solvers/svm_solver.py:84-138 | a fresh solver ends up holding exactly the multiclass query's constraints, or the score error is returned |
| Svm.SvmSolver | ml_solvers/z3_solvers/svm_solver.py:76-138 | class mapping, reference lookup and solver filling give exactly the multiclass query, or its error |

## Left out

- Reading the CSV tables and the reference input is not modelled. Rows, coefficient rows and the reference input are Dafny values.
- The solver's decision procedure (`solver.check()`, `solver.model()`) and all printing are not modelled. Satisfiability is stated as `AllHold` under a given assignment. Decoding the output is kept as `ClassMapping.Decode`.
- `float(value)` is string-to-float conversion. It is the parameter `parse: string -> Option<real>`; `None` models a `ValueError`. Thresholds, weights and biases are `real`s, as the solver's `Real` sort is.
- Labels are strings, and `sorted` is modelled as ordering by code point. The pandas dtype of a label column is not modelled.
- State the source reads from its enclosing scope (`mapping`, `rf_rules`) is passed as parameters. For the forest, the number of classes is the number of distinct predictions, and the number of trees is the number of distinct `ntree` values.
- Solver variables are structured (`Named`, `Indexed`) rather than strings. A feature column whose name collides with a generated name, such as `out` or `Y_1_2`, is not modelled.
- A `condition` cell that is not text (an empty cell read as a float) would raise `AttributeError` in `create_rf_structure`. It is not modelled, because conditions are strings.
- Constraints already added when an error is raised are not modelled. On error the model returns only the error, never the partly filled solver.
- Svm.SvmSolver: the coefficient table arrives with its first and last columns already removed and the `Bias` column given per row (`CoefRow`). The column positions of `svm_coef` are therefore not modelled.
- Svm.SvmBinSolver: the reference label `O` is taken as an integer. A label of another type, which the solver would reject, is not modelled.
- RandomForest.UniqueTrees: the contract states distinctness and membership only. The first-appearance order of `unique()` is followed by the definition, not stated in the contract.
- ClassMapping.Enumerate: the contract does not say which index a repeated class maps to beyond "the last position holding it". The round trip (`DecodeInvertsMapping`) is stated only for distinct class lists.
- `nn_solvers/` is not part of this model. It holds the neural-network wrapper around an external verifier and the model conversion script.
