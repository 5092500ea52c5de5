/** The decision-tree encoder: reading the exported rule table into
    (class, condition strings) pairs, and the robustness query built from
    them: the epsilon-box, one implication per rule and "output differs from
    the reference class". */
module DecisionTree {
  import opened Wrappers
  import opened Text
  import opened Smt
  import opened ClassMapping
  import opened Neighbourhood
  import opened RuleEncoding

  /** One row of the exported rule table: the class in the first column and
      the text of every further column, in order (an empty cell reads `nan`). */
  datatype DtRow<C> = DtRow(cls: C, cells: seq<string>)

  /** `row.index[3:]`: the condition columns, from the fourth column on. */
  function ConditionCells<C>(row: DtRow<C>): seq<string>
  {
    if |row.cells| <= 2 then [] else row.cells[2..]
  }

  /** `" ".join(value).split()` */
  function RowWords<C>(row: DtRow<C>): seq<string>
  {
    Words(Join(ConditionCells(row), " "))
  }

  // ---------------------------------------------------------------------
  // Cutting the words into blocks

  /** The state of the block loop: the blocks closed so far and the block
      being filled. */
  datatype Scan = Scan(closed: seq<seq<string>>, current: seq<string>)

  /** One word: `nan` is skipped, `&` closes the current block (without the
      `&`), anything else extends it. */
  function Step(s: Scan, w: string): Scan
  {
    if IsNanToken(w) then s
    else if w == "&" then Scan(s.closed + [s.current], [])
    else Scan(s.closed, s.current + [w])
  }

  function ScanWords(words: seq<string>): Scan
  {
    if words == [] then Scan([], [])
    else Step(ScanWords(words[..|words| - 1]), words[|words| - 1])
  }

  /** The blocks of a row: the closed ones, then the last one if it is not empty. */
  function Blocks(words: seq<string>): seq<seq<string>>
  {
    var s := ScanWords(words);
    if s.current != [] then s.closed + [s.current] else s.closed
  }

  /** The block loop of `create_decision_tree_structure`. */
  method BuildBlocks(words: seq<string>) returns (blocks: seq<seq<string>>)
    ensures blocks == Blocks(words)
  {
    blocks := [];
    var current: seq<string> := [];
    for i := 0 to |words|
      invariant Scan(blocks, current) == ScanWords(words[..i])
    {
      assert words[..i + 1][..i] == words[..i];
      var word := words[i];
      if !IsNanToken(word) {
        current := current + [word];
        if word == "&" {
          blocks := blocks + [current[..|current| - 1]];
          current := [];
        }
      }
    }
    assert words[..|words|] == words;
    if current != [] {
      blocks := blocks + [current];
    }
  }

  /** The words that are not `nan` in any letter case, in order. */
  function Filtered(words: seq<string>): seq<string>
  {
    if words == [] then []
    else
      var init := Filtered(words[..|words| - 1]);
      if IsNanToken(words[|words| - 1]) then init else init + [words[|words| - 1]]
  }

  /** Every block followed by `&`. */
  function Weave(blocks: seq<seq<string>>): seq<string>
  {
    if blocks == [] then [] else Weave(blocks[..|blocks| - 1]) + blocks[|blocks| - 1] + ["&"]
  }

  /** No `&` and no `nan` word. */
  predicate Clean(block: seq<string>)
  {
    "&" !in block && forall k :: 0 <= k < |block| ==> !IsNanToken(block[k])
  }

  lemma {:induction false} ScanInvariant(words: seq<string>)
    ensures Weave(ScanWords(words).closed) + ScanWords(words).current == Filtered(words)
    ensures Clean(ScanWords(words).current)
    ensures forall k :: 0 <= k < |ScanWords(words).closed| ==> Clean(ScanWords(words).closed[k])
  {
    if words != [] {
      var init := words[..|words| - 1];
      var w := words[|words| - 1];
      ScanInvariant(init);
      var s := ScanWords(init);
      if !IsNanToken(w) && w == "&" {
        assert Weave(s.closed + [s.current]) == Weave(s.closed) + s.current + ["&"] by {
          assert (s.closed + [s.current])[..|s.closed|] == s.closed;
        }
      }
    }
  }

  /** The blocks hold neither `&` nor `nan`, and writing each block followed
      by `&` gives back the words without their `nan`s: exactly, when those
      words end in `&` (or there are none), and otherwise with one `&` more,
      the last block being then the non-empty run after the last `&`. */
  lemma BlocksShape(words: seq<string>)
    ensures forall k :: 0 <= k < |Blocks(words)| ==> Clean(Blocks(words)[k])
    ensures Filtered(words) == [] || Filtered(words)[|Filtered(words)| - 1] == "&" ==>
      Weave(Blocks(words)) == Filtered(words)
    ensures Filtered(words) != [] && Filtered(words)[|Filtered(words)| - 1] != "&" ==>
      Weave(Blocks(words)) == Filtered(words) + ["&"] && Blocks(words)[|Blocks(words)| - 1] != []
  {
    ScanInvariant(words);
    var s := ScanWords(words);
    var f := Filtered(words);
    if s.current != [] {
      assert Weave(s.closed + [s.current]) == Weave(s.closed) + s.current + ["&"] by {
        assert (s.closed + [s.current])[..|s.closed|] == s.closed;
      }
      assert f[|f| - 1] == s.current[|s.current| - 1];
    } else {
      assert f == Weave(s.closed);
      if f != [] {
        assert s.closed != [];
        assert f[|f| - 1] == "&";
      }
    }
  }

  // ---------------------------------------------------------------------
  // Expanding blocks into condition strings

  /** `block.index(w)`, with None when `w` is absent. */
  function IndexOf(block: seq<string>, w: string): (r: Option<nat>)
    ensures r.Some? <==> w in block
    ensures r.Some? ==> r.value < |block| && block[r.value] == w && w !in block[..r.value]
  {
    if block == [] then None
    else if block[0] == w then Some(0)
    else
      match IndexOf(block[1..], w)
      case None => None
      case Some(i) =>
        assert block[..i + 1] == [block[0]] + block[1..][..i];
        Some(i + 1)
  }

  /** The condition strings of one block. A block with `to` at its first
      occurrence `idx` gives `block[0]>=block[idx-1]` and
      `block[0]<block[idx+1]`, where `block[-1]` is the last word when `idx`
      is 0; a `to` in last position has no upper bound and fails. Any other
      block gives its words run together. */
  function ExpandBlock(block: seq<string>): (r: Result<seq<string>>)
    ensures r.Err? <==> "to" in block && IndexOf(block, "to").value == |block| - 1
    ensures r.Ok? ==> |r.value| == if "to" in block then 2 else 1
    ensures "to" !in block ==> r == Ok([Concat(block)])
  {
    match IndexOf(block, "to")
    case None => Ok([Concat(block)])
    case Some(idx) =>
      var lo := if idx == 0 then block[|block| - 1] else block[idx - 1];
      if idx + 1 >= |block| then Err(IndexError)
      else Ok([block[0] + ">=" + lo, block[0] + "<" + block[idx + 1]])
  }

  /** A range block `f … lo to hi …` whose first `to` has a word on each side
      reads back as exactly the two conditions `f >= lo` and `f < hi`, in this
      order, whatever other words the block holds. */
  lemma RangeBlockConditions(block: seq<string>, idx: nat, features: seq<string>,
                             parse: string -> Option<real>, lo: real, hi: real)
    requires IndexOf(block, "to") == Some(idx) && 1 <= idx < |block| - 1
    requires block[0] in features && OperatorFree(block[0])
    requires OperatorFree(block[idx - 1]) && OperatorFree(block[idx + 1])
    requires parse(block[idx - 1]) == Some(lo) && parse(block[idx + 1]) == Some(hi)
    ensures ExpandBlock(block).Ok?
    ensures ParseConditions(ExpandBlock(block).value, features, parse)
         == Ok([Condition(block[0], Ge, lo), Condition(block[0], Lt, hi)])
  {
    var c1 := Condition(block[0], Ge, lo);
    var c2 := Condition(block[0], Lt, hi);
    var t1, t2 := Render(c1, block[idx - 1]), Render(c2, block[idx + 1]);
    assert ExpandBlock(block) == Ok([t1, t2]);
    assert ParseTerm(t1, features, parse) == Ok(Some(c1)) by {
      ParseRendered(c1, block[idx - 1], features, parse);
    }
    assert ParseTerm(t2, features, parse) == Ok(Some(c2)) by {
      ParseRendered(c2, block[idx + 1], features, parse);
    }
    ParseTwoTerms(t1, t2, c1, c2, features, parse);
  }

  /** How many condition strings the blocks give: two per range block, one per other block. */
  function Weight(blocks: seq<seq<string>>): nat
  {
    if blocks == [] then 0
    else Weight(blocks[..|blocks| - 1]) + (if "to" in blocks[|blocks| - 1] then 2 else 1)
  }

  /** The condition strings of all blocks, in order, or the first block's error. */
  function ExpandAll(blocks: seq<seq<string>>): (r: Result<seq<string>>)
    ensures r.Ok? ==> |r.value| == Weight(blocks)
  {
    if blocks == [] then Ok([])
    else
      var n := |blocks| - 1;
      var init :- ExpandAll(blocks[..n]);
      var last :- ExpandBlock(blocks[n]);
      Ok(init + last)
  }

  lemma {:induction false} ExpandAllPrefixErr(blocks: seq<seq<string>>, i: nat)
    requires i <= |blocks| && ExpandAll(blocks[..i]).Err?
    ensures ExpandAll(blocks) == ExpandAll(blocks[..i])
  {
    if i < |blocks| {
      var n := |blocks| - 1;
      assert blocks[..n][..i] == blocks[..i];
      ExpandAllPrefixErr(blocks[..n], i);
    } else {
      assert blocks[..i] == blocks;
    }
  }

  /** The block expansion loop of `create_decision_tree_structure`. */
  method ExpandBlocks(blocks: seq<seq<string>>) returns (res: Result<seq<string>>)
    ensures res == ExpandAll(blocks)
  {
    var conditions: seq<string> := [];
    for i := 0 to |blocks|
      invariant ExpandAll(blocks[..i]) == Ok(conditions)
    {
      var block := blocks[i];
      assert blocks[..i + 1][..i] == blocks[..i] && blocks[..i + 1][i] == block;
      ghost var before := conditions;
      if "to" in block {
        var idx := IndexOf(block, "to").value;
        var lo := if idx == 0 then block[|block| - 1] else block[idx - 1];
        conditions := conditions + [block[0] + ">=" + lo];
        if idx + 1 >= |block| {
          assert ExpandBlock(block).Err?;
          ExpandAllPrefixErr(blocks, i + 1);
          return Err(IndexError);
        }
        conditions := conditions + [block[0] + "<" + block[idx + 1]];
        assert ExpandBlock(block) == Ok([block[0] + ">=" + lo, block[0] + "<" + block[idx + 1]]);
        assert conditions == before + [block[0] + ">=" + lo, block[0] + "<" + block[idx + 1]];
      } else {
        conditions := conditions + [Concat(block)];
      }
    }
    assert blocks[..|blocks|] == blocks;
    return Ok(conditions);
  }

  /** The condition strings of one row. */
  function RowConditions<C>(row: DtRow<C>): Result<seq<string>>
  {
    ExpandAll(Blocks(RowWords(row)))
  }

  // ---------------------------------------------------------------------
  // The structure

  /** The values of a list of results, in order, or the first error among them. */
  function AllOk<T>(rs: seq<Result<T>>): (r: Result<seq<T>>)
    ensures r.Ok? ==> |r.value| == |rs|
  {
    if rs == [] then Ok([])
    else
      var n := |rs| - 1;
      var init :- AllOk(rs[..n]);
      var last :- rs[n];
      Ok(init + [last])
  }

  lemma {:induction false} AllOkEntries<T>(rs: seq<Result<T>>, k: nat)
    requires AllOk(rs).Ok? && k < |rs|
    ensures rs[k] == Ok(AllOk(rs).value[k])
  {
    var n := |rs| - 1;
    if k < n {
      assert rs[..n][k] == rs[k];
      AllOkEntries(rs[..n], k);
    }
  }

  lemma {:induction false} AllOkPrefixErr<T>(rs: seq<Result<T>>, i: nat)
    requires i <= |rs| && AllOk(rs[..i]).Err?
    ensures AllOk(rs) == AllOk(rs[..i])
  {
    if i < |rs| {
      var n := |rs| - 1;
      assert rs[..n][..i] == rs[..i];
      AllOkPrefixErr(rs[..n], i);
    } else {
      assert rs[..i] == rs;
    }
  }

  /** Each row's condition strings or error. */
  lemma AllOkSnoc<T>(rs: seq<Result<T>>, k: nat)
    requires k < |rs| && AllOk(rs[..k]).Ok?
    ensures AllOk(rs[..k + 1]) == if rs[k].Ok? then Ok(AllOk(rs[..k]).value + [rs[k].value]) else Err(rs[k].error)
  {
    assert rs[..k + 1][..k] == rs[..k] && rs[..k + 1][k] == rs[k];
  }

  function RowResults(rows: seq<DtRow<int>>): (rs: seq<Result<seq<string>>>)
    ensures |rs| == |rows|
  {
    seq(|rows|, k requires 0 <= k < |rows| => RowConditions(rows[k]))
  }

  /** The condition strings of every row, in row order, or the first row's error. */
  function AllConditions(rows: seq<DtRow<int>>): (r: Result<seq<seq<string>>>)
    ensures r.Ok? ==> |r.value| == |rows|
  {
    AllOk(RowResults(rows))
  }

  /** Entry `k` pairs the class of row `k` with the conditions of row `k`. */
  function Pair(rows: seq<DtRow<int>>, conditions: seq<seq<string>>): (rules: seq<Rule>)
    requires |conditions| == |rows|
    ensures |rules| == |rows|
    ensures forall k :: 0 <= k < |rows| ==> rules[k] == Rule(rows[k].cls, conditions[k])
  {
    seq(|rows|, k requires 0 <= k < |rows| => Rule(rows[k].cls, conditions[k]))
  }

  /** The rules of a table whose class column is already mapped: one rule
      per row, in row order, with the row's class. */
  function DtStructure(rows: seq<DtRow<int>>): (r: Result<seq<Rule>>)
    ensures r.Ok? ==> |r.value| == |rows|
    ensures r.Ok? ==> forall k :: 0 <= k < |rows| ==> r.value[k].cls == rows[k].cls
  {
    var conditions :- AllConditions(rows);
    Ok(Pair(rows, conditions))
  }

  /** Entry `k` of the structure holds the condition strings of row `k`. */
  lemma DtStructureEntry(rows: seq<DtRow<int>>, k: nat)
    requires DtStructure(rows).Ok? && k < |rows|
    ensures RowConditions(rows[k]).Ok?
    ensures DtStructure(rows).value[k] == Rule(rows[k].cls, RowConditions(rows[k]).value)
  {
    AllOkEntries(RowResults(rows), k);
  }

  /** The body of the row loop of `create_decision_tree_structure`. */
  method BuildRowConditions(row: DtRow<int>) returns (res: Result<seq<string>>)
    ensures res == RowConditions(row)
  {
    var words := RowWords(row);
    var blocks := BuildBlocks(words);
    res := ExpandBlocks(blocks);
  }

  /** The first loop of `create_decision_tree_structure`: the condition
      strings of every row. */
  method CollectConditions(rows: seq<DtRow<int>>) returns (res: Result<seq<seq<string>>>)
    ensures res == AllConditions(rows)
  {
    ghost var rs := RowResults(rows);
    var conditions: seq<seq<string>> := [];
    for k := 0 to |rows|
      invariant AllOk(rs[..k]) == Ok(conditions)
    {
      AllOkSnoc(rs, k);
      assert rs[k] == RowConditions(rows[k]);
      var blocks2 := BuildRowConditions(rows[k]);
      if blocks2.Err? {
        AllOkPrefixErr(rs, k + 1);
        return Err(blocks2.error);
      }
      conditions := conditions + [blocks2.value];
    }
    assert rs[..|rows|] == rs;
    return Ok(conditions);
  }

  /** The second loop of `create_decision_tree_structure`: each row's class
      with its condition strings. */
  method PairRows(rows: seq<DtRow<int>>, conditions: seq<seq<string>>) returns (structure: seq<Rule>)
    requires |conditions| == |rows|
    ensures structure == Pair(rows, conditions)
  {
    structure := [];
    for k := 0 to |rows|
      invariant |structure| == k
      invariant forall j :: 0 <= j < k ==> structure[j] == Rule(rows[j].cls, conditions[j])
    {
      structure := structure + [Rule(rows[k].cls, conditions[k])];
    }
  }

  /** `create_decision_tree_structure`: the condition strings of every row,
      then each paired with the row's class. */
  method CreateDecisionTreeStructure(rows: seq<DtRow<int>>) returns (res: Result<seq<Rule>>)
    ensures res == DtStructure(rows)
  {
    var conditions := CollectConditions(rows);
    if conditions.Err? {
      return Err(conditions.error);
    }
    var structure := PairRows(rows, conditions.value);
    return Ok(structure);
  }

  // ---------------------------------------------------------------------
  // The query

  /** The labels of the class column. */
  function Labels(rows: seq<DtRow<string>>): (ls: seq<string>)
    ensures |ls| == |rows| && forall k :: 0 <= k < |rows| ==> ls[k] == rows[k].cls
  {
    seq(|rows|, k requires 0 <= k < |rows| => rows[k].cls)
  }

  /** `dt_rules.iloc[:,0] = [mapping[x] for x in dt_rules.iloc[:,0]]` */
  function MapRows(rows: seq<DtRow<string>>, mapping: map<string, nat>): (r: seq<DtRow<int>>)
    requires forall k :: 0 <= k < |rows| ==> rows[k].cls in mapping
    ensures |r| == |rows|
    ensures forall k :: 0 <= k < |rows| ==> r[k] == DtRow(mapping[rows[k].cls] as int, rows[k].cells)
  {
    seq(|rows|, k requires 0 <= k < |rows| => DtRow(mapping[rows[k].cls] as int, rows[k].cells))
  }

  /** The class mapping of a table. */
  function DtMapping(rows: seq<DtRow<string>>): (m: map<string, nat>)
    ensures forall k :: 0 <= k < |rows| ==> rows[k].cls in m
  {
    LabelMapping(Labels(rows))
  }

  /** The decision tree's output variable `out`. */
  const Out: Var := Named("out")

  /** The constraints of a robustness query on the rules `rules`, in the
      order they are added: box, rules, then `out != O`. */
  function TreeQuery(rules: seq<Rule>, ref: Reference<string>, eps: real, o: int, parse: string -> Option<real>)
    : (r: Result<seq<Formula>>)
    ensures r.Ok? <==> EncodeRules(rules, ref.Features(), Out, parse).Ok?
    ensures r.Ok? ==> |r.value| == 2 * |ref.columns| + |rules| + 1
  {
    var model :- EncodeRules(rules, ref.Features(), Out, parse);
    Ok(PreConstraints(ref.columns, eps) + model + [PostConstraint(Out, o)])
  }

  /** The constraints of the decision-tree query: the table's classes are
      mapped, its structure built and the reference class looked up. */
  function DtQuery(rows: seq<DtRow<string>>, ref: Reference<string>, eps: real, parse: string -> Option<real>)
    : (r: Result<seq<Formula>>)
    ensures r.Ok? ==> ref.truth in DtMapping(rows) && DtStructure(MapRows(rows, DtMapping(rows))).Ok?
  {
    var mapping := DtMapping(rows);
    var rules :- DtStructure(MapRows(rows, mapping));
    if ref.truth !in mapping then Err(UnknownLabel(ref.truth))
    else TreeQuery(rules, ref, eps, mapping[ref.truth], parse)
  }

  /** A fresh solver filled in the order of `dt_smt_solver`: pre, model, post. */
  method FillTreeSolver(rules: seq<Rule>, ref: Reference<string>, eps: real, o: int, parse: string -> Option<real>)
    returns (res: Result<ConstraintStore>)
    ensures res.Ok? <==> TreeQuery(rules, ref, eps, o, parse).Ok?
    ensures res.Ok? ==> fresh(res.value) && res.value.constraints == TreeQuery(rules, ref, eps, o, parse).value
    ensures res.Err? ==> res.error == TreeQuery(rules, ref, eps, o, parse).error
  {
    var solver := new ConstraintStore();
    AddPre(solver, ref.columns, eps);
    var model := AddModel(solver, rules, ref.Features(), Out, parse);
    if model.Err? {
      return Err(model.error);
    }
    AddPost(solver, Out, o);
    return Ok(solver);
  }

  /** `dt_solver` up to the solver call: map the classes, build the
      structure, look up the reference class and fill a fresh solver. */
  method DtSolver(rows: seq<DtRow<string>>, ref: Reference<string>, eps: real, parse: string -> Option<real>)
    returns (res: Result<ConstraintStore>)
    ensures res.Ok? <==> DtQuery(rows, ref, eps, parse).Ok?
    ensures res.Ok? ==> fresh(res.value) && res.value.constraints == DtQuery(rows, ref, eps, parse).value
    ensures res.Err? ==> res.error == DtQuery(rows, ref, eps, parse).error
  {
    var mapping := DtMapping(rows);
    var structure := CreateDecisionTreeStructure(MapRows(rows, mapping));
    if structure.Err? {
      return Err(structure.error);
    }
    if ref.truth !in mapping {
      return Err(UnknownLabel(ref.truth));
    }
    res := FillTreeSolver(structure.value, ref, eps, mapping[ref.truth], parse);
  }

  /** What a tree query's constraints mean: the point is in the box, every
      rule it matches gives `out` that rule's class, and `out` is not the
      reference class. */
  lemma TreeQueryMeaning(columns: seq<(string, real)>, eps: real, rules: seq<Rule>, features: seq<string>,
                         out: Var, parse: string -> Option<real>, o: int, a: Assignment)
    requires EncodeRules(rules, features, out, parse).Ok?
    ensures ParseRules(rules, features, parse).Ok?
    ensures AllHold(PreConstraints(columns, eps) + EncodeRules(rules, features, out, parse).value
                    + [PostConstraint(out, o)], a)
      <==> InBox(columns, eps, a) && RulesRespected(a, ParseRules(rules, features, parse).value, out)
           && a.ints(out) != o
  {
    var pre := PreConstraints(columns, eps);
    var model := EncodeRules(rules, features, out, parse).value;
    EncodeRulesMeaning(rules, features, out, parse, a);
    AllHoldAppend(pre + model, [PostConstraint(out, o)], a);
    AllHoldAppend(pre, model, a);
    assert AllHold([PostConstraint(out, o)], a) <==> Holds(PostConstraint(out, o), a) by {
      assert [PostConstraint(out, o)][0] == PostConstraint(out, o);
    }
  }

  /** A point of the box that matches no rule is a counterexample: nothing
      ties `out` down except `out != O`, so any other value satisfies every
      constraint. */
  lemma UncoveredPointIsCounterexample(columns: seq<(string, real)>, eps: real, rules: seq<Rule>,
                                       features: seq<string>, out: Var, parse: string -> Option<real>,
                                       o: int, a: Assignment)
    requires EncodeRules(rules, features, out, parse).Ok?
    requires InBox(columns, eps, a)
    requires ParseRules(rules, features, parse).Ok?
    requires forall k :: 0 <= k < |rules| ==> !Matches(a, ParseRules(rules, features, parse).value[k].conditions)
    ensures AllHold(PreConstraints(columns, eps) + EncodeRules(rules, features, out, parse).value
                    + [PostConstraint(out, o)], a.WithInt(out, o + 1))
  {
    UncoveredOutputFree(columns, eps, rules, features, out, parse, o, a, o + 1);
  }

  /** At a point of the box that matches no rule, every output value other
      than the reference class satisfies the constraints. */
  lemma UncoveredOutputFree(columns: seq<(string, real)>, eps: real, rules: seq<Rule>,
                            features: seq<string>, out: Var, parse: string -> Option<real>,
                            o: int, a: Assignment, v: int)
    requires EncodeRules(rules, features, out, parse).Ok?
    requires InBox(columns, eps, a)
    requires ParseRules(rules, features, parse).Ok?
    requires forall k :: 0 <= k < |rules| ==> !Matches(a, ParseRules(rules, features, parse).value[k].conditions)
    requires v != o
    ensures AllHold(PreConstraints(columns, eps) + EncodeRules(rules, features, out, parse).value
                    + [PostConstraint(out, o)], a.WithInt(out, v))
  {
    var b := a.WithInt(out, v);
    TreeQueryMeaning(columns, eps, rules, features, out, parse, o, b);
    var guards := ParseRules(rules, features, parse).value;
    assert forall k :: 0 <= k < |guards| ==> (Matches(b, guards[k].conditions) <==> Matches(a, guards[k].conditions));
  }

  /** The output of an uncovered counterexample need not name a class: at a
      point of the box that matches no rule, the output may take the value
      one past the last class index, which satisfies every constraint and
      which the decoder `next(key for key, value in mapping.items() if ...)`
      finds no label for. */
  lemma UncoveredOutputUndecodable(columns: seq<(string, real)>, eps: real, rules: seq<Rule>,
                                   features: seq<string>, out: Var, parse: string -> Option<real>,
                                   labels: seq<string>, o: int, a: Assignment)
    requires EncodeRules(rules, features, out, parse).Ok? && ParseRules(rules, features, parse).Ok?
    requires InBox(columns, eps, a)
    requires forall k :: 0 <= k < |rules| ==> !Matches(a, ParseRules(rules, features, parse).value[k].conditions)
    requires 0 <= o < |SortedLabels(labels)|
    ensures var b := a.WithInt(out, |SortedLabels(labels)|);
      && AllHold(PreConstraints(columns, eps) + EncodeRules(rules, features, out, parse).value
                 + [PostConstraint(out, o)], b)
      && Decode(SortedLabels(labels), b.ints(out)).None?
  {
    var n := |SortedLabels(labels)|;
    UncoveredOutputFree(columns, eps, rules, features, out, parse, o, a, n);
    assert a.WithInt(out, n).ints(out) == n;
    DecodePastEnd(SortedLabels(labels));
  }

  /** A point that matches a rule is a counterexample only if that rule's
      class differs from the reference class: with a matched rule of the
      reference class the constraints cannot all hold. */
  lemma MatchedRuleDecides(columns: seq<(string, real)>, eps: real, rules: seq<Rule>, features: seq<string>,
                           out: Var, parse: string -> Option<real>, o: int, a: Assignment, k: nat)
    requires EncodeRules(rules, features, out, parse).Ok?
    requires AllHold(PreConstraints(columns, eps) + EncodeRules(rules, features, out, parse).value
                     + [PostConstraint(out, o)], a)
    requires k < |rules| && ParseRules(rules, features, parse).Ok?
    requires Matches(a, ParseRules(rules, features, parse).value[k].conditions)
    ensures a.ints(out) == rules[k].cls && rules[k].cls != o
  {
    TreeQueryMeaning(columns, eps, rules, features, out, parse, o, a);
  }

  /** The rule `x>1 & y<=2` of class 0 parses to its two conditions. */
  lemma SingleRuleParses(one: string, two: string, parse: string -> Option<real>)
    requires OperatorFree(one) && OperatorFree(two)
    requires parse(one) == Some(1.0) && parse(two) == Some(2.0)
    ensures ParseRules([Rule(0, ["x" + ">" + one, "y" + "<=" + two])], ["x", "y"], parse)
         == Ok([Guard(0, [Condition("x", Gt, 1.0), Condition("y", Le, 2.0)])])
  {
    var cx := Condition("x", Gt, 1.0);
    var cy := Condition("y", Le, 2.0);
    SingleRuleTerms(one, two, parse);
    ParseOneRule(Rule(0, ["x" + ">" + one, "y" + "<=" + two]), [cx, cy], ["x", "y"], parse);
  }

  /** The terms `x>1` and `y<=2` read as their two conditions. */
  lemma SingleRuleTerms(one: string, two: string, parse: string -> Option<real>)
    requires OperatorFree(one) && OperatorFree(two)
    requires parse(one) == Some(1.0) && parse(two) == Some(2.0)
    ensures ParseConditions(["x" + ">" + one, "y" + "<=" + two], ["x", "y"], parse)
         == Ok([Condition("x", Gt, 1.0), Condition("y", Le, 2.0)])
  {
    var features := ["x", "y"];
    var cx := Condition("x", Gt, 1.0);
    var cy := Condition("y", Le, 2.0);
    assert Render(cx, one) == "x" + ">" + one && Render(cy, two) == "y" + "<=" + two;
    assert OperatorFree("x") && OperatorFree("y");
    ParseRendered(cx, one, features, parse);
    ParseRendered(cy, two, features, parse);
    ParseTwoTerms(Render(cx, one), Render(cy, two), cx, cy, features, parse);
  }

  /** A single rule reads as its class and its parsed conditions. */
  lemma ParseOneRule(r: Rule, cs: seq<Condition>, features: seq<string>, parse: string -> Option<real>)
    requires ParseConditions(r.terms, features, parse) == Ok(cs)
    ensures ParseRules([r], features, parse) == Ok([Guard(r.cls, cs)])
  {
    var rules := [r];
    assert rules[0] == r && rules[1..] == [];
    assert ParseRules(rules[1..], features, parse) == Ok([]);
    assert [Guard(r.cls, cs)] + [] == [Guard(r.cls, cs)];
  }

  /** A tree with the single rule `x>1 & y<=2` of class 0, queried at
      `x = 0, y = 0` of class 0 with epsilon 0: the reference point matches
      no rule, so it is itself a counterexample with any other class; and no
      counterexample ever matches the rule. (`one` and `two` are the
      threshold texts, read as 1 and 2.) */
  lemma SingleRuleExample(one: string, two: string, parse: string -> Option<real>, a: Assignment)
    requires OperatorFree(one) && OperatorFree(two)
    requires parse(one) == Some(1.0) && parse(two) == Some(2.0)
    ensures var rules := [Rule(0, ["x" + ">" + one, "y" + "<=" + two])];
      && EncodeRules(rules, ["x", "y"], Out, parse).Ok?
      && (a.reals(Named("x")) == 0.0 && a.reals(Named("y")) == 0.0 && a.ints(Out) == 1 ==>
            AllHold(PreConstraints([("x", 0.0), ("y", 0.0)], 0.0)
                    + EncodeRules(rules, ["x", "y"], Out, parse).value + [PostConstraint(Out, 0)], a))
      && (AllHold(PreConstraints([("x", 0.0), ("y", 0.0)], 0.0)
                  + EncodeRules(rules, ["x", "y"], Out, parse).value + [PostConstraint(Out, 0)], a) ==>
            !(a.reals(Named("x")) > 1.0 && a.reals(Named("y")) <= 2.0))
  {
    var rules := [Rule(0, ["x" + ">" + one, "y" + "<=" + two])];
    var columns := [("x", 0.0), ("y", 0.0)];
    var guards := [Guard(0, [Condition("x", Gt, 1.0), Condition("y", Le, 2.0)])];
    SingleRuleParses(one, two, parse);
    assert EncodeRules(rules, ["x", "y"], Out, parse).Ok? by {
      EncodeRulesMeaning(rules, ["x", "y"], Out, parse, a);
    }
    TreeQueryMeaning(columns, 0.0, rules, ["x", "y"], Out, parse, 0, a);
    TwoColumnBox(a);
    SingleGuardRespected(a);
  }

  /** The box of radius 0 around `x = 0, y = 0` is that point. */
  lemma TwoColumnBox(a: Assignment)
    ensures InBox([("x", 0.0), ("y", 0.0)], 0.0, a) <==> a.reals(Named("x")) == 0.0 && a.reals(Named("y")) == 0.0
  {
    var columns := [("x", 0.0), ("y", 0.0)];
    assert columns[0] == ("x", 0.0) && columns[1] == ("y", 0.0);
  }

  /** The single guard `x > 1 & y <= 2` of class 0 is respected exactly when a
      point matching it has output 0. */
  lemma SingleGuardRespected(a: Assignment)
    ensures RulesRespected(a, [Guard(0, [Condition("x", Gt, 1.0), Condition("y", Le, 2.0)])], Out) <==>
      (a.reals(Named("x")) > 1.0 && a.reals(Named("y")) <= 2.0 ==> a.ints(Out) == 0)
  {
    var g := [Condition("x", Gt, 1.0), Condition("y", Le, 2.0)];
    assert g[0] == Condition("x", Gt, 1.0) && g[1] == Condition("y", Le, 2.0);
    assert Matches(a, g) <==> a.reals(Named("x")) > 1.0 && a.reals(Named("y")) <= 2.0;
    var guards := [Guard(0, g)];
    assert guards[0] == Guard(0, g);
  }
}
