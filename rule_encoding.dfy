/** Turning extracted tree rules into solver constraints (`add_model`, shared
    word for word by the decision-tree and the random-forest encoders): each
    textual term `feature<op>threshold` becomes a comparison on the feature's
    variable, the comparisons of a rule are conjoined, and the rule adds
    "conjunction implies output == class". */
module RuleEncoding {
  import opened Wrappers
  import opened Text
  import opened Smt
  import opened Neighbourhood

  /** One extracted rule: its (already mapped) class and its textual terms. */
  datatype Rule = Rule(cls: int, terms: seq<string>)

  /** One parsed term: `X[feature] <rel> threshold`. */
  datatype Condition = Condition(feature: string, rel: Rel, threshold: real)

  /** A rule after its terms were parsed: the class and the conditions that
      select it (terms without an operator are dropped). */
  datatype Guard = Guard(cls: int, conditions: seq<Condition>)

  /** The operators, in the order in which a term is searched for them. */
  const Operators: seq<Rel> := [Le, Ge, Lt, Gt]

  function Symbol(rel: Rel): (s: string)
    ensures |s| > 0
  {
    match rel
    case Le => "<="
    case Ge => ">="
    case Lt => "<"
    case Gt => ">"
    case Eq => "=="
  }

  /** The position, in `ops`, of the first operator whose symbol occurs in `term`. */
  function FirstMatch(term: string, ops: seq<Rel>): (k: Option<nat>)
    ensures k.Some? ==> k.value < |ops| && Contains(term, Symbol(ops[k.value]))
    ensures k.Some? ==> forall j :: 0 <= j < k.value ==> !Contains(term, Symbol(ops[j]))
    ensures k.None? ==> forall j :: 0 <= j < |ops| ==> !Contains(term, Symbol(ops[j]))
  {
    if ops == [] then None
    else if Contains(term, Symbol(ops[0])) then Some(0)
    else
      var r := FirstMatch(term, ops[1..]);
      assert forall j :: 0 < j < |ops| ==> ops[1..][j - 1] == ops[j];
      match r
      case None => None
      case Some(k) => Some(k + 1)
  }

  /** The operator a term is read with: the first of `<=`, `>=`, `<`, `>` that
      occurs in it anywhere. */
  function FirstOperator(term: string): Option<Rel>
  {
    match FirstMatch(term, Operators)
    case None => None
    case Some(k) => Some(Operators[k])
  }

  /** The operator search of `add_model`: try the operators in order and stop
      at the first that occurs in the term. */
  method ScanOperator(term: string) returns (op: Option<Rel>)
    ensures op.Some? ==> op.value in Operators && Contains(term, Symbol(op.value))
    ensures op == FirstOperator(term)
  {
    op := None;
    var k := 0;
    while k < |Operators|
      invariant 0 <= k <= |Operators|
      invariant forall j :: 0 <= j < k ==> !Contains(term, Symbol(Operators[j]))
      invariant op.None?
    {
      if Contains(term, Symbol(Operators[k])) {
        op := Some(Operators[k]);
        assert FirstMatch(term, Operators) == Some(k);
        return;
      }
      k := k + 1;
    }
  }

  /** The characters operators are made of. */
  predicate OperatorFree(s: string)
  {
    '<' !in s && '>' !in s && '=' !in s
  }

  /** Reads one term: no operator gives `None` (the term is skipped);
      otherwise the term must split on its operator into exactly a feature
      name and a threshold text, the name must be a feature column and the
      text must parse as a number. */
  function ParseTerm(term: string, features: seq<string>, parse: string -> Option<real>)
    : Result<Option<Condition>>
  {
    match FirstOperator(term)
    case None => Ok(None)
    case Some(rel) =>
      var parts := Split(term, Symbol(rel));
      if |parts| != 2 then Err(BadTerm(term))
      else if parts[0] !in features then Err(UnknownFeature(parts[0]))
      else
        match parse(parts[1])
        case None => Err(BadThreshold(parts[1]))
        case Some(v) => Ok(Some(Condition(parts[0], rel, v)))
  }

  /** A term is skipped exactly when it holds no operator; a term read as a
      condition is the feature name, the first operator found and a text that
      parses as the threshold; the errors name a term that does not split in
      two and a name that is not a feature. */
  lemma ParseTermMeaning(term: string, features: seq<string>, parse: string -> Option<real>)
    ensures var r := ParseTerm(term, features, parse);
      && ((r.Ok? && r.value.None?) <==> FirstOperator(term).None?)
      && (r.Ok? && r.value.Some? ==>
            var c := r.value.value;
            var n := |c.feature| + |Symbol(c.rel)|;
            && FirstOperator(term) == Some(c.rel)
            && c.feature in features
            && n <= |term|
            && term == c.feature + Symbol(c.rel) + term[n..]
            && parse(term[n..]) == Some(c.threshold))
      && (r.Err? && r.error.BadTerm? ==>
            FirstOperator(term).Some? && |Split(term, Symbol(FirstOperator(term).value))| != 2)
      && (r.Err? && r.error.UnknownFeature? ==> r.error.name !in features)
  {
    match FirstOperator(term)
    case None =>
    case Some(rel) =>
      var parts := Split(term, Symbol(rel));
      if |parts| == 2 && parts[0] in features && parse(parts[1]).Some? {
        assert ParseTerm(term, features, parse) == Ok(Some(Condition(parts[0], rel, parse(parts[1]).value)));
        JoinSplit(term, Symbol(rel));
        assert Join(parts, Symbol(rel)) == parts[0] + Symbol(rel) + parts[1];
        assert term[|parts[0]| + |Symbol(rel)|..] == parts[1];
      }
  }

  /** `feature<op>threshold`, the way the rule extractors write a term. */
  function Render(c: Condition, text: string): string
  {
    c.feature + Symbol(c.rel) + text
  }

  /** A term written from a condition reads back as that condition, provided
      neither the name nor the threshold text contains an operator character:
      in particular `x<=1` is read as `<=` although it also contains `<`. */
  lemma ParseRendered(c: Condition, text: string, features: seq<string>, parse: string -> Option<real>)
    requires c.rel in Operators && c.feature in features
    requires OperatorFree(c.feature) && OperatorFree(text)
    requires parse(text) == Some(c.threshold)
    ensures ParseTerm(Render(c, text), features, parse) == Ok(Some(c))
  {
    RenderedOperator(c, text);
    SplitAroundSeparator(c.feature, Symbol(c.rel), text);
  }

  /** The operator found in a rendered term is the one it was written with. */
  lemma RenderedOperator(c: Condition, text: string)
    requires c.rel in Operators
    requires OperatorFree(c.feature) && OperatorFree(text)
    ensures FirstOperator(Render(c, text)) == Some(c.rel)
  {
    var f := c.feature;
    var term := Render(c, text);
    var sym := Symbol(c.rel);
    assert OccursAt(term, sym, |f|) by { assert term[|f|..|f| + |sym|] == sym; }
    match c.rel {
      case Le =>
        assert FirstMatch(term, Operators) == Some(0);
      case Ge =>
        assert '<' !in term;
        LacksChar(term, "<=", 0);
        assert FirstMatch(term, Operators) == Some(1);
      case Lt =>
        assert '=' !in term && '>' !in term;
        LacksChar(term, "<=", 1);
        LacksChar(term, ">=", 0);
        assert FirstMatch(term, Operators) == Some(2);
      case Gt =>
        assert '<' !in term && '=' !in term;
        LacksChar(term, "<=", 0);
        LacksChar(term, ">=", 1);
        LacksChar(term, "<", 0);
        assert FirstMatch(term, Operators) == Some(3);
    }
  }

  /** The comparison a condition stands for. */
  function Atom(c: Condition): (f: Formula)
  {
    RCmp(c.rel, RVar(FeatureVar(c.feature)), RConst(c.threshold))
  }

  predicate Satisfies(a: Assignment, c: Condition)
  {
    Compare(c.rel, a.reals(FeatureVar(c.feature)), c.threshold)
  }

  /** The point `a` meets every condition of a rule. */
  predicate Matches(a: Assignment, conditions: seq<Condition>)
  {
    forall k | 0 <= k < |conditions| :: Satisfies(a, conditions[k])
  }

  lemma AtomMeaning(c: Condition, a: Assignment)
    ensures Holds(Atom(c), a) <==> Satisfies(a, c)
  {
    assert EvalReal(RVar(FeatureVar(c.feature)), a) == a.reals(FeatureVar(c.feature));
  }

  /** The conditions of a list of terms, in order, or the first term's error. */
  function ParseConditions(terms: seq<string>, features: seq<string>, parse: string -> Option<real>)
    : (r: Result<seq<Condition>>)
    ensures r.Ok? ==> |r.value| <= |terms|
  {
    if terms == [] then Ok([])
    else
      var c :- ParseTerm(terms[0], features, parse);
      var rest :- ParseConditions(terms[1..], features, parse);
      Ok((if c.Some? then [c.value] else []) + rest)
  }

  /** Two terms that each read as a condition read as those two conditions. */
  lemma ParseTwoTerms(t1: string, t2: string, c1: Condition, c2: Condition,
                      features: seq<string>, parse: string -> Option<real>)
    requires ParseTerm(t1, features, parse) == Ok(Some(c1))
    requires ParseTerm(t2, features, parse) == Ok(Some(c2))
    ensures ParseConditions([t1, t2], features, parse) == Ok([c1, c2])
  {
    var last := [t2];
    assert last[0] == t2 && last[1..] == [];
    assert ParseConditions(last, features, parse) == Ok([c2] + []);
    assert [c2] + [] == [c2];
    var terms := [t1, t2];
    assert terms[0] == t1 && terms[1..] == last;
    assert ParseTerm(terms[0], features, parse) == Ok(Some(c1));
    assert ParseConditions(terms[1..], features, parse) == Ok([c2]);
    assert ParseConditions(terms, features, parse) == Ok([c1] + [c2]);
    assert [c1] + [c2] == [c1, c2];
  }

  /** The running conjunction `z3_condition`, continued from `acc` over `terms`. */
  function EncodeTerms(acc: Formula, terms: seq<string>, features: seq<string>, parse: string -> Option<real>)
    : Result<Formula>
    decreases |terms|
  {
    if terms == [] then Ok(acc)
    else
      var c :- ParseTerm(terms[0], features, parse);
      EncodeTerms(if c.Some? then And([acc, Atom(c.value)]) else acc, terms[1..], features, parse)
  }

  /** The running conjunction fails exactly where parsing the terms fails,
      with the same error, and otherwise holds exactly when the starting
      formula and every parsed condition hold. */
  lemma {:induction false} EncodeTermsMeaning(acc: Formula, terms: seq<string>, features: seq<string>,
                                               parse: string -> Option<real>, a: Assignment)
    ensures EncodeTerms(acc, terms, features, parse).Ok? <==> ParseConditions(terms, features, parse).Ok?
    ensures EncodeTerms(acc, terms, features, parse).Err? ==>
      EncodeTerms(acc, terms, features, parse).error == ParseConditions(terms, features, parse).error
    ensures EncodeTerms(acc, terms, features, parse).Ok? ==>
      (Holds(EncodeTerms(acc, terms, features, parse).value, a)
       <==> Holds(acc, a) && Matches(a, ParseConditions(terms, features, parse).value))
    decreases |terms|
  {
    if terms != [] {
      var c := ParseTerm(terms[0], features, parse);
      if c.Ok? {
        var next := if c.value.Some? then And([acc, Atom(c.value.value)]) else acc;
        var head := if c.value.Some? then [c.value.value] else [];
        var rest := ParseConditions(terms[1..], features, parse);
        assert EncodeTerms(acc, terms, features, parse) == EncodeTerms(next, terms[1..], features, parse);
        assert ParseConditions(terms, features, parse)
            == (if rest.Ok? then Ok(head + rest.value) else Err(rest.error));
        EncodeTermsMeaning(next, terms[1..], features, parse, a);
        if rest.Ok? {
          MatchesAppend(head, rest.value, a);
          if c.value.Some? {
            ConjunctionMeaning(acc, c.value.value, a);
          }
        }
      } else {
        assert EncodeTerms(acc, terms, features, parse) == Err(c.error);
        assert ParseConditions(terms, features, parse) == Err(c.error);
      }
    }
  }

  lemma ConjunctionMeaning(acc: Formula, c: Condition, a: Assignment)
    ensures Holds(And([acc, Atom(c)]), a) <==> Holds(acc, a) && Satisfies(a, c)
  {
    var conj := [acc, Atom(c)];
    AtomMeaning(c, a);
    assert Holds(And(conj), a) <==> Holds(conj[0], a) && Holds(conj[1], a);
  }

  lemma MatchesAppend(cs: seq<Condition>, ds: seq<Condition>, a: Assignment)
    ensures Matches(a, cs + ds) <==> Matches(a, cs) && Matches(a, ds)
  {
    if Matches(a, cs + ds) {
      forall k | 0 <= k < |cs| ensures Satisfies(a, cs[k]) {
        assert (cs + ds)[k] == cs[k];
      }
      forall k | 0 <= k < |ds| ensures Satisfies(a, ds[k]) {
        assert (cs + ds)[|cs| + k] == ds[k];
      }
    }
  }

  /** `Implies(z3_condition, out == classes)` for one rule. */
  function EncodeRule(rule: Rule, features: seq<string>, out: Var, parse: string -> Option<real>)
    : Result<Formula>
  {
    var conj :- EncodeTerms(FTrue, rule.terms, features, parse);
    Ok(Implies(conj, ICmp(Eq, IVar(out), IConst(rule.cls))))
  }

  /** The constraints of all rules, in order, or the first error met. */
  function EncodeRules(rules: seq<Rule>, features: seq<string>, out: Var, parse: string -> Option<real>)
    : (r: Result<seq<Formula>>)
    ensures r.Ok? ==> |r.value| == |rules|
  {
    if rules == [] then Ok([])
    else
      var f :- EncodeRule(rules[0], features, out, parse);
      var rest :- EncodeRules(rules[1..], features, out, parse);
      Ok([f] + rest)
  }

  /** Every rule with its terms parsed, or the first error met. */
  function ParseRules(rules: seq<Rule>, features: seq<string>, parse: string -> Option<real>)
    : (r: Result<seq<Guard>>)
    ensures r.Ok? ==> |r.value| == |rules|
    ensures r.Ok? ==> forall k :: 0 <= k < |rules| ==> r.value[k].cls == rules[k].cls
  {
    if rules == [] then Ok([])
    else
      var cs :- ParseConditions(rules[0].terms, features, parse);
      var rest :- ParseRules(rules[1..], features, parse);
      Ok([Guard(rules[0].cls, cs)] + rest)
  }

  /** Every rule whose conditions `a` meets gives `out` its class. */
  predicate RulesRespected(a: Assignment, guards: seq<Guard>, out: Var)
  {
    forall k | 0 <= k < |guards| :: Matches(a, guards[k].conditions) ==> a.ints(out) == guards[k].cls
  }

  /** The rule constraints fail exactly where parsing fails, with the same
      error; otherwise a point satisfies them exactly when every rule it
      matches gives the output its class. */
  lemma {:induction false} EncodeRulesMeaning(rules: seq<Rule>, features: seq<string>, out: Var,
                                              parse: string -> Option<real>, a: Assignment)
    ensures EncodeRules(rules, features, out, parse).Ok? <==> ParseRules(rules, features, parse).Ok?
    ensures EncodeRules(rules, features, out, parse).Err? ==>
      EncodeRules(rules, features, out, parse).error == ParseRules(rules, features, parse).error
    ensures EncodeRules(rules, features, out, parse).Ok? ==>
      (AllHold(EncodeRules(rules, features, out, parse).value, a)
       <==> RulesRespected(a, ParseRules(rules, features, parse).value, out))
  {
    if rules != [] {
      var conj := EncodeTerms(FTrue, rules[0].terms, features, parse);
      var cs := ParseConditions(rules[0].terms, features, parse);
      EncodeTermsMeaning(FTrue, rules[0].terms, features, parse, a);
      if conj.Ok? {
        var f := Implies(conj.value, ICmp(Eq, IVar(out), IConst(rules[0].cls)));
        var rest := EncodeRules(rules[1..], features, out, parse);
        var grest := ParseRules(rules[1..], features, parse);
        assert EncodeRules(rules, features, out, parse)
            == (if rest.Ok? then Ok([f] + rest.value) else Err(rest.error));
        assert ParseRules(rules, features, parse)
            == (if grest.Ok? then Ok([Guard(rules[0].cls, cs.value)] + grest.value) else Err(grest.error));
        EncodeRulesMeaning(rules[1..], features, out, parse, a);
        if rest.Ok? {
          RuleMeaning(conj.value, cs.value, rules[0].cls, out, a);
          AllHoldAppend([f], rest.value, a);
          RespectedCons(Guard(rules[0].cls, cs.value), grest.value, out, a);
        }
      } else {
        assert EncodeRules(rules, features, out, parse) == Err(conj.error);
        assert ParseRules(rules, features, parse) == Err(cs.error);
      }
    }
  }

  lemma RuleMeaning(conj: Formula, cs: seq<Condition>, cls: int, out: Var, a: Assignment)
    requires Holds(conj, a) <==> Holds(FTrue, a) && Matches(a, cs)
    ensures AllHold([Implies(conj, ICmp(Eq, IVar(out), IConst(cls)))], a)
      <==> (Matches(a, cs) ==> a.ints(out) == cls)
  {
    var f := Implies(conj, ICmp(Eq, IVar(out), IConst(cls)));
    var eq := ICmp(Eq, IVar(out), IConst(cls));
    assert [f][0] == f;
    assert AllHold([f], a) <==> Holds(f, a);
    assert EvalInt(IVar(out), a) == a.ints(out);
    assert Holds(eq, a) <==> a.ints(out) as real == cls as real;
    assert Holds(f, a) <==> (Holds(conj, a) ==> Holds(eq, a));
  }

  lemma RespectedCons(g: Guard, rest: seq<Guard>, out: Var, a: Assignment)
    ensures RulesRespected(a, [g] + rest, out)
      <==> (Matches(a, g.conditions) ==> a.ints(out) == g.cls) && RulesRespected(a, rest, out)
  {
    var all := [g] + rest;
    assert all[0] == g;
    assert forall k :: 0 <= k < |rest| ==> all[k + 1] == rest[k];
  }

  /** The outcome of `EncodeRules` after `done` constraints were already added. */
  function Prepend(done: seq<Formula>, r: Result<seq<Formula>>): Result<seq<Formula>>
  {
    if r.Ok? then Ok(done + r.value) else r
  }

  /** The inner loop of `add_model`: the conjunction `z3_condition` of one
      rule's terms, starting from `True`. */
  method BuildCondition(terms: seq<string>, features: seq<string>, parse: string -> Option<real>)
    returns (res: Result<Formula>)
    ensures res == EncodeTerms(FTrue, terms, features, parse)
  {
    var cond := FTrue;
    var t := 0;
    while t < |terms|
      invariant 0 <= t <= |terms|
      invariant EncodeTerms(FTrue, terms, features, parse) == EncodeTerms(cond, terms[t..], features, parse)
    {
      var term := terms[t];
      assert terms[t..][0] == term && terms[t..][1..] == terms[t + 1..];
      var op := ScanOperator(term);
      if op.Some? {
        var parts := Split(term, Symbol(op.value));
        if |parts| != 2 {
          return Err(BadTerm(term));
        }
        var name, value := parts[0], parts[1];
        if name !in features {
          return Err(UnknownFeature(name));
        }
        var threshold := parse(value);
        if threshold.None? {
          return Err(BadThreshold(value));
        }
        cond := And([cond, Atom(Condition(name, op.value, threshold.value))]);
      }
      t := t + 1;
    }
    assert terms[t..] == [];
    return Ok(cond);
  }

  /** `add_model`: for each rule, build the conjunction of its terms and add
      the implication to the solver. A malformed term aborts with its error. */
  method AddModel(store: ConstraintStore, rules: seq<Rule>, features: seq<string>, out: Var,
                  parse: string -> Option<real>)
    returns (res: Result<()>)
    modifies store
    ensures res.Ok? <==> EncodeRules(rules, features, out, parse).Ok?
    ensures res.Ok? ==> store.constraints == old(store.constraints) + EncodeRules(rules, features, out, parse).value
    ensures res.Err? ==> res.error == EncodeRules(rules, features, out, parse).error
  {
    ghost var added: seq<Formula> := [];
    var r := 0;
    assert rules[r..] == rules;
    assert EncodeRules(rules, features, out, parse).Ok? ==>
      added + EncodeRules(rules, features, out, parse).value == EncodeRules(rules, features, out, parse).value;
    while r < |rules|
      invariant 0 <= r <= |rules|
      invariant store.constraints == old(store.constraints) + added
      invariant EncodeRules(rules, features, out, parse)
                == Prepend(added, EncodeRules(rules[r..], features, out, parse))
    {
      assert rules[r..][0] == rules[r] && rules[r..][1..] == rules[r + 1..];
      var cond := BuildCondition(rules[r].terms, features, parse);
      if cond.Err? {
        return Err(cond.error);
      }
      var f := Implies(cond.value, ICmp(Eq, IVar(out), IConst(rules[r].cls)));
      ghost var rest := EncodeRules(rules[r + 1..], features, out, parse);
      assert EncodeRules(rules[r..], features, out, parse)
          == (if rest.Ok? then Ok([f] + rest.value) else rest);
      assert rest.Ok? ==> added + ([f] + rest.value) == (added + [f]) + rest.value;
      store.Add(f);
      added := added + [f];
      r := r + 1;
    }
    assert rules[r..] == [];
    return Ok(());
  }
}
