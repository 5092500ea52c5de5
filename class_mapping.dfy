/** The class mapping: the dictionary from class labels to dense integer
    indices that the encoders use for the reference label and for rule
    classes, and the reverse lookup that turns the solver's output back into
    a label. */
module ClassMapping {
  import opened Wrappers

  /** Python's `<` on `str`: lexicographic by code point. */
  predicate Below(x: string, y: string)
  {
    if x == [] then y != []
    else y != [] && (x[0] < y[0] || (x[0] == y[0] && Below(x[1..], y[1..])))
  }

  lemma {:induction false} BelowIrreflexive(x: string)
    ensures !Below(x, x)
  {
    if x != [] {
      BelowIrreflexive(x[1..]);
    }
  }

  lemma {:induction false} BelowTransitive(x: string, y: string, z: string)
    requires Below(x, y) && Below(y, z)
    ensures Below(x, z)
  {
    if x != [] && x[0] == y[0] && y[0] == z[0] {
      BelowTransitive(x[1..], y[1..], z[1..]);
    }
  }

  lemma {:induction false} BelowTotal(x: string, y: string)
    ensures x == y || Below(x, y) || Below(y, x)
  {
    if x != [] && y != [] && x[0] == y[0] {
      BelowTotal(x[1..], y[1..]);
      if x[1..] == y[1..] {
        assert x == [x[0]] + x[1..] && y == [y[0]] + y[1..];
      }
    }
  }

  predicate StrictlySorted(s: seq<string>)
  {
    forall i, j :: 0 <= i < j < |s| ==> Below(s[i], s[j])
  }

  predicate Distinct<T(==)>(s: seq<T>)
  {
    forall i, j :: 0 <= i < j < |s| ==> s[i] != s[j]
  }

  lemma SortedIsDistinct(s: seq<string>)
    requires StrictlySorted(s)
    ensures Distinct(s)
  {
    forall i, j | 0 <= i < j < |s| ensures s[i] != s[j] {
      BelowIrreflexive(s[i]);
    }
  }

  /** Inserts `x` into a strictly sorted list unless it is already there. */
  function Insert(s: seq<string>, x: string): (r: seq<string>)
    requires StrictlySorted(s)
    ensures StrictlySorted(r)
    ensures forall y :: y in r <==> y in s || y == x
  {
    if s == [] then [x]
    else if x == s[0] then s
    else if Below(x, s[0]) then
      assert forall j :: 0 < j < |s| ==> Below(x, s[j]) by {
        forall j | 0 < j < |s| ensures Below(x, s[j]) {
          BelowTransitive(x, s[0], s[j]);
        }
      }
      [x] + s
    else
      BelowTotal(x, s[0]);
      var tail := Insert(s[1..], x);
      assert forall y :: y in tail ==> Below(s[0], y);
      [s[0]] + tail
  }

  /** `sorted(set(labels))` */
  function SortedLabels(labels: seq<string>): (r: seq<string>)
    ensures StrictlySorted(r)
    ensures forall y :: y in r <==> y in labels
  {
    if labels == [] then []
    else
      var init := labels[..|labels| - 1];
      var r := Insert(SortedLabels(init), labels[|labels| - 1]);
      assert forall y :: y in labels <==> y in init || y == labels[|labels| - 1] by {
        assert labels == init + [labels[|labels| - 1]];
      }
      r
  }

  /** `{c: i for i, c in enumerate(classes)}`: each class to its position; a
      class listed twice keeps its last position. */
  function Enumerate(classes: seq<string>): (m: map<string, nat>)
    ensures forall c :: c in m <==> c in classes
    ensures forall c :: c in m ==> m[c] < |classes| && classes[m[c]] == c
    ensures forall c, j :: c in m && m[c] < j < |classes| ==> classes[j] != c
  {
    if classes == [] then map[]
    else
      var n := |classes| - 1;
      var init := classes[..n];
      var m0 := Enumerate(init);
      assert forall c :: c in classes <==> c in init || c == classes[n] by {
        assert classes == init + [classes[n]];
      }
      m0[classes[n] := n]
  }

  /** Where several positions hold the same class, the mapping keeps the last;
      on a duplicate-free list every class is sent to its own position. */
  lemma EnumerateDistinct(classes: seq<string>, i: nat)
    requires Distinct(classes) && i < |classes|
    ensures classes[i] in Enumerate(classes) && Enumerate(classes)[classes[i]] == i
  {
    var m := Enumerate(classes);
    var c := classes[i];
    assert c in m;
  }

  /** `dict([(y, x) for x, y in enumerate(sorted(set(labels)))])` */
  function LabelMapping(labels: seq<string>): map<string, nat>
  {
    Enumerate(SortedLabels(labels))
  }

  lemma {:induction false} DistinctCardinality(s: seq<string>)
    requires Distinct(s)
    ensures |set x | x in s| == |s|
  {
    if s != [] {
      var init := s[..|s| - 1];
      DistinctCardinality(init);
      assert s == init + [s[|s| - 1]];
      assert (set x | x in s) == (set x | x in init) + {s[|s| - 1]};
    }
  }

  /** The label mapping is a bijection from the distinct labels onto
      `0 .. k-1`, where `k` is the number of distinct labels, and it numbers
      the labels in increasing order. */
  lemma LabelMappingIsRanking(labels: seq<string>)
    ensures var m := LabelMapping(labels);
      && (forall l :: l in m <==> l in labels)
      && |SortedLabels(labels)| == |set l | l in labels|
      && (forall l :: l in m ==> m[l] < |SortedLabels(labels)|)
      && (forall v :: 0 <= v < |SortedLabels(labels)| ==>
            SortedLabels(labels)[v] in m && m[SortedLabels(labels)[v]] == v)
      && (forall l1, l2 :: l1 in m && l2 in m && l1 != l2 ==> m[l1] != m[l2])
      && (forall l1, l2 :: l1 in m && l2 in m && Below(l1, l2) ==> m[l1] < m[l2])
  {
    var s := SortedLabels(labels);
    var m := LabelMapping(labels);
    SortedIsDistinct(s);
    assert (set l | l in s) == (set l | l in labels);
    DistinctCardinality(s);
    forall v | 0 <= v < |s| ensures s[v] in m && m[s[v]] == v {
      EnumerateDistinct(s, v);
    }
    forall l1, l2 | l1 in m && l2 in m && Below(l1, l2) ensures m[l1] < m[l2] {
      if m[l1] == m[l2] {
        BelowIrreflexive(l1);
      } else if m[l1] > m[l2] {
        BelowTransitive(l1, l2, l1);
        BelowIrreflexive(l1);
      }
    }
  }

  /** The first key, in `keys` order, that `m` sends to `v`. */
  function Search(keys: seq<string>, m: map<string, nat>, v: int): (r: Option<string>)
    ensures r.Some? ==> r.value in keys && r.value in m && m[r.value] == v
    ensures r.None? ==> forall c :: c in keys && c in m ==> m[c] != v
  {
    if keys == [] then None
    else if keys[0] in m && m[keys[0]] == v then Some(keys[0])
    else Search(keys[1..], m, v)
  }

  /** `next(key for key, value in mapping.items() if value == v)`, with None
      for the StopIteration raised when no class has index `v`. The dictionary
      lists its keys in the order they were first inserted, that is, in the
      order of `classes`. */
  function Decode(classes: seq<string>, v: int): (r: Option<string>)
    ensures r.Some? ==> r.value in Enumerate(classes) && Enumerate(classes)[r.value] == v
    ensures r.None? ==> forall c :: c in Enumerate(classes) ==> Enumerate(classes)[c] != v
  {
    Search(classes, Enumerate(classes), v)
  }

  /** The value one past the last index decodes to no class. */
  lemma DecodePastEnd(classes: seq<string>)
    ensures Decode(classes, |classes|).None?
  {
  }

  /** Decoding inverts the mapping: the index of a class decodes to that
      class, and on a duplicate-free list exactly the indices `0 .. |classes|-1`
      decode. */
  lemma DecodeInvertsMapping(classes: seq<string>, c: string, v: int)
    requires Distinct(classes)
    ensures c in classes ==> Decode(classes, Enumerate(classes)[c]) == Some(c)
    ensures Decode(classes, v).Some? <==> 0 <= v < |classes|
  {
    var m := Enumerate(classes);
    if c in classes {
      var r := Decode(classes, m[c]);
      assert r.Some?;
    }
    if 0 <= v < |classes| {
      EnumerateDistinct(classes, v);
    }
  }
}
