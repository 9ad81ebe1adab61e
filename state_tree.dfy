/**
 A stateful object's state is a tree: a map from field names to values, where
 a value is either a scalar or a nested tree. This module also gives the merge
 that `setState` performs, `deepAssign({}, oldState, value)`, as a pure
 function on such trees, together with its path-level characterisation.
 */
module StateTree {

  datatype Option<+T> = None | Some(value: T)

  /** A scalar field value. Arrays and `null` are not modelled. */
  datatype Scalar = Num(n: int) | Text(s: string) | Flag(b: bool)

  /** A field value: a scalar leaf, or a nested tree of further fields. */
  datatype Value = Leaf(scalar: Scalar) | Node(fields: map<string, Value>)

  /** The state of one object: always a tree at the top level. */
  type State = map<string, Value>

  /** The state the init hook seeds every new instance with. */
  const EmptyState: State := map[]

  /**
   The merge `deepAssign({}, base, partial)` builds into a fresh object:
   every key of `partial` wins; where both sides hold a nested tree the two are
   merged recursively, otherwise the partial value replaces the old one
   wholesale; keys absent from `partial` are carried over from `base`.
   */
  function Merge(base: State, partial: State): (r: State)
    decreases Node(partial), 0
    ensures r.Keys == base.Keys + partial.Keys
    ensures forall k :: k in base && k !in partial ==> r[k] == base[k]
  {
    map k | k in base.Keys + partial.Keys ::
      if k !in partial then base[k]
      else if k in base then MergeValue(base[k], partial[k])
      else partial[k]
  }

  /** The merge of one field: trees merge, anything else is replaced. */
  function MergeValue(base: Value, partial: Value): (r: Value)
    decreases partial, 1
  {
    if base.Node? && partial.Node? then Node(Merge(base.fields, partial.fields)) else partial
  }

  /** The value reached from `v` by following the field names of `path`, if any. */
  function Lookup(v: Value, path: seq<string>): (r: Option<Value>)
    decreases |path|
  {
    if path == [] then Some(v)
    else if v.Node? && path[0] in v.fields then Lookup(v.fields[path[0]], path[1..])
    else None
  }

  /** The value at `path` in state `s` (the empty path gives the whole tree). */
  function At(s: State, path: seq<string>): (r: Option<Value>)
  {
    Lookup(Node(s), path)
  }

  /**
   `path` leaves `partial` before reaching its end: along the way `partial`
   holds only nested trees, and one of them lacks the next field name. Such a
   path is one that `partial` says nothing about.
   */
  predicate Untouched(partial: State, path: seq<string>)
    decreases |path|
  {
    path != [] &&
    (path[0] !in partial ||
     (partial[path[0]].Node? && Untouched(partial[path[0]].fields, path[1..])))
  }

  /** One step of a lookup: a non-empty path enters the field named by its head. */
  lemma AtStep(s: State, path: seq<string>)
    requires path != []
    ensures At(s, path) == if path[0] in s then Lookup(s[path[0]], path[1..]) else None
  {
  }

  lemma {:induction false} UntouchedAbsent(partial: State, path: seq<string>)
    requires Untouched(partial, path)
    ensures At(partial, path) == None
    decreases |path|
  {
    var k := path[0];
    AtStep(partial, path);
    if k in partial {
      UntouchedAbsent(partial[k].fields, path[1..]);
    }
  }

  /** Every path that `partial` does not mention keeps its old value (or stays absent). */
  lemma {:induction false} MergeKeepsUntouched(base: State, partial: State, path: seq<string>)
    requires Untouched(partial, path)
    ensures At(Merge(base, partial), path) == At(base, path)
    decreases |path|
  {
    var k, rest := path[0], path[1..];
    var r := Merge(base, partial);
    AtStep(r, path);
    AtStep(base, path);
    if k in partial {
      var q := partial[k].fields;
      assert Untouched(q, rest);
      if k in base && base[k].Node? {
        assert r[k] == MergeValue(base[k], partial[k]) == Node(Merge(base[k].fields, q));
        MergeKeepsUntouched(base[k].fields, q, rest);
      } else {
        assert k in base ==> r[k] == MergeValue(base[k], partial[k]);
        assert r[k] == partial[k];
        UntouchedAbsent(q, rest);
      }
    }
  }

  /** A scalar that `partial` holds at some path is what the merged state holds there. */
  lemma {:induction false} MergePartialScalarWins(base: State, partial: State, path: seq<string>, x: Scalar)
    requires At(partial, path) == Some(Leaf(x))
    ensures At(Merge(base, partial), path) == Some(Leaf(x))
    decreases |path|
  {
    var k, rest := path[0], path[1..];
    var r := Merge(base, partial);
    AtStep(r, path);
    AtStep(partial, path);
    assert k in partial;
    if rest == [] {
      assert partial[k] == Leaf(x);
      assert k in base ==> r[k] == MergeValue(base[k], partial[k]);
    } else {
      assert partial[k].Node?;
      var q := partial[k].fields;
      assert At(q, rest) == Some(Leaf(x));
      if k in base && base[k].Node? {
        assert r[k] == MergeValue(base[k], partial[k]) == Node(Merge(base[k].fields, q));
        MergePartialScalarWins(base[k].fields, q, rest, x);
      } else {
        assert k in base ==> r[k] == MergeValue(base[k], partial[k]);
        assert r[k] == partial[k];
      }
    }
  }

  /**
   Every path present in `partial` is present in the merged state, and where
   `partial` holds a nested tree the merged state holds a nested tree too.
   */
  lemma {:induction false} MergePartialPathPresent(base: State, partial: State, path: seq<string>)
    requires At(partial, path).Some?
    ensures At(Merge(base, partial), path).Some?
    ensures At(partial, path).value.Node? ==> At(Merge(base, partial), path).value.Node?
    decreases |path|
  {
    if path != [] {
      var k, rest := path[0], path[1..];
      var r := Merge(base, partial);
      AtStep(r, path);
      AtStep(partial, path);
      assert k in partial && k in r;
      if k in base && base[k].Node? && partial[k].Node? {
        assert r[k] == MergeValue(base[k], partial[k]) == Node(Merge(base[k].fields, partial[k].fields));
        if rest != [] {
          assert At(partial[k].fields, rest) == At(partial, path);
          MergePartialPathPresent(base[k].fields, partial[k].fields, rest);
        }
      } else {
        assert k in base ==> r[k] == MergeValue(base[k], partial[k]);
        assert r[k] == partial[k];
      }
    }
  }

  /**
   Every scalar of the merged state comes either from `partial` at the same
   path or, on a path `partial` does not mention, from `base`.
   */
  lemma {:induction false} MergeScalarOrigin(base: State, partial: State, path: seq<string>, x: Scalar)
    requires At(Merge(base, partial), path) == Some(Leaf(x))
    ensures At(partial, path) == Some(Leaf(x)) || (Untouched(partial, path) && At(base, path) == Some(Leaf(x)))
    decreases |path|
  {
    var k, rest := path[0], path[1..];
    var r := Merge(base, partial);
    AtStep(r, path);
    AtStep(partial, path);
    AtStep(base, path);
    assert k in r;
    if k !in partial {
      assert r[k] == base[k];
    } else if k in base && base[k].Node? && partial[k].Node? {
      assert r[k] == Node(Merge(base[k].fields, partial[k].fields));
      assert rest != [];
      MergeScalarOrigin(base[k].fields, partial[k].fields, rest, x);
    } else {
      assert k in base ==> r[k] == MergeValue(base[k], partial[k]);
      assert r[k] == partial[k];
    }
  }

  /** An empty partial update leaves the state as it was. */
  lemma MergeEmptyPartial(base: State)
    ensures Merge(base, EmptyState) == base
  {
  }

  /** Merging into the empty state (a fresh instance) yields the partial itself. */
  lemma MergeIntoEmpty(partial: State)
    ensures Merge(EmptyState, partial) == partial
  {
  }

  /** Merging a state with itself changes nothing. */
  lemma {:induction false} MergeSelf(s: State)
    ensures Merge(s, s) == s
    decreases Node(s), 0
  {
    forall k | k in s
      ensures MergeValue(s[k], s[k]) == s[k]
    {
      MergeValueSelf(s[k]);
    }
  }

  lemma {:induction false} MergeValueSelf(v: Value)
    ensures MergeValue(v, v) == v
    decreases v, 1
  {
    if v.Node? {
      MergeSelf(v.fields);
    }
  }

  /** Applying the same partial update a second time changes nothing further. */
  lemma {:induction false} MergeIdempotent(base: State, partial: State)
    ensures Merge(Merge(base, partial), partial) == Merge(base, partial)
    decreases Node(partial), 0
  {
    var once := Merge(base, partial);
    forall k | k in partial
      ensures Merge(once, partial)[k] == once[k]
    {
      if k in base {
        MergeValueIdempotent(base[k], partial[k]);
      } else {
        MergeValueSelf(partial[k]);
      }
    }
  }

  lemma {:induction false} MergeValueIdempotent(base: Value, partial: Value)
    ensures MergeValue(MergeValue(base, partial), partial) == MergeValue(base, partial)
    decreases partial, 1
  {
    if base.Node? && partial.Node? {
      MergeIdempotent(base.fields, partial.fields);
    } else {
      MergeValueSelf(partial);
    }
  }

  /**
   A nested update changes only the field it names: merging `{b: {c: 99}}`
   into `{a: 1, b: {c: 2, d: 3}}` gives `{a: 1, b: {c: 99, d: 3}}`.
   */
  lemma MergeNestedExample()
    ensures Merge(map["a" := Leaf(Num(1)), "b" := Node(map["c" := Leaf(Num(2)), "d" := Leaf(Num(3))])],
                  map["b" := Node(map["c" := Leaf(Num(99))])])
         == map["a" := Leaf(Num(1)), "b" := Node(map["c" := Leaf(Num(99)), "d" := Leaf(Num(3))])]
  {
    var inner := Merge(map["c" := Leaf(Num(2)), "d" := Leaf(Num(3))], map["c" := Leaf(Num(99))]);
    assert inner == map["c" := Leaf(Num(99)), "d" := Leaf(Num(3))];
  }
}
