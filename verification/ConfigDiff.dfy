/**
 The structural difference of two settings trees, counted twice by the program: `Count` is
 `countDiffRecursive`, and `Marks` with it is `diffKeysRecursive`. A missing map key reads as
 nil on either side. Scalars compare like `reflect.DeepEqual`, where NaN differs from itself.
 */
module ConfigDiff {

  datatype Scalar = Plain(typeName: string, text: string) | NaN

  datatype Value = Nil | Leaf(scalar: Scalar) | Map(entries: map<string, Value>) | List(items: seq<Value>)

  predicate DeepEqual(a: Scalar, b: Scalar) { a == b && a != NaN }

  // ---- Counting ----

  ghost function Count(a: Value, b: Value): nat
    decreases a, 2
  {
    if a.Nil? || b.Nil? then (if a == b then 0 else 1)
    else if a.Map? && b.Map? then KeysCount(a, b, a.entries.Keys + b.entries.Keys)
    else if a.List? && b.List? then (if SameItems(a, b) then 0 else 1)
    else if a.Leaf? && b.Leaf? && DeepEqual(a.scalar, b.scalar) then 0
    else 1
  }

  ghost predicate SameItems(a: Value, b: Value)
    requires a.List? && b.List?
    decreases a, 1
  {
    |a.items| == |b.items| && forall i :: 0 <= i < |a.items| ==> Count(a.items[i], b.items[i]) == 0
  }

  /** Differences under one key of two maps. */
  ghost function KeyCount(a: Value, b: Value, k: string): nat
    requires a.Map? && b.Map?
    decreases a, 0
  {
    if k in a.entries && k in b.entries then Count(a.entries[k], b.entries[k])
    else if k in a.entries then (if a.entries[k].Nil? then 0 else 1)
    else if k in b.entries then (if b.entries[k].Nil? then 0 else 1)
    else 0
  }

  /** Differences under a set of keys; `KeysCountRemove` shows the order does not matter. */
  ghost function KeysCount(a: Value, b: Value, keys: set<string>): nat
    requires a.Map? && b.Map?
    decreases a, 1, |keys|
  {
    if keys == {} then 0
    else
      var k :| k in keys;
      KeyCount(a, b, k) + KeysCount(a, b, keys - {k})
  }

  lemma {:induction false} KeysCountRemove(a: Value, b: Value, keys: set<string>, k: string)
    requires a.Map? && b.Map? && k in keys
    ensures KeysCount(a, b, keys) == KeyCount(a, b, k) + KeysCount(a, b, keys - {k})
    decreases |keys|
  {
    var j :| j in keys && KeysCount(a, b, keys) == KeyCount(a, b, j) + KeysCount(a, b, keys - {j});
    if j != k {
      KeysCountRemove(a, b, keys - {j}, k);
      KeysCountRemove(a, b, keys - {k}, j);
      assert keys - {j} - {k} == keys - {k} - {j};
    }
  }

  lemma {:induction false} KeysCountZero(a: Value, b: Value, keys: set<string>)
    requires a.Map? && b.Map?
    ensures KeysCount(a, b, keys) == 0 <==> forall k :: k in keys ==> KeyCount(a, b, k) == 0
    decreases |keys|
  {
    if keys != {} {
      var k :| k in keys;
      KeysCountRemove(a, b, keys, k);
      KeysCountZero(a, b, keys - {k});
    }
  }

  // ---- Symmetry ----

  lemma {:induction false} CountSymmetric(a: Value, b: Value)
    ensures Count(a, b) == Count(b, a)
    decreases a, 2
  {
    if a.Map? && b.Map? {
      assert a.entries.Keys + b.entries.Keys == b.entries.Keys + a.entries.Keys;
      KeysSymmetric(a, b, a.entries.Keys + b.entries.Keys);
    } else if a.List? && b.List? && |a.items| == |b.items| {
      forall i | 0 <= i < |a.items| ensures Count(a.items[i], b.items[i]) == Count(b.items[i], a.items[i]) {
        CountSymmetric(a.items[i], b.items[i]);
      }
    }
  }

  lemma {:induction false} KeysSymmetric(a: Value, b: Value, keys: set<string>)
    requires a.Map? && b.Map?
    ensures KeysCount(a, b, keys) == KeysCount(b, a, keys)
    decreases a, 1, |keys|
  {
    if keys != {} {
      var k :| k in keys;
      KeysCountRemove(a, b, keys, k);
      KeysCountRemove(b, a, keys, k);
      KeysSymmetric(a, b, keys - {k});
      if k in a.entries && k in b.entries {
        CountSymmetric(a.entries[k], b.entries[k]);
      }
    }
  }

  // ---- When the count is zero ----

  /** The tree without its nil-valued map keys. */
  function Norm(v: Value): Value {
    match v
    case Map(m) => Map(map k | k in m && m[k] != Nil :: Norm(m[k]))
    case List(xs) => List(seq(|xs|, i requires 0 <= i < |xs| => Norm(xs[i])))
    case _ => v
  }

  ghost predicate NaNFree(v: Value) {
    match v
    case Leaf(s) => s != NaN
    case Map(m) => forall k :: k in m ==> NaNFree(m[k])
    case List(xs) => forall i :: 0 <= i < |xs| ==> NaNFree(xs[i])
    case Nil => true
  }

  /** Equal up to nil-valued keys, and without a NaN. */
  ghost predicate Agree(a: Value, b: Value) { Norm(a) == Norm(b) && NaNFree(a) }

  /**
   The count is zero exactly when the trees are equal up to nil-valued keys and hold no NaN:
   a NaN is reported as a difference from itself.
   */
  lemma {:induction false} ZeroIff(a: Value, b: Value)
    ensures Count(a, b) == 0 <==> Agree(a, b)
    decreases a
  {
    if a.Map? && b.Map? {
      KeysCountZero(a, b, a.entries.Keys + b.entries.Keys);
      forall k | k in a.entries && k in b.entries
        ensures Count(a.entries[k], b.entries[k]) == 0 <==> Agree(a.entries[k], b.entries[k])
      {
        ZeroIff(a.entries[k], b.entries[k]);
      }
      if Count(a, b) == 0 {
        ZeroMapsEqual(a, b);
      } else if Norm(a) == Norm(b) && NaNFree(a) {
        EqualMapsZero(a, b);
      }
    } else if a.List? && b.List? {
      if |a.items| == |b.items| {
        forall i | 0 <= i < |a.items|
          ensures Count(a.items[i], b.items[i]) == 0 <==> Agree(a.items[i], b.items[i])
        {
          ZeroIff(a.items[i], b.items[i]);
        }
      }
      if Norm(a) == Norm(b) {
        assert |Norm(a).items| == |Norm(b).items|;
        forall i | 0 <= i < |a.items| ensures Norm(a.items[i]) == Norm(b.items[i]) {
          assert Norm(a).items[i] == Norm(b).items[i];
        }
      }
    }
  }

  ghost predicate ChildrenDecided(a: Value, b: Value)
    requires a.Map? && b.Map?
  {
    forall k :: k in a.entries && k in b.entries ==>
      (Count(a.entries[k], b.entries[k]) == 0 <==> Norm(a.entries[k]) == Norm(b.entries[k]) && NaNFree(a.entries[k]))
  }

  lemma NormNil(v: Value)
    ensures Norm(v) == Nil <==> v == Nil
  {
  }

  lemma {:induction false} ZeroMapsEqual(a: Value, b: Value)
    requires a.Map? && b.Map? && ChildrenDecided(a, b)
    requires forall k :: k in a.entries.Keys + b.entries.Keys ==> KeyCount(a, b, k) == 0
    ensures Norm(a) == Norm(b) && NaNFree(a)
  {
    var x, y := Norm(a).entries, Norm(b).entries;
    forall k ensures k in x <==> k in y {
      if k in a.entries.Keys + b.entries.Keys {
        assert KeyCount(a, b, k) == 0;
        if k in a.entries { NormNil(a.entries[k]); }
        if k in b.entries { NormNil(b.entries[k]); }
      }
    }
    forall k | k in x ensures x[k] == y[k] {
      assert k in a.entries.Keys + b.entries.Keys && KeyCount(a, b, k) == 0;
    }
    forall k | k in a.entries ensures NaNFree(a.entries[k]) {
      assert k in a.entries.Keys + b.entries.Keys && KeyCount(a, b, k) == 0;
    }
  }

  lemma {:induction false} EqualMapsZero(a: Value, b: Value)
    requires a.Map? && b.Map? && ChildrenDecided(a, b)
    requires Norm(a) == Norm(b) && NaNFree(a)
    ensures forall k :: k in a.entries.Keys + b.entries.Keys ==> KeyCount(a, b, k) == 0
  {
    var x, y := Norm(a).entries, Norm(b).entries;
    assert x == y;
    forall k | k in a.entries.Keys + b.entries.Keys ensures KeyCount(a, b, k) == 0 {
      assert k in x <==> k in a.entries && a.entries[k] != Nil;
      assert k in y <==> k in b.entries && b.entries[k] != Nil;
      if k in x {
        assert x[k] == Norm(a.entries[k]) && y[k] == Norm(b.entries[k]);
      } else if k in a.entries && k in b.entries {
        assert a.entries[k] == Nil && b.entries[k] == Nil;
      }
    }
  }

  /** `deepClone`: maps and lists rebuilt, scalars shared. */
  function DeepClone(v: Value): Value {
    match v
    case Map(m) => Map(map k | k in m :: DeepClone(m[k]))
    case List(xs) => List(seq(|xs|, i requires 0 <= i < |xs| => DeepClone(xs[i])))
    case _ => v
  }

  lemma {:induction false} CloneEqual(v: Value)
    ensures DeepClone(v) == v
  {
    match v
    case Map(m) =>
      forall k | k in m ensures DeepClone(m[k]) == m[k] { CloneEqual(m[k]); }
    case List(xs) =>
      forall i | 0 <= i < |xs| ensures DeepClone(xs[i]) == xs[i] { CloneEqual(xs[i]); }
    case _ =>
  }

  /** A tree differs from its clone nowhere, exactly when it holds no NaN. */
  lemma CloneIsNoDifference(v: Value)
    ensures Count(v, DeepClone(v)) == 0 <==> NaNFree(v)
  {
    CloneEqual(v);
    ZeroIff(v, v);
  }
}
