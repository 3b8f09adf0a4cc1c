/**
 The structural matchers of the expectation ledger: `deepEqual` and `containsShape` over the values a
 measurement can produce.
 */
module StructuralMatch {

  /** Numbers as `Object.is` tells them apart: one NaN, two zeros. */
  datatype Number = NotANumber | NegativeZero | Infinite(positive: bool) | Finite(value: real)

  /** An array holds values in order; an object holds its own enumerable properties. */
  datatype Value =
    | Undefined
    | Null
    | Bool(bool)
    | Num(Number)
    | Text(string)
    | Arr(items: seq<Value>)
    | Obj(fields: map<string, Value>)

  /** `value[key]`: undefined when there is no such property. */
  function Get(fields: map<string, Value>, key: string): Value {
    if key in fields then fields[key] else Undefined
  }

  predicate DeepEqual(left: Value, right: Value)
    decreases left
  {
    if left == right && !left.Arr? && !left.Obj? then true
    else if left.Arr? && right.Arr? then
      && |left.items| == |right.items|
      && forall i | 0 <= i < |left.items| :: DeepEqual(left.items[i], right.items[i])
    else if left.Obj? && right.Obj? then
      && |left.fields| == |right.fields|
      && forall key | key in left.fields :: key in right.fields && DeepEqual(left.fields[key], right.fields[key])
    else false
  }

  predicate ContainsShape(value: Value, shape: Value)
    decreases shape
  {
    match shape
    case Arr(items) =>
      && value.Arr?
      && |value.items| == |items|
      && forall i | 0 <= i < |items| :: ContainsShape(value.items[i], items[i])
    case Obj(fields) =>
      && value.Obj?
      && forall key | key in fields :: ContainsShape(Get(value.fields, key), fields[key])
    case _ => DeepEqual(value, shape)
  }

  // ----- deepEqual is equality -----

  /** As many keys on both sides, and each key of one among the other's: the same keys. */
  lemma SameKeys(a: set<string>, b: set<string>)
    requires a <= b && |a| == |b|
    ensures a == b
  {
    assert b == a + (b - a);
    assert |b| == |a| + |b - a|;
  }

  lemma {:induction false} DeepEqualIff(left: Value, right: Value)
    ensures DeepEqual(left, right) <==> left == right
    decreases left
  {
    if left.Arr? && right.Arr? && |left.items| == |right.items| {
      forall i | 0 <= i < |left.items|
        ensures DeepEqual(left.items[i], right.items[i]) <==> left.items[i] == right.items[i]
      {
        DeepEqualIff(left.items[i], right.items[i]);
      }
      assert DeepEqual(left, right) ==> left.items == right.items;
    } else if left.Obj? && right.Obj? {
      forall key | key in left.fields && key in right.fields
        ensures DeepEqual(left.fields[key], right.fields[key]) <==> left.fields[key] == right.fields[key]
      {
        DeepEqualIff(left.fields[key], right.fields[key]);
      }
      if DeepEqual(left, right) {
        assert |left.fields.Keys| == |left.fields| && |right.fields.Keys| == |right.fields|;
        SameKeys(left.fields.Keys, right.fields.Keys);
        assert left.fields == right.fields;
      }
    }
  }

  // ----- containsShape is an order, up to undefined fields -----

  /** The value without the fields that are undefined, at every depth. */
  function Erase(v: Value): Value {
    match v
    case Arr(items) => Arr(seq(|items|, i requires 0 <= i < |items| => Erase(items[i])))
    case Obj(fields) => Obj(map key | key in fields && fields[key] != Undefined :: Erase(fields[key]))
    case _ => v
  }

  /** No field anywhere in the value is undefined. */
  predicate Definite(v: Value) {
    match v
    case Arr(items) => forall item | item in items :: Definite(item)
    case Obj(fields) => forall key | key in fields :: fields[key] != Undefined && Definite(fields[key])
    case _ => true
  }

  // ----- What containment means, place by place -----

  datatype Step = Item(index: nat) | Field(key: string)

  /** The steps lead somewhere in `v`. */
  predicate Has(v: Value, path: seq<Step>)
    decreases |path|
  {
    path == [] ||
    match path[0]
    case Item(i) => v.Arr? && i < |v.items| && Has(v.items[i], path[1..])
    case Field(key) => v.Obj? && key in v.fields && Has(v.fields[key], path[1..])
  }

  /** What is found there; nothing is undefined. */
  function At(v: Value, path: seq<Step>): Value
    decreases |path|
  {
    if path == [] then v
    else
      match path[0]
      case Item(i) => if v.Arr? && i < |v.items| then At(v.items[i], path[1..]) else Undefined
      case Field(key) => if v.Obj? && key in v.fields then At(v.fields[key], path[1..]) else Undefined
  }

  /** Both are arrays of one length, or both are objects, or they are the same. */
  ghost predicate Alike(value: Value, shape: Value) {
    if shape.Arr? then value.Arr? && |value.items| == |shape.items|
    else if shape.Obj? then value.Obj?
    else value == shape
  }

  ghost predicate AlikeEverywhere(value: Value, shape: Value) {
    forall path: seq<Step> | Has(shape, path) :: Alike(At(value, path), At(shape, path))
  }

  lemma {:induction false} UndefinedHasNothing(path: seq<Step>)
    ensures At(Undefined, path) == Undefined
  {
  }

  /** A value contains a shape exactly when, wherever the steps of a path lead in the shape, they lead to
      something alike in the value: the same scalar, an array as long, some object. */
  lemma {:induction false} ShapeIff(value: Value, shape: Value)
    ensures ContainsShape(value, shape) <==> AlikeEverywhere(value, shape)
    decreases shape
  {
    if AlikeEverywhere(value, shape) {
      assert Has(shape, []) && At(value, []) == value && At(shape, []) == shape;
      assert Alike(value, shape);
    }
    match shape
    case Arr(items) =>
      if value.Arr? && |value.items| == |items| {
        forall i | 0 <= i < |items|
          ensures ContainsShape(value.items[i], items[i]) <==> AlikeEverywhere(value.items[i], items[i])
        {
          ShapeIff(value.items[i], items[i]);
        }
        EverywhereInArray(value.items, items);
      }
    case Obj(fields) =>
      if value.Obj? {
        forall key | key in fields
          ensures ContainsShape(Get(value.fields, key), fields[key]) <==> AlikeEverywhere(Get(value.fields, key), fields[key])
        {
          ShapeIff(Get(value.fields, key), fields[key]);
        }
        EverywhereInObject(value.fields, fields);
      }
    case _ =>
      DeepEqualIff(value, shape);
      forall path: seq<Step> | Has(shape, path) ensures path == [] {}
  }

  lemma EverywhereInArray(a: seq<Value>, b: seq<Value>)
    requires |a| == |b|
    ensures AlikeEverywhere(Arr(a), Arr(b)) <==> forall i | 0 <= i < |b| :: AlikeEverywhere(a[i], b[i])
  {
    if AlikeEverywhere(Arr(a), Arr(b)) {
      forall i: nat, path: seq<Step> | i < |b| && Has(b[i], path) ensures Alike(At(a[i], path), At(b[i], path)) {
        assert ([Item(i)] + path)[1..] == path;
        assert Has(Arr(b), [Item(i)] + path);
      }
    }
    if forall i | 0 <= i < |b| :: AlikeEverywhere(a[i], b[i]) {
      forall path: seq<Step> | Has(Arr(b), path) ensures Alike(At(Arr(a), path), At(Arr(b), path)) {
        if path != [] { assert AlikeEverywhere(a[path[0].index], b[path[0].index]); }
      }
    }
  }

  lemma EverywhereInObject(a: map<string, Value>, b: map<string, Value>)
    ensures AlikeEverywhere(Obj(a), Obj(b)) <==> forall key | key in b :: AlikeEverywhere(Get(a, key), b[key])
  {
    forall key, path: seq<Step> ensures At(Obj(a), [Field(key)] + path) == At(Get(a, key), path) {
      assert ([Field(key)] + path)[1..] == path;
      UndefinedHasNothing(path);
    }
    if AlikeEverywhere(Obj(a), Obj(b)) {
      forall key, path: seq<Step> | key in b && Has(b[key], path) ensures Alike(At(Get(a, key), path), At(b[key], path)) {
        assert ([Field(key)] + path)[1..] == path;
        assert Has(Obj(b), [Field(key)] + path);
      }
    }
    if forall key | key in b :: AlikeEverywhere(Get(a, key), b[key]) {
      forall path: seq<Step> | Has(Obj(b), path) ensures Alike(At(Obj(a), path), At(Obj(b), path)) {
        if path != [] {
          assert path == [path[0]] + path[1..];
          assert AlikeEverywhere(Get(a, path[0].key), b[path[0].key]);
        }
      }
    }
  }

  lemma {:induction false} ShapeIsReflexive(v: Value)
    ensures ContainsShape(v, v)
  {
    match v
    case Arr(items) =>
      forall i | 0 <= i < |items| ensures ContainsShape(items[i], items[i]) { ShapeIsReflexive(items[i]); }
    case Obj(fields) =>
      forall key | key in fields ensures ContainsShape(Get(fields, key), fields[key]) { ShapeIsReflexive(fields[key]); }
    case _ => DeepEqualIff(v, v);
  }

  lemma DeepEqualImpliesShape(value: Value, shape: Value)
    requires DeepEqual(value, shape)
    ensures ContainsShape(value, shape) && ContainsShape(shape, value)
  {
    DeepEqualIff(value, shape);
    ShapeIsReflexive(value);
  }

  lemma UndefinedMatchesOnlyItself(shape: Value)
    ensures ContainsShape(Undefined, shape) <==> shape == Undefined
    ensures ContainsShape(shape, Undefined) <==> shape == Undefined
  {
    DeepEqualIff(Undefined, shape);
    DeepEqualIff(shape, Undefined);
  }

  /** Two values contain each other exactly when they are equal once undefined fields are dropped. */
  lemma {:induction false} MutualIff(a: Value, b: Value)
    ensures ContainsShape(a, b) && ContainsShape(b, a) <==> Erase(a) == Erase(b)
    decreases a
  {
    if a.Arr? && b.Arr? {
      MutualArrays(a.items, b.items);
    } else if a.Obj? && b.Obj? {
      forall key | key in a.fields && key in b.fields
        ensures ContainsShape(a.fields[key], b.fields[key]) && ContainsShape(b.fields[key], a.fields[key])
          <==> Erase(a.fields[key]) == Erase(b.fields[key])
      {
        MutualIff(a.fields[key], b.fields[key]);
      }
      MutualObjects(a.fields, b.fields);
    } else {
      DeepEqualIff(a, b);
      DeepEqualIff(b, a);
    }
  }

  lemma MutualArrays(a: seq<Value>, b: seq<Value>)
    ensures ContainsShape(Arr(a), Arr(b)) && ContainsShape(Arr(b), Arr(a)) <==> Erase(Arr(a)) == Erase(Arr(b))
    decreases a, 0
  {
    if |a| == |b| {
      forall i | 0 <= i < |a|
        ensures ContainsShape(a[i], b[i]) && ContainsShape(b[i], a[i]) <==> Erase(a[i]) == Erase(b[i])
      {
        MutualIff(a[i], b[i]);
      }
      var x, y := Erase(Arr(a)).items, Erase(Arr(b)).items;
      assert x == y <==> forall i | 0 <= i < |a| :: Erase(a[i]) == Erase(b[i]) by {
        if forall i | 0 <= i < |a| :: Erase(a[i]) == Erase(b[i]) {
          assert x == y;
        }
        if x == y {
          forall i | 0 <= i < |a| ensures Erase(a[i]) == Erase(b[i]) { assert x[i] == y[i]; }
        }
      }
      ShapeOfArrays(a, b);
      ShapeOfArrays(b, a);
    }
  }

  lemma ShapeOfArrays(a: seq<Value>, b: seq<Value>)
    ensures ContainsShape(Arr(a), Arr(b)) <==> |a| == |b| && forall i | 0 <= i < |b| :: ContainsShape(a[i], b[i])
  {
  }

  lemma ShapeOfObjects(a: map<string, Value>, b: map<string, Value>)
    ensures ContainsShape(Obj(a), Obj(b)) <==> forall key | key in b :: ContainsShape(Get(a, key), b[key])
  {
  }

  lemma MutualObjects(a: map<string, Value>, b: map<string, Value>)
    requires forall key | key in a && key in b ::
        (ContainsShape(a[key], b[key]) && ContainsShape(b[key], a[key]) <==> Erase(a[key]) == Erase(b[key]))
    ensures ContainsShape(Obj(a), Obj(b)) && ContainsShape(Obj(b), Obj(a)) <==> Erase(Obj(a)) == Erase(Obj(b))
  {
    forall key: string
      ensures MutualAt(a, b, key) <==> ErasedAt(a, key) == ErasedAt(b, key)
    {
      UndefinedMatchesOnlyItself(Get(a, key));
      UndefinedMatchesOnlyItself(Get(b, key));
    }
    ShapeOfObjects(a, b);
    ShapeOfObjects(b, a);
    if forall key :: MutualAt(a, b, key) {
      forall key: string ensures key in b ==> ContainsShape(Get(a, key), b[key]) {
        assert MutualAt(a, b, key);
      }
      forall key: string ensures key in a ==> ContainsShape(Get(b, key), a[key]) {
        assert MutualAt(a, b, key);
      }
    }
    assert ContainsShape(Obj(a), Obj(b)) && ContainsShape(Obj(b), Obj(a)) <==> forall key :: MutualAt(a, b, key);
    ErasedEqualIff(a, b);
  }

  ghost predicate MutualAt(a: map<string, Value>, b: map<string, Value>, key: string) {
    && (key in b ==> ContainsShape(Get(a, key), b[key]))
    && (key in a ==> ContainsShape(Get(b, key), a[key]))
  }

  datatype Erased = Dropped | Kept(value: Value)

  ghost function ErasedAt(fields: map<string, Value>, key: string): Erased {
    if Get(fields, key) == Undefined then Dropped else Kept(Erase(fields[key]))
  }

  lemma ErasedEqualIff(a: map<string, Value>, b: map<string, Value>)
    ensures Erase(Obj(a)) == Erase(Obj(b)) <==> forall key :: ErasedAt(a, key) == ErasedAt(b, key)
  {
    var x, y := Erase(Obj(a)).fields, Erase(Obj(b)).fields;
    assert forall key :: key in x <==> ErasedAt(a, key).Kept?;
    assert forall key :: key in y <==> ErasedAt(b, key).Kept?;
    assert forall key | key in x :: x[key] == ErasedAt(a, key).value;
    assert forall key | key in y :: y[key] == ErasedAt(b, key).value;
    if forall key :: ErasedAt(a, key) == ErasedAt(b, key) {
      assert x == y;
    }
    if x == y {
      forall key: string ensures ErasedAt(a, key) == ErasedAt(b, key) {
        assert key in x <==> key in y;
      }
    }
  }

  lemma {:induction false} DefiniteIsErased(v: Value)
    requires Definite(v)
    ensures Erase(v) == v
  {
    match v
    case Arr(items) =>
      forall i | 0 <= i < |items| ensures Erase(items[i]) == items[i] { DefiniteIsErased(items[i]); }
      assert Erase(v).items == items;
    case Obj(fields) =>
      forall key | key in fields ensures Erase(fields[key]) == fields[key] { DefiniteIsErased(fields[key]); }
      assert Erase(v).fields == fields;
    case _ =>
  }

  /** On values without undefined fields the order is antisymmetric. */
  lemma ShapeIsAntisymmetric(a: Value, b: Value)
    requires Definite(a) && Definite(b)
    requires ContainsShape(a, b) && ContainsShape(b, a)
    ensures a == b
  {
    MutualIff(a, b);
    DefiniteIsErased(a);
    DefiniteIsErased(b);
  }

  ghost predicate Chains(a: Value, b: Value, c: Value) {
    ContainsShape(a, b) && ContainsShape(b, c) ==> ContainsShape(a, c)
  }

  lemma {:induction false} ShapeIsTransitive(a: Value, b: Value, c: Value)
    requires Definite(c)
    requires ContainsShape(a, b) && ContainsShape(b, c)
    ensures ContainsShape(a, c)
    decreases c
  {
    match c
    case Arr(items) =>
      forall i | 0 <= i < |items| ensures ContainsShape(a.items[i], items[i]) {
        ShapeIsTransitive(a.items[i], b.items[i], items[i]);
      }
    case Obj(fields) =>
      forall key | key in fields ensures ContainsShape(Get(a.fields, key), fields[key]) {
        UndefinedMatchesOnlyItself(fields[key]);
        ShapeIsTransitive(Get(a.fields, key), Get(b.fields, key), fields[key]);
      }
    case _ =>
      DeepEqualIff(b, c);
  }

  /** A chain that breaks at one item breaks at the whole array. */
  lemma BreakAtItem(items: seq<Value>, i: nat, x: Value, y: Value)
    requires i < |items| && !Chains(x, y, items[i])
    ensures !Chains(Arr(items[i := x]), Arr(items[i := y]), Arr(items))
  {
    forall k | 0 <= k < |items| ensures ContainsShape(items[k], items[k]) { ShapeIsReflexive(items[k]); }
    var a, b := items[i := x], items[i := y];
    ShapeOfArrays(a, b);
    ShapeOfArrays(b, items);
    ShapeOfArrays(a, items);
    assert !ContainsShape(a[i], items[i]);
  }

  /** A chain that breaks at one field breaks at the whole object, whether the middle value has it or not. */
  lemma BreakAtField(fields: map<string, Value>, key: string, a: map<string, Value>, b: map<string, Value>)
    requires key in fields && (key in b ==> ContainsShape(Get(a, key), b[key]))
    requires ContainsShape(Get(b, key), fields[key]) && !ContainsShape(Get(a, key), fields[key])
    requires forall k | k != key :: Get(a, k) == Get(fields, k) == Get(b, k) && (k in b ==> k in fields)
    ensures !Chains(Obj(a), Obj(b), Obj(fields))
  {
    ShapeOfObjects(a, b);
    ShapeOfObjects(b, fields);
    ShapeOfObjects(a, fields);
    forall k: string ensures ContainsShape(Get(fields, k), Get(fields, k)) { ShapeIsReflexive(Get(fields, k)); }
    assert forall k | k in b :: b[k] == Get(b, k);
    assert forall k | k in fields :: fields[k] == Get(fields, k);
  }

  /** A shape with an undefined field somewhere breaks a chain: a value with that field set contains one
      without the field, which contains the shape, but the first does not contain the shape. */
  lemma {:induction false} IndefiniteBreaksAChain(c: Value) returns (a: Value, b: Value)
    requires !Definite(c)
    ensures !Chains(a, b, c)
    decreases c
  {
    match c
    case Arr(items) =>
      var i: nat :| i < |items| && !Definite(items[i]);
      var x, y := IndefiniteBreaksAChain(items[i]);
      BreakAtItem(items, i, x, y);
      a, b := Arr(items[i := x]), Arr(items[i := y]);
    case Obj(fields) =>
      var key :| key in fields && (fields[key] == Undefined || !Definite(fields[key]));
      if fields[key] == Undefined {
        UndefinedMatchesOnlyItself(Null);
        UndefinedMatchesOnlyItself(Undefined);
        // Nothing stands for the field in the middle value, so anything may stand for it in the first.
        BreakAtField(fields, key, fields[key := Null], fields - {key});
        a, b := Obj(fields[key := Null]), Obj(fields - {key});
      } else {
        var x, y := IndefiniteBreaksAChain(fields[key]);
        BreakAtField(fields, key, fields[key := x], fields[key := y]);
        a, b := Obj(fields[key := x]), Obj(fields[key := y]);
      }
    case _ =>
  }

  /** The order is transitive at a shape exactly when no field of the shape is undefined. */
  lemma TransitiveIff(c: Value)
    ensures (forall a, b :: Chains(a, b, c)) <==> Definite(c)
  {
    if Definite(c) {
      forall a, b ensures Chains(a, b, c) {
        if ContainsShape(a, b) && ContainsShape(b, c) { ShapeIsTransitive(a, b, c); }
      }
    } else {
      var a, b := IndefiniteBreaksAChain(c);
    }
  }
}
