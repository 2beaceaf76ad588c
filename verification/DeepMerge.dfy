/**
 * The left-biased deep merge of web/sync-conflict-resolver.ts.
 *
 * Values are JSON-like. Array elements are scalars, for which `includes` compares by value. An
 * object is a map of its own properties; the names every object inherits matter because the
 * program tests `key in merged`, which also finds them.
 */
module DeepMerge {
  import opened Basics
  import opened Decimals

  datatype Scalar = Undefined | Null | Boolean(b: bool) | Number(n: int) | Text(s: string)

  datatype Value =
    | Leaf(scalar: Scalar)
    | Array(items: seq<Scalar>)
    | Object(fields: map<string, Value>)

  datatype Kind = UndefinedKind | BooleanKind | NumberKind | TextKind | ObjectKind

  /** JavaScript's typeof: null and arrays count as objects. */
  function TypeOf(v: Value): Kind {
    match v
    case Leaf(Undefined) => UndefinedKind
    case Leaf(Boolean(_)) => BooleanKind
    case Leaf(Number(_)) => NumberKind
    case Leaf(Text(_)) => TextKind
    case _ => ObjectKind
  }

  predicate Truthy(v: Value) {
    match v
    case Leaf(Undefined) => false
    case Leaf(Null) => false
    case Leaf(Boolean(b)) => b
    case Leaf(Number(n)) => n != 0
    case Leaf(Text(s)) => s != ""
    case _ => true
  }

  predicate Container(v: Value) {
    !v.Leaf?
  }

  /** Function-valued properties that every plain object inherits. */
  const INHERITED: set<string> := {
    "constructor", "hasOwnProperty", "isPrototypeOf", "propertyIsEnumerable", "toLocaleString",
    "toString", "valueOf", "__defineGetter__", "__defineSetter__", "__lookupGetter__", "__lookupSetter__"
  }

  function IndexFields(items: seq<Scalar>): (m: map<string, Value>)
    ensures forall k :: k in m ==> m[k].Leaf?
  {
    if items == [] then map[]
    else IndexFields(items[..|items| - 1])[Digits(|items| - 1) := Leaf(items[|items| - 1])]
  }

  /** Own properties, as a spread or Object.keys sees them. */
  function Fields(v: Value): map<string, Value>
    requires Container(v)
  {
    if v.Array? then IndexFields(v.items) else v.fields
  }

  // ----- The merge -----

  function Union(a: seq<Scalar>, b: seq<Scalar>): seq<Scalar>
    decreases |b|
  {
    if b == [] then a
    else Union(if b[0] in a then a else a + [b[0]], b[1..])
  }

  function Merge(p: Value, s: Value): Value
    decreases p, 1
  {
    if !Truthy(p) || !Truthy(s) then (if Truthy(p) then p else s)
    else if TypeOf(p) != TypeOf(s) then p
    else if p.Array? && s.Array? then Array(Union(p.items, s.items))
    else if Container(p) then
      Object(map k | k in Fields(p).Keys + (Fields(s).Keys - INHERITED) ::
        MergeAt(p, Fields(p), Fields(s), k))
    else p
  }

  /** The merged value of one key: only a container is merged further, anything else is kept. */
  function MergeAt(p: Value, a: map<string, Value>, b: map<string, Value>, k: string): Value
    requires Container(p) && a == Fields(p) && (k in a || k in b)
    decreases p, 0
  {
    if k !in a then b[k]
    else if Container(a[k]) && k in b then Merge(a[k], b[k])
    else a[k]
  }

  // ----- The program's loops -----

  method MergeArrays(primary: seq<Scalar>, secondary: seq<Scalar>) returns (merged: seq<Scalar>)
    ensures merged == Union(primary, secondary)
  {
    merged := primary;
    for i := 0 to |secondary|
      invariant Union(merged, secondary[i..]) == Union(primary, secondary)
    {
      assert secondary[i..][0] == secondary[i] && secondary[i..][1..] == secondary[i + 1..];
      if secondary[i] !in merged {
        merged := merged + [secondary[i]];
      }
    }
  }

  /** The recursive merge; the order in which keys are visited does not matter. */
  method MergeValues(primary: Value, secondary: Value) returns (result: Value)
    ensures result == Merge(primary, secondary)
    decreases primary
  {
    if !Truthy(primary) || !Truthy(secondary) {
      return if Truthy(primary) then primary else secondary;
    }
    if TypeOf(primary) != TypeOf(secondary) {
      return primary;
    }
    if primary.Array? && secondary.Array? {
      var items := MergeArrays(primary.items, secondary.items);
      return Array(items);
    }
    if Container(primary) {
      var fields := MergeFields(primary, Fields(primary), Fields(secondary));
      return Object(fields);
    }
    return primary;
  }

  method MergeFields(primary: Value, own: map<string, Value>, other: map<string, Value>)
    returns (merged: map<string, Value>)
    requires Container(primary) && own == Fields(primary)
    ensures merged == map k | k in own.Keys + (other.Keys - INHERITED) :: MergeAt(primary, own, other, k)
    decreases primary, 0
  {
    hide Merge, IndexFields;
    merged := own;
    var todo := other.Keys;
    while todo != {}
      invariant todo <= other.Keys
      invariant merged.Keys == own.Keys + (other.Keys - todo - INHERITED)
      invariant forall k :: k in todo && k in own ==> merged[k] == own[k]
      invariant forall k :: k in merged && k !in todo ==> merged[k] == MergeAt(primary, own, other, k)
      decreases todo
    {
      var key :| key in todo;
      if key !in merged {
        if key !in INHERITED {
          merged := merged[key := other[key]];
        }
      } else if Container(merged[key]) {
        var nested := MergeValues(merged[key], other[key]);
        merged := merged[key := nested];
      }
      todo := todo - {key};
    }
  }

  // ----- Arrays: the primary, then what only the secondary has, once each -----

  function Missing(a: seq<Scalar>, b: seq<Scalar>): seq<Scalar>
    decreases |b|
  {
    if b == [] then []
    else if b[0] in a then Missing(a, b[1..])
    else [b[0]] + Missing(a + [b[0]], b[1..])
  }

  /** The elements of b that are not in a, once each, in the order in which b first has them. */
  lemma {:induction false} MissingMeaning(a: seq<Scalar>, b: seq<Scalar>)
    ensures forall x :: x in Missing(a, b) <==> x in b && x !in a
    ensures forall i, j :: 0 <= i < j < |Missing(a, b)| ==> Missing(a, b)[i] != Missing(a, b)[j]
    ensures forall i, j :: 0 <= i < j < |Missing(a, b)| ==> Before(b, Missing(a, b)[i], Missing(a, b)[j])
    decreases |b|
  {
    if b != [] {
      if b[0] in a {
        MissingMeaning(a, b[1..]);
        var rest := Missing(a, b[1..]);
        forall i, j | 0 <= i < j < |rest| ensures Before(b, rest[i], rest[j]) {
          assert Before(b[1..], rest[i], rest[j]);
        }
      } else {
        var rest := Missing(a + [b[0]], b[1..]);
        MissingMeaning(a + [b[0]], b[1..]);
        assert b[0] in a + [b[0]] && b[0] !in rest;
        assert Missing(a, b) == [b[0]] + rest;
        forall i, j | 0 <= i < j < |rest| ensures Before(b, rest[i], rest[j]) {
          assert Before(b[1..], rest[i], rest[j]);
        }
      }
    }
  }

  /** x stands in b before y first does. */
  predicate Before(b: seq<Scalar>, x: Scalar, y: Scalar) {
    b != [] && b[0] != y && (b[0] == x || Before(b[1..], x, y))
  }

  lemma {:induction false} UnionIsAppend(a: seq<Scalar>, b: seq<Scalar>)
    ensures Union(a, b) == a + Missing(a, b)
    decreases |b|
  {
    if b != [] {
      if b[0] in a {
        UnionIsAppend(a, b[1..]);
      } else {
        UnionIsAppend(a + [b[0]], b[1..]);
        assert a + [b[0]] + Missing(a + [b[0]], b[1..]) == a + ([b[0]] + Missing(a + [b[0]], b[1..]));
      }
    }
  }

  /** Only membership in a matters. */
  lemma {:induction false} MissingCongruent(a: seq<Scalar>, c: seq<Scalar>, b: seq<Scalar>)
    requires forall x :: x in a <==> x in c
    ensures Missing(a, b) == Missing(c, b)
    decreases |b|
  {
    if b != [] {
      if b[0] in a {
        MissingCongruent(a, c, b[1..]);
      } else {
        MissingCongruent(a + [b[0]], c + [b[0]], b[1..]);
      }
    }
  }

  lemma {:induction false} MissingAppend(a: seq<Scalar>, b: seq<Scalar>, c: seq<Scalar>)
    ensures Missing(a, b + c) == Missing(a, b) + Missing(a + b, c)
    decreases |b|
  {
    if b == [] {
      assert b + c == c && a + b == a;
    } else {
      assert (b + c)[1..] == b[1..] + c;
      if b[0] in a {
        MissingAppend(a, b[1..], c);
        MissingCongruent(a + b[1..], a + b, c);
      } else {
        var a1 := a + [b[0]];
        MissingAppend(a1, b[1..], c);
        assert a1 + b[1..] == a + b;
        assert [b[0]] + (Missing(a1, b[1..]) + Missing(a + b, c)) == Missing(a, b) + Missing(a + b, c);
      }
    }
  }

  /** Asking for what is missing from a can start from what is missing from any part of a. */
  lemma {:induction false} MissingOfMissing(a: seq<Scalar>, b: seq<Scalar>, c: seq<Scalar>)
    requires forall x :: x in b ==> x in a
    ensures Missing(a, Missing(b, c)) == Missing(a, c)
    decreases |c|
  {
    if c != [] {
      if c[0] in b {
        MissingOfMissing(a, b, c[1..]);
      } else {
        var rest := Missing(b + [c[0]], c[1..]);
        assert Missing(b, c) == [c[0]] + rest;
        if c[0] in a {
          MissingOfMissing(a, b + [c[0]], c[1..]);
        } else {
          MissingOfMissing(a + [c[0]], b + [c[0]], c[1..]);
        }
      }
    }
  }

  lemma UnionAssociative(a: seq<Scalar>, b: seq<Scalar>, c: seq<Scalar>)
    ensures Union(Union(a, b), c) == Union(a, Union(b, c))
  {
    hide Union, Missing;
    var m, n := Missing(a, b), Missing(b, c);
    UnionIsAppend(a, b);
    UnionIsAppend(b, c);
    UnionIsAppend(a + m, c);
    UnionIsAppend(a, b + n);
    MissingAppend(a, b, n);
    MissingOfMissing(a + b, b, c);
    MissingMeaning(a, b);
    MissingCongruent(a + b, a + m, c);
    assert a + m + Missing(a + m, c) == a + (m + Missing(a + m, c));
  }

  lemma {:induction false} UnionAbsorbs(a: seq<Scalar>, b: seq<Scalar>)
    requires forall x :: x in b ==> x in a
    ensures Union(a, b) == a
    decreases |b|
  {
    if b != [] {
      assert b[0] in b;
      UnionAbsorbs(a, b[1..]);
    }
  }

  // ----- The laws -----

  lemma {:induction false} MergeIdempotent(v: Value)
    ensures Merge(v, v) == v
    decreases v
  {
    if v.Array? {
      UnionAbsorbs(v.items, v.items);
    } else if v.Object? {
      forall k | k in v.fields ensures MergeAt(v, v.fields, v.fields, k) == v.fields[k] {
        if Container(v.fields[k]) { MergeIdempotent(v.fields[k]); }
      }
    }
  }

  /** Which keys the merge of two containers has, and whose value each key gets. */
  lemma MergedKeys(p: Value, s: Value)
    requires Container(p) && Container(s) && !(p.Array? && s.Array?)
    ensures Merge(p, s).Object?
    ensures Merge(p, s).fields.Keys == Fields(p).Keys + (Fields(s).Keys - INHERITED)
    ensures forall k :: k in Merge(p, s).fields ==> var a, b := Fields(p), Fields(s);
      Merge(p, s).fields[k] ==
        if k !in a then b[k]
        else if k !in b || a[k].Leaf? then a[k]
        else Merge(a[k], b[k])
  {}

  /** The keys are the union of both sides' keys exactly when the secondary brings no inherited name of its own. */
  lemma KeysAreUnion(p: Value, s: Value)
    requires Container(p) && Container(s) && !(p.Array? && s.Array?)
    ensures Merge(p, s).Object?
    ensures Merge(p, s).fields.Keys == Fields(p).Keys + Fields(s).Keys
       <==> Fields(s).Keys * INHERITED <= Fields(p).Keys
  {
    hide Merge, IndexFields;
    MergedKeys(p, s);
    var m, x, y := Merge(p, s).fields.Keys, Fields(p).Keys, Fields(s).Keys;
    if y * INHERITED <= x {
      assert m == x + y;
    }
    if m == x + y {
      forall k | k in y * INHERITED ensures k in x { assert k in m; }
    }
  }

  /** Merging the same thing in again changes nothing. */
  lemma {:induction false} MergeAbsorbsSecondary(p: Value, s: Value)
    ensures Merge(Merge(p, s), s) == Merge(p, s)
    decreases p
  {
    if Container(p) && Container(s) {
      if p.Array? && s.Array? {
        UnionIsAppend(p.items, s.items);
        MissingMeaning(p.items, s.items);
        UnionAbsorbs(Union(p.items, s.items), s.items);
      } else {
        var m := Merge(p, s);
        MergedKeys(p, s);
        MergedKeys(m, s);
        forall k | k in m.fields ensures Merge(m, s).fields[k] == m.fields[k] {
          if k in Fields(p) && k in Fields(s) && Container(Fields(p)[k]) {
            MergeAbsorbsSecondary(Fields(p)[k], Fields(s)[k]);
          } else if k in Fields(s) {
            MergeIdempotent(Fields(s)[k]);
          }
        }
        assert Merge(m, s).fields == m.fields;
      }
    } else {
      MergeIdempotent(s);
    }
  }

  /** Merging the primary into the result changes nothing either, unless both were empty values. */
  lemma {:induction false} MergeAbsorbsPrimary(p: Value, s: Value)
    ensures Merge(p, Merge(p, s)) == Merge(p, s)
    ensures Merge(Merge(p, s), p) == Merge(p, s) <==> Truthy(p) || Truthy(s) || p == s
    decreases p, 1
  {
    if Container(p) && Container(s) {
      if p.Array? && s.Array? {
        UnionIsAppend(p.items, s.items);
        UnionAssociative(p.items, p.items, s.items);
        UnionAbsorbs(p.items, p.items);
        UnionAbsorbs(Union(p.items, s.items), p.items);
      } else {
        FieldsAbsorbPrimary(p, s);
      }
    } else {
      MergeIdempotent(p);
    }
  }

  lemma {:induction false} FieldsAbsorbPrimary(p: Value, s: Value)
    requires Container(p) && Container(s) && !(p.Array? && s.Array?)
    ensures Merge(Merge(p, s), p) == Merge(p, s) == Merge(p, Merge(p, s))
    decreases p, 0
  {
    hide Merge, Union;
    var m := Merge(p, s);
    MergedKeys(p, s);
    MergedKeys(m, p);
    MergedKeys(p, m);
    forall k | k in m.fields
      ensures Merge(m, p).fields[k] == m.fields[k] == Merge(p, m).fields[k]
    {
      if k in Fields(p) && Container(Fields(p)[k]) {
        MergeIdempotent(Fields(p)[k]);
        if k in Fields(s) {
          MergeAbsorbsPrimary(Fields(p)[k], Fields(s)[k]);
          assert Truthy(Fields(p)[k]);
        }
      }
    }
    assert Merge(m, p).fields == m.fields == Merge(p, m).fields;
  }

  /** The condition, on the two values alone, for a merge to leave its primary as it was. */
  predicate AddsNothing(p: Value, s: Value)
    decreases p
  {
    if !Truthy(p) then s == p
    else if p.Leaf? || s.Leaf? then true
    else if p.Array? then s.Array? && forall x :: x in s.items ==> x in p.items
    else
      Fields(s).Keys - INHERITED <= p.fields.Keys &&
      forall k :: k in p.fields && k in Fields(s) && Container(p.fields[k]) ==> AddsNothing(p.fields[k], Fields(s)[k])
  }

  lemma {:induction false} AddsNothingExactly(p: Value, s: Value)
    ensures Merge(p, s) == p <==> AddsNothing(p, s)
    decreases p
  {
    if p.Leaf? || s.Leaf? {
      MergeWithScalar(p, s);
    } else if p.Array? && s.Array? {
      if forall x :: x in s.items ==> x in p.items {
        UnionAbsorbs(p.items, s.items);
      } else {
        UnionIsAppend(p.items, s.items);
        MissingMeaning(p.items, s.items);
        var x :| x in s.items && x !in p.items;
        assert x in Missing(p.items, s.items);
      }
    } else if p.Object? {
      FieldsAddNothing(p, s);
    }
  }

  lemma {:induction false} FieldsAddNothing(p: Value, s: Value)
    requires p.Object? && Container(s)
    ensures Merge(p, s) == p <==> AddsNothing(p, s)
    decreases p, 0
  {
    hide Merge;
    MergedKeys(p, s);
    forall k | k in p.fields && k in Fields(s) && Container(p.fields[k])
      ensures Merge(p.fields[k], Fields(s)[k]) == p.fields[k] <==> AddsNothing(p.fields[k], Fields(s)[k])
    {
      AddsNothingExactly(p.fields[k], Fields(s)[k]);
    }
    assert Merge(p, s) == p <==> Merge(p, s).fields == p.fields;
    if AddsNothing(p, s) {
      assert Merge(p, s).fields == p.fields;
    }
  }

  lemma ArraysAssociate(a: Value, b: Value, c: Value)
    requires a.Array? && b.Array? && c.Array?
    ensures Merge(Merge(a, b), c) == Merge(a, Merge(b, c))
  {
    UnionAssociative(a.items, b.items, c.items);
  }

  lemma MergeWithScalar(p: Value, s: Value)
    requires p.Leaf? || s.Leaf?
    ensures Merge(p, s) == if Truthy(p) then p else s
  {}

  lemma MergeTruthy(p: Value, s: Value)
    ensures Truthy(Merge(p, s)) <==> Truthy(p) || Truthy(s)
  {}

  predicate CountsAsNothing(x: Scalar) {
    x == Undefined || x == Null || x == Boolean(false) || x == Number(0) || x == Text("")
  }

  /** Those five scalars give way to any value, all others to none; containers never do. */
  lemma ScalarGivesWay(x: Scalar)
    ensures (forall s :: Merge(Leaf(x), s) == s) <==> CountsAsNothing(x)
    ensures (forall s :: Merge(Leaf(x), s) == Leaf(x)) <==> !CountsAsNothing(x)
    ensures forall p :: Container(p) ==> Merge(p, Leaf(x)) == p
  {
    hide Merge;
    var o := Object(map[]);
    forall p | Container(p) ensures Merge(p, Leaf(x)) == p { MergeWithScalar(p, Leaf(x)); }
    MergeWithScalar(Leaf(x), o);
    if CountsAsNothing(x) {
      forall s ensures Merge(Leaf(x), s) == s { MergeWithScalar(Leaf(x), s); }
      assert Merge(Leaf(x), o) == o != Leaf(x);
    } else {
      forall s ensures Merge(Leaf(x), s) == Leaf(x) { MergeWithScalar(Leaf(x), s); }
      assert Merge(Leaf(x), o) == Leaf(x) != o;
    }
  }

  /** A scalar at either end, or an empty value anywhere, never matters. */
  lemma ScalarsAssociate(a: Value, b: Value, c: Value)
    requires !Truthy(a) || !Truthy(b) || !Truthy(c) || a.Leaf? || c.Leaf?
    ensures Merge(Merge(a, b), c) == Merge(a, Merge(b, c))
  {
    hide Merge;
    MergeTruthy(a, b);
    if a.Leaf? {
      MergeWithScalar(a, b);
      MergeWithScalar(a, c);
      MergeWithScalar(a, Merge(b, c));
    } else if c.Leaf? {
      MergeWithScalar(Merge(a, b), c);
      MergeWithScalar(b, c);
      if b.Leaf? { MergeWithScalar(a, b); }
      MergeWithScalar(a, c);
    } else {
      MergeWithScalar(a, b);
      MergeWithScalar(b, c);
    }
  }

  lemma ContainerStays(p: Value, s: Value)
    requires Container(p)
    ensures Container(Merge(p, s)) && (s.Leaf? ==> Merge(p, s) == p)
  {}

  // ----- Arrays that meet an object -----

  lemma DigitsDiffer(i: nat, j: nat)
    ensures Digits(i) == Digits(j) <==> i == j
    ensures Digits(i) !in INHERITED
  {
    DigitsReadBack(i);
    DigitsReadBack(j);
    assert IsDigit(Digits(i)[0]);
  }

  lemma {:induction false} IndexFieldsMeaning(items: seq<Scalar>)
    ensures forall i: nat :: Digits(i) in IndexFields(items) <==> i < |items|
    ensures forall i: nat :: i < |items| ==> IndexFields(items)[Digits(i)] == Leaf(items[i])
    ensures forall k :: k in IndexFields(items) ==> k !in INHERITED && exists i: nat :: i < |items| && k == Digits(i)
    decreases |items|
  {
    hide Digits;
    if items != [] {
      var n := |items| - 1;
      IndexFieldsMeaning(items[..n]);
      forall i: nat ensures Digits(i) == Digits(n) <==> i == n { DigitsDiffer(i, n); }
      DigitsDiffer(n, n);
    }
  }

  /** b shows only where a has no index of its own. */
  function Longer(a: seq<Scalar>, b: seq<Scalar>): seq<Scalar> {
    if |b| > |a| then a + b[|a|..] else a
  }

  lemma LongerFields(a: seq<Scalar>, b: seq<Scalar>)
    ensures IndexFields(Longer(a, b)) == IndexFields(b) + IndexFields(a)
  {
    hide Digits, IndexFields;
    IndexFieldsMeaning(a);
    IndexFieldsMeaning(b);
    IndexFieldsMeaning(Longer(a, b));
    var l, m := IndexFields(Longer(a, b)), IndexFields(b) + IndexFields(a);
    forall k ensures k in l <==> k in m {}
    forall k | k in l ensures l[k] == m[k] {
      var i: nat :| i < |Longer(a, b)| && k == Digits(i);
    }
  }

  /** An array laid over an object: its indices win, and inherited names are lost. */
  lemma ArrayOnTop(x: seq<Scalar>, c: Value)
    requires c.Object?
    ensures Merge(Array(x), c) == Object(c.fields - INHERITED + IndexFields(x))
  {
    hide Merge, IndexFields;
    MergedKeys(Array(x), c);
    IndexFieldsMeaning(x);
    var m, n := Merge(Array(x), c).fields, c.fields - INHERITED + IndexFields(x);
    assert m.Keys == n.Keys;
    assert m == n;
  }

  /** An array laid under an object shows only at indices the object does not own. */
  lemma ArrayBelow(a: Value, x: seq<Scalar>)
    requires a.Object?
    ensures Merge(a, Array(x)) == Object(IndexFields(x) + a.fields)
  {
    hide Merge, IndexFields;
    MergedKeys(a, Array(x));
    IndexFieldsMeaning(x);
    var m, n := Merge(a, Array(x)).fields, IndexFields(x) + a.fields;
    assert m.Keys == n.Keys;
    forall k | k in m ensures m[k] == n[k] {
      if k in a.fields && k in IndexFields(x) && Container(a.fields[k]) {
        ContainerStays(a.fields[k], IndexFields(x)[k]);
      }
    }
    assert m == n;
  }

  lemma ArrayOverObject(a: seq<Scalar>, b: seq<Scalar>, c: Value)
    requires c.Object?
    ensures Merge(Array(a), Merge(Array(b), c)) == Merge(Array(Longer(a, b)), c)
  {
    hide Merge, IndexFields, Longer;
    LongerFields(a, b);
    IndexFieldsMeaning(b);
    ArrayOnTop(b, c);
    ArrayOnTop(a, Merge(Array(b), c));
    ArrayOnTop(Longer(a, b), c);
    var rest, x, y := c.fields - INHERITED, IndexFields(a), IndexFields(b);
    assert rest + y - INHERITED == rest + y;
    assert rest + y + x == rest + (y + x);
  }

  /** What stands at index i when x is laid over the given fields. */
  function Cell(x: seq<Scalar>, fields: map<string, Value>, i: nat): Option<Value> {
    if i < |x| then Some(Leaf(x[i])) else if Digits(i) in fields then Some(fields[Digits(i)]) else None
  }

  predicate SameCells(x: seq<Scalar>, y: seq<Scalar>, fields: map<string, Value>) {
    forall i: nat :: i < |x| + |y| ==> Cell(x, fields, i) == Cell(y, fields, i)
  }

  lemma OverlayCells(x: seq<Scalar>, y: seq<Scalar>, c: Value)
    requires c.Object?
    ensures Merge(Array(x), c) == Merge(Array(y), c) <==> SameCells(x, y, c.fields)
  {
    hide Merge, IndexFields, Digits;
    ArrayOnTop(x, c);
    ArrayOnTop(y, c);
    var rest := c.fields - INHERITED;
    forall i: nat ensures Digits(i) in rest <==> Digits(i) in c.fields { DigitsDiffer(i, i); }
    assert SameCells(x, y, c.fields) <==> SameCells(x, y, rest) by {
      assert forall i: nat :: Cell(x, rest, i) == Cell(x, c.fields, i) && Cell(y, rest, i) == Cell(y, c.fields, i);
    }
    CellsOver(x, y, rest);
  }

  /** Two lists laid over the same fields look the same exactly when every cell does. */
  lemma CellsOver(x: seq<Scalar>, y: seq<Scalar>, fields: map<string, Value>)
    ensures fields + IndexFields(x) == fields + IndexFields(y) <==> SameCells(x, y, fields)
  {
    hide IndexFields, Digits;
    IndexFieldsMeaning(x);
    IndexFieldsMeaning(y);
    var m, n := fields + IndexFields(x), fields + IndexFields(y);
    forall i: nat
      ensures Cell(x, fields, i) == (if Digits(i) in m then Some(m[Digits(i)]) else None)
      ensures Cell(y, fields, i) == (if Digits(i) in n then Some(n[Digits(i)]) else None)
    {}
    if SameCells(x, y, fields) {
      forall k ensures (k in m <==> k in n) && (k in m ==> m[k] == n[k]) {
        if k in IndexFields(x) || k in IndexFields(y) {
          var i: nat :| (i < |x| || i < |y|) && k == Digits(i);
          assert Cell(x, fields, i) == Cell(y, fields, i);
        }
      }
      assert m == n;
    }
  }

  lemma ObjectUnderArrays(a: Value, b: seq<Scalar>, c: seq<Scalar>)
    requires a.Object?
    ensures Merge(Merge(a, Array(b)), Array(c)) == Merge(a, Array(Longer(b, c)))
  {
    hide Merge, IndexFields, Longer;
    LongerFields(b, c);
    ArrayBelow(a, b);
    ArrayBelow(Merge(a, Array(b)), c);
    ArrayBelow(a, Longer(b, c));
    assert IndexFields(c) + (IndexFields(b) + a.fields) == IndexFields(c) + IndexFields(b) + a.fields;
  }

  /** The two lists agree at every index the object has no name of its own for. */
  predicate SameCellsOutside(x: seq<Scalar>, y: seq<Scalar>, own: map<string, Value>) {
    forall i: nat :: i < |x| + |y| && Digits(i) !in own ==> Cell(x, map[], i) == Cell(y, map[], i)
  }

  lemma OutsideCells(a: Value, x: seq<Scalar>, y: seq<Scalar>)
    requires a.Object?
    ensures Merge(a, Array(x)) == Merge(a, Array(y)) <==> SameCellsOutside(x, y, a.fields)
  {
    hide Merge, IndexFields, Digits;
    ArrayBelow(a, x);
    ArrayBelow(a, y);
    IndexFieldsMeaning(x);
    IndexFieldsMeaning(y);
    var own := a.fields;
    var m, n := IndexFields(x) + own, IndexFields(y) + own;
    forall i: nat | Digits(i) !in own
      ensures Cell(x, map[], i) == (if Digits(i) in m then Some(m[Digits(i)]) else None)
      ensures Cell(y, map[], i) == (if Digits(i) in n then Some(n[Digits(i)]) else None)
    {}
    if SameCellsOutside(x, y, own) {
      forall k ensures (k in m <==> k in n) && (k in m ==> m[k] == n[k]) {
        if k !in own && (k in IndexFields(x) || k in IndexFields(y)) {
          var i: nat :| (i < |x| || i < |y|) && k == Digits(i);
          assert Cell(x, map[], i) == Cell(y, map[], i);
        }
      }
      assert m == n;
    }
  }

  // ----- Associativity -----

  /**
   * When the two groupings of three values agree. It always does when a value is empty, an end is a
   * scalar, or all are arrays. A scalar in the middle hides the last value from the first; uniting
   * two arrays is not overlaying them; and below that it depends on the keys the ends share.
   */
  predicate Exact(a: Value, b: Value, c: Value)
    decreases a, 1
  {
    if !Truthy(a) || !Truthy(b) || !Truthy(c) || a.Leaf? || c.Leaf? then true
    else if b.Leaf? then AddsNothing(a, c)
    else if a.Array? && b.Array? then c.Array? || SameCells(Union(a.items, b.items), Longer(a.items, b.items), c.fields)
    else if b.Array? && c.Array? then SameCellsOutside(Longer(b.items, c.items), Union(b.items, c.items), a.fields)
    else a.Object? ==> forall k :: k in a.fields && k in Fields(c) && Container(a.fields[k]) ==> ExactAt(a, b, c, k)
  }

  predicate ExactAt(a: Value, b: Value, c: Value, k: string)
    requires a.Object? && Container(b) && Container(c) && k in a.fields && k in Fields(c)
    decreases a, 0
  {
    if k in Fields(b) && Container(Fields(b)[k]) then Exact(a.fields[k], Fields(b)[k], Fields(c)[k])
    else k in Fields(b) || k in INHERITED ==> AddsNothing(a.fields[k], Fields(c)[k])
  }

  /** Merge is associative on three values exactly when Exact holds of them. */
  lemma {:induction false} MergeAssociative(a: Value, b: Value, c: Value)
    ensures Merge(Merge(a, b), c) == Merge(a, Merge(b, c)) <==> Exact(a, b, c)
    decreases a, 2
  {
    hide Merge, Union, Longer, AddsNothing, SameCells, SameCellsOutside, ExactAt, Fields;
    if !Truthy(a) || !Truthy(b) || !Truthy(c) || a.Leaf? || c.Leaf? {
      ScalarsAssociate(a, b, c);
    } else if b.Leaf? {
      ScalarBetweenContainers(a, b, c);
    } else if a.Array? && b.Array? && c.Array? {
      ArraysAssociate(a, b, c);
    } else if a.Array? && b.Array? {
      ArrayMeetsObject(a.items, b.items, c);
    } else if b.Array? && c.Array? {
      ObjectMeetsArrays(a, b.items, c.items);
    } else {
      FieldsAssociate(a, b, c);
    }
  }

  /** A scalar between two containers: the groupings agree exactly when the last adds nothing to the first. */
  lemma ScalarBetweenContainers(a: Value, b: Value, c: Value)
    requires Container(a) && b.Leaf? && Truthy(b) && Container(c)
    ensures Merge(Merge(a, b), c) == Merge(a, Merge(b, c)) <==> AddsNothing(a, c)
  {
    hide Merge, AddsNothing;
    MergeWithScalar(a, b);
    MergeWithScalar(b, c);
    AddsNothingExactly(a, c);
  }

  lemma ArraysUnite(a: seq<Scalar>, b: seq<Scalar>)
    ensures Merge(Array(a), Array(b)) == Array(Union(a, b))
  {}

  /**
   * Two arrays and an object: merging the arrays first unites them, merging the object first lays
   * them over each other index by index. The groupings agree exactly when that looks the same over c.
   */
  lemma ArrayMeetsObject(a: seq<Scalar>, b: seq<Scalar>, c: Value)
    requires c.Object?
    ensures Merge(Merge(Array(a), Array(b)), c) == Merge(Array(a), Merge(Array(b), c)) <==>
      SameCells(Union(a, b), Longer(a, b), c.fields)
  {
    hide Union, Longer, Merge, SameCells;
    ArraysUnite(a, b);
    ArrayOverObject(a, b, c);
    OverlayCells(Union(a, b), Longer(a, b), c);
  }

  /** An object and two arrays: the same, at the indices the object does not own. */
  lemma ObjectMeetsArrays(a: Value, b: seq<Scalar>, c: seq<Scalar>)
    requires a.Object?
    ensures Merge(Merge(a, Array(b)), Array(c)) == Merge(a, Merge(Array(b), Array(c))) <==>
      SameCellsOutside(Longer(b, c), Union(b, c), a.fields)
  {
    hide Union, Longer, Merge, SameCellsOutside;
    ArraysUnite(b, c);
    ObjectUnderArrays(a, b, c);
    OutsideCells(a, Longer(b, c), Union(b, c));
  }

  lemma {:induction false} FieldsAssociate(a: Value, b: Value, c: Value)
    requires Container(a) && Container(b) && Container(c) && !(a.Array? && b.Array?) && !(b.Array? && c.Array?)
    ensures Merge(Merge(a, b), c) == Merge(a, Merge(b, c)) <==>
      (a.Object? ==> forall k :: k in a.fields && k in Fields(c) && Container(a.fields[k]) ==> ExactAt(a, b, c, k))
    decreases a, 1
  {
    hide Merge, ExactAt, IndexFields;
    var l, r := Merge(Merge(a, b), c), Merge(a, Merge(b, c));
    GroupedKeys(a, b, c);
    forall k | k in l.fields ensures l.fields[k] == r.fields[k] <==> AgreesAt(a, b, c, k) {
      AssociativeAt(a, b, c, k);
    }
    if forall k :: k in l.fields ==> AgreesAt(a, b, c, k) {
      assert l.fields == r.fields;
    }
    AgreesEverywhere(a, b, c, l.fields.Keys);
  }

  ghost predicate AgreesAt(a: Value, b: Value, c: Value, k: string)
    requires Container(a) && Container(b) && Container(c)
  {
    a.Object? && k in a.fields && k in Fields(c) && Container(a.fields[k]) ==> ExactAt(a, b, c, k)
  }

  lemma AgreesEverywhere(a: Value, b: Value, c: Value, keys: set<string>)
    requires Container(a) && Container(b) && Container(c) && (a.Object? ==> a.fields.Keys <= keys)
    ensures (forall k :: k in keys ==> AgreesAt(a, b, c, k)) <==>
      (a.Object? ==> forall k :: k in a.fields && k in Fields(c) && Container(a.fields[k]) ==> ExactAt(a, b, c, k))
  {
    hide ExactAt, Fields;
    if a.Object? && forall k :: k in keys ==> AgreesAt(a, b, c, k) {
      forall k | k in a.fields && k in Fields(c) && Container(a.fields[k]) ensures ExactAt(a, b, c, k) {
        assert AgreesAt(a, b, c, k);
      }
    }
  }

  /** Both groupings have the same keys. */
  lemma GroupedKeys(a: Value, b: Value, c: Value)
    requires Container(a) && Container(b) && Container(c) && !(a.Array? && b.Array?) && !(b.Array? && c.Array?)
    ensures Merge(Merge(a, b), c).Object? && Merge(a, Merge(b, c)).Object?
    ensures Merge(Merge(a, b), c).fields.Keys == Merge(a, Merge(b, c)).fields.Keys
      == Fields(a).Keys + (Fields(b).Keys - INHERITED) + (Fields(c).Keys - INHERITED)
  {
    hide Merge, IndexFields;
    MergedKeys(a, b);
    MergedKeys(b, c);
    MergedKeys(Merge(a, b), c);
    MergedKeys(a, Merge(b, c));
  }

  lemma {:induction false} AssociativeAt(a: Value, b: Value, c: Value, k: string)
    requires Container(a) && Container(b) && Container(c) && !(a.Array? && b.Array?) && !(b.Array? && c.Array?)
    requires k in Fields(a).Keys + (Fields(b).Keys - INHERITED) + (Fields(c).Keys - INHERITED)
    ensures Merge(Merge(a, b), c).Object? && Merge(a, Merge(b, c)).Object?
    ensures k in Merge(Merge(a, b), c).fields && k in Merge(a, Merge(b, c)).fields
    ensures Merge(Merge(a, b), c).fields[k] == Merge(a, Merge(b, c)).fields[k] <==> AgreesAt(a, b, c, k)
    decreases a, 0
  {
    hide Merge, IndexFields, AddsNothing, Exact;
    MergedKeys(a, b);
    MergedKeys(b, c);
    MergedKeys(Merge(a, b), c);
    MergedKeys(a, Merge(b, c));
    var x, y, z := Fields(a), Fields(b), Fields(c);
    if k in x && Container(x[k]) {
      assert a.Object?;
      if k in y { ContainerStays(x[k], y[k]); }
      if k in z {
        AddsNothingExactly(x[k], z[k]);
        if k in y && Container(y[k]) {
          MergeAssociative(x[k], y[k], z[k]);
        }
      }
    }
  }

  /** Objects built from the same kind of thing at every shared path, inherited names aside. */
  ghost predicate SameKind(a: Value, b: Value)
    decreases a
  {
    (a.Leaf? && b.Leaf?) || (a.Array? && b.Array?) ||
    (a.Object? && b.Object? && forall k :: k in a.fields && k in b.fields ==> SameKind(a.fields[k], b.fields[k]))
  }

  ghost predicate PlainNames(v: Value)
    decreases v
  {
    v.Object? ==> forall k :: k in v.fields ==> k !in INHERITED && PlainNames(v.fields[k])
  }

  lemma {:induction false} SameKindIsExact(a: Value, b: Value, c: Value)
    requires SameKind(a, b) && SameKind(b, c) && SameKind(a, c) && PlainNames(c)
    ensures Exact(a, b, c)
    decreases a
  {
    hide AddsNothing, SameCells, SameCellsOutside;
    if a.Object? {
      forall k | k in a.fields && k in c.fields && Container(a.fields[k]) ensures ExactAt(a, b, c, k) {
        if k in b.fields { SameKindIsExact(a.fields[k], b.fields[k], c.fields[k]); }
      }
    }
  }

  lemma SameKindAssociates(a: Value, b: Value, c: Value)
    requires SameKind(a, b) && SameKind(b, c) && SameKind(a, c) && PlainNames(c)
    ensures Merge(Merge(a, b), c) == Merge(a, Merge(b, c))
  {
    hide Merge, Exact, SameKind, PlainNames;
    SameKindIsExact(a, b, c);
    MergeAssociative(a, b, c);
  }

  /** For example, [1] and [2] and an empty object; and an empty object and [1] and [2]. */
  lemma ArrayObjectExample()
    ensures Merge(Merge(Array([Number(1)]), Array([Number(2)])), Object(map[]))
         != Merge(Array([Number(1)]), Merge(Array([Number(2)]), Object(map[])))
    ensures Merge(Merge(Object(map[]), Array([Number(1)])), Array([Number(2)]))
         != Merge(Object(map[]), Merge(Array([Number(1)]), Array([Number(2)])))
  {
    hide Merge;
    var x, y := [Number(1)], [Number(2)];
    ArrayMeetsObject(x, y, Object(map[]));
    ObjectMeetsArrays(Object(map[]), x, y);
    assert Union(x, y) == [Number(1), Number(2)] && Longer(x, y) == x;
    assert Cell(Union(x, y), map[], 1) != Cell(x, map[], 1);
  }

  /** Merged into an empty object, a value loses exactly the names every object inherits. */
  lemma InheritedNamesLost(s: Value)
    requires s.Object?
    ensures Merge(Object(map[]), s) == Object(s.fields - {
      "constructor", "hasOwnProperty", "isPrototypeOf", "propertyIsEnumerable", "toLocaleString", "toString", "valueOf",
      "__defineGetter__", "__defineSetter__", "__lookupGetter__", "__lookupSetter__"})
  {
    MergedKeys(Object(map[]), s);
    assert Merge(Object(map[]), s).fields == s.fields - INHERITED;
  }
}
