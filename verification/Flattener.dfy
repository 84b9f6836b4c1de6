/**
  Flattening of nested lists, tuples and dictionaries: a schema numbers the selected leaves in
  traversal order, `Flatten` writes them into a list and `Unflatten` builds the containers again.
*/
module Flattener {

  datatype Kind = ListKind | TupleKind

  /** A Python value: a leaf, `None`, a list or tuple, or a dictionary with string keys. */
  datatype Value = Leaf(id: int) | Nothing | Items(kind: Kind, items: seq<Value>) | Dict(fields: map<string, Value>)

  datatype Schema = Slot(n: nat) | NoSlot | SItems(kind: Kind, items: seq<Schema>) | SDict(fields: map<string, Schema>)

  /** Which values are flattened as a whole; the default selects some tensors. */
  type Condition = Value -> bool

  // ---------- sorted keys ----------

  /** The lexicographic order of Python strings. */
  predicate Leq(a: string, b: string) {
    if a == "" then true
    else if b == "" then false
    else if a[0] != b[0] then a[0] < b[0]
    else Leq(a[1..], b[1..])
  }

  lemma {:induction false} LeqAntisymmetric(a: string, b: string)
    requires Leq(a, b) && Leq(b, a)
    ensures a == b
  {
    if a == "" {
    } else {
      LeqAntisymmetric(a[1..], b[1..]);
      assert a == [a[0]] + a[1..] && b == [b[0]] + b[1..];
    }
  }

  lemma {:induction false} LeqTransitive(a: string, b: string, c: string)
    requires Leq(a, b) && Leq(b, c)
    ensures Leq(a, c)
  {
    if a != "" && a[0] == b[0] == c[0] { LeqTransitive(a[1..], b[1..], c[1..]); }
  }

  lemma {:induction false} LeqTotal(a: string, b: string)
    ensures Leq(a, b) || Leq(b, a)
  {
    if a == "" || b == "" {
    } else {
      LeqTotal(a[1..], b[1..]);
    }
  }

  ghost predicate FirstDifference(a: string, b: string, i: nat) {
    i < |a| && i < |b| && a[..i] == b[..i] && a[i] != b[i]
  }

  /** The order of dictionaries: a prefix comes first, and otherwise the first difference decides. */
  lemma {:induction false} LeqIsLexicographic(a: string, b: string)
    ensures a <= b ==> Leq(a, b)
    ensures forall i: nat :: FirstDifference(a, b, i) ==> (Leq(a, b) <==> a[i] < b[i])
    ensures b < a ==> !Leq(a, b)
  {
    if a == "" || b == "" {
    } else {
      LeqIsLexicographic(a[1..], b[1..]);
      assert a == [a[0]] + a[1..] && b == [b[0]] + b[1..];
      forall i: nat | FirstDifference(a, b, i) ensures Leq(a, b) <==> a[i] < b[i] {
        if i > 0 {
          assert a[..i][0] == b[..i][0];
          assert a[1..][..i - 1] == a[..i][1..] && b[1..][..i - 1] == b[..i][1..];
          assert FirstDifference(a[1..], b[1..], i - 1);
        }
      }
    }
  }

  predicate IsLeast(k: string, s: set<string>) {
    k in s && forall j :: j in s ==> Leq(k, j)
  }

  lemma LeastExists(s: set<string>)
    requires s != {}
    ensures exists k :: IsLeast(k, s)
    decreases s
  {
    var x :| x in s;
    LeqTotal(x, x);
    var rest := s - {x};
    if rest == {} {
      assert s == {x};
      assert IsLeast(x, s);
    } else {
      LeastExists(rest);
      var k :| IsLeast(k, rest);
      LeqTotal(x, k);
      var least := if Leq(x, k) then x else k;
      forall j | j in s ensures Leq(least, j) {
        if j in rest && Leq(x, k) { LeqTransitive(x, k, j); }
      }
      assert IsLeast(least, s);
    }
  }

  lemma LeastIsUnique(s: set<string>)
    ensures forall j, k :: IsLeast(j, s) && IsLeast(k, s) ==> j == k
  {
    forall j, k | IsLeast(j, s) && IsLeast(k, s) ensures j == k {
      LeqAntisymmetric(j, k);
    }
  }

  /** `sorted(keys)`. */
  function Sorted(s: set<string>): (r: seq<string>)
    ensures forall k :: k in r <==> k in s
    ensures forall i, j :: 0 <= i < j < |r| ==> r[i] != r[j] && Leq(r[i], r[j])
    decreases s
  {
    if s == {} then [] else
      LeastExists(s);
      LeastIsUnique(s);
      var k :| IsLeast(k, s);
      var rest := Sorted(s - {k});
      assert forall j :: 0 <= j < |rest| ==> rest[j] in s - {k};
      [k] + rest
  }

  // ---------- the schema of a value ----------

  /** The schema of a value whose first leaf gets number `size`, and the next free number. */
  function MakeSchema(v: Value, selects: Condition, size: nat): (r: (Schema, nat))
    ensures size <= r.1
    decreases v, 2, 0
  {
    if selects(v) then (Slot(size), size + 1)
    else match v
      case Items(kind, items) =>
        var (schemas, next) := MakeSchemas(items, selects, size);
        (SItems(kind, schemas), next)
      case Dict(fields) =>
        var (schemas, next) := MakeFieldSchemas(v, Sorted(fields.Keys), selects, size);
        (SDict(schemas), next)
      case _ => (NoSlot, size)
  }

  function MakeSchemas(items: seq<Value>, selects: Condition, size: nat): (r: (seq<Schema>, nat))
    ensures size <= r.1 && |r.0| == |items|
    decreases items, 0, 0
  {
    if items == [] then ([], size) else
      var (first, next) := MakeSchema(items[0], selects, size);
      var (rest, end) := MakeSchemas(items[1..], selects, next);
      ([first] + rest, end)
  }

  function MakeFieldSchemas(v: Value, keys: seq<string>, selects: Condition, size: nat): (r: (map<string, Schema>, nat))
    requires v.Dict? && forall k :: k in keys ==> k in v.fields
    ensures size <= r.1
    ensures forall k :: k in r.0 <==> k in keys
    decreases v, 1, |keys|
  {
    if keys == [] then (map[], size) else
      assert keys[0] in keys;
      assert forall k :: k in keys[1..] ==> k in keys;
      var (first, next) := MakeSchema(v.fields[keys[0]], selects, size);
      var (rest, end) := MakeFieldSchemas(v, keys[1..], selects, next);
      assert keys == [keys[0]] + keys[1..];
      (rest[keys[0] := first], end)
  }

  /** The leaf numbers of a schema in traversal order. */
  function Slots(s: Schema): seq<nat>
    decreases s, 2, 0
  {
    match s
    case Slot(n) => [n]
    case NoSlot => []
    case SItems(_, items) => SlotsOfAll(items)
    case SDict(fields) => SlotsOfFields(s, Sorted(fields.Keys))
  }

  function SlotsOfAll(ss: seq<Schema>): seq<nat>
    decreases ss, 0, 0
  {
    if ss == [] then [] else Slots(ss[0]) + SlotsOfAll(ss[1..])
  }

  function SlotsOfFields(s: Schema, keys: seq<string>): seq<nat>
    requires s.SDict? && forall k :: k in keys ==> k in s.fields
    decreases s, 1, |keys|
  {
    if keys == [] then [] else
      assert keys[0] in keys;
      assert forall k :: k in keys[1..] ==> k in keys;
      Slots(s.fields[keys[0]]) + SlotsOfFields(s, keys[1..])
  }

  function Interval(lo: nat, hi: nat): (r: seq<nat>)
    requires lo <= hi
    ensures |r| == hi - lo && forall i :: 0 <= i < |r| ==> r[i] == lo + i
  {
    seq(hi - lo, i requires i >= 0 => lo + i)
  }

  lemma IntervalSplit(lo: nat, mid: nat, hi: nat)
    requires lo <= mid <= hi
    ensures Interval(lo, mid) + Interval(mid, hi) == Interval(lo, hi)
  {
  }

  /** The leaves are numbered without gaps, in traversal order. */
  lemma {:induction false} SlotsAreConsecutive(v: Value, selects: Condition, size: nat)
    ensures var (s, end) := MakeSchema(v, selects, size); Slots(s) == Interval(size, end)
    decreases v, 2, 0
  {
    if !selects(v) {
      match v
      case Items(_, items) => ItemSlotsAreConsecutive(items, selects, size);
      case Dict(fields) =>
        var (schemas, _) := MakeFieldSchemas(v, Sorted(fields.Keys), selects, size);
        assert schemas.Keys == fields.Keys;
        FieldSlotsAreConsecutive(v, Sorted(fields.Keys), selects, size, SDict(schemas));
      case _ =>
    }
  }

  lemma {:induction false} ItemSlotsAreConsecutive(items: seq<Value>, selects: Condition, size: nat)
    ensures var (ss, end) := MakeSchemas(items, selects, size); SlotsOfAll(ss) == Interval(size, end)
    decreases items, 0, 0
  {
    if items == [] {
    } else {
      var (first, next) := MakeSchema(items[0], selects, size);
      var (rest, end) := MakeSchemas(items[1..], selects, next);
      SlotsAreConsecutive(items[0], selects, size);
      ItemSlotsAreConsecutive(items[1..], selects, next);
      assert ([first] + rest)[1..] == rest;
      IntervalSplit(size, next, end);
    }
  }

  /** The field schemas of `keys` occur in `s` unchanged. */
  ghost predicate Includes(s: Schema, part: map<string, Schema>) {
    s.SDict? && forall k :: k in part ==> k in s.fields && s.fields[k] == part[k]
  }

  ghost predicate DistinctKeys(keys: seq<string>) {
    forall i, j :: 0 <= i < j < |keys| ==> keys[i] != keys[j]
  }

  lemma FieldSchemasSplit(v: Value, keys: seq<string>, selects: Condition, size: nat, s: Schema)
    requires v.Dict? && keys != [] && DistinctKeys(keys) && forall k :: k in keys ==> k in v.fields
    requires Includes(s, MakeFieldSchemas(v, keys, selects, size).0)
    ensures keys[0] in keys && DistinctKeys(keys[1..]) && forall k :: k in keys[1..] ==> k in v.fields
    ensures keys[0] in s.fields
    ensures var (first, next) := MakeSchema(v.fields[keys[0]], selects, size);
      && s.fields[keys[0]] == first
      && Includes(s, MakeFieldSchemas(v, keys[1..], selects, next).0)
      && MakeFieldSchemas(v, keys, selects, size).1 == MakeFieldSchemas(v, keys[1..], selects, next).1
  {
    assert keys == [keys[0]] + keys[1..];
    assert keys[0] !in keys[1..];
  }

  lemma {:induction false} FieldSlotsAreConsecutive(v: Value, keys: seq<string>, selects: Condition, size: nat, s: Schema)
    requires v.Dict? && DistinctKeys(keys) && forall k :: k in keys ==> k in v.fields
    requires Includes(s, MakeFieldSchemas(v, keys, selects, size).0)
    ensures forall k :: k in keys ==> k in s.fields
    ensures SlotsOfFields(s, keys) == Interval(size, MakeFieldSchemas(v, keys, selects, size).1)
    decreases v, 1, |keys|
  {
    if keys == [] {
    } else {
      FieldSchemasSplit(v, keys, selects, size, s);
      var (_, next) := MakeSchema(v.fields[keys[0]], selects, size);
      SlotsAreConsecutive(v.fields[keys[0]], selects, size);
      FieldSlotsAreConsecutive(v, keys[1..], selects, next, s);
      IntervalSplit(size, next, MakeFieldSchemas(v, keys, selects, size).1);
    }
  }

  // ---------- flattening ----------

  /** The value has the containers and keys that the schema looks into, and the slots fit. */
  predicate Fits(s: Schema, v: Value, size: nat)
    decreases s, 2, 0
  {
    match s
    case Slot(n) => n < size
    case NoSlot => true
    case SItems(_, items) => v.Items? && FitsAll(items, v.items, size)
    case SDict(fields) => v.Dict? && FitsFields(s, Sorted(fields.Keys), v, size)
  }

  /** Pairs are formed as long as both lists last. */
  predicate FitsAll(ss: seq<Schema>, vs: seq<Value>, size: nat)
    decreases ss, 0, 0
  {
    ss == [] || vs == [] || (Fits(ss[0], vs[0], size) && FitsAll(ss[1..], vs[1..], size))
  }

  predicate FitsFields(s: Schema, keys: seq<string>, v: Value, size: nat)
    requires s.SDict? && v.Dict? && forall k :: k in keys ==> k in s.fields
    decreases s, 1, |keys|
  {
    if keys == [] then true else
      assert keys[0] in keys;
      assert forall k :: k in keys[1..] ==> k in keys;
      keys[0] in v.fields && Fits(s.fields[keys[0]], v.fields[keys[0]], size) && FitsFields(s, keys[1..], v, size)
  }

  function Write(s: Schema, v: Value, r: seq<Value>): (n: seq<Value>)
    requires Fits(s, v, |r|)
    ensures |n| == |r|
    decreases s, 2, 0
  {
    match s
    case Slot(n) => r[n := v]
    case NoSlot => r
    case SItems(_, items) => WriteAll(items, v.items, r)
    case SDict(fields) => WriteFields(s, Sorted(fields.Keys), v, r)
  }

  function WriteAll(ss: seq<Schema>, vs: seq<Value>, r: seq<Value>): (n: seq<Value>)
    requires FitsAll(ss, vs, |r|)
    ensures |n| == |r|
    decreases ss, 0, 0
  {
    if ss == [] || vs == [] then r else WriteAll(ss[1..], vs[1..], Write(ss[0], vs[0], r))
  }

  function WriteFields(s: Schema, keys: seq<string>, v: Value, r: seq<Value>): (n: seq<Value>)
    requires s.SDict? && v.Dict? && (forall k :: k in keys ==> k in s.fields) && FitsFields(s, keys, v, |r|)
    ensures |n| == |r|
    decreases s, 1, |keys|
  {
    if keys == [] then r else
      assert keys[0] in keys;
      assert forall k :: k in keys[1..] ==> k in keys;
      WriteFields(s, keys[1..], v, Write(s.fields[keys[0]], v.fields[keys[0]], r))
  }

  function Blank(size: nat): (r: seq<Value>)
    ensures |r| == size && forall i :: 0 <= i < size ==> r[i] == Nothing
  {
    seq(size, _ => Nothing)
  }

  function Flatten(s: Schema, size: nat, v: Value): seq<Value>
    requires Fits(s, v, size)
  {
    Write(s, v, Blank(size))
  }

  /** `_flatten`: writes the selected parts of a value into the shared result list. */
  method FlattenInto(s: Schema, v: Value, result: array<Value>)
    requires Fits(s, v, result.Length)
    modifies result
    ensures result[..] == Write(s, v, old(result[..]))
    decreases s, 2, 0
  {
    match s
    case Slot(n) => result[n] := v;
    case NoSlot =>
    case SItems(_, items) => FlattenItemsInto(items, v.items, result);
    case SDict(fields) => FlattenFieldsInto(s, Sorted(fields.Keys), v, result);
  }

  method FlattenItemsInto(ss: seq<Schema>, vs: seq<Value>, result: array<Value>)
    requires FitsAll(ss, vs, result.Length)
    modifies result
    ensures result[..] == WriteAll(ss, vs, old(result[..]))
    decreases ss, 0, 0
  {
    if ss != [] && vs != [] {
      FlattenInto(ss[0], vs[0], result);
      FlattenItemsInto(ss[1..], vs[1..], result);
    }
  }

  method FlattenFieldsInto(s: Schema, keys: seq<string>, v: Value, result: array<Value>)
    requires s.SDict? && v.Dict? && (forall k :: k in keys ==> k in s.fields) && FitsFields(s, keys, v, result.Length)
    modifies result
    ensures result[..] == WriteFields(s, keys, v, old(result[..]))
    decreases s, 1, |keys|
  {
    if keys != [] {
      assert keys[0] in keys;
      FlattenInto(s.fields[keys[0]], v.fields[keys[0]], result);
      FlattenFieldsInto(s, keys[1..], v, result);
    }
  }

  method FlattenValue(s: Schema, size: nat, v: Value) returns (result: array<Value>)
    requires Fits(s, v, size)
    ensures result[..] == Flatten(s, size, v)
  {
    result := new Value[size](_ => Nothing);
    assert result[..] == Blank(size);
    FlattenInto(s, v, result);
  }

  /** Every slot of the schema is a position of a list of length `size`. */
  predicate Below(s: Schema, size: nat)
    decreases s, 2, 0
  {
    match s
    case Slot(n) => n < size
    case NoSlot => true
    case SItems(_, items) => BelowAll(items, size)
    case SDict(fields) => BelowFields(s, Sorted(fields.Keys), size)
  }

  predicate BelowAll(ss: seq<Schema>, size: nat)
    decreases ss, 0, 0
  {
    ss == [] || (Below(ss[0], size) && BelowAll(ss[1..], size))
  }

  predicate BelowFields(s: Schema, keys: seq<string>, size: nat)
    requires s.SDict? && forall k :: k in keys ==> k in s.fields
    decreases s, 1, |keys|
  {
    if keys == [] then true else
      assert keys[0] in keys;
      assert forall k :: k in keys[1..] ==> k in keys;
      Below(s.fields[keys[0]], size) && BelowFields(s, keys[1..], size)
  }

  function Unflatten(s: Schema, xs: seq<Value>): Value
    requires Below(s, |xs|)
    decreases s, 2, 0
  {
    match s
    case Slot(n) => xs[n]
    case NoSlot => Nothing
    case SItems(kind, items) => Items(kind, UnflattenAll(items, xs))
    case SDict(fields) => Dict(UnflattenFields(s, Sorted(fields.Keys), xs))
  }

  function UnflattenAll(ss: seq<Schema>, xs: seq<Value>): (vs: seq<Value>)
    requires BelowAll(ss, |xs|)
    ensures |vs| == |ss|
    decreases ss, 0, 0
  {
    if ss == [] then [] else [Unflatten(ss[0], xs)] + UnflattenAll(ss[1..], xs)
  }

  function UnflattenFields(s: Schema, keys: seq<string>, xs: seq<Value>): (m: map<string, Value>)
    requires s.SDict? && (forall k :: k in keys ==> k in s.fields) && BelowFields(s, keys, |xs|)
    ensures forall k :: k in m <==> k in keys
    decreases s, 1, |keys|
  {
    if keys == [] then map[] else
      assert keys[0] in keys;
      assert forall k :: k in keys[1..] ==> k in keys;
      assert keys == [keys[0]] + keys[1..];
      UnflattenFields(s, keys[1..], xs)[keys[0] := Unflatten(s.fields[keys[0]], xs)]
  }

  // ---------- the schema of a value fits it ----------

  /** The schema of a value looks only into the value's own containers, at its own range of slots. */
  lemma {:induction false} SchemaFits(v: Value, selects: Condition, size: nat, n: nat)
    requires MakeSchema(v, selects, size).1 <= n
    ensures var s := MakeSchema(v, selects, size).0; Fits(s, v, n) && Below(s, n)
    decreases v, 2, 0
  {
    if !selects(v) {
      match v
      case Items(_, items) => ItemSchemasFit(items, selects, size, n);
      case Dict(fields) =>
        var schemas := MakeFieldSchemas(v, Sorted(fields.Keys), selects, size).0;
        assert schemas.Keys == fields.Keys;
        FieldSchemasFit(v, Sorted(fields.Keys), selects, size, SDict(schemas), n);
      case _ =>
    }
  }

  lemma {:induction false} ItemSchemasFit(items: seq<Value>, selects: Condition, size: nat, n: nat)
    requires MakeSchemas(items, selects, size).1 <= n
    ensures var ss := MakeSchemas(items, selects, size).0; FitsAll(ss, items, n) && BelowAll(ss, n)
    decreases items, 0, 0
  {
    if items == [] {
    } else {
      var (first, next) := MakeSchema(items[0], selects, size);
      var rest := MakeSchemas(items[1..], selects, next).0;
      SchemaFits(items[0], selects, size, n);
      ItemSchemasFit(items[1..], selects, next, n);
      assert ([first] + rest)[1..] == rest;
    }
  }

  lemma {:induction false} FieldSchemasFit(v: Value, keys: seq<string>, selects: Condition, size: nat, s: Schema, n: nat)
    requires v.Dict? && DistinctKeys(keys) && forall k :: k in keys ==> k in v.fields
    requires Includes(s, MakeFieldSchemas(v, keys, selects, size).0)
    requires MakeFieldSchemas(v, keys, selects, size).1 <= n
    ensures forall k :: k in keys ==> k in s.fields
    ensures FitsFields(s, keys, v, n) && BelowFields(s, keys, n)
    decreases v, 1, |keys|
  {
    if keys == [] {
    } else {
      FieldSchemasSplit(v, keys, selects, size, s);
      SchemaFits(v.fields[keys[0]], selects, size, n);
      FieldSchemasFit(v, keys[1..], selects, MakeSchema(v.fields[keys[0]], selects, size).1, s, n);
    }
  }

  // ---------- writing and reading are local ----------

  /** The lists agree inside the range. */
  ghost predicate Agree(a: seq<Value>, b: seq<Value>, lo: nat, hi: nat) {
    |a| == |b| && forall i :: lo <= i < hi && i < |a| ==> a[i] == b[i]
  }

  /** The lists agree outside the range. */
  ghost predicate AgreeOutside(a: seq<Value>, b: seq<Value>, lo: nat, hi: nat) {
    |a| == |b| && forall i :: 0 <= i < |a| && !(lo <= i < hi) ==> a[i] == b[i]
  }

  /** Any value that fits is written into the schema's own range only. */
  lemma {:induction false} WriteIsLocal(v: Value, selects: Condition, size: nat, u: Value, r: seq<Value>)
    requires var (s, end) := MakeSchema(v, selects, size); Fits(s, u, |r|)
    ensures var (s, end) := MakeSchema(v, selects, size); AgreeOutside(Write(s, u, r), r, size, end)
    decreases v, 2, 0
  {
    if !selects(v) {
      match v
      case Items(_, items) => WriteAllIsLocal(items, selects, size, u.items, r);
      case Dict(fields) =>
        var schemas := MakeFieldSchemas(v, Sorted(fields.Keys), selects, size).0;
        assert schemas.Keys == fields.Keys;
        WriteFieldsIsLocal(v, Sorted(fields.Keys), selects, size, SDict(schemas), u, r);
      case _ =>
    }
  }

  lemma {:induction false} WriteAllIsLocal(items: seq<Value>, selects: Condition, size: nat, us: seq<Value>, r: seq<Value>)
    requires FitsAll(MakeSchemas(items, selects, size).0, us, |r|)
    ensures var (ss, end) := MakeSchemas(items, selects, size); AgreeOutside(WriteAll(ss, us, r), r, size, end)
    decreases items, 0, 0
  {
    if items == [] || us == [] {
    } else {
      var (first, next) := MakeSchema(items[0], selects, size);
      var rest := MakeSchemas(items[1..], selects, next).0;
      assert ([first] + rest)[1..] == rest;
      WriteIsLocal(items[0], selects, size, us[0], r);
      WriteAllIsLocal(items[1..], selects, next, us[1..], Write(first, us[0], r));
    }
  }

  lemma {:induction false} WriteFieldsIsLocal(v: Value, keys: seq<string>, selects: Condition, size: nat, s: Schema,
                                              u: Value, r: seq<Value>)
    requires v.Dict? && u.Dict? && DistinctKeys(keys) && forall k :: k in keys ==> k in v.fields
    requires Includes(s, MakeFieldSchemas(v, keys, selects, size).0)
    requires (forall k :: k in keys ==> k in s.fields) && FitsFields(s, keys, u, |r|)
    ensures AgreeOutside(WriteFields(s, keys, u, r), r, size, MakeFieldSchemas(v, keys, selects, size).1)
    decreases v, 1, |keys|
  {
    if keys == [] {
    } else {
      FieldSchemasSplit(v, keys, selects, size, s);
      var (first, next) := MakeSchema(v.fields[keys[0]], selects, size);
      WriteIsLocal(v.fields[keys[0]], selects, size, u.fields[keys[0]], r);
      WriteFieldsIsLocal(v, keys[1..], selects, next, s, u, Write(first, u.fields[keys[0]], r));
    }
  }

  /** What is read depends on the schema's own range only. */
  lemma {:induction false} ReadIsLocal(v: Value, selects: Condition, size: nat, xs: seq<Value>, ys: seq<Value>)
    requires var (s, end) := MakeSchema(v, selects, size); Below(s, |xs|) && Agree(xs, ys, size, end)
    ensures var s := MakeSchema(v, selects, size).0; Unflatten(s, xs) == Unflatten(s, ys)
    decreases v, 2, 0
  {
    if !selects(v) {
      match v
      case Items(_, items) => ReadAllIsLocal(items, selects, size, xs, ys);
      case Dict(fields) =>
        var schemas := MakeFieldSchemas(v, Sorted(fields.Keys), selects, size).0;
        assert schemas.Keys == fields.Keys;
        ReadFieldsIsLocal(v, Sorted(fields.Keys), selects, size, SDict(schemas), xs, ys);
      case _ =>
    }
  }

  lemma {:induction false} ReadAllIsLocal(items: seq<Value>, selects: Condition, size: nat, xs: seq<Value>, ys: seq<Value>)
    requires var (ss, end) := MakeSchemas(items, selects, size); BelowAll(ss, |xs|) && Agree(xs, ys, size, end)
    ensures var ss := MakeSchemas(items, selects, size).0; UnflattenAll(ss, xs) == UnflattenAll(ss, ys)
    decreases items, 0, 0
  {
    if items == [] {
    } else {
      var (first, next) := MakeSchema(items[0], selects, size);
      var rest := MakeSchemas(items[1..], selects, next).0;
      assert ([first] + rest)[1..] == rest;
      ReadIsLocal(items[0], selects, size, xs, ys);
      ReadAllIsLocal(items[1..], selects, next, xs, ys);
    }
  }

  lemma {:induction false} ReadFieldsIsLocal(v: Value, keys: seq<string>, selects: Condition, size: nat, s: Schema,
                                             xs: seq<Value>, ys: seq<Value>)
    requires v.Dict? && DistinctKeys(keys) && forall k :: k in keys ==> k in v.fields
    requires Includes(s, MakeFieldSchemas(v, keys, selects, size).0)
    requires (forall k :: k in keys ==> k in s.fields) && BelowFields(s, keys, |xs|)
    requires Agree(xs, ys, size, MakeFieldSchemas(v, keys, selects, size).1)
    ensures UnflattenFields(s, keys, xs) == UnflattenFields(s, keys, ys)
    decreases v, 1, |keys|
  {
    if keys == [] {
    } else {
      FieldSchemasSplit(v, keys, selects, size, s);
      var (first, next) := MakeSchema(v.fields[keys[0]], selects, size);
      ReadIsLocal(v.fields[keys[0]], selects, size, xs, ys);
      ReadFieldsIsLocal(v, keys[1..], selects, next, s, xs, ys);
    }
  }

  // ---------- round trips ----------

  /** A value with every leaf that is not selected replaced by `None`. */
  function Prune(v: Value, selects: Condition): Value
    decreases v, 2, 0
  {
    if selects(v) then v
    else match v
      case Items(kind, items) => Items(kind, PruneAll(items, selects))
      case Dict(fields) => Dict(PruneFields(v, Sorted(fields.Keys), selects))
      case _ => Nothing
  }

  function PruneAll(items: seq<Value>, selects: Condition): (r: seq<Value>)
    ensures |r| == |items| && forall i :: 0 <= i < |r| ==> r[i] == Prune(items[i], selects)
    decreases items, 0, 0
  {
    if items == [] then [] else [Prune(items[0], selects)] + PruneAll(items[1..], selects)
  }

  function PruneFields(v: Value, keys: seq<string>, selects: Condition): (m: map<string, Value>)
    requires v.Dict? && forall k :: k in keys ==> k in v.fields
    ensures forall k :: k in m <==> k in keys
    ensures forall k :: k in m ==> m[k] == Prune(v.fields[k], selects)
    decreases v, 1, |keys|
  {
    if keys == [] then map[] else
      assert keys[0] in keys;
      assert forall k :: k in keys[1..] ==> k in keys;
      assert keys == [keys[0]] + keys[1..];
      PruneFields(v, keys[1..], selects)[keys[0] := Prune(v.fields[keys[0]], selects)]
  }

  lemma {:induction false} WriteThenRead(v: Value, selects: Condition, size: nat, r: seq<Value>)
    requires MakeSchema(v, selects, size).1 <= |r|
    ensures var s := MakeSchema(v, selects, size).0;
      Fits(s, v, |r|) && Below(s, |r|) && Unflatten(s, Write(s, v, r)) == Prune(v, selects)
    decreases v, 2, 0
  {
    SchemaFits(v, selects, size, |r|);
    if !selects(v) {
      match v
      case Items(_, items) => WriteAllThenRead(items, selects, size, r);
      case Dict(fields) =>
        var schemas := MakeFieldSchemas(v, Sorted(fields.Keys), selects, size).0;
        assert schemas.Keys == fields.Keys;
        WriteFieldsThenRead(v, Sorted(fields.Keys), selects, size, SDict(schemas), r);
      case _ =>
    }
  }

  lemma {:induction false} WriteAllThenRead(items: seq<Value>, selects: Condition, size: nat, r: seq<Value>)
    requires MakeSchemas(items, selects, size).1 <= |r|
    ensures var ss := MakeSchemas(items, selects, size).0;
      FitsAll(ss, items, |r|) && BelowAll(ss, |r|) && UnflattenAll(ss, WriteAll(ss, items, r)) == PruneAll(items, selects)
    decreases items, 0, 0
  {
    ItemSchemasFit(items, selects, size, |r|);
    if items == [] {
    } else {
      var (first, next) := MakeSchema(items[0], selects, size);
      var rest := MakeSchemas(items[1..], selects, next).0;
      assert ([first] + rest)[1..] == rest;
      var mid := Write(first, items[0], r);
      WriteThenRead(items[0], selects, size, r);
      WriteAllThenRead(items[1..], selects, next, mid);
      WriteAllIsLocal(items[1..], selects, next, items[1..], mid);
      ReadIsLocal(items[0], selects, size, WriteAll(rest, items[1..], mid), mid);
    }
  }

  lemma {:induction false} WriteFieldsThenRead(v: Value, keys: seq<string>, selects: Condition, size: nat, s: Schema,
                                               r: seq<Value>)
    requires v.Dict? && DistinctKeys(keys) && forall k :: k in keys ==> k in v.fields
    requires Includes(s, MakeFieldSchemas(v, keys, selects, size).0)
    requires MakeFieldSchemas(v, keys, selects, size).1 <= |r|
    ensures (forall k :: k in keys ==> k in s.fields) && FitsFields(s, keys, v, |r|) && BelowFields(s, keys, |r|)
    ensures UnflattenFields(s, keys, WriteFields(s, keys, v, r)) == PruneFields(v, keys, selects)
    decreases v, 1, |keys|
  {
    FieldSchemasFit(v, keys, selects, size, s, |r|);
    if keys == [] {
    } else {
      FieldSchemasSplit(v, keys, selects, size, s);
      var (first, next) := MakeSchema(v.fields[keys[0]], selects, size);
      var mid := Write(first, v.fields[keys[0]], r);
      WriteThenRead(v.fields[keys[0]], selects, size, r);
      WriteFieldsThenRead(v, keys[1..], selects, next, s, mid);
      WriteFieldsIsLocal(v, keys[1..], selects, next, s, v, mid);
      ReadIsLocal(v.fields[keys[0]], selects, size, WriteFields(s, keys[1..], v, mid), mid);
    }
  }

  /** Flattening a value and unflattening the list gives the value without its unselected leaves. */
  lemma UnflattenInvertsFlatten(v: Value, selects: Condition)
    ensures var (s, size) := MakeSchema(v, selects, 0);
      Fits(s, v, size) && Below(s, size) && Unflatten(s, Flatten(s, size, v)) == Prune(v, selects)
  {
    var (s, size) := MakeSchema(v, selects, 0);
    WriteThenRead(v, selects, 0, Blank(size));
  }

  /** Every leaf of the value is selected, alone or inside a selected container. */
  ghost predicate Covered(v: Value, selects: Condition)
    decreases v
  {
    selects(v) || match v
      case Items(_, items) => forall i :: 0 <= i < |items| ==> Covered(items[i], selects)
      case Dict(fields) => forall k :: k in fields ==> Covered(fields[k], selects)
      case Leaf(_) => false
      case Nothing => true
  }

  lemma {:induction false} PruneKeepsIff(v: Value, selects: Condition)
    ensures Prune(v, selects) == v <==> Covered(v, selects)
    decreases v
  {
    if !selects(v) {
      match v
      case Items(_, items) =>
        forall i | 0 <= i < |items| ensures Prune(items[i], selects) == items[i] <==> Covered(items[i], selects) {
          PruneKeepsIff(items[i], selects);
        }
        assert PruneAll(items, selects) == items <==> forall i :: 0 <= i < |items| ==> Prune(items[i], selects) == items[i];
      case Dict(fields) =>
        forall k | k in fields ensures Prune(fields[k], selects) == fields[k] <==> Covered(fields[k], selects) {
          PruneKeepsIff(fields[k], selects);
        }
        var pruned := PruneFields(v, Sorted(fields.Keys), selects);
        assert pruned.Keys == fields.Keys;
        assert pruned == fields <==> forall k :: k in fields ==> pruned[k] == fields[k];
      case _ =>
    }
  }

  /** Flattening and unflattening gives the very same value exactly when all its leaves are selected. */
  lemma RoundTripIff(v: Value, selects: Condition)
    ensures var (s, size) := MakeSchema(v, selects, 0);
      Fits(s, v, size) && Below(s, size) && (Unflatten(s, Flatten(s, size, v)) == v <==> Covered(v, selects))
  {
    UnflattenInvertsFlatten(v, selects);
    PruneKeepsIff(v, selects);
  }

  lemma {:induction false} ReadThenWrite(v: Value, selects: Condition, size: nat, xs: seq<Value>, r: seq<Value>)
    requires MakeSchema(v, selects, size).1 <= |xs| == |r|
    ensures var (s, end) := MakeSchema(v, selects, size);
      && Below(s, |xs|) && Fits(s, Unflatten(s, xs), |r|)
      && Agree(Write(s, Unflatten(s, xs), r), xs, size, end)
    decreases v, 2, 0
  {
    SchemaFits(v, selects, size, |xs|);
    if !selects(v) {
      match v
      case Items(_, items) => ReadAllThenWrite(items, selects, size, xs, r);
      case Dict(fields) =>
        var schemas := MakeFieldSchemas(v, Sorted(fields.Keys), selects, size).0;
        assert schemas.Keys == fields.Keys;
        FieldSchemasFit(v, Sorted(fields.Keys), selects, size, SDict(schemas), |xs|);
        var u := Dict(UnflattenFields(SDict(schemas), Sorted(schemas.Keys), xs));
        ReadFieldsThenWrite(v, Sorted(fields.Keys), selects, size, SDict(schemas), u, xs, r);
      case _ =>
    }
  }

  lemma {:induction false} ReadAllThenWrite(items: seq<Value>, selects: Condition, size: nat, xs: seq<Value>, r: seq<Value>)
    requires MakeSchemas(items, selects, size).1 <= |xs| == |r|
    ensures var (ss, end) := MakeSchemas(items, selects, size);
      && BelowAll(ss, |xs|) && FitsAll(ss, UnflattenAll(ss, xs), |r|)
      && Agree(WriteAll(ss, UnflattenAll(ss, xs), r), xs, size, end)
    decreases items, 0, 0
  {
    ItemSchemasFit(items, selects, size, |xs|);
    if items == [] {
    } else {
      var (first, next) := MakeSchema(items[0], selects, size);
      var rest := MakeSchemas(items[1..], selects, next).0;
      assert ([first] + rest)[1..] == rest;
      var u, us := Unflatten(first, xs), UnflattenAll(rest, xs);
      assert ([u] + us)[1..] == us;
      ReadThenWrite(items[0], selects, size, xs, r);
      var mid := Write(first, u, r);
      ReadAllThenWrite(items[1..], selects, next, xs, mid);
      WriteAllIsLocal(items[1..], selects, next, us, mid);
    }
  }

  /** `u` has the fields read from the list. */
  ghost predicate HasRead(u: Value, s: Schema, keys: seq<string>, xs: seq<Value>)
    requires s.SDict? && (forall k :: k in keys ==> k in s.fields) && BelowFields(s, keys, |xs|)
  {
    u.Dict? && forall k :: k in keys ==> k in u.fields && u.fields[k] == UnflattenFields(s, keys, xs)[k]
  }

  lemma {:induction false} ReadFieldsThenWrite(v: Value, keys: seq<string>, selects: Condition, size: nat, s: Schema,
                                               u: Value, xs: seq<Value>, r: seq<Value>)
    requires v.Dict? && DistinctKeys(keys) && forall k :: k in keys ==> k in v.fields
    requires Includes(s, MakeFieldSchemas(v, keys, selects, size).0)
    requires MakeFieldSchemas(v, keys, selects, size).1 <= |xs| == |r|
    requires (forall k :: k in keys ==> k in s.fields) && BelowFields(s, keys, |xs|) && HasRead(u, s, keys, xs)
    ensures FitsFields(s, keys, u, |r|)
    ensures Agree(WriteFields(s, keys, u, r), xs, size, MakeFieldSchemas(v, keys, selects, size).1)
    decreases v, 1, |keys|
  {
    if keys == [] {
    } else {
      FieldSchemasSplit(v, keys, selects, size, s);
      assert keys[0] !in keys[1..];
      assert forall k :: k in keys[1..] ==> k in keys;
      var (first, next) := MakeSchema(v.fields[keys[0]], selects, size);
      ReadThenWrite(v.fields[keys[0]], selects, size, xs, r);
      var mid := Write(first, u.fields[keys[0]], r);
      ReadFieldsThenWrite(v, keys[1..], selects, next, s, u, xs, mid);
      WriteFieldsIsLocal(v, keys[1..], selects, next, s, u, mid);
    }
  }

  /** Unflattening a list of the right length and flattening the value gives the list back. */
  lemma FlattenInvertsUnflatten(v: Value, selects: Condition, xs: seq<Value>)
    requires |xs| == MakeSchema(v, selects, 0).1
    ensures var (s, size) := MakeSchema(v, selects, 0);
      Below(s, size) && Fits(s, Unflatten(s, xs), size) && Flatten(s, size, Unflatten(s, xs)) == xs
  {
    var (s, size) := MakeSchema(v, selects, 0);
    ReadThenWrite(v, selects, 0, xs, Blank(size));
  }
}
