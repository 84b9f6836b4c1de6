/**
  The order of a flattened list: the selected parts of a value from left to right, those of a
  dictionary by its sorted keys.
*/
module FlattenOrder {
  import opened Flattener

  /** The selected parts of a value in traversal order. */
  ghost function Leaves(v: Value, selects: Condition): seq<Value>
    decreases v, 2, 0
  {
    if selects(v) then [v]
    else match v
      case Items(_, items) => LeavesOfAll(items, selects)
      case Dict(fields) => LeavesOfFields(v, Sorted(fields.Keys), selects)
      case _ => []
  }

  ghost function LeavesOfAll(items: seq<Value>, selects: Condition): seq<Value>
    decreases items, 0, 0
  {
    if items == [] then [] else Leaves(items[0], selects) + LeavesOfAll(items[1..], selects)
  }

  ghost function LeavesOfFields(v: Value, keys: seq<string>, selects: Condition): seq<Value>
    requires v.Dict? && forall k :: k in keys ==> k in v.fields
    decreases v, 1, |keys|
  {
    if keys == [] then [] else
      assert keys[0] in keys;
      assert forall k :: k in keys[1..] ==> k in keys;
      Leaves(v.fields[keys[0]], selects) + LeavesOfFields(v, keys[1..], selects)
  }

  /** The list has `part` from `lo` up to `hi`. */
  ghost predicate HasAt(list: seq<Value>, lo: nat, hi: nat, part: seq<Value>) {
    |part| == hi - lo && hi <= |list| && forall i :: 0 <= i < |part| ==> list[lo + i] == part[i]
  }

  lemma HasConcat(list: seq<Value>, lo: nat, mid: nat, hi: nat, a: seq<Value>, b: seq<Value>)
    requires HasAt(list, lo, mid, a) && HasAt(list, mid, hi, b)
    ensures HasAt(list, lo, hi, a + b)
  {
    forall i | 0 <= i < |a + b| ensures list[lo + i] == (a + b)[i] {
      if i >= |a| { assert list[mid + (i - |a|)] == b[i - |a|]; }
    }
  }

  lemma HasStays(before: seq<Value>, after: seq<Value>, lo: nat, mid: nat, hi: nat, part: seq<Value>)
    requires HasAt(before, lo, mid, part) && AgreeOutside(after, before, mid, hi)
    ensures HasAt(after, lo, mid, part)
  {
  }

  lemma HasAll(list: seq<Value>, part: seq<Value>)
    requires HasAt(list, 0, |list|, part)
    ensures list == part
  {
    assert forall i :: 0 <= i < |part| ==> list[0 + i] == part[i];
  }

  /** Writing a value with its own schema puts its selected parts into the schema's range, in order. */
  lemma {:induction false} WritesLeaves(v: Value, selects: Condition, size: nat, r: seq<Value>)
    requires MakeSchema(v, selects, size).1 <= |r|
    ensures var (s, end) := MakeSchema(v, selects, size);
      Fits(s, v, |r|) && HasAt(Write(s, v, r), size, end, Leaves(v, selects))
    decreases v, 2, 0
  {
    SchemaFits(v, selects, size, |r|);
    if !selects(v) {
      match v
      case Items(_, items) => WritesLeavesOfAll(items, selects, size, r);
      case Dict(fields) =>
        var schemas := MakeFieldSchemas(v, Sorted(fields.Keys), selects, size).0;
        assert schemas.Keys == fields.Keys;
        WritesLeavesOfFields(v, Sorted(fields.Keys), selects, size, SDict(schemas), r);
      case _ =>
    }
  }

  lemma {:induction false} WritesLeavesOfAll(items: seq<Value>, selects: Condition, size: nat, r: seq<Value>)
    requires MakeSchemas(items, selects, size).1 <= |r|
    ensures var (ss, end) := MakeSchemas(items, selects, size);
      FitsAll(ss, items, |r|) && HasAt(WriteAll(ss, items, r), size, end, LeavesOfAll(items, selects))
    decreases items, 0, 0
  {
    ItemSchemasFit(items, selects, size, |r|);
    if items == [] {
    } else {
      var (first, next) := MakeSchema(items[0], selects, size);
      var (rest, end) := MakeSchemas(items[1..], selects, next);
      assert ([first] + rest)[1..] == rest;
      var mid := Write(first, items[0], r);
      WritesLeaves(items[0], selects, size, r);
      WritesLeavesOfAll(items[1..], selects, next, mid);
      WriteAllIsLocal(items[1..], selects, next, items[1..], mid);
      var all := WriteAll(rest, items[1..], mid);
      HasStays(mid, all, size, next, end, Leaves(items[0], selects));
      HasConcat(all, size, next, end, Leaves(items[0], selects), LeavesOfAll(items[1..], selects));
    }
  }

  lemma {:induction false} WritesLeavesOfFields(v: Value, keys: seq<string>, selects: Condition, size: nat, s: Schema,
                                                r: seq<Value>)
    requires v.Dict? && DistinctKeys(keys) && forall k :: k in keys ==> k in v.fields
    requires Includes(s, MakeFieldSchemas(v, keys, selects, size).0)
    requires MakeFieldSchemas(v, keys, selects, size).1 <= |r|
    ensures (forall k :: k in keys ==> k in s.fields) && FitsFields(s, keys, v, |r|)
    ensures HasAt(WriteFields(s, keys, v, r), size, MakeFieldSchemas(v, keys, selects, size).1,
                  LeavesOfFields(v, keys, selects))
    decreases v, 1, |keys|
  {
    FieldSchemasFit(v, keys, selects, size, s, |r|);
    if keys == [] {
    } else {
      FieldSchemasSplit(v, keys, selects, size, s);
      var (first, next) := MakeSchema(v.fields[keys[0]], selects, size);
      var end := MakeFieldSchemas(v, keys, selects, size).1;
      var mid := Write(first, v.fields[keys[0]], r);
      WritesLeaves(v.fields[keys[0]], selects, size, r);
      WritesLeavesOfFields(v, keys[1..], selects, next, s, mid);
      WriteFieldsIsLocal(v, keys[1..], selects, next, s, v, mid);
      var all := WriteFields(s, keys[1..], v, mid);
      HasStays(mid, all, size, next, end, Leaves(v.fields[keys[0]], selects));
      HasConcat(all, size, next, end, Leaves(v.fields[keys[0]], selects), LeavesOfFields(v, keys[1..], selects));
    }
  }

  /** The list that a value is flattened to with its own schema. */
  ghost function Flat(v: Value, selects: Condition): seq<Value> {
    var (s, size) := MakeSchema(v, selects, 0);
    SchemaFits(v, selects, 0, size);
    Flatten(s, size, v)
  }

  lemma FlatIsLeaves(v: Value, selects: Condition)
    ensures Flat(v, selects) == Leaves(v, selects)
  {
    var (s, size) := MakeSchema(v, selects, 0);
    WritesLeaves(v, selects, 0, Blank(size));
    HasAll(Flat(v, selects), Leaves(v, selects));
  }

  // ---------- the laws that determine the list ----------

  /** A selected value is one entry, and another one that is no container leaves none. */
  lemma FlatOfLeaf(v: Value, selects: Condition)
    requires selects(v) || v.Leaf? || v.Nothing?
    ensures Flat(v, selects) == if selects(v) then [v] else []
  {
    FlatIsLeaves(v, selects);
  }

  lemma {:induction false} LeavesConcat(a: seq<Value>, b: seq<Value>, selects: Condition)
    ensures LeavesOfAll(a + b, selects) == LeavesOfAll(a, selects) + LeavesOfAll(b, selects)
    decreases |a|
  {
    if a == [] {
      assert a + b == b;
    } else {
      assert (a + b)[1..] == a[1..] + b;
      LeavesConcat(a[1..], b, selects);
    }
  }

  /** The entries of a list or tuple are those of its items, from left to right. */
  lemma FlatOfItems(kind: Kind, a: seq<Value>, x: Value, b: seq<Value>, selects: Condition)
    requires !selects(Items(kind, a + [x] + b)) && !selects(Items(kind, a)) && !selects(Items(kind, b))
    ensures Flat(Items(kind, a + [x] + b), selects) ==
      Flat(Items(kind, a), selects) + Flat(x, selects) + Flat(Items(kind, b), selects)
    ensures !selects(Items(kind, [])) ==> Flat(Items(kind, []), selects) == []
  {
    FlatIsLeaves(Items(kind, a + [x] + b), selects);
    FlatIsLeaves(Items(kind, a), selects);
    FlatIsLeaves(x, selects);
    FlatIsLeaves(Items(kind, b), selects);
    LeavesConcat(a + [x], b, selects);
    LeavesConcat(a, [x], selects);
    LeavesOfOne(x, selects);
    FlatIsLeaves(Items(kind, []), selects);
  }

  lemma LeavesOfOne(x: Value, selects: Condition)
    ensures LeavesOfAll([x], selects) == Leaves(x, selects)
  {
    assert [x][1..] == [];
    assert Leaves(x, selects) + [] == Leaves(x, selects);
  }

  /** The values of a dictionary for the given keys. */
  ghost function ValuesOf(fields: map<string, Value>, keys: seq<string>): (r: seq<Value>)
    requires forall k :: k in keys ==> k in fields
    ensures |r| == |keys| && forall i :: 0 <= i < |r| ==> r[i] == fields[keys[i]]
  {
    seq(|keys|, i requires 0 <= i < |keys| => fields[keys[i]])
  }

  lemma {:induction false} LeavesOfValues(v: Value, keys: seq<string>, selects: Condition)
    requires v.Dict? && forall k :: k in keys ==> k in v.fields
    ensures LeavesOfFields(v, keys, selects) == LeavesOfAll(ValuesOf(v.fields, keys), selects)
    decreases |keys|
  {
    if keys == [] {
    } else {
      assert forall k :: k in keys[1..] ==> k in keys;
      LeavesOfValues(v, keys[1..], selects);
      assert ValuesOf(v.fields, keys)[1..] == ValuesOf(v.fields, keys[1..]);
    }
  }

  /** The entries of a dictionary are those of the list of its values by sorted keys. */
  lemma FlatOfDict(fields: map<string, Value>, selects: Condition)
    requires !selects(Dict(fields)) && !selects(Items(ListKind, ValuesOf(fields, Sorted(fields.Keys))))
    ensures Flat(Dict(fields), selects) == Flat(Items(ListKind, ValuesOf(fields, Sorted(fields.Keys))), selects)
  {
    FlatIsLeaves(Dict(fields), selects);
    FlatIsLeaves(Items(ListKind, ValuesOf(fields, Sorted(fields.Keys))), selects);
    LeavesOfValues(Dict(fields), Sorted(fields.Keys), selects);
  }
}
