/** The translation tree and its flattening into (dotted path, string) records:
    `flattenObject` of helpers/convertsTsToCsv.js. */
module Translations {

  /** A JavaScript value as `flattenObject` tells them apart:
      - `Str`: a string primitive, which becomes a record;
      - `Obj`: a non-null, non-array object, given by its own enumerable properties in the
        order `for...in` visits them, which is recursed into;
      - `Arr`: an array, skipped when nested (only a root array is ever enumerated);
      - `Other`: a number, boolean, `null`, `undefined` or any other non-object, skipped. */
  datatype Value =
    | Str(s: string)
    | Obj(fields: seq<(string, Value)>)
    | Arr(items: seq<Value>)
    | Other

  /** One `{ path, value }` element of the accumulator array. */
  datatype Record = Record(path: string, value: string)

  /** A measure that strictly shrinks from an object to each of its property values. */
  function Size(v: Value): nat
    decreases v
  {
    match v
    case Obj(fs) => 1 + Sum(seq(|fs|, i requires 0 <= i < |fs| => Size(fs[i].1)))
    case _ => 1
  }

  function Sum(s: seq<nat>): nat
  {
    if |s| == 0 then 0 else s[0] + Sum(s[1..])
  }

  lemma SizeSplit(fields: seq<(string, Value)>)
    requires |fields| > 0
    ensures Size(Obj(fields)) == Size(fields[0].1) + Size(Obj(fields[1..]))
  {
    var s := seq(|fields|, i requires 0 <= i < |fields| => Size(fields[i].1));
    assert s[1..] == seq(|fields| - 1, i requires 0 <= i < |fields| - 1 => Size(fields[1..][i].1));
  }

  /** The path of property `key` below `parentPath`: an empty parent path is falsy in
      JavaScript, so then the key alone, with no leading dot. */
  function JoinPath(parentPath: string, key: string): (path: string)
    ensures path == key <==> parentPath == ""
    ensures parentPath != "" ==> |path| == |parentPath| + 1 + |key|
  {
    if parentPath == "" then key else parentPath + "." + key
  }

  /** The records that `flattenObject` appends for an object with these properties:
      each property's contribution, in property order, one record per string leaf. */
  function Flatten(fields: seq<(string, Value)>, parentPath: string): (records: seq<Record>)
    ensures |records| == |StringLeaves(fields)|
    decreases Size(Obj(fields)), 0
  {
    if |fields| == 0 then []
    else
      SizeSplit(fields);
      EntryRecords(fields[0].0, fields[0].1, parentPath) + Flatten(fields[1..], parentPath)
  }

  /** One iteration of the `for...in` loop: a string leaf gives one record, a nested object
      all of its own records under the extended path, anything else nothing: one record
      per string leaf of the value. */
  function EntryRecords(key: string, value: Value, parentPath: string): (records: seq<Record>)
    ensures |records| == |LeafStrings(value)|
    decreases Size(value), 1
  {
    var newPath := JoinPath(parentPath, key);
    match value
    case Str(s) => [Record(newPath, s)]
    case Obj(children) =>
      assert LeafStrings(value) == StringLeaves(children);
      Flatten(children, newPath)
    case _ => []
  }

  /** Reference definition: the string leaves of a tree, depth-first in property order,
      with no regard for paths. */
  function StringLeaves(fields: seq<(string, Value)>): seq<string>
    decreases Size(Obj(fields)), 0
  {
    if |fields| == 0 then []
    else
      SizeSplit(fields);
      LeafStrings(fields[0].1) + StringLeaves(fields[1..])
  }

  function LeafStrings(value: Value): seq<string>
    decreases Size(value), 1
  {
    match value
    case Str(s) => [s]
    case Obj(children) => StringLeaves(children)
    case _ => []
  }

  function Values(records: seq<Record>): seq<string>
  {
    seq(|records|, i requires 0 <= i < |records| => records[i].value)
  }

  lemma ValuesAppend(a: seq<Record>, b: seq<Record>)
    ensures Values(a + b) == Values(a) + Values(b)
  {
  }

  /** Depth-first in key order: the records of a concatenation of properties are the
      records of the first part followed by those of the second. */
  lemma {:induction false} FlattenAppend(a: seq<(string, Value)>, b: seq<(string, Value)>, parentPath: string)
    ensures Flatten(a + b, parentPath) == Flatten(a, parentPath) + Flatten(b, parentPath)
    decreases |a|
  {
    if |a| == 0 {
      assert a + b == b;
    } else {
      assert (a + b)[0] == a[0] && (a + b)[1..] == a[1..] + b;
      FlattenAppend(a[1..], b, parentPath);
    }
  }

  /** The first property's contribution comes first, then the rest's. */
  lemma FlattenCons(key: string, value: Value, rest: seq<(string, Value)>, parentPath: string)
    ensures Flatten([(key, value)] + rest, parentPath) == EntryRecords(key, value, parentPath) + Flatten(rest, parentPath)
  {
    assert ([(key, value)] + rest)[1..] == rest;
  }

  /** One more iteration of the loop: the records of the first `i + 1` properties are those
      of the first `i` followed by the contribution of property `i`. */
  lemma FlattenSnoc(fields: seq<(string, Value)>, i: nat, parentPath: string)
    requires i < |fields|
    ensures Flatten(fields[..i + 1], parentPath)
         == Flatten(fields[..i], parentPath) + EntryRecords(fields[i].0, fields[i].1, parentPath)
  {
    assert fields[..i + 1] == fields[..i] + [fields[i]];
    FlattenAppend(fields[..i], [fields[i]], parentPath);
    FlattenCons(fields[i].0, fields[i].1, [], parentPath);
    assert [fields[i]] + [] == [fields[i]];
  }

  /** Only string leaves produce records, at any depth: the values of the records are
      exactly the string leaves in depth-first order, whatever the parent path. */
  lemma {:induction false} FlattenValues(fields: seq<(string, Value)>, parentPath: string)
    ensures Values(Flatten(fields, parentPath)) == StringLeaves(fields)
    decreases Size(Obj(fields)), 0
  {
    if |fields| > 0 {
      SizeSplit(fields);
      EntryValues(fields[0].0, fields[0].1, parentPath);
      FlattenValues(fields[1..], parentPath);
      ValuesAppend(EntryRecords(fields[0].0, fields[0].1, parentPath), Flatten(fields[1..], parentPath));
    }
  }

  lemma {:induction false} EntryValues(key: string, value: Value, parentPath: string)
    ensures Values(EntryRecords(key, value, parentPath)) == LeafStrings(value)
    decreases Size(value), 1
  {
    match value
    case Obj(children) => FlattenValues(children, JoinPath(parentPath, key));
    case _ =>
  }

  /** Below a non-empty parent path every record lies under that path and a dot; the
      records of one property lie at or under that property's own path. */
  lemma {:induction false} RecordsUnderParent(fields: seq<(string, Value)>, parentPath: string)
    requires parentPath != ""
    ensures forall i :: 0 <= i < |Flatten(fields, parentPath)| ==> parentPath + "." <= Flatten(fields, parentPath)[i].path
    decreases Size(Obj(fields)), 0
  {
    if |fields| > 0 {
      SizeSplit(fields);
      var a: seq<Record> := EntryRecords(fields[0].0, fields[0].1, parentPath);
      var b: seq<Record> := Flatten(fields[1..], parentPath);
      var prefix: string := parentPath + ".";
      EntryUnderPath(fields[0].0, fields[0].1, parentPath);
      RecordsUnderParent(fields[1..], parentPath);
      assert Flatten(fields, parentPath) == a + b;
      forall i | 0 <= i < |a| + |b| ensures prefix <= (a + b)[i].path {
        if i < |a| {
          assert (a + b)[i] == a[i];
          assert JoinPath(parentPath, fields[0].0) <= a[i].path;
        } else {
          assert (a + b)[i] == b[i - |a|];
        }
      }
    }
  }

  lemma {:induction false} EntryUnderPath(key: string, value: Value, parentPath: string)
    ensures forall i :: 0 <= i < |EntryRecords(key, value, parentPath)| ==>
      JoinPath(parentPath, key) <= EntryRecords(key, value, parentPath)[i].path
    decreases Size(value), 1
  {
    var newPath := JoinPath(parentPath, key);
    match value
    case Obj(children) =>
      if newPath != "" {
        RecordsUnderParent(children, newPath);
        var records: seq<Record> := Flatten(children, newPath);
        forall i | 0 <= i < |records| ensures newPath <= records[i].path {
          assert newPath + "." <= records[i].path;
          assert records[i].path[..|newPath|] == (newPath + ".")[..|newPath|];
        }
      }
    case _ =>
  }

  /** Numbers, booleans, null and arrays are dropped without a trace: inserting such a
      property anywhere among the others changes nothing in the output. */
  lemma {:induction false} NonStringsContributeNothing(
    before: seq<(string, Value)>, key: string, value: Value, after: seq<(string, Value)>, parentPath: string)
    requires value.Arr? || value.Other?
    ensures Flatten(before + [(key, value)] + after, parentPath) == Flatten(before + after, parentPath)
  {
    var one := [(key, value)];
    assert Flatten(one, parentPath) == [] by {
      assert one[1..] == [];
    }
    FlattenAppend(before, one, parentPath);
    var front: seq<Record> := Flatten(before, parentPath);
    assert Flatten(before + one, parentPath) == front + [] == front;
    FlattenAppend(before + one, after, parentPath);
    FlattenAppend(before, after, parentPath);
  }

  /** The JavaScript array that `flattenObject` pushes into; it is passed down the recursion
      and shared by every level. */
  class RecordList {
    var items: seq<Record>

    constructor ()
      ensures items == []
    {
      items := [];
    }

    /** `result.push(record)` */
    method Push(record: Record)
      modifies this
      ensures items == old(items) + [record]
    {
      items := items + [record];
    }
  }

  lemma AppendAssoc(a: seq<Record>, b: seq<Record>, c: seq<Record>)
    ensures (a + b) + c == a + (b + c)
  {
  }

  /** The three branches of the loop body, one per kind of property value. */
  lemma EntryCases(key: string, value: Value, parentPath: string)
    ensures value.Obj? ==> EntryRecords(key, value, parentPath) == Flatten(value.fields, JoinPath(parentPath, key))
    ensures value.Str? ==> EntryRecords(key, value, parentPath) == [Record(JoinPath(parentPath, key), value.s)]
    ensures !value.Obj? && !value.Str? ==> EntryRecords(key, value, parentPath) == []
  {
  }

  /** `flattenObject(obj, parentPath, result)`: walks the properties of `obj` in order,
      recursing into nested objects and appending a record for every string leaf to the
      shared `result`, which it returns. Records already in `result` stay as they were. */
  method FlattenObject(obj: Value, parentPath: string, result: RecordList) returns (out: RecordList)
    requires obj.Obj?
    modifies result
    ensures out == result
    ensures result.items == old(result.items) + Flatten(obj.fields, parentPath)
    decreases obj
  {
    var fields := obj.fields;
    var i := 0;
    while i < |fields|
      invariant 0 <= i <= |fields|
      invariant result.items == old(result.items) + Flatten(fields[..i], parentPath)
    {
      var key := fields[i].0;
      var newPath := JoinPath(parentPath, key);
      var value := fields[i].1;
      ghost var before := result.items;
      EntryCases(key, value, parentPath);
      if value.Obj? {
        var _ := FlattenObject(value, newPath, result);
      } else if value.Str? {
        result.Push(Record(newPath, value.s));
      }
      assert result.items == before + EntryRecords(key, value, parentPath);
      FlattenSnoc(fields, i, parentPath);
      AppendAssoc(old(result.items), Flatten(fields[..i], parentPath), EntryRecords(key, value, parentPath));
      i := i + 1;
    }
    assert fields[..i] == fields;
    out := result;
  }

  /** `flattenObject(obj)` with its default arguments: the empty parent path and a fresh
      empty accumulator. */
  method FlattenRoot(obj: Value) returns (result: RecordList)
    requires obj.Obj?
    ensures fresh(result)
    ensures result.items == Flatten(obj.fields, "")
  {
    result := new RecordList();
    result := FlattenObject(obj, "", result);
  }
}
