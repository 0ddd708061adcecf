/** How the dotted paths of the flattened records arise from chains of property keys, and
    the inverse of flattening: re-nesting records by splitting their paths at the dots. */
module KeyPaths {
  import opened Text
  import opened Translations

  /** A string leaf of the tree with the chain of keys that leads to it from the root. */
  datatype Leaf = Leaf(keys: seq<string>, value: string)

  /** The string leaves of an object, depth-first in property order, with their key chains. */
  function KeyedLeaves(fields: seq<(string, Value)>): seq<Leaf>
    decreases Size(Obj(fields)), 0
  {
    if |fields| == 0 then []
    else
      SizeSplit(fields);
      EntryLeaves(fields[0].0, fields[0].1) + KeyedLeaves(fields[1..])
  }

  function EntryLeaves(key: string, value: Value): seq<Leaf>
    decreases Size(value), 1
  {
    match value
    case Str(s) => [Leaf([key], s)]
    case Obj(children) => Under(key, KeyedLeaves(children))
    case _ => []
  }

  /** The same leaves, one level further down, below property `key`. */
  function Under(key: string, leaves: seq<Leaf>): seq<Leaf>
  {
    seq(|leaves|, i requires 0 <= i < |leaves| => Leaf([key] + leaves[i].keys, leaves[i].value))
  }

  /** The path `flattenObject` builds when it descends through `keys` from `parentPath`. */
  function PathFrom(parentPath: string, keys: seq<string>): string
    decreases |keys|
  {
    if |keys| == 0 then parentPath else PathFrom(JoinPath(parentPath, keys[0]), keys[1..])
  }

  function Paths(parentPath: string, leaves: seq<Leaf>): seq<Record>
  {
    seq(|leaves|, i requires 0 <= i < |leaves| => Record(PathFrom(parentPath, leaves[i].keys), leaves[i].value))
  }

  /** Each record of the flattening is a string leaf whose path is its key chain folded onto
      the parent path, one `JoinPath` per level; records come in depth-first key order. */
  lemma {:induction false} FlattenByKeys(fields: seq<(string, Value)>, parentPath: string)
    ensures Flatten(fields, parentPath) == Paths(parentPath, KeyedLeaves(fields))
    decreases Size(Obj(fields)), 0
  {
    if |fields| > 0 {
      SizeSplit(fields);
      EntryByKeys(fields[0].0, fields[0].1, parentPath);
      FlattenByKeys(fields[1..], parentPath);
      var a := EntryLeaves(fields[0].0, fields[0].1);
      var b := KeyedLeaves(fields[1..]);
      assert Paths(parentPath, a + b) == Paths(parentPath, a) + Paths(parentPath, b);
    }
  }

  lemma {:induction false} EntryByKeys(key: string, value: Value, parentPath: string)
    ensures EntryRecords(key, value, parentPath) == Paths(parentPath, EntryLeaves(key, value))
    decreases Size(value), 1
  {
    match value
    case Obj(children) =>
      var newPath := JoinPath(parentPath, key);
      FlattenByKeys(children, newPath);
      var inner := KeyedLeaves(children);
      forall i | 0 <= i < |inner|
        ensures PathFrom(parentPath, ([key] + inner[i].keys)) == PathFrom(newPath, inner[i].keys)
      {
        assert ([key] + inner[i].keys)[1..] == inner[i].keys;
      }
    case Str(s) =>
      assert [key][1..] == [];
      assert PathFrom(parentPath, [key]) == JoinPath(parentPath, key);
    case _ =>
  }

  /** Below a non-empty parent path, a key chain adds a dot and then the keys joined by dots:
      the child path is `parentPath + "." + key` at every level. */
  lemma {:induction false} PathBelowParent(parentPath: string, keys: seq<string>)
    requires parentPath != "" && |keys| >= 1
    ensures PathFrom(parentPath, keys) == parentPath + "." + Join(keys, '.')
    decreases |keys|
  {
    var next := parentPath + "." + keys[0];
    if |keys| > 1 {
      PathBelowParent(next, keys[1..]);
      assert next + "." + Join(keys[1..], '.') == parentPath + "." + (keys[0] + "." + Join(keys[1..], '.'));
    }
  }

  /** From the root, a chain whose first key is not empty gives the keys joined by dots. */
  lemma {:induction false} PathFromRoot(keys: seq<string>)
    requires |keys| >= 1 && keys[0] != ""
    ensures PathFrom("", keys) == Join(keys, '.')
  {
    if |keys| > 1 {
      PathBelowParent(keys[0], keys[1..]);
    }
  }

  /** The empty-key quirk: while the path is still empty, an empty key adds neither a segment
      nor a dot, so leading empty keys vanish from the path. Below any non-empty path an
      empty key does add a segment: a dot followed by nothing. */
  lemma EmptyKeyAtRootVanishes(p: string, keys: seq<string>)
    ensures PathFrom("", [""] + keys) == PathFrom("", keys)
    ensures p != "" ==> PathFrom(p, [""] + keys) == PathFrom(p + ".", keys)
  {
    assert ([""] + keys)[1..] == keys;
    assert p + "." + "" == p + ".";
  }

  // ---------------------------------------------------------------------------
  // The inverse: re-nesting leaves into a tree.

  /** Total length of all key chains; it bounds the re-nesting recursion. */
  function Weight(leaves: seq<Leaf>): nat
  {
    if |leaves| == 0 then 0 else |leaves[0].keys| + Weight(leaves[1..])
  }

  lemma {:induction false} WeightAppend(a: seq<Leaf>, b: seq<Leaf>)
    ensures Weight(a + b) == Weight(a) + Weight(b)
    decreases |a|
  {
    if |a| > 0 {
      assert (a + b)[1..] == a[1..] + b;
      WeightAppend(a[1..], b);
    } else {
      assert a + b == b;
    }
  }

  predicate AllKeyed(leaves: seq<Leaf>)
  {
    forall i :: 0 <= i < |leaves| ==> |leaves[i].keys| >= 1
  }

  /** The leaves with their first key dropped. */
  function Tails(leaves: seq<Leaf>): seq<Leaf>
    requires AllKeyed(leaves)
  {
    seq(|leaves|, i requires 0 <= i < |leaves| => Leaf(leaves[i].keys[1..], leaves[i].value))
  }

  lemma {:induction false} WeightTails(leaves: seq<Leaf>)
    requires AllKeyed(leaves)
    ensures Weight(Tails(leaves)) + |leaves| == Weight(leaves)
    decreases |leaves|
  {
    if |leaves| > 0 {
      assert Tails(leaves)[1..] == Tails(leaves[1..]);
      WeightTails(leaves[1..]);
    }
  }

  /** How many leading leaves lie strictly below key `key` (two or more keys, `key` first). */
  function Run(leaves: seq<Leaf>, key: string): (n: nat)
    ensures n <= |leaves|
    ensures forall i :: 0 <= i < n ==> |leaves[i].keys| >= 2 && leaves[i].keys[0] == key
    ensures n < |leaves| ==> |leaves[n].keys| < 2 || leaves[n].keys[0] != key
  {
    if |leaves| == 0 || |leaves[0].keys| < 2 || leaves[0].keys[0] != key then 0
    else 1 + Run(leaves[1..], key)
  }

  /** Re-nest leaves into an object: a one-key leaf is a string property; a maximal run of
      leaves below the same first key becomes one nested object built from their tails. */
  function Unflatten(leaves: seq<Leaf>): seq<(string, Value)>
    requires AllKeyed(leaves)
    decreases Weight(leaves)
  {
    if |leaves| == 0 then []
    else
      var key := leaves[0].keys[0];
      if |leaves[0].keys| == 1 then
        [(key, Str(leaves[0].value))] + Unflatten(leaves[1..])
      else
        var n := Run(leaves, key);
        RunShrinks(leaves, n);
        [(key, Obj(Unflatten(Tails(leaves[..n]))))] + Unflatten(leaves[n..])
  }

  /** Both halves of a split after a non-empty run of nested leaves weigh less than the
      whole, once the run has lost its first keys. */
  lemma RunShrinks(leaves: seq<Leaf>, n: nat)
    requires AllKeyed(leaves) && 1 <= n <= |leaves|
    requires forall i :: 0 <= i < n ==> |leaves[i].keys| >= 2
    ensures AllKeyed(leaves[..n]) && AllKeyed(leaves[n..])
    ensures Weight(Tails(leaves[..n])) < Weight(leaves)
    ensures Weight(leaves[n..]) < Weight(leaves)
  {
    assert leaves == leaves[..n] + leaves[n..];
    WeightAppend(leaves[..n], leaves[n..]);
    WeightTails(leaves[..n]);
    assert leaves[..n][0] == leaves[0];
  }

  /** The trees that flattening does not lose information about: every key non-empty and
      free of dots, sibling keys distinct, every value a string or a non-empty object of the
      same kind (numbers, booleans, null, arrays and empty objects leave no record). */
  predicate CleanFields(fields: seq<(string, Value)>)
    decreases Size(Obj(fields)), 0
  {
    |fields| == 0 ||
    (SizeSplit(fields);
     && fields[0].0 != ""
     && '.' !in fields[0].0
     && (forall j :: 1 <= j < |fields| ==> fields[j].0 != fields[0].0)
     && CleanValue(fields[0].1)
     && CleanFields(fields[1..]))
  }

  predicate CleanValue(value: Value)
    decreases Size(value), 1
  {
    match value
    case Str(_) => true
    case Obj(children) => |children| >= 1 && CleanFields(children)
    case _ => false
  }

  function Keys(fields: seq<(string, Value)>): set<string>
  {
    set i | 0 <= i < |fields| :: fields[i].0
  }

  /** A list of properties is clean when each key is non-empty and dot-free, each value is
      clean and no two keys coincide. */
  lemma {:induction false} CleanFieldsIntro(fields: seq<(string, Value)>)
    requires forall i :: 0 <= i < |fields| ==> fields[i].0 != "" && '.' !in fields[i].0 && CleanValue(fields[i].1)
    requires forall i, j :: 0 <= i < j < |fields| ==> fields[i].0 != fields[j].0
    ensures CleanFields(fields)
    decreases |fields|
  {
    if |fields| > 0 {
      assert forall i :: 0 <= i < |fields[1..]| ==> fields[1..][i] == fields[i + 1];
      CleanFieldsIntro(fields[1..]);
    }
  }

  /** Every leaf of a clean tree has a chain of clean keys, starting with a key of the
      object it comes from. */
  predicate CleanChain(keys: seq<string>)
  {
    |keys| >= 1 && forall j :: 0 <= j < |keys| ==> keys[j] != "" && '.' !in keys[j]
  }

  lemma {:induction false} CleanLeaves(fields: seq<(string, Value)>)
    requires CleanFields(fields)
    ensures forall i :: 0 <= i < |KeyedLeaves(fields)| ==>
      CleanChain(KeyedLeaves(fields)[i].keys) && KeyedLeaves(fields)[i].keys[0] in Keys(fields)
    ensures |fields| >= 1 ==> |KeyedLeaves(fields)| >= 1
    decreases Size(Obj(fields)), 0
  {
    if |fields| > 0 {
      SizeSplit(fields);
      var (key, value) := fields[0];
      CleanEntryLeaves(key, value);
      CleanLeaves(fields[1..]);
      var a := EntryLeaves(key, value);
      var b := KeyedLeaves(fields[1..]);
      assert KeyedLeaves(fields) == a + b;
      assert Keys(fields) == {key} + Keys(fields[1..]) by {
        forall k | k in Keys(fields) ensures k in {key} + Keys(fields[1..]) {
          var i :| 0 <= i < |fields| && fields[i].0 == k;
          if i > 0 { assert fields[1..][i - 1].0 == k; }
        }
        forall k | k in Keys(fields[1..]) ensures k in Keys(fields) {
          var i :| 0 <= i < |fields[1..]| && fields[1..][i].0 == k;
          assert fields[i + 1].0 == k;
        }
      }
    }
  }

  lemma {:induction false} CleanEntryLeaves(key: string, value: Value)
    requires key != "" && '.' !in key && CleanValue(value)
    ensures |EntryLeaves(key, value)| >= 1
    ensures forall i :: 0 <= i < |EntryLeaves(key, value)| ==>
      CleanChain(EntryLeaves(key, value)[i].keys) && EntryLeaves(key, value)[i].keys[0] == key
    ensures value.Obj? ==> forall i :: 0 <= i < |EntryLeaves(key, value)| ==> |EntryLeaves(key, value)[i].keys| >= 2
    decreases Size(value), 1
  {
    match value
    case Obj(children) =>
      CleanLeaves(children);
      var inner := KeyedLeaves(children);
      forall i | 0 <= i < |inner|
        ensures CleanChain([key] + inner[i].keys)
      {
        var ks := [key] + inner[i].keys;
        forall j | 0 <= j < |ks| ensures ks[j] != "" && '.' !in ks[j] {
          if j > 0 { assert ks[j] == inner[i].keys[j - 1]; }
        }
      }
    case Str(_) =>
  }

  /** Re-nesting the key-chained leaves of a clean tree gives the tree back. */
  lemma {:induction false} UnflattenKeyedLeaves(fields: seq<(string, Value)>)
    requires CleanFields(fields)
    ensures AllKeyed(KeyedLeaves(fields))
    ensures Unflatten(KeyedLeaves(fields)) == fields
    decreases Size(Obj(fields)), 0
  {
    CleanLeaves(fields);
    if |fields| > 0 {
      SizeSplit(fields);
      var (key, value) := fields[0];
      var rest := fields[1..];
      assert KeyedLeaves(fields) == EntryLeaves(key, value) + KeyedLeaves(rest);
      CleanLeaves(rest);
      UnflattenKeyedLeaves(rest);
      assert key !in Keys(rest);
      UnflattenEntry(key, value, KeyedLeaves(rest));
      assert fields == [(key, value)] + rest;
    }
  }

  /** The leaves of one clean property, followed by leaves under other first keys, re-nest
      into that property followed by the rest. */
  lemma {:induction false} UnflattenEntry(key: string, value: Value, b: seq<Leaf>)
    requires key != "" && '.' !in key && CleanValue(value) && AllKeyed(b)
    requires |b| >= 1 ==> b[0].keys[0] != key
    ensures AllKeyed(EntryLeaves(key, value) + b)
    ensures Unflatten(EntryLeaves(key, value) + b) == [(key, value)] + Unflatten(b)
    decreases Size(value), 1
  {
    CleanEntryLeaves(key, value);
    var a := EntryLeaves(key, value);
    match value
    case Str(s) =>
      UnflattenLeaf(a[0], b);
    case Obj(children) =>
      UnflattenKeyedLeaves(children);
      UnflattenNested(a, b, key);
      assert Tails(a) == KeyedLeaves(children);
  }

  lemma UnflattenLeaf(leaf: Leaf, rest: seq<Leaf>)
    requires |leaf.keys| == 1 && AllKeyed(rest)
    ensures AllKeyed([leaf] + rest)
    ensures Unflatten([leaf] + rest) == [(leaf.keys[0], Str(leaf.value))] + Unflatten(rest)
  {
    assert ([leaf] + rest)[1..] == rest;
  }

  lemma UnflattenNested(a: seq<Leaf>, b: seq<Leaf>, key: string)
    requires |a| >= 1 && AllKeyed(b)
    requires forall i :: 0 <= i < |a| ==> |a[i].keys| >= 2 && a[i].keys[0] == key
    requires |b| >= 1 ==> b[0].keys[0] != key
    ensures AllKeyed(a) && AllKeyed(a + b)
    ensures Unflatten(a + b) == [(key, Obj(Unflatten(Tails(a))))] + Unflatten(b)
  {
    var leaves := a + b;
    RunCovers(a, b, key);
    assert leaves[..|a|] == a && leaves[|a|..] == b;
  }

  lemma {:induction false} RunCovers(a: seq<Leaf>, b: seq<Leaf>, key: string)
    requires forall i :: 0 <= i < |a| ==> |a[i].keys| >= 2 && a[i].keys[0] == key
    requires |b| >= 1 ==> |b[0].keys| >= 1 && b[0].keys[0] != key
    ensures Run(a + b, key) == |a|
    decreases |a|
  {
    if |a| > 0 {
      assert (a + b)[1..] == a[1..] + b;
      RunCovers(a[1..], b, key);
    } else {
      assert a + b == b;
    }
  }

  /** Cutting each record's path at its dots. */
  function SplitPaths(records: seq<Record>): seq<Leaf>
  {
    seq(|records|, i requires 0 <= i < |records| => Leaf(Split(records[i].path, '.'), records[i].value))
  }

  /** The round-trip law: for a clean tree, flattening from the root, splitting every path at
      its dots and re-nesting gives back the original tree, keys and order included. */
  lemma FlattenRoundTrip(fields: seq<(string, Value)>)
    requires CleanFields(fields)
    ensures AllKeyed(SplitPaths(Flatten(fields, "")))
    ensures Unflatten(SplitPaths(Flatten(fields, ""))) == fields
  {
    var leaves := KeyedLeaves(fields);
    FlattenByKeys(fields, "");
    CleanLeaves(fields);
    forall i | 0 <= i < |leaves|
      ensures Split(PathFrom("", leaves[i].keys), '.') == leaves[i].keys
    {
      PathFromRoot(leaves[i].keys);
      SplitJoin(leaves[i].keys, '.');
    }
    assert SplitPaths(Flatten(fields, "")) == leaves;
    UnflattenKeyedLeaves(fields);
  }
}
