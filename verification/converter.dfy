/** `convertTsTranslationsToCsv` without its I/O: check that the loaded translations are an
    object, flatten them and assemble the CSV text that would be written. */
module Converter {
  import opened Text
  import opened Translations
  import opened KeyPaths
  import opened Csv

  /** The error thrown when the loaded module is not an object. */
  datatype LoadError = NotAnObject

  /** What one conversion ends in: the CSV text to write, or the reported error. */
  datatype Outcome = Written(content: string) | Failed(error: LoadError)

  /** `typeof v === "object" && v !== null`: plain objects and arrays pass. */
  predicate IsObject(v: Value)
  {
    v.Obj? || v.Arr?
  }

  predicate IsDigit(c: char)
  {
    '0' <= c <= '9'
  }

  predicate IsDecimal(s: string)
  {
    |s| >= 1 && forall i :: 0 <= i < |s| ==> IsDigit(s[i])
  }

  function DigitChar(d: nat): (c: char)
    requires d < 10
    ensures IsDigit(c) && c as int - '0' as int == d
  {
    ('0' as int + d) as char
  }

  /** Reference reading of a decimal digit string, most significant digit first. */
  function DecimalValue(s: string): nat
    requires forall i :: 0 <= i < |s| ==> IsDigit(s[i])
  {
    if |s| == 0 then 0
    else
      assert IsDigit(s[|s| - 1]);
      DecimalValue(s[..|s| - 1]) * 10 + (s[|s| - 1] as int - '0' as int)
  }

  /** The decimal form of an array index, which is the key `for...in` gives it: digits with
      no leading zero that read back as the index. */
  function IndexKey(n: nat): (key: string)
    ensures IsDecimal(key)
    ensures DecimalValue(key) == n
    ensures key[0] == '0' ==> key == "0"
    decreases n
  {
    if n < 10 then [DigitChar(n)]
    else
      var prefix := IndexKey(n / 10);
      assert prefix != "0" by {
        assert DecimalValue("0") == 0;
      }
      var key := prefix + [DigitChar(n % 10)];
      assert key[..|key| - 1] == prefix && key[0] == prefix[0];
      key
  }

  /** The properties `for...in` visits on the root: an object's own properties, or an
      array's indices `"0"`, `"1"`, ... with its elements. On an array the i-th property is
      the i-th element under a decimal key that reads as i, so no two keys coincide. */
  function RootFields(root: Value): (fields: seq<(string, Value)>)
    ensures root.Obj? ==> fields == root.fields
    ensures !root.Obj? && !root.Arr? ==> fields == []
    ensures root.Arr? ==> |fields| == |root.items|
    ensures root.Arr? ==> forall i :: 0 <= i < |fields| ==>
      fields[i].1 == root.items[i] && IsDecimal(fields[i].0) && DecimalValue(fields[i].0) == i
    ensures root.Arr? ==> forall i, j :: 0 <= i < j < |fields| ==> fields[i].0 != fields[j].0
  {
    match root
    case Obj(fields) => fields
    case Arr(items) =>
      var fields := seq(|items|, i requires 0 <= i < |items| => (IndexKey(i), items[i]));
      assert forall i :: 0 <= i < |fields| ==> DecimalValue(fields[i].0) == i;
      fields
    case _ => []
  }

  /** The conversion: a non-object fails; otherwise the translations are flattened from the
      root and the result is the header, alone when there is no record, or followed by the
      rows joined with newlines. */
  method ConvertTranslations(translationObject: Value) returns (outcome: Outcome)
    ensures outcome.Failed? <==> !IsObject(translationObject)
    ensures outcome.Written? ==> outcome.content == CsvContent(Flatten(RootFields(translationObject), ""))
  {
    if !IsObject(translationObject) {
      return Failed(NotAnObject);
    }
    var flattenedData := FlattenRoot(Obj(RootFields(translationObject)));
    if |flattenedData.items| == 0 {
      return Written(Header);
    }
    var csvRows := Rows(flattenedData.items);
    outcome := Written(Header + Join(csvRows, '\n'));
  }

  // ---------------------------------------------------------------------------
  // End to end

  /** Trees whose text survives the CSV format: no key holds a comma, a double quote or a
      line break and no string value holds a line break. */
  predicate CsvSafeFields(fields: seq<(string, Value)>)
    decreases Size(Obj(fields)), 0
  {
    |fields| == 0 ||
    (SizeSplit(fields);
     && SafeKey(fields[0].0)
     && CsvSafeValue(fields[0].1)
     && CsvSafeFields(fields[1..]))
  }

  predicate CsvSafeValue(value: Value)
    decreases Size(value), 1
  {
    match value
    case Str(s) => '\n' !in s
    case Obj(children) => CsvSafeFields(children)
    case _ => true
  }

  predicate SafeKey(key: string)
  {
    ',' !in key && '"' !in key && '\n' !in key
  }

  predicate SafeLeaf(leaf: Leaf)
  {
    '\n' !in leaf.value && forall j :: 0 <= j < |leaf.keys| ==> SafeKey(leaf.keys[j])
  }

  lemma {:induction false} SafeLeaves(fields: seq<(string, Value)>)
    requires CsvSafeFields(fields)
    ensures forall i :: 0 <= i < |KeyedLeaves(fields)| ==> SafeLeaf(KeyedLeaves(fields)[i])
    decreases Size(Obj(fields)), 0
  {
    if |fields| > 0 {
      SizeSplit(fields);
      SafeEntryLeaves(fields[0].0, fields[0].1);
      SafeLeaves(fields[1..]);
      assert KeyedLeaves(fields) == EntryLeaves(fields[0].0, fields[0].1) + KeyedLeaves(fields[1..]);
    }
  }

  lemma {:induction false} SafeEntryLeaves(key: string, value: Value)
    requires SafeKey(key) && CsvSafeValue(value)
    ensures forall i :: 0 <= i < |EntryLeaves(key, value)| ==> SafeLeaf(EntryLeaves(key, value)[i])
    decreases Size(value), 1
  {
    match value
    case Obj(children) =>
      SafeLeaves(children);
      var inner := KeyedLeaves(children);
      forall i | 0 <= i < |inner| ensures SafeLeaf(Leaf([key] + inner[i].keys, inner[i].value)) {
        var ks := [key] + inner[i].keys;
        forall j | 0 <= j < |ks| ensures SafeKey(ks[j]) {
          if j > 0 { assert ks[j] == inner[i].keys[j - 1]; }
        }
      }
    case Str(_) =>
    case _ =>
  }

  lemma {:induction false} JoinAvoids(parts: seq<string>, sep: char, c: char)
    requires c != sep
    requires forall j :: 0 <= j < |parts| ==> c !in parts[j]
    ensures c !in Join(parts, sep)
    decreases |parts|
  {
    if |parts| > 1 {
      JoinAvoids(parts[1..], sep, c);
    }
  }

  /** The whole pipeline read backwards: for a clean tree whose keys hold no comma, double
      quote or line break and whose strings hold no line break, reading the written CSV back, cutting the
      paths at their dots and re-nesting gives the original tree. */
  lemma CsvRoundTripTree(fields: seq<(string, Value)>)
    requires CleanFields(fields) && CsvSafeFields(fields)
    ensures ParseCsv(CsvContent(Flatten(fields, ""))) == Some(Flatten(fields, ""))
    ensures AllKeyed(SplitPaths(Flatten(fields, "")))
    ensures Unflatten(SplitPaths(Flatten(fields, ""))) == fields
  {
    var records := Flatten(fields, "");
    var leaves := KeyedLeaves(fields);
    FlattenByKeys(fields, "");
    CleanLeaves(fields);
    SafeLeaves(fields);
    forall i | 0 <= i < |records|
      ensures ',' !in records[i].path && '"' !in records[i].path && '\n' !in records[i].path
      ensures '\n' !in records[i].value
    {
      PathFromRoot(leaves[i].keys);
      JoinAvoids(leaves[i].keys, '.', ',');
      JoinAvoids(leaves[i].keys, '.', '"');
      JoinAvoids(leaves[i].keys, '.', '\n');
    }
    CsvRoundTrip(records);
    FlattenRoundTrip(fields);
  }

  lemma {:induction false} CsvSafeFieldsIntro(fields: seq<(string, Value)>)
    requires forall i :: 0 <= i < |fields| ==> SafeKey(fields[i].0) && CsvSafeValue(fields[i].1)
    ensures CsvSafeFields(fields)
    decreases |fields|
  {
    if |fields| > 0 {
      assert forall i :: 0 <= i < |fields[1..]| ==> fields[1..][i] == fields[i + 1];
      CsvSafeFieldsIntro(fields[1..]);
    }
  }

  /** A root array is enumerated by index, and the round trip covers it too: when every
      element is a clean, CSV-safe string or object, the written file reads back as the
      records, and re-nesting them gives the index-keyed properties, in index order. */
  lemma RootArrayRoundTrip(items: seq<Value>)
    requires forall i :: 0 <= i < |items| ==> CleanValue(items[i]) && CsvSafeValue(items[i])
    ensures ParseCsv(CsvContent(Flatten(RootFields(Arr(items)), ""))) == Some(Flatten(RootFields(Arr(items)), ""))
    ensures AllKeyed(SplitPaths(Flatten(RootFields(Arr(items)), "")))
    ensures Unflatten(SplitPaths(Flatten(RootFields(Arr(items)), ""))) == RootFields(Arr(items))
  {
    var fields := RootFields(Arr(items));
    forall i | 0 <= i < |fields|
      ensures fields[i].0 != "" && '.' !in fields[i].0 && SafeKey(fields[i].0)
    {
      var key := fields[i].0;
      assert IsDecimal(key);
      assert forall c :: c in key ==> IsDigit(c);
    }
    CleanFieldsIntro(fields);
    CsvSafeFieldsIntro(fields);
    CsvRoundTripTree(fields);
  }

  // ---------------------------------------------------------------------------
  // Worked examples

  /** Nested keys are dot-joined and leaves come out in depth-first key order. */
  lemma NestedExample()
    ensures Flatten([("a", Obj([("b", Str("x"))])), ("c", Str("y"))], "")
         == [Record("a.b", "x"), Record("c", "y")]
  {
    FlattenCons("b", Str("x"), [], "a");
    assert JoinPath("a", "b") == "a.b";
    assert Flatten([("b", Str("x"))], "a") == [Record("a.b", "x")];
    FlattenCons("c", Str("y"), [], "");
    assert Flatten([("c", Str("y"))], "") == [Record("c", "y")];
    FlattenCons("a", Obj([("b", Str("x"))]), [("c", Str("y"))], "");
  }

  /** A value with double quotes is written between double quotes, its own quotes doubled. */
  lemma QuoteValueExample()
    ensures FormatValue("a\"b") == "\"a\"\"b\""
  {
    assert "a\"b"[1] == '"';
    assert DoubleQuotes("b") == "b";
    assert DoubleQuotes("\"b") == "\"\"b";
    assert DoubleQuotes("a\"b") == "a\"\"b";
  }

  lemma CommaValueExample()
    ensures FormatValue("a, b") == "\"a, b\""
  {
    assert "a, b"[1] == ',';
    CommaValueIsWrapped("a, b");
  }

  /** Numbers, booleans, null and arrays leave only the header. */
  lemma OnlyNonStringsExample()
    ensures CsvContent(Flatten([("n", Other), ("list", Arr([Str("a")])), ("o", Obj([("b", Other)]))], ""))
         == "Path,Value\n"
  {
    FlattenCons("b", Other, [], "o");
    FlattenCons("o", Obj([("b", Other)]), [], "");
    FlattenCons("list", Arr([Str("a")]), [("o", Obj([("b", Other)]))], "");
    FlattenCons("n", Other, [("list", Arr([Str("a")])), ("o", Obj([("b", Other)]))], "");
  }

  /** A root array is enumerated by index; its nested arrays are still skipped. */
  lemma RootArrayExample()
    ensures Flatten(RootFields(Arr([Str("a"), Arr([Str("b")]), Obj([("k", Str("c"))])])), "")
         == [Record("0", "a"), Record("2.k", "c")]
  {
    assert RootFields(Arr([Str("a"), Arr([Str("b")]), Obj([("k", Str("c"))])]))
        == [("0", Str("a")), ("1", Arr([Str("b")])), ("2", Obj([("k", Str("c"))]))];
    FlattenCons("k", Str("c"), [], "2");
    assert JoinPath("2", "k") == "2.k";
    assert Flatten([("k", Str("c"))], "2") == [Record("2.k", "c")];
    FlattenCons("2", Obj([("k", Str("c"))]), [], "");
    assert Flatten([("2", Obj([("k", Str("c"))]))], "") == [Record("2.k", "c")];
    FlattenCons("1", Arr([Str("b")]), [("2", Obj([("k", Str("c"))]))], "");
    FlattenCons("0", Str("a"), [("1", Arr([Str("b")])), ("2", Obj([("k", Str("c"))]))], "");
  }

  /** A comma in a key is written unquoted, so the row reads back split at the wrong comma. */
  lemma CommaInKeyIsMisread()
    ensures Row(Record("a,b", "x")) == "a,b,x"
    ensures ParseRow(Row(Record("a,b", "x"))) == Some(Record("a", "b,x"))
  {
    assert !NeedsQuoting("x");
    assert Row(Record("a,b", "x")) == "a,b" + "," + "x" == "a,b,x";
    assert Join(["a", "b", "x"], ',') == "a,b,x";
    SplitJoin(["a", "b", "x"], ',');
    assert ["a", "b", "x"][1..] == ["b", "x"];
    assert Join(["b", "x"], ',') == "b,x";
    assert Unquote("a") == "a";
    assert Unquote("b,x") == "b,x";
  }

  /** A key that starts and ends with a double quote is written unquoted, and an RFC 4180
      reader takes those quotes as the field's own: the path reads back without them. */
  lemma QuoteInKeyIsMisread()
    ensures Row(Record("\"a\"", "x")) == "\"a\",x"
    ensures ParseRow(Row(Record("\"a\"", "x"))) == Some(Record("a", "x"))
  {
    assert !NeedsQuoting("x");
    assert Row(Record("\"a\"", "x")) == "\"a\"" + "," + "x" == "\"a\",x";
    assert Join(["\"a\"", "x"], ',') == "\"a\",x";
    SplitJoin(["\"a\"", "x"], ',');
    assert ["\"a\"", "x"][1..] == ["x"];
    assert "\"a\""[1..2] == "a";
    assert Unquote("\"a\"") == CollapseQuotes("a") == "a";
    assert Unquote("x") == "x";
  }

  /** A line break in a value with no comma or double quote is written as it is, so one
      record spans two lines, and the second does not read as a row. */
  lemma LineBreakInValueIsMisread()
    ensures CsvContent([Record("k", "x\ny")]) == Header + "k,x\ny"
    ensures Split("k,x\ny", '\n') == ["k,x", "y"]
    ensures ParseRow("y") == None
  {
    assert !NeedsQuoting("x\ny");
    assert Row(Record("k", "x\ny")) == "k,x\ny";
    assert Rows([Record("k", "x\ny")]) == ["k,x\ny"];
    assert Join(["k,x", "y"], '\n') == "k,x\ny";
    SplitJoin(["k,x", "y"], '\n');
    SplitJoin(["y"], ',');
  }
}
