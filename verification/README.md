# Translations to CSV, modelled in Dafny

This project models the conversion core of the ws-translations-converter repository: the
script `helpers/convertsTsToCsv.js`. The script takes a nested object of translation
strings and turns it into a two-column CSV file (`Path,Value`). It works in three steps:

1. **Flattening** (`flattenObject`). The tree is walked depth-first in property order. Every
   string leaf is pushed onto a shared accumulator array as a `{ path, value }` record. The
   path is the dot-joined chain of keys. Numbers, booleans, `null` and arrays are skipped.
2. **Escaping**. A value that contains a comma or a double quote is written between double
   quotes, with its own quotes doubled. This is a subset of the quoting rules of section 2
   (rules 6 and 7) of RFC 4180: rule 6 also asks for quotes around line breaks, which the
   script does not add. The path is never quoted.
3. **Assembly**. The output is the header `Path,Value\n` alone when there are no records.
   Otherwise it is the header followed by the rows `path,value` joined with `\n`.

Files and modules:

- `translations.dfy`, module `Translations`. The value tree (`Value`) and the records.
  `Flatten` is the pure definition of the flattening. `RecordList` is the shared
  accumulator array, a class with a `seq` field. `FlattenObject` is the recursive method with
  its `for...in` loop, proved against `Flatten`.
- `keypaths.dfy`, module `KeyPaths`. How each path arises from a chain of keys. Also the
  inverse of flattening (`Unflatten`: split the paths at the dots and re-nest), with the
  round-trip law for trees that flattening does not lose information about.
- `csv.dfy`, module `Csv`. Value formatting, rows and file contents. Also a reader for the
  same format (`Unquote`, `ParseRow`, `ParseCsv`), which the program does not have. The
  reader is the partner the writing side is proved against.
- `converter.dfy`, module `Converter`. The root-object check and the whole conversion as one
  method, an end-to-end round trip, and worked examples.
- `text.dfy`, module `Text`. `Array.prototype.join` with a one-character separator, and the
  matching split.

Two behaviours of the code shape the model:

- The check at line 60 (`typeof x !== "object" || x === null`) lets arrays through, so a
  root array is enumerated by index: its paths start with `"0"`, `"1"`, and so on
  (`Converter.RootFields`).
- Flattening loses information, so re-nesting gives the tree back under these sufficient
  conditions:
  - every leaf is a string (no number, boolean, null or array values);
  - keys are non-empty and contain no dot;
  - sibling keys are distinct;
  - no nested object is empty.

  `KeyPaths.CleanFields` states these conditions, and `KeyPaths.FlattenRoundTrip` proves the
  round trip under them.

## Model

| member | source | states |
|---|---|---|
| `Translations.JoinPath` | helpers/convertsTsToCsv.js:18 | The key alone exactly when the parent path is empty (falsy). Otherwise the parent path, a dot and the key, one character longer than both together. |
| `Translations.Flatten` | helpers/convertsTsToCsv.js:14-36 | The records of an object: each property's contribution in property order, one record per string leaf. |
| `Translations.EntryRecords` | helpers/convertsTsToCsv.js:18-31 | One loop iteration contributes one record per string leaf of the property's value. |
| `Translations.EntryCases` | helpers/convertsTsToCsv.js:21-31 | The three branches: a nested object contributes its own records under the extended path, a string one record at that path, anything else nothing. |
| `Translations.FlattenObject` | helpers/convertsTsToCsv.js:14-36 | Appends exactly the records of `Flatten(obj.fields, parentPath)` after the records already in the shared list, which stay unchanged in front. The same list is returned. |
| `Translations.FlattenRoot` | helpers/convertsTsToCsv.js:69 | Called with its default arguments (empty path, fresh empty array), the flattening gives exactly `Flatten(fields, "")`. |
| `Translations.RecordList.constructor` | helpers/convertsTsToCsv.js:14 | The default accumulator starts empty. |
| `Translations.RecordList.Push` | helpers/convertsTsToCsv.js:30 | `push` appends one record at the end and changes nothing else. |
| `Translations.FlattenAppend` | helpers/convertsTsToCsv.js:15-34 | Depth-first in key order: the records of a concatenation of properties are the records of the first part followed by those of the second. |
| `Translations.FlattenCons` | helpers/convertsTsToCsv.js:15-34 | The first property's contribution comes before the rest's. |
| `Translations.FlattenSnoc` | helpers/convertsTsToCsv.js:15-34 | One more loop iteration: the records of the first `i + 1` properties are those of the first `i` followed by the contribution of property `i`. |
| `Translations.FlattenValues` | helpers/convertsTsToCsv.js:21-31 | Only string leaves produce records, at any depth. The record values are exactly the string leaves in depth-first order, whatever the parent path. |
| `Translations.EntryValues` | helpers/convertsTsToCsv.js:21-31 | One property contributes exactly its own string leaves: one for a string, none for a number, boolean, null or array, and a nested object's leaves for an object. |
| `Translations.RecordsUnderParent` | helpers/convertsTsToCsv.js:18-27 | Below a non-empty parent path, every record's path starts with that path and a dot. |
| `Translations.EntryUnderPath` | helpers/convertsTsToCsv.js:18-30 | Every record contributed by one property has a path that starts with the property's own path. |
| `Translations.NonStringsContributeNothing` | helpers/convertsTsToCsv.js:21-31 | Adding a number, boolean, null or array property anywhere leaves the output unchanged. |
| `KeyPaths.FlattenByKeys` | helpers/convertsTsToCsv.js:18-30 | Every record is a string leaf whose path is its key chain folded onto the parent path, one `JoinPath` per level, in depth-first order. |
| `KeyPaths.EntryByKeys` | helpers/convertsTsToCsv.js:18-30 | For one property: a string gives the record at `JoinPath(parent, key)`. A nested object gives its records under that path. |
| `KeyPaths.PathBelowParent` | helpers/convertsTsToCsv.js:18 | Below a non-empty parent path, a chain of keys yields `parentPath + "." + keys joined by "."`. |
| `KeyPaths.PathFromRoot` | helpers/convertsTsToCsv.js:18 | From the empty path, a chain whose first key is non-empty yields the keys joined by dots, with no leading dot. |
| `KeyPaths.EmptyKeyAtRootVanishes` | helpers/convertsTsToCsv.js:18 | While the path is still empty, an empty key adds neither a segment nor a dot. Below any non-empty path `p`, it adds a dot and an empty segment. |
| `KeyPaths.UnflattenKeyedLeaves` | helpers/convertsTsToCsv.js:14-36 | For a clean tree, re-nesting the key-chained leaves gives back the original tree, order included. |
| `KeyPaths.UnflattenEntry` | helpers/convertsTsToCsv.js:14-36 | The leaves of one clean property, followed by leaves under other first keys, re-nest into that property followed by the re-nested rest. |
| `KeyPaths.FlattenRoundTrip` | helpers/convertsTsToCsv.js:14-36 | Round-trip law: for a clean tree, flattening from the root, splitting each path at its dots and re-nesting gives back the tree. |
| `Csv.NeedsQuoting` | helpers/convertsTsToCsv.js:88 | No contract of its own; its definition is the test on line 88. `Csv.NeedsQuotingIffMisread` states what it means. |
| `Csv.NeedsQuotingIffMisread` | helpers/convertsTsToCsv.js:88 | A value is quoted exactly when, written bare, a reader would cut it at a comma or would find a double quote in it. |
| `Csv.DoubleQuotes` | helpers/convertsTsToCsv.js:89 | The replacement never shortens the value, and it leaves the value unchanged exactly when there is no double quote in it. |
| `Csv.DoubleQuotesFacts` | helpers/convertsTsToCsv.js:89 | `replace(/"/g, '""')` yields text whose quotes are all paired. Collapsing `""` back gives the original. Only quotes are added. |
| `Csv.DoubleQuotesAppend` | helpers/convertsTsToCsv.js:89 | The global replacement works piece by piece over a concatenation. |
| `Csv.CollapseThenDouble` | helpers/convertsTsToCsv.js:89 | Converse: text whose quotes are paired is the doubling of its collapse. So doubling is a bijection onto the insides of escaped fields. |
| `Csv.FormatValue` | helpers/convertsTsToCsv.js:86-90 | The field equals the value exactly when the value holds no comma or quote. Otherwise the field is quote-wrapped, its inner quotes are paired, and it collapses back to the value. No character other than `"` is added or removed, so line breaks are never escaped. |
| `Csv.CommaValueIsWrapped` | helpers/convertsTsToCsv.js:88-89 | A value with a comma but no quote is written as `"` + value + `"`. |
| `Csv.UnquoteFormatValue` | helpers/convertsTsToCsv.js:86-90 | Removing the outer quotes and collapsing `""` recovers every value. |
| `Csv.Row` | helpers/convertsTsToCsv.js:91 | No contract of its own; its definition is the template on line 91. `Csv.RowLineBreaks`, `Csv.RowEnding` and `Csv.ParseRowOfRow` state its properties. |
| `Csv.RowLineBreaks` | helpers/convertsTsToCsv.js:91 | A row starts with the path and a comma, and holds a line break exactly when its path or its value does: quoting never adds one. |
| `Csv.RowEnding` | helpers/convertsTsToCsv.js:91 | A row ends in a line break exactly when its value does and is written unquoted. A quoted value ends the row in `"`. |
| `Csv.ParseRowOfRow` | helpers/convertsTsToCsv.js:91 | A row `path + "," + formattedValue` reads back as its record whenever the path holds no comma and no double quote. |
| `Csv.Rows` | helpers/convertsTsToCsv.js:85-92 | No contract of its own; one row per record, in order. `Csv.ParseRowsOfRows` states its property. |
| `Csv.ParseRowsOfRows` | helpers/convertsTsToCsv.js:85-92 | The mapped rows read back as the records, one per record, in order, when no path holds a comma or a double quote. |
| `Text.Join` | helpers/convertsTsToCsv.js:94 | `join("\n")`: the result holds the first part and one separator between each pair of neighbours, so it is at least that long. `Text.SplitJoin` proves `Split` is its inverse. |
| `Csv.CsvContent` | helpers/convertsTsToCsv.js:71-94 | The file always starts with the header, and it is exactly the header precisely when there are no records. |
| `Csv.EmptyBranchAgrees` | helpers/convertsTsToCsv.js:71-94 | The header-only branch for no records equals `header + rows.join("\n")`, so both branches are one formula. |
| `Csv.CsvRoundTrip` | helpers/convertsTsToCsv.js:84-94 | The file reads back as exactly the records, in flattening order, one line per record, when no path holds a comma, a double quote or a line break and no value holds a line break. |
| `Csv.TrailingNewline` | helpers/convertsTsToCsv.js:94 | The file ends in a line break exactly when (a) there are no records, or (b) the last value itself ends in one and is written unquoted. |
| `Csv.ContentEndsLikeLastRow` | helpers/convertsTsToCsv.js:94 | With at least one record, the file's last character is the last row's, so nothing is appended after the join. |
| `Converter.IsObject` | helpers/convertsTsToCsv.js:60 | No contract of its own; its definition is the negation of the test on line 60, which arrays pass. `Converter.ConvertTranslations` states its role. |
| `Converter.IndexKey` | helpers/convertsTsToCsv.js:15 | The key `for...in` gives an array index: a decimal digit string that reads back as the index and starts with `0` only when it is `"0"`. |
| `Converter.RootFields` | helpers/convertsTsToCsv.js:15 | On a root object, the properties are the object's own; on any other non-array root there are none. On a root array, the i-th property is the i-th element under a decimal key that reads as i, so there is one property per element and no two keys coincide. |
| `Converter.RootArrayRoundTrip` | helpers/convertsTsToCsv.js:15-94 | A root array of clean, CSV-safe elements goes through the whole pipeline and back: the file reads back as the records, and re-nesting them gives the index-keyed properties in index order. |
| `Converter.ConvertTranslations` | helpers/convertsTsToCsv.js:60-94 | Fails when the root is not an object (arrays pass). Otherwise it yields `CsvContent(Flatten(RootFields(root), ""))`. |
| `Converter.CsvRoundTripTree` | helpers/convertsTsToCsv.js:69-94 | End to end, for a clean tree with no comma, double quote or line break in keys and no line break in values: the written file reads back as the flattened records, and re-nesting those gives the tree. |
| `Converter.NestedExample` | helpers/convertsTsToCsv.js:14-36 | `{a: {b: "x"}, c: "y"}` flattens to `("a.b","x")`, `("c","y")` in that order. |
| `Converter.QuoteValueExample` | helpers/convertsTsToCsv.js:88-89 | `a"b` is written as `"a""b"`. |
| `Converter.CommaValueExample` | helpers/convertsTsToCsv.js:88-89 | `a, b` is written as `"a, b"`. |
| `Converter.OnlyNonStringsExample` | helpers/convertsTsToCsv.js:71-77 | A tree of numbers, arrays and objects without strings gives exactly `Path,Value\n`. |
| `Converter.RootArrayExample` | helpers/convertsTsToCsv.js:60-69 | A root array is enumerated by index, and its nested arrays are still skipped. |
| `Converter.CommaInKeyIsMisread` | helpers/convertsTsToCsv.js:91 | A key holding a comma is written unquoted, so its row reads back split at the wrong comma. |
| `Converter.QuoteInKeyIsMisread` | helpers/convertsTsToCsv.js:91 | A key wrapped in double quotes is written as it is, so a reader takes the quotes as the field's own and the path reads back without them. |
| `Converter.LineBreakInValueIsMisread` | helpers/convertsTsToCsv.js:86-94 | A value holding a line break but no comma or double quote is written unquoted, so one record spans two lines, and the second line is not a row. |

## Left out

- Module loading (`path.resolve`, `require`, the `.default || module` fallback) at helpers/convertsTsToCsv.js:50-58 depends on the Node runtime. The model starts from the loaded value and checks it as line 60 does.
- File and console I/O (`fs.writeFileSync`, `console.log/warn/error`) and the `try/catch` reporting are left out. `ConvertTranslations` returns the text that would be written, or `Failed` where the error would be logged.
- ConvertTranslations: the model fails only on a non-object root. Objects on which the source throws inside the `try` are not modelled as failures: an own property named `hasOwnProperty` (the call at line 17 then throws a `TypeError`, which line 99 catches, and nothing is written), and cyclic or very deeply nested objects (the recursion at line 27 overflows the stack). A `Value` is finite, so it cannot be cyclic, and a key named `hasOwnProperty` is flattened like any other.
- Csv.CsvRoundTrip: `ParseCsv` splits the file into lines at every line break, without regard to quotes. The round trip is therefore not claimed for a quoted value that holds a line break (one that also holds a comma or a double quote), although an RFC 4180 reader reads such a file back correctly. The "no value holds a line break" condition comes from this reader, not from the writer.
- ConvertTranslations: the error carries no message text. The source's message names the input path and the `typeof` of the loaded value.
- The demo input file and the example invocation (helpers/convertsTsToCsv.js:105-140) are scaffolding. The worked examples use short strings of the same shape instead of the demo's Portuguese strings.
- `hasOwnProperty` and the prototype chain are not modelled. An object is its own enumerable properties, in the order `for...in` visits them; JavaScript puts integer-like keys first. The model takes that order as given by the `fields` sequence.
- The `fields` sequence does not exclude duplicate keys, which a JavaScript object cannot have. Flattening is the same either way. The round-trip lemmas require distinct sibling keys.
- Non-plain objects (`Date`, `Map`, boxed strings) are `Obj` with their own enumerable properties. A boxed `String` would enumerate its characters; the model has no separate case for it.
- Holes in a root array (sparse arrays) are not modelled: every index is taken as present.
- script.js (a DOM click handler) is UI only and is not part of this model.
- server.js (an Express static-file server) is network I/O over a library outside the repository and is not part of this model.
