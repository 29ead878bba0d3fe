# xtoml binder in Dafny

A model of the field-binding pass of the Go package `xtoml`: `LoadConf`
takes a pointer to a struct and a configuration file path, loads the TOML
file, and fills every struct field that carries a `conf:"<path>[,required]"`
tag with the tree value at that dotted path, converted to the field's type.

The model is functional. The struct is a sequence of fields (name, struct
tags, reflected type, current value); the pass is a left-to-right fold that
returns the updated fields and at most one error, the first one met. The TOML
tree is a finite map from dotted path to an opaque raw value (an absent key is
`Get` returning nil). The file loader and the coercion library are parameters:
the loader is a function from path to tree-or-error, each coercion an opaque
function from raw value to typed value-or-error.

Modules, leaves first:

- `Wrappers`: `Option` and `Result`.
- `GoStrings`: `strings.Index` and `strings.SplitN(s, sep, 2)` for a one-character separator, with `Join` as inverse.
- `Errors`: the error cases and their exact Go messages.
- `Reflect`: reflected kinds and types, field values, fields, and the shape of the `interface{}` argument.
- `Cast`: the record of coercions (`ToBoolE`, `ToInt64E`, `ToDurationE`, `ToUint64E`, `ToFloat64E`, `ToStringE`, `ToStringSliceE`, `ToTimeE`).
- `FieldTags` and `FieldTagProperties`: the `fieldTag` record, the tag grammar, and its round trip.
- `Fold`: a pass that applies a fallible step to each element left to right and stops at the first failure, as a recursive fold and as an indexed loop.
- `Xtoml` and `XtomlProperties`: `checkType`, the kind dispatch, one loop iteration, the whole pass (the fold instantiated with that iteration), `LoadConf`, and their properties.

Three points of `LoadConf`'s behaviour that the model keeps:

- The tag is split at its first comma only, so `a,required,required` has second part `required,required` and is rejected with "invalid tag: required,required".
- The file is loaded before the target is checked. With an empty path the result is "config must be set". With a bad file the result is the load error, even for a target that is not a pointer to a struct.
- A required string-slice field whose value coerces to an empty slice is accepted; emptiness is not checked.

`fieldTag` is declared in field.go but `LoadConf` never uses it. Here it is
the result type of `ParseTag`.

## Model

| member | source | states |
|---|---|---|
| FieldTags.FieldTag.IsRequired | field.go:8-10 | reading the required flag does not change the record, and the flag plus the path rebuild it exactly, so the record holds no other state |
| FieldTags.FieldTag.GetTag | field.go:12-14 | reading the path does not change the record, and the path plus the flag rebuild it exactly |
| GoStrings.IndexOf | xtoml.go:66 | the first occurrence of the separator, or none exactly when the separator does not occur |
| GoStrings.SplitFirst | xtoml.go:66 | `SplitN(tg, ",", 2)` gives one or two parts, the first part has no comma, there are two parts exactly when the input has a comma, and joining the parts with a comma gives back the input |
| GoStrings.SplitFirstJoin | xtoml.go:66 | splitting `p,q` with a comma-free `p` recovers `p` and `q`, even when `q` holds more commas |
| FieldTags.ParseTag | xtoml.go:66-81 | a parsed tag has a non-empty comma-free path and formats back to the input text; a failure is "invalid tag len" or "invalid tag: x" where x is a non-empty part other than `required` |
| FieldTagProperties.ParseFormat | xtoml.go:66-81 | round trip: every tag with a valid path, required or not, parses back from its text |
| FieldTagProperties.ParseTagWithoutComma | xtoml.go:66-74 | a comma-free tag is an optional path, or "invalid tag len" when it is empty |
| FieldTagProperties.ParseTagWithComma | xtoml.go:66-81 | `p,q`: an empty side gives "invalid tag len"; `q` equal to `required` gives a required path; any other `q` gives "invalid tag: q" |
| FieldTagProperties.EmptyPartExamples | xtoml.go:66-72 | `""`, `",required"` and `"a,"` give "invalid tag len" |
| FieldTagProperties.OptionalExample | xtoml.go:66-74 | `server.port` is an optional field at that path |
| FieldTagProperties.RequiredExample | xtoml.go:73-77 | `server.port,required` is a required field at that path |
| FieldTagProperties.UnknownTokenExample | xtoml.go:77-80 | `path,unrequired` gives "invalid tag: unrequired" |
| FieldTagProperties.RepeatedRequiredExample | xtoml.go:66-80 | `a,required,required` gives "invalid tag: required,required" because the split stops after the first comma |
| Xtoml.CheckType | xtoml.go:20-33 | succeeds exactly for a pointer to a struct, records that struct's fields and field count, and otherwise gives "not a pointer to struct" |
| Xtoml.Coerce | xtoml.go:92-160 | a written value has the shape of the field's kind; "unsupported type: <type>" happens exactly for types without a coercion rule; every other failure is a coercion error |
| Xtoml.BindField | xtoml.go:63-160 | an untagged field is skipped unchanged; a successful iteration changes only the field's value, and only for a tagged field, with a value that fits its type |
| Xtoml.FirstFailure | xtoml.go:62-162 | the index where the field loop stops: every earlier field binds and the field at that index fails, or it is the field count |
| Xtoml.BindFields | xtoml.go:62-162 | fields before the first failure hold their written values; the failing field and all later ones are untouched; the error is the failing field's; nil exactly when every field was processed |
| Xtoml.BindLoop | xtoml.go:62-162 | the indexed loop over the `nf` fields, which writes in place and returns at the first error, computes exactly the fold `BindFields` |
| Fold.FirstFailure | xtoml.go:62-162 | the index where a pass stops: every earlier element's step succeeds and the step at that index fails, or it is the length |
| Fold.Run | xtoml.go:62-162 | elements before the first failure are replaced by their step results, the failing one and all later ones are untouched, and the error is the failing step's; no error exactly when every step succeeds |
| Fold.RunLoop | xtoml.go:62-88 | an index loop with in-place writes and an early return at the first error (the `for i := 0; i < p.nf; i++` shape) computes exactly `Run` |
| Fold.RunIdempotent | xtoml.go:62-162 | when a step reproduces its own results, running the pass over its own output gives the same sequence and error |
| Xtoml.LoadConf | xtoml.go:35-61 | an empty path gives "config must be set" without loading; a load error comes next; a target that is not a pointer to a struct comes after that; any change to the argument is to a pointer to a struct of the same field count; no error only for such a target |
| XtomlProperties.RequiredAbsent | xtoml.go:82-87 | a required path missing from the tree gives "field <path> must be set" |
| XtomlProperties.OptionalAbsent | xtoml.go:82-89 | an optional path missing from the tree leaves the field unchanged and does not fail |
| XtomlProperties.PresentWritten | xtoml.go:82-160 | a path present in the tree is coerced and written, or the coercion's error is returned, whether or not the field is required |
| XtomlProperties.MalformedTag | xtoml.go:66-81 | a malformed tag fails the field with the tag error before the tree is consulted |
| XtomlProperties.BindFieldIdempotent | xtoml.go:63-160 | binding an already bound field again changes nothing |
| XtomlProperties.DurationDispatch | xtoml.go:99-106 | a `time.Duration` field uses the duration coercion and passes on its error |
| XtomlProperties.BoolDispatch | xtoml.go:93-98 | a bool field stores the bool coercion's value, or fails with that coercion's error |
| XtomlProperties.UnsignedDispatch | xtoml.go:115-120 | an unsigned field of any width stores the uint64 coercion's value, or fails with its error |
| XtomlProperties.FloatDispatch | xtoml.go:121-126 | a float field of either width stores the float64 coercion's value, or fails with its error |
| XtomlProperties.StringDispatch | xtoml.go:127-132 | a string field stores the string coercion's value, or fails with its error |
| XtomlProperties.ForeignTimePackage | xtoml.go:99-156 | types are matched by identity (package path and name), not by printed text: a `Duration` from another package named `time` takes the int64 coercion, and a `Time` from one is unsupported |
| XtomlProperties.SignedDispatch | xtoml.go:99-114 | any other signed integer field uses the int64 coercion and passes on its error |
| XtomlProperties.SliceDispatch | xtoml.go:133-144 | a slice binds through the string-slice coercion only when its elements are strings; otherwise "unsupported type" |
| XtomlProperties.StructDispatch | xtoml.go:145-156 | a struct binds through the time coercion only when it is `time.Time`; otherwise "unsupported type" |
| XtomlProperties.UnsupportedRejected | xtoml.go:157-159 | a type with no coercion rule always gives "unsupported type: <type name>", whatever the raw value |
| XtomlProperties.DispatchByKind | xtoml.go:92-160 | the dispatch depends only on the kind and on whether the type is `time.Duration` or `time.Time` |
| XtomlProperties.FirstErrorWins | xtoml.go:62-162 | if field k fails and all earlier fields bind, k's error is returned, fields from k on are untouched, and earlier fields keep their written values (no rollback) |
| XtomlProperties.RequiredAbsentFailsPass | xtoml.go:82-87 | a required field missing from the tree always fails the pass, and names its path unless an earlier field failed first |
| XtomlProperties.NoTagsNoChange | xtoml.go:62-65 | a record with no `conf` tags binds successfully and is unchanged |
| XtomlProperties.SuccessGuarantee | xtoml.go:62-162 | on success every tag is well formed, every present path holds its coerced value, every absent path is optional and unchanged, and untagged fields are unchanged |
| XtomlProperties.PassIdempotent | xtoml.go:62-162 | running the pass again on its own output gives the same record and the same error |
| XtomlProperties.LoadConfRunsPass | xtoml.go:53-162 | for a non-empty path, a loadable file and a pointer to a struct, `LoadConf` writes the pass's record through the pointer and returns the pass's error |
| XtomlProperties.LoadBeforeTypeCheck | xtoml.go:49-61 | a target that is not a pointer to a struct is rejected unchanged, but a load error is reported before that check |

## Left out

- File loading and TOML parsing (`toml.LoadFile`, `Tree.Get` with its dotted-key syntax): a foreign parser and I/O. The loader is a parameter and the tree is a finite map from path string to an opaque raw value.
- The coercions of the `cast` library: a foreign library. Each is an opaque total function, so facts such as `"1500ms"` converting to 1,500,000,000 ns, or `1` converting to `true`, are not stated.
- Reflection mechanics: `StructTag.Lookup` is a lookup in a map from tag key to tag value. Parsing the raw struct-tag text is not modelled.
- Narrowing by `SetInt`/`SetUint`/`SetFloat` into `int8`…`int32`, `uint8`…`uint32` and `float32`: stored values are kept at 64-bit width.
- Floats are opaque IEEE-754 bit patterns, and `time.Time` is only its instant in nanoseconds (no location, no monotonic reading).
- Panics are not modelled: reflection on an unexported field, or `Set` of a `[]string` into a slice of a named string type. The model assumes exported fields of the listed types.
- The deferred clearing of the parser's tree pointer (xtoml.go:56-58): resource hygiene with no observable effect.
- `Errors.Message` gives the exact Go error texts, but no property is proved about it.
- xtoml_test.go only exercises the TOML library's array-of-tables lookup, not this package's logic.
