# Type registry and dependency linker of protoc-gen-grpc-gateway-ts, in Dafny

This project models `registry/registry.go` of the protobuf-to-TypeScript
generator. That file holds the type registry: a map from fully qualified
proto type names to what is known about each type. Around it are three
naming helpers and the pass that links generated files to each other. For
each generated file, that pass groups the external types the file refers to
by package and declaring file. It then appends one import per group to the
file's record.

Modules:

- `Wrappers`: `Option` and `Result`.
- `GoStrings`: the two `strings` routines the helpers use, `Join` and
  `Index`, plus reference definitions (`Flatten`, `Terminated`) the helpers
  are proved against.
- `Naming`: `GetNameOfPackageLevelIdentifier`, `GetParentPrefixes`,
  `IsExternalDependencies` as written, and a corrected `IsExternalBounded`
  (see Findings).
- `RegistryTypes`: `TypeInformation`, `MapEntryType` and `GetType`,
  `Dependency`, the grouping key `Package + "|" + File`, and `Env`. `Env`
  holds the collaborators from outside this file: `data.GetTSFileName`,
  `data.GetModuleName`, and `filepath.Rel`, which may fail.
- `DependencyGrouping`: `Group`, the grouping of one file's external type
  names as a pure left fold, with its lemmas. `Group` is built from two
  definitions: `GroupStep`, one iteration of the loop at lines 105-127 of
  `registry/registry.go`, and `NewDependency`, the import made at lines
  117-126 for the first type of a key, or the failed `Rel`. Both are specified
  through `Group` and its lemmas rather than by contracts of their own. These give the exact key set,
  the import built from the first type of each key, exactly when the grouping
  succeeds, and the cause of a failure.
- `RegistryAnalysis`: the imperative part. It contains the `FileData` class
  (the file record, `data.File`) and the `Registry` class with its
  `types` map. `Registry` has `GroupDependencies` (the inner loop),
  `CollectExternalDependenciesFromData` (the outer loop, which appends to
  the records in place) and `Analyse`.

Go map iteration order is unspecified, both over the file records and over
the per-file dependency map. The model picks the next element with `:|`, so
every proved property holds for every order. The order in which a file's new
imports are appended is described by a ghost enumeration of the grouping's
keys (`Enumerates`, `AppendedFrom`).

Two facts about the code that the model keeps as written:

- The package-prefix test of `isExternalDependencies` has no `.` boundary
  after the package name (see Findings).
- The import path of a dependency is
  `filepath.Rel(fileData.TSFileName, GetTSFileName(File))` and nothing more:
  the base is the file's own TS file name.

`ValuesInOrder` is a definition, not an operation: the imports of a grouping
listed in a given key order. The contracts of `AppendAll` and the
`Appended*` lemmas are written in terms of it.

## Model

| member | source | states |
|---|---|---|
| `RegistryAnalysis.Registry.constructor` | registry/registry.go:19-23 | a new registry knows no type: `types` is empty |
| `RegistryTypes.GetType` | registry/registry.go:56-62 | the renderer type keeps the entry's type name and externality (they give back the entry) and is never repeated |
| `RegistryAnalysis.Registry.Analyse` | registry/registry.go:65-81 | the types end as `analyseFile` left them, file after file. The result is an error exactly when some record's grouping fails. On success the records are fresh and distinct, keyed by exactly the input file names. Each holds the TS file name and external types of the last analysis made under its name, and that analysis's imports extended by the dependency pass |
| `RegistryAnalysis.Registry.AnalyseFile` | registry/registry.go:69 | one analysis step: the types become those `analyseFile` returns, and a fresh record holds the fields it returns |
| `RegistryAnalysis.RecordsKeys` | registry/registry.go:66-71 | the record map is keyed by exactly the names of the input files |
| `RegistryAnalysis.RecordsLastWins` | registry/registry.go:68-71 | the record kept for a name is the analysis of the last file with that name, made with the types registered before it |
| `Naming.GetNameOfPackageLevelIdentifier` | registry/registry.go:84-86 | the result is the parents concatenated in order with no separator, then the name; its length is their total length plus the name's; with no parents it is the name |
| `GoStrings.Join` | registry/registry.go:84-94 | `strings.Join`: the empty string for no elements, otherwise as long as the elements together plus one separator between each two |
| `GoStrings.JoinEmptySeparator` | registry/registry.go:85 | `strings.Join` with the empty separator is plain concatenation |
| `Naming.GetParentPrefixes` | registry/registry.go:88-94 | every parent followed by a dot. The result is empty exactly when there are no parents, otherwise ends in `.`. Its length is the parents' total length plus their number |
| `GoStrings.JoinThenSeparator` | registry/registry.go:91 | a non-empty join with `.` followed by one more `.` puts a dot after every parent |
| `Naming.ParentPrefixesNest` | registry/registry.go:88-94 | one more nesting level extends the prefix by that name and a dot |
| `GoStrings.IndexFrom` | registry/registry.go:97 | the first occurrence of the substring at or after a position, or -1 when there is none |
| `GoStrings.Index` | registry/registry.go:97 | `strings.Index`: -1 exactly when the substring does not occur, otherwise the first position where it occurs, counted in characters (see Left out) |
| `GoStrings.IndexZeroIsPrefix` | registry/registry.go:97 | `strings.Index(s, sub) == 0` exactly when `s` starts with `sub` |
| `Naming.IsExternalDependencies` | registry/registry.go:96-98 | external exactly when the name starts with `.` and does not start with `.` followed by the package name |
| `Naming.NotRootedIsNotExternal` | registry/registry.go:97 | a name that does not start with `.` is never external |
| `Naming.EmptyPackageHasNoExternals` | registry/registry.go:97 | with the empty package name nothing is external |
| `Naming.OwnPackageIsNotExternal` | registry/registry.go:97 | a name that starts with `.` and the package name is not external |
| `Naming.PrefixPackageIsNotExternal` | registry/registry.go:97 | as written, `.pkg2.Foo` is not external to package `pkg` |
| `Naming.IsExternalBounded` | registry/registry.go:96-98 | corrected test: whatever is external as written stays external, and only package-rooted names are external |
| `Naming.BoundedPrefixPackageIsExternal` | registry/registry.go:96-98 | under the corrected test `.pkg2.Foo` is external to `pkg` and `.pkg.Foo` is not |
| `Naming.BoundedOwnPackageIsNotExternal` | registry/registry.go:96-98 | under the corrected test no name inside the package, `.pkg.` followed by anything, is external |
| `Naming.BoundedOtherPackageIsExternal` | registry/registry.go:96-98 | under the corrected test a name in any other dot-free package is external to a non-empty dot-free package |
| `Naming.BoundaryIsTheOnlyDifference` | registry/registry.go:96-98 | the code as written and the corrected test disagree, for a non-empty package name, exactly on names that start with `.` and the package name and go on with a character other than `.`; for the empty package they always agree |
| `RegistryTypes.GroupKeyInjective` | registry/registry.go:109 | when package names contain no vertical bar, two types share a grouping key exactly when they share package and declaring file |
| `RegistryAnalysis.Registry.GroupDependencies` | registry/registry.go:103-128 | the loop's result equals the grouping specification `Group` of the file's TS file name and external type names |
| `DependencyGrouping.GroupSound` | registry/registry.go:103-128 | a successful grouping has every name registered. It holds exactly one import per distinct key of the names' types, so as many imports as distinct keys. Each key's import is built from the first type with that key, from `GetModuleName(Package, File)` and `Rel(TSFileName, GetTSFileName(File))` |
| `DependencyGrouping.GroupSucceedsIff` | registry/registry.go:105-122 | the grouping succeeds exactly when every name is registered and `Rel` succeeds for the first type of every key |
| `DependencyGrouping.GroupErrorCause` | registry/registry.go:105-122 | a failed grouping reports either an unregistered name of the list, or the base and target of a failed `Rel` for the first type of some key |
| `DependencyGrouping.GroupErrorPersists` | registry/registry.go:105-122 | once a prefix of the names fails, the whole grouping fails with the same error (early return) |
| `DependencyGrouping.UnregisteredNameFails` | registry/registry.go:105-108 | an unregistered name anywhere in the list makes the grouping fail |
| `DependencyGrouping.OneKeyOneImport` | registry/registry.go:109-127 | a successful grouping of any number of names sharing one key yields exactly one import, and of the empty list none |
| `DependencyGrouping.GroupOfNothing` | registry/registry.go:103-104 | no external type names give the empty grouping |
| `RegistryAnalysis.EnumerationLength` | registry/registry.go:130-132 | an enumeration of the grouping's keys without repetition is as long as the grouping is large |
| `RegistryAnalysis.AppendAll` | registry/registry.go:130-132 | the record's imports become the old ones followed by the grouping's imports, in an order that lists every key exactly once |
| `RegistryAnalysis.AppendedContents` | registry/registry.go:130-132 | appending keeps the old imports in their positions and adds as many imports as the grouping has keys: each of its imports and nothing else |
| `RegistryAnalysis.AppendedNothing` | registry/registry.go:130-132 | appending an empty grouping leaves the imports unchanged |
| `RegistryAnalysis.ImportsOfCollectedFile` | registry/registry.go:103-132 | after the pass, a record's imports are the old ones followed by exactly one new import per distinct key of its external types. Each new import is the one built from the first type with that key, and there are no others |
| `RegistryAnalysis.NoExternalTypesNoImports` | registry/registry.go:104-132 | a record with no external type names leaves the pass unchanged |
| `RegistryAnalysis.Registry.CollectExternalDependenciesFromData` | registry/registry.go:100-136 | the types are unchanged and only the records' import lists change. On success every record is extended by its grouping. On failure the error is the grouping error of a record whose imports are unchanged. Every record is either unchanged or extended by its grouping |

## Left out

- `analyseFile` is not part of this model, and neither is the descriptor-tree walk it performs. `Analyse` takes it as a function parameter from the current types and a file descriptor to the new types and the record's fields.
- `data.GetTSFileName`, `data.GetModuleName` and `filepath.Rel` live outside this file. They are fields of the `Env` parameter (`Rel` may fail), so no path algebra is modelled.
- Protobuf descriptor types: `ProtoType` is an opaque enumeration and a file descriptor is only its name and package.
- Error texts and wrapping (`errors.Wrap`, `Errorf`): an error is only its kind (missing type, failed `Rel`) with the names involved.
- Go map iteration order: left free (`:|`), so no fixed order of records or of appended imports is stated.
- `RegistryAnalysis.Registry.CollectExternalDependenciesFromData`: requires that no two file names share one record object. The Go function accepts such a map and would extend a shared record twice. The model assumes `analyseFile` returns a new record on every call; `Analyse`, the only caller in this file, then passes distinct records. Other files of the package could call the function too, and are not part of this model.
- Nil pointers in the record map or the registry (a Go panic) are not modelled; records and types are never absent values.
- The grouping key is the string `Package + "|" + File`, as written. Two different pairs can share a key if a package name contains `|`; proto package names cannot, and `GroupKeyInjective` is stated under that condition.
- `GoStrings.Index`: counts positions in characters, where Go's `strings.Index` counts bytes. The two differ on text with multi-byte characters before the match. They agree on whether the result is 0 or -1, and the registry only compares the result with 0.
- Glob search, import-root alias substitution, `./` prefixing and extension stripping: the code of this file does none of these, so nothing models them.

## Findings

| source | as written | input that shows it | evidently intended | confidence | as-written member | corrected member |
|---|---|---|---|---|---|---|
| registry/registry.go:96-98 | external when the name starts with `.` and not with `"." + packageName`, with no check of what follows the package name | `isExternalDependencies(".pkg2.Foo", "pkg")` is false, so a type of package `pkg2` counts as inside `pkg` | the package name must be followed by `.` or by the end of the name, so `.pkg2.Foo` is external to `pkg` and `.pkg.Foo` is not | medium, not executed | `Naming.PrefixPackageIsNotExternal` | `Naming.IsExternalBounded` |

The as-written function is `Naming.IsExternalDependencies`. The corrected
test keeps the code's choice that the empty package treats nothing as
external. Its intended behaviour is proved in
`Naming.BoundedPrefixPackageIsExternal`, `Naming.BoundedOwnPackageIsNotExternal`
and `Naming.BoundedOtherPackageIsExternal`. `Naming.BoundaryIsTheOnlyDifference`
proves that the two tests differ exactly on the unbounded-prefix names.
Nothing in this file calls the test; its callers are outside this file.
