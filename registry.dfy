/**
 * The type registry of the generator and its two passes over the request's
 * files: the analysis of every file (which fills the registry and yields one
 * file record per file name) and the dependency pass, which groups each
 * record's external type names by package and declaring file and appends one
 * import per group to the record.
 *
 * Go's map iteration order is unspecified; the model picks the next file and
 * the next import with `:|`, so every property below holds for every order.
 */
module RegistryAnalysis {
  import opened Wrappers
  import opened RegistryTypes
  import opened DependencyGrouping

  /**
   * A file descriptor of the request, opaque but for its name, by which the
   * record is stored, and its package, which only analyseFile reads.
   */
  datatype FileDescriptor = FileDescriptor(name: string, package: string)

  /**
   * What the per-file analysis (analyseFile, not part of this model) yields
   * for one file: the registry's types after it registered the file's
   * declarations, and the fields of the file record it built.
   */
  datatype Analysis = Analysis(
    types: map<string, TypeInformation>,
    tsFileName: string,
    externalDependingTypes: seq<string>,
    dependencies: seq<Dependency>)

  /** data.File, the record built for one file and extended in place by the dependency pass. */
  class FileData {
    var tsFileName: string
    var externalDependingTypes: seq<string>
    var dependencies: seq<Dependency>

    constructor (tsFileName: string, externalDependingTypes: seq<string>, dependencies: seq<Dependency>)
      ensures this.tsFileName == tsFileName
      ensures this.externalDependingTypes == externalDependingTypes
      ensures this.dependencies == dependencies
    {
      this.tsFileName := tsFileName;
      this.externalDependingTypes := externalDependingTypes;
      this.dependencies := dependencies;
    }
  }

  /** `order` lists every key of `m` exactly once. */
  ghost predicate Enumerates(order: seq<string>, m: map<string, Dependency>)
  {
    && (forall i, j :: 0 <= i < j < |order| ==> order[i] != order[j])
    && (forall k :: k in order <==> k in m)
  }

  /** The imports of `m`, in the order of `order`. */
  function ValuesInOrder(m: map<string, Dependency>, order: seq<string>): (r: seq<Dependency>)
    requires forall k :: k in order ==> k in m
  {
    seq(|order|, i requires 0 <= i < |order| => m[order[i]])
  }

  /** Dropping the last key from an enumeration enumerates the map without it. */
  lemma EnumerationDropLast(order: seq<string>, m: map<string, Dependency>)
    requires order != [] && Enumerates(order, m)
    ensures Enumerates(order[..|order| - 1], m - {order[|order| - 1]})
  {
    var last := order[|order| - 1];
    var rest := order[..|order| - 1];
    forall k | k in rest ensures k in m - {last} {
      var i :| 0 <= i < |rest| && rest[i] == k;
      assert order[i] == k;
    }
    forall k | k in m - {last} ensures k in rest {
      var i :| 0 <= i < |order| && order[i] == k;
      assert rest[i] == k;
    }
  }

  /** An enumeration of a map's keys is as long as the map is large. */
  lemma {:induction false} EnumerationLength(order: seq<string>, m: map<string, Dependency>)
    requires Enumerates(order, m)
    ensures |order| == |m|
    decreases |order|
  {
    if order == [] {
      assert m.Keys == {};
    } else {
      var last := order[|order| - 1];
      EnumerationDropLast(order, m);
      EnumerationLength(order[..|order| - 1], m - {last});
      assert m.Keys == (m - {last}).Keys + {last};
    }
  }

  /**
   * `after` is `before` followed by the imports of `m`, each once, in some
   * order: what appending a grouping to a file record in map iteration order
   * yields.
   */
  ghost predicate AppendedFrom(before: seq<Dependency>, after: seq<Dependency>, m: map<string, Dependency>)
  {
    && |before| <= |after|
    && after[..|before|] == before
    && exists order :: Enumerates(order, m) && after[|before|..] == ValuesInOrder(m, order)
  }

  lemma AppendedCount(before: seq<Dependency>, after: seq<Dependency>, m: map<string, Dependency>)
    requires AppendedFrom(before, after, m)
    ensures |after| == |before| + |m|
  {
    var order :| Enumerates(order, m) && after[|before|..] == ValuesInOrder(m, order);
    EnumerationLength(order, m);
  }

  lemma AppendedEvery(before: seq<Dependency>, after: seq<Dependency>, m: map<string, Dependency>)
    requires AppendedFrom(before, after, m)
    ensures forall k :: k in m ==> m[k] in after[|before|..]
  {
    var order :| Enumerates(order, m) && after[|before|..] == ValuesInOrder(m, order);
    forall k | k in m ensures m[k] in after[|before|..] {
      var i :| 0 <= i < |order| && order[i] == k;
      assert after[|before|..][i] == m[k];
    }
  }

  lemma AppendedOnly(before: seq<Dependency>, after: seq<Dependency>, m: map<string, Dependency>)
    requires AppendedFrom(before, after, m)
    ensures forall d :: d in after[|before|..] ==> exists k :: k in m && m[k] == d
  {
    var order :| Enumerates(order, m) && after[|before|..] == ValuesInOrder(m, order);
    forall d | d in after[|before|..] ensures exists k :: k in m && m[k] == d {
      var i :| 0 <= i < |order| && after[|before|..][i] == d;
      assert m[order[i]] == d;
    }
  }

  /**
   * Appending a grouping keeps the existing imports in place and adds exactly
   * one import per key: as many as the grouping has keys, each of its imports,
   * and nothing else.
   */
  lemma AppendedContents(before: seq<Dependency>, after: seq<Dependency>, m: map<string, Dependency>)
    requires AppendedFrom(before, after, m)
    ensures |after| == |before| + |m|
    ensures after[..|before|] == before
    ensures forall k :: k in m ==> m[k] in after[|before|..]
    ensures forall d :: d in after[|before|..] ==> exists k :: k in m && m[k] == d
  {
    AppendedCount(before, after, m);
    AppendedEvery(before, after, m);
    AppendedOnly(before, after, m);
  }

  /** Appending an empty grouping leaves the record's imports as they were. */
  lemma AppendedNothing(before: seq<Dependency>, after: seq<Dependency>)
    requires AppendedFrom(before, after, map[])
    ensures after == before
  {
    AppendedContents(before, after, map[]);
  }

  /**
   * What a file record holds after the dependency pass extended it: the
   * imports it had, then exactly one import per distinct grouping key of its
   * external types, each built from the first type seen with its key, and no
   * other.
   */
  lemma ImportsOfCollectedFile(types: map<string, TypeInformation>, env: Env, base: string,
                               names: seq<string>, before: seq<Dependency>, after: seq<Dependency>)
    requires Group(types, env, base, names).Ok?
    requires AppendedFrom(before, after, Group(types, env, base, names).value)
    ensures |after| == |before| + |KeySet(types, names)|
    ensures after[..|before|] == before
    ensures forall i :: FirstOfKey(types, names, i) ==>
              NewDependency(env, base, types[names[i]]).Ok?
              && NewDependency(env, base, types[names[i]]).value in after[|before|..]
    ensures forall d :: d in after[|before|..] ==>
              exists i :: FirstOfKey(types, names, i) && NewDependency(env, base, types[names[i]]) == Ok(d)
  {
    var m := Group(types, env, base, names).value;
    GroupSound(types, env, base, names);
    AppendedContents(before, after, m);
    forall d | d in after[|before|..]
      ensures exists i :: FirstOfKey(types, names, i) && NewDependency(env, base, types[names[i]]) == Ok(d)
    {
      var k :| k in m && m[k] == d;
      var i :| FirstOfKey(types, names, i) && GroupKey(types[names[i]]) == k;
    }
  }

  /** A record without external types leaves the pass as it came. */
  lemma NoExternalTypesNoImports(types: map<string, TypeInformation>, env: Env, base: string,
                                 before: seq<Dependency>, after: seq<Dependency>)
    requires AppendedFrom(before, after, Group(types, env, base, []).value)
    ensures after == before
  {
    AppendedNothing(before, after);
  }

  /**
   * Appends the imports of `m` to the record in an order chosen freely, as the
   * loop over a Go map does (registry.go lines 130-132).
   */
  method AppendAll(f: FileData, m: map<string, Dependency>) returns (ghost order: seq<string>)
    modifies f`dependencies
    ensures Enumerates(order, m)
    ensures f.dependencies == old(f.dependencies) + ValuesInOrder(m, order)
  {
    order := [];
    var pending := m.Keys;
    while pending != {}
      invariant pending <= m.Keys
      invariant forall i, j :: 0 <= i < j < |order| ==> order[i] != order[j]
      invariant forall k :: k in m ==> (k in order <==> k !in pending)
      invariant forall k :: k in order ==> k in m
      invariant f.dependencies == old(f.dependencies) + ValuesInOrder(m, order)
      decreases pending
    {
      var key :| key in pending;
      f.dependencies := f.dependencies + [m[key]];
      order := order + [key];
      pending := pending - {key};
    }
  }

  /** No two file names share one record. */
  predicate DistinctRecords(filesData: map<string, FileData>)
  {
    forall a, b :: a in filesData && b in filesData && a != b ==> filesData[a] != filesData[b]
  }

  /** The registry's types after analysing `files` in order, starting from `types0`. */
  function TypesAfter(analyseFile: (map<string, TypeInformation>, FileDescriptor) -> Analysis,
                      types0: map<string, TypeInformation>, files: seq<FileDescriptor>): map<string, TypeInformation>
    decreases |files|
  {
    if files == [] then types0
    else analyseFile(TypesAfter(analyseFile, types0, files[..|files| - 1]), files[|files| - 1]).types
  }

  /**
   * The analysis results by file name after analysing `files` in order; a
   * later file with the same name replaces an earlier one.
   */
  function Records(analyseFile: (map<string, TypeInformation>, FileDescriptor) -> Analysis,
                   types0: map<string, TypeInformation>, files: seq<FileDescriptor>): map<string, Analysis>
    decreases |files|
  {
    if files == [] then map[]
    else
      var prefix := files[..|files| - 1];
      var f := files[|files| - 1];
      Records(analyseFile, types0, prefix)[f.name := analyseFile(TypesAfter(analyseFile, types0, prefix), f)]
  }

  /** The names of the files of the request. */
  function FileNames(files: seq<FileDescriptor>): set<string>
  {
    set i | 0 <= i < |files| :: files[i].name
  }

  /** The records are keyed by exactly the names of the files. */
  lemma {:induction false} RecordsKeys(analyseFile: (map<string, TypeInformation>, FileDescriptor) -> Analysis,
                                       types0: map<string, TypeInformation>, files: seq<FileDescriptor>)
    ensures Records(analyseFile, types0, files).Keys == FileNames(files)
    decreases |files|
  {
    if files != [] {
      var prefix := files[..|files| - 1];
      RecordsKeys(analyseFile, types0, prefix);
      assert forall i :: 0 <= i < |prefix| ==> prefix[i] == files[i];
      assert FileNames(files) == FileNames(prefix) + {files[|files| - 1].name};
    }
  }

  /**
   * The record kept for a name is the analysis of the last file with that
   * name, made with the types registered by the files before it.
   */
  lemma {:induction false} RecordsLastWins(analyseFile: (map<string, TypeInformation>, FileDescriptor) -> Analysis,
                                           types0: map<string, TypeInformation>, files: seq<FileDescriptor>,
                                           i: nat)
    requires i < |files|
    requires forall j :: i < j < |files| ==> files[j].name != files[i].name
    ensures files[i].name in Records(analyseFile, types0, files)
    ensures Records(analyseFile, types0, files)[files[i].name]
            == analyseFile(TypesAfter(analyseFile, types0, files[..i]), files[i])
    decreases |files|
  {
    if i < |files| - 1 {
      var prefix := files[..|files| - 1];
      assert prefix[..i] == files[..i];
      RecordsLastWins(analyseFile, types0, prefix, i);
    }
  }

  /** registry.Registry: the types of the request, keyed by fully qualified name. */
  class Registry {
    var types: map<string, TypeInformation>

    /** NewRegistry: a registry that knows no type yet. */
    constructor ()
      ensures types == map[]
    {
      types := map[];
    }

    /**
     * The grouping of one file's external type names (registry.go lines
     * 103-128): one import per grouping key, built from the first type seen
     * with that key, or the first error met.
     */
    method GroupDependencies(env: Env, base: string, names: seq<string>)
      returns (res: Result<map<string, Dependency>, Error>)
      ensures res == Group(types, env, base, names)
    {
      var dependencies: map<string, Dependency> := map[];
      var i := 0;
      while i < |names|
        invariant 0 <= i <= |names|
        invariant Group(types, env, base, names[..i]) == Ok(dependencies)
      {
        assert names[..i + 1][..i] == names[..i];
        var typeName := names[i];
        if typeName !in types {
          GroupErrorPersists(types, env, base, names, i + 1);
          return Err(MissingType(typeName));
        }
        var typeInfo := types[typeName];
        var identifier := GroupKey(typeInfo);
        if identifier !in dependencies {
          var target := env.getTSFileName(typeInfo.file);
          var relPath := env.rel(base, target);
          if relPath.None? {
            GroupErrorPersists(types, env, base, names, i + 1);
            return Err(RelFailed(base, target));
          }
          dependencies := dependencies[identifier := Dependency(env.getModuleName(typeInfo.package, typeInfo.file), relPath.value)];
        }
        i := i + 1;
      }
      assert names[..i] == names;
      res := Ok(dependencies);
    }

    /** The grouping the dependency pass computes for a record. */
    ghost function GroupOf(env: Env, f: FileData): Result<map<string, Dependency>, Error>
      reads this, f
    {
      Group(types, env, f.tsFileName, f.externalDependingTypes)
    }

    /**
     * The record has been through the dependency pass: its grouping succeeded
     * and its imports are `before` followed by those of the grouping.
     */
    ghost predicate Collected(env: Env, f: FileData, before: seq<Dependency>)
      reads this, f
    {
      GroupOf(env, f).Ok? && AppendedFrom(before, f.dependencies, GroupOf(env, f).value)
    }

    /**
     * collectExternalDependenciesFromData: visits the records in an order
     * chosen freely, groups each one's external type names, and appends the
     * grouping to the record; the first failing grouping aborts the pass,
     * leaving the records visited before it extended and all others as they
     * were. The registry's types are not changed.
     */
    method CollectExternalDependenciesFromData(env: Env, filesData: map<string, FileData>)
      returns (err: Option<Error>)
      requires DistinctRecords(filesData)
      modifies filesData.Values`dependencies
      ensures types == old(types)
      ensures err.None? ==>
                forall n :: n in filesData ==> Collected(env, filesData[n], old(filesData[n].dependencies))
      ensures err.Some? ==>
                exists n :: n in filesData && GroupOf(env, filesData[n]) == Err(err.value)
                            && filesData[n].dependencies == old(filesData[n].dependencies)
      ensures forall n :: n in filesData ==>
                filesData[n].dependencies == old(filesData[n].dependencies)
                || Collected(env, filesData[n], old(filesData[n].dependencies))
    {
      var remaining := filesData.Keys;
      while remaining != {}
        invariant remaining <= filesData.Keys
        invariant forall n :: n in filesData && n !in remaining ==>
                    Collected(env, filesData[n], old(filesData[n].dependencies))
        invariant forall n :: n in remaining ==> filesData[n].dependencies == old(filesData[n].dependencies)
        decreases remaining
      {
        var name :| name in remaining;
        var fileData := filesData[name];
        var grouped := GroupDependencies(env, fileData.tsFileName, fileData.externalDependingTypes);
        if grouped.Err? {
          return Some(grouped.error);
        }
        ghost var before := fileData.dependencies;
        ghost var order := AppendAll(fileData, grouped.value);
        assert fileData.dependencies[|before|..] == ValuesInOrder(grouped.value, order);
        remaining := remaining - {name};
      }
      err := None;
    }

    /**
     * Analyse: analyses every file in order with `analyseFile` (which updates
     * the types), keeps one record per file name, then runs the dependency
     * pass over the records; on its failure no records are returned.
     */
    method Analyse(files: seq<FileDescriptor>,
                   analyseFile: (map<string, TypeInformation>, FileDescriptor) -> Analysis,
                   env: Env)
      returns (result: Result<map<string, FileData>, Error>)
      modifies this
      ensures types == TypesAfter(analyseFile, old(types), files)
      ensures result.Ok? <==>
                forall n :: n in Records(analyseFile, old(types), files) ==>
                  Group(types, env, Records(analyseFile, old(types), files)[n].tsFileName,
                        Records(analyseFile, old(types), files)[n].externalDependingTypes).Ok?
      ensures result.Ok? ==>
                && result.value.Keys == FileNames(files) == Records(analyseFile, old(types), files).Keys
                && DistinctRecords(result.value)
      ensures result.Ok? ==>
                forall n :: n in result.value ==>
                  var a := Records(analyseFile, old(types), files)[n];
                  && fresh(result.value[n])
                  && result.value[n].tsFileName == a.tsFileName
                  && result.value[n].externalDependingTypes == a.externalDependingTypes
                  && Collected(env, result.value[n], a.dependencies)
    {
      ghost var types0 := types;
      var data: map<string, FileData> := map[];
      var i := 0;
      while i < |files|
        invariant 0 <= i <= |files|
        invariant types == TypesAfter(analyseFile, types0, files[..i])
        invariant data.Keys == Records(analyseFile, types0, files[..i]).Keys
        invariant DistinctRecords(data)
        invariant forall n :: n in data ==>
                    var a := Records(analyseFile, types0, files[..i])[n];
                    && fresh(data[n])
                    && data[n].tsFileName == a.tsFileName
                    && data[n].externalDependingTypes == a.externalDependingTypes
                    && data[n].dependencies == a.dependencies
      {
        assert files[..i + 1][..i] == files[..i];
        var fileData := AnalyseFile(files[i], analyseFile);
        data := data[files[i].name := fileData];
        i := i + 1;
      }
      assert files[..i] == files;
      RecordsKeys(analyseFile, types0, files);
      var err := CollectExternalDependenciesFromData(env, data);
      if err.Some? {
        return Err(err.value);
      }
      result := Ok(data);
    }

    /** One call of analyseFile: updates the types and builds the file's record. */
    method AnalyseFile(f: FileDescriptor, analyseFile: (map<string, TypeInformation>, FileDescriptor) -> Analysis)
      returns (fileData: FileData)
      modifies this
      ensures var a := analyseFile(old(types), f);
              && fresh(fileData)
              && types == a.types
              && fileData.tsFileName == a.tsFileName
              && fileData.externalDependingTypes == a.externalDependingTypes
              && fileData.dependencies == a.dependencies
    {
      var a := analyseFile(types, f);
      types := a.types;
      fileData := new FileData(a.tsFileName, a.externalDependingTypes, a.dependencies);
    }
  }
}
