/**
 * The per-file grouping of external type names into imports, as a function
 * of the registry's types, the collaborators, the file's own TS file name
 * (the base of every relative path) and its list of external type names.
 * The names are processed in order; for each the type is looked up (a miss is
 * an error), and the first type seen with a given grouping key contributes
 * that key's import, whose relative path may fail to compute.
 */
module DependencyGrouping {
  import opened Wrappers
  import opened RegistryTypes

  /** The import built for the first type seen with its key (lines 117-126 of registry.go). */
  function NewDependency(env: Env, base: string, t: TypeInformation): Result<Dependency, Error>
  {
    var target := env.getTSFileName(t.file);
    match env.rel(base, target)
    case None => Err(RelFailed(base, target))
    case Some(relPath) => Ok(Dependency(env.getModuleName(t.package, t.file), relPath))
  }

  /** The grouping after one more type name, given the grouping `acc` of the names before it. */
  function GroupStep(types: map<string, TypeInformation>, env: Env, base: string,
                     acc: map<string, Dependency>, name: string): Result<map<string, Dependency>, Error>
  {
    if name !in types then Err(MissingType(name))
    else
      var t := types[name];
      if GroupKey(t) in acc then Ok(acc)
      else match NewDependency(env, base, t)
        case Err(e) => Err(e)
        case Ok(d) => Ok(acc[GroupKey(t) := d])
  }

  /** The grouping of a whole list of type names, the first error aborting it. */
  function Group(types: map<string, TypeInformation>, env: Env, base: string,
                 names: seq<string>): Result<map<string, Dependency>, Error>
    decreases |names|
  {
    if names == [] then Ok(map[])
    else match Group(types, env, base, names[..|names| - 1])
      case Err(e) => Err(e)
      case Ok(acc) => GroupStep(types, env, base, acc, names[|names| - 1])
  }

  /**
   * Position `i` holds the first type name whose grouping key is that of
   * `names[i]`, and every name up to it is registered.
   */
  predicate FirstOfKey(types: map<string, TypeInformation>, names: seq<string>, i: int)
  {
    && 0 <= i < |names|
    && (forall j :: 0 <= j <= i ==> names[j] in types)
    && (forall j :: 0 <= j < i ==> GroupKey(types[names[j]]) != GroupKey(types[names[i]]))
  }

  /** The grouping keys of the registered names in the list. */
  function KeySet(types: map<string, TypeInformation>, names: seq<string>): set<string>
  {
    set i | 0 <= i < |names| && names[i] in types :: GroupKey(types[names[i]])
  }

  /** Once a prefix of the names has failed, the whole grouping fails the same way. */
  lemma {:induction false} GroupErrorPersists(types: map<string, TypeInformation>, env: Env, base: string,
                                              names: seq<string>, k: nat)
    requires k <= |names| && Group(types, env, base, names[..k]).Err?
    ensures Group(types, env, base, names) == Group(types, env, base, names[..k])
    decreases |names|
  {
    if k < |names| {
      var prefix := names[..|names| - 1];
      assert prefix[..k] == names[..k];
      GroupErrorPersists(types, env, base, prefix, k);
    } else {
      assert names[..k] == names;
    }
  }

  /** FirstOfKey below the last position does not depend on the last name. */
  lemma FirstOfKeyPrefix(types: map<string, TypeInformation>, names: seq<string>, i: int)
    requires |names| > 0 && 0 <= i < |names| - 1
    ensures FirstOfKey(types, names, i) <==> FirstOfKey(types, names[..|names| - 1], i)
  {
    var prefix := names[..|names| - 1];
    assert forall j :: 0 <= j <= i ==> prefix[j] == names[j];
  }

  /** The last position is the first of its key exactly when its key is new. */
  lemma FirstOfKeyLast(types: map<string, TypeInformation>, names: seq<string>)
    requires |names| > 0 && forall j :: 0 <= j < |names| ==> names[j] in types
    ensures FirstOfKey(types, names, |names| - 1)
            <==> GroupKey(types[names[|names| - 1]]) !in KeySet(types, names[..|names| - 1])
  {
    var last := |names| - 1;
    var prefix := names[..last];
    var k := GroupKey(types[names[last]]);
    if k in KeySet(types, prefix) {
      var j :| 0 <= j < |prefix| && prefix[j] in types && GroupKey(types[prefix[j]]) == k;
      assert GroupKey(types[names[j]]) == k;
    }
    if !FirstOfKey(types, names, last) {
      var j :| 0 <= j < last && GroupKey(types[names[j]]) == k;
      assert prefix[j] == names[j];
    }
  }

  lemma KeySetSnoc(types: map<string, TypeInformation>, names: seq<string>)
    requires |names| > 0 && names[|names| - 1] in types
    ensures KeySet(types, names)
            == KeySet(types, names[..|names| - 1]) + {GroupKey(types[names[|names| - 1]])}
  {
    var prefix := names[..|names| - 1];
    assert forall j :: 0 <= j < |prefix| ==> prefix[j] == names[j];
  }

  /** Every name of the list is registered. */
  ghost predicate AllRegistered(types: map<string, TypeInformation>, names: seq<string>)
  {
    forall i :: 0 <= i < |names| ==> names[i] in types
  }

  /** The import for every key is the one built from the first type seen with that key. */
  ghost predicate FirstImports(types: map<string, TypeInformation>, env: Env, base: string,
                               names: seq<string>, m: map<string, Dependency>)
  {
    forall i :: FirstOfKey(types, names, i) ==>
      GroupKey(types[names[i]]) in m
      && NewDependency(env, base, types[names[i]]) == Ok(m[GroupKey(types[names[i]])])
  }

  /** Every key of `m` is the key of the first type seen with it. */
  ghost predicate Witnessed(types: map<string, TypeInformation>, names: seq<string>, m: map<string, Dependency>)
  {
    forall k :: k in m ==> exists i :: FirstOfKey(types, names, i) && GroupKey(types[names[i]]) == k
  }

  /**
   * `m` is a correct grouping of `names`: every name is registered, there is
   * one import per distinct grouping key of the names and no other, and the
   * import for a key is the one built from the first type seen with that key.
   */
  ghost predicate Describes(types: map<string, TypeInformation>, env: Env, base: string,
                            names: seq<string>, m: map<string, Dependency>)
  {
    && AllRegistered(types, names)
    && m.Keys == KeySet(types, names)
    && FirstImports(types, env, base, names, m)
    && Witnessed(types, names, m)
  }

  lemma StepRegistered(types: map<string, TypeInformation>, names: seq<string>)
    requires |names| > 0 && AllRegistered(types, names[..|names| - 1]) && names[|names| - 1] in types
    ensures AllRegistered(types, names)
  {
    assert forall i :: 0 <= i < |names| - 1 ==> names[i] == names[..|names| - 1][i];
  }

  lemma StepKeys(types: map<string, TypeInformation>, env: Env, base: string,
                 names: seq<string>, acc: map<string, Dependency>)
    requires |names| > 0 && acc.Keys == KeySet(types, names[..|names| - 1])
    requires GroupStep(types, env, base, acc, names[|names| - 1]).Ok?
    ensures GroupStep(types, env, base, acc, names[|names| - 1]).value.Keys == KeySet(types, names)
  {
    KeySetSnoc(types, names);
  }

  lemma StepFirstImports(types: map<string, TypeInformation>, env: Env, base: string,
                         names: seq<string>, acc: map<string, Dependency>)
    requires |names| > 0 && AllRegistered(types, names)
    requires acc.Keys == KeySet(types, names[..|names| - 1])
    requires FirstImports(types, env, base, names[..|names| - 1], acc)
    requires GroupStep(types, env, base, acc, names[|names| - 1]).Ok?
    ensures FirstImports(types, env, base, names, GroupStep(types, env, base, acc, names[|names| - 1]).value)
  {
    var last := |names| - 1;
    var m := GroupStep(types, env, base, acc, names[last]).value;
    FirstOfKeyLast(types, names);
    forall i | FirstOfKey(types, names, i)
      ensures GroupKey(types[names[i]]) in m
      ensures NewDependency(env, base, types[names[i]]) == Ok(m[GroupKey(types[names[i]])])
    {
      if i < last {
        FirstOfKeyPrefix(types, names, i);
        assert names[i] == names[..last][i];
      }
    }
  }

  lemma StepWitnessed(types: map<string, TypeInformation>, env: Env, base: string,
                      names: seq<string>, acc: map<string, Dependency>)
    requires |names| > 0 && AllRegistered(types, names)
    requires acc.Keys == KeySet(types, names[..|names| - 1])
    requires Witnessed(types, names[..|names| - 1], acc)
    requires GroupStep(types, env, base, acc, names[|names| - 1]).Ok?
    ensures Witnessed(types, names, GroupStep(types, env, base, acc, names[|names| - 1]).value)
  {
    var last := |names| - 1;
    var prefix := names[..last];
    var m := GroupStep(types, env, base, acc, names[last]).value;
    FirstOfKeyLast(types, names);
    forall key | key in m
      ensures exists i :: FirstOfKey(types, names, i) && GroupKey(types[names[i]]) == key
    {
      if key in acc {
        var i :| FirstOfKey(types, prefix, i) && GroupKey(types[prefix[i]]) == key;
        FirstOfKeyPrefix(types, names, i);
        assert names[i] == prefix[i];
      } else {
        assert FirstOfKey(types, names, last);
      }
    }
  }

  /** One step of the grouping keeps the description true. */
  lemma DescribesStep(types: map<string, TypeInformation>, env: Env, base: string,
                      names: seq<string>, acc: map<string, Dependency>)
    requires |names| > 0
    requires Describes(types, env, base, names[..|names| - 1], acc)
    requires GroupStep(types, env, base, acc, names[|names| - 1]).Ok?
    ensures Describes(types, env, base, names, GroupStep(types, env, base, acc, names[|names| - 1]).value)
  {
    StepRegistered(types, names);
    StepKeys(types, env, base, names, acc);
    StepFirstImports(types, env, base, names, acc);
    StepWitnessed(types, env, base, names, acc);
  }

  /** What a successful grouping holds (see Describes), and how many imports it yields. */
  lemma {:induction false} GroupSound(types: map<string, TypeInformation>, env: Env, base: string,
                                      names: seq<string>)
    requires Group(types, env, base, names).Ok?
    ensures Describes(types, env, base, names, Group(types, env, base, names).value)
    ensures |Group(types, env, base, names).value| == |KeySet(types, names)|
    decreases |names|
  {
    if names != [] {
      var prefix := names[..|names| - 1];
      GroupSound(types, env, base, prefix);
      DescribesStep(types, env, base, names, Group(types, env, base, prefix).value);
    }
    assert Group(types, env, base, names).value.Keys == KeySet(types, names);
  }

  /**
   * The grouping succeeds exactly when every name is registered and the relative
   * path can be computed for the first type of every key.
   */
  lemma {:induction false} GroupSucceedsIff(types: map<string, TypeInformation>, env: Env, base: string,
                                            names: seq<string>)
    ensures Group(types, env, base, names).Ok?
            <==> (forall i :: 0 <= i < |names| ==> names[i] in types)
                 && (forall i :: FirstOfKey(types, names, i) ==>
                       env.rel(base, env.getTSFileName(types[names[i]].file)).Some?)
    decreases |names|
  {
    if Group(types, env, base, names).Ok? {
      GroupSound(types, env, base, names);
    } else if names != [] && forall i :: 0 <= i < |names| ==> names[i] in types {
      var last := |names| - 1;
      var prefix := names[..last];
      GroupSucceedsIff(types, env, base, prefix);
      forall i | 0 <= i < last {
        FirstOfKeyPrefix(types, names, i);
      }
      if Group(types, env, base, prefix).Ok? {
        GroupSound(types, env, base, prefix);
        FirstOfKeyLast(types, names);
      } else {
        assert exists i :: FirstOfKey(types, prefix, i)
                 && env.rel(base, env.getTSFileName(types[prefix[i]].file)).None?;
      }
    }
  }

  /**
   * `e` is a cause the list can give: an unregistered type name of the list,
   * or the failed path from the file to the target of the first type of some key.
   */
  ghost predicate CauseOf(types: map<string, TypeInformation>, env: Env, base: string,
                          names: seq<string>, e: Error)
  {
    match e
    case MissingType(n) => n in names && n !in types
    case RelFailed(b, target) =>
      b == base && env.rel(base, target).None? &&
      exists i :: FirstOfKey(types, names, i) && target == env.getTSFileName(types[names[i]].file)
  }

  /** A cause of a prefix is a cause of the whole list. */
  lemma CauseOfPrefix(types: map<string, TypeInformation>, env: Env, base: string,
                      names: seq<string>, e: Error)
    requires |names| > 0 && CauseOf(types, env, base, names[..|names| - 1], e)
    ensures CauseOf(types, env, base, names, e)
  {
    var prefix := names[..|names| - 1];
    if e.RelFailed? {
      var i :| FirstOfKey(types, prefix, i) && e.target == env.getTSFileName(types[prefix[i]].file);
      FirstOfKeyPrefix(types, names, i);
      assert names[i] == prefix[i];
    } else {
      assert e.typeName in prefix;
    }
  }

  /** A failing step after a successful prefix fails for a cause of the list. */
  lemma CauseOfStep(types: map<string, TypeInformation>, env: Env, base: string,
                    names: seq<string>, acc: map<string, Dependency>)
    requires |names| > 0 && Describes(types, env, base, names[..|names| - 1], acc)
    requires GroupStep(types, env, base, acc, names[|names| - 1]).Err?
    ensures CauseOf(types, env, base, names, GroupStep(types, env, base, acc, names[|names| - 1]).error)
  {
    var last := |names| - 1;
    if names[last] in types {
      StepRegistered(types, names);
      FirstOfKeyLast(types, names);
    }
  }

  /** A failed grouping names its cause (see CauseOf). */
  lemma {:induction false} GroupErrorCause(types: map<string, TypeInformation>, env: Env, base: string,
                                           names: seq<string>)
    requires Group(types, env, base, names).Err?
    ensures CauseOf(types, env, base, names, Group(types, env, base, names).error)
    decreases |names|
  {
    var prefix := names[..|names| - 1];
    if Group(types, env, base, prefix).Err? {
      GroupErrorCause(types, env, base, prefix);
      CauseOfPrefix(types, env, base, names, Group(types, env, base, prefix).error);
    } else {
      GroupSound(types, env, base, prefix);
      CauseOfStep(types, env, base, names, Group(types, env, base, prefix).value);
    }
  }

  /** An unregistered name anywhere in the list makes the grouping fail. */
  lemma UnregisteredNameFails(types: map<string, TypeInformation>, env: Env, base: string,
                              names: seq<string>, i: int)
    requires 0 <= i < |names| && names[i] !in types
    ensures Group(types, env, base, names).Err?
  {
    GroupSucceedsIff(types, env, base, names);
  }

  /** A file that depends on no external type gets no imports. */
  lemma GroupOfNothing(types: map<string, TypeInformation>, env: Env, base: string)
    ensures Group(types, env, base, []) == Ok(map[])
  {
  }

  /**
   * However many names share one grouping key, they yield one import: a list
   * whose names all share a key groups into exactly one import, and the empty
   * list into none.
   */
  lemma OneKeyOneImport(types: map<string, TypeInformation>, env: Env, base: string,
                        names: seq<string>, key: string)
    requires Group(types, env, base, names).Ok?
    requires forall i :: 0 <= i < |names| && names[i] in types ==> GroupKey(types[names[i]]) == key
    ensures |Group(types, env, base, names).value| <= 1
    ensures names != [] ==> |Group(types, env, base, names).value| == 1
    ensures names == [] ==> |Group(types, env, base, names).value| == 0
  {
    GroupSound(types, env, base, names);
    assert KeySet(types, names) <= {key};
    if names != [] {
      assert names[0] in types;
      assert GroupKey(types[names[0]]) in KeySet(types, names);
      assert KeySet(types, names) == {key};
    }
  }
}
