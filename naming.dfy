/**
 * The registry's naming helpers: the package-level identifier of a nested
 * declaration, the dotted prefix of its enclosing types, and the test that
 * decides whether a fully qualified type name lies outside the package being
 * analysed.
 */
module Naming {
  import opened GoStrings

  /**
   * The identifier of a declaration at package level: the names of the
   * enclosing types and the local name, concatenated with no separator.
   */
  function GetNameOfPackageLevelIdentifier(parents: seq<string>, name: string): (r: string)
    ensures r == Flatten(parents) + name
    ensures |r| == TotalLength(parents) + |name|
    ensures parents == [] ==> r == name
  {
    JoinEmptySeparator(parents);
    FlattenLength(parents);
    Join(parents, "") + name
  }

  /**
   * The dotted prefix that the enclosing type names contribute to a fully
   * qualified name: every parent followed by `.`, or "" at the top level.
   */
  function GetParentPrefixes(parents: seq<string>): (r: string)
    ensures r == Terminated(parents, ".")
    ensures r == "" <==> parents == []
    ensures parents != [] ==> r[|r| - 1] == '.'
    ensures |r| == TotalLength(parents) + |parents|
  {
    TerminatedLength(parents, ".");
    if |parents| > 0 then
      JoinThenSeparator(parents, ".");
      Join(parents, ".") + "."
    else
      ""
  }

  /** Entering one more nesting level extends the prefix by that name and a dot. */
  lemma ParentPrefixesNest(parents: seq<string>, inner: string)
    ensures GetParentPrefixes(parents + [inner]) == GetParentPrefixes(parents) + inner + "."
  {
    TerminatedSnoc(parents, inner, ".");
  }

  /**
   * `isExternalDependencies` as written: the name is package-rooted and does
   * not start with "." followed by the package name. There is no check that
   * the package name is followed by a dot.
   */
  function IsExternalDependencies(fqTypeName: string, packageName: string): (r: bool)
    ensures r <==> |fqTypeName| > 0 && fqTypeName[0] == '.' && !("." + packageName <= fqTypeName)
  {
    IndexZeroIsPrefix(fqTypeName, "." + packageName);
    IndexZeroIsPrefix(fqTypeName, ".");
    Index(fqTypeName, "." + packageName) != 0 && Index(fqTypeName, ".") == 0
  }

  /** A name that is not package-rooted is never external. */
  lemma NotRootedIsNotExternal(fqTypeName: string, packageName: string)
    requires fqTypeName == [] || fqTypeName[0] != '.'
    ensures !IsExternalDependencies(fqTypeName, packageName)
  {
  }

  /** With the empty package name nothing is external. */
  lemma EmptyPackageHasNoExternals(fqTypeName: string)
    ensures !IsExternalDependencies(fqTypeName, "")
  {
  }

  /** A name under the package itself is not external. */
  lemma OwnPackageIsNotExternal(packageName: string, rest: string)
    ensures !IsExternalDependencies("." + packageName + rest, packageName)
  {
    assert "." + packageName <= "." + packageName + rest;
  }

  /**
   * The prefix test is unbounded: a type of package `pkg2` is taken to be
   * inside package `pkg`.
   */
  lemma PrefixPackageIsNotExternal()
    ensures !IsExternalDependencies(".pkg2.Foo", "pkg")
  {
    assert ".pkg" <= ".pkg2.Foo";
  }

  /** The name lies in package `packageName` itself or in one nested inside it. */
  predicate InPackage(fqTypeName: string, packageName: string)
  {
    fqTypeName == "." + packageName || "." + packageName + "." <= fqTypeName
  }

  /**
   * The externality test with the package name bounded by a dot or by the end
   * of the name. As in the code as written, the empty package treats nothing
   * as external.
   */
  function IsExternalBounded(fqTypeName: string, packageName: string): (r: bool)
    ensures IsExternalDependencies(fqTypeName, packageName) ==> r
    ensures r ==> |fqTypeName| > 0 && fqTypeName[0] == '.'
  {
    |fqTypeName| > 0 && fqTypeName[0] == '.' && packageName != "" && !InPackage(fqTypeName, packageName)
  }

  /** The corrected test treats a type of package `pkg2` as external to `pkg`. */
  lemma BoundedPrefixPackageIsExternal()
    ensures IsExternalBounded(".pkg2.Foo", "pkg")
    ensures !IsExternalBounded(".pkg.Foo", "pkg")
  {
    assert !(".pkg." <= ".pkg2.Foo") by {
      assert ".pkg2.Foo"[4] == '2';
    }
    assert ".pkg." <= ".pkg.Foo";
  }

  /** Under the corrected test nothing inside the package counts as external. */
  lemma BoundedOwnPackageIsNotExternal(packageName: string, rest: string)
    ensures !IsExternalBounded("." + packageName + "." + rest, packageName)
  {
    assert "." + packageName + "." <= "." + packageName + "." + rest;
  }

  /**
   * A dot-free segment between the leading dot and the next dot is determined
   * by the name.
   */
  lemma {:induction false} LeadingSegmentUnique(a: string, b: string, rest: string)
    requires '.' !in a && '.' !in b
    requires "." + b + "." <= "." + a + "." + rest
    ensures a == b
  {
    var fq := "." + a + "." + rest;
    var own := "." + b + ".";
    assert fq[|a| + 1] == '.';
    assert own[|b| + 1] == '.';
    if |a| == |b| {
      assert a == fq[1..|a| + 1] == own[1..|b| + 1] == b;
    }
  }

  /**
   * Under the corrected test a type of any other single-segment package is
   * external to a single-segment package.
   */
  lemma {:induction false} BoundedOtherPackageIsExternal(other: string, packageName: string, rest: string)
    requires packageName != "" && other != packageName
    requires '.' !in other && '.' !in packageName
    ensures IsExternalBounded("." + other + "." + rest, packageName)
  {
    var fq := "." + other + "." + rest;
    assert fq[|other| + 1] == '.';
    if "." + packageName + "." <= fq {
      LeadingSegmentUnique(other, packageName, rest);
    }
  }

  /**
   * The code as written and the corrected test disagree exactly on names that
   * start with "." and the package name, go on, and do not go on with a dot.
   */
  lemma {:induction false} BoundaryIsTheOnlyDifference(fqTypeName: string, packageName: string)
    ensures IsExternalBounded(fqTypeName, packageName) != IsExternalDependencies(fqTypeName, packageName)
            <==> packageName != "" && "." + packageName <= fqTypeName
                 && |fqTypeName| > |packageName| + 1 && fqTypeName[|packageName| + 1] != '.'
  {
    var p := "." + packageName;
    if packageName != "" && p <= fqTypeName && |fqTypeName| > |packageName| + 1
       && fqTypeName[|packageName| + 1] == '.' {
      assert fqTypeName[..|p| + 1] == p + ".";
    }
  }
}
