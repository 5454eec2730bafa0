/**
 * The values the type registry stores and produces: the information recorded
 * for every declared type, the key/value descriptors of synthetic map-entry
 * types, the import records appended to generated files, and the
 * collaborators from outside the registry that the dependency pass calls.
 */
module RegistryTypes {
  import opened Wrappers

  /**
   * descriptorpb.FieldDescriptorProto_Type, kept opaque except for the two
   * kinds the generator tells apart.
   */
  datatype ProtoType = TypeMessage | TypeEnum | OtherProtoType(code: int)

  /** The key or the value type of a map entry, with its externality flag. */
  datatype MapEntryType = MapEntryType(typeName: string, isExternal: bool)

  /** data.TypeInfo, the field type description handed to the renderer. */
  datatype TypeInfo = TypeInfo(typeName: string, isRepeated: bool, isExternal: bool)

  /**
   * The renderer's view of a map key or value: same type name and
   * externality, never repeated.
   */
  function GetType(m: MapEntryType): (t: TypeInfo)
    ensures !t.isRepeated
    ensures MapEntryType(t.typeName, t.isExternal) == m
  {
    TypeInfo(m.typeName, false, m.isExternal)
  }

  /** The information recorded for one declared type, keyed by its fully qualified name. */
  datatype TypeInformation = TypeInformation(
    fullyQualifiedName: string,
    package: string,
    file: string,
    packageIdentifier: string,
    localIdentifier: string,
    protoType: ProtoType,
    isMapEntry: bool,
    keyType: Option<MapEntryType>,
    valueType: Option<MapEntryType>)

  /** One import of a generated file: `import * as moduleIdentifier from 'sourceFile'`. */
  datatype Dependency = Dependency(moduleIdentifier: string, sourceFile: string)

  /**
   * The collaborators the dependency pass calls and that this model does not
   * define: data.GetTSFileName, data.GetModuleName and filepath.Rel, which may
   * fail.
   */
  datatype Env = Env(
    getTSFileName: string -> string,
    getModuleName: (string, string) -> string,
    rel: (string, string) -> Option<string>)

  /** Why the dependency pass gave up. */
  datatype Error =
    | MissingType(typeName: string)
    | RelFailed(base: string, target: string)

  /** The grouping key of a type: its package and its declaring file, joined by "|". */
  function GroupKey(t: TypeInformation): string
  {
    t.package + "|" + t.file
  }

  /**
   * As long as package names contain no "|", two types share a grouping key
   * exactly when they share both package and declaring file.
   */
  lemma {:induction false} GroupKeyInjective(t1: TypeInformation, t2: TypeInformation)
    requires '|' !in t1.package && '|' !in t2.package
    ensures GroupKey(t1) == GroupKey(t2) <==> t1.package == t2.package && t1.file == t2.file
  {
    var k1, k2 := GroupKey(t1), GroupKey(t2);
    if k1 == k2 {
      var p1, p2 := t1.package, t2.package;
      assert k1[|p1|] == '|' && k2[|p2|] == '|';
      assert p1 == k1[..|p1|] == k2[..|p2|] == p2;
      assert t1.file == k1[|p1| + 1..] == k2[|p2| + 1..] == t2.file;
    }
  }
}
