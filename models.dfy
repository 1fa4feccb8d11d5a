/**
 * The entities of the project model: file references, groups and targets.
 * All of them are values: the model is built once and only read afterwards.
 */
module Models {
  import opened Strings
  import opened Language

  /**
   * A file reference. The source compares and hashes files by `filepath`
   * alone; declarations are attached by the source scanners (an unscanned
   * file has none).
   */
  datatype XcFile = XcFile(filepath: string, swiftTypes: seq<SwiftType>, objcTypes: seq<ObjcType>)
  {
    /** The last `/`-separated segment of the path. */
    function Filename(): (r: string)
      ensures '/' !in r && EndsWith(filepath, r)
      ensures '/' !in filepath ==> r == filepath
      ensures '/' in filepath ==> EndsWith(filepath, "/" + r)
    {
      LastSegment(filepath, '/')
    }

    /** The declarations of this file whose kind is not excluded, in declaration order. */
    function SwiftTypesFiltered(typeNotIn: set<SwiftTypeType>): (r: seq<SwiftType>)
      ensures forall t :: t in r <==> t in swiftTypes && t.typeIdentifier !in typeNotIn
    {
      SwiftAllComplete();
      SwiftOfKinds(swiftTypes, SwiftAll - typeNotIn)
    }

    /** The extension declarations of this file, in declaration order. */
    function SwiftExtensions(): (r: seq<SwiftType>)
      ensures forall t :: t in r <==> t in swiftTypes && t.typeIdentifier == Extension
    {
      SwiftOfKinds(swiftTypes, {Extension})
    }
  }

  /**
   * A group of the project navigator: `groupPath` is its logical path (its
   * identity), `filepath` its on-disk path. Child groups are held by value,
   * so the group structure is a finite tree.
   */
  datatype XcGroup = XcGroup(
    groupPath: string,
    filepath: string,
    isProjectRelative: bool,
    groups: seq<XcGroup>,
    files: set<XcFile>,
    isVariant: bool)
  {
    predicate HasFolder() {
      groupPath == filepath
    }

    /** The source's group equality: same group path. */
    predicate SameGroup(other: XcGroup) {
      groupPath == other.groupPath
    }
  }

  datatype TargetType =
    | Test | UiTest | Framework | AppExtension | WatchExtension | Application | WatchApplication | Other

  /** What identifies a target: its type and its name. */
  datatype TargetKey = TargetKey(targetType: TargetType, name: string)

  /**
   * A build target with its four file buckets (one per build phase kind) and
   * its three dependency sets, each naming other targets by their identity.
   */
  datatype XcTarget = XcTarget(
    name: string,
    targetType: TargetType,
    productName: string,
    dependencies: set<TargetKey>,
    linkedFrameworks: set<TargetKey>,
    embedFrameworks: set<TargetKey>,
    sourceFiles: set<XcFile>,
    resourceFiles: set<XcFile>,
    headerFiles: set<XcFile>,
    linkedFiles: set<XcFile>)
  {
    function Key(): TargetKey {
      TargetKey(targetType, name)
    }

    /** Every file of the target: exactly what is in one of its four buckets. */
    function Files(): (r: set<XcFile>)
      ensures sourceFiles <= r && resourceFiles <= r && headerFiles <= r && linkedFiles <= r
      ensures forall f :: f in r ==> f in sourceFiles || f in resourceFiles || f in headerFiles || f in linkedFiles
    {
      sourceFiles + resourceFiles + headerFiles + linkedFiles
    }

    /** The `.swift` source files. */
    function SwiftFiles(): (r: set<XcFile>)
      ensures r <= sourceFiles
      ensures forall f :: f in sourceFiles ==> (f in r <==> EndsWith(f.filepath, ".swift"))
    {
      set f | f in sourceFiles && EndsWith(f.filepath, ".swift")
    }

    /** The `.h` header files. */
    function HFiles(): (r: set<XcFile>)
      ensures r <= headerFiles
      ensures forall f :: f in headerFiles ==> (f in r <==> EndsWith(f.filepath, ".h"))
    {
      set f | f in headerFiles && EndsWith(f.filepath, ".h")
    }

    /** The `.m` source files. */
    function MFiles(): (r: set<XcFile>)
      ensures r <= sourceFiles
      ensures forall f :: f in sourceFiles ==> (f in r <==> EndsWith(f.filepath, ".m"))
    {
      set f | f in sourceFiles && EndsWith(f.filepath, ".m")
    }

    /**
     * The Objective-C files: `.h` headers and `.m` sources. None of them is a
     * Swift file of the target.
     */
    function ObjcFiles(): (r: set<XcFile>)
      ensures r <= Files()
      ensures forall f :: f in r <==> (f in headerFiles && EndsWith(f.filepath, ".h")) || (f in sourceFiles && EndsWith(f.filepath, ".m"))
      ensures r !! SwiftFiles()
    {
      forall f | f in sourceFiles ensures !(EndsWith(f.filepath, ".swift") && EndsWith(f.filepath, ".m")) {
        SuffixesExclusive(f.filepath, ".swift", ".m");
      }
      forall f | f in headerFiles ensures !(EndsWith(f.filepath, ".swift") && EndsWith(f.filepath, ".h")) {
        SuffixesExclusive(f.filepath, ".swift", ".h");
      }
      HFiles() + MFiles()
    }
  }

  function TargetName(t: XcTarget): string { t.name }

  function KeyName(k: TargetKey): string { k.name }
}
