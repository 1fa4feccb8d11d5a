/**
 * The computations behind the project reports: duplicate and missing
 * Objective-C file names, files shared between targets, the file summary,
 * orphan files, the group summary and the nonregular files. Each returns
 * what the report would print.
 */
module Reporters {
  import opened Common
  import opened Strings
  import opened Sorting
  import opened Models
  import opened GroupTree
  import opened Project

  // ---------------------------------------------------------------------
  // Missing Objective-C files

  /** A file name without its final two characters: the base name of a `.h` or `.m` file. */
  function BaseName(f: XcFile): string {
    DropLastTwo(f.Filename())
  }

  /** The base name followed by the two-character extension is the file name. */
  lemma BaseNameSplit(f: XcFile)
    ensures |f.Filename()| >= 2 ==> BaseName(f) + f.Filename()[|f.Filename()| - 2..] == f.Filename()
    ensures |f.Filename()| < 2 ==> BaseName(f) == []
  {
  }

  /** Whether a file's name ends in `ext`. */
  function EndsIn(ext: string): XcFile -> bool {
    (f: XcFile) => EndsWith(f.Filename(), ext)
  }

  /** The base names of the files of `s` whose file name ends in `ext`. */
  function NamesWith(s: set<XcFile>, ext: string): set<string> {
    KeysWhere(s, EndsIn(ext), BaseName)
  }

  /** The base names that a file of `s` ending in `ext` shares with another such file. */
  function DuplicateNames(s: set<XcFile>, ext: string): set<string> {
    SharedKeys(s, EndsIn(ext), BaseName)
  }

  /** Two different files of `s`, both ending in `ext`, with base name `n`. */
  predicate NamePair(s: set<XcFile>, ext: string, n: string, f: XcFile, g: XcFile) {
    f in s && g in s && f != g && EndsIn(ext)(f) && EndsIn(ext)(g) && BaseName(f) == n && BaseName(g) == n
  }

  /** A duplicate name is the base name of two different files ending in `ext`, and conversely. */
  lemma DuplicateNamesMeans(s: set<XcFile>, ext: string, n: string)
    ensures n in DuplicateNames(s, ext) <==> exists f, g :: NamePair(s, ext, n, f, g)
  {
    if n in DuplicateNames(s, ext) {
      var f :| f in s && EndsIn(ext)(f) && BaseName(f) in KeysWhere(s - {f}, EndsIn(ext), BaseName) && n == BaseName(f);
      var g :| g in s - {f} && EndsIn(ext)(g) && BaseName(g) == n;
      assert NamePair(s, ext, n, f, g);
    }
    forall f, g | NamePair(s, ext, n, f, g) ensures n in DuplicateNames(s, ext) {
      PairIsDuplicate(s, ext, n, f, g);
    }
  }

  lemma PairIsDuplicate(s: set<XcFile>, ext: string, n: string, f: XcFile, g: XcFile)
    requires NamePair(s, ext, n, f, g)
    ensures n in DuplicateNames(s, ext)
  {
    var rest := s - {f};
    assert g in rest;
    assert n in KeysWhere(rest, EndsIn(ext), BaseName);
  }

  /** What `print_missing_objc_files` lists, each list sorted. */
  datatype ObjcNameReport = ObjcNameReport(
    duplicateH: seq<string>,
    duplicateM: seq<string>,
    missingH: seq<string>,
    missingM: seq<string>)

  /**
   * The base names of the files of `s` ending in `.h` and in `.m`, with the
   * duplicates of each, accumulated file after file in iteration order.
   */
  method CollectObjcNames(s: set<XcFile>)
    returns (hNames: set<string>, mNames: set<string>, duplicateH: set<string>, duplicateM: set<string>)
    ensures hNames == NamesWith(s, ".h") && mNames == NamesWith(s, ".m")
    ensures duplicateH == DuplicateNames(s, ".h") && duplicateM == DuplicateNames(s, ".m")
  {
    hNames, mNames, duplicateH, duplicateM := {}, {}, {}, {};
    var rest := s;
    ghost var seen: set<XcFile> := {};
    while rest != {}
      invariant seen + rest == s && seen !! rest
      invariant hNames == NamesWith(seen, ".h") && mNames == NamesWith(seen, ".m")
      invariant duplicateH == DuplicateNames(seen, ".h") && duplicateM == DuplicateNames(seen, ".m")
      decreases |rest|
    {
      var f :| f in rest;
      MoveElement(seen, rest, f);
      hNames, duplicateH := NoteName(f, ".h", hNames, duplicateH, seen);
      mNames, duplicateM := NoteName(f, ".m", mNames, duplicateM, seen);
      rest := rest - {f};
      seen := seen + {f};
    }
  }

  /** One file of the loop, for one extension, in terms of the two sets it updates. */
  /**
   * One file of `collect_objc_names` for one extension: a file whose name
   * ends in `ext` adds its base name, and a base name already there is a
   * duplicate.
   */
  method NoteName(f: XcFile, ext: string, names: set<string>, duplicates: set<string>, ghost seen: set<XcFile>)
    returns (names': set<string>, duplicates': set<string>)
    requires f !in seen
    requires names == NamesWith(seen, ext) && duplicates == DuplicateNames(seen, ext)
    ensures names' == NamesWith(seen + {f}, ext) && duplicates' == DuplicateNames(seen + {f}, ext)
  {
    ObjcNamesStep(seen, f, ext, names, duplicates);
    names', duplicates' := names, duplicates;
    var filename := f.Filename();
    var baseFilename := DropLastTwo(filename);
    if EndsWith(filename, ext) {
      if baseFilename in names {
        duplicates' := duplicates' + {baseFilename};
      }
      names' := names' + {baseFilename};
    }
  }

  lemma ObjcNamesStep(seen: set<XcFile>, f: XcFile, ext: string, names: set<string>, duplicates: set<string>)
    requires f !in seen
    requires names == NamesWith(seen, ext) && duplicates == DuplicateNames(seen, ext)
    ensures NamesWith(seen + {f}, ext) == (if EndsIn(ext)(f) then names + {BaseName(f)} else names)
    ensures DuplicateNames(seen + {f}, ext) ==
              (if EndsIn(ext)(f) && BaseName(f) in names then duplicates + {BaseName(f)} else duplicates)
  {
    KeysWhereAdd(seen, f, EndsIn(ext), BaseName);
    SharedKeysAdd(seen, f, EndsIn(ext), BaseName);
  }

  /**
   * `print_missing_objc_files`: duplicate `.h` and `.m` base names among the
   * project's Objective-C files, `.m` names without a `.h`, and `.h` names
   * without a `.m`.
   */
  method MissingObjcFiles(p: XcProject) returns (r: ObjcNameReport)
    ensures IsEnumeration(r.duplicateH, DuplicateNames(p.ObjcFileSet(), ".h")) && SortedBy(r.duplicateH, Ident)
    ensures IsEnumeration(r.duplicateM, DuplicateNames(p.ObjcFileSet(), ".m")) && SortedBy(r.duplicateM, Ident)
    ensures IsEnumeration(r.missingH, NamesWith(p.ObjcFileSet(), ".m") - NamesWith(p.ObjcFileSet(), ".h"))
    ensures SortedBy(r.missingH, Ident)
    ensures IsEnumeration(r.missingM, NamesWith(p.ObjcFileSet(), ".h") - NamesWith(p.ObjcFileSet(), ".m"))
    ensures SortedBy(r.missingM, Ident)
  {
    var objcFiles := p.ObjcFiles();
    var hNames, mNames, duplicateH, duplicateM := CollectObjcNames(objcFiles);
    var duplicateHList := SortedElements(duplicateH);
    var duplicateMList := SortedElements(duplicateM);
    var missingHList := SortedElements(mNames - hNames);
    var missingMList := SortedElements(hNames - mNames);
    r := ObjcNameReport(duplicateHList, duplicateMList, missingHList, missingMList);
  }

  function FileAt(path: string): XcFile {
    XcFile(path, [], [])
  }

  /** `A.h`, `A.m`, `B.h`, `B.m` and a second `B.h` in another directory. */
  function SampleObjcFiles(): set<XcFile> {
    {FileAt("A.h"), FileAt("A.m"), FileAt("B.h"), FileAt("B.m"), FileAt("x/B.h")}
  }

  lemma PlainBaseName(path: string)
    requires '/' !in path && |path| >= 2
    ensures FileAt(path).Filename() == path && BaseName(FileAt(path)) == path[..|path| - 2]
  {
  }

  lemma NestedSampleName()
    ensures FileAt("x/B.h").Filename() == "B.h" && BaseName(FileAt("x/B.h")) == "B"
  {
    assert "x/B.h"[1..] == "/B.h" && "/B.h"[1..] == "B.h";
    assert Split("B.h", '/') == ["B.h"];
    assert Split("/B.h", '/') == [[]] + ["B.h"];
    assert "x/B.h"[0] == 'x' && "x/B.h"[0] != '/';
    assert ['x'] + [] == "x";
    assert Split("x/B.h", '/') == ["x", "B.h"];
  }

  /**
   * Five files, two named `A` and three named `B`, listed in `order`: the
   * names ending in `ext` and their duplicates, with one step per file.
   */
  lemma FiveObjcFiles(ah: XcFile, am: XcFile, bh: XcFile, bm: XcFile, bh2: XcFile)
    requires bh != bh2
    requires BaseName(ah) == "A" && BaseName(am) == "A"
    requires BaseName(bh) == "B" && BaseName(bm) == "B" && BaseName(bh2) == "B"
    requires EndsIn(".h")(ah) && EndsIn(".h")(bh) && EndsIn(".h")(bh2) && !EndsIn(".h")(am) && !EndsIn(".h")(bm)
    requires EndsIn(".m")(am) && EndsIn(".m")(bm) && !EndsIn(".m")(ah) && !EndsIn(".m")(bh) && !EndsIn(".m")(bh2)
    ensures var s := {ah, am, bh, bm, bh2};
      && DuplicateNames(s, ".h") == {"B"} && DuplicateNames(s, ".m") == {}
      && NamesWith(s, ".h") == {"A", "B"} && NamesWith(s, ".m") == {"A", "B"}
  {
    FiveFilesOneExtension(ah, am, bh, bm, bh2, ".h", {"B"});
    FiveFilesOneExtension(ah, am, bh, bm, bh2, ".m", {});
  }

  lemma FiveFilesOneExtension(ah: XcFile, am: XcFile, bh: XcFile, bm: XcFile, bh2: XcFile, ext: string, shared: set<string>)
    requires ah != am && ah != bh && ah != bm && ah != bh2 && am != bh && am != bm && am != bh2 && bh != bm && bm != bh2 && bh != bh2
    requires BaseName(ah) == "A" && BaseName(am) == "A"
    requires BaseName(bh) == "B" && BaseName(bm) == "B" && BaseName(bh2) == "B"
    requires EndsIn(ext)(ah) != EndsIn(ext)(am) && EndsIn(ext)(bh) != EndsIn(ext)(bm) && EndsIn(ext)(bh) == EndsIn(ext)(bh2)
    requires shared == if EndsIn(ext)(bh) then {"B"} else {}
    ensures DuplicateNames({ah, am, bh, bm, bh2}, ext) == shared
    ensures NamesWith({ah, am, bh, bm, bh2}, ext) == {"A", "B"}
  {
    FiveKeys(ah, am, bh, bm, bh2, EndsIn(ext), BaseName, "A", "B");
  }

  /** Adding five elements, two with key `a` and three with key `b`, one at a time. */
  lemma FiveKeys<T, K>(x1: T, x2: T, x3: T, x4: T, x5: T, keep: T -> bool, key: T -> K, a: K, b: K)
    requires x1 != x2 && x1 != x3 && x1 != x4 && x1 != x5 && x2 != x3 && x2 != x4 && x2 != x5 && x3 != x4 && x3 != x5 && x4 != x5
    requires a != b && key(x1) == a && key(x2) == a && key(x3) == b && key(x4) == b && key(x5) == b
    requires keep(x1) != keep(x2) && keep(x3) != keep(x4) && keep(x3) == keep(x5)
    ensures KeysWhere({x1, x2, x3, x4, x5}, keep, key) == {a, b}
    ensures SharedKeys({x1, x2, x3, x4, x5}, keep, key) == if keep(x3) then {b} else {}
  {
    ThreeKeys(x1, x2, x3, keep, key, a, b);
    var s3 := {x1, x2, x3};
    KeysWhereAdd(s3, x4, keep, key);
    SharedKeysAdd(s3, x4, keep, key);
    assert s3 + {x4} == {x1, x2, x3, x4};
    var s4 := {x1, x2, x3, x4};
    KeysWhereAdd(s4, x5, keep, key);
    SharedKeysAdd(s4, x5, keep, key);
    assert s4 + {x5} == {x1, x2, x3, x4, x5};
  }

  lemma ThreeKeys<T, K>(x1: T, x2: T, x3: T, keep: T -> bool, key: T -> K, a: K, b: K)
    requires x1 != x2 && x1 != x3 && x2 != x3
    requires a != b && key(x1) == a && key(x2) == a && key(x3) == b
    requires keep(x1) != keep(x2)
    ensures KeysWhere({x1, x2, x3}, keep, key) == {a} + (if keep(x3) then {b} else {})
    ensures SharedKeys({x1, x2, x3}, keep, key) == {}
  {
    KeysWhereAdd({}, x1, keep, key);
    SharedKeysAdd({}, x1, keep, key);
    assert {} + {x1} == {x1};
    KeysWhereAdd({x1}, x2, keep, key);
    SharedKeysAdd({x1}, x2, keep, key);
    assert {x1} + {x2} == {x1, x2};
    KeysWhereAdd({x1, x2}, x3, keep, key);
    SharedKeysAdd({x1, x2}, x3, keep, key);
    assert {x1, x2} + {x3} == {x1, x2, x3};
  }

  /** The base names and extension tests of the five sample files. */
  lemma SampleFacts()
    ensures BaseName(FileAt("A.h")) == "A" && EndsIn(".h")(FileAt("A.h")) && !EndsIn(".m")(FileAt("A.h"))
    ensures BaseName(FileAt("A.m")) == "A" && EndsIn(".m")(FileAt("A.m")) && !EndsIn(".h")(FileAt("A.m"))
    ensures BaseName(FileAt("B.h")) == "B" && EndsIn(".h")(FileAt("B.h")) && !EndsIn(".m")(FileAt("B.h"))
    ensures BaseName(FileAt("B.m")) == "B" && EndsIn(".m")(FileAt("B.m")) && !EndsIn(".h")(FileAt("B.m"))
    ensures BaseName(FileAt("x/B.h")) == "B" && EndsIn(".h")(FileAt("x/B.h")) && !EndsIn(".m")(FileAt("x/B.h"))
  {
    SampleHeader("A.h", "A");
    SampleImplementation("A.m", "A");
    SampleHeader("B.h", "B");
    SampleImplementation("B.m", "B");
    NestedSampleName();
    assert EndsWith("B.h", ".h") && !EndsWith("B.h", ".m");
  }

  lemma SampleHeader(path: string, base: string)
    requires path == base + ".h" && '/' !in path
    ensures BaseName(FileAt(path)) == base && EndsIn(".h")(FileAt(path)) && !EndsIn(".m")(FileAt(path))
  {
    PlainBaseName(path);
    assert path[..|path| - 2] == base;
    assert path[|path| - 2..] == ".h";
  }

  lemma SampleImplementation(path: string, base: string)
    requires path == base + ".m" && '/' !in path
    ensures BaseName(FileAt(path)) == base && EndsIn(".m")(FileAt(path)) && !EndsIn(".h")(FileAt(path))
  {
    PlainBaseName(path);
    assert path[..|path| - 2] == base;
    assert path[|path| - 2..] == ".m";
  }

  /** On the sample, `B` is a duplicate `.h` name and no name is missing. */
  lemma SampleObjcNames()
    ensures DuplicateNames(SampleObjcFiles(), ".h") == {"B"}
    ensures DuplicateNames(SampleObjcFiles(), ".m") == {}
    ensures NamesWith(SampleObjcFiles(), ".m") - NamesWith(SampleObjcFiles(), ".h") == {}
    ensures NamesWith(SampleObjcFiles(), ".h") - NamesWith(SampleObjcFiles(), ".m") == {}
  {
    SampleFacts();
    FiveObjcFiles(FileAt("A.h"), FileAt("A.m"), FileAt("B.h"), FileAt("B.m"), FileAt("x/B.h"));
  }

  // ---------------------------------------------------------------------
  // Files shared between targets

  /** The identities of the targets among `ts` that have `f` among their files. */
  function OwnersOf(ts: seq<XcTarget>, f: XcFile): set<TargetKey>
    decreases |ts|
  {
    if ts == [] then {}
    else
      var n := |ts| - 1;
      OwnersOf(ts[..n], f) + (if f in ts[n].Files() then {ts[n].Key()} else {})
  }

  /** The owners of `f` are the identities of the entries of `ts` that have it. */
  lemma {:induction false} OwnersOfMeans(ts: seq<XcTarget>, f: XcFile)
    ensures forall k :: k in OwnersOf(ts, f) <==> exists i :: 0 <= i < |ts| && f in ts[i].Files() && ts[i].Key() == k
    decreases |ts|
  {
    if ts != [] {
      var n := |ts| - 1;
      OwnersOfMeans(ts[..n], f);
      forall k ensures k in OwnersOf(ts, f) <==> exists i :: 0 <= i < |ts| && f in ts[i].Files() && ts[i].Key() == k {
        if exists i :: 0 <= i < |ts| && f in ts[i].Files() && ts[i].Key() == k {
          var i :| 0 <= i < |ts| && f in ts[i].Files() && ts[i].Key() == k;
          if i < n {
            assert ts[..n][i] == ts[i];
          }
        }
        if k in OwnersOf(ts[..n], f) {
          var i :| 0 <= i < n && f in ts[..n][i].Files() && ts[..n][i].Key() == k;
          assert ts[i] == ts[..n][i];
        }
      }
    }
  }

  /** Each file of a target of `ts`, with its owners: what `file_targets` holds at the end. */
  function OwnerMap(ts: seq<XcTarget>): map<XcFile, set<TargetKey>> {
    map f | f in FilesOfTargets(ts) :: OwnersOf(ts, f)
  }

  /** The entries of `m` with at least two owners. */
  function Shared(m: map<XcFile, set<TargetKey>>): (r: map<XcFile, set<TargetKey>>)
    ensures forall f :: f in r <==> f in m && |m[f]| >= 2
    ensures forall f :: f in r ==> r[f] == m[f]
  {
    map f | f in m && |m[f]| >= 2 :: m[f]
  }

  /** The files that at least two targets own, with their owners. */
  function SharedOwners(ts: seq<XcTarget>): map<XcFile, set<TargetKey>> {
    Shared(OwnerMap(ts))
  }

  /** Adding `key` to the owners of `file`, as the loop body does. */
  function WithOwner(m: map<XcFile, set<TargetKey>>, file: XcFile, key: TargetKey): map<XcFile, set<TargetKey>> {
    if file in m then m[file := m[file] + {key}] else m[file := {key}]
  }

  /** `file_targets` after the files `files` of the target `key` have been recorded. */
  method AddOwner(fileTargets: map<XcFile, set<TargetKey>>, files: set<XcFile>, key: TargetKey) returns (r: map<XcFile, set<TargetKey>>)
    ensures r == AddedOwners(fileTargets, files, key)
  {
    r := fileTargets;
    var rest := files;
    ghost var seen: set<XcFile> := {};
    AddedOwnersNone(fileTargets, key);
    while rest != {}
      invariant seen + rest == files && seen !! rest
      invariant r == AddedOwners(fileTargets, seen, key)
      decreases |rest|
    {
      var targetFile :| targetFile in rest;
      MoveElement(seen, rest, targetFile);
      AddedOwnersStep(fileTargets, seen, targetFile, key);
      if targetFile in r {
        r := r[targetFile := r[targetFile] + {key}];
      } else {
        r := r[targetFile := {key}];
      }
      rest := rest - {targetFile};
      seen := seen + {targetFile};
    }
  }

  /** `m` with `key` added to the owners of every file of `files`. */
  function AddedOwners(m: map<XcFile, set<TargetKey>>, files: set<XcFile>, key: TargetKey): (r: map<XcFile, set<TargetKey>>)
    ensures r.Keys == m.Keys + files
    ensures forall f :: f in r ==> r[f] == (if f in m then m[f] else {}) + (if f in files then {key} else {})
  {
    map f | f in m.Keys + files :: (if f in m then m[f] else {}) + (if f in files then {key} else {})
  }

  lemma AddedOwnersNone(m: map<XcFile, set<TargetKey>>, key: TargetKey)
    ensures AddedOwners(m, {}, key) == m
  {
    var r := AddedOwners(m, {}, key);
    assert r.Keys == m.Keys;
    forall f | f in r ensures r[f] == m[f] {
      assert r[f] == m[f] + {};
    }
  }

  lemma AddedOwnersStep(m: map<XcFile, set<TargetKey>>, seen: set<XcFile>, x: XcFile, key: TargetKey)
    requires x !in seen
    ensures AddedOwners(m, seen + {x}, key) == WithOwner(AddedOwners(m, seen, key), x, key)
  {
    var before := AddedOwners(m, seen, key);
    var a := AddedOwners(m, seen + {x}, key);
    var b := WithOwner(before, x, key);
    assert a.Keys == b.Keys;
    forall f | f in a ensures a[f] == b[f] {
      if f == x {
        assert a[f] == (if f in m then m[f] else {}) + {key};
        if f in before {
          assert before[f] == (if f in m then m[f] else {});
        }
      } else {
        assert a[f] == before[f];
      }
    }
    SameMap(a, b);
  }

  /** Recording the target `ts[i]` turns the owner map of `ts[..i]` into that of `ts[..i + 1]`. */
  lemma OwnersStep(ts: seq<XcTarget>, i: int)
    requires 0 <= i < |ts|
    ensures AddedOwners(OwnerMap(ts[..i]), ts[i].Files(), ts[i].Key()) == OwnerMap(ts[..i + 1])
  {
    var before := OwnerMap(ts[..i]);
    var after := AddedOwners(before, ts[i].Files(), ts[i].Key());
    var target := OwnerMap(ts[..i + 1]);
    OwnersSnoc(ts, i);
    assert after.Keys == target.Keys;
    forall f | f in after ensures after[f] == target[f] {
      OwnerAt(ts, i, f);
    }
    SameMap(after, target);
  }

  /** The owners `OwnersStep` gives one file. */
  lemma OwnerAt(ts: seq<XcTarget>, i: int, f: XcFile)
    requires 0 <= i < |ts|
    requires f in FilesOfTargets(ts[..i]) + ts[i].Files()
    ensures var after := AddedOwners(OwnerMap(ts[..i]), ts[i].Files(), ts[i].Key());
      f in after && after[f] == OwnersOf(ts[..i + 1], f)
  {
    var before := OwnerMap(ts[..i]);
    OwnersOfSnoc(ts, i, f);
    if f !in before {
      NoOwners(ts[..i], f);
    }
  }

  lemma OwnersSnoc(ts: seq<XcTarget>, i: int)
    requires 0 <= i < |ts|
    ensures FilesOfTargets(ts[..i + 1]) == FilesOfTargets(ts[..i]) + ts[i].Files()
  {
    assert ts[..i + 1][..i] == ts[..i];
  }

  lemma OwnersOfSnoc(ts: seq<XcTarget>, i: int, f: XcFile)
    requires 0 <= i < |ts|
    ensures OwnersOf(ts[..i + 1], f) == OwnersOf(ts[..i], f) + (if f in ts[i].Files() then {ts[i].Key()} else {})
  {
    assert ts[..i + 1][..i] == ts[..i];
  }

  lemma {:induction false} NoOwners(ts: seq<XcTarget>, f: XcFile)
    requires f !in FilesOfTargets(ts)
    ensures OwnersOf(ts, f) == {}
    decreases |ts|
  {
    if ts != [] {
      var n := |ts| - 1;
      assert FilesOfTargets(ts) == FilesOfTargets(ts[..n]) + ts[n].Files();
      NoOwners(ts[..n], f);
    }
  }

  /** `file_targets`: every file of a target, with the targets that own it. */
  method FileTargets(ts: seq<XcTarget>) returns (r: map<XcFile, set<TargetKey>>)
    ensures r == OwnerMap(ts)
  {
    r := map[];
    for i := 0 to |ts|
      invariant r == OwnerMap(ts[..i])
    {
      OwnersStep(ts, i);
      r := AddOwner(r, ts[i].Files(), ts[i].Key());
    }
    assert ts[..|ts|] == ts;
  }

  /**
   * `print_shared_files`: the paths of the files owned by at least two
   * targets, in ascending order, with each such file's owners.
   */
  method SharedFiles(p: XcProject) returns (filepaths: seq<string>, owners: map<XcFile, set<TargetKey>>)
    ensures owners == SharedOwners(p.targets)
    ensures IsEnumeration(filepaths, set f | f in owners :: f.filepath)
    ensures SortedBy(filepaths, Ident)
  {
    var fileTargets := FileTargets(p.targets);
    owners := map f | f in fileTargets && |fileTargets[f]| >= 2 :: fileTargets[f];
    filepaths := SortedElements(set f | f in owners :: f.filepath);
  }

  /**
   * Under distinct target identities, a file is shared exactly when two
   * different entries of the target list both have it among their files.
   */
  lemma SharedMeans(p: XcProject, f: XcFile)
    requires p.Valid()
    ensures f in SharedOwners(p.targets) <==>
              exists i, j :: 0 <= i < j < |p.targets| && f in p.targets[i].Files() && f in p.targets[j].Files()
  {
    SharedAmong(p.targets, f);
  }

  lemma SharedAmong(ts: seq<XcTarget>, f: XcFile)
    requires forall i, j :: 0 <= i < j < |ts| ==> ts[i].Key() != ts[j].Key()
    ensures f in SharedOwners(ts) <==>
              exists i, j :: 0 <= i < j < |ts| && f in ts[i].Files() && f in ts[j].Files()
  {
    var m := OwnerMap(ts);
    assert f in SharedOwners(ts) <==> f in m && |m[f]| >= 2;
    if f in m && |m[f]| >= 2 {
      TwoOwners(ts, f, OwnersOf(ts, f));
    }
    if exists i, j :: 0 <= i < j < |ts| && f in ts[i].Files() && f in ts[j].Files() {
      var i, j :| 0 <= i < j < |ts| && f in ts[i].Files() && f in ts[j].Files();
      OwnedByPair(ts, f, i, j);
    }
  }

  lemma OwnedByPair(ts: seq<XcTarget>, f: XcFile, i: int, j: int)
    requires forall i, j :: 0 <= i < j < |ts| ==> ts[i].Key() != ts[j].Key()
    requires 0 <= i < j < |ts| && f in ts[i].Files() && f in ts[j].Files()
    ensures f in FilesOfTargets(ts) && |OwnersOf(ts, f)| >= 2
  {
    OwnersOfMeans(ts, f);
    var owners := OwnersOf(ts, f);
    assert ts[i].Key() in owners && ts[j].Key() in owners;
    SubsetCard({ts[i].Key(), ts[j].Key()}, owners);
    assert ts[i] in ts;
  }

  lemma TwoOwners(ts: seq<XcTarget>, f: XcFile, owners: set<TargetKey>)
    requires owners == OwnersOf(ts, f) && |owners| >= 2
    ensures exists i, j :: 0 <= i < j < |ts| && f in ts[i].Files() && f in ts[j].Files()
  {
    OwnersOfMeans(ts, f);
    var k1 :| k1 in owners;
    assert |owners - {k1}| >= 1;
    var k2 :| k2 in owners - {k1};
    var a :| 0 <= a < |ts| && f in ts[a].Files() && ts[a].Key() == k1;
    var b :| 0 <= b < |ts| && f in ts[b].Files() && ts[b].Key() == k2;
    if a < b {
      assert 0 <= a < b < |ts| && f in ts[a].Files() && f in ts[b].Files();
    } else {
      assert 0 <= b < a < |ts| && f in ts[b].Files() && f in ts[a].Files();
    }
  }

  lemma {:induction false} SubsetCard<T>(a: set<T>, b: set<T>)
    requires a <= b
    ensures |a| <= |b|
  {
    assert b == a + (b - a);
  }

  // ---------------------------------------------------------------------
  // Files summary

  function SourceOf(t: XcTarget): set<XcFile> { t.sourceFiles }

  function ResourceOf(t: XcTarget): set<XcFile> { t.resourceFiles }

  function HeaderOf(t: XcTarget): set<XcFile> { t.headerFiles }

  /** The union of one bucket over the targets `ts`. */
  function BucketUnion(ts: seq<XcTarget>, bucket: XcTarget -> set<XcFile>): set<XcFile>
    decreases |ts|
  {
    if ts == [] then {} else BucketUnion(ts[..|ts| - 1], bucket) + bucket(ts[|ts| - 1])
  }

  lemma {:induction false} BucketUnionMeans(ts: seq<XcTarget>, bucket: XcTarget -> set<XcFile>, f: XcFile)
    ensures f in BucketUnion(ts, bucket) <==> exists i :: 0 <= i < |ts| && f in bucket(ts[i])
    decreases |ts|
  {
    if ts != [] {
      var n := |ts| - 1;
      BucketUnionMeans(ts[..n], bucket, f);
      if exists i :: 0 <= i < n && f in bucket(ts[..n][i]) {
        var i :| 0 <= i < n && f in bucket(ts[..n][i]);
        assert ts[i] == ts[..n][i];
      }
      if exists i :: 0 <= i < |ts| && f in bucket(ts[i]) {
        var i :| 0 <= i < |ts| && f in bucket(ts[i]);
        if i < n {
          assert ts[..n][i] == ts[i];
        }
      }
    }
  }

  lemma BucketSnoc(ts: seq<XcTarget>, i: int, bucket: XcTarget -> set<XcFile>)
    requires 0 <= i < |ts|
    ensures BucketUnion(ts[..i + 1], bucket) == BucketUnion(ts[..i], bucket) + bucket(ts[i])
  {
    assert ts[..i + 1][..i] == ts[..i];
  }

  /** The source, resource and header files of all targets, target by target. */
  method UnionBuckets(ts: seq<XcTarget>) returns (sourceFiles: set<XcFile>, resourceFiles: set<XcFile>, headerFiles: set<XcFile>)
    ensures sourceFiles == BucketUnion(ts, SourceOf)
    ensures resourceFiles == BucketUnion(ts, ResourceOf)
    ensures headerFiles == BucketUnion(ts, HeaderOf)
  {
    sourceFiles, resourceFiles, headerFiles := {}, {}, {};
    for i := 0 to |ts|
      invariant sourceFiles == BucketUnion(ts[..i], SourceOf)
      invariant resourceFiles == BucketUnion(ts[..i], ResourceOf)
      invariant headerFiles == BucketUnion(ts[..i], HeaderOf)
    {
      BucketSnoc(ts, i, SourceOf);
      BucketSnoc(ts, i, ResourceOf);
      BucketSnoc(ts, i, HeaderOf);
      sourceFiles := sourceFiles + ts[i].sourceFiles;
      resourceFiles := resourceFiles + ts[i].resourceFiles;
      headerFiles := headerFiles + ts[i].headerFiles;
    }
    assert ts[..|ts|] == ts;
  }

  predicate IsSwiftSource(f: XcFile) {
    EndsWith(f.filepath, ".swift")
  }

  /** Tested second: a `.m` path, which is then not a `.swift` path. */
  predicate IsObjcSource(f: XcFile) {
    !EndsWith(f.filepath, ".swift") && EndsWith(f.filepath, ".m")
  }

  predicate IsOtherSource(f: XcFile) {
    !EndsWith(f.filepath, ".swift") && !EndsWith(f.filepath, ".m")
  }

  /**
   * The split of the source files into `.swift`, `.m` and other files: the
   * three parts are disjoint, cover `s`, and their sizes add up to `|s|`.
   */
  method PartitionSources(s: set<XcFile>) returns (swift: set<XcFile>, objc: set<XcFile>, other: set<XcFile>)
    ensures swift == Filter(s, IsSwiftSource)
    ensures objc == Filter(s, IsObjcSource)
    ensures other == Filter(s, IsOtherSource)
    ensures swift + objc + other == s
    ensures swift !! objc && swift !! other && objc !! other
    ensures |swift| + |objc| + |other| == |s|
  {
    swift, objc, other := {}, {}, {};
    var rest := s;
    ghost var seen: set<XcFile> := {};
    while rest != {}
      invariant seen + rest == s && seen !! rest
      invariant swift == Filter(seen, IsSwiftSource)
      invariant objc == Filter(seen, IsObjcSource)
      invariant other == Filter(seen, IsOtherSource)
      decreases |rest|
    {
      var sourceFile :| sourceFile in rest;
      MoveElement(seen, rest, sourceFile);
      PartitionStep(seen, sourceFile, swift, objc, other);
      if EndsWith(sourceFile.filepath, ".swift") {
        swift := swift + {sourceFile};
      } else if EndsWith(sourceFile.filepath, ".m") {
        objc := objc + {sourceFile};
      } else {
        other := other + {sourceFile};
      }
      rest := rest - {sourceFile};
      seen := seen + {sourceFile};
    }
    SourceKindsPartition(s);
  }

  /** One source file of the loop, as the three branches of its body. */
  lemma PartitionStep(seen: set<XcFile>, f: XcFile, swift: set<XcFile>, objc: set<XcFile>, other: set<XcFile>)
    requires swift == Filter(seen, IsSwiftSource) && objc == Filter(seen, IsObjcSource) && other == Filter(seen, IsOtherSource)
    ensures Filter(seen + {f}, IsSwiftSource) == if EndsWith(f.filepath, ".swift") then swift + {f} else swift
    ensures Filter(seen + {f}, IsObjcSource) ==
              if !EndsWith(f.filepath, ".swift") && EndsWith(f.filepath, ".m") then objc + {f} else objc
    ensures Filter(seen + {f}, IsOtherSource) ==
              if !EndsWith(f.filepath, ".swift") && !EndsWith(f.filepath, ".m") then other + {f} else other
  {
    FilterAdd(seen, f, IsSwiftSource);
    FilterAdd(seen, f, IsObjcSource);
    FilterAdd(seen, f, IsOtherSource);
  }

  /** Each source file is of exactly one of the three kinds. */
  lemma SourceKindsPartition(s: set<XcFile>)
    ensures Filter(s, IsSwiftSource) + Filter(s, IsObjcSource) + Filter(s, IsOtherSource) == s
    ensures Filter(s, IsSwiftSource) !! Filter(s, IsObjcSource)
    ensures Filter(s, IsSwiftSource) !! Filter(s, IsOtherSource)
    ensures Filter(s, IsObjcSource) !! Filter(s, IsOtherSource)
    ensures |Filter(s, IsSwiftSource)| + |Filter(s, IsObjcSource)| + |Filter(s, IsOtherSource)| == |s|
  {
    var a, b, c := Filter(s, IsSwiftSource), Filter(s, IsObjcSource), Filter(s, IsOtherSource);
    assert a + b + c == s;
    assert a * b == {} && (a + b) * c == {};
  }

  /** The counters of the files summary. */
  datatype FileCounts = FileCounts(
    sourceCount: int,
    swiftCount: int,
    objcCount: int,
    otherCount: int,
    resourceCount: int,
    headerCount: int,
    totalCount: int)

  /**
   * `print_files_summary`: the number of source files of all targets and
   * of each kind among them, of resource files and of header files; the
   * total leaves linked files out.
   */
  method FilesSummary(p: XcProject) returns (c: FileCounts)
    ensures c.sourceCount == |BucketUnion(p.targets, SourceOf)|
    ensures c.swiftCount == |Filter(BucketUnion(p.targets, SourceOf), IsSwiftSource)|
    ensures c.objcCount == |Filter(BucketUnion(p.targets, SourceOf), IsObjcSource)|
    ensures c.otherCount == |Filter(BucketUnion(p.targets, SourceOf), IsOtherSource)|
    ensures c.resourceCount == |BucketUnion(p.targets, ResourceOf)|
    ensures c.headerCount == |BucketUnion(p.targets, HeaderOf)|
    ensures c.swiftCount + c.objcCount + c.otherCount == c.sourceCount
    ensures c.totalCount == c.sourceCount + c.resourceCount + c.headerCount
  {
    var sourceFiles, resourceFiles, headerFiles := UnionBuckets(p.targets);
    var swiftSourceFiles, objcSourceFiles, otherSourceFiles := PartitionSources(sourceFiles);
    var sourceFilesCount := |sourceFiles|;
    var resourceFilesCount := |resourceFiles|;
    var headerFilesCount := |headerFiles|;
    c := FileCounts(
      sourceFilesCount,
      |swiftSourceFiles|, |objcSourceFiles|, |otherSourceFiles|,
      resourceFilesCount, headerFilesCount,
      sourceFilesCount + resourceFilesCount + headerFilesCount);
  }

  // ---------------------------------------------------------------------
  // Orphan files

  /** The paths of some files. */
  function Paths(files: set<XcFile>): set<string> {
    set f | f in files :: f.filepath
  }

  lemma PathsAdd(files: set<XcFile>, f: XcFile)
    ensures Paths(files + {f}) == Paths(files) + {f.filepath}
  {
  }

  predicate StartsWithAny(path: string, prefixes: seq<string>) {
    exists d :: d in prefixes && StartsWith(path, d)
  }

  /** Whether one of the directory segments of `path` (all but the last) is in `dirs`. */
  predicate InIgnoredDir(path: string, dirs: set<string>) {
    exists d :: d in InitSegments(path, '/') && d in dirs
  }

  /** An `Info.plist` or `.h` file. */
  predicate IsSupportPath(path: string) {
    EndsWith(path, "Info.plist") || EndsWith(path, ".h")
  }

  /** The test of the 'target' mode: what a target-less file must pass to be reported. */
  predicate IsTargetOrphan(path: string, ignoredDirpaths: seq<string>, ignoredDirs: set<string>) {
    !EndsWith(path, "Info.plist") && !EndsWith(path, ".h")
    && !StartsWithAny(path, ignoredDirpaths) && !InIgnoredDir(path, ignoredDirs)
  }

  function TargetOrphans(files: set<XcFile>, ignoredDirpaths: seq<string>, ignoredDirs: set<string>): set<XcFile> {
    set f | f in files && IsTargetOrphan(f.filepath, ignoredDirpaths, ignoredDirs)
  }

  function SupportFiles(files: set<XcFile>): set<XcFile> {
    set f | f in files && IsSupportPath(f.filepath)
  }

  /** The flag-and-break loop over the ignored directory paths. */
  method StartsWithSome(path: string, prefixes: seq<string>) returns (found: bool)
    ensures found <==> StartsWithAny(path, prefixes)
  {
    found := false;
    for i := 0 to |prefixes|
      invariant forall j :: 0 <= j < i ==> !StartsWith(path, prefixes[j])
    {
      if StartsWith(path, prefixes[i]) {
        found := true;
        break;
      }
    }
  }

  lemma TargetOrphansStep(seen: set<XcFile>, f: XcFile, ignoredDirpaths: seq<string>, ignoredDirs: set<string>)
    requires f !in seen
    ensures TargetOrphans(seen + {f}, ignoredDirpaths, ignoredDirs) ==
              TargetOrphans(seen, ignoredDirpaths, ignoredDirs) + (if IsTargetOrphan(f.filepath, ignoredDirpaths, ignoredDirs) then {f} else {})
    ensures f !in TargetOrphans(seen, ignoredDirpaths, ignoredDirs)
  {
  }

  /** `xs` lists the paths of `kept`, one entry per file. */
  ghost predicate Lists(xs: seq<string>, kept: set<XcFile>) {
    (forall x :: x in xs <==> x in Paths(kept)) && |xs| == |kept|
  }

  /** Appending the path of a new file that is kept, or nothing for one that is not. */
  lemma ListsStep(xs: seq<string>, kept: set<XcFile>, f: XcFile, keep: bool)
    requires Lists(xs, kept) && f !in kept
    ensures Lists(if keep then xs + [f.filepath] else xs, kept + (if keep then {f} else {}))
  {
    if keep {
      PathsAdd(kept, f);
    } else {
      assert kept + {} == kept;
    }
  }

  /** The tests of the 'target' mode, in order, each ending the file's turn early. */
  method TargetOrphanTest(path: string, ignoredDirpaths: seq<string>, ignoredDirs: set<string>) returns (keep: bool)
    ensures keep == IsTargetOrphan(path, ignoredDirpaths, ignoredDirs)
  {
    if EndsWith(path, "Info.plist") {
      return false;
    }
    if EndsWith(path, ".h") {
      return false;
    }
    var ignoreCurrentFile := StartsWithSome(path, ignoredDirpaths);
    if ignoreCurrentFile {
      return false;
    }
    var folderParts := InitSegments(path, '/');
    var partSet := set d | d in folderParts;
    if ignoredDirs * partSet != {} {
      assert InIgnoredDir(path, ignoredDirs);
      return false;
    }
    forall d | d in folderParts ensures d !in ignoredDirs {
      assert d in partSet;
      assert d in ignoredDirs ==> d in ignoredDirs * partSet;
    }
    return true;
  }

  /**
   * The 'target' mode over the target-less files: one path per file that
   * passes every test, in iteration order.
   */
  method CollectTargetOrphans(files: set<XcFile>, ignoredDirpaths: seq<string>, ignoredDirs: set<string>)
    returns (filepaths: seq<string>)
    ensures Lists(filepaths, TargetOrphans(files, ignoredDirpaths, ignoredDirs))
  {
    filepaths := [];
    var rest := files;
    ghost var seen: set<XcFile> := {};
    while rest != {}
      invariant seen + rest == files && seen !! rest
      invariant Lists(filepaths, TargetOrphans(seen, ignoredDirpaths, ignoredDirs))
      decreases |rest|
    {
      var targetFile :| targetFile in rest;
      MoveElement(seen, rest, targetFile);
      TargetOrphansStep(seen, targetFile, ignoredDirpaths, ignoredDirs);
      var keep := TargetOrphanTest(targetFile.filepath, ignoredDirpaths, ignoredDirs);
      ListsStep(filepaths, TargetOrphans(seen, ignoredDirpaths, ignoredDirs), targetFile, keep);
      if keep {
        filepaths := filepaths + [targetFile.filepath];
      }
      rest := rest - {targetFile};
      seen := seen + {targetFile};
    }
  }

  lemma SupportFilesStep(seen: set<XcFile>, f: XcFile)
    requires f !in seen
    ensures SupportFiles(seen + {f}) == SupportFiles(seen) + (if IsSupportPath(f.filepath) then {f} else {})
    ensures f !in SupportFiles(seen)
  {
  }

  /** The 'referenced' and 'unreferenced' modes: the `Info.plist` and `.h` paths among `files`. */
  method CollectSupportFiles(files: set<XcFile>) returns (filepaths: seq<string>)
    ensures Lists(filepaths, SupportFiles(files))
  {
    filepaths := [];
    var rest := files;
    ghost var seen: set<XcFile> := {};
    while rest != {}
      invariant seen + rest == files && seen !! rest
      invariant Lists(filepaths, SupportFiles(seen))
      decreases |rest|
    {
      var targetFile :| targetFile in rest;
      MoveElement(seen, rest, targetFile);
      SupportFilesStep(seen, targetFile);
      var keep := EndsWith(targetFile.filepath, "Info.plist") || EndsWith(targetFile.filepath, ".h");
      ListsStep(filepaths, SupportFiles(seen), targetFile, keep);
      rest := rest - {targetFile};
      seen := seen + {targetFile};
      if !keep {
        continue;
      }
      filepaths := filepaths + [targetFile.filepath];
    }
  }

  /** `filepaths.sort()`: the same entries, in ascending order. */
  method SortPaths(filepaths: seq<string>) returns (r: seq<string>)
    ensures multiset(r) == multiset(filepaths)
    ensures forall x :: x in r <==> x in filepaths
    ensures |r| == |filepaths|
    ensures SortedBy(r, Ident)
  {
    r := SortBy(filepaths, Ident);
    SameElements(r, filepaths);
    assert |multiset(r)| == |multiset(filepaths)|;
  }

  /** The error of an unknown orphan mode. */
  function UnsupportedMode(mode: string): string {
    "Not supported orphan mode: '" + mode + "'."
  }

  /**
   * `print_orphan_files` without the walk of the folder, whose result is
   * `folderFilepaths`: the sorted paths the mode selects, or the error of an
   * unknown mode.
   */
  method OrphanFiles(p: XcProject, folderFilepaths: set<string>, ignoredDirpaths: seq<string>, ignoredDirs: set<string>, mode: string)
    returns (r: Result<seq<string>, string>)
    ensures mode !in {"all", "project", "target", "referenced", "unreferenced"} <==> r.Err?
    ensures r.Err? ==> r.error == UnsupportedMode(mode)
    ensures r.Ok? ==> SortedBy(r.value, Ident)
    ensures mode == "all" ==> r.Ok? && IsEnumeration(r.value, folderFilepaths - Paths(p.OwnedFiles()))
    ensures mode == "project" ==> r.Ok? && IsEnumeration(r.value, folderFilepaths - Paths(p.Files()))
    ensures mode == "target" ==> r.Ok? && Lists(r.value, TargetOrphans(p.TargetLessFiles(), ignoredDirpaths, ignoredDirs))
    ensures mode == "referenced" ==> r.Ok? && Lists(r.value, SupportFiles(p.OwnedFiles()))
    ensures mode == "unreferenced" ==> r.Ok? && Lists(r.value, SupportFiles(p.TargetLessFiles()))
  {
    var filepaths: seq<string>;
    if mode == "all" {
      var targetFiles := p.TargetFiles();
      filepaths := Enumerate(folderFilepaths - Paths(targetFiles));
    } else if mode == "project" {
      var groupFiles := p.GroupFiles();
      filepaths := Enumerate(folderFilepaths - Paths(p.rootFiles + groupFiles));
    } else if mode == "target" {
      var groupFiles := p.GroupFiles();
      var targetFiles := p.TargetFiles();
      filepaths := CollectTargetOrphans((p.rootFiles + groupFiles) - targetFiles, ignoredDirpaths, ignoredDirs);
    } else if mode == "referenced" {
      var targetFiles := p.TargetFiles();
      filepaths := CollectSupportFiles(targetFiles);
    } else if mode == "unreferenced" {
      var groupFiles := p.GroupFiles();
      var targetFiles := p.TargetFiles();
      filepaths := CollectSupportFiles((p.rootFiles + groupFiles) - targetFiles);
    } else {
      return Err(UnsupportedMode(mode));
    }
    var sorted := SortPaths(filepaths);
    r := Ok(sorted);
    if mode == "all" || mode == "project" {
      SortedEnumeration(filepaths, sorted, if mode == "all" then folderFilepaths - Paths(p.OwnedFiles()) else folderFilepaths - Paths(p.Files()));
    }
  }

  lemma SortedEnumeration(xs: seq<string>, ys: seq<string>, s: set<string>)
    requires IsEnumeration(xs, s) && multiset(ys) == multiset(xs)
    ensures IsEnumeration(ys, s)
  {
  }

  /**
   * The 'target' and 'unreferenced' modes never report the same path: one
   * keeps no `Info.plist` or `.h` path, the other only those.
   */
  lemma TargetAndUnreferencedDisjoint(files: set<XcFile>, ignoredDirpaths: seq<string>, ignoredDirs: set<string>)
    ensures Paths(TargetOrphans(files, ignoredDirpaths, ignoredDirs)) !! Paths(SupportFiles(files))
  {
    forall f, g | f in TargetOrphans(files, ignoredDirpaths, ignoredDirs) && g in SupportFiles(files)
      ensures f.filepath != g.filepath
    {
      assert IsSupportPath(g.filepath);
    }
  }

  // ---------------------------------------------------------------------
  // Group summary

  /** The counters of the group summary. */
  datatype GroupCounts = GroupCounts(
    rootCount: int,
    variantRootCount: int,
    variantCount: int,
    otherCount: int,
    totalCount: int)

  /**
   * `print_all_groups_summary`: all groups, the root groups and the variant
   * ones among them, the variant groups below the roots and the others. No
   * counter is negative, and roots, non-root variants and others make up the
   * total.
   */
  method AllGroupsSummary(p: XcProject) returns (c: GroupCounts)
    ensures c.totalCount == |Traversal(p.groups, false)|
    ensures c.rootCount == |p.groups|
    ensures c.variantRootCount == VariantCount(p.groups) && 0 <= c.variantRootCount <= c.rootCount
    ensures c.variantCount == VariantCount(Descendants(p.groups)) && c.variantCount >= 0
    ensures c.otherCount == |Descendants(p.groups)| - VariantCount(Descendants(p.groups)) && c.otherCount >= 0
    ensures c.rootCount + c.variantCount + c.otherCount == c.totalCount
  {
    var groups := p.GroupsFiltered(None);
    FilterGroupsKeepsAll(None, Traversal(p.groups, false));
    TraversalRootsAndDescendants(p.groups);
    var totalGroupsCount := |groups|;
    var rootGroupsCount := |p.groups|;
    var variantRootGroupsCount := VariantCount(p.groups);
    var variantGroupsCount := VariantCount(groups) - variantRootGroupsCount;
    var otherGroupsCount := totalGroupsCount - rootGroupsCount - variantGroupsCount;
    c := GroupCounts(rootGroupsCount, variantRootGroupsCount, variantGroupsCount, otherGroupsCount, totalGroupsCount);
  }

  // ---------------------------------------------------------------------
  // Nonregular files

  /** The paths of the files of the pairs `pairs`. */
  function PairPaths(pairs: set<(XcFile, XcGroup)>): set<string> {
    set x | x in pairs :: x.0.filepath
  }

  /**
   * `file_group_paths`: each listed file path with the group path of a pair
   * that has it (the last one, as later writes replace earlier ones).
   */
  method GroupPathsByFile(pairs: seq<(XcFile, XcGroup)>) returns (m: map<string, string>)
    ensures m.Keys == set x | x in pairs :: x.0.filepath
    ensures forall k :: k in m ==> exists i :: LastWithPath(pairs, i, k) && m[k] == pairs[i].1.groupPath
  {
    m := map[];
    for i := 0 to |pairs|
      invariant m.Keys == set x | x in pairs[..i] :: x.0.filepath
      invariant forall k :: k in m ==> exists j :: LastWithPath(pairs[..i], j, k) && m[k] == pairs[j].1.groupPath
    {
      var (groupFile, group) := pairs[i];
      assert pairs[..i + 1] == pairs[..i] + [pairs[i]];
      LastWithPathStep(pairs, i, m);
      m := m[groupFile.filepath := group.groupPath];
    }
    assert pairs[..|pairs|] == pairs;
  }

  /** `pairs[i]` is the last of `pairs` whose file has the path `k`. */
  predicate LastWithPath(pairs: seq<(XcFile, XcGroup)>, i: int, k: string) {
    0 <= i < |pairs| && pairs[i].0.filepath == k && forall j :: i < j < |pairs| ==> pairs[j].0.filepath != k
  }

  lemma LastWithPathStep(pairs: seq<(XcFile, XcGroup)>, i: int, m: map<string, string>)
    requires 0 <= i < |pairs|
    requires forall k :: k in m ==> exists j :: LastWithPath(pairs[..i], j, k) && m[k] == pairs[j].1.groupPath
    ensures var m' := m[pairs[i].0.filepath := pairs[i].1.groupPath];
      forall k :: k in m' ==> exists j :: LastWithPath(pairs[..i + 1], j, k) && m'[k] == pairs[j].1.groupPath
  {
    var m' := m[pairs[i].0.filepath := pairs[i].1.groupPath];
    forall k | k in m' ensures exists j :: LastWithPath(pairs[..i + 1], j, k) && m'[k] == pairs[j].1.groupPath {
      if k == pairs[i].0.filepath {
        assert LastWithPath(pairs[..i + 1], i, k);
      } else {
        var j :| LastWithPath(pairs[..i], j, k) && m[k] == pairs[j].1.groupPath;
        assert LastWithPath(pairs[..i + 1], j, k);
      }
    }
  }

  /**
   * `print_nonregular_files`: the paths of the nonregular files in ascending
   * order, each with the group path of the last pair the walk lists for it.
   */
  method NonregularFileGroups(p: XcProject)
    returns (filepaths: seq<string>, groupPaths: map<string, string>, ghost pairs: seq<(XcFile, XcGroup)>, ghost orders: seq<seq<XcFile>>)
    ensures FileOrders(Traversal(p.groups, true), orders) && pairs == PairsAlong(Traversal(p.groups, true), orders)
    ensures groupPaths.Keys == PairPaths(NonregularPairsOf(p.groups))
    ensures forall k :: k in groupPaths ==> exists i :: LastWithPath(pairs, i, k) && groupPaths[k] == pairs[i].1.groupPath
    ensures forall k :: k in groupPaths ==>
              exists x :: x in NonregularPairsOf(p.groups) && x.0.filepath == k && x.1.groupPath == groupPaths[k]
    ensures IsEnumeration(filepaths, groupPaths.Keys)
    ensures SortedBy(filepaths, Ident)
  {
    var nonregular;
    nonregular, orders := p.NonregularFiles();
    pairs := nonregular;
    groupPaths := GroupPathsByFile(nonregular);
    forall k | k in groupPaths
      ensures exists x :: x in NonregularPairsOf(p.groups) && x.0.filepath == k && x.1.groupPath == groupPaths[k]
    {
      var i :| LastWithPath(nonregular, i, k) && groupPaths[k] == nonregular[i].1.groupPath;
      assert nonregular[i] in nonregular;
    }
    filepaths := SortedElements(groupPaths.Keys);
  }
}
