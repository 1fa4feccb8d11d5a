# xcanalyzer project model

This project models the in-memory Xcode project model of xcanalyzer. That model describes:

- files, identified by their path;
- groups, a tree of folders with a variant flag;
- targets, identified by type and name, each with four file buckets and three dependency sets;
- the project that holds them.

The model covers the project's queries and the pure computations inside the reporters that print:

- shared files;
- the files summary;
- orphan files;
- the groups summary;
- nonregular files;
- missing Objective-C files;
- the dependency graph.

It then proves properties of that model.

The project only reads the model once it is built, so every entity is a Dafny `datatype`:

- `XcFile` holds its path and the declarations the source scanners found in it.
- `XcGroup` is an inductive tree.
- `XcTarget` keeps its dependencies as `TargetKey` values, a (type, name) pair. This is the target's identity.
- `XcProject.Valid` says that a path, a group path and a target key each identify one value. Under it, Dafny's structural equality is Python's `__eq__`.

Code that accumulates in loops becomes a `method` with a `while` loop whose invariants tie it to a specification function. This covers the worklist walks over groups, the `|=` and `+=` accumulations, the dictionaries of lists, the flag-and-break loops and the reporters' set updates. Each method's `ensures` states the result in terms of that function. Lemmas then prove what the code promises about the function.

Python's iteration over a `set` has no fixed order. Methods that iterate over a set pick elements with `:|`. Where the order is visible in the result, the method returns it as a ghost out-parameter, and the result is stated as a function of that order.

Modules and files:

| file | module | contents |
|---|---|---|
| common.dfy | Common | Option/Result, set and map helpers |
| strings.dfy | Strings | `startswith`, `endswith`, `split`, string order |
| sorting.dfy | Sorting | insertion sort by key, enumerations of sets |
| language.dfy | Language | declaration records and kinds |
| models.dfy | Models | `XcFile`, `XcGroup`, `XcTarget` |
| grouptree.dfy | GroupTree | group traversal order, filters, counts |
| extensions.dfy | Extensions | Swift extension scope classifier |
| project.dfy | Project | `XcProject` and its queries |
| reporters.dfy | Reporters | computations of the reporters |
| graph.dfy | DependencyGraph | argument checks, nodes, styles and edges of the dependency graph |

## Model

| member | source | states |
|---|---|---|
| Models.XcFile.Filename | xcanalyzer/xcodeproject/models.py:20-22 | the file name is a suffix of the path with no '/'; it is the whole path when there is no '/', otherwise the path ends with '/' and the name |
| Strings.LastSegment | xcanalyzer/xcodeproject/models.py:22 | the last '/'-separated segment has no separator and is a suffix of the string, preceded by the separator when the string has one |
| Strings.Split | xcanalyzer/xcodeproject/models.py:22 | splitting gives at least one segment, no segment holds the separator, and a string without separator splits into itself |
| Strings.JoinSplit | xcanalyzer/xcodeproject/models.py:22 | joining the segments of a split rebuilds the string |
| Strings.SplitJoin | xcanalyzer/xcodeproject/models.py:22 | splitting a join of separator-free segments gives the segments back |
| Strings.SplitCons | xcanalyzer/xcodeproject/models.py:22 | a leading character other than the separator becomes the first character of the first segment, and the other segments stay as they are |
| Strings.LastSegmentSuffix | xcanalyzer/xcodeproject/models.py:22 | the segment `split('/')[-1]` is a suffix of the path, behind a '/' when the path has one |
| Models.XcFile.SwiftTypesFiltered | xcanalyzer/xcodeproject/models.py:24-27 | keeps exactly the declarations whose kind is not excluded |
| Models.XcFile.SwiftExtensions | xcanalyzer/xcodeproject/models.py:29-31 | keeps exactly the extension declarations |
| Models.XcGroup.HasFolder | xcanalyzer/xcodeproject/models.py:59-61 | a group has a folder when its group path is its on-disk path; used by the without_folder filter |
| Models.XcGroup.SameGroup | xcanalyzer/xcodeproject/models.py:50-54 | group equality is equality of group paths; `Project.GroupEqualityIsPath` shows it is identity in a valid project |
| Models.XcTarget.Files | xcanalyzer/xcodeproject/models.py:384-386 | a target's files are exactly the union of its source, resource, header and linked buckets |
| Models.XcTarget.Key | xcanalyzer/xcodeproject/models.py:371-379 | the (type, name) identity the source compares and hashes targets by; `Project.TargetEqualityIsKey` shows it identifies a target in a valid project |
| Models.XcTarget.SwiftFiles | xcanalyzer/xcodeproject/models.py:388-390 | a subset of the source files holding exactly those whose path ends in `.swift` |
| Models.XcTarget.HFiles | xcanalyzer/xcodeproject/models.py:392-394 | a subset of the header files holding exactly those whose path ends in `.h` |
| Models.XcTarget.MFiles | xcanalyzer/xcodeproject/models.py:396-398 | a subset of the source files holding exactly those whose path ends in `.m` |
| Models.XcTarget.ObjcFiles | xcanalyzer/xcodeproject/models.py:400-402 | the `.h` headers together with the `.m` sources, within the target's files and disjoint from its Swift files |
| Language.SwiftOfKinds | xcanalyzer/xcodeproject/models.py:259-263 | keeps exactly the declarations of the given kinds, in order |
| Language.ObjcOfKinds | xcanalyzer/xcodeproject/models.py:229-233 | keeps exactly the declarations of the given kinds, in order |
| Language.SwiftNames | xcanalyzer/xcodeproject/models.py:301 | one name per declaration; a name is listed iff some declaration carries it |
| Language.ObjcNames | xcanalyzer/xcodeproject/models.py:300 | one name per declaration; a name is listed iff some declaration carries it |
| Language.SwiftOfKindsConcat | xcanalyzer/xcodeproject/models.py:259-263 | filtering by kind distributes over concatenation |
| Language.ObjcOfKindsConcat | xcanalyzer/xcodeproject/models.py:229-233 | filtering by kind distributes over concatenation |
| Language.ObjcByKindStep | xcanalyzer/xcodeproject/models.py:229-233 | appending one declaration under its kind, when that kind is selected, keeps every list equal to the declarations of its kind so far |
| Language.SwiftByKindStep | xcanalyzer/xcodeproject/models.py:259-263 | appending one declaration under its kind, when that kind is selected, keeps every list equal to the declarations of its kind so far |
| Language.SwiftOfKindsSplit | xcanalyzer/xcodeproject/models.py:265-271 | filtering by two disjoint kind sets splits the filter by their union |
| Language.ConcatByKindsPermutation | xcanalyzer/xcodeproject/models.py:265-271 | the flat list, built from the per-kind lists in any order of the kinds, is a permutation of the declarations of the selected kinds |
| Project.FilesOfTargets | xcanalyzer/xcodeproject/models.py:92-99 | a file is in the union iff some target holds it |
| Project.XcProject.OwnedFiles | xcanalyzer/xcodeproject/models.py:92-99 | a file is a target file iff some target holds it |
| Project.XcProject.TargetFiles | xcanalyzer/xcodeproject/models.py:92-99 | the loop's union is exactly the files some target holds |
| Project.XcProject.TargetLessFiles | xcanalyzer/xcodeproject/models.py:101-103 | exactly the project files outside every target; a subset of the files and disjoint from each target's files |
| Project.XcProject.TargetLessHFiles | xcanalyzer/xcodeproject/models.py:105-107 | the target-less files whose path ends in `.h` |
| Project.XcProject.GroupFiles | xcanalyzer/xcodeproject/models.py:109-120 | the worklist walk collects exactly the files held by some group of the tree |
| GroupTree.FilesOfAppend | xcanalyzer/xcodeproject/models.py:113-118 | the files of a worklist are the union of the files of its parts |
| GroupTree.FilesOfLast | xcanalyzer/xcodeproject/models.py:116-118 | popping the last group moves its files into the result and its subgroups onto the worklist without changing the union |
| Project.XcProject.Files | xcanalyzer/xcodeproject/models.py:142-144 | the project files are the root files together with the files of every group of the tree |
| Project.XcProject.NonregularFiles | xcanalyzer/xcodeproject/models.py:122-140 | the list is, group after group in the variant-skipping walk order, one pair per file of that group whose path does not start with the group path, each group's files in a ghost enumeration order; its members are exactly the nonregular pairs |
| Project.NonregularFilesOfGroup | xcanalyzer/xcodeproject/models.py:134-136 | one group's pairs, listed along an enumeration of its files: exactly the files whose path does not start with the group path |
| Project.NonregularWalk | xcanalyzer/xcodeproject/models.py:124-138 | the pop, skip and push loop lists exactly the off-path pairs of the groups the variant-skipping walk visits, in that order |
| Project.WalkStep | xcanalyzer/xcodeproject/models.py:128-138 | one pop: a variant group leaves the rest of the walk unchanged, any other group is visited first and then the new worklist; the worklist shrinks either way |
| Project.PairsAlongSnoc | xcanalyzer/xcodeproject/models.py:134-138 | visiting one more group appends its off-path pairs to the list |
| Project.OffPathPairsMeans | xcanalyzer/xcodeproject/models.py:134-136 | a pair is listed for a group iff its file is one of the group's and lies off the group path, as many times as the file is listed |
| Project.PairsAlongMeans | xcanalyzer/xcodeproject/models.py:122-140 | the pairs listed along the visited groups are exactly those of a visited group and one of its files off its group path |
| GroupTree.NonregularPairsAppend | xcanalyzer/xcodeproject/models.py:128-138 | the nonregular pairs of a worklist are the union of those of its parts |
| GroupTree.NonregularPairsLast | xcanalyzer/xcodeproject/models.py:129-138 | a popped variant group contributes nothing; any other contributes its own pairs and those of its subtree |
| GroupTree.NonregularPopStep | xcanalyzer/xcodeproject/models.py:128-138 | one pop keeps the pairs still to be found equal to the pairs of the remaining worklist, and shrinks the worklist's group count |
| GroupTree.SkippingVisitsNonVariantNodes | xcanalyzer/xcodeproject/models.py:131-132 | the variant-skipping walk only visits non-variant groups of the tree |
| GroupTree.SkippingVisitsNonVariantRoots | xcanalyzer/xcodeproject/models.py:128-132 | every non-variant top-level group is visited |
| GroupTree.SkippingVisitsBelowVisited | xcanalyzer/xcodeproject/models.py:138 | a group visited from a visited group is visited by the whole walk |
| GroupTree.SkippingVisitsNonVariantChildren | xcanalyzer/xcodeproject/models.py:138 | a non-variant subgroup of a visited group is visited |
| GroupTree.SkippingVisitsOnlyReachable | xcanalyzer/xcodeproject/models.py:131-138 | every visited group is top-level or the child of a visited group, so no variant subtree is entered |
| GroupTree.AllGroupsAppend | xcanalyzer/xcodeproject/models.py:166-197 | the groups of a worklist are the groups of its parts |
| GroupTree.TraversalAppend | xcanalyzer/xcodeproject/models.py:166-197 | the worklist pops its second part completely before its first |
| GroupTree.PopStep | xcanalyzer/xcodeproject/models.py:166-197 | one pop visits the last group and then walks the remaining worklist with its subgroups pushed |
| GroupTree.TraversalVisitsAllGroups | xcanalyzer/xcodeproject/models.py:166-197 | the unskipping walk visits every group of the tree, counted with multiplicity |
| Project.XcProject.GroupsFiltered | xcanalyzer/xcodeproject/models.py:156-199 | the list is the walk's visit order filtered by the mode's rule |
| GroupTree.FilterGroups | xcanalyzer/xcodeproject/models.py:170-193 | a group is kept iff it is visited and passes the mode: 'empty' (no subgroups, no files), 'project_relative', 'without_folder' (not variant, group path differs from path), 'variant', otherwise all |
| GroupTree.KeepGroup | xcanalyzer/xcodeproject/models.py:170-193 | the verdict of one mode on one group, checked in the source's order: empty, project_relative, without_folder, variant, and any other mode keeps the group |
| GroupTree.FilterGroupsKeepsAll | xcanalyzer/xcodeproject/models.py:190-193 | a filter that keeps every group leaves the list unchanged |
| GroupTree.FilterGroupsAppend | xcanalyzer/xcodeproject/models.py:166-197 | filtering distributes over concatenation |
| GroupTree.FilterPopStep | xcanalyzer/xcodeproject/models.py:166-197 | one pop appends the popped group iff the mode keeps it |
| GroupTree.TraversalDistinct | xcanalyzer/xcodeproject/models.py:166-197 | with unique group paths the walk visits no group twice |
| GroupTree.UnfilteredListsEveryGroupOnce | xcanalyzer/xcodeproject/models.py:190-193 | with no mode, and unique group paths, every group of the tree is listed exactly once |
| GroupTree.FilterGroupsDistinct | xcanalyzer/xcodeproject/models.py:166-197 | filtering a list without repeats gives a list without repeats |
| Project.GroupsListedOnce | xcanalyzer/xcodeproject/models.py:156-199 | in a valid project the unfiltered group listing holds every group exactly once |
| Project.GroupEqualityIsPath | xcanalyzer/xcodeproject/models.py:50-54 | in a valid project two groups have the same group path iff they are the same group, so structural equality is the source's equality |
| Project.TargetEqualityIsKey | xcanalyzer/xcodeproject/models.py:371-379 | in a valid project two target entries have the same (type, name) iff they are the same entry |
| Project.XcProject.FileWithName | xcanalyzer/xcodeproject/models.py:149-154 | None iff no project file has that name; otherwise a project file with that name, the first in the iteration order |
| Project.XcProject.TargetsOfType | xcanalyzer/xcodeproject/models.py:75-77 | exactly the targets of that type, sorted by name |
| Project.TargetsWithType | xcanalyzer/xcodeproject/models.py:76 | exactly the targets of that type |
| Project.XcProject.TargetWithName | xcanalyzer/xcodeproject/models.py:79-85 | None iff no target has that name; otherwise the first target with that name |
| Project.FirstWithName | xcanalyzer/xcodeproject/models.py:80-85 | None iff no target has that name; otherwise the first target with that name |
| Project.XcProject.TargetsSortedByName | xcanalyzer/xcodeproject/models.py:87-90 | a permutation of the targets, sorted by name |
| Sorting.InsertBy | xcanalyzer/xcodeproject/models.py:90 | inserting into a sorted list keeps it sorted and adds exactly the element |
| Sorting.SortBy | xcanalyzer/xcodeproject/models.py:90 | `sorted` by a key returns a sorted permutation |
| Project.ObjcFilesOfTargets | xcanalyzer/xcodeproject/models.py:207-208 | a file is in the union iff it is an Objective-C file of some target |
| Project.XcProject.ObjcFileSet | xcanalyzer/xcodeproject/models.py:201-213 | a file is an Objective-C file iff some target has it as one or it is a target-less `.h` file |
| Project.XcProject.ObjcFiles | xcanalyzer/xcodeproject/models.py:201-213 | the loop's union is exactly that set |
| Project.UnionObjcFiles | xcanalyzer/xcodeproject/models.py:207-208 | the loop over the targets builds exactly the union of their Objective-C files |
| Project.ObjcFilesOfSameTargets | xcanalyzer/xcodeproject/models.py:207 | the union of the Objective-C files does not depend on the order the targets are visited in, so the name order gives the same set |
| Project.ObjcTypesOf | xcanalyzer/xcodeproject/models.py:219-220 | a declaration is listed iff one of the files holds it |
| Project.XcProject.ObjcTypes | xcanalyzer/xcodeproject/models.py:215-222 | the declarations of the Objective-C files, concatenated in an enumeration of those files |
| Project.GroupObjcByKind | xcanalyzer/xcodeproject/models.py:227-233 | one list per requested kind, each holding that kind's declarations in order |
| Project.XcProject.ObjcTypesFiltered | xcanalyzer/xcodeproject/models.py:224-235 | the keys are the requested kinds; each list is the filter by that kind of `objc_types`, the declarations of the Objective-C files one file after the other, every declaration as often as the files hold it, in an enumeration order returned as a ghost value |
| Project.SwiftFilesOfTargets | xcanalyzer/xcodeproject/models.py:242-243 | a file is in the union iff it is a Swift file of some target |
| Project.XcProject.SwiftFileSet | xcanalyzer/xcodeproject/models.py:237-245 | a file is a project Swift file iff some target has it as one |
| Project.XcProject.SwiftFiles | xcanalyzer/xcodeproject/models.py:237-245 | the loop's union is exactly that set |
| Project.UnionSwiftFiles | xcanalyzer/xcodeproject/models.py:242-243 | the loop over the targets builds exactly the union of their Swift files |
| Project.SwiftFilesOfSameTargets | xcanalyzer/xcodeproject/models.py:242 | the union of the Swift files does not depend on the order the targets are visited in |
| Project.SwiftTypesOf | xcanalyzer/xcodeproject/models.py:279-280 | a declaration is listed iff one of the files holds it |
| Project.XcProject.SwiftTypes | xcanalyzer/xcodeproject/models.py:275-282 | the declarations of the Swift files, concatenated in an enumeration of those files |
| Project.SelectedKinds | xcanalyzer/xcodeproject/models.py:251-255 | a non-empty exclusion set takes priority and selects every other kind; otherwise the inclusion set is selected |
| Project.GroupSwiftByKind | xcanalyzer/xcodeproject/models.py:257-263 | one list per selected kind, each holding that kind's declarations in order |
| Project.XcProject.SwiftTypesFiltered | xcanalyzer/xcodeproject/models.py:247-273 | per-kind lists keyed by the selected kinds, each the filter by that kind of `swift_types`, the declarations of the Swift files file after file in a ghost enumeration order; with `flat`, those lists concatenated in the kinds' iteration order, a permutation of all selected declarations with their repeats |
| Project.XcProject.ProjectTypeNames | xcanalyzer/xcodeproject/models.py:299-301 | the two name lists hold exactly the Objective-C declaration names and the non-extension Swift declaration names |
| Project.ObjcNamesAre | xcanalyzer/xcodeproject/models.py:300 | the Objective-C name list holds exactly the names declared in the Objective-C files |
| Project.SwiftNamesAre | xcanalyzer/xcodeproject/models.py:301 | the flat non-extension Swift name list holds exactly the names declared in the Swift files |
| Extensions.FileOccurrences | xcanalyzer/xcodeproject/models.py:291 | a file's extensions, each paired with the file, in order |
| Extensions.Occurrences | xcanalyzer/xcodeproject/models.py:290-291 | a (file, extension) pair is listed iff the file is listed and holds that extension |
| Extensions.OccurrencesStep | xcanalyzer/xcodeproject/models.py:290-291 | the next file's extensions come after those of the files before it |
| Extensions.ExtensionsOf | xcanalyzer/xcodeproject/models.py:290-297 | the extensions of the listed pairs, position by position |
| Extensions.DeclaredInFileMeans | xcanalyzer/xcodeproject/models.py:292-294 | an extension is file-scoped iff its own file holds a non-extension declaration of that name |
| Extensions.NameScope | xcanalyzer/xcodeproject/models.py:305-316 | the scope of a remaining extension: Objective-C if a project Objective-C type has its name, else Swift if a project non-extension Swift type has it, else outer |
| Extensions.Scope | xcanalyzer/xcodeproject/models.py:290-316 | the one-step reference rule: file scope first, else the name scope |
| Extensions.WithScope | xcanalyzer/xcodeproject/models.py:284-323 | the extensions of a scope, in the order of the occurrences; no more of them than occurrences |
| Extensions.WithScopeSound | xcanalyzer/xcodeproject/models.py:284-323 | every extension in a scope's list comes from a listed pair that the classification gives that scope |
| Extensions.FirstPassStep | xcanalyzer/xcodeproject/models.py:294-297 | each extension goes to the file-scoped list or to the remaining list, never both |
| Extensions.FileScopePass | xcanalyzer/xcodeproject/models.py:289-297 | the first loop builds exactly the file-scoped and remaining lists of the files' extensions |
| Extensions.FileScopeScan | xcanalyzer/xcodeproject/models.py:291-297 | one file's inner loop appends to the two lists exactly the file-scoped and the remaining extensions of that file, in declaration order |
| Extensions.NameScopePass | xcanalyzer/xcodeproject/models.py:303-316 | the reverse-then-pop loop keeps the remaining extensions in order and sends each to the Objective-C, Swift or outer list by name |
| Extensions.TwoPassClassification | xcanalyzer/xcodeproject/models.py:289-316 | the two passes together give, for each scope, exactly the extensions the one-step rule gives that scope, in order |
| Extensions.FirstPassFileScoped | xcanalyzer/xcodeproject/models.py:289-297 | the first pass's file-scoped list is the FILE scope's list |
| Extensions.SecondPassNameScoped | xcanalyzer/xcodeproject/models.py:307-316 | the second pass over the remaining extensions gives each other scope's list |
| Extensions.ScopePartition | xcanalyzer/xcodeproject/models.py:318-323 | the four scope lists together are a permutation of all extensions, so their lengths sum to the number of extensions |
| Extensions.ScopeMultisets | xcanalyzer/xcodeproject/models.py:318-323 | each extension occurrence lands in exactly one of the four scope lists: the four lists together hold the extensions as a multiset |
| Extensions.ScopeMap | xcanalyzer/xcodeproject/models.py:318-323 | the returned dictionary has exactly the four scopes as keys and maps each to the extensions the one-step rule gives that scope |
| Extensions.ScopeMembership | xcanalyzer/xcodeproject/models.py:318-323 | every extension is in the list of its own scope |
| Extensions.WithScopeAppend | xcanalyzer/xcodeproject/models.py:295-316 | each scope's list for two runs of files is the first run's list followed by the second's |
| Extensions.WithScopeSubsequence | xcanalyzer/xcodeproject/models.py:295-316 | each scope's list keeps the extensions' relative order |
| Extensions.FileScopeFirst | xcanalyzer/xcodeproject/models.py:292-295 | a name match in its own file makes an extension FILE-scoped, whatever Objective-C or Swift names exist |
| Extensions.ProjectScopeOrder | xcanalyzer/xcodeproject/models.py:310-316 | otherwise an Objective-C name match wins over a Swift one, and an extension with no match is OUTER |
| Project.XcProject.SwiftExtensionsGroupedByScope | xcanalyzer/xcodeproject/models.py:284-323 | keys are the four scopes; each list is that scope's extensions, file after file in the Swift files' iteration order |
| Strings.DropLastTwo | xcanalyzer/xcodeproject/generators.py:652 | drops exactly the final two characters, or everything from a shorter string |
| Reporters.DuplicateNamesMeans | xcanalyzer/xcodeproject/generators.py:654-666 | a base name is a duplicate for an extension iff two distinct files with that extension share it |
| Reporters.PairIsDuplicate | xcanalyzer/xcodeproject/generators.py:654-666 | two distinct files with the same extension and base name make that base name a duplicate |
| Reporters.BaseName | xcanalyzer/xcodeproject/generators.py:651-652 | the file name without its last two characters, as `Reporters.BaseNameSplit` states |
| Reporters.BaseNameSplit | xcanalyzer/xcodeproject/generators.py:651-652 | `filename[:-2]`: the base name followed by the last two characters is the file name, and a name shorter than two characters has an empty base name |
| Reporters.ObjcNamesStep | xcanalyzer/xcodeproject/generators.py:654-666 | one loop step adds the file's base name to the names of its extension, and to the duplicates when it was already there |
| Reporters.CollectObjcNames | xcanalyzer/xcodeproject/generators.py:650-666 | the loop builds exactly the `.h` and `.m` name sets and their duplicate sets |
| Reporters.NoteName | xcanalyzer/xcodeproject/generators.py:654-665 | one file adds its base name to the names of its extension, and to the duplicates when the name was already there; the files so far give exactly the name and duplicate sets |
| Reporters.MissingObjcFiles | xcanalyzer/xcodeproject/generators.py:643-690 | sorted lists of the duplicate `.h` and `.m` names, of the `.m` names without `.h` and of the `.h` names without `.m` |
| Reporters.PlainBaseName | xcanalyzer/xcodeproject/generators.py:651-652 | for a path without '/', the file name is the path and the base name drops its last two characters |
| Reporters.NestedSampleName | xcanalyzer/xcodeproject/generators.py:651-652 | `x/B.h` has file name `B.h` and base name `B` |
| Reporters.SampleFacts | xcanalyzer/xcodeproject/generators.py:651-666 | the base names and extension tests of A.h, A.m, B.h, B.m and x/B.h |
| Reporters.FiveFilesOneExtension | xcanalyzer/xcodeproject/generators.py:654-666 | for two A files and three B files split by one extension, the names are {A, B} and B is a duplicate iff two B files have the extension |
| Reporters.FiveObjcFiles | xcanalyzer/xcodeproject/generators.py:643-690 | for five such files, `B` is the only duplicate `.h` name, there is no duplicate `.m` and no name is missing |
| Reporters.SampleObjcNames | xcanalyzer/xcodeproject/generators.py:643-690 | A.h, A.m, B.h, B.m and x/B.h give duplicate `.h` names {B} and nothing else |
| Reporters.OwnersOfMeans | xcanalyzer/xcodeproject/generators.py:380-385 | a target key owns a file iff some target with that key holds the file |
| Reporters.Shared | xcanalyzer/xcodeproject/generators.py:388 | keeps exactly the files with two or more owners, with their owner sets |
| Reporters.AddedOwners | xcanalyzer/xcodeproject/generators.py:381-385 | after one target, the map's keys are the old keys plus that target's files, and the target is added exactly to its files' owner sets |
| Reporters.AddedOwnersNone | xcanalyzer/xcodeproject/generators.py:381-385 | a target with no files leaves the map unchanged |
| Reporters.AddedOwnersStep | xcanalyzer/xcodeproject/generators.py:382-385 | the if/else update for one more file adds exactly that file's owner |
| Reporters.AddOwner | xcanalyzer/xcodeproject/generators.py:381-385 | the inner loop over one target's files performs exactly that update |
| Reporters.OwnersStep | xcanalyzer/xcodeproject/generators.py:380-385 | adding the next target's files extends the owner map of the targets before it to that of the targets so far |
| Reporters.OwnerAt | xcanalyzer/xcodeproject/generators.py:380-385 | after the next target is recorded, each file's entry is exactly the set of targets so far that have it |
| Reporters.OwnersSnoc | xcanalyzer/xcodeproject/generators.py:380-385 | the files of the targets so far grow by the next target's files |
| Reporters.OwnersOfSnoc | xcanalyzer/xcodeproject/generators.py:380-385 | a file's owners grow by the next target exactly when it holds the file |
| Reporters.NoOwners | xcanalyzer/xcodeproject/generators.py:380-385 | a file no target holds has no owner |
| Reporters.FileTargets | xcanalyzer/xcodeproject/generators.py:377-385 | the outer loop builds exactly the owner map of all targets |
| Reporters.SharedFiles | xcanalyzer/xcodeproject/generators.py:375-398 | the shared files with their owner sets, and their paths once each in sorted order |
| Reporters.SharedMeans | xcanalyzer/xcodeproject/generators.py:375-388 | in a valid project, a file is shared iff two different targets hold it |
| Reporters.SharedAmong | xcanalyzer/xcodeproject/generators.py:375-388 | with distinct target keys, a file is shared iff two different targets hold it |
| Reporters.OwnedByPair | xcanalyzer/xcodeproject/generators.py:380-388 | a file held by two targets with different keys has at least two owners |
| Reporters.TwoOwners | xcanalyzer/xcodeproject/generators.py:380-388 | a file with two owners is held by two different targets |
| Reporters.BucketUnionMeans | xcanalyzer/xcodeproject/generators.py:407-410 | a file is in a bucket's union iff some target has it in that bucket |
| Reporters.BucketSnoc | xcanalyzer/xcodeproject/generators.py:407-410 | each loop step adds exactly the next target's bucket |
| Reporters.UnionBuckets | xcanalyzer/xcodeproject/generators.py:403-410 | the loop builds exactly the source, resource and header unions |
| Reporters.PartitionStep | xcanalyzer/xcodeproject/generators.py:417-423 | one file goes to the Swift set if it ends in `.swift`, otherwise to the Objective-C set if it ends in `.m`, otherwise to the other set |
| Reporters.PartitionSources | xcanalyzer/xcodeproject/generators.py:413-423 | the three sets are the Swift, Objective-C and other sources, disjoint, covering the sources, with sizes summing to theirs |
| Reporters.SourceKindsPartition | xcanalyzer/xcodeproject/generators.py:417-423 | the three kinds of source partition any set of files |
| Reporters.FilesSummary | xcanalyzer/xcodeproject/generators.py:400-436 | each count is the size of its set; the three source counts sum to the source count, and the total is source + resource + header, so linked files are not counted |
| Reporters.PathsAdd | xcanalyzer/xcodeproject/generators.py:549-553 | the paths of one more file are the old paths plus its path |
| Reporters.StartsWithSome | xcanalyzer/xcodeproject/generators.py:569-573 | the flag-and-break loop answers whether the path starts with some ignored dirpath |
| Reporters.TargetOrphanTest | xcanalyzer/xcodeproject/generators.py:560-582 | a path is kept iff it ends in neither `Info.plist` nor `.h`, starts with no ignored dirpath, and none of its directory segments is an ignored directory name |
| Reporters.TargetOrphansStep | xcanalyzer/xcodeproject/generators.py:560-582 | each loop step keeps one more file iff its path passes those tests |
| Reporters.ListsStep | xcanalyzer/xcodeproject/generators.py:582 | appending the path of a kept file keeps the list equal to the paths of the kept files |
| Reporters.CollectTargetOrphans | xcanalyzer/xcodeproject/generators.py:556-582 | the list holds exactly the paths of the files that pass, one per file |
| Reporters.SupportFilesStep | xcanalyzer/xcodeproject/generators.py:587-600 | each loop step keeps one more file iff its path ends in `Info.plist` or `.h` |
| Reporters.CollectSupportFiles | xcanalyzer/xcodeproject/generators.py:584-600 | the list holds exactly the paths ending in `Info.plist` or `.h`, one per file |
| Reporters.SortPaths | xcanalyzer/xcodeproject/generators.py:606 | sorting gives a sorted permutation of the paths |
| Sorting.SortedElements | xcanalyzer/xcodeproject/generators.py:391-392 | a set listed and sorted holds each element once, in order |
| Reporters.OrphanFiles | xcanalyzer/xcodeproject/generators.py:543-606 | unknown modes are an error with the source's message. 'all' and 'project' give the folder paths outside the target or project files. 'target' gives the target-less files that pass the tests. 'referenced' and 'unreferenced' give the `Info.plist`/`.h` paths of the target files and of the target-less files. Every result is sorted |
| Reporters.SortedEnumeration | xcanalyzer/xcodeproject/generators.py:550-554 | a permutation of an enumeration of a set enumerates it too |
| Reporters.TargetAndUnreferencedDisjoint | xcanalyzer/xcodeproject/generators.py:556-600 | no path reported by 'target' is reported by 'unreferenced' for the same files |
| GroupTree.VariantCount | xcanalyzer/xcodeproject/generators.py:472 | the number of variant groups is at most the length of the list |
| GroupTree.VariantCountAppend | xcanalyzer/xcodeproject/generators.py:472-475 | the variant count of a concatenation is the sum of the counts |
| GroupTree.TraversalRootsAndDescendants | xcanalyzer/xcodeproject/generators.py:465-476 | the listed groups are the roots and their descendants, in number and in variant count |
| Reporters.AllGroupsSummary | xcanalyzer/xcodeproject/generators.py:462-476 | root, variant root, non-root variant and other counts; both non-root counts are non-negative and root + variant + other equals the total |
| Reporters.GroupPathsByFile | xcanalyzer/xcodeproject/generators.py:613-616 | the keys are the pairs' file paths; each maps to the group path of the last pair with that path |
| Reporters.LastWithPathStep | xcanalyzer/xcodeproject/generators.py:615-616 | overwriting an entry keeps each key mapped to its last pair |
| Reporters.NonregularFileGroups | xcanalyzer/xcodeproject/generators.py:611-619 | the keys are the nonregular file paths; each is mapped to the group path of the LAST pair the walk lists for that path, as later assignments overwrite earlier ones; the paths once each, sorted |
| Strings.StrLeTotal | xcanalyzer/xcodeproject/generators.py:392 | the string order used for sorting is total |
| Strings.StrLeAntisymmetric | xcanalyzer/xcodeproject/generators.py:392 | the string order used for sorting is antisymmetric |
| Strings.StrLeTransitive | xcanalyzer/xcodeproject/generators.py:392 | the string order used for sorting is transitive |
| Sorting.SortedUnique | xcanalyzer/xcodeproject/generators.py:392 | two sorted permutations of the same strings are equal, so the sorted output is determined by the set |
| DependencyGraph.ArgumentError | xcanalyzer/xcodeproject/generators.py:25-35 | no error iff the filepath and title are given, the format is pdf or png and the dependency type is build, linked or embed; a missing filepath is reported first, then a missing title |
| DependencyGraph.SelectTargets | xcanalyzer/xcodeproject/generators.py:59-65 | the drawn targets are exactly those of an included type, all of them when no type is given, each once, sorted by name |
| DependencyGraph.StyleOf | xcanalyzer/xcodeproject/generators.py:68-76 | dotted iff test or UI test, dashed iff app or watch extension, diagonals iff application or watch application, solid iff framework or other |
| DependencyGraph.DependenciesOf | xcanalyzer/xcodeproject/generators.py:80-88 | the dependency set a dependency type selects: build dependencies, linked frameworks, otherwise embedded frameworks |
| DependencyGraph.Nodes | xcanalyzer/xcodeproject/generators.py:68-77 | one node per drawn target, with its name and the style of its type |
| DependencyGraph.NodesSorted | xcanalyzer/xcodeproject/generators.py:65-77 | nodes of name-sorted targets are sorted by name |
| DependencyGraph.EdgeStep | xcanalyzer/xcodeproject/generators.py:91-95 | each dependency adds an edge iff its type is included |
| DependencyGraph.ListedEdges | xcanalyzer/xcodeproject/generators.py:90-95 | the edges listed along an enumeration of a dependency set go exactly to its included members |
| DependencyGraph.EdgesFrom | xcanalyzer/xcodeproject/generators.py:80-95 | a target's edges are, along its chosen dependencies sorted by name, one edge per dependency of an included type; they go exactly to those dependencies |
| DependencyGraph.EdgesToMeans | xcanalyzer/xcodeproject/generators.py:91-95 | an edge is listed along a dependency list iff some entry of an included type has that name |
| DependencyGraph.Edges | xcanalyzer/xcodeproject/generators.py:79-95 | the edges are, drawn target after drawn target, each one's edges in its dependencies' name order; an edge is drawn iff it goes from a drawn target to one of its included dependencies of the chosen kind |
| DependencyGraph.EdgesAlongSnoc | xcanalyzer/xcodeproject/generators.py:79-95 | one more target appends its own edges |
| DependencyGraph.EdgesAlongMeans | xcanalyzer/xcodeproject/generators.py:79-95 | the edges listed along the targets go exactly from a listed target to its included dependencies |
| DependencyGraph.NodesMeans | xcanalyzer/xcodeproject/generators.py:59-77 | the drawn nodes are exactly the (name, style) pairs of the targets of an included type |
| DependencyGraph.TargetsDependenciesGraph | xcanalyzer/xcodeproject/generators.py:17-95 | an error with the source's message iff an argument is bad; otherwise the label is "project - title" followed by two newlines; the drawn targets are all targets, or each target of an included type once, sorted by name; node i is drawn target i with its style; the edges are, target after target, those to its included dependencies in name order |

## Left out

- Printing, termcolor and column-width arithmetic in the reporters. The model returns what they would print. The mislabelled missing `.m` names printed with a `.h` suffix (xcanalyzer/xcodeproject/generators.py:690) are output text only.
- graphviz: building the `Digraph`, rendering, preview and printing its source. The model returns the label, nodes and edges as a value.
- `FolderReporter.print_empty_dirs` and `_find_folder_filepaths`: they walk the real filesystem. `Reporters.OrphanFiles` takes the folder's paths as a parameter.
- `relative_path_for_file`: plain concatenation with the on-disk directory.
- The manifest parser, the Swift and Objective-C declaration scanners and `find-dead-types.py`. `xcodeproject/parsers.py` is not part of this model. Declarations are given as data on each `XcFile`.
- `__hash__` and `__repr__`. Equality by path, group path and (type, name) is modelled by structural equality under `XcProject.Valid`.
- The `assert ... issubset(ALL)` checks of the filters always hold, because kinds are datatypes.
- Python's set and dictionary iteration order is left unspecified. Results whose order depends on it are stated for an arbitrary enumeration, returned as a ghost value.
- Reporters.SharedFiles: returns the owner sets as target keys; the comma-joined target names are display only.
- DependencyGraph.EdgesFrom: any dependency type other than build and linked selects the embed set. The source's "not supported" exception for other types cannot be reached, because the arguments are validated first.
- DependencyGraph.ArgumentError: Python's falsy `None` or empty filepath and title are modelled as `Option<string>`, where `Given` means present and non-empty. An absent dependency type is shown as `None` in the message.
- Project.XcProject.GroupsFiltered: the copying loop over the top-level groups is a value copy.
- Integers are unbounded. The counts cannot overflow in Python either.
