# Mautic asset generation, session form fields and the default controller, in Dafny

This project models three pieces of Mautic:

- **`AssetGenerationHelper::getAssets`**, with its helpers `findAssets` and `findOverrides`.
  It collects the stylesheets and scripts of every bundle and of the current theme.
  In production it concatenates them into `css/libraries.css`, `css/app.css`, `js/libraries.js`, `js/app.js` and any other groups, rebuilding only what is stale.
  In development it returns the individual files.
  The result is memoised for the rest of the request.
- **`FieldModel::getSessionFields`**: the fields being edited in the form builder, minus those deleted, both kept in the session.
- **`DefaultController::indexAction`**: the choice between running an AJAX action, loading AJAX content and rendering the page.

The file system is an immutable snapshot (`Snapshot`):

- the environment and system paths;
- the bundles, each with its `Assets/css` and `Assets/js` directory when present;
- the theme's override files;
- the existing artifacts, with their modification times.

A run is a pure function of that snapshot and the `static $assets` cache (`Helper`).
Its effects are returned, not performed: the set of `(type, group)` artifacts rewritten, and the content of every rewritten CSS artifact.
PHP arrays with string keys are ordered maps (`PhpArray`): assignment to an existing key keeps its position, and a new key is appended.
`array_merge` lets the later array win on every shared key.

Modules, in dependency order:

- `Wrappers`: the `Option` type.
- `PhpArray`: ordered string-keyed PHP arrays, `array_merge`, `array_diff_key`.
- `PathStrings`: `str_replace` with an empty replacement, the leading-slash strip, and `dirname`.
- `NatSort`: Finder's sort under a comparator parameter.
- `CssRewrite`: the `preg_replace` that re-roots `url(` references.
- `AssetDiscovery`: `findAssets` and `findOverrides`.
- `AssetGeneration`: `getAssets`.
- `FieldModel`.
- `DefaultController`.

## Model

| member | source | states |
|---|---|---|
| PhpArray.Get | app/bundles/CoreBundle/Helper/AssetGenerationHelper.php:124 | an entry is found exactly when the key is among the array's keys |
| PhpArray.Put | app/bundles/CoreBundle/Helper/AssetGenerationHelper.php:240 | the assigned key holds the new value and every other key keeps its value; an existing key keeps its position and a new key is appended |
| PhpArray.PutEntries | app/bundles/CoreBundle/Helper/AssetGenerationHelper.php:240 | after an assignment every entry is the assigned one or an entry from before |
| PhpArray.GetEntry | app/bundles/CoreBundle/Helper/AssetGenerationHelper.php:124 | a value read under a key is the value of an entry with that key |
| PhpArray.AppendFreshConcat | app/bundles/CoreBundle/Helper/AssetGenerationHelper.php:240 | assigning one run of keys and then another gives the same key order as assigning both runs in one go |
| PhpArray.AppendFreshMembers | app/bundles/CoreBundle/Helper/AssetGenerationHelper.php:240 | after a run of assignments the keys are the old keys and the assigned ones |
| PhpArray.AppendFreshAllNew | app/bundles/CoreBundle/Helper/AssetGenerationHelper.php:240 | when the assigned keys are new and none repeats, they are appended in assignment order |
| PhpArray.PutDistinct | app/bundles/CoreBundle/Helper/AssetGenerationHelper.php:240 | assignment never duplicates a key |
| PhpArray.MergeGet | app/bundles/CoreBundle/Helper/AssetGenerationHelper.php:98 | after `array_merge(a, b)` a key of `b` carries `b`'s value, and any other key carries `a`'s |
| PhpArray.MergeDistinct | app/bundles/CoreBundle/Helper/AssetGenerationHelper.php:102 | `array_merge` never duplicates a key |
| PhpArray.Merge | app/bundles/CoreBundle/Helper/AssetGenerationHelper.php:98 | `array_merge(a, b)`, also a run of `$a[$k] = $v` assignments: the result's keys are exactly those of `a` and of `b` |
| PhpArray.MergeConcat | app/bundles/CoreBundle/Helper/AssetGenerationHelper.php:223-244 | assigning one run of entries and then another is assigning both runs in one go |
| PhpArray.MergeKeys | app/bundles/CoreBundle/Helper/AssetGenerationHelper.php:240 | after a run of assignments the keys are the old keys followed by each new key at its first assignment |
| PhpArray.MergeLast | app/bundles/CoreBundle/Helper/AssetGenerationHelper.php:240 | after a run of assignments each key holds the value last assigned to it, and an unassigned key keeps its old value |
| PhpArray.MergeFresh | app/bundles/CoreBundle/Helper/AssetGenerationHelper.php:240 | when the assigned keys are new and none repeats, the entries are appended in assignment order, values included |
| PhpArray.DiffKey | app/bundles/FormBundle/Model/FieldModel.php:61 | the result holds exactly the entries of `a` whose key is not listed, with their values, in `a`'s order |
| PhpArray.DiffKeyOnlyPresentKeys | app/bundles/FormBundle/Model/FieldModel.php:61 | listed keys that `a` lacks make no difference |
| PhpArray.DiffKeyNothing | app/bundles/FormBundle/Model/FieldModel.php:61 | removing no key of `a` returns `a` unchanged |
| PathStrings.RemoveAllAbsent | app/bundles/CoreBundle/Helper/AssetGenerationHelper.php:225 | `str_replace` leaves a string without the needle unchanged |
| PathStrings.RemoveAllLeading | app/bundles/CoreBundle/Helper/AssetGenerationHelper.php:225 | `str_replace` deletes a leading occurrence of the needle |
| PathStrings.StripLeadingSlash | app/bundles/CoreBundle/Helper/AssetGenerationHelper.php:226-228 | exactly one leading `/` is removed when present, otherwise the path is unchanged |
| PathStrings.DirnameOfJoin | app/bundles/CoreBundle/Helper/AssetGenerationHelper.php:136 | `dirname` of `dir/file` is `dir` |
| PathStrings.DirnameOfBareName | app/bundles/CoreBundle/Helper/AssetGenerationHelper.php:136 | `dirname` of a name without a slash is `.` |
| PathStrings.Dirname | app/bundles/CoreBundle/Helper/AssetGenerationHelper.php:136 | PHP's `dirname`; `DirnameOfJoin` and `DirnameOfBareName` state it for the paths the helper passes |
| PathStrings.RemoveAll | app/bundles/CoreBundle/Helper/AssetGenerationHelper.php:225 | `str_replace` with an empty replacement never lengthens the string; `RemoveAllAbsent` and `RemoveAllLeading` state what it removes |
| NatSort.Sort | app/bundles/CoreBundle/Helper/AssetGenerationHelper.php:216-219 | the sort returns a permutation of its input |
| NatSort.SortSorted | app/bundles/CoreBundle/Helper/AssetGenerationHelper.php:253-256 | under a total comparator each file is `le` its successor |
| NatSort.SortedIsPairwise | app/bundles/CoreBundle/Helper/AssetGenerationHelper.php:216-219 | with a transitive comparator the order holds between any earlier and any later file |
| AssetDiscovery.Matching | app/bundles/CoreBundle/Helper/AssetGenerationHelper.php:214 | a file is kept exactly when it has the `.ext` suffix and is not a dot file, as many times as it is listed |
| AssetDiscovery.ListedSpec | app/bundles/CoreBundle/Helper/AssetGenerationHelper.php:251-256 | a listing holds exactly the `*.ext` non-dot files, each as many times as the directory lists it, in natural order of their real paths |
| AssetDiscovery.TakesDir | app/bundles/CoreBundle/Helper/AssetGenerationHelper.php:206 | a subdirectory is scanned unless its name ends in `less` or starts with a dot; `ListedSpec` and the scan lemmas use it as their filter |
| AssetDiscovery.TakesFile | app/bundles/CoreBundle/Helper/AssetGenerationHelper.php:214 | a file is taken when its name ends in `.ext` and it is not a dot file; `Matching` and `ListedSpec` state what it keeps |
| AssetDiscovery.RelPathUnderRoot | app/bundles/CoreBundle/Helper/AssetGenerationHelper.php:225-228 | a file below the root gets its path below the root as relative path |
| AssetDiscovery.RelPath | app/bundles/CoreBundle/Helper/AssetGenerationHelper.php:225-228 | the root prefix is removed, and one leading `/` too for subdirectory files (not for top-level files, line 260); `RelPathUnderRoot` states the result for a file below the root |
| AssetDiscovery.FileDetails | app/bundles/CoreBundle/Helper/AssetGenerationHelper.php:230-233 | the details recorded for a file: its path name, its relative path and, for the rebuild, its mtime and content; `FileEntriesSpec` states them per file |
| AssetDiscovery.FileEntriesSpec | app/bundles/CoreBundle/Helper/AssetGenerationHelper.php:223-243 | a file loop's entries are its files' own details, one per file in order, each keyed by the relative path it records |
| AssetDiscovery.MaxMtime | app/bundles/CoreBundle/Helper/AssetGenerationHelper.php:236-239 | the result is none exactly for no files, bounds every file's mtime from above, and is some file's mtime |
| AssetDiscovery.MaxMtimeAppend | app/bundles/CoreBundle/Helper/AssetGenerationHelper.php:268-271 | the newest time of two lists is the newer of their newest times |
| AssetDiscovery.Bump | app/bundles/CoreBundle/Helper/AssetGenerationHelper.php:237-238 | the group's time becomes the newer of its old time and the file's; other groups are unchanged |
| AssetDiscovery.AddGrouped | app/bundles/CoreBundle/Helper/AssetGenerationHelper.php:240 | in production the file joins `assets[ext][group]` under its relative path, and no other slot changes |
| AssetDiscovery.AddGroupedWellKeyed | app/bundles/CoreBundle/Helper/AssetGenerationHelper.php:240 | recording a file never makes a type or a group within a type appear twice |
| AssetDiscovery.AddFlat | app/bundles/CoreBundle/Helper/AssetGenerationHelper.php:242 | in development the file joins `assets[ext]` under its relative path, and no other type changes |
| AssetDiscovery.AddFile | app/bundles/CoreBundle/Helper/AssetGenerationHelper.php:235-243 | one file: in production into its group with its time bumped, in development into the flat list; `AddFileGrouped` and `AddFileFlat` state it |
| AssetDiscovery.AddFiles | app/bundles/CoreBundle/Helper/AssetGenerationHelper.php:223-244 | the file loop, in listing order; `AddFilesGrouped`, `AddFilesFlat` and `AddFilesStamps` state it |
| AssetDiscovery.ScanSubdirs | app/bundles/CoreBundle/Helper/AssetGenerationHelper.php:210-247 | the subdirectory loop, each kept subdirectory a group named after it; `ScanSubdirsGrouped`, `ScanSubdirsFlat` and `ScanSubdirsStamps` state it |
| AssetDiscovery.FindAssets | app/bundles/CoreBundle/Helper/AssetGenerationHelper.php:202-280 | `findAssets`: subdirectories first, then the top-level files into `app`; `FindAssetsGrouped`, `FindAssetsFlat` and `FindAssetsStamps` state it |
| AssetDiscovery.AddFileGrouped | app/bundles/CoreBundle/Helper/AssetGenerationHelper.php:230-240 | in production one file's details are assigned under its relative path to its own type and group only (overwriting in place or appended), and the flat lists are untouched |
| AssetDiscovery.AddFileFlat | app/bundles/CoreBundle/Helper/AssetGenerationHelper.php:230-243 | in development one file's details are assigned under its relative path to its type's flat list only, and the groups are untouched |
| AssetDiscovery.AddFilesStamps | app/bundles/CoreBundle/Helper/AssetGenerationHelper.php:223-244 | a file loop leaves its group with the newer of its old time and the newest file's time |
| AssetDiscovery.ScanSubdirsStamps | app/bundles/CoreBundle/Helper/AssetGenerationHelper.php:210-247 | across subdirectories each group's time is the newest time of all files of kept subdirectories of that name |
| AssetDiscovery.FindAssetsStamps | app/bundles/CoreBundle/Helper/AssetGenerationHelper.php:202-280 | the returned map gives each group the newest mtime of the files the scan put in that group, and nothing outside production |
| AssetDiscovery.AddFilesGrouped | app/bundles/CoreBundle/Helper/AssetGenerationHelper.php:223-240 | in production a file loop assigns its files' entries (relative path to path, mtime and content), in listing order, to its group |
| AssetDiscovery.AddFilesFlat | app/bundles/CoreBundle/Helper/AssetGenerationHelper.php:223-243 | in development a file loop assigns its files' entries, in listing order, to its type's flat list, and records no time |
| AssetDiscovery.AddFilesWellKeyed | app/bundles/CoreBundle/Helper/AssetGenerationHelper.php:223-244 | a file loop never makes a type or a group within a type appear twice |
| AssetDiscovery.ScanSubdirsGrouped | app/bundles/CoreBundle/Helper/AssetGenerationHelper.php:210-247 | in production the subdirectories are scanned in listing order, each one's files' entries assigned to the group named after it |
| AssetDiscovery.ScanSubdirsFlat | app/bundles/CoreBundle/Helper/AssetGenerationHelper.php:210-247 | in development the subdirectories' entries are assigned to the flat list in listing order, and no time is recorded |
| AssetDiscovery.ScanSubdirsWellKeyed | app/bundles/CoreBundle/Helper/AssetGenerationHelper.php:210-247 | the subdirectory scan never makes a type or a group within a type appear twice |
| AssetDiscovery.FindAssetsGrouped | app/bundles/CoreBundle/Helper/AssetGenerationHelper.php:210-276 | in production a group becomes its old entries with the scan's entries assigned over them: kept subdirectories named after it in listing order, each in natural order of real path, then for `app` the top-level files; a path already present keeps its place and takes the new details |
| AssetDiscovery.FindAssetsGroupOrder | app/bundles/CoreBundle/Helper/AssetGenerationHelper.php:210-276 | when the scan's paths are distinct and new, the group is exactly its old entries followed by the scan's entries in scan order |
| AssetDiscovery.FindAssetsWellKeyed | app/bundles/CoreBundle/Helper/AssetGenerationHelper.php:240-272 | a scan never lists a type twice or a group twice within a type |
| AssetDiscovery.FindAssetsFlat | app/bundles/CoreBundle/Helper/AssetGenerationHelper.php:210-276 | in development a type's flat list gets every taken file's entry, subdirectories first and then the top-level files, and no time is recorded |
| AssetDiscovery.FindAssetsFlatOrder | app/bundles/CoreBundle/Helper/AssetGenerationHelper.php:210-276 | when the scan's paths are distinct and new, the flat list is exactly its old entries followed by the scan's entries in scan order |
| AssetDiscovery.OverrideSlotStamps | app/bundles/CoreBundle/Helper/AssetGenerationHelper.php:312-316 | an existing override file bumps its type and group's time |
| AssetDiscovery.OverrideSlot | app/bundles/CoreBundle/Helper/AssetGenerationHelper.php:302-321 | one override slot: the file at `<theme>/<ext>/<name>.<ext>`, when it exists, joins its group (production, time bumped) or the flat list; `OverrideSlotGroups`, `OverrideSlotFlat` and `OverrideSlotStamps` state it |
| AssetDiscovery.FindOverrides | app/bundles/CoreBundle/Helper/AssetGenerationHelper.php:290-326 | `findOverrides`: css then js, `libraries` then `app`; `FindOverridesGroups`, `FindOverridesFlat` and `FindOverridesStamps` state it |
| AssetDiscovery.OverrideSlotGroups | app/bundles/CoreBundle/Helper/AssetGenerationHelper.php:302-317 | in production an existing override file's details (its mtime and content) are assigned at `<theme>/<ext>/<name>.<ext>` to its own type and group only |
| AssetDiscovery.OverrideSlotFlat | app/bundles/CoreBundle/Helper/AssetGenerationHelper.php:302-320 | in development an existing override file's details are assigned to its type's flat list only, and no time is recorded |
| AssetDiscovery.OverrideSlotWellKeyed | app/bundles/CoreBundle/Helper/AssetGenerationHelper.php:317 | one override slot never makes a type or a group within a type appear twice |
| AssetDiscovery.CssOverrideStamps | app/bundles/CoreBundle/Helper/AssetGenerationHelper.php:301-316 | the two CSS slots record, for CSS only, each group's override time, and list CSS exactly when one of its overrides exists |
| AssetDiscovery.JsOverrideStamps | app/bundles/CoreBundle/Helper/AssetGenerationHelper.php:301-316 | the two JavaScript slots record each JavaScript group's override time, keep every other type's times, and list JavaScript exactly when one of its overrides exists |
| AssetDiscovery.FindOverridesStamps | app/bundles/CoreBundle/Helper/AssetGenerationHelper.php:290-326 | each override group's time is its override file's mtime, and a type has an entry exactly when one of its overrides exists |
| AssetDiscovery.FindOverridesGroups | app/bundles/CoreBundle/Helper/AssetGenerationHelper.php:296-317 | `libraries_custom.ext` is assigned to group `libraries` and `app_custom.ext` to `app`, with the override file's content, at `<theme>/<ext>/<name>.<ext>`, after everything already in the group |
| AssetDiscovery.FindOverridesWellKeyed | app/bundles/CoreBundle/Helper/AssetGenerationHelper.php:317 | the overrides never list a type twice or a group twice within a type |
| AssetDiscovery.FindOverridesFlat | app/bundles/CoreBundle/Helper/AssetGenerationHelper.php:301-320 | in development a type's existing overrides are assigned to its flat list with their content, `libraries_custom` before `app_custom`, after everything already there |
| CssRewrite.CssRel | app/bundles/CoreBundle/Helper/AssetGenerationHelper.php:136 | the prefix climbs with `../../` and ends with `/` |
| CssRewrite.CssRelOfJoin | app/bundles/CoreBundle/Helper/AssetGenerationHelper.php:136 | a file at `dir/file` gets the prefix `../../dir/` |
| CssRewrite.RewriteNoUrl | app/bundles/CoreBundle/Helper/AssetGenerationHelper.php:149-151 | text without `url(` passes unchanged; the match is case-sensitive |
| CssRewrite.RewriteCopiesPrefix | app/bundles/CoreBundle/Helper/AssetGenerationHelper.php:149-151 | text that cannot begin a match is copied as is |
| CssRewrite.MatchRelative | app/bundles/CoreBundle/Helper/AssetGenerationHelper.php:149 | at `url(`, whitespace, optional quote and a relative target the pattern matches, consuming the whitespace and the quote |
| CssRewrite.MatchAbsolute | app/bundles/CoreBundle/Helper/AssetGenerationHelper.php:149 | the negative lookahead rejects a protocol-relative, http, https or data target after any whitespace and optional quote |
| CssRewrite.RewriteRelative | app/bundles/CoreBundle/Helper/AssetGenerationHelper.php:149-151 | `url(`, whitespace, optional quote and a relative target become `url(`, the quote and the prefix, and the whitespace is dropped |
| CssRewrite.RewriteAbsolute | app/bundles/CoreBundle/Helper/AssetGenerationHelper.php:149 | a protocol-relative, http, https or data target is kept with its whitespace and quote |
| CssRewrite.RewriteKeepsAbsolute | app/bundles/CoreBundle/Helper/AssetGenerationHelper.php:149-151 | an absolute or data reference with no further `url(` after it leaves the text exactly as written |
| CssRewrite.Rewrite | app/bundles/CoreBundle/Helper/AssetGenerationHelper.php:149-151 | the `preg_replace` over the whole text, left to right without overlaps; `RewriteNoUrl`, `RewriteCopiesPrefix`, `RewriteRelative`, `RewriteAbsolute` and `RewriteKeepsAbsolute` state it |
| AssetGeneration.BuildGroups | app/bundles/CoreBundle/Helper/AssetGenerationHelper.php:120-126 | within one type a group is rebuilt exactly when it is stale, and only CSS groups get written content |
| AssetGeneration.Stale | app/bundles/CoreBundle/Helper/AssetGenerationHelper.php:124 | an artifact is rebuilt when forced, when missing, or when older than its group's recorded time; `NoStampNeverOlder` states the unset case, `ProdRebuildsExactlyStale` the use |
| AssetGeneration.CssPiece | app/bundles/CoreBundle/Helper/AssetGenerationHelper.php:135-151 | one file's content with its `url(` references re-rooted from its own directory; `CssArtifactSingle` states it |
| AssetGeneration.CssArtifact | app/bundles/CoreBundle/Helper/AssetGenerationHelper.php:132-157 | a CSS artifact without Minify: the pieces concatenated in group order; `CssArtifactAppend` and `CssArtifactSingle` state it |
| AssetGeneration.ProdAssets | app/bundles/CoreBundle/Helper/AssetGenerationHelper.php:170-181 | the four production paths below the assets path; `ProdUpToDateSkipsScan` and `GetAssets` state when they are returned |
| AssetGeneration.BuildGroupsContent | app/bundles/CoreBundle/Helper/AssetGenerationHelper.php:132-157 | a rebuilt CSS group's artifact is the rewritten concatenation of its own files, and every other artifact keeps its content |
| AssetGeneration.BuildTypes | app/bundles/CoreBundle/Helper/AssetGenerationHelper.php:119-164 | a `(type, group)` is rebuilt exactly when it was discovered and is stale, and CSS content is written exactly for rebuilt CSS groups |
| AssetGeneration.PairsTypes | app/bundles/CoreBundle/Helper/AssetGenerationHelper.php:119 | a visited `(type, group)` names a type the asset list holds |
| AssetGeneration.BuildTypesContent | app/bundles/CoreBundle/Helper/AssetGenerationHelper.php:119-157 | in a well-keyed asset list every rebuilt CSS group's artifact is the rewritten concatenation of that group's files, and every other artifact keeps its content |
| AssetGeneration.FlatKeys | app/bundles/CoreBundle/Helper/AssetGenerationHelper.php:183-185 | each type keeps its position and its files become their relative paths in insertion order |
| AssetGeneration.GetAssets | app/bundles/CoreBundle/Helper/AssetGenerationHelper.php:41-190 | the result is the new cache; a filled cache is returned untouched; production returns the four fixed paths; development rebuilds nothing |
| AssetGeneration.ForceRebuildsEveryGroup | app/bundles/CoreBundle/Helper/AssetGenerationHelper.php:47-124 | force makes the run a production run in which every discovered group is rebuilt |
| AssetGeneration.ProdUpToDateSkipsScan | app/bundles/CoreBundle/Helper/AssetGenerationHelper.php:52-71 | in production without force and with all four artifacts present nothing is rebuilt |
| AssetGeneration.ProdRebuildsExactlyStale | app/bundles/CoreBundle/Helper/AssetGenerationHelper.php:71-126 | when a production run scans, an artifact is rebuilt exactly when its group was discovered and is forced, missing, or older than the recorded time |
| AssetGeneration.ProdCssContent | app/bundles/CoreBundle/Helper/AssetGenerationHelper.php:119-157 | every CSS artifact a production call writes is the rewritten concatenation of the group's recorded files; those are the bundles' and then the theme's entries, a repeated path keeping its first place and its last details; without repeats it is each bundle file's own content re-rooted from its directory, in discovery order, then the theme override's content |
| AssetGeneration.FilesCssSpec | app/bundles/CoreBundle/Helper/AssetGenerationHelper.php:132-157 | the artifact of a file loop's entries is each file's content re-rooted from the directory of its relative path, concatenated in order |
| AssetGeneration.SubdirCssSpec | app/bundles/CoreBundle/Helper/AssetGenerationHelper.php:210-247 | the artifact part from one CSS directory's subdirectories is their files' re-rooted contents, subdirectory by subdirectory |
| AssetGeneration.DirCssSpec | app/bundles/CoreBundle/Helper/AssetGenerationHelper.php:202-280 | the artifact part from one CSS directory is its subdirectories' part, then for `app` its top-level files' re-rooted contents |
| AssetGeneration.BundleGroupCssSpec | app/bundles/CoreBundle/Helper/AssetGenerationHelper.php:91-101 | the bundles' part of a CSS artifact is each bundle's CSS directory part, in configuration order |
| AssetGeneration.OverrideCssSpec | app/bundles/CoreBundle/Helper/AssetGenerationHelper.php:301-317 | the theme's part of a CSS artifact is the override file's content re-rooted from the theme's css directory, or nothing when it does not exist |
| AssetGeneration.DevListsRelPaths | app/bundles/CoreBundle/Helper/AssetGenerationHelper.php:46-186 | outside production every type's relative paths are returned in insertion order, and nothing is written |
| AssetGeneration.CacheIsFinal | app/bundles/CoreBundle/Helper/AssetGenerationHelper.php:43-189 | once the cache is non-empty every later call returns it unchanged, even when forced |
| AssetGeneration.ProdCallIsMemoised | app/bundles/CoreBundle/Helper/AssetGenerationHelper.php:170-181 | a production call fills the cache, so the next call returns the same paths |
| AssetGeneration.NoStampNeverOlder | app/bundles/CoreBundle/Helper/AssetGenerationHelper.php:124 | a group without a recorded time is rebuilt only when forced or when its artifact is missing |
| AssetGeneration.CssArtifactAppend | app/bundles/CoreBundle/Helper/AssetGenerationHelper.php:135-155 | the artifact of concatenated file lists is the concatenation of their artifacts |
| AssetGeneration.CssArtifactSingle | app/bundles/CoreBundle/Helper/AssetGenerationHelper.php:135-151 | one file contributes its content rewritten with its own directory's prefix |
| AssetGeneration.PairsCover | app/bundles/CoreBundle/Helper/AssetGenerationHelper.php:119-120 | every group that holds a file is visited by the rebuild loop |
| AssetGeneration.BundleTypeStamps | app/bundles/CoreBundle/Helper/AssetGenerationHelper.php:93-99 | one bundle's scan of a type replaces the time of each group it found files for, and keeps all others |
| AssetGeneration.DiscoverBundlesSnoc | app/bundles/CoreBundle/Helper/AssetGenerationHelper.php:91 | scanning the bundles is scanning all but the last and then the last |
| AssetGeneration.DiscoverBundlesStamps | app/bundles/CoreBundle/Helper/AssetGenerationHelper.php:91-101 | after all bundles a group's time is the one recorded by the last bundle that has files in it |
| AssetGeneration.DiscoverStamps | app/bundles/CoreBundle/Helper/AssetGenerationHelper.php:102 | when the theme overrides any group of a type, the override times replace the bundles' times for that whole type |
| AssetGeneration.BundleTypeWellKeyed | app/bundles/CoreBundle/Helper/AssetGenerationHelper.php:93-99 | scanning one type of one bundle keeps types and groups unique |
| AssetGeneration.DiscoverBundlesWellKeyed | app/bundles/CoreBundle/Helper/AssetGenerationHelper.php:91-101 | scanning the bundles keeps types and groups unique |
| AssetGeneration.DiscoverWellKeyed | app/bundles/CoreBundle/Helper/AssetGenerationHelper.php:85-102 | the discovered asset list holds no type twice and no group twice within a type |
| AssetGeneration.BundleStepGrouped | app/bundles/CoreBundle/Helper/AssetGenerationHelper.php:90-99 | in production one bundle assigns to a group the entries its directory of that type gives it |
| AssetGeneration.BundleStepFlat | app/bundles/CoreBundle/Helper/AssetGenerationHelper.php:90-99 | in development one bundle assigns to a type's flat list the entries its directory of that type gives it |
| AssetGeneration.DiscoverBundlesGrouped | app/bundles/CoreBundle/Helper/AssetGenerationHelper.php:91-101 | in production the bundles assign their entries to a group in configuration order |
| AssetGeneration.DiscoverBundlesFlat | app/bundles/CoreBundle/Helper/AssetGenerationHelper.php:91-101 | in development the bundles assign their entries to a type's flat list in configuration order |
| AssetGeneration.BundleType | app/bundles/CoreBundle/Helper/AssetGenerationHelper.php:92-99 | one bundle and one type: the directory is scanned when present and its times merged over the type's; `BundleTypeStamps` and `BundleTypeWellKeyed` state it |
| AssetGeneration.DiscoverBundles | app/bundles/CoreBundle/Helper/AssetGenerationHelper.php:91-101 | the bundles in configuration order; `DiscoverBundlesGrouped`, `DiscoverBundlesFlat` and `DiscoverBundlesStamps` state it |
| AssetGeneration.Discover | app/bundles/CoreBundle/Helper/AssetGenerationHelper.php:85-102 | every bundle, then the theme's overrides, the override times merged by type; `DiscoverGroupOrder`, `DiscoverFlatOrder` and `DiscoverStamps` state it |
| AssetGeneration.DiscoverGroupOrder | app/bundles/CoreBundle/Helper/AssetGenerationHelper.php:85-102 | a discovered group is the bundles' entries in configuration and scan order and then the theme's override, assigned in turn: each path at its first position holding the last details assigned to it; without repeats exactly that sequence |
| AssetGeneration.DiscoverFlatOrder | app/bundles/CoreBundle/Helper/AssetGenerationHelper.php:85-102 | a type's development list is the bundles' entries in configuration and scan order, then `libraries_custom`, then `app_custom`, assigned in turn: each path at its first position with its last details; without repeats exactly that sequence |
| AssetGeneration.FlatKeysGet | app/bundles/CoreBundle/Helper/AssetGenerationHelper.php:183-185 | the list returned for a type is the keys of that type's flat list |
| AssetGeneration.DevAssetsInScanOrder | app/bundles/CoreBundle/Helper/AssetGenerationHelper.php:85-185 | outside production a call returns for each type the bundles' paths in configuration and scan order followed by the theme's overrides |
| FieldModel.GetSessionFields | app/bundles/FormBundle/Model/FieldModel.php:56-62 | the result holds exactly the stored modified fields not listed as deleted, with their stored properties, in stored order |
| FieldModel.NothingDeletedKeepsAll | app/bundles/FormBundle/Model/FieldModel.php:60-61 | with no deleted ids stored, the modified fields are returned as stored |
| FieldModel.NothingModifiedNothingReturned | app/bundles/FormBundle/Model/FieldModel.php:59 | with no modified fields stored, the result is empty |
| FieldModel.StrayDeletedIdsIgnored | app/bundles/FormBundle/Model/FieldModel.php:61 | deleted ids that name no modified field change nothing |
| FieldModel.SessionKeysSeparate | app/bundles/FormBundle/Model/FieldModel.php:59-60 | the session keys of different forms differ, and a form's modified and deleted keys differ |
| DefaultController.FirstInSpec | mautic/src/Mautic/CoreBundle/Controller/DefaultController.php:30 | `Request::get` finds a value exactly when some consulted bag holds the key, and returns the value of the first such bag in the lookup order |
| DefaultController.FirstIn | mautic/src/Mautic/CoreBundle/Controller/DefaultController.php:30 | the value in the first of the given bags that holds the key; `FirstInSpec` states it |
| DefaultController.Param | mautic/src/Mautic/CoreBundle/Controller/DefaultController.php:30 | `Request::get`: `FirstIn` over the request's own lookup order; `EarlierBagShadows` states the shadowing |
| DefaultController.Truthy | mautic/src/Mautic/CoreBundle/Controller/DefaultController.php:30 | PHP truth of a parameter, false when absent, `""` or `"0"`; `IndexAction` and `DispatchDependsOnThreeFacts` use it |
| DefaultController.IndexAction | mautic/src/Mautic/CoreBundle/Controller/DefaultController.php:26-35 | an AJAX request posting `ajaxAction` runs it; another AJAX request loads content unless `ignoreAjax` is true; anything else renders the page |
| DefaultController.PlainRequestRenders | mautic/src/Mautic/CoreBundle/Controller/DefaultController.php:28-33 | a request that is not AJAX always gets the page |
| DefaultController.IgnoreAjaxCannotSuppressActions | mautic/src/Mautic/CoreBundle/Controller/DefaultController.php:28-29 | `ignoreAjax` cannot stop a posted AJAX action |
| DefaultController.EarlierBagShadows | mautic/src/Mautic/CoreBundle/Controller/DefaultController.php:30 | whatever the lookup order, a bag consulted earlier that holds the key hides the same key set in any later bag |
| DefaultController.ShadowedIgnoreAjaxStillLoads | mautic/src/Mautic/CoreBundle/Controller/DefaultController.php:30-31 | a false `ignoreAjax` in the first bag holding it makes an AJAX request load content, even when a later bag says true |
| DefaultController.DispatchDependsOnThreeFacts | mautic/src/Mautic/CoreBundle/Controller/DefaultController.php:28-34 | the outcome depends only on AJAX or not, `ajaxAction` posted or not, and `ignoreAjax` true or not |

## Left out

- The `generation_in_progress.txt` marker and its spin loop (app/bundles/CoreBundle/Helper/AssetGenerationHelper.php lines 75-82 and 166). They coordinate concurrent processes; "Notes on the code" says what happens to the marker when the request stops at line 160.
- `ini_set` (line 73) and the `mkdir` of the output directories (lines 111-115). Neither affects the result.
- The Minify library. The CSS content (`BuildGroupsContent`, `BuildTypesContent`, `ProdCssContent`) is the branch taken when `class_exists('\Minify')` at line 117 is false (lines 147-151). The minifying CSS branch (lines 137-146) is not modelled. A JavaScript artifact is only recorded as rebuilt; its content, `\Minify::combine` at line 160, is not modelled.
- ForceRebuildsEveryGroup: a rebuilt JavaScript group assumes that the Minify library is present. Line 160 calls it without the line-117 guard, so without Minify the first stale JavaScript group ends the request there (see "Notes on the code").
- ProdRebuildsExactlyStale: same assumption as `ForceRebuildsEveryGroup` for the JavaScript groups. Its CSS half holds either way, but `ProdCssContent` describes the non-Minify content, so the two together describe an installation only up to the first stale JavaScript group.
- Finder, `realpath`, `filemtime`, `file_exists` and the file writes. They are replaced by the snapshot and by the returned effects.
- `strnatcmp`: it is the comparator parameter `natLe`. Order is proved relative to it, assuming only that it is total (and transitive for pairwise order).
- Finder's `exclude('*less')` is modelled as "the directory name ends in `less`". Finder's matching internals are not part of this model.
- PHP integer array keys: keys are strings, so a group or relative path that looks like a number is not renumbered.
- The session holds field arrays and id lists under separate typed maps (`FieldModel.Session`). A session value of the wrong kind is not modelled.
- `FieldModel::getRepository`, `getEntity` and `getPermissionBase`: they are ORM delegation and a constant.
- `executeAjaxActions`, `ajaxAction` and `render`: their bodies live in `CommonController`, which is not part of this model. Only the choice between them is modelled.
- Request parameters are strings. Array-valued parameters are not modelled.
- DefaultController.Param: the order in which the framework's `Request::get` consults the route attributes, the query and the POST body is an input of the request (`Request.lookup`), not fixed by the model. Symfony HttpFoundation 2.4 and later consult attributes, query, POST; the 2.0-2.3 releases consult query, attributes, POST. Which release the system runs on is not part of this model.
- app/bundles/LeadBundle/Resources/config/services/forms.php: service registration with no behaviour.
- mautic/src/Mautic/PageBundle/Resources/views/public.html.php: a view template.
- AssetGeneration.DiscoverStamps: stated for production runs only. Outside production no time is recorded (`FindAssetsFlat`, `FindOverridesFlat`).

## Notes on the code

- Line 98 merges each bundle's group times over the earlier ones with `array_merge`. A group that several bundles contribute to, `app` above all, gets the time of the last bundle that has files in it, not the newest time over all bundles. The code therefore keeps the last bundle's time rather than the maximum, so the check at line 124, under the comment "only refresh if a change has occurred" at line 123, can miss a newer file in an earlier bundle; the model follows the code (`DiscoverBundlesStamps`, `LastStamp`).
- Line 102 merges the override times over the bundle times by type, so an override of one group of a type discards the bundles' times of every group of that type (`DiscoverStamps`).
- Line 124 compares with `$modifiedLast[$type][$group]`, which may be unset. PHP then compares with `null`, and the artifact counts as up to date (`NoStampNeverOlder`).
- After a development run that finds no files the cache stays empty (`empty($assets)`), so the next call scans again.
- The two rebuild branches assume different things about Minify. The CSS branch checks `class_exists('\Minify')` (line 117) and falls back to `preg_replace` (lines 147-151). The JavaScript branch calls `\Minify::combine` at line 160 with no check. Without Minify, the first stale JavaScript group is a fatal error. Any artifact rebuilt before that group, CSS or JavaScript, is already written. The request ends before line 166 removes the `generation_in_progress.txt` marker written at line 82. Every later non-forced production run that needs a scan then waits forever in the loop at lines 78-80. The model's JavaScript results (`ForceRebuildsEveryGroup`, `ProdRebuildsExactlyStale`) describe an installation with Minify. Its CSS content (`ProdCssContent`) describes one without.
- A leading `/` is stripped from the relative paths of subdirectory files (lines 225-228) but not from those of top-level files (line 260).
