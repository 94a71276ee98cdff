/**
 * Discovery of stylesheet and script sources (`findAssets`, lines 202-280,
 * and `findOverrides`, lines 290-326, of
 * app/bundles/CoreBundle/Helper/AssetGenerationHelper.php).
 *
 * The file system is an immutable snapshot: each `<bundle>/Assets/<ext>`
 * directory is an `AssetDir` listing its subdirectories and its own files;
 * a subdirectory lists only the files directly inside it, which is all that
 * Finder's `depth('0')` ever sees.
 */
module AssetDiscovery {
  import opened Wrappers
  import opened PhpArray
  import opened PathStrings
  import NatSort

  /** A file as Finder reports it: base name, path name, real path, mtime and content. */
  datatype SourceFile = SourceFile(name: string, pathname: string, realPath: string, mtime: int, content: string)

  /** A subdirectory of an asset directory; its base name names a group. */
  datatype SubDir = SubDir(name: string, files: seq<SourceFile>)

  /** `<bundle>/Assets/<ext>`: its subdirectories and its top-level files, in listing order. */
  datatype AssetDir = AssetDir(subdirs: seq<SubDir>, files: seq<SourceFile>)

  /** A theme override file, `<root>/<theme>/<ext>/<name>.<ext>`. */
  datatype Blob = Blob(mtime: int, content: string)

  /** What the helper records per discovered file (`fullPath`, `relPath`), with the file's data. */
  datatype Details = Details(fullPath: string, relPath: string, mtime: int, content: string)

  /** Production shape of `$assets`: type => group => relPath => details. */
  type Grouped = Arr<Arr<Arr<Details>>>

  /** Development shape of `$assets`: type => relPath => details. */
  type Flat = Arr<Arr<Details>>

  /**
   * `$assets` while it is being filled. PHP uses one array whose shape
   * depends on the environment; here the two shapes are kept apart, and a
   * run only ever writes the one its environment selects.
   */
  datatype Assets = Assets(grouped: Grouped, flat: Flat)

  /** The state of one directory scan: the shared `$assets` and this scan's `$modifiedLast`. */
  datatype Scan = Scan(assets: Assets, stamps: Arr<int>)

  // ----- Filters and order (lines 206, 214-219, 251-256) -----

  /** `exclude('*less')` and `ignoreDotFiles(true)` on subdirectories. */
  predicate TakesDir(d: SubDir)
  {
    !EndsWith(d.name, "less") && !StartsWith(d.name, ".")
  }

  /** `name('*.<ext>')` with Finder's default of skipping dot files. */
  predicate TakesFile(f: SourceFile, ext: string)
  {
    EndsWith(f.name, "." + ext) && !StartsWith(f.name, ".")
  }

  function Matching(files: seq<SourceFile>, ext: string): (r: seq<SourceFile>)
    ensures forall f :: f in r <==> f in files && TakesFile(f, ext)
    ensures forall f :: multiset(r)[f] == if TakesFile(f, ext) then multiset(files)[f] else 0
  {
    if files == [] then []
    else
      assert forall f :: f in files <==> f == files[0] || f in files[1..];
      assert files == [files[0]] + files[1..];
      (if TakesFile(files[0], ext) then [files[0]] else []) + Matching(files[1..], ext)
  }

  /** The comparator Finder is given: `strnatcmp` of the real paths. */
  function ByRealPath(natLe: (string, string) -> bool): (SourceFile, SourceFile) -> bool
  {
    (a: SourceFile, b: SourceFile) => natLe(a.realPath, b.realPath)
  }

  /** The files of one listing that are taken, in the order they are visited. */
  function Listed(files: seq<SourceFile>, ext: string, natLe: (string, string) -> bool): (r: seq<SourceFile>)
  {
    NatSort.Sort(Matching(files, ext), ByRealPath(natLe))
  }

  /**
   * A listing yields exactly the files with the right extension that are not
   * dot files, each as often as the directory holds it, ordered by real path
   * under the natural comparison.
   */
  lemma ListedSpec(files: seq<SourceFile>, ext: string, natLe: (string, string) -> bool)
    requires NatSort.Total(natLe)
    ensures forall f :: f in Listed(files, ext, natLe) <==> f in files && TakesFile(f, ext)
    ensures forall f :: multiset(Listed(files, ext, natLe))[f] == if TakesFile(f, ext) then multiset(files)[f] else 0
    ensures var l := Listed(files, ext, natLe);
      forall i :: 0 <= i < |l| - 1 ==> natLe(l[i].realPath, l[i + 1].realPath)
  {
    var m := Matching(files, ext);
    var l := Listed(files, ext, natLe);
    forall a: SourceFile, b: SourceFile
      ensures ByRealPath(natLe)(a, b) || ByRealPath(natLe)(b, a)
    {
      assert natLe(a.realPath, b.realPath) || natLe(b.realPath, a.realPath);
    }
    NatSort.SortSorted(m, ByRealPath(natLe));
    forall f ensures f in l <==> f in m {
      assert f in l <==> f in multiset(l);
    }
    forall i | 0 <= i < |l| - 1 ensures natLe(l[i].realPath, l[i + 1].realPath) {
      assert ByRealPath(natLe)(l[i], l[i + 1]);
    }
  }

  // ----- Relative paths (lines 224-228 and 259-260) -----

  /**
   * `str_replace("<root>/", '', $pathname)`, followed for files in a
   * subdirectory (`strip`) by removing one leading `/`. Top-level files are
   * not stripped (line 260).
   */
  function RelPath(rootPath: string, pathname: string, strip: bool): (r: string)
  {
    var r0 := RemoveAll(rootPath + "/", pathname);
    if strip then StripLeadingSlash(r0) else r0
  }

  /** A file under the root gets the path below the root as its relative path. */
  lemma RelPathUnderRoot(rootPath: string, rest: string, strip: bool)
    requires !Contains(rest, rootPath + "/")
    requires !StartsWith(rest, "/")
    ensures RelPath(rootPath, rootPath + "/" + rest, strip) == rest
  {
    assert rootPath + "/" + rest == (rootPath + "/") + rest;
    RemoveAllLeading(rootPath + "/", rest);
    RemoveAllAbsent(rootPath + "/", rest);
  }

  // ----- Newest modification time (lines 236-239, 268-271, 313-316) -----

  function MaxOpt(a: Option<int>, b: Option<int>): (r: Option<int>)
    ensures r.None? <==> a.None? && b.None?
    ensures r.Some? ==> (r == a || r == b)
    ensures a.Some? ==> r.Some? && a.value <= r.value
    ensures b.Some? ==> r.Some? && b.value <= r.value
  {
    match (a, b)
    case (None, _) => b
    case (_, None) => a
    case (Some(x), Some(y)) => if x < y then b else a
  }

  /** The newest modification time in a list of files; None for no files. */
  function MaxMtime(files: seq<SourceFile>): (r: Option<int>)
    ensures r.None? <==> files == []
    ensures r.Some? ==> forall f :: f in files ==> f.mtime <= r.value
    ensures r.Some? ==> exists f :: f in files && f.mtime == r.value
  {
    if files == [] then None
    else
      assert forall f :: f in files <==> f == files[0] || f in files[1..];
      MaxOpt(Some(files[0].mtime), MaxMtime(files[1..]))
  }

  lemma {:induction false} MaxMtimeAppend(a: seq<SourceFile>, b: seq<SourceFile>)
    ensures MaxMtime(a + b) == MaxOpt(MaxMtime(a), MaxMtime(b))
    decreases |a|
  {
    if a == [] {
      assert a + b == b;
    } else {
      assert (a + b)[1..] == a[1..] + b;
      MaxMtimeAppend(a[1..], b);
    }
  }

  /**
   * `if (!isset($m[$g]) || $t > $m[$g]) $m[$g] = $t;`: the group keeps the
   * newest time seen so far.
   */
  function Bump(stamps: Arr<int>, group: Key, t: int): (r: Arr<int>)
    ensures Get(r, group) == MaxOpt(Get(stamps, group), Some(t))
    ensures forall h :: h != group ==> Get(r, h) == Get(stamps, h)
  {
    match Get(stamps, group)
    case None => Put(stamps, group, t)
    case Some(cur) => if t > cur then Put(stamps, group, t) else stamps
  }

  lemma BumpDistinct(stamps: Arr<int>, group: Key, t: int)
    requires Distinct(stamps)
    ensures Distinct(Bump(stamps, group, t))
  {
    PutDistinct(stamps, group, t);
  }

  // ----- Recording a file (lines 230-243, 262-275, 307-320) -----

  /** The files recorded under `$assets[$ext][$group]`. */
  function GroupOf(g: Grouped, ext: Key, group: Key): Arr<Details>
  {
    Get(Get(g, ext).GetOr([]), group).GetOr([])
  }

  /** The files recorded under `$assets[$ext]` in development. */
  function TypeOf(f: Flat, ext: Key): Arr<Details>
  {
    Get(f, ext).GetOr([])
  }

  /** `$assets[$ext][$group][$relPath] = $details`, creating missing levels. */
  function AddGrouped(g: Grouped, ext: Key, group: Key, d: Details): (r: Grouped)
    ensures GroupOf(r, ext, group) == Put(GroupOf(g, ext, group), d.relPath, d)
    ensures forall e, h :: (e != ext || h != group) ==> GroupOf(r, e, h) == GroupOf(g, e, h)
  {
    var byGroup := Get(g, ext).GetOr([]);
    Put(g, ext, Put(byGroup, group, Put(Get(byGroup, group).GetOr([]), d.relPath, d)))
  }

  /** `$assets[$ext][$relPath] = $details`, creating the missing level. */
  function AddFlat(f: Flat, ext: Key, d: Details): (r: Flat)
    ensures TypeOf(r, ext) == Put(TypeOf(f, ext), d.relPath, d)
    ensures forall e :: e != ext ==> TypeOf(r, e) == TypeOf(f, e)
  {
    Put(f, ext, Put(TypeOf(f, ext), d.relPath, d))
  }

  /** No type is listed twice, and no group twice within a type: the shape PHP's assignments keep. */
  ghost predicate WellKeyed(g: Grouped)
  {
    Distinct(g) && forall i :: 0 <= i < |g| ==> Distinct(g[i].1)
  }

  lemma AddGroupedWellKeyed(g: Grouped, ext: Key, group: Key, d: Details)
    requires WellKeyed(g)
    ensures WellKeyed(AddGrouped(g, ext, group, d))
  {
    var byGroup := Get(g, ext).GetOr([]);
    var nb := Put(byGroup, group, Put(Get(byGroup, group).GetOr([]), d.relPath, d));
    TypeGroupsDistinct(g, ext);
    PutDistinct(byGroup, group, Put(Get(byGroup, group).GetOr([]), d.relPath, d));
    PutDistinct(g, ext, nb);
    PutEntries(g, ext, nb);
    EntriesKeepDistinctValues(g, Put(g, ext, nb), ext, nb);
  }

  /** In a well-keyed `$assets` the groups of one type are unique. */
  lemma TypeGroupsDistinct(g: Grouped, ext: Key)
    requires WellKeyed(g)
    ensures Distinct(Get(g, ext).GetOr([]))
  {
    GetEntry(g, ext);
    if Get(g, ext).Some? {
      var j :| 0 <= j < |g| && g[j] == (ext, Get(g, ext).value);
    }
  }

  lemma EntriesKeepDistinctValues(g: Grouped, r: Grouped, ext: Key, nb: Arr<Arr<Details>>)
    requires forall i :: 0 <= i < |g| ==> Distinct(g[i].1)
    requires Distinct(nb)
    requires forall i :: 0 <= i < |r| ==> r[i] == (ext, nb) || r[i] in g
    ensures forall i :: 0 <= i < |r| ==> Distinct(r[i].1)
  {
    forall i | 0 <= i < |r| ensures Distinct(r[i].1) {
      if r[i] != (ext, nb) {
        var j :| 0 <= j < |g| && g[j] == r[i];
      }
    }
  }

  /** What the helper records for a file found by a scan (lines 230-235, 262-267). */
  function FileDetails(f: SourceFile, rootPath: string, strip: bool): Details
  {
    Details(f.pathname, RelPath(rootPath, f.pathname, strip), f.mtime, f.content)
  }

  /** A recorded file as the entry `$assets[...][$relPath] = $details` assigns. */
  function Keyed(d: Details): (Key, Details)
  {
    (d.relPath, d)
  }

  /** One file: grouped with its mtime tracked in production, flat otherwise. */
  function AddFile(s: Scan, d: Details, ext: Key, group: Key, prod: bool): Scan
  {
    if prod then Scan(Assets(AddGrouped(s.assets.grouped, ext, group, d), s.assets.flat), Bump(s.stamps, group, d.mtime))
    else Scan(Assets(s.assets.grouped, AddFlat(s.assets.flat, ext, d)), s.stamps)
  }

  /** The body of one `foreach ($files as $file)` loop, in order. */
  function AddFiles(s: Scan, files: seq<SourceFile>, ext: Key, group: Key, strip: bool,
                    rootPath: string, prod: bool): Scan
    decreases |files|
  {
    if files == [] then s
    else AddFiles(AddFile(s, FileDetails(files[0], rootPath, strip), ext, group, prod),
                  files[1..], ext, group, strip, rootPath, prod)
  }

  /** Lines 211-246: every kept subdirectory, in listing order, as its own group. */
  function ScanSubdirs(s: Scan, ds: seq<SubDir>, ext: Key, rootPath: string, prod: bool,
                       natLe: (string, string) -> bool): Scan
    decreases |ds|
  {
    if ds == [] then s
    else
      var d := ds[0];
      var s' := if TakesDir(d) then AddFiles(s, Listed(d.files, ext, natLe), ext, d.name, true, rootPath, prod) else s;
      ScanSubdirs(s', ds[1..], ext, rootPath, prod, natLe)
  }

  /**
   * `findAssets($dir, $ext, $env, $assets)`: subdirectory groups first, then
   * the top-level files into group `app`. Returns the updated `$assets` and
   * this scan's newest-mtime map (empty outside production).
   */
  function FindAssets(dir: AssetDir, ext: Key, prod: bool, rootPath: string,
                      natLe: (string, string) -> bool, assets: Assets): Scan
  {
    var s := ScanSubdirs(Scan(assets, []), dir.subdirs, ext, rootPath, prod, natLe);
    AddFiles(s, Listed(dir.files, ext, natLe), ext, "app", false, rootPath, prod)
  }

  // ----- Reference definitions: what a scan assigns to each group, in order -----

  /** The files that kept subdirectories named `g` contribute, in scan order. */
  function SubdirFiles(ds: seq<SubDir>, ext: Key, g: Key, natLe: (string, string) -> bool): seq<SourceFile>
    decreases |ds|
  {
    if ds == [] then []
    else (if TakesDir(ds[0]) && ds[0].name == g then Listed(ds[0].files, ext, natLe) else [])
         + SubdirFiles(ds[1..], ext, g, natLe)
  }

  /** Every file one scan adds to group `g`: its subdirectories, plus the top level for `app`. */
  function GroupFiles(dir: AssetDir, ext: Key, g: Key, natLe: (string, string) -> bool): seq<SourceFile>
  {
    SubdirFiles(dir.subdirs, ext, g, natLe) + (if g == "app" then Listed(dir.files, ext, natLe) else [])
  }

  /** The entries `files` become, in order: each file's details under its relative path. */
  function FileEntries(files: seq<SourceFile>, rootPath: string, strip: bool): Arr<Details>
    decreases |files|
  {
    if files == [] then [] else [Keyed(FileDetails(files[0], rootPath, strip))] + FileEntries(files[1..], rootPath, strip)
  }

  /** The entries kept subdirectories named `g` contribute, in scan order. */
  function SubdirEntries(ds: seq<SubDir>, ext: Key, g: Key, rootPath: string,
                         natLe: (string, string) -> bool): Arr<Details>
    decreases |ds|
  {
    if ds == [] then []
    else (if TakesDir(ds[0]) && ds[0].name == g then FileEntries(Listed(ds[0].files, ext, natLe), rootPath, true) else [])
         + SubdirEntries(ds[1..], ext, g, rootPath, natLe)
  }

  /** The entries one scan assigns to group `g`: subdirectories first, then the top level for `app`. */
  function GroupEntries(dir: AssetDir, ext: Key, g: Key, rootPath: string,
                        natLe: (string, string) -> bool): Arr<Details>
  {
    SubdirEntries(dir.subdirs, ext, g, rootPath, natLe)
      + (if g == "app" then FileEntries(Listed(dir.files, ext, natLe), rootPath, false) else [])
  }

  /** The entries of every kept subdirectory, in scan order. */
  function AllSubdirEntries(ds: seq<SubDir>, ext: Key, rootPath: string,
                            natLe: (string, string) -> bool): Arr<Details>
    decreases |ds|
  {
    if ds == [] then []
    else (if TakesDir(ds[0]) then FileEntries(Listed(ds[0].files, ext, natLe), rootPath, true) else [])
         + AllSubdirEntries(ds[1..], ext, rootPath, natLe)
  }

  /** The entries one development scan assigns to the flat list, in scan order. */
  function FlatEntries(dir: AssetDir, ext: Key, rootPath: string, natLe: (string, string) -> bool): Arr<Details>
  {
    AllSubdirEntries(dir.subdirs, ext, rootPath, natLe) + FileEntries(Listed(dir.files, ext, natLe), rootPath, false)
  }

  /** Every entry of `FileEntries` is a taken file's content under that file's relative path. */
  lemma {:induction false} FileEntriesSpec(files: seq<SourceFile>, rootPath: string, strip: bool)
    ensures var es := FileEntries(files, rootPath, strip);
      && |es| == |files|
      && forall i :: 0 <= i < |es| ==>
           && es[i].0 == es[i].1.relPath == RelPath(rootPath, files[i].pathname, strip)
           && es[i].1.fullPath == files[i].pathname
           && es[i].1.mtime == files[i].mtime
           && es[i].1.content == files[i].content
    decreases |files|
  {
    if files != [] {
      FileEntriesSpec(files[1..], rootPath, strip);
    }
  }

  // ----- What one loop of file additions does -----

  lemma {:induction false} AddFilesStamps(s: Scan, files: seq<SourceFile>, ext: Key, group: Key, strip: bool,
                                          rootPath: string, prod: bool, h: Key)
    ensures var r := AddFiles(s, files, ext, group, strip, rootPath, prod);
      Get(r.stamps, h) == if prod && h == group then MaxOpt(Get(s.stamps, h), MaxMtime(files)) else Get(s.stamps, h)
    decreases |files|
  {
    if files != [] {
      var s1 := AddFile(s, FileDetails(files[0], rootPath, strip), ext, group, prod);
      AddFilesStamps(s1, files[1..], ext, group, strip, rootPath, prod, h);
    }
  }

  lemma {:induction false} AddFilesDistinct(s: Scan, files: seq<SourceFile>, ext: Key, group: Key, strip: bool,
                                            rootPath: string, prod: bool)
    requires Distinct(s.stamps)
    ensures Distinct(AddFiles(s, files, ext, group, strip, rootPath, prod).stamps)
    decreases |files|
  {
    if files != [] {
      var s1 := AddFile(s, FileDetails(files[0], rootPath, strip), ext, group, prod);
      if prod { BumpDistinct(s.stamps, group, files[0].mtime); }
      AddFilesDistinct(s1, files[1..], ext, group, strip, rootPath, prod);
    }
  }

  /**
   * One file in production: its details are assigned under its relative
   * path to group `group` of type `ext`; every other group and the flat
   * shape are untouched.
   */
  lemma AddFileGrouped(s: Scan, d: Details, ext: Key, group: Key, e: Key, h: Key)
    ensures var r := AddFile(s, d, ext, group, true);
      && r.assets.flat == s.assets.flat
      && GroupOf(r.assets.grouped, e, h) == Merge(GroupOf(s.assets.grouped, e, h), if e == ext && h == group then [Keyed(d)] else [])
  {
    assert [Keyed(d)][1..] == [];
  }

  /** One file outside production: its details are assigned under its relative path to the flat list of `ext`. */
  lemma AddFileFlat(s: Scan, d: Details, ext: Key, group: Key, e: Key)
    ensures var r := AddFile(s, d, ext, group, false);
      && r.assets.grouped == s.assets.grouped
      && TypeOf(r.assets.flat, e) == Merge(TypeOf(s.assets.flat, e), if e == ext then [Keyed(d)] else [])
  {
    assert [Keyed(d)][1..] == [];
  }

  /** In production the loop assigns its files' entries, in order, to group `group` of type `ext`. */
  lemma {:induction false} AddFilesGrouped(s: Scan, files: seq<SourceFile>, ext: Key, group: Key, strip: bool,
                                           rootPath: string, e: Key, h: Key)
    ensures var r := AddFiles(s, files, ext, group, strip, rootPath, true);
      && r.assets.flat == s.assets.flat
      && GroupOf(r.assets.grouped, e, h)
         == Merge(GroupOf(s.assets.grouped, e, h), if e == ext && h == group then FileEntries(files, rootPath, strip) else [])
    decreases |files|
  {
    if files != [] {
      var d := FileDetails(files[0], rootPath, strip);
      var s1 := AddFile(s, d, ext, group, true);
      AddFileGrouped(s, d, ext, group, e, h);
      AddFilesGrouped(s1, files[1..], ext, group, strip, rootPath, e, h);
      if e == ext && h == group {
        MergeConcat(GroupOf(s.assets.grouped, e, h), [Keyed(d)], FileEntries(files[1..], rootPath, strip));
      }
    }
  }

  /** Outside production the loop assigns its files' entries, in order, to the flat list of `ext`. */
  lemma {:induction false} AddFilesFlat(s: Scan, files: seq<SourceFile>, ext: Key, group: Key, strip: bool,
                                        rootPath: string, e: Key)
    ensures var r := AddFiles(s, files, ext, group, strip, rootPath, false);
      && r.assets.grouped == s.assets.grouped
      && r.stamps == s.stamps
      && TypeOf(r.assets.flat, e) == Merge(TypeOf(s.assets.flat, e), if e == ext then FileEntries(files, rootPath, strip) else [])
    decreases |files|
  {
    if files != [] {
      var d := FileDetails(files[0], rootPath, strip);
      var s1 := AddFile(s, d, ext, group, false);
      AddFileFlat(s, d, ext, group, e);
      AddFilesFlat(s1, files[1..], ext, group, strip, rootPath, e);
      if e == ext {
        MergeConcat(TypeOf(s.assets.flat, e), [Keyed(d)], FileEntries(files[1..], rootPath, strip));
      }
    }
  }

  lemma {:induction false} AddFilesWellKeyed(s: Scan, files: seq<SourceFile>, ext: Key, group: Key, strip: bool,
                                             rootPath: string, prod: bool)
    requires WellKeyed(s.assets.grouped)
    ensures WellKeyed(AddFiles(s, files, ext, group, strip, rootPath, prod).assets.grouped)
    decreases |files|
  {
    if files != [] {
      var d := FileDetails(files[0], rootPath, strip);
      if prod {
        AddGroupedWellKeyed(s.assets.grouped, ext, group, d);
      }
      AddFilesWellKeyed(AddFile(s, d, ext, group, prod), files[1..], ext, group, strip, rootPath, prod);
    }
  }

  // ----- What the subdirectory loop does -----

  lemma {:induction false} ScanSubdirsStamps(s: Scan, ds: seq<SubDir>, ext: Key, rootPath: string, prod: bool,
                                             natLe: (string, string) -> bool, h: Key)
    ensures var r := ScanSubdirs(s, ds, ext, rootPath, prod, natLe);
      Get(r.stamps, h) == if prod then MaxOpt(Get(s.stamps, h), MaxMtime(SubdirFiles(ds, ext, h, natLe))) else Get(s.stamps, h)
    decreases |ds|
  {
    if ds != [] {
      var d := ds[0];
      var s' := if TakesDir(d) then AddFiles(s, Listed(d.files, ext, natLe), ext, d.name, true, rootPath, prod) else s;
      ScanSubdirsStamps(s', ds[1..], ext, rootPath, prod, natLe, h);
      var mine := if TakesDir(d) && d.name == h then Listed(d.files, ext, natLe) else [];
      MaxMtimeAppend(mine, SubdirFiles(ds[1..], ext, h, natLe));
      if TakesDir(d) {
        AddFilesStamps(s, Listed(d.files, ext, natLe), ext, d.name, true, rootPath, prod, h);
      }
    }
  }

  lemma {:induction false} ScanSubdirsDistinct(s: Scan, ds: seq<SubDir>, ext: Key, rootPath: string, prod: bool,
                                               natLe: (string, string) -> bool)
    requires Distinct(s.stamps)
    ensures Distinct(ScanSubdirs(s, ds, ext, rootPath, prod, natLe).stamps)
    decreases |ds|
  {
    if ds != [] {
      var d := ds[0];
      var s' := if TakesDir(d) then AddFiles(s, Listed(d.files, ext, natLe), ext, d.name, true, rootPath, prod) else s;
      if TakesDir(d) {
        AddFilesDistinct(s, Listed(d.files, ext, natLe), ext, d.name, true, rootPath, prod);
      }
      ScanSubdirsDistinct(s', ds[1..], ext, rootPath, prod, natLe);
    }
  }

  /** In production the subdirectory loop assigns to group `h` the entries of the kept subdirectories named `h`, in order. */
  lemma {:induction false} ScanSubdirsGrouped(s: Scan, ds: seq<SubDir>, ext: Key, rootPath: string,
                                              natLe: (string, string) -> bool, e: Key, h: Key)
    ensures var r := ScanSubdirs(s, ds, ext, rootPath, true, natLe);
      && r.assets.flat == s.assets.flat
      && GroupOf(r.assets.grouped, e, h)
         == Merge(GroupOf(s.assets.grouped, e, h), if e == ext then SubdirEntries(ds, ext, h, rootPath, natLe) else [])
    decreases |ds|
  {
    if ds != [] {
      var d := ds[0];
      var s' := if TakesDir(d) then AddFiles(s, Listed(d.files, ext, natLe), ext, d.name, true, rootPath, true) else s;
      ScanSubdirsGrouped(s', ds[1..], ext, rootPath, natLe, e, h);
      if TakesDir(d) {
        AddFilesGrouped(s, Listed(d.files, ext, natLe), ext, d.name, true, rootPath, e, h);
      }
      if e == ext {
        var mine := if TakesDir(d) && d.name == h then FileEntries(Listed(d.files, ext, natLe), rootPath, true) else [];
        MergeConcat(GroupOf(s.assets.grouped, e, h), mine, SubdirEntries(ds[1..], ext, h, rootPath, natLe));
      }
    }
  }

  /** Outside production the subdirectory loop assigns every kept subdirectory's entries, in order, to the flat list. */
  lemma {:induction false} ScanSubdirsFlat(s: Scan, ds: seq<SubDir>, ext: Key, rootPath: string,
                                           natLe: (string, string) -> bool, e: Key)
    ensures var r := ScanSubdirs(s, ds, ext, rootPath, false, natLe);
      && r.assets.grouped == s.assets.grouped
      && r.stamps == s.stamps
      && TypeOf(r.assets.flat, e) == Merge(TypeOf(s.assets.flat, e), if e == ext then AllSubdirEntries(ds, ext, rootPath, natLe) else [])
    decreases |ds|
  {
    if ds != [] {
      var d := ds[0];
      var s' := if TakesDir(d) then AddFiles(s, Listed(d.files, ext, natLe), ext, d.name, true, rootPath, false) else s;
      ScanSubdirsFlat(s', ds[1..], ext, rootPath, natLe, e);
      if TakesDir(d) {
        AddFilesFlat(s, Listed(d.files, ext, natLe), ext, d.name, true, rootPath, e);
      }
      if e == ext {
        var mine := if TakesDir(d) then FileEntries(Listed(d.files, ext, natLe), rootPath, true) else [];
        MergeConcat(TypeOf(s.assets.flat, e), mine, AllSubdirEntries(ds[1..], ext, rootPath, natLe));
      }
    }
  }

  lemma {:induction false} ScanSubdirsWellKeyed(s: Scan, ds: seq<SubDir>, ext: Key, rootPath: string, prod: bool,
                                                natLe: (string, string) -> bool)
    requires WellKeyed(s.assets.grouped)
    ensures WellKeyed(ScanSubdirs(s, ds, ext, rootPath, prod, natLe).assets.grouped)
    decreases |ds|
  {
    if ds != [] {
      var d := ds[0];
      var s' := if TakesDir(d) then AddFiles(s, Listed(d.files, ext, natLe), ext, d.name, true, rootPath, prod) else s;
      if TakesDir(d) {
        AddFilesWellKeyed(s, Listed(d.files, ext, natLe), ext, d.name, true, rootPath, prod);
      }
      ScanSubdirsWellKeyed(s', ds[1..], ext, rootPath, prod, natLe);
    }
  }

  // ----- What one `findAssets` call does -----

  /**
   * In production a scan records, for every group, the newest mtime among
   * exactly the files it added to that group, and no entry for a group it
   * added nothing to. Outside production it records nothing.
   */
  lemma FindAssetsStamps(dir: AssetDir, ext: Key, prod: bool, rootPath: string,
                         natLe: (string, string) -> bool, assets: Assets, g: Key)
    ensures var r := FindAssets(dir, ext, prod, rootPath, natLe, assets);
      && Distinct(r.stamps)
      && Get(r.stamps, g) == if prod then MaxMtime(GroupFiles(dir, ext, g, natLe)) else None
  {
    var s0 := Scan(assets, []);
    var s := ScanSubdirs(s0, dir.subdirs, ext, rootPath, prod, natLe);
    var top := Listed(dir.files, ext, natLe);
    ScanSubdirsStamps(s0, dir.subdirs, ext, rootPath, prod, natLe, g);
    AddFilesStamps(s, top, ext, "app", false, rootPath, prod, g);
    ScanSubdirsDistinct(s0, dir.subdirs, ext, rootPath, prod, natLe);
    AddFilesDistinct(s, top, ext, "app", false, rootPath, prod);
    MaxMtimeAppend(SubdirFiles(dir.subdirs, ext, g, natLe), if g == "app" then top else []);
  }

  /**
   * In production a scan assigns to group `g` of type `ext` the entries of
   * the files in subdirectories named `g`, in listing order, and for `app`
   * then those of the top-level files; other types are untouched and the
   * flat shape is not written.
   */
  lemma FindAssetsGrouped(dir: AssetDir, ext: Key, rootPath: string,
                          natLe: (string, string) -> bool, assets: Assets, e: Key, g: Key)
    ensures var r := FindAssets(dir, ext, true, rootPath, natLe, assets);
      && r.assets.flat == assets.flat
      && GroupOf(r.assets.grouped, e, g)
         == Merge(GroupOf(assets.grouped, e, g), if e == ext then GroupEntries(dir, ext, g, rootPath, natLe) else [])
  {
    var s0 := Scan(assets, []);
    var s := ScanSubdirs(s0, dir.subdirs, ext, rootPath, true, natLe);
    ScanSubdirsGrouped(s0, dir.subdirs, ext, rootPath, natLe, e, g);
    AddFilesGrouped(s, Listed(dir.files, ext, natLe), ext, "app", false, rootPath, e, g);
    if e == ext {
      MergeConcat(GroupOf(assets.grouped, e, g), SubdirEntries(dir.subdirs, ext, g, rootPath, natLe),
                  if g == "app" then FileEntries(Listed(dir.files, ext, natLe), rootPath, false) else []);
    }
  }

  /** When the scan's paths are new and distinct, the group is the old one with the scan's entries appended in order. */
  lemma FindAssetsGroupOrder(dir: AssetDir, ext: Key, rootPath: string,
                             natLe: (string, string) -> bool, assets: Assets, g: Key)
    ensures var es := GroupEntries(dir, ext, g, rootPath, natLe);
      NoDup(KeyList(es)) && (forall p :: p in KeyList(es) ==> p !in KeyList(GroupOf(assets.grouped, ext, g))) ==>
        GroupOf(FindAssets(dir, ext, true, rootPath, natLe, assets).assets.grouped, ext, g) == GroupOf(assets.grouped, ext, g) + es
  {
    var es := GroupEntries(dir, ext, g, rootPath, natLe);
    FindAssetsGrouped(dir, ext, rootPath, natLe, assets, ext, g);
    if NoDup(KeyList(es)) && (forall p :: p in KeyList(es) ==> p !in KeyList(GroupOf(assets.grouped, ext, g))) {
      MergeFresh(GroupOf(assets.grouped, ext, g), es);
    }
  }

  /** A scan keeps types and groups unique. */
  lemma FindAssetsWellKeyed(dir: AssetDir, ext: Key, prod: bool, rootPath: string,
                            natLe: (string, string) -> bool, assets: Assets)
    requires WellKeyed(assets.grouped)
    ensures WellKeyed(FindAssets(dir, ext, prod, rootPath, natLe, assets).assets.grouped)
  {
    var s0 := Scan(assets, []);
    ScanSubdirsWellKeyed(s0, dir.subdirs, ext, rootPath, prod, natLe);
    AddFilesWellKeyed(ScanSubdirs(s0, dir.subdirs, ext, rootPath, prod, natLe), Listed(dir.files, ext, natLe),
                      ext, "app", false, rootPath, prod);
  }

  /**
   * Outside production a scan assigns every taken file's entry to the flat
   * list of its type, subdirectories first, and nothing else.
   */
  lemma FindAssetsFlat(dir: AssetDir, ext: Key, rootPath: string,
                       natLe: (string, string) -> bool, assets: Assets, e: Key)
    ensures var r := FindAssets(dir, ext, false, rootPath, natLe, assets);
      && r.assets.grouped == assets.grouped
      && r.stamps == []
      && TypeOf(r.assets.flat, e) == Merge(TypeOf(assets.flat, e), if e == ext then FlatEntries(dir, ext, rootPath, natLe) else [])
  {
    var s0 := Scan(assets, []);
    var s := ScanSubdirs(s0, dir.subdirs, ext, rootPath, false, natLe);
    ScanSubdirsFlat(s0, dir.subdirs, ext, rootPath, natLe, e);
    AddFilesFlat(s, Listed(dir.files, ext, natLe), ext, "app", false, rootPath, e);
    if e == ext {
      MergeConcat(TypeOf(assets.flat, e), AllSubdirEntries(dir.subdirs, ext, rootPath, natLe),
                  FileEntries(Listed(dir.files, ext, natLe), rootPath, false));
    }
  }

  /** When the scan's paths are new and distinct, the flat list is the old one with the scan's entries appended in order. */
  lemma FindAssetsFlatOrder(dir: AssetDir, ext: Key, rootPath: string,
                            natLe: (string, string) -> bool, assets: Assets)
    ensures var es := FlatEntries(dir, ext, rootPath, natLe);
      NoDup(KeyList(es)) && (forall p :: p in KeyList(es) ==> p !in KeyList(TypeOf(assets.flat, ext))) ==>
        TypeOf(FindAssets(dir, ext, false, rootPath, natLe, assets).assets.flat, ext) == TypeOf(assets.flat, ext) + es
  {
    var es := FlatEntries(dir, ext, rootPath, natLe);
    FindAssetsFlat(dir, ext, rootPath, natLe, assets, ext);
    if NoDup(KeyList(es)) && (forall p :: p in KeyList(es) ==> p !in KeyList(TypeOf(assets.flat, ext))) {
      MergeFresh(TypeOf(assets.flat, ext), es);
    }
  }

  // ----- Theme overrides (`findOverrides`, lines 290-326) -----

  /** Timestamps by type, then group: the `$modifiedLast` of getAssets and findOverrides. */
  type Stamps = Arr<Arr<int>>

  /** `$modifiedLast[$type][$group]`, if set. */
  function StampOf(ml: Stamps, ext: Key, group: Key): Option<int>
  {
    Get(Get(ml, ext).GetOr([]), group)
  }

  /** `<ext>/<name>.<ext>`: where an override sits inside the theme directory. */
  function ThemePath(ext: Key, name: string): string
  {
    ext + "/" + name + "." + ext
  }

  /** Lines 307-311: what the helper records for the override file at `path` inside the theme. */
  function OverrideDetails(rootPath: string, currentTheme: string, path: string, b: Blob): Details
  {
    var relPath := currentTheme + "/" + path;
    Details(rootPath + "/" + relPath, relPath, b.mtime, b.content)
  }

  /** One pass of the inner loop at line 302. */
  function OverrideSlot(a: Assets, ml: Stamps, ext: Key, group: Key, name: string, theme: map<string, Blob>,
                        rootPath: string, currentTheme: string, prod: bool): (Assets, Stamps)
  {
    var path := ThemePath(ext, name);
    if path !in theme then (a, ml)
    else
      var d := OverrideDetails(rootPath, currentTheme, path, theme[path]);
      if prod then (Assets(AddGrouped(a.grouped, ext, group, d), a.flat), Put(ml, ext, Bump(Get(ml, ext).GetOr([]), group, d.mtime)))
      else (Assets(a.grouped, AddFlat(a.flat, ext, d)), ml)
  }

  /**
   * `findOverrides($env, $assets)`: the loops of lines 301-302 over the types
   * css, js and the groups libraries, app, written out in their order.
   * Returns the updated `$assets` and the override timestamps.
   */
  function FindOverrides(theme: map<string, Blob>, rootPath: string, currentTheme: string, prod: bool,
                         a: Assets): (Assets, Stamps)
  {
    var r1 := OverrideSlot(a, [], "css", "libraries", "libraries_custom", theme, rootPath, currentTheme, prod);
    var r2 := OverrideSlot(r1.0, r1.1, "css", "app", "app_custom", theme, rootPath, currentTheme, prod);
    var r3 := OverrideSlot(r2.0, r2.1, "js", "libraries", "libraries_custom", theme, rootPath, currentTheme, prod);
    OverrideSlot(r3.0, r3.1, "js", "app", "app_custom", theme, rootPath, currentTheme, prod)
  }

  /** Lines 296-299: the override file standing in for a group. */
  function OverrideName(g: Key): string
  {
    if g == "libraries" then "libraries_custom" else "app_custom"
  }

  /** Reference: the timestamp an override file gives its (type, group) slot. */
  function OverrideStamp(theme: map<string, Blob>, e: Key, g: Key): Option<int>
  {
    var path := ThemePath(e, OverrideName(g));
    if (e == "css" || e == "js") && (g == "libraries" || g == "app") && path in theme
    then Some(theme[path].mtime) else None
  }

  /** Reference: the entry an override file assigns to its (type, group) slot, if it exists. */
  function OverrideEntries(theme: map<string, Blob>, rootPath: string, currentTheme: string, e: Key, g: Key): Arr<Details>
  {
    var path := ThemePath(e, OverrideName(g));
    if (e == "css" || e == "js") && (g == "libraries" || g == "app") && path in theme
    then [Keyed(OverrideDetails(rootPath, currentTheme, path, theme[path]))] else []
  }

  /** Reference: the override entries a type's flat list gets, `libraries_custom` before `app_custom`. */
  function OverrideFlatEntries(theme: map<string, Blob>, rootPath: string, currentTheme: string, e: Key): Arr<Details>
  {
    OverrideEntries(theme, rootPath, currentTheme, e, "libraries") + OverrideEntries(theme, rootPath, currentTheme, e, "app")
  }

  lemma OverrideSlotStamps(a: Assets, ml: Stamps, ext: Key, group: Key, name: string, theme: map<string, Blob>,
                           rootPath: string, currentTheme: string, e: Key, h: Key)
    requires Distinct(ml)
    ensures var r := OverrideSlot(a, ml, ext, group, name, theme, rootPath, currentTheme, true);
      && Distinct(r.1)
      && StampOf(r.1, e, h) == (if e == ext && h == group && ThemePath(ext, name) in theme
                                then MaxOpt(StampOf(ml, e, h), Some(theme[ThemePath(ext, name)].mtime))
                                else StampOf(ml, e, h))
      && (e in KeyList(r.1) <==> e in KeyList(ml) || (e == ext && ThemePath(ext, name) in theme))
  {
    if ThemePath(ext, name) in theme {
      PutDistinct(ml, ext, Bump(Get(ml, ext).GetOr([]), group, theme[ThemePath(ext, name)].mtime));
    }
  }

  /**
   * One override slot in production: when the file exists, its details are
   * assigned under `<theme>/<ext>/<name>.<ext>` to its group; nothing else changes.
   */
  lemma OverrideSlotGroups(a: Assets, ml: Stamps, ext: Key, group: Key, name: string, theme: map<string, Blob>,
                           rootPath: string, currentTheme: string, e: Key, h: Key)
    ensures var r := OverrideSlot(a, ml, ext, group, name, theme, rootPath, currentTheme, true);
      var path := ThemePath(ext, name);
      && r.0.flat == a.flat
      && GroupOf(r.0.grouped, e, h)
         == Merge(GroupOf(a.grouped, e, h),
                  if e == ext && h == group && path in theme
                  then [Keyed(OverrideDetails(rootPath, currentTheme, path, theme[path]))] else [])
  {
    var path := ThemePath(ext, name);
    if path in theme {
      assert [Keyed(OverrideDetails(rootPath, currentTheme, path, theme[path]))][1..] == [];
    }
  }

  /**
   * In production the override map holds, for each type and group, the
   * override file's mtime exactly when that file exists, and has an entry
   * for a type exactly when some override of that type exists.
   */
  lemma FindOverridesStamps(theme: map<string, Blob>, rootPath: string, currentTheme: string,
                            a: Assets, e: Key, g: Key)
    ensures var r := FindOverrides(theme, rootPath, currentTheme, true, a);
      && Distinct(r.1)
      && StampOf(r.1, e, g) == OverrideStamp(theme, e, g)
      && (e in KeyList(r.1) <==> OverrideStamp(theme, e, "libraries").Some? || OverrideStamp(theme, e, "app").Some?)
  {
    var r1 := OverrideSlot(a, [], "css", "libraries", "libraries_custom", theme, rootPath, currentTheme, true);
    var r2 := OverrideSlot(r1.0, r1.1, "css", "app", "app_custom", theme, rootPath, currentTheme, true);
    CssOverrideStamps(theme, rootPath, currentTheme, a, e, g);
    JsOverrideStamps(theme, rootPath, currentTheme, r2.0, r2.1, e, g);
  }

  /** The two CSS slots, starting from an empty map. */
  lemma CssOverrideStamps(theme: map<string, Blob>, rootPath: string, currentTheme: string, a: Assets, e: Key, g: Key)
    ensures var r1 := OverrideSlot(a, [], "css", "libraries", "libraries_custom", theme, rootPath, currentTheme, true);
      var r2 := OverrideSlot(r1.0, r1.1, "css", "app", "app_custom", theme, rootPath, currentTheme, true);
      && Distinct(r2.1)
      && StampOf(r2.1, e, g) == (if e == "css" then OverrideStamp(theme, e, g) else None)
      && (e in KeyList(r2.1) <==> e == "css" && (OverrideStamp(theme, e, "libraries").Some? || OverrideStamp(theme, e, "app").Some?))
  {
    var r1 := OverrideSlot(a, [], "css", "libraries", "libraries_custom", theme, rootPath, currentTheme, true);
    OverrideSlotStamps(a, [], "css", "libraries", "libraries_custom", theme, rootPath, currentTheme, e, g);
    OverrideSlotStamps(r1.0, r1.1, "css", "app", "app_custom", theme, rootPath, currentTheme, e, g);
  }

  /** The two JavaScript slots, which leave the CSS entries alone. */
  lemma JsOverrideStamps(theme: map<string, Blob>, rootPath: string, currentTheme: string, a: Assets, ml: Stamps,
                         e: Key, g: Key)
    requires Distinct(ml)
    requires "js" !in KeyList(ml)
    ensures var r3 := OverrideSlot(a, ml, "js", "libraries", "libraries_custom", theme, rootPath, currentTheme, true);
      var r4 := OverrideSlot(r3.0, r3.1, "js", "app", "app_custom", theme, rootPath, currentTheme, true);
      && Distinct(r4.1)
      && StampOf(r4.1, e, g) == (if e == "js" then OverrideStamp(theme, e, g) else StampOf(ml, e, g))
      && (e in KeyList(r4.1) <==>
            (e in KeyList(ml) || (e == "js" && (OverrideStamp(theme, e, "libraries").Some? || OverrideStamp(theme, e, "app").Some?))))
  {
    var r3 := OverrideSlot(a, ml, "js", "libraries", "libraries_custom", theme, rootPath, currentTheme, true);
    OverrideSlotStamps(a, ml, "js", "libraries", "libraries_custom", theme, rootPath, currentTheme, e, g);
    OverrideSlotStamps(r3.0, r3.1, "js", "app", "app_custom", theme, rootPath, currentTheme, e, g);
  }

  /**
   * In production each existing override's entry is assigned to its group
   * after everything the bundles put there, and nothing else changes.
   */
  lemma FindOverridesGroups(theme: map<string, Blob>, rootPath: string, currentTheme: string,
                            a: Assets, e: Key, g: Key)
    ensures var r := FindOverrides(theme, rootPath, currentTheme, true, a);
      && r.0.flat == a.flat
      && GroupOf(r.0.grouped, e, g) == Merge(GroupOf(a.grouped, e, g), OverrideEntries(theme, rootPath, currentTheme, e, g))
  {
    var r1 := OverrideSlot(a, [], "css", "libraries", "libraries_custom", theme, rootPath, currentTheme, true);
    var r2 := OverrideSlot(r1.0, r1.1, "css", "app", "app_custom", theme, rootPath, currentTheme, true);
    var r3 := OverrideSlot(r2.0, r2.1, "js", "libraries", "libraries_custom", theme, rootPath, currentTheme, true);
    OverrideSlotGroups(a, [], "css", "libraries", "libraries_custom", theme, rootPath, currentTheme, e, g);
    OverrideSlotGroups(r1.0, r1.1, "css", "app", "app_custom", theme, rootPath, currentTheme, e, g);
    OverrideSlotGroups(r2.0, r2.1, "js", "libraries", "libraries_custom", theme, rootPath, currentTheme, e, g);
    OverrideSlotGroups(r3.0, r3.1, "js", "app", "app_custom", theme, rootPath, currentTheme, e, g);
  }

  lemma OverrideSlotWellKeyed(a: Assets, ml: Stamps, ext: Key, group: Key, name: string, theme: map<string, Blob>,
                              rootPath: string, currentTheme: string, prod: bool)
    requires WellKeyed(a.grouped)
    ensures WellKeyed(OverrideSlot(a, ml, ext, group, name, theme, rootPath, currentTheme, prod).0.grouped)
  {
    var path := ThemePath(ext, name);
    if path in theme && prod {
      AddGroupedWellKeyed(a.grouped, ext, group, OverrideDetails(rootPath, currentTheme, path, theme[path]));
    }
  }

  /** The overrides keep types and groups unique. */
  lemma FindOverridesWellKeyed(theme: map<string, Blob>, rootPath: string, currentTheme: string, prod: bool, a: Assets)
    requires WellKeyed(a.grouped)
    ensures WellKeyed(FindOverrides(theme, rootPath, currentTheme, prod, a).0.grouped)
  {
    var r1 := OverrideSlot(a, [], "css", "libraries", "libraries_custom", theme, rootPath, currentTheme, prod);
    var r2 := OverrideSlot(r1.0, r1.1, "css", "app", "app_custom", theme, rootPath, currentTheme, prod);
    var r3 := OverrideSlot(r2.0, r2.1, "js", "libraries", "libraries_custom", theme, rootPath, currentTheme, prod);
    OverrideSlotWellKeyed(a, [], "css", "libraries", "libraries_custom", theme, rootPath, currentTheme, prod);
    OverrideSlotWellKeyed(r1.0, r1.1, "css", "app", "app_custom", theme, rootPath, currentTheme, prod);
    OverrideSlotWellKeyed(r2.0, r2.1, "js", "libraries", "libraries_custom", theme, rootPath, currentTheme, prod);
    OverrideSlotWellKeyed(r3.0, r3.1, "js", "app", "app_custom", theme, rootPath, currentTheme, prod);
  }

  /** One override slot outside production: when the file exists, its details join the type's flat list. */
  lemma OverrideSlotFlat(a: Assets, ml: Stamps, ext: Key, group: Key, name: string, theme: map<string, Blob>,
                         rootPath: string, currentTheme: string, e: Key)
    ensures var r := OverrideSlot(a, ml, ext, group, name, theme, rootPath, currentTheme, false);
      var path := ThemePath(ext, name);
      && r.0.grouped == a.grouped && r.1 == ml
      && TypeOf(r.0.flat, e)
         == Merge(TypeOf(a.flat, e),
                  if e == ext && path in theme then [Keyed(OverrideDetails(rootPath, currentTheme, path, theme[path]))] else [])
  {
    var path := ThemePath(ext, name);
    if path in theme {
      assert [Keyed(OverrideDetails(rootPath, currentTheme, path, theme[path]))][1..] == [];
    }
  }

  /**
   * Outside production the existing overrides of a type are assigned to its
   * flat list, `libraries_custom` before `app_custom`, and no time is recorded.
   */
  lemma FindOverridesFlat(theme: map<string, Blob>, rootPath: string, currentTheme: string, a: Assets, e: Key)
    ensures var r := FindOverrides(theme, rootPath, currentTheme, false, a);
      && r.0.grouped == a.grouped && r.1 == []
      && TypeOf(r.0.flat, e) == Merge(TypeOf(a.flat, e), OverrideFlatEntries(theme, rootPath, currentTheme, e))
  {
    var r1 := OverrideSlot(a, [], "css", "libraries", "libraries_custom", theme, rootPath, currentTheme, false);
    var r2 := OverrideSlot(r1.0, r1.1, "css", "app", "app_custom", theme, rootPath, currentTheme, false);
    var r3 := OverrideSlot(r2.0, r2.1, "js", "libraries", "libraries_custom", theme, rootPath, currentTheme, false);
    OverrideSlotFlat(a, [], "css", "libraries", "libraries_custom", theme, rootPath, currentTheme, e);
    OverrideSlotFlat(r1.0, r1.1, "css", "app", "app_custom", theme, rootPath, currentTheme, e);
    OverrideSlotFlat(r2.0, r2.1, "js", "libraries", "libraries_custom", theme, rootPath, currentTheme, e);
    OverrideSlotFlat(r3.0, r3.1, "js", "app", "app_custom", theme, rootPath, currentTheme, e);
    MergeConcat(TypeOf(a.flat, e), OverrideEntries(theme, rootPath, currentTheme, e, "libraries"),
                OverrideEntries(theme, rootPath, currentTheme, e, "app"));
  }
}
