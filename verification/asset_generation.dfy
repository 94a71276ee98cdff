/**
 * `AssetGenerationHelper::getAssets` (lines 41-190 of
 * app/bundles/CoreBundle/Helper/AssetGenerationHelper.php): decide whether
 * to scan, scan every bundle and the theme, rebuild the stale production
 * artifacts, and return (and memoise) the asset list.
 *
 * The run is a pure function of a snapshot of the file system. Its effects
 * are returned instead of performed: which `(type, group)` artifacts are
 * rewritten, and the new content of each CSS artifact. CSS content follows
 * the branch taken without the Minify library (line 117). JavaScript
 * artifacts come from Minify at line 160, which has no such guard, so only
 * the fact that they are rebuilt is modelled, as with Minify present. The
 * `static $assets` cache is the `Helper` state.
 */
module AssetGeneration {
  import opened Wrappers
  import opened PhpArray
  import opened PathStrings
  import opened CssRewrite
  import opened AssetDiscovery

  /** A bundle: for each type, its `<directory>/Assets/<type>` directory when that exists. */
  datatype Bundle = Bundle(assetDirs: map<Key, AssetDir>)

  /**
   * What a run reads: the configured environment and system paths, the
   * bundles in configuration order, the theme's override files (keyed by
   * path inside the theme) and the existing artifacts (keyed by path below
   * the assets directory, with their mtimes).
   */
  datatype Snapshot = Snapshot(env: string, rootPath: string, assetsPath: string, currentTheme: string,
                               bundles: seq<Bundle>, theme: map<string, Blob>, artifacts: map<string, int>)

  /** Line 90. */
  const FileTypes: seq<Key> := ["css", "js"]

  /** Lines 56-61: the artifacts whose absence forces a production scan. */
  const ProdFiles: seq<string> := ["css/libraries.css", "css/app.css", "js/libraries.js", "js/app.js"]

  /** Line 121: `<type>/<group>.<type>` below the assets directory. */
  function ArtifactPath(t: Key, g: Key): string
  {
    t + "/" + g + "." + t
  }

  /** Lines 63-68: some production artifact does not exist. */
  predicate SomeProdFileMissing(artifacts: map<string, int>)
  {
    exists i :: 0 <= i < |ProdFiles| && ProdFiles[i] !in artifacts
  }

  // ----- Scanning all bundles (lines 85-102) -----

  /** `$modifiedLast` and `$assets` after part of the scan. */
  datatype Discovery = Discovery(assets: Assets, stamps: Stamps)

  /** Lines 93-99 for one bundle and one type. */
  function BundleType(d: Discovery, b: Bundle, ft: Key, prod: bool, rootPath: string,
                      natLe: (string, string) -> bool): Discovery
  {
    var ml := if ft in KeyList(d.stamps) then d.stamps else Put(d.stamps, ft, []);
    if ft in b.assetDirs then
      var s := FindAssets(b.assetDirs[ft], ft, prod, rootPath, natLe, d.assets);
      Discovery(s.assets, Put(ml, ft, Merge(Get(ml, ft).GetOr([]), s.stamps)))
    else Discovery(d.assets, ml)
  }

  function BundleStep(d: Discovery, b: Bundle, prod: bool, rootPath: string,
                      natLe: (string, string) -> bool): Discovery
  {
    BundleType(BundleType(d, b, FileTypes[0], prod, rootPath, natLe), b, FileTypes[1], prod, rootPath, natLe)
  }

  /** Lines 91-101: the bundles in order. */
  function DiscoverBundles(d: Discovery, bundles: seq<Bundle>, prod: bool, rootPath: string,
                           natLe: (string, string) -> bool): Discovery
    decreases |bundles|
  {
    if bundles == [] then d
    else DiscoverBundles(BundleStep(d, bundles[0], prod, rootPath, natLe), bundles[1..], prod, rootPath, natLe)
  }

  /** Lines 85-102: every bundle, then the theme overrides merged over the timestamps. */
  function Discover(fs: Snapshot, prod: bool, natLe: (string, string) -> bool): Discovery
  {
    var d := DiscoverBundles(Discovery(Assets([], []), []), fs.bundles, prod, fs.rootPath, natLe);
    var ov := FindOverrides(fs.theme, fs.rootPath, fs.currentTheme, prod, d.assets);
    Discovery(ov.0, Merge(d.stamps, ov.1))
  }

  // ----- Rebuilding (lines 117-164) -----

  /**
   * Line 124: rebuild when forced, when the artifact is missing, or when it
   * is older than the group's recorded newest source. A group with no
   * recorded time is never older (PHP's `int < null` is false).
   */
  predicate Stale(force: bool, artifacts: map<string, int>, stamps: Stamps, t: Key, g: Key)
  {
    var path := ArtifactPath(t, g);
    force || path !in artifacts
      || (StampOf(stamps, t, g).Some? && artifacts[path] < StampOf(stamps, t, g).value)
  }

  /** Lines 135-151: one file's content with its references re-rooted from its own directory. */
  function CssPiece(entry: (Key, Details)): string
  {
    Rewrite(entry.1.content, CssRel(entry.1.relPath))
  }

  /** Lines 133-157 without Minify: each file rewritten, concatenated in group order. */
  function CssArtifact(files: Arr<Details>): string
  {
    ConcatMap(CssPiece, files)
  }

  /** `f` of every element, concatenated in order. */
  function ConcatMap<T>(f: T -> string, xs: seq<T>): string
    decreases |xs|
  {
    if xs == [] then "" else f(xs[0]) + ConcatMap(f, xs[1..])
  }

  /** The effects of the rebuild loop. */
  datatype Build = Build(rebuilt: set<(Key, Key)>, css: map<Key, string>)

  /** Every `(type, group)` the production `$assets` lists, as iterated at lines 119-120. */
  function Pairs(grouped: Grouped): set<(Key, Key)>
    decreases |grouped|
  {
    if grouped == [] then {}
    else (set g | g in KeySet(grouped[0].1) :: (grouped[0].0, g)) + Pairs(grouped[1..])
  }

  /** Lines 120-163 for the groups of one type. */
  function BuildGroups(b: Build, t: Key, groups: Arr<Arr<Details>>, force: bool,
                       artifacts: map<string, int>, stamps: Stamps): (r: Build)
    ensures forall p :: p in r.rebuilt <==>
      p in b.rebuilt || (p.0 == t && p.1 in KeySet(groups) && Stale(force, artifacts, stamps, p.0, p.1))
    ensures forall g :: g in r.css <==>
      g in b.css || (t == "css" && g in KeySet(groups) && Stale(force, artifacts, stamps, t, g))
    decreases |groups|
  {
    if groups == [] then b
    else
      var (g, files) := groups[0];
      var b' := if !Stale(force, artifacts, stamps, t, g) then b
                else Build(b.rebuilt + {(t, g)}, if t == "css" then b.css[g := CssArtifact(files)] else b.css);
      KeySetCons(groups[0], groups[1..]);
      BuildGroups(b', t, groups[1..], force, artifacts, stamps)
  }

  lemma KeySetCons<V>(x: (Key, V), a: Arr<V>)
    ensures KeySet([x] + a) == {x.0} + KeySet(a)
  {
    assert ([x] + a)[1..] == a;
  }

  /**
   * Lines 132-157: a CSS group that is rebuilt gets the rewritten
   * concatenation of its own files; every other artifact keeps its content.
   */
  lemma {:induction false} BuildGroupsContent(b: Build, t: Key, groups: Arr<Arr<Details>>, force: bool,
                                              artifacts: map<string, int>, stamps: Stamps, g: Key)
    requires Distinct(groups)
    ensures var r := BuildGroups(b, t, groups, force, artifacts, stamps);
      && (g in b.css && !(t == "css" && g in KeySet(groups) && Stale(force, artifacts, stamps, t, g))
          ==> r.css[g] == b.css[g])
      && (t == "css" && g in KeySet(groups) && Stale(force, artifacts, stamps, t, g)
          ==> r.css[g] == CssArtifact(Get(groups, g).value))
    decreases |groups|
  {
    if groups != [] {
      var (g0, files) := groups[0];
      var b' := if !Stale(force, artifacts, stamps, t, g0) then b
                else Build(b.rebuilt + {(t, g0)}, if t == "css" then b.css[g0 := CssArtifact(files)] else b.css);
      assert BuildGroups(b, t, groups, force, artifacts, stamps) == BuildGroups(b', t, groups[1..], force, artifacts, stamps);
      DistinctCons(groups);
      KeySetCons(groups[0], groups[1..]);
      assert groups == [groups[0]] + groups[1..];
      BuildGroupsContent(b', t, groups[1..], force, artifacts, stamps, g);
      if g == g0 {
        assert Get(groups, g) == Some(files);
      } else {
        assert Get(groups, g) == Get(groups[1..], g);
      }
    }
  }

  /** Lines 119-164: every type, every group. */
  function BuildTypes(b: Build, grouped: Grouped, force: bool, artifacts: map<string, int>,
                      stamps: Stamps): (r: Build)
    ensures forall p :: p in r.rebuilt <==>
      p in b.rebuilt || (p in Pairs(grouped) && Stale(force, artifacts, stamps, p.0, p.1))
    ensures forall g :: g in r.css <==>
      g in b.css || (("css", g) in Pairs(grouped) && Stale(force, artifacts, stamps, "css", g))
    decreases |grouped|
  {
    if grouped == [] then b
    else
      BuildTypes(BuildGroups(b, grouped[0].0, grouped[0].1, force, artifacts, stamps),
                 grouped[1..], force, artifacts, stamps)
  }

  /** A pair the rebuild loop visits names a type the production `$assets` lists. */
  lemma {:induction false} PairsTypes(grouped: Grouped, t: Key, g: Key)
    ensures (t, g) in Pairs(grouped) ==> t in KeyList(grouped)
    decreases |grouped|
  {
    if grouped != [] {
      PairsTypes(grouped[1..], t, g);
    }
  }

  /**
   * Lines 119-164: in a well-keyed `$assets`, every rebuilt CSS group gets
   * the rewritten concatenation of that group's files, and every other
   * artifact keeps its content.
   */
  lemma {:induction false} BuildTypesContent(b: Build, grouped: Grouped, force: bool, artifacts: map<string, int>,
                                             stamps: Stamps, g: Key)
    requires WellKeyed(grouped)
    ensures var r := BuildTypes(b, grouped, force, artifacts, stamps);
      && (g in b.css && !(("css", g) in Pairs(grouped) && Stale(force, artifacts, stamps, "css", g))
          ==> r.css[g] == b.css[g])
      && (("css", g) in Pairs(grouped) && Stale(force, artifacts, stamps, "css", g)
          ==> r.css[g] == CssArtifact(GroupOf(grouped, "css", g)))
    decreases |grouped|
  {
    if grouped != [] {
      var (t, groups) := grouped[0];
      var rest := grouped[1..];
      var b' := BuildGroups(b, t, groups, force, artifacts, stamps);
      DistinctCons(grouped);
      assert WellKeyed(rest) by {
        forall i | 0 <= i < |rest| ensures Distinct(rest[i].1) {
          assert rest[i] == grouped[i + 1];
        }
      }
      BuildGroupsContent(b, t, groups, force, artifacts, stamps, g);
      BuildTypesContent(b', rest, force, artifacts, stamps, g);
      if t == "css" {
        PairsTypes(rest, "css", g);
      }
    }
  }

  // ----- The entry point (lines 41-190) -----

  /** The value of `static $assets` between calls. */
  datatype Helper = Helper(cache: Arr<seq<string>>)

  /** What one call returns, and the artifacts it rewrote. */
  datatype Outcome = Outcome(assets: Arr<seq<string>>, rebuilt: set<(Key, Key)>, css: map<Key, string>)

  /** Lines 172-181: the four production artifacts, below the assets path. */
  function ProdAssets(assetsPath: string): Arr<seq<string>>
  {
    [("css", [assetsPath + "/css/libraries.css", assetsPath + "/css/app.css"]),
     ("js", [assetsPath + "/js/libraries.js", assetsPath + "/js/app.js"])]
  }

  /** Lines 183-185: each type's files replaced by their relative paths, in insertion order. */
  function FlatKeys(flat: Flat): (r: Arr<seq<string>>)
    ensures |r| == |flat|
    ensures forall i :: 0 <= i < |r| ==> r[i].0 == flat[i].0 && r[i].1 == KeyList(flat[i].1)
  {
    if flat == [] then [] else [(flat[0].0, KeyList(flat[0].1))] + FlatKeys(flat[1..])
  }

  /**
   * `getAssets($forceRegeneration)`. `natLe` is `strnatcmp(a, b) <= 0`.
   * Returns the new cache and the call's outcome.
   */
  function GetAssets(h: Helper, fs: Snapshot, force: bool, natLe: (string, string) -> bool): (r: (Helper, Outcome))
    ensures r.1.assets == r.0.cache
    ensures h.cache != [] ==> r.0 == h && r.1.rebuilt == {} && r.1.css == map[]
    ensures h.cache == [] && (force || fs.env == "prod") ==> r.1.assets == ProdAssets(fs.assetsPath) && r.0.cache != []
    ensures h.cache == [] && !force && fs.env != "prod" ==> r.1.rebuilt == {} && r.1.css == map[]
  {
    if h.cache != [] then (h, Outcome(h.cache, {}, map[]))
    else
      var env := if force then "prod" else fs.env;
      var prod := env == "prod";
      var loadAll := !prod || SomeProdFileMissing(fs.artifacts);
      var scan := loadAll || force;
      var disc := if scan then Discover(fs, prod, natLe) else Discovery(Assets([], []), []);
      var build := if scan && prod then BuildTypes(Build({}, map[]), disc.assets.grouped, force, fs.artifacts, disc.stamps)
                   else Build({}, map[]);
      var result := if prod then ProdAssets(fs.assetsPath) else FlatKeys(disc.assets.flat);
      (Helper(result), Outcome(result, build.rebuilt, build.css))
  }

  // ----- Properties of a run -----

  /** Forcing makes the run a production run that rebuilds every group it discovers. */
  lemma ForceRebuildsEveryGroup(h: Helper, fs: Snapshot, natLe: (string, string) -> bool)
    requires h.cache == []
    ensures var r := GetAssets(h, fs, true, natLe);
      && r.1.assets == ProdAssets(fs.assetsPath)
      && r.1.rebuilt == Pairs(Discover(fs, true, natLe).assets.grouped)
  {
  }

  /**
   * A production run without force scans and rebuilds nothing while all
   * four production artifacts exist.
   */
  lemma ProdUpToDateSkipsScan(h: Helper, fs: Snapshot, natLe: (string, string) -> bool)
    requires h.cache == [] && fs.env == "prod"
    requires forall f :: f in ProdFiles ==> f in fs.artifacts
    ensures var r := GetAssets(h, fs, false, natLe);
      && r.1.assets == ProdAssets(fs.assetsPath)
      && r.1.rebuilt == {} && r.1.css == map[]
  {
    assert !SomeProdFileMissing(fs.artifacts);
  }

  /**
   * When a production run scans (forced, or some production artifact is
   * missing), a `(type, group)` artifact is rebuilt exactly when the group
   * was discovered and is stale; a CSS artifact is written exactly for the
   * rebuilt CSS groups.
   */
  lemma ProdRebuildsExactlyStale(h: Helper, fs: Snapshot, force: bool, natLe: (string, string) -> bool, t: Key, g: Key)
    requires h.cache == [] && (force || fs.env == "prod")
    requires force || exists f :: f in ProdFiles && f !in fs.artifacts
    ensures var r := GetAssets(h, fs, force, natLe);
      var d := Discover(fs, true, natLe);
      && ((t, g) in r.1.rebuilt <==> (t, g) in Pairs(d.assets.grouped) && Stale(force, fs.artifacts, d.stamps, t, g))
      && (g in r.1.css <==> ("css", g) in r.1.rebuilt)
  {
    if !force {
      var f :| f in ProdFiles && f !in fs.artifacts;
      assert SomeProdFileMissing(fs.artifacts);
    }
  }

  /**
   * Lines 132-157 at the level of a call: every CSS artifact a production
   * call writes is the rewritten concatenation of the files its scan
   * recorded for that group, in the group's order. Those are the entries the
   * bundles and then the theme assigned to the group, a repeated path taking
   * its last details at its first position; when no path repeats, the
   * artifact is each bundle file's content re-rooted from its own directory,
   * in discovery order, followed by the theme's override.
   */
  lemma ProdCssContent(h: Helper, fs: Snapshot, force: bool, natLe: (string, string) -> bool, g: Key)
    requires h.cache == [] && (force || fs.env == "prod")
    ensures var r := GetAssets(h, fs, force, natLe);
      var es := DiscoveredEntries(fs, natLe, "css", g);
      g in r.1.css ==>
        && r.1.css[g] == CssArtifact(GroupOf(Discover(fs, true, natLe).assets.grouped, "css", g))
        && r.1.css[g] == CssArtifact(Merge([], es))
        && (NoDup(KeyList(es)) ==>
              r.1.css[g] == BundleGroupCss(fs.bundles, g, fs.rootPath, natLe)
                            + OverrideCss(fs.theme, fs.currentTheme, g))
  {
    var d := Discover(fs, true, natLe);
    if force || SomeProdFileMissing(fs.artifacts) {
      DiscoverWellKeyed(fs, true, natLe);
      BuildTypesContent(Build({}, map[]), d.assets.grouped, force, fs.artifacts, d.stamps, g);
      DiscoverGroupOrder(fs, natLe, "css", g);
      CssArtifactAppend(BundleGroupEntries(fs.bundles, "css", g, fs.rootPath, natLe),
                        OverrideEntries(fs.theme, fs.rootPath, fs.currentTheme, "css", g));
      BundleGroupCssSpec(fs.bundles, g, fs.rootPath, natLe);
      OverrideCssSpec(fs.theme, fs.rootPath, fs.currentTheme, g);
    }
  }

  // ----- Reference: a CSS artifact written in terms of the files -----

  /** Each file's content re-rooted from the directory of its relative path, concatenated in order. */
  function FilesCss(files: seq<SourceFile>, rootPath: string, strip: bool): string
    decreases |files|
  {
    if files == [] then ""
    else Rewrite(files[0].content, CssRel(RelPath(rootPath, files[0].pathname, strip)))
         + FilesCss(files[1..], rootPath, strip)
  }

  /** What the kept subdirectories named `g` of one CSS directory contribute to its artifact. */
  function SubdirCss(ds: seq<SubDir>, g: Key, rootPath: string, natLe: (string, string) -> bool): string
    decreases |ds|
  {
    if ds == [] then ""
    else (if TakesDir(ds[0]) && ds[0].name == g then FilesCss(Listed(ds[0].files, "css", natLe), rootPath, true) else "")
         + SubdirCss(ds[1..], g, rootPath, natLe)
  }

  /** What one bundle's CSS directory contributes to artifact `g`: subdirectories, then the top level for `app`. */
  function DirCss(dir: AssetDir, g: Key, rootPath: string, natLe: (string, string) -> bool): string
  {
    SubdirCss(dir.subdirs, g, rootPath, natLe)
      + (if g == "app" then FilesCss(Listed(dir.files, "css", natLe), rootPath, false) else "")
  }

  /** What the bundles, in configuration order, contribute to CSS artifact `g`. */
  function BundleGroupCss(bs: seq<Bundle>, g: Key, rootPath: string, natLe: (string, string) -> bool): string
    decreases |bs|
  {
    if bs == [] then ""
    else (if "css" in bs[0].assetDirs then DirCss(bs[0].assetDirs["css"], g, rootPath, natLe) else "")
         + BundleGroupCss(bs[1..], g, rootPath, natLe)
  }

  /** What the theme's override contributes to CSS artifact `g`: its content re-rooted from the theme's css directory. */
  function OverrideCss(theme: map<string, Blob>, currentTheme: string, g: Key): string
  {
    var path := ThemePath("css", OverrideName(g));
    if (g == "libraries" || g == "app") && path in theme
    then Rewrite(theme[path].content, CssRel(currentTheme + "/" + path)) else ""
  }

  lemma {:induction false} FilesCssSpec(files: seq<SourceFile>, rootPath: string, strip: bool)
    ensures CssArtifact(FileEntries(files, rootPath, strip)) == FilesCss(files, rootPath, strip)
    decreases |files|
  {
    if files != [] {
      var e := Keyed(FileDetails(files[0], rootPath, strip));
      FilesCssSpec(files[1..], rootPath, strip);
      CssArtifactAppend([e], FileEntries(files[1..], rootPath, strip));
      CssArtifactSingle(e.0, e.1);
    }
  }

  lemma {:induction false} SubdirCssSpec(ds: seq<SubDir>, g: Key, rootPath: string, natLe: (string, string) -> bool)
    ensures CssArtifact(SubdirEntries(ds, "css", g, rootPath, natLe)) == SubdirCss(ds, g, rootPath, natLe)
    decreases |ds|
  {
    if ds != [] {
      var mine := if TakesDir(ds[0]) && ds[0].name == g then FileEntries(Listed(ds[0].files, "css", natLe), rootPath, true) else [];
      SubdirCssSpec(ds[1..], g, rootPath, natLe);
      CssArtifactAppend(mine, SubdirEntries(ds[1..], "css", g, rootPath, natLe));
      FilesCssSpec(Listed(ds[0].files, "css", natLe), rootPath, true);
    }
  }

  lemma DirCssSpec(dir: AssetDir, g: Key, rootPath: string, natLe: (string, string) -> bool)
    ensures CssArtifact(GroupEntries(dir, "css", g, rootPath, natLe)) == DirCss(dir, g, rootPath, natLe)
  {
    var top := if g == "app" then FileEntries(Listed(dir.files, "css", natLe), rootPath, false) else [];
    SubdirCssSpec(dir.subdirs, g, rootPath, natLe);
    CssArtifactAppend(SubdirEntries(dir.subdirs, "css", g, rootPath, natLe), top);
    FilesCssSpec(Listed(dir.files, "css", natLe), rootPath, false);
  }

  /** The bundles' part of a CSS artifact is each bundle's directory in configuration order. */
  lemma {:induction false} BundleGroupCssSpec(bs: seq<Bundle>, g: Key, rootPath: string, natLe: (string, string) -> bool)
    ensures CssArtifact(BundleGroupEntries(bs, "css", g, rootPath, natLe)) == BundleGroupCss(bs, g, rootPath, natLe)
    decreases |bs|
  {
    if bs != [] {
      var mine := if Scanned(bs[0], "css") then GroupEntries(bs[0].assetDirs["css"], "css", g, rootPath, natLe) else [];
      BundleGroupCssSpec(bs[1..], g, rootPath, natLe);
      CssArtifactAppend(mine, BundleGroupEntries(bs[1..], "css", g, rootPath, natLe));
      if Scanned(bs[0], "css") {
        DirCssSpec(bs[0].assetDirs["css"], g, rootPath, natLe);
      }
    }
  }

  /** The theme's part of a CSS artifact: the override file's content, when it exists. */
  lemma OverrideCssSpec(theme: map<string, Blob>, rootPath: string, currentTheme: string, g: Key)
    ensures CssArtifact(OverrideEntries(theme, rootPath, currentTheme, "css", g)) == OverrideCss(theme, currentTheme, g)
  {
    var path := ThemePath("css", OverrideName(g));
    if (g == "libraries" || g == "app") && path in theme {
      var d := OverrideDetails(rootPath, currentTheme, path, theme[path]);
      CssArtifactSingle(d.relPath, d);
    }
  }

  /**
   * Outside production (and without force) every call scans, writes
   * nothing, and returns per type the relative paths in insertion order.
   */
  lemma DevListsRelPaths(h: Helper, fs: Snapshot, natLe: (string, string) -> bool)
    requires h.cache == [] && fs.env != "prod"
    ensures var r := GetAssets(h, fs, false, natLe);
      var flat := Discover(fs, false, natLe).assets.flat;
      && r.1.rebuilt == {} && r.1.css == map[]
      && KeyList(r.1.assets) == KeyList(flat)
      && forall i :: 0 <= i < |flat| ==> r.1.assets[i].1 == KeyList(flat[i].1)
  {
  }

  /** Once the cache holds something, every later call returns it untouched, even when forced. */
  lemma CacheIsFinal(h0: Helper, fs: Snapshot, force: bool, natLe: (string, string) -> bool,
                     fs2: Snapshot, force2: bool, natLe2: (string, string) -> bool)
    requires GetAssets(h0, fs, force, natLe).1.assets != []
    ensures var (h1, o1) := GetAssets(h0, fs, force, natLe);
      GetAssets(h1, fs2, force2, natLe2) == (h1, Outcome(o1.assets, {}, map[]))
  {
  }

  /** A production call always fills the cache, so the next call returns the same four paths. */
  lemma ProdCallIsMemoised(h0: Helper, fs: Snapshot, force: bool, natLe: (string, string) -> bool,
                           fs2: Snapshot, force2: bool)
    requires force || fs.env == "prod"
    ensures var (h1, o1) := GetAssets(h0, fs, force, natLe);
      GetAssets(h1, fs2, force2, natLe).1.assets == o1.assets
  {
  }

  /** A group without a recorded time is rebuilt only when forced or when its artifact is missing. */
  lemma NoStampNeverOlder(force: bool, artifacts: map<string, int>, stamps: Stamps, t: Key, g: Key)
    requires StampOf(stamps, t, g) == None
    ensures Stale(force, artifacts, stamps, t, g) <==> force || ArtifactPath(t, g) !in artifacts
  {
  }

  /** A concatenated CSS artifact is the concatenation of the artifacts of its parts. */
  lemma CssArtifactAppend(a: Arr<Details>, b: Arr<Details>)
    ensures CssArtifact(a + b) == CssArtifact(a) + CssArtifact(b)
  {
    ConcatMapAppend(CssPiece, a, b);
  }

  lemma {:induction false} ConcatMapAppend<T>(f: T -> string, a: seq<T>, b: seq<T>)
    ensures ConcatMap(f, a + b) == ConcatMap(f, a) + ConcatMap(f, b)
    decreases |a|
  {
    if a == [] {
      assert a + b == b;
    } else {
      assert (a + b)[0] == a[0];
      assert (a + b)[1..] == a[1..] + b;
      ConcatMapAppend(f, a[1..], b);
    }
  }

  /** One file contributes its content with its references re-rooted from its own directory. */
  lemma CssArtifactSingle(k: Key, d: Details)
    ensures CssArtifact([(k, d)]) == Rewrite(d.content, "../../" + Dirname(d.relPath) + "/")
  {
    var piece := CssPiece((k, d));
    assert [(k, d)][1..] == [];
    assert CssArtifact([(k, d)]) == piece + ConcatMap(CssPiece, []);
    assert piece + "" == piece;
  }

  /** Every group that holds a file is one the rebuild loop visits. */
  lemma {:induction false} PairsCover(grouped: Grouped, t: Key, g: Key)
    requires KeySet(GroupOf(grouped, t, g)) != {}
    ensures (t, g) in Pairs(grouped)
    decreases |grouped|
  {
    if grouped != [] && grouped[0].0 != t {
      PairsCover(grouped[1..], t, g);
    } else if grouped != [] {
      assert g in KeySet(grouped[0].1);
    }
  }

  // ----- The recorded timestamps (lines 93-102) -----

  /**
   * Reference: the newest source time of group `g` of type `t` as found by
   * the LAST bundle that has files in that group; earlier bundles do not count.
   */
  function LastStamp(bundles: seq<Bundle>, t: Key, g: Key, natLe: (string, string) -> bool): Option<int>
    decreases |bundles|
  {
    if bundles == [] then None
    else
      var b := bundles[|bundles| - 1];
      if (t == "css" || t == "js") && t in b.assetDirs && MaxMtime(GroupFiles(b.assetDirs[t], t, g, natLe)).Some?
      then MaxMtime(GroupFiles(b.assetDirs[t], t, g, natLe))
      else LastStamp(bundles[..|bundles| - 1], t, g, natLe)
  }

  /**
   * Lines 93-99: scanning one type of one bundle replaces (`array_merge`)
   * the recorded time of every group it found files for, and keeps all others.
   */
  lemma BundleTypeStamps(d: Discovery, b: Bundle, ft: Key, rootPath: string,
                         natLe: (string, string) -> bool, t: Key, g: Key)
    ensures var r := BundleType(d, b, ft, true, rootPath, natLe);
      StampOf(r.stamps, t, g) ==
        if t == ft && ft in b.assetDirs && MaxMtime(GroupFiles(b.assetDirs[ft], ft, g, natLe)).Some?
        then MaxMtime(GroupFiles(b.assetDirs[ft], ft, g, natLe)) else StampOf(d.stamps, t, g)
  {
    var ml := if ft in KeyList(d.stamps) then d.stamps else Put(d.stamps, ft, []);
    assert StampOf(ml, t, g) == StampOf(d.stamps, t, g);
    if ft in b.assetDirs {
      var s := FindAssets(b.assetDirs[ft], ft, true, rootPath, natLe, d.assets);
      FindAssetsStamps(b.assetDirs[ft], ft, true, rootPath, natLe, d.assets, g);
      MergeTypeStamps(ml, ft, s.stamps, t, g);
    }
  }

  /** Line 98 for one type: the scan's times replace the recorded ones group by group. */
  lemma MergeTypeStamps(ml: Stamps, ft: Key, found: Arr<int>, t: Key, g: Key)
    requires Distinct(found)
    ensures StampOf(Put(ml, ft, Merge(Get(ml, ft).GetOr([]), found)), t, g)
         == if t == ft && g in KeyList(found) then Get(found, g) else StampOf(ml, t, g)
  {
    MergeGet(Get(ml, ft).GetOr([]), found, g);
  }

  lemma {:induction false} DiscoverBundlesSnoc(d: Discovery, bs: seq<Bundle>, b: Bundle, prod: bool,
                                               rootPath: string, natLe: (string, string) -> bool)
    ensures DiscoverBundles(d, bs + [b], prod, rootPath, natLe)
         == BundleStep(DiscoverBundles(d, bs, prod, rootPath, natLe), b, prod, rootPath, natLe)
    decreases |bs|
  {
    if bs == [] {
      assert bs + [b] == [b];
    } else {
      assert (bs + [b])[1..] == bs[1..] + [b];
      DiscoverBundlesSnoc(BundleStep(d, bs[0], prod, rootPath, natLe), bs[1..], b, prod, rootPath, natLe);
    }
  }

  /** Lines 91-101: after all bundles, each group carries the time the last bundle to find it recorded. */
  lemma {:induction false} DiscoverBundlesStamps(d: Discovery, bs: seq<Bundle>, rootPath: string,
                                                 natLe: (string, string) -> bool, t: Key, g: Key)
    ensures StampOf(DiscoverBundles(d, bs, true, rootPath, natLe).stamps, t, g) ==
      if LastStamp(bs, t, g, natLe).Some? then LastStamp(bs, t, g, natLe) else StampOf(d.stamps, t, g)
    decreases |bs|
  {
    if bs != [] {
      var init := bs[..|bs| - 1];
      var last := bs[|bs| - 1];
      assert bs == init + [last];
      DiscoverBundlesSnoc(d, init, last, true, rootPath, natLe);
      DiscoverBundlesStamps(d, init, rootPath, natLe, t, g);
      var m := DiscoverBundles(d, init, true, rootPath, natLe);
      BundleTypeStamps(m, last, "css", rootPath, natLe, t, g);
      BundleTypeStamps(BundleType(m, last, "css", true, rootPath, natLe), last, "js", rootPath, natLe, t, g);
    }
  }

  /**
   * Line 102: an override of a type replaces that type's whole timestamp
   * map, so when the theme overrides any group of `t`, the bundles' times
   * for `t` are forgotten; otherwise the last bundle's time stands.
   */
  lemma DiscoverStamps(fs: Snapshot, natLe: (string, string) -> bool, t: Key, g: Key)
    ensures StampOf(Discover(fs, true, natLe).stamps, t, g) ==
      if OverrideStamp(fs.theme, t, "libraries").Some? || OverrideStamp(fs.theme, t, "app").Some?
      then OverrideStamp(fs.theme, t, g)
      else LastStamp(fs.bundles, t, g, natLe)
  {
    var d := DiscoverBundles(Discovery(Assets([], []), []), fs.bundles, true, fs.rootPath, natLe);
    DiscoverBundlesStamps(Discovery(Assets([], []), []), fs.bundles, fs.rootPath, natLe, t, g);
    FindOverridesStamps(fs.theme, fs.rootPath, fs.currentTheme, d.assets, t, g);
    var ov := FindOverrides(fs.theme, fs.rootPath, fs.currentTheme, true, d.assets);
    MergeGet(d.stamps, ov.1, t);
  }

  // ----- The shape of the discovered assets (lines 85-102) -----

  lemma BundleTypeWellKeyed(d: Discovery, b: Bundle, ft: Key, prod: bool, rootPath: string,
                            natLe: (string, string) -> bool)
    requires WellKeyed(d.assets.grouped)
    ensures WellKeyed(BundleType(d, b, ft, prod, rootPath, natLe).assets.grouped)
  {
    if ft in b.assetDirs {
      FindAssetsWellKeyed(b.assetDirs[ft], ft, prod, rootPath, natLe, d.assets);
    }
  }

  lemma {:induction false} DiscoverBundlesWellKeyed(d: Discovery, bs: seq<Bundle>, prod: bool, rootPath: string,
                                                    natLe: (string, string) -> bool)
    requires WellKeyed(d.assets.grouped)
    ensures WellKeyed(DiscoverBundles(d, bs, prod, rootPath, natLe).assets.grouped)
    decreases |bs|
  {
    if bs != [] {
      BundleTypeWellKeyed(d, bs[0], "css", prod, rootPath, natLe);
      BundleTypeWellKeyed(BundleType(d, bs[0], "css", prod, rootPath, natLe), bs[0], "js", prod, rootPath, natLe);
      DiscoverBundlesWellKeyed(BundleStep(d, bs[0], prod, rootPath, natLe), bs[1..], prod, rootPath, natLe);
    }
  }

  /** The discovered `$assets` lists no type twice and no group twice within a type. */
  lemma DiscoverWellKeyed(fs: Snapshot, prod: bool, natLe: (string, string) -> bool)
    ensures WellKeyed(Discover(fs, prod, natLe).assets.grouped)
  {
    var d0 := Discovery(Assets([], []), []);
    DiscoverBundlesWellKeyed(d0, fs.bundles, prod, fs.rootPath, natLe);
    var d := DiscoverBundles(d0, fs.bundles, prod, fs.rootPath, natLe);
    FindOverridesWellKeyed(fs.theme, fs.rootPath, fs.currentTheme, prod, d.assets);
  }

  /** Line 93: a bundle's directory for type `t` is scanned when `t` is css or js and the directory exists. */
  predicate Scanned(b: Bundle, t: Key)
  {
    (t == "css" || t == "js") && t in b.assetDirs
  }

  /** Reference: the entries the bundles assign to group `g` of type `t`, bundle by bundle. */
  function BundleGroupEntries(bs: seq<Bundle>, t: Key, g: Key, rootPath: string, natLe: (string, string) -> bool): Arr<Details>
    decreases |bs|
  {
    if bs == [] then []
    else (if Scanned(bs[0], t) then GroupEntries(bs[0].assetDirs[t], t, g, rootPath, natLe) else [])
         + BundleGroupEntries(bs[1..], t, g, rootPath, natLe)
  }

  /** Reference: the entries the bundles assign to the flat list of type `t`, bundle by bundle. */
  function BundleFlatEntries(bs: seq<Bundle>, t: Key, rootPath: string, natLe: (string, string) -> bool): Arr<Details>
    decreases |bs|
  {
    if bs == [] then []
    else (if Scanned(bs[0], t) then FlatEntries(bs[0].assetDirs[t], t, rootPath, natLe) else [])
         + BundleFlatEntries(bs[1..], t, rootPath, natLe)
  }

  /** Production, one bundle: its css scan and then its js scan assign their entries to group `g` of type `t`. */
  lemma BundleStepGrouped(d: Discovery, b: Bundle, rootPath: string, natLe: (string, string) -> bool, t: Key, g: Key)
    ensures GroupOf(BundleStep(d, b, true, rootPath, natLe).assets.grouped, t, g)
         == Merge(GroupOf(d.assets.grouped, t, g), if Scanned(b, t) then GroupEntries(b.assetDirs[t], t, g, rootPath, natLe) else [])
  {
    var d1 := BundleType(d, b, "css", true, rootPath, natLe);
    if "css" in b.assetDirs {
      FindAssetsGrouped(b.assetDirs["css"], "css", rootPath, natLe, d.assets, t, g);
    }
    if "js" in b.assetDirs {
      FindAssetsGrouped(b.assetDirs["js"], "js", rootPath, natLe, d1.assets, t, g);
    }
  }

  /** Development, one bundle: its scans assign their entries to the flat list of type `t`. */
  lemma BundleStepFlat(d: Discovery, b: Bundle, rootPath: string, natLe: (string, string) -> bool, t: Key)
    ensures TypeOf(BundleStep(d, b, false, rootPath, natLe).assets.flat, t)
         == Merge(TypeOf(d.assets.flat, t), if Scanned(b, t) then FlatEntries(b.assetDirs[t], t, rootPath, natLe) else [])
  {
    var d1 := BundleType(d, b, "css", false, rootPath, natLe);
    if "css" in b.assetDirs {
      FindAssetsFlat(b.assetDirs["css"], "css", rootPath, natLe, d.assets, t);
    }
    if "js" in b.assetDirs {
      FindAssetsFlat(b.assetDirs["js"], "js", rootPath, natLe, d1.assets, t);
    }
  }

  /** Production: the bundles, in configuration order, assign their entries to group `g` of type `t`. */
  lemma {:induction false} DiscoverBundlesGrouped(d: Discovery, bs: seq<Bundle>, rootPath: string,
                                                  natLe: (string, string) -> bool, t: Key, g: Key)
    ensures GroupOf(DiscoverBundles(d, bs, true, rootPath, natLe).assets.grouped, t, g)
         == Merge(GroupOf(d.assets.grouped, t, g), BundleGroupEntries(bs, t, g, rootPath, natLe))
    decreases |bs|
  {
    if bs != [] {
      var d1 := BundleStep(d, bs[0], true, rootPath, natLe);
      BundleStepGrouped(d, bs[0], rootPath, natLe, t, g);
      DiscoverBundlesGrouped(d1, bs[1..], rootPath, natLe, t, g);
      MergeConcat(GroupOf(d.assets.grouped, t, g),
                  if Scanned(bs[0], t) then GroupEntries(bs[0].assetDirs[t], t, g, rootPath, natLe) else [],
                  BundleGroupEntries(bs[1..], t, g, rootPath, natLe));
    }
  }

  /** Development: the bundles, in configuration order, assign their entries to the flat list of type `t`. */
  lemma {:induction false} DiscoverBundlesFlat(d: Discovery, bs: seq<Bundle>, rootPath: string,
                                               natLe: (string, string) -> bool, t: Key)
    ensures TypeOf(DiscoverBundles(d, bs, false, rootPath, natLe).assets.flat, t)
         == Merge(TypeOf(d.assets.flat, t), BundleFlatEntries(bs, t, rootPath, natLe))
    decreases |bs|
  {
    if bs != [] {
      var d1 := BundleStep(d, bs[0], false, rootPath, natLe);
      BundleStepFlat(d, bs[0], rootPath, natLe, t);
      DiscoverBundlesFlat(d1, bs[1..], rootPath, natLe, t);
      MergeConcat(TypeOf(d.assets.flat, t),
                  if Scanned(bs[0], t) then FlatEntries(bs[0].assetDirs[t], t, rootPath, natLe) else [],
                  BundleFlatEntries(bs[1..], t, rootPath, natLe));
    }
  }

  /** Every entry the production discovery assigns to group `g` of type `t`, in assignment order. */
  function DiscoveredEntries(fs: Snapshot, natLe: (string, string) -> bool, t: Key, g: Key): Arr<Details>
  {
    BundleGroupEntries(fs.bundles, t, g, fs.rootPath, natLe) + OverrideEntries(fs.theme, fs.rootPath, fs.currentTheme, t, g)
  }

  /** Every entry the development discovery assigns to the flat list of type `t`, in assignment order. */
  function DiscoveredFlatEntries(fs: Snapshot, natLe: (string, string) -> bool, t: Key): Arr<Details>
  {
    BundleFlatEntries(fs.bundles, t, fs.rootPath, natLe) + OverrideFlatEntries(fs.theme, fs.rootPath, fs.currentTheme, t)
  }

  /**
   * Lines 85-102 in production: a group is what the bundles' files, in
   * configuration order and each bundle's in its scan order, and then the
   * theme's override assign to it. A path seen again keeps its first
   * position and takes the last details assigned to it; when no path
   * repeats, the group is exactly that sequence of entries.
   */
  lemma DiscoverGroupOrder(fs: Snapshot, natLe: (string, string) -> bool, t: Key, g: Key)
    ensures var es := DiscoveredEntries(fs, natLe, t, g);
      var group := GroupOf(Discover(fs, true, natLe).assets.grouped, t, g);
      && group == Merge([], es)
      && KeyList(group) == AppendFresh([], KeyList(es))
      && (forall p :: Get(group, p) == LastGet(es, p))
      && (NoDup(KeyList(es)) ==> group == es)
  {
    var d0 := Discovery(Assets([], []), []);
    var d := DiscoverBundles(d0, fs.bundles, true, fs.rootPath, natLe);
    var bundle := BundleGroupEntries(fs.bundles, t, g, fs.rootPath, natLe);
    var ov := OverrideEntries(fs.theme, fs.rootPath, fs.currentTheme, t, g);
    DiscoverBundlesGrouped(d0, fs.bundles, fs.rootPath, natLe, t, g);
    FindOverridesGroups(fs.theme, fs.rootPath, fs.currentTheme, d.assets, t, g);
    MergeConcat([], bundle, ov);
    MergeKeys([], bundle + ov);
    forall p {
      MergeLast([], bundle + ov, p);
    }
    if NoDup(KeyList(bundle + ov)) {
      MergeFresh([], bundle + ov);
    }
  }

  /**
   * Lines 85-102 outside production: a type's flat list is what the
   * bundles' files in configuration order, then the theme's
   * `libraries_custom` and `app_custom` overrides, assign to it; a path
   * seen again keeps its first position and takes the last details.
   */
  lemma DiscoverFlatOrder(fs: Snapshot, natLe: (string, string) -> bool, t: Key)
    ensures var es := DiscoveredFlatEntries(fs, natLe, t);
      var flat := TypeOf(Discover(fs, false, natLe).assets.flat, t);
      && flat == Merge([], es)
      && KeyList(flat) == AppendFresh([], KeyList(es))
      && (forall p :: Get(flat, p) == LastGet(es, p))
      && (NoDup(KeyList(es)) ==> flat == es)
  {
    var d0 := Discovery(Assets([], []), []);
    var d := DiscoverBundles(d0, fs.bundles, false, fs.rootPath, natLe);
    var bundle := BundleFlatEntries(fs.bundles, t, fs.rootPath, natLe);
    var ov := OverrideFlatEntries(fs.theme, fs.rootPath, fs.currentTheme, t);
    DiscoverBundlesFlat(d0, fs.bundles, fs.rootPath, natLe, t);
    FindOverridesFlat(fs.theme, fs.rootPath, fs.currentTheme, d.assets, t);
    MergeConcat([], bundle, ov);
    MergeKeys([], bundle + ov);
    forall p {
      MergeLast([], bundle + ov, p);
    }
    if NoDup(KeyList(bundle + ov)) {
      MergeFresh([], bundle + ov);
    }
  }

  /** Line 184 read back: the list a type maps to is the keys of that type's flat list. */
  lemma {:induction false} FlatKeysGet(flat: Flat, t: Key)
    ensures Get(FlatKeys(flat), t).GetOr([]) == KeyList(TypeOf(flat, t))
    decreases |flat|
  {
    if flat != [] && flat[0].0 != t {
      FlatKeysGet(flat[1..], t);
      assert FlatKeys(flat)[1..] == FlatKeys(flat[1..]);
    }
  }

  /**
   * Outside production (and without force) a call returns, for each type,
   * the bundles' relative paths in configuration and scan order followed by
   * the theme's overrides.
   */
  lemma DevAssetsInScanOrder(h: Helper, fs: Snapshot, natLe: (string, string) -> bool, t: Key)
    requires h.cache == [] && fs.env != "prod"
    ensures Get(GetAssets(h, fs, false, natLe).1.assets, t).GetOr([])
         == AppendFresh([], KeyList(DiscoveredFlatEntries(fs, natLe, t)))
  {
    DiscoverFlatOrder(fs, natLe, t);
    FlatKeysGet(Discover(fs, false, natLe).assets.flat, t);
  }
}
