/** The cache rule of the Hindi `ClassifyFst`: the name of the archive that holds
    the compiled sentence grammar, and the choice between restoring that archive
    and rebuilding the grammar. The file system enters only as an existence test. */
module HiCache {
  import opened Wrappers
  import opened Text

  /** The position of the last slash of the path, or -1 when it has none. */
  function LastSlash(p: string): (k: int)
    ensures -1 <= k < |p|
    ensures k >= 0 ==> p[k] == '/'
    ensures forall i :: k < i < |p| ==> p[i] != '/'
  {
    if |p| == 0 then -1
    else if p[|p| - 1] == '/' then |p| - 1
    else LastSlash(p[..|p| - 1])
  }

  /** `os.path.basename`: the part of the path after its last slash. */
  function Basename(p: string): (b: string)
    ensures '/' !in b
    ensures EndsWith(p, b)
    ensures |b| < |p| ==> p[|p| - |b| - 1] == '/'
  {
    p[LastSlash(p) + 1..]
  }

  /** Python's `str(bool)`. */
  function BoolText(b: bool): string {
    if b then "True" else "False"
  }

  /** `f"hi_tn_{deterministic}_deterministic_{input_case}_{whitelist_file}_tokenize.far"`. */
  function CacheName(deterministic: bool, inputCase: string, whitelistFile: string): string {
    "hi_tn_" + BoolText(deterministic) + "_deterministic_" + inputCase + "_" + whitelistFile + "_tokenize.far"
  }

  /** `os.path.join(dir, name)` for a relative name. */
  function JoinPath(dir: string, name: string): string {
    if |dir| == 0 || dir[|dir| - 1] == '/' then dir + name else dir + "/" + name
  }

  /** The whitelist part of the name: the base name of the whitelist path, or
      the empty string when there is no whitelist or its path is empty. */
  function WhitelistFile(whitelist: Option<string>): string {
    match whitelist
    case None => ""
    case Some(p) => if |p| == 0 then "" else Basename(p)
  }

  /** `far_file`: no archive without a cache directory or with the directory
      `"None"`; `os.makedirs` fails on the empty directory name; otherwise the
      archive name is placed in the directory, with one slash between them unless
      the directory already ends in one, so that the archive name is the base
      name of the path whenever the input case holds no slash. */
  function FarFile(cacheDir: Option<string>, deterministic: bool, inputCase: string,
                   whitelist: Option<string>): (r: Result<Option<string>, string>)
    ensures r.Failure? <==> cacheDir == Some("")
    ensures r.Success? && r.value.Some? <==> cacheDir.Some? && cacheDir.value != "None" && cacheDir.value != ""
    ensures r.Success? && r.value.Some? ==>
      && StartsWith(r.value.value, cacheDir.value)
      && EndsWith(r.value.value, CacheName(deterministic, inputCase, WhitelistFile(whitelist)))
    ensures r.Success? && r.value.Some? ==>
      var dir, name := cacheDir.value, CacheName(deterministic, inputCase, WhitelistFile(whitelist));
      if dir[|dir| - 1] == '/' then r.value.value == dir + name else r.value.value == dir + "/" + name
    ensures r.Success? && r.value.Some? && '/' !in inputCase ==>
      Basename(r.value.value) == CacheName(deterministic, inputCase, WhitelistFile(whitelist))
  {
    if cacheDir.None? || cacheDir.value == "None" then Success(None)
    else if cacheDir.value == "" then Failure("makedirs: empty directory name")
    else
      var dir := cacheDir.value;
      var name := CacheName(deterministic, inputCase, WhitelistFile(whitelist));
      var f := JoinPath(dir, name);
      assert f[..|dir|] == dir;
      assert f[|f| - |name|..] == name;
      if '/' in inputCase then Success(Some(f))
      else
        CacheNameWithoutSlash(deterministic, inputCase, WhitelistFile(whitelist));
        JoinedBasename(dir, name);
        Success(Some(f))
  }

  /** How the grammar is obtained. */
  datatype Plan = Restore(source: string) | Rebuild(saveTo: Option<string>)

  /** Restore only when the cache may be read and the archive exists; otherwise
      rebuild, and save when there is an archive name. */
  function ChoosePlan(farFile: Option<string>, overwriteCache: bool, onDisk: string -> bool): (p: Plan)
    ensures p.Restore? <==> !overwriteCache && farFile.Some? && onDisk(farFile.value)
    ensures p.Restore? ==> p.source == farFile.value
    ensures p.Rebuild? ==> p.saveTo == farFile
  {
    if !overwriteCache && farFile.Some? && onDisk(farFile.value) then Restore(farFile.value)
    else Rebuild(farFile)
  }

  /** The archives that exist after carrying out a plan. */
  function AfterPlan(p: Plan, onDisk: string -> bool): string -> bool {
    (f: string) => onDisk(f) || (p.Rebuild? && p.saveTo == Some(f))
  }

  /** With an archive name, whatever the first construction did, a second one
      that does not overwrite restores the archive. */
  lemma SecondConstructionRestores(farFile: Option<string>, overwriteCache: bool, onDisk: string -> bool)
    requires farFile.Some?
    ensures ChoosePlan(farFile, false, AfterPlan(ChoosePlan(farFile, overwriteCache, onDisk), onDisk))
            == Restore(farFile.value)
  {
    var p := ChoosePlan(farFile, overwriteCache, onDisk);
    assert AfterPlan(p, onDisk)(farFile.value);
  }

  /** Without a cache directory the grammar is rebuilt and nothing is saved. */
  lemma NoCacheDirectoryRebuilds(cacheDir: Option<string>, deterministic: bool, inputCase: string,
                                 whitelist: Option<string>, overwriteCache: bool, onDisk: string -> bool)
    requires cacheDir.None? || cacheDir == Some("None")
    ensures FarFile(cacheDir, deterministic, inputCase, whitelist) == Success(None)
    ensures ChoosePlan(None, overwriteCache, onDisk) == Rebuild(None)
  {
  }

  /** The two input cases the classifier accepts. */
  predicate KnownInputCase(c: string) {
    c == "lower_cased" || c == "cased"
  }

  /** For the known input cases, the archive name determines the determinism flag, the input case and the whitelist name. */
  lemma {:induction false} CacheNameKeyed(d1: bool, c1: string, w1: string, d2: bool, c2: string, w2: string)
    requires KnownInputCase(c1) && KnownInputCase(c2)
    requires CacheName(d1, c1, w1) == CacheName(d2, c2, w2)
    ensures d1 == d2 && c1 == c2 && w1 == w2
  {
    var n1, n2 := CacheName(d1, c1, w1), CacheName(d2, c2, w2);
    assert n1[6] == BoolText(d1)[0] && n2[6] == BoolText(d2)[0];
    var p1 := "hi_tn_" + BoolText(d1) + "_deterministic_";
    var p2 := "hi_tn_" + BoolText(d2) + "_deterministic_";
    assert |p1| == |p2|;
    assert n1[|p1|] == c1[0] && n2[|p2|] == c2[0];
    var q1 := p1 + c1 + "_";
    var q2 := p2 + c2 + "_";
    assert |q1| == |q2|;
    var tail := "_tokenize.far";
    assert n1 == q1 + w1 + tail && n2 == q2 + w2 + tail;
    assert w1 == n1[|q1|..|n1| - |tail|];
    assert w2 == n2[|q2|..|n2| - |tail|];
  }

  /** Only the base name of the whitelist enters the archive name: two
      whitelists of the same name in different directories share one archive. */
  lemma WhitelistDirectoryIgnored(cacheDir: string, deterministic: bool, inputCase: string,
                                  dir1: string, dir2: string, name: string)
    requires |name| > 0 && '/' !in name
    ensures FarFile(Some(cacheDir), deterministic, inputCase, Some(dir1 + "/" + name))
         == FarFile(Some(cacheDir), deterministic, inputCase, Some(dir2 + "/" + name))
  {
    BasenameAfterSlash(dir1, name);
    BasenameAfterSlash(dir2, name);
  }

  lemma CacheNameWithoutSlash(deterministic: bool, inputCase: string, whitelistFile: string)
    requires '/' !in inputCase && '/' !in whitelistFile
    ensures '/' !in CacheName(deterministic, inputCase, whitelistFile)
  {
  }

  /** Joining a non-empty directory and a name without a slash gives a path
      whose base name is the name. */
  lemma JoinedBasename(dir: string, name: string)
    requires |dir| > 0 && '/' !in name
    ensures Basename(JoinPath(dir, name)) == name
  {
    if dir[|dir| - 1] == '/' {
      var d := dir[..|dir| - 1];
      assert dir == d + "/";
      assert JoinPath(dir, name) == d + "/" + name;
      BasenameAfterSlash(d, name);
    } else {
      BasenameAfterSlash(dir, name);
    }
  }

  /** The base name of `dir/name` is `name`. */
  lemma BasenameAfterSlash(dir: string, name: string)
    requires '/' !in name
    ensures Basename(dir + "/" + name) == name
  {
    var p := dir + "/" + name;
    forall i | |dir| < i < |p| ensures p[i] != '/' {
      assert p[i] == name[i - |dir| - 1];
    }
    assert p[|dir|] == '/';
    assert LastSlash(p) == |dir|;
  }
}
