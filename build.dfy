/** The build driver (build.py): deciding whether a source needs compiling,
    walking a directory tree for sources, and merging class directories and
    unpacked jars into one directory of symbolic links for the final jar.

    The file system is a map from path strings to entries. Every operation
    returns the tree it leaves behind together with the error that stopped
    it, if any, so that work done before a fatal error stays visible, as it
    does on disk. Clocks, external commands (javac, cc, jar) and the
    absolute-path lookup are parameters. */
module Build {
  import opened Wrappers
  import opened Text

  datatype Entry = File(mtime: int) | Dir(mtime: int) | Link(target: string)

  type Tree = map<string, Entry>

  /** What a file-system operation leaves: the tree, and the error that
      ended it (a raised exception or a sys.exit(1)), if any. */
  datatype Effect = Effect(tree: Tree, err: Option<string>)

  /** The number of symbolic links followed before a lookup gives up, as
      the Linux kernel does (MAXSYMLINKS). */
  const MaxSymlinks: nat := 40

  /** The entry a path names once symbolic links are followed; None when
      the path is missing, a link dangles or the chain is too long. */
  function FollowN(fs: Tree, p: string, fuel: nat): (r: Option<Entry>)
    ensures r.Some? ==> !r.value.Link?
    decreases fuel
  {
    if p !in fs then None
    else match fs[p]
      case Link(t) => if fuel == 0 then None else FollowN(fs, t, fuel - 1)
      case e => Some(e)
  }

  function Follow(fs: Tree, p: string): Option<Entry> {
    FollowN(fs, p, MaxSymlinks)
  }

  /** os.path.exists: false for a dangling link. */
  predicate Exists(fs: Tree, p: string) { Follow(fs, p).Some? }

  /** os.path.isdir, following links. */
  predicate IsDir(fs: Tree, p: string) { Follow(fs, p).Some? && Follow(fs, p).value.Dir? }

  /** os.path.islink: the path itself is a link, dangling or not. */
  predicate IsLink(fs: Tree, p: string) { p in fs && fs[p].Link? }

  /** os.path.getmtime, following links; None where it would raise. */
  function MTime(fs: Tree, p: string): Option<int> {
    match Follow(fs, p)
    case Some(File(t)) => Some(t)
    case Some(Dir(t)) => Some(t)
    case _ => None
  }

  // ---------------------------------------------------------------------
  // Paths

  /** Index of the last `c` in `s`, or -1. */
  function LastIndexOf(s: string, c: char): (r: int)
    ensures r == -1 <==> c !in s
    ensures r != -1 ==> 0 <= r < |s| && s[r] == c && c !in s[r + 1..]
  {
    if s == [] then -1
    else if s[|s| - 1] == c then |s| - 1
    else
      var r := LastIndexOf(s[..|s| - 1], c);
      assert s == s[..|s| - 1] + [s[|s| - 1]];
      assert r != -1 ==> s[r + 1..] == s[..|s| - 1][r + 1..] + [s[|s| - 1]];
      r
  }

  /** The directory a path lives in; "" stands for the working directory. */
  function Parent(p: string): string {
    var k := LastIndexOf(p, '/');
    if k <= 0 then "" else p[..k]
  }

  /** The working directory and the root always exist as directories. */
  predicate ParentIsDir(fs: Tree, p: string) {
    Parent(p) == "" || IsDir(fs, Parent(p))
  }

  /** os.path.join(a, b) for two components. */
  function JoinPath(a: string, b: string): string {
    if StartsWith(b, "/") then b
    else if a == "" || EndsWith(a, "/") then a + b
    else a + "/" + b
  }

  /** Python's slice s[n:], which is empty when n is past the end. */
  function Drop(s: string, n: nat): string {
    if n <= |s| then s[n..] else ""
  }

  /** Python's s.rstrip(c). */
  function RStrip(s: string, c: char): (r: string)
    ensures |r| <= |s| && r == s[..|r|]
    ensures r == [] || r[|r| - 1] != c
    ensures forall k :: |r| <= k < |s| ==> s[k] == c
  {
    if s != [] && s[|s| - 1] == c then
      var r := RStrip(s[..|s| - 1], c);
      assert s[..|s| - 1][..|r|] == s[..|r|];
      assert forall k :: |r| <= k < |s| - 1 ==> s[k] == s[..|s| - 1][k];
      r
    else s
  }

  // ---------------------------------------------------------------------
  // needs_compile and compile_if_needed

  function ExtensionError(source: string, ext: string): string {
    "source file " + source + " does not end with " + ext
  }

  function NoSuchFile(p: string): string { "FileNotFoundError: " + p }

  function FileExists(p: string): string { "FileExistsError: " + p }

  /** The output for a source: its extension replaced by the output
      extension, or the output extension appended when the source extension
      is empty. */
  function OutputPath(source: string, sourceExt: string, outExt: string): string
    requires EndsWith(source, sourceExt)
  {
    if sourceExt == "" then source + outExt
    else source[..|source| - |sourceExt|] + outExt
  }

  /** needs_compile: an error for a source with the wrong extension, true
      when the output is missing, otherwise whether the source is strictly
      newer than the output. It fails only for a wrong extension, or for a
      source that has no time while its output exists. */
  function NeedsCompile(fs: Tree, source: string, sourceExt: string, outExt: string): (r: Result<bool, string>)
    ensures r.Err? <==> !EndsWith(source, sourceExt) ||
                        (Exists(fs, OutputPath(source, sourceExt, outExt)) && MTime(fs, source).None?)
    ensures !EndsWith(source, sourceExt) ==> r == Err(ExtensionError(source, sourceExt))
  {
    if !EndsWith(source, sourceExt) then Err(ExtensionError(source, sourceExt))
    else
      var out := OutputPath(source, sourceExt, outExt);
      if !Exists(fs, out) then Ok(true)
      else if MTime(fs, source).None? then Err(NoSuchFile(source))
      else Ok(MTime(fs, source).value > MTime(fs, out).value)
  }

  /** A compile function: it runs on a tree and a source and gives the tree
      it leaves and whether it stopped the build. */
  type Compiler = (Tree, string) -> Effect

  /** compile_if_needed: runs the compiler exactly when needs_compile says
      so, and reports whether it did. */
  function CompileIfNeeded(fs: Tree, compile: Compiler, source: string, sourceExt: string, outExt: string): (r: (Effect, bool))
    ensures r.1 <==> NeedsCompile(fs, source, sourceExt, outExt) == Ok(true)
    ensures r.1 ==> r.0 == compile(fs, source)
    ensures NeedsCompile(fs, source, sourceExt, outExt) == Ok(false) ==> r.0 == Effect(fs, None)
    ensures NeedsCompile(fs, source, sourceExt, outExt).Err? ==> r.0.err == Some(NeedsCompile(fs, source, sourceExt, outExt).error)
  {
    match NeedsCompile(fs, source, sourceExt, outExt)
    case Err(e) => (Effect(fs, Some(e)), false)
    case Ok(true) => (compile(fs, source), true)
    case Ok(false) => (Effect(fs, None), false)
  }

  /** The output of a source with the extension is the stem with the output
      extension. */
  lemma OutputOfStem(stem: string, sourceExt: string, outExt: string)
    ensures EndsWith(stem + sourceExt, sourceExt)
    ensures OutputPath(stem + sourceExt, sourceExt, outExt) == stem + outExt
  {
    var s := stem + sourceExt;
    assert s[|s| - |sourceExt|..] == sourceExt;
    assert s[..|s| - |sourceExt|] == stem;
  }

  /** A missing output is always built; a present one only when the source
      is strictly newer, so equal times mean no rebuild. */
  lemma RebuildRule(fs: Tree, source: string, sourceExt: string, outExt: string)
    requires EndsWith(source, sourceExt)
    ensures !Exists(fs, OutputPath(source, sourceExt, outExt)) ==> NeedsCompile(fs, source, sourceExt, outExt) == Ok(true)
    ensures Exists(fs, OutputPath(source, sourceExt, outExt)) && MTime(fs, source).Some? ==>
      (NeedsCompile(fs, source, sourceExt, outExt) == Ok(true) <==>
       MTime(fs, source).value > MTime(fs, OutputPath(source, sourceExt, outExt)).value)
  {
  }

  /** A compiler that writes the output no earlier than the source and
      leaves the source alone. */
  predicate WritesOutput(fs: Tree, compile: Compiler, source: string, out: string) {
    var after := compile(fs, source).tree;
    MTime(fs, source).Some? && MTime(after, source) == MTime(fs, source) &&
    out in after && after[out].File? && after[out].mtime >= MTime(fs, source).value
  }

  /** Building is idempotent: once compile_if_needed has run a compiler that
      writes a fresh output, a second call compiles nothing. */
  lemma SecondBuildIsNoOp(fs: Tree, compile: Compiler, source: string, sourceExt: string, outExt: string)
    requires EndsWith(source, sourceExt)
    requires NeedsCompile(fs, source, sourceExt, outExt) == Ok(true)
    requires WritesOutput(fs, compile, source, OutputPath(source, sourceExt, outExt))
    ensures var after := CompileIfNeeded(fs, compile, source, sourceExt, outExt).0.tree;
            CompileIfNeeded(after, compile, source, sourceExt, outExt) == (Effect(after, None), false)
  {
    var out := OutputPath(source, sourceExt, outExt);
    var after := compile(fs, source).tree;
    assert Follow(after, out) == Some(after[out]);
  }

  // ---------------------------------------------------------------------
  // recurse and findall

  /** One file reported by os.walk: the directory path and the file name. */
  type Walk = seq<(string, string)>

  /** The paths findall collects: every walked file whose name ends with the
      extension, joined to its directory, in walk order. */
  function Matching(walk: Walk, ext: string): seq<string> {
    if walk == [] then []
    else
      var last := walk[|walk| - 1];
      Matching(walk[..|walk| - 1], ext) +
        (if EndsWith(last.1, ext) then [JoinPath(last.0, last.1)] else [])
  }

  /** How many paths a test accepts. */
  function CountWhere(paths: seq<string>, f: string -> bool): nat {
    if paths == [] then 0
    else CountWhere(paths[..|paths| - 1], f) + (if f(paths[|paths| - 1]) then 1 else 0)
  }

  lemma MatchingStep(walk: Walk, k: nat, ext: string)
    requires k < |walk|
    ensures Matching(walk[..k + 1], ext) == Matching(walk[..k], ext) +
      (if EndsWith(walk[k].1, ext) then [JoinPath(walk[k].0, walk[k].1)] else [])
  {
    assert walk[..k + 1][..k] == walk[..k];
  }

  lemma CountStep(paths: seq<string>, p: string, f: string -> bool)
    ensures CountWhere(paths + [p], f) == CountWhere(paths, f) + (if f(p) then 1 else 0)
  {
    assert (paths + [p])[..|paths|] == paths;
  }

  /** findall. */
  method Findall(walk: Walk, ext: string) returns (found: seq<string>)
    ensures found == Matching(walk, ext)
  {
    found := [];
    var k := 0;
    while k < |walk|
      invariant 0 <= k <= |walk|
      invariant found == Matching(walk[..k], ext)
    {
      var (dirpath, file) := walk[k];
      MatchingStep(walk, k, ext);
      if EndsWith(file, ext) {
        found := found + [JoinPath(dirpath, file)];
      }
      k := k + 1;
    }
    assert walk[..k] == walk;
  }

  /** recurse: the number of matching files for which f answers true. */
  method Recurse(walk: Walk, ext: string, f: string -> bool) returns (count: nat)
    ensures count == CountWhere(Matching(walk, ext), f)
  {
    count := 0;
    var k := 0;
    while k < |walk|
      invariant 0 <= k <= |walk|
      invariant count == CountWhere(Matching(walk[..k], ext), f)
    {
      var (dirpath, file) := walk[k];
      MatchingStep(walk, k, ext);
      if EndsWith(file, ext) {
        var path := JoinPath(dirpath, file);
        CountStep(Matching(walk[..k], ext), path, f);
        if f(path) {
          count := count + 1;
        }
      } else {
        assert Matching(walk[..k], ext) + [] == Matching(walk[..k], ext);
      }
      k := k + 1;
    }
    assert walk[..k] == walk;
  }

  /** A joined path ends with the file name. */
  lemma JoinEndsWith(a: string, b: string)
    ensures EndsWith(JoinPath(a, b), b)
  {
    var j := JoinPath(a, b);
    assert j[|j| - |b|..] == b;
  }

  lemma EndsWithTrans(s: string, t: string, u: string)
    requires EndsWith(s, t) && EndsWith(t, u)
    ensures EndsWith(s, u)
  {
    assert s[|s| - |u|..] == s[|s| - |t|..][|t| - |u|..];
  }

  /** Every path findall reports ends with the extension. */
  lemma {:induction false} MatchingHaveExtension(walk: Walk, ext: string)
    ensures forall p :: p in Matching(walk, ext) ==> EndsWith(p, ext)
  {
    if walk != [] {
      var init := walk[..|walk| - 1];
      var last := walk[|walk| - 1];
      MatchingHaveExtension(init, ext);
      if EndsWith(last.1, ext) {
        JoinEndsWith(last.0, last.1);
        EndsWithTrans(JoinPath(last.0, last.1), last.1, ext);
      }
    }
  }

  /** The walked files whose name has the extension, by position. */
  function MatchIndices(walk: Walk, ext: string): set<nat> {
    set k: nat | k < |walk| && EndsWith(walk[k].1, ext)
  }

  /** findall lists one path per walked file whose name has the extension. */
  lemma {:induction false} MatchingCount(walk: Walk, ext: string)
    ensures |Matching(walk, ext)| == |MatchIndices(walk, ext)|
  {
    if walk != [] {
      var n := |walk|;
      var init := walk[..n - 1];
      MatchingCount(init, ext);
      var before := MatchIndices(init, ext);
      var all := MatchIndices(walk, ext);
      assert forall k :: 0 <= k < n - 1 ==> init[k] == walk[k];
      if EndsWith(walk[n - 1].1, ext) {
        assert all == before + {n - 1};
      } else {
        assert all == before;
      }
    }
  }

  /** recurse counts at most the files findall lists, and exactly those
      when f always answers true. */
  lemma {:induction false} CountBounded(paths: seq<string>, f: string -> bool)
    ensures CountWhere(paths, f) <= |paths|
    ensures (forall p :: p in paths ==> f(p)) ==> CountWhere(paths, f) == |paths|
  {
    if paths != [] {
      var init := paths[..|paths| - 1];
      CountBounded(init, f);
      assert forall p :: p in init ==> p in paths;
    }
  }

  // ---------------------------------------------------------------------
  // File-system primitives

  /** os.mkdir: refuses a path that is present (even as a dangling link) or
      whose parent is not a directory. */
  function Mkdir(fs: Tree, p: string, now: int): Effect {
    if p in fs then Effect(fs, Some(FileExists(p)))
    else if !ParentIsDir(fs, p) then Effect(fs, Some(NoSuchFile(p)))
    else Effect(fs[p := Dir(now)], None)
  }

  /** os.symlink(target, link): the same refusals as mkdir. */
  function Symlink(fs: Tree, target: string, link: string): Effect {
    if link in fs then Effect(fs, Some(FileExists(link)))
    else if !ParentIsDir(fs, link) then Effect(fs, Some(NoSuchFile(link)))
    else Effect(fs[link := Link(target)], None)
  }

  function NotADirectory(p: string): string { "Error: " + p + " is not a directory" }

  /** The directory-creating loop of link_file: each component appended to
      `current` is created when missing; one that exists and is not a
      directory stops the build. */
  function MakeDirs(fs: Tree, current: string, dirs: seq<string>, now: int): Effect
    decreases |dirs|
  {
    if dirs == [] then Effect(fs, None)
    else
      var c := current + "/" + dirs[0];
      if Exists(fs, c) && !IsDir(fs, c) then Effect(fs, Some(NotADirectory(c)))
      else
        var e := if Exists(fs, c) then Effect(fs, None) else Mkdir(fs, c, now);
        if e.err.Some? then e else MakeDirs(e.tree, c, dirs[1..], now)
  }

  /** Where link_file puts the link for a path. */
  function LinkPath(dest: string, path: string): string { dest + "/" + path }

  /** The directory components of a relative path: all but the last. */
  function DirsOf(path: string): seq<string> {
    var parts := SplitOn(path, '/');
    parts[..|parts| - 1]
  }

  /** link_file(root, path, dest): the directories of `path` are made under
      `dest`, a link already at dest/path is removed, and a link to the
      absolute form of root/path is made there. */
  function LinkFile(fs: Tree, root: string, path: string, dest: string, abspath: string -> string, now: int): Effect {
    var e := MakeDirs(fs, dest, DirsOf(path), now);
    if e.err.Some? then e
    else
      var link := LinkPath(dest, path);
      var fs1 := if IsLink(e.tree, link) then e.tree - {link} else e.tree;
      Symlink(fs1, abspath(root + "/" + path), link)
  }

  /** Making directories only adds entries: nothing present is changed. */
  lemma {:induction false} MakeDirsGrows(fs: Tree, current: string, dirs: seq<string>, now: int)
    ensures forall k :: k in fs ==> k in MakeDirs(fs, current, dirs, now).tree &&
                                    MakeDirs(fs, current, dirs, now).tree[k] == fs[k]
    decreases |dirs|
  {
    if dirs != [] {
      var c := current + "/" + dirs[0];
      if !(Exists(fs, c) && !IsDir(fs, c)) {
        var e := if Exists(fs, c) then Effect(fs, None) else Mkdir(fs, c, now);
        if e.err.None? {
          MakeDirsGrows(e.tree, c, dirs[1..], now);
        }
      }
    }
  }

  /** link_file touches no entry but the link it makes, even when it fails:
      every other entry present before is still there and unchanged. */
  lemma LinkFileFrame(fs: Tree, root: string, path: string, dest: string, abspath: string -> string, now: int)
    ensures var r := LinkFile(fs, root, path, dest, abspath, now).tree;
            forall k :: k in fs && k != LinkPath(dest, path) ==> k in r && r[k] == fs[k]
  {
    MakeDirsGrows(fs, dest, DirsOf(path), now);
  }

  /** On success the link names the absolute form of root/path. */
  lemma LinkFileLinks(fs: Tree, root: string, path: string, dest: string, abspath: string -> string, now: int)
    requires LinkFile(fs, root, path, dest, abspath, now).err.None?
    ensures var r := LinkFile(fs, root, path, dest, abspath, now).tree;
            LinkPath(dest, path) in r && r[LinkPath(dest, path)] == Link(abspath(root + "/" + path))
  {
  }

  /** When the directories are already in place, a link already at the
      destination is replaced by the new one. */
  lemma ExistingLinkReplaced(fs: Tree, root: string, path: string, dest: string, abspath: string -> string, now: int)
    requires MakeDirs(fs, dest, DirsOf(path), now) == Effect(fs, None)
    requires IsLink(fs, LinkPath(dest, path))
    requires var d := Parent(LinkPath(dest, path)); d == "" || (d in fs && fs[d].Dir?)
    ensures LinkFile(fs, root, path, dest, abspath, now) ==
            Effect(fs[LinkPath(dest, path) := Link(abspath(root + "/" + path))], None)
  {
    var link := LinkPath(dest, path);
    var fs1 := fs - {link};
    assert Parent(link) != "" ==> Follow(fs1, Parent(link)) == Follow(fs, Parent(link)) by {
      if Parent(link) != "" {
        ParentDiffers(link);
      }
    }
    assert fs1[link := Link(abspath(root + "/" + path))] == fs[link := Link(abspath(root + "/" + path))];
  }

  /** A path differs from its parent. */
  lemma ParentDiffers(p: string)
    requires p != ""
    ensures Parent(p) != p
  {
    var k := LastIndexOf(p, '/');
    if k > 0 {
      assert |p[..k]| < |p|;
    }
  }

  /** A real file or directory already at the destination is fatal: the
      symlink call raises FileExistsError. */
  lemma RealFileCollision(fs: Tree, root: string, path: string, dest: string, abspath: string -> string, now: int)
    requires MakeDirs(fs, dest, DirsOf(path), now) == Effect(fs, None)
    requires LinkPath(dest, path) in fs && !fs[LinkPath(dest, path)].Link?
    ensures LinkFile(fs, root, path, dest, abspath, now) == Effect(fs, Some(FileExists(LinkPath(dest, path))))
  {
  }

  /** A path component that exists and is not a directory stops link_file
      before anything is created. */
  lemma NonDirectoryComponent(fs: Tree, root: string, path: string, dest: string, abspath: string -> string, now: int)
    requires |DirsOf(path)| >= 1
    requires var c := dest + "/" + DirsOf(path)[0]; Exists(fs, c) && !IsDir(fs, c)
    ensures LinkFile(fs, root, path, dest, abspath, now) ==
            Effect(fs, Some(NotADirectory(dest + "/" + DirsOf(path)[0])))
  {
  }

  // ---------------------------------------------------------------------
  // Linking many files

  /** A link job: the root and the path relative to it. */
  type Job = (string, string)

  /** link_file for each job in turn, stopping at the first failure. */
  function LinkAll(fs: Tree, jobs: seq<Job>, dest: string, abspath: string -> string, now: int): Effect
    decreases |jobs|
  {
    if jobs == [] then Effect(fs, None)
    else
      var e := LinkFile(fs, jobs[0].0, jobs[0].1, dest, abspath, now);
      if e.err.Some? then e else LinkAll(e.tree, jobs[1..], dest, abspath, now)
  }

  /** Linking a concatenation is linking the first part and then, if that
      succeeded, the second. */
  lemma {:induction false} LinkAllAppend(fs: Tree, a: seq<Job>, b: seq<Job>, dest: string, abspath: string -> string, now: int)
    ensures var e := LinkAll(fs, a, dest, abspath, now);
            LinkAll(fs, a + b, dest, abspath, now) ==
            (if e.err.Some? then e else LinkAll(e.tree, b, dest, abspath, now))
    decreases |a|
  {
    if a == [] {
      assert a + b == b;
    } else {
      assert (a + b)[0] == a[0];
      assert (a + b)[1..] == a[1..] + b;
      var e := LinkFile(fs, a[0].0, a[0].1, dest, abspath, now);
      if e.err.None? {
        LinkAllAppend(e.tree, a[1..], b, dest, abspath, now);
      }
    }
  }

  /** Nothing is rolled back: every entry that no job links over is still
      there and unchanged, whether or not a later job failed. */
  lemma {:induction false} LinkAllFrame(fs: Tree, jobs: seq<Job>, dest: string, abspath: string -> string, now: int, k: string)
    requires k in fs
    requires forall j :: 0 <= j < |jobs| ==> k != LinkPath(dest, jobs[j].1)
    ensures var r := LinkAll(fs, jobs, dest, abspath, now).tree; k in r && r[k] == fs[k]
    decreases |jobs|
  {
    if jobs != [] {
      LinkFileFrame(fs, jobs[0].0, jobs[0].1, dest, abspath, now);
      var e := LinkFile(fs, jobs[0].0, jobs[0].1, dest, abspath, now);
      if e.err.None? {
        forall j | 0 <= j < |jobs| - 1 ensures k != LinkPath(dest, jobs[1..][j].1) {
          assert jobs[1..][j] == jobs[j + 1];
        }
        LinkAllFrame(e.tree, jobs[1..], dest, abspath, now, k);
      }
    }
  }

  /** Distinct relative paths give distinct links. */
  lemma LinkPathInjective(dest: string, p: string, q: string)
    requires LinkPath(dest, p) == LinkPath(dest, q)
    ensures p == q
  {
    var n := |dest| + 1;
    assert p == LinkPath(dest, p)[n..];
    assert q == LinkPath(dest, q)[n..];
  }

  /** The last root wins: when every job succeeds, the link for a path is
      the one made by the last job with that path. */
  lemma {:induction false} LastJobWins(fs: Tree, jobs: seq<Job>, dest: string, abspath: string -> string, now: int, i: nat)
    requires LinkAll(fs, jobs, dest, abspath, now).err.None?
    requires i < |jobs|
    requires forall j :: i < j < |jobs| ==> jobs[j].1 != jobs[i].1
    ensures var r := LinkAll(fs, jobs, dest, abspath, now).tree;
            var link := LinkPath(dest, jobs[i].1);
            link in r && r[link] == Link(abspath(jobs[i].0 + "/" + jobs[i].1))
    decreases |jobs|
  {
    var e := LinkFile(fs, jobs[0].0, jobs[0].1, dest, abspath, now);
    var link := LinkPath(dest, jobs[i].1);
    if i == 0 {
      LinkFileLinks(fs, jobs[0].0, jobs[0].1, dest, abspath, now);
      forall j | 0 <= j < |jobs| - 1 ensures link != LinkPath(dest, jobs[1..][j].1) {
        assert jobs[1..][j] == jobs[j + 1];
        if link == LinkPath(dest, jobs[j + 1].1) {
          LinkPathInjective(dest, jobs[i].1, jobs[j + 1].1);
        }
      }
      LinkAllFrame(e.tree, jobs[1..], dest, abspath, now, link);
    } else {
      assert jobs[1..][i - 1] == jobs[i];
      forall j | i - 1 < j < |jobs| - 1 ensures jobs[1..][j].1 != jobs[1..][i - 1].1 {
        assert jobs[1..][j] == jobs[j + 1];
      }
      LastJobWins(e.tree, jobs[1..], dest, abspath, now, i - 1);
    }
  }

  // ---------------------------------------------------------------------
  // prep_jar_directory

  /** The extraction of a jar (`jar xf`) into a directory, given the tree,
      the jar and the directory. */
  type Unpacker = (Tree, string, string) -> Effect

  /** os.walk of a root on a tree: every file as (directory path, name). */
  type Walker = (Tree, string) -> Walk

  /** The directory a jar is unpacked into. */
  function Target(jar: string): string { jar + ".d" }

  /** Every jar's directory, in order. */
  function Targets(jars: seq<string>): (r: seq<string>)
    ensures |r| == |jars| && forall k :: 0 <= k < |jars| ==> r[k] == Target(jars[k])
  {
    if jars == [] then [] else Targets(jars[..|jars| - 1]) + [Target(jars[|jars| - 1])]
  }

  /** The first loop of prep_jar_directory: each jar whose directory is not
      there yet gets one, and is unpacked into it. */
  function UnpackJars(fs: Tree, jars: seq<string>, unpack: Unpacker, now: int): Effect
    decreases |jars|
  {
    if jars == [] then Effect(fs, None)
    else
      var e := UnpackJar(fs, jars[0], unpack, now);
      if e.err.Some? then e else UnpackJars(e.tree, jars[1..], unpack, now)
  }

  function UnpackJar(fs: Tree, jar: string, unpack: Unpacker, now: int): Effect {
    var target := Target(jar);
    if IsDir(fs, target) then Effect(fs, None)
    else
      var m := Mkdir(fs, target, now);
      if m.err.Some? then m else unpack(m.tree, jar, target)
  }

  /** A root with its trailing slashes replaced by exactly one. */
  function RootDir(root: string): string { RStrip(root, '/') + "/" }

  /** The class files a walk of a root finds, as link jobs: the path of each
      relative to the root. */
  function Jobs(root: string, walk: Walk): seq<Job> {
    if walk == [] then []
    else
      (if EndsWith(walk[0].1, ".class") then [(root, JoinPath(Drop(walk[0].0, |root|), walk[0].1))] else []) +
      Jobs(root, walk[1..])
  }

  /** The second loop: each root, walked on the tree as it stands when its
      turn comes, has all its class files linked into `dest`. */
  function MergeRoots(fs: Tree, roots: seq<string>, dest: string, walk: Walker, abspath: string -> string, now: int): Effect
    decreases |roots|
  {
    if roots == [] then Effect(fs, None)
    else
      var i := RootDir(roots[0]);
      var e := LinkAll(fs, Jobs(i, walk(fs, i)), dest, abspath, now);
      if e.err.Some? then e else MergeRoots(e.tree, roots[1..], dest, walk, abspath, now)
  }

  /** prep_jar_directory: unpack the jars, then merge the roots followed by
      every jar's directory, unpacked now or earlier. */
  function PrepJarDirectory(fs: Tree, dest: string, roots: seq<string>, jars: seq<string>,
                            walk: Walker, unpack: Unpacker, abspath: string -> string, now: int): Effect
  {
    var e := UnpackJars(fs, jars, unpack, now);
    if e.err.Some? then e
    else MergeRoots(e.tree, roots + Targets(jars), dest, walk, abspath, now)
  }

  /** Unpacking is skipped for jars already unpacked: when every jar has its
      directory, the tree is left alone whatever the unpacker would do. */
  lemma {:induction false} UnpackedJarsSkipped(fs: Tree, jars: seq<string>, unpack: Unpacker, now: int)
    requires forall k :: 0 <= k < |jars| ==> IsDir(fs, Target(jars[k]))
    ensures UnpackJars(fs, jars, unpack, now) == Effect(fs, None)
    decreases |jars|
  {
    if jars != [] {
      forall k | 0 <= k < |jars| - 1 ensures IsDir(fs, Target(jars[1..][k])) {
        assert jars[1..][k] == jars[k + 1];
      }
      UnpackedJarsSkipped(fs, jars[1..], unpack, now);
    }
  }

  /** A jar without its directory gets a fresh, empty one and is unpacked
      into it. */
  lemma FreshJarUnpacked(fs: Tree, jar: string, unpack: Unpacker, now: int)
    requires Target(jar) !in fs && ParentIsDir(fs, Target(jar))
    ensures UnpackJar(fs, jar, unpack, now) == unpack(fs[Target(jar) := Dir(now)], jar, Target(jar))
  {
  }

  /** A root's trailing slashes collapse to one. */
  lemma RootDirSlash(root: string)
    ensures EndsWith(RootDir(root), "/")
    ensures RootDir(root + "/") == RootDir(root)
  {
    var r := RootDir(root);
    assert r[|r| - 1..] == "/";
    assert (root + "/")[..|root|] == root;
  }

  /** Every job a walk gives is a class file. */
  lemma {:induction false} JobsAreClasses(root: string, walk: Walk)
    ensures forall j :: 0 <= j < |Jobs(root, walk)| ==>
      Jobs(root, walk)[j].0 == root && EndsWith(Jobs(root, walk)[j].1, ".class")
  {
    if walk != [] {
      var rest := Jobs(root, walk[1..]);
      JobsAreClasses(root, walk[1..]);
      if EndsWith(walk[0].1, ".class") {
        var path := JoinPath(Drop(walk[0].0, |root|), walk[0].1);
        JoinEndsWith(Drop(walk[0].0, |root|), walk[0].1);
        EndsWithTrans(path, walk[0].1, ".class");
        var all := [(root, path)] + rest;
        assert Jobs(root, walk) == all;
        forall j | 0 <= j < |all| ensures all[j].0 == root && EndsWith(all[j].1, ".class") {
          if j > 0 {
            assert all[j] == rest[j - 1];
          }
        }
      } else {
        assert Jobs(root, walk) == [] + rest;
        assert [] + rest == rest;
      }
    }
  }

  // ---------------------------------------------------------------------
  // The same operations on a disk that changes in place

  predicate Reports(e: Effect, fs: Tree, err: Option<string>) {
    fs == e.tree && err == e.err
  }

  class Disk {
    var tree: Tree

    constructor (initial: Tree)
      ensures tree == initial
    {
      tree := initial;
    }

    method MakeDirectory(p: string, now: int) returns (err: Option<string>)
      modifies this
      ensures Reports(Mkdir(old(tree), p, now), tree, err)
    {
      if p in tree {
        err := Some(FileExists(p));
      } else if !ParentIsDir(tree, p) {
        err := Some(NoSuchFile(p));
      } else {
        tree := tree[p := Dir(now)];
        err := None;
      }
    }

    method RemoveLink(p: string)
      requires p in tree
      modifies this
      ensures tree == old(tree) - {p}
    {
      tree := tree - {p};
    }

    method MakeSymlink(target: string, link: string) returns (err: Option<string>)
      modifies this
      ensures Reports(Symlink(old(tree), target, link), tree, err)
    {
      if link in tree {
        err := Some(FileExists(link));
      } else if !ParentIsDir(tree, link) {
        err := Some(NoSuchFile(link));
      } else {
        tree := tree[link := Link(target)];
        err := None;
      }
    }

    /** link_file. */
    method LinkInto(root: string, path: string, dest: string, abspath: string -> string, now: int)
      returns (err: Option<string>)
      modifies this
      ensures Reports(LinkFile(old(tree), root, path, dest, abspath, now), tree, err)
    {
      var dirs := DirsOf(path);
      var current := dest;
      var k := 0;
      while k < |dirs|
        invariant 0 <= k <= |dirs|
        invariant MakeDirs(tree, current, dirs[k..], now) == MakeDirs(old(tree), dest, dirs, now)
      {
        assert dirs[k..][1..] == dirs[k + 1..];
        current := current + "/" + dirs[k];
        if Exists(tree, current) && !IsDir(tree, current) {
          return Some(NotADirectory(current));
        }
        if !Exists(tree, current) {
          err := MakeDirectory(current, now);
          if err.Some? {
            return;
          }
        }
        k := k + 1;
      }
      var link := LinkPath(dest, path);
      var target := abspath(root + "/" + path);
      if IsLink(tree, link) {
        RemoveLink(link);
      }
      err := MakeSymlink(target, link);
    }

    /** Linking a list of jobs, stopping at the first failure. */
    method LinkEach(jobs: seq<Job>, dest: string, abspath: string -> string, now: int) returns (err: Option<string>)
      modifies this
      ensures Reports(LinkAll(old(tree), jobs, dest, abspath, now), tree, err)
    {
      var k := 0;
      while k < |jobs|
        invariant 0 <= k <= |jobs|
        invariant LinkAll(tree, jobs[k..], dest, abspath, now) == LinkAll(old(tree), jobs, dest, abspath, now)
      {
        assert jobs[k..][1..] == jobs[k + 1..];
        err := LinkInto(jobs[k].0, jobs[k].1, dest, abspath, now);
        if err.Some? {
          return;
        }
        k := k + 1;
      }
      err := None;
    }

    /** The class files of one walk, linked as they are found. */
    method LinkClasses(root: string, found: Walk, dest: string, abspath: string -> string, now: int)
      returns (err: Option<string>)
      modifies this
      ensures Reports(LinkAll(old(tree), Jobs(root, found), dest, abspath, now), tree, err)
    {
      var k := 0;
      while k < |found|
        invariant 0 <= k <= |found|
        invariant LinkAll(tree, Jobs(root, found[k..]), dest, abspath, now) ==
                  LinkAll(old(tree), Jobs(root, found), dest, abspath, now)
      {
        var (dirpath, file) := found[k];
        assert found[k..][1..] == found[k + 1..];
        assert found[k..][0] == found[k];
        ghost var rest := Jobs(root, found[k + 1..]);
        ghost var jobs := Jobs(root, found[k..]);
        if EndsWith(file, ".class") {
          var path := JoinPath(Drop(dirpath, |root|), file);
          assert jobs == [(root, path)] + rest;
          assert jobs[0] == (root, path) && jobs[1..] == rest;
          err := LinkInto(root, path, dest, abspath, now);
          if err.Some? {
            return;
          }
        } else {
          assert jobs == [] + rest;
          assert [] + rest == rest;
        }
        k := k + 1;
      }
      err := None;
    }

    /** prep_jar_directory. */
    method Prepare(dest: string, roots: seq<string>, jars: seq<string>,
                            walk: Walker, unpack: Unpacker, abspath: string -> string, now: int)
      returns (err: Option<string>)
      modifies this
      ensures Reports(PrepJarDirectory(old(tree), dest, roots, jars, walk, unpack, abspath, now), tree, err)
    {
      var all := roots;
      var k := 0;
      while k < |jars|
        invariant 0 <= k <= |jars|
        invariant all == roots + Targets(jars[..k])
        invariant UnpackJars(tree, jars[k..], unpack, now) == UnpackJars(old(tree), jars, unpack, now)
      {
        assert jars[k..][1..] == jars[k + 1..];
        assert jars[..k + 1][..k] == jars[..k];
        var target := Target(jars[k]);
        if !IsDir(tree, target) {
          err := MakeDirectory(target, now);
          if err.Some? {
            return;
          }
          var e := unpack(tree, jars[k], target);
          tree := e.tree;
          if e.err.Some? {
            return e.err;
          }
        }
        all := all + [target];
        k := k + 1;
      }
      assert jars[..k] == jars;
      var unpacked := tree;
      k := 0;
      while k < |all|
        invariant 0 <= k <= |all|
        invariant MergeRoots(tree, all[k..], dest, walk, abspath, now) == MergeRoots(unpacked, all, dest, walk, abspath, now)
      {
        assert all[k..][1..] == all[k + 1..];
        var i := RootDir(all[k]);
        err := LinkClasses(i, walk(tree, i), dest, abspath, now);
        if err.Some? {
          return;
        }
        k := k + 1;
      }
      err := None;
    }
  }
}
