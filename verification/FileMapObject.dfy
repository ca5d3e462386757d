/** The CFileMap object: its methods change the merged tree and keep it in step with the
    log of what was mapped, written and erased. */
module FileMapObject {
  import opened FileNames
  import opened FileTree
  import opened FileMap
  import SortNumber
  import opened Options

  // ----- Every source of a file has its folder -----

  ghost predicate FoldersOf(log: seq<Event>, q: seq<string>) {
    q != [] ==> Times(log, q).Keys <= Dirs(log, q[..|q| - 1]).Keys
  }

  ghost predicate FilesHaveFolders(log: seq<Event>) {
    forall q :: FoldersOf(log, q)
  }

  ghost predicate RegisteredAt(log: seq<Event>, known: set<Sort32>, q: seq<string>) {
    Dirs(log, q).Keys <= known
  }

  ghost predicate Registered(log: seq<Event>, known: set<Sort32>) {
    forall q :: RegisteredAt(log, known, q)
  }

  lemma {:induction false} ListedFolder(d: Dir, q: seq<string>)
    requires TimeAt(d, q).Some?
    ensures q != [] && PathAt(d, q[..|q| - 1]).Some?
    decreases |q|
  {
    if |q| > 1 {
      ListedFolder(DirIn(d.items, q[0]).value, q[1..]);
      assert q[..|q| - 1][1..] == q[1..][..|q[1..]| - 1];
    }
  }

  lemma UnderInit(at: seq<string>, q: seq<string>)
    requires Under(at, q) && |at| < |q|
    ensures Under(at, q[..|q| - 1]) && q[|at|..][..|q[|at|..]| - 1] == q[..|q| - 1][|at|..]
  {
    assert q[..|q| - 1][..|at|] == q[..|at|];
  }

  ghost predicate EventOk(log: seq<Event>, known: set<Sort32>, e: Event) {
    && (e.Mapped? || e.DirAdded? ==> e.src in known)
    && (e.Written? && !e.pure ==> e.at != [] && forall q :: SamePath(e.at, q) ==> e.src in Dirs(log, q[..|q| - 1]))
  }

  lemma EventKeeps(log: seq<Event>, known: set<Sort32>, e: Event)
    requires FilesHaveFolders(log) && Registered(log, known) && EventOk(log, known, e)
    ensures FilesHaveFolders(log + [e]) && Registered(log + [e], known)
  {
    forall q ensures FoldersOf(log + [e], q) {
      EventKeepsFolders(log, known, e, q);
    }
    forall q ensures RegisteredAt(log + [e], known, q) {
      assert RegisteredAt(log, known, q);
      LogSnoc(log, e, q);
    }
  }

  lemma EventKeepsFolders(log: seq<Event>, known: set<Sort32>, e: Event, q: seq<string>)
    requires FilesHaveFolders(log) && EventOk(log, known, e)
    ensures FoldersOf(log + [e], q)
  {
    if q != [] {
      var i := q[..|q| - 1];
      assert FoldersOf(log, q);
      LogSnoc(log, e, q);
      LogSnoc(log, e, i);
      if e.Mapped? && Under(e.at, q) && |e.at| < |q| {
        UnderInit(e.at, q);
        if TimeAt(e.dir, q[|e.at|..]).Some? { ListedFolder(e.dir, q[|e.at|..]); }
      }
    }
  }

  lemma ErasedUnregistered(log: seq<Event>, known: set<Sort32>, s: Sort32)
    requires Registered(log, known)
    ensures Registered(log + [Erase(s)], known - {s})
  {
    forall q ensures RegisteredAt(log + [Erase(s)], known - {s}, q) {
      assert RegisteredAt(log, known, q);
      LogSnoc(log, Erase(s), q);
    }
  }

  // ----- Paths -----

  /** A path split at its backslashes; only the last part may be empty. */
  predicate PathOk(p: seq<string>) {
    p != [] && forall i :: 0 < i < |p| - 1 ==> p[i] != ""
  }

  function Join(p: seq<string>): string {
    if p == [] then "" else if |p| == 1 then p[0] else Join(p[..|p| - 1]) + "\\" + p[|p| - 1]
  }

  /** The path looked up for `p`: its ToC may be rewritten to another, once. */
  function Rewritten(r: map<string, string>, p: seq<string>): (q: seq<string>)
    requires p != []
    ensures |q| == |p|
  {
    if Fold(p[0]) in r then p[0 := r[Fold(p[0])]] else p
  }

  lemma RewrittenOk(r: map<string, string>, p: seq<string>)
    requires PathOk(p)
    ensures PathOk(Rewritten(r, p)) && (|p| > 1 ==> Rewritten(r, p)[|p| - 1] == p[|p| - 1])
  {
  }

  lemma RewrittenTail(r: map<string, string>, p: seq<string>)
    requires p != []
    ensures Rewritten(r, p)[1..] == p[1..]
  {
  }

  /** ToCs are never removed, so what one is rewritten to is always there. */
  ghost predicate KnownTocs(f: Folder, r: map<string, string>) {
    forall c :: c in r ==> Find(f.subs, r[c]).Some?
  }

  lemma TocsStay(f: Folder, p: seq<string>, g: Folder, r: map<string, string>)
    requires KnownTocs(f, r) && Distinct(f.subs) && p != [] && FolderAt(f, p).Some?
    ensures KnownTocs(Update(f, p, g), r)
  {
    var i := IndexOf(f.subs, p[0]);
    forall c | c in r ensures Find(Update(f, p, g).subs, r[c]).Some? {
      FindSet(f.subs, i, Update(f.subs[i].item, p[1..], g), r[c]);
    }
  }

  lemma TocsKept(f: Folder, g: Folder, s: Sort32, r: map<string, string>)
    requires KnownTocs(f, r) && ErasedLevel(f, g, s, |f.subs|, 0)
    ensures KnownTocs(g, r)
  {
    forall c | c in r ensures Find(g.subs, r[c]).Some? { SameNames(f.subs, g.subs, r[c]); }
  }

  predicate EndsIn(dir: string, cs: set<char>) { dir != "" && dir[|dir| - 1] in cs }

  /** `_OpenFile`: the name of a file in the store of its source. */
  function StorePath(dir: string, name: string): (path: string)
    ensures InDir(path, dir, name, dir == "" || EndsIn(dir, {'\\'}))
  {
    if dir != "" && dir[|dir| - 1] != '\\' then dir + "\\" + name else dir + name
  }

  /** The name `VOpenOutputStream` opens a file under. */
  function WritePath(dir: string, name: string): (path: string)
    ensures InDir(path, dir, name, EndsIn(dir, {'\\', '/'}))
  {
    if EndsIn(dir, {'\\', '/'}) then dir + name else dir + "\\" + name
  }

  /** `path` is the name of the folder and the name of the file, run together or with one
      backslash between them. */
  predicate InDir(path: string, dir: string, name: string, together: bool) {
    var n := if together then |dir| else |dir| + 1;
    |path| == n + |name| && path[..|dir|] == dir && path[n..] == name && (!together ==> path[|dir|] == '\\')
  }

  /** Reading and writing open the same name in the store, if and only if the name of the
      folder is neither empty nor ends in a forward slash. */
  lemma ReadsWhereWritten(dir: string, name: string)
    ensures StorePath(dir, name) == WritePath(dir, name) <==> dir != "" && dir[|dir| - 1] != '/'
  {
    assert dir == "" || dir[|dir| - 1] == '/' ==> |StorePath(dir, name)| != |WritePath(dir, name)|;
  }

  /** The name a new folder gets under the name of its parent. */
  function SubDirName(dir: string, name: string): (path: string)
    ensures SubFolder(path, dir, name)
  {
    if EndsIn(dir, {'\\', '/'}) then dir + name + [dir[|dir| - 1]] else dir + "\\" + name
  }

  /** `path` is the name of the parent, a separator that stands there or else a backslash,
      the name of the folder, and, when one stood there, the same separator again. */
  predicate SubFolder(path: string, dir: string, name: string) {
    var shut := EndsIn(dir, {'\\', '/'});
    var n := if shut then |dir| else |dir| + 1;
    && |path| == n + |name| + (if shut then 1 else 0)
    && path[..|dir|] == dir && path[n..n + |name|] == name
    && (if shut then path[|path| - 1] == dir[|dir| - 1] else path[|dir|] == '\\')
  }

  lemma JoinSnoc(q: seq<string>, c: string)
    ensures Join(q + [c]) == if q == [] then c else Join(q) + "\\" + c
  {
    assert (q + [c])[..|q|] == q;
  }

  lemma FullLengthSnoc(f: Folder, q: seq<string>, c: string)
    requires WfTop(f) && q != [] && FolderAt(f, q + [c]).Some?
    requires FolderAt(f, q).Some? && |FolderAt(f, q).value.full| == |Join(q)|
    ensures |FolderAt(f, q + [c]).value.full| == |Join(q + [c])|
  {
    JoinSnoc(q, c);
    FolderAtSnoc(f, q, c);
    FolderAtWf(f, q);
    var g := FolderAt(f, q).value;
    var i := IndexOf(g.subs, c);
    assert SameName(g.subs[i].name, c) && |Fold(c)| == |c|;
    assert Wf(g.subs[i].item);
  }

  /** The full name of a folder is as long as the path that leads to it. */
  lemma {:induction false} FullLength(f: Folder, p: seq<string>)
    requires WfTop(f) && p != [] && FolderAt(f, p).Some?
    ensures |FolderAt(f, p).value.full| == |Join(p)|
    decreases |p|
  {
    if |p| == 1 {
      var i := IndexOf(f.subs, p[0]);
      assert SameName(f.subs[i].name, p[0]) && |Fold(p[0])| == |p[0]|;
      assert Wf(f.subs[i].item);
    } else {
      var (q, c) := (p[..|p| - 1], p[|p| - 1]);
      assert p == q + [c];
      FolderAtInit(f, q, c);
      FullLength(f, q);
      FullLengthSnoc(f, q, c);
    }
  }

  lemma {:induction false} FolderAtInit(f: Folder, q: seq<string>, c: string)
    requires FolderAt(f, q + [c]).Some?
    ensures FolderAt(f, q).Some?
    decreases |q|
  {
    if q != [] {
      assert (q + [c])[1..] == q[1..] + [c];
      FolderAtInit(Find(f.subs, q[0]).value, q[1..], c);
    }
  }

  lemma {:induction false} JoinLength(p: seq<string>, q: seq<string>)
    requires p != [] && |q| == |p| && q[1..] == p[1..]
    ensures |Join(q)| - |q[0]| == |Join(p)| - |p[0]|
    decreases |p|
  {
    if |p| > 1 {
      var n := |p| - 1;
      assert q[..n][1..] == q[1..][..n - 1] && p[..n][1..] == p[1..][..n - 1];
      JoinLength(p[..n], q[..n]);
      assert q[n] == q[1..][n - 1] && p[n] == p[1..][n - 1];
    }
  }

  lemma FoundBehind<T>(s: seq<Named<T>>, x: Named<T>, c: string)
    requires Find(s, c) == None
    ensures Find(s + [x], c) == if SameName(x.name, c) then Some(x.item) else None
  {
    var i := IndexOf(s + [x], c);
    assert forall j :: 0 <= j < |s| ==> (s + [x])[j] == s[j];
    assert (s + [x])[|s|] == x;
  }

  /** `VOpenOutputStream` cuts the name of a new file from the path `p` it was given, by
      the length of the full name of the folder that `q`, the path after rewriting, leads
      to.  The name is the last part of the path, and the file is found again, if and only
      if the ToC was rewritten to one of the same length, or not at all. */
  lemma NewFileNameExactly(f: Folder, p: seq<string>, q: seq<string>, m: map<Sort32, Time>)
    requires WfTop(f) && |p| > 1 && |q| == |p| && q[1..] == p[1..] && FolderAt(f, q[..|q| - 1]).Some?
    ensures var (g, c) := (FolderAt(f, q[..|q| - 1]).value, p[|p| - 1]);
      && (|g.full| + 1 <= |Join(p)| <==> |q[0]| <= |p[0]| + |c|)
      && (|g.full| + 1 <= |Join(p)| ==>
        var name := Join(p)[|g.full| + 1..];
        && (name == c <==> |q[0]| == |p[0]|)
        && (Find(g.files, c) == None ==> (Find(g.files + [Named(name, m)], c).Some? <==> |q[0]| == |p[0]|)))
  {
    var (g, c) := (FolderAt(f, q[..|q| - 1]).value, p[|p| - 1]);
    assert q[|q| - 1] == q[1..][|q| - 2] && c == p[1..][|p| - 2];
    FullLength(f, q[..|q| - 1]);
    JoinLength(p, q);
    assert Join(p) == Join(p[..|p| - 1]) + "\\" + c;
    assert |g.full| + 1 == |Join(p)| - |c| + |q[0]| - |p[0]|;
    if |g.full| + 1 <= |Join(p)| && Find(g.files, c) == None {
      var name := Join(p)[|g.full| + 1..];
      FoundBehind(g.files, Named(name, m), c);
      assert |Fold(name)| == |name| && |Fold(c)| == |c|;
    }
  }

  /** What the code then enters: a file of the wrong name beside those that are there.  The
      path still finds nothing, every other name finds what it did, and the list stays in
      strict order if and only if it had no file of the wrong name already. */
  lemma WrongNameEntered(f: Folder, p: seq<string>, q: seq<string>, m: map<Sort32, Time>)
    requires WfTop(f) && |p| > 1 && |q| == |p| && q[1..] == p[1..] && FolderAt(f, q[..|q| - 1]).Some?
    requires |q[0]| != |p[0]| && |FolderAt(f, q[..|q| - 1]).value.full| + 1 <= |Join(p)|
    requires Find(FolderAt(f, q[..|q| - 1]).value.files, p[|p| - 1]) == None
    ensures var files := FolderAt(f, q[..|q| - 1]).value.files;
      var name := Join(p)[|FolderAt(f, q[..|q| - 1]).value.full| + 1..];
      var now := Sort(files + [Named(name, m)]);
      && multiset(now) == multiset(files) + multiset{Named(name, m)}
      && Find(now, p[|p| - 1]) == None
      && (forall d :: !SameName(name, d) ==> (Find(now, d).Some? <==> Find(files, d).Some?))
      && (Strict(now) <==> Find(files, name) == None)
  {
    var files := FolderAt(f, q[..|q| - 1]).value.files;
    var name := Join(p)[|FolderAt(f, q[..|q| - 1]).value.full| + 1..];
    var all := files + [Named(name, m)];
    NewFileNameExactly(f, p, q, m);
    FindSorted(all, p[|p| - 1]);
    FolderAtWf(f, q[..|q| - 1]);
    StrictDistinct(files);
    SortStrict(all);
    DistinctBehind(files, Named(name, m));
    forall d | !SameName(name, d) ensures Find(Sort(all), d).Some? <==> Find(files, d).Some? {
      FindSorted(all, d);
      FoundAmong(files, Named(name, m), d);
    }
  }

  lemma FoundAmong<T>(s: seq<Named<T>>, x: Named<T>, d: string)
    requires !SameName(x.name, d)
    ensures Find(s + [x], d).Some? <==> Find(s, d).Some?
  {
    var (i, j) := (IndexOf(s, d), IndexOf(s + [x], d));
    if i < |s| { assert (s + [x])[i] == s[i]; }
    if j < |s| { assert (s + [x])[j] == s[j]; }
    assert (s + [x])[|s|] == x;
  }

  lemma DistinctBehind<T>(s: seq<Named<T>>, x: Named<T>)
    requires Distinct(s)
    ensures Distinct(s + [x]) <==> Find(s, x.name) == None
  {
    var (t, i) := (s + [x], IndexOf(s, x.name));
    if i < |s| {
      assert t[i] == s[i] && t[|s|] == x && SameName(t[i].name, t[|s|].name);
    } else {
      forall j, k | 0 <= j < k < |t| ensures !SameName(t[j].name, t[k].name) {
        assert t[j] == s[j] && (k < |s| ==> t[k] == s[k]);
      }
    }
  }

  /** The rewriting `CLuaFile` asks for is one that fails. */
  lemma AttribLosesALetter()
    ensures Rewritten(map["attrib" := "generic"], ["Attrib", "ai.rgd"]) == ["generic", "ai.rgd"]
    ensures Join(["Attrib", "ai.rgd"])[|"generic"| + 1..] == "i.rgd"
  {
    assert Fold("Attrib") == "attrib";
    assert ["Attrib", "ai.rgd"][..1] == ["Attrib"];
    assert Join(["Attrib", "ai.rgd"]) == "Attrib" + "\\" + "ai.rgd";
  }

  lemma NewToc(f: Folder, c: string)
    requires WfTop(f) && Find(f.subs, c) == None
    ensures var g := f.(subs := f.subs + [Named(c, NewFolder(c))]);
      && WfTop(g) && Equal(f, g) && Find(g.subs, c) == Some(NewFolder(c))
      && forall d :: Find(f.subs, d).Some? ==> Find(g.subs, d).Some?
  {
    var g := f.(subs := f.subs + [Named(c, NewFolder(c))]);
    FindSnoc(f.subs, Named(c, NewFolder(c)), c);
    forall d | Find(f.subs, d).Some? ensures Find(g.subs, d).Some? {
      FindSnoc(f.subs, Named(c, NewFolder(c)), d);
    }
    EmptyFolder(c, []);
    forall q ensures SameAt(f, g, q) {
      if q != [] { FindSnoc(f.subs, Named(c, NewFolder(c)), q[0]); }
      NewChildQuiet(f, g, c, c, q);
    }
  }

  /** What a call opens: the source, its name for the folder, the name of the file, and the
      path its store is asked for. */
  datatype Opened = Opened(src: Sort32, dir: string, name: string, path: string)

  lemma RegisteredMore(log: seq<Event>, a: set<Sort32>, b: set<Sort32>)
    requires Registered(log, a) && a <= b
    ensures Registered(log, b)
  {
    forall q ensures RegisteredAt(log, b, q) { assert RegisteredAt(log, a, q); }
  }

  /** Where `_FindFile` ends: no such ToC, or a folder and perhaps a file in it. */
  datatype Found = NoToc | At(folder: seq<string>, file: Option<nat>)

  /** `_OpenFile`: of the sources of a file the one of least sort number is opened. */
  method OpenFile(folder: Folder, file: Option<nat>) returns (r: Option<Opened>)
    requires file.Some? ==> file.value < |folder.files| && folder.files[file.value].item.Keys <= folder.dirs.Keys
    ensures r.Some? <==> file.Some? && folder.files[file.value].item != map[]
    ensures r.Some? ==>
      && IsLeast(folder.files[file.value].item, r.value.src)
      && var (dir, name) := (folder.dirs[r.value.src], folder.files[file.value].name);
      && r.value == Opened(r.value.src, dir, name, r.value.path)
      && InDir(r.value.path, dir, name, dir == "" || EndsIn(dir, {'\\'}))
  {
    if file == None { return None; }
    var m := folder.files[file.value].item;
    if m == map[] { return None; }
    LeastExists(m);
    var src :| src in m && forall k :: k in m ==> src <= k;
    var (dir, name) := (folder.dirs[src], folder.files[file.value].name);
    r := Some(Opened(src, dir, name, StorePath(dir, name)));
  }

  /** A read of `q` opens the least of the sources that have the file now, under that
      source's own name for the folder, and fails exactly when no source has it. */
  ghost predicate ReadDone(log: seq<Event>, q: seq<string>, r: Option<Opened>) {
    && (r.Some? <==> |q| > 1 && q[|q| - 1] != "" && Times(log, q) != map[])
    && (r.Some? ==>
          && IsLeast(Times(log, q), r.value.src)
          && r.value.src in Dirs(log, q[..|q| - 1])
          && r.value.dir == Dirs(log, q[..|q| - 1])[r.value.src] && SameName(r.value.name, q[|q| - 1])
          && InDir(r.value.path, r.value.dir, r.value.name, r.value.dir == "" || EndsIn(r.value.dir, {'\\'})))
  }

  /** The write time recorded; only a source that is written to alone does without one. */
  function TimeOf(time: Option<Time>): Time {
    if time.Some? then time.value else 0
  }

  /** An event gives source `s` the folder `at`: it was made in the folder above, under the
      name the source has for that folder then, and is entered under that name with its own. */
  ghost predicate FolderMade(log: seq<Event>, e: Event, s: Sort32, at: seq<string>,
      createOk: (string, string) -> bool) {
    && e.DirAdded? && e.src == s && e.at == at && |at| > 1
    && s in Dirs(log, at[..|at| - 1])
    && var dir := Dirs(log, at[..|at| - 1])[s];
       exists name :: SameName(name, at[|at| - 1]) && createOk(dir, name) && SubFolder(e.path, dir, name)
  }

  /** The folders made for source `s` on the way to `p`: the last parts of it, one below the
      other. */
  ghost predicate FoldersMade(log: seq<Event>, added: seq<Event>, s: Sort32, p: seq<string>,
      createOk: (string, string) -> bool)
    decreases |added|
  {
    added != [] ==>
      var rest := added[..|added| - 1];
      && FolderMade(log + rest, added[|added| - 1], s, p, createOk)
      && FoldersMade(log, rest, s, p[..|p| - 1], createOk)
  }

  /** When no source was found, or a folder could not be made, the folders above were. */
  ghost predicate StoppedShort(log: seq<Event>, added: seq<Event>, p: seq<string>,
      createOk: (string, string) -> bool) {
    added == [] || exists s: Sort32, n: nat :: n < |p| && FoldersMade(log, added, s, p[..n], createOk)
  }

  /** The folders a failed call leaves behind: some of the way, or all of it. */
  ghost predicate WasStopped(log: seq<Event>, added: seq<Event>, p: seq<string>,
      createOk: (string, string) -> bool) {
    StoppedShort(log, added, p, createOk) || exists s: Sort32 :: FoldersMade(log, added, s, p, createOk)
  }

  /** The folders made on the way to file `q`: for the nearest source when the call succeeds. */
  ghost predicate WayMade(log: seq<Event>, sources: map<Sort32, Source>, added: seq<Event>, r: Option<Opened>,
      q: seq<string>, createOk: (string, string) -> bool)
    requires |q| > 1
  {
    var at := q[..|q| - 1];
    if r.Some? then
      && FoldersMade(log, added, r.value.src, at, createOk)
      && Nearest(log, sources, at, Times(log, q), true, |added|, r.value.src)
    else WasStopped(log, added, at, createOk)
  }

  lemma WayIs(log: seq<Event>, sources: map<Sort32, Source>, added: seq<Event>, d: Option<Sort32>, q: seq<string>,
      createOk: (string, string) -> bool)
    requires |q| > 1
    requires if d.Some? then FoldersMade(log, added, d.value, q[..|q| - 1], createOk)
      else StoppedShort(log, added, q[..|q| - 1], createOk)
    requires d.Some? ==> Nearest(log, sources, q[..|q| - 1], Times(log, q), true, |added|, d.value)
    ensures WayMade(log, sources, added, None, q, createOk)
    ensures d.Some? ==> forall o: Opened :: o.src == d.value ==> WayMade(log, sources, added, Some(o), q, createOk)
  {
  }

  lemma StoppedAbove(log: seq<Event>, added: seq<Event>, p: seq<string>, createOk: (string, string) -> bool)
    requires p != [] && StoppedShort(log, added, p[..|p| - 1], createOk)
    ensures StoppedShort(log, added, p, createOk)
  {
    var q := p[..|p| - 1];
    if added != [] {
      var s: Sort32, n: nat :| n < |q| && FoldersMade(log, added, s, q[..n], createOk);
      assert q[..n] == p[..n];
    }
  }

  lemma OneMore(log: seq<Event>, added: seq<Event>, s: Sort32, p: seq<string>, name: string,
      createOk: (string, string) -> bool)
    requires |p| > 1 && FoldersMade(log, added, s, p[..|p| - 1], createOk) && SameName(name, p[|p| - 1])
    requires s in Dirs(log + added, p[..|p| - 1]) && createOk(Dirs(log + added, p[..|p| - 1])[s], name)
    ensures var e := DirAdded(s, p, SubDirName(Dirs(log + added, p[..|p| - 1])[s], name));
      FoldersMade(log, added + [e], s, p, createOk)
  {
    var all := added + [DirAdded(s, p, SubDirName(Dirs(log + added, p[..|p| - 1])[s], name))];
    assert all[..|all| - 1] == added;
  }

  class CFileMap {
    var sources: map<Sort32, Source>
    /** The ToCs are the children of a nameless folder. */
    var top: Folder
    /** Rewritten ToCs, by their names in lower case. */
    var rewrites: map<string, string>
    ghost var log: seq<Event>

    ghost predicate Valid()
      reads this
    {
      && WfTop(top) && Shows(top, log)
      && FilesHaveFolders(log) && Registered(log, sources.Keys)
      && KnownTocs(top, rewrites)
    }

    constructor ()
      ensures Valid() && log == [] && sources == map[] && rewrites == map[]
    {
      sources, top, rewrites, log := map[], NewFolder(""), map[], [];
      new;
      forall q ensures HoldsAt(top, log, q) { EmptyFolder("", q); }
      assert forall q :: FoldersOf([], q) && RegisteredAt([], {}, q);
    }

    /** Registers a source; sort numbers tell sources apart. */
    method RegisterSource(s: Sort32, source: Source)
      requires Valid() && s !in sources
      modifies this`sources
      ensures Valid() && sources == old(sources)[s := source]
    {
      RegisteredMore(log, sources.Keys, sources[s := source].Keys);
      sources := sources[s := source];
    }

    // ----- Mapping -----

    method EnsureToc(c: string)
      requires Valid()
      modifies this`top
      ensures Valid() && Find(top.subs, c).Some?
      ensures forall d :: Find(old(top).subs, d).Some? ==> Find(top.subs, d).Some?
    {
      var i := LinearSearch(top.subs, c);
      if i == |top.subs| {
        NewToc(top, c);
        ShowsEqual(top, top.(subs := top.subs + [Named(c, NewFolder(c))]), log);
        top := top.(subs := top.subs + [Named(c, NewFolder(c))]);
      }
    }

    /** Adds an empty sub-folder and sorts the children again. */
    method AddChild(p: seq<string>, c: string)
      requires Valid() && p != [] && FolderAt(top, p).Some? && Find(FolderAt(top, p).value.subs, c) == None
      modifies this`top
      ensures Valid() && FolderAt(top, p + [c]).Some?
    {
      var f := FolderAt(top, p).value;
      FolderAtWf(top, p);
      NewChild(f, c);
      UpdateQuiet(top, p, WithChild(f, c));
      UpdateAt(top, p, WithChild(f, c));
      FolderStays(top, p, WithChild(f, c), c);
      ShowsEqual(top, Update(top, p, WithChild(f, c)), log);
      TocsStay(top, p, WithChild(f, c), rewrites);
      top := Update(top, p, WithChild(f, c));
    }

    method MapInto(s: Sort32, p: seq<string>, d: Dir)
      requires Valid() && s in sources && WfDir(d) && p != [] && FolderAt(top, p).Some?
      modifies this`top, this`log
      ensures Valid() && log == old(log) + [Mapped(s, p, d, sources[s].pureOutput)]
    {
      var f := FolderAt(top, p).value;
      FolderAtWf(top, p);
      var g := RawMap(s, sources[s].pureOutput, d, f);
      UpdateAt(top, p, g);
      ShowsMapped(top, p, g, log, s, sources[s].pureOutput, d);
      TocsStay(top, p, g, rewrites);
      EventKeeps(log, sources.Keys, Mapped(s, p, d, sources[s].pureOutput));
      top := Update(top, p, g);
      log := log + [Mapped(s, p, d, sources[s].pureOutput)];
    }

    /** Maps a directory in as the root folder of a ToC. */
    method MapIterator(s: Sort32, toc: string, d: Dir)
      requires Valid() && s in sources && WfDir(d)
      modifies this`top, this`log
      ensures Valid() && log == old(log) + [Mapped(s, [toc], d, sources[s].pureOutput)]
    {
      EnsureToc(toc);
      FolderAtSnoc(top, [], toc);
      assert [] + [toc] == [toc];
      MapInto(s, [toc], d);
    }

    /** Maps a directory in at any virtual path, making the folders on the way. */
    method MapIteratorDeep(s: Sort32, p: seq<string>, d: Dir)
      requires Valid() && s in sources && WfDir(d) && p != []
      modifies this`top, this`log
      ensures Valid() && log == old(log) + [Mapped(s, p, d, sources[s].pureOutput)]
    {
      EnsureToc(p[0]);
      FolderAtSnoc(top, [], p[0]);
      assert [] + [p[0]] == p[..1];
      var i := 1;
      while i < |p|
        invariant 1 <= i <= |p| && Valid() && log == old(log) && FolderAt(top, p[..i]).Some?
      {
        var f := FolderAt(top, p[..i]).value;
        assert p[..i] + [p[i]] == p[..i + 1];
        FolderAtSnoc(top, p[..i], p[i]);
        var k := LinearSearch(f.subs, p[i]);
        if k == |f.subs| { AddChild(p[..i], p[i]); }
        i := i + 1;
      }
      assert p[..i] == p;
      MapInto(s, p, d);
    }

    /** Forgets a source everywhere. */
    method EraseSource(s: Sort32)
      requires Valid()
      modifies this
      ensures Valid() && log == old(log) + [Erase(s)] && sources == old(sources) - {s} && rewrites == old(rewrites)
    {
      var g := top;
      var i := 0;
      assert top.dirs - {s} == map[];
      while i < |top.subs|
        invariant 0 <= i <= |top.subs| && ErasedLevel(top, g, s, i, 0) && top == old(top) && log == old(log)
        invariant sources == old(sources) && rewrites == old(rewrites)
      {
        var h := EraseSourceFromFolder(s, top.subs[i].item);
        g := g.(subs := g.subs[i := Named(top.subs[i].name, h)]);
        i := i + 1;
      }
      ErasedLevelAll(top, g, s);
      ShowsErased(top, g, log, s);
      EventKeeps(log, sources.Keys, Erase(s));
      ErasedUnregistered(log, sources.Keys, s);
      TocsKept(top, g, s, rewrites);
      top, log, sources := g, log + [Erase(s)], sources - {s};
    }

    /** Makes the paths of one ToC lead to another, or, given none, to itself again. */
    method RewriteToC(from: string, to: Option<string>)
      requires Valid()
      modifies this`top, this`rewrites
      ensures Valid()
      ensures forall p | p != [] ::
        Rewritten(rewrites, p) == (
          if !SameName(p[0], from) then Rewritten(old(rewrites), p)
          else if to.Some? then p[0 := to.value] else p)
    {
      EnsureToc(from);
      if to.None? {
        rewrites := rewrites - {Fold(from)};
      } else {
        EnsureToc(to.value);
        rewrites := rewrites[Fold(from) := to.value];
      }
    }

    // ----- Finding and reading -----

    /** One step of the folder loop of `_FindFile`. */
    method StepInto(q: seq<string>, c: string)
      requires Valid() && q != [] && FolderAt(top, q).Some?
      modifies this`top
      ensures Valid() && FolderAt(top, q + [c]).Some?
      ensures FolderAt(old(top), q + [c]).Some? ==> top == old(top)
    {
      var f := FolderAt(top, q).value;
      FolderAtWf(top, q);
      FolderAtSnoc(top, q, c);
      var k := PrefixSearch(f.subs, c);
      if k == |f.subs| { AddChild(q, c); }
    }

    /** The folder loop of `_FindFile`: descends by binary search, making the folders that
        are missing, up to part `n` of the path. */
    method WalkFolders(p: seq<string>, isFolder: bool) returns (n: nat)
      requires Valid() && PathOk(p) && Find(top.subs, p[0]).Some?
      modifies this`top
      ensures Valid() && 1 <= n <= |p| && FolderAt(top, p[..n]).Some?
      ensures n == if |p| == 1 || (isFolder && p[|p| - 1] != "") then |p| else |p| - 1
      ensures FolderAt(old(top), p[..n]).Some? ==> top == old(top)
    {
      FolderAtSnoc(top, [], p[0]);
      assert [] + [p[0]] == p[..1];
      n := 1;
      while n < |p| && (isFolder || n < |p| - 1) && p[n] != ""
        invariant 1 <= n <= |p| && Valid() && FolderAt(top, p[..n]).Some?
        invariant isFolder || n <= |p| - 1 || |p| == 1
        invariant n == |p| && |p| > 1 ==> p[|p| - 1] != ""
        invariant FolderAt(old(top), p[..n]).Some? ==> top == old(top)
      {
        assert p[..n] + [p[n]] == p[..n + 1];
        if FolderAt(old(top), p[..n + 1]).Some? { FolderAtInit(old(top), p[..n], p[n]); }
        StepInto(p[..n], p[n]);
        n := n + 1;
      }
    }

    /** `_FindFile`: the folder of a path, after rewriting its ToC, made if it is missing,
        and the file in it; the tree holds the same afterwards. */
    method FindFile(p: seq<string>, isFolder: bool) returns (r: Found)
      requires Valid() && PathOk(p)
      modifies this`top
      ensures Valid()
      ensures r == NoToc <==> Find(old(top).subs, Rewritten(rewrites, p)[0]) == None
      ensures r == NoToc ==> top == old(top) && Rewritten(rewrites, p) == p
      ensures r.At? && FolderAt(old(top), r.folder).Some? ==> top == old(top)
      ensures r.At? ==> r.folder != [] && FolderAt(top, r.folder).Some?
      ensures r.At? ==> var q := Rewritten(rewrites, p);
        r.folder == if |q| == 1 || (isFolder && q[|q| - 1] != "") then q else q[..|q| - 1]
      ensures r.At? ==>
        var (q, files) := (Rewritten(rewrites, p), FolderAt(top, r.folder).value.files);
        if |q| == 1 || q[|q| - 1] == "" || isFolder || Find(files, q[|q| - 1]) == None then r.file == None
        else r.file == Some(IndexOf(files, q[|q| - 1]))
    {
      var q := Rewritten(rewrites, p);
      RewrittenOk(rewrites, p);
      var t := LinearSearch(top.subs, q[0]);
      if t == |top.subs| { return NoToc; }
      var n := WalkFolders(q, isFolder);
      if n == |q| { assert q[..n] == q; }
      if n == |q| || q[n] == "" { return At(q[..n], None); }
      FolderAtWf(top, q[..n]);
      var files := FolderAt(top, q[..n]).value.files;
      var k := NameSearch(files, q[n]);
      return At(q[..n], if k < |files| then Some(k) else None);
    }

    /** The rest of `VOpenStream`, for what was found at a path. */
    method OpenFound(ghost q: seq<string>, found: Found) returns (r: Option<Opened>)
      requires Valid() && q != []
      requires found == NoToc ==> Find(top.subs, q[0]) == None
      requires found.At? ==> FolderAt(top, found.folder).Some?
      requires found.At? && (|q| == 1 || q[|q| - 1] == "") ==> found.file == None
      requires found.At? && |q| > 1 && q[|q| - 1] != "" ==>
        var files := FolderAt(top, found.folder).value.files;
        && found.folder == q[..|q| - 1]
        && found.file == if Find(files, q[|q| - 1]) == None then None else Some(IndexOf(files, q[|q| - 1]))
      ensures ReadDone(log, q, r)
    {
      if found == NoToc {
        if |q| > 1 { NoTocNoFile(top, log, q); }
        return None;
      }
      if |q| > 1 && q[|q| - 1] != "" { FileParts(top, log, sources.Keys, q); }
      r := OpenFile(FolderAt(top, found.folder).value, found.file);
    }

    /** `VOpenStream`: opens the file from the source of least sort number among those
        that have it now, under that source's own name for the folder; it fails exactly
        when no source has the file. */
    method VOpenStream(p: seq<string>) returns (r: Option<Opened>)
      requires Valid() && PathOk(p)
      modifies this`top
      ensures Valid() && ReadDone(log, Rewritten(rewrites, p), r)
    {
      RewrittenOk(rewrites, p);
      var found := FindFile(p, false);
      r := OpenFound(Rewritten(rewrites, p), found);
    }

    // ----- Writing -----

    method AddDir(p: seq<string>, d: Sort32, path: string)
      requires Valid() && p != [] && FolderAt(top, p).Some? && d in sources
      modifies this`top, this`log
      ensures Valid() && log == old(log) + [DirAdded(d, p, path)]
      ensures var f := FolderAt(old(top), p).value; FolderAt(top, p) == Some(f.(dirs := f.dirs[d := path]))
    {
      var f := FolderAt(top, p).value;
      var g := f.(dirs := f.dirs[d := path]);
      FolderAtWf(top, p);
      UpdateAt(top, p, g);
      ShowsDirAdded(top, p, log, d, path);
      TocsStay(top, p, g, rewrites);
      EventKeeps(log, sources.Keys, DirAdded(d, p, path));
      top := Update(top, p, g);
      log := log + [DirAdded(d, p, path)];
    }

    /** The first checks of `_MakeFolderWritable`: the source the file comes from, then
        any default output among the folder's sources, in no particular order. */
    method PickHere(p: seq<string>, m: map<Sort32, Time>, inFolder: bool) returns (r: Option<Sort32>)
      requires Valid() && p != [] && FolderAt(top, p).Some? && m.Keys <= sources.Keys
      requires inFolder ==> m.Keys <= FolderAt(top, p).value.dirs.Keys
      ensures r.Some? ==> r.value in FolderAt(top, p).value.dirs && Legal(sources, m, inFolder, r.value)
      ensures r.Some? <==> OwnSource(sources, m, inFolder) || exists d :: OutputAt(log, sources, p, m, d)
      ensures r.Some? ==> Nearest(log, sources, p, m, inFolder, 0, r.value)
    {
      var f := FolderAt(top, p).value;
      DirsHere(top, p);
      assert HoldsAt(top, log, p) && RegisteredAt(log, sources.Keys, p);
      var limit: Sort32 := 0xffff;
      if m != map[] {
        LeastExists(m);
        var best: Sort32 :| best in m && forall k :: k in m ==> best <= k;
        if best < limit { limit := best; }
        if inFolder && best <= limit && (sources[best].writable || sources[best].defaultOutput) {
          assert OwnAt(sources, m, best);
          return Some(best);
        }
      }
      assert forall d: Sort32 :: Fits(m, d) <==> d <= limit;
      assert !OwnSource(sources, m, inFolder);
      if d: Sort32 :| d in f.dirs && d <= limit && sources[d].defaultOutput {
        assert OutputAt(log, sources, p, m, d);
        return Some(d);
      }
      return None;
    }

    /** `_MakeFolderWritable`: picks a source to write a file of sources `m` through, here
        or in the nearest parent that has one, and makes the folders on the way down. */
    method MakeFolderWritable(p: seq<string>, m: map<Sort32, Time>, inFolder: bool, createOk: (string, string) -> bool)
        returns (r: Option<Sort32>, ghost added: seq<Event>)
      requires Valid() && p != [] && FolderAt(top, p).Some? && m.Keys <= sources.Keys
      requires inFolder ==> m.Keys <= FolderAt(top, p).value.dirs.Keys
      modifies this`top, this`log
      ensures Valid() && log == old(log) + added && OnlyFolders(added)
      ensures FolderAt(top, p).Some? && Alike(FolderAt(old(top), p).value, FolderAt(top, p).value)
      ensures r.Some? ==> r.value in FolderAt(top, p).value.dirs && Legal(sources, m, inFolder, r.value)
      ensures r.Some? ==>
        && Nearest(old(log), sources, p, m, inFolder, |added|, r.value)
        && FoldersMade(old(log), added, r.value, p, createOk)
      ensures r.Some? ==> CanWrite(old(log), sources, p, m, inFolder)
      ensures r.None? ==> StoppedShort(old(log), added, p, createOk)
      ensures r.None? && (forall a, b :: createOk(a, b)) ==> !CanWrite(old(log), sources, p, m, inFolder)
      decreases |p|, 1
    {
      added := [];
      r := PickHere(p, m, inFolder);
      CanWriteSplit(log, sources, p, m, inFolder);
      if r.None? && |p| > 1 { r, added := MakeInParent(p, m, inFolder, createOk); }
    }

    /** Where no source was found for the folder itself: the parent is made writable first. */
    method MakeInParent(p: seq<string>, m: map<Sort32, Time>, inFolder: bool, createOk: (string, string) -> bool)
        returns (r: Option<Sort32>, ghost added: seq<Event>)
      requires Valid() && |p| > 1 && FolderAt(top, p).Some? && m.Keys <= sources.Keys
      requires !OwnSource(sources, m, inFolder) && !(exists e :: OutputAt(log, sources, p, m, e))
      modifies this`top, this`log
      ensures Valid() && log == old(log) + added && OnlyFolders(added)
      ensures FolderAt(top, p).Some? && Alike(FolderAt(old(top), p).value, FolderAt(top, p).value)
      ensures r.Some? ==> r.value in FolderAt(top, p).value.dirs && Legal(sources, m, inFolder, r.value)
      ensures r.Some? ==>
        && Nearest(old(log), sources, p, m, inFolder, |added|, r.value)
        && FoldersMade(old(log), added, r.value, p, createOk)
      ensures r.Some? ==> CanWrite(old(log), sources, p, m, inFolder)
      ensures r.None? ==> StoppedShort(old(log), added, p, createOk)
      ensures r.None? && (forall a, b :: createOk(a, b)) ==> !CanWrite(old(log), sources, p, m, inFolder)
      decreases |p|, 0
    {
      var q := p[..|p| - 1];
      CanWriteSplit(log, sources, p, m, inFolder);
      ParentOf(top, p);
      ghost var top0 := top;
      r, added := MakeFolderWritable(q, m, false, createOk);
      ParentOf(top0, p);
      FolderAtSnoc(top, q, p[|p| - 1]);
      if r.None? {
        StoppedAbove(old(log), added, p, createOk);
        return;
      }
      NearestUp(old(log), sources, p, m, inFolder, |added|, r.value);
      var ok;
      ok, added := MakeHere(old(log), added, p, r.value, createOk);
      if !ok { r := None; }
    }

    /** The rest of it: makes the folder in its parent, which source `d` has already. */
    method MakeHere(ghost before: seq<Event>, ghost made: seq<Event>, p: seq<string>, d: Sort32,
        createOk: (string, string) -> bool) returns (ok: bool, ghost added: seq<Event>)
      requires Valid() && |p| > 1 && FolderAt(top, p).Some? && FolderAt(top, p[..|p| - 1]).Some? && d in sources
      requires d in FolderAt(top, p[..|p| - 1]).value.dirs
      requires log == before + made && OnlyFolders(made) && FoldersMade(before, made, d, p[..|p| - 1], createOk)
      modifies this`top, this`log
      ensures Valid() && log == before + added && OnlyFolders(added)
      ensures !ok ==> top == old(top) && added == made && StoppedShort(before, added, p, createOk)
      ensures !ok ==> exists a, b :: !createOk(a, b)
      ensures ok ==> FoldersMade(before, added, d, p, createOk) && |added| == |made| + 1
      ensures ok ==>
        && FolderAt(top, p).Some? && d in FolderAt(top, p).value.dirs
        && Alike(FolderAt(old(top), p).value, FolderAt(top, p).value)
    {
      var q := p[..|p| - 1];
      var parent := FolderAt(top, q).value;
      ParentOf(top, p);
      var (dir, name) := (parent.dirs[d], parent.subs[IndexOf(parent.subs, p[|p| - 1])].name);
      assert HoldsAt(top, log, q);
      DirsHere(top, q);
      if !createOk(dir, name) {
        assert FoldersMade(before, made, d, p[..|p| - 1], createOk);
        return false, made;
      }
      OneMore(before, made, d, p, name, createOk);
      AddDir(p, d, SubDirName(dir, name));
      added := made + [DirAdded(d, p, SubDirName(dir, name))];
      ok := true;
    }

    /** Enters a file that was opened for writing into its folder, and sorts the files. */
    method RecordWrite(p: seq<string>, d: Sort32, name: string, time: Time)
      requires Valid() && |p| > 1 && FolderAt(top, p[..|p| - 1]).Some? && d in sources && SameName(name, p[|p| - 1])
      requires d in FolderAt(top, p[..|p| - 1]).value.dirs
      modifies this`top, this`log
      ensures Valid() && log == old(log) + [Written(d, p, time, sources[d].pureOutput)]
    {
      var (q, pure) := (p[..|p| - 1], sources[d].pureOutput);
      var f := FolderAt(top, q).value;
      FolderAtWf(top, q);
      StrictDistinct(f.subs);
      StrictDistinct(f.files);
      var g := MapFile(f, name, d, pure, time);
      var h := if IndexOf(g.files, name) == |g.files| then g.(files := g.files + [Named(name, map[])]) else g;
      if IndexOf(g.files, name) == |g.files| { FileAdded(g, name); }
      FilesSorted(h);
      var w := h.(files := Sort(h.files));
      WrittenEntered(f, g, h, w, d, pure, name, p[|p| - 1], time);
      assert p == q + [p[|p| - 1]];
      UpdateAt(top, q, w);
      ShowsWritten(top, q, w, log, d, pure, p[|p| - 1], time);
      TocsStay(top, q, w, rewrites);
      WrittenKeeps(top, log, sources.Keys, p, d, time, pure);
      top := Update(top, q, w);
      log := log + [Written(d, p, time, pure)];
    }

    /** The first part of `VOpenOutputStream`: the name and the sources of the file, which
        may be new, and its folder; nothing when there is no such ToC. */
    method FindForWriting(p: seq<string>) returns (found: bool, name: string, m: map<Sort32, Time>)
      requires Valid() && PathOk(p) && |p| > 1 && p[|p| - 1] != "" && NameKept(top, p, Rewritten(rewrites, p))
      modifies this`top
      ensures Valid()
      ensures found ==> FilePlace(top, log, sources.Keys, Rewritten(rewrites, p), name, m)
      ensures var q := Rewritten(rewrites, p);
        !found ==> !CanWrite(log, sources, q[..|q| - 1], Times(log, q), true)
    {
      name, m := "", map[];
      var r := FindFile(p, false);
      if r == NoToc {
        NoTocNoWrite(top, log, sources, p);
        return false, name, m;
      }
      var folder := FolderAt(top, r.folder).value;
      WritingParts(top, log, sources.Keys, p, rewrites);
      found := true;
      if r.file.Some? {
        name := folder.files[r.file.value].name;
        m := folder.files[r.file.value].item;
      } else {
        name := Join(p)[|folder.full| + 1..];
      }
    }

    /** The rest of `VOpenOutputStream`, for the folder and the file that were found. */
    method OpenForWriting(q: seq<string>, name: string, m: map<Sort32, Time>, erase: bool,
        createOk: (string, string) -> bool, openOk: string -> bool, time: Option<Time>)
        returns (r: Option<Opened>, ghost added: seq<Event>)
      requires Valid() && FilePlace(top, log, sources.Keys, q, name, m)
      modifies this`top, this`log
      ensures Valid() && WriteEnds(old(log), log, sources, q, added, r, erase, createOk, openOk, time)
    {
      var at := q[..|q| - 1];
      var d;
      d, added := MakeFolderWritable(at, m, true, createOk);
      WayIs(old(log), sources, added, d, q, createOk);
      if d.None? { return None, added; }
      OwnIsLeast(sources, m, d.value);
      if !erase && m != map[] && !(d.value in m && forall k :: k in m ==> d.value <= k) { return None, added; }
      var dir := FolderAt(top, at).value.dirs[d.value];
      if !openOk(WritePath(dir, name)) || (time.None? && !sources[d.value].pureOutput) { return None, added; }
      assert HoldsAt(top, log, at);
      DirsHere(top, at);
      WrittenDirs(log, d.value, q, TimeOf(time), sources[d.value].pureOutput, at);
      RecordWrite(q, d.value, name, TimeOf(time));
      return Some(Opened(d.value, dir, name, WritePath(dir, name))), added;
    }

    /** `VOpenOutputStream`: writes go to a folder of the mod itself that no source of the
        file shadows.  Only the file written changes, and a failed call changes no file.
        When nothing fails in the stores, the call succeeds exactly when some source can take
        the file and, for a file that is there and not to be erased, its own source can. */
    method VOpenOutputStream(p: seq<string>, erase: bool, createOk: (string, string) -> bool,
        openOk: string -> bool, time: Option<Time>)
        returns (r: Option<Opened>, ghost added: seq<Event>)
      requires Valid() && PathOk(p) && |p| > 1 && p[|p| - 1] != "" && NameKept(top, p, Rewritten(rewrites, p))
      modifies this`top, this`log
      ensures Valid()
      ensures WriteEnds(old(log), log, sources, Rewritten(rewrites, p), added, r, erase, createOk, openOk, time)
    {
      added := [];
      assert log == log + added;
      RewrittenOk(rewrites, p);
      var found, name, m := FindForWriting(p);
      if !found { return None, added; }
      r, added := OpenForWriting(Rewritten(rewrites, p), name, m, erase, createOk, openOk, time);
    }
  }

  /** How an open of `q` for writing ends: folders may have been made on the way; if it fails
      nothing else happened, and if it succeeds the file is recorded once.  It succeeds when
      the stores do what is asked, some source can take the file, and it may be replaced. */
  ghost predicate WriteEnds(log0: seq<Event>, log: seq<Event>, sources: map<Sort32, Source>, q: seq<string>,
      added: seq<Event>, r: Option<Opened>, erase: bool, createOk: (string, string) -> bool,
      openOk: string -> bool, time: Option<Time>)
    requires |q| > 1
  {
    && OnlyFolders(added) && WayMade(log0, sources, added, r, q, createOk)
    && (r.None? ==> log == log0 + added)
    && (r.Some? ==>
          && WriteDone(log0, log, sources, q, added, r.value, erase, TimeOf(time))
          && openOk(r.value.path) && (time.Some? || sources[r.value.src].pureOutput))
    && ((&& (forall a :: openOk(a)) && time.Some? && (forall a, b :: createOk(a, b))
         && MayReplace(sources, Times(log0, q), erase)
         && CanWrite(log0, sources, q[..|q| - 1], Times(log0, q), true)) ==> r.Some?)
  }

  /** A successful write of `q`: folders may be added, then the file is recorded once, for a
      legal source, which the call opened under its own name for the folder. */
  ghost predicate WriteDone(log0: seq<Event>, log: seq<Event>, sources: map<Sort32, Source>, q: seq<string>,
      added: seq<Event>, o: Opened, erase: bool, time: Time)
    requires |q| > 1
  {
    && o.src in sources
    && log == log0 + added + [Written(o.src, q, time, sources[o.src].pureOutput)]
    && Legal(sources, Times(log0, q), true, o.src)
    && o.src in Dirs(log, q[..|q| - 1])
    && o.dir == Dirs(log, q[..|q| - 1])[o.src] && SameName(o.name, q[|q| - 1])
    && InDir(o.path, o.dir, o.name, EndsIn(o.dir, {'\\', '/'}))
    && MayReplace(sources, Times(log0, q), erase)
    && (!erase ==> Times(log0, q) == map[] || IsLeast(Times(log0, q), o.src))
    && CanWrite(log0, sources, q[..|q| - 1], Times(log0, q), true)
  }

  /** The tree has an entry for the file, even one without sources. */
  ghost predicate EntryAt(f: Folder, q: seq<string>)
    requires |q| > 1
  {
    FolderAt(f, q[..|q| - 1]).Some? && Find(FolderAt(f, q[..|q| - 1]).value.files, q[|q| - 1]).Some?
  }

  /** The code has the name of the file right: it is there, or `NewFileNameExactly` says so. */
  ghost predicate NameKept(f: Folder, p: seq<string>, q: seq<string>)
    requires p != [] && |q| > 1
  {
    |q[0]| == |p[0]| || EntryAt(f, q)
  }

  /** A file to be written: its folder is there, `name` is its name, `m` its sources. */
  ghost predicate FilePlace(f: Folder, log: seq<Event>, known: set<Sort32>, q: seq<string>, name: string,
      m: map<Sort32, Time>) {
    && |q| > 1 && FolderAt(f, q[..|q| - 1]).Some? && SameName(name, q[|q| - 1])
    && m == Times(log, q) && m.Keys <= FolderAt(f, q[..|q| - 1]).value.dirs.Keys <= known
  }

  lemma WritingParts(f: Folder, log: seq<Event>, known: set<Sort32>, p: seq<string>, r: map<string, string>)
    requires WfTop(f) && Shows(f, log) && FilesHaveFolders(log) && Registered(log, known)
    requires |p| > 1 && NameKept(f, p, Rewritten(r, p)) && FolderAt(f, Rewritten(r, p)[..|p| - 1]).Some?
    ensures var (q, g, c) := (Rewritten(r, p), FolderAt(f, Rewritten(r, p)[..|p| - 1]).value, p[|p| - 1]);
      var i := IndexOf(g.files, c);
      && q[|p| - 1] == c
      && (i < |g.files| ==> FilePlace(f, log, known, q, g.files[i].name, g.files[i].item))
      && (i == |g.files| ==> |g.full| + 1 <= |Join(p)| && FilePlace(f, log, known, q, Join(p)[|g.full| + 1..], map[]))
  {
    var q := Rewritten(r, p);
    RewrittenTail(r, p);
    assert q[|q| - 1] == q[1..][|q| - 2] && p[|p| - 1] == p[1..][|p| - 2];
    FileParts(f, log, known, q);
    NewFileNameExactly(f, p, q, map[]);
  }

  lemma FileAdded(f: Folder, c: string)
    requires Unsorted(f) && Find(f.files, c) == None
    ensures Unsorted(f.(files := f.files + [Named(c, map[])])) && Equal(f, f.(files := f.files + [Named(c, map[])]))
  {
    var g := f.(files := f.files + [Named(c, map[])]);
    FindSnoc(f.files, Named(c, map[]), c);
    forall q ensures SameAt(f, g, q) {
      if q != [] { FindSnoc(f.files, Named(c, map[]), q[0]); }
    }
  }

  lemma FilesSorted(f: Folder)
    requires Unsorted(f) && Strict(f.subs)
    ensures Wf(f.(files := Sort(f.files))) && Equal(f, f.(files := Sort(f.files)))
  {
    SortKeeps(f.files);
    forall q ensures SameAt(f, f.(files := Sort(f.files)), q) {
      SameByFinds(f, f.(files := Sort(f.files)), q);
    }
  }

  lemma WrittenEntered(f: Folder, g: Folder, h: Folder, w: Folder, d: Sort32, pure: bool, name: string, c: string,
      time: Time)
    requires Entered(f, g, d, pure, FileItem(name, time)) && Equal(g, h) && Equal(h, w) && w.full == g.full
    requires SameName(name, c)
    ensures Entered(f, w, d, pure, FileItem(c, time))
  {
    forall q ensures EnteredAt(f, w, d, pure, FileItem(c, time), q) {
      assert EnteredAt(f, g, d, pure, FileItem(name, time), q) && SameAt(g, h, q) && SameAt(h, w, q);
    }
  }

  lemma WrittenOk(f: Folder, log: seq<Event>, known: set<Sort32>, p: seq<string>, d: Sort32, time: Time, pure: bool)
    requires Shows(f, log) && |p| > 1 && FolderAt(f, p[..|p| - 1]).Some? && d in FolderAt(f, p[..|p| - 1]).value.dirs
    ensures EventOk(log, known, Written(d, p, time, pure))
  {
    var i := p[..|p| - 1];
    DirsHere(f, i);
    forall q | SamePath(p, q) ensures d in Dirs(log, q[..|q| - 1]) {
      var j := q[..|q| - 1];
      assert Under(i, j) by { assert j[..|i|] == j; }
      FolderPart(f, i, j);
      assert j[|i|..] == [];
      assert HoldsAt(f, log, j);
    }
  }

  lemma WrittenKeeps(f: Folder, log: seq<Event>, known: set<Sort32>, p: seq<string>, d: Sort32, time: Time, pure: bool)
    requires Shows(f, log) && FilesHaveFolders(log) && Registered(log, known)
    requires |p| > 1 && FolderAt(f, p[..|p| - 1]).Some? && d in FolderAt(f, p[..|p| - 1]).value.dirs
    ensures FilesHaveFolders(log + [Written(d, p, time, pure)]) && Registered(log + [Written(d, p, time, pure)], known)
  {
    WrittenOk(f, log, known, p, d, time, pure);
    EventKeeps(log, known, Written(d, p, time, pure));
  }

  /** The folder and the sources of a file path, in the tree and in the log. */
  lemma FileParts(f: Folder, log: seq<Event>, known: set<Sort32>, p: seq<string>)
    requires WfTop(f) && Shows(f, log) && FilesHaveFolders(log) && Registered(log, known)
    requires |p| > 1 && FolderAt(f, p[..|p| - 1]).Some?
    ensures var (g, c) := (FolderAt(f, p[..|p| - 1]).value, p[|p| - 1]);
      && Times(log, p) == (match Find(g.files, c) { case None => map[] case Some(m) => m })
      && Times(log, p).Keys <= g.dirs.Keys && g.dirs == Dirs(log, p[..|p| - 1]) && g.dirs.Keys <= known
  {
    var q := p[..|p| - 1];
    assert p == q + [p[|p| - 1]];
    HoldsFile(f, p);
    assert HoldsAt(f, log, p) && HoldsAt(f, log, q) && FoldersOf(log, p) && RegisteredAt(log, known, q);
  }

  lemma WrittenDirs(log: seq<Event>, d: Sort32, p: seq<string>, time: Time, pure: bool, q: seq<string>)
    ensures Dirs(log + [Written(d, p, time, pure)], q) == Dirs(log, q)
  {
    LogSnoc(log, Written(d, p, time, pure), q);
  }

  lemma NoTocNoFile(f: Folder, log: seq<Event>, p: seq<string>)
    requires Shows(f, log) && |p| > 1 && Find(f.subs, p[0]) == None
    ensures Times(log, p) == map[]
  {
    assert HoldsAt(f, log, p);
  }

  lemma NoTocNoWrite(f: Folder, log: seq<Event>, sources: map<Sort32, Source>, p: seq<string>)
    requires Shows(f, log) && |p| > 1 && Find(f.subs, p[0]) == None
    ensures Times(log, p) == map[] && !CanWrite(log, sources, p[..|p| - 1], Times(log, p), true)
  {
    var q := p[..|p| - 1];
    assert HoldsAt(f, log, p);
    forall n: nat | 1 <= n <= |q| ensures !OutputAbove(log, sources, q, Times(log, p), n) {
      assert HoldsAt(f, log, q[..n]) && q[..n][0] == p[0];
    }
  }

  lemma FolderChangesNoFile(log: seq<Event>, rest: seq<Event>, e: Event, q: seq<string>)
    requires e.DirAdded?
    ensures Times(log + (rest + [e]), q) == Times(log + rest, q)
  {
    assert log + (rest + [e]) == (log + rest) + [e];
    LogSnoc(log + rest, e, q);
  }

  /** Folders made on the way change no file; so a successful write changes exactly the
      file written, and only if its source is not one that is only written to. */
  lemma {:induction false} FoldersChangeNoFile(log: seq<Event>, added: seq<Event>, q: seq<string>)
    requires OnlyFolders(added)
    ensures Times(log + added, q) == Times(log, q)
    decreases |added|
  {
    if added == [] {
      assert log + added == log;
    } else {
      var (rest, e) := (added[..|added| - 1], added[|added| - 1]);
      FoldersChangeNoFile(log, rest, q);
      FolderChangesNoFile(log, rest, e, q);
      assert added == rest + [e];
    }
  }

  /** After a successful `VOpenOutputStream` a read of the path opens what was written,
      unless the source is only written to; every other file opens as before. */
  lemma WriteThenRead(log: seq<Event>, added: seq<Event>, sources: map<Sort32, Source>, d: Sort32, p: seq<string>,
      time: Time, q: seq<string>)
    requires OnlyFolders(added) && Legal(sources, Times(log, p), true, d)
    ensures var after := log + added + [Written(d, p, time, sources[d].pureOutput)];
      && (!sources[d].pureOutput ==> IsLeast(Times(after, p), d))
      && (sources[d].pureOutput || !SamePath(p, q) ==> Times(after, q) == Times(log, q))
  {
    FoldersChangeNoFile(log, added, p);
    FoldersChangeNoFile(log, added, q);
    ReadYourWrites(log + added, d, p, time, q);
  }


  /** Among the sources a file may be written through: a folder of the mod itself (sort
      number up to 0xffff), and no source that has the file comes before it. */
  ghost predicate Fits(m: map<Sort32, Time>, d: Sort32) {
    d <= 0xffff && forall k :: k in m ==> d <= k
  }

  ghost predicate OwnAt(sources: map<Sort32, Source>, m: map<Sort32, Time>, d: Sort32) {
    d in m && Fits(m, d) && d in sources && (sources[d].writable || sources[d].defaultOutput)
  }

  ghost predicate OwnSource(sources: map<Sort32, Source>, m: map<Sort32, Time>, inFolder: bool) {
    inFolder && exists d :: OwnAt(sources, m, d)
  }

  ghost predicate OutputAt(log: seq<Event>, sources: map<Sort32, Source>, p: seq<string>, m: map<Sort32, Time>,
      d: Sort32) {
    d in Dirs(log, p) && Fits(m, d) && d in sources && sources[d].defaultOutput
  }

  ghost predicate OutputAbove(log: seq<Event>, sources: map<Sort32, Source>, p: seq<string>, m: map<Sort32, Time>,
      n: nat) {
    1 <= n <= |p| && exists d :: OutputAt(log, sources, p[..n], m, d)
  }

  /** The file's own source will do, or a default output of its folder or a parent. */
  ghost predicate CanWrite(log: seq<Event>, sources: map<Sort32, Source>, p: seq<string>, m: map<Sort32, Time>,
      inFolder: bool) {
    OwnSource(sources, m, inFolder) || exists n: nat :: OutputAbove(log, sources, p, m, n)
  }

  /** The source picked for a file: its own if that will do, or else a default output of the
      nearest folder that has one, `n` levels up. */
  ghost predicate Nearest(log: seq<Event>, sources: map<Sort32, Source>, p: seq<string>, m: map<Sort32, Time>,
      inFolder: bool, n: nat, d: Sort32)
    decreases n
  {
    if OwnSource(sources, m, inFolder) then n == 0 && OwnAt(sources, m, d)
    else if n == 0 then OutputAt(log, sources, p, m, d)
    else
      && |p| > 1 && !(exists e :: OutputAt(log, sources, p, m, e))
      && Nearest(log, sources, p[..|p| - 1], m, false, n - 1, d)
  }

  /** A file that is not to be erased is written only through its own source, or anew. */
  ghost predicate MayReplace(sources: map<Sort32, Source>, m: map<Sort32, Time>, erase: bool) {
    erase || m == map[] || OwnSource(sources, m, true)
  }

  lemma OwnIsLeast(sources: map<Sort32, Source>, m: map<Sort32, Time>, d: Sort32)
    ensures OwnAt(sources, m, d) ==> IsLeast(m, d)
    ensures IsLeast(m, d) && Legal(sources, m, true, d) ==> OwnSource(sources, m, true)
  {
    if IsLeast(m, d) && Legal(sources, m, true, d) { assert OwnAt(sources, m, d); }
  }

  lemma {:induction false} NearestUp(log: seq<Event>, sources: map<Sort32, Source>, p: seq<string>,
      m: map<Sort32, Time>, inFolder: bool, n: nat, d: Sort32)
    requires |p| > 1 && !OwnSource(sources, m, inFolder) && !(exists e :: OutputAt(log, sources, p, m, e))
    requires Nearest(log, sources, p[..|p| - 1], m, false, n, d)
    ensures Nearest(log, sources, p, m, inFolder, n + 1, d)
  {
  }

  ghost predicate Legal(sources: map<Sort32, Source>, m: map<Sort32, Time>, inFolder: bool, d: Sort32) {
    && d in sources && Fits(m, d)
    && (sources[d].defaultOutput || (inFolder && d in m && sources[d].writable))
  }

  /** In terms of the packed number: a write goes to a source of mod 0 that is a folder and
      no archive, and a source that is neither never takes one. */
  lemma LegalIsOwnFolder(sources: map<Sort32, Source>, m: map<Sort32, Time>, inFolder: bool, d: Sort32, n: bv32)
    requires SortNumber.Value(n) == d
    ensures Legal(sources, m, inFolder, d) ==> SortNumber.OwnFolder(n)
    ensures SortNumber.OwnFolder(n) && d in sources && sources[d].defaultOutput ==>
      (Legal(sources, m, inFolder, d) <==> forall k :: k in m ==> d <= k)
  {
    SortNumber.OwnFolderValue(n);
  }

  ghost predicate OnlyFolders(added: seq<Event>) {
    forall i :: 0 <= i < |added| ==> added[i].DirAdded?
  }

  lemma CanWriteSplit(log: seq<Event>, sources: map<Sort32, Source>, p: seq<string>, m: map<Sort32, Time>,
      inFolder: bool)
    requires p != []
    ensures CanWrite(log, sources, p, m, inFolder) <==>
      || OwnSource(sources, m, inFolder) || (exists d :: OutputAt(log, sources, p, m, d))
      || (|p| > 1 && CanWrite(log, sources, p[..|p| - 1], m, false))
  {
    var q := p[..|p| - 1];
    assert p[..|p|] == p;
    assert forall n :: 0 <= n <= |q| ==> q[..n] == p[..n];
    if exists d :: OutputAt(log, sources, p, m, d) { assert OutputAbove(log, sources, p, m, |p|); }
    if exists n: nat :: OutputAbove(log, sources, q, m, n) {
      var n: nat :| OutputAbove(log, sources, q, m, n);
      assert OutputAbove(log, sources, p, m, n);
    }
    if exists n: nat :: OutputAbove(log, sources, p, m, n) {
      var n: nat :| OutputAbove(log, sources, p, m, n);
      assert n < |p| ==> OutputAbove(log, sources, q, m, n);
    }
  }

  lemma DirsHere(f: Folder, p: seq<string>)
    requires FolderAt(f, p).Some?
    ensures DirsAt(f, p) == FolderAt(f, p).value.dirs
  {
    assert p[..|p|] == p;
    FolderPart(f, p, p);
    assert p[|p|..] == [];
  }

  lemma ParentOf(f: Folder, p: seq<string>)
    requires p != [] && FolderAt(f, p).Some?
    ensures FolderAt(f, p[..|p| - 1]).Some?
    ensures Find(FolderAt(f, p[..|p| - 1]).value.subs, p[|p| - 1]) == FolderAt(f, p)
    ensures p == p[..|p| - 1] + [p[|p| - 1]]
  {
    var (q, c) := (p[..|p| - 1], p[|p| - 1]);
    assert p == q + [c];
    FolderAtInit(f, q, c);
    FolderAtSnoc(f, q, c);
  }

  /** What the tree holds for a file path, from the folder it is in. */
  lemma HoldsFile(f: Folder, p: seq<string>)
    requires p != []
    ensures |p| == 1 && f.files == [] ==> SourcesAt(f, p) == map[]
    ensures |p| > 1 && Find(f.subs, p[0]) == None ==> SourcesAt(f, p) == map[]
    ensures |p| > 1 && FolderAt(f, p[..|p| - 1]).Some? ==>
      var g := FolderAt(f, p[..|p| - 1]).value;
      && DirsAt(f, p[..|p| - 1]) == g.dirs
      && SourcesAt(f, p) == match Find(g.files, p[|p| - 1]) { case None => map[] case Some(m) => m }
  {
    if |p| > 1 && FolderAt(f, p[..|p| - 1]).Some? {
      var q := p[..|p| - 1];
      assert p[..|q|] == q && q[..|q|] == q;
      FolderPart(f, q, p);
      FolderPart(f, q, q);
      assert p[|q|..] == [p[|p| - 1]] && q[|q|..] == [];
    }
  }
}
