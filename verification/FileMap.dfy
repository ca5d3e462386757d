/** CFileMap: many file sources merged into one tree, with reading, writing and erasing.
    A ghost log of what was mapped, written and erased says what the tree must hold. */
module FileMap {
  import opened FileNames
  import opened FileTree
  import opened Options

  /** What is known of a registered source. */
  datatype Source = Source(writable: bool, defaultOutput: bool, pureOutput: bool)

  // ----- The log and what follows from it -----

  datatype Event =
    | Mapped(src: Sort32, at: seq<string>, dir: Dir, pure: bool)
    | Erase(src: Sort32)
    | DirAdded(src: Sort32, at: seq<string>, path: string)
    | Written(src: Sort32, at: seq<string>, time: Time, pure: bool)

  ghost function StepTimes(e: Event, m: map<Sort32, Time>, q: seq<string>): map<Sort32, Time> {
    match e
    case Mapped(src, at, dir, pure) =>
      if Under(at, q) && |at| < |q| then WithTime(m, src, pure, TimeAt(dir, q[|at|..])) else m
    case Erase(src) => m - {src}
    case DirAdded(_, _, _) => m
    case Written(src, at, time, pure) => if SamePath(at, q) && !pure then m[src := time] else m
  }

  ghost function StepDirs(e: Event, m: map<Sort32, string>, q: seq<string>): map<Sort32, string> {
    match e
    case Mapped(src, at, dir, _) => if Under(at, q) then WithDir(m, src, PathAt(dir, q[|at|..])) else m
    case Erase(src) => m - {src}
    case DirAdded(src, at, path) => if SamePath(at, q) then m[src := path] else m
    case Written(_, _, _, _) => m
  }

  /** The sources that have the file at `q` after the events of `log`, with write times. */
  ghost function Times(log: seq<Event>, q: seq<string>): map<Sort32, Time> {
    if log == [] then map[] else StepTimes(log[|log| - 1], Times(log[..|log| - 1], q), q)
  }

  ghost function Dirs(log: seq<Event>, q: seq<string>): map<Sort32, string> {
    if log == [] then map[] else StepDirs(log[|log| - 1], Dirs(log[..|log| - 1], q), q)
  }

  lemma LogSnoc(log: seq<Event>, e: Event, q: seq<string>)
    ensures Times(log + [e], q) == StepTimes(e, Times(log, q), q)
    ensures Dirs(log + [e], q) == StepDirs(e, Dirs(log, q), q)
  {
    assert (log + [e])[..|log|] == log;
  }

  /** Event `e` gives source `s` the file at `q`. */
  ghost predicate Gives(e: Event, s: Sort32, q: seq<string>) {
    match e
    case Mapped(src, at, dir, pure) => src == s && !pure && Under(at, q) && |at| < |q| && TimeAt(dir, q[|at|..]).Some?
    case Written(src, at, _, pure) => src == s && !pure && SamePath(at, q)
    case _ => false
  }

  lemma StepKeys(e: Event, m: map<Sort32, Time>, s: Sort32, q: seq<string>)
    ensures s in StepTimes(e, m, q) <==> Gives(e, s, q) || (s in m && e != Erase(s))
  {
  }

  /** Event `i` gave source `s` the file at `q`, and no later event erased the source. */
  ghost predicate GivenAt(log: seq<Event>, i: nat, s: Sort32, q: seq<string>) {
    i < |log| && Gives(log[i], s, q) && forall j :: i < j < |log| ==> log[j] != Erase(s)
  }

  lemma GivenBefore(log: seq<Event>, e: Event, s: Sort32, q: seq<string>, i: nat)
    requires i < |log| && e != Erase(s)
    ensures GivenAt(log + [e], i, s, q) <==> GivenAt(log, i, s, q)
  {
    var more := log + [e];
    assert forall j :: 0 <= j < |log| ==> more[j] == log[j];
  }

  /** A source has a file exactly when something gave it the file and it was not erased
      since: neither the order of mapping nor other sources matter. */
  lemma {:induction false} TimesAreCurrent(log: seq<Event>, s: Sort32, q: seq<string>)
    ensures s in Times(log, q) <==> exists i: nat :: GivenAt(log, i, s, q)
  {
    if log != [] {
      var (rest, e) := (log[..|log| - 1], log[|log| - 1]);
      assert log == rest + [e];
      TimesAreCurrent(rest, s, q);
      StepKeys(e, Times(rest, q), s, q);
      CurrentStep(rest, e, s, q);
    }
  }

  lemma CurrentStep(rest: seq<Event>, e: Event, s: Sort32, q: seq<string>)
    ensures (exists i: nat :: GivenAt(rest + [e], i, s, q)) <==>
        Gives(e, s, q) || (e != Erase(s) && exists i: nat :: GivenAt(rest, i, s, q))
  {
    var log := rest + [e];
    if Gives(e, s, q) {
      assert GivenAt(log, |rest|, s, q);
    }
    if e != Erase(s) && exists i: nat :: GivenAt(rest, i, s, q) {
      var i: nat :| GivenAt(rest, i, s, q);
      GivenBefore(rest, e, s, q, i);
    }
    if exists i: nat :: GivenAt(log, i, s, q) {
      var i: nat :| GivenAt(log, i, s, q);
      assert i < |rest| ==> log[|rest|] != Erase(s);
      if i < |rest| { GivenBefore(rest, e, s, q, i); }
    }
  }

  /** The write time an event gives for a file. */
  ghost function TimeGiven(e: Event, s: Sort32, q: seq<string>): Time
    requires Gives(e, s, q)
  {
    if e.Mapped? then TimeAt(e.dir, q[|e.at|..]).value else e.time
  }

  /** The write time held for a source is the one given last. */
  lemma {:induction false} TimesAreLatest(log: seq<Event>, s: Sort32, q: seq<string>) returns (i: nat)
    requires s in Times(log, q)
    ensures GivenAt(log, i, s, q) && Times(log, q)[s] == TimeGiven(log[i], s, q)
    ensures forall j :: i < j < |log| ==> !Gives(log[j], s, q)
    decreases |log|
  {
    var (rest, e) := (log[..|log| - 1], log[|log| - 1]);
    assert log == rest + [e];
    if Gives(e, s, q) {
      i := |rest|;
    } else {
      StepKeys(e, Times(rest, q), s, q);
      i := TimesAreLatest(rest, s, q);
      GivenBefore(rest, e, s, q, i);
    }
  }

  /** Event `e` says under which name source `s` has the folder at `q`. */
  ghost predicate Names(e: Event, s: Sort32, q: seq<string>) {
    match e
    case Mapped(src, at, dir, _) => src == s && Under(at, q) && PathAt(dir, q[|at|..]).Some?
    case DirAdded(src, at, _) => src == s && SamePath(at, q)
    case _ => false
  }

  ghost function NameGiven(e: Event, s: Sort32, q: seq<string>): string
    requires Names(e, s, q)
  {
    if e.Mapped? then PathAt(e.dir, q[|e.at|..]).value else e.path
  }

  /** Event `i` names the folder, and no later event erased the source. */
  ghost predicate NamedAt(log: seq<Event>, i: nat, s: Sort32, q: seq<string>) {
    i < |log| && Names(log[i], s, q) && forall j :: i < j < |log| ==> log[j] != Erase(s)
  }

  ghost predicate ErasedBetween(log: seq<Event>, i: nat, j: nat, s: Sort32) {
    exists m :: i < m < j <= |log| && log[m] == Erase(s)
  }

  lemma NamedBefore(log: seq<Event>, e: Event, s: Sort32, q: seq<string>, i: nat)
    requires i < |log| && e != Erase(s)
    ensures NamedAt(log + [e], i, s, q) <==> NamedAt(log, i, s, q)
  {
    var more := log + [e];
    assert forall j :: 0 <= j < |log| ==> more[j] == log[j];
  }

  /** A source that some event named the folder for has it, until it is erased. */
  lemma {:induction false} NamedHas(log: seq<Event>, s: Sort32, q: seq<string>, i: nat)
    requires NamedAt(log, i, s, q)
    ensures s in Dirs(log, q)
    decreases |log|
  {
    var (rest, e) := (log[..|log| - 1], log[|log| - 1]);
    assert log == rest + [e];
    if i < |rest| {
      assert e != Erase(s);
      NamedBefore(rest, e, s, q, i);
      NamedHas(rest, s, q, i);
    }
  }

  /** The name held for a source is one it was given since it was last erased: that of the
      folder made last, or, if none was made, that of the first mapping. */
  lemma {:induction false} DirsAreNamed(log: seq<Event>, s: Sort32, q: seq<string>) returns (i: nat)
    requires s in Dirs(log, q)
    ensures NamedAt(log, i, s, q) && Dirs(log, q)[s] == NameGiven(log[i], s, q)
    ensures forall j :: i < j < |log| && Names(log[j], s, q) ==> log[j].Mapped?
    ensures log[i].Mapped? ==> forall j :: 0 <= j < i && Names(log[j], s, q) ==> ErasedBetween(log, j, i, s)
    decreases |log|
  {
    var (rest, e) := (log[..|log| - 1], log[|log| - 1]);
    assert log == rest + [e];
    if Names(e, s, q) && (e.DirAdded? || s !in Dirs(rest, q)) {
      i := |rest|;
      forall j | e.Mapped? && 0 <= j < i && Names(log[j], s, q) ensures ErasedBetween(log, j, i, s) {
        if !ErasedBetween(log, j, i, s) {
          assert forall m :: j < m < |rest| ==> rest[m] == log[m];
          NamedHas(rest, s, q, j);
        }
      }
    } else {
      i := DirsAreNamed(rest, s, q);
      NamedBefore(rest, e, s, q, i);
      forall j | log[i].Mapped? && 0 <= j < i && Names(log[j], s, q) ensures ErasedBetween(log, j, i, s) {
        assert ErasedBetween(rest, j, i, s);
        var m :| j < m < i <= |rest| && rest[m] == Erase(s);
        assert log[m] == Erase(s);
      }
    }
  }

  /** The log without what one source did. */
  ghost function Without(log: seq<Event>, s: Sort32): seq<Event> {
    if log == [] then []
    else
      var rest := Without(log[..|log| - 1], s);
      if log[|log| - 1].src == s then rest else rest + [log[|log| - 1]]
  }

  lemma StepErased(e: Event, m: map<Sort32, Time>, d: map<Sort32, string>, s: Sort32, q: seq<string>)
    ensures StepTimes(e, m, q) - {s} == if e.src == s then m - {s} else StepTimes(e, m - {s}, q)
    ensures StepDirs(e, d, q) - {s} == if e.src == s then d - {s} else StepDirs(e, d - {s}, q)
  {
  }

  /** Erasing a source undoes it: every file and every folder is as if the source had
      never been mapped nor written to. */
  lemma {:induction false} EraseUndoes(log: seq<Event>, s: Sort32, q: seq<string>)
    ensures Times(log + [Erase(s)], q) == Times(Without(log, s), q)
    ensures Dirs(log + [Erase(s)], q) == Dirs(Without(log, s), q)
  {
    LogSnoc(log, Erase(s), q);
    if log != [] {
      var (rest, e) := (log[..|log| - 1], log[|log| - 1]);
      EraseUndoes(rest, s, q);
      LogSnoc(rest, Erase(s), q);
      StepErased(e, Times(rest, q), Dirs(rest, q), s, q);
      if e.src != s { LogSnoc(Without(rest, s), e, q); }
    }
  }

  ghost predicate IsLeast<T>(m: map<Sort32, T>, s: Sort32) {
    s in m && forall k :: k in m ==> s <= k
  }

  lemma {:induction false} LeastOf(ks: set<Sort32>) returns (s: Sort32)
    requires ks != {}
    ensures s in ks && forall k :: k in ks ==> s <= k
    decreases |ks|
  {
    s :| s in ks;
    var rest := ks - {s};
    if rest != {} {
      var r := LeastOf(rest);
      forall k | k in ks ensures (if r < s then r else s) <= k {
        if k != s { assert k in rest; }
      }
      if r < s { s := r; }
    }
  }

  lemma LeastExists<T>(m: map<Sort32, T>)
    requires m != map[]
    ensures exists s :: IsLeast(m, s)
  {
    assert m.Keys != {};
    var s := LeastOf(m.Keys);
    assert IsLeast(m, s);
  }

  /** After a write through a source that is not shadowed, a read of the path opens that
      source, unless it is one that is only written to. */
  lemma ReadYourWrites(log: seq<Event>, d: Sort32, p: seq<string>, time: Time, q: seq<string>)
    requires forall k :: k in Times(log, p) ==> d <= k
    ensures IsLeast(Times(log + [Written(d, p, time, false)], p), d)
    ensures !SamePath(p, q) ==> Times(log + [Written(d, p, time, false)], q) == Times(log, q)
    ensures Times(log + [Written(d, p, time, true)], q) == Times(log, q)
  {
    LogSnoc(log, Written(d, p, time, false), p);
    LogSnoc(log, Written(d, p, time, false), q);
    LogSnoc(log, Written(d, p, time, true), q);
  }

  // ----- Growing the tree by empty folders -----

  function ChildFolder(f: Folder, c: string): Named<Folder> {
    Named(c, NewFolder(f.full + "\\" + c))
  }

  /** The folder with a new, empty sub-folder. */
  function WithChild(f: Folder, c: string): Folder {
    f.(subs := Sort(f.subs + [ChildFolder(f, c)]))
  }

  lemma WithChildFinds(f: Folder, c: string, d: string)
    requires Wf(f) && Find(f.subs, c) == None
    ensures Distinct(f.subs + [ChildFolder(f, c)])
    ensures Find(WithChild(f, c).subs, d) == if SameName(c, d) then Some(ChildFolder(f, c).item) else Find(f.subs, d)
  {
    StrictDistinct(f.subs);
    FindSnoc(f.subs, ChildFolder(f, c), d);
    SortKeeps(f.subs + [ChildFolder(f, c)]);
  }

  lemma NewChild(f: Folder, c: string)
    requires Wf(f) && Find(f.subs, c) == None
    ensures Wf(WithChild(f, c)) && Equal(f, WithChild(f, c))
    ensures Find(WithChild(f, c).subs, c) == Some(ChildFolder(f, c).item)
  {
    var (g, all) := (WithChild(f, c), f.subs + [ChildFolder(f, c)]);
    WithChildFinds(f, c, c);
    SortKeeps(all);
    forall i | 0 <= i < |g.subs|
      ensures Wf(g.subs[i].item) && |g.subs[i].item.full| == |g.full| + 1 + |g.subs[i].name|
    {
      assert g.subs[i] in multiset(all);
      var j :| 0 <= j < |all| && all[j] == g.subs[i];
      EmptyFolder(f.full + "\\" + c, []);
    }
    forall q ensures SameAt(f, g, q) {
      if q != [] { WithChildFinds(f, c, q[0]); }
      NewChildQuiet(f, g, c, ChildFolder(f, c).item.full, q);
    }
  }

  /** An empty folder more holds nothing more. */
  lemma NewChildQuiet(f: Folder, g: Folder, c: string, full: string, q: seq<string>)
    requires f.dirs == g.dirs && f.files == g.files && Find(f.subs, c) == None
    requires q != [] ==> Find(g.subs, q[0]) == if SameName(c, q[0]) then Some(NewFolder(full)) else Find(f.subs, q[0])
    ensures SameAt(f, g, q)
  {
    if q == [] || !SameName(c, q[0]) {
      SameByFinds(f, g, q);
    } else {
      SameIndex(f.subs, c, q[0]);
      EmptyFolder(full, q[1..]);
    }
  }

  // ----- Folders as places in the tree -----

  /** Same name, entries and files; the directories' names may differ. */
  ghost predicate Alike(f: Folder, g: Folder) {
    g.full == f.full && g.subs == f.subs && g.files == f.files
  }

  lemma {:induction false} FolderAtWf(f: Folder, p: seq<string>)
    requires (WfTop(f) && p != []) || Wf(f)
    requires FolderAt(f, p).Some?
    ensures Wf(FolderAt(f, p).value)
    decreases |p|
  {
    if p != [] {
      var i := IndexOf(f.subs, p[0]);
      assert Wf(f.subs[i].item);
      FolderAtWf(f.subs[i].item, p[1..]);
    }
  }

  lemma ChildWf(f: Folder, i: nat, h: Folder)
    requires i < |f.subs| && Wf(h) && |h.full| == |f.subs[i].item.full|
    ensures var u := f.(subs := f.subs[i := Named(f.subs[i].name, h)]); (Wf(f) ==> Wf(u)) && (WfTop(f) ==> WfTop(u))
  {
    var u := f.(subs := f.subs[i := Named(f.subs[i].name, h)]);
    assert forall j :: 0 <= j < |f.subs| ==> u.subs[j].name == f.subs[j].name && (j != i ==> u.subs[j] == f.subs[j]);
    if WfTop(f) { FindSet(f.subs, i, h, ""); }
  }

  lemma {:induction false} UpdateAt(f: Folder, p: seq<string>, g: Folder)
    requires FolderAt(f, p).Some? && Wf(g) && g.full == FolderAt(f, p).value.full
    requires (WfTop(f) && p != []) || Wf(f)
    ensures FolderAt(Update(f, p, g), p) == Some(g)
    ensures (WfTop(f) && p != [] ==> WfTop(Update(f, p, g))) && (Wf(f) ==> Wf(Update(f, p, g)))
    ensures Update(f, p, g).full == f.full
    decreases |p|
  {
    if p != [] {
      if Wf(f) { StrictDistinct(f.subs); }
      var i := IndexOf(f.subs, p[0]);
      var c := f.subs[i].item;
      assert Wf(c);
      UpdateAt(c, p[1..], g);
      FindSet(f.subs, i, Update(c, p[1..], g), p[0]);
      ChildWf(f, i, Update(c, p[1..], g));
    }
  }

  /** Giving a folder another child does not move the folders that were there. */
  lemma {:induction false} FolderStays(f: Folder, p: seq<string>, g: Folder, c: string)
    requires FolderAt(f, p).Some? && Find(g.subs, c).Some?
    requires FolderAt(Update(f, p, g), p) == Some(g)
    ensures FolderAt(Update(f, p, g), p + [c]) == Find(g.subs, c)
  {
    FolderAtSnoc(Update(f, p, g), p, c);
  }

  lemma {:induction false} FolderAtSnoc(f: Folder, p: seq<string>, c: string)
    requires FolderAt(f, p).Some?
    ensures FolderAt(f, p + [c]) == Find(FolderAt(f, p).value.subs, c)
    decreases |p|
  {
    if p == [] {
      assert p + [c] == [c];
      assert [c][1..] == [];
    } else {
      assert (p + [c])[1..] == p[1..] + [c];
      FolderAtSnoc(Find(f.subs, p[0]).value, p[1..], c);
    }
  }

  ghost predicate HoldsAt(f: Folder, log: seq<Event>, q: seq<string>) {
    SourcesAt(f, q) == Times(log, q) && DirsAt(f, q) == Dirs(log, q)
  }

  /** The tree holds what the log says. */
  ghost predicate Shows(f: Folder, log: seq<Event>) {
    forall q :: HoldsAt(f, log, q)
  }

  lemma ShowsEqual(f: Folder, g: Folder, log: seq<Event>)
    requires Shows(f, log) && Equal(f, g)
    ensures Shows(g, log)
  {
    forall q ensures HoldsAt(g, log, q) {
      assert HoldsAt(f, log, q) && SameAt(f, g, q);
    }
  }

  lemma ShowsMapped(f: Folder, p: seq<string>, g: Folder, log: seq<Event>, src: Sort32, pure: bool, d: Dir)
    requires Shows(f, log) && FolderAt(f, p).Some? && (Wf(f) || WfTop(f))
    requires Merged(FolderAt(f, p).value, g, src, pure, d)
    ensures Shows(Update(f, p, g), log + [Mapped(src, p, d, pure)])
  {
    forall q ensures HoldsAt(Update(f, p, g), log + [Mapped(src, p, d, pure)], q) {
      assert HoldsAt(f, log, q);
      LogSnoc(log, Mapped(src, p, d, pure), q);
      UpdateEffect(f, p, g, q);
      if Under(p, q) {
        FolderPart(f, p, q);
        assert MergedAt(FolderAt(f, p).value, g, src, pure, d, q[|p|..]);
      }
    }
  }

  lemma ShowsErased(f: Folder, g: Folder, log: seq<Event>, src: Sort32)
    requires Shows(f, log) && Erased(f, g, src)
    ensures Shows(g, log + [Erase(src)])
  {
    forall q ensures HoldsAt(g, log + [Erase(src)], q) {
      assert HoldsAt(f, log, q) && ErasedAt(f, g, src, q);
      LogSnoc(log, Erase(src), q);
    }
  }

  lemma ShowsDirAdded(f: Folder, p: seq<string>, log: seq<Event>, src: Sort32, path: string)
    requires Shows(f, log) && FolderAt(f, p).Some? && (Wf(f) || WfTop(f))
    ensures var g := FolderAt(f, p).value;
            Shows(Update(f, p, g.(dirs := g.dirs[src := path])), log + [DirAdded(src, p, path)])
  {
    var h := FolderAt(f, p).value;
    var g := h.(dirs := h.dirs[src := path]);
    forall q ensures HoldsAt(Update(f, p, g), log + [DirAdded(src, p, path)], q) {
      assert HoldsAt(f, log, q);
      LogSnoc(log, DirAdded(src, p, path), q);
      UpdateEffect(f, p, g, q);
      if Under(p, q) {
        FolderPart(f, p, q);
        if |q| > |p| {
          assert DirsAt(g, q[|p|..]) == DirsAt(h, q[|p|..]) && SourcesAt(g, q[|p|..]) == SourcesAt(h, q[|p|..]);
        }
      }
      assert SamePath(p, q) <==> Under(p, q) && |p| == |q| by { assert q[..|q|] == q; }
    }
  }

  lemma ShowsWritten(f: Folder, p: seq<string>, g: Folder, log: seq<Event>, src: Sort32, pure: bool, c: string,
      time: Time)
    requires Shows(f, log) && FolderAt(f, p).Some? && (Wf(f) || WfTop(f))
    requires Entered(FolderAt(f, p).value, g, src, pure, FileItem(c, time))
    ensures Shows(Update(f, p, g), log + [Written(src, p + [c], time, pure)])
  {
    var e := Written(src, p + [c], time, pure);
    forall q ensures HoldsAt(Update(f, p, g), log + [e], q) {
      assert HoldsAt(f, log, q);
      LogSnoc(log, e, q);
      UpdateEffect(f, p, g, q);
      if Under(p, q) {
        FolderPart(f, p, q);
        assert EnteredAt(FolderAt(f, p).value, g, src, pure, FileItem(c, time), q[|p|..]);
      }
      SamePathSnoc(p, c, q);
    }
  }

  lemma SamePathSnoc(p: seq<string>, c: string, q: seq<string>)
    ensures SamePath(p + [c], q) <==> Under(p, q) && |q| == |p| + 1 && SameName(c, q[|p|])
  {
    if |q| == |p| + 1 {
      assert forall i :: 0 <= i < |p| ==> (p + [c])[i] == p[i] && q[..|p|][i] == q[i];
      if SamePath(p + [c], q) { assert SameName((p + [c])[|p|], q[|p|]); }
    }
  }
}
