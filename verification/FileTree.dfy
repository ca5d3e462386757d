/** The merged tree of CFileMap: folders that remember under which directory name each
    source has them, files that remember which sources have them. */
module FileTree {
  import opened FileNames
  import opened Options

  /** The packed 32-bit sort number that orders, and here identifies, a source. */
  type Sort32 = n: nat | n < 0x1_0000_0000
  type Time = int

  datatype Folder = Folder(
    full: string,
    dirs: map<Sort32, string>,
    subs: seq<Named<Folder>>,
    files: seq<Named<map<Sort32, Time>>>)

  function NewFolder(full: string): Folder {
    Folder(full, map[], [], [])
  }

  // ----- What the tree holds, by path -----

  /** The sources that have the file at a path, with their write times. */
  ghost function SourcesAt(f: Folder, p: seq<string>): map<Sort32, Time>
    decreases |p|
  {
    if p == [] then map[]
    else if |p| == 1 then (match Find(f.files, p[0]) { case None => map[] case Some(m) => m })
    else match Find(f.subs, p[0]) { case None => map[] case Some(g) => SourcesAt(g, p[1..]) }
  }

  /** The sources that have the folder at a path, with their names for it. */
  ghost function DirsAt(f: Folder, p: seq<string>): map<Sort32, string>
    decreases |p|
  {
    if p == [] then f.dirs
    else match Find(f.subs, p[0]) { case None => map[] case Some(g) => DirsAt(g, p[1..]) }
  }

  function FolderAt(f: Folder, p: seq<string>): Option<Folder>
    decreases |p|
  {
    if p == [] then Some(f)
    else match Find(f.subs, p[0]) { case None => None case Some(g) => FolderAt(g, p[1..]) }
  }

  /** Child lists are sorted, and full names extend the parent's by one part. */
  ghost predicate Wf(f: Folder) {
    && Strict(f.subs) && Strict(f.files)
    && forall i :: 0 <= i < |f.subs| ==> Wf(f.subs[i].item) && |f.subs[i].item.full| == |f.full| + 1 + |f.subs[i].name|
  }

  /** The list of ToCs, held as the children of a nameless folder: not sorted, and the
      full name of each is its name. */
  ghost predicate WfTop(f: Folder) {
    && Distinct(f.subs) && f.files == [] && f.dirs == map[]
    && forall i :: 0 <= i < |f.subs| ==> Wf(f.subs[i].item) && |f.subs[i].item.full| == |f.subs[i].name|
  }

  // ----- Replacing a folder in place -----

  function Update(f: Folder, p: seq<string>, g: Folder): Folder
    requires FolderAt(f, p).Some?
    decreases |p|
  {
    if p == [] then g
    else
      var i := IndexOf(f.subs, p[0]);
      f.(subs := f.subs[i := Named(f.subs[i].name, Update(f.subs[i].item, p[1..], g))])
  }

  ghost predicate SamePath(p: seq<string>, q: seq<string>) {
    |p| == |q| && forall i :: 0 <= i < |p| ==> SameName(p[i], q[i])
  }

  /** Path `q` leads into the folder at `p`. */
  ghost predicate Under(p: seq<string>, q: seq<string>) {
    |p| <= |q| && SamePath(p, q[..|p|])
  }

  lemma ChildReplaced(f: Folder, i: nat, h: Folder, q: seq<string>)
    requires Distinct(f.subs) && i < |f.subs|
    ensures var u := f.(subs := f.subs[i := Named(f.subs[i].name, h)]);
      if q != [] && SameName(f.subs[i].name, q[0]) then
        && SourcesAt(u, q) == (if |q| == 1 then SourcesAt(f, q) else SourcesAt(h, q[1..]))
        && DirsAt(u, q) == DirsAt(h, q[1..]) && Find(f.subs, q[0]) == Some(f.subs[i].item)
      else SourcesAt(u, q) == SourcesAt(f, q) && DirsAt(u, q) == DirsAt(f, q)
  {
    if q != [] {
      FindSet(f.subs, i, h, q[0]);
      if SameName(f.subs[i].name, q[0]) { FindIs(f.subs, i, q[0]); }
    }
  }

  lemma {:induction false} UpdateEffect(f: Folder, p: seq<string>, g: Folder, q: seq<string>)
    requires FolderAt(f, p).Some? && (Wf(f) || WfTop(f))
    ensures SourcesAt(Update(f, p, g), q)
        == if Under(p, q) && |p| < |q| then SourcesAt(g, q[|p|..]) else SourcesAt(f, q)
    ensures DirsAt(Update(f, p, g), q) == if Under(p, q) then DirsAt(g, q[|p|..]) else DirsAt(f, q)
    decreases |p|
  {
    if p == [] {
      assert q[0..] == q;
    } else {
      if Wf(f) { StrictDistinct(f.subs); }
      var i := IndexOf(f.subs, p[0]);
      ChildReplaced(f, i, Update(f.subs[i].item, p[1..], g), q);
      if q != [] && SameName(p[0], q[0]) {
        UpdateEffect(f.subs[i].item, p[1..], g, q[1..]);
        UnderTail(p, q);
        if Under(p, q) { assert q[1..][|p[1..]|..] == q[|p|..]; }
      } else {
        NotUnder(p, q);
      }
    }
  }

  lemma NotUnder(p: seq<string>, q: seq<string>)
    requires p != [] && (q == [] || !SameName(p[0], q[0]))
    ensures !Under(p, q)
  {
    if |p| <= |q| { assert q[..|p|][0] == q[0]; }
  }

  lemma UnderTail(p: seq<string>, q: seq<string>)
    requires p != [] && q != [] && SameName(p[0], q[0])
    ensures Under(p, q) <==> Under(p[1..], q[1..])
  {
    if |p| <= |q| {
      assert q[1..][..|p[1..]|] == q[..|p|][1..];
      if Under(p[1..], q[1..]) {
        forall i | 0 <= i < |p| ensures SameName(p[i], q[..|p|][i]) {
          if i > 0 { assert p[1..][i - 1] == p[i] && q[..|p|][1..][i - 1] == q[..|p|][i]; }
        }
      }
    }
  }

  lemma {:induction false} FolderPart(f: Folder, p: seq<string>, q: seq<string>)
    requires FolderAt(f, p).Some? && Under(p, q)
    ensures |q| > |p| ==> SourcesAt(f, q) == SourcesAt(FolderAt(f, p).value, q[|p|..])
    ensures DirsAt(f, q) == DirsAt(FolderAt(f, p).value, q[|p|..])
    decreases |p|
  {
    if p == [] {
      assert q[0..] == q;
    } else {
      assert SameName(p[0], q[..|p|][0]);
      SameIndex(f.subs, p[0], q[0]);
      UnderTail(p, q);
      FolderPart(Find(f.subs, p[0]).value, p[1..], q[1..]);
      assert q[1..][|p[1..]|..] == q[|p|..];
    }
  }

  lemma {:induction false} SameIndex<T>(s: seq<Named<T>>, c: string, d: string)
    requires SameName(c, d)
    ensures IndexOf(s, c) == IndexOf(s, d) && Find(s, c) == Find(s, d)
  {
    if s != [] { SameIndex(s[1..], c, d); }
  }

  ghost predicate SameAt(f: Folder, g: Folder, q: seq<string>) {
    SourcesAt(g, q) == SourcesAt(f, q) && DirsAt(g, q) == DirsAt(f, q)
  }

  /** The two trees hold the same everywhere. */
  ghost predicate Equal(f: Folder, g: Folder) {
    forall q :: SameAt(f, g, q)
  }

  /** Replacing a folder by one that holds the same changes nothing anywhere. */
  lemma UpdateQuiet(f: Folder, p: seq<string>, g: Folder)
    requires FolderAt(f, p).Some? && (Wf(f) || WfTop(f)) && Equal(FolderAt(f, p).value, g)
    ensures Equal(f, Update(f, p, g))
  {
    forall q ensures SameAt(f, Update(f, p, g), q) {
      UpdateEffect(f, p, g, q);
      if Under(p, q) {
        FolderPart(f, p, q);
        assert SameAt(FolderAt(f, p).value, g, q[|p|..]);
      }
    }
  }

  /** What a tree holds below a name depends on the entries of that name alone. */
  lemma SameByFinds(f: Folder, g: Folder, q: seq<string>)
    requires f.dirs == g.dirs
    requires q != [] ==> Find(g.files, q[0]) == Find(f.files, q[0]) && Find(g.subs, q[0]) == Find(f.subs, q[0])
    ensures SameAt(f, g, q)
  {
  }

  // ----- Directories to map in -----

  /** A directory as its iterator delivers it: its name in the store, then its entries. */
  datatype Dir = Dir(path: string, items: seq<Item>)
  datatype Item = FileItem(name: string, time: Time) | DirItem(name: string, dir: Dir)

  /** The write time a listing gives for a file; the last entry of that name counts. */
  ghost function FileIn(items: seq<Item>, c: string): Option<Time> {
    if items == [] then None
    else
      var x := items[|items| - 1];
      if x.FileItem? && SameName(x.name, c) then Some(x.time) else FileIn(items[..|items| - 1], c)
  }

  ghost function DirIn(items: seq<Item>, c: string): (d: Option<Dir>)
    ensures d.Some? ==> exists i :: 0 <= i < |items| && items[i].DirItem? && items[i].dir == d.value
  {
    if items == [] then None
    else
      var x := items[|items| - 1];
      if x.DirItem? && SameName(x.name, c) then Some(x.dir) else DirIn(items[..|items| - 1], c)
  }

  /** Within a directory no two directories have the same name. */
  ghost predicate WfDir(d: Dir) {
    forall i :: 0 <= i < |d.items| && d.items[i].DirItem? ==>
        DirIn(d.items[..i], d.items[i].name) == None && WfDir(d.items[i].dir)
  }

  ghost function TimeAt(d: Dir, q: seq<string>): Option<Time>
    decreases |q|
  {
    if q == [] then None
    else if |q| == 1 then FileIn(d.items, q[0])
    else match DirIn(d.items, q[0]) { case None => None case Some(e) => TimeAt(e, q[1..]) }
  }

  ghost function PathAt(d: Dir, q: seq<string>): Option<string>
    decreases |q|
  {
    if q == [] then Some(d.path)
    else match DirIn(d.items, q[0]) { case None => None case Some(e) => PathAt(e, q[1..]) }
  }

  // ----- _RawMap -----

  ghost function WithTime(m: map<Sort32, Time>, src: Sort32, pure: bool, t: Option<Time>): map<Sort32, Time> {
    if pure || t.None? then m else m[src := t.value]
  }

  ghost function WithDir(m: map<Sort32, string>, src: Sort32, s: Option<string>): map<Sort32, string> {
    if s.None? || src in m then m else m[src := s.value]
  }

  /** `Wf` but for the order of the children. */
  ghost predicate Unsorted(f: Folder) {
    && Distinct(f.subs) && Distinct(f.files)
    && forall i :: 0 <= i < |f.subs| ==> Wf(f.subs[i].item) && |f.subs[i].item.full| == |f.full| + 1 + |f.subs[i].name|
  }

  ghost predicate MergedAt(f: Folder, g: Folder, src: Sort32, pure: bool, d: Dir, q: seq<string>) {
    && SourcesAt(g, q) == WithTime(SourcesAt(f, q), src, pure, TimeAt(d, q))
    && DirsAt(g, q) == WithDir(DirsAt(f, q), src, PathAt(d, q))
  }

  /** `g` is `f` with directory `d` of source `src` mapped in. */
  ghost predicate Merged(f: Folder, g: Folder, src: Sort32, pure: bool, d: Dir) {
    g.full == f.full && forall q :: MergedAt(f, g, src, pure, d, q)
  }

  /** One more entry `x` of a directory, at path `q`. */
  ghost predicate EnteredAt(f: Folder, g: Folder, src: Sort32, pure: bool, x: Item, q: seq<string>) {
    if q == [] || !SameName(x.name, q[0]) then SameAt(f, g, q)
    else if x.FileItem? then
      && SourcesAt(g, q) == (if |q| == 1 then WithTime(SourcesAt(f, q), src, pure, Some(x.time)) else SourcesAt(f, q))
      && DirsAt(g, q) == DirsAt(f, q)
    else
      && SourcesAt(g, q) == (if |q| == 1 then SourcesAt(f, q)
          else WithTime(SourcesAt(f, q), src, pure, TimeAt(x.dir, q[1..])))
      && DirsAt(g, q) == WithDir(DirsAt(f, q), src, PathAt(x.dir, q[1..]))
  }

  ghost predicate Entered(f: Folder, g: Folder, src: Sort32, pure: bool, x: Item) {
    g.full == f.full && forall q :: EnteredAt(f, g, src, pure, x, q)
  }

  function FileOf(f: Folder, c: string): map<Sort32, Time> {
    match Find(f.files, c) case None => map[] case Some(m) => m
  }

  method MapFile(f: Folder, name: string, src: Sort32, pure: bool, time: Time) returns (g: Folder)
    requires Unsorted(f)
    ensures Unsorted(g) && g.subs == f.subs && Entered(f, g, src, pure, FileItem(name, time))
  {
    if pure {
      g := f;
      return;
    }
    var i := LinearSearch(f.files, name);
    var files := f.files;
    if i == |files| { files := files + [Named(name, map[])]; }
    var m := files[i].item[src := time];
    g := f.(files := files[i := Named(files[i].name, m)]);
    forall c
      ensures Distinct(g.files)
      ensures Find(g.files, c) == if SameName(name, c) then Some(FileOf(f, c)[src := time]) else Find(f.files, c)
    {
      if i == |f.files| { FindSnoc(f.files, Named(name, map[]), c); }
      FindSet(files, i, m, c);
      if SameName(name, c) { SameIndex(f.files, name, c); }
    }
    FileEntered(f, g, src, name, time);
  }

  /** A folder in which one name finds the file with a source more, and every other what it
      found. */
  lemma FileEntered(f: Folder, g: Folder, src: Sort32, name: string, time: Time)
    requires g.dirs == f.dirs && g.subs == f.subs && g.full == f.full
    requires forall c ::
      Find(g.files, c) == if SameName(name, c) then Some(FileOf(f, c)[src := time]) else Find(f.files, c)
    ensures Entered(f, g, src, false, FileItem(name, time))
  {
    forall q ensures EnteredAt(f, g, src, false, FileItem(name, time), q) {
      if q == [] || !SameName(name, q[0]) { SameByFinds(f, g, q); }
    }
  }

  lemma SortedFolder(f: Folder)
    requires Unsorted(f)
    ensures Wf(f.(subs := Sort(f.subs), files := Sort(f.files)))
    ensures Equal(f, f.(subs := Sort(f.subs), files := Sort(f.files)))
  {
    SortKeeps(f.subs);
    SortKeeps(f.files);
    var g := f.(subs := Sort(f.subs), files := Sort(f.files));
    forall i | 0 <= i < |g.subs|
      ensures Wf(g.subs[i].item) && |g.subs[i].item.full| == |g.full| + 1 + |g.subs[i].name|
    {
      assert g.subs[i] in multiset(f.subs);
      var j :| 0 <= j < |f.subs| && f.subs[j] == g.subs[i];
    }
    forall q ensures SameAt(f, g, q) {
      SameByFinds(f, g, q);
    }
  }

  lemma EmptyFolder(full: string, q: seq<string>)
    ensures Wf(NewFolder(full)) && SourcesAt(NewFolder(full), q) == map[] && DirsAt(NewFolder(full), q) == map[]
  {
  }

  lemma MergedStart(f: Folder, src: Sort32, pure: bool, path: string)
    ensures var g := if src in f.dirs then f else f.(dirs := f.dirs[src := path]);
            Merged(f, g, src, pure, Dir(path, []))
  {
    var g := if src in f.dirs then f else f.(dirs := f.dirs[src := path]);
    forall q ensures MergedAt(f, g, src, pure, Dir(path, []), q) {
    }
  }

  /** The last entry of a directory decides for its name, the others for other names. */
  lemma LastEntry(part: Dir, x: Item, q: seq<string>)
    requires x.DirItem? ==> DirIn(part.items, x.name) == None
    ensures var more := Dir(part.path, part.items + [x]);
      && TimeAt(more, q) == (
           if q == [] || !SameName(x.name, q[0]) then TimeAt(part, q)
           else if x.FileItem? then (if |q| == 1 then Some(x.time) else TimeAt(part, q))
           else if |q| == 1 then TimeAt(part, q) else TimeAt(x.dir, q[1..]))
      && PathAt(more, q) == (
           if q == [] || x.FileItem? || !SameName(x.name, q[0]) then PathAt(part, q) else PathAt(x.dir, q[1..]))
      && (q != [] && x.DirItem? && SameName(x.name, q[0]) ==> PathAt(part, q) == None && (|q| > 1 ==>
          TimeAt(part, q) == None))
  {
    var more := Dir(part.path, part.items + [x]);
    assert more.items[..|more.items| - 1] == part.items;
    if q != [] && x.DirItem? && SameName(x.name, q[0]) { SameDirIn(part.items, x.name, q[0]); }
  }

  lemma {:induction false} SameDirIn(items: seq<Item>, c: string, d: string)
    requires SameName(c, d)
    ensures DirIn(items, c) == DirIn(items, d)
  {
    if items != [] { SameDirIn(items[..|items| - 1], c, d); }
  }

  lemma MergedStep(f: Folder, g: Folder, h: Folder, src: Sort32, pure: bool, part: Dir, x: Item)
    requires Merged(f, g, src, pure, part) && Entered(g, h, src, pure, x)
    requires x.DirItem? ==> DirIn(part.items, x.name) == None
    ensures Merged(f, h, src, pure, Dir(part.path, part.items + [x]))
  {
    forall q ensures MergedAt(f, h, src, pure, Dir(part.path, part.items + [x]), q) {
      assert MergedAt(f, g, src, pure, part, q) && EnteredAt(g, h, src, pure, x, q);
      LastEntry(part, x, q);
    }
  }

  lemma MergedThenEqual(f: Folder, g: Folder, h: Folder, src: Sort32, pure: bool, d: Dir)
    requires Merged(f, g, src, pure, d) && Equal(g, h) && h.full == g.full
    ensures Merged(f, h, src, pure, d)
  {
    forall q ensures MergedAt(f, h, src, pure, d, q) {
      assert MergedAt(f, g, src, pure, d, q) && SameAt(g, h, q);
    }
  }

  /** `_RawMap`: merges a directory of one source into a folder. */
  method RawMap(src: Sort32, pure: bool, d: Dir, f: Folder) returns (g: Folder)
    requires Wf(f) && WfDir(d)
    ensures Wf(g) && Merged(f, g, src, pure, d)
    decreases d, 1
  {
    StrictDistinct(f.subs);
    StrictDistinct(f.files);
    g := f;
    if src !in g.dirs { g := g.(dirs := g.dirs[src := d.path]); }
    MergedStart(f, src, pure, d.path);
    var k := 0;
    assert d.items[..0] == [];
    while k < |d.items|
      invariant 0 <= k <= |d.items|
      invariant Unsorted(g) && Merged(f, g, src, pure, Dir(d.path, d.items[..k]))
    {
      ghost var g0 := g;
      var x := d.items[k];
      match x {
        case FileItem(name, time) => g := MapFile(g, name, src, pure, time);
        case DirItem(name, e) => g := MapDir(g, name, src, pure, e);
      }
      MergedStep(f, g0, g, src, pure, Dir(d.path, d.items[..k]), x);
      assert d.items[..k + 1] == d.items[..k] + [x];
      k := k + 1;
    }
    assert d.items[..k] == d.items;
    SortedFolder(g);
    MergedThenEqual(f, g, g.(subs := Sort(g.subs), files := Sort(g.files)), src, pure, d);
    g := g.(subs := Sort(g.subs), files := Sort(g.files));
  }

  method MapDir(f: Folder, name: string, src: Sort32, pure: bool, e: Dir) returns (g: Folder)
    requires Unsorted(f) && WfDir(e)
    ensures Unsorted(g) && Entered(f, g, src, pure, DirItem(name, e))
    decreases e, 2
  {
    var i := LinearSearch(f.subs, name);
    var subs := f.subs;
    if i == |subs| { subs := subs + [Named(name, NewFolder(f.full + "\\" + name))]; }
    EmptyFolder(f.full + "\\" + name, []);
    var h := RawMap(src, pure, e, subs[i].item);
    g := f.(subs := subs[i := Named(subs[i].name, h)]);
    forall c ensures Distinct(g.subs) && Find(g.subs, c) == if SameName(name, c) then Some(h) else Find(f.subs, c) {
      if i == |f.subs| { FindSnoc(f.subs, Named(name, NewFolder(f.full + "\\" + name)), c); }
      FindSet(subs, i, h, c);
    }
    forall q ensures EnteredAt(f, g, src, pure, DirItem(name, e), q) {
      if q == [] || !SameName(name, q[0]) {
        SameByFinds(f, g, q);
      } else {
        SameIndex(f.subs, name, q[0]);
        EmptyFolder(f.full + "\\" + name, q[1..]);
        assert MergedAt(subs[i].item, h, src, pure, e, q[1..]);
      }
    }
  }

  // ----- _EraseSourceFromFolder -----

  ghost predicate ErasedAt(f: Folder, g: Folder, src: Sort32, q: seq<string>) {
    SourcesAt(g, q) == SourcesAt(f, q) - {src} && DirsAt(g, q) == DirsAt(f, q) - {src}
  }

  ghost predicate Erased(f: Folder, g: Folder, src: Sort32) {
    g.full == f.full && forall q :: ErasedAt(f, g, src, q)
  }

  lemma {:induction false} SameNames<S, T>(s: seq<Named<S>>, t: seq<Named<T>>, c: string)
    requires |s| == |t| && forall i :: 0 <= i < |s| ==> s[i].name == t[i].name
    ensures IndexOf(s, c) == IndexOf(t, c)
  {
    if s != [] { SameNames(s[1..], t[1..], c); }
  }

  ghost predicate ErasedLevel(f: Folder, g: Folder, src: Sort32, subs: nat, files: nat)
    requires subs <= |f.subs| && files <= |f.files|
  {
    && g.full == f.full && g.dirs == f.dirs - {src}
    && |g.subs| == |f.subs| && |g.files| == |f.files|
    && (forall i :: 0 <= i < |f.subs| ==> g.subs[i].name == f.subs[i].name)
    && (forall i :: 0 <= i < |f.files| ==> g.files[i].name == f.files[i].name)
    && (forall i :: 0 <= i < subs ==> Wf(g.subs[i].item) && Erased(f.subs[i].item, g.subs[i].item, src))
    && (forall i :: subs <= i < |f.subs| ==> g.subs[i] == f.subs[i])
    && (forall i :: 0 <= i < files ==> g.files[i].item == f.files[i].item - {src})
    && (forall i :: files <= i < |f.files| ==> g.files[i] == f.files[i])
  }

  lemma ErasedLevelAll(f: Folder, g: Folder, src: Sort32)
    requires ErasedLevel(f, g, src, |f.subs|, |f.files|)
    ensures Erased(f, g, src) && (Wf(f) ==> Wf(g))
  {
    forall q ensures ErasedAt(f, g, src, q) {
      if q != [] {
        SameNames(f.subs, g.subs, q[0]);
        SameNames(f.files, g.files, q[0]);
        var i := IndexOf(f.subs, q[0]);
        if i < |f.subs| { assert ErasedAt(f.subs[i].item, g.subs[i].item, src, q[1..]); }
      }
    }
  }

  /** `_EraseSourceFromFolder`: forgets a source in a folder, its sub-folders and files. */
  method EraseSourceFromFolder(src: Sort32, f: Folder) returns (g: Folder)
    requires Wf(f)
    ensures Wf(g) && Erased(f, g, src)
    decreases f
  {
    g := f.(dirs := f.dirs - {src});
    var i := 0;
    while i < |f.subs|
      invariant 0 <= i <= |f.subs| && ErasedLevel(f, g, src, i, 0)
    {
      var h := EraseSourceFromFolder(src, f.subs[i].item);
      g := g.(subs := g.subs[i := Named(f.subs[i].name, h)]);
      i := i + 1;
    }
    i := 0;
    while i < |f.files|
      invariant 0 <= i <= |f.files| && ErasedLevel(f, g, src, |f.subs|, i)
    {
      g := g.(files := g.files[i := Named(f.files[i].name, f.files[i].item - {src})]);
      i := i + 1;
    }
    ErasedLevelAll(f, g, src);
  }
}
