/** CDoWFileView, the older overlay: the source registered first wins.  It resolves every
    path as CFileMap does when sources are mapped in the order of their sort numbers. */
module FileView {
  import opened FileNames
  import opened FileTree
  import opened FileMap
  import opened Options

  /** A virtual folder: sub-folders, and files with the number of their source. */
  datatype View = View(subs: seq<Named<View>>, files: seq<Named<nat>>)

  ghost function OwnerAt(v: View, q: seq<string>): Option<nat>
    decreases |q|
  {
    if q == [] then None
    else if |q| == 1 then Find(v.files, q[0])
    else match Find(v.subs, q[0]) { case None => None case Some(w) => OwnerAt(w, q[1..]) }
  }

  ghost predicate WfView(v: View) {
    && Strict(v.subs) && Strict(v.files)
    && forall i :: 0 <= i < |v.subs| ==> WfView(v.subs[i].item)
  }

  ghost predicate UnsortedView(v: View) {
    && Distinct(v.subs) && Distinct(v.files)
    && forall i :: 0 <= i < |v.subs| ==> WfView(v.subs[i].item)
  }

  /** The owner after source `id` with listing `t` is mapped in: an earlier owner stays. */
  ghost function Claim(o: Option<nat>, id: nat, t: Option<Time>): Option<nat> {
    if o.Some? || t.None? then o else Some(id)
  }

  ghost predicate ClaimedAt(v: View, w: View, id: nat, d: Dir, q: seq<string>) {
    OwnerAt(w, q) == Claim(OwnerAt(v, q), id, TimeAt(d, q))
  }

  ghost predicate Claimed(v: View, w: View, id: nat, d: Dir) {
    forall q :: ClaimedAt(v, w, id, d, q)
  }

  /** One more entry `x` of a directory, at path `q`. */
  ghost predicate ListedAt(v: View, w: View, id: nat, x: Item, q: seq<string>) {
    OwnerAt(w, q) ==
      if q == [] || !SameName(x.name, q[0]) then OwnerAt(v, q)
      else if x.FileItem? then (if |q| == 1 then Claim(OwnerAt(v, q), id, Some(x.time)) else OwnerAt(v, q))
      else if |q| == 1 then OwnerAt(v, q) else Claim(OwnerAt(v, q), id, TimeAt(x.dir, q[1..]))
  }

  lemma ClaimedStep(u: View, v: View, w: View, id: nat, part: Dir, x: Item)
    requires Claimed(u, v, id, part) && forall q :: ListedAt(v, w, id, x, q)
    requires x.DirItem? ==> DirIn(part.items, x.name) == None
    ensures Claimed(u, w, id, Dir(part.path, part.items + [x]))
  {
    forall q ensures ClaimedAt(u, w, id, Dir(part.path, part.items + [x]), q) {
      assert ClaimedAt(u, v, id, part, q) && ListedAt(v, w, id, x, q);
      LastEntry(part, x, q);
    }
  }

  method ClaimFile(v: View, name: string, id: nat, time: Time) returns (w: View)
    requires UnsortedView(v)
    ensures UnsortedView(w) && forall q :: ListedAt(v, w, id, FileItem(name, time), q)
  {
    var i := LinearSearch(v.files, name);
    w := v;
    if i == |v.files| { w := v.(files := v.files + [Named(name, id)]); }
    forall c
      ensures Distinct(w.files)
      ensures Find(w.files, c) == if SameName(name, c) && Find(v.files, name).None? then Some(id) else Find(v.files, c)
    {
      if i == |v.files| { FindSnoc(v.files, Named(name, id), c); }
    }
    forall q ensures ListedAt(v, w, id, FileItem(name, time), q) {
      if q != [] && SameName(name, q[0]) { SameIndex(v.files, name, q[0]); }
    }
  }

  ghost predicate SameOwner(v: View, w: View, q: seq<string>) {
    OwnerAt(w, q) == OwnerAt(v, q)
  }

  lemma OwnerByFinds(v: View, w: View, q: seq<string>)
    requires q != [] ==> Find(w.files, q[0]) == Find(v.files, q[0]) && Find(w.subs, q[0]) == Find(v.subs, q[0])
    ensures SameOwner(v, w, q)
  {
  }

  lemma SortedView(v: View)
    requires UnsortedView(v)
    ensures WfView(View(Sort(v.subs), Sort(v.files)))
    ensures forall q :: SameOwner(v, View(Sort(v.subs), Sort(v.files)), q)
  {
    SortKeeps(v.subs);
    SortKeeps(v.files);
    var w := View(Sort(v.subs), Sort(v.files));
    forall i | 0 <= i < |w.subs| ensures WfView(w.subs[i].item) {
      assert w.subs[i] in multiset(v.subs);
      var j :| 0 <= j < |v.subs| && v.subs[j] == w.subs[i];
    }
    forall q ensures SameOwner(v, w, q) {
      OwnerByFinds(v, w, q);
    }
  }

  /** `_RawMapFolder`: merges a directory; a file that is there already keeps its source. */
  method RawMapFolder(id: nat, d: Dir, v: View) returns (w: View)
    requires WfView(v) && WfDir(d)
    ensures WfView(w) && Claimed(v, w, id, d)
    decreases d, 1
  {
    StrictDistinct(v.subs);
    StrictDistinct(v.files);
    w := v;
    var k := 0;
    assert d.items[..0] == [];
    assert Claimed(v, w, id, Dir(d.path, d.items[..k]));
    while k < |d.items|
      invariant 0 <= k <= |d.items|
      invariant UnsortedView(w) && Claimed(v, w, id, Dir(d.path, d.items[..k]))
    {
      ghost var w0 := w;
      var x := d.items[k];
      match x {
        case FileItem(name, time) => w := ClaimFile(w, name, id, time);
        case DirItem(name, e) => w := ClaimDir(w, name, id, e);
      }
      ClaimedStep(v, w0, w, id, Dir(d.path, d.items[..k]), x);
      assert d.items[..k + 1] == d.items[..k] + [x];
      k := k + 1;
    }
    assert d.items[..k] == d.items;
    SortedView(w);
    ghost var u := w;
    w := View(Sort(w.subs), Sort(w.files));
    forall q ensures ClaimedAt(v, w, id, d, q) { assert ClaimedAt(v, u, id, d, q) && SameOwner(u, w, q); }
  }

  method ClaimDir(v: View, name: string, id: nat, e: Dir) returns (w: View)
    requires UnsortedView(v) && WfDir(e)
    ensures UnsortedView(w) && forall q :: ListedAt(v, w, id, DirItem(name, e), q)
    decreases e, 2
  {
    var i := LinearSearch(v.subs, name);
    var subs := v.subs;
    if i == |subs| { subs := subs + [Named(name, View([], []))]; }
    var h := RawMapFolder(id, e, subs[i].item);
    w := v.(subs := subs[i := Named(subs[i].name, h)]);
    forall c ensures Distinct(w.subs) && Find(w.subs, c) == if SameName(name, c) then Some(h) else Find(v.subs, c) {
      if i == |v.subs| { FindSnoc(v.subs, Named(name, View([], [])), c); }
      FindSet(subs, i, h, c);
    }
    forall q ensures ListedAt(v, w, id, DirItem(name, e), q) {
      if q != [] && SameName(name, q[0]) {
        SameIndex(v.subs, name, q[0]);
        assert ClaimedAt(subs[i].item, h, id, e, q[1..]);
      }
    }
  }

  // ----- The object -----

  /** The first of the listings that has the file at `q`. */
  ghost function FirstWith(ds: seq<Dir>, q: seq<string>): Option<nat> {
    if ds == [] then None else Claim(FirstWith(ds[..|ds| - 1], q), |ds| - 1, TimeAt(ds[|ds| - 1], q))
  }

  class CDoWFileView {
    var root: View
    var count: nat
    ghost var mapped: seq<Dir>

    ghost predicate Valid()
      reads this
    {
      WfView(root) && count == |mapped| && forall q :: OwnerAt(root, q) == FirstWith(mapped, q)
    }

    constructor ()
      ensures Valid() && mapped == []
    {
      root, count, mapped := View([], []), 0, [];
    }

    method AddFileSource(d: Dir)
      requires Valid() && WfDir(d)
      modifies this
      ensures Valid() && mapped == old(mapped) + [d]
    {
      ghost var before := root;
      root := RawMapFolder(count, d, root);
      count := count + 1;
      mapped := mapped + [d];
      forall q ensures OwnerAt(root, q) == FirstWith(mapped, q) {
        assert ClaimedAt(before, root, count - 1, d, q);
        assert mapped[..|mapped| - 1] == old(mapped);
      }
    }

    /** `_FindFile` and the choice of source in `VOpenStream`: binary search on every
        level; nothing when a folder or the file is missing. */
    method VOpenStream(p: seq<string>) returns (r: Option<nat>)
      requires Valid() && p != []
      ensures r == FirstWith(mapped, p)
    {
      var v, i := root, 0;
      while i < |p| - 1
        invariant 0 <= i <= |p| - 1 && WfView(v) && OwnerAt(v, p[i..]) == FirstWith(mapped, p)
      {
        var k := PrefixSearch(v.subs, p[i]);
        assert p[i..][1..] == p[i + 1..];
        if k == |v.subs| { return None; }
        v := v.subs[k].item;
        i := i + 1;
      }
      var k := PrefixSearch(v.files, p[i]);
      r := if k < |v.files| then Some(v.files[k].item) else None;
    }
  }

  // ----- The two overlays agree -----

  /** What `CFileMap` logs when the listings are mapped into one ToC under these numbers. */
  ghost function MapLog(toc: string, ds: seq<Dir>, sorts: seq<Sort32>): seq<Event>
    requires |ds| == |sorts|
  {
    if ds == [] then []
    else MapLog(toc, ds[..|ds| - 1], sorts[..|ds| - 1]) + [Mapped(sorts[|ds| - 1], [toc], ds[|ds| - 1], false)]
  }

  ghost predicate MapsAs(ds: seq<Dir>, sorts: seq<Sort32>, i: nat, q: seq<string>, s: Sort32)
    requires |ds| == |sorts|
  {
    i < |ds| && sorts[i] == s && TimeAt(ds[i], q).Some?
  }

  lemma {:induction false} MapLogTimes(toc: string, ds: seq<Dir>, sorts: seq<Sort32>, q: seq<string>, s: Sort32)
    requires |ds| == |sorts| && q != []
    ensures s in Times(MapLog(toc, ds, sorts), [toc] + q) <==> exists i: nat :: MapsAs(ds, sorts, i, q, s)
    decreases |ds|
  {
    if ds != [] {
      var n := |ds| - 1;
      var (es, ts, log) := (ds[..n], sorts[..n], MapLog(toc, ds[..n], sorts[..n]));
      MapLogTimes(toc, es, ts, q, s);
      OneMapped(log, toc, sorts[n], ds[n], q, s);
      assert forall i: nat :: i < n ==> (MapsAs(es, ts, i, q, s) <==> MapsAs(ds, sorts, i, q, s));
      if exists i: nat :: MapsAs(es, ts, i, q, s) {
        var i: nat :| MapsAs(es, ts, i, q, s);
        assert MapsAs(ds, sorts, i, q, s);
      }
      if exists i: nat :: MapsAs(ds, sorts, i, q, s) {
        var i: nat :| MapsAs(ds, sorts, i, q, s);
        assert i == n || MapsAs(es, ts, i, q, s);
      }
      assert MapsAs(ds, sorts, n, q, s) <==> sorts[n] == s && TimeAt(ds[n], q).Some?;
    }
  }

  lemma OneMapped(log: seq<Event>, toc: string, sort: Sort32, d: Dir, q: seq<string>, s: Sort32)
    requires q != []
    ensures s in Times(log + [Mapped(sort, [toc], d, false)], [toc] + q) <==>
        s in Times(log, [toc] + q) || (sort == s && TimeAt(d, q).Some?)
  {
    LogSnoc(log, Mapped(sort, [toc], d, false), [toc] + q);
    assert ([toc] + q)[1..] == q && ([toc] + q)[..1] == [toc];
  }

  lemma {:induction false} FirstWithIs(ds: seq<Dir>, q: seq<string>)
    ensures match FirstWith(ds, q)
      case None => forall i :: 0 <= i < |ds| ==> TimeAt(ds[i], q).None?
      case Some(k) => k < |ds| && TimeAt(ds[k], q).Some? && forall i :: 0 <= i < k ==> TimeAt(ds[i], q).None?
    decreases |ds|
  {
    if ds != [] {
      var n := |ds| - 1;
      FirstWithIs(ds[..n], q);
      assert forall i :: 0 <= i < n ==> ds[..n][i] == ds[i];
    }
  }

  /** A path no listing holds is given by no source. */
  lemma NothingMapped(toc: string, ds: seq<Dir>, sorts: seq<Sort32>, q: seq<string>)
    requires |ds| == |sorts| && q != [] && forall i :: 0 <= i < |ds| ==> TimeAt(ds[i], q).None?
    ensures Times(MapLog(toc, ds, sorts), [toc] + q) == map[]
  {
    var m := Times(MapLog(toc, ds, sorts), [toc] + q);
    forall s: Sort32 ensures s !in m {
      MapLogTimes(toc, ds, sorts, q, s);
      assert forall i: nat :: !MapsAs(ds, sorts, i, q, s);
    }
    assert forall s: Sort32 :: s !in m;
  }

  /** The first listing that holds a path gives it under the least number. */
  lemma FirstMapped(toc: string, ds: seq<Dir>, sorts: seq<Sort32>, q: seq<string>, k: nat)
    requires |ds| == |sorts| && q != [] && forall i, j :: 0 <= i < j < |sorts| ==> sorts[i] < sorts[j]
    requires k < |ds| && TimeAt(ds[k], q).Some? && forall i :: 0 <= i < k ==> TimeAt(ds[i], q).None?
    ensures IsLeast(Times(MapLog(toc, ds, sorts), [toc] + q), sorts[k])
  {
    var m := Times(MapLog(toc, ds, sorts), [toc] + q);
    assert sorts[k] in m by {
      MapLogTimes(toc, ds, sorts, q, sorts[k]);
      assert MapsAs(ds, sorts, k, q, sorts[k]);
    }
    forall s: Sort32 | s in m ensures sorts[k] <= s {
      MapLogTimes(toc, ds, sorts, q, s);
      var i: nat :| MapsAs(ds, sorts, i, q, s);
    }
  }

  /** Mapping the same listings in increasing order of sort number, both overlays open
      every path from the same source, or both find nothing. */
  lemma OverlaysAgree(toc: string, ds: seq<Dir>, sorts: seq<Sort32>, q: seq<string>)
    requires |ds| == |sorts| && q != [] && forall i, j :: 0 <= i < j < |sorts| ==> sorts[i] < sorts[j]
    ensures match FirstWith(ds, q)
      case None => Times(MapLog(toc, ds, sorts), [toc] + q) == map[]
      case Some(k) => k < |ds| && IsLeast(Times(MapLog(toc, ds, sorts), [toc] + q), sorts[k])
  {
    FirstWithIs(ds, q);
    match FirstWith(ds, q)
    case None => NothingMapped(toc, ds, sorts, q);
    case Some(k) => FirstMapped(toc, ds, sorts, q, k);
  }
}
