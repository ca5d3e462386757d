/** Scripts and editors acting on overlay tables: reading, storing and erasing along key
    paths, and attaching new overlays.  Lazy proxies behave like copies. */
module LuaRuns {
  import opened LuaHeap
  import opened LuaStores
  import opened Options

  // ----- Reading changes nothing that lies beneath -----

  /** Beneath the entries of every table of `h` lies in `g` what lay there. */
  ghost predicate SameUnder(h: Heap, g: Heap)
    requires Wf(h) && Wf(g) && |h| <= |g|
  {
    forall u: nat, x, q :: u < |h| && x != [] && DataPath(x) && DataPath(q) ==> Under(g, u, x, q) == Under(h, u, x, q)
  }

  /** Beneath the entries of a new proxy lies what the table it stands for shows. */
  lemma {:induction false} ProxyUnder(h: Heap, t: nat, k: string, v: nat, x: seq<string>, q: seq<string>)
    requires Inherits(h, t, k, v) && x != [] && DataPath(x) && DataPath(q)
    ensures REF in h[t].raw && Wf(Materialise(h, t, k, v))
    ensures Under(Materialise(h, t, k, v), |h|, x, q) == Resolve(h, v, x + q)
  {
    MaterialiseWf(h, t, k, v);
    BareUnder(Materialise(h, t, k, v), |h|, x, q);
    MaterialiseView(h, t, k, v, v, x + q);
  }

  lemma {:induction false} MaterialiseUnder(h: Heap, t: nat, k: string, v: nat, u: nat, x: seq<string>, q: seq<string>)
    requires Inherits(h, t, k, v) && u < |h| && !Reserved(k) && x != [] && DataPath(x) && DataPath(q)
    ensures REF in h[t].raw && Wf(Materialise(h, t, k, v))
    ensures Under(Materialise(h, t, k, v), u, x, q) == Under(h, u, x, q)
    decreases |x|
  {
    MaterialiseWf(h, t, k, v);
    var g := Materialise(h, t, k, v);
    if |x| == 1 {
      assert Linked(h, u) && Linked(g, u);
      if h[u].meta {
        assert ([x[0]] + q)[1..] == q;
        MaterialiseStep(h, t, k, v, ParentOf(h, u), [x[0]] + q);
      }
    } else if x[0] in h[u].raw && h[u].raw[x[0]].Tab? {
      assert Holds(h, u, x[0], h[u].raw[x[0]].ref);
      MaterialiseUnder(h, t, k, v, h[u].raw[x[0]].ref, x[1..], q);
    } else if u == t && x[0] == k {
      assert Holds(g, t, k, |h|);
      ProxyUnder(h, t, k, v, x[1..], q);
      assert (x + q)[1..] == x[1..] + q;
    } else {
      MaterialiseView(h, t, k, v, u, x + q);
    }
  }

  lemma {:induction false} IndexUnder(h: Heap, t: nat, k: string)
    requires Wf(h) && t < |h| && !Reserved(k)
    ensures Wf(Index(h, t, k).0) && SameUnder(h, Index(h, t, k).0)
    decreases t
  {
    IndexTransparent(h, t, k);
    if k !in h[t].raw && h[t].meta {
      var p := ParentOf(h, t);
      IndexUnder(h, p, k);
      IndexTransparent(h, p, k);
      var (h1, v) := Index(h, p, k);
      if v.Tab? {
        assert Holds(h1, p, k, v.ref) && Linked(h1, t) && Lookup(h1, t, k) == Lookup(h1, p, k) == v;
        var g := Materialise(h1, t, k, v.ref);
        forall u: nat, x, q | u < |h| && x != [] && DataPath(x) && DataPath(q)
          ensures Under(g, u, x, q) == Under(h, u, x, q)
        {
          MaterialiseUnder(h1, t, k, v.ref, u, x, q);
        }
      }
    }
  }

  lemma {:induction false} WalkUnder(h: Heap, t: nat, p: seq<string>)
    requires Wf(h) && t < |h| && DataPath(p)
    ensures Wf(Walk(h, t, p).0) && |h| <= |Walk(h, t, p).0| && SameUnder(h, Walk(h, t, p).0)
    decreases |p|
  {
    WalkTransparent(h, t, p);
    if p != [] {
      IndexTransparent(h, t, p[0]);
      IndexUnder(h, t, p[0]);
      var (g, v) := Index(h, t, p[0]);
      if v.Tab? {
        assert Holds(g, t, p[0], v.ref);
        WalkUnder(g, v.ref, p[1..]);
        var k := Walk(g, v.ref, p[1..]).0;
        forall u: nat, x, q | u < |h| && x != [] && DataPath(x) && DataPath(q)
          ensures Under(k, u, x, q) == Under(h, u, x, q)
        {
          assert Under(g, u, x, q) == Under(h, u, x, q);
        }
      }
    }
  }

  // ----- One operation -----

  /** What a script statement or an editor node does to the tree of one table: look at
      a path, store nil or a simple value, store a new `{}`, or store a new overlay. */
  datatype Op =
    | Read(p: seq<string>)
    | Put(p: seq<string>, k: string, v: Value)
    | Create(p: seq<string>, k: string)
    | Attach(p: seq<string>, k: string, fn: string, ref: string)

  datatype Outcome = Got(seen: Seen) | Done | Fail

  ghost predicate OpOk(op: Op) {
    && DataPath(op.p)
    && (op.Put? ==> !op.v.Tab?)
    && (!op.Read? ==> !Reserved(op.k))
    && (op.Attach? ==> op.fn != "")
  }

  predicate Erases(op: Op) {
    op.Put? && op.v == Nil
  }

  /** The operation once the walk along its path has ended at value `w`. */
  function Finish(h: Heap, files: map<string, nat>, w: Value, op: Op): (r: (Heap, Outcome))
    requires w.Tab? ==> w.ref < |h|
  {
    if op.Read? then (h, Got(SeenOf(w)))
    else if !w.Tab? then (h, Fail)
    else
      match op
      case Put(_, k, v) => (SetRaw(h, w.ref, k, v), Done)
      case Create(_, k) => (SetRaw(h + [Table(map[], false, h[w.ref].root)], w.ref, k, Tab(|h|)), Done)
      case Attach(_, k, fn, ref) =>
        var (b, p) := Base(h, files, ref);
        if p.None? then (b, Fail)
        else (SetRaw(b + [Overlay(p.value, ref, fn, h[w.ref].root)], w.ref, k, Tab(|b|)), Done)
  }

  function Do(h: Heap, files: map<string, nat>, t: nat, op: Op): (r: (Heap, Outcome))
    requires Wf(h) && t < |h| && OpOk(op)
  {
    WalkTransparent(h, t, op.p);
    var (g, w) := Walk(h, t, op.p);
    Finish(g, files, w, op)
  }

  // ----- The same operation on copies -----

  /** A table tree copied in full: what is seen at each key path. */
  type Tree = seq<string> -> Seen

  ghost function EmptyTable(): Tree {
    q => if q == [] then Branch else Missing
  }

  ghost function Replace(t: Tree, at: seq<string>, sub: Tree): Tree {
    q => if at <= q then sub(q[|at|..]) else t(q)
  }

  ghost function Simple(v: Value): Tree {
    q => if q == [] then SeenOf(v) else Missing
  }

  /** The tree that a store puts in its place, when the script it names is known. */
  ghost function Stored(bases: map<string, Tree>, op: Op): Option<Tree>
    requires !op.Read?
  {
    match op
    case Put(_, _, v) => Some(Simple(v))
    case Create(_, _) => Some(EmptyTable())
    case Attach(_, _, _, ref) => if ref == "" then Some(EmptyTable())
        else if ref in bases then Some(bases[ref]) else None
  }

  /** The operation on a full copy, where storing nil deletes. */
  ghost function EagerDo(bases: map<string, Tree>, t: Tree, op: Op): (Tree, Outcome) {
    if op.Read? then (t, Got(t(op.p)))
    else if t(op.p) != Branch || Stored(bases, op).None? then (t, Fail)
    else (Replace(t, op.p + [op.k], Stored(bases, op).value), Done)
  }

  /** A copy of its own that still knows its base: what it shows, and for the place of
      every entry the tree that erasing the entry uncovers. */
  datatype Copy = Copy(shown: Tree, under: seq<string> -> Tree)

  /** A new tree comes to stand at a place; beneath its entries lies what it shows. */
  ghost function Place(c: Copy, at: seq<string>, sub: Tree): Copy {
    Copy(Replace(c.shown, at, sub), x => if at < x then (q => sub(x[|at|..] + q)) else c.under(x))
  }

  /** The operation on such a copy, where storing nil uncovers the base. */
  ghost function CopyDo(bases: map<string, Tree>, c: Copy, op: Op): (Copy, Outcome) {
    if op.Read? then (c, Got(c.shown(op.p)))
    else if c.shown(op.p) != Branch || Stored(bases, op).None? then (c, Fail)
    else
      var at := op.p + [op.k];
      (Place(c, at, if Erases(op) then c.under(at) else Stored(bases, op).value), Done)
  }

  ghost predicate Shows(h: Heap, t: nat, e: Tree)
    requires Wf(h) && t < |h|
  {
    forall q :: DataPath(q) ==> Resolve(h, t, q) == e(q)
  }

  /** Table `t` shows what the copy shows, and beneath its entries lies what the copy knows. */
  ghost predicate Matches(h: Heap, t: nat, c: Copy)
    requires Wf(h) && t < |h|
  {
    && Shows(h, t, c.shown)
    && forall x, q :: x != [] && DataPath(x) && DataPath(q) ==> Under(h, t, x, q) == c.under(x)(q)
  }

  ghost function Observed(h: Heap, t: nat): (c: Copy)
    requires Wf(h) && t < |h|
    ensures Matches(h, t, c)
  {
    Copy(q => if DataPath(q) then Resolve(h, t, q) else Missing,
         x => q => if x != [] && DataPath(x) && DataPath(q) then Under(h, t, x, q) else Missing)
  }

  /** The copy of a new overlay of a tree. */
  ghost function CopyOf(e: Tree): Copy {
    Copy(e, x => q => e(x + q))
  }

  lemma {:induction false} BareMatches(h: Heap, t: nat, e: Tree)
    requires Wf(h) && t < |h| && Bare(h, t) && Shows(h, t, e)
    ensures Matches(h, t, CopyOf(e))
  {
    forall x, q | x != [] && DataPath(x) && DataPath(q) ensures Under(h, t, x, q) == CopyOf(e).under(x)(q) {
      BareUnder(h, t, x, q);
    }
  }

  /** Open trees: roots of different trees that nothing inherits from, and loaded
      scripts that lie outside all of them. */
  ghost predicate Session(h: Heap, files: map<string, nat>, roots: seq<nat>) {
    && Wf(h)
    && (forall i :: 0 <= i < |roots| ==> roots[i] < |h| && h[roots[i]].root == roots[i] && LeafTree(h, roots[i]))
    && (forall i, j :: 0 <= i < j < |roots| ==> roots[i] != roots[j])
    && (forall n :: n in files ==> files[n] < |h| && h[files[n]].root !in roots)
  }

  lemma {:induction false} IndexLeaf(h: Heap, t: nat, k: string, r: nat)
    requires Wf(h) && t < |h| && !Reserved(k) && LeafTree(h, r)
    ensures Wf(Index(h, t, k).0) && LeafTree(Index(h, t, k).0, r)
    decreases t
  {
    IndexTransparent(h, t, k);
    if k !in h[t].raw && h[t].meta {
      var p := ParentOf(h, t);
      IndexLeaf(h, p, k, r);
      IndexTransparent(h, p, k);
      var (h1, v) := Index(h, p, k);
      if v.Tab? {
        var g := Materialise(h1, t, k, v.ref);
        assert Holds(h1, p, k, v.ref);
        forall u: nat | u < |g| && g[u].meta ensures g[ParentOf(g, u)].root != r {
          if u < |h1| { assert Linked(h1, u) && ParentOf(g, u) == ParentOf(h1, u); }
        }
      }
    }
  }

  lemma {:induction false} WalkLeaf(h: Heap, t: nat, p: seq<string>, r: nat)
    requires Wf(h) && t < |h| && DataPath(p) && LeafTree(h, r)
    ensures Wf(Walk(h, t, p).0) && LeafTree(Walk(h, t, p).0, r)
    decreases |p|
  {
    if p != [] {
      IndexTransparent(h, t, p[0]);
      IndexLeaf(h, t, p[0], r);
      var (g, v) := Index(h, t, p[0]);
      if v.Tab? {
        assert Holds(g, t, p[0], v.ref);
        WalkLeaf(g, v.ref, p[1..], r);
      }
    }
  }

  /** Tables outside tree `r` show in `g` what they showed in `h`, and so does what lies
      beneath their entries. */
  ghost predicate SameOutside(h: Heap, g: Heap, r: nat)
    requires Wf(h) && Wf(g) && |h| <= |g|
  {
    && (forall u: nat, q :: u < |h| && h[u].root != r && DataPath(q) ==> Resolve(g, u, q) == Resolve(h, u, q))
    && (forall u: nat, x, q :: u < |h| && h[u].root != r && x != [] && DataPath(x) && DataPath(q) ==>
          Under(g, u, x, q) == Under(h, u, x, q))
  }

  /** Storing at the end of a raw path: the tree of `t` changes exactly there, to the value
      stored or, for nil, to what lay beneath. */
  lemma {:induction false} StoreEffect(h: Heap, t: nat, p: seq<string>, w: nat, k: string, v: Value, c: Copy, sub: Tree)
    requires Storable(h, w, k, v) && (v.Tab? ==> Bare(h, v.ref))
    requires t < |h| && DataPath(p) && RawAt(h, t, p) == Some(w) && Matches(h, t, c)
    requires forall q :: DataPath(q) ==> View(h, NowAt(h, w, k, v), q) == sub(q)
    ensures var g := SetRaw(h, w, k, v);
      && Wf(g) && SameOutside(h, g, h[t].root)
      && Matches(g, t, Place(c, p + [k], sub))
      && (forall r :: LeafTree(h, r) ==> LeafTree(g, r))
  {
    SetRawWf(h, w, k, v);
    var g := SetRaw(h, w, k, v);
    StoreOutside(h, w, k, v, h[t].root);
    var d := Place(c, p + [k], sub);
    forall q | DataPath(q) ensures Resolve(g, t, q) == d.shown(q) {
      ViewStored(h, t, p, w, k, v, q);
    }
    forall x, q | x != [] && DataPath(x) && DataPath(q) ensures Under(g, t, x, q) == d.under(x)(q) {
      UnderStored(h, t, p, w, k, v, x, q);
    }
  }

  lemma {:induction false} StoreOutside(h: Heap, w: nat, k: string, v: Value, r: nat)
    requires Storable(h, w, k, v) && h[w].root == r && Wf(SetRaw(h, w, k, v))
    ensures SameOutside(h, SetRaw(h, w, k, v), r)
  {
    var g := SetRaw(h, w, k, v);
    forall u: nat, q | u < |h| && h[u].root != r && DataPath(q) ensures Resolve(g, u, q) == Resolve(h, u, q) {
      ViewAway(h, w, k, v, u, q);
    }
    forall u: nat, x, q | u < |h| && h[u].root != r && x != [] && DataPath(x) && DataPath(q)
      ensures Under(g, u, x, q) == Under(h, u, x, q)
    {
      UnderAway(h, w, k, v, u, x, q);
    }
  }

  ghost predicate BasesShow(h: Heap, files: map<string, nat>, bases: map<string, Tree>)
    requires Wf(h)
  {
    && bases.Keys == files.Keys
    && forall n :: n in files ==> files[n] < |h| && Shows(h, files[n], bases[n])
  }

  ghost function Bases(h: Heap, files: map<string, nat>): (bases: map<string, Tree>)
    requires Wf(h) && forall n :: n in files ==> files[n] < |h|
    ensures BasesShow(h, files, bases)
  {
    map n | n in files :: Observed(h, files[n]).shown
  }

  lemma {:induction false} SessionWalked(h: Heap, files: map<string, nat>, roots: seq<nat>, t: nat, p: seq<string>)
    requires Session(h, files, roots) && t < |h| && DataPath(p)
    ensures Session(Walk(h, t, p).0, files, roots)
  {
    WalkTransparent(h, t, p);
    forall i | 0 <= i < |roots| ensures LeafTree(Walk(h, t, p).0, roots[i]) {
      WalkLeaf(h, t, p, roots[i]);
    }
  }

  lemma {:induction false} EmptyView(h: Heap, t: nat, q: seq<string>)
    requires Wf(h) && t < |h| && h[t].raw == map[] && !h[t].meta && DataPath(q)
    ensures Resolve(h, t, q) == EmptyTable()(q)
  {
    if q != [] {
      assert Lookup(h, t, q[0]) == Nil;
      assert View(h, Nil, q[1..]) == Missing;
    }
  }

  /** What `Attach` shows at the key it stores: the tree of the script named. */
  ghost function BaseTree(bases: map<string, Tree>, ref: string): Tree
    requires ref == "" || ref in bases
  {
    if ref == "" then EmptyTable() else bases[ref]
  }

  ghost predicate Unheld(h: Heap, c: nat) {
    forall t: nat, l :: !Holds(h, t, l, c)
  }

  lemma {:induction false} LastUnheld(h: Heap, n: Table)
    requires Wf(h) && Wf(h + [n]) && forall k :: k in n.raw ==> Reserved(k)
    ensures Unheld(h + [n], |h|) && Bare(h + [n], |h|)
  {
    var g := h + [n];
    forall t: nat, l ensures !Holds(g, t, l, |h|) {
      assert Holds(g, t, l, |h|) ==> Holds(h, t, l, |h|);
    }
  }

  /** The overlay that `Attach` stores: a new table of the same tree, showing its base. */
  lemma {:induction false} AttachReady(h: Heap, files: map<string, nat>, roots: seq<nat>, bases: map<string, Tree>,
      r: nat, fn: string, ref: string)
    requires Session(h, files, roots) && BasesShow(h, files, bases) && r in roots
    ensures var (b, p) := Base(h, files, ref);
      && Session(b, files, roots) && h <= b && (p.None? <==> ref != "" && ref !in files)
      && (p.Some? ==>
          var g := b + [Overlay(p.value, ref, fn, r)];
          && Session(g, files, roots) && h <= g && g[|b|].root == r && Unheld(g, |b|) && Bare(g, |b|)
          && Shows(g, |b|, BaseTree(bases, ref)))
  {
    var (b, p) := Base(h, files, ref);
    if ref == "" { AppendWf(h, Table(map[], false, |h|)); }
    if p.Some? {
      var n := Overlay(p.value, ref, fn, r);
      AppendWf(b, n);
      var g := b + [n];
      assert Linked(g, |b|) && ParentOf(g, |b|) == p.value;
      LastUnheld(b, n);
      forall q | DataPath(q) ensures Resolve(g, |b|, q) == BaseTree(bases, ref)(q) {
        OverlayView(b, p.value, ref, fn, r, q);
        if ref == "" { EmptyView(b, |h|, q); }
      }
    }
  }

  /** The `{}` that a statement stores: a new table of the same tree, showing nothing. */
  lemma {:induction false} CreateReady(h: Heap, files: map<string, nat>, roots: seq<nat>, r: nat)
    requires Session(h, files, roots) && r in roots
    ensures var g := h + [Table(map[], false, r)];
      && Session(g, files, roots) && h <= g && Unheld(g, |h|) && Bare(g, |h|) && Shows(g, |h|, EmptyTable())
  {
    var g := h + [Table(map[], false, r)];
    AppendWf(h, Table(map[], false, r));
    LastUnheld(h, Table(map[], false, r));
    forall q | DataPath(q) ensures Resolve(g, |h|, q) == EmptyTable()(q) { EmptyView(g, |h|, q); }
  }

  lemma {:induction false} SameAppended(h: Heap, g: Heap)
    requires Wf(h) && Wf(g) && h <= g
    ensures Same(h, g) && SameUnder(h, g)
  {
    forall u: nat, q | u < |h| && DataPath(q) ensures Resolve(g, u, q) == Resolve(h, u, q) {
      AppendView(h, g, Tab(u), q);
    }
    forall u: nat, x, q | u < |h| && x != [] && DataPath(x) && DataPath(q)
      ensures Under(g, u, x, q) == Under(h, u, x, q)
    {
      AppendUnder(h, g, u, x, q);
    }
  }

  lemma ShowsSame(h: Heap, g: Heap, t: nat, e: Tree)
    requires Wf(h) && Wf(g) && |h| <= |g| && Same(h, g) && t < |h| && Shows(h, t, e)
    ensures Shows(g, t, e)
  {
    forall q | DataPath(q) ensures Resolve(g, t, q) == e(q) {
      assert Resolve(g, t, q) == Resolve(h, t, q);
    }
  }

  lemma MatchesSame(h: Heap, g: Heap, t: nat, c: Copy)
    requires Wf(h) && Wf(g) && |h| <= |g| && Same(h, g) && SameUnder(h, g) && t < |h| && Matches(h, t, c)
    ensures Matches(g, t, c)
  {
    ShowsSame(h, g, t, c.shown);
    forall x, q | x != [] && DataPath(x) && DataPath(q) ensures Under(g, t, x, q) == c.under(x)(q) {
      assert Under(g, t, x, q) == Under(h, t, x, q);
    }
  }

  lemma SameThenOutside(h: Heap, m: Heap, g: Heap, r: nat)
    requires Wf(h) && Wf(m) && Wf(g) && |h| <= |m| <= |g| && Extends(h, m) && Same(h, m) && SameUnder(h, m)
    requires SameOutside(m, g, r)
    ensures SameOutside(h, g, r)
  {
    forall u: nat, q | u < |h| && h[u].root != r && DataPath(q) ensures Resolve(g, u, q) == Resolve(h, u, q) {
      assert Resolve(m, u, q) == Resolve(h, u, q);
    }
    forall u: nat, x, q | u < |h| && h[u].root != r && x != [] && DataPath(x) && DataPath(q)
      ensures Under(g, u, x, q) == Under(h, u, x, q)
    {
      assert Under(m, u, x, q) == Under(h, u, x, q);
    }
  }

  /** Storing a new table, appended to the heap, into the tree of `t`. */
  lemma {:induction false} StoreAppended(
      h: Heap, m: Heap, files: map<string, nat>, roots: seq<nat>, t: nat, e: Copy,
      p: seq<string>, w: nat, k: string, c: nat, sub: Tree)
    requires Session(h, files, roots) && t in roots && t < |h| && Matches(h, t, e)
    requires DataPath(p) && !Reserved(k) && RawAt(h, t, p) == Some(w)
    requires Session(m, files, roots) && h <= m && |h| <= c < |m| && m[c].root == t
    requires Unheld(m, c) && Bare(m, c) && Shows(m, c, sub)
    ensures var g := SetRaw(m, w, k, Tab(c));
      && Session(g, files, roots) && |h| <= |g| && SameOutside(h, g, t) && Matches(g, t, Place(e, p + [k], sub))
  {
    assert Extends(h, m);
    SameAppended(h, m);
    RawAtExtends(h, m, t, p);
    MatchesSame(h, m, t, e);
    StoreEffect(m, t, p, w, k, Tab(c), e, sub);
    SameThenOutside(h, m, SetRaw(m, w, k, Tab(c)), t);
  }

  lemma {:induction false} PutRefines(h: Heap, files: map<string, nat>, roots: seq<nat>, t: nat, c: Copy, w: nat,
      op: Op)
    requires Session(h, files, roots) && OpOk(op) && t in roots && t < |h| && Matches(h, t, c)
    requires op.Put? && RawAt(h, t, op.p) == Some(w)
    ensures var g := SetRaw(h, w, op.k, op.v);
      && Session(g, files, roots) && SameOutside(h, g, t)
      && Matches(g, t, Place(c, op.p + [op.k], if Erases(op) then c.under(op.p + [op.k]) else Simple(op.v)))
  {
    var at := op.p + [op.k];
    assert DataPath(at) && at != [];
    if Erases(op) {
      forall q | DataPath(q) ensures View(h, NowAt(h, w, op.k, op.v), q) == c.under(at)(q) {
        UnderIsBeneath(h, t, op.p, w, op.k, q);
        assert Under(h, t, at, q) == c.under(at)(q);
      }
      StoreEffect(h, t, op.p, w, op.k, op.v, c, c.under(at));
    } else {
      assert forall q :: DataPath(q) ==> View(h, op.v, q) == Simple(op.v)(q);
      StoreEffect(h, t, op.p, w, op.k, op.v, c, Simple(op.v));
    }
  }

  lemma {:induction false} CreateRefines(h: Heap, files: map<string, nat>, roots: seq<nat>, t: nat, c: Copy, w: nat,
      op: Op)
    requires Session(h, files, roots) && OpOk(op) && t in roots && t < |h| && Matches(h, t, c)
    requires op.Create? && RawAt(h, t, op.p) == Some(w)
    ensures var g := Finish(h, files, Tab(w), op).0;
      && Session(g, files, roots) && |h| <= |g| && SameOutside(h, g, t)
      && Matches(g, t, Place(c, op.p + [op.k], EmptyTable()))
  {
    CreateReady(h, files, roots, t);
    StoreAppended(h, h + [Table(map[], false, t)], files, roots, t, c, op.p, w, op.k, |h|, EmptyTable());
  }

  lemma {:induction false} AttachRefines(
      h: Heap, files: map<string, nat>, roots: seq<nat>, bases: map<string, Tree>, t: nat, c: Copy, w: nat, op: Op)
    requires Session(h, files, roots) && BasesShow(h, files, bases) && OpOk(op) && t in roots && t < |h|
    requires Matches(h, t, c)
    requires op.Attach? && RawAt(h, t, op.p) == Some(w)
    ensures var (g, out) := Finish(h, files, Tab(w), op);
      && Session(g, files, roots) && |h| <= |g| && SameOutside(h, g, t)
      && (out == Fail <==> op.ref != "" && op.ref !in files) && (out == Fail ==> g == h)
      && (out != Fail ==> out == Done && Matches(g, t, Place(c, op.p + [op.k], BaseTree(bases, op.ref))))
  {
    AttachReady(h, files, roots, bases, t, op.fn, op.ref);
    var (b, base) := Base(h, files, op.ref);
    if base.Some? {
      var m := b + [Overlay(base.value, op.ref, op.fn, t)];
      StoreAppended(h, m, files, roots, t, c, op.p, w, op.k, |b|, BaseTree(bases, op.ref));
    }
  }

  lemma {:induction false} FinishRefines(
      h: Heap, files: map<string, nat>, roots: seq<nat>, bases: map<string, Tree>, t: nat, c: Copy, w: Value, op: Op)
    requires Session(h, files, roots) && BasesShow(h, files, bases) && OpOk(op) && t in roots && t < |h|
    requires Matches(h, t, c)
    requires SeenOf(w) == c.shown(op.p) && (w.Tab? ==> RawAt(h, t, op.p) == Some(w.ref))
    ensures w.Tab? ==> w.ref < |h|
    ensures var (g, out) := Finish(h, files, w, op);
      && Session(g, files, roots) && |h| <= |g|
      && out == CopyDo(bases, c, op).1
      && Matches(g, t, CopyDo(bases, c, op).0)
      && SameOutside(h, g, t)
  {
    if w.Tab? && op.Put? {
      PutRefines(h, files, roots, t, c, w.ref, op);
    } else if w.Tab? && op.Create? {
      assert w == Tab(w.ref);
      CreateRefines(h, files, roots, t, c, w.ref, op);
    } else if w.Tab? && op.Attach? {
      assert w == Tab(w.ref);
      AttachRefines(h, files, roots, bases, t, c, w.ref, op);
    }
  }

  lemma {:induction false} WalkKeeps(
      h: Heap, files: map<string, nat>, roots: seq<nat>, bases: map<string, Tree>, t: nat, c: Copy, p: seq<string>)
    requires Session(h, files, roots) && BasesShow(h, files, bases) && t in roots && t < |h| && Matches(h, t, c)
    requires DataPath(p)
    ensures var (g, w) := Walk(h, t, p);
      && Session(g, files, roots) && BasesShow(g, files, bases) && Extends(h, g) && Same(h, g) && SameUnder(h, g)
      && Matches(g, t, c) && SeenOf(w) == c.shown(p) && (w.Tab? ==> RawAt(g, t, p) == Some(w.ref))
  {
    SessionWalked(h, files, roots, t, p);
    WalkTransparent(h, t, p);
    WalkUnder(h, t, p);
    var (g, w) := Walk(h, t, p);
    MatchesSame(h, g, t, c);
    forall n | n in files ensures Shows(g, files[n], bases[n]) { ShowsSame(h, g, files[n], bases[n]); }
  }

  /** One operation on a lazily inherited tree gives the outcome, and leaves the tree, that
      it would on a copy of its own; no table of any other tree shows a change, neither
      the tables inherited from nor another overlay of the same base. */
  lemma {:induction false} DoRefinesCopy(
      h: Heap, files: map<string, nat>, roots: seq<nat>, bases: map<string, Tree>, i: nat, c: Copy, op: Op)
    requires Session(h, files, roots) && BasesShow(h, files, bases) && OpOk(op)
    requires i < |roots| && Matches(h, roots[i], c)
    ensures var (g, out) := Do(h, files, roots[i], op);
      && Session(g, files, roots) && |h| <= |g|
      && out == CopyDo(bases, c, op).1
      && Matches(g, roots[i], CopyDo(bases, c, op).0)
      && SameOutside(h, g, roots[i])
  {
    WalkKeeps(h, files, roots, bases, roots[i], c, op.p);
    var (g, w) := Walk(h, roots[i], op.p);
    FinishRefines(g, files, roots, bases, roots[i], c, w, op);
    SameThenOutside(h, g, Finish(g, files, w, op).0, roots[i]);
  }

  // ----- When a full copy is the same -----

  ghost predicate Nothing(e: Tree) {
    forall q :: DataPath(q) ==> e(q) == Missing
  }

  ghost predicate SameTree(e: Tree, f: Tree) {
    forall q :: DataPath(q) ==> e(q) == f(q)
  }

  /** The operation does not erase an entry over something. */
  ghost predicate Guarded(c: Copy, op: Op) {
    Erases(op) && c.shown(op.p) == Branch ==> Nothing(c.under(op.p + [op.k]))
  }

  lemma {:induction false} SameReplaced(e: Tree, f: Tree, at: seq<string>, a: Tree, b: Tree)
    requires SameTree(e, f) && DataPath(at)
    ensures SameTree(Replace(e, at, a), Replace(f, at, b)) <==> SameTree(a, b)
  {
    if SameTree(Replace(e, at, a), Replace(f, at, b)) {
      forall q | DataPath(q) ensures a(q) == b(q) {
        assert (at + q)[|at|..] == q && DataPath(at + q);
        assert Replace(e, at, a)(at + q) == Replace(f, at, b)(at + q);
      }
    }
  }

  /** A full copy, where storing nil deletes, gives the same outcome, and stays the same
      tree if and only if the operation is guarded. */
  lemma {:induction false} GuardExact(bases: map<string, Tree>, c: Copy, e: Tree, op: Op)
    requires SameTree(c.shown, e) && OpOk(op)
    ensures CopyDo(bases, c, op).1 == EagerDo(bases, e, op).1
    ensures SameTree(CopyDo(bases, c, op).0.shown, EagerDo(bases, e, op).0) <==> Guarded(c, op)
  {
    if !op.Read? && e(op.p) == Branch && Stored(bases, op).Some? {
      var at := op.p + [op.k];
      assert DataPath(at);
      var sub := Stored(bases, op).value;
      SameReplaced(c.shown, e, at, if Erases(op) then c.under(at) else sub, sub);
      assert Erases(op) ==> (SameTree(c.under(at), sub) <==> Nothing(c.under(at)));
    }
  }

  lemma {:induction false} ViewMissing(h: Heap, v: Value, x: seq<string>, q: seq<string>)
    requires Wf(h) && DataPath(x) && DataPath(q) && (v.Tab? ==> v.ref < |h|) && View(h, v, x) == Missing
    ensures View(h, v, x + q) == Missing
    decreases |x|
  {
    if x == [] {
      assert x + q == q;
    } else if v.Tab? {
      assert (x + q)[0] == x[0] && (x + q)[1..] == x[1..] + q;
      ViewMissing(h, Lookup(h, v.ref, x[0]), x[1..], q);
    }
  }

  /** The guard in the heap: the base of the table that holds the entry has nil there. */
  lemma {:induction false} GuardIsNil(h: Heap, t: nat, c: Copy, p: seq<string>, w: nat, k: string)
    requires Wf(h) && t < |h| && Matches(h, t, c) && DataPath(p) && !Reserved(k) && RawAt(h, t, p) == Some(w)
    ensures Nothing(c.under(p + [k])) <==> Beneath(h, w, k) == Nil
  {
    forall q | DataPath(q) ensures c.under(p + [k])(q) == View(h, Beneath(h, w, k), q) {
      assert DataPath(p + [k]);
      UnderIsBeneath(h, t, p, w, k, q);
    }
    assert DataPath([]) && View(h, Beneath(h, w, k), []) == c.under(p + [k])([]);
    if Beneath(h, w, k) == Nil {
      forall q | DataPath(q) ensures View(h, Nil, q) == Missing {}
    }
  }

  /** The operation does not store nil where the base of the table reached has something. */
  ghost predicate StepGuarded(h: Heap, t: nat, op: Op)
    requires Wf(h) && t < |h| && OpOk(op)
  {
    WalkTransparent(h, t, op.p);
    var (m, w) := Walk(h, t, op.p);
    Erases(op) && w.Tab? ==> Beneath(m, w.ref, op.k) == Nil
  }

  /** On the heap: an operation leaves the tree that it leaves on a full copy, if and only
      if it does not erase an entry for which the base of its table has something. */
  lemma {:induction false} DoRefinesEager(
      h: Heap, files: map<string, nat>, roots: seq<nat>, bases: map<string, Tree>, i: nat, c: Copy, op: Op)
    requires Session(h, files, roots) && BasesShow(h, files, bases) && OpOk(op)
    requires i < |roots| && Matches(h, roots[i], c)
    ensures var (g, out) := Do(h, files, roots[i], op);
      && Wf(g) && |h| <= |g| && out == EagerDo(bases, c.shown, op).1
      && (Shows(g, roots[i], EagerDo(bases, c.shown, op).0) <==>
          StepGuarded(h, roots[i], op))
  {
    DoRefinesCopy(h, files, roots, bases, i, c, op);
    GuardExact(bases, c, c.shown, op);
    WalkKeeps(h, files, roots, bases, roots[i], c, op.p);
    var (m, w) := Walk(h, roots[i], op.p);
    if w.Tab? && Erases(op) { GuardIsNil(m, roots[i], c, op.p, w.ref, op.k); }
    var (g, d, e) := (Do(h, files, roots[i], op).0, CopyDo(bases, c, op).0.shown, EagerDo(bases, c.shown, op).0);
    assert Shows(g, roots[i], e) <==> SameTree(d, e) by {
      if Shows(g, roots[i], e) {
        forall q | DataPath(q) ensures d(q) == e(q) { assert Resolve(g, roots[i], q) == d(q); }
      }
      if SameTree(d, e) {
        forall q | DataPath(q) ensures Resolve(g, roots[i], q) == e(q) { assert d(q) == e(q); }
      }
    }
  }

  // ----- Whole runs over several open trees -----

  lemma DoKeepsSession(h: Heap, files: map<string, nat>, roots: seq<nat>, i: nat, op: Op)
    requires Session(h, files, roots) && OpOk(op) && i < |roots|
    ensures Session(Do(h, files, roots[i], op).0, files, roots) && |h| <= |Do(h, files, roots[i], op).0|
  {
    DoRefinesCopy(h, files, roots, Bases(h, files), i, Observed(h, roots[i]), op);
  }

  type Run = seq<(nat, Op)>

  ghost predicate RunOk(run: Run, n: nat) {
    forall j :: 0 <= j < |run| ==> run[j].0 < n && OpOk(run[j].1)
  }

  /** The operations of a run on the shared heap, in order: last state and outcomes. */
  ghost function RunLazy(h: Heap, files: map<string, nat>, roots: seq<nat>, run: Run): (r: (Heap, seq<Outcome>))
    requires Session(h, files, roots) && RunOk(run, |roots|)
    ensures Session(r.0, files, roots) && |h| <= |r.0|
    decreases |run|
  {
    if run == [] then (h, []) else
    DoKeepsSession(h, files, roots, run[0].0, run[0].1);
    var (g, out) := Do(h, files, roots[run[0].0], run[0].1);
    var (k, outs) := RunLazy(g, files, roots, run[1..]);
    (k, [out] + outs)
  }

  /** The same run where every open tree is a copy of its own that knows its base. */
  ghost function RunCopies(bases: map<string, Tree>, cs: seq<Copy>, run: Run): (r: (seq<Copy>, seq<Outcome>))
    requires RunOk(run, |cs|)
    ensures |r.0| == |cs|
    decreases |run|
  {
    if run == [] then (cs, []) else
    var (c, out) := CopyDo(bases, cs[run[0].0], run[0].1);
    var (ds, outs) := RunCopies(bases, cs[run[0].0 := c], run[1..]);
    (ds, [out] + outs)
  }

  /** The same run where every open tree is a full copy, and storing nil deletes. */
  ghost function RunEager(bases: map<string, Tree>, es: seq<Tree>, run: Run): (r: (seq<Tree>, seq<Outcome>))
    requires RunOk(run, |es|)
    ensures |r.0| == |es|
    decreases |run|
  {
    if run == [] then (es, []) else
    var (e, out) := EagerDo(bases, es[run[0].0], run[0].1);
    var (fs, outs) := RunEager(bases, es[run[0].0 := e], run[1..]);
    (fs, [out] + outs)
  }

  ghost predicate AllMatch(h: Heap, roots: seq<nat>, cs: seq<Copy>)
    requires Wf(h)
  {
    |roots| == |cs| && forall i :: 0 <= i < |roots| ==> roots[i] < |h| && Matches(h, roots[i], cs[i])
  }

  /** For any interleaving of reads and stores through any number of overlays of any
      shared scripts: every outcome is the one that independent copies give, every open
      tree ends as its own copy does, and no table outside the open trees (the scripts
      inherited from among them) shows any change. */
  lemma {:induction false} RunRefinesCopies(
      h: Heap, files: map<string, nat>, roots: seq<nat>, bases: map<string, Tree>, cs: seq<Copy>, run: Run)
    requires Session(h, files, roots) && BasesShow(h, files, bases) && AllMatch(h, roots, cs) && RunOk(run, |roots|)
    ensures var (g, outs) := RunLazy(h, files, roots, run);
      && outs == RunCopies(bases, cs, run).1
      && AllMatch(g, roots, RunCopies(bases, cs, run).0)
      && forall u: nat, q :: u < |h| && h[u].root !in roots && DataPath(q) ==> Resolve(g, u, q) == Resolve(h, u, q)
    decreases |run|
  {
    if run != [] {
      var (i, op) := run[0];
      DoRefinesCopy(h, files, roots, bases, i, cs[i], op);
      var (g, out) := Do(h, files, roots[i], op);
      forall n | n in files ensures Shows(g, files[n], bases[n]) { ShowsOutside(h, g, roots[i], files[n], bases[n]); }
      var (c, _) := CopyDo(bases, cs[i], op);
      forall j | 0 <= j < |roots| && j != i ensures Matches(g, roots[j], cs[j]) {
        MatchesOutside(h, g, roots[i], roots[j], cs[j]);
      }
      RunRefinesCopies(g, files, roots, bases, cs[i := c], run[1..]);
      var (k, _) := RunLazy(g, files, roots, run[1..]);
      DoKeepsRoots(h, files, roots[i], op);
      forall u: nat, q | u < |h| && h[u].root !in roots && DataPath(q) ensures Resolve(k, u, q) == Resolve(h, u, q) {
        assert Resolve(g, u, q) == Resolve(h, u, q);
      }
    }
  }

  ghost predicate AllShow(h: Heap, roots: seq<nat>, es: seq<Tree>)
    requires Wf(h)
  {
    |roots| == |es| && forall i :: 0 <= i < |roots| ==> roots[i] < |h| && Shows(h, roots[i], es[i])
  }

  /** No step of the run does. */
  ghost predicate AllGuarded(h: Heap, files: map<string, nat>, roots: seq<nat>, run: Run)
    requires Session(h, files, roots) && RunOk(run, |roots|)
    decreases |run|
  {
    run != [] ==>
      var (i, op) := run[0];
      DoKeepsSession(h, files, roots, i, op);
      StepGuarded(h, roots[i], op) && AllGuarded(Do(h, files, roots[i], op).0, files, roots, run[1..])
  }

  /** From the start to the end of the run the open trees show what full copies hold. */
  ghost predicate ShowThroughout(
      h: Heap, files: map<string, nat>, roots: seq<nat>, bases: map<string, Tree>, es: seq<Tree>, run: Run)
    requires Session(h, files, roots) && RunOk(run, |roots|) && |roots| == |es|
    decreases |run|
  {
    && AllShow(h, roots, es)
    && (run != [] ==>
          var (i, op) := run[0];
          DoKeepsSession(h, files, roots, i, op);
          var fs := es[i := EagerDo(bases, es[i], op).0];
          ShowThroughout(Do(h, files, roots[i], op).0, files, roots, bases, fs, run[1..]))
  }

  /** A run that stores no nil is guarded. */
  lemma {:induction false} NoEraseGuarded(h: Heap, files: map<string, nat>, roots: seq<nat>, run: Run)
    requires Session(h, files, roots) && RunOk(run, |roots|) && forall j :: 0 <= j < |run| ==> !Erases(run[j].1)
    ensures AllGuarded(h, files, roots, run)
    decreases |run|
  {
    if run != [] {
      var (i, op) := run[0];
      assert !Erases(op);
      DoKeepsSession(h, files, roots, i, op);
      NoEraseGuarded(Do(h, files, roots[i], op).0, files, roots, run[1..]);
    }
  }

  /** Scripts and the other open trees show what they did. */
  lemma {:induction false} OthersShow(
      h: Heap, g: Heap, files: map<string, nat>, roots: seq<nat>, bases: map<string, Tree>, es: seq<Tree>, i: nat)
    requires Session(h, files, roots) && BasesShow(h, files, bases) && AllShow(h, roots, es) && i < |roots|
    requires Wf(g) && |h| <= |g| && SameOutside(h, g, roots[i])
    ensures BasesShow(g, files, bases)
    ensures forall j :: 0 <= j < |roots| && j != i ==> Shows(g, roots[j], es[j])
  {
    forall n | n in files ensures Shows(g, files[n], bases[n]) { ShowsOutside(h, g, roots[i], files[n], bases[n]); }
    forall j | 0 <= j < |roots| && j != i ensures Shows(g, roots[j], es[j]) {
      ShowsOutside(h, g, roots[i], roots[j], es[j]);
    }
  }

  lemma AllShowButOne(g: Heap, roots: seq<nat>, es: seq<Tree>, i: nat, e: Tree)
    requires Wf(g) && |roots| == |es| && i < |roots| && forall j :: 0 <= j < |roots| ==> roots[j] < |g|
    requires forall j :: 0 <= j < |roots| && j != i ==> Shows(g, roots[j], es[j])
    ensures AllShow(g, roots, es[i := e]) <==> Shows(g, roots[i], e)
  {
    assert AllShow(g, roots, es[i := e]) ==> Shows(g, roots[i], es[i := e][i]);
  }

  /** One step of a run: the tree worked on shows what its full copy becomes if and only if
      the step is guarded, and all others show what they did. */
  lemma {:induction false} StepExact(
      h: Heap, files: map<string, nat>, roots: seq<nat>, bases: map<string, Tree>, es: seq<Tree>, i: nat, op: Op)
    requires Session(h, files, roots) && BasesShow(h, files, bases) && AllShow(h, roots, es)
    requires i < |roots| && OpOk(op)
    ensures var ((g, out), (e, eager)) := (Do(h, files, roots[i], op), EagerDo(bases, es[i], op));
      && Session(g, files, roots) && BasesShow(g, files, bases) && out == eager
      && (AllShow(g, roots, es[i := e]) <==> StepGuarded(h, roots[i], op))
  {
    var c := Copy(es[i], Observed(h, roots[i]).under);
    assert Matches(h, roots[i], c);
    DoRefinesCopy(h, files, roots, bases, i, c, op);
    DoRefinesEager(h, files, roots, bases, i, c, op);
    var g := Do(h, files, roots[i], op).0;
    OthersShow(h, g, files, roots, bases, es, i);
    AllShowButOne(g, roots, es, i, EagerDo(bases, es[i], op).0);
  }

  /** Over any run the open trees show at every step what independent full copies hold, if
      and only if no step stores nil where `$PARENT[K]` is something; then the outcomes are
      those of the full copies too. */
  lemma {:induction false} RunRefinesEager(
      h: Heap, files: map<string, nat>, roots: seq<nat>, bases: map<string, Tree>, es: seq<Tree>, run: Run)
    requires Session(h, files, roots) && BasesShow(h, files, bases) && AllShow(h, roots, es) && RunOk(run, |roots|)
    ensures ShowThroughout(h, files, roots, bases, es, run) <==> AllGuarded(h, files, roots, run)
    ensures AllGuarded(h, files, roots, run) ==>
      var (g, outs) := RunLazy(h, files, roots, run);
      outs == RunEager(bases, es, run).1 && AllShow(g, roots, RunEager(bases, es, run).0)
    decreases |run|
  {
    if run != [] {
      var (i, op) := run[0];
      StepExact(h, files, roots, bases, es, i, op);
      var (g, fs) := (Do(h, files, roots[i], op).0, es[i := EagerDo(bases, es[i], op).0]);
      if StepGuarded(h, roots[i], op) {
        RunRefinesEager(g, files, roots, bases, fs, run[1..]);
      } else {
        NotThroughout(g, files, roots, bases, fs, run[1..]);
      }
    }
  }

  lemma NotThroughout(
      h: Heap, files: map<string, nat>, roots: seq<nat>, bases: map<string, Tree>, es: seq<Tree>, run: Run)
    requires Session(h, files, roots) && RunOk(run, |roots|) && |roots| == |es| && !AllShow(h, roots, es)
    ensures !ShowThroughout(h, files, roots, bases, es, run)
  {
  }

  lemma ShowsOutside(h: Heap, g: Heap, r: nat, u: nat, e: Tree)
    requires Wf(h) && Wf(g) && |h| <= |g| && SameOutside(h, g, r) && u < |h| && h[u].root != r && Shows(h, u, e)
    ensures Shows(g, u, e)
  {
    forall q | DataPath(q) ensures Resolve(g, u, q) == e(q) {
      assert Resolve(g, u, q) == Resolve(h, u, q);
    }
  }

  lemma MatchesOutside(h: Heap, g: Heap, r: nat, u: nat, c: Copy)
    requires Wf(h) && Wf(g) && |h| <= |g| && SameOutside(h, g, r) && u < |h| && h[u].root != r && Matches(h, u, c)
    ensures Matches(g, u, c)
  {
    ShowsOutside(h, g, r, u, c.shown);
    forall x, q | x != [] && DataPath(x) && DataPath(q) ensures Under(g, u, x, q) == c.under(x)(q) {
      assert Under(g, u, x, q) == Under(h, u, x, q);
    }
  }

  lemma DoKeepsRoots(h: Heap, files: map<string, nat>, t: nat, op: Op)
    requires Wf(h) && t < |h| && OpOk(op)
    ensures var g := Do(h, files, t, op).0; |h| <= |g| && forall u :: 0 <= u < |h| ==> g[u].root == h[u].root
  {
    WalkTransparent(h, t, op.p);
  }

  // ----- Storing nil is not always deleting -----

  /** A script with `GameData = { x = 1 }` and `GameData = Inherit([[f]])` with `x = 2`. */
  function CoveredHeap(): Heap {
    [Table(map["x" := Num(1)], false, 0),
     Overlay(0, "f", "Inherit", 1).(raw := Overlay(0, "f", "Inherit", 1).raw["x" := Num(2)])]
  }

  lemma CoveredWf()
    ensures var h := CoveredHeap(); Wf(h) && ParentOf(h, 1) == 0 && Storable(h, 1, "x", Nil)
  {
    var h := CoveredHeap();
    assert Linked(h, 0) && Linked(h, 1);
    assert forall t: nat, k, c: nat :: !Holds(h, t, k, c);
    assert Wf(h) && ParentOf(h, 1) == 0;
  }

  /** There `GameData["x"] = nil` shows the value of the script inherited from ... */
  lemma EraseUncovers()
    ensures var (h, files, op) := (CoveredHeap(), map["f" := 0], Put([], "x", Nil));
      && Wf(h) && OpOk(op) && Resolve(h, 1, ["x"]) == Leaf(Num(2))
      && var g := Do(h, files, 1, op).0;
      && Wf(g) && |g| == 2 && Resolve(g, 1, ["x"]) == Leaf(Num(1))
  {
    CoveredWf();
    var h := CoveredHeap();
    var g := SetRaw(h, 1, "x", Nil);
    SetRawWf(h, 1, "x", Nil);
    assert Linked(g, 1) && ParentOf(g, 1) == 0 && "x" !in g[1].raw;
    assert Lookup(g, 1, "x") == Lookup(g, 0, "x") == Num(1);
    assert Lookup(h, 1, "x") == Num(2) && ["x"][1..] == [];
  }

  /** ... where a full copy would show nothing. */
  lemma EraseOnFullCopy(bases: map<string, Tree>, e: Tree)
    requires e([]) == Branch
    ensures EagerDo(bases, e, Put([], "x", Nil)).1 == Done && EagerDo(bases, e, Put([], "x", Nil)).0(["x"]) == Missing
  {
    assert [] + ["x"] == ["x"] && ["x"][|["x"]|..] == [];
  }
}
