/** Lua tables as CLuaFile2 uses them: an arena of mutable tables addressed by
    reference, so that sharing between scripts is visible, and the lazy
    inheritance event that materialises proxies on read. */
module LuaHeap {

  // The three keys that _luaParent and _luaIndexEvent store in every overlay.
  const PARENT := "$PARENT"
  const REF := "$REF"
  const FUNC := "$FUNC"

  predicate Reserved(k: string) {
    k == PARENT || k == REF || k == FUNC
  }

  /** A Lua value.  `Num` counts hundred-thousandths, the numbers `%.5f` prints exactly. */
  datatype Value = Nil | Num(n: int) | Bool(b: bool) | Str(s: string) | Tab(ref: nat)

  /** A Lua table: its raw entries, whether its metatable holds `_luaIndexEvent`,
      and the topmost table of the table tree it belongs to (`GameData` of the script). */
  datatype Table = Table(raw: map<string, Value>, meta: bool, root: nat)

  type Heap = seq<Table>

  // ----- Well-formed heaps -----

  /** Table `t` holds table `c` under the ordinary key `k`. */
  ghost predicate Holds(h: Heap, t: nat, k: string, c: nat) {
    t < |h| && !Reserved(k) && k in h[t].raw && h[t].raw[k] == Tab(c)
  }

  ghost predicate Linked(h: Heap, t: nat)
    requires t < |h|
  {
    if h[t].meta then
      && PARENT in h[t].raw && REF in h[t].raw && FUNC in h[t].raw
      && h[t].raw[PARENT].Tab? && h[t].raw[REF].Str? && h[t].raw[FUNC].Str?
      && h[t].raw[PARENT].ref < t
      && h[h[t].raw[PARENT].ref].root != h[t].root
    else
      PARENT !in h[t].raw && REF !in h[t].raw && FUNC !in h[t].raw
  }

  /** Overlays point at older tables of other trees, nested tables are younger,
      belong to the same tree and sit in one place only (no aliasing), and no
      entry is nil. */
  ghost predicate Wf(h: Heap) {
    && (forall t: nat :: t < |h| ==> Linked(h, t) && h[t].root <= t)
    && (forall t: nat, k :: t < |h| && k in h[t].raw ==> h[t].raw[k] != Nil)
    && (forall t: nat, k, c: nat :: Holds(h, t, k, c) ==> t < c < |h| && h[c].root == h[t].root)
    && (forall t: nat, k, u: nat, l, c: nat :: Holds(h, t, k, c) && Holds(h, u, l, c) ==> t == u && k == l)
  }

  function ParentOf(h: Heap, t: nat): (p: nat)
    requires t < |h| && h[t].meta && Wf(h)
    ensures p < t && h[p].root != h[t].root
  {
    assert Linked(h, t);
    h[t].raw[PARENT].ref
  }

  // ----- What a script observes -----

  /** The value of a key along the `$PARENT` chain, without materialising anything. */
  ghost function Lookup(h: Heap, t: nat, k: string): (v: Value)
    requires Wf(h) && t < |h|
    ensures v.Tab? && !Reserved(k) ==> v.ref < |h|
    decreases t
  {
    assert k in h[t].raw && h[t].raw[k].Tab? && !Reserved(k) ==> Holds(h, t, k, h[t].raw[k].ref);
    if k in h[t].raw then h[t].raw[k]
    else if h[t].meta then Lookup(h, ParentOf(h, t), k)
    else Nil
  }

  datatype Seen = Missing | Leaf(v: Value) | Branch

  ghost predicate DataPath(q: seq<string>) {
    forall i :: 0 <= i < |q| ==> !Reserved(q[i])
  }

  /** What is seen at a key path below a value. */
  ghost function View(h: Heap, v: Value, q: seq<string>): Seen
    requires Wf(h) && DataPath(q)
    requires v.Tab? ==> v.ref < |h|
    decreases |q|
  {
    match v
    case Nil => Missing
    case Tab(t) => if q == [] then Branch else View(h, Lookup(h, t, q[0]), q[1..])
    case _ => if q == [] then Leaf(v) else Missing
  }

  ghost function Resolve(h: Heap, t: nat, q: seq<string>): Seen
    requires Wf(h) && t < |h| && DataPath(q)
  {
    View(h, Tab(t), q)
  }

  // ----- Reading: lua_gettable and _luaIndexEvent -----

  function Proxy(t: Table, parent: nat): Table
    requires REF in t.raw
  {
    Table(map[PARENT := Tab(parent), REF := t.raw[REF], FUNC := Str("")], true, t.root)
  }

  /** Table `t` after a proxy for `v` was stored under `k`. */
  function Materialise(h: Heap, t: nat, k: string, v: nat): Heap
    requires t < |h| && REF in h[t].raw
  {
    h[t := h[t].(raw := h[t].raw[k := Tab(|h|)])] + [Proxy(h[t], v)]
  }

  /** `T[K]`: the state after the read, and the value read. */
  function Index(h: Heap, t: nat, k: string): (r: (Heap, Value))
    requires Wf(h) && t < |h|
    ensures |h| <= |r.0|
    ensures forall u :: t < u < |h| ==> r.0[u] == h[u]
    ensures r.0[t].meta == h[t].meta && (h[t].meta ==> REF in r.0[t].raw)
    decreases t
  {
    assert Linked(h, t);
    if k in h[t].raw then (h, h[t].raw[k])
    else if !h[t].meta then (h, Nil)
    else
      var (h1, v) := Index(h, ParentOf(h, t), k);
      if v.Tab? then (Materialise(h1, t, k, v.ref), Tab(|h1|)) else (h1, v)
  }

  // ----- Reading changes nothing that can be observed -----

  /** `g` is `h` with more tables and more raw entries. */
  ghost predicate Extends(h: Heap, g: Heap) {
    && |h| <= |g|
    && forall u :: 0 <= u < |h| ==>
         && g[u].meta == h[u].meta && g[u].root == h[u].root
         && forall k :: k in h[u].raw ==> k in g[u].raw && g[u].raw[k] == h[u].raw[k]
  }

  /** Every table of `h` shows the same tree in `g`. */
  ghost predicate Same(h: Heap, g: Heap)
    requires Wf(h) && Wf(g) && |h| <= |g|
  {
    forall u: nat, q :: u < |h| && DataPath(q) ==> Resolve(g, u, q) == Resolve(h, u, q)
  }

  ghost predicate Inherits(h: Heap, t: nat, k: string, v: nat) {
    && Wf(h) && t < |h| && v < |h| && h[t].meta
    && k !in h[t].raw && Lookup(h, t, k) == Tab(v) && h[v].root != h[t].root
  }

  lemma MaterialiseWf(h: Heap, t: nat, k: string, v: nat)
    requires Inherits(h, t, k, v)
    ensures REF in h[t].raw && Wf(Materialise(h, t, k, v)) && Extends(h, Materialise(h, t, k, v))
  {
    assert Linked(h, t);
    var g := Materialise(h, t, k, v);
    forall u: nat | u < |g| ensures Linked(g, u) {
      if u < |h| { assert Linked(h, u); }
    }
    forall u: nat, l, c: nat | Holds(g, u, l, c) ensures u < c < |g| && g[c].root == g[u].root {
      assert u < |h| && (Holds(h, u, l, c) || (u == t && l == k && c == |h|));
    }
    forall u: nat, l, x: nat, m, c: nat | Holds(g, u, l, c) && Holds(g, x, m, c) ensures u == x && l == m {
      assert u < |h| && (Holds(h, u, l, c) || (u == t && l == k && c == |h|));
      assert x < |h| && (Holds(h, x, m, c) || (x == t && m == k && c == |h|));
    }
  }

  /** After a proxy was inserted, a lookup gives what it gave, or the proxy in place
      of the table it stands for. */
  lemma {:induction false} MaterialiseLookup(h: Heap, t: nat, k: string, v: nat, u: nat, l: string)
    requires Inherits(h, t, k, v) && u < |h| && !Reserved(l)
    ensures REF in h[t].raw && Wf(Materialise(h, t, k, v))
    ensures var g := Materialise(h, t, k, v);
            Lookup(g, u, l) == Lookup(h, u, l) || (l == k && Lookup(h, u, l) == Tab(v) && Lookup(g, u, l) == Tab(|h|))
    decreases u
  {
    MaterialiseWf(h, t, k, v);
    if l !in h[u].raw && !(u == t && l == k) && h[u].meta {
      MaterialiseLookup(h, t, k, v, ParentOf(h, u), l);
    }
  }

  lemma {:induction false} MaterialiseView(h: Heap, t: nat, k: string, v: nat, u: nat, q: seq<string>)
    requires Inherits(h, t, k, v) && u < |h| && DataPath(q)
    ensures REF in h[t].raw && Wf(Materialise(h, t, k, v))
    ensures var g := Materialise(h, t, k, v);
            Resolve(g, u, q) == Resolve(h, u, q) && Resolve(g, |h|, q) == Resolve(h, v, q)
    decreases |q|
  {
    MaterialiseWf(h, t, k, v);
    if q != [] {
      var g := Materialise(h, t, k, v);
      assert Linked(g, |h|);
      assert Lookup(g, |h|, q[0]) == Lookup(g, v, q[0]);
      MaterialiseLookup(h, t, k, v, u, q[0]);
      MaterialiseLookup(h, t, k, v, v, q[0]);
      MaterialiseStep(h, t, k, v, u, q);
      MaterialiseStep(h, t, k, v, v, q);
    }
  }

  lemma {:induction false} MaterialiseStep(h: Heap, t: nat, k: string, v: nat, u: nat, q: seq<string>)
    requires Inherits(h, t, k, v) && u < |h| && DataPath(q) && q != []
    ensures REF in h[t].raw && Wf(Materialise(h, t, k, v))
    ensures View(Materialise(h, t, k, v), Lookup(Materialise(h, t, k, v), u, q[0]), q[1..])
        == View(h, Lookup(h, u, q[0]), q[1..])
    decreases |q|, 0
  {
    MaterialiseWf(h, t, k, v);
    MaterialiseLookup(h, t, k, v, u, q[0]);
    var a := Lookup(h, u, q[0]);
    if a.Tab? { MaterialiseView(h, t, k, v, a.ref, q[1..]); }
  }

  /** A read keeps the heap well formed, gives the value the `$PARENT` chain holds
      (a table is given as a raw entry of the table read, proxied if inherited), and
      changes no table's resolved tree. */
  lemma {:induction false} IndexTransparent(h: Heap, t: nat, k: string)
    requires Wf(h) && t < |h| && !Reserved(k)
    ensures var (g, v) := Index(h, t, k);
      && Wf(g) && Extends(h, g) && Same(h, g)
      && (v.Tab? <==> Lookup(h, t, k).Tab?)
      && (!v.Tab? ==> v == Lookup(h, t, k))
      && (v.Tab? ==> Holds(g, t, k, v.ref))
      && (v.Tab? ==> forall q :: DataPath(q) ==> Resolve(g, v.ref, q) == Resolve(h, Lookup(h, t, k).ref, q))
    decreases t
  {
    assert Linked(h, t);
    if k in h[t].raw {
      if h[t].raw[k].Tab? { assert Holds(h, t, k, h[t].raw[k].ref); }
    } else if h[t].meta {
      var p := ParentOf(h, t);
      IndexTransparent(h, p, k);
      var (h1, v) := Index(h, p, k);
      if v.Tab? {
        assert Holds(h1, p, k, v.ref);
        assert Linked(h1, t);
        assert Lookup(h1, t, k) == Lookup(h1, p, k) == v;
        assert Inherits(h1, t, k, v.ref);
        MaterialiseWf(h1, t, k, v.ref);
        var g := Materialise(h1, t, k, v.ref);
        forall u: nat, q | u < |h1| && DataPath(q)
          ensures Resolve(g, u, q) == Resolve(h1, u, q) && Resolve(g, |h1|, q) == Resolve(h1, v.ref, q)
        {
          MaterialiseView(h1, t, k, v.ref, u, q);
        }
      }
    }
  }
}
