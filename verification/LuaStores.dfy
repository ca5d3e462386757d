/** Storing into overlay tables: what a store through a key path changes, and what it
    uncovers. */
module LuaStores {
  import opened LuaHeap
  import opened Options

  // ----- Walking a key path -----

  /** `T[p0][p1]...`: indexing a value that is no table gives nil here (the script fails). */
  function Walk(h: Heap, t: nat, p: seq<string>): (r: (Heap, Value))
    requires Wf(h) && t < |h| && DataPath(p)
    decreases |p|
  {
    if p == [] then (h, Tab(t)) else
    IndexTransparent(h, t, p[0]);
    var (g, v) := Index(h, t, p[0]);
    if v.Tab? then assert Holds(g, t, p[0], v.ref); Walk(g, v.ref, p[1..])
    else if |p| == 1 then (g, v) else (g, Nil)
  }

  /** The table stored at a key path, using raw entries only. */
  ghost function RawAt(h: Heap, t: nat, p: seq<string>): Option<nat>
    requires t < |h| && Wf(h) && DataPath(p)
    ensures RawAt(h, t, p).Some? ==> t <= RawAt(h, t, p).value < |h| && h[RawAt(h, t, p).value].root == h[t].root
    decreases |p|
  {
    if p == [] then Some(t)
    else if p[0] in h[t].raw && h[t].raw[p[0]].Tab? then
      assert Holds(h, t, p[0], h[t].raw[p[0]].ref);
      RawAt(h, h[t].raw[p[0]].ref, p[1..])
    else None
  }

  function SeenOf(v: Value): Seen {
    match v
    case Nil => Missing
    case Tab(_) => Branch
    case _ => Leaf(v)
  }

  lemma {:induction false} RawAtExtends(h: Heap, g: Heap, t: nat, p: seq<string>)
    requires Wf(h) && Wf(g) && Extends(h, g) && t < |h| && DataPath(p) && RawAt(h, t, p).Some?
    ensures RawAt(g, t, p) == RawAt(h, t, p)
    decreases |p|
  {
    if p != [] {
      assert Holds(h, t, p[0], h[t].raw[p[0]].ref);
      RawAtExtends(h, g, h[t].raw[p[0]].ref, p[1..]);
    }
  }

  lemma SameTwice(h: Heap, g: Heap, k: Heap)
    requires Wf(h) && Wf(g) && Wf(k) && |h| <= |g| <= |k| && Same(h, g) && Same(g, k)
    ensures Same(h, k)
  {
    forall u: nat, q | u < |h| && DataPath(q) ensures Resolve(k, u, q) == Resolve(h, u, q) {
      assert Resolve(g, u, q) == Resolve(h, u, q);
    }
  }

  /** Walking is reading: it changes nothing that can be observed, sees what the
      path resolves to, and ends, when it reaches a table, at the raw entry for it. */
  lemma {:induction false} WalkTransparent(h: Heap, t: nat, p: seq<string>)
    requires Wf(h) && t < |h| && DataPath(p)
    ensures var (g, v) := Walk(h, t, p);
      && Wf(g) && Extends(h, g) && Same(h, g)
      && SeenOf(v) == Resolve(h, t, p)
      && (v.Tab? ==> v.ref < |g| && RawAt(g, t, p) == Some(v.ref))
    decreases |p|
  {
    if p != [] {
      IndexTransparent(h, t, p[0]);
      var (g, v) := Index(h, t, p[0]);
      if v.Tab? {
        assert Holds(g, t, p[0], v.ref);
        WalkTransparent(g, v.ref, p[1..]);
        var (k, w) := Walk(g, v.ref, p[1..]);
        assert Holds(k, t, p[0], v.ref);
        var a := Lookup(h, t, p[0]);
        assert a == Tab(a.ref);
        assert Resolve(g, v.ref, p[1..]) == Resolve(h, a.ref, p[1..]) == Resolve(h, t, p);
        SameTwice(h, g, k);
      } else {
        assert v == Lookup(h, t, p[0]) && Resolve(h, t, p) == View(h, v, p[1..]);
      }
    }
  }

  // ----- Storing: lua_settable -----

  /** A store; storing nil removes the entry. */
  function SetRaw(h: Heap, w: nat, k: string, v: Value): Heap
    requires w < |h|
  {
    h[w := h[w].(raw := if v == Nil then h[w].raw - {k} else h[w].raw[k := v])]
  }

  /** No overlay inherits from the tree rooted at `r`. */
  ghost predicate LeafTree(h: Heap, r: nat)
    requires Wf(h)
  {
    forall u: nat :: u < |h| && h[u].meta ==> h[ParentOf(h, u)].root != r
  }

  /** What may be stored: nil, a simple value, or a table not stored anywhere yet. */
  ghost predicate Storable(h: Heap, w: nat, k: string, v: Value) {
    && Wf(h) && w < |h| && !Reserved(k) && LeafTree(h, h[w].root)
    && (v.Tab? ==> w < v.ref < |h| && h[v.ref].root == h[w].root && forall t: nat, l :: !Holds(h, t, l, v.ref))
  }

  lemma SetRawWf(h: Heap, w: nat, k: string, v: Value)
    requires Storable(h, w, k, v)
    ensures Wf(SetRaw(h, w, k, v))
    ensures forall r :: LeafTree(h, r) ==> LeafTree(SetRaw(h, w, k, v), r)
  {
    var g := SetRaw(h, w, k, v);
    forall u: nat | u < |g| ensures Linked(g, u) && g[u].root <= u {
      assert Linked(h, u);
    }
    forall u: nat, l, c: nat | Holds(g, u, l, c) ensures u < c < |g| && g[c].root == g[u].root {
      assert Holds(h, u, l, c) || (u == w && l == k && v == Tab(c));
    }
    forall u: nat, l, x: nat, m, c: nat | Holds(g, u, l, c) && Holds(g, x, m, c) ensures u == x && l == m {
      assert Holds(h, u, l, c) || (u == w && l == k && v == Tab(c));
      assert Holds(h, x, m, c) || (x == w && m == k && v == Tab(c));
    }
    forall r, u: nat | LeafTree(h, r) && u < |g| && g[u].meta ensures g[ParentOf(g, u)].root != r {
      assert Linked(h, u) && ParentOf(g, u) == ParentOf(h, u);
    }
  }

  lemma {:induction false} RawAtSnoc(h: Heap, t: nat, p: seq<string>, k: string)
    requires Wf(h) && t < |h| && DataPath(p + [k]) && DataPath(p)
    ensures RawAt(h, t, p + [k]) == match RawAt(h, t, p) {
        case None => None
        case Some(u) => if k in h[u].raw && h[u].raw[k].Tab? then Some(h[u].raw[k].ref) else None
      }
    decreases |p|
  {
    if p == [] {
      assert p + [k] == [k];
    } else if p[0] in h[t].raw && h[t].raw[p[0]].Tab? {
      assert Holds(h, t, p[0], h[t].raw[p[0]].ref);
      assert (p + [k])[1..] == p[1..] + [k];
      RawAtSnoc(h, h[t].raw[p[0]].ref, p[1..], k);
    }
  }

  /** The last step of a raw path: the table before it holds the table at its end. */
  lemma RawAtLast(h: Heap, t: nat, p: seq<string>, c: nat)
    requires Wf(h) && t < |h| && p != [] && DataPath(p) && RawAt(h, t, p) == Some(c)
    ensures var (a, k) := (p[..|p|-1], p[|p|-1]);
      DataPath(a) && RawAt(h, t, a).Some? && Holds(h, RawAt(h, t, a).value, k, c)
  {
    assert p == p[..|p|-1] + [p[|p|-1]];
    RawAtSnoc(h, t, p[..|p|-1], p[|p|-1]);
  }

  /** Without aliasing a table sits at one raw path only. */
  lemma {:induction false} RawPathUnique(h: Heap, t: nat, p: seq<string>, q: seq<string>)
    requires Wf(h) && t < |h| && DataPath(p) && DataPath(q)
    requires RawAt(h, t, p).Some? && RawAt(h, t, p) == RawAt(h, t, q)
    ensures p == q
    decreases |p|
  {
    if p != [] && q != [] {
      var c := RawAt(h, t, p).value;
      RawAtLast(h, t, p, c);
      RawAtLast(h, t, q, c);
      RawPathUnique(h, t, p[..|p|-1], q[..|q|-1]);
      assert p == p[..|p|-1] + [p[|p|-1]] && q == q[..|q|-1] + [q[|q|-1]];
    } else if p != [] || q != [] {
      var s := if p == [] then q else p;
      assert Holds(h, t, s[0], h[t].raw[s[0]].ref);
    }
  }

  /** Table `u` is in another tree than `w`, or `w` is nowhere below it. */
  ghost predicate Away(h: Heap, u: nat, w: nat)
    requires Wf(h) && u < |h| && w < |h|
  {
    h[u].root != h[w].root || forall p :: DataPath(p) ==> RawAt(h, u, p) != Some(w)
  }

  lemma {:induction false} LookupElsewhere(h: Heap, w: nat, k: string, v: Value, u: nat, l: string)
    requires Storable(h, w, k, v) && Wf(SetRaw(h, w, k, v))
    requires u < |h| && h[u].root != h[w].root && !Reserved(l)
    ensures Lookup(SetRaw(h, w, k, v), u, l) == Lookup(h, u, l)
    ensures Lookup(h, u, l).Tab? ==> h[Lookup(h, u, l).ref].root != h[w].root
    decreases u
  {
    if l in h[u].raw {
      if h[u].raw[l].Tab? { assert Holds(h, u, l, h[u].raw[l].ref); }
    } else if h[u].meta {
      LookupElsewhere(h, w, k, v, ParentOf(h, u), l);
    }
  }

  lemma {:induction false} LookupAway(h: Heap, w: nat, k: string, v: Value, u: nat, l: string)
    requires Storable(h, w, k, v) && Wf(SetRaw(h, w, k, v))
    requires u < |h| && !Reserved(l) && Away(h, u, w)
    ensures Lookup(SetRaw(h, w, k, v), u, l) == Lookup(h, u, l)
    ensures Lookup(h, u, l).Tab? ==> Away(h, Lookup(h, u, l).ref, w)
  {
    if h[u].root != h[w].root {
      LookupElsewhere(h, w, k, v, u, l);
    } else if l in h[u].raw {
      assert RawAt(h, u, []) != Some(w);
      if h[u].raw[l].Tab? {
        var c := h[u].raw[l].ref;
        assert Holds(h, u, l, c);
        forall p | DataPath(p) ensures RawAt(h, c, p) != Some(w) {
          assert ([l] + p)[1..] == p;
          assert RawAt(h, u, [l] + p) == RawAt(h, c, p);
        }
      }
    } else {
      assert RawAt(h, u, []) != Some(w);
      if h[u].meta { LookupElsewhere(h, w, k, v, ParentOf(h, u), l); }
    }
  }

  lemma {:induction false} ViewAway(h: Heap, w: nat, k: string, v: Value, u: nat, q: seq<string>)
    requires Storable(h, w, k, v) && Wf(SetRaw(h, w, k, v))
    requires u < |h| && DataPath(q) && Away(h, u, w)
    ensures Resolve(SetRaw(h, w, k, v), u, q) == Resolve(h, u, q)
    decreases |q|
  {
    if q != [] {
      LookupAway(h, w, k, v, u, q[0]);
      var a := Lookup(h, u, q[0]);
      if a.Tab? {
        assert a == Tab(a.ref);
        ViewAway(h, w, k, v, a.ref, q[1..]);
      } else {
        assert View(SetRaw(h, w, k, v), a, q[1..]) == View(h, a, q[1..]);
      }
    }
  }

  lemma {:induction false} FreshAway(h: Heap, w: nat, c: nat)
    requires Wf(h) && w < c < |h|
    ensures Away(h, c, w)
  {
  }

  lemma {:induction false} SiblingAway(h: Heap, t: nat, p: seq<string>, w: nat, l: string)
    requires Wf(h) && t < |h| && DataPath(p) && RawAt(h, t, p) == Some(w) && !Reserved(l)
    requires l in h[t].raw && h[t].raw[l].Tab? && (p == [] || p[0] != l)
    ensures h[t].raw[l].ref < |h| && Away(h, h[t].raw[l].ref, w)
  {
    var c := h[t].raw[l].ref;
    assert Holds(h, t, l, c);
    forall r | DataPath(r) ensures RawAt(h, c, r) != Some(w) {
      assert ([l] + r)[1..] == r;
      if RawAt(h, c, r) == Some(w) {
        assert RawAt(h, t, [l] + r) == Some(w);
        RawPathUnique(h, t, p, [l] + r);
      }
    }
  }

  // ----- What lies beneath an entry -----

  /** The value the base of table `t` has for a key: what erasing the entry uncovers. */
  ghost function Beneath(h: Heap, t: nat, k: string): (v: Value)
    requires Wf(h) && t < |h|
    ensures v.Tab? && !Reserved(k) ==> v.ref < |h|
  {
    if h[t].meta then Lookup(h, ParentOf(h, t), k) else Nil
  }

  /** What stands at the entry once `v` was stored. */
  ghost function NowAt(h: Heap, w: nat, k: string, v: Value): Value
    requires Wf(h) && w < |h|
  {
    if v == Nil then Beneath(h, w, k) else v
  }

  /** What lies beneath the entry at path `x`, seen at `q` below it.  A table that was not
      copied yet has no entries of its own, so there it is what the path shows. */
  ghost function Under(h: Heap, t: nat, x: seq<string>, q: seq<string>): Seen
    requires Wf(h) && t < |h| && x != [] && DataPath(x) && DataPath(q)
    decreases |x|
  {
    if |x| == 1 then View(h, Beneath(h, t, x[0]), q)
    else if x[0] in h[t].raw && h[t].raw[x[0]].Tab? then
      assert Holds(h, t, x[0], h[t].raw[x[0]].ref);
      Under(h, h[t].raw[x[0]].ref, x[1..], q)
    else Resolve(h, t, x + q)
  }

  /** Beneath the entries of a table held in raw lies what its own base has. */
  lemma {:induction false} UnderIsBeneath(h: Heap, t: nat, p: seq<string>, w: nat, k: string, q: seq<string>)
    requires Wf(h) && t < |h| && DataPath(p) && !Reserved(k) && DataPath(q) && RawAt(h, t, p) == Some(w)
    ensures Under(h, t, p + [k], q) == View(h, Beneath(h, w, k), q)
    decreases |p|
  {
    if p == [] {
      assert p + [k] == [k];
    } else {
      assert Holds(h, t, p[0], h[t].raw[p[0]].ref);
      assert (p + [k])[1..] == p[1..] + [k];
      UnderIsBeneath(h, h[t].raw[p[0]].ref, p[1..], w, k, q);
    }
  }

  ghost predicate Bare(h: Heap, t: nat)
    requires t < |h|
  {
    forall k :: k in h[t].raw ==> Reserved(k)
  }

  /** A table without entries of its own shows what lies beneath them. */
  lemma {:induction false} BareUnder(h: Heap, t: nat, x: seq<string>, q: seq<string>)
    requires Wf(h) && t < |h| && Bare(h, t) && x != [] && DataPath(x) && DataPath(q)
    ensures Under(h, t, x, q) == Resolve(h, t, x + q)
  {
    assert !Reserved(x[0]) && x[0] !in h[t].raw;
    if |x| == 1 {
      assert (x + q)[0] == x[0] && (x + q)[1..] == q;
      assert Lookup(h, t, x[0]) == Beneath(h, t, x[0]);
    }
  }

  /** Storing in `w` does not change what lies beneath the entries of any table. */
  lemma {:induction false} BeneathSame(h: Heap, w: nat, k: string, v: Value, u: nat, l: string, q: seq<string>)
    requires Storable(h, w, k, v) && Wf(SetRaw(h, w, k, v)) && u < |h| && !Reserved(l) && DataPath(q)
    ensures Beneath(SetRaw(h, w, k, v), u, l) == Beneath(h, u, l)
    ensures View(SetRaw(h, w, k, v), Beneath(h, u, l), q) == View(h, Beneath(h, u, l), q)
  {
    var g := SetRaw(h, w, k, v);
    var b := Beneath(h, u, l);
    if h[u].meta {
      assert Linked(h, u) && ParentOf(g, u) == ParentOf(h, u);
      LookupElsewhere(h, w, k, v, ParentOf(h, u), l);
    }
    if b.Tab? {
      assert b == Tab(b.ref);
      ViewAway(h, w, k, v, b.ref, q);
    }
  }

  lemma {:induction false} UnderAway(h: Heap, w: nat, k: string, v: Value, u: nat, x: seq<string>, q: seq<string>)
    requires Storable(h, w, k, v) && Wf(SetRaw(h, w, k, v)) && u < |h| && Away(h, u, w)
    requires x != [] && DataPath(x) && DataPath(q)
    ensures Under(SetRaw(h, w, k, v), u, x, q) == Under(h, u, x, q)
    decreases |x|
  {
    if |x| == 1 {
      BeneathSame(h, w, k, v, u, x[0], q);
    } else {
      assert u != w by { assert h[u].root == h[w].root ==> RawAt(h, u, []) != Some(w); }
      if x[0] in h[u].raw && h[u].raw[x[0]].Tab? {
        assert Holds(h, u, x[0], h[u].raw[x[0]].ref);
        LookupAway(h, w, k, v, u, x[0]);
        UnderAway(h, w, k, v, h[u].raw[x[0]].ref, x[1..], q);
      } else {
        ViewAway(h, w, k, v, u, x + q);
      }
    }
  }

  // ----- The effect of a store -----

  /** A store through raw path `p` changes the tree of `t` at `p + [k]` and below,
      and nowhere else. */
  lemma {:induction false} ViewStored(h: Heap, t: nat, p: seq<string>, w: nat, k: string, v: Value, q: seq<string>)
    requires Storable(h, w, k, v) && Wf(SetRaw(h, w, k, v))
    requires t < |h| && DataPath(p) && RawAt(h, t, p) == Some(w) && DataPath(q)
    ensures Resolve(SetRaw(h, w, k, v), t, q)
         == if p + [k] <= q then View(h, NowAt(h, w, k, v), q[|p| + 1..]) else Resolve(h, t, q)
    decreases |q|
  {
    var g := SetRaw(h, w, k, v);
    if q != [] {
      if p == [] {
        assert t == w;
        if q[0] == k {
          assert p + [k] <= q;
          StoredHere(h, w, k, v, q);
        } else {
          StoredBeside(h, t, p, w, k, v, q);
        }
      } else if q[0] == p[0] {
        var c := h[t].raw[p[0]].ref;
        assert Holds(h, t, p[0], c) && t != w by { StoredAbove(h, t, p, w); }
        ViewStored(h, c, p[1..], w, k, v, q[1..]);
        assert p + [k] == [p[0]] + (p[1..] + [k]);
        assert q == [q[0]] + q[1..];
        assert p + [k] <= q <==> p[1..] + [k] <= q[1..];
        if p + [k] <= q {
          assert q[1..][|p[1..]| + 1..] == q[|p| + 1..];
        }
      } else {
        StoredBeside(h, t, p, w, k, v, q);
      }
    }
  }

  lemma {:induction false} StoredHere(h: Heap, w: nat, k: string, v: Value, q: seq<string>)
    requires Storable(h, w, k, v) && Wf(SetRaw(h, w, k, v)) && DataPath(q) && q != [] && q[0] == k
    ensures Resolve(SetRaw(h, w, k, v), w, q) == View(h, NowAt(h, w, k, v), q[1..])
  {
    var g := SetRaw(h, w, k, v);
    BeneathSame(h, w, k, v, w, k, q[1..]);
    assert Lookup(g, w, k) == NowAt(h, w, k, v);
    if v.Tab? {
      assert v == Tab(v.ref);
      FreshAway(h, w, v.ref);
      ViewAway(h, w, k, v, v.ref, q[1..]);
    } else {
      assert View(g, v, q[1..]) == View(h, v, q[1..]);
    }
  }

  /** The same store, for what lies beneath: below the entry stored it is what now stands
      there, and elsewhere what it was. */
  lemma {:induction false} UnderStored(h: Heap, t: nat, p: seq<string>, w: nat, k: string, v: Value, x: seq<string>,
      q: seq<string>)
    requires Storable(h, w, k, v) && Wf(SetRaw(h, w, k, v)) && (v.Tab? ==> Bare(h, v.ref))
    requires t < |h| && DataPath(p) && RawAt(h, t, p) == Some(w) && x != [] && DataPath(x) && DataPath(q)
    ensures Under(SetRaw(h, w, k, v), t, x, q)
         == if p + [k] < x then View(h, NowAt(h, w, k, v), x[|p| + 1..] + q) else Under(h, t, x, q)
    decreases |x|
  {
    var g := SetRaw(h, w, k, v);
    if |x| == 1 {
      BeneathSame(h, w, k, v, t, x[0], q);
    } else if p == [] && x[0] == k {
      UnderHere(h, w, k, v, x, q);
      assert p + [k] < x;
    } else if p != [] && x[0] == p[0] {
      StoredAbove(h, t, p, w);
      var c := h[t].raw[p[0]].ref;
      UnderStored(h, c, p[1..], w, k, v, x[1..], q);
      assert p + [k] == [p[0]] + (p[1..] + [k]) && x == [x[0]] + x[1..];
      assert p + [k] < x <==> p[1..] + [k] < x[1..];
      if p + [k] < x { assert x[1..][|p[1..]| + 1..] == x[|p| + 1..]; }
    } else {
      UnderBeside(h, t, p, w, k, v, x, q);
    }
  }

  lemma {:induction false} UnderHere(h: Heap, w: nat, k: string, v: Value, x: seq<string>, q: seq<string>)
    requires Storable(h, w, k, v) && Wf(SetRaw(h, w, k, v)) && (v.Tab? ==> Bare(h, v.ref))
    requires |x| > 1 && DataPath(x) && DataPath(q) && x[0] == k
    ensures Under(SetRaw(h, w, k, v), w, x, q) == View(h, NowAt(h, w, k, v), x[1..] + q)
  {
    var g := SetRaw(h, w, k, v);
    var y := x[1..] + q;
    if v.Tab? {
      assert Holds(g, w, k, v.ref) && g[w].raw[k] == v && v == Tab(v.ref);
      BareUnder(g, v.ref, x[1..], q);
      FreshAway(h, w, v.ref);
      ViewAway(h, w, k, v, v.ref, y);
      assert Under(g, w, x, q) == Under(g, v.ref, x[1..], q);
    } else {
      assert (x + q)[0] == k && (x + q)[1..] == y;
      StoredHere(h, w, k, v, x + q);
    }
  }

  lemma {:induction false} UnderBeside(h: Heap, t: nat, p: seq<string>, w: nat, k: string, v: Value, x: seq<string>,
      q: seq<string>)
    requires Storable(h, w, k, v) && Wf(SetRaw(h, w, k, v))
    requires t < |h| && DataPath(p) && RawAt(h, t, p) == Some(w) && |x| > 1 && DataPath(x) && DataPath(q)
    requires x[0] != (if p == [] then k else p[0])
    ensures !(p + [k] < x) && Under(SetRaw(h, w, k, v), t, x, q) == Under(h, t, x, q)
  {
    var g := SetRaw(h, w, k, v);
    assert (p + [k])[0] == if p == [] then k else p[0];
    if p != [] { StoredAbove(h, t, p, w); }
    if x[0] in h[t].raw && h[t].raw[x[0]].Tab? {
      SiblingAway(h, t, p, w, x[0]);
      UnderAway(h, w, k, v, h[t].raw[x[0]].ref, x[1..], q);
    } else {
      assert (x + q)[0] == x[0];
      StoredBeside(h, t, p, w, k, v, x + q);
    }
  }

  lemma {:induction false} StoredAbove(h: Heap, t: nat, p: seq<string>, w: nat)
    requires Wf(h) && t < |h| && DataPath(p) && p != [] && RawAt(h, t, p) == Some(w)
    ensures t < w && Holds(h, t, p[0], h[t].raw[p[0]].ref)
  {
    assert Holds(h, t, p[0], h[t].raw[p[0]].ref);
  }

  lemma {:induction false} StoredBeside(h: Heap, t: nat, p: seq<string>, w: nat, k: string, v: Value, q: seq<string>)
    requires Storable(h, w, k, v) && Wf(SetRaw(h, w, k, v))
    requires t < |h| && DataPath(p) && RawAt(h, t, p) == Some(w) && DataPath(q) && q != []
    requires q[0] != (if p == [] then k else p[0])
    ensures Resolve(SetRaw(h, w, k, v), t, q) == Resolve(h, t, q)
  {
    var g := SetRaw(h, w, k, v);
    if p != [] { StoredAbove(h, t, p, w); }
    if q[0] in h[t].raw {
      if h[t].raw[q[0]].Tab? {
        SiblingAway(h, t, p, w, q[0]);
        assert h[t].raw[q[0]] == Tab(h[t].raw[q[0]].ref);
        ViewAway(h, w, k, v, h[t].raw[q[0]].ref, q[1..]);
      } else {
        assert View(g, h[t].raw[q[0]], q[1..]) == View(h, h[t].raw[q[0]], q[1..]);
      }
    } else if h[t].meta {
      var x := ParentOf(h, t);
      assert Linked(h, t) && ParentOf(g, t) == x;
      LookupElsewhere(h, w, k, v, x, q[0]);
      var a := Lookup(h, x, q[0]);
      if a.Tab? {
        assert a == Tab(a.ref);
        ViewAway(h, w, k, v, a.ref, q[1..]);
      } else {
        assert View(g, a, q[1..]) == View(h, a, q[1..]);
      }
    } else {
      assert Lookup(g, t, q[0]) == Nil;
      assert View(g, Nil, q[1..]) == View(h, Nil, q[1..]);
    }
  }

  // ----- Making overlays: _luaParent -----

  /** A table that `_luaParent` makes: `Inherit`/`Reference` of `ref` on top of table `p`. */
  function Overlay(p: nat, ref: string, fn: string, root: nat): Table {
    Table(map[PARENT := Tab(p), REF := Str(ref), FUNC := Str(fn)], true, root)
  }

  /** The heap and the table an overlay of `ref` inherits from: the empty name gives
      a new empty table, any other name the loaded script's `GameData`. */
  function Base(h: Heap, files: map<string, nat>, ref: string): (r: (Heap, Option<nat>)) {
    if ref == "" then (h + [Table(map[], false, |h|)], Some(|h|))
    else if ref in files then (h, Some(files[ref]))
    else (h, None)
  }

  lemma {:induction false} AppendLookup(h: Heap, g: Heap, t: nat, k: string)
    requires Wf(h) && Wf(g) && h <= g && t < |h|
    ensures Lookup(g, t, k) == Lookup(h, t, k)
    decreases t
  {
    assert g[t] == h[t];
    if k !in h[t].raw && h[t].meta {
      assert Linked(h, t) && ParentOf(g, t) == ParentOf(h, t);
      AppendLookup(h, g, ParentOf(h, t), k);
    }
  }

  lemma {:induction false} AppendView(h: Heap, g: Heap, v: Value, q: seq<string>)
    requires Wf(h) && Wf(g) && h <= g && DataPath(q) && (v.Tab? ==> v.ref < |h|)
    ensures View(g, v, q) == View(h, v, q)
    decreases |q|
  {
    if v.Tab? && q != [] {
      AppendLookup(h, g, v.ref, q[0]);
      AppendView(h, g, Lookup(h, v.ref, q[0]), q[1..]);
    }
  }

  lemma {:induction false} AppendUnder(h: Heap, g: Heap, t: nat, x: seq<string>, q: seq<string>)
    requires Wf(h) && Wf(g) && h <= g && t < |h| && x != [] && DataPath(x) && DataPath(q)
    ensures Under(g, t, x, q) == Under(h, t, x, q)
    decreases |x|
  {
    assert g[t] == h[t];
    if |x| == 1 {
      assert Linked(h, t) && Linked(g, t);
      if h[t].meta { AppendLookup(h, g, ParentOf(h, t), x[0]); }
      AppendView(h, g, Beneath(h, t, x[0]), q);
    } else if x[0] in h[t].raw && h[t].raw[x[0]].Tab? {
      assert Holds(h, t, x[0], h[t].raw[x[0]].ref);
      AppendUnder(h, g, h[t].raw[x[0]].ref, x[1..], q);
    } else {
      AppendView(h, g, Tab(t), x + q);
    }
  }

  ghost predicate Loose(h: Heap, n: Table) {
    && n.root <= |h|
    && if n.meta then
         && n.raw.Keys == {PARENT, REF, FUNC}
         && n.raw[PARENT].Tab? && n.raw[PARENT].ref < |h| && h[n.raw[PARENT].ref].root != n.root
         && n.raw[REF].Str? && n.raw[FUNC].Str?
       else n.raw == map[]
  }

  /** Adding a table that nothing refers to: either empty, or an overlay. */
  lemma AppendWf(h: Heap, n: Table)
    requires Wf(h) && Loose(h, n)
    ensures Wf(h + [n])
    ensures forall r :: LeafTree(h, r) && (n.meta ==> h[ParentOf(h + [n], |h|)].root != r) ==> LeafTree(h + [n], r)
  {
    var g := h + [n];
    forall u: nat | u < |g| ensures Linked(g, u) && g[u].root <= u {
      if u < |h| { assert Linked(h, u); }
    }
    forall u: nat, l, c: nat | Holds(g, u, l, c) ensures Holds(h, u, l, c) {
    }
    forall u: nat, l | u < |g| && l in g[u].raw ensures g[u].raw[l] != Nil {
    }
    forall r, u: nat | LeafTree(h, r) && (n.meta ==> h[ParentOf(g, |h|)].root != r) && u < |g| && g[u].meta
      ensures g[ParentOf(g, u)].root != r
    {
      if u < |h| { assert Linked(h, u) && ParentOf(g, u) == ParentOf(h, u); }
    }
  }

  /** A new overlay, not yet stored anywhere, shows the tree of its base. */
  lemma {:induction false} OverlayView(h: Heap, p: nat, ref: string, fn: string, root: nat, q: seq<string>)
    requires Wf(h) && p < |h| && h[p].root != root && root <= |h| && DataPath(q)
    ensures Wf(h + [Overlay(p, ref, fn, root)])
    ensures Resolve(h + [Overlay(p, ref, fn, root)], |h|, q) == Resolve(h, p, q)
  {
    var n := Overlay(p, ref, fn, root);
    AppendWf(h, n);
    var g := h + [n];
    if q != [] {
      assert Linked(g, |h|) && ParentOf(g, |h|) == p;
      assert Lookup(g, |h|, q[0]) == Lookup(g, p, q[0]);
      AppendView(h, g, Tab(p), q);
    }
  }
}
