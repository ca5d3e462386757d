/** Which statements the writer writes for a tree, and what becomes of them: reads leave them
    alone, and after a run they are the run's own statements, less those overwritten. */
module LuaWritten {
  import opened LuaHeap
  import opened LuaStores
  import opened LuaRuns
  import opened LuaSave
  import opened Options

  // ----- What reads leave behind -----

  predicate NewTable(v: Value, n: nat) {
    v.Tab? && n <= v.ref
  }

  /** A table that reads made: a proxy, holding nothing but other such tables. */
  ghost predicate Silent(t: Table, n: nat) {
    && t.meta && FUNC in t.raw && t.raw[FUNC] == Str("")
    && forall l :: l in t.raw && !Reserved(l) ==> NewTable(t.raw[l], n)
  }

  /** `g` is `h` after reads: every entry that an old table gained holds a new table, never
      a value of the base, and every new table is silent. */
  ghost predicate Quiet(h: Heap, g: Heap) {
    && Extends(h, g)
    && (forall u: nat, l :: u < |h| && l in g[u].raw && l !in h[u].raw ==> NewTable(g[u].raw[l], |h|))
    && (forall u: nat :: |h| <= u < |g| ==> Silent(g[u], |h|))
  }

  lemma QuietTwice(h: Heap, m: Heap, g: Heap)
    requires Quiet(h, m) && Quiet(m, g)
    ensures Quiet(h, g)
  {
    forall u: nat, l | u < |h| && l in g[u].raw && l !in h[u].raw ensures NewTable(g[u].raw[l], |h|) {
      if l in m[u].raw { assert NewTable(m[u].raw[l], |h|); } else { assert NewTable(g[u].raw[l], |m|); }
    }
    forall u: nat | |h| <= u < |g| ensures Silent(g[u], |h|) {
      if u < |m| {
        assert Silent(m[u], |h|);
        forall l | l in g[u].raw && !Reserved(l) ensures NewTable(g[u].raw[l], |h|) {
          if l in m[u].raw { assert NewTable(m[u].raw[l], |h|); } else { assert NewTable(g[u].raw[l], |m|); }
        }
      } else {
        assert Silent(g[u], |m|);
        forall l | l in g[u].raw && !Reserved(l) ensures NewTable(g[u].raw[l], |h|) {
          assert NewTable(g[u].raw[l], |m|);
        }
      }
    }
  }

  lemma QuietMaterialise(h: Heap, t: nat, k: string, v: nat)
    requires Inherits(h, t, k, v)
    ensures REF in h[t].raw && Quiet(h, Materialise(h, t, k, v))
  {
    MaterialiseWf(h, t, k, v);
    var g := Materialise(h, t, k, v);
    assert Silent(g[|h|], |h|);
  }

  /** A read gives the tables it passes nothing but proxies: a simple value of the base is not
      copied down. */
  lemma {:induction false} QuietIndex(h: Heap, t: nat, k: string)
    requires Wf(h) && t < |h| && !Reserved(k)
    ensures Quiet(h, Index(h, t, k).0)
    decreases t
  {
    if k !in h[t].raw && h[t].meta {
      var p := ParentOf(h, t);
      QuietIndex(h, p, k);
      IndexTransparent(h, p, k);
      var (h1, v) := Index(h, p, k);
      if v.Tab? {
        assert Linked(h, t) && ParentOf(h1, t) == p && Holds(h1, p, k, v.ref) && Lookup(h1, t, k) == Tab(v.ref);
        QuietMaterialise(h1, t, k, v.ref);
        QuietTwice(h, h1, Materialise(h1, t, k, v.ref));
      }
    }
  }

  /** The proxy a read leaves stands for the table the parent has there, and carries the file
      name of the table read, but no function. */
  lemma {:induction false} IndexProxy(h: Heap, t: nat, k: string)
    requires Wf(h) && t < |h| && !Reserved(k) && h[t].meta && k !in h[t].raw && Index(h, t, k).1.Tab?
    ensures var (g, v) := Index(h, t, k);
      && Wf(g) && |h| <= v.ref < |g| && Holds(g, t, k, v.ref) && REF in h[t].raw
      && Proxied(g, t, k, v.ref) && g[v.ref].raw[REF] == h[t].raw[REF] && g[v.ref].root == h[t].root
  {
    var p := ParentOf(h, t);
    IndexTransparent(h, t, k);
    IndexTransparent(h, p, k);
    var (h1, v) := Index(h, p, k);
    assert Linked(h, t) && ParentOf(h1, t) == p && Holds(h1, p, k, v.ref) && Lookup(h1, t, k) == Tab(v.ref);
    var g := Materialise(h1, t, k, v.ref);
    assert Linked(g, |h1|) && Linked(g, t) && ParentOf(g, t) == p && Holds(g, p, k, v.ref);
  }

  lemma {:induction false} QuietWalk(h: Heap, t: nat, p: seq<string>)
    requires Wf(h) && t < |h| && DataPath(p)
    ensures Quiet(h, Walk(h, t, p).0)
    decreases |p|
  {
    if p != [] {
      QuietIndex(h, t, p[0]);
      IndexTransparent(h, t, p[0]);
      var (g, v) := Index(h, t, p[0]);
      if v.Tab? {
        assert Holds(g, t, p[0], v.ref);
        QuietWalk(g, v.ref, p[1..]);
        QuietTwice(h, g, Walk(g, v.ref, p[1..]).0);
      }
    }
  }

  // ----- The statements of a tree -----

  /** The entry of table `w` is written as this statement. */
  ghost predicate EntryWrites(h: Heap, w: nat, o: Op)
    requires Wf(h) && w < |h| && !o.Read? && !Reserved(o.k)
  {
    o.k in h[w].raw && ValueWrites(h, h[w].raw[o.k], o)
  }

  /** A value so written: an assignment of it, or the call that made the table. */
  ghost predicate ValueWrites(h: Heap, v: Value, o: Op) {
    match o
    case Put(_, _, x) => v == x && !v.Tab? && v != Nil
    case Attach(_, _, fn, ref) =>
      && v.Tab? && v.ref < |h| && h[v.ref].meta && FUNC in h[v.ref].raw && REF in h[v.ref].raw
      && fn != "" && h[v.ref].raw[FUNC] == Str(fn) && h[v.ref].raw[REF] == Str(ref)
    case _ => false
  }

  /** The statement is one of those written for the tree below table `t`: its path leads, by
      entries of the tree itself, to an entry that is written so. */
  ghost predicate Written(h: Heap, t: nat, o: Op)
    requires Wf(h) && t < |h|
  {
    && !o.Read? && DataPath(o.p) && !Reserved(o.k) && RawAt(h, t, o.p).Some?
    && EntryWrites(h, RawAt(h, t, o.p).value, o)
  }

  /** The statement as seen from a table further down its path. */
  function Below(o: Op, n: nat): Op
    requires n <= |o.p|
  {
    match o
    case Read(p) => Read(p[n..])
    case Put(p, k, v) => Put(p[n..], k, v)
    case Create(p, k) => Create(p[n..], k)
    case Attach(p, k, fn, ref) => Attach(p[n..], k, fn, ref)
  }

  /** The same, with the path of the table in front. */
  ghost predicate WrittenAt(h: Heap, t: nat, prefix: seq<string>, o: Op)
    requires Wf(h) && t < |h|
  {
    prefix <= o.p && Written(h, t, Below(o, |prefix|))
  }

  /** The place a statement stores at. */
  function Target(o: Op): seq<string>
    requires !o.Read?
  {
    o.p + [o.k]
  }

  /** `Body` lists these statements and no other. */
  lemma {:induction false} BodyWrites(h: Heap, ord: Order, t: nat, prefix: seq<string>, o: Op)
    requires Wf(h) && Lists(h, ord) && t < |h|
    ensures o in Body(h, ord, t, prefix) <==> WrittenAt(h, t, prefix, o)
    decreases |h| - t, 1, 0
  {
    var keys := ord(t);
    assert ListsKeys(h, t, keys);
    LinesWrite(h, ord, t, prefix, keys, o);
    if WrittenAt(h, t, prefix, o) { FirstHeld(h, t, Below(o, |prefix|)); FirstKey(prefix, o); }
  }

  lemma FirstKey(prefix: seq<string>, o: Op)
    requires !o.Read? && prefix <= o.p
    ensures Target(o)[|prefix|] == Target(Below(o, |prefix|))[0]
  {
  }

  lemma {:induction false} FirstHeld(h: Heap, t: nat, o: Op)
    requires Wf(h) && t < |h| && Written(h, t, o)
    ensures !Reserved(Target(o)[0]) && Target(o)[0] in h[t].raw
  {
    if o.p != [] { assert Holds(h, t, o.p[0], h[t].raw[o.p[0]].ref); }
  }

  lemma {:induction false} LinesWrite(h: Heap, ord: Order, t: nat, prefix: seq<string>, keys: seq<string>, o: Op)
    requires Wf(h) && Lists(h, ord) && t < |h|
    requires forall i :: 0 <= i < |keys| ==> keys[i] in h[t].raw && !Reserved(keys[i])
    ensures o in Lines(h, ord, t, prefix, keys) <==> WrittenAt(h, t, prefix, o) && Target(o)[|prefix|] in keys
    decreases |h| - t, 0, |keys|
  {
    if keys != [] {
      LineWrites(h, ord, t, prefix, keys[0], o);
      LinesWrite(h, ord, t, prefix, keys[1..], o);
    }
  }

  lemma {:induction false} LineWrites(h: Heap, ord: Order, t: nat, prefix: seq<string>, k: string, o: Op)
    requires Wf(h) && Lists(h, ord) && t < |h| && k in h[t].raw && !Reserved(k)
    ensures o in Line(h, ord, t, prefix, k) <==> WrittenAt(h, t, prefix, o) && Target(o)[|prefix|] == k
    decreases |h| - t, 0, 0
  {
    var v := h[t].raw[k];
    if v.Tab? {
      assert Holds(h, t, k, v.ref) && Linked(h, v.ref);
      BodyWrites(h, ord, v.ref, prefix + [k], o);
      TableWrites(h, t, prefix, k, o);
    } else {
      ValueLine(h, t, prefix, k, o);
    }
  }

  lemma {:induction false} ValueLine(h: Heap, t: nat, prefix: seq<string>, k: string, o: Op)
    requires Wf(h) && t < |h| && k in h[t].raw && !Reserved(k) && !h[t].raw[k].Tab?
    ensures o == Put(prefix, k, h[t].raw[k]) <==> WrittenAt(h, t, prefix, o) && Target(o)[|prefix|] == k
  {
    if prefix <= o.p && !o.Read? {
      FirstKey(prefix, o);
      if o.p == prefix { assert o.p[|prefix|..] == []; }
    }
    if o == Put(prefix, k, h[t].raw[k]) { assert o.p[|prefix|..] == []; }
  }

  /** What is written for a nested table: its call, if it came from one, and what stands below. */
  lemma {:induction false} TableWrites(h: Heap, t: nat, prefix: seq<string>, k: string, o: Op)
    requires Wf(h) && t < |h| && k in h[t].raw && !Reserved(k) && h[t].raw[k].Tab?
    ensures h[t].raw[k].ref < |h|
    ensures WrittenAt(h, t, prefix, o) && Target(o)[|prefix|] == k <==>
      o in Header(h, h[t].raw[k].ref, prefix, k) || WrittenAt(h, h[t].raw[k].ref, prefix + [k], o)
  {
    var c := h[t].raw[k].ref;
    assert Holds(h, t, k, c) && Linked(h, c);
    if prefix <= o.p && !o.Read? {
      var q := o.p[|prefix|..];
      FirstKey(prefix, o);
      if q != [] {
        assert prefix + [k] <= o.p <==> q[0] == k;
        assert q[1..] == o.p[|prefix| + 1..];
      } else {
        assert o.p == prefix && !(prefix + [k] <= o.p);
      }
    } else if prefix + [k] <= o.p {
      assert prefix <= o.p by { assert (prefix + [k])[..|prefix|] == prefix; }
    }
  }

  /** For a whole tree: whatever the order of the keys, what is written is just this. */
  lemma BodyIsWritten(h: Heap, ord: Order, t: nat, o: Op)
    requires Wf(h) && Lists(h, ord) && t < |h|
    ensures o in Body(h, ord, t, []) <==> Written(h, t, o)
  {
    BodyWrites(h, ord, t, [], o);
    assert o.p[0..] == o.p;
  }

  // ----- Reading writes nothing -----

  lemma {:induction false} RawAtQuiet(h: Heap, g: Heap, u: nat, p: seq<string>)
    requires Wf(h) && Wf(g) && Quiet(h, g) && u < |h| && DataPath(p)
    ensures RawAt(h, u, p).Some? ==> RawAt(g, u, p) == RawAt(h, u, p)
    ensures RawAt(h, u, p).None? && RawAt(g, u, p).Some? ==> RawAt(g, u, p).value >= |h|
    decreases |p|
  {
    if p != [] && p[0] in h[u].raw && h[u].raw[p[0]].Tab? {
      assert Holds(h, u, p[0], h[u].raw[p[0]].ref);
      RawAtQuiet(h, g, h[u].raw[p[0]].ref, p[1..]);
    } else if p != [] && p[0] in g[u].raw && g[u].raw[p[0]].Tab? {
      assert NewTable(g[u].raw[p[0]], |h|) && Holds(g, u, p[0], g[u].raw[p[0]].ref);
    }
  }

  /** After reads every tree is written as before. */
  lemma {:induction false} QuietWrites(h: Heap, g: Heap, u: nat, o: Op)
    requires Wf(h) && Wf(g) && Quiet(h, g) && u < |h|
    ensures Written(g, u, o) <==> Written(h, u, o)
  {
    if !o.Read? && DataPath(o.p) && !Reserved(o.k) {
      RawAtQuiet(h, g, u, o.p);
      if RawAt(h, u, o.p).Some? {
        QuietEntry(h, g, RawAt(h, u, o.p).value, o);
      } else if RawAt(g, u, o.p).Some? {
        SilentEntry(h, g, RawAt(g, u, o.p).value, o);
      }
    }
  }

  lemma QuietEntry(h: Heap, g: Heap, w: nat, o: Op)
    requires Wf(h) && Wf(g) && Quiet(h, g) && w < |h| && !o.Read? && !Reserved(o.k)
    ensures EntryWrites(g, w, o) <==> EntryWrites(h, w, o)
  {
    if o.k in h[w].raw {
      if h[w].raw[o.k].Tab? {
        var c := h[w].raw[o.k].ref;
        assert Holds(h, w, o.k, c) && Linked(h, c) && Linked(g, c);
      }
    } else if o.k in g[w].raw {
      assert NewTable(g[w].raw[o.k], |h|) && Holds(g, w, o.k, g[w].raw[o.k].ref);
      assert Silent(g[g[w].raw[o.k].ref], |h|);
    }
  }

  lemma SilentEntry(h: Heap, g: Heap, w: nat, o: Op)
    requires Wf(h) && Wf(g) && Quiet(h, g) && |h| <= w < |g| && !o.Read? && !Reserved(o.k)
    ensures !EntryWrites(g, w, o)
  {
    assert Silent(g[w], |h|);
    if o.k in g[w].raw {
      assert NewTable(g[w].raw[o.k], |h|) && Holds(g, w, o.k, g[w].raw[o.k].ref);
      assert Silent(g[g[w].raw[o.k].ref], |h|);
    }
  }

  /** Reading a path, whatever proxies it leaves behind, changes no statement that is written
      for any tree. */
  lemma WalkWrites(h: Heap, t: nat, p: seq<string>, u: nat, o: Op)
    requires Wf(h) && t < |h| && DataPath(p) && u < |h|
    ensures Wf(Walk(h, t, p).0) && |h| <= |Walk(h, t, p).0|
    ensures Written(Walk(h, t, p).0, u, o) <==> Written(h, u, o)
  {
    WalkTransparent(h, t, p);
    QuietWalk(h, t, p);
    QuietWrites(h, Walk(h, t, p).0, u, o);
  }

  // ----- Storing -----

  lemma {:induction false} RawAtKept(h: Heap, w: nat, k: string, v: Value, u: nat, q: seq<string>)
    requires Storable(h, w, k, v) && Wf(SetRaw(h, w, k, v)) && u < |h| && Away(h, u, w) && DataPath(q)
    ensures RawAt(SetRaw(h, w, k, v), u, q) == RawAt(h, u, q)
    decreases |q|
  {
    if q != [] {
      assert u != w by { assert h[u].root == h[w].root ==> RawAt(h, u, []) != Some(w); }
      if q[0] in h[u].raw && h[u].raw[q[0]].Tab? {
        assert Holds(h, u, q[0], h[u].raw[q[0]].ref);
        LookupAway(h, w, k, v, u, q[0]);
        RawAtKept(h, w, k, v, h[u].raw[q[0]].ref, q[1..]);
      }
    }
  }

  /** A store at the end of raw path `p` moves no table but those below the entry stored. */
  lemma {:induction false} RawAtStored(h: Heap, t: nat, p: seq<string>, w: nat, k: string, v: Value, q: seq<string>)
    requires Storable(h, w, k, v) && Wf(SetRaw(h, w, k, v)) && t < |h| && DataPath(p) && RawAt(h, t, p) == Some(w)
    requires DataPath(q)
    ensures RawAt(SetRaw(h, w, k, v), t, q) ==
      if p + [k] <= q then (if v.Tab? then RawAt(h, v.ref, q[|p| + 1..]) else None) else RawAt(h, t, q)
    decreases |q|
  {
    if q != [] {
      if p != [] && q[0] == p[0] {
        StoredAbove(h, t, p, w);
        RawAtStored(h, h[t].raw[p[0]].ref, p[1..], w, k, v, q[1..]);
        assert p + [k] == [p[0]] + (p[1..] + [k]) && q == [q[0]] + q[1..];
        assert p + [k] <= q <==> p[1..] + [k] <= q[1..];
        if p + [k] <= q { assert q[1..][|p[1..]| + 1..] == q[|p| + 1..]; }
      } else if p == [] && q[0] == k {
        assert p + [k] <= q;
        if v.Tab? {
          FreshAway(h, w, v.ref);
          RawAtKept(h, w, k, v, v.ref, q[1..]);
        }
      } else {
        assert (p + [k])[0] == if p == [] then k else p[0];
        RawAtBeside(h, t, p, w, k, v, q);
      }
    }
  }

  lemma {:induction false} RawAtBeside(h: Heap, t: nat, p: seq<string>, w: nat, k: string, v: Value, q: seq<string>)
    requires Storable(h, w, k, v) && Wf(SetRaw(h, w, k, v)) && t < |h| && DataPath(p) && RawAt(h, t, p) == Some(w)
    requires DataPath(q) && q != [] && q[0] != (if p == [] then k else p[0])
    ensures RawAt(SetRaw(h, w, k, v), t, q) == RawAt(h, t, q)
  {
    if p != [] { StoredAbove(h, t, p, w); }
    if q[0] in h[t].raw && h[t].raw[q[0]].Tab? {
      SiblingAway(h, t, p, w, q[0]);
      RawAtKept(h, w, k, v, h[t].raw[q[0]].ref, q[1..]);
    }
  }

  lemma {:induction false} BareWrites(h: Heap, t: nat, o: Op)
    requires Wf(h) && t < |h| && Bare(h, t)
    ensures !Written(h, t, o)
  {
  }

  /** A value is written as before when only an ordinary entry of some table changed. */
  lemma ValueKept(h: Heap, w: nat, k: string, x: Value, v: Value, o: Op)
    requires w < |h| && !Reserved(k)
    ensures ValueWrites(SetRaw(h, w, k, x), v, o) <==> ValueWrites(h, v, o)
  {
  }

  lemma {:induction false} EntryKept(h: Heap, t: nat, p: seq<string>, w: nat, k: string, v: Value, o: Op)
    requires Storable(h, w, k, v) && Wf(SetRaw(h, w, k, v)) && t < |h| && DataPath(p) && RawAt(h, t, p) == Some(w)
    requires !o.Read? && DataPath(o.p) && !Reserved(o.k) && RawAt(h, t, o.p).Some? && !(p + [k] <= Target(o))
    ensures EntryWrites(SetRaw(h, w, k, v), RawAt(h, t, o.p).value, o) <==>
      EntryWrites(h, RawAt(h, t, o.p).value, o)
  {
    var x := RawAt(h, t, o.p).value;
    if x == w { RawPathUnique(h, t, p, o.p); }
    if o.k in h[x].raw { ValueKept(h, w, k, v, h[x].raw[o.k], o); }
  }

  /** A store takes away the statements at its place and below and puts in the one, if any,
      that the value stored is written as. */
  lemma {:induction false} StoreWrites(h: Heap, t: nat, p: seq<string>, w: nat, k: string, v: Value, o: Op)
    requires Storable(h, w, k, v) && Wf(SetRaw(h, w, k, v)) && (v.Tab? ==> Bare(h, v.ref))
    requires t < |h| && DataPath(p) && RawAt(h, t, p) == Some(w)
    requires !o.Read? && DataPath(o.p) && !Reserved(o.k)
    ensures Written(SetRaw(h, w, k, v), t, o) <==>
      if p + [k] <= Target(o) then o.p == p && o.k == k && ValueWrites(h, v, o) else Written(h, t, o)
  {
    var g := SetRaw(h, w, k, v);
    RawAtStored(h, t, p, w, k, v, o.p);
    if p + [k] <= o.p {
      assert p + [k] <= Target(o) && o.p != p;
      if v.Tab? { BelowBare(h, w, k, v, o, o.p[|p| + 1..]); }
    } else if p + [k] <= Target(o) {
      assert p + [k] == Target(o) && o.p == p && o.k == k by {
        assert |p + [k]| == |Target(o)|;
        assert (p + [k])[..|p|] == p && Target(o)[..|o.p|] == o.p && (p + [k])[|p|] == k;
      }
      ValueKept(h, w, k, v, v, o);
    } else if RawAt(h, t, o.p).Some? {
      EntryKept(h, t, p, w, k, v, o);
    }
  }

  lemma {:induction false} BelowBare(h: Heap, w: nat, k: string, v: Value, o: Op, q: seq<string>)
    requires Storable(h, w, k, v) && Wf(SetRaw(h, w, k, v)) && v.Tab? && Bare(h, v.ref) && DataPath(q)
    requires !o.Read? && !Reserved(o.k)
    ensures RawAt(h, v.ref, q).Some? ==> !EntryWrites(SetRaw(h, w, k, v), RawAt(h, v.ref, q).value, o)
  {
  }

  lemma {:induction false} StoreElsewhere(h: Heap, w: nat, k: string, v: Value, u: nat, o: Op)
    requires Storable(h, w, k, v) && Wf(SetRaw(h, w, k, v)) && u < |h| && h[u].root != h[w].root
    ensures Written(SetRaw(h, w, k, v), u, o) <==> Written(h, u, o)
  {
    if !o.Read? && DataPath(o.p) && !Reserved(o.k) {
      RawAtKept(h, w, k, v, u, o.p);
      if RawAt(h, u, o.p).Some? {
        var x := RawAt(h, u, o.p).value;
        if o.k in h[x].raw { ValueKept(h, w, k, v, h[x].raw[o.k], o); }
      }
    }
  }

  lemma {:induction false} RawAtAppended(h: Heap, g: Heap, t: nat, p: seq<string>)
    requires Wf(h) && Wf(g) && h <= g && t < |h| && DataPath(p)
    ensures RawAt(g, t, p) == RawAt(h, t, p)
    decreases |p|
  {
    assert g[t] == h[t];
    if p != [] && p[0] in h[t].raw && h[t].raw[p[0]].Tab? {
      assert Holds(h, t, p[0], h[t].raw[p[0]].ref);
      RawAtAppended(h, g, h[t].raw[p[0]].ref, p[1..]);
    }
  }

  lemma {:induction false} AppendWrites(h: Heap, g: Heap, t: nat, o: Op)
    requires Wf(h) && Wf(g) && h <= g && t < |h|
    ensures Written(g, t, o) <==> Written(h, t, o)
  {
    if !o.Read? && DataPath(o.p) && !Reserved(o.k) {
      RawAtAppended(h, g, t, o.p);
      if RawAt(h, t, o.p).Some? {
        var w := RawAt(h, t, o.p).value;
        assert g[w] == h[w];
        if o.k in h[w].raw && h[w].raw[o.k].Tab? {
          assert Holds(h, w, o.k, h[w].raw[o.k].ref);
          assert g[h[w].raw[o.k].ref] == h[h[w].raw[o.k].ref];
        }
      }
    }
  }

  // ----- One operation -----

  /** The operation stores at the place of a statement or above it. */
  predicate Covers(op: Op, o: Op) {
    !op.Read? && !o.Read? && Target(op) <= Target(o)
  }

  /** An operation that is itself written: a call, or a value other than nil. */
  predicate Keeps(op: Op) {
    op.Attach? || (op.Put? && op.v != Nil)
  }

  /** What is written once an operation with this outcome is over. */
  ghost predicate WrittenNext(op: Op, out: Outcome, o: Op, was: bool) {
    if out == Done && Covers(op, o) then o == op && Keeps(op) else was
  }

  lemma {:induction false} PutWrites(h: Heap, files: map<string, nat>, roots: seq<nat>, t: nat, w: nat, op: Op, o: Op)
    requires Session(h, files, roots) && t in roots && t < |h| && OpOk(op) && op.Put? && RawAt(h, t, op.p) == Some(w)
    ensures Wf(SetRaw(h, w, op.k, op.v))
    ensures Written(SetRaw(h, w, op.k, op.v), t, o) <==> WrittenNext(op, Done, o, Written(h, t, o))
  {
    SetRawWf(h, w, op.k, op.v);
    if !o.Read? && DataPath(o.p) && !Reserved(o.k) { StoreWrites(h, t, op.p, w, op.k, op.v, o); }
    if o == op { assert DataPath(o.p) && !Reserved(o.k) && Target(op) <= Target(o); }
  }

  /** Storing a new table, appended to the heap. */
  lemma {:induction false} StoreNew(h: Heap, m: Heap, files: map<string, nat>, roots: seq<nat>, t: nat, w: nat,
      p: seq<string>, k: string, c: nat, o: Op)
    requires Session(m, files, roots) && t in roots && Wf(h) && h <= m && t < |h| && DataPath(p) && !Reserved(k)
    requires RawAt(h, t, p) == Some(w) && |h| <= c < |m| && m[c].root == t && Unheld(m, c) && Bare(m, c)
    requires !o.Read? && DataPath(o.p) && !Reserved(o.k)
    ensures Wf(SetRaw(m, w, k, Tab(c)))
    ensures Written(SetRaw(m, w, k, Tab(c)), t, o) <==>
      if p + [k] <= Target(o) then o.p == p && o.k == k && ValueWrites(m, Tab(c), o) else Written(h, t, o)
  {
    RawAtAppended(h, m, t, p);
    SetRawWf(m, w, k, Tab(c));
    StoreWrites(m, t, p, w, k, Tab(c), o);
    AppendWrites(h, m, t, o);
  }

  lemma {:induction false} CreateWrites(h: Heap, files: map<string, nat>, roots: seq<nat>, t: nat, w: nat, op: Op,
      o: Op)
    requires Session(h, files, roots) && t in roots && t < |h| && OpOk(op) && op.Create?
    requires RawAt(h, t, op.p) == Some(w)
    ensures var g := Finish(h, files, Tab(w), op).0;
      Wf(g) && |h| <= |g| && (Written(g, t, o) <==> WrittenNext(op, Done, o, Written(h, t, o)))
  {
    CreateReady(h, files, roots, t);
    var m := h + [Table(map[], false, t)];
    SetRawWf(m, w, op.k, Tab(|h|));
    if !o.Read? && DataPath(o.p) && !Reserved(o.k) {
      StoreNew(h, m, files, roots, t, w, op.p, op.k, |h|, o);
      assert !ValueWrites(m, Tab(|h|), o);
    }
  }

  /** An overlay is written as the call that made it. */
  lemma OverlayWrites(b: Heap, p: nat, ref: string, fn: string, r: nat, o: Op)
    requires fn != ""
    ensures ValueWrites(b + [Overlay(p, ref, fn, r)], Tab(|b|), o) <==> o.Attach? && o.fn == fn && o.ref == ref
  {
  }

  lemma {:induction false} AttachWrites(h: Heap, files: map<string, nat>, roots: seq<nat>, t: nat, w: nat, op: Op,
      o: Op)
    requires Session(h, files, roots) && t in roots && t < |h| && OpOk(op) && op.Attach?
    requires RawAt(h, t, op.p) == Some(w)
    ensures var (g, out) := Finish(h, files, Tab(w), op);
      Wf(g) && |h| <= |g| && (Written(g, t, o) <==> WrittenNext(op, out, o, Written(h, t, o)))
  {
    AttachReady(h, files, roots, Bases(h, files), t, op.fn, op.ref);
    var (b, base) := Base(h, files, op.ref);
    if base.None? {
      AppendWrites(h, b, t, o);
    } else {
      var m := b + [Overlay(base.value, op.ref, op.fn, t)];
      OverlayWrites(b, base.value, op.ref, op.fn, t, o);
      NewWrites(h, m, files, roots, t, w, op, |b|, o);
    }
  }

  /** Storing the new table that a call made. */
  lemma {:induction false} NewWrites(h: Heap, m: Heap, files: map<string, nat>, roots: seq<nat>, t: nat, w: nat,
      op: Op, c: nat, o: Op)
    requires Session(m, files, roots) && t in roots && Wf(h) && h <= m && t < |h| && OpOk(op) && op.Attach?
    requires RawAt(h, t, op.p) == Some(w) && |h| <= c < |m| && m[c].root == t && Unheld(m, c) && Bare(m, c)
    requires ValueWrites(m, Tab(c), o) <==> o.Attach? && o.fn == op.fn && o.ref == op.ref
    ensures Wf(SetRaw(m, w, op.k, Tab(c)))
    ensures Written(SetRaw(m, w, op.k, Tab(c)), t, o) <==> WrittenNext(op, Done, o, Written(h, t, o))
  {
    RawAtAppended(h, m, t, op.p);
    SetRawWf(m, w, op.k, Tab(c));
    if !o.Read? && DataPath(o.p) && !Reserved(o.k) {
      StoreNew(h, m, files, roots, t, w, op.p, op.k, c, o);
    }
  }

  /** What an operation does to the statements of the tree it works on: one that is done takes
      away those at its place and below, and is written itself, unless it stores nil or a
      plain `{}`; a read, and one that fails, change nothing. */
  lemma {:induction false} DoWrites(h: Heap, files: map<string, nat>, roots: seq<nat>, i: nat, op: Op, o: Op)
    requires Session(h, files, roots) && i < |roots| && OpOk(op)
    ensures var (g, out) := Do(h, files, roots[i], op);
      && Wf(g) && |h| <= |g|
      && (Written(g, roots[i], o) <==> WrittenNext(op, out, o, Written(h, roots[i], o)))
  {
    var t := roots[i];
    WalkWrites(h, t, op.p, t, o);
    SessionWalked(h, files, roots, t, op.p);
    WalkTransparent(h, t, op.p);
    var (m, w) := Walk(h, t, op.p);
    if w.Tab? {
      assert w == Tab(w.ref);
      match op {
        case Read(_) =>
        case Put(_, _, _) => PutWrites(m, files, roots, t, w.ref, op, o);
        case Create(_, _) => CreateWrites(m, files, roots, t, w.ref, op, o);
        case Attach(_, _, _, _) => AttachWrites(m, files, roots, t, w.ref, op, o);
      }
    }
  }

  /** A table that an operation on another tree does not store into is written as it was. */
  lemma {:induction false} FinishElsewhere(h: Heap, files: map<string, nat>, roots: seq<nat>, t: nat, w: Value, op: Op,
      u: nat, o: Op)
    requires Session(h, files, roots) && t in roots && OpOk(op) && u < |h| && h[u].root != t
    requires w.Tab? ==> w.ref < |h| && h[w.ref].root == t
    ensures var g := Finish(h, files, w, op).0; Wf(g) && |h| <= |g| && (Written(g, u, o) <==> Written(h, u, o))
  {
    if w.Tab? {
      match op {
        case Read(_) =>
        case Put(_, k, v) =>
          SetRawWf(h, w.ref, k, v);
          StoreElsewhere(h, w.ref, k, v, u, o);
        case Create(_, k) =>
          CreateReady(h, files, roots, t);
          var m := h + [Table(map[], false, t)];
          AppendWrites(h, m, u, o);
          SetRawWf(m, w.ref, k, Tab(|h|));
          StoreElsewhere(m, w.ref, k, Tab(|h|), u, o);
        case Attach(_, k, fn, ref) =>
          AttachReady(h, files, roots, Bases(h, files), t, fn, ref);
          var (b, p) := Base(h, files, ref);
          AppendWrites(h, b, u, o);
          if p.Some? {
            var m := b + [Overlay(p.value, ref, fn, t)];
            AppendWrites(h, m, u, o);
            SetRawWf(m, w.ref, k, Tab(|b|));
            StoreElsewhere(m, w.ref, k, Tab(|b|), u, o);
          }
      }
    }
  }

  /** Every other tree is written as it was. */
  lemma {:induction false} DoElsewhere(h: Heap, files: map<string, nat>, roots: seq<nat>, i: nat, op: Op, u: nat, o: Op)
    requires Session(h, files, roots) && i < |roots| && OpOk(op) && u < |h| && h[u].root != roots[i]
    ensures var g := Do(h, files, roots[i], op).0; Wf(g) && |h| <= |g| && (Written(g, u, o) <==> Written(h, u, o))
  {
    var t := roots[i];
    WalkWrites(h, t, op.p, u, o);
    SessionWalked(h, files, roots, t, op.p);
    WalkTransparent(h, t, op.p);
    var (m, w) := Walk(h, t, op.p);
    FinishElsewhere(m, files, roots, t, w, op, u, o);
  }

  /** A call that was done is the inherit line of the table it made. */
  lemma AttachSaved(h: Heap, files: map<string, nat>, roots: seq<nat>, i: nat, op: Op)
    requires Session(h, files, roots) && i < |roots| && OpOk(op) && op.Attach?
    requires Do(h, files, roots[i], op).1 == Done
    ensures var g := Do(h, files, roots[i], op).0;
      && Wf(g) && roots[i] < |g| && DataPath(Target(op)) && RawAt(g, roots[i], Target(op)).Some?
      && Header(g, RawAt(g, roots[i], Target(op)).value, op.p, op.k) == [op]
  {
    DoWrites(h, files, roots, i, op, op);
    var g := Do(h, files, roots[i], op).0;
    RawAtSnoc(g, roots[i], op.p, op.k);
  }

  // ----- Whole runs -----

  /** From step `from` on, nothing done on tree `i` stores at the place of `o` or above. */
  ghost predicate Untouched(run: Run, outs: seq<Outcome>, i: nat, from: nat, o: Op)
    requires |outs| == |run|
  {
    forall m :: from <= m < |run| ==> !(run[m].0 == i && outs[m] == Done && Covers(run[m].1, o))
  }

  /** Step `m` is the statement `o` on tree `i`, and it is the last word on its place. */
  ghost predicate LastWord(run: Run, outs: seq<Outcome>, i: nat, m: nat, o: Op)
    requires |outs| == |run|
  {
    m < |run| && run[m] == (i, o) && outs[m] == Done && Keeps(o) && Untouched(run, outs, i, m + 1, o)
  }

  /** The statements a run leaves: its own last words, and those from before that it never
      touched. */
  ghost predicate Leaves(run: Run, outs: seq<Outcome>, i: nat, o: Op, was: bool)
    requires |outs| == |run|
  {
    (exists m: nat :: LastWord(run, outs, i, m, o)) || (was && Untouched(run, outs, i, 0, o))
  }

  lemma UntouchedTail(run: Run, outs: seq<Outcome>, i: nat, from: nat, o: Op)
    requires run != [] && |outs| == |run|
    ensures Untouched(run[1..], outs[1..], i, from, o) <==> Untouched(run, outs, i, from + 1, o)
  {
    var (rest, os) := (run[1..], outs[1..]);
    assert forall m :: 1 <= m < |run| ==> run[m] == rest[m - 1] && outs[m] == os[m - 1];
    assert forall m :: 0 <= m < |rest| ==> rest[m] == run[m + 1] && os[m] == outs[m + 1];
  }

  lemma LastWordTail(run: Run, outs: seq<Outcome>, i: nat, m: nat, o: Op)
    requires run != [] && |outs| == |run|
    ensures LastWord(run[1..], outs[1..], i, m, o) <==> LastWord(run, outs, i, m + 1, o)
  {
    UntouchedTail(run, outs, i, m + 1, o);
  }

  lemma LeavesTail(run: Run, outs: seq<Outcome>, i: nat, o: Op, was: bool)
    requires run != [] && |outs| == |run|
    ensures Leaves(run, outs, i, o, was) <==>
      Leaves(run[1..], outs[1..], i, o, if run[0].0 == i then WrittenNext(run[0].1, outs[0], o, was) else was)
  {
    UntouchedTail(run, outs, i, 0, o);
    if m: nat :| LastWord(run[1..], outs[1..], i, m, o) { LastWordTail(run, outs, i, m, o); }
    if m: nat :| LastWord(run, outs, i, m, o) && m > 0 { LastWordTail(run, outs, i, m - 1, o); }
    assert Untouched(run, outs, i, 0, o) <==>
      !(run[0].0 == i && outs[0] == Done && Covers(run[0].1, o)) && Untouched(run, outs, i, 1, o);
    assert LastWord(run, outs, i, 0, o) ==> Covers(o, o) && run[0].1 == o;
  }

  /** What is written after any session: for each tree exactly the assignments and calls that
      were done on it and that nothing done later stored over, and of what was written before
      the session just what nothing stored over.  Reads, failures and what was done on other
      trees leave no trace. */
  lemma {:induction false} RunWrites(h: Heap, files: map<string, nat>, roots: seq<nat>, run: Run, i: nat, o: Op)
    requires Session(h, files, roots) && RunOk(run, |roots|) && i < |roots|
    ensures var (g, outs) := RunLazy(h, files, roots, run);
      && |outs| == |run|
      && (Written(g, roots[i], o) <==> Leaves(run, outs, i, o, Written(h, roots[i], o)))
    decreases |run|
  {
    if run != [] {
      var (j, op) := run[0];
      DoKeepsSession(h, files, roots, j, op);
      var (g, out) := Do(h, files, roots[j], op);
      RunWrites(g, files, roots, run[1..], i, o);
      if j == i { DoWrites(h, files, roots, i, op, o); } else { DoElsewhere(h, files, roots, j, op, roots[i], o); }
      var (k, outs) := RunLazy(h, files, roots, run);
      assert outs[0] == out && outs[1..] == RunLazy(g, files, roots, run[1..]).1;
      LeavesTail(run, outs, i, o, Written(h, roots[i], o));
    }
  }

  // ----- Saving what was loaded -----

  /** No statement stores at the place of an earlier one or above. */
  ghost predicate InOrder(ops: seq<Op>) {
    forall i, j :: 0 <= i < j < |ops| ==> !Covers(ops[j], ops[i])
  }

  lemma InOrderAppend(a: seq<Op>, b: seq<Op>)
    requires InOrder(a) && InOrder(b)
    requires forall i, j :: 0 <= i < |a| && 0 <= j < |b| ==> !Covers(b[j], a[i])
    ensures InOrder(a + b)
  {
    var c := a + b;
    forall i, j | 0 <= i < j < |c| ensures !Covers(c[j], c[i]) {
      if j >= |a| && i < |a| { assert !Covers(b[j - |a|], a[i]); }
    }
  }

  lemma {:induction false} BodyInOrder(h: Heap, ord: Order, t: nat, prefix: seq<string>)
    requires Wf(h) && Lists(h, ord) && t < |h|
    ensures InOrder(Body(h, ord, t, prefix))
    decreases |h| - t, 1, 0
  {
    assert ListsKeys(h, t, ord(t));
    LinesInOrder(h, ord, t, prefix, ord(t));
  }

  lemma {:induction false} LinesInOrder(h: Heap, ord: Order, t: nat, prefix: seq<string>, keys: seq<string>)
    requires Wf(h) && Lists(h, ord) && t < |h|
    requires forall i :: 0 <= i < |keys| ==> keys[i] in h[t].raw && !Reserved(keys[i])
    requires forall i, j :: 0 <= i < j < |keys| ==> keys[i] != keys[j]
    ensures InOrder(Lines(h, ord, t, prefix, keys))
    decreases |h| - t, 0, |keys|
  {
    if keys != [] {
      var (k, rest) := (keys[0], keys[1..]);
      var (a, b) := (Line(h, ord, t, prefix, k), Lines(h, ord, t, prefix, rest));
      LineInOrder(h, ord, t, prefix, k);
      LinesInOrder(h, ord, t, prefix, rest);
      forall i, j | 0 <= i < |a| && 0 <= j < |b| ensures !Covers(b[j], a[i]) {
        LineWrites(h, ord, t, prefix, k, a[i]);
        LinesWrite(h, ord, t, prefix, rest, b[j]);
        OtherPlace(prefix, b[j], a[i]);
      }
      InOrderAppend(a, b);
    }
  }

  lemma OtherPlace(prefix: seq<string>, a: Op, b: Op)
    requires !a.Read? && !b.Read? && prefix <= a.p && prefix <= b.p && Target(a)[|prefix|] != Target(b)[|prefix|]
    ensures !Covers(a, b)
  {
    NoPrefix(Target(a), Target(b), |prefix|);
  }

  lemma NoPrefix(x: seq<string>, y: seq<string>, n: nat)
    requires n < |x| && n < |y| && x[n] != y[n]
    ensures !(x <= y)
  {
  }

  lemma {:induction false} LineInOrder(h: Heap, ord: Order, t: nat, prefix: seq<string>, k: string)
    requires Wf(h) && Lists(h, ord) && t < |h| && k in h[t].raw && !Reserved(k)
    ensures InOrder(Line(h, ord, t, prefix, k))
    decreases |h| - t, 0, 0
  {
    var v := h[t].raw[k];
    if v.Tab? {
      assert Holds(h, t, k, v.ref);
      var (a, b) := (Header(h, v.ref, prefix, k), Body(h, ord, v.ref, prefix + [k]));
      BodyInOrder(h, ord, v.ref, prefix + [k]);
      BodyWithin(h, ord, v.ref, prefix + [k]);
      forall i, j | 0 <= i < |a| && 0 <= j < |b| ensures !Covers(b[j], a[i]) {
        assert prefix + [k] <= b[j].p && |Target(b[j])| > |Target(a[i])|;
      }
      InOrderAppend(a, b);
    }
  }

  /** Statements on tree `i` as the steps of a run. */
  function Steps(i: nat, ops: seq<Op>): (run: Run)
    ensures |run| == |ops| && forall j :: 0 <= j < |ops| ==> run[j] == (i, ops[j])
  {
    seq(|ops|, j requires 0 <= j < |ops| => (i, ops[j]))
  }

  ghost predicate AllDone(outs: seq<Outcome>) {
    forall j :: 0 <= j < |outs| ==> outs[j] == Done
  }

  lemma AllDoneFirst(out: Outcome, rest: seq<Outcome>)
    ensures AllDone([out] + rest) <==> out == Done && AllDone(rest)
  {
    var all := [out] + rest;
    assert all[0] == out && forall j :: 0 <= j < |rest| ==> all[j + 1] == rest[j];
  }

  lemma {:induction false} ExecIsRun(h: Heap, files: map<string, nat>, roots: seq<nat>, i: nat, ops: seq<Op>)
    requires Session(h, files, roots) && i < |roots| && forall j :: 0 <= j < |ops| ==> OpOk(ops[j])
    ensures var (g, outs) := RunLazy(h, files, roots, Steps(i, ops));
      |outs| == |ops| && Exec(h, files, roots, i, ops) == (g, AllDone(outs))
    decreases |ops|
  {
    if ops != [] {
      var run := Steps(i, ops);
      DoKeepsSession(h, files, roots, i, ops[0]);
      var (g, out) := Do(h, files, roots[i], ops[0]);
      assert run[1..] == Steps(i, ops[1..]) && run[0] == (i, ops[0]);
      ExecIsRun(g, files, roots, i, ops[1..]);
      var (k, rest) := RunLazy(g, files, roots, run[1..]);
      assert RunLazy(h, files, roots, run) == (k, [out] + rest);
      AllDoneFirst(out, rest);
    }
  }

  /** Of statements in order that are all done every one is the last word on its place. */
  lemma InOrderLeaves(ops: seq<Op>, outs: seq<Outcome>, i: nat, o: Op)
    requires InOrder(ops) && |outs| == |ops| && AllDone(outs) && forall j :: 0 <= j < |ops| ==> Keeps(ops[j])
    ensures Leaves(Steps(i, ops), outs, i, o, false) <==> o in ops
  {
    var run := Steps(i, ops);
    if m: nat :| LastWord(run, outs, i, m, o) { assert ops[m] == o; }
    if o in ops {
      var m :| 0 <= m < |ops| && ops[m] == o;
      assert Untouched(run, outs, i, m + 1, o);
      assert LastWord(run, outs, i, m, o);
    }
  }

  /** Running the statements written for one tree on a bare one of another heap: if they
      succeed, the tree they build is written as the same statements. */
  lemma {:induction false} BodyWritesAgain(h: Heap, ord: Order, t: nat, g: Heap, files: map<string, nat>,
      roots: seq<nat>, i: nat, o: Op)
    requires Wf(h) && Lists(h, ord) && t < |h| && Session(g, files, roots) && i < |roots| && Bare(g, roots[i])
    requires forall j :: 0 <= j < |Body(h, ord, t, [])| ==> OpOk(Body(h, ord, t, [])[j])
    ensures var (k, ok) := Exec(g, files, roots, i, Body(h, ord, t, []));
      ok ==> (Written(k, roots[i], o) <==> Written(h, t, o))
  {
    var ops := Body(h, ord, t, []);
    ExecIsRun(g, files, roots, i, ops);
    if Exec(g, files, roots, i, ops).1 {
      RunWrites(g, files, roots, Steps(i, ops), i, o);
      BareWrites(g, roots[i], o);
      BodyOk(h, ord, t, []);
      BodyInOrder(h, ord, t, []);
      assert forall j :: 0 <= j < |ops| ==> WriterOp(ops[j]);
      InOrderLeaves(ops, RunLazy(g, files, roots, Steps(i, ops)).1, i, o);
      BodyIsWritten(h, ord, t, o);
    }
  }

  /** The two tables came from the same call. */
  ghost predicate SameCall(h: Heap, t: nat, g: Heap, u: nat)
    requires t < |h| && u < |g|
  {
    && h[t].meta && g[u].meta
    && FUNC in h[t].raw && REF in h[t].raw && FUNC in g[u].raw && REF in g[u].raw
    && h[t].raw[FUNC] == g[u].raw[FUNC] && h[t].raw[REF] == g[u].raw[REF]
  }

  lemma StoreKeepsCall(h: Heap, w: nat, k: string, v: Value, u: nat)
    requires w < |h| && !Reserved(k) && u < |h| && SameCall(h, u, h, u)
    ensures SameCall(h, u, SetRaw(h, w, k, v), u)
  {
  }

  lemma {:induction false} FinishKeepsCall(h: Heap, files: map<string, nat>, w: Value, op: Op, u: nat)
    requires (w.Tab? ==> w.ref < |h|) && OpOk(op) && u < |h| && SameCall(h, u, h, u)
    ensures var g := Finish(h, files, w, op).0; u < |g| && SameCall(h, u, g, u)
  {
    if w.Tab? {
      match op {
        case Read(_) =>
        case Put(_, k, v) => StoreKeepsCall(h, w.ref, k, v, u);
        case Create(_, k) => StoreKeepsCall(h + [Table(map[], false, h[w.ref].root)], w.ref, k, Tab(|h|), u);
        case Attach(_, k, fn, ref) =>
          var (b, p) := Base(h, files, ref);
          if p.Some? { StoreKeepsCall(b + [Overlay(p.value, ref, fn, h[w.ref].root)], w.ref, k, Tab(|b|), u); }
      }
    }
  }

  lemma {:induction false} DoKeepsCall(h: Heap, files: map<string, nat>, t: nat, op: Op, u: nat)
    requires Wf(h) && t < |h| && OpOk(op) && u < |h| && SameCall(h, u, h, u)
    ensures var g := Do(h, files, t, op).0; u < |g| && SameCall(h, u, g, u)
  {
    WalkTransparent(h, t, op.p);
    var (m, w) := Walk(h, t, op.p);
    FinishKeepsCall(m, files, w, op, u);
  }

  lemma {:induction false} ExecKeepsCall(h: Heap, files: map<string, nat>, roots: seq<nat>, i: nat, ops: seq<Op>,
      u: nat)
    requires Session(h, files, roots) && i < |roots| && forall j :: 0 <= j < |ops| ==> OpOk(ops[j])
    requires u < |h| && SameCall(h, u, h, u)
    ensures u < |Exec(h, files, roots, i, ops).0| && SameCall(h, u, Exec(h, files, roots, i, ops).0, u)
    decreases |ops|
  {
    if ops != [] {
      DoKeepsSession(h, files, roots, i, ops[0]);
      DoKeepsCall(h, files, roots[i], ops[0], u);
      var g := Do(h, files, roots[i], ops[0]).0;
      ExecKeepsCall(g, files, roots, i, ops[1..], u);
    }
  }

  lemma ExecSameCall(h: Heap, t: nat, g: Heap, files: map<string, nat>, roots: seq<nat>, i: nat, ops: seq<Op>)
    requires Session(g, files, roots) && i < |roots| && forall j :: 0 <= j < |ops| ==> OpOk(ops[j])
    requires t < |h| && SameCall(h, t, g, roots[i])
    ensures var k := Exec(g, files, roots, i, ops).0; roots[i] < |k| && SameCall(h, t, k, roots[i])
  {
    ExecKeepsCall(g, files, roots, i, ops, roots[i]);
  }

  /** Saving what was loaded.  When the inherit line and the statements written for a tree
      succeed, the tree they build came from the same call and is written as the same
      statements, each once, in whatever order its keys are taken. */
  lemma {:induction false} SavesAgain(h: Heap, files: map<string, nat>, roots: seq<nat>, i: nat, ord: Order, o: Op)
    requires Session(h, files, roots) && i < |roots| && Coherent(h, files, roots[i], true) && Lists(h, ord)
    ensures var t := roots[i];
      && Linked(h, t)
      && var (g, x) := Make(h, files, h[t].raw[FUNC].s, h[t].raw[REF].s);
      && x.Some? && Session(g, files, roots + [x.value])
      && (forall j :: 0 <= j < |Body(h, ord, t, [])| ==> OpOk(Body(h, ord, t, [])[j]))
      && var (k, ok) := Exec(g, files, roots + [x.value], |roots|, Body(h, ord, t, []));
      && x.value < |k| && SameCall(h, t, k, x.value)
      && (ok ==> (Written(k, x.value, o) <==> Written(h, t, o)))
  {
    var t := roots[i];
    SaveReloadsExactly(h, files, roots, i, ord);
    var (g, x) := Make(h, files, h[t].raw[FUNC].s, h[t].raw[REF].s);
    BodyWritesAgain(h, ord, t, g, files, roots + [x.value], |roots|, o);
    ExecSameCall(h, t, g, files, roots + [x.value], |roots|, Body(h, ord, t, []));
  }

  /** Each statement is written once. */
  lemma WrittenOnce(h: Heap, ord: Order, t: nat, i: nat, j: nat)
    requires Wf(h) && Lists(h, ord) && t < |h| && i < j < |Body(h, ord, t, [])|
    ensures Body(h, ord, t, [])[i] != Body(h, ord, t, [])[j]
  {
    BodyInOrder(h, ord, t, []);
    BodyWithin(h, ord, t, []);
  }
}
