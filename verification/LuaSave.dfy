/** The differential save of an overlay: the statements `saveFile` and `_saveTable`
    write for `GameData`, and what running them rebuilds. */
module LuaSave {
  import opened LuaHeap
  import opened LuaStores
  import opened LuaRuns
  import opened Options

  // ----- The statements written -----

  /** The order in which the keys of a table are written: what the sort left behind. */
  type Order = nat -> seq<string>

  /** `keys` are the ordinary keys of table `t`, each once. */
  ghost predicate ListsKeys(h: Heap, t: nat, keys: seq<string>)
    requires t < |h|
  {
    && (forall i :: 0 <= i < |keys| ==> keys[i] in h[t].raw && !Reserved(keys[i]))
    && (forall k :: k in h[t].raw && !Reserved(k) ==> k in keys)
    && (forall i, j :: 0 <= i < j < |keys| ==> keys[i] != keys[j])
  }

  /** Any order will do, as long as it lists the ordinary keys of each table once. */
  ghost predicate Lists(h: Heap, ord: Order) {
    forall u: nat :: u < |h| ==> ListsKeys(h, u, ord(u))
  }

  /** The `Inherit`/`Reference` line of the table stored under `prefix[k]`; a proxy gets none. */
  function Header(h: Heap, c: nat, prefix: seq<string>, k: string): seq<Op>
    requires Wf(h) && c < |h|
  {
    assert Linked(h, c);
    if h[c].meta && h[c].raw[FUNC].s != "" then [Attach(prefix, k, h[c].raw[FUNC].s, h[c].raw[REF].s)] else []
  }

  function Body(h: Heap, ord: Order, t: nat, prefix: seq<string>): (ops: seq<Op>)
    requires Wf(h) && Lists(h, ord) && t < |h|
    decreases |h| - t, 1, 0
  {
    Lines(h, ord, t, prefix, ord(t))
  }

  function Lines(h: Heap, ord: Order, t: nat, prefix: seq<string>, keys: seq<string>): (ops: seq<Op>)
    requires Wf(h) && Lists(h, ord) && t < |h|
    requires forall i :: 0 <= i < |keys| ==> keys[i] in h[t].raw && !Reserved(keys[i])
    decreases |h| - t, 0, |keys|
  {
    if keys == [] then []
    else Line(h, ord, t, prefix, keys[0]) + Lines(h, ord, t, prefix, keys[1..])
  }

  function Line(h: Heap, ord: Order, t: nat, prefix: seq<string>, k: string): (ops: seq<Op>)
    requires Wf(h) && Lists(h, ord) && t < |h| && k in h[t].raw && !Reserved(k)
    decreases |h| - t, 0, 0
  {
    var v := h[t].raw[k];
    if v.Tab? then
      assert Holds(h, t, k, v.ref);
      Header(h, v.ref, prefix, k) + Body(h, ord, v.ref, prefix + [k])
    else [Put(prefix, k, v)]
  }

  // ----- What makes an overlay tree re-creatable -----

  /** Table `c` was made by a call of `Inherit` or `Reference`. */
  ghost predicate Called(h: Heap, files: map<string, nat>, c: nat)
    requires Wf(h)
  {
    && c < |h| && h[c].meta && Linked(h, c)
    && h[c].raw[FUNC].s != ""
    && var (ref, p) := (h[c].raw[REF].s, ParentOf(h, c));
       if ref == "" then h[p] == Table(map[], false, h[p].root) else ref in files && files[ref] == p
  }

  /** Table `c`, the entry `k` of overlay `t`, was made by `_luaIndexEvent`. */
  ghost predicate Proxied(h: Heap, t: nat, k: string, c: nat)
    requires Wf(h)
  {
    && c < |h| && h[c].meta && Linked(h, c) && h[c].raw[FUNC].s == ""
    && t < |h| && h[t].meta && Holds(h, ParentOf(h, t), k, ParentOf(h, c))
  }

  /** Table `c`, the entry `k` of `t`, is one a tree may hold: a plain `{}` if `plain` says
      so, a table from a call, or a proxy. */
  ghost predicate Nested(h: Heap, files: map<string, nat>, plain: bool, t: nat, k: string, c: nat)
    requires Wf(h)
  {
    c < |h| && ((plain && !h[c].meta) || Called(h, files, c) || Proxied(h, t, k, c))
  }

  /** The tree of `r` came from a call, and so did every table in it, or it is a proxy, or,
      if `plain` allows them, a plain `{}`. */
  ghost predicate Coherent(h: Heap, files: map<string, nat>, r: nat, plain: bool) {
    && Wf(h) && r < |h| && h[r].root == r
    && Called(h, files, r)
    && forall t: nat, k, c: nat :: Holds(h, t, k, c) && h[t].root == r ==> Nested(h, files, plain, t, k, c)
  }

  // ----- Running the statements on full copies -----

  ghost function EagerRun(bases: map<string, Tree>, e: Tree, ops: seq<Op>): (r: (Tree, bool))
    decreases |ops|
  {
    if ops == [] then (e, true) else
    var (f, out) := EagerDo(bases, e, ops[0]);
    var (g, ok) := EagerRun(bases, f, ops[1..]);
    (g, ok && out == Done)
  }

  lemma {:induction false} EagerRunAppend(bases: map<string, Tree>, e: Tree, a: seq<Op>, b: seq<Op>)
    ensures var (f, ok) := EagerRun(bases, e, a);
            EagerRun(bases, e, a + b) == (EagerRun(bases, f, b).0, ok && EagerRun(bases, f, b).1)
    decreases |a|
  {
    if a == [] {
      assert a + b == b;
    } else {
      assert (a + b)[1..] == a[1..] + b;
      EagerRunAppend(bases, EagerDo(bases, e, a[0]).0, a[1..], b);
    }
  }

  /** At `at`, tree `e` shows value `v` of the heap. */
  ghost predicate ValueAt(h: Heap, e: Tree, at: seq<string>, v: Value)
    requires Wf(h) && (v.Tab? ==> v.ref < |h|)
  {
    forall q :: DataPath(q) ==> e(at + q) == View(h, v, q)
  }

  ghost predicate Ready(h: Heap, files: map<string, nat>, bases: map<string, Tree>, r: nat, t: nat) {
    Coherent(h, files, r, true) && BasesShow(h, files, bases) && t < |h| && h[t].root == r
  }

  // ----- When a table comes back -----

  /** Where table `b` is shown, the statements of table `t` bring `t` back: a plain table
      has no statement of its own, so it must already be there, without keys it lacks. */
  ghost predicate Rebuilds(h: Heap, t: nat, b: nat)
    requires Wf(h) && t < |h| && b < |h|
    decreases |h| - t, 1
  {
    && (h[t].meta || forall l :: !Reserved(l) && l !in h[t].raw ==> Lookup(h, b, l) == Nil)
    && forall k :: k in h[t].raw && !Reserved(k) ==> KeyRebuilds(h, t, b, k)
  }

  ghost predicate KeyRebuilds(h: Heap, t: nat, b: nat, k: string)
    requires Wf(h) && t < |h| && b < |h| && k in h[t].raw && !Reserved(k)
    decreases |h| - t, 0
  {
    var v := h[t].raw[k];
    v.Tab? ==>
      assert Holds(h, t, k, v.ref);
      if h[v.ref].meta then Rebuilds(h, v.ref, ParentOf(h, v.ref))
      else Lookup(h, b, k).Tab? && Rebuilds(h, v.ref, Lookup(h, b, k).ref)
  }

  /** A tree without plain tables always comes back. */
  lemma {:induction false} NoPlainRebuilds(h: Heap, files: map<string, nat>, r: nat, t: nat)
    requires Coherent(h, files, r, false) && t < |h| && h[t].root == r && h[t].meta
    ensures Rebuilds(h, t, ParentOf(h, t))
    decreases |h| - t
  {
    forall k | k in h[t].raw && !Reserved(k) ensures KeyRebuilds(h, t, ParentOf(h, t), k) {
      if h[t].raw[k].Tab? {
        var c := h[t].raw[k].ref;
        assert Holds(h, t, k, c) && Nested(h, files, false, t, k, c);
        NoPlainRebuilds(h, files, r, c);
      }
    }
  }

  // ----- Where the statements of a table store -----

  /** Every statement stores at `at` or below. */
  ghost predicate AllAt(ops: seq<Op>, at: seq<string>) {
    forall i :: 0 <= i < |ops| ==> !ops[i].Read? && at <= ops[i].p + [ops[i].k]
  }

  /** Every statement stores below `at`. */
  ghost predicate Within(ops: seq<Op>, at: seq<string>) {
    forall i :: 0 <= i < |ops| ==> !ops[i].Read? && at <= ops[i].p
  }

  lemma {:induction false} BodyWithin(h: Heap, ord: Order, t: nat, prefix: seq<string>)
    requires Wf(h) && Lists(h, ord) && t < |h|
    ensures Within(Body(h, ord, t, prefix), prefix)
    decreases |h| - t, 1, 0
  {
    assert ListsKeys(h, t, ord(t));
    LinesWithin(h, ord, t, prefix, ord(t));
  }

  lemma {:induction false} LinesWithin(h: Heap, ord: Order, t: nat, prefix: seq<string>, keys: seq<string>)
    requires Wf(h) && Lists(h, ord) && t < |h|
    requires forall i :: 0 <= i < |keys| ==> keys[i] in h[t].raw && !Reserved(keys[i])
    ensures Within(Lines(h, ord, t, prefix, keys), prefix)
    decreases |h| - t, 0, |keys|
  {
    if keys != [] {
      LineAt(h, ord, t, prefix, keys[0]);
      LinesWithin(h, ord, t, prefix, keys[1..]);
    }
  }

  lemma {:induction false} LineAt(h: Heap, ord: Order, t: nat, prefix: seq<string>, k: string)
    requires Wf(h) && Lists(h, ord) && t < |h| && k in h[t].raw && !Reserved(k)
    ensures AllAt(Line(h, ord, t, prefix, k), prefix + [k]) && Within(Line(h, ord, t, prefix, k), prefix)
    decreases |h| - t, 0, 0
  {
    var v := h[t].raw[k];
    if v.Tab? {
      assert Holds(h, t, k, v.ref);
      var (head, body) := (Header(h, v.ref, prefix, k), Body(h, ord, v.ref, prefix + [k]));
      BodyWithin(h, ord, v.ref, prefix + [k]);
      assert forall i :: 0 <= i < |head| ==> head[i].Attach? && head[i].p == prefix && head[i].k == k;
      forall i | 0 <= i < |body| ensures prefix <= body[i].p && prefix + [k] <= body[i].p + [body[i].k] {
        assert prefix + [k] <= body[i].p;
      }
    }
  }

  /** A place that no statement stores at or above shows what it showed. */
  lemma {:induction false} Untouched(bases: map<string, Tree>, e: Tree, ops: seq<Op>, q: seq<string>)
    requires forall i :: 0 <= i < |ops| ==> !ops[i].Read? && !(ops[i].p + [ops[i].k] <= q)
    ensures EagerRun(bases, e, ops).0(q) == e(q)
    decreases |ops|
  {
    if ops != [] { Untouched(bases, EagerDo(bases, e, ops[0]).0, ops[1..], q); }
  }

  ghost predicate Beside(e: Tree, f: Tree, at: seq<string>) {
    forall q :: !(at <= q) ==> f(q) == e(q)
  }

  lemma {:induction false} RunBeside(bases: map<string, Tree>, e: Tree, ops: seq<Op>, at: seq<string>)
    requires AllAt(ops, at)
    ensures Beside(e, EagerRun(bases, e, ops).0, at)
  {
    forall q | !(at <= q) ensures EagerRun(bases, e, ops).0(q) == e(q) {
      Untouched(bases, e, ops, q);
    }
  }

  /** The statements of a table never make the table itself. */
  lemma {:induction false} BodyMakesNoTable(bases: map<string, Tree>, h: Heap, ord: Order, t: nat,
      prefix: seq<string>, e: Tree)
    requires Wf(h) && Lists(h, ord) && t < |h|
    ensures EagerRun(bases, e, Body(h, ord, t, prefix)).0(prefix) == e(prefix)
  {
    var ops := Body(h, ord, t, prefix);
    BodyWithin(h, ord, t, prefix);
    forall i | 0 <= i < |ops| ensures !(ops[i].p + [ops[i].k] <= prefix) {
      assert prefix <= ops[i].p;
    }
    Untouched(bases, e, ops, prefix);
  }

  // ----- What the statements rebuild -----

  /** A place beside or above another is no prefix of what lies below that. */
  lemma KeysApart(prefix: seq<string>, k: string, l: string, q: seq<string>)
    ensures prefix + [k] <= (prefix + [l]) + q <==> k == l
    ensures !(prefix + [k] <= prefix)
  {
    assert ((prefix + [l]) + q)[|prefix|] == l;
    assert prefix + [k] <= (prefix + [l]) + q ==> (prefix + [k])[|prefix|] == ((prefix + [l]) + q)[|prefix|];
  }

  lemma ValueBeside(h: Heap, e: Tree, f: Tree, prefix: seq<string>, k: string, l: string, v: Value)
    requires Wf(h) && (v.Tab? ==> v.ref < |h|) && k != l && Beside(e, f, prefix + [k])
    ensures ValueAt(h, f, prefix + [l], v) <==> ValueAt(h, e, prefix + [l], v)
  {
    forall q ensures f((prefix + [l]) + q) == e((prefix + [l]) + q) { KeysApart(prefix, k, l, q); }
  }

  /** What is shown below a table, key by key. */
  lemma {:induction false} TableAt(h: Heap, e: Tree, prefix: seq<string>, t: nat)
    requires Wf(h) && t < |h|
    ensures ValueAt(h, e, prefix, Tab(t)) <==>
      e(prefix) == Branch && forall k :: !Reserved(k) ==> ValueAt(h, e, prefix + [k], Lookup(h, t, k))
  {
    assert prefix + [] == prefix && DataPath([]);
    if ValueAt(h, e, prefix, Tab(t)) {
      assert e(prefix + []) == View(h, Tab(t), []);
      forall k, q | !Reserved(k) && DataPath(q) ensures e((prefix + [k]) + q) == View(h, Lookup(h, t, k), q) {
        assert (prefix + [k]) + q == prefix + ([k] + q) && ([k] + q)[1..] == q && DataPath([k] + q);
      }
    }
    if e(prefix) == Branch && forall k :: !Reserved(k) ==> ValueAt(h, e, prefix + [k], Lookup(h, t, k)) {
      forall q | DataPath(q) ensures e(prefix + q) == View(h, Tab(t), q) {
        if q != [] {
          assert prefix + q == (prefix + [q[0]]) + q[1..];
          assert ValueAt(h, e, prefix + [q[0]], Lookup(h, t, q[0])) && DataPath(q[1..]);
        }
      }
    }
  }

  /** The inherit line of a nested table makes its place show the table it inherits from. */
  lemma {:induction false} HeaderRuns(
      h: Heap, files: map<string, nat>, bases: map<string, Tree>, r: nat,
      t: nat, b: nat, prefix: seq<string>, k: string, c: nat, e: Tree)
    requires Ready(h, files, bases, r, t) && Holds(h, t, k, c) && h[c].meta
    requires b < |h| && (h[t].meta ==> b == ParentOf(h, t))
    requires e(prefix) == Branch && ValueAt(h, e, prefix + [k], Lookup(h, b, k))
    ensures var (f, ok) := EagerRun(bases, e, Header(h, c, prefix, k));
            ok && ValueAt(h, f, prefix + [k], Tab(ParentOf(h, c)))
  {
    assert Nested(h, files, true, t, k, c);
    var p := ParentOf(h, c);
    var at := prefix + [k];
    if Called(h, files, c) {
      var ref := h[c].raw[REF].s;
      var f := Replace(e, at, BaseTree(bases, ref));
      assert EagerRun(bases, e, [Attach(prefix, k, h[c].raw[FUNC].s, ref)]) == (f, true);
      forall q | DataPath(q) ensures f(at + q) == View(h, Tab(p), q) {
        assert (at + q)[|at|..] == q;
        if ref == "" { EmptyView(h, p, q); } else { assert Resolve(h, p, q) == bases[ref](q); }
      }
    } else {
      assert Proxied(h, t, k, c) && Holds(h, b, k, p) && Linked(h, c);
      assert Lookup(h, b, k) == Tab(p);
    }
  }

  /** The statements for one key bring it back if and only if its table, if it is one, can
      be brought back there; they change nothing else. */
  lemma {:induction false} LineExact(
      h: Heap, files: map<string, nat>, bases: map<string, Tree>, r: nat, ord: Order,
      t: nat, b: nat, prefix: seq<string>, k: string, e: Tree)
    requires Ready(h, files, bases, r, t) && Lists(h, ord) && k in h[t].raw && !Reserved(k)
    requires b < |h| && (h[t].meta ==> b == ParentOf(h, t))
    requires e(prefix) == Branch && ValueAt(h, e, prefix + [k], Lookup(h, b, k))
    ensures h[t].raw[k].Tab? ==> h[t].raw[k].ref < |h|
    ensures var (f, ok) := EagerRun(bases, e, Line(h, ord, t, prefix, k));
      && Beside(e, f, prefix + [k])
      && (ok && ValueAt(h, f, prefix + [k], h[t].raw[k]) <==> KeyRebuilds(h, t, b, k))
    decreases |h| - t, 0, 1
  {
    var (v, at) := (h[t].raw[k], prefix + [k]);
    LineAt(h, ord, t, prefix, k);
    RunBeside(bases, e, Line(h, ord, t, prefix, k), at);
    if v.Tab? {
      assert Holds(h, t, k, v.ref) && v == Tab(v.ref);
      TableExact(h, files, bases, r, ord, t, b, prefix, k, v.ref, e);
    } else {
      var f := Replace(e, at, Simple(v));
      assert EagerRun(bases, e, [Put(prefix, k, v)]) == (f, true);
      forall q | DataPath(q) ensures f(at + q) == View(h, v, q) {
        assert (at + q)[|at|..] == q;
      }
    }
  }

  lemma {:induction false} TableExact(
      h: Heap, files: map<string, nat>, bases: map<string, Tree>, r: nat, ord: Order,
      t: nat, b: nat, prefix: seq<string>, k: string, c: nat, e: Tree)
    requires Ready(h, files, bases, r, t) && Lists(h, ord) && Holds(h, t, k, c)
    requires b < |h| && (h[t].meta ==> b == ParentOf(h, t))
    requires e(prefix) == Branch && ValueAt(h, e, prefix + [k], Lookup(h, b, k))
    ensures t < c < |h|
    ensures var (f, ok) := EagerRun(bases, e, Line(h, ord, t, prefix, k));
      ok && ValueAt(h, f, prefix + [k], Tab(c)) <==> KeyRebuilds(h, t, b, k)
    decreases |h| - t, 0, 0
  {
    var at := prefix + [k];
    var (head, body) := (Header(h, c, prefix, k), Body(h, ord, c, at));
    EagerRunAppend(bases, e, head, body);
    if h[c].meta {
      HeaderRuns(h, files, bases, r, t, b, prefix, k, c, e);
      BodyExact(h, files, bases, r, ord, c, ParentOf(h, c), at, EagerRun(bases, e, head).0);
    } else {
      assert head == [] && EagerRun(bases, e, head) == (e, true);
      var x := Lookup(h, b, k);
      if x.Tab? {
        assert x == Tab(x.ref);
        BodyExact(h, files, bases, r, ord, c, x.ref, at, e);
      } else {
        BodyMakesNoTable(bases, h, ord, c, at, e);
        var f := EagerRun(bases, e, body).0;
        assert at + [] == at && DataPath([]);
        assert e(at + []) == View(h, x, []) != Branch;
        ShownTable(h, f, at, c);
      }
    }
  }

  lemma ShownTable(h: Heap, f: Tree, at: seq<string>, c: nat)
    requires Wf(h) && c < |h|
    ensures ValueAt(h, f, at, Tab(c)) ==> f(at) == Branch
  {
    assert at + [] == at && DataPath([]);
    assert View(h, Tab(c), []) == Branch;
  }

  ghost predicate BesideAll(e: Tree, f: Tree, prefix: seq<string>, keys: seq<string>) {
    forall q :: (forall i :: 0 <= i < |keys| ==> !(prefix + [keys[i]] <= q)) ==> f(q) == e(q)
  }

  ghost predicate AllBack(h: Heap, f: Tree, prefix: seq<string>, t: nat, keys: seq<string>)
    requires Wf(h) && t < |h| && forall i :: 0 <= i < |keys| ==> keys[i] in h[t].raw && !Reserved(keys[i])
  {
    forall i :: 0 <= i < |keys| ==> KeyBack(h, f, prefix, t, keys[i])
  }

  ghost predicate KeyBack(h: Heap, f: Tree, prefix: seq<string>, t: nat, k: string)
    requires Wf(h) && t < |h| && k in h[t].raw && !Reserved(k)
  {
    assert h[t].raw[k].Tab? ==> Holds(h, t, k, h[t].raw[k].ref);
    ValueAt(h, f, prefix + [k], h[t].raw[k])
  }

  lemma KeyBackBeside(h: Heap, e: Tree, f: Tree, prefix: seq<string>, t: nat, k: string, keys: seq<string>)
    requires Wf(h) && t < |h| && k in h[t].raw && !Reserved(k) && k !in keys && BesideAll(e, f, prefix, keys)
    ensures KeyBack(h, f, prefix, t, k) <==> KeyBack(h, e, prefix, t, k)
  {
    forall q ensures f((prefix + [k]) + q) == e((prefix + [k]) + q) {
      forall i | 0 <= i < |keys| ensures !(prefix + [keys[i]] <= (prefix + [k]) + q) {
        KeysApart(prefix, keys[i], k, q);
      }
    }
  }

  lemma BesideCons(e: Tree, m: Tree, f: Tree, prefix: seq<string>, keys: seq<string>)
    requires keys != [] && Beside(e, m, prefix + [keys[0]]) && BesideAll(m, f, prefix, keys[1..])
    ensures BesideAll(e, f, prefix, keys)
  {
    forall q | forall i :: 0 <= i < |keys| ==> !(prefix + [keys[i]] <= q) ensures f(q) == e(q) {
      assert !(prefix + [keys[0]] <= q);
      forall i | 0 <= i < |keys[1..]| ensures !(prefix + [keys[1..][i]] <= q) { assert keys[1..][i] == keys[i + 1]; }
    }
  }

  lemma {:induction false} LinesExact(
      h: Heap, files: map<string, nat>, bases: map<string, Tree>, r: nat, ord: Order,
      t: nat, b: nat, prefix: seq<string>, keys: seq<string>, e: Tree)
    requires Ready(h, files, bases, r, t) && Lists(h, ord) && b < |h| && (h[t].meta ==> b == ParentOf(h, t))
    requires forall i :: 0 <= i < |keys| ==> keys[i] in h[t].raw && !Reserved(keys[i])
    requires forall i, j :: 0 <= i < j < |keys| ==> keys[i] != keys[j]
    requires e(prefix) == Branch
    requires forall i :: 0 <= i < |keys| ==> ValueAt(h, e, prefix + [keys[i]], Lookup(h, b, keys[i]))
    ensures var (f, ok) := EagerRun(bases, e, Lines(h, ord, t, prefix, keys));
      && BesideAll(e, f, prefix, keys)
      && (ok && AllBack(h, f, prefix, t, keys) <==> forall i :: 0 <= i < |keys| ==> KeyRebuilds(h, t, b, keys[i]))
    decreases |h| - t, 0, |keys| + 1
  {
    if keys != [] {
      var (k, rest) := (keys[0], keys[1..]);
      LineExact(h, files, bases, r, ord, t, b, prefix, k, e);
      var (m, ok1) := EagerRun(bases, e, Line(h, ord, t, prefix, k));
      assert forall i :: 0 <= i < |rest| ==> rest[i] == keys[i + 1];
      KeysApart(prefix, k, k, []);
      forall i | 0 <= i < |rest| ensures ValueAt(h, m, prefix + [rest[i]], Lookup(h, b, rest[i])) {
        ValueBeside(h, e, m, prefix, k, rest[i], Lookup(h, b, rest[i]));
      }
      LinesExact(h, files, bases, r, ord, t, b, prefix, rest, m);
      var (f, ok2) := EagerRun(bases, m, Lines(h, ord, t, prefix, rest));
      EagerRunAppend(bases, e, Line(h, ord, t, prefix, k), Lines(h, ord, t, prefix, rest));
      BesideCons(e, m, f, prefix, keys);
      KeyBackBeside(h, m, f, prefix, t, k, rest);
      AllSplit(h, f, prefix, t, b, keys);
    }
  }

  lemma AllSplit(h: Heap, f: Tree, prefix: seq<string>, t: nat, b: nat, keys: seq<string>)
    requires Wf(h) && t < |h| && b < |h| && keys != []
    requires forall i :: 0 <= i < |keys| ==> keys[i] in h[t].raw && !Reserved(keys[i])
    ensures AllBack(h, f, prefix, t, keys) <==> KeyBack(h, f, prefix, t, keys[0]) && AllBack(h, f, prefix, t, keys[1..])
    ensures (forall i :: 0 <= i < |keys| ==> KeyRebuilds(h, t, b, keys[i])) <==>
      KeyRebuilds(h, t, b, keys[0]) && forall i :: 0 <= i < |keys[1..]| ==> KeyRebuilds(h, t, b, keys[1..][i])
  {
    var rest := keys[1..];
    assert forall i :: 0 <= i < |rest| ==> rest[i] == keys[i + 1];
    assert forall i :: 1 <= i < |keys| ==> keys[i] == rest[i - 1];
  }

  /** Where a tree shows table `b`, the statements of `t` succeed and make it show `t`, if
      and only if `t` can be brought back there. */
  lemma {:induction false} BodyExact(
      h: Heap, files: map<string, nat>, bases: map<string, Tree>, r: nat, ord: Order, t: nat, b: nat,
          prefix: seq<string>, e: Tree)
    requires Ready(h, files, bases, r, t) && Lists(h, ord) && b < |h| && (h[t].meta ==> b == ParentOf(h, t))
    requires ValueAt(h, e, prefix, Tab(b))
    ensures var (f, ok) := EagerRun(bases, e, Body(h, ord, t, prefix));
            ok && ValueAt(h, f, prefix, Tab(t)) <==> Rebuilds(h, t, b)
    decreases |h| - t, 1, 0
  {
    var keys := ord(t);
    assert ListsKeys(h, t, keys);
    TableAt(h, e, prefix, b);
    LinesExact(h, files, bases, r, ord, t, b, prefix, keys, e);
    var (f, ok) := EagerRun(bases, e, Body(h, ord, t, prefix));
    RebuiltByKeys(h, e, f, prefix, t, b, keys);
  }

  lemma {:induction false} RebuiltByKeys(h: Heap, e: Tree, f: Tree, prefix: seq<string>, t: nat, b: nat,
      keys: seq<string>)
    requires Wf(h) && t < |h| && b < |h| && (h[t].meta ==> b == ParentOf(h, t)) && ListsKeys(h, t, keys)
    requires ValueAt(h, e, prefix, Tab(b)) && BesideAll(e, f, prefix, keys)
    ensures ValueAt(h, f, prefix, Tab(t)) <==>
      AllBack(h, f, prefix, t, keys) && (h[t].meta || forall l :: !Reserved(l) && l !in h[t].raw ==>
          Lookup(h, b, l) == Nil)
  {
    TableAt(h, e, prefix, b);
    TableAt(h, f, prefix, t);
    assert f(prefix) == Branch by {
      forall i | 0 <= i < |keys| ensures !(prefix + [keys[i]] <= prefix) { KeysApart(prefix, keys[i], keys[i], []); }
    }
    forall l | !Reserved(l) && l !in h[t].raw
      ensures ValueAt(h, f, prefix + [l], Lookup(h, t, l)) <==> h[t].meta || Lookup(h, b, l) == Nil
    {
      OtherKey(h, e, f, prefix, t, b, l, keys);
    }
    forall l | !Reserved(l) && l in h[t].raw
      ensures l in keys && (ValueAt(h, f, prefix + [l], Lookup(h, t, l)) <==> KeyBack(h, f, prefix, t, l))
    {
    }
  }

  /** A key the table has no entry for shows what was there. */
  lemma {:induction false} OtherKey(h: Heap, e: Tree, f: Tree, prefix: seq<string>, t: nat, b: nat, l: string,
      keys: seq<string>)
    requires Wf(h) && t < |h| && b < |h| && (h[t].meta ==> b == ParentOf(h, t)) && ListsKeys(h, t, keys)
    requires !Reserved(l) && l !in h[t].raw && ValueAt(h, e, prefix + [l], Lookup(h, b, l))
    requires BesideAll(e, f, prefix, keys)
    ensures ValueAt(h, f, prefix + [l], Lookup(h, t, l)) <==> h[t].meta || Lookup(h, b, l) == Nil
  {
    var at := prefix + [l];
    forall q ensures f(at + q) == e(at + q) {
      forall i | 0 <= i < |keys| ensures !(prefix + [keys[i]] <= at + q) { KeysApart(prefix, keys[i], l, q); }
    }
    assert DataPath([]);
    assert f(at + []) == View(h, Lookup(h, b, l), []);
    assert ValueAt(h, f, at, Lookup(h, t, l)) ==> f(at + []) == View(h, Lookup(h, t, l), []);
  }

  // ----- Reachable trees are re-creatable -----

  /** Plain tables are as they were. */
  ghost predicate PlainKept(h: Heap, g: Heap) {
    |h| <= |g| && forall u :: 0 <= u < |h| && !h[u].meta ==> g[u] == h[u]
  }

  lemma {:induction false} CalledKept(h: Heap, g: Heap, files: map<string, nat>, c: nat)
    requires Wf(h) && Wf(g) && Extends(h, g) && PlainKept(h, g) && Called(h, files, c)
    ensures Called(g, files, c)
  {
    assert Linked(h, c) && Linked(g, c);
  }

  lemma {:induction false} ProxiedKept(h: Heap, g: Heap, t: nat, k: string, c: nat)
    requires Wf(h) && Wf(g) && Extends(h, g) && Proxied(h, t, k, c)
    ensures Proxied(g, t, k, c)
  {
    assert Linked(h, c) && Linked(g, c) && Linked(h, t) && Linked(g, t);
    assert Holds(g, ParentOf(g, t), k, ParentOf(g, c));
  }

  lemma {:induction false} NestedKept(h: Heap, g: Heap, files: map<string, nat>, plain: bool, t: nat, k: string, c: nat)
    requires Wf(h) && Wf(g) && Extends(h, g) && PlainKept(h, g) && Nested(h, files, plain, t, k, c)
    ensures Nested(g, files, plain, t, k, c)
  {
    if Called(h, files, c) { CalledKept(h, g, files, c); }
    else if Proxied(h, t, k, c) { ProxiedKept(h, g, t, k, c); }
  }

  lemma {:induction false} CoherentMaterialise(h: Heap, files: map<string, nat>, r: nat, plain: bool, t: nat,
      k: string, v: nat)
    requires Coherent(h, files, r, plain) && Inherits(h, t, k, v) && Holds(h, ParentOf(h, t), k, v)
    ensures REF in h[t].raw
    ensures Coherent(Materialise(h, t, k, v), files, r, plain) && PlainKept(h, Materialise(h, t, k, v))
  {
    MaterialiseWf(h, t, k, v);
    var g := Materialise(h, t, k, v);
    assert Linked(h, t) && Linked(g, t) && ParentOf(g, t) == ParentOf(h, t);
    CalledKept(h, g, files, r);
    forall u: nat, l, c: nat | Holds(g, u, l, c) && g[u].root == r ensures Nested(g, files, plain, u, l, c) {
      if Holds(h, u, l, c) {
        NestedKept(h, g, files, plain, u, l, c);
      } else {
        assert u == t && l == k && c == |h|;
        assert Linked(g, c) && Holds(g, ParentOf(g, t), k, v);
      }
    }
  }

  lemma {:induction false} CoherentIndex(h: Heap, files: map<string, nat>, r: nat, plain: bool, t: nat, k: string)
    requires Coherent(h, files, r, plain) && t < |h| && !Reserved(k)
    ensures Coherent(Index(h, t, k).0, files, r, plain) && PlainKept(h, Index(h, t, k).0)
    decreases t
  {
    if k !in h[t].raw && h[t].meta {
      var p := ParentOf(h, t);
      CoherentIndex(h, files, r, plain, p, k);
      IndexTransparent(h, p, k);
      var (h1, v) := Index(h, p, k);
      if v.Tab? {
        assert Linked(h, t) && ParentOf(h1, t) == p && Lookup(h1, t, k) == Tab(v.ref);
        assert Holds(h1, p, k, v.ref) && Inherits(h1, t, k, v.ref);
        CoherentMaterialise(h1, files, r, plain, t, k, v.ref);
      }
    }
  }

  lemma {:induction false} CoherentWalk(h: Heap, files: map<string, nat>, r: nat, plain: bool, t: nat, p: seq<string>)
    requires Coherent(h, files, r, plain) && t < |h| && DataPath(p)
    ensures Coherent(Walk(h, t, p).0, files, r, plain)
    decreases |p|
  {
    if p != [] {
      CoherentIndex(h, files, r, plain, t, p[0]);
      IndexTransparent(h, t, p[0]);
      var (g, v) := Index(h, t, p[0]);
      if v.Tab? {
        assert Holds(g, t, p[0], v.ref);
        CoherentWalk(g, files, r, plain, v.ref, p[1..]);
      }
    }
  }

  lemma {:induction false} CoherentAppend(h: Heap, g: Heap, files: map<string, nat>, r: nat, plain: bool)
    requires Coherent(h, files, r, plain) && Wf(g) && h <= g
    requires forall t: nat, k, c: nat :: Holds(g, t, k, c) ==> t < |h|
    ensures Coherent(g, files, r, plain)
  {
    assert Extends(h, g) && PlainKept(h, g);
    CalledKept(h, g, files, r);
    forall t: nat, k, c: nat | Holds(g, t, k, c) && g[t].root == r ensures Nested(g, files, plain, t, k, c) {
      assert Holds(h, t, k, c);
      NestedKept(h, g, files, plain, t, k, c);
    }
  }

  lemma {:induction false} CoherentStore(h: Heap, files: map<string, nat>, r: nat, plain: bool, w: nat, k: string,
      v: Value)
    requires Coherent(h, files, r, plain) && Storable(h, w, k, v)
    requires v.Tab? ==> (plain && !h[v.ref].meta) || Called(h, files, v.ref)
    ensures Wf(SetRaw(h, w, k, v)) && Coherent(SetRaw(h, w, k, v), files, r, plain)
  {
    SetRawWf(h, w, k, v);
    var g := SetRaw(h, w, k, v);
    StoreCalled(h, files, w, k, v, r);
    forall t: nat, l, c: nat | Holds(g, t, l, c) && g[t].root == r ensures Nested(g, files, plain, t, l, c) {
      if t == w && l == k {
        if Called(h, files, c) { StoreCalled(h, files, w, k, v, c); }
      } else {
        assert Holds(h, t, l, c);
        StoreNested(h, files, plain, w, k, v, t, l, c);
      }
    }
  }

  lemma {:induction false} StoreNested(
      h: Heap, files: map<string, nat>, plain: bool, w: nat, k: string, v: Value, t: nat, l: string, c: nat)
    requires Storable(h, w, k, v) && Wf(SetRaw(h, w, k, v)) && Nested(h, files, plain, t, l, c)
    ensures Nested(SetRaw(h, w, k, v), files, plain, t, l, c)
  {
    var g := SetRaw(h, w, k, v);
    if Called(h, files, c) {
      StoreCalled(h, files, w, k, v, c);
    } else if Proxied(h, t, l, c) {
      assert Linked(h, c) && Linked(g, c) && Linked(h, t) && Linked(g, t);
      assert h[ParentOf(h, t)].root != h[w].root;
      assert Holds(g, ParentOf(g, t), l, ParentOf(g, c));
    }
  }

  lemma {:induction false} StoreCalled(h: Heap, files: map<string, nat>, w: nat, k: string, v: Value, c: nat)
    requires Storable(h, w, k, v) && Wf(SetRaw(h, w, k, v)) && Called(h, files, c)
    ensures Called(SetRaw(h, w, k, v), files, c)
  {
    var g := SetRaw(h, w, k, v);
    assert Linked(h, c) && Linked(g, c) && ParentOf(g, c) == ParentOf(h, c);
    assert h[ParentOf(h, c)].root != h[w].root;
  }

  lemma {:induction false} CoherentAttach(
      h: Heap, files: map<string, nat>, roots: seq<nat>, t: nat, r: nat, plain: bool, w: nat, k: string,
          fn: string, ref: string)
    requires Session(h, files, roots) && t in roots && r in roots && !Reserved(k) && fn != ""
    requires Coherent(h, files, r, plain) && w < |h| && h[w].root == t
    ensures var (b, p) := Base(h, files, ref);
      && Wf(b) && Coherent(b, files, r, plain)
      && (p.Some? ==>
            var g := SetRaw(b + [Overlay(p.value, ref, fn, t)], w, k, Tab(|b|));
            Wf(g) && Coherent(g, files, r, plain))
  {
    AttachReady(h, files, roots, Bases(h, files), t, fn, ref);
    var (b, p) := Base(h, files, ref);
    CoherentAppend(h, b, files, r, plain);
    if p.Some? {
      var m := b + [Overlay(p.value, ref, fn, t)];
      assert ref == "" ==> b[p.value] == Table(map[], false, |h|);
      CoherentOverlay(b, files, r, plain, p.value, fn, ref, t);
      CoherentStore(m, files, r, plain, w, k, Tab(|b|));
    }
  }

  lemma {:induction false} CoherentOverlay(
      h: Heap, files: map<string, nat>, r: nat, plain: bool, p: nat, fn: string, ref: string, t: nat)
    requires Coherent(h, files, r, plain) && p < |h| && fn != "" && Wf(h + [Overlay(p, ref, fn, t)])
    requires if ref == "" then h[p] == Table(map[], false, h[p].root) else ref in files && files[ref] == p
    ensures var m := h + [Overlay(p, ref, fn, t)]; Coherent(m, files, r, plain) && Called(m, files, |h|)
  {
    var m := h + [Overlay(p, ref, fn, t)];
    CoherentAppend(h, m, files, r, plain);
    assert Linked(m, |h|) && ParentOf(m, |h|) == p;
  }

  lemma {:induction false} CoherentCreate(h: Heap, files: map<string, nat>, roots: seq<nat>, t: nat, r: nat, w: nat,
      k: string)
    requires Session(h, files, roots) && t in roots && r in roots && !Reserved(k)
    requires Coherent(h, files, r, true) && w < |h| && h[w].root == t
    ensures var g := SetRaw(h + [Table(map[], false, t)], w, k, Tab(|h|)); Wf(g) && Coherent(g, files, r, true)
  {
    CreateReady(h, files, roots, t);
    var m := h + [Table(map[], false, t)];
    CoherentAppend(h, m, files, r, true);
    CoherentStore(m, files, r, true, w, k, Tab(|h|));
  }

  lemma {:induction false} CoherentFinish(
      h: Heap, files: map<string, nat>, roots: seq<nat>, t: nat, w: Value, op: Op, r: nat, plain: bool)
    requires Session(h, files, roots) && t in roots && OpOk(op) && r in roots && Coherent(h, files, r, plain)
    requires (w.Tab? ==> w.ref < |h| && h[w.ref].root == t) && (op.Create? ==> plain)
    ensures Wf(Finish(h, files, w, op).0) && Coherent(Finish(h, files, w, op).0, files, r, plain)
  {
    if w.Tab? && op.Put? {
      CoherentStore(h, files, r, plain, w.ref, op.k, op.v);
    } else if w.Tab? && op.Create? {
      CoherentCreate(h, files, roots, t, r, w.ref, op.k);
    } else if w.Tab? && op.Attach? {
      CoherentAttach(h, files, roots, t, r, plain, w.ref, op.k, op.fn, op.ref);
    }
  }

  /** A tree stays re-creatable under any operation, on it or on another one; one without
      plain tables unless the operation stores a `{}`. */
  lemma {:induction false} CoherentDo(h: Heap, files: map<string, nat>, roots: seq<nat>, i: nat, op: Op, r: nat,
      plain: bool)
    requires Session(h, files, roots) && i < |roots| && OpOk(op) && r in roots && Coherent(h, files, r, plain)
    requires op.Create? ==> plain
    ensures Wf(Do(h, files, roots[i], op).0) && Coherent(Do(h, files, roots[i], op).0, files, r, plain)
  {
    var t := roots[i];
    WalkTransparent(h, t, op.p);
    SessionWalked(h, files, roots, t, op.p);
    CoherentWalk(h, files, r, plain, t, op.p);
    var (g, w) := Walk(h, t, op.p);
    CoherentFinish(g, files, roots, t, w, op, r, plain);
  }

  // ----- Saving and running the saved script -----

  /** A statement the writer writes: an inherit line, or a value other than nil. */
  ghost predicate WriterOp(op: Op) {
    OpOk(op) && (op.Put? || op.Attach?) && !Erases(op)
  }

  lemma {:induction false} BodyOk(h: Heap, ord: Order, t: nat, prefix: seq<string>)
    requires Wf(h) && Lists(h, ord) && t < |h| && DataPath(prefix)
    ensures forall j :: 0 <= j < |Body(h, ord, t, prefix)| ==> WriterOp(Body(h, ord, t, prefix)[j])
    decreases |h| - t, 1, 0
  {
    assert ListsKeys(h, t, ord(t));
    LinesOk(h, ord, t, prefix, ord(t));
  }

  lemma {:induction false} LinesOk(h: Heap, ord: Order, t: nat, prefix: seq<string>, keys: seq<string>)
    requires Wf(h) && Lists(h, ord) && t < |h| && DataPath(prefix)
    requires forall i :: 0 <= i < |keys| ==> keys[i] in h[t].raw && !Reserved(keys[i])
    ensures forall j :: 0 <= j < |Lines(h, ord, t, prefix, keys)| ==> WriterOp(Lines(h, ord, t, prefix, keys)[j])
    decreases |h| - t, 0, |keys|
  {
    if keys != [] {
      LineOk(h, ord, t, prefix, keys[0]);
      LinesOk(h, ord, t, prefix, keys[1..]);
    }
  }

  lemma {:induction false} LineOk(h: Heap, ord: Order, t: nat, prefix: seq<string>, k: string)
    requires Wf(h) && Lists(h, ord) && t < |h| && DataPath(prefix) && k in h[t].raw && !Reserved(k)
    ensures forall j :: 0 <= j < |Line(h, ord, t, prefix, k)| ==> WriterOp(Line(h, ord, t, prefix, k)[j])
    decreases |h| - t, 0, 0
  {
    var v := h[t].raw[k];
    if v.Tab? {
      assert Holds(h, t, k, v.ref) && Linked(h, v.ref);
      BodyOk(h, ord, v.ref, prefix + [k]);
      var (a, b) := (Header(h, v.ref, prefix, k), Body(h, ord, v.ref, prefix + [k]));
      assert Line(h, ord, t, prefix, k) == a + b;
      assert forall j :: 0 <= j < |a| ==> WriterOp(a[j]);
    } else {
      assert WriterOp(Put(prefix, k, v));
    }
  }

  /** `GameData = Inherit([[ref]])`: a new tree. */
  function Make(h: Heap, files: map<string, nat>, fn: string, ref: string): (r: (Heap, Option<nat>)) {
    var (b, p) := Base(h, files, ref);
    if p.None? then (b, None) else (b + [Overlay(p.value, ref, fn, |b|)], Some(|b|))
  }

  lemma {:induction false} NewTree(h: Heap, files: map<string, nat>, roots: seq<nat>, p: nat, fn: string, ref: string)
    requires Session(h, files, roots) && p < |h| && h[p].root !in roots
    ensures var g := h + [Overlay(p, ref, fn, |h|)]; Session(g, files, roots + [|h|]) && h <= g
  {
    var n := Overlay(p, ref, fn, |h|);
    var g := h + [n];
    assert h[p].root <= p;
    AppendWf(h, n);
    assert Linked(g, |h|) && ParentOf(g, |h|) == p;
    forall u: nat | u < |g| && g[u].meta ensures g[ParentOf(g, u)].root != |h| {
      assert Linked(g, u) && g[ParentOf(g, u)].root <= ParentOf(g, u) < u;
    }
    forall f | f in files ensures g[files[f]].root !in roots + [|h|] {
      assert h[files[f]].root <= files[f];
    }
  }

  lemma {:induction false} NewTreeCoherent(h: Heap, files: map<string, nat>, p: nat, fn: string, ref: string)
    requires Wf(h) && p < |h| && fn != "" && Wf(h + [Overlay(p, ref, fn, |h|)])
    requires if ref == "" then h[p] == Table(map[], false, h[p].root) else ref in files && files[ref] == p
    ensures Coherent(h + [Overlay(p, ref, fn, |h|)], files, |h|, false)
  {
    var g := h + [Overlay(p, ref, fn, |h|)];
    assert Linked(g, |h|) && ParentOf(g, |h|) == p;
    forall t: nat, k, c: nat | Holds(g, t, k, c) ensures g[t].root != |h| {
      assert t != |h| && g[t].root <= t;
    }
  }

  lemma {:induction false} MakeOpens(h: Heap, files: map<string, nat>, roots: seq<nat>, bases: map<string, Tree>,
      fn: string, ref: string)
    requires Session(h, files, roots) && BasesShow(h, files, bases) && (ref == "" || ref in files) && fn != ""
    ensures var (g, x) := Make(h, files, fn, ref);
      && x.Some? && |h| <= x.value < |g| && h <= g && Session(g, files, roots + [x.value])
      && Matches(g, x.value, CopyOf(BaseTree(bases, ref))) && Coherent(g, files, x.value, false)
  {
    var (b, p) := Base(h, files, ref);
    if ref == "" { AppendWf(h, Table(map[], false, |h|)); }
    NewTree(b, files, roots, p.value, fn, ref);
    NewTreeCoherent(b, files, p.value, fn, ref);
    var (g, _) := Make(h, files, fn, ref);
    forall q | DataPath(q) ensures Resolve(g, |b|, q) == BaseTree(bases, ref)(q) {
      OverlayView(b, p.value, ref, fn, |b|, q);
      if ref == "" { EmptyView(b, |h|, q); }
    }
    BareMatches(g, |b|, BaseTree(bases, ref));
  }

  /** Running statements on the tree of `x`: the last state, and whether none failed. */
  function Exec(h: Heap, files: map<string, nat>, roots: seq<nat>, i: nat, ops: seq<Op>): (r: (Heap, bool))
    requires Session(h, files, roots) && i < |roots| && forall j :: 0 <= j < |ops| ==> OpOk(ops[j])
    ensures Session(r.0, files, roots) && |h| <= |r.0|
    decreases |ops|
  {
    if ops == [] then (h, true) else
    DoKeepsSession(h, files, roots, i, ops[0]);
    var (g, out) := Do(h, files, roots[i], ops[0]);
    var (k, ok) := Exec(g, files, roots, i, ops[1..]);
    (k, ok && out == Done)
  }

  /** The same statements on a copy of its own. */
  ghost function CopyRun(bases: map<string, Tree>, c: Copy, ops: seq<Op>): (r: (Copy, bool))
    decreases |ops|
  {
    if ops == [] then (c, true) else
    var (d, out) := CopyDo(bases, c, ops[0]);
    var (f, ok) := CopyRun(bases, d, ops[1..]);
    (f, ok && out == Done)
  }

  /** While no statement assigns nil, the copy shows what a full copy would. */
  lemma {:induction false} CopyRunShown(bases: map<string, Tree>, c: Copy, ops: seq<Op>)
    requires forall i :: 0 <= i < |ops| ==> !Erases(ops[i])
    ensures var (d, ok) := CopyRun(bases, c, ops); EagerRun(bases, c.shown, ops) == (d.shown, ok)
    decreases |ops|
  {
    if ops != [] { CopyRunShown(bases, CopyDo(bases, c, ops[0]).0, ops[1..]); }
  }

  /** Statements on the shared heap do what they do on a copy. */
  lemma {:induction false} ExecRefines(
      h: Heap, files: map<string, nat>, roots: seq<nat>, bases: map<string, Tree>, i: nat, c: Copy, ops: seq<Op>)
    requires Session(h, files, roots) && i < |roots| && forall j :: 0 <= j < |ops| ==> OpOk(ops[j])
    requires BasesShow(h, files, bases) && Matches(h, roots[i], c)
    ensures var (g, ok) := Exec(h, files, roots, i, ops);
      && ok == CopyRun(bases, c, ops).1 && Matches(g, roots[i], CopyRun(bases, c, ops).0)
      && forall u: nat, q :: u < |h| && h[u].root != roots[i] && DataPath(q) ==> Resolve(g, u, q) == Resolve(h, u, q)
    decreases |ops|
  {
    if ops != [] {
      DoRefinesCopy(h, files, roots, bases, i, c, ops[0]);
      DoKeepsRoots(h, files, roots[i], ops[0]);
      var (g, _) := Do(h, files, roots[i], ops[0]);
      forall n | n in files ensures Shows(g, files[n], bases[n]) { ShowsOutside(h, g, roots[i], files[n], bases[n]); }
      ExecRefines(g, files, roots, bases, i, CopyDo(bases, c, ops[0]).0, ops[1..]);
      var (k, _) := Exec(g, files, roots, i, ops[1..]);
      forall u: nat, q | u < |h| && h[u].root != roots[i] && DataPath(q) ensures Resolve(k, u, q) == Resolve(h, u, q) {
        assert Resolve(g, u, q) == Resolve(h, u, q);
      }
    }
  }

  lemma {:induction false} BaseAt(h: Heap, files: map<string, nat>, t: nat, bases: map<string, Tree>)
    requires Wf(h) && Called(h, files, t) && BasesShow(h, files, bases)
    ensures var ref := h[t].raw[REF].s;
      (ref == "" || ref in files) && ValueAt(h, BaseTree(bases, ref), [], Tab(ParentOf(h, t)))
  {
    var (ref, p) := (h[t].raw[REF].s, ParentOf(h, t));
    forall q | DataPath(q) ensures BaseTree(bases, ref)([] + q) == View(h, Tab(p), q) {
      assert [] + q == q;
      if ref == "" { EmptyView(h, p, q); } else { assert Resolve(h, p, q) == bases[ref](q); }
    }
  }

  ghost predicate SameView(h: Heap, t: nat, k: Heap, x: nat)
    requires Wf(h) && Wf(k) && t < |h| && x < |k|
  {
    forall q :: DataPath(q) ==> Resolve(k, x, q) == Resolve(h, t, q)
  }

  /** The differential save, exactly.  For every tree made by calls, lazy reads, stores and
      plain `{}`, and for every order in which the keys of each table are written, the
      inherit line and the statements written succeed and build a tree that shows the same
      value at every key path, if and only if every plain table stands where the base shows
      a table without keys that the plain one lacks.  Either way nothing already in the
      heap shows a change. */
  lemma {:induction false} SaveReloadsExactly(h: Heap, files: map<string, nat>, roots: seq<nat>, i: nat, ord: Order)
    requires Session(h, files, roots) && i < |roots| && Coherent(h, files, roots[i], true) && Lists(h, ord)
    ensures var t := roots[i];
      && Linked(h, t)
      && var (g, x) := Make(h, files, h[t].raw[FUNC].s, h[t].raw[REF].s);
      && x.Some? && Session(g, files, roots + [x.value])
      && (forall j :: 0 <= j < |Body(h, ord, t, [])| ==> OpOk(Body(h, ord, t, [])[j]))
      && var (k, ok) := Exec(g, files, roots + [x.value], |roots|, Body(h, ord, t, []));
      && |h| <= x.value < |k| && Same(h, k)
      && (ok && SameView(h, t, k, x.value) <==> Rebuilds(h, t, ParentOf(h, t)))
  {
    var t := roots[i];
    var bases := Bases(h, files);
    BaseAt(h, files, t, bases);
    MakeOpens(h, files, roots, bases, h[t].raw[FUNC].s, h[t].raw[REF].s);
    var (g, x) := Make(h, files, h[t].raw[FUNC].s, h[t].raw[REF].s);
    BodyOk(h, ord, t, []);
    BasesKept(h, g, files, bases);
    BodyRebuilds(h, g, files, roots + [x.value], bases, |roots|, ord, t, BaseTree(bases, h[t].raw[REF].s));
    AppendThenOutside(h, g, Exec(g, files, roots + [x.value], |roots|, Body(h, ord, t, [])).0, x.value);
  }

  lemma {:induction false} AppendThenOutside(h: Heap, g: Heap, k: Heap, x: nat)
    requires Wf(h) && Wf(g) && Wf(k) && h <= g && |g| <= |k| && |h| <= x
    requires forall u: nat, q :: u < |g| && g[u].root != x && DataPath(q) ==> Resolve(k, u, q) == Resolve(g, u, q)
    ensures Same(h, k)
  {
    SameAppended(h, g);
    forall u: nat, q | u < |h| && DataPath(q) ensures Resolve(k, u, q) == Resolve(h, u, q) {
      assert g[u].root <= u;
      assert Resolve(g, u, q) == Resolve(h, u, q);
    }
  }

  lemma {:induction false} BodyRebuilds(
      h: Heap, g: Heap, files: map<string, nat>, roots: seq<nat>, bases: map<string, Tree>, i: nat, ord: Order,
          t: nat, e: Tree)
    requires Ready(h, files, bases, t, t) && h[t].meta && Lists(h, ord) && ValueAt(h, e, [], Tab(ParentOf(h, t)))
    requires Session(g, files, roots) && BasesShow(g, files, bases) && i < |roots| && Matches(g, roots[i], CopyOf(e))
    requires forall j :: 0 <= j < |Body(h, ord, t, [])| ==> OpOk(Body(h, ord, t, [])[j])
    ensures var (k, ok) := Exec(g, files, roots, i, Body(h, ord, t, []));
      && (forall u: nat, q :: u < |g| && g[u].root != roots[i] && DataPath(q) ==> Resolve(k, u, q) == Resolve(g, u, q))
      && (ok && SameView(h, t, k, roots[i]) <==> Rebuilds(h, t, ParentOf(h, t)))
  {
    var ops := Body(h, ord, t, []);
    ExecRefines(g, files, roots, bases, i, CopyOf(e), ops);
    BodyOk(h, ord, t, []);
    CopyRunShown(bases, CopyOf(e), ops);
    BodyExact(h, files, bases, t, ord, t, ParentOf(h, t), [], e);
    ShowsValue(h, t, Exec(g, files, roots, i, ops).0, roots[i], EagerRun(bases, e, ops).0);
  }

  lemma ShowsValue(h: Heap, t: nat, k: Heap, x: nat, f: Tree)
    requires Wf(h) && Wf(k) && t < |h| && x < |k| && Shows(k, x, f)
    ensures SameView(h, t, k, x) <==> ValueAt(h, f, [], Tab(t))
  {
    assert forall q: seq<string> :: [] + q == q;
    if SameView(h, t, k, x) {
      forall q | DataPath(q) ensures f([] + q) == View(h, Tab(t), q) {
        assert Resolve(k, x, q) == Resolve(h, t, q) && Resolve(k, x, q) == f(q);
      }
    }
    if ValueAt(h, f, [], Tab(t)) {
      forall q | DataPath(q) ensures Resolve(k, x, q) == Resolve(h, t, q) {
        assert f([] + q) == View(h, Tab(t), q) && Resolve(k, x, q) == f(q);
      }
    }
  }

  lemma {:induction false} BasesKept(h: Heap, g: Heap, files: map<string, nat>, bases: map<string, Tree>)
    requires Wf(h) && Wf(g) && h <= g && BasesShow(h, files, bases)
    ensures BasesShow(g, files, bases)
  {
    SameAppended(h, g);
    forall n | n in files ensures Shows(g, files[n], bases[n]) { ShowsSame(h, g, files[n], bases[n]); }
  }

  /** The differential save preserves meaning: a tree without plain tables always comes
      back, whatever order its keys are written in. */
  lemma {:induction false} SaveReloads(h: Heap, files: map<string, nat>, roots: seq<nat>, i: nat, ord: Order)
    requires Session(h, files, roots) && i < |roots| && Coherent(h, files, roots[i], false) && Lists(h, ord)
    ensures var t := roots[i];
      && Linked(h, t)
      && var (g, x) := Make(h, files, h[t].raw[FUNC].s, h[t].raw[REF].s);
      && x.Some? && Session(g, files, roots + [x.value])
      && (forall j :: 0 <= j < |Body(h, ord, t, [])| ==> OpOk(Body(h, ord, t, [])[j]))
      && var (k, ok) := Exec(g, files, roots + [x.value], |roots|, Body(h, ord, t, []));
      && ok && |h| <= x.value < |k| && SameView(h, t, k, x.value) && Same(h, k)
  {
    PlainAllowed(h, files, roots[i]);
    NoPlainRebuilds(h, files, roots[i], roots[i]);
    SaveReloadsExactly(h, files, roots, i, ord);
  }

  lemma PlainAllowed(h: Heap, files: map<string, nat>, r: nat)
    requires Coherent(h, files, r, false)
    ensures Coherent(h, files, r, true)
  {
    forall t: nat, k, c: nat | Holds(h, t, k, c) && h[t].root == r ensures Nested(h, files, true, t, k, c) {
      assert Nested(h, files, false, t, k, c);
    }
  }

  /** In every state that a run reaches from re-creatable trees, the trees are re-creatable,
      so `SaveReloadsExactly` applies there; and if the run stores no `{}` they stay without
      plain tables, so `SaveReloads` does. */
  lemma {:induction false} RunCoherent(h: Heap, files: map<string, nat>, roots: seq<nat>, run: Run, plain: bool)
    requires Session(h, files, roots) && RunOk(run, |roots|)
    requires forall i :: 0 <= i < |roots| ==> Coherent(h, files, roots[i], plain)
    requires plain || forall j :: 0 <= j < |run| ==> !run[j].1.Create?
    ensures forall i :: 0 <= i < |roots| ==> Coherent(RunLazy(h, files, roots, run).0, files, roots[i], plain)
    decreases |run|
  {
    if run != [] {
      var (i, op) := run[0];
      var g := Do(h, files, roots[i], op).0;
      DoKeepsSession(h, files, roots, i, op);
      forall j | 0 <= j < |roots| ensures Coherent(g, files, roots[j], plain) {
        CoherentDo(h, files, roots, i, op, roots[j], plain);
      }
      RunCoherent(g, files, roots, run[1..], plain);
    }
  }

  // ----- A table the writer cannot re-create -----

  /** `GameData = Inherit([[]])` with a plain `{}` stored under "a". */
  function PlainHeap(): Heap {
    [Table(map[], false, 0), Overlay(0, "", "Inherit", 1).(raw := Overlay(0, "", "Inherit", 1).raw["a" := Tab(2)]),
     Table(map[], false, 1)]
  }

  /** A plain nested table has no `$FUNC`: no statement re-creates it, and the saved
      script rebuilds a tree without it. */
  lemma PlainTableLost(ord: Order)
    requires Lists(PlainHeap(), ord)
    ensures var h := PlainHeap();
      && Wf(h) && Resolve(h, 1, ["a"]) == Branch
      && Body(h, ord, 1, []) == []
      && var (g, x) := Make(h, map[], "Inherit", "");
      && x.Some? && Wf(g) && x.value < |g| && Resolve(g, x.value, ["a"]) == Missing
  {
    PlainHeapWf();
    PlainSeen();
    PlainBody(PlainHeap(), ord);
    PlainRemade(PlainHeap());
  }

  lemma PlainSeen()
    requires Wf(PlainHeap())
    ensures Resolve(PlainHeap(), 1, ["a"]) == Branch
  {
    var h := PlainHeap();
    assert Holds(h, 1, "a", 2);
    assert Lookup(h, 1, "a") == Tab(2);
    assert ["a"][1..] == [];
  }

  lemma PlainRemade(h: Heap)
    requires Wf(h) && |h| == 3
    ensures var (g, x) := Make(h, map[], "Inherit", "");
      x.Some? && Wf(g) && x.value < |g| && Resolve(g, x.value, ["a"]) == Missing
  {
    AppendWf(h, Table(map[], false, 3));
    var b := h + [Table(map[], false, 3)];
    AppendWf(b, Overlay(3, "", "Inherit", 4));
    OverlayView(b, 3, "", "Inherit", 4, ["a"]);
    EmptyView(b, 3, ["a"]);
  }

  lemma PlainHeapWf()
    ensures Wf(PlainHeap())
  {
    var h := PlainHeap();
    assert Linked(h, 0) && Linked(h, 1) && Linked(h, 2);
    forall t: nat, k, c: nat | Holds(h, t, k, c) ensures t == 1 && k == "a" && c == 2 {
    }
  }

  lemma {:induction false} DistinctCount(keys: seq<string>)
    requires forall i, j :: 0 <= i < j < |keys| ==> keys[i] != keys[j]
    ensures |set k | k in keys| == |keys|
  {
    if keys != [] {
      DistinctCount(keys[1..]);
      assert keys[0] !in keys[1..];
      assert (set k | k in keys) == {keys[0]} + (set k | k in keys[1..]) by { assert keys == [keys[0]] + keys[1..]; }
    }
  }

  lemma PlainBody(h: Heap, ord: Order)
    requires h == PlainHeap() && Wf(h) && Lists(h, ord)
    ensures Body(h, ord, 1, []) == []
  {
    assert ListsKeys(h, 1, ord(1)) && ListsKeys(h, 2, ord(2));
    assert "a" in h[1].raw && h[1].raw.Keys == {"a", PARENT, REF, FUNC};
    DistinctCount(ord(1));
    DistinctCount(ord(2));
    assert (set k | k in ord(1)) == {"a"};
    assert (set k | k in ord(2)) == {};
    assert ord(1) == ["a"] && ["a"][1..] == [];
    assert Body(h, ord, 2, ["a"]) == [];
    assert [] + ["a"] == ["a"];
    assert Line(h, ord, 1, [], "a") == Header(h, 2, [], "a") + Body(h, ord, 2, ["a"]) == [];
    assert Lines(h, ord, 1, [], ["a"]) == Line(h, ord, 1, [], "a") + Lines(h, ord, 1, [], []);
  }

  /** A script with `GameData = { a = { x = 1 } }`, and an overlay of it with `a = {}`. */
  function HidingHeap(): Heap {
    [Table(map["a" := Tab(1)], false, 0), Table(map["x" := Num(1)], false, 0),
     Overlay(0, "f", "Inherit", 2).(raw := Overlay(0, "f", "Inherit", 2).raw["a" := Tab(3)]), Table(map[], false, 2)]
  }

  /** A plain table that hides keys of the base is not brought back either: the base shows
      a table there, but one with a key more. */
  lemma PlainTableHides()
    ensures var h := HidingHeap();
      && Wf(h) && Lookup(h, 0, "a") == Tab(1) && Resolve(h, 2, ["a"]) == Branch && Resolve(h, 2, ["a", "x"]) == Missing
      && Resolve(h, 0, ["a", "x"]) == Leaf(Num(1)) && !Rebuilds(h, 2, 0)
  {
    var h := HidingHeap();
    HidingHeapWf();
    assert Holds(h, 0, "a", 1) && Holds(h, 2, "a", 3);
    assert Lookup(h, 2, "a") == Tab(3) && Lookup(h, 3, "x") == Nil && Lookup(h, 1, "x") == Num(1);
    assert ["a"][1..] == [] && ["a", "x"][1..] == ["x"] && ["x"][1..] == [];
    assert View(h, Tab(3), ["x"]) == Missing && View(h, Tab(1), ["x"]) == Leaf(Num(1));
    assert !Reserved("x") && !Rebuilds(h, 3, 1);
    assert !KeyRebuilds(h, 2, 0, "a");
  }

  lemma HidingHolds(t: nat, k: string, c: nat)
    requires Holds(HidingHeap(), t, k, c)
    ensures (t == 0 && k == "a" && c == 1) || (t == 2 && k == "a" && c == 3)
  {
  }

  lemma HidingLinked(t: nat)
    requires t < 4
    ensures Linked(HidingHeap(), t) && HidingHeap()[t].root <= t
  {
    var h := HidingHeap();
    if t == 2 { assert h[2].meta && h[2].raw[PARENT] == Tab(0); }
  }

  lemma HidingHeapWf()
    ensures Wf(HidingHeap()) && Linked(HidingHeap(), 2)
  {
    var h := HidingHeap();
    forall t: nat | t < |h| ensures Linked(h, t) && h[t].root <= t { HidingLinked(t); }
    forall t: nat, k, c: nat | Holds(h, t, k, c)
      ensures (t == 0 && k == "a" && c == 1) || (t == 2 && k == "a" && c == 3)
    {
      HidingHolds(t, k, c);
    }
  }
}
