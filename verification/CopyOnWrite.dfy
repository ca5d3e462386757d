/**
 * `tLuaTableProtector`: copies of cached tables that share everything with the cache until a
 * table below is touched, and then duplicate just that table.
 */
module CopyOnWrite {
  import opened Options

  /** A plain value, a table, or a protector standing for a table. */
  datatype Val = Data(n: int) | Sub(table: nat) | Wrap(protector: nat)

  /** Where a table belongs: to the cache, with its nesting height, or to a place in a copy. */
  datatype Home = Frozen(rank: nat) | Of(copy: nat, path: seq<string>)

  datatype Table = Table(entries: map<string, Val>, home: Home)

  /** `iOwnIt` and the table the registry holds for a protector, with the place it stands at. */
  datatype Protector = Protector(table: nat, own: bool, home: Home)

  /** All tables and protectors, the tables handed out as copies, and a bound on how deep the
      places of tables are. */
  datatype State = State(tables: seq<Table>, protectors: seq<Protector>, copies: seq<nat>, depth: nat)

  function Below(h: Home, k: string): Home
    requires h.Of?
  {
    Of(h.copy, h.path + [k])
  }

  /** The table behind a value. */
  function Target(s: State, v: Val): Option<nat>
  {
    match v
    case Data(_) => None
    case Sub(t) => Some(t)
    case Wrap(p) => if p < |s.protectors| then Some(s.protectors[p].table) else None
  }

  /** Cached tables refer to cached tables of lesser height. In a copy a table is one step
      below the table that refers to it, or it is still the cache's. */
  predicate EntryOk(s: State, h: Home, k: string, v: Val)
  {
    match v
    case Data(_) => true
    case Sub(t) => t < |s.tables| && (if h.Frozen? then Lower(s.tables[t].home, h) else s.tables[t].home == Below(h, k))
    case Wrap(p) =>
      && p < |s.protectors| && s.protectors[p].table < |s.tables|
      && var w := s.protectors[p]; var g := s.tables[w.table].home;
         if h.Frozen? then w.home.Frozen? && Lower(g, h)
         else w.home == Below(h, k) && if w.own then g == Below(h, k) else g.Frozen?
  }

  predicate Lower(g: Home, h: Home) { g.Frozen? && h.Frozen? && g.rank < h.rank }

  ghost predicate TableOk(s: State, t: nat)
    requires t < |s.tables|
  {
    && (s.tables[t].home.Of? ==> |s.tables[t].home.path| <= s.depth)
    && forall k :: k in s.tables[t].entries ==> EntryOk(s, s.tables[t].home, k, s.tables[t].entries[k])
  }

  ghost predicate CopyOk(s: State, i: nat)
    requires i < |s.copies|
  {
    s.copies[i] < |s.tables| && s.tables[s.copies[i]].home == Of(i, [])
  }

  ghost predicate Wf(s: State)
  {
    && (forall t: nat :: t < |s.tables| ==> TableOk(s, t))
    && (forall i: nat :: i < |s.copies| ==> CopyOk(s, i))
  }

  // ----- What a table shows -----

  /** The contents of a table, all the way down. */
  datatype Deep = Leaf(n: int) | Node(kids: map<string, Deep>)

  function Height(s: State, t: nat): (nat, nat)
    requires t < |s.tables|
  {
    match s.tables[t].home
    case Frozen(rank) => (0, rank)
    case Of(_, path) => (1, if |path| <= s.depth then s.depth - |path| else 0)
  }

  ghost function Look(s: State, t: nat): Deep
    requires Wf(s) && t < |s.tables|
    decreases Height(s, t).0, Height(s, t).1, 1
  {
    Node(map k | k in s.tables[t].entries :: LookAt(s, t, k))
  }

  ghost function LookAt(s: State, t: nat, k: string): Deep
    requires Wf(s) && t < |s.tables| && k in s.tables[t].entries
    decreases Height(s, t).0, Height(s, t).1, 0
  {
    assert TableOk(s, t);
    match s.tables[t].entries[k]
    case Data(n) => Leaf(n)
    case Sub(u) => assert TableOk(s, u); Look(s, u)
    case Wrap(p) => assert TableOk(s, s.protectors[p].table); Look(s, s.protectors[p].table)
  }

  /** What a value shows. */
  ghost function Show(s: State, v: Val): Deep
    requires Wf(s) && (v.Data? || (Target(s, v).Some? && Target(s, v).value < |s.tables|))
  {
    match v
    case Data(n) => Leaf(n)
    case Sub(_) => Look(s, Target(s, v).value)
    case Wrap(_) => Look(s, Target(s, v).value)
  }

  // ----- SimpleTableDuplicate -----

  predicate Extends(s: State, s': State) {
    s.tables <= s'.tables && s.protectors <= s'.protectors && s.depth <= s'.depth
  }

  lemma {:induction false} ExtendsLook(s: State, s': State, t: nat)
    requires Wf(s) && Wf(s') && Extends(s, s') && t < |s.tables|
    ensures Look(s', t) == Look(s, t)
    decreases Height(s, t).0, Height(s, t).1
  {
    assert s'.tables[t] == s.tables[t] && TableOk(s, t);
    forall k | k in s.tables[t].entries ensures LookAt(s', t, k) == LookAt(s, t, k) {
      match s.tables[t].entries[k]
      case Data(_) =>
      case Sub(u) =>
        assert TableOk(s, u);
        ExtendsLook(s, s', u);
      case Wrap(p) =>
        assert s'.protectors[p] == s.protectors[p] && TableOk(s, s.protectors[p].table);
        ExtendsLook(s, s', s.protectors[p].table);
    }
  }

  /** The entry of a duplicate: tables and protectors come under a new protector that does not
      own what it stands for. */
  predicate Doubled(s: State, v: Val, s': State, w: Val, h: Home)
  {
    match v
    case Data(_) => w == v
    case _ =>
      && w.Wrap? && |s.protectors| <= w.protector < |s'.protectors|
      && Target(s, v).Some? && s'.protectors[w.protector] == Protector(Target(s, v).value, false, h)
  }

  /** `n` is a duplicate of `t`, put at the place `h` of a copy. */
  ghost predicate IsDup(s: State, t: nat, h: Home, s': State, n: nat)
  {
    && t < |s.tables| && h.Of? && n == |s.tables| && |s'.tables| == n + 1 && Extends(s, s')
    && s'.copies == s.copies && s'.depth == (if |h.path| > s.depth then |h.path| else s.depth)
    && s'.tables[n].home == h && s'.tables[n].entries.Keys == s.tables[t].entries.Keys
    && forall k :: k in s.tables[t].entries ==>
        Doubled(s, s.tables[t].entries[k], s', s'.tables[n].entries[k], Below(h, k))
  }

  lemma DupWf(s: State, t: nat, h: Home, s': State, n: nat)
    requires Wf(s) && IsDup(s, t, h, s', n) && s.tables[t].home.Frozen?
    ensures Wf(s')
  {
    assert TableOk(s, t);
    forall x: nat | x < |s'.tables| ensures TableOk(s', x) {
      if x < n { assert s'.tables[x] == s.tables[x] && TableOk(s, x); }
    }
    forall i: nat | i < |s'.copies| ensures CopyOk(s', i) {
      assert CopyOk(s, i);
    }
  }

  /** A duplicate shows what the table shows, and nothing else looks different. */
  lemma DupLook(s: State, t: nat, h: Home, s': State, n: nat)
    requires Wf(s) && IsDup(s, t, h, s', n) && s.tables[t].home.Frozen?
    ensures Wf(s') && Look(s', n) == Look(s, t)
    ensures forall x: nat :: x < n ==> Look(s', x) == Look(s, x)
  {
    DupWf(s, t, h, s', n);
    forall x: nat | x < n ensures Look(s', x) == Look(s, x) {
      ExtendsLook(s, s', x);
    }
    assert TableOk(s, t) && TableOk(s', n);
    forall k | k in s.tables[t].entries ensures LookAt(s', n, k) == LookAt(s, t, k) {
      assert Doubled(s, s.tables[t].entries[k], s', s'.tables[n].entries[k], Below(h, k));
    }
  }

  // ----- A protector takes its duplicate -----

  /** The registry now holds the duplicate for `p`, and `p` owns it. */
  function Owned(s: State, p: nat, n: nat): State
    requires p < |s.protectors|
  {
    s.(protectors := s.protectors[p := s.protectors[p].(table := n, own := true)])
  }

  predicate Ready(s: State, p: nat, n: nat)
  {
    && p < |s.protectors| && n < |s.tables| && !s.protectors[p].own && s.protectors[p].home.Of?
    && s.protectors[p].table < |s.tables| && s.tables[n].home == s.protectors[p].home
  }

  lemma OwnedWf(s: State, p: nat, n: nat)
    requires Wf(s) && Ready(s, p, n)
    ensures Wf(Owned(s, p, n))
  {
    var s' := Owned(s, p, n);
    forall x: nat | x < |s'.tables| ensures TableOk(s', x) {
      assert TableOk(s, x);
    }
    forall i: nat | i < |s'.copies| ensures CopyOk(s', i) {
      assert CopyOk(s, i);
    }
  }

  lemma {:induction false} OwnedLook(s: State, p: nat, n: nat, x: nat)
    requires Wf(s) && Ready(s, p, n) && Look(s, n) == Look(s, s.protectors[p].table) && x < |s.tables|
    ensures Wf(Owned(s, p, n)) && Look(Owned(s, p, n), x) == Look(s, x)
    decreases Height(s, x).0, Height(s, x).1
  {
    OwnedWf(s, p, n);
    var s' := Owned(s, p, n);
    assert TableOk(s, x) && TableOk(s', x);
    forall k | k in s.tables[x].entries ensures LookAt(s', x, k) == LookAt(s, x, k) {
      match s.tables[x].entries[k]
      case Data(_) =>
      case Sub(u) =>
        assert TableOk(s, u);
        OwnedLook(s, p, n, u);
      case Wrap(q) =>
        var u := s'.protectors[q].table;
        assert TableOk(s, u) && TableOk(s, s.protectors[q].table);
        OwnedLook(s, p, n, u);
    }
  }

  // ----- Paths -----

  /** The table found by following keys from table `x`. */
  function StepTo(s: State, x: nat, path: seq<string>): Option<nat>
    decreases |path|
  {
    if path == [] then Some(x)
    else if x < |s.tables| && path[0] in s.tables[x].entries && Target(s, s.tables[x].entries[path[0]]).Some? then
      StepTo(s, Target(s, s.tables[x].entries[path[0]]).value, path[1..])
    else None
  }

  lemma {:induction false} StepSnoc(s: State, x: nat, path: seq<string>, k: string)
    ensures StepTo(s, x, path + [k]) ==
      match StepTo(s, x, path)
      case None => None
      case Some(u) => StepTo(s, u, [k])
    decreases |path|
  {
    if path == [] {
      assert [] + [k] == [k];
    } else {
      assert (path + [k])[1..] == path[1..] + [k];
      if x < |s.tables| && path[0] in s.tables[x].entries && Target(s, s.tables[x].entries[path[0]]).Some? {
        StepSnoc(s, Target(s, s.tables[x].entries[path[0]]).value, path[1..], k);
      }
    }
  }

  /** From the table of a copy a path leads to the place of that name, or into the cache. */
  lemma {:induction false} StepHome(s: State, x: nat, path: seq<string>)
    requires Wf(s) && x < |s.tables| && StepTo(s, x, path).Some?
    ensures var (h, u) := (s.tables[x].home, StepTo(s, x, path).value);
      u < |s.tables| && (s.tables[u].home.Of? ==> h.Of? && s.tables[u].home == Of(h.copy, h.path + path))
    decreases |path|
  {
    if path == [] {
      assert s.tables[x].home.Of? ==> s.tables[x].home.path + [] == s.tables[x].home.path;
    } else {
      assert TableOk(s, x);
      var c := Target(s, s.tables[x].entries[path[0]]).value;
      StepHome(s, c, path[1..]);
      if s.tables[c].home.Of? {
        assert s.tables[x].home.path + [path[0]] + path[1..] == s.tables[x].home.path + path;
      }
    }
  }

  function Fetch(d: Deep, path: seq<string>): Option<Deep>
    decreases |path|
  {
    if path == [] then Some(d)
    else if d.Node? && path[0] in d.kids then Fetch(d.kids[path[0]], path[1..])
    else None
  }

  /** Following keys shows what is found there; where no table is found there is none to see. */
  lemma {:induction false} FetchStep(s: State, x: nat, path: seq<string>)
    requires Wf(s) && x < |s.tables|
    ensures match StepTo(s, x, path)
      case Some(u) => u < |s.tables| && Fetch(Look(s, x), path) == Some(Look(s, u))
      case None => !(Fetch(Look(s, x), path).Some? && Fetch(Look(s, x), path).value.Node?)
    decreases |path|
  {
    if path != [] {
      assert TableOk(s, x);
      if path[0] in s.tables[x].entries {
        assert Look(s, x).kids[path[0]] == LookAt(s, x, path[0]);
        var v := s.tables[x].entries[path[0]];
        if Target(s, v).Some? {
          FetchStep(s, Target(s, v).value, path[1..]);
        }
      }
    }
  }

  // ----- Writing -----

  function PutEntry(s: State, u: nat, k: string, e: Option<Val>): State
    requires u < |s.tables|
  {
    var t := s.tables[u];
    s.(tables := s.tables[u := t.(entries := if e.Some? then t.entries[k := e.value] else t.entries - {k})])
  }

  /** A value that may stand at that place: plain, or a table made for it. */
  predicate Fits(s: State, u: nat, k: string, e: Option<Val>)
    requires u < |s.tables|
  {
    s.tables[u].home.Of? && (e.Some? ==> EntryOk(s, s.tables[u].home, k, e.value))
  }

  lemma PutWf(s: State, u: nat, k: string, e: Option<Val>)
    requires Wf(s) && u < |s.tables| && Fits(s, u, k, e)
    ensures Wf(PutEntry(s, u, k, e))
  {
    var s' := PutEntry(s, u, k, e);
    forall x: nat | x < |s'.tables| ensures TableOk(s', x) {
      assert TableOk(s, x);
    }
    forall i: nat | i < |s'.copies| ensures CopyOk(s', i) {
      assert CopyOk(s, i);
    }
  }

  /** `g` is at or above the place `h` of a copy. */
  predicate Above(g: Home, h: Home) { g.Of? && h.Of? && g.copy == h.copy && g.path <= h.path }

  /** A write is not seen from places that are not above it: not from the cache, not from
      another copy, not from beside it. */
  lemma {:induction false} Elsewhere(s: State, u: nat, k: string, e: Option<Val>, x: nat)
    requires Wf(s) && u < |s.tables| && Fits(s, u, k, e) && x < |s.tables| && !Above(s.tables[x].home, s.tables[u].home)
    ensures Wf(PutEntry(s, u, k, e)) && Look(PutEntry(s, u, k, e), x) == Look(s, x)
    decreases Height(s, x).0, Height(s, x).1
  {
    PutWf(s, u, k, e);
    var s' := PutEntry(s, u, k, e);
    assert TableOk(s, x) && s'.tables[x] == s.tables[x];
    forall j | j in s.tables[x].entries ensures LookAt(s', x, j) == LookAt(s, x, j) {
      match s.tables[x].entries[j]
      case Data(_) =>
      case Sub(c) =>
        assert TableOk(s, c);
        Elsewhere(s, u, k, e, c);
      case Wrap(p) =>
        assert TableOk(s, s.protectors[p].table);
        Elsewhere(s, u, k, e, s.protectors[p].table);
    }
  }

  ghost function Shown(s: State, u: nat, k: string, e: Option<Val>): Option<Deep>
    requires Wf(s) && u < |s.tables| && Fits(s, u, k, e)
  {
    if e.None? then None else Some(Show(s, e.value))
  }

  function PutKid(kids: map<string, Deep>, k: string, e: Option<Deep>): map<string, Deep>
  {
    if e.Some? then kids[k := e.value] else kids - {k}
  }

  /** Writing below a path of an independent tree; none when no table is there. */
  function Put(d: Deep, path: seq<string>, k: string, e: Option<Deep>): Option<Deep>
    decreases |path|
  {
    if d.Leaf? then None
    else if path == [] then Some(Node(PutKid(d.kids, k, e)))
    else if path[0] !in d.kids then None
    else
      match Put(d.kids[path[0]], path[1..], k, e)
      case None => None
      case Some(c) => Some(Node(d.kids[path[0] := c]))
  }

  /** Every entry of `u` other than the written one shows the same, and the written one shows
      what was written. */
  lemma WriteHere(s: State, u: nat, k: string, e: Option<Val>)
    requires Wf(s) && u < |s.tables| && Fits(s, u, k, e)
    ensures Wf(PutEntry(s, u, k, e))
    ensures Look(PutEntry(s, u, k, e), u) == Node(PutKid(Look(s, u).kids, k, Shown(s, u, k, e)))
  {
    PutWf(s, u, k, e);
    var s' := PutEntry(s, u, k, e);
    assert TableOk(s, u) && TableOk(s', u);
    forall j | j in s'.tables[u].entries
      ensures LookAt(s', u, j) == if j == k then Show(s, e.value) else LookAt(s, u, j)
    {
      var c := Target(s, s'.tables[u].entries[j]);
      if c.Some? {
        assert TableOk(s, c.value);
        Elsewhere(s, u, k, e, c.value);
      }
    }
    assert Look(s', u).kids == PutKid(Look(s, u).kids, k, Shown(s, u, k, e));
  }

  /** Beside the path to the written table nothing changes. */
  lemma Beside(s: State, u: nat, k: string, e: Option<Val>, x: nat, path: seq<string>, j: string)
    requires Wf(s) && u < |s.tables| && Fits(s, u, k, e) && x < |s.tables| && path != []
    requires StepTo(s, x, path) == Some(u)
    requires j in s.tables[x].entries && j != path[0]
    ensures Wf(PutEntry(s, u, k, e)) && x != u && LookAt(PutEntry(s, u, k, e), x, j) == LookAt(s, x, j)
  {
    PutWf(s, u, k, e);
    StepHome(s, x, path);
    assert TableOk(s, x);
    var (h, g) := (s.tables[x].home, s.tables[u].home);
    assert g.path == h.path + path && g.path[|h.path|] == path[0];
    var c := Target(s, s.tables[x].entries[j]);
    if c.Some? {
      assert TableOk(s, c.value);
      assert (h.path + [j])[|h.path|] == j;
      Elsewhere(s, u, k, e, c.value);
    }
  }

  /** Seen from above, a write is the write at that path of an independent tree. */
  lemma {:induction false} WriteAlong(s: State, u: nat, k: string, e: Option<Val>, x: nat, path: seq<string>)
    requires Wf(s) && u < |s.tables| && Fits(s, u, k, e) && x < |s.tables| && StepTo(s, x, path) == Some(u)
    ensures Wf(PutEntry(s, u, k, e))
    ensures Put(Look(s, x), path, k, Shown(s, u, k, e)) == Some(Look(PutEntry(s, u, k, e), x))
    decreases |path|
  {
    if path == [] {
      WriteHere(s, u, k, e);
    } else {
      PutWf(s, u, k, e);
      var s' := PutEntry(s, u, k, e);
      assert TableOk(s, x);
      var c := Target(s, s.tables[x].entries[path[0]]).value;
      WriteAlong(s, u, k, e, c, path[1..]);
      forall j | j in s.tables[x].entries && j != path[0] ensures x != u && LookAt(s', x, j) == LookAt(s, x, j) {
        Beside(s, u, k, e, x, path, j);
      }
      StepHome(s, x, path);
      assert s'.tables[x] == s.tables[x];
      assert LookAt(s', x, path[0]) == Look(s', c);
      assert Look(s', x).kids == Look(s, x).kids[path[0] := Look(s', c)];
    }
  }

  /** Up to a place that is not reached yet, the path to a table does not notice that a
      protector took its duplicate. */
  lemma {:induction false} StepOwned(s: State, p: nat, n: nat, x: nat, path: seq<string>)
    requires Wf(s) && Ready(s, p, n) && x < |s.tables| && StepTo(s, x, path).Some?
    requires s.tables[x].home.Of? ==> |s.tables[x].home.path| + |path| < |s.protectors[p].home.path|
    ensures StepTo(Owned(s, p, n), x, path) == StepTo(s, x, path)
    decreases |path|
  {
    if path != [] {
      assert TableOk(s, x);
      StepOwned(s, p, n, Target(s, s.tables[x].entries[path[0]]).value, path[1..]);
    }
  }

  lemma {:induction false} StepExtends(s: State, s': State, x: nat, path: seq<string>)
    requires Wf(s) && Extends(s, s') && x < |s.tables| && StepTo(s, x, path).Some?
    ensures StepTo(s', x, path) == StepTo(s, x, path)
    decreases |path|
  {
    if path != [] {
      assert TableOk(s, x) && s'.tables[x] == s.tables[x];
      StepExtends(s, s', Target(s, s.tables[x].entries[path[0]]).value, path[1..]);
    }
  }

  // ----- The independent copies it has to be like -----

  /** What every copy shows. */
  ghost function Views(s: State): (r: seq<Deep>)
    requires Wf(s)
    ensures |r| == |s.copies|
  {
    seq(|s.copies|, i requires 0 <= i < |s.copies| => assert CopyOk(s, i); Look(s, s.copies[i]))
  }

  /** The cache is as it was: no table or protector of it was written. */
  ghost predicate CacheKept(s: State, s': State)
  {
    && |s.tables| <= |s'.tables| && |s.protectors| <= |s'.protectors|
    && (forall t: nat :: t < |s'.tables| ==>
      (if t < |s.tables| && s.tables[t].home.Frozen? then s'.tables[t] == s.tables[t] else s'.tables[t].home.Of?))
    && (forall p: nat :: p < |s.protectors| && s.protectors[p].home.Frozen? ==> s'.protectors[p] == s.protectors[p])
  }

  lemma {:induction false} CacheLook(s: State, s': State, t: nat)
    requires Wf(s) && Wf(s') && CacheKept(s, s') && t < |s.tables| && s.tables[t].home.Frozen?
    ensures Look(s', t) == Look(s, t)
    decreases s.tables[t].home.rank
  {
    assert TableOk(s, t);
    forall k | k in s.tables[t].entries ensures LookAt(s', t, k) == LookAt(s, t, k) {
      var c := Target(s, s.tables[t].entries[k]);
      if c.Some? { CacheLook(s, s', c.value); }
    }
  }

  /** What the cached tables show. */
  ghost function Cache(s: State): map<nat, Deep>
    requires Wf(s)
  {
    map t: nat | t < |s.tables| && s.tables[t].home.Frozen? :: Look(s, t)
  }

  lemma SameCache(s: State, s': State)
    requires Wf(s) && Wf(s') && CacheKept(s, s')
    ensures Cache(s') == Cache(s)
  {
    forall t: nat | t < |s.tables| && s.tables[t].home.Frozen? ensures Look(s', t) == Look(s, t) {
      CacheLook(s, s', t);
    }
    assert forall t: nat :: t in Cache(s') <==> t in Cache(s);
  }

  lemma CacheKeptOn(a: State, b: State, c: State)
    requires CacheKept(a, b) && CacheKept(b, c)
    ensures CacheKept(a, c)
  {
  }

  /** The whole table of a copy, or of the cache, still shows the same. */
  ghost predicate SameLooks(s: State, s': State)
    requires Wf(s) && Wf(s')
  {
    |s.tables| <= |s'.tables| && s.copies == s'.copies && CacheKept(s, s') &&
    forall x: nat :: x < |s.tables| ==> Look(s', x) == Look(s, x)
  }

  /** The state after a protector was opened that did not own its table. */
  ghost predicate Opened(s: State, p: nat, s': State, u: nat)
  {
    && p < |s.protectors| && s.protectors[p].table < |s.tables| && s.tables[s.protectors[p].table].home.Frozen?
    && exists d: State ::
         IsDup(s, s.protectors[p].table, s.protectors[p].home, d, u) && Ready(d, p, u) && s' == Owned(d, p, u)
  }

  lemma OpenedStep(s: State, p: nat, s': State, u: nat, x: nat, path: seq<string>)
    requires Wf(s) && Opened(s, p, s', u) && x < |s.tables| && StepTo(s, x, path).Some?
    requires s.tables[x].home.Of? && |s.tables[x].home.path| + |path| < |s.protectors[p].home.path|
    ensures StepTo(s', x, path) == StepTo(s, x, path)
  {
    var d: State :|
      IsDup(s, s.protectors[p].table, s.protectors[p].home, d, u) && Ready(d, p, u) && s' == Owned(d, p, u);
    DupWf(s, s.protectors[p].table, s.protectors[p].home, d, u);
    StepExtends(s, d, x, path);
    StepOwned(d, p, u, x, path);
  }

  lemma {:induction false} StepShort(s: State, x: nat, path: seq<string>, j: nat)
    requires j <= |path| && StepTo(s, x, path[..j]).None?
    ensures StepTo(s, x, path).None?
    decreases |path|
  {
    if j > 0 {
      assert path[..j][1..] == path[1..][..j - 1];
      if x < |s.tables| && path[0] in s.tables[x].entries && Target(s, s.tables[x].entries[path[0]]).Some? {
        StepShort(s, Target(s, s.tables[x].entries[path[0]]).value, path[1..], j - 1);
      }
    }
  }

  lemma SameLooksOn(a: State, b: State, c: State)
    requires Wf(a) && Wf(b) && Wf(c) && SameLooks(a, b) && SameLooks(b, c)
    ensures SameLooks(a, c)
  {
    CacheKeptOn(a, b, c);
  }

  /** States that look the same everywhere show the same copies. */
  lemma SameViews(s: State, s': State)
    requires Wf(s) && Wf(s') && SameLooks(s, s')
    ensures Views(s') == Views(s)
  {
    forall i: nat | i < |s.copies| ensures Views(s')[i] == Views(s)[i] {
      assert CopyOk(s, i);
    }
  }

  /** A write is a write into that copy alone. */
  lemma StoreEffect(s: State, u: nat, k: string, e: Option<Val>, i: nat, path: seq<string>)
    requires Wf(s) && u < |s.tables| && Fits(s, u, k, e) && i < |s.copies| && s.tables[u].home == Of(i, path)
    requires StepTo(s, s.copies[i], path) == Some(u)
    ensures var s' := PutEntry(s, u, k, e);
      Wf(s') && CacheKept(s, s') &&
      Put(Views(s)[i], path, k, Shown(s, u, k, e)).Some? &&
      Views(s') == Views(s)[i := Put(Views(s)[i], path, k, Shown(s, u, k, e)).value]
  {
    PutWf(s, u, k, e);
    var s' := PutEntry(s, u, k, e);
    assert CopyOk(s, i);
    WriteAlong(s, u, k, e, s.copies[i], path);
    forall j: nat | j < |s.copies| && j != i ensures Views(s')[j] == Views(s)[j] {
      assert CopyOk(s, j);
      Elsewhere(s, u, k, e, s.copies[j]);
    }
  }

  // ----- Whole scripts -----

  /** What a script does with its copies: `o[k]`, `o[k] = v`, `o[k] = Reference(...)`, and taking
      a further copy. */
  datatype Op =
    | Get(copy: nat, path: seq<string>, key: string)
    | Set(copy: nat, path: seq<string>, key: string, value: Option<int>)
    | Refer(copy: nat, path: seq<string>, key: string, source: nat)
    | Make(source: nat)

  datatype Outcome = Nil | Number(n: int) | ATable | Done | Failed

  /** What is seen of an entry. */
  function Seen(kids: map<string, Deep>, k: string): Outcome
  {
    if k !in kids then Nil else if kids[k].Leaf? then Number(kids[k].n) else ATable
  }

  function EagerPut(views: seq<Deep>, i: nat, path: seq<string>, k: string, e: Option<Deep>): (seq<Deep>, Outcome)
    requires i < |views|
  {
    match Put(views[i], path, k, e)
    case None => (views, Failed)
    case Some(d) => (views[i := d], Done)
  }

  /** The same on deep copies that share nothing. */
  function EagerStep(views: seq<Deep>, cache: map<nat, Deep>, op: Op): (seq<Deep>, Outcome)
  {
    match op
    case Get(i, path, k) =>
      if i >= |views| then (views, Failed)
      else
        (match TableAt(views[i], path)
         case None => (views, Failed)
         case Some(kids) => (views, Seen(kids, k)))
    case Set(i, path, k, v) =>
      if i >= |views| then (views, Failed)
      else EagerPut(views, i, path, k, if v.Some? then Some(Leaf(v.value)) else None)
    case Refer(i, path, k, c) =>
      if i >= |views| || c !in cache then (views, Failed) else EagerPut(views, i, path, k, Some(cache[c]))
    case Make(c) =>
      if c !in cache then (views, Failed) else (views + [cache[c]], Done)
  }

  function Eager(views: seq<Deep>, cache: map<nat, Deep>, ops: seq<Op>): (seq<Deep>, seq<Outcome>)
    decreases |ops|
  {
    if ops == [] then (views, [])
    else
      var (now, out) := EagerStep(views, cache, ops[0]);
      var (end, outs) := Eager(now, cache, ops[1..]);
      (end, [out] + outs)
  }

  // ----- The object -----

  class LuaCopies {
    var tables: seq<Table>
    var protectors: seq<Protector>
    var copies: seq<nat>
    ghost var depth: nat

    ghost function Now(): State
      reads this
    {
      State(tables, protectors, copies, depth)
    }

    ghost predicate Valid()
      reads this
    {
      Wf(Now())
    }

    /** Before any copy is taken there is only the cache. */
    constructor (ts: seq<Table>, ps: seq<Protector>)
      requires Wf(State(ts, ps, [], 0)) && forall t :: 0 <= t < |ts| ==> ts[t].home.Frozen?
      ensures Valid() && Now() == State(ts, ps, [], 0) && Views(Now()) == []
    {
      tables, protectors, copies, depth := ts, ps, [], 0;
    }

    /** `SimpleTableDuplicate`: one level is copied, and what is below comes under new
        protectors that do not own it. */
    method SimpleTableDuplicate(t: nat, h: Home) returns (n: nat)
      requires Valid() && t < |tables| && tables[t].home.Frozen? && h.Of?
      modifies this`tables, this`protectors, this`depth
      ensures IsDup(old(Now()), t, h, Now(), n)
    {
      var (source, entries, keys) := (tables[t].entries, map[], tables[t].entries.Keys);
      assert TableOk(Now(), t);
      while keys != {}
        invariant keys <= source.Keys && entries.Keys == source.Keys - keys
        invariant tables == old(tables) && old(protectors) <= protectors && depth == old(depth)
        invariant forall k :: k in entries ==> Doubled(old(Now()), source[k], Now(), entries[k], Below(h, k))
      {
        var k :| k in keys;
        keys := keys - {k};
        var v := source[k];
        match v {
          case Data(_) =>
            entries := entries[k := v];
          case Sub(u) =>
            entries := entries[k := Wrap(|protectors|)];
            protectors := protectors + [Protector(u, false, Below(h, k))];
          case Wrap(p) =>
            entries := entries[k := Wrap(|protectors|)];
            protectors := protectors + [Protector(protectors[p].table, false, Below(h, k))];
        }
      }
      n := |tables|;
      tables := tables + [Table(entries, h)];
      depth := if |h.path| > depth then |h.path| else depth;
    }

    /** The first half of `OnIndex` and `OnNewIndex`: the table a protector stands for, which
        becomes its own when it is not yet. */
    method Open(p: nat) returns (u: nat)
      requires Valid() && p < |protectors| && protectors[p].table < |tables| && protectors[p].home.Of?
      requires if protectors[p].own then tables[protectors[p].table].home == protectors[p].home
          else tables[protectors[p].table].home.Frozen?
      modifies this`tables, this`protectors, this`depth
      ensures Valid() && u < |tables| && p < |protectors| && SameLooks(old(Now()), Now())
      ensures protectors[p] == Protector(u, true, old(protectors)[p].home) && tables[u].home == protectors[p].home
      ensures Look(Now(), u) == Look(old(Now()), old(protectors)[p].table)
      ensures old(protectors)[p].own ==> Now() == old(Now())
      ensures !old(protectors)[p].own ==> Opened(old(Now()), p, Now(), u)
    {
      ghost var s := Now();
      if protectors[p].own {
        u := protectors[p].table;
      } else {
        var t := protectors[p].table;
        u := SimpleTableDuplicate(t, protectors[p].home);
        ghost var d := Now();
        DupLook(s, t, protectors[p].home, d, u);
        protectors := protectors[p := Protector(u, true, protectors[p].home)];
        assert Now() == Owned(d, p, u);
        OwnedWf(d, p, u);
        forall x: nat | x < |d.tables| ensures Look(Now(), x) == Look(d, x) {
          OwnedLook(d, p, u, x);
        }
        assert Opened(s, p, Now(), u);
      }
    }

    /** Following keys from a copy, each of which goes through `OnIndex` once a table is below a
        protector. Nothing looks different afterwards. */
    method Reach(i: nat, path: seq<string>) returns (r: Option<nat>)
      requires Valid() && i < |copies|
      modifies this`tables, this`protectors, this`depth
      ensures Valid() && SameLooks(old(Now()), Now())
      ensures match r
        case Some(u) => u < |tables| && tables[u].home == Of(i, path) && StepTo(Now(), copies[i], path) == Some(u)
        case None => StepTo(Now(), copies[i], path).None?
    {
      var j: nat, u: nat := 0, copies[i];
      assert CopyOk(Now(), i);
      while j < |path|
        invariant j <= |path| && Valid() && SameLooks(old(Now()), Now())
        invariant u < |tables| && tables[u].home == Of(i, path[..j]) && StepTo(Now(), copies[i], path[..j]) == Some(u)
      {
        ghost var s := Now();
        assert path[..j] + [path[j]] == path[..j + 1];
        var c := Follow(i, path[..j], u, path[j]);
        SameLooksOn(old(Now()), s, Now());
        if c == None {
          StepShort(Now(), copies[i], path, j + 1);
          return None;
        }
        u, j := c.value, j + 1;
      }
      assert path[..j] == path;
      r := Some(u);
    }

    /** One key of a path: the table under it, made the copy's own, if there is one. */
    method Follow(i: nat, ghost at: seq<string>, u: nat, k: string) returns (r: Option<nat>)
      requires Valid() && i < |copies| && u < |tables|
      requires tables[u].home == Of(i, at) && StepTo(Now(), copies[i], at) == Some(u)
      modifies this`tables, this`protectors, this`depth
      ensures Valid() && SameLooks(old(Now()), Now())
      ensures match r
        case Some(c) =>
          c < |tables| && tables[c].home == Of(i, at + [k]) && StepTo(Now(), copies[i], at + [k]) == Some(c)
        case None => StepTo(Now(), copies[i], at + [k]).None?
    {
      ghost var s := Now();
      assert CopyOk(s, i) && TableOk(s, u);
      StepSnoc(s, copies[i], at, k);
      if k !in tables[u].entries || tables[u].entries[k].Data? { return None; }
      match tables[u].entries[k] {
        case Sub(c) => r := Some(c);
        case Wrap(p) =>
          var c := Open(p);
          if s != Now() { OpenedStep(s, p, Now(), c, copies[i], at); }
          StepSnoc(Now(), copies[i], at, k);
          r := Some(c);
      }
    }

    /** `o[k]` at the end of a path: what an independent copy would give, or an error where
        there is no table to index. */
    method Read(i: nat, path: seq<string>, k: string) returns (ok: bool, r: Option<Val>)
      requires Valid() && i < |copies|
      modifies this`tables, this`protectors, this`depth
      ensures Valid() && copies == old(copies) && CacheKept(old(Now()), Now()) && Views(Now()) == old(Views(Now()))
      ensures ok == TableAt(old(Views(Now()))[i], path).Some?
      ensures ok ==> Reads(Now(), r, TableAt(old(Views(Now()))[i], path).value, k)
    {
      ghost var s := Now();
      assert CopyOk(s, i);
      var u := Reach(i, path);
      SameViews(s, Now());
      FetchStep(Now(), copies[i], path);
      ok, r := u.Some?, None;
      if ok && k in tables[u.value].entries {
        assert TableOk(Now(), u.value);
        assert Look(Now(), u.value).kids[k] == LookAt(Now(), u.value, k);
        r := Some(tables[u.value].entries[k]);
      }
    }

    /** `o[k] = v` with a plain value, or nil, at the end of a path. */
    method Write(i: nat, path: seq<string>, k: string, v: Option<int>) returns (ok: bool)
      requires Valid() && i < |copies|
      modifies this`tables, this`protectors, this`depth
      ensures Valid() && copies == old(copies) && CacheKept(old(Now()), Now())
      ensures var to := Put(old(Views(Now()))[i], path, k, if v.Some? then Some(Leaf(v.value)) else None);
        ok == to.Some? && Views(Now()) == if ok then old(Views(Now()))[i := to.value] else old(Views(Now()))
    {
      ghost var s := Now();
      assert CopyOk(s, i);
      var u := Reach(i, path);
      ghost var m := Now();
      SameViews(s, m);
      FetchStep(m, copies[i], path);
      PutFetch(Views(m)[i], path, k, if v.Some? then Some(Leaf(v.value)) else None);
      ok := u.Some?;
      if ok {
        StoreEffect(m, u.value, k, if v.Some? then Some(Data(v.value)) else None, i, path);
        var t := tables[u.value];
        tables := tables[u.value := t.(entries := if v.Some? then t.entries[k := Data(v.value)] else t.entries - {k})];
        CacheKeptOn(s, m, Now());
      }
    }

    /** `o[k] = Reference(...)`: a copy of a cached table stored at the end of a path. */
    method Attach(i: nat, path: seq<string>, k: string, c: nat) returns (ok: bool)
      requires Valid() && i < |copies| && c < |tables| && tables[c].home.Frozen?
      modifies this`tables, this`protectors, this`depth
      ensures Valid() && copies == old(copies) && CacheKept(old(Now()), Now())
      ensures var to := Put(old(Views(Now()))[i], path, k, Some(old(Look(Now(), c))));
        ok == to.Some? && Views(Now()) == if ok then old(Views(Now()))[i := to.value] else old(Views(Now()))
    {
      ghost var s := Now();
      assert CopyOk(s, i);
      var u := Reach(i, path);
      ghost var m := Now();
      SameViews(s, m);
      FetchStep(m, copies[i], path);
      PutFetch(Views(m)[i], path, k, Some(Look(m, c)));
      ok := u.Some?;
      if ok {
        var n := SimpleTableDuplicate(c, Of(i, path + [k]));
        ghost var d := Now();
        DupLook(m, c, Of(i, path + [k]), d, n);
        SameViews(m, d);
        StepExtends(m, d, copies[i], path);
        StoreEffect(d, u.value, k, Some(Sub(n)), i, path);
        var t := tables[u.value];
        tables := tables[u.value := t.(entries := t.entries[k := Sub(n)])];
        CacheKeptOn(s, m, d);
        CacheKeptOn(s, d, Now());
      }
    }

    /** A new copy of a cached table. */
    method Copy(c: nat)
      requires Valid() && c < |tables| && tables[c].home.Frozen?
      modifies this
      ensures Valid() && CacheKept(old(Now()), Now()) && Views(Now()) == old(Views(Now())) + [old(Look(Now(), c))]
    {
      ghost var s := Now();
      var n := SimpleTableDuplicate(c, Of(|copies|, []));
      ghost var d := Now();
      DupLook(s, c, Of(|copies|, []), d, n);
      copies := copies + [n];
      OneMore(s, d, n, Now());
    }

    /** One operation of a script. */
    method Step(op: Op) returns (out: Outcome)
      requires Valid()
      modifies this
      ensures Valid() && CacheKept(old(Now()), Now())
      ensures (Views(Now()), out) == EagerStep(old(Views(Now())), Cache(old(Now())), op)
    {
      out := Failed;
      match op {
        case Get(i, path, k) =>
          if i < |copies| {
            var ok, r := Read(i, path, k);
            if ok { out := if r.None? then Nil else if r.value.Data? then Number(r.value.n) else ATable; }
          }
        case Set(i, path, k, v) =>
          if i < |copies| {
            var ok := Write(i, path, k, v);
            if ok { out := Done; }
          }
        case Refer(i, path, k, c) =>
          if i < |copies| && c < |tables| && tables[c].home.Frozen? {
            var ok := Attach(i, path, k, c);
            if ok { out := Done; }
          }
        case Make(c) =>
          if c < |tables| && tables[c].home.Frozen? {
            Copy(c);
            out := Done;
          }
      }
    }

    /** Any interleaving of reads and writes through any number of copies shows what
        independent copies would show, and the cache is never written. */
    method Run(ops: seq<Op>) returns (outs: seq<Outcome>)
      requires Valid()
      modifies this
      ensures Valid() && CacheKept(old(Now()), Now())
      ensures (Views(Now()), outs) == Eager(old(Views(Now())), Cache(old(Now())), ops)
    {
      outs := [];
      var n := 0;
      ghost var (s, cache) := (Now(), Cache(Now()));
      assert ops[0..] == ops && [] + Eager(Views(s), cache, ops).1 == Eager(Views(s), cache, ops).1;
      while n < |ops|
        invariant 0 <= n <= |ops| && Valid() && CacheKept(s, Now()) && Cache(Now()) == cache
        invariant var rest := Eager(Views(Now()), cache, ops[n..]);
          Eager(old(Views(Now())), cache, ops) == (rest.0, outs + rest.1)
      {
        ghost var was := Now();
        var out := Step(ops[n]);
        SameCache(was, Now());
        CacheKeptOn(s, was, Now());
        assert ops[n..][0] == ops[n] && ops[n..][1..] == ops[n + 1..];
        ghost var rest := Eager(Views(Now()), cache, ops[n + 1..]);
        assert outs + ([out] + rest.1) == outs + [out] + rest.1;
        outs, n := outs + [out], n + 1;
      }
      assert ops[n..] == [] && outs + [] == outs;
    }
  }

  /** One more copy shows its table, and the others what they did. */
  lemma OneMore(s: State, d: State, n: nat, s': State)
    requires Wf(s) && Wf(d) && SameLooks(s, d) && n < |d.tables| && d.tables[n].home == Of(|d.copies|, [])
    requires s' == d.(copies := d.copies + [n])
    ensures Wf(s') && Views(s') == Views(s) + [Look(d, n)] && CacheKept(s, s')
  {
    forall x: nat | x < |s'.tables| ensures TableOk(s', x) {
      assert TableOk(d, x);
    }
    forall i: nat | i < |s'.copies| ensures CopyOk(s', i) {
      if i < |d.copies| { assert CopyOk(d, i); }
    }
    SameViews(s, d);
    forall i: nat | i < |s'.copies| ensures Views(s')[i] == (Views(d) + [Look(d, n)])[i] {
      if i < |d.copies| { assert CopyOk(d, i); }
      ExtendsLook(d, s', s'.copies[i]);
    }
  }

  /** The entries of the table a path leads to. */
  function TableAt(d: Deep, path: seq<string>): Option<map<string, Deep>>
  {
    match Fetch(d, path)
    case Some(Node(kids)) => Some(kids)
    case _ => None
  }

  /** What `copy[q0][q1]...[l]` gives. */
  function SeenAt(d: Deep, q: seq<string>, l: string): Outcome {
    match TableAt(d, q) case None => Failed case Some(kids) => Seen(kids, l)
  }

  /** What is seen of an entry that was written. */
  function SeenOf(e: Option<Deep>): Outcome {
    match e
    case None => Nil
    case Some(Leaf(n)) => Number(n)
    case Some(Node(_)) => ATable
  }

  /** A write is read back at its place, what it stored is found below, and every other entry
      gives what it gave. */
  lemma {:induction false} PutSeen(d: Deep, path: seq<string>, k: string, e: Option<Deep>, q: seq<string>, l: string)
    requires Put(d, path, k, e).Some?
    ensures SeenAt(Put(d, path, k, e).value, q, l) ==
      if q == path && l == k then SeenOf(e)
      else if path + [k] <= q then (if e.Some? then SeenAt(e.value, q[|path| + 1..], l) else Failed)
      else SeenAt(d, q, l)
    decreases |q|
  {
    if q != [] && path != [] && q[0] == path[0] {
      PutSeen(d.kids[path[0]], path[1..], k, e, q[1..], l);
      assert path == [path[0]] + path[1..] && q == [q[0]] + q[1..];
      assert path + [k] == [path[0]] + (path[1..] + [k]);
      assert path + [k] <= q <==> path[1..] + [k] <= q[1..];
      if path + [k] <= q { assert q[1..][|path[1..]| + 1..] == q[|path| + 1..]; }
    } else if q != [] && path == [] {
      assert path + [k] <= q <==> q[0] == k;
    } else if q != [] {
      assert (path + [k])[0] == path[0];
    }
  }

  /** So in a script: after an assignment that was done, a read of that entry gives the value
      assigned, one below it fails, and any other, through any copy, gives what it gave. */
  lemma SetThenGet(views: seq<Deep>, cache: map<nat, Deep>, i: nat, path: seq<string>, k: string, v: Option<int>,
      j: nat, q: seq<string>, l: string)
    requires EagerStep(views, cache, Set(i, path, k, v)).1 == Done
    ensures var now := EagerStep(views, cache, Set(i, path, k, v)).0;
      EagerStep(now, cache, Get(j, q, l)).1 ==
        if j == i && q == path && l == k then (if v.Some? then Number(v.value) else Nil)
        else if j == i && path + [k] <= q then Failed
        else EagerStep(views, cache, Get(j, q, l)).1
  {
    PutSeen(views[i], path, k, if v.Some? then Some(Leaf(v.value)) else None, q, l);
  }

  /** Reading a key gives nil, or a value that shows what stands there. */
  ghost predicate Reads(s: State, r: Option<Val>, kids: map<string, Deep>, k: string)
    requires Wf(s)
  {
    r.Some? == (k in kids) &&
    (r.Some? ==>
       && (r.value.Data? || (Target(s, r.value).Some? && Target(s, r.value).value < |s.tables|))
       && Show(s, r.value) == kids[k])
  }

  /** A write succeeds where a table is. */
  lemma {:induction false} PutFetch(d: Deep, path: seq<string>, k: string, e: Option<Deep>)
    ensures Put(d, path, k, e).Some? <==> TableAt(d, path).Some?
    decreases |path|
  {
    if path != [] && d.Node? && path[0] in d.kids { PutFetch(d.kids[path[0]], path[1..], k, e); }
  }
}
