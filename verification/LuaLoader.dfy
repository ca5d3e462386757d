/** Loading scripts that inherit from each other: the counter-based loader of CLuaFile2
    and the queue-based loader of CLuaFile, with the cache both use.  Names are given
    folded to one case: both the counters and the cache ignore it. */
module LuaLoader {

  /** The scripts each file asks for, in the order of its calls. */
  type Graph = map<string, seq<string>>

  // ----- What a reference graph looks like -----

  /** A path of files that exist, each asking for the next, and all behind the first not
      cached: the first is opened without a look into the cache. */
  ghost predicate Chain(g: Graph, cached: set<string>, s: seq<string>) {
    && (forall i :: 0 <= i < |s| ==> s[i] in g && (i > 0 ==> s[i] !in cached))
    && (forall i :: 0 <= i < |s| - 1 ==> s[i + 1] in g[s[i]])
  }

  ghost predicate Repeats(s: seq<string>) {
    exists i, j :: 0 <= i < j < |s| && s[i] == s[j]
  }

  ghost predicate CycleFrom(g: Graph, cached: set<string>, root: string) {
    exists s :: s != [] && s[0] == root && Chain(g, cached, s) && Repeats(s)
  }

  /** A file asks for a script that is no file, not cached, and not the empty name. */
  ghost predicate Dangles(g: Graph, cached: set<string>, s: seq<string>) {
    s != [] && Chain(g, cached, s) && exists x :: x in g[s[|s| - 1]] && x != "" && x !in cached && x !in g
  }

  ghost predicate GapFrom(g: Graph, cached: set<string>, root: string) {
    exists s :: s != [] && s[0] == root && Dangles(g, cached, s)
  }

  // ----- Files loaded in dependency order -----

  /** Everything file `n` asks for is the empty name, was cached, or is in `order`. */
  ghost predicate Served(g: Graph, cached: set<string>, order: seq<string>, n: string)
    requires n in g
  {
    forall x :: x in g[n] ==> x == "" || x in cached || x in order
  }

  /** `order` lists files loaded on top of `cached`, each after what it asks for. */
  ghost predicate Ordered(g: Graph, cached: set<string>, order: seq<string>) {
    forall i :: 0 <= i < |order| ==> order[i] in g && Served(g, cached, order[..i], order[i])
  }

  lemma ServedLonger(g: Graph, cached: set<string>, order: seq<string>, more: seq<string>, n: string)
    requires n in g && Served(g, cached, order, n) && order <= more
    ensures Served(g, cached, more, n)
  {
    forall x | x in order ensures x in more {
      var i :| 0 <= i < |order| && order[i] == x;
      assert more[i] == x;
    }
  }

  lemma OrderedSnoc(g: Graph, cached: set<string>, order: seq<string>, n: string)
    requires Ordered(g, cached, order) && n in g && Served(g, cached, order, n)
    ensures Ordered(g, cached, order + [n])
  {
    var more := order + [n];
    forall i | 0 <= i < |more| ensures more[i] in g && Served(g, cached, more[..i], more[i]) {
      assert more[..i] == if i < |order| then order[..i] else order;
    }
  }

  /** Along a chain the files come ever earlier in the order. */
  lemma {:induction false} ChainDescends(g: Graph, cached: set<string>, order: seq<string>, s: seq<string>, i: nat,
      a: nat)
    requires Ordered(g, cached, order) && Chain(g, cached, s) && i < |s| && a < |order| && s[i] == order[a] && "" !in g
    ensures forall j :: i < j < |s| ==> exists b :: 0 <= b < a && order[b] == s[j]
    decreases |s| - i
  {
    if i + 1 < |s| {
      assert Served(g, cached, order[..a], order[a]);
      assert s[i + 1] in g[s[i]] && s[i + 1] in order[..a];
      var b :| 0 <= b < a && order[b] == s[i + 1];
      ChainDescends(g, cached, order, s, i + 1, b);
      forall j | i < j < |s| ensures exists b :: 0 <= b < a && order[b] == s[j] {
        if j > i + 1 {
          var c :| 0 <= c < b && order[c] == s[j];
        }
      }
    }
  }

  ghost predicate Distinct(s: seq<string>) {
    forall i, j :: 0 <= i < j < |s| ==> s[i] != s[j]
  }

  /** A file whose references were all served reaches neither a cycle nor a gap. */
  lemma ServedIsClean(g: Graph, cached: set<string>, order: seq<string>, root: string)
    requires Ordered(g, cached, order) && Distinct(order) && "" !in g
    requires root in g && root !in order && Served(g, cached, order, root)
    ensures !CycleFrom(g, cached, root) && !GapFrom(g, cached, root)
  {
    forall s | s != [] && s[0] == root && Chain(g, cached, s)
      ensures !Repeats(s) && !Dangles(g, cached, s)
    {
      ServedChain(g, cached, order, root, s);
    }
  }

  lemma ChainInOrder(g: Graph, cached: set<string>, order: seq<string>, s: seq<string>, j: nat)
    requires Ordered(g, cached, order) && "" !in g && 0 < j < |s| && Chain(g, cached, s)
    requires Served(g, cached, order, s[0])
    ensures s[j] in order
  {
    assert s[1] in g[s[0]] && s[1] in order;
    var b: nat :| b < |order| && order[b] == s[1];
    ChainDescends(g, cached, order, s, 1, b);
  }

  lemma ChainDiffers(g: Graph, cached: set<string>, order: seq<string>, s: seq<string>, i: nat, j: nat)
    requires Ordered(g, cached, order) && Distinct(order) && "" !in g && i < j < |s| && Chain(g, cached, s)
    requires s[i] in order
    ensures s[i] != s[j]
  {
    var a: nat :| a < |order| && order[a] == s[i];
    var x := s[j];
    ChainDescends(g, cached, order, s, i, a);
    var b :| 0 <= b < a && order[b] == x;
    assert order[b] != order[a];
  }

  lemma ServedChain(g: Graph, cached: set<string>, order: seq<string>, root: string, s: seq<string>)
    requires Ordered(g, cached, order) && Distinct(order) && "" !in g
    requires root in g && root !in order && Served(g, cached, order, root)
    requires s != [] && s[0] == root && Chain(g, cached, s)
    ensures !Repeats(s) && !Dangles(g, cached, s)
  {
    forall j | 0 < j < |s| ensures s[j] in order {
      ChainInOrder(g, cached, order, s, j);
    }
    forall i, j | 0 <= i < j < |s| ensures s[i] != s[j] {
      if i > 0 { ChainDiffers(g, cached, order, s, i, j); }
    }
    var last := s[|s| - 1];
    assert Served(g, cached, order, last) by {
      if |s| > 1 {
        var a :| 0 <= a < |order| && order[a] == last;
        ServedLonger(g, cached, order[..a], order, last);
      }
    }
    forall x | x in g[last] && x != "" && x !in cached ensures x in g {
      var a :| 0 <= a < |order| && order[a] == x;
    }
  }

  datatype Outcome = Loaded | Circular | Unopened

  lemma ChainSnoc(g: Graph, cached: set<string>, s: seq<string>, n: string)
    requires Chain(g, cached, s) && n in g && (s != [] ==> n !in cached && n in g[s[|s| - 1]])
    ensures Chain(g, cached, s + [n])
  {
  }

  // ----- Bounds on the files being loaded -----

  ghost function Elements(s: seq<string>): set<string> {
    set x | x in s
  }

  lemma {:induction false} TwiceEach(s: seq<string>, names: set<string>)
    requires (forall x :: x in s ==> x in names) && forall x :: x in s ==> multiset(s)[x] <= 2
    ensures |s| <= 2 * |names|
    decreases |names|
  {
    if s != [] {
      var x := s[0];
      var rest := Without(s, x);
      WithoutCount(s, x);
      TwiceEach(rest, names - {x});
    }
  }

  function Without(s: seq<string>, x: string): seq<string> {
    if s == [] then [] else if s[0] == x then Without(s[1..], x) else [s[0]] + Without(s[1..], x)
  }

  lemma {:induction false} WithoutCount(s: seq<string>, x: string)
    ensures |Without(s, x)| + multiset(s)[x] == |s|
    ensures forall y :: y in Without(s, x) ==> y in s && y != x
    ensures forall y :: y != x ==> multiset(Without(s, x))[y] == multiset(s)[y]
  {
    if s != [] {
      WithoutCount(s[1..], x);
      assert s == [s[0]] + s[1..];
    }
  }

  // ----- The counter-based loader -----

  /** How often file `n` was started: `m_pRefMap`, where a missing entry reads as 0. */
  function Count(counts: map<string, int>, n: string): int {
    if n in counts then counts[n] else 0
  }

  ghost predicate AtMost(counts: map<string, int>, limit: int) {
    forall n :: Count(counts, n) <= limit
  }

  /** A cached file was started at most once; the others are the ones being executed. */
  ghost predicate Counted(counts: map<string, int>, cache: set<string>, stack: seq<string>) {
    && AtMost(counts, 2)
    && forall n :: if n in cache then Count(counts, n) <= 1 else Count(counts, n) == multiset(stack)[n]
  }

  lemma CountedPush(counts: map<string, int>, cache: set<string>, stack: seq<string>, name: string)
    requires Counted(counts, cache, stack) && Count(counts, name) <= if name in cache then 0 else 1
    ensures Counted(counts[name := Count(counts, name) + 1], cache, stack + [name])
  {
    var more := counts[name := Count(counts, name) + 1];
    assert forall n :: Count(more, n) == if n == name then Count(counts, n) + 1 else Count(counts, n);
  }

  lemma CountedPop(counts: map<string, int>, cache: set<string>, stack: seq<string>, name: string)
    requires Counted(counts, cache, stack + [name]) && name !in cache && name !in stack
    ensures Counted(counts, cache + {name}, stack)
  {
    assert multiset(stack)[name] == 0;
  }

  /** No file is more than twice on the stack of those being executed. */
  lemma StackTwice(g: Graph, start: set<string>, counts: map<string, int>, cache: set<string>, order: seq<string>,
      stack: seq<string>)
    requires Chain(g, start, stack) && (forall n :: n in stack ==> n !in order) && cache == start + Elements(order)
    requires Counted(counts, cache, stack)
    ensures |stack| <= 2 * |g.Keys|
  {
    forall x | x in stack ensures multiset(stack)[x] <= 2 {
      if x in cache {
        assert stack == [stack[0]] + stack[1..];
        assert x !in stack[1..];
      }
    }
    TwiceEach(stack, g.Keys);
  }

  class CounterLoader {
    const g: Graph
    var cache: set<string>
    var counts: map<string, int>
    ghost var start: set<string>
    ghost var order: seq<string>

    constructor (graph: Graph, cached: set<string>)
      requires "" !in graph && "" !in cached
      ensures g == graph && cache == start == cached && order == [] && Inv([])
      ensures counts == map[]
    {
      g, cache, counts := graph, cached, map[];
      start, order := cached, [];
    }

    /** `stack` are the files being executed, outermost first. */
    ghost predicate Inv(stack: seq<string>)
      reads this
    {
      && "" !in g && "" !in cache
      && cache == start + Elements(order) && Ordered(g, start, order) && Distinct(order)
      && Chain(g, start, stack) && (forall n :: n in stack ==> n !in order)
      && Counted(counts, cache, stack)
    }

    /** `loadFile`: counts the file, then executes its calls in order. */
    method LoadFile(name: string, ghost stack: seq<string>) returns (r: Outcome, ghost trail: seq<string>)
      requires Inv(stack) && name in g
      requires if stack == [] then Count(counts, name) == 0 && name !in order
          else name !in cache && name in g[stack[|stack| - 1]]
      modifies this
      ensures start == old(start) && AtMost(counts, 2)
      ensures r.Loaded? ==> Inv(stack + [name]) && Served(g, start, order, name)
      ensures r.Loaded? ==> name !in stack && old(cache) <= cache
      ensures r.Circular? ==> stack + [name] <= trail && Chain(g, start, trail) && Repeats(trail)
      ensures r.Unopened? ==> stack + [name] <= trail && Dangles(g, start, trail)
      decreases 2 * |g| + 1 - |stack|, 0
    {
      trail := stack + [name];
      ChainSnoc(g, start, stack, name);
      if Count(counts, name) > 1 {
        RepeatedTwice(stack, name);
        return Circular, trail;
      }
      StackTwice(g, start, counts, cache, order, stack);
      CountedPush(counts, cache, stack, name);
      counts := counts[name := Count(counts, name) + 1];
      r, trail := RunCalls(stack + [name], name);
      if r.Loaded? { ServedNotRunning(g, start, order, stack, name); }
    }

    /** Executes the calls of the last file on the stack. */
    method RunCalls(ghost stack: seq<string>, name: string) returns (r: Outcome, ghost trail: seq<string>)
      requires Inv(stack) && stack != [] && name == stack[|stack| - 1]
      modifies this
      ensures start == old(start) && AtMost(counts, 2)
      ensures r.Loaded? ==> Inv(stack) && Served(g, start, order, name) && old(cache) <= cache
      ensures r.Circular? ==> stack <= trail && Chain(g, start, trail) && Repeats(trail)
      ensures r.Unopened? ==> stack <= trail && Dangles(g, start, trail)
      decreases 2 * |g| + 1 - |stack|, 2
    {
      trail := stack;
      var i := 0;
      while i < |g[name]|
        invariant 0 <= i <= |g[name]|
        invariant start == old(start) && old(cache) <= cache && Inv(stack)
        invariant forall j :: 0 <= j < i ==> g[name][j] == "" || g[name][j] in cache
      {
        r, trail := LuaParent(g[name][i], stack);
        if !r.Loaded? { return; }
        i := i + 1;
      }
      r := Loaded;
    }

    /** Loading a file with fresh counters succeeds exactly when it reaches no cycle and
        no missing file; a circular reference is reported only where there is a cycle,
        and always when every file exists.  No file is executed more than twice, and
        none more than once when loading succeeds.  The file itself may be in the cache
        already: then it is executed again, and what refers to it is served. */
    method LoadRoot(root: string) returns (r: Outcome)
      requires Inv([]) && order == [] && root in g
      modifies this
      ensures AtMost(counts, if r.Loaded? then 1 else 2)
      ensures r.Loaded? <==> !CycleFrom(g, old(cache), root) && !GapFrom(g, old(cache), root)
      ensures r.Circular? ==> CycleFrom(g, old(cache), root)
      ensures r.Unopened? ==> GapFrom(g, old(cache), root)
    {
      assert start == cache;
      counts := map[];
      ghost var trail;
      r, trail := LoadFile(root, []);
      if r.Loaded? {
        ServedIsClean(g, start, order, root);
      } else {
        assert trail[0] == root;
      }
    }

    /** `_luaParent`: takes a script from the cache, or loads and caches it. */
    method LuaParent(ref: string, ghost stack: seq<string>) returns (r: Outcome, ghost trail: seq<string>)
      requires Inv(stack) && stack != [] && ref in g[stack[|stack| - 1]]
      modifies this
      ensures start == old(start) && AtMost(counts, 2)
      ensures r.Loaded? ==> Inv(stack) && (ref == "" || ref in cache) && old(cache) <= cache
      ensures r.Circular? ==> stack <= trail && Chain(g, start, trail) && Repeats(trail)
      ensures r.Unopened? ==> stack <= trail && Dangles(g, start, trail)
      decreases 2 * |g| + 1 - |stack|, 1
    {
      trail := stack;
      if ref in cache || ref == "" { return Loaded, trail; }
      if ref !in g { return Unopened, trail; }
      r, trail := LoadFile(ref, stack);
      if r.Loaded? {
        assert ref in stack + [ref];
        OrderedSnoc(g, start, order, ref);
        CountedPop(counts, cache, stack, ref);
        cache, order := cache + {ref}, order + [ref];
      }
    }
  }

  /** A file all of whose references are served is not being executed already: the next
      file on the stack would have been served too. */
  lemma ServedNotRunning(g: Graph, cached: set<string>, order: seq<string>, stack: seq<string>, name: string)
    requires "" !in g && Chain(g, cached, stack + [name]) && name in g && Served(g, cached, order, name)
    requires forall n :: n in stack + [name] ==> n !in order
    ensures name !in stack
  {
    var all := stack + [name];
    forall k | 0 <= k < |stack| ensures stack[k] != name {
      assert all[k + 1] in g[all[k]];
      assert all[k + 1] in all && all[k + 1] !in g[name];
    }
  }

  lemma RepeatedTwice(stack: seq<string>, name: string)
    requires multiset(stack)[name] > 1
    ensures Repeats(stack + [name])
  {
    assert name in stack;
    var k :| 0 <= k < |stack| && stack[k] == name;
    assert (stack + [name])[k] == (stack + [name])[|stack|];
  }

  // ----- The queue-based loader -----

  /** The loader of CLuaFile: refuses a file whose name is on the queue of files being
      executed. */
  class QueueLoader {
    const g: Graph
    var cache: set<string>
    var queue: seq<string>
    ghost var start: set<string>
    ghost var order: seq<string>

    constructor (graph: Graph, cached: set<string>)
      requires "" !in graph && "" !in cached
      ensures g == graph && cache == start == cached && order == [] && queue == [] && Inv()
    {
      g, cache, queue := graph, cached, [];
      start, order := cached, [];
    }

    ghost predicate Inv()
      reads this
    {
      && "" !in g && "" !in cache
      && cache == start + Elements(order) && Ordered(g, start, order) && Distinct(order)
      && Chain(g, start, queue) && Distinct(queue) && (forall n :: n in queue ==> n !in order)
    }

    /** `Load`: the queue is as it was on every exit. */
    method Load(name: string) returns (r: Outcome, ghost trail: seq<string>)
      requires Inv() && name in g && name !in order && (queue != [] ==> name !in cache && name in g[queue[|queue| - 1]])
      modifies this
      ensures start == old(start) && queue == old(queue)
      ensures r.Loaded? ==> Inv() && Served(g, start, order, name)
      ensures r.Loaded? ==> name !in queue && name !in order && old(cache) <= cache
      ensures r.Circular? ==> queue + [name] <= trail && Chain(g, start, trail) && Repeats(trail)
      ensures r.Unopened? ==> queue + [name] <= trail && Dangles(g, start, trail)
      decreases |g| + 1 - |queue|, 0
    {
      trail := queue + [name];
      ChainSnoc(g, start, queue, name);
      if name in queue {
        ghost var k :| 0 <= k < |queue| && queue[k] == name;
        assert trail[k] == trail[|queue|];
        return Circular, trail;
      }
      DistinctFits(queue, g.Keys);
      queue := queue + [name];
      var i := 0;
      while i < |g[name]|
        invariant 0 <= i <= |g[name]|
        invariant start == old(start) && old(cache) <= cache && Inv() && queue == old(queue) + [name]
        invariant forall j :: 0 <= j < i ==> g[name][j] == "" || g[name][j] in cache
      {
        r, trail := Inherit(g[name][i]);
        if !r.Loaded? {
          queue := queue[..|queue| - 1];
          return;
        }
        i := i + 1;
      }
      assert name in queue;
      ghost var all := queue;
      queue := queue[..|queue| - 1];
      assert forall n :: n in queue ==> n in all;
      return Loaded, all;
    }

    /** `_Inherit`, `_Reference`: takes a script from the cache, or loads and caches it. */
    method Inherit(ref: string) returns (r: Outcome, ghost trail: seq<string>)
      requires Inv() && queue != [] && ref in g[queue[|queue| - 1]]
      modifies this
      ensures start == old(start) && queue == old(queue)
      ensures r.Loaded? ==> Inv() && (ref == "" || ref in cache) && old(cache) <= cache
      ensures r.Circular? ==> queue <= trail && Chain(g, start, trail) && Repeats(trail)
      ensures r.Unopened? ==> queue <= trail && Dangles(g, start, trail)
      decreases |g| + 1 - |queue|, 1
    {
      trail := queue;
      if ref in cache || ref == "" { return Loaded, trail; }
      if ref !in g { return Unopened, trail; }
      r, trail := Load(ref);
      if r.Loaded? {
        OrderedSnoc(g, start, order, ref);
        cache, order := cache + {ref}, order + [ref];
      }
    }

    /** Accepts exactly the graphs that `CounterLoader.LoadRoot` accepts. */
    method LoadRoot(root: string) returns (r: Outcome)
      requires Inv() && queue == [] && order == [] && root in g
      modifies this
      ensures queue == []
      ensures r.Loaded? <==> !CycleFrom(g, old(cache), root) && !GapFrom(g, old(cache), root)
      ensures r.Circular? ==> CycleFrom(g, old(cache), root)
      ensures r.Unopened? ==> GapFrom(g, old(cache), root)
    {
      assert start == cache;
      ghost var trail;
      r, trail := Load(root);
      if r.Loaded? {
        ServedIsClean(g, start, order, root);
      } else {
        assert trail[0] == root;
      }
    }
  }

  lemma {:induction false} DistinctFits(s: seq<string>, names: set<string>)
    requires Distinct(s) && forall x :: x in s ==> x in names
    ensures |s| <= |names|
    decreases |s|
  {
    if s != [] {
      assert s[0] !in s[1..];
      DistinctFits(s[1..], names - {s[0]});
    }
  }
}
