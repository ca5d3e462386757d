/**
 * `CInheritTable`: a dictionary of nodes, hashed without case into chains, whose nodes also
 * form a forest of parents and child lists. A node is a place in the lists that hold its
 * fields.
 */
module InheritTable {
  import opened FileNames
  import opened ParentForest
  import opened Options

  /** The hash function ignores case, and the empty name falls into bucket 0. */
  ghost predicate Hash(crc: string -> nat) {
    crc("") == 0 && forall a, b {:trigger SameName(a, b)} :: SameName(a, b) ==> crc(a) == crc(b)
  }

  function At(s: seq<nat>, k: nat): Option<nat> { if k < |s| then Some(s[k]) else None }

  ghost predicate Link(s: seq<nat>, k: nat, next: Links)
  {
    k < |s| ==> s[k] < |next| && next[s[k]] == At(s, k + 1)
  }

  /** Each node of the chain `s` is linked to the next, the last one to nothing. */
  ghost predicate Chained(s: seq<nat>, next: Links) {
    forall k: nat :: Link(s, k, next)
  }

  /** The chain `s` hangs in bucket `h` and holds exactly the nodes of that hash value. */
  ghost predicate Bucket(crc: string -> nat, names: seq<string>, next: Links, h: nat, first: Option<nat>, s: seq<nat>)
  {
    && first == At(s, 0) && Chained(s, next)
    && (forall n :: n in s ==> n < |names| && crc(names[n]) == h)
    && (forall n: nat :: n < |names| && crc(names[n]) == h ==> n in s)
  }

  /** No two nodes have names that differ by case only. */
  ghost predicate Unlike(names: seq<string>) {
    forall n, m {:trigger SameName(names[n], names[m])} :: 0 <= n < m < |names| ==> !SameName(names[n], names[m])
  }

  ghost predicate Hashed(crc: string -> nat, names: seq<string>, next: Links, buckets: map<nat, Option<nat>>,
      chains: map<nat, seq<nat>>) {
    && chains.Keys == buckets.Keys && |next| == |names| && Unlike(names)
    && (forall n :: 0 <= n < |names| ==> crc(names[n]) in buckets)
    && (forall h :: h in buckets ==> Bucket(crc, names, next, h, buckets[h], chains[h]))
  }

  // ----- A new node in its chain -----

  /** An empty bucket appears when it is looked up. */
  lemma Opened(crc: string -> nat, names: seq<string>, next: Links, buckets: map<nat, Option<nat>>,
      chains: map<nat, seq<nat>>, h: nat)
    requires Hashed(crc, names, next, buckets, chains) && h !in buckets
    ensures Hashed(crc, names, next, buckets[h := None], chains[h := []])
  {
    assert Bucket(crc, names, next, h, None, []);
  }

  lemma ChainedGrows(s: seq<nat>, next: Links, link: Option<nat>)
    requires Chained(s, next)
    ensures Chained(s, next + [link])
  {
    forall k: nat ensures Link(s, k, next + [link]) {
      assert Link(s, k, next);
    }
  }

  lemma OtherBucket(crc: string -> nat, names: seq<string>, next: Links, i: nat, first: Option<nat>, s: seq<nat>,
      name: string, link: Option<nat>)
    requires Bucket(crc, names, next, i, first, s) && |next| == |names| && crc(name) != i
    ensures Bucket(crc, names + [name], next + [link], i, first, s)
  {
    ChainedGrows(s, next, link);
  }

  lemma OwnBucket(crc: string -> nat, names: seq<string>, next: Links, first: Option<nat>, s: seq<nat>, name: string)
    requires Bucket(crc, names, next, crc(name), first, s) && |next| == |names|
    ensures Bucket(crc, names + [name], next + [first], crc(name), Some(|names|), [|names|] + s)
  {
    var (to, t) := (next + [first], [|names|] + s);
    ChainedGrows(s, next, first);
    forall k: nat ensures Link(t, k, to) {
      if 0 < k < |t| { assert Link(s, k - 1, to) && t[k] == s[k - 1]; }
    }
    assert forall n :: n in t <==> n == |names| || n in s;
  }

  /** A new node at the head of its chain. */
  lemma Added(crc: string -> nat, names: seq<string>, next: Links, buckets: map<nat, Option<nat>>,
      chains: map<nat, seq<nat>>, name: string)
    requires Hashed(crc, names, next, buckets, chains) && crc(name) in buckets
    requires forall n :: 0 <= n < |names| ==> !SameName(names[n], name)
    ensures var h := crc(name);
      Hashed(crc, names + [name], next + [buckets[h]], buckets[h := Some(|names|)], chains[h := [|names|] + chains[h]])
  {
    var h := crc(name);
    forall i | i in buckets
      ensures Bucket(crc, names + [name], next + [buckets[h]], i,
                     if i == h then Some(|names|) else buckets[i], if i == h then [|names|] + chains[h] else chains[i])
    {
      assert Bucket(crc, names, next, i, buckets[i], chains[i]);
      if i == h {
        OwnBucket(crc, names, next, buckets[i], chains[i], name);
      } else {
        OtherBucket(crc, names, next, i, buckets[i], chains[i], name, buckets[h]);
      }
    }
  }

  // ----- The dictionary it implements -----

  /** The node of that name, case ignored, or the next free one. */
  function NodeOf(names: seq<string>, path: string): (r: nat)
    ensures r <= |names| && (r < |names| ==> SameName(names[r], path))
    ensures forall i :: 0 <= i < r ==> !SameName(names[i], path)
  {
    if names == [] || SameName(names[0], path) then 0 else 1 + NodeOf(names[1..], path)
  }

  function Extended(names: seq<string>, path: string): seq<string>
  {
    if NodeOf(names, path) < |names| then names else names + [path]
  }

  lemma NodeOfIs(names: seq<string>, path: string, r: nat)
    requires Unlike(names) && r < |names| && SameName(names[r], path)
    ensures NodeOf(names, path) == r
  {
    var f := NodeOf(names, path);
    assert f < r ==> SameName(names[f], names[r]);
  }

  lemma UnlikeExtended(names: seq<string>, path: string)
    requires Unlike(names)
    ensures Unlike(Extended(names, path)) && names <= Extended(names, path)
    ensures NodeOf(names, path) < |Extended(names, path)|
    ensures SameName(Extended(names, path)[NodeOf(names, path)], path)
  {
  }

  /** The nodes a sequence of calls returns, and the names afterwards. */
  function Calls(names: seq<string>, paths: seq<string>): (r: seq<nat>)
    ensures |r| == |paths|
    decreases |paths|
  {
    if paths == [] then [] else [NodeOf(names, paths[0])] + Calls(Extended(names, paths[0]), paths[1..])
  }

  function Called(names: seq<string>, paths: seq<string>): seq<string>
    decreases |paths|
  {
    if paths == [] then names else Called(Extended(names, paths[0]), paths[1..])
  }

  lemma {:induction false} CalledKeeps(names: seq<string>, paths: seq<string>)
    requires Unlike(names)
    ensures Unlike(Called(names, paths)) && names <= Called(names, paths)
    decreases |paths|
  {
    if paths != [] {
      UnlikeExtended(names, paths[0]);
      CalledKeeps(Extended(names, paths[0]), paths[1..]);
    }
  }

  lemma {:induction false} CallAt(names: seq<string>, paths: seq<string>, i: nat)
    requires Unlike(names) && i < |paths|
    ensures Calls(names, paths)[i] < |Called(names, paths)|
    ensures SameName(Called(names, paths)[Calls(names, paths)[i]], paths[i])
    decreases |paths|
  {
    UnlikeExtended(names, paths[0]);
    if i == 0 {
      CalledKeeps(Extended(names, paths[0]), paths[1..]);
    } else {
      CallAt(Extended(names, paths[0]), paths[1..], i - 1);
    }
  }

  /** Over any sequence of calls two paths get the same node if and only if they are equal
      ignoring case, and no node made before is lost. */
  lemma SameNodeIff(names: seq<string>, paths: seq<string>, i: nat, j: nat)
    requires Unlike(names) && i < |paths| && j < |paths|
    ensures Calls(names, paths)[i] == Calls(names, paths)[j] <==> SameName(paths[i], paths[j])
    ensures names <= Called(names, paths)
  {
    CalledKeeps(names, paths);
    CallAt(names, paths, i);
    CallAt(names, paths, j);
    var (all, a, b) := (Called(names, paths), Calls(names, paths)[i], Calls(names, paths)[j]);
    if SameName(paths[i], paths[j]) { assert SameName(all[a], all[b]) && SameName(all[b], all[a]); }
  }

  // ----- The table -----

  class CInheritTable {
    const crc: string -> nat
    var parent: Links
    var hashNext: Links
    var fullName: seq<string>
    var children: Lists
    var mapNodes: map<nat, Option<nat>>
    const root: nat := 0
    ghost var chains: map<nat, seq<nat>>

    ghost predicate Valid()
      reads this
    {
      && |parent| == |fullName| > root && fullName[root] == "" && Hash(crc)
      && Hashed(crc, fullName, hashNext, mapNodes, chains) && Forest(parent, children)
    }

    constructor (hash: string -> nat)
      requires Hash(hash)
      ensures Valid() && crc == hash && fullName == [""] && parent == [None] && children == [[]]
    {
      crc := hash;
      parent, hashNext, fullName, children := [None], [None], [""], [[]];
      mapNodes, chains := map[0 := Some(0)], map[0 := [0]];
      new;
      assert ListOf(parent, [], 0);
      assert Bucket(crc, fullName, hashNext, 0, Some(0), [0]);
    }

    /** `setParent`: out of the old parent's list, to the end of the new one's. */
    method SetParent(n: nat, p: Option<nat>)
      requires Valid() && n < |parent| && (p.Some? ==> p.value < |parent|)
      modifies this`parent, this`children
      ensures Valid() && parent == old(parent)[n := p]
      ensures children == Joined(Left(old(children), n, old(parent)[n]), n, p)
    {
      Moved(parent, children, n, p);
      if parent[n].Some? {
        var (q, i) := (parent[n].value, 0);
        var s := children[q];
        while i < |s| && s[i] != n
          invariant i <= |s| && n !in s[..i]
        {
          i := i + 1;
        }
        if i < |s| {
          WithoutAt(s, n, i);
          children := children[q := s[..i] + s[i + 1..]];
        } else {
          WithoutNone(s, n);
        }
      }
      parent := parent[n := p];
      if p.Some? {
        children := children[p.value := children[p.value] + [n]];
      }
    }

    /** The search in one chain. */
    method Search(path: string, first: Option<nat>, ghost s: seq<nat>) returns (r: Option<nat>)
      requires first == At(s, 0) && Chained(s, hashNext) && |hashNext| == |fullName|
      ensures r.None? ==> forall n :: n in s ==> n < |fullName| && !SameName(fullName[n], path)
      ensures r.Some? ==> r.value < |fullName| && SameName(fullName[r.value], path)
    {
      r := first;
      ghost var k := 0;
      while r.Some?
        invariant k <= |s| && r == At(s, k)
        invariant forall j :: 0 <= j < k ==> s[j] < |fullName| && !SameName(fullName[s[j]], path)
        decreases |s| - k
      {
        assert Link(s, k, hashNext);
        CompareZero(Fold(path), Fold(fullName[r.value]));
        if Stricmp(path, fullName[r.value]) == 0 { return; }
        r, k := hashNext[r.value], k + 1;
      }
    }

    /** A new node at the head of its chain. */
    method Make(path: string) returns (r: nat)
      requires Valid() && crc(path) in mapNodes && forall n :: 0 <= n < |fullName| ==> !SameName(fullName[n], path)
      modifies this`parent, this`hashNext, this`fullName, this`children, this`mapNodes, this`chains
      ensures Valid() && r == |old(fullName)| && fullName == old(fullName) + [path]
      ensures parent == old(parent) + [None] && children == old(children) + [[]]
    {
      var h := crc(path);
      Added(crc, fullName, hashNext, mapNodes, chains, path);
      Alone(parent, children);
      r := |fullName|;
      fullName, parent, children := fullName + [path], parent + [None], children + [[]];
      hashNext := hashNext + [mapNodes[h]];
      mapNodes, chains := mapNodes[h := Some(r)], chains[h := [r] + chains[h]];
    }

    /** `findOrMake`: the node of that name, whatever its case; made when there is none. */
    method FindOrMake(path: string) returns (r: nat)
      requires Valid()
      modifies this`parent, this`hashNext, this`fullName, this`children, this`mapNodes, this`chains
      ensures Valid() && r == NodeOf(old(fullName), path) && fullName == Extended(old(fullName), path)
      ensures r < |old(fullName)| ==> parent == old(parent) && children == old(children)
      ensures r == |old(fullName)| ==> parent == old(parent) + [None] && children == old(children) + [[]]
    {
      var h := crc(path);
      if h !in mapNodes {
        Opened(crc, fullName, hashNext, mapNodes, chains, h);
        mapNodes, chains := mapNodes[h := None], chains[h := []];
      }
      assert Bucket(crc, fullName, hashNext, h, mapNodes[h], chains[h]);
      var found := Search(path, mapNodes[h], chains[h]);
      if found.Some? {
        NodeOfIs(fullName, path, found.value);
        return found.value;
      }
      forall n | 0 <= n < |fullName| ensures !SameName(fullName[n], path) {
        if crc(fullName[n]) == h { assert n in chains[h]; }
      }
      r := Make(path);
    }

    /** The nodes `assignOrphansTo` passes by. */
    ghost function BucketZero(): set<nat>
      reads this
    {
      set n: nat | n < |fullName| && crc(fullName[n]) == 0
    }

    /** `assignOrphansTo`: all buckets but the first, in any order, along every chain. */
    method AssignOrphansTo(node: nat)
      requires Valid() && node < |parent|
      modifies this`parent, this`children
      ensures Valid() && parent == Assigned(old(parent), node, BucketZero())
    {
      ghost var (up, kept) := (parent, Indices(|parent|));
      assert parent == Assigned(up, node, kept);
      var keys := mapNodes.Keys;
      while keys != {}
        invariant Valid() && keys <= mapNodes.Keys && kept <= Indices(|parent|)
        invariant parent == Assigned(up, node, kept) && Waiting(kept, keys)
      {
        var h :| h in keys;
        kept := AssignBucket(node, h, keys, up, kept);
        keys := keys - {h};
      }
      assert kept == BucketZero();
    }

    /** One bucket of `assignOrphansTo`. */
    method AssignBucket(node: nat, h: nat, ghost keys: set<nat>, ghost up: Links, ghost kept: set<nat>)
        returns (ghost left: set<nat>)
      requires Valid() && node < |parent| && h in mapNodes && parent == Assigned(up, node, kept) && Waiting(kept, keys)
      modifies this`parent, this`children
      ensures Valid() && parent == Assigned(up, node, left) && left <= kept && Waiting(left, keys - {h})
    {
      left := kept;
      OneVisited(keys, h);
      if h != 0 {
        left := AssignChain(node, h, up, kept);
      }
    }

    /** The nodes kept so far are those whose bucket is still to come or is bucket 0. */
    ghost predicate Waiting(kept: set<nat>, keys: set<nat>)
      reads this
    {
      forall n: nat :: n < |fullName| ==> (n in kept <==> Waits(crc(fullName[n]), keys))
    }

    /** One chain of `assignOrphansTo`. */
    method AssignChain(node: nat, h: nat, ghost up: Links, ghost kept: set<nat>) returns (ghost left: set<nat>)
      requires Valid() && node < |parent| && h in mapNodes && parent == Assigned(up, node, kept)
      modifies this`parent, this`children
      ensures Valid() && parent == Assigned(up, node, left) && left <= kept
      ensures forall n: nat :: n < |fullName| ==> (n in left <==> n in kept && crc(fullName[n]) != h)
    {
      ghost var (s, k) := (chains[h], 0);
      assert Bucket(crc, fullName, hashNext, h, mapNodes[h], s);
      left := kept;
      var n := mapNodes[h];
      while n.Some?
        invariant Valid() && chains[h] == s && k <= |s| && n == At(s, k)
        invariant parent == Assigned(up, node, left) && left <= kept
        invariant forall m: nat :: m < |parent| ==> (m in left <==> m in kept && m !in s[..k])
        decreases |s| - k
      {
        assert Link(s, k, hashNext) && s[k] in s;
        if parent[n.value].None? {
          SetParent(n.value, Some(node));
        }
        left := left - {n.value};
        assert s[..k + 1] == s[..k] + [n.value];
        n, k := hashNext[n.value], k + 1;
      }
      assert s[..k] == s;
    }

    /** `print`: a node, then what is below each of its children; `d` bounds how deep the tree
        below `n` is, which is all that keeps the recursion from running on. */
    method Print(n: nat, ghost d: nat) returns (out: seq<nat>)
      requires Valid() && n < |parent| && forall m: nat :: Up(parent, m, d) != Some(n)
      ensures out == Walk(children, n, d)
      decreases d
    {
      assert Up(parent, n, 0) == Some(n);
      assert ListOf(parent, children[n], n);
      var (cs, i) := (children[n], 0);
      out := [n];
      while i < |cs|
        invariant i <= |cs| && out + WalkAll(children, cs[i..], d - 1) == Walk(children, n, d)
      {
        assert cs[i] in cs;
        ghost var e: nat := d - 1;
        forall m: nat ensures Up(parent, m, e) != Some(cs[i]) {
          assert Up(parent, m, d) != Some(n);
        }
        var below := Print(cs[i], e);
        assert cs[i..][0] == cs[i] && cs[i..][1..] == cs[i + 1..];
        out, i := out + below, i + 1;
      }
      assert cs[i..] == [];
    }
  }

  /** Bucket `x` is still to come or is not visited at all. */
  ghost predicate Waits(x: nat, keys: set<nat>) { x in keys || x == 0 }

  lemma OneVisited(keys: set<nat>, h: nat)
    ensures forall x: nat {:trigger Waits(x, keys)} :: Waits(x, keys - {h}) <==> Waits(x, keys) && (h == 0 || x != h)
  {
  }

  /** Given the root, `assignOrphansTo` makes one tree if and only if no links closed a cycle
      before and the root was the only orphan in bucket 0. */
  lemma AssignedToRoot(t: CInheritTable)
    requires t.Valid() && t.parent[t.root].None?
    ensures AllReach(Assigned(t.parent, t.root, t.BucketZero()), t.root) <==>
      !Cyclic(t.parent) && OnlyKept(t.parent, t.BucketZero(), t.root)
  {
    assert t.crc(t.fullName[t.root]) == 0;
    OneTree(t.parent, t.root, t.BucketZero());
  }

  /** In one tree the walk from the root ends, and prints each node exactly once. */
  lemma PrintsOnce(parent: Links, children: Lists, root: nat)
    requires Forest(parent, children) && root < |parent| && parent[root].None? && AllReach(parent, root)
    ensures forall m: nat :: Up(parent, m, |parent|) != Some(root)
    ensures forall m: nat :: multiset(Walk(children, root, |parent|))[m] == if m < |parent| then 1 else 0
  {
    forall m: nat ensures Up(parent, m, |parent|) != Some(root) {
      if m < |parent| && Up(parent, m, |parent|) == Some(root) {
        ReachedSoon(parent, m, root, |parent|);
      } else if m >= |parent| {
        NeverHit(parent, m, root, |parent|);
      }
    }
    WalkVisitsOnce(parent, children, root, |parent|);
  }
}
