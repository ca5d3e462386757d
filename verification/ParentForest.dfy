/**
 * Nodes with parents: chains of parents, cycles, lists of children, giving orphans a parent,
 * and the walk down the child lists. A node is its place in the lists.
 */
module ParentForest {
  import opened Options

  /** Of every node its parent, if it has one. */
  type Links = seq<Option<nat>>

  type Lists = seq<seq<nat>>

  /** The `k`-th node up from `n`, if the chain of parents is that long. */
  function Up(up: Links, n: nat, k: nat): Option<nat>
  {
    if k == 0 then Some(n)
    else
      match Up(up, n, k - 1)
      case None => None
      case Some(m) => if m < |up| then up[m] else None
  }

  /** Parents lie among the nodes. */
  ghost predicate Closed(up: Links) {
    forall n :: 0 <= n < |up| && up[n].Some? ==> up[n].value < |up|
  }

  /** Some node is its own ancestor. */
  ghost predicate Cyclic(up: Links) {
    exists n: nat, k: nat :: n < |up| && k > 0 && Up(up, n, k) == Some(n)
  }

  ghost predicate Reaches(up: Links, n: nat, root: nat) {
    exists k: nat :: Up(up, n, k) == Some(root)
  }

  // ----- Chains of parents -----

  lemma {:induction false} UpPlus(up: Links, n: nat, i: nat, j: nat)
    requires Up(up, n, i).Some?
    ensures Up(up, n, i + j) == Up(up, Up(up, n, i).value, j)
    decreases j
  {
    if j > 0 { UpPlus(up, n, i, j - 1); }
  }

  lemma {:induction false} UpStays(up: Links, n: nat, k: nat)
    requires Closed(up) && n < |up| && Up(up, n, k).Some?
    ensures Up(up, n, k).value < |up|
    decreases k
  {
    if k > 0 { UpStays(up, n, k - 1); }
  }

  lemma {:induction false} UpBefore(up: Links, n: nat, i: nat, k: nat)
    requires i <= k && Up(up, n, k).Some?
    ensures Up(up, n, i).Some?
    decreases k
  {
    if i < k { UpBefore(up, n, i, k - 1); }
  }

  /** The nodes met on the first `k` steps. */
  function Chain(up: Links, n: nat, k: nat): set<nat>
  {
    if k == 0 then {} else
      match Up(up, n, k - 1)
      case None => Chain(up, n, k - 1)
      case Some(m) => Chain(up, n, k - 1) + {m}
  }

  /** At which step a node of the chain is met. */
  lemma {:induction false} MetAt(up: Links, n: nat, k: nat, m: nat) returns (i: nat)
    requires m in Chain(up, n, k)
    ensures i < k && Up(up, n, i) == Some(m)
    decreases k
  {
    i := k - 1;
    if Up(up, n, i) != Some(m) {
      i := MetAt(up, n, k - 1, m);
    }
  }

  predicate Before(i: nat, n: nat) { i < n }

  function Indices(n: nat): set<nat> {
    set i: nat | i < n && Before(i, n)
  }

  lemma {:induction false} IndicesSize(n: nat)
    ensures |Indices(n)| == n
  {
    if n > 0 {
      IndicesSize(n - 1);
      assert Indices(n) == Indices(n - 1) + {n - 1};
    }
  }

  /** Without a repetition a chain of `k` steps meets `k` nodes. */
  lemma {:induction false} ChainSize(up: Links, n: nat, k: nat)
    requires Closed(up) && n < |up| && (k > 0 ==> Up(up, n, k - 1).Some?)
    requires forall i: nat, j: nat :: i < j < k ==> Up(up, n, i) != Up(up, n, j)
    ensures |Chain(up, n, k)| == k && Chain(up, n, k) <= Indices(|up|)
    decreases k
  {
    if k > 0 {
      if k > 1 { UpBefore(up, n, k - 2, k - 1); }
      ChainSize(up, n, k - 1);
      UpStays(up, n, k - 1);
      if Up(up, n, k - 1).value in Chain(up, n, k - 1) {
        var i := MetAt(up, n, k - 1, Up(up, n, k - 1).value);
        assert false;
      }
    }
  }

  lemma SubsetSize(a: set<nat>, b: set<nat>)
    requires a <= b
    ensures |a| <= |b|
    decreases a
  {
    if a != {} {
      var x :| x in a;
      SubsetSize(a - {x}, b - {x});
    }
  }

  /** Two equal places on a chain close a cycle. */
  lemma RepeatCycles(up: Links, n: nat, i: nat, j: nat)
    requires Closed(up) && n < |up| && i < j && Up(up, n, i).Some? && Up(up, n, i) == Up(up, n, j)
    ensures Cyclic(up)
  {
    var m := Up(up, n, i).value;
    UpPlus(up, n, i, j - i);
    UpStays(up, n, i);
    assert Up(up, m, j - i) == Some(m);
  }

  /** Without a cycle every chain of parents ends, after fewer steps than there are nodes. */
  lemma ChainEnds(up: Links, n: nat)
    requires Closed(up) && n < |up| && !Cyclic(up)
    ensures Up(up, n, |up|).None?
  {
    var k := |up| + 1;
    if Up(up, n, k - 1).Some? {
      forall i: nat, j: nat | i < j < k ensures Up(up, n, i) != Up(up, n, j) {
        UpBefore(up, n, i, k - 1);
        if Up(up, n, i) == Up(up, n, j) { RepeatCycles(up, n, i, j); }
      }
      ChainSize(up, n, k);
      SubsetSize(Chain(up, n, k), Indices(|up|));
      IndicesSize(|up|);
    }
  }

  /** The last node of a chain that ends: it has no parent. */
  lemma {:induction false} TopOf(up: Links, n: nat, k: nat) returns (top: nat, i: nat)
    requires Closed(up) && n < |up| && Up(up, n, k).None?
    ensures top < |up| && up[top].None? && Up(up, n, i) == Some(top)
    decreases k
  {
    if Up(up, n, k - 1).Some? {
      i, top := k - 1, Up(up, n, k - 1).value;
      UpStays(up, n, k - 1);
    } else {
      top, i := TopOf(up, n, k - 1);
    }
  }

  // ----- Giving orphans a parent -----

  /** Every node without a parent gets `node`, except the kept ones. */
  function Assigned(up: Links, node: nat, kept: set<nat>): (r: Links)
    ensures |r| == |up|
  {
    seq(|up|, n requires 0 <= n < |up| => if up[n].None? && n !in kept then Some(node) else up[n])
  }

  lemma {:induction false} UpAssigned(up: Links, node: nat, kept: set<nat>, n: nat, k: nat)
    requires Up(up, n, k).Some?
    ensures Up(Assigned(up, node, kept), n, k) == Up(up, n, k)
    decreases k
  {
    if k > 0 { UpAssigned(up, node, kept, n, k - 1); }
  }

  lemma {:induction false} CycleNeverEnds(up: Links, n: nat, k: nat, times: nat)
    requires k > 0 && Up(up, n, k) == Some(n)
    ensures Up(up, n, times * k) == Some(n)
    decreases times
  {
    if times > 0 {
      CycleNeverEnds(up, n, k, times - 1);
      UpPlus(up, n, (times - 1) * k, k);
      assert (times - 1) * k + k == times * k;
    }
  }

  ghost predicate AllReach(up: Links, root: nat) {
    forall n: nat :: n < |up| ==> Reaches(up, n, root)
  }

  ghost predicate OnlyKept(up: Links, kept: set<nat>, root: nat) {
    forall m: nat :: m < |up| && up[m].None? && m in kept ==> m == root
  }

  lemma ReachAssigned(up: Links, root: nat, kept: set<nat>, n: nat)
    requires Closed(up) && !Cyclic(up) && root < |up| && OnlyKept(up, kept, root) && n < |up|
    ensures Reaches(Assigned(up, root, kept), n, root)
  {
    ChainEnds(up, n);
    var top, i := TopOf(up, n, |up|);
    UpAssigned(up, root, kept, n, i);
    if top != root { assert Up(Assigned(up, root, kept), n, i + 1) == Some(root); }
  }

  lemma CycleMisses(up: Links, root: nat, kept: set<nat>)
    requires Closed(up) && Cyclic(up) && root < |up| && up[root].None?
    ensures !AllReach(Assigned(up, root, kept), root)
  {
    var n: nat, k: nat :| n < |up| && k > 0 && Up(up, n, k) == Some(n);
    var to := Assigned(up, root, kept);
    if Reaches(to, n, root) {
      var i: nat :| Up(to, n, i) == Some(root);
      CycleNeverEnds(up, n, k, i + 1);
      assert i + 1 <= (i + 1) * k;
      UpBefore(up, n, i + 1, (i + 1) * k);
      UpBefore(up, n, i, i + 1);
      UpAssigned(up, root, kept, n, i);
    }
  }

  lemma KeptMisses(up: Links, root: nat, kept: set<nat>)
    requires Closed(up) && !OnlyKept(up, kept, root)
    ensures !AllReach(Assigned(up, root, kept), root)
  {
    var m: nat :| m < |up| && up[m].None? && m in kept && m != root;
    var to := Assigned(up, root, kept);
    if Reaches(to, m, root) {
      var k: nat :| Up(to, m, k) == Some(root);
      assert Up(to, m, 0) == Some(m);
      UpBefore(to, m, 1, k);
    }
  }

  /** After the orphans were given to the root, every node reaches the root if and only if
      no links closed a cycle before and the root was the only orphan kept back. */
  lemma OneTree(up: Links, root: nat, kept: set<nat>)
    requires Closed(up) && root < |up| && up[root].None? && root in kept
    ensures AllReach(Assigned(up, root, kept), root) <==> !Cyclic(up) && OnlyKept(up, kept, root)
  {
    if !Cyclic(up) && OnlyKept(up, kept, root) {
      forall n: nat | n < |up| ensures Reaches(Assigned(up, root, kept), n, root) {
        ReachAssigned(up, root, kept, n);
      }
    } else if Cyclic(up) {
      CycleMisses(up, root, kept);
    } else {
      KeptMisses(up, root, kept);
    }
  }

  // ----- Lists of children -----

  ghost predicate Distinct(s: seq<nat>) {
    forall i, j :: 0 <= i < j < |s| ==> s[i] != s[j]
  }

  /** The list `s` holds every node with parent `q` exactly once, and nothing else. */
  ghost predicate ListOf(up: Links, s: seq<nat>, q: nat)
  {
    && Distinct(s) && (forall c :: c in s ==> c < |up| && up[c] == Some(q))
    && (forall c: nat :: c < |up| && up[c] == Some(q) ==> c in s)
  }

  /** A node stands exactly once in the list of its parent, and in no other list. */
  ghost predicate Listed(up: Links, kids: Lists)
  {
    |kids| == |up| && forall q: nat :: q < |kids| ==> ListOf(up, kids[q], q)
  }

  ghost predicate Forest(up: Links, kids: Lists) { Closed(up) && Listed(up, kids) }

  /** A list after the first occurrence of `x` was erased. */
  function Without(s: seq<nat>, x: nat): seq<nat>
  {
    if s == [] then [] else if s[0] == x then s[1..] else [s[0]] + Without(s[1..], x)
  }

  lemma {:induction false} WithoutAt(s: seq<nat>, x: nat, i: nat)
    requires i < |s| && s[i] == x && x !in s[..i]
    ensures Without(s, x) == s[..i] + s[i + 1..]
    decreases i
  {
    if i > 0 {
      assert s[..i] == [s[0]] + s[1..][..i - 1];
      WithoutAt(s[1..], x, i - 1);
    }
  }

  lemma {:induction false} WithoutNone(s: seq<nat>, x: nat)
    requires x !in s
    ensures Without(s, x) == s
    decreases |s|
  {
    if s != [] { WithoutNone(s[1..], x); }
  }

  lemma {:induction false} WithoutDistinct(s: seq<nat>, x: nat)
    requires Distinct(s)
    ensures Distinct(Without(s, x)) && forall c :: c in Without(s, x) <==> c in s && c != x
    decreases |s|
  {
    if s != [] {
      var t := s[1..];
      assert s == [s[0]] + t && s[0] !in t;
      WithoutDistinct(t, x);
      if s[0] == x { WithoutNone(t, x); }
    }
  }

  /** The lists after `n` left its parent. */
  function Left(kids: Lists, n: nat, parent: Option<nat>): (r: Lists)
    requires parent.Some? ==> parent.value < |kids|
    ensures |r| == |kids|
  {
    if parent.None? then kids else kids[parent.value := Without(kids[parent.value], n)]
  }

  /** The lists after `n` joined a parent, at the end of its list. */
  function Joined(kids: Lists, n: nat, parent: Option<nat>): (r: Lists)
    requires parent.Some? ==> parent.value < |kids|
    ensures |r| == |kids|
  {
    if parent.None? then kids else kids[parent.value := kids[parent.value] + [n]]
  }

  lemma LeftListed(up: Links, kids: Lists, n: nat)
    requires Forest(up, kids) && n < |up|
    ensures Listed(up[n := None], Left(kids, n, up[n]))
    ensures forall q :: 0 <= q < |kids| ==> n !in Left(kids, n, up[n])[q]
  {
    var (to, left) := (up[n := None], Left(kids, n, up[n]));
    forall q: nat | q < |left| ensures n !in left[q] && ListOf(to, left[q], q) {
      assert ListOf(up, kids[q], q);
      if up[n] == Some(q) { WithoutDistinct(kids[q], n); }
      assert Distinct(left[q]) && forall c :: c in left[q] <==> c in kids[q] && c != n;
    }
  }

  lemma JoinedListed(up: Links, kids: Lists, n: nat, p: Option<nat>)
    requires Listed(up, kids) && n < |up| && up[n].None? && (p.Some? ==> p.value < |up|)
    requires forall q :: 0 <= q < |kids| ==> n !in kids[q]
    ensures Listed(up[n := p], Joined(kids, n, p))
  {
    var (to, now) := (up[n := p], Joined(kids, n, p));
    forall q: nat | q < |now| ensures ListOf(to, now[q], q) {
      assert ListOf(up, kids[q], q);
    }
  }

  /** Changing one parent keeps every node exactly once in its parent's list. */
  lemma Moved(up: Links, kids: Lists, n: nat, p: Option<nat>)
    requires Forest(up, kids) && n < |up| && (p.Some? ==> p.value < |up|)
    ensures Forest(up[n := p], Joined(Left(kids, n, up[n]), n, p))
  {
    LeftListed(up, kids, n);
    JoinedListed(up[n := None], Left(kids, n, up[n]), n, p);
    assert up[n := None][n := p] == up[n := p];
  }

  /** In every list the other nodes keep their order, and the node that moved comes last. */
  lemma MovedLast(up: Links, kids: Lists, n: nat, p: Option<nat>)
    requires Forest(up, kids) && n < |up| && (p.Some? ==> p.value < |up|)
    ensures var now := Joined(Left(kids, n, up[n]), n, p);
      && (p.Some? ==> now[p.value] != [] && now[p.value][|now[p.value]| - 1] == n)
      && forall q: nat :: q < |kids| ==> Without(now[q], n) == Without(kids[q], n)
  {
    var left := Left(kids, n, up[n]);
    var now := Joined(left, n, p);
    LeftListed(up, kids, n);
    forall q: nat | q < |kids| ensures Without(now[q], n) == Without(kids[q], n) {
      assert ListOf(up, kids[q], q);
      WithoutNone(left[q], n);
      if up[n] != Some(q) { WithoutNone(kids[q], n); }
      if p == Some(q) { WithoutBehind(left[q], n); }
    }
  }

  lemma {:induction false} WithoutBehind(s: seq<nat>, x: nat)
    requires x !in s
    ensures Without(s + [x], x) == s
    decreases |s|
  {
    if s != [] {
      WithoutBehind(s[1..], x);
      assert (s + [x])[1..] == s[1..] + [x];
    }
  }

  /** A new node stands alone. */
  lemma Alone(up: Links, kids: Lists)
    requires Forest(up, kids)
    ensures Forest(up + [None], kids + [[]])
  {
    var (to, now) := (up + [None], kids + [[]]);
    forall q: nat | q < |now| ensures ListOf(to, now[q], q) {
      if q < |kids| { assert ListOf(up, kids[q], q); }
    }
  }

  // ----- Walking down the child lists -----

  /** A node, then what is below each of its children, down to depth `d`. */
  function Walk(kids: Lists, n: nat, d: nat): seq<nat>
    decreases d, 0
  {
    if d == 0 || n >= |kids| then [] else [n] + WalkAll(kids, kids[n], d - 1)
  }

  function WalkAll(kids: Lists, cs: seq<nat>, d: nat): seq<nat>
    decreases d, |cs|
  {
    if cs == [] then [] else Walk(kids, cs[0], d) + WalkAll(kids, cs[1..], d)
  }

  /** How often `n` is met on the first `d` steps up from `m`. */
  function Hits(up: Links, m: nat, n: nat, d: nat): nat
  {
    if d == 0 then 0 else Hits(up, m, n, d - 1) + if Up(up, m, d - 1) == Some(n) then 1 else 0
  }

  function SumHits(up: Links, m: nat, cs: seq<nat>, d: nat): nat
  {
    if cs == [] then 0 else Hits(up, m, cs[0], d) + SumHits(up, m, cs[1..], d)
  }

  lemma {:induction false} SumHitsNone(up: Links, m: nat, cs: seq<nat>)
    ensures SumHits(up, m, cs, 0) == 0
    decreases |cs|
  {
    if cs != [] { SumHitsNone(up, m, cs[1..]); }
  }

  lemma {:induction false} SumHitsStep(up: Links, m: nat, cs: seq<nat>, d: nat)
    requires Distinct(cs)
    ensures SumHits(up, m, cs, d + 1) ==
      SumHits(up, m, cs, d) + if Up(up, m, d).Some? && Up(up, m, d).value in cs then 1 else 0
    decreases |cs|
  {
    if cs != [] {
      SumHitsStep(up, m, cs[1..], d);
      assert forall c :: c in cs <==> c == cs[0] || c in cs[1..];
      assert cs[0] !in cs[1..];
    }
  }

  /** Step `k` up from `m` leads into `cs` just when the next one leads to `n`. */
  ghost predicate LeadsTo(up: Links, m: nat, cs: seq<nat>, n: nat, k: nat) {
    Up(up, m, k).Some? && Up(up, m, k).value in cs <==> Up(up, m, k + 1) == Some(n)
  }

  lemma {:induction false} HitsAbove(up: Links, m: nat, cs: seq<nat>, n: nat, d: nat)
    requires Distinct(cs) && forall k: nat :: LeadsTo(up, m, cs, n, k)
    ensures SumHits(up, m, cs, d) + (if m == n then 1 else 0) == Hits(up, m, n, d + 1)
    decreases d
  {
    if d == 0 {
      SumHitsNone(up, m, cs);
      assert Up(up, m, 0) == Some(m);
    } else {
      HitsAbove(up, m, cs, n, d - 1);
      assert LeadsTo(up, m, cs, n, d - 1);
      SumHitsStep(up, m, cs, d - 1);
    }
  }

  /** Meeting a child is meeting its parent one step later. */
  lemma HitsBelow(up: Links, kids: Lists, m: nat, n: nat, d: nat)
    requires Listed(up, kids) && n < |kids|
    ensures SumHits(up, m, kids[n], d) + (if m == n then 1 else 0) == Hits(up, m, n, d + 1)
  {
    assert ListOf(up, kids[n], n);
    forall k: nat ensures LeadsTo(up, m, kids[n], n, k) {
    }
    HitsAbove(up, m, kids[n], n, d);
  }

  lemma CountFirst(m: nat, n: nat, rest: seq<nat>)
    ensures multiset([n] + rest)[m] == multiset(rest)[m] + if m == n then 1 else 0
  {
  }

  ghost predicate Among(cs: seq<nat>, bound: nat) {
    forall i :: 0 <= i < |cs| ==> cs[i] < bound
  }

  lemma KidsAmong(up: Links, kids: Lists, n: nat)
    requires Listed(up, kids) && n < |kids|
    ensures Among(kids[n], |kids|)
  {
    assert ListOf(up, kids[n], n);
    forall i | 0 <= i < |kids[n]| ensures kids[n][i] < |kids| { assert kids[n][i] in kids[n]; }
  }

  /** The walk from `n` writes `m` once for every time `n` is met going up from `m`. */
  lemma {:induction false} WalkCount(up: Links, kids: Lists, m: nat, n: nat, d: nat)
    requires Listed(up, kids) && n < |kids|
    ensures multiset(Walk(kids, n, d))[m] == Hits(up, m, n, d)
    decreases d, 0
  {
    if d > 0 {
      KidsAmong(up, kids, n);
      WalkAllCount(up, kids, m, kids[n], d - 1);
      HitsBelow(up, kids, m, n, d - 1);
      CountFirst(m, n, WalkAll(kids, kids[n], d - 1));
    }
  }

  lemma {:induction false} WalkAllCount(up: Links, kids: Lists, m: nat, cs: seq<nat>, d: nat)
    requires Listed(up, kids) && Among(cs, |kids|)
    ensures multiset(WalkAll(kids, cs, d))[m] == SumHits(up, m, cs, d)
    decreases d, |cs|
  {
    if cs != [] {
      WalkCount(up, kids, m, cs[0], d);
      WalkAllCount(up, kids, m, cs[1..], d);
    }
  }

  /** Place `j` of a walk is behind the parent of the node there. */
  ghost predicate BehindParent(up: Links, w: seq<nat>, j: nat) {
    j < |w| && w[j] < |up| && exists i: nat :: i < j && up[w[j]] == Some(w[i])
  }

  /** A walk writes every node but the first behind its parent. */
  lemma {:induction false} WalkParents(up: Links, kids: Lists, n: nat, d: nat)
    requires Listed(up, kids) && n < |kids|
    ensures forall j: nat :: 0 < j < |Walk(kids, n, d)| ==> BehindParent(up, Walk(kids, n, d), j)
    ensures Walk(kids, n, d) != [] ==> Walk(kids, n, d)[0] == n
    decreases d, 0
  {
    if d > 0 {
      var (w, rest) := (Walk(kids, n, d), WalkAll(kids, kids[n], d - 1));
      assert ListOf(up, kids[n], n);
      WalkAllParents(up, kids, kids[n], n, d - 1);
      forall j: nat | 0 < j < |w| ensures BehindParent(up, w, j) {
        assert w[j] == rest[j - 1];
        if BehindParent(up, rest, j - 1) {
          var i: nat :| i < j - 1 && up[rest[j - 1]] == Some(rest[i]);
          assert w[i + 1] == rest[i];
        } else {
          assert up[w[j]] == Some(w[0]);
        }
      }
    }
  }

  lemma {:induction false} WalkAllParents(up: Links, kids: Lists, cs: seq<nat>, n: nat, d: nat)
    requires Listed(up, kids) && forall c :: c in cs ==> c < |up| && up[c] == Some(n)
    ensures forall j: nat :: j < |WalkAll(kids, cs, d)| ==>
      var w := WalkAll(kids, cs, d); BehindParent(up, w, j) || (w[j] < |up| && up[w[j]] == Some(n))
    decreases d, |cs|
  {
    if cs != [] {
      var (a, b) := (Walk(kids, cs[0], d), WalkAll(kids, cs[1..], d));
      assert cs[0] in cs && forall c :: c in cs[1..] ==> c in cs;
      WalkParents(up, kids, cs[0], d);
      WalkAllParents(up, kids, cs[1..], n, d);
      var w := a + b;
      forall j: nat | j < |w| ensures BehindParent(up, w, j) || (w[j] < |up| && up[w[j]] == Some(n)) {
        if j < |a| {
          assert w[j] == a[j];
          if j > 0 {
            assert BehindParent(up, a, j);
            var i: nat :| i < j && up[a[j]] == Some(a[i]);
            assert w[i] == a[i];
          }
        } else {
          assert w[j] == b[j - |a|];
          if BehindParent(up, b, j - |a|) {
            var i: nat :| i < j - |a| && up[b[j - |a|]] == Some(b[i]);
            assert w[i + |a|] == b[i];
          }
        }
      }
    }
  }

  /** Where a walk over a list writes the node at place `j` of it. */
  lemma {:induction false} WalkMeets(kids: Lists, cs: seq<nat>, j: nat, d: nat) returns (b: nat)
    requires j < |cs| && d > 0 && forall c :: c in cs ==> c < |kids|
    ensures b < |WalkAll(kids, cs, d)| && WalkAll(kids, cs, d)[b] == cs[j] && (j > 0 ==> b >= |Walk(kids, cs[0], d)|)
    decreases |cs|
  {
    assert cs[0] in cs && forall c :: c in cs[1..] ==> c in cs;
    b := 0;
    if j > 0 {
      b := WalkMeets(kids, cs[1..], j - 1, d);
      b := b + |Walk(kids, cs[0], d)|;
    }
  }

  /** A walk takes the nodes of a list in their order. */
  lemma {:induction false} WalkInOrder(kids: Lists, cs: seq<nat>, i: nat, j: nat, d: nat) returns (a: nat, b: nat)
    requires i < j < |cs| && d > 0 && forall c :: c in cs ==> c < |kids|
    ensures a < b < |WalkAll(kids, cs, d)|
    ensures WalkAll(kids, cs, d)[a] == cs[i] && WalkAll(kids, cs, d)[b] == cs[j]
    decreases |cs|
  {
    assert cs[0] in cs && forall c :: c in cs[1..] ==> c in cs;
    if i == 0 {
      a := 0;
      b := WalkMeets(kids, cs, j, d);
    } else {
      a, b := WalkInOrder(kids, cs[1..], i - 1, j - 1, d);
      a, b := a + |Walk(kids, cs[0], d)|, b + |Walk(kids, cs[0], d)|;
    }
  }

  /** Below a node its children come in the order of its list. */
  lemma ChildrenInOrder(up: Links, kids: Lists, n: nat, i: nat, j: nat, d: nat) returns (a: nat, b: nat)
    requires Forest(up, kids) && n < |kids| && i < j < |kids[n]| && d > 1
    ensures a < b < |Walk(kids, n, d)| && Walk(kids, n, d)[a] == kids[n][i] && Walk(kids, n, d)[b] == kids[n][j]
  {
    assert ListOf(up, kids[n], n);
    a, b := WalkInOrder(kids, kids[n], i, j, d - 1);
    a, b := a + 1, b + 1;
  }

  lemma MetOnce(up: Links, m: nat, root: nat, i: nat, j: nat)
    requires root < |up| && up[root].None? && Up(up, m, i) == Up(up, m, j) == Some(root)
    ensures i == j
  {
    var (a, b) := if i < j then (i, j) else (j, i);
    if a < b {
      UpPlus(up, m, a, b - a);
      assert Up(up, root, 0) == Some(root);
      UpBefore(up, root, 1, b - a);
    }
  }

  /** A node that reaches the root does so in fewer steps than there are nodes. */
  lemma ReachedSoon(up: Links, m: nat, root: nat, k: nat)
    requires Closed(up) && m < |up| && root < |up| && up[root].None? && Up(up, m, k) == Some(root)
    ensures k < |up|
  {
    forall i: nat, j: nat | i < j < k + 1 ensures Up(up, m, i) != Up(up, m, j) {
      UpBefore(up, m, i, k);
      if Up(up, m, i) == Up(up, m, j) {
        UpPlus(up, m, i, k - j);
        UpPlus(up, m, j, k - j);
        MetOnce(up, m, root, i + (k - j), k);
      }
    }
    ChainSize(up, m, k + 1);
    SubsetSize(Chain(up, m, k + 1), Indices(|up|));
    IndicesSize(|up|);
  }

  lemma {:induction false} HitsOnce(up: Links, m: nat, root: nat, k: nat, d: nat)
    requires root < |up| && up[root].None? && Up(up, m, k) == Some(root)
    ensures Hits(up, m, root, d) == if k < d then 1 else 0
    decreases d
  {
    if d > 0 {
      HitsOnce(up, m, root, k, d - 1);
      if Up(up, m, d - 1) == Some(root) { MetOnce(up, m, root, k, d - 1); }
    }
  }

  lemma {:induction false} NeverHit(up: Links, m: nat, root: nat, d: nat)
    requires m >= |up| > root
    ensures Hits(up, m, root, d) == 0 && (d > 0 ==> Up(up, m, d).None?)
    decreases d
  {
    if d > 0 { NeverHit(up, m, root, d - 1); }
    assert Up(up, m, 0) == Some(m);
  }

  lemma WalkVisits(up: Links, kids: Lists, root: nat, d: nat, m: nat)
    requires Forest(up, kids) && root < |up| && up[root].None? && AllReach(up, root) && d >= |up|
    ensures multiset(Walk(kids, root, d))[m] == if m < |up| then 1 else 0
  {
    WalkCount(up, kids, m, root, d);
    if m < |up| {
      assert Reaches(up, m, root);
      var k: nat :| Up(up, m, k) == Some(root);
      ReachedSoon(up, m, root, k);
      HitsOnce(up, m, root, k, d);
    } else {
      NeverHit(up, m, root, d);
    }
  }

  /** In a tree the walk from the root visits each node exactly once and nothing else. */
  lemma WalkVisitsOnce(up: Links, kids: Lists, root: nat, d: nat)
    requires Forest(up, kids) && root < |up| && up[root].None? && AllReach(up, root) && d >= |up|
    ensures forall m: nat :: multiset(Walk(kids, root, d))[m] == if m < |up| then 1 else 0
  {
    forall m: nat ensures multiset(Walk(kids, root, d))[m] == if m < |up| then 1 else 0 {
      WalkVisits(up, kids, root, d, m);
    }
  }
}
