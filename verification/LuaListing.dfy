/** The node list an editor shows for a table: CTable::_DoLoad walks the raw entries of
    every level of the `$PARENT` chain. */
module LuaListing {
  import opened LuaHeap
  import opened LuaStores
  import opened Options

  datatype Kind = KNil | KNum | KBool | KStr | KTable

  function KindOf(v: Value): Kind {
    match v
    case Nil => KNil
    case Num(_) => KNum
    case Bool(_) => KBool
    case Str(_) => KStr
    case Tab(_) => KTable
  }

  /** A listed entry: its name, the hash of the name, and the type of the value. */
  datatype Node = Node(name: string, hash: int, kind: Kind)

  /** A key the listing skips: it starts with `$` and hashes like one of the three. */
  predicate Hidden(hash: string -> int, k: string) {
    k != "" && k[0] == '$' && (hash(k) == hash(FUNC) || hash(k) == hash(PARENT) || hash(k) == hash(REF))
  }

  ghost predicate Visible(h: Heap, t: nat, k: string)
    requires Wf(h) && t < |h|
  {
    !Reserved(k) && Lookup(h, t, k) != Nil
  }

  /** The three hash differently, and no ordinary key is taken for one of them. */
  ghost predicate NoneHidden(h: Heap, hash: string -> int) {
    && hash(FUNC) != hash(PARENT) && hash(FUNC) != hash(REF) && hash(PARENT) != hash(REF)
    && forall t: nat, k :: t < |h| && k in h[t].raw && Hidden(hash, k) ==> Reserved(k)
  }

  /** The file of the nearest level that came from a call of Inherit or Reference. */
  ghost function NearestRef(h: Heap, t: nat): Option<string>
    requires Wf(h) && t < |h|
    decreases t
  {
    assert Linked(h, t);
    if !h[t].meta then None
    else if h[t].raw[FUNC].s != "" then Some(h[t].raw[REF].s)
    else NearestRef(h, ParentOf(h, t))
  }

  /** The level `n` steps up the `$PARENT` chain. */
  ghost function Level(h: Heap, t: nat, n: nat): (u: Option<nat>)
    requires Wf(h) && t < |h|
    ensures u.Some? ==> u.value < |h|
    decreases n
  {
    if n == 0 then Some(t) else if !h[t].meta then None else Level(h, ParentOf(h, t), n - 1)
  }

  ghost predicate FromCall(h: Heap, t: nat, n: nat)
    requires Wf(h) && t < |h|
  {
    Level(h, t, n).Some? && var u := Level(h, t, n).value; h[u].meta && FUNC in h[u].raw && h[u].raw[FUNC] != Str("")
  }

  /** The reference shown is that of a level that came from a call and has none such below
      it, and there is none if and only if no level came from one. */
  lemma {:induction false} NearestIs(h: Heap, t: nat) returns (n: nat)
    requires Wf(h) && t < |h|
    ensures NearestRef(h, t).Some? ==>
      && FromCall(h, t, n) && (forall m: nat :: m < n ==> !FromCall(h, t, m))
      && var u := Level(h, t, n).value; REF in h[u].raw && h[u].raw[REF] == Str(NearestRef(h, t).value)
    ensures NearestRef(h, t).None? ==> forall m: nat :: !FromCall(h, t, m)
    decreases t
  {
    assert Linked(h, t);
    n := 0;
    if h[t].meta && h[t].raw[FUNC].s == "" {
      var p := ParentOf(h, t);
      var m := NearestIs(h, p);
      n := m + 1;
      forall i: nat | i > 0 ensures FromCall(h, t, i) <==> FromCall(h, p, i - 1) {}
      assert !FromCall(h, t, 0);
    }
  }

  ghost predicate Listed(nodes: seq<Node>, k: string) {
    exists i :: 0 <= i < |nodes| && nodes[i].name == k
  }

  predicate HasHash(nodes: seq<Node>, x: int) {
    exists i :: 0 <= i < |nodes| && nodes[i].hash == x
  }

  /** The entries in `nodes` are visible keys with their hashes and the types of the
      values they resolve to, and no hash is there twice. */
  ghost predicate Sound(h: Heap, t: nat, hash: string -> int, nodes: seq<Node>)
    requires Wf(h) && t < |h|
  {
    && (forall i :: 0 <= i < |nodes| ==>
         && Visible(h, t, nodes[i].name)
         && nodes[i].hash == hash(nodes[i].name)
         && nodes[i].kind == KindOf(Lookup(h, t, nodes[i].name)))
    && (forall i, j :: 0 <= i < j < |nodes| ==> nodes[i].hash != nodes[j].hash)
  }

  ghost predicate Covers(hash: string -> int, nodes: seq<Node>, seen: set<string>) {
    forall k :: k in seen && !Reserved(k) ==> HasHash(nodes, hash(k))
  }

  class CTable {
    var nodes: seq<Node>
    var ref: Option<string>

    constructor ()
      ensures nodes == [] && ref == None
    {
      nodes, ref := [], None;
    }

    /** Lists the levels from `t` upwards; raw entries of a level come in any order. */
    method DoLoad(h: Heap, t: nat, hash: string -> int)
      requires Wf(h) && t < |h| && NoneHidden(h, hash) && nodes == [] && ref == None
      modifies this
      ensures Sound(h, t, hash, nodes)
      ensures forall k :: Visible(h, t, k) ==> HasHash(nodes, hash(k))
      ensures ref == NearestRef(h, t)
    {
      var cur: Option<nat> := Some(t);
      ghost var seen: set<string> := {};
      while cur.Some?
        invariant cur.Some? ==> cur.value < |h|
        invariant Sound(h, t, hash, nodes) && Covers(hash, nodes, seen)
        invariant forall k :: k in seen ==> Lookup(h, t, k) != Nil
        invariant forall k :: k !in seen ==> Lookup(h, t, k) == if cur.Some? then Lookup(h, cur.value, k) else Nil
        invariant NearestRef(h, t) == if ref.Some? then ref else if cur.Some? then NearestRef(h, cur.value) else None
        decreases if cur.Some? then cur.value + 1 else 0
      {
        assert Linked(h, cur.value);
        LoadLevel(h, t, cur.value, hash, seen);
        seen := seen + h[cur.value].raw.Keys;
        cur := if PARENT in h[cur.value].raw then Some(h[cur.value].raw[PARENT].ref) else None;
      }
    }

    /** The entries of one level: skips the three, and names whose hash is listed. */
    method LoadLevel(h: Heap, ghost t: nat, u: nat, hash: string -> int, ghost seen: set<string>)
      requires Wf(h) && t < |h| && u < |h| && NoneHidden(h, hash)
      requires Sound(h, t, hash, nodes) && Covers(hash, nodes, seen)
      requires forall k :: k !in seen ==> Lookup(h, t, k) == Lookup(h, u, k)
      modifies this
      ensures Sound(h, t, hash, nodes) && Covers(hash, nodes, seen + h[u].raw.Keys)
      ensures Linked(h, u)
      ensures ref == if old(ref).Some? || !h[u].meta || h[u].raw[FUNC].s == "" then old(ref) else Some(h[u].raw[REF].s)
    {
      assert Linked(h, u);
      var rest := h[u].raw.Keys;
      while rest != {}
        invariant rest <= h[u].raw.Keys
        invariant Sound(h, t, hash, nodes) && Covers(hash, nodes, seen + (h[u].raw.Keys - rest))
        invariant ref ==
          if old(ref).Some? || !h[u].meta || h[u].raw[FUNC].s == "" || FUNC in rest then old(ref)
          else Some(h[u].raw[REF].s)
        decreases rest
      {
        var k :| k in rest;
        rest := rest - {k};
        var x := hash(k);
        if k != "" && k[0] == '$' && (x == hash(FUNC) || x == hash(PARENT) || x == hash(REF)) {
          assert Hidden(hash, k) && Reserved(k);
          if x == hash(FUNC) && ref.None? && h[u].raw[k].s != "" {
            ref := Some(h[u].raw[REF].s);
          }
        } else if HasHash(nodes, x) {
        } else {
          assert k !in seen by { assert !Reserved(k); }
          assert !Reserved(k) && h[u].raw[k] != Nil;
          ListedToo(h, t, hash, nodes, Node(k, x, KindOf(h[u].raw[k])), seen + (h[u].raw.Keys - (rest + {k})));
          nodes := nodes + [Node(k, x, KindOf(h[u].raw[k]))];
        }
      }
    }
  }

  /** A visible key whose hash is not listed can be added. */
  lemma ListedToo(h: Heap, t: nat, hash: string -> int, nodes: seq<Node>, n: Node, seen: set<string>)
    requires Wf(h) && t < |h| && Sound(h, t, hash, nodes) && Covers(hash, nodes, seen)
    requires Visible(h, t, n.name) && n.hash == hash(n.name) && n.kind == KindOf(Lookup(h, t, n.name))
    requires !HasHash(nodes, n.hash)
    ensures Sound(h, t, hash, nodes + [n]) && Covers(hash, nodes + [n], seen + {n.name})
  {
    var more := nodes + [n];
    assert more[|nodes|] == n;
    forall k | k in seen + {n.name} && !Reserved(k) ensures HasHash(more, hash(k)) {
      if k in seen {
        var i :| 0 <= i < |nodes| && nodes[i].hash == hash(k);
        assert more[i].hash == hash(k);
      }
    }
  }

  /** Listing agrees with lookup: the names listed are all the visible keys exactly when
      no two visible keys have the same hash. */
  lemma ListingComplete(h: Heap, t: nat, hash: string -> int, nodes: seq<Node>)
    requires Wf(h) && t < |h| && Sound(h, t, hash, nodes)
    requires forall k :: Visible(h, t, k) ==> HasHash(nodes, hash(k))
    ensures (forall k :: Visible(h, t, k) <==> Listed(nodes, k)) <==>
            (forall k, l :: Visible(h, t, k) && Visible(h, t, l) && hash(k) == hash(l) ==> k == l)
    ensures forall i, j :: 0 <= i < j < |nodes| ==> nodes[i].name != nodes[j].name
  {
    if forall k :: Visible(h, t, k) <==> Listed(nodes, k) {
      forall k, l | Visible(h, t, k) && Visible(h, t, l) && hash(k) == hash(l) ensures k == l {
        assert Listed(nodes, k) && Listed(nodes, l);
        var i :| 0 <= i < |nodes| && nodes[i].name == k;
        var j :| 0 <= j < |nodes| && nodes[j].name == l;
        assert nodes[i].hash == nodes[j].hash;
      }
    }
    if forall k, l :: Visible(h, t, k) && Visible(h, t, l) && hash(k) == hash(l) ==> k == l {
      forall k | Visible(h, t, k) ensures Listed(nodes, k) {
        assert HasHash(nodes, hash(k));
        var i :| 0 <= i < |nodes| && nodes[i].hash == hash(k);
        assert Visible(h, t, nodes[i].name) && nodes[i].name == k;
      }
    }
  }
}
