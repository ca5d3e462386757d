/**
 * `CChunkyFile` and its chunks as objects: a chunk owns the chunks below it, reading grows
 * the tree while the stream moves on, and saving first overwrites the lengths.
 */
module ChunkyFile {
  import opened ChunkyBytes

  class InStream {
    const bytes: seq<Byte>
    var pos: nat

    constructor (b: seq<Byte>)
      ensures bytes == b && pos == 0
    {
      bytes, pos := b, 0;
    }

    /** Reads `n` bytes, or refuses to read beyond the end. */
    method VRead(n: nat) returns (ok: bool, b: seq<Byte>)
      requires pos <= |bytes|
      modifies this
      ensures ok == (old(pos) + n <= |bytes|) && pos == (if ok then old(pos) + n else old(pos))
      ensures ok ==> b == bytes[old(pos)..pos]
    {
      if n > |bytes| - pos { return false, []; }
      ok, b, pos := true, bytes[pos..pos + n], pos + n;
    }
  }

  class OutStream {
    var bytes: seq<Byte>

    constructor ()
      ensures bytes == []
    {
      bytes := [];
    }

    method VWrite(b: seq<Byte>)
      modifies this
      ensures bytes == old(bytes) + b
    {
      bytes := bytes + b;
    }
  }

  /** One 32-bit field. */
  method ReadWord(s: InStream) returns (ok: bool, w: Word)
    requires s.pos <= |s.bytes|
    modifies s
    ensures ok == (old(s.pos) + 4 <= |s.bytes|) && s.pos == (if ok then old(s.pos) + 4 else old(s.pos))
    ensures ok ==> w == WordAt(s.bytes, old(s.pos))
  {
    w := 0;
    var b: seq<Byte>;
    ok, b := s.VRead(4);
    if ok { w := Dec(b); }
  }

  /** Chunks that share no object, inside `r`, with the trees they stand for. */
  ghost predicate Forest(cs: seq<CChunk>, ts: seq<Tree>, r: set<object>)
    reads r
    decreases ts, 0
  {
    if cs == [] || ts == [] then cs == [] && ts == []
    else
      && cs[0] in r && cs[0].repr <= r && cs[0].tree == ts[0] && cs[0].Valid()
      && Forest(cs[1..], ts[1..], r - cs[0].repr)
  }

  lemma SplicedTail<T>(s: seq<T>, k: nat, x: T)
    requires 0 < k <= |s|
    ensures (s[..k] + [x] + s[k..])[0] == s[0]
    ensures (s[..k] + [x] + s[k..])[1..] == s[1..][..k - 1] + [x] + s[1..][k - 1..]
  {
    assert s[1..][..k - 1] == s[..k][1..] && s[1..][k - 1..] == s[k..];
  }

  lemma {:induction false} ForestInsert(cs: seq<CChunk>, ts: seq<Tree>, r: set<object>, k: nat, c: CChunk)
    requires Forest(cs, ts, r) && c.Valid() && c.repr !! r && k <= |cs| == |ts|
    ensures Forest(cs[..k] + [c] + cs[k..], ts[..k] + [c.tree] + ts[k..], r + c.repr)
    decreases k
  {
    var (ds, us) := (cs[..k] + [c] + cs[k..], ts[..k] + [c.tree] + ts[k..]);
    if k == 0 {
      assert ds[1..] == cs && us[1..] == ts && r + c.repr - c.repr == r;
    } else {
      ForestInsert(cs[1..], ts[1..], r - cs[0].repr, k - 1, c);
      SplicedTail(cs, k, c);
      SplicedTail(ts, k, c.tree);
      assert r + c.repr - cs[0].repr == r - cs[0].repr + c.repr;
    }
  }

  lemma ForestSnoc(cs: seq<CChunk>, ts: seq<Tree>, r: set<object>, c: CChunk)
    requires Forest(cs, ts, r) && c.Valid() && c.repr !! r
    ensures Forest(cs + [c], ts + [c.tree], r + c.repr)
  {
    ForestWithin(cs, ts, r, r);
    ForestInsert(cs, ts, r, |cs|, c);
    assert cs[..|cs|] + [c] + cs[|cs|..] == cs + [c] && ts[..|cs|] + [c.tree] + ts[|cs|..] == ts + [c.tree];
  }

  lemma {:induction false} ForestRemove(cs: seq<CChunk>, ts: seq<Tree>, r: set<object>, k: nat)
    requires Forest(cs, ts, r) && k < |cs| == |ts|
    ensures Forest(cs[..k] + cs[k + 1..], ts[..k] + ts[k + 1..], r)
    decreases k
  {
    var (ds, us) := (cs[..k] + cs[k + 1..], ts[..k] + ts[k + 1..]);
    if k == 0 {
      assert ds == cs[1..] && us == ts[1..];
      ForestWithin(cs[1..], ts[1..], r - cs[0].repr, r);
    } else {
      ForestRemove(cs[1..], ts[1..], r - cs[0].repr, k - 1);
      assert ds[1..] == cs[1..][..k - 1] + cs[1..][k..] && us[1..] == ts[1..][..k - 1] + ts[1..][k..];
    }
  }

  lemma {:induction false} ForestWithin(cs: seq<CChunk>, ts: seq<Tree>, r: set<object>, wide: set<object>)
    requires Forest(cs, ts, r) && r <= wide
    ensures Forest(cs, ts, wide) && |cs| == |ts|
    decreases ts
  {
    if cs != [] {
      ForestWithin(cs[1..], ts[1..], r - cs[0].repr, wide - cs[0].repr);
    }
  }

  /** A forest falls into what stands before a place and what stands from there on ... */
  lemma {:induction false} ForestSplit(cs: seq<CChunk>, ts: seq<Tree>, r: set<object>, i: nat)
      returns (a: set<object>, b: set<object>)
    requires Forest(cs, ts, r) && i <= |cs| == |ts|
    ensures a !! b && a + b == r && Forest(cs[..i], ts[..i], a) && Forest(cs[i..], ts[i..], b)
    decreases i
  {
    if i == 0 {
      a, b := {}, r;
      assert cs[0..] == cs && ts[0..] == ts;
    } else {
      a, b := ForestSplit(cs[1..], ts[1..], r - cs[0].repr, i - 1);
      assert cs[..i][1..] == cs[1..][..i - 1] && ts[..i][1..] == ts[1..][..i - 1];
      assert cs[i..] == cs[1..][i - 1..] && ts[i..] == ts[1..][i - 1..];
      assert a + cs[0].repr - cs[0].repr == a;
      a := a + cs[0].repr;
    }
  }

  /** ... and two forests that share nothing are one. */
  lemma {:induction false} ForestJoin(cs: seq<CChunk>, ts: seq<Tree>, a: set<object>, ds: seq<CChunk>,
      us: seq<Tree>, b: set<object>)
    requires Forest(cs, ts, a) && Forest(ds, us, b) && a !! b
    ensures Forest(cs + ds, ts + us, a + b)
    decreases ts
  {
    if cs == [] {
      assert cs + ds == ds && ts + us == us;
      ForestWithin(ds, us, b, a + b);
    } else {
      ForestJoin(cs[1..], ts[1..], a - cs[0].repr, ds, us, b);
      assert (cs + ds)[1..] == cs[1..] + ds && (ts + us)[1..] == ts[1..] + us;
      assert a - cs[0].repr + b == a + b - cs[0].repr;
    }
  }

  /** The step of a loop over a forest: one chunk leaves the part ahead ... */
  lemma NextOfForest(cs: seq<CChunk>, ts: seq<Tree>, i: nat, rest: set<object>)
    requires i < |cs| == |ts| && Forest(cs[i..], ts[i..], rest)
    ensures cs[i] in rest && cs[i].repr <= rest && cs[i].tree == ts[i] && cs[i].Valid()
    ensures Forest(cs[i + 1..], ts[i + 1..], rest - cs[i].repr)
    ensures Sum(ts[i..]) == Add(Total(ts[i]), Sum(ts[i + 1..]))
  {
    assert cs[i..][0] == cs[i] && cs[i..][1..] == cs[i + 1..] && ts[i..][0] == ts[i] && ts[i..][1..] == ts[i + 1..];
  }

  /** ... and joins the part behind. */
  lemma ForestGrows(cs: seq<CChunk>, ts: seq<Tree>, i: nat, done: set<object>)
    requires i < |cs| == |ts| && Forest(cs[..i], ts[..i], done)
    requires cs[i].Valid() && cs[i].tree == ts[i] && cs[i].repr !! done
    ensures Forest(cs[..i + 1], ts[..i + 1], done + cs[i].repr)
  {
    ForestSnoc(cs[..i], ts[..i], done, cs[i]);
    assert cs[..i] + [cs[i]] == cs[..i + 1] && ts[..i] + [ts[i]] == ts[..i + 1];
  }

  /** `strncpy` into the four bytes of a name. */
  function FixedName(name: seq<Byte>): (r: seq<Byte>)
    ensures |r| == 4
  {
    (CString(name) + [0, 0, 0, 0])[..4]
  }

  /** A chunk as `InsertBefore` and `AppendNew` make it. */
  function NewTree(name: seq<Byte>, kind: Kind): (r: Tree)
    ensures Sound(r)
  {
    Tree(Head(kind, FixedName(name), [], 0, if kind == Folder then 0 else 0xFFFF_FFFF, 0), 0, [], [])
  }

  lemma CStringPad(d: seq<Byte>)
    requires 0 !in d
    ensures CString((d + [0, 0, 0, 0])[..4]) == if |d| < 4 then d else d[..4]
  {
    var r := (d + [0, 0, 0, 0])[..4];
    if |d| < 4 {
      CStringTaken(d, r[|d| + 1..]);
      assert r == d + ([0] + r[|d| + 1..]);
    } else {
      CStringWhole(d[..4]);
      assert r == d[..4];
    }
  }

  lemma {:induction false} CStringTaken(d: seq<Byte>, rest: seq<Byte>)
    requires 0 !in d
    ensures CString(d + ([0] + rest)) == d
    decreases |d|
  {
    if d != [] {
      CStringTaken(d[1..], rest);
      assert (d + ([0] + rest))[1..] == d[1..] + ([0] + rest);
    }
  }

  lemma {:induction false} CStringWhole(d: seq<Byte>)
    requires 0 !in d
    ensures CString(d) == d
    decreases |d|
  {
    if d != [] { CStringWhole(d[1..]); }
  }

  /** A new chunk is an empty one of the kind asked for; its name reads as the name given, cut
      to four characters; and it is saved as its fields alone. */
  lemma NewTreeIs(name: seq<Byte>, kind: Kind)
    ensures var (t, n) := (NewTree(name, kind), CString(name));
      && t.head.kind == kind && t.data == [] && t.children == [] && t.length == 0
      && CString(t.head.name) == (if |n| < 4 then n else n[..4])
      && t.head.descriptor == [] && t.head.version == 0 && t.head.unknown2 == 0
      && Signed(t.head.unknown1) == (if kind == Folder then 0 else -1)
      && Total(t) == 28 && |Emit(t)| == 28
  {
    CStringPad(CString(name));
    EmptySaved(NewTree(name, kind));
  }

  lemma EmptySaved(t: Tree)
    requires Sound(t) && t.head.descriptor == [] && t.length == 0 && t.data == [] && t.children == []
    ensures Total(t) == 28 && |Emit(t)| == 28
  {
    assert Text([]) == [] && EmitAll([]) == [] && Stored(t) == 0;
    assert Body(t) == [];
  }

  /** Behind a known type the fields decide: the body is read, or the stream is too short. */
  lemma GoesOn(s: seq<Byte>, pos: nat, modern: bool)
    requires pos + 4 <= |s| && (s[pos..pos + 4] == FOLD || s[pos..pos + 4] == DATA)
    ensures
      var p := pos + 4 + FieldWidth(modern);
      if p > |s| || p + WordAt(s, pos + 16) > |s| then ReadChunk(s, pos, modern) == Broken(Truncated)
      else
        && SoundHead(HeadAt(s, pos, modern))
        && ReadChunk(s, pos, modern)
            == ReadBody(s, p + WordAt(s, pos + 16), HeadAt(s, pos, modern), WordAt(s, pos + 12), modern)
  {
  }

  datatype Status = Loaded | AtEnd | Threw(error: Error)

  /** What a read ended with is what the format says, for the tree made and the place reached. */
  ghost predicate Agrees(o: Outcome, status: Status, t: Tree, pos: nat) {
    match o
    case Got(u, next) => status == Loaded && t == u && pos == next
    case Broken(e) => status == Threw(e)
    case Ended => status == AtEnd
  }

  ghost predicate AgreesTop(o: Children, status: Status, ts: seq<Tree>) {
    match o
    case Children(all, _) => status == Loaded && all == ts
    case Failed(e) => status == Threw(e)
  }

  ghost predicate AgreesFile(o: Result, status: Status, f: File) {
    match o
    case Ok(g) => status == Loaded && f == g
    case Err(e) => status == Threw(e)
  }

  // ----- Edits below the top -----

  /** One chunk of a forest, with what stands on either side of it. */
  lemma ForestAt(cs: seq<CChunk>, ts: seq<Tree>, r: set<object>, i: nat) returns (a: set<object>, b: set<object>)
    requires Forest(cs, ts, r) && i < |cs| == |ts|
    ensures cs[i].Valid() && cs[i].tree == ts[i] && cs[i].repr <= r && a + cs[i].repr + b == r
    ensures a !! cs[i].repr && a !! b && b !! cs[i].repr
    ensures Forest(cs[..i], ts[..i], a) && Forest(cs[i + 1..], ts[i + 1..], b)
  {
    a, b := ForestSplit(cs, ts, r, i);
    NextOfForest(cs, ts, i, b);
    b := b - cs[i].repr;
  }

  lemma ForestPut(cs: seq<CChunk>, us: seq<Tree>, i: nat, a: set<object>, b: set<object>)
    requires i < |cs| == |us| && cs[i].Valid() && cs[i].tree == us[i]
    requires a !! cs[i].repr && a !! b && b !! cs[i].repr
    requires Forest(cs[..i], us[..i], a) && Forest(cs[i + 1..], us[i + 1..], b)
    ensures Forest(cs, us, a + cs[i].repr + b)
  {
    ForestGrows(cs, us, i, a);
    ForestJoin(cs[..i + 1], us[..i + 1], a + cs[i].repr, cs[i + 1..], us[i + 1..], b);
    assert cs[..i + 1] + cs[i + 1..] == cs && us[..i + 1] + us[i + 1..] == us;
  }

  datatype Edit = Insert(before: nat, name: seq<Byte>, kind: Kind) | Remove(k: nat)

  /** The edit can be made in the chunk at the end of the path. */
  predicate CanEdit(t: Tree, path: seq<nat>, e: Edit)
    decreases |path|
  {
    if path == [] then
      match e {
        case Insert(b, _, _) => t.head.kind == Folder && b <= |t.children|
        case Remove(k) => k < |t.children|
      }
    else path[0] < |t.children| && CanEdit(t.children[path[0]], path[1..], e)
  }

  /** The tree with the list of chunks at the end of the path changed, and nothing else. */
  function Edited(t: Tree, path: seq<nat>, e: Edit): Tree
    requires CanEdit(t, path, e)
    decreases |path|
  {
    var ts := t.children;
    if path == [] then
      match e
      case Insert(b, n, k) => t.(children := ts[..b] + [NewTree(n, k)] + ts[b..])
      case Remove(k) => t.(children := ts[..k] + ts[k + 1..])
    else t.(children := ts[path[0] := Edited(ts[path[0]], path[1..], e)])
  }

  lemma SoundReplaced(ts: seq<Tree>, i: nat, t: Tree)
    requires AllSound(ts) && i < |ts| && Sound(t)
    ensures AllSound(ts[i := t])
  {
    AllSoundAt(ts);
    AllSoundAt(ts[i := t]);
  }

  /** Follows a path of chunks, changes the list at its end, and leaves the rest alone. */
  method EditChild(cs: seq<CChunk>, ghost ts: seq<Tree>, ghost r: set<object>, i: nat, path: seq<nat>,
      e: Edit) returns (ghost now: set<object>)
    requires Forest(cs, ts, r) && i < |cs| == |ts| && CanEdit(ts[i], path, e)
    modifies r
    ensures fresh(now - r) && Forest(cs, ts[i := Edited(ts[i], path, e)], now)
    ensures AllSound(ts) ==> AllSound(ts[i := Edited(ts[i], path, e)])
    decreases |path|, 1
  {
    ghost var a, b := ForestAt(cs, ts, r, i);
    cs[i].EditAt(path, e);
    ghost var us := ts[i := Edited(ts[i], path, e)];
    if AllSound(ts) { SoundReplaced(ts, i, cs[i].tree); }
    assert us[..i] == ts[..i] && us[i + 1..] == ts[i + 1..];
    ForestPut(cs, us, i, a, b);
    now := a + cs[i].repr + b;
  }

  class CChunk {
    var kind: Kind
    var name: seq<Byte>
    var descriptor: seq<Byte>
    var version: Word
    var unknown1: Word
    var unknown2: Word
    var dataLength: Word
    var data: seq<Byte>
    var children: seq<CChunk>
    ghost var tree: Tree
    ghost var repr: set<object>

    ghost predicate Valid()
      reads this, repr
      decreases tree, 1
    {
      && this in repr && Sound(tree)
      && tree.head == Head(kind, name, descriptor, version, unknown1, unknown2)
      && tree.length == dataLength && tree.data == data
      && |children| == |tree.children| && Forest(children, tree.children, repr - {this})
    }

    /** `new CChunk`, with the fields given by `InsertBefore` and `AppendNew`. */
    constructor (n: seq<Byte>, k: Kind)
      ensures Valid() && fresh(repr) && repr == {this} && tree == NewTree(n, k)
    {
      kind, name, descriptor, version, unknown2 := k, FixedName(n), [], 0, 0;
      unknown1 := if k == Folder then 0 else 0xFFFF_FFFF;
      dataLength, data, children := 0, [], [];
      tree := NewTree(n, k);
      repr := {this};
    }

    /** `new CChunk` alone: a folder named "NULL". */
    constructor Blank()
      ensures Valid() && fresh(repr) && repr == {this} && kind == Folder
      ensures version == unknown1 == unknown2 == 0 && data == [] && children == []
    {
      kind, name, descriptor, version, unknown1, unknown2 := Folder, [0x4E, 0x55, 0x4C, 0x4C], [], 0, 0, 0;
      dataLength, data, children := 0, [], [];
      tree := Tree(Head(Folder, [0x4E, 0x55, 0x4C, 0x4C], [], 0, 0, 0), 0, [], []);
      repr := {this};
    }

    /** The objects below this one. */
    ghost function Below(): set<object>
      reads this
    {
      repr - {this}
    }

    /** Lengths are computed from the leaves up and overwrite the old ones; nothing else
        changes. */
    method FoldUpdateSize() returns (size: Word)
      requires Valid()
      modifies repr
      ensures Valid() && repr == old(repr) && children == old(children)
      ensures tree == Updated(old(tree)) && size == Total(old(tree))
      decreases repr, 0
    {
      size := dataLength;
      if kind == Folder {
        size := UpdateAll(children, tree.children, Below());
      }
      dataLength := size;
      UpdatedSound(tree);
      tree := Updated(tree);
      size := Add(size, Wrap(28 + if |descriptor| > 0 then |descriptor| + 1 else 0));
    }

    /** A new chunk in front of child `before`. */
    method InsertBefore(before: nat, n: seq<Byte>, k: Kind) returns (c: CChunk)
      requires Valid() && kind == Folder && before <= |children|
      modifies this
      ensures Valid() && fresh(c) && fresh(repr - old(repr)) && c.tree == NewTree(n, k)
      ensures children == old(children)[..before] + [c] + old(children)[before..]
      ensures var ts := old(tree).children;
        tree == old(tree).(children := ts[..before] + [NewTree(n, k)] + ts[before..])
    {
      c := new CChunk(n, k);
      ghost var (ts, below) := (tree.children, Below());
      ghost var us := ts[..before] + [c.tree] + ts[before..];
      Inserted(children, tree, below, before, c);
      assert repr + c.repr - {this} == below + c.repr;
      children, tree, repr := children[..before] + [c] + children[before..], tree.(children := us), repr + c.repr;
    }

    method AppendNew(n: seq<Byte>, k: Kind) returns (c: CChunk)
      requires Valid() && kind == Folder
      modifies this
      ensures Valid() && fresh(c) && fresh(repr - old(repr)) && c.tree == NewTree(n, k)
      ensures children == old(children) + [c]
      ensures tree == old(tree).(children := old(tree).children + [NewTree(n, k)])
    {
      ghost var ts := tree.children;
      ForestWithin(children, ts, Below(), Below());
      c := InsertBefore(|children|, n, k);
      assert ts[..|ts|] + [NewTree(n, k)] + ts[|ts|..] == ts + [NewTree(n, k)];
    }

    method RemoveChild(k: nat)
      requires Valid() && k < |children|
      modifies this
      ensures Valid() && repr == old(repr) && |old(tree).children| == |old(children)|
      ensures children == old(children)[..k] + old(children)[k + 1..]
      ensures tree == old(tree).(children := old(tree).children[..k] + old(tree).children[k + 1..])
    {
      ghost var ts := tree.children;
      ForestWithin(children, ts, Below(), Below());
      ForestRemove(children, ts, Below(), k);
      SoundRemove(ts, k);
      children := children[..k] + children[k + 1..];
      tree := tree.(children := ts[..k] + ts[k + 1..]);
    }

    /** An edit of this chunk or of one below, reached through `GetChild`. */
    method EditAt(path: seq<nat>, e: Edit)
      requires Valid() && CanEdit(tree, path, e)
      modifies repr
      ensures Valid() && fresh(repr - old(repr)) && tree == Edited(old(tree), path, e)
      decreases |path|, 0
    {
      if path == [] {
        match e {
          case Insert(before, n, k) => var _ := InsertBefore(before, n, k);
          case Remove(k) => RemoveChild(k);
        }
      } else {
        ghost var ts := tree.children;
        ghost var now := EditChild(children, ts, Below(), path[0], path[1..], e);
        tree, repr := Edited(tree, path, e), now + {this};
        assert repr - {this} == now;
      }
    }

    /** The reads of `_Load` between the type and the body; one that fails is an exception. */
    method LoadFields(s: InStream, modern: bool, ghost pos: nat) returns (ok: bool)
      requires s.pos == pos + 4 <= |s.bytes| && unknown1 == 0 && unknown2 == 0
      requires kind == if s.bytes[pos..pos + 4] == FOLD then Folder else Data
      modifies s, `name, `version, `dataLength, `unknown1, `unknown2, `descriptor
      ensures s.pos <= |s.bytes|
      ensures var p := pos + 4 + FieldWidth(modern);
        ok == (p <= |s.bytes| && p + WordAt(s.bytes, pos + 16) <= |s.bytes|)
      ensures ok ==>
        && s.pos == pos + 4 + FieldWidth(modern) + WordAt(s.bytes, pos + 16) && dataLength == WordAt(s.bytes, pos + 12)
        && Head(kind, name, descriptor, version, unknown1, unknown2) == HeadAt(s.bytes, pos, modern)
    {
      var (b, descriptorLength) := ([], 0);
      ok, b := s.VRead(4);
      if !ok { return; }
      name := b;
      ok, version := ReadWord(s);
      if !ok { return; }
      ok, dataLength := ReadWord(s);
      if !ok { return; }
      ok, descriptorLength := ReadWord(s);
      if !ok { return; }
      if modern {
        ok, unknown1 := ReadWord(s);
        if !ok { return; }
        ok, unknown2 := ReadWord(s);
        if !ok { return; }
      }
      ok, b := s.VRead(descriptorLength);
      if ok { descriptor := CString(b); }
    }

    /** The end of `_Load`: the chunks of a folder or the data. */
    method LoadBody(s: InStream, modern: bool) returns (status: Status)
      requires s.pos <= |s.bytes| && children == [] && data == []
      requires SoundHead(Head(kind, name, descriptor, version, unknown1, unknown2))
      modifies s, `data, `children, `tree, `repr
      ensures s.pos <= |s.bytes|
      ensures status == Loaded ==> Valid() && fresh(repr - {this}) && s !in repr
      ensures var head := Head(kind, name, descriptor, version, unknown1, unknown2);
        Agrees(ReadBody(s.bytes, old(s.pos), head, dataLength, modern), status, tree, s.pos)
      decreases |s.bytes| - s.pos, 2
    {
      ghost var head := Head(kind, name, descriptor, version, unknown1, unknown2);
      if kind == Folder {
        var cs;
        ghost var ts, r;
        status, cs, ts, r := LoadChildren(s, s.pos + Signed(dataLength), modern);
        if status.Threw? { return; }
        children := cs;
        tree, repr := Tree(head, dataLength, [], ts), r + {this};
        assert repr - {this} == r;
      } else {
        var ok, b := s.VRead(dataLength);
        if !ok { return Threw(Truncated); }
        data := b;
        tree, repr := Tree(head, dataLength, data, []), {this};
      }
      status := Loaded;
    }

    /** `_Load` on a new chunk: false when no type can be read, an exception for anything
        else that fails. */
    method Load(s: InStream, modern: bool) returns (status: Status)
      requires s.pos <= |s.bytes|
      requires unknown1 == 0 && unknown2 == 0 && data == [] && children == []
      modifies this, s
      ensures s.pos <= |s.bytes|
      ensures status == Loaded ==> Valid() && fresh(repr - {this}) && s !in repr
      ensures Agrees(ReadChunk(s.bytes, old(s.pos), modern), status, tree, s.pos)
      decreases |s.bytes| - s.pos, 0
    {
      ghost var pos := s.pos;
      var ok, tag := s.VRead(4);
      if !ok { return AtEnd; }
      if tag == DATA {
        kind := Data;
      } else if tag == FOLD {
        kind := Folder;
      } else {
        return Threw(BadType);
      }
      status := LoadRest(s, modern, pos);
    }

    /** The part of `_Load` behind the type. */
    method LoadRest(s: InStream, modern: bool, ghost pos: nat) returns (status: Status)
      requires s.pos == pos + 4 <= |s.bytes| && (s.bytes[pos..pos + 4] == FOLD || s.bytes[pos..pos + 4] == DATA)
      requires kind == if s.bytes[pos..pos + 4] == FOLD then Folder else Data
      requires unknown1 == 0 && unknown2 == 0 && data == [] && children == []
      modifies this, s
      ensures s.pos <= |s.bytes|
      ensures status == Loaded ==> Valid() && fresh(repr - {this}) && s !in repr
      ensures Agrees(ReadChunk(s.bytes, pos, modern), status, tree, s.pos)
      decreases |s.bytes| - s.pos, 3
    {
      GoesOn(s.bytes, pos, modern);
      var ok := LoadFields(s, modern, pos);
      if !ok { return Threw(Truncated); }
      status := LoadBody(s, modern);
    }

    /** Everything `_Save` writes between the type and the body. */
    method WriteFields(out: OutStream, ghost before: seq<Byte>)
      requires |name| == 4 && out.bytes == before + Tag(kind)
      modifies out
      ensures var head := Head(kind, name, descriptor, version, unknown1, unknown2);
        out.bytes == before + Fields(head, dataLength) + Text(descriptor)
    {
      var descriptorLength := if |descriptor| == 0 then 0 else Wrap(|descriptor| + 1);
      ghost var (v, d, l, u1, u2) := (Enc(version), Enc(dataLength), Enc(descriptorLength), Enc(unknown1),
          Enc(unknown2));
      out.VWrite(name);
      out.VWrite(Enc(version));
      out.VWrite(Enc(dataLength));
      out.VWrite(Enc(descriptorLength));
      out.VWrite(Enc(unknown1));
      out.VWrite(Enc(unknown2));
      Joined(before, Tag(kind), name, v, d, l, u1, u2);
      out.VWrite(if |descriptor| > 0 then descriptor + [0] else []);
    }

    /** `_Save`: the lengths are brought up to date, then the chunk is written. */
    method Save(out: OutStream)
      requires Valid() && out !in repr
      modifies repr, out
      ensures Valid() && repr == old(repr) && children == old(children)
      ensures tree == Updated(old(tree)) && out.bytes == old(out.bytes) + Emit(old(tree))
      decreases repr, 0
    {
      ghost var (t, before) := (tree, out.bytes);
      out.VWrite(if kind == Data then DATA else FOLD);
      var _ := FoldUpdateSize();
      WriteFields(out, before);
      ghost var head := out.bytes;
      if kind == Folder {
        UpdatedTwiceAll(t.children);
        UpdatedEmitAll(t.children);
        SaveAll(children, UpdatedAll(t.children), Below(), out);
      } else {
        out.VWrite(data);
      }
      assert out.bytes == head + Body(t);
      WholeChunk(before, t);
    }
  }

  lemma SoundInsert(ts: seq<Tree>, k: nat, t: Tree)
    requires AllSound(ts) && Sound(t) && k <= |ts|
    ensures AllSound(ts[..k] + [t] + ts[k..])
  {
    AllSoundAt(ts);
    AllSoundAt(ts[..k] + [t] + ts[k..]);
  }

  /** What a folder is once a chunk was put among its own. */
  lemma Inserted(cs: seq<CChunk>, t: Tree, below: set<object>, before: nat, c: CChunk)
    requires Sound(t) && t.head.kind == Folder && Forest(cs, t.children, below)
    requires before <= |cs| == |t.children| && c.Valid() && c.repr !! below
    ensures var us := t.children[..before] + [c.tree] + t.children[before..];
      Sound(t.(children := us)) && Forest(cs[..before] + [c] + cs[before..], us, below + c.repr)
  {
    var ts := t.children;
    ForestInsert(cs, ts, below, before, c);
    SoundInsert(ts, before, c.tree);
    SoundWith(t, ts[..before] + [c.tree] + ts[before..]);
  }

  lemma SoundWith(t: Tree, us: seq<Tree>)
    requires Sound(t) && t.head.kind == Folder && AllSound(us)
    ensures Sound(t.(children := us))
  {
  }

  lemma SoundRemove(ts: seq<Tree>, k: nat)
    requires AllSound(ts) && k < |ts|
    ensures AllSound(ts[..k] + ts[k + 1..])
  {
    AllSoundAt(ts);
    AllSoundAt(ts[..k] + ts[k + 1..]);
  }

  lemma WholeChunk(before: seq<Byte>, t: Tree)
    requires Sound(t)
    ensures before + Fields(t.head, Stored(t)) + Text(t.head.descriptor) + Body(t) == before + Emit(t)
  {
    Regrouped(before, Fields(t.head, Stored(t)), Text(t.head.descriptor), Body(t));
  }

  lemma Regrouped(o: seq<Byte>, a: seq<Byte>, b: seq<Byte>, c: seq<Byte>)
    ensures o + a + b + c == o + (a + b + c)
  {
  }

  lemma Joined(o: seq<Byte>, a: seq<Byte>, b: seq<Byte>, c: seq<Byte>, d: seq<Byte>, e: seq<Byte>, f: seq<Byte>,
      g: seq<Byte>)
    ensures o + a + b + c + d + e + f + g == o + (a + b + c + d + e + f + g)
  {
  }

  /** The loop of `_Load` over the children of a folder, until its end is reached. */
  method LoadChildren(s: InStream, dataEnd: int, modern: bool)
    returns (status: Status, cs: seq<CChunk>, ghost ts: seq<Tree>, ghost r: set<object>)
    requires s.pos <= |s.bytes|
    modifies s
    ensures s.pos <= |s.bytes|
    ensures match ReadChildren(s.bytes, old(s.pos), dataEnd, modern, [])
      case Children(trees, next) =>
        && status == Loaded && trees == ts && |cs| == |ts| && Forest(cs, ts, r) && AllSound(ts)
        && s.pos == next && fresh(r) && s !in r
      case Failed(e) => status == Threw(e)
    decreases |s.bytes| - s.pos, 1
  {
    ghost var start := s.pos;
    cs, ts, r := [], [], {};
    while s.pos < dataEnd
      invariant start <= s.pos <= |s.bytes| && |cs| == |ts| && Forest(cs, ts, r) && AllSound(ts) && fresh(r) && s !in r
      invariant ReadChildren(s.bytes, start, dataEnd, modern, []) == ReadChildren(s.bytes, s.pos, dataEnd, modern, ts)
      decreases |s.bytes| - s.pos
    {
      var c := new CChunk.Blank();
      status := c.Load(s, modern);
      if status == AtEnd { status := Threw(NoChild); }
      if status.Threw? { return; }
      ForestSnoc(cs, ts, r, c);
      SoundSnoc(ts, c.tree);
      cs, ts, r := cs + [c], ts + [c.tree], r + c.repr;
    }
    status := Loaded;
  }

  /** The loop of `_FoldUpdateSize` over the children. */
  method UpdateAll(cs: seq<CChunk>, ghost ts: seq<Tree>, ghost r: set<object>) returns (size: Word)
    requires Forest(cs, ts, r)
    modifies r
    ensures Forest(cs, UpdatedAll(ts), r) && size == Sum(ts)
    decreases r, 1
  {
    size := 0;
    ghost var (done, rest) := ({}, r);
    ForestWithin(cs, ts, r, r);
    for i := 0 to |cs|
      invariant |ts| == |cs| && done + rest == r && done !! rest
      invariant Forest(cs[i..], ts[i..], rest)
      invariant Forest(cs[..i], UpdatedAll(ts)[..i], done)
      invariant Add(size, Sum(ts[i..])) == Sum(ts)
    {
      var c := cs[i];
      NextOfForest(cs, ts, i, rest);
      var n := c.FoldUpdateSize();
      UpdatedAllAt(ts, i);
      ForestGrows(cs, UpdatedAll(ts), i, done);
      size, done, rest := Add(size, n), done + c.repr, rest - c.repr;
    }
    assert cs[..|cs|] == cs && UpdatedAll(ts)[..|ts|] == UpdatedAll(ts);
    ForestWithin(cs, UpdatedAll(ts), done, r);
  }

  /** The loops of `_Save` and `Save` over a list of chunks. */
  method SaveAll(cs: seq<CChunk>, ghost ts: seq<Tree>, ghost r: set<object>, out: OutStream)
    requires Forest(cs, ts, r) && AllSound(ts) && out !in r
    modifies r, out
    ensures Forest(cs, UpdatedAll(ts), r) && out.bytes == old(out.bytes) + EmitAll(ts)
    decreases r, 1
  {
    ghost var (done, rest) := ({}, r);
    ForestWithin(cs, ts, r, r);
    for i := 0 to |cs|
      invariant |ts| == |cs| && done + rest == r && done !! rest
      invariant Forest(cs[i..], ts[i..], rest)
      invariant Forest(cs[..i], UpdatedAll(ts)[..i], done)
      invariant AllSound(ts[i..]) && out.bytes + EmitAll(ts[i..]) == old(out.bytes) + EmitAll(ts)
    {
      var c := cs[i];
      NextOfForest(cs, ts, i, rest);
      ghost var written := out.bytes;
      c.Save(out);
      UpdatedAllAt(ts, i);
      ForestGrows(cs, UpdatedAll(ts), i, done);
      NextEmitted(ts, i, written);
      assert Forest(cs[i + 1..], ts[i + 1..], rest - c.repr);
      done, rest := done + c.repr, rest - c.repr;
    }
    assert cs[..|cs|] == cs && UpdatedAll(ts)[..|ts|] == UpdatedAll(ts);
    assert ts[|ts|..] == [];
    ForestWithin(cs, UpdatedAll(ts), done, r);
  }

  lemma NextEmitted(ts: seq<Tree>, i: nat, written: seq<Byte>)
    requires i < |ts| && AllSound(ts[i..])
    ensures AllSound(ts[i + 1..]) && Sound(ts[i])
    ensures written + Emit(ts[i]) + EmitAll(ts[i + 1..]) == written + EmitAll(ts[i..])
  {
    assert ts[i..][0] == ts[i] && ts[i..][1..] == ts[i + 1..];
  }

  lemma {:induction false} UpdatedAllAt(ts: seq<Tree>, i: nat)
    requires i < |ts|
    ensures UpdatedAll(ts)[i] == Updated(ts[i])
    decreases i
  {
    if i > 0 { UpdatedAllAt(ts[1..], i - 1); }
  }

  class CChunkyFile {
    var header: seq<Byte>
    var version: Word
    var unknown1: Word
    var unknown2: Word
    var unknown3: Word
    var unknown4: Word
    var chunks: seq<CChunk>
    ghost var trees: seq<Tree>
    ghost var repr: set<object>

    ghost predicate Valid()
      reads this, repr
    {
      this !in repr && AllSound(trees) && |chunks| == |trees| && Forest(chunks, trees, repr)
    }

    /** The file this object stands for. */
    ghost function Value(): File
      reads this
    {
      File(header, version, unknown1, unknown2, unknown3, unknown4, trees)
    }

    constructor ()
      ensures Valid() && repr == {} && Value() == FRESH
    {
      header, version, unknown1, unknown2, unknown3, unknown4 := [], 0, 0, 0, 0, 0;
      chunks, trees, repr := [], [], {};
    }

    method AppendNew(n: seq<Byte>, k: Kind) returns (c: CChunk)
      requires Valid()
      modifies this
      ensures Valid() && fresh(c) && fresh(repr - old(repr)) && c.tree == NewTree(n, k)
      ensures chunks == old(chunks) + [c] && Value() == old(Value()).(chunks := old(trees) + [NewTree(n, k)])
    {
      c := new CChunk(n, k);
      ForestSnoc(chunks, trees, repr, c);
      SoundSnoc(trees, c.tree);
      chunks, trees, repr := chunks + [c], trees + [c.tree], repr + c.repr;
    }

    method RemoveChild(k: nat)
      requires Valid() && k < |chunks|
      modifies this
      ensures Valid() && repr == old(repr) && |old(trees)| == |old(chunks)|
      ensures chunks == old(chunks)[..k] + old(chunks)[k + 1..]
      ensures Value() == old(Value()).(chunks := old(trees)[..k] + old(trees)[k + 1..])
    {
      ForestWithin(chunks, trees, repr, repr);
      ForestRemove(chunks, trees, repr, k);
      SoundRemove(trees, k);
      chunks, trees := chunks[..k] + chunks[k + 1..], trees[..k] + trees[k + 1..];
    }

    /** An edit of a chunk below the top.  The file then stands for the edited tree, so
        `Save` writes that tree and `ChunkyBytes.SaveLoads` reads it back. */
    method EditAt(i: nat, path: seq<nat>, e: Edit)
      requires Valid() && i < |chunks| && CanEdit(trees[i], path, e)
      modifies this, repr
      ensures Valid() && chunks == old(chunks) && fresh(repr - old(repr))
      ensures Value() == old(Value()).(chunks := old(trees)[i := Edited(old(trees)[i], path, e)])
    {
      repr := EditChild(chunks, trees, repr, i, path, e);
      trees := trees[i := Edited(trees[i], path, e)];
    }

    method WritePreamble(out: OutStream)
      requires |header| == 16
      modifies out
      ensures out.bytes == old(out.bytes) + Preamble(Value())
    {
      ghost var o := out.bytes;
      out.VWrite(header);
      out.VWrite(Enc(version));
      out.VWrite(Enc(unknown1));
      out.VWrite(Enc(unknown2));
      out.VWrite(Enc(unknown3));
      out.VWrite(Enc(unknown4));
      Preceded(o, header, Enc(version), Enc(unknown1), Enc(unknown2), Enc(unknown3), Enc(unknown4));
    }

    /** `Save`: what is written is a function of the file, and the lengths of its folders
        are the only thing that changes in it. */
    method Save(out: OutStream)
      requires Valid() && |header| == 16 && out !in repr
      modifies this, repr, out
      ensures Valid() && chunks == old(chunks) && Value() == old(Value()).(chunks := UpdatedAll(old(trees)))
      ensures out.bytes == old(out.bytes) + FileBytes(old(Value()))
    {
      WritePreamble(out);
      SaveAll(chunks, trees, repr, out);
      UpdatedSoundAll(trees);
      Preceding(old(out.bytes), Preamble(Value()), EmitAll(trees));
      trees := UpdatedAll(trees);
    }

    /** The first part of `Load`. */
    method LoadPreamble(s: InStream) returns (r: Status)
      requires s.pos == 0
      modifies s, `header, `version, `unknown1, `unknown2, `unknown3, `unknown4
      ensures AgreesFile(PreambleOf(old(Value()), s.bytes), r, Value())
      ensures r == Loaded ==> s.pos == PreambleWidth(version) <= |s.bytes|
    {
      var ok, b := s.VRead(16);
      if !ok { return Threw(Truncated); }
      header := b;
      if header != MAGIC { return Threw(BadHeader); }
      ok, version := ReadWord(s);
      if !ok { return Threw(Truncated); }
      ok, unknown1 := ReadWord(s);
      if !ok { return Threw(Truncated); }
      if Modern(version) {
        ok, unknown2 := ReadWord(s);
        if !ok { return Threw(Truncated); }
        ok, unknown3 := ReadWord(s);
        if !ok { return Threw(Truncated); }
        ok, unknown4 := ReadWord(s);
        if !ok { return Threw(Truncated); }
      }
      r := Loaded;
    }

    /** `Load` from a stream that stands at its start. */
    method Load(s: InStream) returns (r: Status)
      requires Valid() && s.pos == 0 && s !in repr
      modifies this, s
      ensures Valid() && fresh(repr - old(repr))
      ensures AgreesFile(LoadFile(old(Value()), s.bytes), r, Value())
    {
      r := LoadPreamble(s);
      if r != Loaded { return; }
      ghost var g := Value();
      r := LoadChunks(s);
      LoadFileIs(old(Value()), s.bytes, g, r, trees);
    }

    /** The second part of `Load`. */
    method LoadChunks(s: InStream) returns (r: Status)
      requires Valid() && s.pos <= |s.bytes| && s !in repr
      modifies s, `chunks, `trees, `repr
      ensures Valid() && fresh(repr - old(repr))
      ensures AgreesTop(ReadTop(s.bytes, old(s.pos), Modern(version), old(trees)), r, trees)
    {
      ForestWithin(chunks, trees, repr, repr);
      r, chunks, trees, repr := LoadTop(s, Modern(version), chunks, trees, repr);
    }
  }

  lemma LoadFileIs(f: File, s: seq<Byte>, g: File, r: Status, ts: seq<Tree>)
    requires PreambleOf(f, s) == Ok(g)
    requires AgreesTop(ReadTop(s, PreambleWidth(g.version), Modern(g.version), f.chunks), r, ts)
    ensures AgreesFile(LoadFile(f, s), r, g.(chunks := ts))
  {
  }

  /** The loop of `Load`, until no further type can be read. */
  method LoadTop(s: InStream, modern: bool, chunks: seq<CChunk>, ghost trees: seq<Tree>, ghost repr: set<object>)
    returns (status: Status, cs: seq<CChunk>, ghost ts: seq<Tree>, ghost r: set<object>)
    requires s.pos <= |s.bytes| && |chunks| == |trees| && Forest(chunks, trees, repr) && AllSound(trees) && s !in repr
    modifies s
    ensures |cs| == |ts| && Forest(cs, ts, r) && AllSound(ts) && fresh(r - repr)
    ensures AgreesTop(ReadTop(s.bytes, old(s.pos), modern, trees), status, ts)
  {
    ghost var start := s.pos;
    cs, ts, r := chunks, trees, repr;
    while true
      invariant s.pos <= |s.bytes| && |cs| == |ts| && Forest(cs, ts, r) && AllSound(ts) && fresh(r - repr) && s !in r
      invariant ReadTop(s.bytes, start, modern, trees) == ReadTop(s.bytes, s.pos, modern, ts)
      decreases |s.bytes| - s.pos
    {
      var c := new CChunk.Blank();
      status := c.Load(s, modern);
      if status == AtEnd { status := Loaded; return; }
      if status.Threw? { return; }
      ForestSnoc(cs, ts, r, c);
      SoundSnoc(ts, c.tree);
      cs, ts, r := cs + [c], ts + [c.tree], r + c.repr;
    }
  }

  lemma Preceded(o: seq<Byte>, a: seq<Byte>, b: seq<Byte>, c: seq<Byte>, d: seq<Byte>, e: seq<Byte>, f: seq<Byte>)
    ensures o + a + b + c + d + e + f == o + (a + b + c + d + e + f)
  {
  }

  lemma Preceding(o: seq<Byte>, a: seq<Byte>, b: seq<Byte>)
    ensures o + a + b == o + (a + b)
  {
  }
}
