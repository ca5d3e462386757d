/**
 * The Relic Chunky container as values and bytes: what `Save` writes for a tree of chunks,
 * what `Load` makes of a stream of bytes, and how the two fit together.
 */
module ChunkyBytes {

  type Byte = x: nat | x < 256

  /** The 32-bit `unsigned long` of the program; a `long` is the same bits read with a sign. */
  type Word = x: nat | x < 0x1_0000_0000

  const W: nat := 0x1_0000_0000

  function Wrap(n: nat): Word { n % W }

  /** Addition of two words. */
  function Add(a: Word, b: Word): Word { if a + b < W then a + b else a + b - W }

  function Signed(w: Word): int { if w < 0x8000_0000 then w else w - W }

  /** `iVersion >= 3`, a comparison of signed numbers. */
  predicate Modern(version: Word) { Signed(version) >= 3 }

  // ----- Words and names as bytes -----

  /** The lowest `n` bytes of a number, the lowest first. */
  function LowBytes(v: nat, n: nat): (r: seq<Byte>)
    ensures |r| == n
  {
    if n == 0 then [] else [v % 0x100] + LowBytes(v / 0x100, n - 1)
  }

  function Value(b: seq<Byte>): nat
  {
    if b == [] then 0 else b[0] + 0x100 * Value(b[1..])
  }

  function Enc(w: Word): (r: seq<Byte>) { LowBytes(w, 4) }

  function Dec(b: seq<Byte>): Word
    requires |b| == 4
  {
    Wrap(Value(b))
  }

  lemma ValueOfLow(v: nat, n: nat, top: nat)
    requires top == (if n == 0 then 1 else if n == 1 then 0x100 else if n == 2 then 0x1_0000
        else if n == 3 then 0x100_0000 else W)
    requires n <= 4 && v < top
    ensures Value(LowBytes(v, n)) == v
  {
    if n > 0 {
      ValueOfLow(v / 0x100, n - 1, if n == 1 then 1 else if n == 2 then 0x100 else if n == 3 then 0x1_0000
          else 0x100_0000);
      assert LowBytes(v, n)[1..] == LowBytes(v / 0x100, n - 1);
    }
  }

  lemma DecEnc(w: Word)
    ensures Dec(Enc(w)) == w
  {
    ValueOfLow(w, 4, W);
  }

  /** The C string held in a buffer: everything before the first NUL. */
  function CString(b: seq<Byte>): (r: seq<Byte>)
    ensures 0 !in r && |r| <= |b|
  {
    if b == [] || b[0] == 0 then [] else [b[0]] + CString(b[1..])
  }

  lemma {:induction false} CStringOf(d: seq<Byte>)
    requires 0 !in d
    ensures CString(d + [0]) == d
  {
    if d != [] {
      assert (d + [0])[1..] == d[1..] + [0];
      CStringOf(d[1..]);
    }
  }

  const FOLD: seq<Byte> := [0x46, 0x4F, 0x4C, 0x44]
  const DATA: seq<Byte> := [0x44, 0x41, 0x54, 0x41]

  /** "Relic Chunky", CR, LF, 0x1A and the terminating NUL. */
  const MAGIC: seq<Byte> :=
    [0x52, 0x65, 0x6C, 0x69, 0x63, 0x20, 0x43, 0x68, 0x75, 0x6E, 0x6B, 0x79, 0x0D, 0x0A, 0x1A, 0]

  /** The header is the text the format is known by, with the NUL that ends it. */
  lemma MagicSpells()
    ensures |MAGIC| == 16 && 0 !in MAGIC[..15] && MAGIC[14] == 0x1A && MAGIC[15] == 0
    ensures forall i :: 0 <= i < 12 ==> MAGIC[i] as char == "Relic Chunky"[i]
    ensures forall i :: 0 <= i < 2 ==> MAGIC[12 + i] as char == "\r\n"[i]
  {
    assert MAGIC[..15] == MAGIC[..5] + MAGIC[5..10] + MAGIC[10..15];
  }

  // ----- Chunks and files -----

  datatype Kind = Folder | Data

  /** What a chunk says of itself. */
  datatype Head = Head(kind: Kind, name: seq<Byte>, descriptor: seq<Byte>, version: Word, unknown1: Word,
      unknown2: Word)

  /** One chunk with everything below it; `length` is `m_iDataLength`. */
  datatype Tree = Tree(head: Head, length: Word, data: seq<Byte>, children: seq<Tree>)

  datatype File = File(
    header: seq<Byte>, version: Word, unknown1: Word, unknown2: Word, unknown3: Word, unknown4: Word, chunks: seq<Tree>)

  /** What the class keeps of every chunk: a name of four bytes, a C string as descriptor,
      data of the recorded length, children in folders only. */
  predicate SoundHead(h: Head) { |h.name| == 4 && 0 !in h.descriptor }

  predicate Sound(t: Tree)
    decreases t
  {
    && SoundHead(t.head)
    && (if t.head.kind == Data then |t.data| == t.length && t.children == [] else t.data == [])
    && AllSound(t.children)
  }

  predicate AllSound(ts: seq<Tree>)
    decreases ts
  {
    ts == [] || (Sound(ts[0]) && AllSound(ts[1..]))
  }

  lemma {:induction false} AllSoundAt(ts: seq<Tree>)
    ensures AllSound(ts) <==> forall i :: 0 <= i < |ts| ==> Sound(ts[i])
    decreases |ts|
  {
    if ts != [] {
      AllSoundAt(ts[1..]);
      assert forall i :: 1 <= i < |ts| ==> ts[i] == ts[1..][i - 1];
    }
  }

  // ----- Lengths: _FoldUpdateSize -----

  /** The `m_iDataLength` that `_FoldUpdateSize` leaves in a chunk. */
  function Stored(t: Tree): Word
    decreases t, 0
  {
    if t.head.kind == Folder then Sum(t.children) else t.length
  }

  /** The number it returns, in 32-bit arithmetic. */
  function Total(t: Tree): Word
    decreases t, 1
  {
    Add(Stored(t), Wrap(28 + |Text(t.head.descriptor)|))
  }

  function Sum(ts: seq<Tree>): Word
    decreases ts
  {
    if ts == [] then 0 else Add(Total(ts[0]), Sum(ts[1..]))
  }

  /** A tree after `_FoldUpdateSize`. */
  function Updated(t: Tree): Tree
    decreases t
  {
    t.(length := Stored(t), children := UpdatedAll(t.children))
  }

  function UpdatedAll(ts: seq<Tree>): (r: seq<Tree>)
    ensures |r| == |ts|
    decreases ts
  {
    if ts == [] then [] else [Updated(ts[0])] + UpdatedAll(ts[1..])
  }

  // ----- Writing: _Save and Save -----

  /** A descriptor is written with its NUL, an empty one not at all. */
  function Text(descriptor: seq<Byte>): seq<Byte> { if descriptor == [] then [] else descriptor + [0] }

  function Tag(kind: Kind): seq<Byte> { if kind == Folder then FOLD else DATA }

  function Fields(h: Head, length: Word): (r: seq<Byte>)
    requires |h.name| == 4
    ensures |r| == 28
  {
    Tag(h.kind) + h.name + Enc(h.version) + Enc(length) + Enc(Wrap(|Text(h.descriptor)|)) + Enc(h.unknown1) +
        Enc(h.unknown2)
  }

  function Emit(t: Tree): seq<Byte>
    requires Sound(t)
    decreases t, 1
  {
    Fields(t.head, Stored(t)) + Text(t.head.descriptor) + Body(t)
  }

  function Body(t: Tree): seq<Byte>
    requires Sound(t)
    decreases t, 0
  {
    if t.head.kind == Folder then EmitAll(t.children) else t.data
  }

  function EmitAll(ts: seq<Tree>): seq<Byte>
    requires AllSound(ts)
    decreases ts
  {
    if ts == [] then [] else Emit(ts[0]) + EmitAll(ts[1..])
  }

  function Preamble(f: File): (r: seq<Byte>)
    requires |f.header| == 16
    ensures |r| == 36
  {
    f.header + Enc(f.version) + Enc(f.unknown1) + Enc(f.unknown2) + Enc(f.unknown3) + Enc(f.unknown4)
  }

  function FileBytes(f: File): seq<Byte>
    requires |f.header| == 16 && AllSound(f.chunks)
  {
    Preamble(f) + EmitAll(f.chunks)
  }

  // ----- Reading: _Load and Load -----

  datatype Error = BadHeader | BadType | Truncated | NoChild

  /** `_Load` returns false when not even a type can be read, and throws otherwise. */
  datatype Outcome = Got(tree: Tree, next: nat) | Ended | Broken(error: Error)

  datatype Children = Children(trees: seq<Tree>, next: nat) | Failed(error: Error)

  datatype Result = Ok(file: File) | Err(error: Error)

  function WordAt(s: seq<Byte>, pos: nat): Word
    requires pos + 4 <= |s|
  {
    Dec(s[pos..pos + 4])
  }

  /** The width of the fields after the type: two more words from version 3 on. */
  function FieldWidth(modern: bool): nat { if modern then 24 else 16 }

  /** The chunk whose fields and descriptor stand at `pos`. */
  function HeadAt(s: seq<Byte>, pos: nat, modern: bool): Head
    requires pos + 4 + FieldWidth(modern) + (if pos + 20 <= |s| then WordAt(s, pos + 16) else 0) <= |s|
  {
    var p := pos + 4 + FieldWidth(modern);
    Head(
      if s[pos..pos + 4] == FOLD then Folder else Data,
      s[pos + 4..pos + 8], CString(s[p..p + WordAt(s, pos + 16)]), WordAt(s, pos + 8),
      if modern then WordAt(s, pos + 20) else 0, if modern then WordAt(s, pos + 24) else 0)
  }

  function ReadChunk(s: seq<Byte>, pos: nat, modern: bool): (r: Outcome)
    requires pos <= |s|
    ensures r.Got? ==> pos + 20 <= r.next <= |s|
    decreases |s| - pos, 0
  {
    if pos + 4 > |s| then Ended
    else if s[pos..pos + 4] != FOLD && s[pos..pos + 4] != DATA then Broken(BadType)
    else
      var p := pos + 4 + FieldWidth(modern);
      if p > |s| || p + WordAt(s, pos + 16) > |s| then Broken(Truncated)
      else ReadBody(s, p + WordAt(s, pos + 16), HeadAt(s, pos, modern), WordAt(s, pos + 12), modern)
  }

  /** Children or data, behind the descriptor. */
  function ReadBody(s: seq<Byte>, b: nat, head: Head, length: Word, modern: bool): (r: Outcome)
    requires b <= |s|
    ensures !r.Ended? && (r.Got? ==> b <= r.next <= |s|)
    decreases |s| - b, 2
  {
    if head.kind == Folder then
      match ReadChildren(s, b, b + Signed(length), modern, [])
      case Children(trees, next) => Got(Tree(head, length, [], trees), next)
      case Failed(e) => Broken(e)
    else if b + length > |s| then Broken(Truncated)
    else Got(Tree(head, length, s[b..b + length], []), b + length)
  }

  /** The loop over the children: until the position has reached `end`. */
  function ReadChildren(s: seq<Byte>, pos: nat, end: int, modern: bool, acc: seq<Tree>): (r: Children)
    requires pos <= |s|
    ensures r.Children? ==> pos <= r.next <= |s|
    decreases |s| - pos, 1
  {
    if pos >= end then Children(acc, pos)
    else
      match ReadChunk(s, pos, modern)
      case Got(t, next) => ReadChildren(s, next, end, modern, acc + [t])
      case Ended => Failed(NoChild)
      case Broken(e) => Failed(e)
  }

  /** The loop over the chunks of a file: until no further type can be read. */
  function ReadTop(s: seq<Byte>, pos: nat, modern: bool, acc: seq<Tree>): Children
    requires pos <= |s|
    decreases |s| - pos
  {
    match ReadChunk(s, pos, modern)
    case Got(t, next) => ReadTop(s, next, modern, acc + [t])
    case Ended => Children(acc, pos)
    case Broken(e) => Failed(e)
  }

  /** A newly made file object. */
  const FRESH: File := File([], 0, 0, 0, 0, 0, [])

  function PreambleWidth(version: Word): nat { if Modern(version) then 36 else 24 }

  /** The start of `Load`: a header of an old version leaves the last three words as they were. */
  function PreambleOf(f: File, s: seq<Byte>): (r: Result)
    ensures r.Ok? ==> PreambleWidth(r.file.version) <= |s|
  {
    if |s| < 16 then Err(Truncated)
    else if s[..16] != MAGIC then Err(BadHeader)
    else if |s| < 24 || |s| < PreambleWidth(WordAt(s, 16)) then Err(Truncated)
    else if !Modern(WordAt(s, 16)) then Ok(f.(header := MAGIC, version := WordAt(s, 16), unknown1 := WordAt(s, 20)))
    else Ok(File(MAGIC, WordAt(s, 16), WordAt(s, 20), WordAt(s, 24), WordAt(s, 28), WordAt(s, 32), f.chunks))
  }

  /** `Load` into an object: chunks it already has stay in front. */
  function LoadFile(f: File, s: seq<Byte>): Result
  {
    match PreambleOf(f, s)
    case Err(e) => Err(e)
    case Ok(g) =>
      match ReadTop(s, PreambleWidth(g.version), Modern(g.version), f.chunks)
      case Failed(e) => Err(e)
      case Children(trees, _) => Ok(g.(chunks := trees))
  }

  // ----- Updating lengths changes no byte and is done once and for all -----

  lemma {:induction false} UpdatedStored(t: Tree)
    ensures Stored(Updated(t)) == Stored(t) && Total(Updated(t)) == Total(t)
    decreases t, 1
  {
    UpdatedSum(t.children);
  }

  lemma {:induction false} UpdatedSum(ts: seq<Tree>)
    ensures Sum(UpdatedAll(ts)) == Sum(ts)
    decreases ts, 0
  {
    if ts != [] {
      UpdatedStored(ts[0]);
      UpdatedSum(ts[1..]);
      assert UpdatedAll(ts)[1..] == UpdatedAll(ts[1..]);
    }
  }

  /** Repeated calls change nothing. */
  lemma {:induction false} UpdatedTwice(t: Tree)
    ensures Updated(Updated(t)) == Updated(t)
    decreases t, 1
  {
    UpdatedStored(t);
    UpdatedTwiceAll(t.children);
  }

  lemma {:induction false} UpdatedTwiceAll(ts: seq<Tree>)
    ensures UpdatedAll(UpdatedAll(ts)) == UpdatedAll(ts)
    decreases ts, 0
  {
    if ts != [] {
      UpdatedTwice(ts[0]);
      UpdatedTwiceAll(ts[1..]);
      assert UpdatedAll(ts)[1..] == UpdatedAll(ts[1..]);
    }
  }

  lemma {:induction false} UpdatedSound(t: Tree)
    requires Sound(t)
    ensures Sound(Updated(t))
    decreases t, 1
  {
    UpdatedSoundAll(t.children);
  }

  lemma {:induction false} UpdatedSoundAll(ts: seq<Tree>)
    requires AllSound(ts)
    ensures AllSound(UpdatedAll(ts))
    decreases ts, 0
  {
    if ts != [] {
      UpdatedSound(ts[0]);
      UpdatedSoundAll(ts[1..]);
      assert UpdatedAll(ts)[1..] == UpdatedAll(ts[1..]);
    }
  }

  /** What is written does not depend on the lengths found in the folders. */
  lemma {:induction false} UpdatedEmit(t: Tree)
    requires Sound(t)
    ensures Sound(Updated(t)) && Emit(Updated(t)) == Emit(t)
    decreases t, 1
  {
    UpdatedSound(t);
    UpdatedStored(t);
    if t.head.kind == Folder { UpdatedEmitAll(t.children); }
  }

  lemma {:induction false} UpdatedEmitAll(ts: seq<Tree>)
    requires AllSound(ts)
    ensures AllSound(UpdatedAll(ts)) && EmitAll(UpdatedAll(ts)) == EmitAll(ts)
    decreases ts, 0
  {
    if ts != [] {
      UpdatedEmit(ts[0]);
      UpdatedEmitAll(ts[1..]);
      assert UpdatedAll(ts)[1..] == UpdatedAll(ts[1..]);
    }
  }

  // ----- Lengths are right at every level -----

  /** `_FoldUpdateSize` returns the number of bytes `_Save` emits, and the length it stores
      is that of the body alone. */
  lemma {:induction false} LengthsExact(t: Tree)
    requires Sound(t) && |Emit(t)| < W
    ensures Total(t) == |Emit(t)| && Stored(t) == |Body(t)|
    decreases t, 1
  {
    if t.head.kind == Folder { SumExact(t.children); }
  }

  lemma {:induction false} SumExact(ts: seq<Tree>)
    requires AllSound(ts) && |EmitAll(ts)| < W
    ensures Sum(ts) == |EmitAll(ts)|
    decreases ts, 0
  {
    if ts != [] {
      LengthsExact(ts[0]);
      SumExact(ts[1..]);
    }
  }

  // ----- The two layouts -----

  /** The fields of a chunk in a file; the last two words are there only from version 3 on. */
  function Front(h: Head, length: Word, modern: bool): (r: seq<Byte>)
    requires |h.name| == 4
    ensures |r| == if modern then 28 else 20
  {
    Tag(h.kind) + h.name + Enc(h.version) + Enc(length) + Enc(Wrap(|Text(h.descriptor)|)) +
        (if modern then Enc(h.unknown1) + Enc(h.unknown2) else [])
  }

  /** A chunk as it stands in a file: its fields, with the length of its body as laid out
      there, its descriptor, its body. */
  function Laid(t: Tree, modern: bool): seq<Byte>
    requires Sound(t)
    decreases t, 1
  {
    Front(t.head, Wrap(|LaidBody(t, modern)|), modern) + Text(t.head.descriptor) + LaidBody(t, modern)
  }

  function LaidBody(t: Tree, modern: bool): seq<Byte>
    requires Sound(t)
    decreases t, 0
  {
    if t.head.kind == Folder then LaidAll(t.children, modern) else t.data
  }

  function LaidAll(ts: seq<Tree>, modern: bool): seq<Byte>
    requires AllSound(ts)
    decreases ts
  {
    if ts == [] then [] else Laid(ts[0], modern) + LaidAll(ts[1..], modern)
  }

  /** A whole file of its version. */
  function LaidFile(f: File): seq<Byte>
    requires |f.header| == 16 && AllSound(f.chunks)
  {
    f.header + Enc(f.version) + Enc(f.unknown1) +
        (if Modern(f.version) then Enc(f.unknown2) + Enc(f.unknown3) + Enc(f.unknown4) else []) +
        LaidAll(f.chunks, Modern(f.version))
  }

  /** What a layout keeps of a chunk: an older one lacks the two words, and the length is
      that of the body. */
  function Kept(t: Tree, modern: bool): Tree
    requires Sound(t)
    decreases t
  {
    var h := if modern then t.head else t.head.(unknown1 := 0, unknown2 := 0);
    Tree(h, Wrap(|LaidBody(t, modern)|), t.data, KeptAll(t.children, modern))
  }

  function KeptAll(ts: seq<Tree>, modern: bool): (r: seq<Tree>)
    requires AllSound(ts)
    ensures |r| == |ts|
    decreases ts
  {
    if ts == [] then [] else [Kept(ts[0], modern)] + KeptAll(ts[1..], modern)
  }

  function KeptFile(f: File): File
    requires AllSound(f.chunks)
  {
    var g := if Modern(f.version) then f else f.(unknown2 := 0, unknown3 := 0, unknown4 := 0);
    g.(chunks := KeptAll(f.chunks, Modern(f.version)))
  }

  lemma FrontIs(h: Head, length: Word)
    requires |h.name| == 4
    ensures Front(h, length, true) == Fields(h, length)
  {
    var f5 := Tag(h.kind) + h.name + Enc(h.version) + Enc(length) + Enc(Wrap(|Text(h.descriptor)|));
    assert f5 + (Enc(h.unknown1) + Enc(h.unknown2)) == f5 + Enc(h.unknown1) + Enc(h.unknown2);
  }

  /** What `Save` writes is the layout of version 3, and `_FoldUpdateSize` finds its lengths. */
  lemma {:induction false} EmitIsLaid(t: Tree)
    requires Sound(t) && |Emit(t)| < W
    ensures Emit(t) == Laid(t, true) && Updated(t) == Kept(t, true)
    decreases t, 1
  {
    LengthsExact(t);
    if t.head.kind == Folder { EmitAllIsLaid(t.children); }
    OneIsLaid(t);
  }

  lemma {:induction false} OneIsLaid(t: Tree)
    requires Sound(t) && Stored(t) == |Body(t)|
    requires t.head.kind == Folder ==>
      EmitAll(t.children) == LaidAll(t.children, true) && UpdatedAll(t.children) == KeptAll(t.children, true)
    ensures Emit(t) == Laid(t, true) && Updated(t) == Kept(t, true)
  {
    var (b, length) := (LaidBody(t, true), Stored(t));
    assert Body(t) == b;
    WrapSmall(|b|);
    FrontIs(t.head, length);
    assert Laid(t, true) == Front(t.head, length, true) + Text(t.head.descriptor) + b;
    assert Emit(t) == Fields(t.head, length) + Text(t.head.descriptor) + b;
    if t.head.kind == Data { assert UpdatedAll(t.children) == [] && KeptAll(t.children, true) == []; }
    assert Kept(t, true) == Tree(t.head, length, t.data, KeptAll(t.children, true));
  }

  lemma WrapSmall(n: nat)
    requires n < W
    ensures Wrap(n) == n
  {
  }

  lemma {:induction false} EmitAllIsLaid(ts: seq<Tree>)
    requires AllSound(ts) && |EmitAll(ts)| < W
    ensures EmitAll(ts) == LaidAll(ts, true) && UpdatedAll(ts) == KeptAll(ts, true)
    decreases ts, 0
  {
    if ts != [] {
      EmitIsLaid(ts[0]);
      EmitAllIsLaid(ts[1..]);
    }
  }

  // ----- Reading back what stands in a file -----

  /** The bytes `w` stand in `s` at `pos`. */
  predicate At(s: seq<Byte>, pos: nat, w: seq<Byte>) { pos + |w| <= |s| && s[pos..pos + |w|] == w }

  lemma AtSplit(s: seq<Byte>, pos: nat, a: seq<Byte>, b: seq<Byte>)
    requires At(s, pos, a + b)
    ensures At(s, pos, a) && At(s, pos + |a|, b)
  {
    assert s[pos..pos + |a|] == (a + b)[..|a|] == a;
    assert s[pos + |a|..pos + |a| + |b|] == (a + b)[|a|..] == b;
  }

  lemma AtWord(s: seq<Byte>, pos: nat, w: Word)
    requires At(s, pos, Enc(w))
    ensures WordAt(s, pos) == w
  {
    DecEnc(w);
  }

  /** The fields of a chunk stand in `s` at `pos`, each where the reader looks for it. */
  predicate FieldsAt(s: seq<Byte>, pos: nat, h: Head, length: Word, modern: bool)
  {
    && pos + 20 <= |s| && s[pos..pos + 4] == Tag(h.kind) && s[pos + 4..pos + 8] == h.name
    && WordAt(s, pos + 8) == h.version && WordAt(s, pos + 12) == length
    && WordAt(s, pos + 16) == Wrap(|Text(h.descriptor)|)
    && (modern ==> pos + 28 <= |s| && WordAt(s, pos + 20) == h.unknown1 && WordAt(s, pos + 24) == h.unknown2)
  }

  lemma AtFields(s: seq<Byte>, pos: nat, h: Head, length: Word, modern: bool)
    requires |h.name| == 4 && At(s, pos, Front(h, length, modern))
    ensures FieldsAt(s, pos, h, length, modern)
  {
    var w := Wrap(|Text(h.descriptor)|);
    var f4 := Tag(h.kind) + h.name + Enc(h.version) + Enc(length);
    AtSplit(s, pos, f4 + Enc(w), if modern then Enc(h.unknown1) + Enc(h.unknown2) else []);
    AtSplit(s, pos, f4, Enc(w));
    AtSplit(s, pos, Tag(h.kind) + h.name + Enc(h.version), Enc(length));
    AtSplit(s, pos, Tag(h.kind) + h.name, Enc(h.version));
    AtSplit(s, pos, Tag(h.kind), h.name);
    AtWord(s, pos + 8, h.version);
    AtWord(s, pos + 12, length);
    AtWord(s, pos + 16, w);
    if modern {
      AtSplit(s, pos + 20, Enc(h.unknown1), Enc(h.unknown2));
      AtWord(s, pos + 20, h.unknown1);
      AtWord(s, pos + 24, h.unknown2);
    }
  }

  lemma TextReads(s: seq<Byte>, pos: nat, d: seq<Byte>)
    requires 0 !in d && At(s, pos, Text(d))
    ensures CString(s[pos..pos + |Text(d)|]) == d
  {
    if d != [] { CStringOf(d); }
  }

  lemma TagsDiffer()
    ensures FOLD != DATA
  {
    assert FOLD[0] != DATA[0];
  }

  /** The reader makes the head of the fields and the descriptor. */
  lemma HeadIs(s: seq<Byte>, pos: nat, h: Head, length: Word, w: nat, modern: bool)
    requires SoundHead(h) && w == |Text(h.descriptor)| && w < W && FieldsAt(s, pos, h, length, modern)
    requires At(s, pos + (if modern then 28 else 20), Text(h.descriptor))
    ensures pos + (if modern then 28 else 20) + w <= |s| && WordAt(s, pos + 16) == w
    ensures HeadAt(s, pos, modern) == if modern then h else h.(unknown1 := 0, unknown2 := 0)
  {
    TextReads(s, pos + (if modern then 28 else 20), h.descriptor);
    TagsDiffer();
  }

  /** Where it goes on behind them. */
  lemma HeadReads(s: seq<Byte>, pos: nat, h: Head, length: Word, w: nat, modern: bool)
    requires SoundHead(h) && w == |Text(h.descriptor)| && w < W && At(s, pos, Front(h, length, modern))
    requires At(s, pos + (if modern then 28 else 20), Text(h.descriptor))
    ensures var b := pos + (if modern then 28 else 20) + w;
      && b <= |s|
      && ReadChunk(s, pos, modern) ==
           ReadBody(s, b, if modern then h else h.(unknown1 := 0, unknown2 := 0), length, modern)
  {
    AtFields(s, pos, h, length, modern);
    HeadIs(s, pos, h, length, w, modern);
  }

  /** Reading the bytes of one chunk, in either layout, gives what the layout keeps of it, and
      stops exactly at their end. */
  lemma {:induction false} ChunkReads(s: seq<Byte>, pos: nat, t: Tree, modern: bool)
    requires Sound(t) && |Laid(t, modern)| < 0x8000_0000 && At(s, pos, Laid(t, modern))
    ensures ReadChunk(s, pos, modern) == Got(Kept(t, modern), pos + |Laid(t, modern)|)
    decreases t, 2
  {
    var (w, length) := (|Text(t.head.descriptor)|, Wrap(|LaidBody(t, modern)|));
    PartsAt(s, pos, t, length, modern);
    HeadReads(s, pos, t.head, length, w, modern);
    BodyReads(s, pos + (if modern then 28 else 20) + w, t, modern);
  }

  lemma {:induction false} PartsAt(s: seq<Byte>, pos: nat, t: Tree, length: Word, modern: bool)
    requires Sound(t) && At(s, pos, Laid(t, modern)) && length == Wrap(|LaidBody(t, modern)|)
    ensures var (n, w) := (if modern then 28 else 20, |Text(t.head.descriptor)|);
      && At(s, pos, Front(t.head, length, modern)) && At(s, pos + n, Text(t.head.descriptor))
      && At(s, pos + n + w, LaidBody(t, modern)) && |Laid(t, modern)| == n + w + |LaidBody(t, modern)|
  {
    AtSplit(s, pos, Front(t.head, length, modern) + Text(t.head.descriptor), LaidBody(t, modern));
    AtSplit(s, pos, Front(t.head, length, modern), Text(t.head.descriptor));
  }

  lemma {:induction false} BodyReads(s: seq<Byte>, b: nat, t: Tree, modern: bool)
    requires Sound(t) && |Laid(t, modern)| < 0x8000_0000 && At(s, b, LaidBody(t, modern))
    ensures ReadBody(s, b, Kept(t, modern).head, Wrap(|LaidBody(t, modern)|), modern) ==
      Got(Kept(t, modern), b + |LaidBody(t, modern)|)
    decreases t, 1
  {
    if t.head.kind == Folder {
      ChildrenRead(s, b, b + |LaidBody(t, modern)|, t.children, modern, []);
      FolderRead(s, b, t, modern);
    } else {
      DataRead(s, b, t, modern);
    }
  }

  lemma {:induction false} FolderRead(s: seq<Byte>, b: nat, t: Tree, modern: bool)
    requires Sound(t) && t.head.kind == Folder && b <= |s| && |LaidBody(t, modern)| < 0x8000_0000
    requires var end := b + |LaidBody(t, modern)|;
      ReadChildren(s, b, end, modern, []) == Children([] + KeptAll(t.children, modern), end)
    ensures ReadBody(s, b, Kept(t, modern).head, Wrap(|LaidBody(t, modern)|), modern) ==
      Got(Kept(t, modern), b + |LaidBody(t, modern)|)
  {
    assert [] + KeptAll(t.children, modern) == KeptAll(t.children, modern);
    assert Signed(Wrap(|LaidBody(t, modern)|)) == |LaidBody(t, modern)|;
  }

  lemma {:induction false} DataRead(s: seq<Byte>, b: nat, t: Tree, modern: bool)
    requires Sound(t) && t.head.kind == Data && At(s, b, t.data)
    ensures ReadBody(s, b, Kept(t, modern).head, Wrap(|t.data|), modern) == Got(Kept(t, modern), b + |t.data|)
  {
    assert LaidBody(t, modern) == t.data && KeptAll(t.children, modern) == [];
  }

  lemma ChildStep(s: seq<Byte>, pos: nat, end: int, next: nat, t: Tree, modern: bool, acc: seq<Tree>)
    requires pos <= |s| && next <= |s| && pos < end && ReadChunk(s, pos, modern) == Got(t, next)
    ensures ReadChildren(s, pos, end, modern, acc) == ReadChildren(s, next, end, modern, acc + [t])
  {
  }

  /** The children stand one after the other. */
  lemma NextChild(s: seq<Byte>, pos: nat, ts: seq<Tree>, modern: bool)
    requires ts != [] && AllSound(ts) && At(s, pos, LaidAll(ts, modern))
    ensures At(s, pos, Laid(ts[0], modern)) && At(s, pos + |Laid(ts[0], modern)|, LaidAll(ts[1..], modern))
    ensures |LaidAll(ts, modern)| == |Laid(ts[0], modern)| + |LaidAll(ts[1..], modern)| && |Laid(ts[0], modern)| >= 20
  {
    AtSplit(s, pos, Laid(ts[0], modern), LaidAll(ts[1..], modern));
  }

  lemma Appended(ts: seq<Tree>, modern: bool, acc: seq<Tree>)
    requires ts != [] && AllSound(ts)
    ensures acc + [Kept(ts[0], modern)] + KeptAll(ts[1..], modern) == acc + KeptAll(ts, modern)
  {
  }

  lemma {:induction false} ChildrenRead(s: seq<Byte>, pos: nat, end: int, ts: seq<Tree>, modern: bool, acc: seq<Tree>)
    requires AllSound(ts) && |LaidAll(ts, modern)| < 0x8000_0000 && At(s, pos, LaidAll(ts, modern))
    requires end == pos + |LaidAll(ts, modern)|
    ensures ReadChildren(s, pos, end, modern, acc) == Children(acc + KeptAll(ts, modern), end)
    decreases ts, 0
  {
    if ts == [] {
      assert acc + KeptAll(ts, modern) == acc;
    } else {
      var t := Kept(ts[0], modern);
      var next := pos + |Laid(ts[0], modern)|;
      NextChild(s, pos, ts, modern);
      ChunkReads(s, pos, ts[0], modern);
      ChildStep(s, pos, end, next, t, modern, acc);
      ChildrenRead(s, next, end, ts[1..], modern, acc + [t]);
      Appended(ts, modern, acc);
    }
  }

  lemma {:induction false} TopReads(s: seq<Byte>, pos: nat, ts: seq<Tree>, modern: bool, acc: seq<Tree>)
    requires AllSound(ts) && |LaidAll(ts, modern)| < 0x8000_0000 && At(s, pos, LaidAll(ts, modern))
    requires |s| == pos + |LaidAll(ts, modern)|
    ensures ReadTop(s, pos, modern, acc) == Children(acc + KeptAll(ts, modern), |s|)
    decreases |ts|
  {
    if ts == [] {
      assert acc + KeptAll(ts, modern) == acc;
    } else {
      var t := Kept(ts[0], modern);
      var next := pos + |Laid(ts[0], modern)|;
      NextChild(s, pos, ts, modern);
      ChunkReads(s, pos, ts[0], modern);
      TopStep(s, pos, next, t, modern, acc);
      TopReads(s, next, ts[1..], modern, acc + [t]);
      Appended(ts, modern, acc);
    }
  }

  lemma TopStep(s: seq<Byte>, pos: nat, next: nat, t: Tree, modern: bool, acc: seq<Tree>)
    requires pos <= |s| && next <= |s| && ReadChunk(s, pos, modern) == Got(t, next)
    ensures ReadTop(s, pos, modern, acc) == ReadTop(s, next, modern, acc + [t])
  {
  }

  lemma PreambleReads(f: File, rest: seq<Byte>)
    requires |f.header| == 16
    ensures var s := Preamble(f) + rest;
      && s[..16] == f.header && WordAt(s, 16) == f.version && WordAt(s, 20) == f.unknown1
      && WordAt(s, 24) == f.unknown2 && WordAt(s, 28) == f.unknown3 && WordAt(s, 32) == f.unknown4
  {
    var s := Preamble(f) + rest;
    var p3 := f.header + Enc(f.version) + Enc(f.unknown1) + Enc(f.unknown2);
    assert At(s, 0, Preamble(f));
    AtSplit(s, 0, p3 + Enc(f.unknown3), Enc(f.unknown4));
    AtSplit(s, 0, p3, Enc(f.unknown3));
    AtSplit(s, 0, f.header + Enc(f.version) + Enc(f.unknown1), Enc(f.unknown2));
    AtSplit(s, 0, f.header + Enc(f.version), Enc(f.unknown1));
    AtSplit(s, 0, f.header, Enc(f.version));
    AtWord(s, 16, f.version);
    AtWord(s, 20, f.unknown1);
    AtWord(s, 24, f.unknown2);
    AtWord(s, 28, f.unknown3);
    AtWord(s, 32, f.unknown4);
  }

  lemma OldPreambleReads(f: File, rest: seq<Byte>)
    requires |f.header| == 16
    ensures var s := f.header + Enc(f.version) + Enc(f.unknown1) + rest;
      s[..16] == f.header && WordAt(s, 16) == f.version && WordAt(s, 20) == f.unknown1
  {
    var s := f.header + Enc(f.version) + Enc(f.unknown1) + rest;
    assert At(s, 0, f.header + Enc(f.version) + Enc(f.unknown1));
    AtSplit(s, 0, f.header + Enc(f.version), Enc(f.unknown1));
    AtSplit(s, 0, f.header, Enc(f.version));
    AtWord(s, 16, f.version);
    AtWord(s, 20, f.unknown1);
  }

  /** The bytes of a file of version 3 or later are a full preamble and the chunks. */
  lemma ModernFile(f: File)
    requires |f.header| == 16 && AllSound(f.chunks) && Modern(f.version)
    ensures LaidFile(f) == Preamble(f) + LaidAll(f.chunks, true)
  {
    var (a, b) := (f.header + Enc(f.version) + Enc(f.unknown1), Enc(f.unknown2) + Enc(f.unknown3) + Enc(f.unknown4));
    assert a + b == Preamble(f);
  }

  /** Loading a file of any version gives what its layout keeps of it. */
  lemma LaidLoads(f: File)
    requires f.header == MAGIC && AllSound(f.chunks) && |LaidFile(f)| < 0x8000_0000
    ensures LoadFile(FRESH, LaidFile(f)) == Ok(KeptFile(f))
  {
    var (s, modern) := (LaidFile(f), Modern(f.version));
    var rest := LaidAll(f.chunks, modern);
    if modern {
      ModernFile(f);
      PreambleReads(f, rest);
    } else {
      OldPreambleReads(f, rest);
      assert s == f.header + Enc(f.version) + Enc(f.unknown1) + rest;
    }
    assert At(s, PreambleWidth(f.version), rest);
    TopReads(s, PreambleWidth(f.version), f.chunks, modern, []);
    assert [] + KeptAll(f.chunks, modern) == KeptAll(f.chunks, modern);
  }

  /** The round trip: loading what was saved gives the file again, its lengths brought up to
      date. Saving always uses the layout of version 3. */
  lemma SaveLoads(f: File)
    requires f.header == MAGIC && AllSound(f.chunks) && |FileBytes(f)| < 0x8000_0000 && Modern(f.version)
    ensures LoadFile(FRESH, FileBytes(f)) == Ok(f.(chunks := UpdatedAll(f.chunks)))
  {
    EmitAllIsLaid(f.chunks);
    ModernFile(f);
    LaidLoads(f);
  }

  lemma {:induction false} TopBehind(s: seq<Byte>, pos: nat, modern: bool, acc: seq<Tree>, more: seq<Tree>)
    requires pos <= |s|
    ensures ReadTop(s, pos, modern, acc + more) ==
      match ReadTop(s, pos, modern, more) case Children(ts, n) => Children(acc + ts, n) case Failed(e) => Failed(e)
    decreases |s| - pos
  {
    match ReadChunk(s, pos, modern)
    case Got(t, next) =>
      assert (acc + more) + [t] == acc + (more + [t]);
      TopBehind(s, next, modern, acc, more + [t]);
    case Ended =>
    case Broken(_) =>
  }

  /** Loading into an object that holds something already: the same streams are accepted, the
      chunks read come behind those it has, and a file of an old version leaves its last
      three words as they were. */
  lemma LoadsBehind(f: File, s: seq<Byte>)
    ensures match LoadFile(FRESH, s)
      case Err(e) => LoadFile(f, s) == Err(e)
      case Ok(g) =>
        LoadFile(f, s) == Ok(
          (if Modern(g.version) then g
           else g.(unknown2 := f.unknown2, unknown3 := f.unknown3, unknown4 := f.unknown4)).
              (chunks := f.chunks + g.chunks))
  {
    match PreambleOf(FRESH, s)
    case Err(_) =>
    case Ok(g) =>
      assert f.chunks + [] == f.chunks;
      TopBehind(s, PreambleWidth(g.version), Modern(g.version), f.chunks, []);
  }

  // ----- Older files -----

  predicate IsTag(b: seq<Byte>) { b == FOLD || b == DATA }

  /** A folder whose end lies beyond the stream is never finished. */
  lemma {:induction false} NeverEnds(s: seq<Byte>, pos: nat, end: int, modern: bool, acc: seq<Tree>)
    requires pos <= |s| < end
    ensures ReadChildren(s, pos, end, modern, acc).Failed?
    decreases |s| - pos
  {
    match ReadChunk(s, pos, modern)
    case Got(t, next) => NeverEnds(s, next, end, modern, acc + [t]);
    case Ended =>
    case Broken(_) =>
  }

  lemma ValueOfFour(a: Byte, b: Byte, c: Byte, d: Byte)
    ensures Value([a, b, c, d]) == a + 0x100 * b + 0x1_0000 * c + 0x100_0000 * d
  {
    assert [a, b, c, d][1..] == [b, c, d] && [b, c, d][1..] == [c, d] && [c, d][1..] == [d] && [d][1..] == [];
    assert Value([]) == 0;
    assert Value([d]) == d + 0x100 * Value([d][1..]);
    assert Value([c, d]) == c + 0x100 * Value([c, d][1..]);
    assert Value([b, c, d]) == b + 0x100 * Value([b, c, d][1..]);
  }

  lemma TagValues()
    ensures Dec(FOLD) == 0x444C_4F46 && Dec(DATA) == 0x4154_4144
  {
    ValueOfFour(0x46, 0x4F, 0x4C, 0x44);
    ValueOfFour(0x44, 0x41, 0x54, 0x41);
  }

  /** Where the length of a chunk is read from the type of another, the chunk can not be read
      from a stream below 1 GB. */
  lemma TagAsLength(s: seq<Byte>, pos: nat)
    requires pos + 16 <= |s| < 0x4000_0000 && IsTag(s[pos + 12..pos + 16])
    ensures !ReadChunk(s, pos, false).Got? && !ReadChunk(s, pos, false).Ended?
  {
    TagValues();
    var length := WordAt(s, pos + 12);
    assert length > 0x4000_0000 && Signed(length) == length;
    if IsTag(s[pos..pos + 4]) && pos + 20 <= |s| && pos + 20 + WordAt(s, pos + 16) <= |s| {
      var b := pos + 20 + WordAt(s, pos + 16);
      if HeadAt(s, pos, false).kind == Folder { NeverEnds(s, b, b + Signed(length), false, []); }
    }
  }

  lemma FirstTag(f: File)
    requires |f.header| == 16 && AllSound(f.chunks) && f.chunks != []
    ensures |FileBytes(f)| >= 40 && FileBytes(f)[36..40] == Tag(f.chunks[0].head.kind)
  {
    var (p, t) := (Preamble(f), f.chunks[0]);
    var e := EmitAll(f.chunks);
    assert Emit(t) == Fields(t.head, Stored(t)) + Text(t.head.descriptor) + Body(t);
    assert e == Emit(t) + EmitAll(f.chunks[1..]);
    assert e[..4] == Emit(t)[..4] == Fields(t.head, Stored(t))[..4] == Tag(t.head.kind);
    assert (p + e)[36..40] == e[..4];
  }

  /** Of an older file that was saved, the next load looks for the type of the first chunk
      where the third word stands.  It refuses that type unless the word spells one; and if it
      does, the type of the first chunk is taken for a length, so a file below 1 GB is
      refused all the same. */
  lemma OldSaveFails(f: File)
    requires f.header == MAGIC && AllSound(f.chunks) && !Modern(f.version)
    ensures !IsTag(FileBytes(f)[24..28]) ==> LoadFile(FRESH, FileBytes(f)) == Err(BadType)
    ensures WordAt(FileBytes(f), 24) == f.unknown2
    ensures |FileBytes(f)| < 0x4000_0000 ==> LoadFile(FRESH, FileBytes(f)).Err?
  {
    var s := FileBytes(f);
    PreambleReads(f, EmitAll(f.chunks));
    assert PreambleOf(FRESH, s).Ok?;
    if IsTag(s[24..28]) && |s| < 0x4000_0000 {
      if f.chunks == [] {
        assert |s| == 36;
        assert ReadChunk(s, 24, false) == Broken(Truncated);
      } else {
        FirstTag(f);
        TagAsLength(s, 24);
      }
    }
  }

  /** The third word of an object that was new when it loaded the file is zero. */
  lemma ZeroIsNoTag(s: seq<Byte>)
    requires |s| >= 28 && WordAt(s, 24) == 0
    ensures !IsTag(s[24..28])
  {
    TagValues();
  }

  // ----- What was loaded can be saved -----

  lemma {:induction false} ReadSound(s: seq<Byte>, pos: nat, modern: bool)
    requires pos <= |s|
    ensures ReadChunk(s, pos, modern).Got? ==> Sound(ReadChunk(s, pos, modern).tree)
    decreases |s| - pos, 0
  {
    if ReadChunk(s, pos, modern).Got? {
      var b := pos + 4 + FieldWidth(modern) + WordAt(s, pos + 16);
      ChildrenSound(s, b, b + Signed(WordAt(s, pos + 12)), modern, []);
    }
  }

  lemma {:induction false} SoundSnoc(ts: seq<Tree>, t: Tree)
    requires AllSound(ts) && Sound(t)
    ensures AllSound(ts + [t])
    decreases |ts|
  {
    if ts != [] {
      SoundSnoc(ts[1..], t);
      assert (ts + [t])[1..] == ts[1..] + [t];
    }
  }

  lemma {:induction false} ChildrenSound(s: seq<Byte>, pos: nat, end: int, modern: bool, acc: seq<Tree>)
    requires pos <= |s| && AllSound(acc)
    ensures var r := ReadChildren(s, pos, end, modern, acc); r.Children? ==> AllSound(r.trees)
    decreases |s| - pos, 1
  {
    if pos < end {
      ReadSound(s, pos, modern);
      match ReadChunk(s, pos, modern)
      case Got(t, next) =>
        SoundSnoc(acc, t);
        ChildrenSound(s, next, end, modern, acc + [t]);
      case Ended =>
      case Broken(_) =>
    }
  }

  lemma {:induction false} TopSound(s: seq<Byte>, pos: nat, modern: bool, acc: seq<Tree>)
    requires pos <= |s| && AllSound(acc)
    ensures var r := ReadTop(s, pos, modern, acc); r.Children? ==> AllSound(r.trees)
    decreases |s| - pos
  {
    ReadSound(s, pos, modern);
    match ReadChunk(s, pos, modern)
    case Got(t, next) =>
      SoundSnoc(acc, t);
      TopSound(s, next, modern, acc + [t]);
    case Ended =>
    case Broken(_) =>
  }

  /** Any stream a new object accepts, saved again, can be loaded again if and only if it is
      of version 3 or later; what comes back then is the same file with its lengths brought up
      to date, and saving that writes the same bytes. */
  lemma LoadSaveLoad(s: seq<Byte>)
    requires LoadFile(FRESH, s).Ok?
    ensures var f := LoadFile(FRESH, s).file;
      && f.header == MAGIC && AllSound(f.chunks)
      && (|FileBytes(f)| < 0x8000_0000 ==> (LoadFile(FRESH, FileBytes(f)).Ok? <==> Modern(f.version)))
      && (|FileBytes(f)| < 0x8000_0000 && Modern(f.version) ==>
            var g := LoadFile(FRESH, FileBytes(f)).file;
            g == f.(chunks := UpdatedAll(f.chunks)) && AllSound(g.chunks) && FileBytes(g) == FileBytes(f))
  {
    var f := LoadFile(FRESH, s).file;
    var modern := Modern(f.version);
    TopSound(s, if modern then 36 else 24, modern, []);
    if |FileBytes(f)| < 0x8000_0000 {
      if modern {
        SaveLoads(f);
        UpdatedEmitAll(f.chunks);
      } else {
        OldSaveFails(f);
        ZeroIsNoTag(FileBytes(f));
      }
    }
  }
}
