/** CLuaFile2 as an object: the shared tables, the loaded scripts and the stream being
    written, with the methods that change them; and the reload theorem on saved text. */
module LuaScript {
  import opened LuaHeap
  import opened LuaStores
  import opened LuaRuns
  import opened LuaSave
  import opened LuaText
  import opened LuaWritten
  import opened Options

  // ----- Statements as lines -----

  function StmtOf(op: Op): Stmt
    requires op.Put? || op.Attach?
  {
    match op
    case Put(p, k, v) => Assign(p + [k], Const(v))
    case Attach(p, k, fn, ref) => Assign(p + [k], Call(fn, ref))
  }

  /** The statement a line runs, when it assigns below `GameData`. */
  function OpOf(l: Stmt): Option<Op> {
    if l.path == [] then None else
    var (p, k) := (l.path[..|l.path| - 1], l.path[|l.path| - 1]);
    match l.rhs
    case Const(v) => Some(Put(p, k, v))
    case Call(fn, ref) => Some(Attach(p, k, fn, ref))
  }

  ghost predicate Stores(ops: seq<Op>) {
    forall i :: 0 <= i < |ops| ==> ops[i].Put? || ops[i].Attach?
  }

  function StmtsOf(ops: seq<Op>): (ls: seq<Stmt>)
    requires forall i :: 0 <= i < |ops| ==> ops[i].Put? || ops[i].Attach?
    ensures |ls| == |ops| && forall i :: 0 <= i < |ls| ==> ls[i] == StmtOf(ops[i])
  {
    if ops == [] then [] else [StmtOf(ops[0])] + StmtsOf(ops[1..])
  }

  function OpsOf(ls: seq<Stmt>): Option<seq<Op>> {
    if ls == [] then Some([]) else
    match OpOf(ls[0])
    case None => None
    case Some(op) =>
      match OpsOf(ls[1..])
      case None => None
      case Some(ops) => Some([op] + ops)
  }

  lemma OpOfStmt(op: Op)
    requires op.Put? || op.Attach?
    ensures OpOf(StmtOf(op)) == Some(op)
  {
    assert (op.p + [op.k])[..|op.p|] == op.p;
  }

  lemma {:induction false} OpsOfLines(ops: seq<Op>)
    requires Stores(ops)
    ensures OpsOf(StmtsOf(ops)) == Some(ops)
    decreases |ops|
  {
    if ops != [] {
      OpsOfLines(ops[1..]);
      OpOfStmt(ops[0]);
      assert StmtsOf(ops)[0] == StmtOf(ops[0]) && StmtsOf(ops)[1..] == StmtsOf(ops[1..]);
      assert [ops[0]] + ops[1..] == ops;
    }
  }

  lemma {:induction false} ProgramTextAppend(a: seq<Stmt>, b: seq<Stmt>)
    ensures ProgramText(a + b) == ProgramText(a) + ProgramText(b)
    decreases |a|
  {
    if a == [] {
      assert a + b == b;
    } else {
      assert (a + b)[1..] == a[1..] + b;
      ProgramTextAppend(a[1..], b);
      Assoc(StmtText(a[0]), ProgramText(a[1..]), ProgramText(b));
    }
  }

  lemma {:induction false} BodyStores(h: Heap, ord: Order, t: nat, prefix: seq<string>)
    requires Wf(h) && Lists(h, ord) && t < |h|
    ensures Stores(Body(h, ord, t, prefix))
    decreases |h| - t, 1, 0
  {
    assert ListsKeys(h, t, ord(t));
    LinesStore(h, ord, t, prefix, ord(t));
  }

  lemma {:induction false} LinesStore(h: Heap, ord: Order, t: nat, prefix: seq<string>, keys: seq<string>)
    requires Wf(h) && Lists(h, ord) && t < |h|
    requires forall i :: 0 <= i < |keys| ==> keys[i] in h[t].raw && !Reserved(keys[i])
    ensures Stores(Lines(h, ord, t, prefix, keys))
    decreases |h| - t, 0, |keys|
  {
    if keys != [] {
      LineStores(h, ord, t, prefix, keys[0]);
      LinesStore(h, ord, t, prefix, keys[1..]);
    }
  }

  lemma {:induction false} LineStores(h: Heap, ord: Order, t: nat, prefix: seq<string>, k: string)
    requires Wf(h) && Lists(h, ord) && t < |h| && k in h[t].raw && !Reserved(k)
    ensures Stores(Line(h, ord, t, prefix, k))
    decreases |h| - t, 0, 0
  {
    if h[t].raw[k].Tab? {
      assert Holds(h, t, k, h[t].raw[k].ref);
      BodyStores(h, ord, h[t].raw[k].ref, prefix + [k]);
    }
  }

  /** The text of the statements for one table, without its inherit line. */
  function BodyText(h: Heap, ord: Order, t: nat, prefix: seq<string>): string
    requires Wf(h) && Lists(h, ord) && t < |h|
  {
    BodyStores(h, ord, t, prefix);
    ProgramText(StmtsOf(Body(h, ord, t, prefix)))
  }

  function HeaderText(h: Heap, t: nat, path: seq<string>): string
    requires Wf(h) && t < |h|
  {
    assert Linked(h, t);
    if h[t].meta && h[t].raw[FUNC].s != "" then StmtText(Assign(path, Call(h[t].raw[FUNC].s, h[t].raw[REF].s))) else ""
  }

  function TableText(h: Heap, ord: Order, t: nat, path: seq<string>, mode: nat): string
    requires Wf(h) && Lists(h, ord) && t < |h|
  {
    if mode == 0 then HeaderText(h, t, path)
    else if mode == 1 then BodyText(h, ord, t, path)
    else HeaderText(h, t, path) + BodyText(h, ord, t, path)
  }

  function EntryText(h: Heap, ord: Order, t: nat, prefix: seq<string>, k: string): string
    requires Wf(h) && Lists(h, ord) && t < |h| && k in h[t].raw && !Reserved(k)
  {
    var v := h[t].raw[k];
    if v.Tab? then
      assert Holds(h, t, k, v.ref);
      HeaderText(h, v.ref, prefix + [k]) + BodyText(h, ord, v.ref, prefix + [k])
    else StmtText(Assign(prefix + [k], Const(v)))
  }

  lemma LinesOfAppend(a: seq<Op>, b: seq<Op>)
    requires Stores(a) && Stores(b)
    ensures ProgramText(StmtsOf(a + b)) == ProgramText(StmtsOf(a)) + ProgramText(StmtsOf(b))
  {
    assert StmtsOf(a + b) == StmtsOf(a) + StmtsOf(b) by {
      assert forall i :: 0 <= i < |a| + |b| ==> StmtsOf(a + b)[i] == StmtOf((a + b)[i]);
    }
    ProgramTextAppend(StmtsOf(a), StmtsOf(b));
  }

  lemma OneLine(op: Op)
    requires op.Put? || op.Attach?
    ensures ProgramText(StmtsOf([op])) == StmtText(StmtOf(op))
  {
    assert StmtsOf([op]) == [StmtOf(op)];
    assert [StmtOf(op)][1..] == [];
  }

  lemma {:induction false} EntryTextIs(h: Heap, ord: Order, t: nat, prefix: seq<string>, k: string)
    requires Wf(h) && Lists(h, ord) && t < |h| && k in h[t].raw && !Reserved(k)
    ensures Stores(Line(h, ord, t, prefix, k))
    ensures ProgramText(StmtsOf(Line(h, ord, t, prefix, k))) == EntryText(h, ord, t, prefix, k)
  {
    LineStores(h, ord, t, prefix, k);
    var v := h[t].raw[k];
    if v.Tab? {
      assert Holds(h, t, k, v.ref) && Linked(h, v.ref);
      var head := Header(h, v.ref, prefix, k);
      BodyStores(h, ord, v.ref, prefix + [k]);
      LinesOfAppend(head, Body(h, ord, v.ref, prefix + [k]));
      if head != [] { OneLine(head[0]); assert head == [head[0]]; }
    } else {
      OneLine(Put(prefix, k, v));
    }
  }

  /** The text of the statements for some of the keys of a table. */
  function EntriesText(h: Heap, ord: Order, t: nat, prefix: seq<string>, keys: seq<string>): string
    requires Wf(h) && Lists(h, ord) && t < |h|
    requires forall i :: 0 <= i < |keys| ==> keys[i] in h[t].raw && !Reserved(keys[i])
  {
    LinesStore(h, ord, t, prefix, keys);
    ProgramText(StmtsOf(Lines(h, ord, t, prefix, keys)))
  }

  lemma EntriesTextStep(h: Heap, ord: Order, t: nat, prefix: seq<string>, keys: seq<string>)
    requires Wf(h) && Lists(h, ord) && t < |h| && keys != []
    requires forall i :: 0 <= i < |keys| ==> keys[i] in h[t].raw && !Reserved(keys[i])
    ensures EntriesText(h, ord, t, prefix, keys)
        == EntryText(h, ord, t, prefix, keys[0]) + EntriesText(h, ord, t, prefix, keys[1..])
  {
    EntryTextIs(h, ord, t, prefix, keys[0]);
    LinesStore(h, ord, t, prefix, keys[1..]);
    LinesOfAppend(Line(h, ord, t, prefix, keys[0]), Lines(h, ord, t, prefix, keys[1..]));
  }

  // ----- Running saved text -----

  /** What the text format can hold: NUL-free keys and strings, calls of the two
      functions, plain file names. */
  ghost predicate Printable(h: Heap, r: nat) {
    && Wf(h)
    && (forall t: nat, k :: t < |h| && h[t].root == r && k in h[t].raw && !Reserved(k) ==>
         NulFree(k) && (h[t].raw[k].Str? ==> NulFree(h[t].raw[k].s)))
    && (forall t: nat :: t < |h| && h[t].root == r && h[t].meta ==> Linked(h, t) && HeaderOk(h[t]))
  }

  predicate HeaderOk(t: Table)
    requires REF in t.raw && FUNC in t.raw && t.raw[REF].Str? && t.raw[FUNC].Str?
  {
    t.raw[FUNC].s == "" || RhsOk(Call(t.raw[FUNC].s, t.raw[REF].s))
  }

  ghost predicate AllNulFree(p: seq<string>) {
    forall i :: 0 <= i < |p| ==> NulFree(p[i])
  }

  ghost predicate OpsPrint(ops: seq<Op>) {
    forall i :: 0 <= i < |ops| ==> (ops[i].Put? || ops[i].Attach?) && StmtOk(StmtOf(ops[i]))
  }

  lemma {:induction false} BodyPrints(h: Heap, ord: Order, t: nat, prefix: seq<string>)
    requires Lists(h, ord) && t < |h| && Printable(h, h[t].root) && AllNulFree(prefix)
    ensures OpsPrint(Body(h, ord, t, prefix))
    decreases |h| - t, 1, 0
  {
    assert ListsKeys(h, t, ord(t));
    LinesPrint(h, ord, t, prefix, ord(t));
  }

  lemma {:induction false} LinesPrint(h: Heap, ord: Order, t: nat, prefix: seq<string>, keys: seq<string>)
    requires Lists(h, ord) && t < |h| && Printable(h, h[t].root) && AllNulFree(prefix)
    requires forall i :: 0 <= i < |keys| ==> keys[i] in h[t].raw && !Reserved(keys[i])
    ensures OpsPrint(Lines(h, ord, t, prefix, keys))
    decreases |h| - t, 0, |keys|
  {
    if keys != [] {
      LinePrints(h, ord, t, prefix, keys[0]);
      LinesPrint(h, ord, t, prefix, keys[1..]);
    }
  }

  lemma {:induction false} LinePrints(h: Heap, ord: Order, t: nat, prefix: seq<string>, k: string)
    requires Lists(h, ord) && t < |h| && Printable(h, h[t].root) && AllNulFree(prefix)
    requires k in h[t].raw && !Reserved(k)
    ensures OpsPrint(Line(h, ord, t, prefix, k))
    decreases |h| - t, 0, 0
  {
    var v := h[t].raw[k];
    assert NulFree(k) && v != Nil;
    if v.Tab? {
      assert Holds(h, t, k, v.ref) && Linked(h, v.ref);
      BodyPrints(h, ord, v.ref, prefix + [k]);
      assert OpsPrint(Header(h, v.ref, prefix, k));
    } else {
      assert StmtOk(StmtOf(Put(prefix, k, v)));
    }
  }

  /** Runs a script that opens with `GameData = Inherit([[...]])`: the state reached and
      the new `GameData`, or nothing when the text does not read or a statement fails. */
  ghost function RunScript(h: Heap, files: map<string, nat>, roots: seq<nat>, text: string): Option<(Heap, nat)> {
    match ReadProgram(text) case None => None case Some(ls) => RunLines(h, files, roots, ls)
  }

  ghost function RunLines(h: Heap, files: map<string, nat>, roots: seq<nat>, ls: seq<Stmt>): Option<(Heap, nat)> {
    if ls == [] || ls[0].path != [] || !ls[0].rhs.Call? then None else
    match OpsOf(ls[1..])
    case None => None
    case Some(ops) =>
      var (g, x) := Make(h, files, ls[0].rhs.fn, ls[0].rhs.ref);
      if x.None? || !Session(g, files, roots + [x.value]) then None else
      if exists j :: 0 <= j < |ops| && !OpOk(ops[j]) then None else
      var (k, ok) := Exec(g, files, roots + [x.value], |roots|, ops);
      if ok then Some((k, x.value)) else None
  }

  /** Every statement written is one that comes back from its text. */
  ghost predicate TextHolds(h: Heap, ord: Order, t: nat)
    requires Wf(h) && Lists(h, ord) && t < |h| && h[t].meta && Linked(h, t)
  {
    RhsOk(Call(h[t].raw[FUNC].s, h[t].raw[REF].s)) && OpsPrint(Body(h, ord, t, []))
  }

  lemma PrintableHolds(h: Heap, files: map<string, nat>, ord: Order, t: nat)
    requires Coherent(h, files, t, true) && Printable(h, t) && Lists(h, ord)
    ensures Linked(h, t) && TextHolds(h, ord, t)
  {
    assert Linked(h, t) && HeaderOk(h[t]);
    BodyPrints(h, ord, t, []);
  }

  /** The text written for `GameData` reads back as the statements it was written for, if
      and only if each of them is one that comes back. */
  lemma {:induction false} SavedTextReads(h: Heap, files: map<string, nat>, t: nat, ord: Order)
    requires Coherent(h, files, t, true) && Lists(h, ord)
    ensures Linked(h, t) && Stores(Body(h, ord, t, []))
    ensures ReadProgram(HeaderText(h, t, []) + BodyText(h, ord, t, []))
         == Some([Assign([], Call(h[t].raw[FUNC].s, h[t].raw[REF].s))] + StmtsOf(Body(h, ord, t, [])))
         <==> TextHolds(h, ord, t)
  {
    BodyStores(h, ord, t, []);
    assert Linked(h, t);
    var ops := Body(h, ord, t, []);
    var head := Assign([], Call(h[t].raw[FUNC].s, h[t].raw[REF].s));
    var ls := [head] + StmtsOf(ops);
    assert ls[1..] == StmtsOf(ops);
    assert ProgramText(ls) == StmtText(head) + ProgramText(ls[1..]);
    ProgramRoundTrip(ls);
    AllOkSplit(ls);
    StmtsOk(ops);
  }

  lemma StmtsOk(ops: seq<Op>)
    requires Stores(ops)
    ensures AllOk(StmtsOf(ops)) <==> OpsPrint(ops)
  {
    var ls := StmtsOf(ops);
    if AllOk(ls) {
      forall i | 0 <= i < |ops| ensures StmtOk(StmtOf(ops[i])) { assert ls[i] == StmtOf(ops[i]); }
    }
  }

  /** The text `saveFile` writes for `GameData`, read back and run, rebuilds a tree that
      shows the same value at every key path, whatever order the keys were written in, if
      and only if every plain table can be brought back. */
  lemma {:induction false} SavedTextReloadsExactly(h: Heap, files: map<string, nat>, roots: seq<nat>, i: nat,
      ord: Order)
    requires Session(h, files, roots) && i < |roots| && Coherent(h, files, roots[i], true)
    requires Lists(h, ord) && TextHolds(h, ord, roots[i])
    ensures var t := roots[i];
      var r := RunScript(h, files, roots, HeaderText(h, t, []) + BodyText(h, ord, t, []));
      && (r.Some? ==> var (k, x) := r.value; Wf(k) && |h| <= x < |k| && Same(h, k))
      && (r.Some? && SameView(h, t, r.value.0, r.value.1) <==> Rebuilds(h, t, ParentOf(h, t)))
  {
    var t := roots[i];
    SavedTextReads(h, files, t, ord);
    SaveReloadsExactly(h, files, roots, i, ord);
    RunScriptIs(h, files, roots, HeaderText(h, t, []) + BodyText(h, ord, t, []),
                h[t].raw[FUNC].s, h[t].raw[REF].s, Body(h, ord, t, []));
  }

  /** When the text written for a tree reads back and runs, the tree it builds is saved as the
      same inherit line and the same statements, whatever order its keys are taken in. */
  lemma {:induction false} SavedTextAgain(h: Heap, files: map<string, nat>, roots: seq<nat>, i: nat, ord: Order,
      again: Order, o: Op)
    requires Session(h, files, roots) && i < |roots| && Coherent(h, files, roots[i], true)
    requires Lists(h, ord) && TextHolds(h, ord, roots[i])
    ensures var t := roots[i];
      var r := RunScript(h, files, roots, HeaderText(h, t, []) + BodyText(h, ord, t, []));
      r.Some? ==>
        var (k, x) := r.value;
        && Wf(k) && x < |k| && HeaderText(k, x, []) == HeaderText(h, t, [])
        && (Lists(k, again) ==> (o in Body(k, again, x, []) <==> o in Body(h, ord, t, [])))
  {
    var t := roots[i];
    SavedTextReads(h, files, t, ord);
    SavesAgain(h, files, roots, i, ord, o);
    RunScriptIs(h, files, roots, HeaderText(h, t, []) + BodyText(h, ord, t, []),
                h[t].raw[FUNC].s, h[t].raw[REF].s, Body(h, ord, t, []));
    var r := RunScript(h, files, roots, HeaderText(h, t, []) + BodyText(h, ord, t, []));
    BodyIsWritten(h, ord, t, o);
    if r.Some? && Lists(r.value.0, again) { BodyIsWritten(r.value.0, again, r.value.1, o); }
  }

  lemma RunScriptIs(h: Heap, files: map<string, nat>, roots: seq<nat>, text: string, fn: string, ref: string,
      ops: seq<Op>)
    requires Stores(ops) && ReadProgram(text) == Some([Assign([], Call(fn, ref))] + StmtsOf(ops))
    requires forall j :: 0 <= j < |ops| ==> OpOk(ops[j])
    requires var (g, x) := Make(h, files, fn, ref); x.Some? && Session(g, files, roots + [x.value])
    ensures var (g, x) := Make(h, files, fn, ref);
      var (k, ok) := Exec(g, files, roots + [x.value], |roots|, ops);
      RunScript(h, files, roots, text) == if ok then Some((k, x.value)) else None
  {
    var ls := [Assign([], Call(fn, ref))] + StmtsOf(ops);
    assert ls[0] == Assign([], Call(fn, ref)) && ls[1..] == StmtsOf(ops);
    RunLinesIs(h, files, roots, fn, ref, ops, ls);
  }

  lemma RunLinesIs(h: Heap, files: map<string, nat>, roots: seq<nat>, fn: string, ref: string, ops: seq<Op>,
      ls: seq<Stmt>)
    requires Stores(ops) && ls != [] && ls[0] == Assign([], Call(fn, ref)) && ls[1..] == StmtsOf(ops)
    requires forall j :: 0 <= j < |ops| ==> OpOk(ops[j])
    requires var (g, x) := Make(h, files, fn, ref); x.Some? && Session(g, files, roots + [x.value])
    ensures var (g, x) := Make(h, files, fn, ref);
      var (k, ok) := Exec(g, files, roots + [x.value], |roots|, ops);
      RunLines(h, files, roots, ls) == if ok then Some((k, x.value)) else None
  {
    OpsOfLines(ops);
  }

  /** A tree without plain tables comes back from its text. */
  lemma {:induction false} SavedTextReloads(h: Heap, files: map<string, nat>, roots: seq<nat>, i: nat, ord: Order)
    requires Session(h, files, roots) && i < |roots| && Coherent(h, files, roots[i], false)
    requires Lists(h, ord) && TextHolds(h, ord, roots[i])
    ensures var r := RunScript(h, files, roots, HeaderText(h, roots[i], []) + BodyText(h, ord, roots[i], []));
      && r.Some?
      && var (k, x) := r.value;
      && Wf(k) && |h| <= x < |k| && Same(h, k) && SameView(h, roots[i], k, x)
  {
    PlainAllowed(h, files, roots[i]);
    NoPlainRebuilds(h, files, roots[i], roots[i]);
    SavedTextReloadsExactly(h, files, roots, i, ord);
  }

  // ----- Runs keep a tree printable -----

  /** The operation brings in only what the text format can hold. */
  ghost predicate OpPrints(op: Op) {
    && OpOk(op) && AllNulFree(op.p)
    && (!op.Read? ==> NulFree(op.k))
    && (op.Put? ==> RhsOk(Const(op.v)))
    && (op.Attach? ==> RhsOk(Call(op.fn, op.ref)))
  }

  lemma PrintableMaterialise(h: Heap, r: nat, t: nat, k: string, v: nat)
    requires Printable(h, r) && Inherits(h, t, k, v) && NulFree(k)
    ensures REF in h[t].raw && Printable(Materialise(h, t, k, v), r)
  {
    MaterialiseWf(h, t, k, v);
    var g := Materialise(h, t, k, v);
    forall u: nat | u < |g| && g[u].root == r && g[u].meta ensures Linked(g, u) && HeaderOk(g[u]) {
      assert Linked(g, u);
      if u < |h| { assert Linked(h, u) && HeaderOk(h[u]); }
    }
    forall u: nat, l | u < |g| && g[u].root == r && l in g[u].raw && !Reserved(l)
      ensures NulFree(l) && (g[u].raw[l].Str? ==> NulFree(g[u].raw[l].s))
    {
      assert u < |h| && (l in h[u].raw || (u == t && l == k));
    }
  }

  lemma {:induction false} PrintableIndex(h: Heap, r: nat, t: nat, k: string)
    requires Printable(h, r) && t < |h| && !Reserved(k) && NulFree(k)
    ensures Printable(Index(h, t, k).0, r)
    decreases t
  {
    if k !in h[t].raw && h[t].meta {
      var p := ParentOf(h, t);
      PrintableIndex(h, r, p, k);
      IndexTransparent(h, p, k);
      var (h1, v) := Index(h, p, k);
      if v.Tab? {
        assert Linked(h, t) && ParentOf(h1, t) == p && Holds(h1, p, k, v.ref);
        assert Lookup(h1, t, k) == Tab(v.ref) && Inherits(h1, t, k, v.ref);
        PrintableMaterialise(h1, r, t, k, v.ref);
      }
    }
  }

  lemma {:induction false} PrintableWalk(h: Heap, r: nat, t: nat, p: seq<string>)
    requires Printable(h, r) && t < |h| && DataPath(p) && AllNulFree(p)
    ensures Printable(Walk(h, t, p).0, r)
    decreases |p|
  {
    if p != [] {
      PrintableIndex(h, r, t, p[0]);
      IndexTransparent(h, t, p[0]);
      var (g, v) := Index(h, t, p[0]);
      if v.Tab? {
        assert Holds(g, t, p[0], v.ref);
        PrintableWalk(g, r, v.ref, p[1..]);
      }
    }
  }

  lemma PrintableStore(h: Heap, r: nat, w: nat, k: string, v: Value)
    requires Printable(h, r) && w < |h| && !Reserved(k) && NulFree(k) && (v.Str? ==> NulFree(v.s))
    requires Wf(SetRaw(h, w, k, v))
    ensures Printable(SetRaw(h, w, k, v), r)
  {
    var g := SetRaw(h, w, k, v);
    forall u: nat | u < |g| && g[u].root == r && g[u].meta ensures Linked(g, u) && HeaderOk(g[u]) {
      assert Linked(g, u) && Linked(h, u) && HeaderOk(h[u]);
    }
  }

  lemma PrintableAppend(h: Heap, r: nat, n: Table)
    requires Printable(h, r) && Wf(h + [n]) && (forall k :: k in n.raw ==> Reserved(k))
    requires n.meta ==> REF in n.raw && FUNC in n.raw && n.raw[REF].Str? && n.raw[FUNC].Str? && HeaderOk(n)
    ensures Printable(h + [n], r)
  {
    var g := h + [n];
    forall u: nat | u < |g| && g[u].root == r && g[u].meta ensures Linked(g, u) && HeaderOk(g[u]) {
      assert Linked(g, u);
      if u < |h| { assert Linked(h, u) && HeaderOk(h[u]); }
    }
  }

  lemma {:induction false} PrintableFinish(h: Heap, files: map<string, nat>, roots: seq<nat>, t: nat, w: nat,
      op: Op, r: nat)
    requires Session(h, files, roots) && t in roots && OpPrints(op) && !op.Read? && Printable(h, r)
    requires w < |h| && h[w].root == t && Session(Finish(h, files, Tab(w), op).0, files, roots)
    ensures Printable(Finish(h, files, Tab(w), op).0, r)
  {
    match op {
      case Put(_, k, v) => PrintableStore(h, r, w, k, v);
      case Create(_, k) =>
        CreateReady(h, files, roots, t);
        PrintableAppend(h, r, Table(map[], false, t));
        PrintableStore(h + [Table(map[], false, t)], r, w, k, Tab(|h|));
      case Attach(_, _, _, _) => PrintableAttach(h, files, roots, t, w, op, r);
    }
  }

  lemma PrintableAttach(h: Heap, files: map<string, nat>, roots: seq<nat>, t: nat, w: nat, op: Op, r: nat)
    requires Session(h, files, roots) && t in roots && OpPrints(op) && op.Attach? && Printable(h, r)
    requires w < |h| && h[w].root == t && Session(Finish(h, files, Tab(w), op).0, files, roots)
    ensures Printable(Finish(h, files, Tab(w), op).0, r)
  {
    AttachReady(h, files, roots, Bases(h, files), t, op.fn, op.ref);
    var (b, p) := Base(h, files, op.ref);
    if op.ref == "" { PrintableAppend(h, r, Table(map[], false, |h|)); }
    if p.Some? {
      PrintableAppend(b, r, Overlay(p.value, op.ref, op.fn, t));
      PrintableStore(b + [Overlay(p.value, op.ref, op.fn, t)], r, w, op.k, Tab(|b|));
    }
  }

  /** Runs whose statements the text format can hold keep every tree printable, so with
      `RunCoherent` every state they reach can be saved as text. */
  lemma {:induction false} RunPrintable(h: Heap, files: map<string, nat>, roots: seq<nat>, run: Run, r: nat)
    requires Session(h, files, roots) && RunOk(run, |roots|) && Printable(h, r)
    requires forall j :: 0 <= j < |run| ==> OpPrints(run[j].1)
    ensures Printable(RunLazy(h, files, roots, run).0, r)
    decreases |run|
  {
    if run != [] {
      var (i, op) := run[0];
      assert OpPrints(op);
      var t := roots[i];
      SessionWalked(h, files, roots, t, op.p);
      WalkTransparent(h, t, op.p);
      PrintableWalk(h, r, t, op.p);
      DoKeepsSession(h, files, roots, i, op);
      var (m, w) := Walk(h, t, op.p);
      if w.Tab? && !op.Read? {
        assert w == Tab(w.ref);
        PrintableFinish(m, files, roots, t, w.ref, op, r);
      }
      RunPrintable(Do(h, files, t, op).0, files, roots, run[1..], r);
    }
  }

  lemma PathRoot()
    ensures PathText([]) == "GameData"
  {
  }

  // ----- The object -----

  /** The Lua state of an open file with the cache it shares, and its output stream. */
  class LuaState {
    var heap: Heap
    var files: map<string, nat>
    var out: string

    /** `lua_gettable`: a raw entry, or what the index event gives. */
    method GetTable(t: nat, k: string) returns (v: Value)
      requires Wf(heap) && t < |heap|
      modifies this`heap
      ensures (heap, v) == Index(old(heap), t, k)
      decreases t, 1
    {
      if k in heap[t].raw {
        v := heap[t].raw[k];
      } else if heap[t].meta {
        v := IndexEvent(t, k);
      } else {
        v := Nil;
      }
    }

    /** `_luaIndexEvent`: looks in the inherited table and wraps a table found there. */
    method IndexEvent(t: nat, k: string) returns (v: Value)
      requires Wf(heap) && t < |heap| && heap[t].meta && k !in heap[t].raw
      modifies this`heap
      ensures (heap, v) == Index(old(heap), t, k)
      decreases t, 0
    {
      assert Linked(heap, t);
      v := GetTable(heap[t].raw[PARENT].ref, k);
      if !v.Tab? { return; }
      ghost var (h1, p) := (heap, v.ref);
      var r := |heap|;
      heap := heap + [Table(map[], false, heap[t].root)];
      heap := SetRaw(heap, t, k, Tab(r));
      heap := SetRaw(heap, r, PARENT, v);
      heap := SetRaw(heap, r, REF, heap[t].raw[REF]);
      heap := SetRaw(heap, r, FUNC, Str(""));
      heap := heap[r := heap[r].(meta := true)];
      assert heap[r] == Proxy(h1[t], p);
      assert heap == Materialise(h1, t, k, p);
      v := Tab(r);
    }

    /** `_luaParent` on a loaded script: the overlay table, if the script is known. */
    method LuaParent(fn: string, ref: string, root: nat) returns (t: Option<nat>)
      modifies this`heap
      ensures var (b, p) := Base(old(heap), files, ref);
        && (p.None? ==> t.None? && heap == b)
        && (p.Some? ==> t == Some(|b|) && heap == b + [Overlay(p.value, ref, fn, root)])
    {
      var parent;
      if ref in files && ref != "" {
        parent := files[ref];
      } else if ref == "" {
        parent := |heap|;
        heap := heap + [Table(map[], false, |heap|)];
      } else {
        return None;
      }
      t := Some(|heap|);
      heap := heap + [Table(map[], false, root)];
      heap := SetRaw(heap, t.value, PARENT, Tab(parent));
      heap := SetRaw(heap, t.value, REF, Str(ref));
      heap := SetRaw(heap, t.value, FUNC, Str(fn));
      heap := heap[t.value := heap[t.value].(meta := true)];
    }

    /** Runs one statement, or reads one path, on the tree of table `t`. */
    method Perform(t: nat, op: Op) returns (r: Outcome)
      requires Wf(heap) && t < |heap| && OpOk(op)
      modifies this`heap
      ensures (heap, r) == Do(old(heap), files, t, op)
    {
      WalkTransparent(heap, t, op.p);
      var v, i := Tab(t), 0;
      while i < |op.p| && v.Tab?
        invariant 0 <= i <= |op.p|
        invariant v.Tab? ==> Wf(heap) && v.ref < |heap| && Walk(old(heap), t, op.p) == Walk(heap, v.ref, op.p[i..])
        invariant !v.Tab? ==> Walk(old(heap), t, op.p) == (heap, if i == |op.p| then v else Nil)
      {
        IndexTransparent(heap, v.ref, op.p[i]);
        ghost var (was, from) := (heap, v.ref);
        v := GetTable(v.ref, op.p[i]);
        assert v.Tab? ==> Holds(heap, from, op.p[i], v.ref);
        assert op.p[i..][0] == op.p[i] && op.p[i..][1..] == op.p[i + 1..];
        i := i + 1;
      }
      if i < |op.p| { v := Nil; }
      assert (heap, v) == Walk(old(heap), t, op.p);
      if op.Read? { return Got(SeenOf(v)); }
      if !v.Tab? { return Fail; }
      var w := v.ref;
      if op.Put? {
        heap := SetRaw(heap, w, op.k, op.v);
      } else if op.Create? {
        var c := |heap|;
        heap := heap + [Table(map[], false, heap[w].root)];
        heap := SetRaw(heap, w, op.k, Tab(c));
      } else {
        var c := LuaParent(op.fn, op.ref, heap[w].root);
        if c.None? { return Fail; }
        heap := SetRaw(heap, w, op.k, Tab(c.value));
      }
      return Done;
    }

    /** `VDeleteChild`: refuses to delete an entry that the base of the table has too. */
    method DeleteChild(t: nat, k: string) returns (ok: bool)
      requires Wf(heap) && t < |heap| && heap[t].meta && !Reserved(k)
      modifies this`heap
      ensures Wf(old(heap)) && var m := Index(old(heap), ParentOf(old(heap), t), k).0;
        && Wf(m) && Same(old(heap), m)
        && (ok <==> Beneath(old(heap), t, k) == Nil)
        && heap == if ok then SetRaw(m, t, k, Nil) else m
    {
      assert Linked(heap, t);
      IndexTransparent(heap, ParentOf(heap, t), k);
      var v := GetTable(heap[t].raw[PARENT].ref, k);
      if v != Nil { return false; }
      heap := SetRaw(heap, t, k, Nil);
      ok := true;
    }

    /** `_saveTable` in mode 0 (inherit line only), 1 (the entries only) or 2 (both). */
    method SaveTable(ord: Order, t: nat, prefix: string, ghost path: seq<string>, mode: nat)
      requires Wf(heap) && Lists(heap, ord) && t < |heap| && mode <= 2 && prefix == PathText(path)
      modifies this`out
      ensures out == old(out) + TableText(heap, ord, t, path, mode)
      decreases |heap| - t, 2
    {
      if mode != 1 {
        SaveHeader(t, prefix, path);
        if mode == 0 { return; }
      }
      SaveEntries(ord, t, prefix, path);
      if mode != 1 { Assoc(old(out), HeaderText(heap, t, path), BodyText(heap, ord, t, path)); }
    }

    /** The loop over the sorted keys. */
    method SaveEntries(ord: Order, t: nat, prefix: string, ghost path: seq<string>)
      requires Wf(heap) && Lists(heap, ord) && t < |heap| && prefix == PathText(path)
      modifies this`out
      ensures out == old(out) + BodyText(heap, ord, t, path)
      decreases |heap| - t, 1
    {
      var keys := ord(t);
      assert ListsKeys(heap, t, keys);
      var i := 0;
      assert keys[0..] == keys;
      while i < |keys|
        invariant 0 <= i <= |keys|
        invariant old(out) + BodyText(heap, ord, t, path) == out + EntriesText(heap, ord, t, path, keys[i..])
      {
        ghost var (before, rest) := (out, keys[i..]);
        EntriesTextStep(heap, ord, t, path, rest);
        SaveEntry(ord, t, prefix, path, keys[i]);
        assert rest[1..] == keys[i + 1..];
        Assoc(before, EntryText(heap, ord, t, path, keys[i]), EntriesText(heap, ord, t, path, rest[1..]));
        i := i + 1;
      }
      assert keys[i..] == [];
    }

    method SaveHeader(t: nat, prefix: string, ghost path: seq<string>)
      requires Wf(heap) && t < |heap| && prefix == PathText(path)
      modifies this`out
      ensures out == old(out) + HeaderText(heap, t, path)
    {
      assert Linked(heap, t);
      if FUNC in heap[t].raw && heap[t].raw[FUNC].s != "" {
        out := out + (prefix + " = " + (heap[t].raw[FUNC].s + "([[" + CStr(heap[t].raw[REF].s) + "]])") + "\r\n");
      }
    }

    method ValueText(v: Value) returns (text: string)
      requires !v.Nil? && !v.Tab?
      ensures text == RhsText(Const(v))
    {
      match v {
        case Num(n) => text := FixedText(n);
        case Bool(b) => text := if b then "true" else "false";
        case Str(x) =>
          var s := AppendEscapedString("\"", x);
          text := s + "\"";
      }
    }

    /** `sNewPrefix`: the prefix of a nested entry. */
    method EntryPrefix(prefix: string, ghost path: seq<string>, k: string) returns (p: string)
      requires prefix == PathText(path)
      ensures p == PathText(path + [k])
    {
      var key := AppendEscapedString("", k);
      PathSnoc(path, k);
      p := prefix + ("[\"" + key + "\"]");
    }

    method SaveEntry(ord: Order, t: nat, prefix: string, ghost path: seq<string>, k: string)
      requires Wf(heap) && Lists(heap, ord) && t < |heap| && prefix == PathText(path)
      requires k in heap[t].raw && !Reserved(k)
      modifies this`out
      ensures out == old(out) + EntryText(heap, ord, t, path, k)
      decreases |heap| - t, 0
    {
      var newPrefix := EntryPrefix(prefix, path, k);
      var v := heap[t].raw[k];
      assert v != Nil;
      if v.Tab? {
        assert Holds(heap, t, k, v.ref);
        SaveTable(ord, v.ref, newPrefix, path + [k], 2);
      } else {
        var text := ValueText(v);
        out := out + (newPrefix + " = " + text + "\r\n");
      }
    }

    /** The `GameData` part of `saveFile`: the inherit line, then the entries. */
    method SaveGameData(ord: Order, t: nat)
      requires Wf(heap) && Lists(heap, ord) && t < |heap|
      modifies this`out
      ensures out == old(out) + (HeaderText(heap, t, []) + BodyText(heap, ord, t, []))
    {
      var prefix := "GameData";
      PathRoot();
      SaveTable(ord, t, prefix, [], 0);
      SaveTable(ord, t, prefix, [], 1);
      Assoc(old(out), HeaderText(heap, t, []), BodyText(heap, ord, t, []));
    }
  }
}
