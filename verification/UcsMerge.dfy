/**
 * `UCSToDATConvertor`: several sorted maps of texts are delivered one entry at a time, and
 * the entries inside a range of codes are written in blocks of fifty.
 */
module UcsMerge {
  import opened Options

  datatype Entry = Entry(code: nat, text: string)

  /** An entry together with the map it came from. */
  datatype Delivery = Delivery(source: nat, entry: Entry)

  type Maps = seq<seq<Entry>>

  /** A map holds its entries by increasing code. */
  ghost predicate Sorted(m: seq<Entry>) {
    forall i, j :: 0 <= i < j < |m| ==> m[i].code < m[j].code
  }

  /** Iterators into the maps. */
  predicate Ready(files: Maps, pos: seq<nat>) {
    |files| == |pos| && forall i :: 0 <= i < |files| ==> pos[i] <= |files[i]|
  }

  predicate Waits(files: Maps, pos: seq<nat>, i: nat)
    requires Ready(files, pos) && i < |files|
  {
    pos[i] < |files[i]|
  }

  function Head(files: Maps, pos: seq<nat>, i: nat): Entry
    requires Ready(files, pos) && i < |files| && Waits(files, pos, i)
  {
    files[i][pos[i]]
  }

  // ----- _nextEntry -----

  /** The first map from `i` on that still has an entry. */
  function FirstFrom(files: Maps, pos: seq<nat>, i: nat): (r: nat)
    requires Ready(files, pos) && i <= |files|
    ensures i <= r <= |files| && (r < |files| ==> Waits(files, pos, r))
    ensures forall j :: i <= j < r ==> !Waits(files, pos, j)
    decreases |files| - i
  {
    if i == |files| || Waits(files, pos, i) then i else FirstFrom(files, pos, i + 1)
  }

  /** The first map from `i` on whose entry has a code below `code`. */
  function SmallerFrom(files: Maps, pos: seq<nat>, i: nat, code: nat): (r: nat)
    requires Ready(files, pos) && i <= |files|
    ensures i <= r <= |files| && (r < |files| ==> Waits(files, pos, r) && Head(files, pos, r).code < code)
    ensures forall j :: i <= j < r ==> !(Waits(files, pos, j) && Head(files, pos, j).code < code)
    decreases |files| - i
  {
    if i == |files| || (Waits(files, pos, i) && Head(files, pos, i).code < code) then i
    else SmallerFrom(files, pos, i + 1, code)
  }

  /** The map the next entry is taken from, or the number of maps when all are used up. */
  function Pick(files: Maps, pos: seq<nat>): (r: nat)
    requires Ready(files, pos)
    ensures r <= |files| && (r < |files| ==> Waits(files, pos, r))
    ensures r == |files| <==> forall i :: 0 <= i < |files| ==> !Waits(files, pos, i)
  {
    var a := FirstFrom(files, pos, 0);
    if a == |files| then a
    else
      var b := SmallerFrom(files, pos, a, Head(files, pos, a).code);
      if b == |files| then a else b
  }

  lemma {:induction false} FirstIs(files: Maps, pos: seq<nat>, i: nat, r: nat)
    requires Ready(files, pos) && i <= r <= |files| && (forall j :: i <= j < r ==> !Waits(files, pos, j))
    requires r < |files| ==> Waits(files, pos, r)
    ensures FirstFrom(files, pos, i) == r
    decreases r - i
  {
    if i < r { FirstIs(files, pos, i + 1, r); }
  }

  lemma {:induction false} SmallerIs(files: Maps, pos: seq<nat>, i: nat, code: nat, r: nat)
    requires Ready(files, pos) && i <= r <= |files|
    requires forall j :: i <= j < r ==> !(Waits(files, pos, j) && Head(files, pos, j).code < code)
    requires r < |files| ==> Waits(files, pos, r) && Head(files, pos, r).code < code
    ensures SmallerFrom(files, pos, i, code) == r
    decreases r - i
  {
    if i < r { SmallerIs(files, pos, i + 1, code, r); }
  }

  /** Entries not yet delivered. */
  function Remaining(files: Maps, pos: seq<nat>): nat
    requires Ready(files, pos)
    decreases |files|
  {
    if files == [] then 0 else |files[0]| - pos[0] + Remaining(files[1..], pos[1..])
  }

  lemma {:induction false} RemainingDrops(files: Maps, pos: seq<nat>, n: nat)
    requires Ready(files, pos) && n < |files| && Waits(files, pos, n)
    ensures Ready(files, pos[n := pos[n] + 1]) && Remaining(files, pos[n := pos[n] + 1]) == Remaining(files, pos) - 1
    decreases |files|
  {
    var to := pos[n := pos[n] + 1];
    if n == 0 {
      assert to[1..] == pos[1..];
    } else {
      RemainingDrops(files[1..], pos[1..], n - 1);
      assert to[1..] == pos[1..][n - 1 := pos[n] + 1];
    }
  }

  /** Everything `_nextEntry` delivers when it is called until it has no more. */
  function Deliver(files: Maps, pos: seq<nat>): seq<Delivery>
    requires Ready(files, pos)
    decreases Remaining(files, pos)
  {
    var n := Pick(files, pos);
    if n == |files| then []
    else
      RemainingDrops(files, pos, n);
      [Delivery(n, Head(files, pos, n))] + Deliver(files, pos[n := pos[n] + 1])
  }

  /** The entries that came from map `n`. */
  function From(ds: seq<Delivery>, n: nat): seq<Entry>
  {
    if ds == [] then [] else if ds[0].source == n then [ds[0].entry] + From(ds[1..], n) else From(ds[1..], n)
  }

  lemma DeliverStep(files: Maps, pos: seq<nat>)
    requires Ready(files, pos) && Pick(files, pos) < |files|
    ensures var n := Pick(files, pos); var to := pos[n := pos[n] + 1];
      Ready(files, to) && Remaining(files, to) < Remaining(files, pos) &&
      Deliver(files, pos) == [Delivery(n, Head(files, pos, n))] + Deliver(files, to)
  {
    RemainingDrops(files, pos, Pick(files, pos));
  }

  /** Every entry of every map is delivered exactly once and in its map's order, for any
      number of maps. */
  lemma {:induction false} Conserved(files: Maps, pos: seq<nat>, n: nat)
    requires Ready(files, pos) && n < |files|
    ensures From(Deliver(files, pos), n) == files[n][pos[n]..]
    decreases Remaining(files, pos)
  {
    var p := Pick(files, pos);
    if p < |files| {
      var to := pos[p := pos[p] + 1];
      DeliverStep(files, pos);
      Conserved(files, to, n);
      FromFirst(Delivery(p, Head(files, pos, p)), Deliver(files, to), n);
      if p == n { Rest(files[n], pos[n]); }
    } else {
      assert !Waits(files, pos, n);
    }
  }

  lemma Rest(m: seq<Entry>, k: nat)
    requires k < |m|
    ensures m[k..] == [m[k]] + m[k + 1..]
  {
  }

  lemma FromFirst(d: Delivery, ds: seq<Delivery>, n: nat)
    ensures From([d] + ds, n) == if d.source == n then [d.entry] + From(ds, n) else From(ds, n)
  {
    assert ([d] + ds)[1..] == ds;
  }

  // ----- Order -----

  /** No waiting entry has a code below `code`. */
  ghost predicate Least(files: Maps, pos: seq<nat>, code: nat)
    requires Ready(files, pos)
  {
    forall i :: 0 <= i < |files| && Waits(files, pos, i) ==> code <= Head(files, pos, i).code
  }

  /** The entry delivered has the least code just when no later map waits with a smaller one:
      the search stops at the first map below the first waiting one. */
  lemma LeastPicked(files: Maps, pos: seq<nat>)
    requires Ready(files, pos) && Pick(files, pos) < |files|
    ensures var n := Pick(files, pos);
      Least(files, pos, Head(files, pos, n).code) <==>
      forall j :: n < j < |files| && Waits(files, pos, j) ==> Head(files, pos, n).code <= Head(files, pos, j).code
  {
    var a := FirstFrom(files, pos, 0);
    var n := Pick(files, pos);
    forall i | 0 <= i < n && Waits(files, pos, i) ensures Head(files, pos, n).code <= Head(files, pos, i).code {
      assert a <= i;
    }
  }

  lemma PickIs(files: Maps, pos: seq<nat>, a: nat, n: nat)
    requires Ready(files, pos) && a <= n < |files| && Waits(files, pos, a) && Waits(files, pos, n)
    requires FirstFrom(files, pos, 0) == a && SmallerFrom(files, pos, a, Head(files, pos, a).code) == n
    ensures Pick(files, pos) == n
  {
  }

  /** With three it is not: of three entries with falling codes the second is delivered first,
      then the third, which is less. */
  lemma ThreeMapsFail(files: Maps, x: Entry, y: Entry, z: Entry, pos: seq<nat>)
    requires files == [[x], [y], [z]] && x.code > y.code > z.code && pos == [0, 0, 0]
    ensures |Deliver(files, pos)| >= 2 && Deliver(files, pos)[0].entry == y && Deliver(files, pos)[1].entry == z
  {
    FirstIs(files, pos, 0, 0);
    SmallerIs(files, pos, 0, x.code, 1);
    PickIs(files, pos, 0, 1);
    DeliverStep(files, pos);
    var to := pos[1 := pos[1] + 1];
    assert to[0] == 0 && to[1] == 1 && to[2] == 0 && !Waits(files, to, 1);
    FirstIs(files, to, 0, 0);
    SmallerIs(files, to, 0, x.code, 2);
    PickIs(files, to, 0, 2);
    DeliverStep(files, to);
  }

  /** Codes never fall. */
  ghost predicate Rising(ds: seq<Delivery>) {
    forall i, j :: 0 <= i < j < |ds| ==> ds[i].entry.code <= ds[j].entry.code
  }

  ghost predicate AtLeast(ds: seq<Delivery>, code: nat) {
    forall i :: 0 <= i < |ds| ==> code <= ds[i].entry.code
  }

  ghost predicate AllSorted(files: Maps) { forall i :: 0 <= i < |files| ==> Sorted(files[i]) }

  lemma LeastStays(files: Maps, pos: seq<nat>, code: nat, n: nat)
    requires Ready(files, pos) && AllSorted(files) && Least(files, pos, code) && n < |files| && Waits(files, pos, n)
    ensures Ready(files, pos[n := pos[n] + 1]) && Least(files, pos[n := pos[n] + 1], code)
  {
    var to := pos[n := pos[n] + 1];
    forall i | 0 <= i < |files| && Waits(files, to, i) ensures code <= Head(files, to, i).code {
      assert Waits(files, pos, i);
      assert Sorted(files[i]);
    }
  }

  lemma {:induction false} NoneBelow(files: Maps, pos: seq<nat>, code: nat)
    requires Ready(files, pos) && AllSorted(files) && Least(files, pos, code)
    ensures AtLeast(Deliver(files, pos), code)
    decreases Remaining(files, pos)
  {
    var n := Pick(files, pos);
    if n < |files| {
      RemainingDrops(files, pos, n);
      LeastStays(files, pos, code, n);
      NoneBelow(files, pos[n := pos[n] + 1], code);
    }
  }

  /** Entry `m` of map `i` has not been delivered. */
  predicate Left(files: Maps, pos: seq<nat>, i: nat, m: nat)
    requires Ready(files, pos)
  {
    i < |files| && pos[i] <= m < |files[i]|
  }

  /** Of the entries left, `z` in map `k` has a smaller code than `y` in map `j` before it;
      the first map with a code above that of `z` is map `a`, before both, with entry `x`,
      and all it has above `z` is above `y` too. */
  ghost predicate Overtakes(files: Maps, pos: seq<nat>, a: nat, x: nat, j: nat, y: nat, k: nat, z: nat)
    requires Ready(files, pos)
  {
    && a < j < k && Left(files, pos, a, x) && Left(files, pos, j, y) && Left(files, pos, k, z)
    && files[k][z].code < files[j][y].code && files[k][z].code < files[a][x].code
    && (forall i: nat, m: nat :: i < a && Left(files, pos, i, m) ==> files[i][m].code <= files[k][z].code)
    && (forall m: nat :: Left(files, pos, a, m) && files[k][z].code < files[a][m].code ==>
        files[j][y].code < files[a][m].code)
  }

  ghost predicate NoneOvertakes(files: Maps, pos: seq<nat>)
    requires Ready(files, pos)
  {
    forall a: nat, x: nat, j: nat, y: nat, k: nat, z: nat :: !Overtakes(files, pos, a, x, j, y, k, z)
  }

  /** When the search passes over a smaller entry, that one is overtaken. */
  lemma PassedOvertakes(files: Maps, pos: seq<nat>, k: nat)
    requires Ready(files, pos) && AllSorted(files) && Pick(files, pos) < k < |files| && Waits(files, pos, k)
    requires Head(files, pos, k).code < Head(files, pos, Pick(files, pos)).code
    ensures !NoneOvertakes(files, pos)
  {
    var (a, n) := (FirstFrom(files, pos, 0), Pick(files, pos));
    assert a < n;
    forall m: nat | Left(files, pos, a, m) ensures Head(files, pos, n).code < files[a][m].code {
      assert Sorted(files[a]);
    }
    forall i: nat, m: nat | i < a ensures !Left(files, pos, i, m) {
      assert !Waits(files, pos, i);
    }
    assert Overtakes(files, pos, a, pos[a], n, pos[n], k, pos[k]);
  }

  lemma LeastLeft(files: Maps, pos: seq<nat>, code: nat, i: nat, m: nat)
    requires Ready(files, pos) && AllSorted(files) && Least(files, pos, code) && Left(files, pos, i, m)
    ensures code <= files[i][m].code
  {
    assert Waits(files, pos, i) && Sorted(files[i]);
  }

  /** The least entry, when it is overtaken, is not the one picked. */
  lemma OvertakenNotPicked(files: Maps, pos: seq<nat>, a: nat, x: nat, j: nat, y: nat, k: nat, z: nat)
    requires Ready(files, pos) && AllSorted(files) && Overtakes(files, pos, a, x, j, y, k, z)
    requires z == pos[k] && Least(files, pos, files[k][z].code)
    ensures Pick(files, pos) != k
  {
    var (b, code) := (FirstFrom(files, pos, 0), files[k][z].code);
    assert Waits(files, pos, a) && Waits(files, pos, j) && b <= a;
    assert Left(files, pos, b, pos[b]) && Left(files, pos, a, pos[a]) && Left(files, pos, j, pos[j]);
    assert b < a ==> Head(files, pos, b).code <= code;
    if Head(files, pos, b).code > code {
      assert Sorted(files[j]);
      assert Head(files, pos, j).code <= files[j][y].code < Head(files, pos, a).code;
      assert SmallerFrom(files, pos, a, Head(files, pos, a).code) <= j;
    }
  }

  lemma LeftAfter(files: Maps, pos: seq<nat>, n: nat, i: nat, m: nat)
    requires Ready(files, pos) && n < |files| && Waits(files, pos, n)
    ensures var to := pos[n := pos[n] + 1];
      Ready(files, to) && (Left(files, to, i, m) <==> Left(files, pos, i, m) && !(i == n && m == pos[n]))
  {
  }

  /** What is overtaken was overtaken before a smaller or equal entry was delivered. */
  lemma OvertakesBefore(files: Maps, pos: seq<nat>, n: nat, a: nat, x: nat, j: nat, y: nat, k: nat, z: nat)
    requires Ready(files, pos) && n < |files| && Waits(files, pos, n) && Ready(files, pos[n := pos[n] + 1])
    requires Overtakes(files, pos[n := pos[n] + 1], a, x, j, y, k, z) && Head(files, pos, n).code <= files[k][z].code
    ensures Overtakes(files, pos, a, x, j, y, k, z)
  {
    LeftAfter(files, pos, n, a, x);
    LeftAfter(files, pos, n, j, y);
    LeftAfter(files, pos, n, k, z);
    forall i: nat, m: nat | i < a && Left(files, pos, i, m) ensures files[i][m].code <= files[k][z].code {
      LeftAfter(files, pos, n, i, m);
    }
    forall m: nat | Left(files, pos, a, m) && files[k][z].code < files[a][m].code
      ensures files[j][y].code < files[a][m].code
    {
      LeftAfter(files, pos, n, a, m);
    }
  }

  /** What is overtaken stays so when a smaller or equal entry, not itself, is delivered. */
  lemma OvertakesAfter(files: Maps, pos: seq<nat>, n: nat, a: nat, x: nat, j: nat, y: nat, k: nat, z: nat)
    requires Ready(files, pos) && n < |files| && Waits(files, pos, n) && Ready(files, pos[n := pos[n] + 1])
    requires Overtakes(files, pos, a, x, j, y, k, z) && Head(files, pos, n).code <= files[k][z].code
    requires !(k == n && z == pos[n])
    ensures Overtakes(files, pos[n := pos[n] + 1], a, x, j, y, k, z)
  {
    var to := pos[n := pos[n] + 1];
    LeftAfter(files, pos, n, a, x);
    LeftAfter(files, pos, n, j, y);
    LeftAfter(files, pos, n, k, z);
    forall i: nat, m: nat | i < a && Left(files, to, i, m) ensures files[i][m].code <= files[k][z].code {
      LeftAfter(files, pos, n, i, m);
    }
    forall m: nat | Left(files, to, a, m) && files[k][z].code < files[a][m].code
      ensures files[j][y].code < files[a][m].code
    {
      LeftAfter(files, pos, n, a, m);
    }
  }

  /** Delivering the least entry changes nothing in what is overtaken. */
  lemma NoneOvertakesStep(files: Maps, pos: seq<nat>)
    requires Ready(files, pos) && AllSorted(files) && Pick(files, pos) < |files|
    requires Least(files, pos, Head(files, pos, Pick(files, pos)).code)
    ensures Ready(files, pos[Pick(files, pos) := pos[Pick(files, pos)] + 1])
    ensures NoneOvertakes(files, pos[Pick(files, pos) := pos[Pick(files, pos)] + 1]) <==> NoneOvertakes(files, pos)
  {
    var n := Pick(files, pos);
    var (to, code) := (pos[n := pos[n] + 1], Head(files, pos, n).code);
    if a: nat, x: nat, j: nat, y: nat, k: nat, z: nat :| Overtakes(files, to, a, x, j, y, k, z) {
      LeftAfter(files, pos, n, k, z);
      LeastLeft(files, pos, code, k, z);
      OvertakesBefore(files, pos, n, a, x, j, y, k, z);
    }
    if a: nat, x: nat, j: nat, y: nat, k: nat, z: nat :| Overtakes(files, pos, a, x, j, y, k, z) {
      LeastLeft(files, pos, code, k, z);
      if z == pos[k] && files[k][z].code == code { OvertakenNotPicked(files, pos, a, x, j, y, k, z); }
      OvertakesAfter(files, pos, n, a, x, j, y, k, z);
    }
  }

  lemma {:induction false} FromIn(ds: seq<Delivery>, n: nat, e: Entry)
    requires e in From(ds, n)
    ensures exists d :: d in ds && d.entry == e
    decreases |ds|
  {
    if !(ds[0].source == n && ds[0].entry == e) {
      FromIn(ds[1..], n, e);
      var d :| d in ds[1..] && d.entry == e;
      assert d in ds;
    } else {
      assert ds[0] in ds;
    }
  }

  /** What was passed over is delivered later. */
  lemma PassedComesLater(files: Maps, pos: seq<nat>, j: nat)
    requires Ready(files, pos) && j < |files| && Waits(files, pos, j)
    ensures exists d :: d in Deliver(files, pos) && d.entry == Head(files, pos, j)
  {
    Conserved(files, pos, j);
    Rest(files[j], pos[j]);
    assert Head(files, pos, j) in From(Deliver(files, pos), j);
    FromIn(Deliver(files, pos), j, Head(files, pos, j));
  }

  lemma {:induction false} PassedFalls(files: Maps, pos: seq<nat>, j: nat)
    requires Ready(files, pos) && AllSorted(files) && Pick(files, pos) < j < |files| && Waits(files, pos, j)
    requires Head(files, pos, j).code < Head(files, pos, Pick(files, pos)).code
    ensures !Rising(Deliver(files, pos))
  {
    DeliverStep(files, pos);
    var ds := Deliver(files, pos);
    PassedComesLater(files, pos, j);
    var d :| d in ds && d.entry == Head(files, pos, j);
    var i :| 0 <= i < |ds| && ds[i] == d;
    assert ds[0].entry == Head(files, pos, Pick(files, pos)) && i > 0;
  }

  /** For any number of maps the codes delivered never fall if and only if no entry left in
      the maps is overtaken. */
  lemma {:induction false} RisesExactly(files: Maps, pos: seq<nat>)
    requires Ready(files, pos) && AllSorted(files)
    ensures Rising(Deliver(files, pos)) <==> NoneOvertakes(files, pos)
    decreases Remaining(files, pos)
  {
    var n := Pick(files, pos);
    if n == |files| {
      forall i: nat, m: nat ensures !Left(files, pos, i, m) {
        if i < |files| { assert !Waits(files, pos, i); }
      }
    } else if j: nat :| n < j < |files| && Waits(files, pos, j) && Head(files, pos, j).code < Head(files, pos, n).code {
      PassedFalls(files, pos, j);
      PassedOvertakes(files, pos, j);
    } else {
      var (code, to) := (Head(files, pos, n).code, pos[n := pos[n] + 1]);
      DeliverStep(files, pos);
      LeastPicked(files, pos);
      RisesExactly(files, to);
      NoneOvertakesStep(files, pos);
      LeastStays(files, pos, code, n);
      NoneBelow(files, to, code);
      FirstOfRising(Delivery(n, Head(files, pos, n)), Deliver(files, to));
    }
  }

  lemma FirstOfRising(d: Delivery, ds: seq<Delivery>)
    requires AtLeast(ds, d.entry.code)
    ensures Rising([d] + ds) <==> Rising(ds)
  {
    var es := [d] + ds;
    assert es[1..] == ds;
    if Rising(ds) { FirstLeast(es); }
    if Rising(es) { RisingTail(es); }
  }

  /** For at most two maps nothing can be overtaken, so the codes delivered never fall. */
  lemma {:induction false} TwoMapsRise(files: Maps, pos: seq<nat>)
    requires Ready(files, pos) && AllSorted(files) && |files| <= 2
    ensures NoneOvertakes(files, pos) && Rising(Deliver(files, pos))
  {
    RisesExactly(files, pos);
  }

  lemma FirstLeast(ds: seq<Delivery>)
    requires ds != [] && Rising(ds[1..]) && AtLeast(ds[1..], ds[0].entry.code)
    ensures Rising(ds)
  {
    forall i, j | 0 <= i < j < |ds| ensures ds[i].entry.code <= ds[j].entry.code {
      assert ds[j] == ds[1..][j - 1];
      if i > 0 { assert ds[i] == ds[1..][i - 1]; }
    }
  }

  // ----- What is written -----

  function Skip(ds: seq<Delivery>, start: nat): seq<Delivery>
  {
    if ds == [] || ds[0].entry.code >= start then ds else Skip(ds[1..], start)
  }

  function Until(ds: seq<Delivery>, end: nat): seq<Delivery>
  {
    if ds == [] || ds[0].entry.code >= end then [] else [ds[0]] + Until(ds[1..], end)
  }

  /** The entries written: the first may have the code of the end of the range, those after
      it must be below. */
  function Printed(ds: seq<Delivery>, start: nat, end: nat): seq<Delivery>
  {
    var r := Skip(ds, start);
    if r == [] || r[0].entry.code > end then [] else [r[0]] + Until(r[1..], end)
  }

  /** The entries with start <= code < end. */
  function Within(ds: seq<Delivery>, start: nat, end: nat): seq<Delivery>
  {
    if ds == [] then []
    else if start <= ds[0].entry.code < end then [ds[0]] + Within(ds[1..], start, end)
    else Within(ds[1..], start, end)
  }

  function WithinMap(es: seq<Entry>, start: nat, end: nat): seq<Entry>
  {
    if es == [] then []
    else if start <= es[0].code < end then [es[0]] + WithinMap(es[1..], start, end)
    else WithinMap(es[1..], start, end)
  }

  lemma RisingTail(ds: seq<Delivery>)
    requires ds != [] && Rising(ds)
    ensures Rising(ds[1..]) && AtLeast(ds[1..], ds[0].entry.code)
  {
  }

  lemma {:induction false} WithinNone(ds: seq<Delivery>, start: nat, end: nat)
    requires AtLeast(ds, end)
    ensures Within(ds, start, end) == []
    decreases |ds|
  {
    if ds != [] { WithinNone(ds[1..], start, end); }
  }

  lemma {:induction false} UntilIsWithin(ds: seq<Delivery>, start: nat, end: nat)
    requires Rising(ds) && AtLeast(ds, start)
    ensures Until(ds, end) == Within(ds, start, end)
    decreases |ds|
  {
    if ds != [] {
      RisingTail(ds);
      if ds[0].entry.code >= end {
        WithinNone(ds, start, end);
      } else {
        UntilIsWithin(ds[1..], start, end);
      }
    }
  }

  lemma {:induction false} SkipKeeps(ds: seq<Delivery>, start: nat, end: nat)
    requires Rising(ds)
    ensures Within(Skip(ds, start), start, end) == Within(ds, start, end)
    ensures Rising(Skip(ds, start)) && AtLeast(Skip(ds, start), start)
    decreases |ds|
  {
    if ds != [] && ds[0].entry.code < start {
      RisingTail(ds);
      SkipKeeps(ds[1..], start, end);
    }
  }

  /** Of entries in rising order exactly those with start <= code < end are written; only
      when there is none, one entry with the code of the end itself. */
  lemma PrintedIsWithin(ds: seq<Delivery>, start: nat, end: nat)
    requires Rising(ds)
    ensures Within(ds, start, end) != [] ==> Printed(ds, start, end) == Within(ds, start, end)
    ensures Within(ds, start, end) == [] ==>
      |Printed(ds, start, end)| <= 1 && forall d :: d in Printed(ds, start, end) ==> d.entry.code == end
  {
    SkipKeeps(ds, start, end);
    var r := Skip(ds, start);
    if r != [] {
      RisingTail(r);
      if r[0].entry.code < end {
        UntilIsWithin(r[1..], start, end);
      } else {
        WithinNone(r, start, end);
      }
    }
  }

  lemma WithinFirst(e: Entry, es: seq<Entry>, start: nat, end: nat)
    ensures WithinMap([e] + es, start, end) ==
      if start <= e.code < end then [e] + WithinMap(es, start, end) else WithinMap(es, start, end)
  {
    assert ([e] + es)[1..] == es;
  }

  lemma {:induction false} FromWithin(ds: seq<Delivery>, n: nat, start: nat, end: nat)
    ensures From(Within(ds, start, end), n) == WithinMap(From(ds, n), start, end)
    decreases |ds|
  {
    if ds != [] {
      FromWithin(ds[1..], n, start, end);
      FromFirst(ds[0], Within(ds[1..], start, end), n);
      WithinFirst(ds[0].entry, From(ds[1..], n), start, end);
    }
  }

  /** When nothing is overtaken: of every map exactly the entries with start <= code < end
      are written, each once and in order, unless there is none in the whole range. */
  lemma WritesTheRange(files: Maps, pos: seq<nat>, start: nat, end: nat, n: nat)
    requires Ready(files, pos) && AllSorted(files) && NoneOvertakes(files, pos) && n < |files|
    ensures var ds := Deliver(files, pos);
      Within(ds, start, end) != [] ==> From(Printed(ds, start, end), n) == WithinMap(files[n][pos[n]..], start, end)
  {
    RisesExactly(files, pos);
    PrintedIsWithin(Deliver(files, pos), start, end);
    FromWithin(Deliver(files, pos), n, start, end);
    Conserved(files, pos, n);
  }

  // ----- Blocks of fifty -----

  datatype Line = FileRange(first: nat, last: nat) | RangeStart(first: nat, last: nat) | Item(entry: Entry) | RangeEnd

  datatype Block = Block(bucket: nat, items: seq<Entry>)

  /** One more entry: into the last block when the bucket is the same, else into a new one. */
  function Add(bs: seq<Block>, e: Entry): (r: seq<Block>)
    ensures r != [] && r[|r| - 1].bucket == e.code / 50
  {
    if bs != [] && bs[|bs| - 1].bucket == e.code / 50
    then bs[|bs| - 1 := bs[|bs| - 1].(items := bs[|bs| - 1].items + [e])]
    else bs + [Block(e.code / 50, [e])]
  }

  /** Entries gathered while their bucket of fifty codes stays the same. */
  function Blocks(es: seq<Entry>): (r: seq<Block>)
    ensures es != [] ==> r != [] && r[|r| - 1].bucket == es[|es| - 1].code / 50
    decreases |es|
  {
    if es == [] then [] else Add(Blocks(es[..|es| - 1]), es[|es| - 1])
  }

  /** The bounds written for the bucket of a code. */
  function First(bucket: nat, start: nat): nat { if bucket * 50 < start then start else bucket * 50 }

  function Last(bucket: nat, end: nat): nat { if bucket * 50 + 49 > end then end else bucket * 50 + 49 }

  function Items(es: seq<Entry>): (r: seq<Line>)
    ensures |r| == |es|
  {
    if es == [] then [] else Items(es[..|es| - 1]) + [Item(es[|es| - 1])]
  }

  /** A block up to its last item, and a run of blocks with the last one closed or not. */
  function Open(bs: seq<Block>, start: nat, end: nat): seq<Line>
    decreases |bs|, 0
  {
    if bs == [] then []
    else
      var b := bs[|bs| - 1];
      Closed(bs[..|bs| - 1], start, end) + [RangeStart(First(b.bucket, start), Last(b.bucket, end))] + Items(b.items)
  }

  function Closed(bs: seq<Block>, start: nat, end: nat): seq<Line>
    decreases |bs|, 1
  {
    if bs == [] then [] else Open(bs, start, end) + [RangeEnd]
  }

  function Flat(bs: seq<Block>): seq<Entry>
  {
    if bs == [] then [] else Flat(bs[..|bs| - 1]) + bs[|bs| - 1].items
  }

  function Entries(ds: seq<Delivery>): (r: seq<Entry>)
    ensures |r| == |ds| && forall i :: 0 <= i < |ds| ==> r[i] == ds[i].entry
  {
    seq(|ds|, i requires 0 <= i < |ds| => ds[i].entry)
  }

  /** The bounds of a block lie in the range, and hold of the codes in the range exactly
      those of its bucket. */
  ghost predicate Cuts(bucket: nat, first: nat, last: nat, start: nat, end: nat) {
    && start <= first <= last <= end
    && forall code: nat :: start <= code <= end ==> (Holds(first, last, code) <==> code / 50 == bucket)
  }

  predicate Holds(first: nat, last: nat, code: nat) { first <= code <= last }

  ghost predicate Bounded(b: Block, start: nat, end: nat) {
    && Cuts(b.bucket, First(b.bucket, start), Last(b.bucket, end), start, end)
    && forall e :: e in b.items ==> e.code / 50 == b.bucket && First(b.bucket, start) <= e.code <= Last(b.bucket, end)
  }

  ghost predicate Between(es: seq<Entry>, start: nat, end: nat) {
    forall i :: 0 <= i < |es| ==> start <= es[i].code <= end
  }

  ghost predicate RisingCodes(es: seq<Entry>) {
    forall i, j :: 0 <= i < j < |es| ==> es[i].code <= es[j].code
  }

  lemma InBounds(code: nat, start: nat, end: nat)
    requires start <= code <= end
    ensures First(code / 50, start) <= code <= Last(code / 50, end)
    ensures Cuts(code / 50, First(code / 50, start), Last(code / 50, end), start, end)
  {
    var b := code / 50;
    forall c: nat | start <= c <= end ensures Holds(First(b, start), Last(b, end), c) <==> c / 50 == b {
      assert 50 * b <= c < 50 * (b + 1) <==> c / 50 == b;
    }
  }

  /** At most one block for every bucket, each within its bounds, with the entries in order. */
  ghost predicate Right(bs: seq<Block>, es: seq<Entry>, start: nat, end: nat) {
    && Flat(bs) == es
    && (forall i, j :: 0 <= i < j < |bs| ==> bs[i].bucket < bs[j].bucket)
    && (forall i :: 0 <= i < |bs| ==> Bounded(bs[i], start, end) && bs[i].items != [])
  }

  lemma SameBlock(bs: seq<Block>, es: seq<Entry>, e: Entry, start: nat, end: nat)
    requires bs != [] && Right(bs, es, start, end) && start <= e.code <= end && bs[|bs| - 1].bucket == e.code / 50
    ensures Right(Add(bs, e), es + [e], start, end)
  {
    var (n, b) := (|bs| - 1, bs[|bs| - 1]);
    var cs := Add(bs, e);
    InBounds(e.code, start, end);
    assert cs[..n] == bs[..n];
    assert Flat(bs[..n]) + b.items + [e] == Flat(bs[..n]) + (b.items + [e]);
    assert Bounded(cs[n], start, end) by { assert Bounded(b, start, end); }
    forall i | 0 <= i < n ensures Bounded(cs[i], start, end) && cs[i].items != [] {
      assert cs[i] == bs[i];
    }
  }

  lemma NewBlock(bs: seq<Block>, es: seq<Entry>, e: Entry, start: nat, end: nat)
    requires Right(bs, es, start, end) && start <= e.code <= end && (bs != [] ==> bs[|bs| - 1].bucket < e.code / 50)
    ensures Right(Add(bs, e), es + [e], start, end)
  {
    InBounds(e.code, start, end);
    Appended(bs, es, Block(e.code / 50, [e]), start, end);
  }

  lemma Appended(bs: seq<Block>, es: seq<Entry>, b: Block, start: nat, end: nat)
    requires Right(bs, es, start, end) && Bounded(b, start, end) && b.items != []
    requires bs != [] ==> bs[|bs| - 1].bucket < b.bucket
    ensures Right(bs + [b], es + b.items, start, end)
  {
    var cs := bs + [b];
    assert cs[..|bs|] == bs && cs[|bs|] == b;
    assert Flat(cs) == Flat(bs) + b.items;
    forall i | 0 <= i < |cs| ensures Bounded(cs[i], start, end) && cs[i].items != [] {
      if i < |bs| { assert cs[i] == bs[i]; }
    }
  }

  lemma AddRight(bs: seq<Block>, es: seq<Entry>, e: Entry, start: nat, end: nat)
    requires Right(bs, es, start, end) && start <= e.code <= end && (bs != [] ==> bs[|bs| - 1].bucket <= e.code / 50)
    ensures Right(Add(bs, e), es + [e], start, end)
  {
    if bs != [] && bs[|bs| - 1].bucket == e.code / 50 {
      SameBlock(bs, es, e, start, end);
    } else {
      NewBlock(bs, es, e, start, end);
    }
  }

  lemma RisingInit(es: seq<Entry>, start: nat, end: nat)
    requires es != [] && RisingCodes(es) && Between(es, start, end)
    ensures var ms := es[..|es| - 1];
      RisingCodes(ms) && Between(ms, start, end) && (ms != [] ==> ms[|ms| - 1].code <= es[|es| - 1].code)
  {
  }

  lemma BlocksSnoc(es: seq<Entry>, e: Entry)
    ensures Blocks(es + [e]) == Add(Blocks(es), e)
  {
    assert (es + [e])[..|es|] == es;
  }

  lemma LastBucket(ms: seq<Entry>, e: Entry)
    requires ms != [] ==> ms[|ms| - 1].code <= e.code
    ensures Blocks(ms) != [] ==> Blocks(ms)[|Blocks(ms)| - 1].bucket <= e.code / 50
  {
  }

  lemma {:induction false} BlocksStep(ms: seq<Entry>, e: Entry, start: nat, end: nat)
    requires Right(Blocks(ms), ms, start, end) && start <= e.code <= end && (ms != [] ==> ms[|ms| - 1].code <= e.code)
    ensures Right(Blocks(ms + [e]), ms + [e], start, end)
  {
    LastBucket(ms, e);
    BlocksSnoc(ms, e);
    AddRight(Blocks(ms), ms, e, start, end);
  }

  /** The blocks hold the entries in order, at most one block for every bucket, and every
      entry lies within the bounds of its block, which hold no other codes of the range. */
  lemma {:induction false} BlocksRight(es: seq<Entry>, start: nat, end: nat)
    requires RisingCodes(es) && Between(es, start, end)
    ensures Right(Blocks(es), es, start, end)
    decreases |es|
  {
    if es != [] {
      var (ms, e) := (es[..|es| - 1], es[|es| - 1]);
      RisingInit(es, start, end);
      assert ms + [e] == es;
      BlocksRight(ms, start, end);
      BlocksStep(ms, e, start, end);
    }
  }

  lemma EntriesSnoc(ds: seq<Delivery>, d: Delivery)
    ensures Entries(ds + [d]) == Entries(ds) + [d.entry]
  {
  }

  lemma ItemsAdd(es: seq<Entry>, e: Entry)
    ensures Items(es + [e]) == Items(es) + [Item(e)]
  {
    assert (es + [e])[..|es|] == es;
  }

  lemma OpenSame(bs: seq<Block>, e: Entry, start: nat, end: nat)
    requires bs != [] && bs[|bs| - 1].bucket == e.code / 50
    ensures Open(Add(bs, e), start, end) == Open(bs, start, end) + [Item(e)]
  {
    var (b, n) := (bs[|bs| - 1], |bs| - 1);
    ItemsAdd(b.items, e);
    var cs := bs[n := b.(items := b.items + [e])];
    assert cs[..n] == bs[..n];
    var rest := Closed(bs[..n], start, end) + [RangeStart(First(b.bucket, start), Last(b.bucket, end))];
    assert rest + (Items(b.items) + [Item(e)]) == rest + Items(b.items) + [Item(e)];
  }

  lemma OpenNew(bs: seq<Block>, e: Entry, start: nat, end: nat)
    ensures Open(bs + [Block(e.code / 50, [e])], start, end) ==
      Closed(bs, start, end) + [RangeStart(First(e.code / 50, start), Last(e.code / 50, end))] + [Item(e)]
  {
    ItemsAdd([], e);
    assert [] + [e] == [e];
    assert (bs + [Block(e.code / 50, [e])])[..|bs|] == bs;
  }

  /** What one more entry adds to the lines of a run of blocks. */
  lemma OpenAdd(bs: seq<Block>, e: Entry, start: nat, end: nat)
    ensures Open(Add(bs, e), start, end) ==
      (if bs != [] && bs[|bs| - 1].bucket == e.code / 50 then Open(bs, start, end)
       else Closed(bs, start, end) + [RangeStart(First(e.code / 50, start), Last(e.code / 50, end))]) + [Item(e)]
  {
    if bs != [] && bs[|bs| - 1].bucket == e.code / 50 {
      OpenSame(bs, e, start, end);
    } else {
      OpenNew(bs, e, start, end);
    }
  }

  lemma ClosedIs(head: seq<Line>, bs: seq<Block>, start: nat, end: nat)
    requires bs != []
    ensures head + Open(bs, start, end) + [RangeEnd] == head + Closed(bs, start, end)
  {
  }

  /** The same behind what was written before. */
  lemma OpenBehind(head: seq<Line>, bs: seq<Block>, e: Entry, start: nat, end: nat)
    ensures var s := RangeStart(First(e.code / 50, start), Last(e.code / 50, end));
      head + Open(Add(bs, e), start, end) ==
        if bs != [] && bs[|bs| - 1].bucket == e.code / 50 then head + Open(bs, start, end) + [Item(e)]
        else if bs != [] then head + Open(bs, start, end) + [RangeEnd] + [s] + [Item(e)]
        else head + Open(bs, start, end) + [s] + [Item(e)]
  {
    OpenAdd(bs, e, start, end);
  }

  lemma Regroup(ds: seq<Delivery>, d: Delivery, rest: seq<Delivery>)
    ensures ds + ([d] + rest) == ds + [d] + rest
  {
  }

  lemma UntilFirst(d: Delivery, ds: seq<Delivery>, end: nat)
    ensures Until([d] + ds, end) == if d.entry.code >= end then [] else [d] + Until(ds, end)
  {
    assert ([d] + ds)[1..] == ds;
  }

  lemma SkipFirst(d: Delivery, ds: seq<Delivery>, start: nat)
    ensures Skip([d] + ds, start) == if d.entry.code >= start then [d] + ds else Skip(ds, start)
  {
    assert ([d] + ds)[1..] == ds;
  }

  lemma {:induction false} UntilRises(ds: seq<Delivery>, end: nat)
    requires Rising(ds)
    ensures Rising(Until(ds, end)) && forall i :: 0 <= i < |Until(ds, end)| ==> Until(ds, end)[i].entry.code < end
    ensures forall c: nat :: AtLeast(ds, c) ==> AtLeast(Until(ds, end), c)
    decreases |ds|
  {
    if ds != [] && ds[0].entry.code < end {
      RisingTail(ds);
      UntilRises(ds[1..], end);
      assert Until(ds, end)[1..] == Until(ds[1..], end);
      FirstLeast(Until(ds, end));
    }
  }

  lemma PrintedRises(ds: seq<Delivery>, start: nat, end: nat)
    requires Rising(ds)
    ensures RisingCodes(Entries(Printed(ds, start, end))) && Between(Entries(Printed(ds, start, end)), start, end)
  {
    SkipKeeps(ds, start, end);
    var (r, p) := (Skip(ds, start), Printed(ds, start, end));
    if p != [] {
      RisingTail(r);
      UntilRises(r[1..], end);
      assert p[1..] == Until(r[1..], end);
      FirstLeast(p);
    }
  }

  /** When nothing is overtaken the blocks written hold the entries in order, at most one
      block for every bucket of fifty, and every entry lies within the bounds of its block. */
  lemma WritesRightBlocks(files: Maps, pos: seq<nat>, start: nat, end: nat)
    requires Ready(files, pos) && AllSorted(files) && NoneOvertakes(files, pos)
    ensures var es := Entries(Printed(Deliver(files, pos), start, end)); Right(Blocks(es), es, start, end)
  {
    RisesExactly(files, pos);
    PrintedRises(Deliver(files, pos), start, end);
    BlocksRight(Entries(Printed(Deliver(files, pos), start, end)), start, end);
  }

  // ----- Reading the lines back -----

  /** What stands between a range line and its end. */
  datatype Range = Range(first: nat, last: nat, items: seq<Entry>)

  /** The ranges that lines of a file open, and whether the last one is still open; nothing
      when an entry or an end stands outside, or a range begins inside another. */
  function ReadLines(lines: seq<Line>): (r: Option<(seq<Range>, bool)>)
    ensures r.Some? && r.value.1 ==> r.value.0 != []
  {
    if lines == [] then Some(([], false)) else
    match ReadLines(lines[..|lines| - 1])
    case None => None
    case Some((rs, open)) =>
      match lines[|lines| - 1]
      case FileRange(_, _) => None
      case RangeStart(first, last) => if open then None else Some((rs + [Range(first, last, [])], true))
      case Item(e) =>
        if !open then None else
        var r := rs[|rs| - 1];
        Some((rs[..|rs| - 1] + [r.(items := r.items + [e])], true))
      case RangeEnd => if open then Some((rs, false)) else None
  }

  function RangeOf(b: Block, start: nat, end: nat): Range {
    Range(First(b.bucket, start), Last(b.bucket, end), b.items)
  }

  function Ranges(bs: seq<Block>, start: nat, end: nat): (rs: seq<Range>)
    ensures |rs| == |bs| && forall i :: 0 <= i < |bs| ==> rs[i] == RangeOf(bs[i], start, end)
  {
    seq(|bs|, i requires 0 <= i < |bs| => RangeOf(bs[i], start, end))
  }

  lemma ReadSnoc(lines: seq<Line>, l: Line)
    ensures (lines + [l])[..|lines|] == lines
  {
  }

  lemma ItemRead(lines: seq<Line>, rs: seq<Range>, first: nat, last: nat, es: seq<Entry>, e: Entry)
    requires ReadLines(lines) == Some((rs + [Range(first, last, es)], true))
    ensures ReadLines(lines + [Item(e)]) == Some((rs + [Range(first, last, es + [e])], true))
  {
    var all := rs + [Range(first, last, es)];
    ReadSnoc(lines, Item(e));
    assert all[..|all| - 1] == rs && all[|all| - 1] == Range(first, last, es);
  }

  lemma ItemsSnoc(lines: seq<Line>, es: seq<Entry>, e: Entry)
    ensures lines + Items(es + [e]) == (lines + Items(es)) + [Item(e)]
  {
    ItemsAdd(es, e);
  }

  lemma {:induction false} ItemsRead(lines: seq<Line>, rs: seq<Range>, first: nat, last: nat, es: seq<Entry>)
    requires ReadLines(lines) == Some((rs + [Range(first, last, [])], true))
    ensures ReadLines(lines + Items(es)) == Some((rs + [Range(first, last, es)], true))
    decreases |es|
  {
    if es == [] {
      assert lines + Items(es) == lines;
    } else {
      var (ms, e) := (es[..|es| - 1], es[|es| - 1]);
      assert ms + [e] == es;
      ItemsRead(lines, rs, first, last, ms);
      ItemRead(lines + Items(ms), rs, first, last, ms, e);
      ItemsSnoc(lines, ms, e);
    }
  }

  lemma RangeRead(lines: seq<Line>, rs: seq<Range>, r: Range)
    requires ReadLines(lines) == Some((rs, false))
    ensures ReadLines(lines + [RangeStart(r.first, r.last)] + Items(r.items)) == Some((rs + [r], true))
  {
    ReadSnoc(lines, RangeStart(r.first, r.last));
    ItemsRead(lines + [RangeStart(r.first, r.last)], rs, r.first, r.last, r.items);
  }

  lemma EndRead(lines: seq<Line>, rs: seq<Range>)
    requires ReadLines(lines) == Some((rs, true))
    ensures ReadLines(lines + [RangeEnd]) == Some((rs, false))
  {
    ReadSnoc(lines, RangeEnd);
  }

  lemma RangesSnoc(bs: seq<Block>, b: Block, start: nat, end: nat)
    ensures Ranges(bs + [b], start, end) == Ranges(bs, start, end) + [RangeOf(b, start, end)]
  {
  }

  /** The lines of a run of blocks read back as the blocks. */
  lemma {:induction false} BlocksRead(bs: seq<Block>, start: nat, end: nat)
    ensures ReadLines(Open(bs, start, end)) == Some((Ranges(bs, start, end), bs != []))
    ensures ReadLines(Closed(bs, start, end)) == Some((Ranges(bs, start, end), false))
    decreases |bs|
  {
    if bs != [] {
      var (cs, b) := (bs[..|bs| - 1], bs[|bs| - 1]);
      BlocksRead(cs, start, end);
      RangeRead(Closed(cs, start, end), Ranges(cs, start, end), RangeOf(b, start, end));
      RangesSnoc(cs, b, start, end);
      assert cs + [b] == bs;
      EndRead(Open(bs, start, end), Ranges(bs, start, end));
    } else {
      assert Ranges(bs, start, end) == [];
    }
  }

  function AllItems(rs: seq<Range>): seq<Entry> {
    if rs == [] then [] else AllItems(rs[..|rs| - 1]) + rs[|rs| - 1].items
  }

  /** The ranges hold the entries in order, none is empty, they rise without touching, and
      each holds of the codes in the whole range exactly the fifty of its entries. */
  ghost predicate RightRanges(rs: seq<Range>, es: seq<Entry>, start: nat, end: nat) {
    && AllItems(rs) == es
    && (forall i, j :: 0 <= i < j < |rs| ==> rs[i].last < rs[j].first)
    && forall i :: 0 <= i < |rs| ==>
         && rs[i].items != []
         && Cuts(rs[i].items[0].code / 50, rs[i].first, rs[i].last, start, end)
         && forall e :: e in rs[i].items ==> Holds(rs[i].first, rs[i].last, e.code)
  }

  lemma {:induction false} FlatRanges(bs: seq<Block>, start: nat, end: nat)
    ensures AllItems(Ranges(bs, start, end)) == Flat(bs)
    decreases |bs|
  {
    if bs != [] {
      FlatRanges(bs[..|bs| - 1], start, end);
      assert Ranges(bs, start, end)[..|bs| - 1] == Ranges(bs[..|bs| - 1], start, end);
    }
  }

  lemma RightApart(bs: seq<Block>, es: seq<Entry>, start: nat, end: nat)
    requires Right(bs, es, start, end)
    ensures RightRanges(Ranges(bs, start, end), es, start, end)
  {
    FlatRanges(bs, start, end);
    forall i, j | 0 <= i < j < |bs| ensures Last(bs[i].bucket, end) < First(bs[j].bucket, start) {
      assert Bounded(bs[i], start, end) && Bounded(bs[j], start, end);
      BucketsApart(bs[i].bucket, bs[j].bucket, start, end);
    }
    forall i | 0 <= i < |bs| ensures bs[i].items[0].code / 50 == bs[i].bucket {
      assert Bounded(bs[i], start, end) && bs[i].items[0] in bs[i].items;
    }
  }

  lemma BucketsApart(b: nat, c: nat, start: nat, end: nat)
    requires b < c && Cuts(b, First(b, start), Last(b, end), start, end)
    requires Cuts(c, First(c, start), Last(c, end), start, end)
    ensures Last(b, end) < First(c, start)
  {
  }

  /** When nothing is overtaken the lines behind the first read back as such ranges, of
      exactly the entries written. */
  lemma LinesRight(files: Maps, pos: seq<nat>, start: nat, end: nat)
    requires Ready(files, pos) && AllSorted(files) && NoneOvertakes(files, pos)
    ensures var es := Entries(Printed(Deliver(files, pos), start, end));
      var r := ReadLines(Closed(Blocks(es), start, end));
      r.Some? && !r.value.1 && RightRanges(r.value.0, es, start, end)
  {
    var es := Entries(Printed(Deliver(files, pos), start, end));
    WritesRightBlocks(files, pos, start, end);
    BlocksRead(Blocks(es), start, end);
    RightApart(Blocks(es), es, start, end);
  }

  // ----- The object -----

  class UCSToDATConvertor {
    var rangeStart: nat
    var rangeEnd: nat
    var files: Maps
    var pos: seq<nat>
    var dat: seq<Line>

    constructor (maps: Maps)
      ensures files == maps && rangeStart == rangeEnd == 0 && Ready(files, pos) && pos == seq(|maps|, _ => 0)
      ensures dat == []
    {
      rangeStart, rangeEnd, files, dat := 0, 0, maps, [];
      pos := seq(|maps|, _ => 0);
    }

    /** `setRange` refuses a range that ends before it starts. */
    method SetRange(start: nat, end: nat) returns (ok: bool)
      modifies this`rangeStart, this`rangeEnd
      ensures ok == (start <= end)
      ensures (rangeStart, rangeEnd) == if ok then (start, end) else (old(rangeStart), old(rangeEnd))
    {
      if end < start { return false; }
      rangeStart, rangeEnd, ok := start, end, true;
    }

    /** The search of `_nextEntry`: the first waiting map, then the first behind it with a
        smaller code. */
    method Select() returns (k: nat)
      requires Ready(files, pos)
      ensures k == Pick(files, pos)
    {
      var (i, code) := (0, 0);
      k := |files|;
      while i < |files|
        invariant i <= |files| && k == |files| && forall j :: 0 <= j < i ==> !Waits(files, pos, j)
      {
        if pos[i] != |files[i]| {
          k, code := i, files[i][pos[i]].code;
          break;
        }
        i := i + 1;
      }
      FirstIs(files, pos, 0, i);
      ghost var a := i;
      while i < |files|
        invariant a <= i <= |files| && k == a && (a < |files| ==> code == Head(files, pos, a).code)
        invariant a < |files| ==> forall j :: a <= j < i ==> !(Waits(files, pos, j) && Head(files, pos, j).code < code)
      {
        if pos[i] != |files[i]| && files[i][pos[i]].code < code {
          k := i;
          break;
        }
        i := i + 1;
      }
      if a < |files| { SmallerIs(files, pos, a, code, i); }
    }

    /** `_nextEntry`. */
    method NextEntry() returns (got: bool, e: Entry, ghost n: nat)
      requires Ready(files, pos)
      modifies this`pos
      ensures Ready(files, pos) && n == Pick(files, old(pos)) && got == (n < |files|)
      ensures got ==> e == Head(files, old(pos), n) && pos == old(pos)[n := old(pos)[n] + 1]
      ensures !got ==> pos == old(pos)
      ensures Deliver(files, old(pos)) == Ahead(got, n, e, files, pos)
      ensures Remaining(files, pos) + (if got then 1 else 0) <= Remaining(files, old(pos))
    {
      var k := Select();
      n := k;
      if k == |files| { return false, Entry(0, ""), n; }
      DeliverStep(files, pos);
      got, e, pos := true, files[k][pos[k]], pos[k := pos[k] + 1];
    }

    /** `_startRange`: the bucket of fifty codes, cut to the range. */
    method StartRange(value: nat)
      modifies this`dat
      ensures dat == old(dat) + [RangeStart(First(value / 50, rangeStart), Last(value / 50, rangeEnd))]
    {
      var (v, end) := (value / 50 * 50, value / 50 * 50 + 49);
      if v < rangeStart { v := rangeStart; }
      if end > rangeEnd { end := rangeEnd; }
      dat := dat + [RangeStart(v, end)];
    }

    /** The blocks written so far, as lines, with the last one open. */
    ghost predicate Wrote(bs: seq<Block>, inRange: bool, current: nat)
      reads this`dat, this`rangeStart, this`rangeEnd
    {
      && dat == [FileRange(rangeStart, rangeEnd)] + Open(bs, rangeStart, rangeEnd)
      && inRange == (bs != []) && (bs != [] ==> bs[|bs| - 1].bucket == current)
    }

    /** The body of the loop of `doConvertion`. */
    method WriteEntry(e: Entry, inRange: bool, current: nat, ghost bs: seq<Block>) returns (now: nat)
      requires Wrote(bs, inRange, current)
      modifies this`dat
      ensures Wrote(Add(bs, e), true, now)
    {
      OpenBehind([FileRange(rangeStart, rangeEnd)], bs, e, rangeStart, rangeEnd);
      now := e.code / 50;
      if !inRange || now != current {
        if inRange { dat := dat + [RangeEnd]; }
        StartRange(e.code);
      }
      dat := dat + [Item(e)];
    }

    /** The loop of `doConvertion`, which runs at least once. */
    method WriteBlocks(first: Entry, ghost source: nat)
      requires Ready(files, pos) && Wrote(Blocks(Entries([])), false, 0)
      modifies this`pos, this`dat
      ensures dat == [FileRange(rangeStart, rangeEnd)] +
        Closed(Blocks(Entries([Delivery(source, first)] + Until(Deliver(files, old(pos)), rangeEnd))),
               rangeStart, rangeEnd)
    {
      ghost var (ds, wanted) := ([], [Delivery(source, first)] + Until(Deliver(files, pos), rangeEnd));
      var (e, more, inRange, current) := (first, true, false, 0);
      ghost var n := source;
      while more
        invariant Ready(files, pos) && Wrote(Blocks(Entries(ds)), inRange, current)
        invariant wanted == if more then ds + [Delivery(n, e)] + Until(Deliver(files, pos), rangeEnd) else ds
        invariant !more ==> ds != []
        decreases Remaining(files, pos) + if more then 1 else 0
      {
        current := WriteEntry(e, inRange, current, Blocks(Entries(ds)));
        EntriesSnoc(ds, Delivery(n, e));
        BlocksSnoc(Entries(ds), e);
        inRange, ds := true, ds + [Delivery(n, e)];
        more, e, n := NextEntry();
        if more {
          UntilFirst(Delivery(n, e), Deliver(files, pos), rangeEnd);
          if e.code >= rangeEnd { more := false; }
        }
        if more { Regroup(ds, Delivery(n, e), Until(Deliver(files, pos), rangeEnd)); }
      }
      assert Entries(ds) != [];
      ClosedIs([FileRange(rangeStart, rangeEnd)], Blocks(Entries(ds)), rangeStart, rangeEnd);
      dat := dat + [RangeEnd];
    }

    /** The first loop of `doConvertion`: past everything before the range. */
    method SkipBefore() returns (got: bool, e: Entry, ghost n: nat)
      requires Ready(files, pos)
      modifies this`pos
      ensures Ready(files, pos) && Skip(Deliver(files, old(pos)), rangeStart) == Ahead(got, n, e, files, pos)
    {
      got, e, n := NextEntry();
      while got && e.code < rangeStart
        invariant Ready(files, pos)
        invariant Skip(Ahead(got, n, e, files, pos), rangeStart) == Skip(Deliver(files, old(pos)), rangeStart)
        decreases Remaining(files, pos) + if got then 1 else 0
      {
        SkipFirst(Delivery(n, e), Deliver(files, pos), rangeStart);
        got, e, n := NextEntry();
      }
      if got { SkipFirst(Delivery(n, e), Deliver(files, pos), rangeStart); }
    }

    /** `doConvertion`: skip what lies before the range, then write entries, in blocks, until
        one lies at the end of the range or behind. */
    method DoConvertion()
      modifies this`pos, this`dat
      ensures dat == [FileRange(rangeStart, rangeEnd)] +
        Closed(Blocks(Entries(Printed(Deliver(files, seq(|files|, _ => 0)), rangeStart, rangeEnd))),
               rangeStart, rangeEnd)
    {
      pos, dat := seq(|files|, _ => 0), [FileRange(rangeStart, rangeEnd)];
      ghost var all := Deliver(files, pos);
      var got, e, n := SkipBefore();
      if got && e.code <= rangeEnd {
        ghost var d := Delivery(n, e);
        assert ([d] + Deliver(files, pos))[1..] == Deliver(files, pos);
        assert Printed(all, rangeStart, rangeEnd) == [d] + Until(Deliver(files, pos), rangeEnd);
        assert Entries([]) == [];
        WriteBlocks(e, n);
      } else {
        assert Printed(all, rangeStart, rangeEnd) == [] && Entries([]) == [];
      }
    }
  }

  /** The entry in hand, if any, and what `_nextEntry` has yet to deliver. */
  ghost function Ahead(got: bool, n: nat, e: Entry, files: Maps, pos: seq<nat>): seq<Delivery>
    requires Ready(files, pos)
  {
    if got then [Delivery(n, e)] + Deliver(files, pos) else []
  }
}
