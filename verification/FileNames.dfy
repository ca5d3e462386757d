/** Names compared without case, and the child lists of a folder: linear scan, binary
    search with a prefix comparison, and sorting. */
module FileNames {
  import opened Options

  // ----- stricmp and strnicmp -----

  function FoldChar(c: char): char {
    if 'A' <= c <= 'Z' then (c as int + 32) as char else c
  }

  function Fold(s: string): (r: string)
    ensures |r| == |s| && forall i :: 0 <= i < |s| ==> r[i] == FoldChar(s[i])
  {
    seq(|s|, i requires 0 <= i < |s| => FoldChar(s[i]))
  }

  /** Lexicographic comparison: negative, zero or positive. */
  function Compare(a: string, b: string): int {
    if a == "" then (if b == "" then 0 else -1)
    else if b == "" then 1
    else if a[0] < b[0] then -1
    else if a[0] > b[0] then 1
    else Compare(a[1..], b[1..])
  }

  function Stricmp(a: string, b: string): int {
    Compare(Fold(a), Fold(b))
  }

  function Strnicmp(a: string, b: string, n: nat): int {
    Compare(Fold(if |a| < n then a else a[..n]), Fold(if |b| < n then b else b[..n]))
  }

  predicate SameName(a: string, b: string) {
    Fold(a) == Fold(b)
  }

  lemma {:induction false} CompareZero(a: string, b: string)
    ensures Compare(a, b) == 0 <==> a == b
  {
    if a != "" && b != "" && a[0] == b[0] {
      CompareZero(a[1..], b[1..]);
      assert a == [a[0]] + a[1..] && b == [b[0]] + b[1..];
    }
  }

  lemma {:induction false} CompareSwap(a: string, b: string)
    ensures Compare(a, b) == -Compare(b, a)
  {
    if a != "" && b != "" && a[0] == b[0] { CompareSwap(a[1..], b[1..]); }
  }

  lemma {:induction false} CompareTransitive(a: string, b: string, c: string)
    requires Compare(a, b) < 0 && Compare(b, c) < 0
    ensures Compare(a, c) < 0
  {
    if a != "" && b != "" && c != "" && a[0] == b[0] && b[0] == c[0] { CompareTransitive(a[1..], b[1..], c[1..]); }
  }

  lemma {:induction false} ComparePrefix(a: string, b: string)
    ensures var r := Compare(if |a| < |b| then a else a[..|b|], b);
            Compare(a, b) == if r != 0 then r else if |a| == |b| then 0 else 1
  {
    if b != "" && a != "" && a[0] == b[0] {
      ComparePrefix(a[1..], b[1..]);
      if |a| >= |b| { assert a[..|b|][1..] == a[1..][..|b| - 1]; }
    } else if b == "" {
      assert a[..0] == "";
    }
  }

  /** Comparing as many characters as the wanted name has, and then the lengths, decides
      as the full comparison does. */
  lemma PrefixDecides(name: string, c: string)
    ensures var r := Strnicmp(name, c, |c|);
            Stricmp(name, c) == if r != 0 then r else if |name| == |c| then 0 else 1
  {
    var short := if |name| < |c| then name else name[..|c|];
    assert Fold(short) == if |name| < |c| then Fold(name) else Fold(name)[..|c|];
    assert c[..|c|] == c;
    ComparePrefix(Fold(name), Fold(c));
  }

  // ----- Lists of named things -----

  datatype Named<+T> = Named(name: string, item: T)

  /** The first entry called `c`, or the length of the list: a linear scan. */
  function IndexOf<T>(s: seq<Named<T>>, c: string): (i: nat)
    ensures i <= |s|
    ensures i < |s| ==> SameName(s[i].name, c)
    ensures forall j :: 0 <= j < i ==> !SameName(s[j].name, c)
  {
    if s == [] || SameName(s[0].name, c) then 0 else 1 + IndexOf(s[1..], c)
  }

  function Find<T>(s: seq<Named<T>>, c: string): Option<T> {
    var i := IndexOf(s, c);
    if i < |s| then Some(s[i].item) else None
  }

  /** No two entries have the same name. */
  ghost predicate Distinct<T>(s: seq<Named<T>>) {
    forall i, j :: 0 <= i < j < |s| ==> !SameName(s[i].name, s[j].name)
  }

  ghost predicate Strict<T>(s: seq<Named<T>>) {
    forall i, j :: 0 <= i < j < |s| ==> Stricmp(s[i].name, s[j].name) < 0
  }

  lemma StrictDistinct<T>(s: seq<Named<T>>)
    requires Strict(s)
    ensures Distinct(s)
  {
    forall i, j | 0 <= i < j < |s| ensures !SameName(s[i].name, s[j].name) {
      CompareZero(Fold(s[i].name), Fold(s[j].name));
    }
  }

  lemma FindIs<T>(s: seq<Named<T>>, i: nat, c: string)
    requires Distinct(s) && i < |s| && SameName(s[i].name, c)
    ensures IndexOf(s, c) == i && Find(s, c) == Some(s[i].item)
  {
  }

  lemma FindSet<T>(s: seq<Named<T>>, i: nat, item: T, c: string)
    requires Distinct(s) && i < |s|
    ensures var r := s[i := Named(s[i].name, item)];
            Distinct(r) && Find(r, c) == if SameName(s[i].name, c) then Some(item) else Find(s, c)
  {
    var r := s[i := Named(s[i].name, item)];
    assert forall j :: 0 <= j < |s| ==> r[j].name == s[j].name;
    if IndexOf(s, c) < |s| { FindIs(r, IndexOf(s, c), c); }
    if SameName(s[i].name, c) { FindIs(s, i, c); }
  }

  lemma FindSnoc<T>(s: seq<Named<T>>, x: Named<T>, c: string)
    requires Distinct(s) && Find(s, x.name) == None
    ensures Distinct(s + [x]) && Find(s + [x], c) == if SameName(x.name, c) then Some(x.item) else Find(s, c)
  {
    var r := s + [x];
    forall i, j | 0 <= i < j < |r| ensures !SameName(r[i].name, r[j].name) {
      if j == |s| { assert IndexOf(s, x.name) == |s|; }
    }
    if IndexOf(s, c) < |s| { FindIs(r, IndexOf(s, c), c); }
    else if SameName(x.name, c) { FindIs(r, |s|, c); }
  }

  // ----- std::sort by stricmp -----

  function Insert<T>(x: Named<T>, s: seq<Named<T>>): (r: seq<Named<T>>)
    ensures |r| == |s| + 1 && multiset(r) == multiset{x} + multiset(s)
  {
    if s == [] || Stricmp(x.name, s[0].name) < 0 then [x] + s
    else
      var r := [s[0]] + Insert(x, s[1..]);
      assert s == [s[0]] + s[1..];
      r
  }

  /** The sorted list; with distinct names there is only one. */
  function Sort<T>(s: seq<Named<T>>): (r: seq<Named<T>>)
    ensures |r| == |s| && multiset(r) == multiset(s)
  {
    if s == [] then []
    else
      assert s == [s[0]] + s[1..];
      Insert(s[0], Sort(s[1..]))
  }

  /** A name comes before all of a list. */
  ghost predicate Precedes<T>(name: string, s: seq<Named<T>>) {
    forall i :: 0 <= i < |s| ==> Stricmp(name, s[i].name) < 0
  }

  lemma StrictTail<T>(x: Named<T>, s: seq<Named<T>>)
    requires Strict([x] + s)
    ensures Precedes(x.name, s) && Strict(s)
  {
    var r := [x] + s;
    forall j | 0 <= j < |s| ensures Stricmp(x.name, s[j].name) < 0 {
      assert r[0] == x && r[j + 1] == s[j];
    }
    forall i, j | 0 <= i < j < |s| ensures Stricmp(s[i].name, s[j].name) < 0 {
      assert r[i + 1] == s[i] && r[j + 1] == s[j];
    }
  }

  lemma StrictCons<T>(x: Named<T>, s: seq<Named<T>>)
    ensures Strict([x] + s) <==> Precedes(x.name, s) && Strict(s)
  {
    if Strict([x] + s) { StrictTail(x, s); }
  }

  lemma DistinctCons<T>(x: Named<T>, s: seq<Named<T>>)
    ensures Distinct([x] + s) <==> Apart(x.name, s) && Distinct(s)
  {
    var r := [x] + s;
    assert r[0] == x && forall i :: 0 <= i < |s| ==> r[i + 1] == s[i];
    if Distinct(r) {
      forall i, j | 0 <= i < j < |s| ensures !SameName(s[i].name, s[j].name) {
        assert !SameName(r[i + 1].name, r[j + 1].name);
      }
      forall i | 0 <= i < |s| ensures !SameName(s[i].name, x.name) {
        assert !SameName(r[0].name, r[i + 1].name);
      }
    }
    if Apart(x.name, s) && Distinct(s) {
      forall i, j | 0 <= i < j < |r| ensures !SameName(r[i].name, r[j].name) {
        assert r[j] == s[j - 1] && (i > 0 ==> r[i] == s[i - 1]);
      }
    }
  }

  lemma PrecedesAll<T>(name: string, other: string, s: seq<Named<T>>)
    requires Stricmp(name, other) < 0 && Precedes(other, s)
    ensures Precedes(name, s)
  {
    forall i | 0 <= i < |s| ensures Stricmp(name, s[i].name) < 0 {
      CompareTransitive(Fold(name), Fold(other), Fold(s[i].name));
    }
  }

  lemma {:induction false} PrecedesInserted<T>(name: string, x: Named<T>, s: seq<Named<T>>)
    ensures Precedes(name, Insert(x, s)) <==> Stricmp(name, x.name) < 0 && Precedes(name, s)
  {
    if s == [] || Stricmp(x.name, s[0].name) < 0 {
      PrecedesCons(name, x, s);
    } else {
      PrecedesInserted(name, x, s[1..]);
      PrecedesCons(name, s[0], Insert(x, s[1..]));
      PrecedesCons(name, s[0], s[1..]);
      assert [s[0]] + s[1..] == s;
    }
  }

  lemma PrecedesCons<T>(name: string, x: Named<T>, s: seq<Named<T>>)
    ensures Precedes(name, [x] + s) <==> Stricmp(name, x.name) < 0 && Precedes(name, s)
  {
    var r := [x] + s;
    assert forall i :: 0 <= i < |s| ==> r[i + 1] == s[i];
    assert r[0] == x;
  }

  ghost predicate Apart<T>(name: string, s: seq<Named<T>>) {
    forall i :: 0 <= i < |s| ==> !SameName(s[i].name, name)
  }

  lemma PrecedesApart<T>(name: string, s: seq<Named<T>>)
    requires Precedes(name, s)
    ensures Apart(name, s)
  {
    CompareZero(Fold(name), Fold(name));
  }

  /** Inserting into a list in strict order gives one if and only if the name is new. */
  lemma {:induction false} InsertStrict<T>(x: Named<T>, s: seq<Named<T>>)
    ensures Strict(Insert(x, s)) <==> Strict(s) && Apart(x.name, s)
  {
    if s == [] {
    } else {
      var rest := s[1..];
      assert s == [s[0]] + rest;
      StrictCons(s[0], rest);
      if Stricmp(x.name, s[0].name) < 0 {
        StrictCons(x, s);
        if Strict(s) {
          PrecedesAll(x.name, s[0].name, rest);
          PrecedesCons(x.name, s[0], rest);
          PrecedesApart(x.name, s);
        }
      } else {
        StrictCons(s[0], Insert(x, rest));
        PrecedesInserted(s[0].name, x, rest);
        InsertStrict(x, rest);
        CompareSwap(Fold(x.name), Fold(s[0].name));
        CompareZero(Fold(s[0].name), Fold(x.name));
        assert Apart(x.name, s) <==> !SameName(s[0].name, x.name) && Apart(x.name, rest) by {
          assert forall i :: 0 < i < |s| ==> s[i] == rest[i - 1];
        }
      }
    }
  }

  /** Sorting keeps every lookup. */
  lemma {:induction false} SortKeeps<T>(s: seq<Named<T>>)
    requires Distinct(s)
    ensures Strict(Sort(s)) && Distinct(Sort(s))
    ensures forall c :: Find(Sort(s), c) == Find(s, c)
  {
    SortStrict(s);
    StrictDistinct(Sort(s));
    var r := Sort(s);
    forall c ensures Find(r, c) == Find(s, c) {
      var i := IndexOf(s, c);
      if i < |s| {
        assert s[i] in multiset(r);
        var j :| 0 <= j < |r| && r[j] == s[i];
        FindIs(r, j, c);
      } else {
        forall j | 0 <= j < |r| ensures !SameName(r[j].name, c) {
          assert r[j] in multiset(s);
          var k :| 0 <= k < |s| && s[k] == r[j];
        }
      }
    }
  }

  /** A sorted list is in strict order if and only if its names are distinct. */
  lemma {:induction false} SortStrict<T>(s: seq<Named<T>>)
    ensures Strict(Sort(s)) <==> Distinct(s)
  {
    if s != [] {
      SortStrict(s[1..]);
      SortStep(s[0], s[1..]);
      assert s == [s[0]] + s[1..];
    }
  }

  lemma SortStep<T>(x: Named<T>, rest: seq<Named<T>>)
    requires Strict(Sort(rest)) <==> Distinct(rest)
    ensures Strict(Insert(x, Sort(rest))) <==> Distinct([x] + rest)
  {
    InsertStrict(x, Sort(rest));
    SortApart(x.name, rest);
    DistinctCons(x, rest);
  }

  lemma SortApart<T>(name: string, s: seq<Named<T>>)
    ensures Apart(name, Sort(s)) <==> Apart(name, s)
  {
    var r := Sort(s);
    if Apart(name, r) {
      forall i | 0 <= i < |s| ensures !SameName(s[i].name, name) {
        InSort(s, s[i]);
        var k :| 0 <= k < |r| && r[k] == s[i];
      }
    }
    if Apart(name, s) {
      forall i | 0 <= i < |r| ensures !SameName(r[i].name, name) {
        InSort(s, r[i]);
        var k :| 0 <= k < |s| && s[k] == r[i];
      }
    }
  }

  lemma InSort<T>(s: seq<Named<T>>, x: Named<T>)
    ensures x in Sort(s) <==> x in s
  {
    assert x in multiset(Sort(s)) <==> x in multiset(s);
  }

  /** Sorting neither adds nor loses a name. */
  lemma FindSorted<T>(s: seq<Named<T>>, c: string)
    ensures Find(Sort(s), c).Some? <==> Find(s, c).Some?
  {
    var (r, i, j) := (Sort(s), IndexOf(s, c), IndexOf(Sort(s), c));
    if i < |s| {
      InSort(s, s[i]);
      var k :| 0 <= k < |r| && r[k] == s[i];
    }
    if j < |r| {
      InSort(s, r[j]);
      var k :| 0 <= k < |s| && s[k] == r[j];
    }
  }

  // ----- The searches -----

  /** The scan used while mapping and by the older file view. */
  method LinearSearch<T>(s: seq<Named<T>>, c: string) returns (i: nat)
    ensures i == IndexOf(s, c)
  {
    i := 0;
    while i < |s| && !SameName(s[i].name, c)
      invariant i <= |s| && forall j :: 0 <= j < i ==> !SameName(s[j].name, c)
    {
      i := i + 1;
    }
  }

  lemma StrictOrder<T>(s: seq<Named<T>>, i: nat, c: string)
    requires Strict(s) && i < |s|
    ensures Stricmp(s[i].name, c) > 0 ==> forall j :: i <= j < |s| ==> Stricmp(s[j].name, c) > 0
    ensures Stricmp(s[i].name, c) < 0 ==> forall j :: 0 <= j <= i ==> Stricmp(s[j].name, c) < 0
    ensures Stricmp(s[i].name, c) == 0 <==> SameName(s[i].name, c)
  {
    CompareZero(Fold(s[i].name), Fold(c));
    forall j | i < j < |s| && Stricmp(s[i].name, c) > 0 ensures Stricmp(s[j].name, c) > 0 {
      CompareSwap(Fold(s[i].name), Fold(c));
      CompareTransitive(Fold(c), Fold(s[i].name), Fold(s[j].name));
      CompareSwap(Fold(c), Fold(s[j].name));
    }
    forall j | 0 <= j < i && Stricmp(s[i].name, c) < 0 ensures Stricmp(s[j].name, c) < 0 {
      CompareTransitive(Fold(s[j].name), Fold(s[i].name), Fold(c));
    }
  }

  lemma NotWithin<T>(s: seq<Named<T>>, c: string, lo: nat)
    requires lo <= |s|
    requires forall j :: 0 <= j < lo ==> Stricmp(s[j].name, c) < 0
    requires forall j :: lo <= j < |s| ==> Stricmp(s[j].name, c) > 0
    ensures IndexOf(s, c) == |s|
  {
    forall j | 0 <= j < |s| ensures !SameName(s[j].name, c) {
      CompareZero(Fold(s[j].name), Fold(c));
    }
  }

  /** The search for a folder: compares the length of the wanted part only, and goes left
      when a longer name starts with it.  On a sorted list it finds what a scan finds. */
  method PrefixSearch<T>(s: seq<Named<T>>, c: string) returns (i: nat)
    requires Strict(s)
    ensures i == IndexOf(s, c)
  {
    var low, high := 0, |s|;
    var mid := (low + high) / 2;
    while high > low
      invariant 0 <= low <= high <= |s| && mid == (low + high) / 2
      invariant forall j :: 0 <= j < low ==> Stricmp(s[j].name, c) < 0
      invariant forall j :: high <= j < |s| ==> Stricmp(s[j].name, c) > 0
      decreases high - low
    {
      PrefixDecides(s[mid].name, c);
      StrictOrder(s, mid, c);
      var r := Strnicmp(s[mid].name, c, |c|);
      if r > 0 {
        high := mid;
      } else if r < 0 {
        low := mid + 1;
      } else if |s[mid].name| != |c| {
        high := mid;
      } else {
        StrictDistinct(s);
        FindIs(s, mid, c);
        return mid;
      }
      mid := (low + high) / 2;
    }
    NotWithin(s, c, low);
    return |s|;
  }

  /** The search for a file: compares whole names. */
  method NameSearch<T>(s: seq<Named<T>>, c: string) returns (i: nat)
    requires Strict(s)
    ensures i == IndexOf(s, c)
  {
    var low, high := 0, |s|;
    var mid := (low + high) / 2;
    while high > low
      invariant 0 <= low <= high <= |s| && mid == (low + high) / 2
      invariant forall j :: 0 <= j < low ==> Stricmp(s[j].name, c) < 0
      invariant forall j :: high <= j < |s| ==> Stricmp(s[j].name, c) > 0
      decreases high - low
    {
      StrictOrder(s, mid, c);
      var r := Stricmp(s[mid].name, c);
      if r > 0 {
        high := mid;
      } else if r < 0 {
        low := mid + 1;
      } else {
        StrictDistinct(s);
        FindIs(s, mid, c);
        return mid;
      }
      mid := (low + high) / 2;
    }
    NotWithin(s, c, low);
    return |s|;
  }
}
