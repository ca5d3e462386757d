/** The text of a saved script: escaping and number formatting as the writer does them,
    and a reader that follows the Lua 5.0 Reference Manual, section 2.1. */
module LuaText {
  import opened LuaHeap
  import opened LuaStores
  import opened Options

  // ----- String escapes: _appendEscapedString -----

  const BELL: char := 7 as char
  const BACKSPACE: char := 8 as char
  const VTAB: char := 11 as char
  const FORMFEED: char := 12 as char

  predicate NulFree(s: string) {
    forall i :: 0 <= i < |s| ==> s[i] != '\0'
  }

  /** What C code sees of a Lua string: the part before the first NUL. */
  function CStr(s: string): (r: string)
    ensures NulFree(r) && r <= s && (r == s <==> NulFree(s))
    ensures r != s ==> s[|r|] == '\0'
  {
    if s == "" || s[0] == '\0' then ""
    else
      var r := [s[0]] + CStr(s[1..]);
      assert NulFree(s) ==> NulFree(s[1..]);
      assert s == [s[0]] + s[1..];
      r
  }

  function EscapeChar(c: char): string {
    if c == BELL then "\\a" else if c == BACKSPACE then "\\b" else if c == FORMFEED then "\\f"
    else if c == '\n' then "\\n" else if c == '\r' then "\\r" else if c == '\t' then "\\t"
    else if c == VTAB then "\\v" else if c == '\\' then "\\\\" else if c == '\"' then "\\\""
    else if c == '\'' then "\\\'" else [c]
  }

  function Escape(s: string): string {
    if s == "" then "" else EscapeChar(s[0]) + Escape(s[1..])
  }

  lemma {:induction false} EscapeSnoc(s: string, c: char)
    ensures Escape(s + [c]) == Escape(s) + EscapeChar(c)
  {
    if s == "" {
      assert s + [c] == [c];
    } else {
      assert (s + [c])[1..] == s[1..] + [c];
      EscapeSnoc(s[1..], c);
    }
  }

  lemma EscapeAppend(dest: string, s: string, c: char)
    ensures dest + Escape(s) + EscapeChar(c) == dest + Escape(s + [c])
  {
    EscapeSnoc(s, c);
  }

  predicate Special(c: char) {
    c == BELL || c == BACKSPACE || c == FORMFEED || c == '\n' || c == '\r' || c == '\t' || c == VTAB || c == '\\'
    || c == '\"' || c == '\''
  }

  /** The letter that stands for a special character behind the backslash. */
  method EscapeLetter(c: char) returns (l: char)
    requires Special(c)
    ensures EscapeChar(c) == ['\\', l]
  {
    l := c;
    if c == BELL { l := 'a'; }
    else if c == BACKSPACE { l := 'b'; }
    else if c == FORMFEED { l := 'f'; }
    else if c == '\n' { l := 'n'; }
    else if c == '\r' { l := 'r'; }
    else if c == '\t' { l := 't'; }
    else if c == VTAB { l := 'v'; }
  }

  /** The loop of `_appendEscapedString`: stops at the first NUL. */
  method AppendEscapedString(dest: string, src: string) returns (r: string)
    ensures r == dest + Escape(CStr(src))
  {
    r := dest;
    var i := 0;
    while i < |src| && src[i] != '\0'
      invariant 0 <= i <= |src| && NulFree(src[..i])
      invariant r == dest + Escape(src[..i])
    {
      if Special(src[i]) {
        var l := EscapeLetter(src[i]);
        r := r + ['\\', l];
      } else {
        r := r + [src[i]];
      }
      EscapeAppend(dest, src[..i], src[i]);
      assert src[..i + 1] == src[..i] + [src[i]];
      i := i + 1;
    }
    CStrIs(src, i);
  }

  lemma {:induction false} CStrIs(s: string, n: nat)
    requires n <= |s| && NulFree(s[..n]) && (n < |s| ==> s[n] == '\0')
    ensures CStr(s) == s[..n]
  {
    if n > 0 {
      assert s[..n][0] == s[0] && s[..n][1..] == s[1..][..n - 1];
      CStrIs(s[1..], n - 1);
    }
  }

  function Digit(c: char): (r: Option<nat>)
    ensures r.Some? ==> r.value < 10
  {
    if '0' <= c <= '9' then Some(c as nat - '0' as nat) else None
  }

  /** Decimal escape `\ddd`: up to three digits, at most 255. */
  function ReadDecimal(s: string, left: nat, acc: nat): (r: Option<(char, string)>)
    ensures r.Some? ==> |r.value.1| <= |s|
    decreases left
  {
    if left > 0 && s != "" && Digit(s[0]).Some? then ReadDecimal(s[1..], left - 1, acc * 10 + Digit(s[0]).value)
    else if acc > 255 then None
    else Some((acc as char, s))
  }

  /** The letters with a meaning behind a backslash. */
  function Letter(l: char): Option<char> {
    if l == 'a' then Some(BELL) else if l == 'b' then Some(BACKSPACE) else if l == 'f' then Some(FORMFEED)
    else if l == 'n' then Some('\n') else if l == 'r' then Some('\r') else if l == 't' then Some('\t')
    else if l == 'v' then Some(VTAB) else None
  }

  /** Reads a quoted string after its opening quote: its value and the text after the
      closing quote.  A raw newline or the end of the text is an error. */
  function ReadQuoted(s: string): (r: Option<(string, string)>)
    ensures r.Some? ==> |r.value.1| < |s|
    decreases |s|
  {
    if s == "" || s[0] == '\n' then None
    else if s[0] == '\"' then Some(("", s[1..]))
    else if s[0] != '\\' then Prepend(s[0], ReadQuoted(s[1..]))
    else if |s| == 1 then None
    else if Letter(s[1]).Some? then Prepend(Letter(s[1]).value, ReadQuoted(s[2..]))
    else if Digit(s[1]).Some? then
      var d := ReadDecimal(s[1..], 3, 0);
      if d.None? then None else Prepend(d.value.0, ReadQuoted(d.value.1))
    else Prepend(s[1], ReadQuoted(s[2..]))
  }

  function Prepend(c: char, r: Option<(string, string)>): Option<(string, string)> {
    if r.None? then None else Some(([c] + r.value.0, r.value.1))
  }

  lemma LetterMeans(c: char, l: char)
    requires EscapeChar(c) == ['\\', l]
    ensures if Letter(l).Some? then Letter(l) == Some(c) else Digit(l).None? && l == c
  {
  }

  /** A backslash with its letter reads as the character it stands for. */
  lemma ReadPair(c: char, l: char, tail: string)
    requires EscapeChar(c) == ['\\', l]
    ensures ReadQuoted(['\\', l] + tail) == Prepend(c, ReadQuoted(tail))
  {
    LetterMeans(c, l);
    ReadSecond(l, c, tail);
  }

  lemma ReadSecond(l: char, c: char, tail: string)
    requires if Letter(l).Some? then Letter(l) == Some(c) else Digit(l).None? && l == c
    ensures ReadQuoted(['\\', l] + tail) == Prepend(c, ReadQuoted(tail))
  {
    var text := ['\\', l] + tail;
    assert text[0] == '\\' && text[1] == l && text[2..] == tail;
  }

  lemma ReadPlain(c: char, tail: string)
    requires EscapeChar(c) == [c]
    ensures ReadQuoted([c] + tail) == Prepend(c, ReadQuoted(tail))
  {
    NotSpecial(c);
    var text := [c] + tail;
    assert text[0] == c && text[1..] == tail;
    assert ReadQuoted(text) == Prepend(text[0], ReadQuoted(text[1..]));
  }

  lemma NotSpecial(c: char)
    requires EscapeChar(c) == [c]
    ensures c != '\n' && c != '\"' && c != '\\'
  {
    assert |EscapeChar(c)| == 1;
  }

  lemma ReadEscapedChar(c: char, tail: string)
    ensures ReadQuoted(EscapeChar(c) + tail) == Prepend(c, ReadQuoted(tail))
  {
    var e := EscapeChar(c);
    if |e| == 2 {
      assert e == ['\\', e[1]];
      ReadPair(c, e[1], tail);
    } else {
      ReadPlain(c, tail);
    }
  }

  /** Escaping is invertible: the reader gives back the string and stops at the quote
      the writer put after it. */
  lemma {:induction false} EscapeRoundTrip(s: string, rest: string)
    ensures ReadQuoted(Escape(s) + "\"" + rest) == Some((s, rest))
  {
    if s == "" {
      assert Escape(s) + "\"" + rest == "\"" + rest;
    } else {
      var tail := Escape(s[1..]) + "\"" + rest;
      EscapeRoundTrip(s[1..], rest);
      ReadEscapedChar(s[0], tail);
      assert Escape(s) + "\"" + rest == EscapeChar(s[0]) + tail;
      assert [s[0]] + s[1..] == s;
    }
  }

  /** A stored string comes back whole exactly when it holds no NUL. */
  lemma StoredStringComesBack(s: string, rest: string)
    ensures ReadQuoted(Escape(CStr(s)) + "\"" + rest) == Some((s, rest)) <==> NulFree(s)
  {
    EscapeRoundTrip(CStr(s), rest);
  }

  /** The escaped text fits the buffer of twice the length and holds no raw newline. */
  lemma {:induction false} EscapeBounded(s: string)
    ensures |s| <= |Escape(s)| <= 2 * |s|
    ensures forall i :: 0 <= i < |Escape(s)| ==> Escape(s)[i] != '\n'
  {
    if s != "" { EscapeBounded(s[1..]); }
  }

  lemma {:induction false} EscapePlain(s: string)
    requires forall i :: 0 <= i < |s| ==> EscapeChar(s[i]) == [s[i]]
    ensures Escape(s) == s
  {
    if s != "" {
      EscapePlain(s[1..]);
      assert s == [s[0]] + s[1..];
    }
  }

  lemma Assoc(a: string, b: string, c: string)
    ensures (a + b) + c == a + (b + c)
  {
  }

  // ----- Numbers: the "%.5f" format -----

  function DigitChar(d: nat): (c: char)
    requires d < 10
    ensures Digit(c) == Some(d)
  {
    ('0' as nat + d) as char
  }

  function Digits(n: nat): string {
    if n < 10 then [DigitChar(n)] else Digits(n / 10) + [DigitChar(n % 10)]
  }

  function Padded(n: nat, width: nat): (s: string)
    ensures |s| == width
  {
    if width == 0 then "" else Padded(n / 10, width - 1) + [DigitChar(n % 10)]
  }

  function FixedText(n: int): string {
    var m := if n < 0 then -n else n;
    (if n < 0 then "-" else "") + UnsignedText(m)
  }

  function UnsignedText(m: nat): string {
    Digits(m / 100000) + "." + Padded(m % 100000, 5)
  }

  function ReadNat(s: string, acc: nat): (r: (nat, string))
    ensures |r.1| <= |s|
  {
    if s != "" && Digit(s[0]).Some? then ReadNat(s[1..], acc * 10 + Digit(s[0]).value) else (acc, s)
  }

  lemma {:induction false} ReadDigitsBack(n: nat, rest: string)
    ensures ReadNat(Digits(n) + rest, 0) == ReadNat(rest, n)
    decreases n
  {
    var d := [DigitChar(n % 10)];
    assert (d + rest)[1..] == rest;
    if n >= 10 {
      ReadDigitsBack(n / 10, d + rest);
      assert Digits(n) + rest == Digits(n / 10) + (d + rest);
    } else {
      assert Digits(n) + rest == d + rest;
    }
  }

  function Pow10(k: nat): nat {
    if k == 0 then 1 else 10 * Pow10(k - 1)
  }

  lemma {:induction false} ReadPaddedBack(n: nat, width: nat, rest: string)
    requires n < Pow10(width)
    ensures ReadNat(Padded(n, width) + rest, 0) == ReadNat(rest, n)
    decreases width
  {
    if width == 0 {
      assert Padded(n, width) + rest == rest;
    } else {
      var d := [DigitChar(n % 10)];
      assert (d + rest)[1..] == rest;
      ReadPaddedBack(n / 10, width - 1, d + rest);
      assert Padded(n, width) + rest == Padded(n / 10, width - 1) + (d + rest);
    }
  }

  function ReadUnsigned(s: string): (r: Option<(nat, string)>)
    ensures r.Some? ==> |r.value.1| < |s|
  {
    var (w, r1) := ReadNat(s, 0);
    if |r1| == |s| || r1 == "" || r1[0] != '.' then None else
    var (f, r2) := ReadNat(r1[1..], 0);
    if |r1| - 1 - |r2| != 5 then None else Some((w * 100000 + f, r2))
  }

  function ReadNumber(s: string): (r: Option<(int, string)>)
    ensures r.Some? ==> |r.value.1| < |s|
  {
    if s != "" && s[0] == '-' then
      match ReadUnsigned(s[1..]) { case None => None case Some((n, rest)) => Some((0 - n as int, rest)) }
    else
      match ReadUnsigned(s) { case None => None case Some((n, rest)) => Some((n, rest)) }
  }

  /** Where a number ends: nothing that reads on as part of it. */
  predicate Ends(rest: string) {
    rest == "" || Digit(rest[0]).None?
  }

  lemma {:induction false} UnsignedRoundTrip(m: nat, rest: string)
    requires Ends(rest)
    ensures ReadUnsigned(UnsignedText(m) + rest) == Some((m, rest))
    ensures UnsignedText(m) != "" && Digit(UnsignedText(m)[0]).Some?
  {
    var (w, f) := (m / 100000, m % 100000);
    var tail := "." + (Padded(f, 5) + rest);
    assert (Digits(w) + "." + Padded(f, 5)) + rest == Digits(w) + tail;
    ReadDigitsBack(w, tail);
    DigitsStart(w);
    assert tail[1..] == Padded(f, 5) + rest;
    assert Pow10(5) == 100000 by { assert Pow10(3) == 1000; }
    ReadPaddedBack(f, 5, rest);
  }

  lemma {:induction false} DigitsStart(n: nat)
    ensures Digits(n) != "" && Digit(Digits(n)[0]).Some?
    decreases n
  {
    if n >= 10 { DigitsStart(n / 10); }
  }

  /** A sign in front of an unsigned number. */
  lemma SignRoundTrip(text: string, m: nat, rest: string)
    requires ReadUnsigned(text + rest) == Some((m, rest)) && text != "" && Digit(text[0]).Some?
    ensures ReadNumber(text + rest) == Some((m as int, rest))
    ensures ReadNumber(("-" + text) + rest) == Some((0 - m as int, rest))
  {
    assert (text + rest)[0] == text[0];
    assert (("-" + text) + rest)[1..] == text + rest;
  }

  lemma {:induction false} NumberRoundTrip(n: int, rest: string)
    requires Ends(rest)
    ensures ReadNumber(FixedText(n) + rest) == Some((n, rest))
    ensures FixedText(n) != "" && (FixedText(n)[0] == '-' || Digit(FixedText(n)[0]).Some?)
  {
    var m: nat := if n < 0 then -n else n;
    UnsignedRoundTrip(m, rest);
    SignRoundTrip(UnsignedText(m), m, rest);
    assert FixedText(n) == if n < 0 then "-" + UnsignedText(m) else UnsignedText(m);
  }

  // ----- Lines -----

  datatype Rhs = Const(v: Value) | Call(fn: string, ref: string)

  /** One assignment to `GameData` (empty path) or to a key path below it. */
  datatype Stmt = Assign(path: seq<string>, rhs: Rhs)

  function KeyText(k: string): string {
    "[\"" + Escape(CStr(k)) + "\"]"
  }

  function KeysText(p: seq<string>): string {
    if p == [] then "" else KeyText(p[0]) + KeysText(p[1..])
  }

  function PathText(p: seq<string>): string {
    "GameData" + KeysText(p)
  }

  function RhsText(r: Rhs): string {
    match r
    case Const(Num(n)) => FixedText(n)
    case Const(Bool(b)) => if b then "true" else "false"
    case Const(Str(s)) => "\"" + Escape(CStr(s)) + "\""
    case Const(_) => "nil"
    case Call(fn, ref) => fn + "([[" + CStr(ref) + "]])"
  }

  function StmtText(l: Stmt): string {
    PathText(l.path) + " = " + RhsText(l.rhs) + "\r\n"
  }

  function ProgramText(ls: seq<Stmt>): string {
    if ls == [] then "" else StmtText(ls[0]) + ProgramText(ls[1..])
  }

  // ----- Reading lines back -----

  function ReadPath(s: string): (r: Option<(seq<string>, string)>)
    ensures r.Some? ==> |r.value.1| <= |s|
    decreases |s|
  {
    if !("[\"" <= s) then Some(([], s)) else
    match ReadQuoted(s[2..])
    case None => None
    case Some((k, r1)) =>
      if r1 == "" || r1[0] != ']' then None else
      match ReadPath(r1[1..])
      case None => None
      case Some((ks, r2)) => Some(([k] + ks, r2))
  }

  function LongerBy(a: string, r: Option<(string, string)>): Option<(string, string)> {
    if r.None? then None else Some((a + r.value.0, r.value.1))
  }

  /** The text of a long string up to the `]]` that closes it, with `depth` pairs of `[[`
      and `]]` open inside; two brackets in a row are read together. */
  function ReadLong(s: string, depth: nat): (r: Option<(string, string)>)
    ensures r.Some? ==> s == r.value.0 + "]]" + r.value.1
    decreases |s|
  {
    if s == "" then None
    else if "[[" <= s then LongerBy("[[", ReadLong(s[2..], depth + 1))
    else if "]]" <= s then (if depth == 0 then Some(("", s[2..])) else LongerBy("]]", ReadLong(s[2..], depth - 1)))
    else LongerBy([s[0]], ReadLong(s[1..], depth))
  }

  /** A long string as an argument; a newline right behind the brackets is not part of it. */
  function ReadCall(fn: string, s: string): (r: Option<(Rhs, string)>)
    requires |fn| <= |s|
    ensures r.Some? ==> |r.value.1| <= |s|
    ensures r.Some? ==> r.value.0.Call? && r.value.0.fn == fn
  {
    var t := s[|fn|..];
    if !("([[" <= t) then None else
    Closed(fn, ReadLong(if "([[\n" <= t then t[4..] else t[3..], 0))
  }

  /** Behind the long string the call is closed. */
  function Closed(fn: string, r: Option<(string, string)>): (c: Option<(Rhs, string)>)
    ensures c.Some? ==> r.Some? && c.value.0 == Call(fn, r.value.0) && r.value.1 == ")" + c.value.1
  {
    match r
    case None => None
    case Some((ref, rest)) => if rest == "" || rest[0] != ')' then None else Some((Call(fn, ref), rest[1..]))
  }

  function ReadRhs(s: string): (r: Option<(Rhs, string)>)
    ensures r.Some? ==> |r.value.1| <= |s|
    ensures r.Some? && r.value.0.Call? ==> r.value.0.fn == "Inherit" || r.value.0.fn == "Reference"
  {
    if "\"" <= s then
      match ReadQuoted(s[1..]) { case None => None case Some((t, rest)) => Some((Const(Str(t)), rest)) }
    else if "true" <= s then Some((Const(Bool(true)), s[4..]))
    else if "false" <= s then Some((Const(Bool(false)), s[5..]))
    else if "nil" <= s then Some((Const(Nil), s[3..]))
    else if "Inherit" <= s then ReadCall("Inherit", s)
    else if "Reference" <= s then ReadCall("Reference", s)
    else match ReadNumber(s) { case None => None case Some((n, rest)) => Some((Const(Num(n)), rest)) }
  }

  function ReadStmt(s: string): (r: Option<(Stmt, string)>)
    ensures r.Some? ==> |r.value.1| < |s|
  {
    if !("GameData" <= s) then None else
    match ReadPath(s[8..])
    case None => None
    case Some((p, r1)) =>
      if !(" = " <= r1) then None else
      match ReadRhs(r1[3..])
      case None => None
      case Some((v, r2)) => if "\r\n" <= r2 then Some((Assign(p, v), r2[2..])) else None
  }

  function ReadProgram(s: string): (r: Option<seq<Stmt>>)
    decreases |s|
  {
    if s == "" then Some([]) else
    match ReadStmt(s)
    case None => None
    case Some((l, rest)) =>
      match ReadProgram(rest)
      case None => None
      case Some(ls) => Some([l] + ls)
  }

  // ----- The reader undoes the writer -----

  /** Inside a long string, with `depth` pairs open, the text keeps every pair of brackets
      it opens, closes none that it has not opened, and ends in no `]` that would pair with
      the one behind it. */
  predicate Nests(s: string, depth: nat)
    decreases |s|
  {
    if s == "" then depth == 0
    else if "[[" <= s then Nests(s[2..], depth + 1)
    else if "]]" <= s then depth > 0 && Nests(s[2..], depth - 1)
    else s != "]" && Nests(s[1..], depth)
  }

  /** A file name that can be written between `[[` and `]]` as it is. */
  predicate NameFits(ref: string) {
    NulFree(ref) && Nests(ref, 0) && (ref != "" ==> ref[0] != '\n')
  }

  predicate RhsOk(r: Rhs) {
    match r
    case Const(v) => !v.Tab? && (v.Str? ==> NulFree(v.s))
    case Call(fn, ref) => (fn == "Inherit" || fn == "Reference") && NameFits(ref)
  }

  predicate StmtOk(l: Stmt) {
    (forall i :: 0 <= i < |l.path| ==> NulFree(l.path[i])) && RhsOk(l.rhs)
  }

  lemma {:induction false} KeysSnoc(p: seq<string>, k: string)
    ensures KeysText(p + [k]) == KeysText(p) + KeyText(k)
    decreases |p|
  {
    if p == [] {
      assert p + [k] == [k];
      assert KeysText([k][1..]) == "";
    } else {
      assert (p + [k])[1..] == p[1..] + [k];
      KeysSnoc(p[1..], k);
    }
  }

  lemma Assoc5(a: string, b: string, c: string, d: string, e: string, f: string)
    ensures (a + b + c + d + e) + f == a + (b + (c + (d + (e + f))))
  {
  }

  lemma PathSnoc(p: seq<string>, k: string)
    ensures PathText(p + [k]) == PathText(p) + KeyText(k)
  {
    KeysSnoc(p, k);
    Assoc("GameData", KeysText(p), KeyText(k));
  }

  /** `_saveTable` gives the prefix of an entry twice the length of its key more than the
      prefix of the table.  The prefix fits if and only if the escaped key leaves room for
      the two quotes and the two brackets; a key without special characters, if and only if
      it has four characters or more. */
  lemma PrefixFitsExactly(path: seq<string>, k: string)
    ensures |PathText(path + [k])| <= |PathText(path)| + 2 * |k| <==> |Escape(CStr(k))| + 4 <= 2 * |k|
    ensures NulFree(k) && (forall i :: 0 <= i < |k| ==> EscapeChar(k[i]) == [k[i]]) ==>
      (|PathText(path + [k])| <= |PathText(path)| + 2 * |k| <==> |k| >= 4)
  {
    PathSnoc(path, k);
    if NulFree(k) && forall i :: 0 <= i < |k| ==> EscapeChar(k[i]) == [k[i]] { EscapePlain(k); }
  }

  /** One key of a path with the text after it. */
  function KeyThen(k: string, rest: string): string {
    "[\"" + (Escape(k) + "\"" + ("]" + rest))
  }

  lemma KeyThenIs(p: seq<string>, rest: string)
    requires p != []
    ensures KeysText(p) + rest == KeyThen(CStr(p[0]), KeysText(p[1..]) + rest)
  {
    var (e, more) := (Escape(CStr(p[0])), KeysText(p[1..]));
    assert "\"]" == "\"" + "]";
    Assoc5("[\"", e, "\"", "]", more, rest);
    assert "[\"" + e + "\"]" == "[\"" + e + "\"" + "]";
    Assoc(e, "\"", "]" + (more + rest));
  }

  lemma KeyRoundTrip(k: string, rest: string)
    ensures ReadPath(KeyThen(k, rest))
        == match ReadPath(rest) { case None => None case Some((ks, r)) => Some(([k] + ks, r)) }
  {
    var tail := "]" + rest;
    EscapeRoundTrip(k, tail);
    assert KeyThen(k, rest)[2..] == Escape(k) + "\"" + tail;
    assert tail[1..] == rest;
  }

  /** The keys of a path as C code sees them. */
  function CStrs(p: seq<string>): (r: seq<string>)
    ensures |r| == |p| && forall i :: 0 <= i < |p| ==> r[i] == CStr(p[i])
  {
    if p == [] then [] else [CStr(p[0])] + CStrs(p[1..])
  }

  /** Reading a path gives back every key up to its first NUL. */
  lemma {:induction false} PathReads(p: seq<string>, rest: string)
    requires !("[\"" <= rest)
    ensures ReadPath(KeysText(p) + rest) == Some((CStrs(p), rest))
    decreases |p|
  {
    if p == [] {
      assert KeysText(p) + rest == rest;
    } else {
      KeyThenIs(p, rest);
      KeyRoundTrip(CStr(p[0]), KeysText(p[1..]) + rest);
      PathReads(p[1..], rest);
    }
  }

  /** So the path itself if and only if no key holds a NUL. */
  lemma PathRoundTrip(p: seq<string>, rest: string)
    requires !("[\"" <= rest)
    ensures Reads(ReadPath(KeysText(p) + rest), p) <==> forall i :: 0 <= i < |p| ==> NulFree(p[i])
    ensures ReadPath(KeysText(p) + rest) == Some((p, rest)) <==> forall i :: 0 <= i < |p| ==> NulFree(p[i])
  {
    PathReads(p, rest);
    if CStrs(p) == p {
      forall i | 0 <= i < |p| ensures NulFree(p[i]) { assert CStrs(p)[i] == CStr(p[i]); }
    }
    if forall i :: 0 <= i < |p| ==> NulFree(p[i]) { assert CStrs(p) == p; }
  }

  /** What was read is `x`, whatever is left. */
  predicate Reads<T(==)>(r: Option<(T, string)>, x: T) {
    r.Some? && r.value.0 == x
  }

  lemma LongerReads(a: string, r: Option<(string, string)>, x: string, rest: string)
    ensures Reads(LongerBy(a, r), a + x) <==> Reads(r, x)
    ensures LongerBy(a, r) == Some((a + x, rest)) <==> r == Some((x, rest))
  {
    if r.Some? && a + r.value.0 == a + x {
      assert r.value.0 == (a + r.value.0)[|a|..] && x == (a + x)[|a|..];
    }
  }

  /** The text of a long string comes back, with what stands behind it, if and only if its
      brackets nest. */
  lemma {:induction false} LongRoundTrip(s: string, depth: nat, rest: string)
    ensures Reads(ReadLong(s + ("]]" + rest), depth), s) <==> Nests(s, depth)
    ensures ReadLong(s + ("]]" + rest), depth) == Some((s, rest)) <==> Nests(s, depth)
    decreases |s|
  {
    var t := s + ("]]" + rest);
    if s == "" {
      assert t == "]]" + rest && t[0] == ']' && "]]" <= t && !("[[" <= t) && t[2..] == rest;
    } else if "[[" <= s || "]]" <= s {
      var (a, u) := (s[..2], s[2..]);
      assert t[0] == s[0] && t[1] == s[1] && t[2..] == u + ("]]" + rest) && s == a + u;
      assert a[0] == s[0] && a[1] == s[1] && |s| >= 2;
      if "[[" <= s {
        assert a == "[[" && "[[" <= t;
        LongRoundTrip(u, depth + 1, rest);
        LongerReads(a, ReadLong(t[2..], depth + 1), u, rest);
      } else {
        assert a == "]]" && "]]" <= t && !("[[" <= t);
        if depth > 0 {
          LongRoundTrip(u, depth - 1, rest);
          LongerReads(a, ReadLong(t[2..], depth - 1), u, rest);
        } else {
          assert ReadLong(t, depth) == Some(("", t[2..]));
        }
      }
    } else if s == "]" {
      ClosingLost(depth, rest);
    } else {
      SingleChar(s, depth, rest);
    }
  }

  lemma ClosingLost(depth: nat, rest: string)
    ensures !Reads(ReadLong("]" + ("]]" + rest), depth), "]") && !Nests("]", depth)
  {
    var t := "]" + ("]]" + rest);
    assert t[0] == ']' && t[1] == ']' && "]]" <= t && !("[[" <= t);
    var r := ReadLong(t, depth);
    if depth > 0 {
      assert r == LongerBy("]]", ReadLong(t[2..], depth - 1));
      assert r.Some? ==> |r.value.0| >= 2;
    } else {
      assert r == Some(("", t[2..]));
    }
  }

  /** A character that pairs with none behind it is read alone. */
  lemma {:induction false} SingleChar(s: string, depth: nat, rest: string)
    requires s != "" && s != "]" && !("[[" <= s) && !("]]" <= s)
    ensures Reads(ReadLong(s + ("]]" + rest), depth), s) <==> Nests(s, depth)
    ensures ReadLong(s + ("]]" + rest), depth) == Some((s, rest)) <==> Nests(s, depth)
    decreases |s|, 0
  {
    var (t, u) := (s + ("]]" + rest), s[1..]);
    assert t[0] == s[0] && t[1..] == u + ("]]" + rest) && s == [s[0]] + u;
    assert t[1] == if |s| > 1 then s[1] else ']';
    assert !("[[" <= t) && !("]]" <= t);
    LongRoundTrip(u, depth, rest);
    LongerReads([s[0]], ReadLong(t[1..], depth), u, rest);
  }

  /** What a call reads, with the newline behind its brackets passed over. */
  lemma CallOpened(fn: string, c: string, tail: string)
    ensures var u := "]]" + tail;
      ReadCall(fn, fn + ("([[" + (c + u))) ==
      Closed(fn, ReadLong(if c != "" && c[0] == '\n' then c[1..] + u else c + u, 0))
  {
    var u := c + ("]]" + tail);
    var t := "([[" + u;
    assert (fn + t)[|fn|..] == t && t[3..] == u && t[3] == u[0] && t[4..] == u[1..];
    assert "([[\n" <= t <==> u[0] == '\n';
    if c != "" { assert u[0] == c[0] && u[1..] == c[1..] + ("]]" + tail); } else { assert u[0] == ']'; }
  }

  lemma LongCallRoundTrip(fn: string, ref: string, rest: string)
    ensures var r := ReadCall(fn, fn + ("([[" + (CStr(ref) + ("]]" + (")" + rest)))));
      && (Reads(r, Call(fn, ref)) <==> NameFits(ref))
      && (r == Some((Call(fn, ref), rest)) <==> NameFits(ref))
  {
    var (c, tail) := (CStr(ref), ")" + rest);
    CallOpened(fn, c, tail);
    if c != "" && c[0] == '\n' {
      NewlineLost(c, ref, tail);
    } else if NulFree(ref) {
      LongRoundTrip(ref, 0, tail);
      assert tail[1..] == rest;
    } else {
      NulLost(ref, tail);
    }
  }

  /** A name is cut at a NUL, so it is not what is read. */
  lemma NulLost(ref: string, tail: string)
    requires !NulFree(ref)
    ensures !Reads(ReadLong(CStr(ref) + ("]]" + tail), 0), ref)
  {
    var (n, t) := (|CStr(ref)|, CStr(ref) + ("]]" + tail));
    assert t[n] == ']' && ref[n] == '\0';
    if Reads(ReadLong(t, 0), ref) { assert false; }
  }

  lemma {:induction false} Shifted(s: string, c: char)
    requires s != "" && s[1..] + [c] == s
    ensures s[0] == c
    decreases |s|
  {
    if |s| > 1 {
      assert s[1..][1..] + [c] == (s[1..] + [c])[1..];
      Shifted(s[1..], c);
    }
  }

  /** A name that begins with a newline is not what is read either. */
  lemma NewlineLost(c: string, ref: string, tail: string)
    requires c != "" && c <= ref && c[0] == '\n'
    ensures !Reads(ReadLong(c[1..] + ("]]" + tail), 0), ref)
  {
    var t := c[1..] + ("]]" + tail);
    var r := ReadLong(t, 0);
    if Reads(r, ref) {
      assert t[..|c|] == c[1..] + [']'];
      assert t[..|c|] == c;
      Shifted(c, ']');
      assert false;
    }
  }

  lemma CallTextThen(fn: string, ref: string, rest: string)
    ensures RhsText(Call(fn, ref)) + rest == fn + ("([[" + (CStr(ref) + ("]]" + (")" + rest))))
  {
    Assoc4(fn, "([[", CStr(ref), "]])", rest);
    assert "]])" + rest == "]]" + (")" + rest) by { assert "]])" == "]]" + ")"; }
  }

  lemma Assoc4(a: string, b: string, c: string, d: string, e: string)
    ensures a + b + c + d + e == a + (b + (c + (d + e)))
  {
  }

  /** The word in front decides that a call is read. */
  lemma CallStart(fn: string, t: string)
    requires fn == "Inherit" || fn == "Reference"
    ensures ReadRhs(fn + t) == ReadCall(fn, fn + t)
  {
    assert (fn + t)[0] == fn[0] && fn <= fn + t;
  }

  /** A call comes back from its text if and only if the file name holds no NUL, its brackets
      nest and it does not begin with a newline. */
  lemma CallRoundTrip(fn: string, ref: string, rest: string)
    requires fn == "Inherit" || fn == "Reference"
    ensures var r := ReadRhs(RhsText(Call(fn, ref)) + rest);
      && (Reads(r, Call(fn, ref)) <==> NameFits(ref))
      && (r == Some((Call(fn, ref), rest)) <==> NameFits(ref))
  {
    CallTextThen(fn, ref, rest);
    LongCallRoundTrip(fn, ref, rest);
    CallStart(fn, "([[" + (CStr(ref) + ("]]" + (")" + rest))));
  }

  /** A character that does not pair with the next counts for nothing. */
  lemma NestsStep(c: char, u: string, depth: nat)
    requires c == '[' || c == ']' ==> u == "" || u[0] != c
    requires !(c == ']' && u == "")
    ensures Nests([c] + u, depth) == Nests(u, depth)
  {
    var s := [c] + u;
    assert s[0] == c && s[1..] == u && (u != "" ==> s[1] == u[0]);
    assert s != "]" by { if u != "" { assert |s| > 1; } }
  }

  /** Single brackets fit, anywhere but a `]` at the end. */
  lemma {:induction false} SingleBracketsFit(s: string)
    requires forall i :: 0 <= i < |s| - 1 && (s[i] == '[' || s[i] == ']') ==> s[i + 1] != s[i]
    requires s == "" || s[|s| - 1] != ']'
    ensures Nests(s, 0)
    decreases |s|
  {
    if s != "" {
      SingleBracketsFit(s[1..]);
      NestsStep(s[0], s[1..], 0);
      assert s == [s[0]] + s[1..];
    }
  }

  lemma NestsPair(u: string, depth: nat)
    ensures Nests("[[" + u, depth) == Nests(u, depth + 1)
    ensures Nests("]]" + u, depth) == (depth > 0 && Nests(u, depth - 1))
  {
    var (s, t) := ("[[" + u, "]]" + u);
    assert s[0] == '[' && s[1] == '[' && s[2..] == u;
    assert t[0] == ']' && t[1] == ']' && t[2..] == u;
  }

  /** So does a pair of double ones around a text without brackets. */
  lemma DoubleBracketsFit(s: string)
    requires forall i :: 0 <= i < |s| ==> s[i] != '[' && s[i] != ']'
    ensures Nests("[[" + (s + "]]"), 0)
  {
    ClosedAfter(s);
    NestsPair(s + "]]", 0);
  }

  lemma {:induction false} ClosedAfter(s: string)
    requires forall i :: 0 <= i < |s| ==> s[i] != '[' && s[i] != ']'
    ensures Nests(s + "]]", 1)
    decreases |s|
  {
    if s == "" {
      NestsPair("", 1);
      assert "]]" + "" == s + "]]";
    } else {
      ClosedAfter(s[1..]);
      NestsStep(s[0], s[1..] + "]]", 1);
      assert s + "]]" == [s[0]] + (s[1..] + "]]");
    }
  }

  lemma BracketLong(w: string)
    ensures ReadLong("x]" + ("]]" + w), 0) == Some(("x", "]" + w))
  {
    SingleBracketsFit("x");
    LongRoundTrip("x", 0, "]" + w);
    FirstPair(w);
  }

  lemma FirstPair(w: string)
    ensures "x]" + ("]]" + w) == "x" + ("]]" + ("]" + w))
  {
    var (a, b) := ("x]" + ("]]" + w), "x" + ("]]" + ("]" + w)));
    assert a[..4] == b[..4] && a[4..] == w && b[4..] == w;
    assert a == a[..4] + a[4..] && b == b[..4] + b[4..];
  }

  lemma BracketCall(w: string)
    ensures ReadCall("Inherit", "Inherit" + ("([[" + ("x]" + ("]]" + w)))) == None
  {
    BracketLong(w);
    CallOpened("Inherit", "x]", w);
  }

  lemma StmtTextThen(l: Stmt, rest: string)
    ensures StmtText(l) + rest == "GameData" + (KeysText(l.path) + (" = " + (RhsText(l.rhs) + ("\r\n" + rest))))
  {
    Assoc5("GameData", KeysText(l.path), " = ", RhsText(l.rhs), "\r\n", rest);
  }

  /** A name that ends in a bracket does not fit: it is cut, and its line does not read. */
  lemma BracketNameLost(rest: string)
    ensures !NameFits("x]") && ReadStmt(StmtText(Assign([], Call("Inherit", "x]"))) + rest) == None
  {
    var l := Assign([], Call("Inherit", "x]"));
    var tail := "\r\n" + rest;
    CallRoundTrip("Inherit", "x]", tail);
    CallTextThen("Inherit", "x]", tail);
    BracketCall(")" + tail);
    CallStart("Inherit", "([[" + ("x]" + ("]]" + (")" + tail))));
    StmtTextThen(l, rest);
    var r1 := " = " + (RhsText(l.rhs) + tail);
    assert KeysText([]) + r1 == r1;
    assert ("GameData" + r1)[8..] == r1 && r1[0] == ' ' && r1[3..] == RhsText(l.rhs) + tail;
  }

  lemma BracketNamesFit()
    ensures NameFits("a[1].lua") && NameFits("[[a]]")
  {
    SingleBracketsFit("a[1].lua");
    DoubleBracketsFit("a");
    assert "[[" + ("a" + "]]") == "[[a]]";
  }

  lemma StringRoundTrip(x: string, rest: string)
    ensures ReadRhs(RhsText(Const(Str(x))) + rest) == Some((Const(Str(CStr(x))), rest))
  {
    var e := Escape(CStr(x));
    var s := RhsText(Const(Str(x))) + rest;
    StringText(e, rest);
    assert s[0] == '\"' && s[1..] == e + "\"" + rest;
    EscapeRoundTrip(CStr(x), rest);
  }

  lemma StringText(e: string, rest: string)
    ensures ("\"" + e + "\"") + rest == "\"" + (e + "\"" + rest)
  {
  }

  /** The words `true`, `false` and `nil`, which also stands for a table. */
  lemma WordRoundTrip(v: Value, rest: string)
    requires v.Bool? || v.Nil? || v.Tab?
    ensures ReadRhs(RhsText(Const(v)) + rest) == Some((Const(if v.Tab? then Nil else v), rest))
  {
    var s := RhsText(Const(v)) + rest;
    assert s[0] == RhsText(Const(v))[0];
  }

  /** A right-hand side comes back from its text if and only if it is a value other than a
      table, without NUL, or a call of one of the two functions on a name that fits. */
  lemma {:induction false} RhsRoundTrip(r: Rhs, rest: string)
    requires Ends(rest)
    ensures Reads(ReadRhs(RhsText(r) + rest), r) <==> RhsOk(r)
    ensures ReadRhs(RhsText(r) + rest) == Some((r, rest)) <==> RhsOk(r)
  {
    if r.Call? {
      if r.fn == "Inherit" || r.fn == "Reference" { CallRoundTrip(r.fn, r.ref, rest); }
    } else if r.v.Num? {
      NumberRoundTrip(r.v.n, rest);
      assert (RhsText(r) + rest)[0] == FixedText(r.v.n)[0];
    } else if r.v.Str? {
      StringRoundTrip(r.v.s, rest);
    } else {
      WordRoundTrip(r.v, rest);
    }
  }

  /** So does a whole line, if and only if its keys hold no NUL either. */
  lemma {:induction false} StmtRoundTrip(l: Stmt, rest: string)
    ensures Reads(ReadStmt(StmtText(l) + rest), l) <==> StmtOk(l)
    ensures ReadStmt(StmtText(l) + rest) == Some((l, rest)) <==> StmtOk(l)
  {
    var r2 := "\r\n" + rest;
    var r1 := " = " + (RhsText(l.rhs) + r2);
    var s := "GameData" + (KeysText(l.path) + r1);
    StmtTextThen(l, rest);
    assert s[8..] == KeysText(l.path) + r1;
    assert r1[0] == ' ';
    PathReads(l.path, r1);
    PathRoundTrip(l.path, r1);
    assert r1[3..] == RhsText(l.rhs) + r2;
    RhsRoundTrip(l.rhs, r2);
    assert r2[2..] == rest;
  }

  /** Reading the text of a program gives the program, if and only if every line is one that
      comes back. */
  lemma {:induction false} ProgramRoundTrip(ls: seq<Stmt>)
    ensures ReadProgram(ProgramText(ls)) == Some(ls) <==> AllOk(ls)
    decreases |ls|
  {
    if ls != [] {
      ProgramRoundTrip(ls[1..]);
      StmtRoundTrip(ls[0], ProgramText(ls[1..]));
      ProgramStep(ls[0], ls[1..]);
      AllOkSplit(ls);
    }
  }

  predicate AllOk(ls: seq<Stmt>) {
    forall i :: 0 <= i < |ls| ==> StmtOk(ls[i])
  }

  lemma AllOkSplit(ls: seq<Stmt>)
    requires ls != []
    ensures [ls[0]] + ls[1..] == ls && (AllOk(ls) <==> StmtOk(ls[0]) && AllOk(ls[1..]))
  {
    assert forall i :: 1 <= i < |ls| ==> ls[i] == ls[1..][i - 1];
  }

  lemma ProgramStep(l: Stmt, rest: seq<Stmt>)
    ensures var (p, t) := (ProgramText(rest), StmtText(l) + ProgramText(rest));
      && (ReadProgram(t) == Some([l] + rest) ==> Reads(ReadStmt(t), l))
      && (ReadStmt(t) == Some((l, p)) ==> (ReadProgram(t) == Some([l] + rest) <==> ReadProgram(p) == Some(rest)))
  {
    var t := StmtText(l) + ProgramText(rest);
    assert t[0] == 'G';
    var r := ReadStmt(t);
    if r.Some? && ReadProgram(r.value.1).Some? {
      var (m, ms) := (r.value.0, ReadProgram(r.value.1).value);
      assert ReadProgram(t) == Some([m] + ms);
      assert [m] + ms == [l] + rest ==> m == l && ms == rest by {
        assert ([m] + ms)[0] == m && ([m] + ms)[1..] == ms && ([l] + rest)[0] == l && ([l] + rest)[1..] == rest;
      }
    }
  }
}
