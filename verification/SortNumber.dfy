/** The packed sort number of a file source: 15 bits of mod, one bit of source type, 16
    bits of source number.  Setters first set their bits, then mask the new value in. */
module SortNumber {

  function GetMod(n: bv32): bv32 {
    n >> 17
  }

  function GetSourceType(n: bv32): bv32 {
    (n >> 16) & 1
  }

  function GetSourceNumber(n: bv32): bv32 {
    n & 0xffff
  }

  /** The three parts put in their places; a mod number keeps its low 15 bits only. */
  function Pack(mod: bv32, sga: bool, number: bv32): bv32
    requires number <= 0xffff
  {
    ((mod & 0x7fff) << 17) | (if sga then 0x10000 else 0) | number
  }

  // ----- One part replaced, the others kept -----

  function WithMod(s: bv32, n: bv32): bv32
  {
    ((n & 0x7fff) << 17) | (s & 0x1ffff)
  }

  function WithType(s: bv32, n: bv32): bv32
  {
    ((n & 1) << 16) | (s & 0xfffeffff)
  }

  function WithNumber(s: bv32, n: bv32): bv32
    requires n <= 0xffff
  {
    n | (s & 0xffff0000)
  }

  lemma MaskMod(s: bv32, n: bv32)
    ensures (s | 0xfffe0000) & (((n & 0x7fff) << 17) | 0x1ffff) == WithMod(s, n)
  {
  }

  lemma MaskType(s: bv32, n: bv32)
    ensures (s | 0x10000) & (((n & 1) << 16) | 0xfffeffff) == WithType(s, n)
  {
  }

  lemma MaskNumber(s: bv32, n: bv32)
    requires n <= 0xffff
    ensures (s | 0xffff) & (0xffff0000 | n) == WithNumber(s, n)
  {
  }

  lemma OnlyModChanges(s: bv32, n: bv32)
    ensures GetMod(WithMod(s, n)) == n & 0x7fff
    ensures GetSourceType(WithMod(s, n)) == GetSourceType(s)
    ensures GetSourceNumber(WithMod(s, n)) == GetSourceNumber(s)
  {
  }

  lemma OnlyTypeChanges(s: bv32, n: bv32)
    ensures GetSourceType(WithType(s, n)) == n & 1
    ensures GetMod(WithType(s, n)) == GetMod(s)
    ensures GetSourceNumber(WithType(s, n)) == GetSourceNumber(s)
  {
  }

  lemma OnlyNumberChanges(s: bv32, n: bv32)
    requires n <= 0xffff
    ensures GetSourceNumber(WithNumber(s, n)) == n
    ensures GetMod(WithNumber(s, n)) == GetMod(s)
    ensures GetSourceType(WithNumber(s, n)) == GetSourceType(s)
  {
  }

  lemma PackIs(mod: bv32, sga: bool, number: bv32)
    requires number <= 0xffff
    ensures WithNumber(WithType(WithMod(0, mod), if sga then 1 else 0), number) == Pack(mod, sga, number)
  {
  }

  class DataSource {
    var sortNumber: bv32

    /** The sort number `RegisterSource` gives a source. */
    constructor (mod: bv32, sga: bool, number: bv32)
      requires mod <= 0xffff && number <= 0xffff
      ensures sortNumber == Pack(mod, sga, number)
    {
      sortNumber := 0;
      new;
      assert sortNumber == 0;
      SetMod(mod);
      SetSourceType(if sga then 1 else 0);
      SetSourceNumber(number);
      PackIs(mod, sga, number);
    }

    method SetMod(n: bv32)
      modifies this
      ensures sortNumber == WithMod(old(sortNumber), n)
    {
      MaskMod(sortNumber, n);
      sortNumber := sortNumber | 0xfffe0000;
      sortNumber := sortNumber & (((n & 0x7fff) << 17) | 0x1ffff);
    }

    method SetSourceType(n: bv32)
      modifies this
      ensures sortNumber == WithType(old(sortNumber), n)
    {
      MaskType(sortNumber, n);
      sortNumber := sortNumber | 0x10000;
      sortNumber := sortNumber & (((n & 1) << 16) | 0xfffeffff);
    }

    method SetSourceNumber(n: bv32)
      requires n <= 0xffff
      modifies this
      ensures sortNumber == WithNumber(old(sortNumber), n)
    {
      MaskNumber(sortNumber, n);
      sortNumber := sortNumber | 0xffff;
      sortNumber := sortNumber & (0xffff0000 | n);
    }
  }

  /** Registered sources compare by mod first, then folders before archives, then by
      source number. */
  lemma ModFirst(a: bv32, b: bv32, s: bool, t: bool, m: bv32, n: bv32)
    requires a <= 0x7fff && b <= 0x7fff && m <= 0xffff && n <= 0xffff && a < b
    ensures Pack(a, s, m) < Pack(b, t, n)
  {
  }

  lemma FolderFirst(a: bv32, m: bv32, n: bv32)
    requires m <= 0xffff && n <= 0xffff
    ensures Pack(a, false, m) < Pack(a, true, n)
  {
  }

  lemma FolderNumberLast(a: bv32, m: bv32, n: bv32)
    requires m <= 0xffff && n <= 0xffff && m < n
    ensures Pack(a, false, m) < Pack(a, false, n)
  {
  }

  lemma ArchiveNumberLast(a: bv32, m: bv32, n: bv32)
    requires m <= 0xffff && n <= 0xffff && m < n
    ensures Pack(a, true, m) < Pack(a, true, n)
  {
  }

  lemma NumberLast(a: bv32, m: bv32, n: bv32)
    requires m <= 0xffff && n <= 0xffff && m < n
    ensures Pack(a, false, m) < Pack(a, false, n) && Pack(a, true, m) < Pack(a, true, n)
  {
    FolderNumberLast(a, m, n);
    ArchiveNumberLast(a, m, n);
  }

  /** The limit for output sources: up to 0xffff are the folders of the mod itself. */
  lemma OwnFolders(n: bv32)
    ensures n <= 0xffff <==> GetMod(n) == 0 && GetSourceType(n) == 0
    ensures n as nat <= 0xffff <==> n <= 0xffff
  {
  }

  /** The packed number as it orders sources. */
  function Value(n: bv32): nat {
    n as nat
  }

  predicate OwnFolder(n: bv32) {
    GetMod(n) == 0 && GetSourceType(n) == 0
  }

  lemma OwnFolderValue(n: bv32)
    ensures Value(n) <= 0xffff <==> OwnFolder(n)
  {
    OwnFolders(n);
  }

  /** A mod number survives packing exactly when it fits its 15 bits. */
  lemma ModFits(mod: bv32, sga: bool, number: bv32)
    requires mod <= 0xffff && number <= 0xffff
    ensures GetMod(Pack(mod, sga, number)) == mod <==> mod < 0x8000
    ensures GetSourceType(Pack(mod, sga, number)) == (if sga then 1 else 0)
    ensures GetSourceNumber(Pack(mod, sga, number)) == number
  {
  }
}
