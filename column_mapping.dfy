/**
 * Mapping.java: one Excel column mapped to one database column, with the
 * column's type and length, and the static helpers that look mappings up,
 * build the INSERT statement and answer "is this column imported?".
 */
module ColumnMapping {
  import opened Wrappers
  import opened JavaText
  import opened ColumnType

  /** The length of a STRING column when the init file gives none. */
  const DefaultLen: int := 256

  // ---------------------------------------------------------------------------
  // Column letters to column index

  predicate IsUpperLetter(c: char) {
    'A' <= c <= 'Z'
  }

  predicate AllUpperLetters(s: string) {
    forall i :: 0 <= i < |s| ==> IsUpperLetter(s[i])
  }

  /**
   * Mapping.toInt: for every char, col = col * 26 + c - 'A' in Java int
   * arithmetic (each operator wraps), starting from 0. Here 'A' is the
   * digit 0, so a leading 'A' adds nothing.
   */
  function ToIntAsWritten(sym: string): (r: int)
    ensures IntMin <= r <= IntMax
    decreases |sym|
  {
    if sym == [] then 0
    else
      var acc := ToIntAsWritten(sym[..|sym| - 1]);
      Wrap32(Wrap32(Wrap32(acc * 26) + sym[|sym| - 1] as int) - 'A' as int)
  }

  /** The loop of Mapping.toInt. */
  method ToInt(sym: string) returns (col: int)
    ensures col == ToIntAsWritten(sym)
  {
    col := 0;
    for i := 0 to |sym|
      invariant col == ToIntAsWritten(sym[..i])
    {
      assert sym[..i + 1][..i] == sym[..i];
      col := Wrap32(Wrap32(Wrap32(col * 26) + sym[i] as int) - 'A' as int);
    }
    assert sym[..|sym|] == sym;
  }

  /** The base-26 value of a letter string, with 'A' the digit 0 and 'Z' the digit 25. */
  function Base26(s: string): nat
    requires AllUpperLetters(s)
    decreases |s|
  {
    if s == [] then 0 else Base26(s[..|s| - 1]) * 26 + (s[|s| - 1] as int - 'A' as int)
  }

  function Pow26(n: nat): (p: nat)
    ensures p >= 1
  {
    if n == 0 then 1 else 26 * Pow26(n - 1)
  }

  lemma {:induction false} Base26Bound(s: string)
    requires AllUpperLetters(s)
    ensures Base26(s) < Pow26(|s|)
    decreases |s|
  {
    if s != [] {
      Base26Bound(s[..|s| - 1]);
    }
  }

  lemma {:induction false} Pow26Monotone(m: nat, n: nat)
    requires m <= n
    ensures Pow26(m) <= Pow26(n)
    decreases n
  {
    if m < n {
      Pow26Monotone(m, n - 1);
    }
  }

  /**
   * Up to six letters toInt does not wrap: it is the base-26 value of the
   * name, below 26^6, which is below 2^30.
   */
  lemma {:induction false} ToIntAsWrittenNoWrap(s: string)
    requires AllUpperLetters(s) && |s| <= 6
    ensures ToIntAsWritten(s) == Base26(s)
    ensures 0 <= ToIntAsWritten(s) < 308915776
    decreases |s|
  {
    if s != [] {
      var p := s[..|s| - 1];
      ToIntAsWrittenNoWrap(p);
      Base26Bound(p);
      Pow26Monotone(|p|, 5);
      assert Pow26(5) == 11881376;
    }
    Base26Bound(s);
    Pow26Monotone(|s|, 6);
    assert Pow26(6) == 308915776;
  }

  lemma {:induction false} ToIntAsWrittenIgnoresLeadingA(s: string)
    ensures ToIntAsWritten("A" + s) == ToIntAsWritten(s)
    decreases |s|
  {
    if s == [] {
      assert "A" + s == "A";
      assert "A"[..0] == [];
    } else {
      var t := "A" + s;
      assert t[..|t| - 1] == "A" + s[..|s| - 1];
      assert t[|t| - 1] == s[|s| - 1];
      ToIntAsWrittenIgnoresLeadingA(s[..|s| - 1]);
    }
  }

  /** toInt sends Excel's column AA (the 27th) to index 0, the index of A. */
  lemma ToIntAsWrittenCollides()
    ensures ToIntAsWritten("A") == 0 && ToIntAsWritten("AA") == 0
    ensures ToIntAsWritten("BA") == 26
  {
    assert "A"[..0] == [];
    assert "AA"[..1] == "A";
    assert "B"[..0] == [];
    assert "BA"[..1] == "B";
  }

  /** Column names the init file can produce that reach both ends of the int range. */
  lemma ToIntAsWrittenExtremes()
    ensures ToIntAsWritten("@") == -1
    ensures ToIntAsWritten("GYTISYX") == IntMax
  {
    assert "@"[..0] == [];
    var s := "GYTISYX";
    assert s[..1][..0] == [];
    assert ToIntAsWritten(s[..1]) == 6;
    assert s[..2][..1] == s[..1];
    assert ToIntAsWritten(s[..2]) == 180;
    assert s[..3][..2] == s[..2];
    assert ToIntAsWritten(s[..3]) == 4699;
    assert s[..4][..3] == s[..3];
    assert ToIntAsWritten(s[..4]) == 122182;
    assert s[..5][..4] == s[..4];
    assert ToIntAsWritten(s[..5]) == 3176750;
    assert s[..6][..5] == s[..5];
    assert ToIntAsWritten(s[..6]) == 82595524;
    assert s[..6] == s[..|s| - 1];
  }

  // The numbering the class comment promises, and that toInt misses:
  // Excel's own, where AA follows Z. It is proved one-to-one here; the
  // mappings themselves keep the index toInt computes.

  /** Excel's own numbering: A..Z are 1..26, AA is 27, in bijective base 26. */
  function LetterNumber(s: string): nat
    requires AllUpperLetters(s)
    decreases |s|
  {
    if s == [] then 0 else LetterNumber(s[..|s| - 1]) * 26 + (s[|s| - 1] as int - 'A' as int + 1)
  }

  /**
   * The corrected conversion: bijective base 26 less one, so A..Z are
   * 0..25 and AA is 26, in Java int arithmetic.
   */
  function ColumnNumber(sym: string): int
    decreases |sym|
  {
    if sym == [] then 0
    else Wrap32(ColumnNumber(sym[..|sym| - 1]) * 26 + (sym[|sym| - 1] as int - 'A' as int + 1))
  }

  function ColumnIndex(sym: string): (col: int)
    ensures IntMin <= col <= IntMax
  {
    Wrap32(ColumnNumber(sym) - 1)
  }

  function Pow27(n: nat): (p: nat)
    ensures p >= 1
  {
    if n == 0 then 1 else 27 * Pow27(n - 1)
  }

  lemma {:induction false} LetterNumberBound(s: string)
    requires AllUpperLetters(s)
    ensures LetterNumber(s) < Pow27(|s|)
    ensures s != [] ==> LetterNumber(s) >= 1
    decreases |s|
  {
    if s != [] {
      LetterNumberBound(s[..|s| - 1]);
    }
  }

  lemma {:induction false} Pow27Monotone(m: nat, n: nat)
    requires m <= n
    ensures Pow27(m) <= Pow27(n)
    decreases n
  {
    if m < n {
      Pow27Monotone(m, n - 1);
    }
  }

  /** Up to six letters nothing wraps: the corrected index is Excel's number less one. */
  lemma {:induction false} ColumnNumberNoWrap(s: string)
    requires AllUpperLetters(s) && |s| <= 6
    ensures ColumnNumber(s) == LetterNumber(s)
    decreases |s|
  {
    if s != [] {
      var p := s[..|s| - 1];
      ColumnNumberNoWrap(p);
      LetterNumberBound(p);
      Pow27Monotone(|p|, 5);
      assert Pow27(5) == 14348907;
    }
  }

  /** Excel's numbering is one-to-one on letter strings of every length. */
  lemma {:induction false} LetterNumberInjective(a: string, b: string)
    requires AllUpperLetters(a) && AllUpperLetters(b)
    requires LetterNumber(a) == LetterNumber(b)
    ensures a == b
    decreases |a|
  {
    LetterNumberBound(a);
    LetterNumberBound(b);
    if a != [] {
      var pa, pb := a[..|a| - 1], b[..|b| - 1];
      var da := a[|a| - 1] as int - 'A' as int + 1;
      var db := b[|b| - 1] as int - 'A' as int + 1;
      assert LetterNumber(pa) * 26 + da == LetterNumber(pb) * 26 + db;
      assert 26 * (LetterNumber(pa) - LetterNumber(pb)) == db - da;
      assert LetterNumber(pa) == LetterNumber(pb);
      LetterNumberInjective(pa, pb);
      assert a == pa + [a[|a| - 1]] && b == pb + [b[|b| - 1]];
    }
  }

  /** Distinct column names of up to six letters get distinct indices, and every index is at least 0. */
  lemma ColumnIndexInjective(a: string, b: string)
    requires AllUpperLetters(a) && AllUpperLetters(b)
    requires 1 <= |a| <= 6 && 1 <= |b| <= 6
    ensures 0 <= ColumnIndex(a) && 0 <= ColumnIndex(b)
    ensures ColumnIndex(a) == ColumnIndex(b) ==> a == b
  {
    ColumnNumberNoWrap(a);
    ColumnNumberNoWrap(b);
    LetterNumberBound(a);
    LetterNumberBound(b);
    Pow27Monotone(|a|, 6);
    Pow27Monotone(|b|, 6);
    assert Pow27(6) == 387420489;
    if ColumnIndex(a) == ColumnIndex(b) {
      LetterNumberInjective(a, b);
    }
  }

  lemma ColumnIndexExamples()
    ensures ColumnIndex("A") == 0 && ColumnIndex("Z") == 25
    ensures ColumnIndex("AA") == 26 && ColumnIndex("AZ") == 51 && ColumnIndex("BA") == 52
  {
    assert "A"[..0] == [] && "Z"[..0] == [] && "B"[..0] == [];
    assert "AA"[..1] == "A" && "AZ"[..1] == "A" && "BA"[..1] == "B";
  }

  // ---------------------------------------------------------------------------
  // Ordering

  /** Mapping.compareTo as written: the difference of the two indices, in int arithmetic. */
  function CompareAsWritten(a: int, b: int): (c: int)
    requires IntMin <= a <= IntMax && IntMin <= b <= IntMax
    ensures IntMin <= a - b <= IntMax ==> (c < 0 <==> a < b) && (c == 0 <==> a == b) && (c > 0 <==> a > b)
  {
    Wrap32(a - b)
  }

  /** The subtraction overflows: index IntMax compares below index -1, and IntMin above 1. */
  lemma CompareAsWrittenOverflows()
    ensures CompareAsWritten(IntMax, -1) < 0
    ensures CompareAsWritten(IntMin, 1) > 0
  {
  }

  // ---------------------------------------------------------------------------
  // The mapping object

  /** A mapping as a value: what the importer reads from a Mapping object. */
  datatype ColumnSpec = ColumnSpec(sym: string, col: int, dbCol: string, ty: Type, len: int)

  class Mapping {
    const sym: string
    const col: int
    const dbCol: string
    var ty: Type
    var len: int

    /** A new mapping is a STRING column of the default length. */
    constructor (sym: string, dbCol: string)
      ensures this.sym == sym && this.dbCol == dbCol
      ensures col == ToIntAsWritten(sym)
      ensures ty == String && len == DefaultLen
    {
      this.sym := sym;
      this.dbCol := dbCol;
      var c := ToInt(sym);
      this.col := c;
      ty := String;
      len := DefaultLen;
    }

    method SetType(t: Type)
      modifies this
      ensures ty == t && len == old(len)
    {
      ty := t;
    }

    method SetLen(n: int)
      requires IntMin <= n <= IntMax
      modifies this
      ensures len == n && ty == old(ty)
    {
      len := n;
    }

    /** hasSym: the column name matches, ignoring case. */
    predicate HasSym(s: string): (b: bool)
      ensures b <==> |sym| == |s| && forall i :: 0 <= i < |s| ==> UpperChar(sym[i]) == UpperChar(s[i])
    {
      EqualsIgnoreCase(sym, s)
    }

    function CompareTo(other: Mapping): (c: int)
      requires IntMin <= col <= IntMax && IntMin <= other.col <= IntMax
      ensures IntMin <= c <= IntMax
      ensures IntMin <= col - other.col <= IntMax ==> (c < 0 <==> col < other.col) && (c == 0 <==> col == other.col)
    {
      CompareAsWritten(col, other.col)
    }
  }

  function View(m: Mapping): (c: ColumnSpec)
    reads m
  {
    ColumnSpec(m.sym, m.col, m.dbCol, m.ty, m.len)
  }

  function Views(ms: seq<Mapping>): (r: seq<ColumnSpec>)
    reads set m | m in ms
    ensures |r| == |ms|
    ensures forall i :: 0 <= i < |ms| ==> r[i] == View(ms[i])
  {
    seq(|ms|, i reads set m | m in ms requires 0 <= i < |ms| => View(ms[i]))
  }

  function Cols(ms: seq<Mapping>): (r: seq<int>)
    ensures |r| == |ms|
    ensures forall i :: 0 <= i < |ms| ==> r[i] == ms[i].col
  {
    seq(|ms|, i requires 0 <= i < |ms| => ms[i].col)
  }

  function DbCols(ms: seq<Mapping>): (r: seq<string>)
    ensures |r| == |ms|
    ensures forall i :: 0 <= i < |ms| ==> r[i] == ms[i].dbCol
  {
    seq(|ms|, i requires 0 <= i < |ms| => ms[i].dbCol)
  }

  // ---------------------------------------------------------------------------
  // Lookups: the first element that matches, as Stream.filter(..).findFirst() gives

  function FirstWhere<T>(s: seq<T>, p: T -> bool): (r: Option<nat>)
    ensures r.Some? ==> r.value < |s| && p(s[r.value])
    ensures r.Some? ==> forall j :: 0 <= j < r.value ==> !p(s[j])
    ensures r.None? <==> forall j :: 0 <= j < |s| ==> !p(s[j])
  {
    if s == [] then None
    else if p(s[0]) then Some(0)
    else match FirstWhere(s[1..], p)
      case None => None
      case Some(i) => Some(i + 1)
  }

  /** Where getMapping by name finds its mapping: the first index whose name equals s ignoring case. */
  function SymIndex(dbMap: seq<Mapping>, s: string): (r: Option<nat>)
    ensures r.Some? ==> r.value < |dbMap| && dbMap[r.value].HasSym(s)
    ensures r.Some? ==> forall j :: 0 <= j < r.value ==> !dbMap[j].HasSym(s)
    ensures r.None? <==> forall j :: 0 <= j < |dbMap| ==> !dbMap[j].HasSym(s)
  {
    FirstWhere(dbMap, (m: Mapping) => m.HasSym(s))
  }

  /** Where getMapping by index finds its mapping: the first index whose column is idx. */
  function ColIndex(dbMap: seq<Mapping>, idx: int): (r: Option<nat>)
    ensures r.Some? ==> r.value < |dbMap| && dbMap[r.value].col == idx
    ensures r.Some? ==> forall j :: 0 <= j < r.value ==> dbMap[j].col != idx
    ensures r.None? <==> idx !in Cols(dbMap)
  {
    FirstWhere(dbMap, (m: Mapping) => m.col == idx)
  }

  /** getMapping by name: the first mapping whose name equals s ignoring case, or none. */
  function GetMappingBySym(dbMap: seq<Mapping>, s: string): (r: Option<Mapping>)
    ensures r.None? <==> forall j :: 0 <= j < |dbMap| ==> !dbMap[j].HasSym(s)
    ensures r.Some? ==> exists i :: 0 <= i < |dbMap| && dbMap[i] == r.value && r.value.HasSym(s) && forall j :: 0 <= j < i ==> !dbMap[j].HasSym(s)
  {
    match SymIndex(dbMap, s)
    case None => None
    case Some(i) => Some(dbMap[i])
  }

  /** getMapping by index: the first mapping whose column index is idx, or none. */
  function GetMappingByCol(dbMap: seq<Mapping>, idx: int): (r: Option<Mapping>)
    ensures r.None? <==> idx !in Cols(dbMap)
    ensures r.Some? ==> exists i :: 0 <= i < |dbMap| && dbMap[i] == r.value && r.value.col == idx && forall j :: 0 <= j < i ==> dbMap[j].col != idx
  {
    match ColIndex(dbMap, idx)
    case None => None
    case Some(i) => Some(dbMap[i])
  }

  // ---------------------------------------------------------------------------
  // The INSERT statement

  function Repeat(s: string, n: nat): (r: string)
    ensures |r| == |s| * n
  {
    if n == 0 then [] else s + Repeat(s, n - 1)
  }

  /** The VALUES list: "?," n times with the last comma cut off. */
  function Placeholders(n: nat): (r: string)
    requires n >= 1
    ensures |r| == 2 * n - 1
  {
    Repeat("?,", n)[..2 * n - 1]
  }

  lemma {:induction false} RepeatShape(n: nat, i: nat)
    requires i < 2 * n
    ensures Repeat("?,", n)[i] == if i % 2 == 0 then '?' else ','
    decreases n
  {
    if i >= 2 {
      RepeatShape(n - 1, i - 2);
      assert Repeat("?,", n)[i] == Repeat("?,", n - 1)[i - 2];
    }
  }

  /** n question marks separated by commas. */
  lemma PlaceholdersShape(n: nat)
    requires n >= 1
    ensures |Placeholders(n)| == 2 * n - 1
    ensures forall i :: 0 <= i < 2 * n - 1 ==> Placeholders(n)[i] == if i % 2 == 0 then '?' else ','
  {
    forall i | 0 <= i < 2 * n - 1
      ensures Placeholders(n)[i] == if i % 2 == 0 then '?' else ','
    {
      RepeatShape(n, i);
    }
  }

  /** The column list the StringBuilder loop builds: a comma goes in only once the text is non-empty. */
  function ColumnList(names: seq<string>): string
    decreases |names|
  {
    if names == [] then ""
    else
      var acc := ColumnList(names[..|names| - 1]);
      if |acc| == 0 then acc + names[|names| - 1] else acc + "," + names[|names| - 1]
  }

  /** The names joined with commas. */
  function Join(names: seq<string>): string
    decreases |names|
  {
    if names == [] then ""
    else if |names| == 1 then names[0]
    else Join(names[..|names| - 1]) + "," + names[|names| - 1]
  }

  lemma {:induction false} ColumnListNonEmpty(names: seq<string>)
    requires forall i :: 0 <= i < |names| ==> names[i] != ""
    ensures ColumnList(names) == Join(names)
    ensures names != [] ==> |ColumnList(names)| > 0
    decreases |names|
  {
    if names != [] {
      ColumnListNonEmpty(names[..|names| - 1]);
    }
  }

  /** An empty first name puts no leading comma in: ["", "a"] lists as "a". */
  lemma ColumnListSkipsEmptyHead()
    ensures ColumnList(["", "a"]) == "a"
    ensures Join(["", "a"]) == ",a"
  {
    assert ["", "a"][..1] == [""];
    assert [""][..0] == [];
  }

  function InsertText(table: string, columns: string, values: string): string {
    "INSERT INTO " + table + " (" + columns + ")" + " VALUES (" + values + ")"
  }

  /**
   * getInsertString: none (StringIndexOutOfBoundsException from the
   * substring) when there is no mapping; otherwise the statement naming the
   * database columns in order, with one placeholder each.
   */
  method GetInsertString(dbMap: seq<Mapping>, table: string) returns (r: Option<string>)
    ensures r.None? <==> |dbMap| == 0
    ensures r.Some? ==> r.value == InsertText(table, ColumnList(DbCols(dbMap)), Placeholders(|dbMap|))
    ensures r.Some? && (forall i :: 0 <= i < |dbMap| ==> dbMap[i].dbCol != "") ==>
              r.value == InsertText(table, Join(DbCols(dbMap)), Placeholders(|dbMap|))
  {
    var n := |dbMap|;
    if n == 0 {
      return None;
    }
    var values := Repeat("?,", n)[..2 * n - 1];
    var columns := "";
    for i := 0 to n
      invariant columns == ColumnList(DbCols(dbMap)[..i])
    {
      assert DbCols(dbMap)[..i + 1][..i] == DbCols(dbMap)[..i];
      if |columns| == 0 {
        columns := columns + dbMap[i].dbCol;
      } else {
        columns := columns + "," + dbMap[i].dbCol;
      }
    }
    assert DbCols(dbMap)[..n] == DbCols(dbMap);
    r := Some(InsertText(table, columns, values));
    if forall i :: 0 <= i < |dbMap| ==> dbMap[i].dbCol != "" {
      ColumnListNonEmpty(DbCols(dbMap));
    }
  }

  // ---------------------------------------------------------------------------
  // isDb_Col and its static cache

  /**
   * The static list of imported column indices. It is filled on the first
   * call that has a map and never refreshed afterwards.
   */
  class ColumnCache {
    var cached: Option<seq<int>>

    constructor ()
      ensures cached == None
    {
      cached := None;
    }

    /** Whether column index idx is imported; false when there is no map. */
    method IsDbCol(dbMap: Option<seq<Mapping>>, idx: int) returns (b: bool)
      modifies this
      ensures dbMap.None? ==> !b && cached == old(cached)
      ensures dbMap.Some? ==> cached == (if old(cached).None? then Some(Cols(dbMap.value)) else old(cached))
      ensures dbMap.Some? ==> b == (idx in cached.value)
      ensures dbMap.Some? && old(cached) in {None, Some(Cols(dbMap.value))} ==>
                (b <==> GetMappingByCol(dbMap.value, idx).Some?)
    {
      if dbMap.None? {
        return false;
      }
      if cached.None? {
        cached := Some(Cols(dbMap.value));
      }
      b := idx in cached.value;
    }
  }
}
