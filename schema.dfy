/**
 * What init (Excel2MySQL.java) makes of the column keys of the init file,
 * as values: which keys are column keys, which of them create a mapping,
 * the sort by column index, and the "type" and "len" keys that patch the
 * sorted mappings afterwards. The importer's Init method is proved to
 * build exactly Resolve(props).
 */
module Schema {
  import opened Wrappers
  import opened JavaText
  import opened ColumnType
  import opened ColumnMapping
  import StableSort

  /** One property of the init file: its key and its value. */
  type Entry = (string, string)

  /** The keys init's switch handles itself; every other key falls to its default branch. */
  const FixedKeys: seq<string> := ["DB_URL", "DB_USER_NAME", "DB_PASSWORD", "DB_NAME", "DB_TABLE",
                                   "EXCEL_FILE_PATH", "EXCEL_ERROR_FILE_PATH", "IS_READ_FIRST_LINE", "BULK_SIZE"]

  /** A Properties object holds each key once. */
  predicate DistinctKeys(props: seq<Entry>) {
    forall i, j :: 0 <= i < j < |props| ==> props[i].0 != props[j].0
  }

  /** The default branch keeps a key that splits into more than one token, the first being COL in any case. */
  predicate IsColumnKey(key: string) {
    key !in FixedKeys && |Split(key)| > 1 && EqualsIgnoreCase(Split(key)[0], "COL")
  }

  /** The column map, in the order init visits it. */
  function ColumnEntries(props: seq<Entry>): (r: seq<Entry>)
    ensures |r| <= |props|
    ensures forall e :: e in r <==> e in props && IsColumnKey(e.0)
    decreases |props|
  {
    if props == [] then []
    else
      var last := props[|props| - 1];
      assert forall e :: e in props <==> e in props[..|props| - 1] || e == last;
      ColumnEntries(props[..|props| - 1]) + (if IsColumnKey(last.0) then [last] else [])
  }

  /** The column name of a column key: its second token, trimmed and upper-cased. */
  function SymOf(key: string): string
    requires |Split(key)| >= 2
  {
    ToUpper(Trim(Split(key)[1]))
  }

  /** A column key that creates a mapping: exactly two tokens and a value that is not blank. */
  predicate IsMappingEntry(e: Entry) {
    |Split(e.0)| == 2 && Trim(e.1) != ""
  }

  function BaseSpec(e: Entry): ColumnSpec
    requires |Split(e.0)| >= 2
  {
    ColumnSpec(SymOf(e.0), ToIntAsWritten(SymOf(e.0)), e.1, String, DefaultLen)
  }

  /** A mapping as the column map creates it: a database column that is not blank, the STRING type, the default length. */
  predicate IsFreshSpec(c: ColumnSpec) {
    c.ty == String && c.len == DefaultLen && Trim(c.dbCol) != "" && c.col == ToIntAsWritten(c.sym)
  }

  /** The mappings created from the column map, in its order, before sorting. */
  function BaseSpecs(es: seq<Entry>): (r: seq<ColumnSpec>)
    ensures |r| <= |es|
    ensures forall i :: 0 <= i < |r| ==> IsFreshSpec(r[i])
    decreases |es|
  {
    if es == [] then []
    else
      var last := es[|es| - 1];
      BaseSpecs(es[..|es| - 1]) + (if IsMappingEntry(last) then [BaseSpec(last)] else [])
  }

  /** Every entry that qualifies creates its mapping. */
  lemma {:induction false} BaseSpecsCovers(es: seq<Entry>, e: Entry)
    requires e in es && IsMappingEntry(e)
    ensures BaseSpec(e) in BaseSpecs(es)
    decreases |es|
  {
    var n := |es| - 1;
    if e != es[n] {
      assert e in es[..n] by {
        var k :| 0 <= k < |es| && es[k] == e;
        assert k < n && es[..n][k] == e;
      }
      BaseSpecsCovers(es[..n], e);
    }
  }

  lemma ColumnEntriesStep(props: seq<Entry>, i: nat)
    requires i < |props|
    ensures ColumnEntries(props[..i + 1]) == ColumnEntries(props[..i]) + if IsColumnKey(props[i].0) then [props[i]] else []
  {
    assert props[..i + 1][..i] == props[..i];
  }

  lemma BaseSpecsStep(es: seq<Entry>, i: nat)
    requires i < |es|
    ensures BaseSpecs(es[..i + 1]) == BaseSpecs(es[..i]) + if IsMappingEntry(es[i]) then [BaseSpec(es[i])] else []
  {
    assert es[..i + 1][..i] == es[..i];
  }

  lemma PatchAllStep(cs: seq<ColumnSpec>, es: seq<Entry>, i: nat)
    requires i < |es|
    ensures PatchAll(cs, es[..i + 1]) == PatchOne(PatchAll(cs, es[..i]), es[i])
  {
    assert es[..i + 1][..i] == es[..i];
  }

  function ColKey(c: ColumnSpec): int {
    c.col
  }

  /**
   * Collections.sort on the mappings: stable, ascending by column index.
   * The sort compares with the sign-correct comparison; CompareToAgrees
   * shows that Mapping.compareTo gives the same signs on the indices of
   * names of up to six letters.
   */
  function SortSpecs(cs: seq<ColumnSpec>): seq<ColumnSpec> {
    StableSort.SortByKey(cs, ColKey)
  }

  /**
   * The indices toInt gives names of up to six letters lie in [0, 26^6),
   * so their differences never wrap and compareTo orders them as the
   * sign-correct comparison does.
   */
  lemma CompareToAgrees(a: string, b: string)
    requires AllUpperLetters(a) && AllUpperLetters(b) && |a| <= 6 && |b| <= 6
    ensures var x, y := ToIntAsWritten(a), ToIntAsWritten(b);
            (CompareAsWritten(x, y) < 0 <==> StableSort.CompareInts(x, y) < 0) &&
            (CompareAsWritten(x, y) == 0 <==> StableSort.CompareInts(x, y) == 0) &&
            (CompareAsWritten(x, y) > 0 <==> StableSort.CompareInts(x, y) > 0)
  {
    ToIntAsWrittenNoWrap(a);
    ToIntAsWrittenNoWrap(b);
  }

  /** The type a "type" value selects: the first three characters of its trimmed, upper-cased text. */
  function TypeOfValue(v: string): Type {
    var t := ToUpper(Trim(v));
    if |t| >= 3 then GetType(t[..3]) else String
  }

  /** The length a "len" value selects: the value parsed as an int, else the default. */
  function LenOfValue(v: string): int {
    match ParseInt(v)
    case Some(n) => n
    case None => DefaultLen
  }

  /** getMapping by name on values: the first spec whose name equals sym ignoring case. */
  function SpecIndex(cs: seq<ColumnSpec>, sym: string): (r: Option<nat>)
    ensures r.Some? ==> r.value < |cs| && EqualsIgnoreCase(cs[r.value].sym, sym)
    ensures r.Some? ==> forall j :: 0 <= j < r.value ==> !EqualsIgnoreCase(cs[j].sym, sym)
    ensures r.None? <==> forall j :: 0 <= j < |cs| ==> !EqualsIgnoreCase(cs[j].sym, sym)
  {
    FirstWhere(cs, (c: ColumnSpec) => EqualsIgnoreCase(c.sym, sym))
  }

  /** The same names, columns and database columns, in the same order. */
  predicate SameColumns(a: seq<ColumnSpec>, b: seq<ColumnSpec>) {
    |a| == |b| &&
    forall i :: 0 <= i < |a| ==> a[i].sym == b[i].sym && a[i].col == b[i].col && a[i].dbCol == b[i].dbCol
  }

  /** The suffix token of a three-token key, trimmed and lower-cased. */
  function Suffix(key: string): string
    requires |Split(key)| >= 3
  {
    ToLower(Trim(Split(key)[2]))
  }

  /**
   * One pass of the patch loop: a three-token key whose name matches a
   * mapping sets that mapping's type ("type") or length ("len").
   */
  function PatchOne(cs: seq<ColumnSpec>, e: Entry): (r: seq<ColumnSpec>)
    ensures SameColumns(cs, r)
    ensures forall i :: 0 <= i < |cs| && r[i] != cs[i] ==>
              |Split(e.0)| == 3 && SpecIndex(cs, SymOf(e.0)) == Some(i)
  {
    if |Split(e.0)| != 3 then cs
    else
      match SpecIndex(cs, SymOf(e.0))
      case None => cs
      case Some(k) => cs[k := PatchSpec(cs[k], e)]
  }

  /** The spec a three-token key leaves behind: its type or its length set from the value. */
  function PatchSpec(c: ColumnSpec, e: Entry): (r: ColumnSpec)
    requires |Split(e.0)| == 3
    ensures r.sym == c.sym && r.col == c.col && r.dbCol == c.dbCol
  {
    if Suffix(e.0) == "type" then c.(ty := TypeOfValue(e.1))
    else if Suffix(e.0) == "len" then c.(len := LenOfValue(e.1))
    else c
  }

  lemma PatchOneAt(cs: seq<ColumnSpec>, e: Entry, k: nat)
    requires |Split(e.0)| == 3 && SpecIndex(cs, SymOf(e.0)) == Some(k)
    ensures PatchOne(cs, e) ==
              if Suffix(e.0) == "type" then cs[k := cs[k].(ty := TypeOfValue(e.1))]
              else if Suffix(e.0) == "len" then cs[k := cs[k].(len := LenOfValue(e.1))]
              else cs
  {
  }

  function PatchAll(cs: seq<ColumnSpec>, es: seq<Entry>): (r: seq<ColumnSpec>)
    ensures SameColumns(cs, r)
    decreases |es|
  {
    if es == [] then cs else PatchOne(PatchAll(cs, es[..|es| - 1]), es[|es| - 1])
  }

  /** The mapping list init leaves behind. */
  function Resolve(props: seq<Entry>): (r: seq<ColumnSpec>)
    ensures |r| <= |props|
    ensures SameColumns(SortSpecs(BaseSpecs(ColumnEntries(props))), r)
  {
    var es := ColumnEntries(props);
    PatchAll(SortSpecs(BaseSpecs(es)), es)
  }

  // ---------------------------------------------------------------------------
  // Properties

  /**
   * The mapping list is ascending by column index, and its names, columns
   * and database columns are the created mappings stably sorted.
   */
  lemma ResolveSorted(props: seq<Entry>)
    ensures StableSort.SortedByKey(Resolve(props), ColKey)
    ensures SameColumns(SortSpecs(BaseSpecs(ColumnEntries(props))), Resolve(props))
  {
    var sorted := SortSpecs(BaseSpecs(ColumnEntries(props)));
    StableSort.SortSorted(BaseSpecs(ColumnEntries(props)), ColKey);
    var r := Resolve(props);
    assert SameColumns(sorted, r);
    forall i, j | 0 <= i < j < |r| ensures ColKey(r[i]) <= ColKey(r[j]) {
      assert ColKey(sorted[i]) <= ColKey(sorted[j]);
    }
  }

  /** Patching one spec of a list leaves the first-match index of every name as it was. */
  lemma SpecIndexSameColumns(a: seq<ColumnSpec>, b: seq<ColumnSpec>, sym: string)
    requires SameColumns(a, b)
    ensures SpecIndex(a, sym) == SpecIndex(b, sym)
  {
  }

  /** Of two "type" keys naming the same column, the one processed later decides. */
  lemma TypePatchLastWins(cs: seq<ColumnSpec>, e1: Entry, e2: Entry)
    requires |Split(e1.0)| == 3 && |Split(e2.0)| == 3
    requires SymOf(e1.0) == SymOf(e2.0)
    requires Suffix(e1.0) == "type" && Suffix(e2.0) == "type"
    ensures PatchOne(PatchOne(cs, e1), e2) == PatchOne(cs, e2)
  {
    SpecIndexSameColumns(cs, PatchOne(cs, e1), SymOf(e1.0));
  }

  /** Of two "len" keys naming the same column, the one processed later decides. */
  lemma LenPatchLastWins(cs: seq<ColumnSpec>, e1: Entry, e2: Entry)
    requires |Split(e1.0)| == 3 && |Split(e2.0)| == 3
    requires SymOf(e1.0) == SymOf(e2.0)
    requires Suffix(e1.0) == "len" && Suffix(e2.0) == "len"
    ensures PatchOne(PatchOne(cs, e1), e2) == PatchOne(cs, e2)
  {
    SpecIndexSameColumns(cs, PatchOne(cs, e1), SymOf(e1.0));
  }

  /** A "type" key and a "len" key do not interfere: either order gives the same list. */
  lemma TypeAndLenCommute(cs: seq<ColumnSpec>, e1: Entry, e2: Entry)
    requires |Split(e1.0)| == 3 && |Split(e2.0)| == 3
    requires Suffix(e1.0) == "type" && Suffix(e2.0) == "len"
    ensures PatchOne(PatchOne(cs, e1), e2) == PatchOne(PatchOne(cs, e2), e1)
  {
    SpecIndexSameColumns(cs, PatchOne(cs, e1), SymOf(e2.0));
    SpecIndexSameColumns(cs, PatchOne(cs, e2), SymOf(e1.0));
  }

  /** Trimming that keeps the length keeps the text. */
  lemma TrimSameLength(s: string)
    requires |Trim(s)| == |s|
    ensures Trim(s) == s
  {
    var t := TrimStart(s);
    assert |t| == |s|;
    assert t == s[|s| - |t|..] == s;
  }

  /**
   * The type of a "type" value is decided by its first three significant
   * characters alone: a value starting with INT, NUM, DAT or BOO (any case,
   * after trimming) selects that type, anything else STRING.
   */
  lemma TypeOfValuePrefix(v: string)
    ensures var n := ToUpper(Trim(v));
            TypeOfValue(v) == if |n| >= 3 then CodeTable(n[..3]) else String
  {
    var n := ToUpper(Trim(v));
    if |n| >= 3 {
      var x := n[..3];
      ToUpperIdempotent(Trim(v));
      ToUpperSlice(n, 0, 3);
      assert ToUpper(x) == x;
      if Trim(x) == x {
        assert GetType(x) == CodeTable(x);
      } else {
        if |Trim(x)| == 3 {
          TrimSameLength(x);
        }
        assert |ToUpper(Trim(x))| < 3;
        assert GetType(x) == String;
        assert CodeTable(x) == String by {
          if x in {"INT", "NUM", "DAT", "BOO"} {
            TrimNoop(x);
          }
        }
      }
    }
  }

  /** A "len" value with a blank at either end is not a number: it falls back to the default. */
  lemma LenOfValueUntrimmed(v: string)
    requires v != [] && (IsTrimmable(v[0]) || IsTrimmable(v[|v| - 1]))
    ensures LenOfValue(v) == DefaultLen
  {
    if IsTrimmable(v[0]) {
      assert !IsDigit(v[0]);
    } else {
      assert !IsDigit(v[|v| - 1]);
      if |v| > 1 {
        assert v[1..][|v| - 2] == v[|v| - 1];
      }
    }
  }

  /** Every int written in decimal is read back as that length. */
  lemma LenOfValueDecimal(n: int)
    requires IntMin <= n <= IntMax
    ensures LenOfValue(ToDecimal(n)) == n
  {
    ParseToDecimal(n);
  }

  // ---------------------------------------------------------------------------
  // The same column given twice

  lemma SymOfTwoTokens(key: string, first: string, s: string)
    requires Split(key) == [first, s] && s != [] && !IsTrimmable(s[0]) && !IsTrimmable(s[|s| - 1])
    ensures |Split(key)| == 2 && SymOf(key) == ToUpper(s)
  {
    TrimNoop(s);
  }

  lemma ColumnKeyOf(key: string, first: string, s: string)
    requires key !in FixedKeys && Split(key) == [first, s] && ToUpper(first) == "COL"
    ensures IsColumnKey(key)
  {
  }

  /** No fixed key starts with a C, so a key that does is never one of them. */
  lemma ColPrefixNotFixed(key: string)
    requires key != [] && UpperChar(key[0]) == 'C'
    ensures key !in FixedKeys
  {
    assert forall i :: 0 <= i < |FixedKeys| ==> FixedKeys[i][0] in "DEIB";
  }

  /**
   * Either separator and either case of "col" may be used: "COL_A" and
   * "col.a" are both column keys, and both name column A.
   */
  lemma ColumnKeyEitherForm(first: string, sep: char, w: string)
    requires ToUpper(first) == "COL" && SeparatorCount(first) == 0
    requires IsSeparator(sep) && SeparatorCount(w) == 0
    requires w != [] && !IsTrimmable(w[0]) && !IsTrimmable(w[|w| - 1])
    ensures IsColumnKey(first + [sep] + w)
    ensures |Split(first + [sep] + w)| == 2 && SymOf(first + [sep] + w) == ToUpper(w)
  {
    var key := first + [sep] + w;
    SplitTwoTokens(first, sep, w);
    assert key[0] == first[0] && UpperChar(first[0]) == ToUpper(first)[0];
    ColPrefixNotFixed(key);
    ColumnKeyOf(key, first, w);
    SymOfTwoTokens(key, first, w);
  }

  lemma ColumnEntriesPair(a: Entry, b: Entry)
    requires IsColumnKey(a.0) && IsColumnKey(b.0)
    ensures ColumnEntries([a, b]) == [a, b]
  {
    assert [a, b][..1] == [a];
    assert [a][..0] == [];
  }

  lemma BaseSpecsOne(a: Entry)
    requires IsMappingEntry(a)
    ensures BaseSpecs([a]) == [BaseSpec(a)]
  {
    assert [a][..0] == [];
  }

  lemma BaseSpecsPair(a: Entry, b: Entry)
    requires IsMappingEntry(a) && IsMappingEntry(b)
    ensures BaseSpecs([a, b]) == [BaseSpec(a), BaseSpec(b)]
  {
    BaseSpecsOne(a);
    assert [a, b][..1] == [a];
  }

  lemma SortPair(x: ColumnSpec, y: ColumnSpec)
    requires x.col <= y.col
    ensures SortSpecs([x, y]) == [x, y]
  {
    assert [x, y][1..] == [y];
    assert [y][1..] == [];
  }

  lemma PatchAllPairOfTwoTokenKeys(cs: seq<ColumnSpec>, a: Entry, b: Entry)
    requires |Split(a.0)| == 2 && |Split(b.0)| == 2
    ensures PatchAll(cs, [a, b]) == cs
  {
    assert [a, b][..1] == [a];
    assert [a][..0] == [];
    assert PatchAll(cs, [a]) == PatchOne(cs, a) == cs;
  }

  /**
   * Nothing is de-duplicated: two keys naming the same column (such as
   * "COL_A" and "col.a") create two mappings of that column, in the order
   * the column map gives them.
   */
  lemma NoDeduplication(a: Entry, b: Entry)
    requires IsColumnKey(a.0) && IsColumnKey(b.0) && IsMappingEntry(a) && IsMappingEntry(b)
    requires SymOf(a.0) == SymOf(b.0)
    ensures Resolve([a, b]) == [BaseSpec(a), BaseSpec(b)]
  {
    ColumnEntriesPair(a, b);
    BaseSpecsPair(a, b);
    SortPair(BaseSpec(a), BaseSpec(b));
    PatchAllPairOfTwoTokenKeys(SortSpecs(BaseSpecs([a, b])), a, b);
  }
}
