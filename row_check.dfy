/**
 * The per-row validation of rowToData (Excel2MySQL.java) as values: the raw
 * line a row gives, the check each mapped column's type applies to its
 * cell, and the verdict for the whole row.
 */
module RowCheck {
  import opened Wrappers
  import opened JavaText
  import opened ColumnType
  import opened ColumnMapping

  /** DB_DATE_LEN and DB_BOOL_LEN: DATE cells are cut to 64 chars, BOOLEAN cells to 5. */
  const DateLen: nat := 64
  const BoolLen: nat := 5

  /** The texts a BOOLEAN cell may hold, compared ignoring case. */
  const BoolTokens: seq<string> := ["true", "false", "t", "f", "yes", "no", "y", "n"]

  /**
   * A sheet row as the workbook gives it: absent, or its cells from index 0
   * on, each absent or formatted as text. Absent cells after the last
   * present one carry no information: getLastCellNum ignores them.
   */
  type Row = Option<seq<Option<string>>>

  /** What the check turns an accepted cell into (it is collected, then thrown away). */
  datatype Coerced = IntValue(i: int) | LongValue(l: int) | DecimalValue(text: string) | TextValue(s: string)

  /** Accepted, rejected (the row is an error row), or a runtime exception that ends the run. */
  datatype CellVerdict = Accept(value: Coerced) | Reject | Crash

  /** One past the last present entry among the first k, or 0 when none of them is present. */
  function PresentEnd<T>(s: seq<Option<T>>, k: nat): (n: nat)
    requires k <= |s|
    ensures n <= k
    decreases k
  {
    if k == 0 then 0
    else if s[k - 1].Some? then k
    else PresentEnd(s, k - 1)
  }

  /** The entry before PresentEnd is present, the ones from it up to k are absent. */
  lemma {:induction false} PresentEndSpec<T>(s: seq<Option<T>>, k: nat)
    requires k <= |s|
    ensures PresentEnd(s, k) > 0 ==> s[PresentEnd(s, k) - 1].Some?
    ensures forall i :: PresentEnd(s, k) <= i < k ==> s[i].None?
    decreases k
  {
    if k > 0 && s[k - 1].None? {
      PresentEndSpec(s, k - 1);
    }
  }

  /** getLastCellNum: one past the last present cell, or -1 for a row without cells. */
  function LastCellNum(cells: seq<Option<string>>): (n: int)
    ensures -1 <= n <= |cells| && n != 0
  {
    var e := PresentEnd(cells, |cells|);
    if e == 0 then -1 else e
  }

  /** lastCellNum is one past a present cell, only absent cells follow it, and -1 means no cell is present. */
  lemma LastCellNumSpec(cells: seq<Option<string>>)
    ensures var n := LastCellNum(cells); n > 0 ==> cells[n - 1].Some?
    ensures var n := LastCellNum(cells); forall i :: (if n < 0 then 0 else n) <= i < |cells| ==> cells[i].None?
  {
    PresentEndSpec(cells, |cells|);
  }

  /** The raw line: one text per cell before lastCellNum, "" for an absent cell; nothing for an absent row. */
  function Line(row: Row): (line: seq<string>)
    ensures row.None? ==> line == []
    ensures row.Some? ==> |line| == if LastCellNum(row.value) < 0 then 0 else LastCellNum(row.value)
    ensures row.Some? ==> forall i :: 0 <= i < |line| ==> line[i] == if row.value[i].None? then "" else row.value[i].value
  {
    match row
    case None => []
    case Some(cells) =>
      var n := if LastCellNum(cells) < 0 then 0 else LastCellNum(cells);
      seq(n, i requires 0 <= i < n => if cells[i].None? then "" else cells[i].value)
  }

  /** The first |v| or n chars of v, whichever is fewer. */
  function Truncate(v: string, n: nat): (r: string)
    ensures |r| == if |v| > n then n else |v|
    ensures r == v[..|r|]
  {
    if |v| > n then v[..n] else v
  }

  predicate IsBoolToken(t: string) {
    exists i :: 0 <= i < |BoolTokens| && EqualsIgnoreCase(BoolTokens[i], t)
  }

  /**
   * The check of one cell v against the type and length of its mapping.
   * isDecimal is the grammar of Float.parseFloat, which Double.parseDouble
   * shares.
   */
  function CheckCell(ty: Type, len: int, v: string, isDecimal: string -> bool): CellVerdict {
    match ty
    case Integer => CheckInteger(v)
    case Number => CheckNumber(v, isDecimal)
    case String => CheckString(len, v)
    case Date => Accept(TextValue(Truncate(v, DateLen)))
    case Boolean => CheckBoolean(v)
  }

  /** Integer.parseInt, and Long.parseLong when that fails. */
  function CheckInteger(v: string): CellVerdict {
    match ParseInt(v)
    case Some(n) => Accept(IntValue(n))
    case None =>
      match ParseLong(v)
      case Some(n) => Accept(LongValue(n))
      case None => Reject
  }

  /** As for INTEGER, then Float.parseFloat and Double.parseDouble. */
  function CheckNumber(v: string, isDecimal: string -> bool): CellVerdict {
    match CheckInteger(v)
    case Reject => if isDecimal(v) then Accept(DecimalValue(v)) else Reject
    case other => other
  }

  /** The STRING cut: -1 stands for the default length; a cut to a negative length throws. */
  function CheckString(len: int, v: string): CellVerdict {
    var n := if len == -1 then DefaultLen else len;
    if |v| > n then (if n < 0 then Crash else Accept(TextValue(v[..n]))) else Accept(TextValue(v))
  }

  function CheckBoolean(v: string): CellVerdict {
    var t := Truncate(v, BoolLen);
    if IsBoolToken(t) then Accept(TextValue(t)) else Reject
  }

  /** getMapping by index on values: the first spec of column i. */
  function MappingAt(specs: seq<ColumnSpec>, i: int): (r: Option<ColumnSpec>)
    ensures r.None? <==> forall j :: 0 <= j < |specs| ==> specs[j].col != i
    ensures r.Some? ==> r.value.col == i && exists j :: 0 <= j < |specs| && specs[j] == r.value && forall k :: 0 <= k < j ==> specs[k].col != i
  {
    match FirstWhere(specs, (c: ColumnSpec) => c.col == i)
    case None => None
    case Some(j) => Some(specs[j])
  }

  /** The verdict at column i: skipped (none) when unmapped, Crash when the line has no cell i. */
  function ColumnVerdict(specs: seq<ColumnSpec>, line: seq<string>, i: int, isDecimal: string -> bool): Option<CellVerdict> {
    match MappingAt(specs, i)
    case None => None
    case Some(m) => if 0 <= i < |line| then Some(CheckCell(m.ty, m.len, line[i], isDecimal)) else Some(Crash)
  }

  /** Some column before n has verdict v. */
  predicate VerdictBefore(specs: seq<ColumnSpec>, line: seq<string>, n: int, v: CellVerdict, isDecimal: string -> bool) {
    exists i :: 0 <= i < n && ColumnVerdict(specs, line, i, isDecimal) == Some(v)
  }

  lemma VerdictBeforeStep(specs: seq<ColumnSpec>, line: seq<string>, n: nat, v: CellVerdict, isDecimal: string -> bool)
    ensures VerdictBefore(specs, line, n + 1, v, isDecimal) <==>
              VerdictBefore(specs, line, n, v, isDecimal) || ColumnVerdict(specs, line, n, isDecimal) == Some(v)
  {
  }

  datatype RowOutcome = Correct | Error | Crashed

  /**
   * rowToData's decision: the check loop visits columns 0 to lastCellNum
   * inclusive; any exception ends the run, otherwise one rejected cell
   * makes the row an error row. An absent row is correct.
   */
  function Classify(specs: seq<ColumnSpec>, row: Row, isDecimal: string -> bool): (r: RowOutcome)
    ensures row.None? ==> r == Correct
  {
    match row
    case None => Correct
    case Some(cells) =>
      var line := Line(row);
      var last := LastCellNum(cells);
      if VerdictBefore(specs, line, last + 1, Crash, isDecimal) then Crashed
      else if VerdictBefore(specs, line, last + 1, Reject, isDecimal) then Error
      else Correct
  }

  /** A row is correct exactly when it is absent or every column 0 to lastCellNum is unmapped or accepted. */
  lemma ClassifyCorrect(specs: seq<ColumnSpec>, row: Row, isDecimal: string -> bool)
    ensures Classify(specs, row, isDecimal) == Correct <==>
              row.None? ||
              forall i :: 0 <= i <= LastCellNum(row.value) ==>
                ColumnVerdict(specs, Line(row), i, isDecimal).None? || ColumnVerdict(specs, Line(row), i, isDecimal).value.Accept?
  {
  }

  /** A present row is classified by the checks of its columns 0 to lastCellNum, a throw first. */
  lemma ClassifyPresent(specs: seq<ColumnSpec>, cells: seq<Option<string>>, isDecimal: string -> bool)
    ensures var line, end := Line(Some(cells)), LastCellNum(cells) + 1;
            Classify(specs, Some(cells), isDecimal) ==
              if VerdictBefore(specs, line, end, Crash, isDecimal) then Crashed
              else if VerdictBefore(specs, line, end, Reject, isDecimal) then Error
              else Correct
  {
  }

  // ---------------------------------------------------------------------------
  // The checks, type by type

  /** INTEGER: accepted exactly when the text is a decimal integer within 64 bits, and then as that number. */
  lemma IntegerCheck(len: int, v: string, isDecimal: string -> bool)
    ensures CheckCell(Integer, len, v, isDecimal) != Crash
    ensures CheckCell(Integer, len, v, isDecimal).Accept? <==> ParseLong(v).Some?
    ensures CheckCell(Integer, len, v, isDecimal).Accept? ==>
              CheckCell(Integer, len, v, isDecimal).value in {IntValue(ParseLong(v).value), LongValue(ParseLong(v).value)}
  {
  }

  /** NUMBER: accepted exactly when the text is a 64-bit decimal integer or decimal-number text. */
  lemma NumberCheck(len: int, v: string, isDecimal: string -> bool)
    ensures CheckCell(Number, len, v, isDecimal) != Crash
    ensures CheckCell(Number, len, v, isDecimal).Accept? <==> ParseLong(v).Some? || isDecimal(v)
  {
  }

  /**
   * STRING: never rejected; a length of -1 means 256; a length below -1
   * throws (the cut to a negative length); otherwise the text is cut to
   * the length.
   */
  lemma StringCheck(len: int, v: string, isDecimal: string -> bool)
    ensures CheckCell(String, len, v, isDecimal) != Reject
    ensures CheckCell(String, len, v, isDecimal) == Crash <==> len < -1
    ensures len >= -1 ==>
              var n := if len == -1 then DefaultLen else len;
              CheckCell(String, len, v, isDecimal) == Accept(TextValue(v[..if |v| > n then n else |v|]))
  {
    assert v[..|v|] == v;
  }

  /** DATE: never rejected; the text is cut to 64 chars. */
  lemma DateCheck(v: string, len: int, isDecimal: string -> bool)
    ensures CheckCell(Date, len, v, isDecimal).Accept?
    ensures var c := CheckCell(Date, len, v, isDecimal).value;
            c.TextValue? && |c.s| <= DateLen && c.s == v[..|c.s|]
  {
  }

  /** BOOLEAN: accepted exactly when the first five chars are one of the eight tokens, ignoring case. */
  lemma BooleanCheck(v: string, len: int, isDecimal: string -> bool)
    ensures CheckCell(Boolean, len, v, isDecimal) != Crash
    ensures CheckCell(Boolean, len, v, isDecimal).Accept? <==> IsBoolToken(Truncate(v, BoolLen))
  {
  }

  lemma BoolTokenFalse(v: string)
    requires |v| >= 5 && ToUpper(v[..5]) == "FALSE"
    ensures IsBoolToken(Truncate(v, BoolLen))
  {
    assert ToUpper(BoolTokens[1]) == "FALSE";
  }

  /** Only the first five chars count: "FALSEY" is accepted. */
  lemma BooleanFalsey()
    ensures CheckCell(Boolean, DefaultLen, "FALSEY", _ => false).Accept?
  {
    var v := "FALSEY";
    assert v[..5] == "FALSE";
    assert ToUpper("FALSE") == "FALSE";
    BoolTokenFalse(v);
  }

  /** A token followed by more text within the first five chars is rejected: "true1" is. */
  lemma BooleanTrueOne()
    ensures CheckCell(Boolean, DefaultLen, "true1", _ => false) == Reject
  {
    var t := Truncate("true1", BoolLen);
    assert t == "true1";
    forall i | 0 <= i < |BoolTokens| ensures !EqualsIgnoreCase(BoolTokens[i], t) {
      assert |ToUpper(BoolTokens[i])| == |BoolTokens[i]|;
      if i == 1 {
        assert ToUpper(BoolTokens[1])[4] == 'E';
        assert ToUpper(t)[4] == '1';
      }
    }
  }

  // ---------------------------------------------------------------------------
  // Rows

  /** An absent row is a correct row with an empty line. */
  lemma AbsentRow(specs: seq<ColumnSpec>, isDecimal: string -> bool)
    ensures Classify(specs, None, isDecimal) == Correct && Line(None) == []
  {
  }

  /** A row without cells is never checked: it is correct whatever the mappings. */
  lemma EmptyRow(specs: seq<ColumnSpec>, isDecimal: string -> bool)
    ensures Classify(specs, Some([]), isDecimal) == Correct && Line(Some([])) == []
  {
  }

  /**
   * The check loop runs one column too far: when some mapping names the
   * column just past the last cell, the row throws whatever its cells hold.
   */
  lemma MappedColumnAtLastCellNumCrashes(specs: seq<ColumnSpec>, cells: seq<Option<string>>, isDecimal: string -> bool)
    requires cells != [] && cells[|cells| - 1].Some? && exists j :: 0 <= j < |specs| && specs[j].col == |cells|
    ensures Classify(specs, Some(cells), isDecimal) == Crashed
  {
    var last := LastCellNum(cells);
    assert ColumnVerdict(specs, Line(Some(cells)), last, isDecimal) == Some(Crash);
  }

  /**
   * Columns past the last cell are never looked at: a row whose mappings all
   * lie beyond lastCellNum is correct.
   */
  lemma ColumnsBeyondLastCellIgnored(specs: seq<ColumnSpec>, cells: seq<Option<string>>, isDecimal: string -> bool)
    requires forall j :: 0 <= j < |specs| ==> specs[j].col > LastCellNum(cells)
    ensures Classify(specs, Some(cells), isDecimal) == Correct
  {
    var line := Line(Some(cells));
    forall i | 0 <= i <= LastCellNum(cells) ensures ColumnVerdict(specs, line, i, isDecimal).None? {
    }
  }

  /** Rows whose mapped cells all pass are correct, and a single rejected cell makes an error row. */
  lemma RejectedCellMakesErrorRow(specs: seq<ColumnSpec>, cells: seq<Option<string>>, i: nat, isDecimal: string -> bool)
    requires i < |cells| && ColumnVerdict(specs, Line(Some(cells)), i, isDecimal) == Some(Reject)
    ensures Classify(specs, Some(cells), isDecimal) != Correct
  {
  }
}
