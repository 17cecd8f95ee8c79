/**
 * The importer (Excel2MySQL.java): init reads the properties into its
 * fields and builds the mapping list; rowToData checks one sheet row and
 * files its raw line as correct or erroneous; insertDB sends the correct
 * lines in batches; dbImport drives the three and names the error file.
 *
 * The workbook is given as its sheets' rows, the database as an executor
 * of batches, the clock as the time stamp `now`, and the grammar of
 * Float.parseFloat / Double.parseDouble as the predicate isDecimal.
 */
module Importer {
  import opened Wrappers
  import opened JavaText
  import opened ColumnType
  import opened ColumnMapping
  import opened Schema
  import opened RowCheck
  import opened BatchInsert
  import StableSort

  // ---------------------------------------------------------------------------
  // The fixed keys of the init file

  /** The value of key in the properties; with distinct keys there is at most one. */
  function Lookup(props: seq<Entry>, key: string): (r: Option<string>)
    ensures r.None? <==> forall i :: 0 <= i < |props| ==> props[i].0 != key
    ensures r.Some? ==> (key, r.value) in props
    decreases |props|
  {
    if props == [] then None
    else if props[|props| - 1].0 == key then Some(props[|props| - 1].1)
    else Lookup(props[..|props| - 1], key)
  }

  /** A field set from key when the key is present, otherwise left as it was. */
  function Updated(props: seq<Entry>, key: string, previous: Option<string>): Option<string> {
    if Lookup(props, key).Some? then Lookup(props, key) else previous
  }

  /** Boolean.parseBoolean: "true" in any case. */
  predicate ParseBoolean(v: string) {
    EqualsIgnoreCase(v, "true")
  }

  /** init survives the properties exactly when BULK_SIZE is absent or an int. */
  predicate BulkSizeParses(props: seq<Entry>) {
    Lookup(props, "BULK_SIZE").None? || ParseInt(Lookup(props, "BULK_SIZE").value).Some?
  }

  lemma LookupStep(props: seq<Entry>, i: nat, key: string)
    requires i < |props|
    ensures Lookup(props[..i + 1], key) == if props[i].0 == key then Some(props[i].1) else Lookup(props[..i], key)
  {
    assert props[..i + 1][..i] == props[..i];
  }

  /** With distinct keys, every property is the one its key looks up, whatever the order. */
  lemma {:induction false} LookupDistinct(props: seq<Entry>, i: nat)
    requires DistinctKeys(props) && i < |props|
    ensures Lookup(props, props[i].0) == Some(props[i].1)
    decreases |props|
  {
    if i < |props| - 1 {
      assert props[|props| - 1].0 != props[i].0;
      LookupDistinct(props[..|props| - 1], i);
    }
  }

  /** The fields init sets from the fixed keys. */
  datatype Settings = Settings(dbUrl: Option<string>, dbUserName: Option<string>, dbPassword: Option<string>,
                               dbName: Option<string>, dbTable: Option<string>,
                               excelFilePath: Option<string>, excelErrorFilePath: Option<string>,
                               isReadFirstLine: bool, bulkSize: int)

  /**
   * The switch of init on one property: a fixed key sets its field, a
   * BULK_SIZE that is not an int throws (None), any other key sets nothing.
   */
  function Apply(s: Settings, key: string, value: string): Option<Settings> {
    if key == "DB_URL" then Some(s.(dbUrl := Some(value)))
    else if key == "DB_USER_NAME" then Some(s.(dbUserName := Some(value)))
    else if key == "DB_PASSWORD" then Some(s.(dbPassword := Some(value)))
    else if key == "DB_NAME" then Some(s.(dbName := Some(value)))
    else if key == "DB_TABLE" then Some(s.(dbTable := Some(value)))
    else if key == "EXCEL_FILE_PATH" then Some(s.(excelFilePath := Some(value)))
    else if key == "EXCEL_ERROR_FILE_PATH" then Some(s.(excelErrorFilePath := Some(value)))
    else if key == "IS_READ_FIRST_LINE" then Some(s.(isReadFirstLine := ParseBoolean(value)))
    else if key == "BULK_SIZE" then
      match ParseInt(value)
      case None => None
      case Some(n) => Some(s.(bulkSize := n))
    else Some(s)
  }

  /** The properties applied one after another, in the order init visits them; None once one throws. */
  function Load(props: seq<Entry>, s: Settings): Option<Settings>
    decreases |props|
  {
    if props == [] then Some(s)
    else
      match Load(props[..|props| - 1], s)
      case None => None
      case Some(t) => Apply(t, props[|props| - 1].0, props[|props| - 1].1)
  }

  /** What one property does to each field. */
  lemma ApplyEffect(t: Settings, key: string, value: string)
    requires Apply(t, key, value).Some?
    ensures var u := Apply(t, key, value).value;
            u.dbUrl == (if key == "DB_URL" then Some(value) else t.dbUrl) &&
            u.dbUserName == (if key == "DB_USER_NAME" then Some(value) else t.dbUserName) &&
            u.dbPassword == (if key == "DB_PASSWORD" then Some(value) else t.dbPassword) &&
            u.dbName == (if key == "DB_NAME" then Some(value) else t.dbName) &&
            u.dbTable == (if key == "DB_TABLE" then Some(value) else t.dbTable)
  {
  }

  /** What one property does to the two workbook paths. */
  lemma ApplyPathsEffect(t: Settings, key: string, value: string)
    requires Apply(t, key, value).Some?
    ensures var u := Apply(t, key, value).value;
            u.excelFilePath == (if key == "EXCEL_FILE_PATH" then Some(value) else t.excelFilePath) &&
            u.excelErrorFilePath == (if key == "EXCEL_ERROR_FILE_PATH" then Some(value) else t.excelErrorFilePath)
  {
  }

  /** What one property does to the header flag and the batch size. */
  lemma ApplyFlagsEffect(t: Settings, key: string, value: string)
    requires Apply(t, key, value).Some?
    ensures var u := Apply(t, key, value).value;
            u.isReadFirstLine == (if key == "IS_READ_FIRST_LINE" then ParseBoolean(value) else t.isReadFirstLine) &&
            (key == "BULK_SIZE" ==> ParseInt(value).Some?) &&
            u.bulkSize == (if key == "BULK_SIZE" then ParseInt(value).value else t.bulkSize)
  {
  }

  lemma LoadStep(props: seq<Entry>, i: nat, s: Settings, t: Settings)
    requires i < |props| && Load(props[..i], s) == Some(t)
    ensures Load(props[..i + 1], s) == Apply(t, props[i].0, props[i].1)
  {
    assert props[..i + 1][..i] == props[..i];
  }

  /**
   * Whatever the order of the properties, the last value of each fixed key
   * wins and a key that is absent leaves its field as it was: the
   * connection settings.
   */
  lemma {:induction false} LoadConnection(props: seq<Entry>, s: Settings)
    requires Load(props, s).Some?
    ensures var t := Load(props, s).value;
            t.dbUrl == Updated(props, "DB_URL", s.dbUrl) &&
            t.dbUserName == Updated(props, "DB_USER_NAME", s.dbUserName) &&
            t.dbPassword == Updated(props, "DB_PASSWORD", s.dbPassword) &&
            t.dbName == Updated(props, "DB_NAME", s.dbName) &&
            t.dbTable == Updated(props, "DB_TABLE", s.dbTable)
    decreases |props|
  {
    if props != [] {
      var init := props[..|props| - 1];
      LoadConnection(init, s);
      ApplyEffect(Load(init, s).value, props[|props| - 1].0, props[|props| - 1].1);
    }
  }

  /** The same for the two workbook paths. */
  lemma {:induction false} LoadPaths(props: seq<Entry>, s: Settings)
    requires Load(props, s).Some?
    ensures var t := Load(props, s).value;
            t.excelFilePath == Updated(props, "EXCEL_FILE_PATH", s.excelFilePath) &&
            t.excelErrorFilePath == Updated(props, "EXCEL_ERROR_FILE_PATH", s.excelErrorFilePath)
    decreases |props|
  {
    if props != [] {
      var init := props[..|props| - 1];
      LoadPaths(init, s);
      ApplyPathsEffect(Load(init, s).value, props[|props| - 1].0, props[|props| - 1].1);
    }
  }

  /** The same for the header flag and the batch size, which are parsed from their text. */
  lemma {:induction false} LoadFlags(props: seq<Entry>, s: Settings)
    requires Load(props, s).Some?
    ensures Load(props, s).value.isReadFirstLine ==
              if Lookup(props, "IS_READ_FIRST_LINE").Some?
              then ParseBoolean(Lookup(props, "IS_READ_FIRST_LINE").value) else s.isReadFirstLine
    ensures Lookup(props, "BULK_SIZE").Some? ==> ParseInt(Lookup(props, "BULK_SIZE").value).Some?
    ensures Load(props, s).value.bulkSize ==
              if Lookup(props, "BULK_SIZE").Some? then ParseInt(Lookup(props, "BULK_SIZE").value).value else s.bulkSize
    decreases |props|
  {
    if props != [] {
      var init := props[..|props| - 1];
      LoadFlags(init, s);
      ApplyFlagsEffect(Load(init, s).value, props[|props| - 1].0, props[|props| - 1].1);
    }
  }

  /** With each key once, init gets through the properties exactly when BULK_SIZE is absent or an int. */
  lemma {:induction false} LoadParses(props: seq<Entry>, s: Settings)
    requires DistinctKeys(props)
    ensures Load(props, s).Some? <==> BulkSizeParses(props)
    decreases |props|
  {
    if props != [] {
      var init := props[..|props| - 1];
      assert DistinctKeys(init);
      LoadParses(init, s);
      if props[|props| - 1].0 == "BULK_SIZE" {
        assert Lookup(init, "BULK_SIZE").None?;
      }
    }
  }

  // ---------------------------------------------------------------------------
  // Views of the mapping objects

  /** A mapping as it is created: STRING of the default length. */
  function DefaultView(m: Mapping): ColumnSpec {
    ColumnSpec(m.sym, m.col, m.dbCol, String, DefaultLen)
  }

  function MappingCol(m: Mapping): int {
    m.col
  }

  /** getMapping by name finds, among objects, the mapping its view list finds. */
  lemma SymIndexViews(dbMap: seq<Mapping>, s: string)
    ensures SymIndex(dbMap, s) == SpecIndex(Views(dbMap), s)
  {
    var a, b := SymIndex(dbMap, s), SpecIndex(Views(dbMap), s);
    if a.Some? && b.Some? {
      assert !(a.value < b.value) && !(b.value < a.value);
    }
  }

  /** getMapping by index finds, among objects, the mapping MappingAt finds among their views. */
  lemma MappingAtViews(dbMap: seq<Mapping>, i: int)
    ensures var g := GetMappingByCol(dbMap, i);
            MappingAt(Views(dbMap), i) == if g.Some? then Some(View(g.value)) else None
  {
    var specs := Views(dbMap);
    var r := MappingAt(specs, i);
    match ColIndex(dbMap, i)
    case None =>
      assert forall j :: 0 <= j < |specs| ==> specs[j].col == dbMap[j].col;
    case Some(k) =>
      assert GetMappingByCol(dbMap, i) == Some(dbMap[k]);
      assert specs[k] == View(dbMap[k]) && specs[k].col == i;
      var j :| 0 <= j < |specs| && specs[j] == r.value && forall k' :: 0 <= k' < j ==> specs[k'].col != i;
      assert !(j < k) && !(k < j);
  }

  // ---------------------------------------------------------------------------
  // The rows dbImport visits, and what the check makes of them

  /** getPhysicalNumberOfRows() > 0: some row is present (RowsEndSpec). */
  predicate HasRows(sheet: seq<Row>) {
    RowsEnd(sheet) > 0
  }

  /** The first row read: 0 when the first line is data, 1 when it is a header. */
  function StartRow(readFirstLine: bool): nat {
    if readFirstLine then 0 else 1
  }

  /** getLastRowNum + 1: one past the last present row, 0 for a sheet without rows. */
  function RowsEnd(sheet: seq<Row>): (n: nat)
    ensures n <= |sheet|
  {
    PresentEnd(sheet, |sheet|)
  }

  /** The last row is present, only absent rows follow it, and a sheet has rows exactly when some row is present. */
  lemma RowsEndSpec(sheet: seq<Row>)
    ensures var n := RowsEnd(sheet); n > 0 ==> sheet[n - 1].Some?
    ensures forall j :: RowsEnd(sheet) <= j < |sheet| ==> sheet[j].None?
    ensures HasRows(sheet) <==> exists j :: 0 <= j < |sheet| && sheet[j].Some?
  {
    PresentEndSpec(sheet, |sheet|);
  }

  /** The rows of one sheet that are read: from the start row to the last row, if the sheet has any. */
  function SheetRows(sheet: seq<Row>, readFirstLine: bool): seq<Row> {
    if HasRows(sheet) then sheet[StartRow(readFirstLine)..RowsEnd(sheet)] else []
  }

  /** The rows of all sheets, in order. */
  function VisitedRows(sheets: seq<seq<Row>>, readFirstLine: bool): seq<Row>
    decreases |sheets|
  {
    if sheets == [] then []
    else VisitedRows(sheets[..|sheets| - 1], readFirstLine) + SheetRows(sheets[|sheets| - 1], readFirstLine)
  }

  predicate NoCrash(specs: seq<ColumnSpec>, rows: seq<Row>, isDecimal: string -> bool) {
    forall i :: 0 <= i < |rows| ==> Classify(specs, rows[i], isDecimal) != Crashed
  }

  /** The lines of the correct rows, in order. */
  function CorrectLines(specs: seq<ColumnSpec>, rows: seq<Row>, isDecimal: string -> bool): seq<seq<string>>
    decreases |rows|
  {
    if rows == [] then []
    else
      var last := rows[|rows| - 1];
      CorrectLines(specs, rows[..|rows| - 1], isDecimal) + (if Classify(specs, last, isDecimal) == Correct then [Line(last)] else [])
  }

  /** The lines of the error rows, in order. */
  function ErrorLines(specs: seq<ColumnSpec>, rows: seq<Row>, isDecimal: string -> bool): seq<seq<string>>
    decreases |rows|
  {
    if rows == [] then []
    else
      var last := rows[|rows| - 1];
      ErrorLines(specs, rows[..|rows| - 1], isDecimal) + (if Classify(specs, last, isDecimal) == Error then [Line(last)] else [])
  }

  /**
   * When no row throws, every row read lands in exactly one of the two
   * lists: the lists together are as long as the rows, and each line in
   * them is the line of a row with that verdict.
   */
  lemma {:induction false} LinesPartitionRows(specs: seq<ColumnSpec>, rows: seq<Row>, isDecimal: string -> bool)
    requires NoCrash(specs, rows, isDecimal)
    ensures |CorrectLines(specs, rows, isDecimal)| + |ErrorLines(specs, rows, isDecimal)| == |rows|
    ensures forall l :: l in CorrectLines(specs, rows, isDecimal) ==>
              exists i :: 0 <= i < |rows| && Classify(specs, rows[i], isDecimal) == Correct && Line(rows[i]) == l
    ensures forall l :: l in ErrorLines(specs, rows, isDecimal) ==>
              exists i :: 0 <= i < |rows| && Classify(specs, rows[i], isDecimal) == Error && Line(rows[i]) == l
  {
    LinesCount(specs, rows, isDecimal);
    CorrectLinesFromRows(specs, rows, isDecimal);
    ErrorLinesFromRows(specs, rows, isDecimal);
  }

  lemma {:induction false} LinesCount(specs: seq<ColumnSpec>, rows: seq<Row>, isDecimal: string -> bool)
    requires NoCrash(specs, rows, isDecimal)
    ensures |CorrectLines(specs, rows, isDecimal)| + |ErrorLines(specs, rows, isDecimal)| == |rows|
    decreases |rows|
  {
    if rows != [] {
      var n := |rows| - 1;
      SplitLast(rows);
      NoCrashAppend(specs, rows[..n], [rows[n]], isDecimal);
      assert Classify(specs, [rows[n]][0], isDecimal) != Crashed;
      LinesCount(specs, rows[..n], isDecimal);
    }
  }

  /** Each correct line is the line of some correct row. */
  lemma {:induction false} CorrectLineFrom(specs: seq<ColumnSpec>, rows: seq<Row>, isDecimal: string -> bool, l: seq<string>)
    requires l in CorrectLines(specs, rows, isDecimal)
    ensures exists i :: 0 <= i < |rows| && Classify(specs, rows[i], isDecimal) == Correct && Line(rows[i]) == l
    decreases |rows|
  {
    var n := |rows| - 1;
    var prefix := rows[..n];
    if l in CorrectLines(specs, prefix, isDecimal) {
      CorrectLineFrom(specs, prefix, isDecimal, l);
      var i :| 0 <= i < |prefix| && Classify(specs, prefix[i], isDecimal) == Correct && Line(prefix[i]) == l;
      assert rows[i] == prefix[i];
    } else {
      assert Classify(specs, rows[n], isDecimal) == Correct && Line(rows[n]) == l;
    }
  }

  lemma CorrectLinesFromRows(specs: seq<ColumnSpec>, rows: seq<Row>, isDecimal: string -> bool)
    ensures forall l :: l in CorrectLines(specs, rows, isDecimal) ==>
              exists i :: 0 <= i < |rows| && Classify(specs, rows[i], isDecimal) == Correct && Line(rows[i]) == l
  {
    forall l | l in CorrectLines(specs, rows, isDecimal)
      ensures exists i :: 0 <= i < |rows| && Classify(specs, rows[i], isDecimal) == Correct && Line(rows[i]) == l
    {
      CorrectLineFrom(specs, rows, isDecimal, l);
    }
  }

  /** Each error line is the line of some error row. */
  lemma {:induction false} ErrorLineFrom(specs: seq<ColumnSpec>, rows: seq<Row>, isDecimal: string -> bool, l: seq<string>)
    requires l in ErrorLines(specs, rows, isDecimal)
    ensures exists i :: 0 <= i < |rows| && Classify(specs, rows[i], isDecimal) == Error && Line(rows[i]) == l
    decreases |rows|
  {
    var n := |rows| - 1;
    var prefix := rows[..n];
    if l in ErrorLines(specs, prefix, isDecimal) {
      ErrorLineFrom(specs, prefix, isDecimal, l);
      var i :| 0 <= i < |prefix| && Classify(specs, prefix[i], isDecimal) == Error && Line(prefix[i]) == l;
      assert rows[i] == prefix[i];
    } else {
      assert Classify(specs, rows[n], isDecimal) == Error && Line(rows[n]) == l;
    }
  }

  lemma ErrorLinesFromRows(specs: seq<ColumnSpec>, rows: seq<Row>, isDecimal: string -> bool)
    ensures forall l :: l in ErrorLines(specs, rows, isDecimal) ==>
              exists i :: 0 <= i < |rows| && Classify(specs, rows[i], isDecimal) == Error && Line(rows[i]) == l
  {
    forall l | l in ErrorLines(specs, rows, isDecimal)
      ensures exists i :: 0 <= i < |rows| && Classify(specs, rows[i], isDecimal) == Error && Line(rows[i]) == l
    {
      ErrorLineFrom(specs, rows, isDecimal, l);
    }
  }

  /** Without mappings nothing is checked: every row read is correct. */
  lemma {:induction false} NoMappingAllCorrect(rows: seq<Row>, isDecimal: string -> bool)
    ensures NoCrash([], rows, isDecimal)
    ensures CorrectLines([], rows, isDecimal) == StableSort.MapSeq(rows, Line)
    ensures ErrorLines([], rows, isDecimal) == []
    decreases |rows|
  {
    if rows != [] {
      var n := |rows| - 1;
      NoMappingAllCorrect(rows[..n], isDecimal);
      ColumnsBeyondLastCellIgnoredOrAbsent(rows[n], isDecimal);
      assert StableSort.MapSeq(rows, Line) == StableSort.MapSeq(rows[..n], Line) + [Line(rows[n])];
      forall i | 0 <= i < |rows| ensures Classify([], rows[i], isDecimal) != Crashed {
        ColumnsBeyondLastCellIgnoredOrAbsent(rows[i], isDecimal);
      }
    }
  }

  lemma ColumnsBeyondLastCellIgnoredOrAbsent(row: Row, isDecimal: string -> bool)
    ensures Classify([], row, isDecimal) == Correct
  {
    if row.Some? {
      ColumnsBeyondLastCellIgnored([], row.value, isDecimal);
    }
  }

  lemma VisitedRowsStep(sheets: seq<seq<Row>>, i: nat, readFirstLine: bool)
    requires i < |sheets|
    ensures VisitedRows(sheets[..i + 1], readFirstLine) == VisitedRows(sheets[..i], readFirstLine) + SheetRows(sheets[i], readFirstLine)
  {
    assert sheets[..i + 1][..i] == sheets[..i];
  }

  lemma RowListsStep(specs: seq<ColumnSpec>, rows: seq<Row>, row: Row, isDecimal: string -> bool)
    ensures CorrectLines(specs, rows + [row], isDecimal) ==
              CorrectLines(specs, rows, isDecimal) + if Classify(specs, row, isDecimal) == Correct then [Line(row)] else []
    ensures ErrorLines(specs, rows + [row], isDecimal) ==
              ErrorLines(specs, rows, isDecimal) + if Classify(specs, row, isDecimal) == Error then [Line(row)] else []
    ensures NoCrash(specs, rows, isDecimal) && Classify(specs, row, isDecimal) != Crashed ==> NoCrash(specs, rows + [row], isDecimal)
  {
    assert (rows + [row])[..|rows|] == rows;
  }

  /** Reading rows a then rows b files the lines of a, then those of b. */
  lemma {:induction false} LinesAppend(specs: seq<ColumnSpec>, a: seq<Row>, b: seq<Row>, isDecimal: string -> bool)
    ensures CorrectLines(specs, a + b, isDecimal) == CorrectLines(specs, a, isDecimal) + CorrectLines(specs, b, isDecimal)
    ensures ErrorLines(specs, a + b, isDecimal) == ErrorLines(specs, a, isDecimal) + ErrorLines(specs, b, isDecimal)
    decreases |b|
  {
    if b == [] {
      assert a + b == a;
    } else {
      var n := |b| - 1;
      var c, r := b[..n], b[n];
      SplitLast(b);
      LinesAppend(specs, a, c, isDecimal);
      ConcatAssoc(a, c, [r]);
      RowListsStep(specs, a + c, r, isDecimal);
      RowListsStep(specs, c, r, isDecimal);
      var ok := if Classify(specs, r, isDecimal) == Correct then [Line(r)] else [];
      var bad := if Classify(specs, r, isDecimal) == Error then [Line(r)] else [];
      ConcatAssoc(CorrectLines(specs, a, isDecimal), CorrectLines(specs, c, isDecimal), ok);
      ConcatAssoc(ErrorLines(specs, a, isDecimal), ErrorLines(specs, c, isDecimal), bad);
    }
  }

  lemma SplitLast<T>(s: seq<T>)
    requires s != []
    ensures s == s[..|s| - 1] + [s[|s| - 1]]
  {
  }

  /** One more row read without a throw extends both invariants of the row loop. */
  lemma ReadStep(specs: seq<ColumnSpec>, done: seq<Row>, row: Row, isDecimal: string -> bool,
                 good0: seq<seq<string>>, bad0: seq<seq<string>>,
                 good: seq<seq<string>>, bad: seq<seq<string>>, good': seq<seq<string>>, bad': seq<seq<string>>)
    requires NoCrash(specs, done, isDecimal)
    requires good == good0 + CorrectLines(specs, done, isDecimal) && bad == bad0 + ErrorLines(specs, done, isDecimal)
    requires Classify(specs, row, isDecimal) != Crashed
    requires Classify(specs, row, isDecimal) == Correct ==> good' == good + [Line(row)] && bad' == bad
    requires Classify(specs, row, isDecimal) == Error ==> bad' == bad + [Line(row)] && good' == good
    ensures NoCrash(specs, done + [row], isDecimal)
    ensures good' == good0 + CorrectLines(specs, done + [row], isDecimal)
    ensures bad' == bad0 + ErrorLines(specs, done + [row], isDecimal)
  {
    RowListsStep(specs, done, row, isDecimal);
    var ok := if Classify(specs, row, isDecimal) == Correct then [Line(row)] else [];
    var err := if Classify(specs, row, isDecimal) == Error then [Line(row)] else [];
    ConcatAssoc(good0, CorrectLines(specs, done, isDecimal), ok);
    ConcatAssoc(bad0, ErrorLines(specs, done, isDecimal), err);
  }

  /** One more sheet read without a throw extends both invariants of the sheet loop. */
  lemma SheetsStep(specs: seq<ColumnSpec>, before: seq<Row>, here: seq<Row>, isDecimal: string -> bool,
                   good0: seq<seq<string>>, bad0: seq<seq<string>>,
                   good: seq<seq<string>>, bad: seq<seq<string>>, good': seq<seq<string>>, bad': seq<seq<string>>)
    requires NoCrash(specs, before, isDecimal) && NoCrash(specs, here, isDecimal)
    requires good == good0 + CorrectLines(specs, before, isDecimal) && bad == bad0 + ErrorLines(specs, before, isDecimal)
    requires good' == good + CorrectLines(specs, here, isDecimal) && bad' == bad + ErrorLines(specs, here, isDecimal)
    ensures NoCrash(specs, before + here, isDecimal)
    ensures good' == good0 + CorrectLines(specs, before + here, isDecimal)
    ensures bad' == bad0 + ErrorLines(specs, before + here, isDecimal)
  {
    LinesAppend(specs, before, here, isDecimal);
    NoCrashAppend(specs, before, here, isDecimal);
    ConcatAssoc(good0, CorrectLines(specs, before, isDecimal), CorrectLines(specs, here, isDecimal));
    ConcatAssoc(bad0, ErrorLines(specs, before, isDecimal), ErrorLines(specs, here, isDecimal));
  }

  /** A row that throws on any sheet means the import as a whole throws. */
  lemma CrashStopsSheets(specs: seq<ColumnSpec>, sheets: seq<seq<Row>>, i: nat, readFirstLine: bool, isDecimal: string -> bool)
    requires i < |sheets| && !NoCrash(specs, SheetRows(sheets[i], readFirstLine), isDecimal)
    ensures !NoCrash(specs, VisitedRows(sheets, readFirstLine), isDecimal)
  {
    VisitedRowsStep(sheets, i, readFirstLine);
    CrashInSuffix(specs, VisitedRows(sheets[..i], readFirstLine), SheetRows(sheets[i], readFirstLine), isDecimal);
    VisitedRowsAppend(sheets[..i + 1], sheets[i + 1..], readFirstLine);
    SplitAt(sheets, i + 1);
    CrashInPrefix(specs, VisitedRows(sheets[..i + 1], readFirstLine), VisitedRows(sheets[i + 1..], readFirstLine), isDecimal);
  }

  lemma CrashInPrefix(specs: seq<ColumnSpec>, a: seq<Row>, b: seq<Row>, isDecimal: string -> bool)
    requires !NoCrash(specs, a, isDecimal)
    ensures !NoCrash(specs, a + b, isDecimal)
  {
    var i :| 0 <= i < |a| && Classify(specs, a[i], isDecimal) == Crashed;
    assert (a + b)[i] == a[i];
  }

  lemma CrashInSuffix(specs: seq<ColumnSpec>, a: seq<Row>, b: seq<Row>, isDecimal: string -> bool)
    requires !NoCrash(specs, b, isDecimal)
    ensures !NoCrash(specs, a + b, isDecimal)
  {
    var i :| 0 <= i < |b| && Classify(specs, b[i], isDecimal) == Crashed;
    assert (a + b)[|a| + i] == b[i];
  }

  lemma SplitAt<T>(s: seq<T>, k: nat)
    requires k <= |s|
    ensures s[..k] + s[k..] == s
  {
  }

  /** A row that throws makes its whole list throw. */
  lemma CrashAt(specs: seq<ColumnSpec>, rows: seq<Row>, j: nat, isDecimal: string -> bool)
    requires j < |rows| && Classify(specs, rows[j], isDecimal) == Crashed
    ensures !NoCrash(specs, rows, isDecimal)
  {
  }

  lemma SliceStep<T>(s: seq<T>, i: nat, j: nat)
    requires i <= j < |s|
    ensures s[i..j + 1] == s[i..j] + [s[j]]
  {
  }

  lemma ConcatAssoc<T>(x: seq<T>, y: seq<T>, z: seq<T>)
    ensures (x + y) + z == x + (y + z)
  {
  }

  /** Rows a then rows b are read without a throw exactly when a is and b is. */
  lemma NoCrashAppend(specs: seq<ColumnSpec>, a: seq<Row>, b: seq<Row>, isDecimal: string -> bool)
    ensures NoCrash(specs, a + b, isDecimal) <==> NoCrash(specs, a, isDecimal) && NoCrash(specs, b, isDecimal)
  {
    if NoCrash(specs, a + b, isDecimal) {
      forall i | 0 <= i < |a| ensures Classify(specs, a[i], isDecimal) != Crashed {
        assert a[i] == (a + b)[i];
      }
      forall i | 0 <= i < |b| ensures Classify(specs, b[i], isDecimal) != Crashed {
        assert b[i] == (a + b)[|a| + i];
      }
    }
    if NoCrash(specs, a, isDecimal) && NoCrash(specs, b, isDecimal) {
      forall i | 0 <= i < |a + b| ensures Classify(specs, (a + b)[i], isDecimal) != Crashed {
        if i < |a| {
          assert (a + b)[i] == a[i];
        } else {
          assert (a + b)[i] == b[i - |a|];
        }
      }
    }
  }

  lemma {:induction false} VisitedRowsAppend(a: seq<seq<Row>>, b: seq<seq<Row>>, readFirstLine: bool)
    ensures VisitedRows(a + b, readFirstLine) == VisitedRows(a, readFirstLine) + VisitedRows(b, readFirstLine)
    decreases |b|
  {
    if b == [] {
      assert a + b == a;
    } else {
      var n := |b| - 1;
      VisitedRowsAppend(a, b[..n], readFirstLine);
      SnocSplit(a, b);
      ConcatAssoc(VisitedRows(a, readFirstLine), VisitedRows(b[..n], readFirstLine), SheetRows(b[n], readFirstLine));
    }
  }

  lemma SnocSplit<T>(a: seq<T>, b: seq<T>)
    requires b != []
    ensures (a + b)[..|a + b| - 1] == a + b[..|b| - 1] && (a + b)[|a + b| - 1] == b[|b| - 1]
  {
  }

  /** A sheet that has rows is read from the start row to its end: the header row alone is skipped. */
  lemma SheetRowsSkipHeader(sheet: seq<Row>)
    requires HasRows(sheet)
    ensures |SheetRows(sheet, true)| == RowsEnd(sheet) && |SheetRows(sheet, false)| == RowsEnd(sheet) - 1
    ensures SheetRows(sheet, true) == [sheet[0]] + SheetRows(sheet, false)
  {
  }

  // ---------------------------------------------------------------------------
  // The error file name

  predicate EndsWithXlsx(path: string) {
    |path| >= 5 && path[|path| - 5..] == ".xlsx"
  }

  /** split("[.]")[0]: the text before the first dot. */
  function BeforeFirstDot(s: string): (r: string)
    ensures |r| <= |s| && r == s[..|r|] && '.' !in r
    ensures |r| < |s| ==> s[|r|] == '.'
  {
    if s == [] || s[0] == '.' then [] else [s[0]] + BeforeFirstDot(s[1..])
  }

  /** The time stamp and extension appended to the error file's stem. */
  function StampSuffix(now: int): string {
    "_" + ToDecimal(now) + ".xlsx"
  }

  /**
   * saveError's name: a ".xlsx" path keeps only the text before its first
   * dot, any other path is kept whole; then the stamp.
   */
  function ErrorFileNameAsWritten(path: string, now: int): (r: string)
    ensures |r| >= |StampSuffix(now)| && r[|r| - |StampSuffix(now)|..] == StampSuffix(now)
    ensures var stem := r[..|r| - |StampSuffix(now)|];
            if EndsWithXlsx(path) then '.' !in stem && |stem| < |path| && path[..|stem|] == stem && path[|stem|] == '.'
            else stem == path
  {
    var stem := if EndsWithXlsx(path) then BeforeFirstDot(path) else path;
    assert EndsWithXlsx(path) ==> path[|path| - 5..][0] == '.' && stem[..|stem|] == stem;
    stem + StampSuffix(now)
  }

  /** The name evidently intended: the path without its ".xlsx" extension, then the stamp. */
  function ErrorFileName(path: string, now: int): string {
    (if EndsWithXlsx(path) then path[..|path| - 5] else path) + StampSuffix(now)
  }

  /** The path a name gives back once its stamp is removed and the extension restored. */
  function PathOf(name: string, now: int, hadExtension: bool): string
    requires |name| >= |StampSuffix(now)|
  {
    var stem := name[..|name| - |StampSuffix(now)|];
    if hadExtension then stem + ".xlsx" else stem
  }

  /** The error file sits beside the input path: removing the stamp gives the path back. */
  lemma ErrorFileNameRoundTrip(path: string, now: int)
    ensures |ErrorFileName(path, now)| >= |StampSuffix(now)|
    ensures PathOf(ErrorFileName(path, now), now, EndsWithXlsx(path)) == path
  {
    var stem := if EndsWithXlsx(path) then path[..|path| - 5] else path;
    assert ErrorFileName(path, now)[..|stem|] == stem;
    if EndsWithXlsx(path) {
      assert stem + ".xlsx" == path;
    }
  }

  /** As written, a path that starts with a dot loses everything: "./errors.xlsx" gives "_now.xlsx". */
  lemma ErrorFileNameAsWrittenLosesPath(path: string, now: int)
    requires EndsWithXlsx(path) && path[0] == '.'
    ensures ErrorFileNameAsWritten(path, now) == StampSuffix(now)
    ensures PathOf(ErrorFileNameAsWritten(path, now), now, true) == ".xlsx" != path || path == ".xlsx"
  {
    assert BeforeFirstDot(path) == [];
    var name := ErrorFileNameAsWritten(path, now);
    assert name[..|name| - |StampSuffix(now)|] == [];
  }

  lemma MiddleEqual(a: string, x: string, y: string, c: string)
    requires a + x + c == a + y + c
    ensures x == y
  {
    assert |x| == |y|;
    assert (a + x + c)[|a|..|a| + |x|] == x;
    assert (a + y + c)[|a|..|a| + |y|] == y;
  }

  lemma ToDecimalInjective(x: int, y: int)
    requires ToDecimal(x) == ToDecimal(y)
    ensures x == y
  {
    ParseToDecimal(x);
    ParseToDecimal(y);
  }

  lemma StampSuffixInjective(stem: string, now1: int, now2: int)
    requires stem + StampSuffix(now1) == stem + StampSuffix(now2)
    ensures now1 == now2
  {
    var x, y := StampSuffix(now1), StampSuffix(now2);
    assert (stem + x)[|stem|..] == x;
    assert (stem + y)[|stem|..] == y;
    MiddleEqual("_", ToDecimal(now1), ToDecimal(now2), ".xlsx");
    ToDecimalInjective(now1, now2);
  }

  /** As written too, the names of two runs at different times differ. */
  lemma ErrorFileNameAsWrittenUnique(path: string, now1: int, now2: int)
    requires now1 != now2
    ensures ErrorFileNameAsWritten(path, now1) != ErrorFileNameAsWritten(path, now2)
  {
    if ErrorFileNameAsWritten(path, now1) == ErrorFileNameAsWritten(path, now2) {
      var stem := if EndsWithXlsx(path) then BeforeFirstDot(path) else path;
      StampSuffixInjective(stem, now1, now2);
    }
  }

  /** With the intended name, the names of two runs at different times differ. */
  lemma ErrorFileNameUnique(path: string, now1: int, now2: int)
    requires now1 != now2
    ensures ErrorFileName(path, now1) != ErrorFileName(path, now2)
  {
    if ErrorFileName(path, now1) == ErrorFileName(path, now2) {
      var stem := if EndsWithXlsx(path) then path[..|path| - 5] else path;
      StampSuffixInjective(stem, now1, now2);
    }
  }

  /** What became of a run of dbImport. */
  datatype ImportResult =
    | ReadAborted                                          // a row threw while being checked
    | InsertAborted(report: InsertReport)                  // insertDB threw, or never ended
    | SaveAborted(report: InsertReport)                    // error rows but no error path (null)
    | Done(report: InsertReport, errorFile: Option<string>) // the error file written, if any

  /** The per-batch total: the positive update counts summed in int arithmetic. */
  method SumPositive(counts: seq<int>) returns (total: int)
    ensures total == BatchTotal(counts)
    ensures IntMin <= total <= IntMax
  {
    total := 0;
    for i := 0 to |counts|
      invariant total == Wrap32(PositiveSum(counts[..i]))
    {
      PositiveSumStep(counts, i);
      var n := counts[i];
      if n > 0 {
        WrapAddWrap(PositiveSum(counts[..i]), n);
        total := Wrap32(total + n);
      }
    }
    assert counts[..|counts|] == counts;
  }

  // ---------------------------------------------------------------------------
  // The importer

  class Excel2MySQL {
    var dbUrl: Option<string>
    var dbUserName: Option<string>
    var dbPassword: Option<string>
    var dbName: Option<string>
    var dbTable: Option<string>
    var excelFilePath: Option<string>
    var excelErrorFilePath: Option<string>
    var isReadFirstLine: bool
    var bulkSize: int
    var dbMap: seq<Mapping>
    var correctRows: seq<seq<string>>
    var errorRows: seq<seq<string>>
    /** The static column cache of isDb_Col, shared by every importer. */
    const cache: ColumnCache
    /** The grammar Float.parseFloat and Double.parseDouble accept. */
    const isDecimal: string -> bool

    /** The mapping list agrees with the column cache, and holds each object once. */
    ghost predicate Valid()
      reads this, cache
    {
      StableSort.Distinct(dbMap) && (cache.cached.None? || cache.cached == Some(Cols(dbMap)))
    }

    /** A new importer: no settings, no mappings, no rows. */
    constructor (cache: ColumnCache, isDecimal: string -> bool)
      ensures this.cache == cache && this.isDecimal == isDecimal
      ensures dbUrl.None? && dbUserName.None? && dbPassword.None? && dbName.None? && dbTable.None?
      ensures excelFilePath.None? && excelErrorFilePath.None?
      ensures !isReadFirstLine && bulkSize == 0
      ensures dbMap == [] && correctRows == [] && errorRows == []
    {
      this.cache := cache;
      this.isDecimal := isDecimal;
      dbUrl, dbUserName, dbPassword, dbName, dbTable := None, None, None, None, None;
      excelFilePath, excelErrorFilePath := None, None;
      isReadFirstLine, bulkSize := false, 0;
      dbMap, correctRows, errorRows := [], [], [];
    }

    /** The fields the fixed keys set, as one value. */
    function State(): Settings
      reads this
    {
      Settings(dbUrl, dbUserName, dbPassword, dbName, dbTable, excelFilePath, excelErrorFilePath, isReadFirstLine, bulkSize)
    }

    /** The switch of init on one fixed key; other keys fall to the default branch, which sets no field. */
    method ApplyProperty(key: string, value: string) returns (parsed: bool)
      modifies this`dbUrl, this`dbUserName, this`dbPassword, this`dbName, this`dbTable,
               this`excelFilePath, this`excelErrorFilePath, this`isReadFirstLine, this`bulkSize
      ensures parsed <==> Apply(old(State()), key, value).Some?
      ensures parsed ==> State() == Apply(old(State()), key, value).value
    {
      parsed := true;
      if key == "DB_URL" {
        dbUrl := Some(value);
      } else if key == "DB_USER_NAME" {
        dbUserName := Some(value);
      } else if key == "DB_PASSWORD" {
        dbPassword := Some(value);
      } else if key == "DB_NAME" {
        dbName := Some(value);
      } else if key == "DB_TABLE" {
        dbTable := Some(value);
      } else if key == "EXCEL_FILE_PATH" {
        excelFilePath := Some(value);
      } else if key == "EXCEL_ERROR_FILE_PATH" {
        excelErrorFilePath := Some(value);
      } else if key == "IS_READ_FIRST_LINE" {
        isReadFirstLine := ParseBoolean(value);
      } else if key == "BULK_SIZE" {
        var n := ParseInt(value);
        if n.None? {
          return false;
        }
        bulkSize := n.value;
      }
    }

    /**
     * The loop of init over the properties: each one through the switch,
     * the column keys collected in order. A BULK_SIZE that is not an int
     * ends it (false).
     */
    method LoadProperties(props: seq<Entry>) returns (ok: bool, colEntries: seq<Entry>)
      requires DistinctKeys(props)
      modifies this`dbUrl, this`dbUserName, this`dbPassword, this`dbName, this`dbTable,
               this`excelFilePath, this`excelErrorFilePath, this`isReadFirstLine, this`bulkSize
      ensures ok ==> Load(props, old(State())) == Some(State()) && colEntries == ColumnEntries(props)
      ensures !ok ==> !BulkSizeParses(props)
    {
      ghost var s0 := State();
      colEntries := [];
      for i := 0 to |props|
        invariant Load(props[..i], s0) == Some(State())
        invariant colEntries == ColumnEntries(props[..i])
      {
        var (key, value) := props[i];
        LoadStep(props, i, s0, State());
        ColumnEntriesStep(props, i);
        var parsed := ApplyProperty(key, value);
        if !parsed {
          LookupDistinct(props, i);
          return false, colEntries;
        }
        if IsColumnKey(key) {
          colEntries := colEntries + [(key, value)];
        }
      }
      assert props[..|props|] == props;
      ok := true;
    }

    /**
     * init: loads the properties, then builds, sorts and patches the
     * mapping list from the column keys.
     */
    method Init(props: seq<Entry>) returns (ok: bool)
      requires DistinctKeys(props)
      modifies this`dbUrl, this`dbUserName, this`dbPassword, this`dbName, this`dbTable,
               this`excelFilePath, this`excelErrorFilePath, this`isReadFirstLine, this`bulkSize, this`dbMap
      ensures ok <==> BulkSizeParses(props)
      ensures ok ==> Load(props, old(State())) == Some(State())
      ensures ok ==> Views(dbMap) == Resolve(props) && StableSort.Distinct(dbMap)
      ensures ok && old(cache.cached).None? ==> Valid()
    {
      var colEntries;
      ok, colEntries := LoadProperties(props);
      if ok {
        LoadParses(props, old(State()));
        InstallMappings(colEntries);
      }
    }

    /** The mapping list built from the column entries becomes dbMap. */
    method InstallMappings(colEntries: seq<Entry>)
      modifies this`dbMap
      ensures Views(dbMap) == PatchAll(SortSpecs(BaseSpecs(colEntries)), colEntries)
      ensures StableSort.Distinct(dbMap)
    {
      dbMap := BuildMappings(colEntries);
    }

    /**
     * The mapping list from the column map: a mapping for each two-token
     * key with a value that is not blank, sorted by column index, then the
     * three-token keys patching type and length.
     */
    static method BuildMappings(colEntries: seq<Entry>) returns (ms: seq<Mapping>)
      ensures Views(ms) == PatchAll(SortSpecs(BaseSpecs(colEntries)), colEntries)
      ensures StableSort.Distinct(ms) && forall m :: m in ms ==> fresh(m)
    {
      ms := SortedMappings(colEntries);
      PatchMappings(ms, colEntries);
    }

    /** The patch loop: every column entry, in order, patches the distinct mappings. */
    static method PatchMappings(ms: seq<Mapping>, colEntries: seq<Entry>)
      requires StableSort.Distinct(ms)
      modifies set m | m in ms
      ensures Views(ms) == PatchAll(old(Views(ms)), colEntries)
    {
      ghost var sorted := Views(ms);
      for i := 0 to |colEntries|
        invariant Views(ms) == PatchAll(sorted, colEntries[..i])
      {
        PatchAllStep(sorted, colEntries, i);
        PatchEntry(ms, colEntries[i]);
      }
      assert colEntries[..|colEntries|] == colEntries;
    }

    /** Sorting objects sorts their views; the sorted list holds the same distinct objects. */
    static lemma SortMappingObjects(objs: seq<Mapping>)
      requires StableSort.Distinct(objs)
      ensures var ms := StableSort.SortByKey(objs, MappingCol);
              StableSort.MapSeq(ms, DefaultView) == StableSort.SortByKey(StableSort.MapSeq(objs, DefaultView), ColKey) &&
              StableSort.Distinct(ms) && forall x :: x in ms ==> x in objs
    {
      var ms := StableSort.SortByKey(objs, MappingCol);
      StableSort.SortMap(objs, DefaultView, MappingCol, ColKey);
      StableSort.SortDistinct(objs, MappingCol);
      forall x | x in ms ensures x in objs {
        assert x in multiset(ms);
      }
    }

    /** The created mappings after Collections.sort: their views are the sorted base specs. */
    static method SortedMappings(colEntries: seq<Entry>) returns (ms: seq<Mapping>)
      ensures Views(ms) == SortSpecs(BaseSpecs(colEntries))
      ensures StableSort.Distinct(ms) && forall m :: m in ms ==> fresh(m)
    {
      var objs := CreateMappings(colEntries);
      ms := StableSort.SortByKey(objs, MappingCol);
      SortMappingObjects(objs);
      forall i | 0 <= i < |ms| ensures Views(ms)[i] == StableSort.MapSeq(ms, DefaultView)[i] {
        assert ms[i] in objs;
      }
    }
    /** One more entry of the column map creates one more distinct mapping. */
    static lemma CreateStep(objs: seq<Mapping>, m: Mapping, es: seq<Entry>, i: nat)
      requires i < |es| && IsMappingEntry(es[i]) && DefaultView(m) == BaseSpec(es[i])
      requires StableSort.MapSeq(objs, DefaultView) == BaseSpecs(es[..i])
      requires StableSort.Distinct(objs) && m !in objs
      ensures StableSort.MapSeq(objs + [m], DefaultView) == BaseSpecs(es[..i + 1])
      ensures StableSort.Distinct(objs + [m])
    {
      BaseSpecsStep(es, i);
      StableSort.DistinctAppend(objs, m);
      StableSort.MapSeqAppend(objs, m, DefaultView);
    }

    /** The mapping one column entry creates: a STRING column of the default length. */
    static method NewMapping(e: Entry) returns (m: Mapping)
      requires |Split(e.0)| >= 2
      ensures fresh(m) && m.ty == String && m.len == DefaultLen
      ensures DefaultView(m) == BaseSpec(e)
    {
      m := new Mapping(SymOf(e.0), e.1);
    }

    /** One pass of the creation loop: entry i creates a mapping when it qualifies. */
    static method CreateOne(objs: seq<Mapping>, es: seq<Entry>, i: nat) returns (next: seq<Mapping>)
      requires i < |es|
      requires StableSort.MapSeq(objs, DefaultView) == BaseSpecs(es[..i]) && StableSort.Distinct(objs)
      ensures StableSort.MapSeq(next, DefaultView) == BaseSpecs(es[..i + 1]) && StableSort.Distinct(next)
      ensures forall m :: m in next ==> m in objs || (fresh(m) && m.ty == String && m.len == DefaultLen)
    {
      if IsMappingEntry(es[i]) {
        var m := NewMapping(es[i]);
        CreateStep(objs, m, es, i);
        next := objs + [m];
      } else {
        BaseSpecsStep(es, i);
        next := objs;
      }
    }

    /** The mappings created from the column map, in its order: STRING columns of the default length. */
    static method CreateMappings(colEntries: seq<Entry>) returns (objs: seq<Mapping>)
      ensures StableSort.MapSeq(objs, DefaultView) == BaseSpecs(colEntries)
      ensures forall m :: m in objs ==> fresh(m) && m.ty == String && m.len == DefaultLen
      ensures StableSort.Distinct(objs)
    {
      objs := [];
      for i := 0 to |colEntries|
        invariant StableSort.MapSeq(objs, DefaultView) == BaseSpecs(colEntries[..i])
        invariant forall m :: m in objs ==> fresh(m) && m.ty == String && m.len == DefaultLen
        invariant StableSort.Distinct(objs)
      {
        objs := CreateOne(objs, colEntries, i);
      }
      assert colEntries[..|colEntries|] == colEntries;
    }

    /**
     * One pass of the patch loop on the mapping objects: a three-token key
     * whose name finds a mapping sets its type or length. With each object
     * in the list once, the views change as PatchOne says.
     */
    static method PatchEntry(ms: seq<Mapping>, e: Entry)
      requires StableSort.Distinct(ms)
      modifies set m | m in ms
      ensures Views(ms) == PatchOne(old(Views(ms)), e)
    {
      ghost var before := Views(ms);
      var (key, value) := e;
      var tokens := Split(key);
      if |tokens| != 3 {
        return;
      }
      var sym := ToUpper(Trim(tokens[1]));
      SymIndexViews(ms, sym);
      var found := GetMappingBySym(ms, sym);
      if found.None? {
        return;
      }
      ghost var k := SymIndex(ms, sym).value;
      assert found.value == ms[k];
      var token := ToLower(Trim(tokens[2]));
      assert sym == SymOf(key) && token == Suffix(key);
      PatchOneAt(before, e, k);
      if token == "type" {
        var typeText := ToUpper(Trim(value));
        var t: Type;
        if |typeText| >= 3 {
          t := GetType(typeText[..3]);
        } else {
          t := String;
        }
        assert t == TypeOfValue(value);
        SetTypeAt(ms, k, found.value, t);
      } else if token == "len" {
        var len := DefaultLen;
        var n := ParseInt(value);
        if n.Some? {
          len := n.value;
        }
        assert len == LenOfValue(value);
        SetLenAt(ms, k, found.value, len);
      }
    }

    /** Setting the type of the k-th of distinct mappings changes the k-th view and no other. */
    static method SetTypeAt(ms: seq<Mapping>, ghost k: nat, m: Mapping, t: Type)
      requires StableSort.Distinct(ms) && k < |ms| && m == ms[k]
      modifies m
      ensures Views(ms) == old(Views(ms))[k := old(View(m)).(ty := t)]
    {
      m.SetType(t);
      forall j | 0 <= j < |ms| ensures Views(ms)[j] == old(Views(ms))[k := old(View(m)).(ty := t)][j] {
        if j != k {
          assert ms[j] != ms[k];
        }
      }
    }

    /** Setting the length of the k-th of distinct mappings changes the k-th view and no other. */
    static method SetLenAt(ms: seq<Mapping>, ghost k: nat, m: Mapping, n: int)
      requires StableSort.Distinct(ms) && k < |ms| && m == ms[k] && IntMin <= n <= IntMax
      modifies m
      ensures Views(ms) == old(Views(ms))[k := old(View(m)).(len := n)]
    {
      m.SetLen(n);
      forall j | 0 <= j < |ms| ensures Views(ms)[j] == old(Views(ms))[k := old(View(m)).(len := n)][j] {
        if j != k {
          assert ms[j] != ms[k];
        }
      }
    }

    /**
     * The check of one mapped cell, branch by branch: the verdict is
     * CheckCell's (the accepted value is what goes into correctLine).
     */
    method CheckValue(ty: Type, len: int, v: string) returns (c: CellVerdict)
      ensures c == CheckCell(ty, len, v, isDecimal)
    {
      match ty
      case Integer =>
        var n := ParseInt(v);
        if n.Some? {
          c := Accept(IntValue(n.value));
        } else {
          var l := ParseLong(v);
          c := if l.Some? then Accept(LongValue(l.value)) else Reject;
        }
      case Number =>
        var n := ParseInt(v);
        if n.Some? {
          c := Accept(IntValue(n.value));
        } else {
          var l := ParseLong(v);
          if l.Some? {
            c := Accept(LongValue(l.value));
          } else if isDecimal(v) {
            c := Accept(DecimalValue(v));
          } else {
            c := Reject;
          }
        }
      case String =>
        var n := len;
        if n == -1 {
          n := DefaultLen;
        }
        var s := v;
        if |s| > n {
          if n < 0 {
            return Crash;
          }
          s := s[..n];
        }
        c := Accept(TextValue(s));
      case Date =>
        var s := v;
        if |s| > DateLen {
          s := s[..DateLen];
        }
        c := Accept(TextValue(s));
      case Boolean =>
        var s := v;
        if |s| > BoolLen {
          s := s[..BoolLen];
        }
        c := if IsBoolToken(s) then Accept(TextValue(s)) else Reject;
    }

    /**
     * rowToData: the raw line of the row, then the check of every mapped
     * column from 0 to lastCellNum. The line goes to the correct or the
     * error rows as Classify says; on an exception neither list changes.
     */
    method RowToData(row: Row) returns (outcome: RowOutcome)
      requires Valid()
      modifies this`correctRows, this`errorRows, cache
      ensures Valid()
      ensures outcome == Classify(Views(dbMap), row, isDecimal)
      ensures outcome == Correct ==> correctRows == old(correctRows) + [Line(row)] && errorRows == old(errorRows)
      ensures outcome == Error ==> errorRows == old(errorRows) + [Line(row)] && correctRows == old(correctRows)
      ensures outcome == Crashed ==> correctRows == old(correctRows) && errorRows == old(errorRows)
    {
      var line;
      outcome, line := CheckRow(row);
      if outcome == Error {
        errorRows := errorRows + [line];
      } else if outcome == Correct {
        correctRows := correctRows + [line];
      }
    }

    /** The reading and checking part of rowToData: the row's line and its verdict. */
    method CheckRow(row: Row) returns (outcome: RowOutcome, line: seq<string>)
      requires Valid()
      modifies cache
      ensures Valid()
      ensures outcome == Classify(Views(dbMap), row, isDecimal) && line == Line(row)
    {
      line := [];
      if row.None? {
        return Correct, line;
      }
      var cells := row.value;
      var lastCellNum := LastCellNum(cells);
      line := ReadLine(cells, lastCellNum);
      var crashed, error := CheckColumns(line, lastCellNum);
      ClassifyPresent(Views(dbMap), cells, isDecimal);
      outcome := if crashed then Crashed else if error then Error else Correct;
    }

    /** The first loop of rowToData: the text of each cell before lastCellNum, "" for an absent one. */
    static method ReadLine(cells: seq<Option<string>>, lastCellNum: int) returns (line: seq<string>)
      requires lastCellNum == LastCellNum(cells)
      ensures line == Line(Some(cells))
    {
      line := [];
      var i := 0;
      while i < lastCellNum
        invariant 0 <= i <= |cells| && |line| == i
        invariant i <= if lastCellNum < 0 then 0 else lastCellNum
        invariant forall j :: 0 <= j < i ==> line[j] == if cells[j].None? then "" else cells[j].value
      {
        var cell := cells[i];
        if cell.None? {
          line := line + [""];
        } else {
          line := line + [cell.value];
        }
        i := i + 1;
      }
    }

    /**
     * One column of the check loop of rowToData: isDb_Col, then, for a
     * mapped column, the cell's check against its mapping; reading past
     * the end of the line throws.
     */
    method CheckColumn(line: seq<string>, i: nat) returns (v: Option<CellVerdict>)
      requires Valid()
      modifies cache
      ensures Valid() && Views(dbMap) == old(Views(dbMap))
      ensures v == ColumnVerdict(Views(dbMap), line, i, isDecimal)
    {
      var isCol := cache.IsDbCol(Some(dbMap), i);
      MappingAtViews(dbMap, i);
      if !isCol {
        return None;
      }
      var m := GetMappingByCol(dbMap, i).value;
      if i >= |line| {
        // line.get(i) throws IndexOutOfBoundsException
        return Some(Crash);
      }
      var c := CheckValue(m.ty, m.len, line[i]);
      return Some(c);
    }

    /**
     * The second loop of rowToData: columns 0 to lastCellNum inclusive.
     * It stops at the first exception; otherwise it reports whether some
     * cell was rejected.
     */
    method CheckColumns(line: seq<string>, lastCellNum: int) returns (crashed: bool, error: bool)
      requires Valid() && lastCellNum >= -1
      modifies cache
      ensures Valid()
      ensures crashed <==> VerdictBefore(Views(dbMap), line, lastCellNum + 1, Crash, isDecimal)
      ensures !crashed ==> (error <==> VerdictBefore(Views(dbMap), line, lastCellNum + 1, Reject, isDecimal))
    {
      ghost var specs := Views(dbMap);
      var correctLine: seq<Coerced> := [];
      error := false;
      var i := 0;
      while i <= lastCellNum
        invariant 0 <= i <= lastCellNum + 1
        invariant Valid() && Views(dbMap) == specs
        invariant !VerdictBefore(specs, line, i, Crash, isDecimal)
        invariant error <==> VerdictBefore(specs, line, i, Reject, isDecimal)
      {
        VerdictBeforeStep(specs, line, i, Crash, isDecimal);
        VerdictBeforeStep(specs, line, i, Reject, isDecimal);
        var v := CheckColumn(line, i);
        if v == Some(Crash) {
          return true, error;
        } else if v == Some(Reject) {
          error := true;
        } else if v.Some? {
          correctLine := correctLine + [v.value.value];
        }
        i := i + 1;
      }
      crashed := false;
    }

    /** The parameters of one correct line, mapping by mapping; none when a binding throws. */
    method BindParams(line: seq<string>) returns (r: Option<seq<Param>>)
      ensures r == BindRow(Views(dbMap), line, isDecimal)
    {
      ghost var specs := Views(dbMap);
      var params: seq<Param> := [];
      for i := 0 to |dbMap|
        invariant BindRow(specs[..i], line, isDecimal) == Some(params)
      {
        BindRowStep(specs, line, isDecimal, i, params);
        var m := dbMap[i];
        if !(0 <= m.col < |line|) {
          BindRowFails(specs, line, isDecimal, i);
          return None;
        }
        var v := line[m.col];
        match m.ty
        case Integer =>
          var n := ParseLong(v);
          if n.None? {
            BindRowFails(specs, line, isDecimal, i);
            return None;
          }
          params := params + [LongParam(n.value)];
        case Number =>
          if !isDecimal(v) {
            BindRowFails(specs, line, isDecimal, i);
            return None;
          }
          params := params + [DoubleParam(v)];
        case _ =>
          params := params + [StringParam(v)];
      }
      assert specs[..|dbMap|] == specs;
      r := Some(params);
    }

    /** The inner loop of insertDB: the parameters of the next n correct lines, bound one line after another. */
    method BindBatch(rows: seq<seq<string>>, from: nat, n: nat) returns (r: Option<seq<seq<Param>>>)
      requires from + n <= |rows|
      ensures r == BindRows(Views(dbMap), rows[from..from + n], isDecimal)
    {
      ghost var specs := Views(dbMap);
      var params: seq<seq<Param>> := [];
      var j := from;
      while j < from + n
        invariant from <= j <= from + n
        invariant BindRows(specs, rows[from..j], isDecimal) == Some(params)
      {
        BindRowsStep(specs, rows, isDecimal, from, j, params);
        var p := BindParams(rows[j]);
        if p.None? {
          BindRowsFails(specs, rows, isDecimal, from, j, from + n);
          return None;
        }
        params := params + [p.value];
        j := j + 1;
      }
      return Some(params);
    }

    /**
     * insertDB: the statement, then batches of at most BULK_SIZE correct
     * lines, each bound, executed and committed, until the lines run out,
     * a binding throws or the database fails.
     */
    method InsertDB(exec: (nat, seq<seq<Param>>) -> BatchResult) returns (report: InsertReport)
      ensures report == RunInsert(Views(dbMap), correctRows, bulkSize, exec, isDecimal)
    {
      ghost var specs := Views(dbMap);
      var table := if dbTable.Some? then dbTable.value else "null";
      var insertString := GetInsertString(dbMap, table);
      if insertString.None? {
        return InsertReport([], Threw);
      }
      var rows := correctRows;
      if |rows| > 0 && bulkSize <= 0 {
        // the outer loop never advances: it executes empty batches forever
        return InsertReport([], Spins);
      }
      if rows == [] {
        return InsertReport([], Finished);
      }
      report := RunBatches(rows, exec);
    }

    /**
     * The outer loop of insertDB: batches of the next BULK_SIZE lines (fewer
     * for the last), each bound, executed and totalled, until the lines run
     * out, a binding throws or the database fails.
     */
    method RunBatches(rows: seq<seq<string>>, exec: (nat, seq<seq<Param>>) -> BatchResult) returns (report: InsertReport)
      requires bulkSize > 0
      ensures report == RunChunks(Views(dbMap), Chunks(rows, bulkSize), 0, exec, isDecimal, [])
    {
      ghost var specs := Views(dbMap);
      ghost var goal := RunChunks(specs, Chunks(rows, bulkSize), 0, exec, isDecimal, []);
      var rest := rows;
      var k: nat := 0;
      var totals: seq<int> := [];
      while rest != []
        invariant specs == Views(dbMap)
        invariant goal == RunChunks(specs, Chunks(rest, bulkSize), k, exec, isDecimal, totals)
        decreases |rest|
      {
        var size := if bulkSize < |rest| then bulkSize else |rest|;
        RunChunksHead(specs, rest, bulkSize, size, k, exec, isDecimal, totals);
        var bound := BindBatch(rest, 0, size);
        if bound.None? {
          return InsertReport(totals, Threw);
        }
        var result := exec(k, bound.value);
        if result.SqlFailure? {
          return InsertReport(totals, SqlFailed);
        }
        var total := SumPositive(result.counts);
        totals := totals + [total];
        k := k + 1;
        rest := rest[size..];
      }
      report := InsertReport(totals, Finished);
    }

    /** Rows read in order through rowToData, stopping at the first that throws. */
    method ReadRows(rows: seq<Row>) returns (crashed: bool)
      requires Valid()
      modifies this`correctRows, this`errorRows, cache
      ensures Valid()
      ensures crashed <==> !NoCrash(Views(dbMap), rows, isDecimal)
      ensures !crashed ==>
                correctRows == old(correctRows) + CorrectLines(Views(dbMap), rows, isDecimal) &&
                errorRows == old(errorRows) + ErrorLines(Views(dbMap), rows, isDecimal)
    {
      ghost var specs := Views(dbMap);
      for j := 0 to |rows|
        invariant Valid() && Views(dbMap) == specs
        invariant NoCrash(specs, rows[..j], isDecimal)
        invariant correctRows == old(correctRows) + CorrectLines(specs, rows[..j], isDecimal)
        invariant errorRows == old(errorRows) + ErrorLines(specs, rows[..j], isDecimal)
      {
        ghost var done, good, bad := rows[..j], correctRows, errorRows;
        var outcome := RowToData(rows[j]);
        if outcome == Crashed {
          CrashAt(specs, rows, j, isDecimal);
          return true;
        }
        ReadStep(specs, done, rows[j], isDecimal, old(correctRows), old(errorRows), good, bad, correctRows, errorRows);
        SliceStep(rows, 0, j);
      }
      assert rows[..|rows|] == rows;
      return false;
    }

    /**
     * The inner loop of dbImport on one sheet: a sheet with rows is read
     * from the start row to its last row, each row through rowToData.
     */
    method ReadSheet(sheet: seq<Row>) returns (crashed: bool)
      requires Valid()
      modifies this`correctRows, this`errorRows, cache
      ensures Valid()
      ensures crashed <==> !NoCrash(Views(dbMap), SheetRows(sheet, isReadFirstLine), isDecimal)
      ensures !crashed ==>
                correctRows == old(correctRows) + CorrectLines(Views(dbMap), SheetRows(sheet, isReadFirstLine), isDecimal) &&
                errorRows == old(errorRows) + ErrorLines(Views(dbMap), SheetRows(sheet, isReadFirstLine), isDecimal)
    {
      if !HasRows(sheet) {
        return false;
      }
      var lastRowNum := RowsEnd(sheet) - 1;
      var start := StartRow(isReadFirstLine);
      crashed := ReadRows(sheet[start..lastRowNum + 1]);
    }

    /** The sheet loop of dbImport: every sheet in order, stopping at the first row that throws. */
    method ReadSheets(sheets: seq<seq<Row>>) returns (crashed: bool)
      requires Valid()
      modifies this`correctRows, this`errorRows, cache
      ensures Valid()
      ensures crashed <==> !NoCrash(Views(dbMap), VisitedRows(sheets, isReadFirstLine), isDecimal)
      ensures !crashed ==>
                correctRows == old(correctRows) + CorrectLines(Views(dbMap), VisitedRows(sheets, isReadFirstLine), isDecimal) &&
                errorRows == old(errorRows) + ErrorLines(Views(dbMap), VisitedRows(sheets, isReadFirstLine), isDecimal)
    {
      ghost var specs := Views(dbMap);
      for i := 0 to |sheets|
        invariant Valid() && Views(dbMap) == specs
        invariant NoCrash(specs, VisitedRows(sheets[..i], isReadFirstLine), isDecimal)
        invariant correctRows == old(correctRows) + CorrectLines(specs, VisitedRows(sheets[..i], isReadFirstLine), isDecimal)
        invariant errorRows == old(errorRows) + ErrorLines(specs, VisitedRows(sheets[..i], isReadFirstLine), isDecimal)
      {
        ghost var before, good, bad := VisitedRows(sheets[..i], isReadFirstLine), correctRows, errorRows;
        crashed := ReadSheet(sheets[i]);
        if crashed {
          CrashStopsSheets(specs, sheets, i, isReadFirstLine, isDecimal);
          return;
        }
        VisitedRowsStep(sheets, i, isReadFirstLine);
        SheetsStep(specs, before, SheetRows(sheets[i], isReadFirstLine), isDecimal,
                   old(correctRows), old(errorRows), good, bad, correctRows, errorRows);
      }
      assert sheets[..|sheets|] == sheets;
      crashed := false;
    }

    /**
     * dbImport: every row of every sheet that has rows, from the start row
     * on, goes through rowToData; then insertDB; then, when there are error
     * rows, saveError names the error file.
     */
    method DbImport(sheets: seq<seq<Row>>, exec: (nat, seq<seq<Param>>) -> BatchResult, now: int)
      returns (result: ImportResult)
      requires Valid()
      modifies this`correctRows, this`errorRows, cache
      ensures Valid()
      ensures var rows := VisitedRows(sheets, isReadFirstLine);
              result.ReadAborted? <==> !NoCrash(Views(dbMap), rows, isDecimal)
      ensures var rows := VisitedRows(sheets, isReadFirstLine);
              !result.ReadAborted? ==>
                correctRows == old(correctRows) + CorrectLines(Views(dbMap), rows, isDecimal) &&
                errorRows == old(errorRows) + ErrorLines(Views(dbMap), rows, isDecimal) &&
                result.report == RunInsert(Views(dbMap), correctRows, bulkSize, exec, isDecimal)
      ensures result.InsertAborted? <==> !result.ReadAborted? && result.report.outcome in {Threw, Spins}
      ensures result.SaveAborted? <==>
                !result.ReadAborted? && result.report.outcome in {Finished, SqlFailed} &&
                |errorRows| > 0 && excelErrorFilePath.None?
      ensures result.Done? && |errorRows| > 0 ==>
                excelErrorFilePath.Some? && result.errorFile == Some(ErrorFileNameAsWritten(excelErrorFilePath.value, now))
      ensures result.Done? && |errorRows| == 0 ==> result.errorFile.None?
    {
      var crashed := ReadSheets(sheets);
      if crashed {
        return ReadAborted;
      }
      var report := InsertDB(exec);
      if report.outcome == Threw || report.outcome == Spins {
        return InsertAborted(report);
      }
      if |errorRows| > 0 {
        if excelErrorFilePath.None? {
          // excel_error_file_path.endsWith(..) on null throws
          return SaveAborted(report);
        }
        return Done(report, Some(ErrorFileNameAsWritten(excelErrorFilePath.value, now)));
      }
      result := Done(report, None);
    }
  }
}
