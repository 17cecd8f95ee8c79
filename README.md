# Excel2MySQL in Dafny

Excel2MySQL copies the rows of an Excel workbook into a MySQL table. Its
behaviour comes from an init file of `KEY=value` properties:

- nine fixed keys give the connection, the table, the workbook paths,
  whether the first row is data (`IS_READ_FIRST_LINE`) and the batch size
  (`BULK_SIZE`);
- `COL_<letters>=<db column>` keys map a spreadsheet column to a database
  column;
- `COL_<letters>_type` and `COL_<letters>_len` keys set that column's type
  (INT, NUM, STR, DAT, BOO) and length.

The program runs in four steps:

1. `init` builds the mapping list, sorted by column index.
2. `dbImport` reads every row of every sheet through `rowToData`. That
   method checks the mapped cells and files the row's raw text line as
   correct or as an error.
3. `insertDB` sends the correct lines to the table in batches of
   `BULK_SIZE`.
4. `saveError` writes the error lines to a workbook whose name carries a
   time stamp.

The project models these pieces, module by module:

| module | file | models |
|---|---|---|
| `JavaText` | `java_text.dfy` | the Java library behaviour the program relies on: `int` wrap-around, `trim`, case mapping, `split("[_.]")`, `Integer.parseInt` / `Long.parseLong` |
| `ColumnType` | `column_type.dfy` | the `Type` enum and `getType` |
| `ColumnMapping` | `column_mapping.dfy` | `Mapping`: the column index, `compareTo`, both `getMapping` lookups, `getInsertString`, `isDb_Col` and its static cache (class `ColumnCache`) |
| `StableSort` | `stable_sort.dfy` | `Collections.sort`, as a stable sort by an integer key |
| `Schema` | `schema.dfy` | what `init` makes of the column keys, stated on values |
| `RowCheck` | `row_check.dfy` | the per-type cell checks of `rowToData` and a row's verdict |
| `BatchInsert` | `batch_insert.dfy` | how `insertDB` binds parameters, cuts batches and reports |
| `Importer` | `importer.dfy` | class `Excel2MySQL`: fields, `init`, `rowToData`, `insertDB`, the row loops of `dbImport`, and the error file name |

Some of the program's surroundings become parameters of the model:

- **The workbook** is a sequence of sheets.
  - A sheet is a sequence of rows.
  - A row is `None` when it is absent, otherwise a sequence of optional
    cell texts.
  - Absent cells after a row's last present cell and absent rows after a
    sheet's last present row carry no information. `getLastCellNum` and
    `getLastRowNum` ignore them, and so does the model.
- **The database** is a function `exec(batchNumber, parameterRows)`. It
  returns the update counts, or an SQL failure.
- **The clock** is the parameter `now`.
- **The `Float.parseFloat` / `Double.parseDouble` grammar** is the
  predicate `isDecimal`.

Runtime exceptions that end the program become explicit outcomes:

- `Crash` / `Crashed` for a cell or row;
- `Threw` and `Spins` for `insertDB`;
- `ReadAborted`, `InsertAborted` and `SaveAborted` for a run.

The code and its own comments disagree in three places. The model follows
the code.

- **Column letters.** The comment on `toInt` calls the result the Excel
  column index. The code folds `acc*26 + (c-'A')`, so `AA` gives 0, not 26.
  Every mapping the model creates gets this index (`ColumnMapping.ToInt`).
  Excel's own numbering is proved one-to-one beside it (see Findings).
- **Duplicate mappings.** Nothing in `init` removes them. Two keys such as
  `COL_A` and `col.a` create two mappings of one column
  (`Schema.NoDeduplication`).
- **The error file name.** The comment calls the name unique and based on
  the one given. For a `.xlsx` path the code keeps only the text before the
  first dot, and `dbImport` in the model does the same. The intended name,
  the path without its extension, is proved to round-trip beside it (see
  Findings).

## Model

| member | source | states |
|---|---|---|
| JavaText.Wrap32 | src/com/waveconn/Mapping.java:65 | the result is the 32-bit int congruent to the input modulo 2^32: within the int range, equal to an in-range input, and IntMax+1 wraps to IntMin |
| JavaText.WrapAddWrap | src/com/waveconn/Excel2MySQL.java:363-365 | wrapping after every addition gives the same int as wrapping the exact sum once, so the running `total += n` is the wrapped sum of the positive counts |
| JavaText.Trim | src/com/waveconn/Type.java:31 | the result is the slice of the input left after removing the leading and the trailing chars of code at most ' ': every char before and after it is such a char, and its own first and last chars are not |
| JavaText.TrimIdempotent | src/com/waveconn/Type.java:31 | trimming twice is trimming once |
| JavaText.ToUpper | src/com/waveconn/Type.java:31 | upper-casing keeps the length and maps every char by itself |
| JavaText.ToLower | src/com/waveconn/Excel2MySQL.java:184 | lower-casing keeps the length and maps every char by itself |
| JavaText.TrimUpper | src/com/waveconn/Excel2MySQL.java:180 | trim and upper-case commute, so `trim().toUpperCase()` equals `toUpperCase().trim()` |
| JavaText.Split | src/com/waveconn/Excel2MySQL.java:157 | `split("[_.]")`: a key without `_` or `.` gives the key itself; otherwise the pieces between separators with the trailing empty pieces removed; no piece holds a separator |
| JavaText.SplitTwoTokens | src/com/waveconn/Excel2MySQL.java:168 | a word, one separator and a non-empty word split into exactly those two words |
| JavaText.SplitThreeTokens | src/com/waveconn/Excel2MySQL.java:177-179 | three words joined by two separators, the last non-empty, split into those three words |
| JavaText.SplitTwoTokensExamples | src/com/waveconn/Excel2MySQL.java:157 | "COL_A" and "col.a" both split into two tokens |
| JavaText.SplitDropsTrailingEmpty | src/com/waveconn/Excel2MySQL.java:157 | "COL_A_" splits into ["COL", "A"]: the trailing empty piece is dropped, so it is a two-token key |
| JavaText.SplitKeepsLeadingEmpty | src/com/waveconn/Excel2MySQL.java:157-158 | "_COL_A" splits into ["", "COL", "A"]: its first token is not COL |
| JavaText.SplitDegenerate | src/com/waveconn/Excel2MySQL.java:157-158 | "" and "COL" give one token and "_" gives none, so none of them is a column key |
| JavaText.ParseInt | src/com/waveconn/Excel2MySQL.java:154 | `Integer.parseInt` succeeds exactly on a signed decimal within the int range, with that value |
| JavaText.ParseLong | src/com/waveconn/Excel2MySQL.java:468 | `Long.parseLong` succeeds exactly on a signed decimal within the long range, and agrees with parseInt where that succeeds |
| JavaText.ParseToDecimal | src/com/waveconn/Excel2MySQL.java:391 | the decimal text of a number, as string concatenation writes it, parses back to that number |
| ColumnType.GetType | src/com/waveconn/Type.java:30-46 | each of INT, NUM, DAT, BOO (after trim and upper-case) selects its own type, and exactly every other input gives STRING |
| ColumnType.GetTypeNormalised | src/com/waveconn/Type.java:31 | getType(s) equals getType(upper(trim(s))) |
| ColumnType.GetTypeNeedsThreeChars | src/com/waveconn/Type.java:32-44 | a type other than STRING comes only from a trimmed code of exactly three chars |
| ColumnType.GetTypeExamples | src/com/waveconn/Type.java:32-42 | "int", "Num" and "dat" select INTEGER, NUMBER and DATE: the match ignores case |
| ColumnType.GetTypeOfUntrimmedCode | src/com/waveconn/Type.java:31-44 | a code with no blank at either end is looked up by its upper-cased text |
| ColumnType.GetTypeIgnoresBlanks | src/com/waveconn/Type.java:31 | " int " selects INTEGER |
| ColumnType.GetTypeFullNamesAreString | src/com/waveconn/Type.java:43-44 | the full names "INTEGER" and "BOOL", and "", fall to STRING |
| ColumnMapping.ToIntAsWritten | src/com/waveconn/Mapping.java:63-66 | `toInt` is the fold `col*26 + c - 'A'` with int wrap-around after each operator; the result is an int |
| ColumnMapping.ToInt | src/com/waveconn/Mapping.java:63-66 | the loop of `toInt` computes the fold over the whole name |
| ColumnMapping.ToIntAsWrittenNoWrap | src/com/waveconn/Mapping.java:63-66 | for up to six capital letters nothing wraps: the index is the base-26 value of the name with 'A' as digit 0, in [0, 26^6) |
| ColumnMapping.ToIntAsWrittenExtremes | src/com/waveconn/Mapping.java:63-66 | a non-letter gives a negative index without error ("@" gives -1), and "GYTISYX" reaches IntMax |
| ColumnMapping.ToIntAsWrittenIgnoresLeadingA | src/com/waveconn/Mapping.java:63-66 | as written, a leading 'A' adds nothing: toInt("A" + s) == toInt(s) |
| ColumnMapping.ToIntAsWrittenCollides | src/com/waveconn/Mapping.java:63-66 | as written, "A" and "AA" both give 0 and "BA" gives 26 |
| ColumnMapping.ColumnNumberNoWrap | src/com/waveconn/Mapping.java:63-66 | the corrected fold does not wrap for up to six letters and is then Excel's bijective column number |
| ColumnMapping.LetterNumberInjective | src/com/waveconn/Mapping.java:63-66 | different letter strings have different Excel column numbers |
| ColumnMapping.ColumnIndexInjective | src/com/waveconn/Mapping.java:63-66 | the corrected index is non-negative for one to six letters, and different columns get different indices |
| ColumnMapping.ColumnIndexExamples | src/com/waveconn/Mapping.java:63-66 | the corrected index gives A 0, Z 25, AA 26, AZ 51 and BA 52 |
| ColumnMapping.CompareAsWritten | src/com/waveconn/Mapping.java:68-71 | when the difference of the indices fits an int, the sign of compareTo is the order of the indices |
| ColumnMapping.CompareAsWrittenOverflows | src/com/waveconn/Mapping.java:68-71 | as written, index IntMax compares below index -1 and IntMin above 1 |
| ColumnMapping.Mapping.constructor | src/com/waveconn/Mapping.java:21-27 | a new mapping keeps the name and database column as given, has the index `toInt` computes from the name, and is STRING of length 256 |
| ColumnMapping.Mapping.SetType | src/com/waveconn/Mapping.java:33-35 | the type is set and the length is unchanged |
| ColumnMapping.Mapping.SetLen | src/com/waveconn/Mapping.java:41-43 | the length is set and the type is unchanged |
| ColumnMapping.Mapping.HasSym | src/com/waveconn/Mapping.java:58-60 | the names match exactly when they have the same length and equal chars after upper-casing |
| ColumnMapping.Mapping.CompareTo | src/com/waveconn/Mapping.java:68-71 | compareTo is an int whose sign orders the two column indices when their difference fits an int |
| ColumnMapping.SymIndex | src/com/waveconn/Mapping.java:74-76 | the position of the first mapping whose name equals the given one ignoring case, and none exactly when no mapping has that name |
| ColumnMapping.GetMappingBySym | src/com/waveconn/Mapping.java:74-76 | getMapping by name returns the first mapping in list order with that name ignoring case, else null |
| ColumnMapping.ColIndex | src/com/waveconn/Mapping.java:99-103 | the position of the first mapping with the given column index, and none exactly when no mapping has it |
| ColumnMapping.GetMappingByCol | src/com/waveconn/Mapping.java:99-103 | getMapping by index returns the first mapping in list order with that column index, else null |
| ColumnMapping.PlaceholdersShape | src/com/waveconn/Mapping.java:82 | the VALUES text for n mappings is n question marks separated by commas, 2n-1 chars |
| ColumnMapping.ColumnListNonEmpty | src/com/waveconn/Mapping.java:84-89 | with no empty database column name, the StringBuilder loop joins the names with commas |
| ColumnMapping.ColumnListSkipsEmptyHead | src/com/waveconn/Mapping.java:84-89 | an empty first name gets no comma after it: ["", "a"] lists as "a", not ",a" |
| ColumnMapping.GetInsertString | src/com/waveconn/Mapping.java:79-96 | no mappings throw; otherwise the text is `INSERT INTO t (columns) VALUES (?,...)` with the database columns in order and one placeholder per mapping |
| ColumnMapping.ColumnCache.constructor | src/com/waveconn/Mapping.java:117 | the static cache starts empty (null) |
| ColumnMapping.ColumnCache.IsDbCol | src/com/waveconn/Mapping.java:106-114 | false for a null list; otherwise the cache is filled from the first list seen and never refreshed, and the answer is membership in the cache; with a cache of this list's indices the answer is whether getMapping by index finds a mapping |
| StableSort.CompareInts | src/com/waveconn/Mapping.java:68-71 | the corrected comparison: its sign is exactly the order of the two indices, with no overflow; the sort of the model uses it |
| StableSort.SortByKey | src/com/waveconn/Excel2MySQL.java:173 | the sort keeps the length and is a permutation of its input |
| StableSort.SortSorted | src/com/waveconn/Excel2MySQL.java:173 | the sorted list is ascending by column index |
| StableSort.SortStable | src/com/waveconn/Excel2MySQL.java:173 | the sort is stable: the elements of each index keep their relative order |
| StableSort.SortDistinct | src/com/waveconn/Excel2MySQL.java:173 | sorting distinct objects gives distinct objects |
| StableSort.StableSortUnique | src/com/waveconn/Excel2MySQL.java:173 | two sorted lists holding the same elements of each index in the same order are equal |
| StableSort.CharacterizeSort | src/com/waveconn/Excel2MySQL.java:173 | any sorted list of the same length that keeps the order within each index is the result of the sort, so the model of Collections.sort is its only possible outcome |
| StableSort.SortMap | src/com/waveconn/Excel2MySQL.java:173 | sorting objects and then viewing them equals sorting their views, when the view keeps the index |
| Schema.ColumnEntries | src/com/waveconn/Excel2MySQL.java:156-160 | the column map holds exactly the properties whose key is a column key, and no more entries than the properties |
| Schema.BaseSpecs | src/com/waveconn/Excel2MySQL.java:166-171 | every created mapping is STRING of length 256, has a database column that is not blank and has the index `toInt` gives its name; there are at most as many as entries |
| Schema.BaseSpecsCovers | src/com/waveconn/Excel2MySQL.java:166-171 | every two-token entry with a value that is not blank creates its mapping |
| Schema.SpecIndex | src/com/waveconn/Excel2MySQL.java:181 | the first mapping whose name equals the key's name ignoring case, and none when there is none |
| Schema.PatchOne | src/com/waveconn/Excel2MySQL.java:177-207 | one patch keeps names, columns and database columns, and changes only the first mapping whose name matches a three-token key |
| Schema.PatchOneAt | src/com/waveconn/Excel2MySQL.java:184-206 | for a matched key, suffix "type" sets the type from the value, "len" sets the length, any other suffix changes nothing |
| Schema.PatchSpec | src/com/waveconn/Excel2MySQL.java:184-206 | patching one mapping keeps its name, column and database column |
| Schema.PatchAll | src/com/waveconn/Excel2MySQL.java:176-208 | the patch loop keeps names, columns, database columns and order |
| Schema.Resolve | src/com/waveconn/Excel2MySQL.java:166-208 | the mapping list init leaves has at most one mapping per property, and the names, indices and database columns of the created mappings after the sort, in that order: the patches change only types and lengths |
| Schema.CompareToAgrees | src/com/waveconn/Mapping.java:68-71 | for names of up to six capital letters, compareTo on their indices has the sign of the sign-correct comparison, so the sort of the model orders them as Collections.sort with compareTo does |
| Schema.ResolveSorted | src/com/waveconn/Excel2MySQL.java:166-208 | after init the mapping list is ascending by column index, and its names, columns and database columns are those of the created mappings stably sorted |
| Schema.SpecIndexSameColumns | src/com/waveconn/Excel2MySQL.java:181 | patching never changes which mapping a name finds |
| Schema.TypePatchLastWins | src/com/waveconn/Excel2MySQL.java:186-195 | of two "type" keys naming one column, the one processed later decides |
| Schema.LenPatchLastWins | src/com/waveconn/Excel2MySQL.java:196-206 | of two "len" keys naming one column, the one processed later decides |
| Schema.TypeAndLenCommute | src/com/waveconn/Excel2MySQL.java:184-206 | a "type" key and a "len" key give the same list in either order |
| Schema.TypeOfValuePrefix | src/com/waveconn/Excel2MySQL.java:187-193 | a type value selects by the code table applied to the first three chars of its trimmed, upper-cased text ("integer" selects INTEGER); fewer than three chars give STRING |
| Schema.LenOfValueUntrimmed | src/com/waveconn/Excel2MySQL.java:197-204 | a len value with a blank at either end fails parseInt and gives 256 |
| Schema.LenOfValueDecimal | src/com/waveconn/Excel2MySQL.java:197-204 | every int written in decimal is taken as that length, whatever the type |
| Schema.SymOfTwoTokens | src/com/waveconn/Excel2MySQL.java:170 | the name of a mapping is its key's second token, upper-cased |
| Schema.ColumnKeyOf | src/com/waveconn/Excel2MySQL.java:157-159 | a key that is not fixed and splits into COL (any case) and a name is a column key |
| Schema.ColPrefixNotFixed | src/com/waveconn/Excel2MySQL.java:128-156 | no fixed key starts with C, so a COL key always reaches the default branch |
| Schema.ColumnKeyEitherForm | src/com/waveconn/Excel2MySQL.java:157-170 | "COL_A" and "col.a" are both column keys naming column A |
| Schema.ColumnEntriesPair | src/com/waveconn/Excel2MySQL.java:156-160 | two column keys both reach the column map, in order |
| Schema.BaseSpecsOne | src/com/waveconn/Excel2MySQL.java:166-171 | one qualifying entry creates exactly its mapping |
| Schema.BaseSpecsPair | src/com/waveconn/Excel2MySQL.java:166-171 | two qualifying entries create their two mappings in order |
| Schema.SortPair | src/com/waveconn/Excel2MySQL.java:173 | two mappings already in index order stay in that order, also when their indices are equal |
| Schema.PatchAllPairOfTwoTokenKeys | src/com/waveconn/Excel2MySQL.java:177 | two-token keys patch nothing |
| Schema.NoDeduplication | src/com/waveconn/Excel2MySQL.java:166-173 | two keys naming the same column create two mappings of it, in column-map order |
| RowCheck.PresentEnd | src/com/waveconn/Excel2MySQL.java:438 | the end of the present entries among the first k lies within them |
| RowCheck.PresentEndSpec | src/com/waveconn/Excel2MySQL.java:438 | the entry just before that end is present, and every entry from it up to k is absent |
| RowCheck.LastCellNum | src/com/waveconn/Excel2MySQL.java:438 | getLastCellNum is -1 or a positive count no larger than the row |
| RowCheck.LastCellNumSpec | src/com/waveconn/Excel2MySQL.java:438 | getLastCellNum is one past a present cell with only absent cells after it, and -1 when no cell is present |
| RowCheck.Line | src/com/waveconn/Excel2MySQL.java:438-450 | the line of an absent row is empty; otherwise it has one entry per cell before lastCellNum: "" for a missing cell and the cell's text for a present one |
| RowCheck.Truncate | src/com/waveconn/Excel2MySQL.java:509-510 | a cut keeps the prefix of the text, at most n chars |
| RowCheck.MappingAt | src/com/waveconn/Excel2MySQL.java:456-459 | the first mapping of the column, and none exactly when the column is not mapped |
| RowCheck.VerdictBeforeStep | src/com/waveconn/Excel2MySQL.java:454 | a verdict occurs among the first n+1 columns exactly when it occurs among the first n or at column n |
| RowCheck.Classify | src/com/waveconn/Excel2MySQL.java:432-539 | an absent row is correct |
| RowCheck.ClassifyCorrect | src/com/waveconn/Excel2MySQL.java:432-539 | a row is correct exactly when it is absent or every column from 0 to lastCellNum inclusive is unmapped or accepted by the check of its first mapping |
| RowCheck.ClassifyPresent | src/com/waveconn/Excel2MySQL.java:452-546 | a present row throws when some column up to lastCellNum throws, and otherwise is an error row when some column is rejected |
| RowCheck.IntegerCheck | src/com/waveconn/Excel2MySQL.java:462-476 | INTEGER never throws and passes exactly when Long.parseLong succeeds, with that value |
| RowCheck.NumberCheck | src/com/waveconn/Excel2MySQL.java:477-503 | NUMBER never throws and passes exactly when Long.parseLong succeeds or the text has float syntax |
| RowCheck.StringCheck | src/com/waveconn/Excel2MySQL.java:504-512 | STRING never flags an error; length -1 means 256; a length below -1 throws on a longer text; otherwise the text is cut to the length |
| RowCheck.DateCheck | src/com/waveconn/Excel2MySQL.java:513-518 | DATE always passes, with the text cut to 64 chars |
| RowCheck.BooleanCheck | src/com/waveconn/Excel2MySQL.java:519-537 | BOOLEAN never throws and passes exactly when the first five chars equal one of the eight tokens ignoring case |
| RowCheck.BoolTokenFalse | src/com/waveconn/Excel2MySQL.java:521-524 | any text whose first five chars are "false" in some case passes |
| RowCheck.BooleanFalsey | src/com/waveconn/Excel2MySQL.java:519-537 | "FALSEY" passes, because only its first five chars are compared |
| RowCheck.BooleanTrueOne | src/com/waveconn/Excel2MySQL.java:519-537 | "true1" is rejected |
| RowCheck.AbsentRow | src/com/waveconn/Excel2MySQL.java:432 | an absent row is correct, with an empty line |
| RowCheck.EmptyRow | src/com/waveconn/Excel2MySQL.java:438-454 | a row with no cells is correct, with an empty line, whatever the mappings |
| RowCheck.MappedColumnAtLastCellNumCrashes | src/com/waveconn/Excel2MySQL.java:454-464 | the check loop runs to lastCellNum inclusive, so a mapping of the column just past the last present cell throws |
| RowCheck.ColumnsBeyondLastCellIgnored | src/com/waveconn/Excel2MySQL.java:454 | mappings beyond lastCellNum are never checked: such a row is correct |
| RowCheck.RejectedCellMakesErrorRow | src/com/waveconn/Excel2MySQL.java:472-543 | one rejected cell keeps a row out of the correct rows |
| BatchInsert.BindRow | src/com/waveconn/Excel2MySQL.java:337-352 | a bound line has one parameter per mapping |
| BatchInsert.BindRowSpec | src/com/waveconn/Excel2MySQL.java:337-352 | a line binds exactly when every mapping's cell does, and then holds each mapping's parameter in order |
| BatchInsert.BindRowFails | src/com/waveconn/Excel2MySQL.java:341-349 | one cell that throws makes the whole line throw |
| BatchInsert.BindRows | src/com/waveconn/Excel2MySQL.java:335-357 | a bound batch has one parameter row per line |
| BatchInsert.BindRowsSpec | src/com/waveconn/Excel2MySQL.java:335-357 | a batch binds exactly when each of its lines does, and then holds each line's parameters in order |
| BatchInsert.BindRowsFails | src/com/waveconn/Excel2MySQL.java:335-357 | a line that throws makes every batch containing it throw |
| BatchInsert.ChunksHead | src/com/waveconn/Excel2MySQL.java:335 | the first batch is the next min(BULK_SIZE, remaining) lines |
| BatchInsert.ChunksFlatten | src/com/waveconn/Excel2MySQL.java:333-357 | the batches hold every correct line once, in order |
| BatchInsert.ChunksSizes | src/com/waveconn/Excel2MySQL.java:335 | every batch is non-empty and at most BULK_SIZE long, and all but the last are exactly BULK_SIZE long |
| BatchInsert.ChunksCount | src/com/waveconn/Excel2MySQL.java:333-357 | the number of batches is the number of lines divided by BULK_SIZE, rounded up |
| BatchInsert.PositiveSumStep | src/com/waveconn/Excel2MySQL.java:364-365 | the sum grows by a count exactly when that count is positive |
| BatchInsert.BatchTotal | src/com/waveconn/Excel2MySQL.java:363-365 | a batch total is an int, and equals the sum of the positive counts when that sum fits an int |
| BatchInsert.RunChunksHead | src/com/waveconn/Excel2MySQL.java:333-370 | one pass of the outer loop binds the next batch, stops on a throw or an SQL failure, and otherwise records the total and goes on |
| BatchInsert.RunChunksKeepsTotals | src/com/waveconn/Excel2MySQL.java:363-367 | the totals printed before a run stay in front of the ones it prints |
| BatchInsert.BatchDoneShift | src/com/waveconn/Excel2MySQL.java:333-370 | a batch done in the rest of a run is done in the whole run, one position later |
| BatchInsert.RunChunksDone | src/com/waveconn/Excel2MySQL.java:333-370 | every batch a run reports was bound and executed, in order, with the reported total |
| BatchInsert.RunChunksStops | src/com/waveconn/Excel2MySQL.java:333-377 | a run ends normally exactly when every batch ran; a throw or an SQL failure happens at the first unreported batch, and later batches are never attempted |
| BatchInsert.RunChunks | src/com/waveconn/Excel2MySQL.java:333-377 | the run of batches never spins: it finishes, stops at an SQL failure or throws |
| BatchInsert.RunInsert | src/com/waveconn/Excel2MySQL.java:320-384 | insertDB throws with no mappings, does nothing for no lines, and never ends exactly when there are mappings and lines and BULK_SIZE <= 0 |
| BatchInsert.RunInsertBatches | src/com/waveconn/Excel2MySQL.java:327-377 | with mappings, lines and BULK_SIZE > 0, insertDB runs the batches 0, 1, ... in order and finishes exactly when all of them ran |
| BatchInsert.NoMappingCrashes | src/com/waveconn/Excel2MySQL.java:327 | with no mapping, building the statement throws before any batch |
| BatchInsert.MappingAtDistinct | src/com/waveconn/Excel2MySQL.java:459 | with distinct column indices, getMapping by index finds the mapping of that column |
| BatchInsert.BindAcceptedCell | src/com/waveconn/Excel2MySQL.java:341-349 | a cell that passed its check binds, when parseDouble reads every integer |
| BatchInsert.CorrectRowVisitedColumns | src/com/waveconn/Excel2MySQL.java:454-539 | in a correct row no visited column throws or is rejected |
| BatchInsert.CorrectRowBindsCell | src/com/waveconn/Excel2MySQL.java:337-352 | a mapping of a correct row whose column lies before lastCellNum binds, when columns are distinct |
| BatchInsert.CorrectRowBinds | src/com/waveconn/Excel2MySQL.java:337-352 | a correct row binds without exception when every mapped column lies before its lastCellNum and no two mappings share a column |
| BatchInsert.AbsentRowDoesNotBind | src/com/waveconn/Excel2MySQL.java:341-349 | an absent row is a correct row, yet binding its empty line throws as soon as there is a mapping |
| BatchInsert.SharedColumnDoesNotBind | src/com/waveconn/Excel2MySQL.java:337-349 | a STRING and an INTEGER mapping of one column let a non-number pass the check and then throw at binding |
| Importer.Lookup | src/com/waveconn/Excel2MySQL.java:126-127 | the value of a key is absent exactly when no property has the key, and otherwise is a value of that key |
| Importer.LookupStep | src/com/waveconn/Excel2MySQL.java:126-127 | one more property decides the lookup of its own key and leaves the others as they were |
| Importer.LookupDistinct | src/com/waveconn/Excel2MySQL.java:126-127 | with distinct keys, every property is what its key looks up, whatever the order |
| Importer.ApplyEffect | src/com/waveconn/Excel2MySQL.java:128-143 | one property sets the connection field of its own key and leaves the others unchanged |
| Importer.ApplyPathsEffect | src/com/waveconn/Excel2MySQL.java:144-149 | one property sets the workbook path of its own key and leaves the other unchanged |
| Importer.ApplyFlagsEffect | src/com/waveconn/Excel2MySQL.java:150-155 | IS_READ_FIRST_LINE sets the flag by parseBoolean, BULK_SIZE only when its value is an int, and other keys leave both |
| Importer.LoadStep | src/com/waveconn/Excel2MySQL.java:126-162 | loading one more property applies it to what was loaded |
| Importer.LoadConnection | src/com/waveconn/Excel2MySQL.java:126-143 | after the loop each connection field holds its key's value, or what it held when the key is absent |
| Importer.LoadPaths | src/com/waveconn/Excel2MySQL.java:144-149 | the same for the two workbook paths |
| Importer.LoadFlags | src/com/waveconn/Excel2MySQL.java:150-155 | the same for the first-line flag and the batch size, parsed from their text |
| Importer.LoadParses | src/com/waveconn/Excel2MySQL.java:153-155 | the loop gets through the properties exactly when BULK_SIZE is absent or an int |
| Importer.SymIndexViews | src/com/waveconn/Mapping.java:74-76 | getMapping by name finds, among objects, the mapping found among their values |
| Importer.MappingAtViews | src/com/waveconn/Mapping.java:99-103 | getMapping by index finds, among objects, the mapping found among their values |
| Importer.LinesPartitionRows | src/com/waveconn/Excel2MySQL.java:542-545 | when no row throws, every row read lands in exactly one list, as its own raw line, in the list of its verdict |
| Importer.LinesCount | src/com/waveconn/Excel2MySQL.java:542-545 | when no row throws, the two lists together are as long as the rows read |
| Importer.CorrectLineFrom | src/com/waveconn/Excel2MySQL.java:544-545 | each correct line is the raw line of a correct row |
| Importer.CorrectLinesFromRows | src/com/waveconn/Excel2MySQL.java:544-545 | every correct line is the raw line of a correct row |
| Importer.ErrorLineFrom | src/com/waveconn/Excel2MySQL.java:542-543 | each error line is the raw line of an error row |
| Importer.ErrorLinesFromRows | src/com/waveconn/Excel2MySQL.java:542-543 | every error line is the raw line of an error row |
| Importer.NoMappingAllCorrect | src/com/waveconn/Excel2MySQL.java:454-457 | without mappings no row throws, every row's line is correct and no line is an error |
| Importer.ColumnsBeyondLastCellIgnoredOrAbsent | src/com/waveconn/Excel2MySQL.java:432-457 | without mappings every row, present or absent, is correct |
| Importer.VisitedRowsStep | src/com/waveconn/Excel2MySQL.java:261-283 | one more sheet adds its rows after those already read |
| Importer.RowListsStep | src/com/waveconn/Excel2MySQL.java:542-545 | one more row adds its line to the list of its verdict only |
| Importer.LinesAppend | src/com/waveconn/Excel2MySQL.java:278-281 | reading rows a then rows b files the lines of a, then those of b |
| Importer.ReadStep | src/com/waveconn/Excel2MySQL.java:278-281 | one more row read without a throw keeps the invariants of the row loop |
| Importer.SheetsStep | src/com/waveconn/Excel2MySQL.java:261-283 | one more sheet read without a throw keeps the invariants of the sheet loop |
| Importer.CrashStopsSheets | src/com/waveconn/Excel2MySQL.java:261-283 | a row that throws on any sheet makes the whole read throw |
| Importer.CrashAt | src/com/waveconn/Excel2MySQL.java:278-281 | a row that throws makes the read of its list throw |
| Importer.CrashInPrefix | src/com/waveconn/Excel2MySQL.java:278-281 | a throw in the first rows is a throw in the whole read |
| Importer.CrashInSuffix | src/com/waveconn/Excel2MySQL.java:278-281 | a throw in the last rows is a throw in the whole read |
| Importer.NoCrashAppend | src/com/waveconn/Excel2MySQL.java:278-281 | rows a then b are read without a throw exactly when a is and b is |
| Importer.VisitedRowsAppend | src/com/waveconn/Excel2MySQL.java:261-283 | the rows of sheets a then b are those of a, then those of b |
| Importer.RowsEnd | src/com/waveconn/Excel2MySQL.java:272 | getLastRowNum + 1 lies within the sheet |
| Importer.RowsEndSpec | src/com/waveconn/Excel2MySQL.java:265-272 | getLastRowNum is a present row with only absent rows after it, and a sheet has rows exactly when some row is present |
| Importer.SheetRowsSkipHeader | src/com/waveconn/Excel2MySQL.java:274-278 | a sheet with rows is read from row 0 through getLastRowNum, or from row 1 when the first line is a header: only the header row is skipped |
| Importer.BeforeFirstDot | src/com/waveconn/Excel2MySQL.java:391 | `split("[.]")[0]` is the prefix of the path before its first dot |
| Importer.ErrorFileNameAsWritten | src/com/waveconn/Excel2MySQL.java:390-393 | saveError's name ends with "_now.xlsx"; before it stands the path itself when the path does not end with ".xlsx", and otherwise the part of the path before its first dot |
| Importer.ErrorFileNameRoundTrip | src/com/waveconn/Excel2MySQL.java:390-393 | corrected rule: removing the stamp and restoring the extension gives the error path back |
| Importer.ErrorFileNameAsWrittenLosesPath | src/com/waveconn/Excel2MySQL.java:390-391 | as written, a ".xlsx" path starting with a dot (such as "./errors.xlsx") becomes only "_now.xlsx" |
| Importer.MiddleEqual | src/com/waveconn/Excel2MySQL.java:391 | two names with the same stem and extension are equal only with the same stamp text |
| Importer.ToDecimalInjective | src/com/waveconn/Excel2MySQL.java:389-391 | different time stamps print differently |
| Importer.StampSuffixInjective | src/com/waveconn/Excel2MySQL.java:389-393 | the same stem with different time stamps gives different names |
| Importer.ErrorFileNameUnique | src/com/waveconn/Excel2MySQL.java:386-393 | with the corrected rule too, runs at different times name different error files |
| Importer.ErrorFileNameAsWrittenUnique | src/com/waveconn/Excel2MySQL.java:386-393 | saveError's names for runs at different times differ, as its comment promises |
| Importer.SumPositive | src/com/waveconn/Excel2MySQL.java:363-365 | the loop's total is the batch total: the positive counts summed with int wrap-around |
| Importer.Excel2MySQL.constructor | src/com/waveconn/Excel2MySQL.java:66-85 | a new importer has no settings, no mappings and no rows |
| Importer.Excel2MySQL.ApplyProperty | src/com/waveconn/Excel2MySQL.java:128-161 | the switch fails exactly when BULK_SIZE is not an int, and otherwise leaves the fields as one application of the property says |
| Importer.Excel2MySQL.LoadProperties | src/com/waveconn/Excel2MySQL.java:126-162 | the loop sets the fields as the properties applied in order say, and collects the column map; it fails only when BULK_SIZE is not an int |
| Importer.Excel2MySQL.Init | src/com/waveconn/Excel2MySQL.java:114-211 | init succeeds exactly when BULK_SIZE is absent or an int; then the fields hold the loaded settings and the mapping list is the resolved, sorted and patched list of distinct objects, in agreement with an unfilled cache |
| Importer.Excel2MySQL.InstallMappings | src/com/waveconn/Excel2MySQL.java:166-208 | dbMap becomes the created mappings, sorted and patched |
| Importer.Excel2MySQL.BuildMappings | src/com/waveconn/Excel2MySQL.java:166-208 | the new distinct mapping objects have as values the created mappings, sorted and then patched |
| Importer.Excel2MySQL.PatchMappings | src/com/waveconn/Excel2MySQL.java:176-208 | the patch loop changes the mapping objects as the patches applied in order say |
| Importer.Excel2MySQL.SortMappingObjects | src/com/waveconn/Excel2MySQL.java:173 | sorting mapping objects sorts their values, keeping the same distinct objects |
| Importer.Excel2MySQL.SortedMappings | src/com/waveconn/Excel2MySQL.java:166-173 | the created mappings after Collections.sort have the sorted created values |
| Importer.Excel2MySQL.CreateStep | src/com/waveconn/Excel2MySQL.java:166-171 | one more qualifying entry adds one more distinct mapping with its value |
| Importer.Excel2MySQL.NewMapping | src/com/waveconn/Excel2MySQL.java:170 | the mapping of an entry is new, STRING of length 256, with the entry's name and database column |
| Importer.Excel2MySQL.CreateOne | src/com/waveconn/Excel2MySQL.java:167-171 | one pass of the stream creates the entry's mapping exactly when the entry qualifies |
| Importer.Excel2MySQL.CreateMappings | src/com/waveconn/Excel2MySQL.java:166-171 | the created mappings are new distinct STRING objects of length 256 whose values are the created mappings, in column-map order |
| Importer.Excel2MySQL.PatchEntry | src/com/waveconn/Excel2MySQL.java:177-207 | one three-token key changes the mapping objects as one patch says |
| Importer.Excel2MySQL.SetTypeAt | src/com/waveconn/Excel2MySQL.java:190-192 | setting the type of one of distinct mappings changes its value and no other |
| Importer.Excel2MySQL.SetLenAt | src/com/waveconn/Excel2MySQL.java:204 | setting the length of one of distinct mappings changes its value and no other |
| Importer.Excel2MySQL.CheckValue | src/com/waveconn/Excel2MySQL.java:461-538 | the switch on the type gives the verdict of the type's check |
| Importer.Excel2MySQL.RowToData | src/com/waveconn/Excel2MySQL.java:421-546 | the row's verdict is its classification; a correct or error row appends its raw line to that list only, and a throw appends nothing |
| Importer.Excel2MySQL.CheckRow | src/com/waveconn/Excel2MySQL.java:432-539 | the reading and checking part of rowToData returns the row's classification and its line, keeping the importer valid |
| Importer.Excel2MySQL.ReadLine | src/com/waveconn/Excel2MySQL.java:438-450 | the first loop builds the row's line |
| Importer.Excel2MySQL.CheckColumn | src/com/waveconn/Excel2MySQL.java:455-538 | one column's verdict: none for an unmapped column, a throw past the end of the line, otherwise the check of its first mapping |
| Importer.Excel2MySQL.CheckColumns | src/com/waveconn/Excel2MySQL.java:453-539 | the check loop throws exactly when some column up to lastCellNum throws, and otherwise flags an error exactly when some column is rejected |
| Importer.Excel2MySQL.BindParams | src/com/waveconn/Excel2MySQL.java:336-352 | the parameter loop binds the line as the binding of rows says |
| Importer.Excel2MySQL.BindBatch | src/com/waveconn/Excel2MySQL.java:335-357 | the inner loop binds the next n lines as the binding of batches says |
| Importer.Excel2MySQL.InsertDB | src/com/waveconn/Excel2MySQL.java:320-384 | insertDB reports what the run of the correct lines in batches says: a throw without mappings, nothing for no lines, no end for BULK_SIZE <= 0 |
| Importer.Excel2MySQL.RunBatches | src/com/waveconn/Excel2MySQL.java:333-370 | the outer loop runs the batches of BULK_SIZE lines as the run of batches says |
| Importer.Excel2MySQL.ReadRows | src/com/waveconn/Excel2MySQL.java:278-281 | the row loop throws exactly when some row throws, and otherwise appends the correct and the error lines of the rows |
| Importer.Excel2MySQL.ReadSheet | src/com/waveconn/Excel2MySQL.java:264-282 | a sheet with rows is read from the start row through rowToData; an empty sheet adds nothing |
| Importer.Excel2MySQL.ReadSheets | src/com/waveconn/Excel2MySQL.java:261-283 | the sheet loop throws exactly when some row read throws, and otherwise appends the lines of all sheets in order |
| Importer.Excel2MySQL.DbImport | src/com/waveconn/Excel2MySQL.java:237-318 | a run ends at the first row that throws; otherwise the lines are filed, insertDB runs on the correct lines, and when there are error lines the error file is named as saveError names it (a missing error path throws) |

## Left out

- Workbook reading (POI): opening the file, formula evaluation and cell
  formatting. A row is given as its cell texts.
- JDBC: the connection, `setAutoCommit` and statement preparation.
  - A failed connection ends the program with an exit; that is not
    modelled.
  - Execution and commit are folded into the executor `exec`. Batches
    committed before an SQL failure stay committed, which the model
    records only as the totals reported before the failure.
- `Importer.Excel2MySQL.InsertDB`: with rows and `BULK_SIZE` of zero or
  less, the source executes and commits empty batches forever, as long as
  executing and committing an empty batch succeeds. The model returns the
  outcome `Spins` without consulting `exec`, so it leaves out an SQL
  failure on an empty batch.
- Writing the error workbook. Only its file name is modelled.
- `properties.load`, `showinfo`, every print, and every `System.exit` code.
- `Float.parseFloat` / `Double.parseDouble` are floating point. Their
  grammar is the predicate `isDecimal`.
- `JavaText.ParseInt`, `JavaText.ParseLong`: ASCII digits only. Java also
  accepts other Unicode digits.
- `JavaText.ToUpper`, `JavaText.ToLower`, `JavaText.EqualsIgnoreCase`:
  ASCII case mapping only. Java uses the Unicode tables.
- The iteration order of `Properties` and of the `HashMap` column map is
  unspecified in Java.
  - The model takes the properties as a sequence with distinct keys, in
    any order, and states its results for every order.
  - The fixed keys do not depend on the order. The `type`/`len` patches
    do: the later one wins.
- `Importer.Excel2MySQL.Init`: its ensures does not say that the
  `Mapping` objects are new.
  - Their newness is stated by `BuildMappings` and `CreateMappings`.
- `Importer.Excel2MySQL.Init` and `Importer.Excel2MySQL.LoadProperties`:
  these require distinct keys, as a `Properties` object has.
  - A `NumberFormatException` from `BULK_SIZE` is modelled as a failed
    load that leaves `dbMap` unbuilt.
- `dbMap` is null before `init`; the model starts it as the empty list.
  `isDb_Col` on a null list is modelled by `ColumnCache.IsDbCol` with
  `None`.
- The static `import_excel_cols` cache is one `ColumnCache` object shared
  by importers.
  - `Valid` requires the cache to be empty or to hold this importer's
    indices, as it does in a single run of the program.
- `getLastCellNum` is one past the last present cell, and -1 for a row
  without present cells. `getLastRowNum` is the last present row. Both
  follow POI's definitions; a row or sheet is otherwise given by its
  entries.
- `RowCheck.Truncate`, `RowCheck.CheckCell`: Java's `length` and
  `substring` count UTF-16 code units, the model counts Unicode scalar
  values. The cuts differ only for text outside the Basic Multilingual
  Plane. No verdict changes: the cut value is discarded, and the Boolean
  tokens are ASCII.
- The coerced `correctLine` of `rowToData` is built and discarded by the
  source.
  - The model computes its values in `CheckValue` and keeps them only
    inside the check loop.
- `System.currentTimeMillis()` is the parameter `now`.
- `Schema.SortSpecs`: `Collections.sort` is modelled as a stable sort with
  the sign-correct comparison, not with `compareTo`'s int subtraction.
  - For names of up to six capital letters the two agree
    (`Schema.CompareToAgrees`).
  - For longer names, or other chars, the subtraction can overflow. The
    JDK's sort may then order the mappings differently or throw
    `IllegalArgumentException`; the model does not capture that. The same
    holds for `Importer.Excel2MySQL.SortMappingObjects`.

## Findings

The model of the program follows the code as written. Each corrected
member states the evidently intended behaviour and is proved beside it.

| source | as written | input that shows it | evidently intended | confidence | as-written member | corrected member |
|---|---|---|---|---|---|---|
| src/com/waveconn/Mapping.java:63-66 | `toInt` folds `acc*26 + (c-'A')`, so 'A' is a zero digit | column "AA" gives 0, the index of column "A" (and "BA" gives 26, the index Excel gives "AA") | Excel's column numbering: A..Z are 0..25, AA is 26 | high (not executed) | ColumnMapping.ToIntAsWrittenCollides | ColumnMapping.ColumnIndexInjective |
| src/com/waveconn/Mapping.java:68-71 | `compareTo` returns the difference of the two indices, which overflows | indices 2147483647 and -1 (symbols "GYTISYX" and "@") compare as if the first were smaller | a comparison whose sign is the order of the indices | medium (not executed) | ColumnMapping.CompareAsWrittenOverflows | StableSort.CompareInts |
| src/com/waveconn/Excel2MySQL.java:390-391 | the stem of a ".xlsx" path is `split("[.]")[0]`, the text before the first dot | "./errors.xlsx" gives "_&lt;now&gt;.xlsx" and "data.v2.xlsx" gives "data_&lt;now&gt;.xlsx" | the path without its ".xlsx" extension, then the stamp | high (not executed) | Importer.ErrorFileNameAsWrittenLosesPath | Importer.ErrorFileNameRoundTrip |
