/**
 * The five column types the importer validates, and the three-letter codes
 * of the init file that select them (Type.java).
 */
module ColumnType {
  import opened JavaText

  datatype Type = Integer | Number | String | Date | Boolean

  /** Type.getType: the trimmed, upper-cased code looked up in a fixed table; anything else is STRING. */
  function GetType(code: string): (t: Type)
    ensures t == Integer <==> ToUpper(Trim(code)) == "INT"
    ensures t == Number <==> ToUpper(Trim(code)) == "NUM"
    ensures t == Date <==> ToUpper(Trim(code)) == "DAT"
    ensures t == Boolean <==> ToUpper(Trim(code)) == "BOO"
    ensures t == String <==> ToUpper(Trim(code)) !in {"INT", "NUM", "DAT", "BOO"}
  {
    CodeTable(ToUpper(Trim(code)))
  }

  function CodeTable(normalised: string): Type {
    match normalised
    case "INT" => Integer
    case "NUM" => Number
    case "STR" => String
    case "DAT" => Date
    case "BOO" => Boolean
    case _ => String
  }

  /** The lookup sees only the normalised code: GetType(s) == GetType(upper(trim(s))). */
  lemma GetTypeNormalised(code: string)
    ensures GetType(code) == GetType(ToUpper(Trim(code)))
  {
    var n := ToUpper(Trim(code));
    TrimUpper(Trim(code));
    TrimIdempotent(code);
    assert Trim(n) == n;
    ToUpperIdempotent(Trim(code));
    assert ToUpper(Trim(n)) == n;
  }

  /** Only a code of exactly three significant characters selects a type other than STRING. */
  lemma GetTypeNeedsThreeChars(code: string)
    ensures GetType(code) != String ==> |Trim(code)| == 3
  {
  }

  lemma UpperExamples()
    ensures ToUpper("int") == "INT"
    ensures ToUpper("Num") == "NUM"
    ensures ToUpper("dat") == "DAT"
  {
    assert ToUpper("int")[0] == 'I' && ToUpper("int")[1] == 'N' && ToUpper("int")[2] == 'T';
    assert ToUpper("Num")[0] == 'N' && ToUpper("Num")[1] == 'U' && ToUpper("Num")[2] == 'M';
    assert ToUpper("dat")[0] == 'D' && ToUpper("dat")[1] == 'A' && ToUpper("dat")[2] == 'T';
  }

  lemma GetTypeExamples()
    ensures GetType("int") == Integer
    ensures GetType("Num") == Number
    ensures GetType("dat") == Date
  {
    UpperExamples();
    GetTypeOfUntrimmedCode("int");
    GetTypeOfUntrimmedCode("Num");
    GetTypeOfUntrimmedCode("dat");
  }

  /** A code with no blanks at its ends is looked up upper-cased. */
  lemma GetTypeOfUntrimmedCode(code: string)
    requires code != [] && !IsTrimmable(code[0]) && !IsTrimmable(code[|code| - 1])
    ensures GetType(code) == CodeTable(ToUpper(code))
  {
    TrimNoop(code);
  }

  /** Surrounding blanks are ignored: " int " is INTEGER. */
  lemma GetTypeIgnoresBlanks()
    ensures GetType(" int ") == Integer
  {
    assert " int "[1..] == "int ";
    assert TrimStart(" int ") == "int ";
    assert "int "[..3] == "int";
    assert Trim(" int ") == "int";
    UpperExamples();
  }

  /** Full type names are not codes: "INTEGER" and "BOOL" give STRING. */
  lemma GetTypeFullNamesAreString()
    ensures GetType("INTEGER") == String
    ensures GetType("BOOL") == String
    ensures GetType("") == String
  {
    TrimNoop("INTEGER");
    assert Trim("INTEGER") == "INTEGER";
    assert |ToUpper("INTEGER")| == 7;
    TrimNoop("BOOL");
    assert Trim("BOOL") == "BOOL";
    assert |ToUpper("BOOL")| == 4;
    assert Trim("") == "";
    assert |ToUpper("")| == 0;
  }
}
