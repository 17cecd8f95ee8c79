/**
 * The parts of java.lang.String, Integer and Long that the importer relies on.
 * Where Java consults Unicode tables (case mapping, digits) the model keeps to ASCII.
 */
module JavaText {
  import opened Wrappers

  const IntMin: int := -0x8000_0000
  const IntMax: int := 0x7FFF_FFFF
  const LongMin: int := -0x8000_0000_0000_0000
  const LongMax: int := 0x7FFF_FFFF_FFFF_FFFF

  /** The two's-complement wrap-around of a Java `int` result. */
  function Wrap32(x: int): (r: int)
    ensures IntMin <= r <= IntMax
    ensures IntMin <= x <= IntMax ==> r == x
    ensures x == IntMax + 1 ==> r == IntMin
    ensures (x - r) % 0x1_0000_0000 == 0
  {
    var q := (x - IntMin) / 0x1_0000_0000;
    assert x - ((x - IntMin) % 0x1_0000_0000 + IntMin) == q * 0x1_0000_0000;
    (x - IntMin) % 0x1_0000_0000 + IntMin
  }

  /** Wrapping an intermediate result does not change the wrapped end result. */
  lemma WrapAddWrap(x: int, y: int)
    ensures Wrap32(Wrap32(x) + y) == Wrap32(x + y)
  {
    var q := (x - IntMin) / 0x1_0000_0000;
    assert Wrap32(x) + y - IntMin == (x + y - IntMin) - q * 0x1_0000_0000;
    ModSubMultiple(x + y - IntMin, q);
  }

  lemma ModSubMultiple(z: int, q: int)
    ensures (z - q * 0x1_0000_0000) % 0x1_0000_0000 == z % 0x1_0000_0000
  {
    var r := z % 0x1_0000_0000;
    var w := z - q * 0x1_0000_0000;
    var d := z / 0x1_0000_0000;
    assert w == (d - q) * 0x1_0000_0000 + r;
    var d2 := w / 0x1_0000_0000;
    var r2 := w % 0x1_0000_0000;
    assert w == d2 * 0x1_0000_0000 + r2;
    assert (d - q - d2) * 0x1_0000_0000 == r2 - r;
  }

  // ---------------------------------------------------------------------------
  // String.trim

  /** String.trim drops every leading and trailing char whose code is at most U+0020. */
  predicate IsTrimmable(c: char) {
    c <= ' '
  }

  function TrimStart(s: string): (r: string)
    ensures |r| <= |s| && r == s[|s| - |r|..]
    ensures forall i :: 0 <= i < |s| - |r| ==> IsTrimmable(s[i])
    ensures r == [] || !IsTrimmable(r[0])
  {
    if s != [] && IsTrimmable(s[0]) then TrimStart(s[1..]) else s
  }

  function TrimEnd(s: string): (r: string)
    ensures |r| <= |s| && r == s[..|r|]
    ensures forall i :: |r| <= i < |s| ==> IsTrimmable(s[i])
    ensures r == [] || !IsTrimmable(r[|r| - 1])
  {
    if s != [] && IsTrimmable(s[|s| - 1]) then TrimEnd(s[..|s| - 1]) else s
  }

  function Trim(s: string): (r: string)
    ensures |r| <= |s|
    ensures r == [] || (!IsTrimmable(r[0]) && !IsTrimmable(r[|r| - 1]))
    ensures var a := |s| - |TrimStart(s)|; a + |r| <= |s| && r == s[a..a + |r|]
    ensures forall i :: |s| - |TrimStart(s)| + |r| <= i < |s| ==> IsTrimmable(s[i])
  {
    var t := TrimStart(s);
    var r := TrimEnd(t);
    PrefixOfSuffix(s, t, r);
    r
  }

  /** A prefix r of a suffix t of s, followed in t by trimmable chars only, is a slice of s followed by them. */
  lemma PrefixOfSuffix(s: string, t: string, r: string)
    requires |t| <= |s| && t == s[|s| - |t|..]
    requires |r| <= |t| && r == t[..|r|]
    requires forall j :: |r| <= j < |t| ==> IsTrimmable(t[j])
    ensures var a := |s| - |t|; r == s[a..a + |r|] && forall i :: a + |r| <= i < |s| ==> IsTrimmable(s[i])
  {
    var a := |s| - |t|;
    forall i | a + |r| <= i < |s|
      ensures IsTrimmable(s[i])
    {
      assert s[i] == t[i - a];
    }
  }

  /** Trimming a string whose ends are not trimmable changes nothing. */
  lemma TrimNoop(s: string)
    requires s == [] || (!IsTrimmable(s[0]) && !IsTrimmable(s[|s| - 1]))
    ensures Trim(s) == s
  {
  }

  lemma TrimIdempotent(s: string)
    ensures Trim(Trim(s)) == Trim(s)
  {
    TrimNoop(Trim(s));
  }

  // ---------------------------------------------------------------------------
  // Case mapping (ASCII part of String.toUpperCase / toLowerCase)

  function UpperChar(c: char): char {
    if 'a' <= c <= 'z' then (c as int - 32) as char else c
  }

  function LowerChar(c: char): char {
    if 'A' <= c <= 'Z' then (c as int + 32) as char else c
  }

  function ToUpper(s: string): (r: string)
    ensures |r| == |s|
    ensures forall i :: 0 <= i < |s| ==> r[i] == UpperChar(s[i])
  {
    seq(|s|, i requires 0 <= i < |s| => UpperChar(s[i]))
  }

  function ToLower(s: string): (r: string)
    ensures |r| == |s|
    ensures forall i :: 0 <= i < |s| ==> r[i] == LowerChar(s[i])
  {
    seq(|s|, i requires 0 <= i < |s| => LowerChar(s[i]))
  }

  /** String.equalsIgnoreCase, for ASCII letters. */
  predicate EqualsIgnoreCase(a: string, b: string) {
    ToUpper(a) == ToUpper(b)
  }

  lemma ToUpperIdempotent(s: string)
    ensures ToUpper(ToUpper(s)) == ToUpper(s)
  {
  }

  lemma ToUpperSlice(s: string, i: int, j: int)
    requires 0 <= i <= j <= |s|
    ensures ToUpper(s[i..j]) == ToUpper(s)[i..j]
  {
  }

  /** Case mapping never turns a trimmable char into another one, nor the reverse. */
  lemma UpperCharTrimmable(c: char)
    ensures IsTrimmable(UpperChar(c)) == IsTrimmable(c)
  {
  }

  /** Upper-casing and trimming commute. */
  lemma {:induction false} TrimStartUpper(s: string)
    ensures TrimStart(ToUpper(s)) == ToUpper(TrimStart(s))
    decreases |s|
  {
    var u := ToUpper(s);
    if s != [] {
      UpperCharTrimmable(s[0]);
      if IsTrimmable(s[0]) {
        assert IsTrimmable(u[0]);
        ToUpperSlice(s, 1, |s|);
        assert u[1..] == ToUpper(s[1..]);
        TrimStartUpper(s[1..]);
      } else {
        assert !IsTrimmable(u[0]);
      }
    }
  }

  lemma {:induction false} TrimEndUpper(s: string)
    ensures TrimEnd(ToUpper(s)) == ToUpper(TrimEnd(s))
    decreases |s|
  {
    var u := ToUpper(s);
    if s != [] {
      UpperCharTrimmable(s[|s| - 1]);
      if IsTrimmable(s[|s| - 1]) {
        assert IsTrimmable(u[|u| - 1]);
        ToUpperSlice(s, 0, |s| - 1);
        assert u[..|u| - 1] == ToUpper(s[..|s| - 1]);
        TrimEndUpper(s[..|s| - 1]);
      } else {
        assert !IsTrimmable(u[|u| - 1]);
      }
    }
  }

  lemma TrimUpper(s: string)
    ensures Trim(ToUpper(s)) == ToUpper(Trim(s))
  {
    TrimStartUpper(s);
    TrimEndUpper(TrimStart(s));
  }

  // ---------------------------------------------------------------------------
  // String.split("[_.]")

  predicate IsSeparator(c: char) {
    c == '_' || c == '.'
  }

  function SeparatorCount(s: string): (n: nat)
    ensures n == 0 <==> forall i :: 0 <= i < |s| ==> !IsSeparator(s[i])
  {
    if s == [] then 0 else (if IsSeparator(s[0]) then 1 else 0) + SeparatorCount(s[1..])
  }

  /** A text with no separator in it. */
  predicate NoSeparator(t: string) {
    forall i :: 0 <= i < |t| ==> !IsSeparator(t[i])
  }

  function WithoutSeparators(s: string): string {
    if s == [] then [] else (if IsSeparator(s[0]) then [] else [s[0]]) + WithoutSeparators(s[1..])
  }

  function Concat(ts: seq<string>): string {
    if ts == [] then [] else ts[0] + Concat(ts[1..])
  }

  /**
   * Every piece between two separators, empty pieces included: one more piece
   * than there are separators, no piece holds a separator, and the pieces put
   * back together give the text with its separators removed.
   */
  function Pieces(s: string): (r: seq<string>)
    ensures |r| == SeparatorCount(s) + 1
    ensures forall i :: 0 <= i < |r| ==> NoSeparator(r[i])
    ensures Concat(r) == WithoutSeparators(s)
  {
    if s == [] then [""]
    else
      var rest := Pieces(s[1..]);
      if IsSeparator(s[0]) then
        assert Concat([""] + rest) == "" + Concat(rest);
        var r := [""] + rest;
        assert forall i :: 0 < i < |r| ==> r[i] == rest[i - 1];
        r
      else
        PrependChar(s[0], rest)
  }

  /** A character that is not a separator joins the first piece. */
  function PrependChar(c: char, ts: seq<string>): (r: seq<string>)
    requires ts != [] && !IsSeparator(c)
    requires forall i :: 0 <= i < |ts| ==> NoSeparator(ts[i])
    ensures |r| == |ts|
    ensures forall i :: 0 <= i < |r| ==> NoSeparator(r[i])
    ensures Concat(r) == [c] + Concat(ts)
  {
    var r := [[c] + ts[0]] + ts[1..];
    assert Concat(ts) == ts[0] + Concat(ts[1..]);
    assert r[1..] == ts[1..];
    assert ([c] + ts[0]) + Concat(ts[1..]) == [c] + (ts[0] + Concat(ts[1..]));
    assert NoSeparator(r[0]) by {
      assert NoSeparator(ts[0]);
      assert forall j :: 0 < j < |r[0]| ==> r[0][j] == ts[0][j - 1];
    }
    assert forall i :: 0 < i < |r| ==> r[i] == ts[i];
    r
  }

  /** What Java's split does with a limit of zero: trailing empty strings are removed. */
  function DropTrailingEmpty(ts: seq<string>): (r: seq<string>)
    ensures |r| <= |ts| && r == ts[..|r|]
    ensures r == [] || r[|r| - 1] != ""
    ensures forall i :: |r| <= i < |ts| ==> ts[i] == ""
  {
    if ts != [] && ts[|ts| - 1] == "" then DropTrailingEmpty(ts[..|ts| - 1]) else ts
  }

  /**
   * key.split("[_.]"): a text without separator is returned whole (even when
   * empty); otherwise the pieces, leading empty pieces kept, trailing ones dropped.
   */
  function Split(s: string): (r: seq<string>)
    ensures SeparatorCount(s) == 0 ==> r == [s]
    ensures SeparatorCount(s) > 0 ==>
      |r| <= |Pieces(s)| && r == Pieces(s)[..|r|] && (r == [] || r[|r| - 1] != "") &&
      forall i :: |r| <= i < |Pieces(s)| ==> Pieces(s)[i] == ""
    ensures forall i :: 0 <= i < |r| ==> NoSeparator(r[i])
  {
    if SeparatorCount(s) == 0 then [s]
    else DropTrailingEmpty(Pieces(s))
  }

  /** A separator-free prefix is a piece of its own. */
  lemma {:induction false} PiecesAfterWord(w: string, rest: string)
    requires SeparatorCount(w) == 0
    ensures Pieces(w + rest) == [w + Pieces(rest)[0]] + Pieces(rest)[1..]
    decreases |w|
  {
    if w != [] {
      assert (w + rest)[1..] == w[1..] + rest;
      PiecesAfterWord(w[1..], rest);
      assert [w[0]] + (w[1..] + Pieces(rest)[0]) == w + Pieces(rest)[0];
    } else {
      assert w + rest == rest;
      assert w + Pieces(rest)[0] == Pieces(rest)[0];
      assert [Pieces(rest)[0]] + Pieces(rest)[1..] == Pieces(rest);
    }
  }

  lemma PiecesOfWord(w: string)
    requires SeparatorCount(w) == 0
    ensures Pieces(w) == [w]
  {
    PiecesAfterWord(w, "");
    assert w + "" == w;
  }

  lemma PiecesWordThenSeparator(w: string, sep: char, rest: string)
    requires SeparatorCount(w) == 0 && IsSeparator(sep)
    ensures Pieces(w + [sep] + rest) == [w] + Pieces(rest)
  {
    assert w + [sep] + rest == w + ([sep] + rest);
    PiecesAfterWord(w, [sep] + rest);
    assert ([sep] + rest)[1..] == rest;
    assert w + "" == w;
  }

  /** With a separator and a last piece that is not empty, split gives every piece. */
  lemma SplitAllPieces(s: string, k: nat)
    requires k < |s| && IsSeparator(s[k]) && Pieces(s)[|Pieces(s)| - 1] != ""
    ensures Split(s) == Pieces(s)
  {
  }

  /** Either separator may be used: "COL_A" and "col.a" both give two tokens. */
  lemma SplitTwoTokens(w: string, sep: char, x: string)
    requires SeparatorCount(w) == 0 && SeparatorCount(x) == 0 && IsSeparator(sep) && x != ""
    ensures Split(w + [sep] + x) == [w, x]
  {
    PiecesOfWord(x);
    PiecesWordThenSeparator(w, sep, x);
    assert [w] + [x] == [w, x];
    assert (w + [sep] + x)[|w|] == sep;
    SplitAllPieces(w + [sep] + x, |w|);
  }

  lemma SplitThreeTokens(w: string, s1: char, x: string, s2: char, y: string)
    requires SeparatorCount(w) == 0 && SeparatorCount(x) == 0 && SeparatorCount(y) == 0
    requires IsSeparator(s1) && IsSeparator(s2) && y != ""
    ensures Split(w + [s1] + x + [s2] + y) == [w, x, y]
  {
    ThreePieces(w, s1, x, s2, y);
    SplitAllPieces(w + [s1] + x + [s2] + y, |w|);
  }

  lemma ThreePieces(w: string, s1: char, x: string, s2: char, y: string)
    requires SeparatorCount(w) == 0 && SeparatorCount(x) == 0 && SeparatorCount(y) == 0
    requires IsSeparator(s1) && IsSeparator(s2)
    ensures |w| < |w + [s1] + x + [s2] + y| && (w + [s1] + x + [s2] + y)[|w|] == s1
    ensures Pieces(w + [s1] + x + [s2] + y) == [w, x, y]
  {
    PiecesOfWord(y);
    PiecesWordThenSeparator(x, s2, y);
    Regroup(w, s1, x, s2, y);
    PiecesWordThenSeparator(w, s1, x + [s2] + y);
    assert [w] + ([x] + [y]) == [w, x, y];
  }

  lemma Regroup(w: string, s1: char, x: string, s2: char, y: string)
    ensures w + [s1] + x + [s2] + y == w + [s1] + (x + [s2] + y)
  {
  }

  lemma SplitTwoTokensExamples()
    ensures Split("COL_A") == ["COL", "A"]
    ensures Split("col.a") == ["col", "a"]
  {
    SplitTwoTokens("COL", '_', "A");
    assert "COL_A" == "COL" + ['_'] + "A";
    SplitTwoTokens("col", '.', "a");
    assert "col.a" == "col" + ['.'] + "a";
  }

  /** With a separator and exactly one trailing empty piece, split drops that piece. */
  lemma SplitDropsOneEmpty(s: string, k: nat)
    requires k < |s| && IsSeparator(s[k])
    requires |Pieces(s)| >= 2 && Pieces(s)[|Pieces(s)| - 1] == "" && Pieces(s)[|Pieces(s)| - 2] != ""
    ensures Split(s) == Pieces(s)[..|Pieces(s)| - 1]
  {
    var p := Pieces(s);
    assert p[..|p| - 1][|p| - 2] == p[|p| - 2];
  }

  lemma PiecesWithTrailingSeparator()
    ensures Pieces("COL_A_") == ["COL", "A", ""]
  {
    PiecesWordThenSeparator("A", '_', "");
    assert "A_" == "A" + ['_'] + "";
    PiecesWordThenSeparator("COL", '_', "A_");
    assert "COL_A_" == "COL" + ['_'] + "A_";
  }

  /** Trailing empty pieces are dropped: "COL_A_" has two tokens, not three. */
  lemma SplitDropsTrailingEmpty()
    ensures Split("COL_A_") == ["COL", "A"]
  {
    PiecesWithTrailingSeparator();
    SplitDropsOneEmpty("COL_A_", 3);
    assert ["COL", "A", ""][..2] == ["COL", "A"];
  }

  /** A leading separator gives a leading empty token, which is kept. */
  lemma SplitKeepsLeadingEmpty()
    ensures Split("_COL_A") == ["", "COL", "A"]
  {
    SplitThreeTokens("", '_', "COL", '_', "A");
    assert "_COL_A" == "" + ['_'] + "COL" + ['_'] + "A";
  }

  /** Without separator the text comes back whole, even when empty; separators alone give nothing. */
  lemma SplitDegenerate()
    ensures Split("") == [""]
    ensures Split("COL") == ["COL"]
    ensures Split("_") == []
  {
    assert Split("COL") == ["COL"] by {
      assert forall i :: 0 <= i < |"COL"| ==> !IsSeparator("COL"[i]);
    }
    assert Split("_") == [] by {
      assert "_"[1..] == "";
      assert Pieces("_") == ["", ""];
      assert DropTrailingEmpty(["", ""]) == [] by {
        assert ["", ""][..1] == [""];
        assert [""][..0] == [];
      }
    }
  }

  // ---------------------------------------------------------------------------
  // Integer.parseInt / Long.parseLong (ASCII digits)

  predicate IsDigit(c: char) {
    '0' <= c <= '9'
  }

  predicate AllDigits(s: string) {
    forall i :: 0 <= i < |s| ==> IsDigit(s[i])
  }

  function DigitsValue(s: string): nat
    requires AllDigits(s)
  {
    if s == [] then 0 else DigitsValue(s[..|s| - 1]) * 10 + (s[|s| - 1] as int - '0' as int)
  }

  /** A Java decimal integer: an optional '+' or '-', then at least one digit, nothing else. */
  function ParseDecimal(s: string): Option<int> {
    if |s| > 1 && (s[0] == '-' || s[0] == '+') && AllDigits(s[1..]) then
      var magnitude: int := DigitsValue(s[1..]);
      Some(if s[0] == '-' then -magnitude else magnitude)
    else if s != [] && AllDigits(s) then
      Some(DigitsValue(s))
    else
      None
  }

  /** Integer.parseInt: a decimal integer that fits in 32 bits, else NumberFormatException (None). */
  function ParseInt(s: string): (r: Option<int>)
    ensures r.Some? ==> IntMin <= r.value <= IntMax && ParseDecimal(s) == r
    ensures r.None? ==> ParseDecimal(s).None? || ParseDecimal(s).value < IntMin || IntMax < ParseDecimal(s).value
  {
    match ParseDecimal(s)
    case Some(n) => if IntMin <= n <= IntMax then Some(n) else None
    case None => None
  }

  /** Long.parseLong: a decimal integer that fits in 64 bits, else NumberFormatException (None). */
  function ParseLong(s: string): (r: Option<int>)
    ensures r.Some? ==> LongMin <= r.value <= LongMax && ParseDecimal(s) == r
    ensures r.None? ==> ParseDecimal(s).None? || ParseDecimal(s).value < LongMin || LongMax < ParseDecimal(s).value
    ensures ParseInt(s).Some? ==> r == ParseInt(s)
  {
    match ParseDecimal(s)
    case Some(n) => if LongMin <= n <= LongMax then Some(n) else None
    case None => None
  }

  /** Integer.toString / Long.toString, the partner of ParseDecimal. */
  function DecimalDigits(n: nat): (r: string)
    ensures r != [] && AllDigits(r)
  {
    if n < 10 then [('0' as int + n) as char]
    else DecimalDigits(n / 10) + [('0' as int + n % 10) as char]
  }

  function ToDecimal(n: int): string {
    if n < 0 then "-" + DecimalDigits(-n) else DecimalDigits(n)
  }

  lemma {:induction false} DecimalDigitsValue(n: nat)
    ensures DigitsValue(DecimalDigits(n)) == n
  {
    if n >= 10 {
      var d := DecimalDigits(n);
      assert d[..|d| - 1] == DecimalDigits(n / 10);
      DecimalDigitsValue(n / 10);
    }
  }

  /** Every integer printed in decimal parses back to itself. */
  lemma ParseToDecimal(n: int)
    ensures ParseDecimal(ToDecimal(n)) == Some(n)
  {
    if n < 0 {
      var d := DecimalDigits(-n);
      DecimalDigitsValue(-n);
      assert ToDecimal(n) == "-" + d;
      assert ("-" + d)[1..] == d;
      assert !IsDigit('-');
    } else {
      var d := DecimalDigits(n);
      DecimalDigitsValue(n);
      assert IsDigit(d[0]);
    }
  }
}
