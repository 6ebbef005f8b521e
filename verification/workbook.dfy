/**
  The pure parts of `write_excel`: the rows of the Standings sheet, whose
  totals are SUM formulas over the Points sheet, and the column-width rule
  applied to every sheet. Opening, saving and styling the workbook are not
  modelled; the sheet column letters are supplied by the caller.
*/
module Workbook {
  import opened Wrappers
  import opened Decimal
  import opened Tables

  const Header: seq<string> := ["Player", "Total Points"]

  /** The formula summing rows 2 to `rounds + 1` of column `col` on the Points sheet. */
  function SumFormula(column: string, rounds: nat): (f: string)
    ensures IsColumnName(column) ==>
      ParseSumFormula(f) == Some(CellRange("Points", column, 2, rounds + 1))
  {
    var f := SumText(column, rounds);
    assert IsColumnName(column) ==> ParseSumFormula(f) == Some(CellRange("Points", column, 2, rounds + 1)) by {
      if IsColumnName(column) {
        SumTextReadsBack(column, rounds);
      }
    }
    f
  }

  function SumText(column: string, rounds: nat): string {
    "=SUM(Points!" + column + "2" + ":" + column + NatToString(rounds + 1) + ")"
  }

  /**
    The Standings sheet: the header row, then for each column of the points
    frame (each player, in order) the player and the formula totalling that
    player's column. `letters[k]` is the sheet letter of the points frame's
    column `k` (sheet column `k + 2`, after the index column).
  */
  function StandingsRows(points: Frame, letters: seq<string>): (rows: seq<seq<string>>)
    requires |letters| == |points.columns|
    ensures |rows| == |points.columns| + 1 && rows[0] == Header
    ensures forall k :: 0 <= k < |points.columns| ==>
      |rows[k + 1]| == 2 && rows[k + 1][0] == points.columns[k]
      && rows[k + 1][1] == SumFormula(letters[k], |points.index|)
  {
    [Header] + seq(|points.columns|, k requires 0 <= k < |points.columns| =>
      [points.columns[k], SumFormula(letters[k], |points.index|)])
  }

  /** A rectangular range of one column on one sheet, rows `first` to `last`. */
  datatype CellRange = CellRange(sheet: string, column: string, first: nat, last: nat)

  predicate IsUpper(c: char) {
    'A' <= c <= 'Z'
  }

  /** A spreadsheet column name such as "B" or "AA". */
  predicate IsColumnName(s: string) {
    |s| > 0 && forall i :: 0 <= i < |s| ==> IsUpper(s[i])
  }

  /** Number of leading upper-case letters. */
  function LetterPrefix(s: string): (k: nat)
    ensures k <= |s|
    ensures forall i :: 0 <= i < k ==> IsUpper(s[i])
    ensures k < |s| ==> !IsUpper(s[k])
  {
    if s == [] || !IsUpper(s[0]) then 0 else 1 + LetterPrefix(s[1..])
  }

  /** Position of the first `c` in `s`. */
  function Find(s: string, c: char): (r: Option<nat>)
    ensures r.Some? ==> r.value < |s| && s[r.value] == c && c !in s[..r.value]
    ensures r.None? ==> c !in s
  {
    if s == [] then None
    else if s[0] == c then Some(0)
    else match Find(s[1..], c)
      case None => None
      case Some(i) => assert s[..i + 1] == [s[0]] + s[1..][..i]; Some(i + 1)
  }

  /** Reads a cell reference such as "AB12" as its column and row. */
  function ParseCellRef(s: string): Option<(string, nat)> {
    var k := LetterPrefix(s);
    if k == 0 || k == |s| || !AllDigits(s[k..]) then None else Some((s[..k], ParseNat(s[k..])))
  }

  /** Reads "<col><row>:<col><row>" as a column and its first and last rows. */
  function ParseRange(range: string): Option<(string, nat, nat)> {
    match Find(range, ':')
    case None => None
    case Some(colon) =>
      match (ParseCellRef(range[..colon]), ParseCellRef(range[colon + 1..]))
      case (Some(from), Some(to)) => if from.0 == to.0 then Some((from.0, from.1, to.1)) else None
      case _ => None
  }

  /** Reads "<sheet>!<range>". */
  function ParseSheetRange(body: string): Option<CellRange> {
    match Find(body, '!')
    case None => None
    case Some(bang) =>
      match ParseRange(body[bang + 1..])
      case None => None
      case Some(r) => Some(CellRange(body[..bang], r.0, r.1, r.2))
  }

  /** Reads "=SUM(<sheet>!<col><row>:<col><row>)" as the range it totals. */
  function ParseSumFormula(f: string): Option<CellRange> {
    if |f| < 6 || f[..5] != "=SUM(" || f[|f| - 1] != ')' then None
    else ParseSheetRange(f[5..|f| - 1])
  }

  lemma {:induction false} FindAfter(a: string, c: char, b: string)
    requires c !in a
    ensures Find(a + [c] + b, c) == Some(|a|)
    decreases |a|
  {
    if a != [] {
      assert (a + [c] + b)[1..] == a[1..] + [c] + b;
      FindAfter(a[1..], c, b);
    }
  }

  /** The letters of a column name end where its row number begins. */
  lemma {:induction false} LetterPrefixOf(column: string, digits: string)
    requires forall i :: 0 <= i < |column| ==> IsUpper(column[i])
    requires |digits| > 0 && IsDigit(digits[0])
    ensures LetterPrefix(column + digits) == |column|
    decreases |column|
  {
    if column != [] {
      assert (column + digits)[1..] == column[1..] + digits;
      LetterPrefixOf(column[1..], digits);
    }
  }

  /** A column name followed by a row number reads back as that cell. */
  lemma ParseCellRefOf(column: string, row: nat)
    requires IsColumnName(column)
    ensures ParseCellRef(column + NatToString(row)) == Some((column, row))
  {
    var s := column + NatToString(row);
    LetterPrefixOf(column, NatToString(row));
    assert s[..|column|] == column;
    assert s[|column|..] == NatToString(row);
    ParseNatToString(row);
  }

  lemma ParseSumOfBody(body: string)
    ensures ParseSumFormula("=SUM(" + body + ")") == ParseSheetRange(body)
  {
    var f := "=SUM(" + body + ")";
    assert f[..5] == "=SUM(" && f[5..|f| - 1] == body;
  }

  lemma SplitAt(a: string, c: char, b: string)
    ensures (a + [c] + b)[..|a|] == a && (a + [c] + b)[|a| + 1..] == b
  {
  }

  lemma ParseRangeOf(from: string, to: string, column: string, first: nat, last: nat)
    requires ':' !in from
    requires ParseCellRef(from) == Some((column, first)) && ParseCellRef(to) == Some((column, last))
    ensures ParseRange(from + ":" + to) == Some((column, first, last))
  {
    FindAfter(from, ':', to);
    SplitAt(from, ':', to);
  }

  lemma ParseSheetRangeOf(sheet: string, range: string, column: string, first: nat, last: nat)
    requires '!' !in sheet && ParseRange(range) == Some((column, first, last))
    ensures ParseSheetRange(sheet + "!" + range) == Some(CellRange(sheet, column, first, last))
  {
    FindAfter(sheet, '!', range);
    SplitAt(sheet, '!', range);
  }

  /** A SUM over a range of two references to one column reads back as that range. */
  lemma ParseSumFormulaOf(sheet: string, from: string, to: string, column: string, first: nat, last: nat)
    requires '!' !in sheet && ':' !in from
    requires ParseCellRef(from) == Some((column, first)) && ParseCellRef(to) == Some((column, last))
    ensures ParseSumFormula("=SUM(" + sheet + "!" + from + ":" + to + ")") == Some(CellRange(sheet, column, first, last))
  {
    var range := from + ":" + to;
    var body := sheet + "!" + range;
    ParseRangeOf(from, to, column, first, last);
    ParseSheetRangeOf(sheet, range, column, first, last);
    ParseSumOfBody(body);
    FormulaParts(sheet, from, to);
  }

  lemma FormulaParts(sheet: string, from: string, to: string)
    ensures "=SUM(" + sheet + "!" + from + ":" + to + ")" == "=SUM(" + (sheet + "!" + (from + ":" + to)) + ")"
  {
  }

  /** No reference of a column name and digits contains a colon. */
  lemma NoColonInRef(column: string, row: nat)
    requires IsColumnName(column)
    ensures ':' !in column + NatToString(row)
  {
    var s := column + NatToString(row);
    forall i | 0 <= i < |s|
      ensures s[i] != ':'
    {
      if i < |column| {
        assert s[i] == column[i];
      } else {
        assert s[i] == NatToString(row)[i - |column|];
      }
    }
  }

  /** The text of the totalling formula reads back as the range it was built from. */
  lemma SumTextReadsBack(column: string, rounds: nat)
    requires IsColumnName(column)
    ensures ParseSumFormula(SumText(column, rounds)) == Some(CellRange("Points", column, 2, rounds + 1))
  {
    var from, to := column + "2", column + NatToString(rounds + 1);
    assert NatToString(2) == "2";
    ParseCellRefOf(column, 2);
    ParseCellRefOf(column, rounds + 1);
    NoColonInRef(column, 2);
    assert SumText(column, rounds) == "=SUM(" + "Points" + "!" + from + ":" + to + ")";
    ParseSumFormulaOf("Points", from, to, column, 2, rounds + 1);
  }

  /**
    Every total in the Standings sheet sums its player's column over sheet
    rows 2 to R + 1, where R is the number of rounds: the rows just below the
    header row of the Points sheet.
  */
  lemma StandingsSumRoundRows(points: Frame, letters: seq<string>, k: nat)
    requires |letters| == |points.columns| && k < |points.columns| && IsColumnName(letters[k])
    ensures ParseSumFormula(StandingsRows(points, letters)[k + 1][1])
      == Some(CellRange("Points", letters[k], 2, |points.index| + 1))
  {
  }

  /**
    A player's column on the Points sheet: row 1 is the header, row `k + 2`
    holds round `k + 1`. SUM reads the header and blank cells as 0.
  */
  function SheetValue(scores: seq<int>, row: nat): int {
    if 2 <= row < |scores| + 2 then scores[row - 2] else 0
  }

  /** What `=SUM(col{first}:col{last})` evaluates to on that column. */
  function SumRows(scores: seq<int>, first: nat, last: nat): int
    requires 1 <= first
    decreases last + 1 - first
  {
    if last < first then 0 else SumRows(scores, first, last - 1) + SheetValue(scores, last)
  }

  function Sum(scores: seq<int>): int {
    if scores == [] then 0 else Sum(scores[..|scores| - 1]) + scores[|scores| - 1]
  }

  lemma {:induction false} SumRowsPrefix(scores: seq<int>, j: nat)
    requires j <= |scores|
    ensures SumRows(scores, 2, j + 1) == Sum(scores[..j])
  {
    if j > 0 {
      SumRowsPrefix(scores, j - 1);
      assert scores[..j][..j - 1] == scores[..j - 1];
    }
  }

  /**
    The Standings total of a player equals the sum of the points entered in
    that player's column, whatever they are.
  */
  lemma StandingsTotalIsColumnSum(scores: seq<int>)
    ensures SumRows(scores, 2, |scores| + 1) == Sum(scores)
  {
    SumRowsPrefix(scores, |scores|);
    assert scores[..|scores|] == scores;
  }

  /**
    Evaluated on the player's column, the formula in a Standings row totals
    exactly the points entered for that player in every round.
  */
  lemma StandingsRowTotalsPlayer(points: Frame, letters: seq<string>, k: nat, scores: seq<int>)
    requires |letters| == |points.columns| && k < |points.columns| && IsColumnName(letters[k])
    requires |scores| == |points.index|
    ensures ParseSumFormula(StandingsRows(points, letters)[k + 1][1]).Some?
    ensures var c := ParseSumFormula(StandingsRows(points, letters)[k + 1][1]).value;
      c.first >= 1 && SumRows(scores, c.first, c.last) == Sum(scores)
  {
    StandingsSumRoundRows(points, letters, k);
    StandingsTotalIsColumnSum(scores);
  }

  /** Two characters of padding over the longest text, clamped to 12..40. */
  function WidthFor(length: nat): (w: nat)
    ensures 12 <= w <= 40
    ensures 10 <= length <= 38 ==> w == length + 2
    ensures length < 10 ==> w == 12
    ensures length > 38 ==> w == 40
  {
    var padded := if 12 < length + 2 then length + 2 else 12;
    if padded < 40 then padded else 40
  }

  /** The length of a cell's text; an empty cell counts as 0. */
  function TextLength(cell: Option<string>): (n: nat)
    ensures n == 0 <==> cell.None? || cell.value == ""
    ensures cell.Some? ==> n == |cell.value|
  {
    match cell
    case None => 0
    case Some(text) => |text|
  }

  /** The longest cell text of a column (`max` over a non-empty column). */
  function LongestText(column: seq<Option<string>>): (n: nat)
    requires |column| > 0
    ensures forall i :: 0 <= i < |column| ==> TextLength(column[i]) <= n
    ensures exists i :: 0 <= i < |column| && TextLength(column[i]) == n
  {
    if |column| == 1 then TextLength(column[0])
    else
      var rest := LongestText(column[1..]);
      if TextLength(column[0]) < rest then rest else TextLength(column[0])
  }

  /**
    Display width of one column: wide enough for its longest text plus a
    margin of two, but never below 12 and never above 40.
  */
  function ColumnWidth(column: seq<Option<string>>): (w: nat)
    requires |column| > 0
    ensures 12 <= w <= 40
    ensures forall i :: 0 <= i < |column| ==> TextLength(column[i]) + 2 <= w || w == 40
    ensures w == 12 || w == 40 || exists i :: 0 <= i < |column| && w == TextLength(column[i]) + 2
    ensures forall i :: 0 <= i < |column| ==> WidthFor(TextLength(column[i])) <= w
    ensures exists i :: 0 <= i < |column| && w == WidthFor(TextLength(column[i]))
  {
    WidthFor(LongestText(column))
  }

  /** The width of every column of one sheet, each computed on its own. */
  function SheetWidths(columns: seq<seq<Option<string>>>): (ws: seq<nat>)
    requires forall c :: 0 <= c < |columns| ==> |columns[c]| > 0
    ensures |ws| == |columns|
    ensures forall c :: 0 <= c < |columns| ==> 12 <= ws[c] <= 40
    ensures forall c :: 0 <= c < |columns| ==> ws[c] == ColumnWidth(columns[c])
  {
    seq(|columns|, c requires 0 <= c < |columns| => ColumnWidth(columns[c]))
  }

  /** Monotone: a column with longer text is never narrower. */
  lemma WidthMonotone(a: nat, b: nat)
    requires a <= b
    ensures WidthFor(a) <= WidthFor(b)
  {
  }
}
