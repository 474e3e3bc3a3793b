/** The Markdown scorecard table (`build_scorecard_text`). */
module Scorecard {
  import opened Text
  import opened Records

  /** The tables on which the source's indexing succeeds: at least one judge,
      every table has a row, and no judge has more round rows than judge 0
      (whose table sizes the list of round rows). */
  predicate WellShaped(tables: seq<ScoreTable>) {
    && |tables| >= 1
    && (forall i :: 0 <= i < |tables| ==> |tables[i].rows| >= 1)
    && (forall i :: 0 <= i < |tables| ==>
          |tables[i].rows| <= 2 || |tables[i].rows| <= |tables[0].rows|)
  }

  /** `len(score_tables[0][1]) - 2` round rows (none when that is negative). */
  function RoundCount(tables: seq<ScoreTable>): nat
    requires |tables| >= 1
  {
    if |tables[0].rows| >= 2 then |tables[0].rows| - 2 else 0
  }

  /** Judge 0's column labels, repeated for every judge. */
  function HeaderCells(tables: seq<ScoreTable>): (cells: seq<string>)
    requires WellShaped(tables)
    ensures |cells| == |tables|
  {
    var labels := tables[0].rows[0];
    seq(|tables|, i => "|" + labels.left + "|" + labels.right)
  }

  function HeaderRow(tables: seq<ScoreTable>): string
    requires WellShaped(tables)
  {
    "ROUND" + Concat(Separated(HeaderCells(tables), "|"))
  }

  function AlignPieces(n: nat): (pieces: seq<string>)
    ensures |pieces| == n
  {
    seq(n, i => "|:-:|:-:|:-:")
  }

  function AlignRow(n: nat): string {
    ":-:" + Concat(AlignPieces(n))
  }

  /** Row `k + 1` of the table is one of its round rows. */
  predicate HasRound(t: ScoreTable, k: nat) {
    k + 1 < |t.rows| - 1
  }

  /** What judge `i` adds to round row `k`. */
  function RoundPiece(tables: seq<ScoreTable>, i: nat, k: nat): string
    requires i < |tables|
  {
    if HasRound(tables[i], k) then
      var row := tables[i].rows[k + 1];
      "|" + row.left + "|" + row.right + (if i != |tables| - 1 then "|" else "")
    else ""
  }

  function RoundPieces(tables: seq<ScoreTable>, k: nat): (pieces: seq<string>)
    ensures |pieces| == |tables|
  {
    seq(|tables|, i requires 0 <= i < |tables| => RoundPiece(tables, i, k))
  }

  /** Round `k` (0-based): judge 0's round number, then every judge's cells. */
  function RoundRow(tables: seq<ScoreTable>, k: nat): string
    requires WellShaped(tables) && k < RoundCount(tables)
  {
    tables[0].rows[k + 1].round + Concat(RoundPieces(tables, k))
  }

  /** Every judge's last entry, bolded. */
  function TotalCells(tables: seq<ScoreTable>): (cells: seq<string>)
    requires WellShaped(tables)
    ensures |cells| == |tables|
  {
    seq(|tables|, i requires 0 <= i < |tables| =>
      var last := tables[i].rows[|tables[i].rows| - 1];
      "|**" + last.left + "**|**" + last.right + "**")
  }

  function TotalRow(tables: seq<ScoreTable>): string
    requires WellShaped(tables)
  {
    "**TOTAL**" + Concat(Separated(TotalCells(tables), "|"))
  }

  /** The rows of the table, in order. */
  function ScorecardLines(tables: seq<ScoreTable>): (lines: seq<string>)
    requires WellShaped(tables)
    ensures |lines| == 2 + RoundCount(tables) + 1
  {
    [HeaderRow(tables), AlignRow(|tables|)]
      + seq(RoundCount(tables), k requires 0 <= k < RoundCount(tables) => RoundRow(tables, k))
      + [TotalRow(tables)]
  }

  /** The text `build_scorecard_text` returns. */
  function ScorecardText(tables: seq<ScoreTable>): string
    requires WellShaped(tables)
  {
    JoinLines(ScorecardLines(tables))
  }

  /** A round row after judges `0..i-1` have been visited. */
  ghost function RowSoFar(tables: seq<ScoreTable>, j: nat, i: nat): string
    requires WellShaped(tables) && j < RoundCount(tables) && i <= |tables|
  {
    if i == 0 then ""
    else if i == 1 then tables[0].rows[j + 1].round + RoundPiece(tables, 0, j)
    else RowSoFar(tables, j, i - 1) + RoundPiece(tables, i - 1, j)
  }

  lemma {:induction false} RowSoFarPrefix(tables: seq<ScoreTable>, j: nat, i: nat)
    requires WellShaped(tables) && j < RoundCount(tables) && 1 <= i <= |tables|
    ensures RowSoFar(tables, j, i) == tables[0].rows[j + 1].round + Concat(RoundPieces(tables, j)[..i])
  {
    var pieces := RoundPieces(tables, j);
    var roundLabel := tables[0].rows[j + 1].round;
    ConcatSnoc(pieces, i - 1);
    if i == 1 {
      assert pieces[..0] == [];
    } else {
      RowSoFarPrefix(tables, j, i - 1);
      AppendAssoc(roundLabel, Concat(pieces[..i - 1]), pieces[i - 1]);
    }
  }

  /** The finished round row is the specified one. */
  lemma RowSoFarComplete(tables: seq<ScoreTable>, j: nat)
    requires WellShaped(tables) && j < RoundCount(tables)
    ensures RowSoFar(tables, j, |tables|) == RoundRow(tables, j)
  {
    RowSoFarPrefix(tables, j, |tables|);
    ConcatAll(RoundPieces(tables, j));
  }

  /** The first two rows of `build_scorecard_text`, built judge by judge. */
  method BuildHeaderRows(tables: seq<ScoreTable>) returns (row1: string, row2: string)
    requires WellShaped(tables)
    ensures row1 == HeaderRow(tables) && row2 == AlignRow(|tables|)
  {
    var n := |tables|;
    row1 := "ROUND";
    row2 := ":-:";
    ghost var headerPieces := Separated(HeaderCells(tables), "|");
    ghost var alignPieces := AlignPieces(n);
    for i := 0 to n
      invariant row1 == "ROUND" + Concat(headerPieces[..i])
      invariant row2 == ":-:" + Concat(alignPieces[..i])
    {
      var cells := "|" + tables[0].rows[0].left + "|" + tables[0].rows[0].right;
      if i != n - 1 {
        cells := cells + "|";
      }
      SeparatedAt(HeaderCells(tables), "|", i);
      ConcatExtend("ROUND", headerPieces, i);
      ConcatExtend(":-:", alignPieces, i);
      row1 := row1 + cells;
      row2 := row2 + "|:-:|:-:|:-:";
    }
    ConcatAll(headerPieces);
    ConcatAll(alignPieces);
  }

  /** What judge `i` adds to round row `j`, in the two cases of the separator. */
  lemma RoundPieceAt(tables: seq<ScoreTable>, i: nat, j: nat)
    requires i < |tables| && HasRound(tables[i], j)
    ensures var row := tables[i].rows[j + 1];
      RoundPiece(tables, i, j)
        == if i != |tables| - 1 then "|" + row.left + "|" + row.right + "|"
           else "|" + row.left + "|" + row.right
  {
    var row := tables[i].rows[j + 1];
    assert "|" + row.left + "|" + row.right + "" == "|" + row.left + "|" + row.right;
  }

  /** All round rows after judges `0..i-1` have been visited. */
  ghost function Stage(tables: seq<ScoreTable>, i: nat): (rows: seq<string>)
    requires WellShaped(tables) && i <= |tables|
    ensures |rows| == RoundCount(tables)
  {
    seq(RoundCount(tables), j requires 0 <= j < RoundCount(tables) => RowSoFar(tables, j, i))
  }

  /** Judge `i` has visited the first `m` round rows. */
  ghost function Progress(tables: seq<ScoreTable>, i: nat, m: nat): (rows: seq<string>)
    requires WellShaped(tables) && i < |tables| && m <= RoundCount(tables)
    ensures |rows| == RoundCount(tables)
  {
    Stage(tables, i + 1)[..m] + Stage(tables, i)[m..]
  }

  lemma ProgressStart(tables: seq<ScoreTable>, i: nat)
    requires WellShaped(tables) && i < |tables|
    ensures Progress(tables, i, 0) == Stage(tables, i)
  {
  }

  lemma ProgressStep(tables: seq<ScoreTable>, i: nat, m: nat)
    requires WellShaped(tables) && i < |tables| && m < RoundCount(tables)
    ensures Progress(tables, i, m)[m] == RowSoFar(tables, m, i)
    ensures Progress(tables, i, m + 1) == Progress(tables, i, m)[m := RowSoFar(tables, m, i + 1)]
  {
    var a, b := Progress(tables, i, m + 1), Progress(tables, i, m)[m := RowSoFar(tables, m, i + 1)];
    assert forall j :: 0 <= j < |a| ==> a[j] == b[j];
  }

  /** The number of round rows in one judge's table. */
  function Rounds(t: ScoreTable): nat {
    if |t.rows| >= 2 then |t.rows| - 2 else 0
  }

  lemma RoundsBound(tables: seq<ScoreTable>, i: nat)
    requires WellShaped(tables) && i < |tables|
    ensures Rounds(tables[i]) <= RoundCount(tables)
    ensures i == 0 ==> Rounds(tables[i]) == RoundCount(tables)
    ensures forall j: nat :: HasRound(tables[i], j) <==> j < Rounds(tables[i])
  {
  }

  /** Past the last round of judge `i`, visiting judge `i` changes nothing. */
  lemma ProgressEnd(tables: seq<ScoreTable>, i: nat)
    requires WellShaped(tables) && i < |tables|
    ensures Rounds(tables[i]) <= RoundCount(tables)
    ensures Progress(tables, i, Rounds(tables[i])) == Stage(tables, i + 1)
  {
    RoundsBound(tables, i);
    var m := Rounds(tables[i]);
    var a, b := Progress(tables, i, m), Stage(tables, i + 1);
    forall j | 0 <= j < |a| ensures a[j] == b[j] {
      if j >= m {
        PastRounds(tables, i, j);
      }
    }
  }

  /** A judge whose table has no round `j` leaves round row `j` alone. */
  lemma PastRounds(tables: seq<ScoreTable>, i: nat, j: nat)
    requires WellShaped(tables) && i < |tables| && Rounds(tables[i]) <= j < RoundCount(tables)
    ensures RowSoFar(tables, j, i + 1) == RowSoFar(tables, j, i)
  {
    RoundsBound(tables, i);
    assert RoundPiece(tables, i, j) == "";
    assert RowSoFar(tables, j, i) + "" == RowSoFar(tables, j, i);
  }

  /** Visiting judge `i` at row `k` of its table extends round row `k - 1`
      with its cells. */
  lemma ProgressExtend(tables: seq<ScoreTable>, i: nat, k: nat, rows: seq<string>, prefix: string, cells: string)
    requires WellShaped(tables) && i < |tables| && 1 <= k <= Rounds(tables[i])
    requires rows == Progress(tables, i, k - 1)
    requires k - 1 < |rows| && prefix == if i == 0 then rows[k - 1] + tables[i].rows[k].round else rows[k - 1]
    requires cells == if i != |tables| - 1 then "|" + tables[i].rows[k].left + "|" + tables[i].rows[k].right + "|"
                      else "|" + tables[i].rows[k].left + "|" + tables[i].rows[k].right
    ensures rows[k - 1 := prefix + cells] == Progress(tables, i, k)
  {
    var m := k - 1;
    RoundsBound(tables, i);
    assert HasRound(tables[i], m);
    ProgressStep(tables, i, m);
    RoundPieceAt(tables, i, m);
    assert rows[m] == RowSoFar(tables, m, i);
    if i == 0 {
      assert prefix == tables[0].rows[m + 1].round;
    } else {
      assert prefix == RowSoFar(tables, m, i);
    }
    assert prefix + cells == RowSoFar(tables, m, i + 1);
  }

  /** Judge `i`'s pass over its round rows: row `k` of the table extends
      round row `k - 1`. */
  method AddJudgeRounds(tables: seq<ScoreTable>, i: nat, roundRows: seq<string>)
    returns (updated: seq<string>)
    requires WellShaped(tables) && i < |tables|
    requires roundRows == Stage(tables, i)
    ensures updated == Stage(tables, i + 1)
  {
    var n := |tables|;
    var current := tables[i].rows;
    updated := roundRows;
    var k := 1;
    ProgressStart(tables, i);
    while k < |current| - 1
      invariant 1 <= k <= Rounds(tables[i]) + 1
      invariant updated == Progress(tables, i, k - 1)
    {
      var row := current[k];
      var prefix := updated[k - 1];
      if i == 0 {
        prefix := prefix + row.round;
      }
      var cells := "|" + row.left + "|" + row.right;
      if i != n - 1 {
        cells := cells + "|";
      }
      ProgressExtend(tables, i, k, updated, prefix, cells);
      updated := updated[k - 1 := prefix + cells];
      k := k + 1;
    }
    ProgressEnd(tables, i);
  }

  lemma LinesAt(tables: seq<ScoreTable>, j: nat)
    requires WellShaped(tables) && j < RoundCount(tables)
    ensures ScorecardLines(tables)[j + 2] == RoundRow(tables, j)
  {
  }

  /** The last row of the table after judges `0..i-1`. */
  lemma TotalPieceAt(tables: seq<ScoreTable>, i: nat)
    requires WellShaped(tables) && i < |tables|
    ensures var last := tables[i].rows[|tables[i].rows| - 1];
      Separated(TotalCells(tables), "|")[i]
        == if i != |tables| - 1 then "|**" + last.left + "**|**" + last.right + "**" + "|"
           else "|**" + last.left + "**|**" + last.right + "**"
  {
    SeparatedAt(TotalCells(tables), "|", i);
  }

  /** Judge `i`'s cells extend the total row built so far. */
  lemma TotalExtend(tables: seq<ScoreTable>, i: nat, head: string, total: string, cells: string)
    requires WellShaped(tables) && i < |tables|
    requires total == head + Concat(Separated(TotalCells(tables), "|")[..i])
    requires var last := tables[i].rows[|tables[i].rows| - 1];
      cells == if i != |tables| - 1 then "|**" + last.left + "**|**" + last.right + "**" + "|"
               else "|**" + last.left + "**|**" + last.right + "**"
    ensures total + cells == head + Concat(Separated(TotalCells(tables), "|")[..i + 1])
  {
    TotalPieceAt(tables, i);
    ConcatExtend(head, Separated(TotalCells(tables), "|"), i);
  }

  /** The second loop of `build_scorecard_text`: every judge extends the
      round rows and the total row. */
  method BuildBodyRows(tables: seq<ScoreTable>) returns (roundRows: seq<string>, total: string)
    requires WellShaped(tables)
    ensures roundRows == Stage(tables, |tables|) && total == TotalRow(tables)
  {
    var n := |tables|;
    roundRows := seq(RoundCount(tables), _ => "");
    total := "**TOTAL**";
    ghost var totalPieces := Separated(TotalCells(tables), "|");
    assert roundRows == Stage(tables, 0);
    for i := 0 to n
      invariant roundRows == Stage(tables, i)
      invariant total == "**TOTAL**" + Concat(totalPieces[..i])
    {
      roundRows := AddJudgeRounds(tables, i, roundRows);
      var current := tables[i].rows;
      var last := current[|current| - 1];
      var cells := "|**" + last.left + "**|**" + last.right + "**";
      if i != n - 1 {
        cells := cells + "|";
      }
      TotalExtend(tables, i, "**TOTAL**", total, cells);
      total := total + cells;
    }
    ConcatAll(totalPieces);
  }

  /** `build_scorecard_text`: the header and alignment rows, then the round
      rows, filled judge by judge, then the total row. */
  method BuildScorecardText(tables: seq<ScoreTable>) returns (text: string)
    requires WellShaped(tables)
    ensures text == ScorecardText(tables)
  {
    var row1, row2 := BuildHeaderRows(tables);
    text := row1 + "\n" + row2 + "\n";
    var roundRows, total := BuildBodyRows(tables);
    ghost var lines := ScorecardLines(tables);
    StageLines(tables);
    FirstTwoLines(tables);
    for j := 0 to |roundRows|
      invariant text == JoinLines(lines[..j + 2])
    {
      text := text + roundRows[j] + "\n";
      JoinLinesSnoc(lines, j + 2);
    }
    JoinLinesSnoc(lines, |roundRows| + 2);
    assert lines[..|roundRows| + 3] == lines;
    text := text + total + "\n";
  }

  /** The finished round rows are the middle lines of the table. */
  lemma StageLines(tables: seq<ScoreTable>)
    requires WellShaped(tables)
    ensures forall j :: 0 <= j < RoundCount(tables) ==> Stage(tables, |tables|)[j] == ScorecardLines(tables)[j + 2]
  {
    forall j | 0 <= j < RoundCount(tables)
      ensures Stage(tables, |tables|)[j] == ScorecardLines(tables)[j + 2]
    {
      RowSoFarComplete(tables, j);
      LinesAt(tables, j);
    }
  }

  lemma FirstTwoLines(tables: seq<ScoreTable>)
    requires WellShaped(tables)
    ensures JoinLines(ScorecardLines(tables)[..2])
      == HeaderRow(tables) + "\n" + AlignRow(|tables|) + "\n"
  {
    var lines := ScorecardLines(tables);
    JoinLinesSnoc(lines, 0);
    JoinLinesSnoc(lines, 1);
    assert lines[..0] == [];
  }

  // ---------------------------------------------------------------------------
  // Properties of the table
  // ---------------------------------------------------------------------------

  /** One row per round of judge 0, between the two header rows and the total. */
  lemma LineCount(tables: seq<ScoreTable>)
    requires WellShaped(tables) && |tables[0].rows| >= 2
    ensures |ScorecardLines(tables)| == 2 + (|tables[0].rows| - 2) + 1
    ensures ScorecardLines(tables)[0] == HeaderRow(tables)
    ensures ScorecardLines(tables)[1] == AlignRow(|tables|)
    ensures ScorecardLines(tables)[|tables[0].rows|] == TotalRow(tables)
  {
  }

  predicate CellsSingleLine(tables: seq<ScoreTable>) {
    forall i, r :: 0 <= i < |tables| && 0 <= r < |tables[i].rows| ==>
      '\n' !in tables[i].rows[r].round && '\n' !in tables[i].rows[r].left
      && '\n' !in tables[i].rows[r].right
  }

  /** When no cell holds a newline, the text holds exactly one newline per row. */
  lemma NewlineCount(tables: seq<ScoreTable>)
    requires WellShaped(tables) && CellsSingleLine(tables)
    ensures Count(ScorecardText(tables), '\n') == 3 + RoundCount(tables)
  {
    LinesSingle(tables);
    JoinLinesNewlines(ScorecardLines(tables));
  }

  /** No row of the table holds a newline when no cell does. */
  lemma LinesSingle(tables: seq<ScoreTable>)
    requires WellShaped(tables) && CellsSingleLine(tables)
    ensures var lines := ScorecardLines(tables);
      forall i :: 0 <= i < |lines| ==> '\n' !in lines[i]
  {
    var lines := ScorecardLines(tables);
    FixedRowsSingle(tables);
    forall i | 0 <= i < |lines| ensures '\n' !in lines[i] {
      if 2 <= i < |lines| - 1 {
        LinesAt(tables, i - 2);
        RoundRowSingle(tables, i - 2);
      }
    }
  }

  lemma FixedRowsSingle(tables: seq<ScoreTable>)
    requires WellShaped(tables) && CellsSingleLine(tables)
    ensures '\n' !in HeaderRow(tables) && '\n' !in AlignRow(|tables|) && '\n' !in TotalRow(tables)
  {
    SeparatedSingleLine(HeaderCells(tables), "|");
    NoCharInConcat(AlignPieces(|tables|), '\n');
    SeparatedSingleLine(TotalCells(tables), "|");
  }

  lemma RoundRowSingle(tables: seq<ScoreTable>, k: nat)
    requires WellShaped(tables) && CellsSingleLine(tables) && k < RoundCount(tables)
    ensures '\n' !in RoundRow(tables, k)
  {
    NoCharInConcat(RoundPieces(tables, k), '\n');
  }

  lemma SeparatedSingleLine(parts: seq<string>, sep: string)
    requires '\n' !in sep && forall i :: 0 <= i < |parts| ==> '\n' !in parts[i]
    ensures '\n' !in Concat(Separated(parts, sep))
  {
    NoCharInConcat(Separated(parts, sep), '\n');
  }

  /** The header is `ROUND` followed by judge 0's labels once per judge, the
      groups joined by an extra `|`. */
  lemma HeaderShape(tables: seq<ScoreTable>)
    requires WellShaped(tables)
    ensures HeaderRow(tables) == "ROUND" + JoinWith("|", HeaderCells(tables))
  {
    ConcatSeparated(HeaderCells(tables), "|");
  }

  /** Only judge 0's table and the number of judges shape the header. */
  lemma HeaderFromFirstJudge(tables: seq<ScoreTable>, others: seq<ScoreTable>)
    requires WellShaped(tables) && WellShaped(others)
    requires |others| == |tables| && others[0].rows[0] == tables[0].rows[0]
    ensures HeaderRow(others) == HeaderRow(tables)
  {
    assert HeaderCells(others) == HeaderCells(tables);
  }

  /** The total row joins every judge's last entry with an extra `|`. */
  lemma TotalShape(tables: seq<ScoreTable>)
    requires WellShaped(tables)
    ensures TotalRow(tables) == "**TOTAL**" + JoinWith("|", TotalCells(tables))
  {
    ConcatSeparated(TotalCells(tables), "|");
  }

  /** The cells of judge `i` in round `k`. */
  function RoundCell(tables: seq<ScoreTable>, i: nat, k: nat): string
    requires i < |tables| && HasRound(tables[i], k)
  {
    "|" + tables[i].rows[k + 1].left + "|" + tables[i].rows[k + 1].right
  }

  /** When every judge has as many rows as judge 0, round row `k` is judge 0's
      round number then every judge's cells, joined by an extra `|`. */
  lemma UniformRoundShape(tables: seq<ScoreTable>, k: nat)
    requires WellShaped(tables) && k < RoundCount(tables)
    requires forall i :: 0 <= i < |tables| ==> |tables[i].rows| == |tables[0].rows|
    ensures RoundRow(tables, k) == tables[0].rows[k + 1].round
      + JoinWith("|", seq(|tables|, i requires 0 <= i < |tables| => RoundCell(tables, i, k)))
  {
    var cells := seq(|tables|, i requires 0 <= i < |tables| => RoundCell(tables, i, k));
    assert RoundPieces(tables, k) == Separated(cells, "|");
    ConcatSeparated(cells, "|");
  }
}
