/** The values that flow through the bot: score tables, media scores and the
    per-fight records returned by the fight lookup. */
module Records {

  datatype Option<T> = None | Some(value: T)

  /** One row of a judge's table: `row[0]`, `row[1]`, `row[2]` in the source
      (the round number or column label, then the two fighters' scores). */
  datatype Row = Row(round: string, left: string, right: string)

  /** A judge and their table: row 0 holds the column labels, the last row the
      total, and the rows in between the rounds. */
  datatype ScoreTable = ScoreTable(judge: string, rows: seq<Row>)

  /** One media member's score, a pair compared by equality. */
  datatype Score = Score(first: string, second: string)

  /** One entry of the list returned by the lookup: `(score_tables, fight_result,
      media_scores, event_info)`; `tables == None` is the lookup's failure
      sentinel for that entry. */
  datatype Fight = Fight(
    tables: Option<seq<ScoreTable>>,
    result: string,
    media: seq<Score>,
    event: Option<string>)
}
