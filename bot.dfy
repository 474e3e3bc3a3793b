/** The reply builder `send_reply` uses: `build_comment_reply` on each
    record the lookup found, with the easter eggs of the configuration. */
module Bot {
  import opened Text
  import opened Records
  import opened Scorecard
  import opened Media
  import opened Reply
  import opened Delivery

  /** Every record before the first miss has tables a scorecard can be laid
      out from. */
  predicate Composable(fights: seq<Fight>) {
    forall j :: 0 <= j < FirstMissing(fights) ==> WellShaped(fights[j].tables.value)
  }

  /** `build_comment_reply(fight[0], fight[1], fight[2], fight[3],
      comment.author.name)`; on a record it cannot lay out the reply is
      left empty. */
  function ReplyBuilder(eggs: seq<Egg>): Builder {
    (f: Fight, author: string) =>
      if f.tables.Some? && WellShaped(f.tables.value)
      then CommentReply(f.tables.value, f.result, f.media, f.event, author, eggs)
      else ""
  }

  /** With the bot's builder, reply `j` of a comment is the full reply
      for record `j`. */
  lemma BotPlan(fights: seq<Fight>, author: string, input: string, eggs: seq<Egg>,
                failText: string, victory: string, j: nat)
    requires Composable(fights) && j < FirstMissing(fights)
    ensures var plan := ReplyPlan(fights, author, input, ReplyBuilder(eggs), failText, victory);
      var f := fights[j];
      j < |plan| && plan[j] == CommentReply(f.tables.value, f.result, f.media, f.event, author, eggs)
  {
    ReplyPlanShape(fights, author, input, ReplyBuilder(eggs), failText, victory);
  }
}
