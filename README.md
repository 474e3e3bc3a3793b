# DecisionBot, modelled in Dafny

DecisionBot is a Reddit bot. It watches a comment stream for a trigger word
("decisionbot", "decision bot" and other configured spellings). When a
comment triggers it, the bot reads the fight the user names and looks up the
judges' scorecards for it. It replies with:

- the result,
- a Markdown table of the round-by-round scores,
- the judges' names,
- a tally of the media members' scores.

When the fight cannot be found, it replies with a rotating failure phrase or
a random guess at the winner. It keeps a log file of the comment ids it has
answered, so that it answers each comment once.

This project models the bot's own logic from `decision_bot.py`:

- **Text** (`text.dfy`): the Python string operations the bot relies on. These are `find`, `in`, `replace`, `split`, `join`, `strip` (and `rstrip`), `lower`, `str(int)`/`int(str)`, `count` and `splitlines`. Some carry their properties in their own `ensures` (`Find`, `Strip`, `Split`, `IndexOf`, `NatToString`). Others are plain definitions (`Replace`, `Count`, `JoinWith`, `JoinLines`, `Contains`), and separate lemmas state their properties.
- **Records** (`records.dfy`): what the fight lookup returns for one record. That is the judges' score tables, the result line, the media scores and the optional event line.
- **Normalizer** (`normalizer.dfy`): how a comment becomes a fight query.
  - trigger search (`get_trigger_index`)
  - input cleaning (`sanitize_input`)
  - the nickname table and its substitution (`create_nickname_dict`, `replace_nicknames`)
  - the rematch table's line parser (`create_rematch_list`)
- **Scorecard** (`scorecard.dfy`): `build_scorecard_text` as the imperative loops it is. Each loop is proved against a functional definition of the table.
- **Media** (`media.dfy`): `build_media_scores_text` as a loop, with the tally's properties proved: first-seen order, counts adding up to the total.
- **Reply** (`reply.dfy`): the judge line, the easter eggs, and the assembly of a whole reply (`build_judge_text`, `build_comment_reply`).
- **Rematch** (`rematch.dfy`): `handle_rematch`, including its in-place `reverse` on an array and its scan over the rematch rules.
- **Failure** (`failure.dfy`): the failure-phrase cycler and `generate_fail_text`. The global `PHRASE_INDEX` becomes a class field. Also here are `string.capwords` and `generate_victory_method`.
- **Delivery** (`delivery.dfy`): the comment log file, `log_comment`, `log_and_reply`, `send_reply`, and `run`'s loop over the comment stream. The `Ledger` class holds the log file's text and the sequence of side effects (ids logged, replies posted). Its methods are proved against functional descriptions of a whole session.
- **Bot** (`bot.dfy`): plugs `build_comment_reply` into `send_reply` as the reply builder.

Where the code's behaviour differs from what its comments and documentation suggest, the model follows the code and proves the difference:

- **Trigger spelling.** `get_trigger_index` returns the first occurrence of the first spelling in configuration order that occurs, not the leftmost trigger in the comment (`Normalizer.TriggerNotLeftmost`).
- **Cleaning twice.** `sanitize_input` is not idempotent: removing one trigger can create another (`Normalizer.SanitizeNotIdempotent`).
- **Site fight number 0.** A rematch rule whose site fight number is 0 indexes `[-1]`. After the reversal, that is the newest record (`Rematch.RemapZeroPicksNewest`).
- **Repeated comment.** `run` never adds a logged id to the list it loaded at start-up. So a triggering comment delivered twice by the stream is answered twice (`Delivery.AnsweredTwice`).
- **Fallback reversal.** `handle_rematch` reverses the caller's list in place even when no rule fires (`Rematch.HandleRematch`).

## Model

| member | source | states |
|---|---|---|
| Text.Find | decision_bot.py:137 | `str.find`: -1 exactly when the pattern does not occur; otherwise an index where it occurs with no earlier occurrence |
| Text.Strip | decision_bot.py:155 | `str.strip(chars)`: the result is a contiguous slice, everything cut off on either side is in `chars`, and neither end of a non-empty result is in `chars` |
| Text.StripCleanSuffix | decision_bot.py:91 | stripping a text whose ends are not strip characters, followed by strip characters only, gives back exactly that text |
| Text.StripShrinks | decision_bot.py:155 | stripping only removes characters (multiset inclusion) |
| Text.Split | decision_bot.py:119 | `str.split(c)`: at least one piece and no piece contains the separator |
| Text.SplitJoin | decision_bot.py:199 | joining the pieces of a split with the separator gives back the text |
| Text.JoinSplit | decision_bot.py:232 | splitting a join of separator-free pieces gives back the pieces |
| Text.SplitCount | decision_bot.py:119-120 | a split has one more piece than the text has separators |
| Text.SplitFirst | decision_bot.py:150 | the first piece of a split is the text before the first separator |
| Text.IndexOf | decision_bot.py:149-150 | the first position of a character, or the length when it is absent |
| Text.Replace | decision_bot.py:130 | `str.replace` (definition): a left-to-right scan that replaces each non-overlapping occurrence; its properties are `ReplaceAbsent`, `ReplaceSkip` and `ReplaceEmptyShrinks` |
| Text.ReplaceAbsent | decision_bot.py:130 | `replace` of a pattern that does not occur leaves the text unchanged |
| Text.ReplaceEmptyShrinks | decision_bot.py:153 | deleting a pattern with `replace(p, '')` only removes characters |
| Text.ReplaceSkip | decision_bot.py:153 | `replace`, with any replacement text, copies a prefix in which no occurrence starts unchanged and continues after it |
| Text.LowerNoUpper | decision_bot.py:361 | no upper-case letter survives `lower`, and lowering twice is lowering once |
| Text.LowerChar | decision_bot.py:198 | upper-case letters go to lower-case letters, everything else is kept |
| Text.UpperChar | decision_bot.py:186 | lower-case letters go to upper-case letters, everything else is kept |
| Text.NatToString | decision_bot.py:105 | `str(count)` is a non-empty string of digits |
| Text.ParseNatToString | decision_bot.py:214-215 | `int(str(n)) == n` |
| Text.CountAppend | decision_bot.py:104 | `count` over a concatenation is the sum of the counts |
| Text.CountZero | decision_bot.py:103-104 | the count is zero exactly when the value is absent |
| Text.JoinLinesNewlines | decision_bot.py:58 | joining single-line rows with a newline after each adds exactly one newline per row |
| Text.ConcatSeparated | decision_bot.py:53-57 | appending each cell followed by the separator, except after the last, is the separator join |
| Text.LeadingCount | decision_bot.py:155 | the length of the longest prefix made of strip characters |
| Text.TrailingCount | decision_bot.py:155 | the length of the longest suffix made of strip characters |
| Text.StripBounds | decision_bot.py:155 | `strip` is `lstrip` then `rstrip`, cutting exactly the leading and trailing runs |
| Normalizer.RemoveTriggers | decision_bot.py:152-153 | the trigger-deletion loop of `sanitize_input` (definition); `RemoveTriggersShrinks`, `SanitizeTricky` and `SanitizeNotIdempotent` state its meaning |
| Normalizer.SanitizeInput | decision_bot.py:147-155 | `sanitize_input` (definition); `SanitizeInputClean` and `SanitizeNotIdempotent` state its meaning |
| Normalizer.ReplaceNicknames | decision_bot.py:128-131 | `replace_nicknames` (definition): `replace` with each table entry in insertion order; `ReplaceNicknamesAppend` and `ReplaceNicknamesAbsent` state its meaning |
| Normalizer.TriggerIndex | decision_bot.py:135-143 | -1 exactly when no spelling occurs in either form; otherwise the first occurrence of the matched form of the first spelling, in configuration order, that occurs ('bot' form tried before ' bot') |
| Normalizer.TriggerNotLeftmost | decision_bot.py:136-142 | for "decbot decisionbot" with spellings ["decision", "dec"], a trigger occurs at 0 yet the index is 7 |
| Normalizer.FirstLine | decision_bot.py:149-150 | the first line: a newline-free prefix of the text ending at the first newline or at the end |
| Normalizer.RemoveTriggersShrinks | decision_bot.py:152-153 | removing the trigger forms only removes characters |
| Normalizer.RemoveOneSpelling | decision_bot.py:152-153 | with one spelling, the 'bot' form is deleted first and the ' bot' form from what is left |
| Normalizer.SanitizeInputClean | decision_bot.py:147-155 | the cleaned input holds no newline, uses only characters of the first line, and neither end is punctuation or a space |
| Normalizer.SanitizeNotIdempotent | decision_bot.py:147-155 | "decisiondecisionbotbot" cleans to "decisionbot", which cleans again to "" |
| Normalizer.SanitizeTricky | decision_bot.py:152-155 | deleting the inner trigger joins its neighbours into a new trigger that survives |
| Normalizer.SanitizeTriggerOnly | decision_bot.py:152-155 | a comment that is only the trigger cleans to the empty query |
| Normalizer.StripCharsMembers | decision_bot.py:155 | letters are not strip characters; ',', ':' and ' ' are |
| Normalizer.KeyIndex | decision_bot.py:121 | the position of a key in the insertion-ordered table, or its length when absent |
| Normalizer.Put | decision_bot.py:121 | dictionary assignment: an existing key keeps its place with the new value, a new key goes at the end, keys stay distinct |
| Normalizer.PutIsUpdate | decision_bot.py:121 | seen as a map, the insertion-ordered assignment is map update |
| Normalizer.ToMapDistinct | decision_bot.py:121 | with distinct keys, each entry's key maps to its value |
| Normalizer.ToMapKeys | decision_bot.py:121 | the map's keys are exactly the table's keys |
| Normalizer.AddNicknameLine | decision_bot.py:118-121 | one line of the nickname file keeps the table's keys distinct |
| Normalizer.ParseNicknameLines | decision_bot.py:117-121 | the parsed table never holds a key twice |
| Normalizer.ParseNicknameLinesIsMap | decision_bot.py:113-125 | the parsed table denotes the dictionary in which later lines overwrite earlier ones and only two-field lines count |
| Normalizer.KeptLineHasOneColon | decision_bot.py:119-120 | a line is kept exactly when it holds exactly one ':' |
| Normalizer.ReplaceNicknamesAppend | decision_bot.py:128-131 | substituting with a concatenated table is substituting with the first part, then with the second |
| Normalizer.ReplaceNicknamesAbsent | decision_bot.py:128-131 | a text holding none of the (non-empty) nicknames is unchanged |
| Normalizer.ParseRematchLines | decision_bot.py:197-200 | one tuple per line; its cells contain no '\|' and joined with '\|' give back the lower-cased line without its newline |
| Scorecard.ScorecardText | decision_bot.py:49-84 | the text `build_scorecard_text` returns (definition); `Scorecard.BuildScorecardText` is proved against it and `LineCount`, `NewlineCount`, `HeaderShape` and `TotalShape` state its meaning |
| Scorecard.HeaderCells | decision_bot.py:54 | one header cell per judge |
| Scorecard.ScorecardLines | decision_bot.py:58-82 | two heading lines, one line per round and a total line |
| Scorecard.BuildHeaderRows | decision_bot.py:50-57 | the loop builds exactly the header row and the alignment row |
| Scorecard.AddJudgeRounds | decision_bot.py:64-74 | one judge's pass over its rounds takes the round rows from the state before that judge to the state after it |
| Scorecard.BuildBodyRows | decision_bot.py:60-78 | the nested loops build every round row in full and the total row |
| Scorecard.BuildScorecardText | decision_bot.py:49-84 | the returned text is the header line, the alignment line, each round row and the total row, each ended by a newline |
| Scorecard.RowSoFarComplete | decision_bot.py:64-74 | after every judge's cell is added, a round row is complete |
| Scorecard.RoundsBound | decision_bot.py:61-66 | no judge has more rounds than the first; the first sets the count; a judge has round j exactly when j is below its count |
| Scorecard.ProgressEnd | decision_bot.py:66-74 | after a judge's last round, the rows are the state after that judge |
| Scorecard.PastRounds | decision_bot.py:66-74 | a judge with fewer rounds leaves the later round rows as they were |
| Scorecard.StageLines | decision_bot.py:80-81 | the rows built by the loops are the round lines of the table |
| Scorecard.FirstTwoLines | decision_bot.py:58 | the text starts with the header row and the alignment row, each ended by a newline |
| Scorecard.LineCount | decision_bot.py:49-84 | when the first judge has at least two score rows (a label row and a total), the table has one line per score row of the first judge plus the alignment line; first is the header, second the alignment, last the total |
| Scorecard.NewlineCount | decision_bot.py:58-82 | with single-line cells, the text holds exactly three newlines more than there are rounds |
| Scorecard.HeaderShape | decision_bot.py:51-56 | the header is "ROUND" followed by the judge cells joined with '\|' |
| Scorecard.HeaderFromFirstJudge | decision_bot.py:54 | the header depends only on the number of judges and the first judge's labels, as the code indexes `score_tables[0]` for every column |
| Scorecard.TotalShape | decision_bot.py:62-78 | the total row is "\*\*TOTAL\*\*" followed by each judge's final scores in bold, joined with '\|' |
| Scorecard.UniformRoundShape | decision_bot.py:66-74 | when all judges have the same rounds, a round row is the first judge's round label followed by every judge's scores joined with '\|' |
| Media.MediaText | decision_bot.py:94-109 | the text `build_media_scores_text` returns (definition); `Media.BuildMediaScoresText` is proved against it and the tally lemmas state its meaning |
| Media.FirstIndex | decision_bot.py:102-103 | the first position of a score, or the length when absent |
| Media.DistinctSnoc | decision_bot.py:102-107 | one more score adds a bullet exactly when it is not yet covered |
| Media.DistinctFirstSeen | decision_bot.py:100-107 | the covered scores have no duplicates, are exactly the scores that occur, and are in order of first occurrence |
| Media.TallyAddsUp | decision_bot.py:99-107 | the bullets' counts add up to the number of media scores |
| Media.BulletCountsInRange | decision_bot.py:104-105 | every bullet's count is between 1 and the total |
| Media.BulletsSnoc | decision_bot.py:105-106 | one more covered score appends its bullet to the text |
| Media.BuildMediaScoresText | decision_bot.py:94-109 | the loop returns the fixed sentence for no scores, otherwise the heading followed by one bullet per covered score, in first-seen order, with its count over the total |
| Reply.JudgeText | decision_bot.py:87-91 | `build_judge_text` (definition); `JudgeListNames`, `JudgeListEmpty` and `JudgeListJoined` state its meaning |
| Reply.ReplyHead | decision_bot.py:30-37 | the text before the scorecard (definition); `ReplyHeadCases` states its cases |
| Reply.CommentReply | decision_bot.py:29-46 | `build_comment_reply` (definition); `AssembleOrder` states the layout and `Bot.BotPlan` ties it to the replies posted |
| Reply.JudgeNames | decision_bot.py:89 | one name per score table |
| Reply.JudgeListJoined | decision_bot.py:88-90 | the judge line before stripping is the lead, the names joined with ", ", and a trailing ", " |
| Reply.JudgeListNames | decision_bot.py:91 | when the last name does not end in punctuation, stripping removes exactly the trailing ", " |
| Reply.JudgeListEmpty | decision_bot.py:88-91 | with no judges, the line strips to "Judges, in order" |
| Reply.FirstEggFrom | decision_bot.py:34-37 | the first easter egg from a position on whose fragment occurs in the result, or none when none does |
| Reply.FirstEgg | decision_bot.py:34-37 | the first easter egg whose fragment occurs in the result, or none when none does |
| Reply.ReplyHeadCases | decision_bot.py:30-37 | no event line: the result and a blank line. Event and no egg: the event line too. Event and an egg: the first matching egg's text prefixed to both |
| Reply.AssembleOrder | decision_bot.py:40-44 | the reply is the head, then the scorecard, then the judge line and a blank line, then the media text |
| Rematch.RulesRoundTrip | decision_bot.py:213-215 | a table of rules written out as store lines is well-formed and reads back as the same rules in the same order |
| Rematch.Resolve | decision_bot.py:207-222 | `handle_rematch` as a value (definition): the list it returns; its properties are the `Resolve…`, `FirstFiringRuleDecides`, `NoRuleFires` and remap lemmas below |
| Rematch.RuleRoundTrip | decision_bot.py:213-215 | a rule written out as decimal cells is well-formed and reads back as itself |
| Rematch.Pick | decision_bot.py:217-220 | the chosen record index is within the records (a site number of 0 is Python's `[-1]`) |
| Rematch.FirstFiring | decision_bot.py:212-220 | none exactly when no rule fires; otherwise the first rule in table order that fires |
| Rematch.FirstFiringUnique | decision_bot.py:212-220 | the first firing rule is the one the scan finds |
| Rematch.ResolveWithoutOrdinal | decision_bot.py:207-222 | without a positive fight number, or with no records, the list comes back unchanged |
| Rematch.ResolveShape | decision_bot.py:208-222 | otherwise the result is the chronological list or a single one of the records |
| Rematch.FirstFiringRuleDecides | decision_bot.py:212-220 | when a rule fires first, the result is the one record it picks |
| Rematch.NoRuleFires | decision_bot.py:210-222 | when no rule fires, the result is the reversed list |
| Rematch.SkipNonFiring | decision_bot.py:216-220 | a rule whose fighters match but whose conditions fail does not end the scan |
| Rematch.RemapCountsFromBottom | decision_bot.py:219-220 | a remap rule with site number k selects the k-th record from the bottom of the site's list |
| Rematch.InOrderRule | decision_bot.py:217-218 | a "0" rule selects the fight number's record in chronological order |
| Rematch.RemapZeroPicksNewest | decision_bot.py:219-220 | a remap rule with site number 0 selects the newest record |
| Rematch.ReverseInPlace | decision_bot.py:210 | the array afterwards holds its old contents reversed |
| Rematch.FindFiringRule | decision_bot.py:212-220 | the loop finds the first firing rule of the parsed table, or none |
| Rematch.HandleRematch | decision_bot.py:207-222 | returns the resolved list; the caller's array is left reversed whenever the fight number is positive and there are records, including when no rule fires |
| Failure.Slot | decision_bot.py:161-164 | the phrase used is in range, and is the index itself while it is in range |
| Failure.NextIndex | decision_bot.py:161-165 | the index after a call is between 1 and the number of phrases |
| Failure.FirstRound | decision_bot.py:159-165 | starting from 0, the first calls use the phrases in list order |
| Failure.CyclePeriod | decision_bot.py:159-165 | after the first call, the index repeats with period equal to the number of phrases |
| Failure.AfterOneCall | decision_bot.py:161-165 | one call steps the index by one, or wraps to 1 from an index past the end |
| Failure.PersonalizeShape | decision_bot.py:166-169 | the phrase is kept as a suffix; the author and a space are prefixed exactly when it opens with one of the two addressed phrases |
| Failure.PhraseCycler.constructor | decision_bot.py:24-26 | the cycler starts at index 0 with the configured phrases and troubleshooting text |
| Failure.PhraseCycler.Next | decision_bot.py:159-171 | returns the phrase at the wrapped index with the troubleshooting text, personalised, and advances the index |
| Failure.PhraseCycler.FailText | decision_bot.py:174-186 | a low draw or an unparsable query gives the next failure phrase; otherwise the guess at the drawn fighter, capitalised, with the victory method, leaving the index alone |
| Failure.VictoryMethod | decision_bot.py:302-304 | " by ", then the chosen method, then "." |
| Failure.GuessText | decision_bot.py:185-186 | the guess reply (definition): the prefix, the capitalised fighter, the victory method, the troubleshooting text |
| Failure.CapWords | decision_bot.py:186 | `string.capwords` (definition); `CapWordsIdempotent` and `WordsOfJoined` state its meaning |
| Failure.Words | decision_bot.py:186 | the words of `capwords`: non-empty and free of whitespace |
| Failure.WordsOfJoined | decision_bot.py:186 | splitting words joined by single spaces gives back the words |
| Failure.CapitalizeWord | decision_bot.py:186 | capitalising a word keeps it whitespace-free and is idempotent |
| Failure.CapWordsIdempotent | decision_bot.py:186 | `capwords` applied twice is `capwords` applied once |
| Failure.CharCases | decision_bot.py:186 | case mapping preserves whitespace and is idempotent |
| Delivery.SplitLines | decision_bot.py:228 | no line of the log contains a newline |
| Delivery.LinesOfJoinLines | decision_bot.py:232 | writing newline-free ids one per line and reading them back gives the ids |
| Delivery.JoinLinesOfLines | decision_bot.py:228-232 | a newline-ended log is rewritten exactly by writing its lines back |
| Delivery.LinesAppend | decision_bot.py:264-267 | appending an id and a newline adds exactly that id as the last line |
| Delivery.LinesAppendMany | decision_bot.py:264-267 | appending the same id n times adds n copies of it |
| Delivery.TrimmedKeepsNewest | decision_bot.py:229-232 | after loading, the file keeps a suffix of at most 100 ids: the newest 50 when there were more than 100, all of them otherwise |
| Delivery.Trimmed | decision_bot.py:229-232 | the file `get_commented_list` leaves behind (definition); `TrimmedKeepsNewest` states its meaning |
| Delivery.PlanLog | decision_bot.py:264-267 | what one comment appends to the log (definition): its id once per reply |
| Delivery.SessionLog | decision_bot.py:360-379 | what a session appends to the log (definition): each comment's id lines in stream order |
| Delivery.SessionLogLines | decision_bot.py:264-267 | a session only appends lines: every line of the log before it is still a line, and so is the id of every comment that got a reply |
| Delivery.PlanLogKeeps | decision_bot.py:264-267 | one comment's id lines keep every earlier line and add its id when it got a reply |
| Delivery.ServedIdsLogged | decision_bot.py:225-267 | starting from a newline-ended log, every comment that got a reply has its id in the log after load and session |
| Delivery.AnsweredLogged | decision_bot.py:358-379 | a comment `run` answers is in the list the next start-up loads, so a restarted bot passes it over |
| Delivery.PlansAt | decision_bot.py:360 | plan `k` of the stream is the planner's plan for comment `k` |
| Delivery.ReloadSeesLogged | decision_bot.py:264-267 | once logged, an id is in the list the next load returns |
| Delivery.Trace | decision_bot.py:297-299 | two events per reply |
| Delivery.TraceAlternates | decision_bot.py:297-299 | each reply is preceded by logging the comment's id |
| Delivery.TraceSnoc | decision_bot.py:297-299 | one more reply appends a log event and a reply event |
| Delivery.CommentText | decision_bot.py:361 | `comment.body.lower().strip()` (definition), stripping every character `str.isspace` accepts |
| Delivery.Gate | decision_bot.py:362-373 | the gate of the loop (definition): the cleaned, nickname-replaced query when a trigger occurs and the id is not in the loaded list, nothing otherwise; `PlanOfShape` states its meaning |
| Delivery.Fallback | decision_bot.py:288-294 | the lone reply when the lookup found nothing (definition); `FallbackCases` states its cases |
| Delivery.ReplyPlan | decision_bot.py:273-294 | the replies `send_reply` posts, in order (definition); `ReplyPlanShape`, `PlanStops` and `PlanComplete` state its meaning and `Ledger.SendReply` is proved against it |
| Delivery.FirstMissing | decision_bot.py:276-280 | every record before the first record without tables has tables |
| Delivery.Composed | decision_bot.py:285-287 | one reply per record composed |
| Delivery.ComposedSnoc | decision_bot.py:285-287 | one more composed record appends its reply |
| Delivery.ReplyPlanShape | decision_bot.py:273-294 | at least one reply; one per record up to the first record without tables, which gets the failure text and ends the replies |
| Delivery.FallbackCases | decision_bot.py:288-294 | with no records: "dana" in the query gives the Dana joke, else "usada" the USADA joke, else the failure text |
| Delivery.PlanStops | decision_bot.py:276-280 | the first record without tables ends the replies with the failure text |
| Delivery.PlanComplete | decision_bot.py:276-287 | when every record has tables, there is exactly one composed reply per record |
| Delivery.PlanOfShape | decision_bot.py:360-379 | a comment gets replies exactly when it triggers and its id is not in the loaded list, and then at least one |
| Delivery.Plans | decision_bot.py:360-379 | one plan per comment of the stream |
| Delivery.CommentEventsShape | decision_bot.py:364-379 | a comment's events are empty exactly when it gets no reply; otherwise they start by logging its id, and all carry its id |
| Delivery.SessionPrefix | decision_bot.py:360-379 | the events of the first comments do not depend on later ones |
| Delivery.SessionPush | decision_bot.py:360-379 | handling one more comment appends exactly its own events |
| Delivery.AnsweredTwice | decision_bot.py:358-379 | a triggering comment met twice in one stream is logged and answered twice |
| Delivery.SkippedComment | decision_bot.py:364-367 | a comment already logged, or without a trigger, adds no event |
| Delivery.Ledger.Load | decision_bot.py:225-239 | returns the lines of the log file and trims the file as `TrimmedKeepsNewest` describes |
| Delivery.Ledger.LogComment | decision_bot.py:264-267 | appends the id and a newline to the file and records the log event |
| Delivery.Ledger.LogAndReply | decision_bot.py:297-299 | logs the id, then posts the reply |
| Delivery.Ledger.SendReply | decision_bot.py:273-294 | the events are the alternating trace of the reply plan, and the file gains the id once per reply |
| Delivery.Ledger.Answer | decision_bot.py:361-379 | one comment's events are those of its plan: nothing when not answered, otherwise the trace of the reply plan for its cleaned query; the log gains the comment's id once per reply |
| Delivery.Ledger.Stream | decision_bot.py:360-379 | the loop's events are the session of the comment stream under each comment's plan, and the log gains exactly the session's id lines |
| Delivery.Ledger.Serve | decision_bot.py:358-379 | loads the log once, then handles the stream against that list; the log ends as the trimmed file followed by one id line per reply |
| Bot.ReplyBuilder | decision_bot.py:286 | the builder `send_reply` uses (definition): `build_comment_reply` on a record with tables |
| Bot.BotPlan | decision_bot.py:285-286 | with the bot's builder, each reply before the first missing record is the full `build_comment_reply` text for that record |

## Left out

- Reddit (PRAW), authentication, the comment stream and `comment.reply` are not modelled as I/O. The stream is a sequence of comments. Each reply is an event in `Ledger.events`.
- `notify_myself`: it only sends a private message and has no effect on replies or the log.
- `tester` and the script's entry point (`main`, argument parsing, the retry decorator, YAML loading): these are driver code around `run`.
- Logging, `log_message`, `log_error`, `traceback` and `time.sleep`: none of them changes what is replied or logged.
- The fight lookup (`fight_finder`) is a separate module and is not part of this model. `Outcome.fights` is an input: the list after the lookup and after `handle_rematch`. `run`'s loop is not modelled as calling `Rematch.HandleRematch` or loading the rematch table; those two are modelled and proved on their own.
- The random draws are parameters, because randomness is not modelled:
  - the `random.random() < .5` test (`lowDraw`),
  - the coin flip (`pickFirst`),
  - the victory method chosen (`victory`, `pick`).
- Because of that, the failure text and victory phrase of a comment are inputs to `send_reply` (`Outcome.failText`, `Outcome.victory`). `Failure.PhraseCycler.FailText` models how one failure text is produced, but no cycler is threaded through `Delivery.Ledger.Stream`. So the model does not state that `PHRASE_INDEX` rotates across the failed comments of one run; `FirstRound` and `CyclePeriod` state the rotation for consecutive calls on their own.
- The reply builder is a parameter of `Delivery`. `Bot.ReplyBuilder` supplies `build_comment_reply` for it. That keeps the session proofs independent of the reply text.
- Delivery.Ledger.Stream: the plan of each comment is stated in terms of a ghost planner. `Delivery.PlanFor` builds the planner from the configuration. The gate and the reply plan are the same functions `Answer` computes.
- Missing files: `FileNotFoundError` is not modelled. For the comment log that means exiting the program; for the nickname and rematch files it means an empty table. The model assumes each file can be read.
- The text of the nickname and rematch files enters as their lines.
- Scorecard.BuildScorecardText: score tables of inconsistent shape are excluded by a precondition (`WellShaped`); Python raises `IndexError` on them. `run`'s `except (AttributeError, PRAWException)` (decision_bot.py:382) does not catch that error, so the program logs no id and posts no reply for that record or any later record of the comment. `@retry` (decision_bot.py:340) then restarts `run`. The model instead gives `Bot.ReplyBuilder`'s empty reply for such a record, and logs the id and posts "". On such records, `Delivery.ServedIdsLogged` and `Delivery.Ledger.Serve`'s log `ensures` speak of an id line the program never writes.
- Rematch.HandleRematch: it requires every row of the rematch table to have four cells whose first two are plain decimal digit strings (`WellFormedCells`). This excludes more than the rows where Python raises `ValueError`: `int()` also accepts a sign, surrounding whitespace and underscores between digits ("-1", "+2", " 3", "1_0"). The model also demands well-formed rows that Python never parses: all rows when the fight number is not positive or the list is empty, and the rows after the first rule that fires.
- The `except` path of `run` (decision_bot.py:382-388) is not modelled. It catches `AttributeError` and `PRAWException`, which come from the network and the lookup. An `AttributeError` also comes from `comment.author.name` when the author's account is deleted (decision_bot.py:279, 286, 294). On that path the program logs the comment's id and posts "I couldn't find this fight!" followed by the troubleshooting text (decision_bot.py:386). If that post fails too, it only records the error. The model does not produce this reply, and that id line is not part of `SessionLog`.
- Text.Lower: only ASCII letters are case-mapped. This covers `lower`, `upper` and `capwords`. Python maps all of Unicode. Whitespace is the full set `str.isspace` accepts, so `strip()` and `split()` are modelled on all of Unicode.
- Delivery.SplitLines: only '\n' ends a line. Python's `splitlines` also splits on '\r' and other separators.
- `fight_info` being `None` or an empty list are the same case: an empty sequence of records.
