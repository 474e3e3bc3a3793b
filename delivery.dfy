/** Delivery: the comment log that keeps the bot from answering a comment
    twice (`get_commented_list`, `log_comment`, `log_and_reply`), the reply
    plan of `send_reply`, and the per-comment gate of `run`, written over
    the reply builder. */
module Delivery {
  import opened Text
  import opened Records
  import opened Normalizer

  // ---------------------------------------------------------------------------
  // The comment log file, one id per line
  // ---------------------------------------------------------------------------

  /** Python's `text.splitlines()` for text whose only line break is `'\n'`:
      a final newline ends the last line rather than starting an empty one. */
  function SplitLines(s: string): (lines: seq<string>)
    ensures forall k :: 0 <= k < |lines| ==> '\n' !in lines[k]
  {
    if s == [] then []
    else if s[|s| - 1] == '\n' then Split(s[..|s| - 1], '\n')
    else Split(s, '\n')
  }

  /** The file is empty or its last line is terminated. */
  predicate LineEnded(s: string) {
    s == [] || s[|s| - 1] == '\n'
  }

  /** `'\n'.join(xs) + '\n'` is every line followed by a newline. */
  lemma {:induction false} JoinLinesForm(xs: seq<string>)
    requires xs != []
    ensures JoinLines(xs) == JoinWith("\n", xs) + "\n"
    decreases |xs|
  {
    var init := xs[..|xs| - 1];
    var last := xs[|xs| - 1];
    if |xs| == 1 {
      assert JoinLines(init) == "";
      assert "" + last == last;
    } else {
      JoinLinesForm(init);
      assert JoinLines(xs) == JoinWith("\n", init) + "\n" + last + "\n";
    }
  }

  /** Lines written one per line are read back unchanged. */
  lemma LinesOfJoinLines(xs: seq<string>)
    requires forall k :: 0 <= k < |xs| ==> '\n' !in xs[k]
    ensures SplitLines(JoinLines(xs)) == xs
    ensures LineEnded(JoinLines(xs))
  {
    if xs != [] {
      JoinLinesForm(xs);
      var s := JoinLines(xs);
      assert s[..|s| - 1] == JoinWith("\n", xs);
      JoinSplit(xs, '\n');
    }
  }

  /** A line-ended file is its lines written one per line. */
  lemma JoinLinesOfLines(s: string)
    requires LineEnded(s)
    ensures JoinLines(SplitLines(s)) == s
  {
    if s != [] {
      var body := s[..|s| - 1];
      SplitJoin(body, '\n');
      JoinLinesForm(Split(body, '\n'));
      assert s == body + "\n";
    }
  }

  /** `log_comment`'s append adds exactly one line, the id. */
  lemma LinesAppend(s: string, id: string)
    requires LineEnded(s) && '\n' !in id
    ensures SplitLines(s + id + "\n") == SplitLines(s) + [id]
    ensures LineEnded(s + id + "\n")
  {
    var xs := SplitLines(s);
    JoinLinesOfLines(s);
    var ys := xs + [id];
    assert ys[..|xs|] == xs;
    JoinLinesSnoc(ys, |xs|);
    assert ys[..|xs| + 1] == ys;
    LinesOfJoinLines(ys);
  }

  /** `s` written `n` times. */
  function Repeated(s: string, n: nat): string {
    if n == 0 then "" else Repeated(s, n - 1) + s
  }

  /** `n` lines holding `id`. */
  function Copies(id: string, n: nat): (r: seq<string>)
    ensures |r| == n && forall k :: 0 <= k < n ==> r[k] == id
  {
    if n == 0 then [] else Copies(id, n - 1) + [id]
  }

  /** Logging the same id `n` times adds `n` lines holding it. */
  lemma {:induction false} LinesAppendMany(s: string, id: string, n: nat)
    requires LineEnded(s) && '\n' !in id
    ensures SplitLines(s + Repeated(id + "\n", n)) == SplitLines(s) + Copies(id, n)
    ensures LineEnded(s + Repeated(id + "\n", n))
  {
    if n == 0 {
      assert s + "" == s;
    } else {
      var t := s + Repeated(id + "\n", n - 1);
      LinesAppendMany(s, id, n - 1);
      LinesAppend(t, id);
      RepeatedStep(s, id, n);
      SnocAssoc(SplitLines(s), Copies(id, n - 1), id);
    }
  }

  lemma RepeatedStep(s: string, id: string, n: nat)
    requires n > 0
    ensures s + Repeated(id + "\n", n) == s + Repeated(id + "\n", n - 1) + id + "\n"
  {
    AppendAssoc(s, Repeated(id + "\n", n - 1), id + "\n");
    AppendAssoc(s + Repeated(id + "\n", n - 1), id, "\n");
  }

  lemma SnocAssoc(xs: seq<string>, ys: seq<string>, id: string)
    ensures xs + (ys + [id]) == xs + ys + [id]
  {
  }

  /** The file `get_commented_list` leaves behind: with more than 100 ids,
      `'\n'.join(ids[-50:]) + '\n'`; otherwise the file as it was. */
  function Trimmed(s: string): string {
    var ids := SplitLines(s);
    if |ids| > 100 then JoinWith("\n", ids[|ids| - 50..]) + "\n" else s
  }

  /** After the trim the file holds at most 100 ids, the newest ones of the
      old file in their order, and all of them when there were at most 100. */
  lemma TrimmedKeepsNewest(s: string)
    ensures var ids := SplitLines(s);
      var kept := SplitLines(Trimmed(s));
      && |kept| <= 100
      && kept == ids[|ids| - |kept|..]
      && (|ids| > 100 ==> |kept| == 50)
      && (|ids| <= 100 ==> kept == ids)
      && LineEnded(Trimmed(s)) == (|ids| > 100 || LineEnded(s))
  {
    var ids := SplitLines(s);
    if |ids| > 100 {
      var newest := ids[|ids| - 50..];
      JoinLinesForm(newest);
      LinesOfJoinLines(newest);
    }
  }

  // ---------------------------------------------------------------------------
  // What the bot does, in order
  // ---------------------------------------------------------------------------

  /** The two side effects of `log_and_reply`: an id appended to the comment
      log, and a reply posted under the comment with that id. */
  datatype Event = Logged(id: string) | Replied(id: string, text: string)

  /** The events of replying `texts`, one after another, to comment `id`. */
  function Trace(id: string, texts: seq<string>): (t: seq<Event>)
    ensures |t| == 2 * |texts|
  {
    if texts == [] then [] else Trace(id, texts[..|texts| - 1]) + [Logged(id), Replied(id, texts[|texts| - 1])]
  }

  /** Every reply is preceded, immediately, by logging the comment's id. */
  lemma {:induction false} TraceAlternates(id: string, texts: seq<string>)
    ensures forall j :: 0 <= j < |texts| ==>
      Trace(id, texts)[2 * j] == Logged(id) && Trace(id, texts)[2 * j + 1] == Replied(id, texts[j])
  {
    if texts != [] {
      var init := texts[..|texts| - 1];
      TraceAlternates(id, init);
      forall j | 0 <= j < |texts|
        ensures Trace(id, texts)[2 * j] == Logged(id) && Trace(id, texts)[2 * j + 1] == Replied(id, texts[j])
      {
        if j < |init| {
          assert texts[j] == init[j];
        }
      }
    }
  }

  /** Every event of a trace is about its comment. */
  lemma {:induction false} TraceIds(id: string, texts: seq<string>)
    ensures forall j :: 0 <= j < |Trace(id, texts)| ==> Trace(id, texts)[j].id == id
  {
    if texts != [] {
      TraceIds(id, texts[..|texts| - 1]);
    }
  }

  lemma TraceStartsLogged(id: string, texts: seq<string>)
    requires texts != []
    ensures Trace(id, texts)[0] == Logged(id)
  {
    TraceAlternates(id, texts);
    assert Trace(id, texts)[2 * 0] == Logged(id);
  }

  lemma TraceSnoc(id: string, texts: seq<string>, text: string)
    ensures Trace(id, texts + [text]) == Trace(id, texts) + [Logged(id), Replied(id, text)]
  {
    assert (texts + [text])[..|texts|] == texts;
  }

  // ---------------------------------------------------------------------------
  // The reply plan of send_reply
  // ---------------------------------------------------------------------------

  /** How the reply for one record with score tables is built for the
      comment's author; the bot's own builder is `build_comment_reply`
      (module Bot). */
  type Builder = (Fight, string) -> string

  /** Position of the first record without score tables (`|fights|` when
      there is none). */
  function FirstMissing(fights: seq<Fight>): (m: nat)
    ensures m <= |fights|
    ensures forall j :: 0 <= j < m ==> fights[j].tables.Some?
    ensures m < |fights| ==> fights[m].tables.None?
  {
    if fights == [] then 0
    else if fights[0].tables.None? then 0
    else 1 + FirstMissing(fights[1..])
  }

  /** The reply when the lookup found nothing: a joke for Dana White or
      USADA, the failure text otherwise. */
  function Fallback(input: string, failText: string, victory: string): string {
    if Contains(input, "dana") then "Dana defeats Goof" + victory
    else if Contains(input, "usada") then "USADA" + victory
    else failText
  }

  /** The built replies of the first `k` records. */
  function Composed(fights: seq<Fight>, author: string, build: Builder, k: nat): (r: seq<string>)
    requires k <= |fights|
    ensures |r| == k
  {
    seq(k, j requires 0 <= j < k => build(fights[j], author))
  }

  /** The replies `send_reply` posts, in order: one built reply per record
      up to the first record without tables, which gets the failure text
      and ends the loop; a lone fallback when there are no records.
      `failText` and `victory` are what the random draws produced. */
  function ReplyPlan(fights: seq<Fight>, author: string, input: string, build: Builder,
                     failText: string, victory: string): seq<string>
  {
    if fights == [] then [Fallback(input, failText, victory)]
    else
      var m := FirstMissing(fights);
      Composed(fights, author, build, m) + (if m < |fights| then [failText] else [])
  }

  /** The plan has one reply per record when every record has tables;
      otherwise it stops with one failure reply at the first record without;
      it is never empty and never longer than the list. */
  lemma ReplyPlanShape(fights: seq<Fight>, author: string, input: string, build: Builder,
                       failText: string, victory: string)
    ensures var plan := ReplyPlan(fights, author, input, build, failText, victory);
      var m := FirstMissing(fights);
      && 1 <= |plan|
      && (fights != [] ==> |plan| <= |fights|)
      && (fights != [] && m == |fights| ==> |plan| == |fights|)
      && (m < |fights| ==> |plan| == m + 1 && plan[m] == failText)
      && (forall j :: 0 <= j < m ==> plan[j] == build(fights[j], author))
  {
  }

  /** With no records there is exactly one reply; a mention of Dana wins over
      a mention of USADA. */
  lemma FallbackCases(author: string, input: string, build: Builder, failText: string, victory: string)
    ensures var plan := ReplyPlan([], author, input, build, failText, victory);
      && |plan| == 1
      && (Contains(input, "dana") ==> plan[0] == "Dana defeats Goof" + victory)
      && (!Contains(input, "dana") && Contains(input, "usada") ==> plan[0] == "USADA" + victory)
      && (!Contains(input, "dana") && !Contains(input, "usada") ==> plan[0] == failText)
  {
  }

  lemma ComposedSnoc(fights: seq<Fight>, author: string, build: Builder, k: nat)
    requires k < |fights|
    ensures Composed(fights, author, build, k + 1)
         == Composed(fights, author, build, k) + [build(fights[k], author)]
  {
  }

  /** The plan when the loop meets a record without tables at `k`. */
  lemma PlanStops(fights: seq<Fight>, author: string, input: string, build: Builder,
                  failText: string, victory: string, k: nat)
    requires k < |fights| && k <= FirstMissing(fights) && fights[k].tables.None?
    ensures k == FirstMissing(fights)
    ensures ReplyPlan(fights, author, input, build, failText, victory) == Composed(fights, author, build, k) + [failText]
  {
  }

  /** The plan when every record has tables. */
  lemma PlanComplete(fights: seq<Fight>, author: string, input: string, build: Builder,
                     failText: string, victory: string)
    requires fights != [] && FirstMissing(fights) == |fights|
    ensures ReplyPlan(fights, author, input, build, failText, victory) == Composed(fights, author, build, |fights|)
  {
  }

  // ---------------------------------------------------------------------------
  // run's gate
  // ---------------------------------------------------------------------------

  datatype Comment = Comment(id: string, author: string, body: string)

  /** What the fight lookup, the rematch handling and the random draws give
      for one comment. */
  datatype Outcome = Outcome(fights: seq<Fight>, failText: string, victory: string)

  /** `comment.body.lower().strip()`. */
  function CommentText(body: string): string {
    Strip(Lower(body), Whitespace)
  }

  /** A comment is answered when a trigger occurs in it and its id is not in
      the list loaded when the stream started. */
  predicate Answered(c: Comment, spellings: seq<string>, commented: seq<string>) {
    TriggerIndex(CommentText(c.body), spellings) != -1 && c.id !in commented
  }

  /** The fight the comment asks for: the text from the trigger on, cleaned,
      with nicknames replaced. */
  function InputFight(c: Comment, spellings: seq<string>, aliases: AliasTable): string
    requires TriggerIndex(CommentText(c.body), spellings) != -1
  {
    var text := CommentText(c.body);
    ReplaceNicknames(SanitizeInput(text[TriggerIndex(text, spellings)..], spellings), aliases)
  }

  /** The gate of `run`'s loop: the fight asked for when the comment is
      answered, nothing when it is passed over. */
  function Gate(c: Comment, spellings: seq<string>, aliases: AliasTable, commented: seq<string>): Option<string> {
    if Answered(c, spellings, commented) then Some(InputFight(c, spellings, aliases)) else None
  }

  /** The replies one comment of the stream gets: none when the gate passes
      it over, the reply plan for its fight otherwise. */
  function PlanOf(c: Comment, o: Outcome, spellings: seq<string>, aliases: AliasTable,
                  build: Builder, commented: seq<string>): Option<seq<string>>
  {
    match Gate(c, spellings, aliases, commented)
    case None => None
    case Some(input) => Some(ReplyPlan(o.fights, c.author, input, build, o.failText, o.victory))
  }

  /** A comment gets replies exactly when it is answered, and then at least one. */
  lemma PlanOfShape(c: Comment, o: Outcome, spellings: seq<string>, aliases: AliasTable,
                    build: Builder, commented: seq<string>)
    ensures var plan := PlanOf(c, o, spellings, aliases, build, commented);
      && (plan.Some? <==> Answered(c, spellings, commented))
      && (plan.Some? ==> plan.value != [])
  {
    if Answered(c, spellings, commented) {
      ReplyPlanShape(o.fights, c.author, InputFight(c, spellings, aliases), build, o.failText, o.victory);
    }
  }

  /** What `run` does with one comment of the stream, given its outcome. */
  type Planner = (Comment, Outcome) -> Option<seq<string>>

  /** The planner of a stream answered with these triggers, nicknames,
      reply builder and loaded list. */
  function PlanFor(spellings: seq<string>, aliases: AliasTable, build: Builder, commented: seq<string>): Planner {
    (c: Comment, o: Outcome) => PlanOf(c, o, spellings, aliases, build, commented)
  }

  /** A planner that agrees with `PlanOf` everywhere. The loop over the
      stream is proved against such a planner, so that it never has to look
      inside the gate. */
  ghost predicate Follows(planner: Planner, spellings: seq<string>, aliases: AliasTable,
                          build: Builder, commented: seq<string>)
  {
    forall c: Comment, o: Outcome {:trigger PlanOf(c, o, spellings, aliases, build, commented)} ::
      planner(c, o) == PlanOf(c, o, spellings, aliases, build, commented)
  }

  lemma PlanForFollows(spellings: seq<string>, aliases: AliasTable, build: Builder, commented: seq<string>)
    ensures Follows(PlanFor(spellings, aliases, build, commented), spellings, aliases, build, commented)
  {
  }

  /** The plans of every comment of the stream, in stream order. */
  function Plans(comments: seq<Comment>, outcomes: seq<Outcome>, planner: Planner): (r: seq<Option<seq<string>>>)
    requires |outcomes| == |comments|
    ensures |r| == |comments|
    decreases |comments|
  {
    if comments == [] then []
    else
      var n := |comments| - 1;
      Plans(comments[..n], outcomes[..n], planner) + [planner(comments[n], outcomes[n])]
  }

  /** The events one comment causes, given its plan. */
  function CommentEvents(id: string, plan: Option<seq<string>>): seq<Event> {
    match plan
    case None => []
    case Some(texts) => Trace(id, texts)
  }

  /** A comment with a plan logs its id before its first reply; one without
      causes nothing; every event is about the comment's id. */
  lemma CommentEventsShape(id: string, plan: Option<seq<string>>)
    ensures var ev := CommentEvents(id, plan);
      && (plan.None? || plan.value == [] <==> ev == [])
      && (plan.Some? && plan.value != [] ==> ev[0] == Logged(id))
      && (forall j :: 0 <= j < |ev| ==> ev[j].id == id)
  {
    if plan.Some? {
      if plan.value != [] {
        TraceStartsLogged(id, plan.value);
      }
      TraceIds(id, plan.value);
    }
  }

  /** The events of answering the first `n` comments of the stream with
      their plans. */
  function Session(comments: seq<Comment>, plans: seq<Option<seq<string>>>, n: nat): seq<Event>
    requires n <= |comments| && n <= |plans|
  {
    if n == 0 then []
    else Session(comments, plans, n - 1) + CommentEvents(comments[n - 1].id, plans[n - 1])
  }

  /** The events of a prefix of the stream do not depend on what follows. */
  lemma {:induction false} SessionPrefix(comments: seq<Comment>, plans: seq<Option<seq<string>>>,
                                         more: seq<Comment>, morePlans: seq<Option<seq<string>>>, n: nat)
    requires n <= |comments| && n <= |plans|
    ensures Session(comments + more, plans + morePlans, n) == Session(comments, plans, n)
  {
    if n > 0 {
      SessionPrefix(comments, plans, more, morePlans, n - 1);
      assert (comments + more)[n - 1] == comments[n - 1];
      assert (plans + morePlans)[n - 1] == plans[n - 1];
    }
  }

  /** One more comment, with its plan, extends the events by its own. */
  lemma SessionPush(comments: seq<Comment>, plans: seq<Option<seq<string>>>, plan: Option<seq<string>>,
                    start: seq<Event>, before: seq<Event>, after: seq<Event>)
    requires |plans| < |comments|
    requires before == start + Session(comments, plans, |plans|)
    requires after == before + CommentEvents(comments[|plans|].id, plan)
    ensures after == start + Session(comments, plans + [plan], |plans| + 1)
  {
    SessionSnocPlan(comments, plans, plan);
    EventsAssoc(start, Session(comments, plans, |plans|), CommentEvents(comments[|plans|].id, plan));
  }

  /** One more plan adds that comment's events at the end. */
  lemma SessionSnocPlan(comments: seq<Comment>, plans: seq<Option<seq<string>>>, plan: Option<seq<string>>)
    requires |plans| < |comments|
    ensures Session(comments, plans + [plan], |plans| + 1)
      == Session(comments, plans, |plans|) + CommentEvents(comments[|plans|].id, plan)
  {
    SessionLaterPlans(comments, plans, [plan], |plans|);
  }

  lemma EventsAssoc(a: seq<Event>, b: seq<Event>, c: seq<Event>)
    ensures (a + b) + c == a + (b + c)
  {
  }

  /** Plans of later comments do not change the events of earlier ones. */
  lemma {:induction false} SessionLaterPlans(comments: seq<Comment>, plans: seq<Option<seq<string>>>,
                                             morePlans: seq<Option<seq<string>>>, n: nat)
    requires n <= |comments| && n <= |plans|
    ensures Session(comments, plans + morePlans, n) == Session(comments, plans, n)
  {
    if n > 0 {
      SessionLaterPlans(comments, plans, morePlans, n - 1);
      assert (plans + morePlans)[n - 1] == plans[n - 1];
    }
  }

  /** Logging an id does not add it to the list loaded at the start: the same
      triggering comment met twice in one stream gets its replies twice. */
  lemma AnsweredTwice(c: Comment, o: Outcome, spellings: seq<string>, aliases: AliasTable,
                      build: Builder, commented: seq<string>)
    requires Answered(c, spellings, commented)
    ensures var plan := ReplyPlan(o.fights, c.author, InputFight(c, spellings, aliases), build, o.failText, o.victory);
      Session([c, c], Plans([c, c], [o, o], PlanFor(spellings, aliases, build, commented)), 2)
        == Trace(c.id, plan) + Trace(c.id, plan)
  {
    var plan := PlanOf(c, o, spellings, aliases, build, commented);
    PlansTwice(c, o, spellings, aliases, build, commented);
    TwiceOver(c, plan);
  }

  lemma PlansTwice(c: Comment, o: Outcome, spellings: seq<string>, aliases: AliasTable,
                   build: Builder, commented: seq<string>)
    ensures var plan := PlanOf(c, o, spellings, aliases, build, commented);
      Plans([c, c], [o, o], PlanFor(spellings, aliases, build, commented)) == [plan, plan]
  {
    assert [c, c][..1] == [c] && [o, o][..1] == [o];
    assert [c][..0] == [] && [o][..0] == [];
  }

  lemma TwiceOver(c: Comment, plan: Option<seq<string>>)
    ensures Session([c, c], [plan, plan], 2) == CommentEvents(c.id, plan) + CommentEvents(c.id, plan)
  {
    assert Session([c, c], [plan, plan], 1) == [] + CommentEvents(c.id, plan);
  }

  /** A comment whose id is in the loaded list, or that holds no trigger,
      adds nothing to the stream's events. */
  lemma SkippedComment(comments: seq<Comment>, outcomes: seq<Outcome>, spellings: seq<string>,
                       aliases: AliasTable, build: Builder, commented: seq<string>, c: Comment, o: Outcome)
    requires |outcomes| == |comments|
    requires c.id in commented || TriggerIndex(CommentText(c.body), spellings) == -1
    ensures Session(comments + [c], Plans(comments + [c], outcomes + [o], PlanFor(spellings, aliases, build, commented)), |comments| + 1)
         == Session(comments, Plans(comments, outcomes, PlanFor(spellings, aliases, build, commented)), |comments|)
  {
    var ps := Plans(comments, outcomes, PlanFor(spellings, aliases, build, commented));
    var p := PlanOf(c, o, spellings, aliases, build, commented);
    assert p == None;
    assert Plans(comments + [c], outcomes + [o], PlanFor(spellings, aliases, build, commented)) == ps + [p];
    SessionPrefix(comments, ps, [c], [p], |comments|);
    assert (comments + [c])[|comments|] == c && (ps + [p])[|comments|] == p;
  }

  /** Once logged, an id is in the list the next load returns. */
  lemma ReloadSeesLogged(s: string, id: string)
    requires LineEnded(s) && '\n' !in id
    ensures id in SplitLines(s + id + "\n")
  {
    LinesAppend(s, id);
    assert (SplitLines(s) + [id])[|SplitLines(s)|] == id;
  }

  /** One more `log_and_reply` extends the trace and the file by one reply. */
  lemma SentStep(id: string, sent: seq<string>, text: string, start: string, before: string, k: nat)
    requires before == start + Repeated(id + "\n", k)
    ensures before + id + "\n" == start + Repeated(id + "\n", k + 1)
    ensures Trace(id, sent + [text]) == Trace(id, sent) + [Logged(id), Replied(id, text)]
  {
    TraceSnoc(id, sent, text);
    AppendAssoc(start, Repeated(id + "\n", k), id + "\n");
    AppendAssoc(before, id, "\n");
  }

  /** What one comment appends to the comment log: its id once per reply. */
  function PlanLog(id: string, plan: Option<seq<string>>): string {
    match plan
    case None => ""
    case Some(texts) => Repeated(id + "\n", |texts|)
  }

  /** What answering the first `n` comments of the stream appends to the
      comment log. */
  function SessionLog(comments: seq<Comment>, plans: seq<Option<seq<string>>>, n: nat): string
    requires n <= |comments| && n <= |plans|
  {
    if n == 0 then ""
    else SessionLog(comments, plans, n - 1) + PlanLog(comments[n - 1].id, plans[n - 1])
  }

  /** Plans of later comments do not change what earlier ones log. */
  lemma {:induction false} SessionLogLaterPlans(comments: seq<Comment>, plans: seq<Option<seq<string>>>,
                                                morePlans: seq<Option<seq<string>>>, n: nat)
    requires n <= |comments| && n <= |plans|
    ensures SessionLog(comments, plans + morePlans, n) == SessionLog(comments, plans, n)
  {
    if n > 0 {
      SessionLogLaterPlans(comments, plans, morePlans, n - 1);
      assert (plans + morePlans)[n - 1] == plans[n - 1];
    }
  }

  /** Handling one more comment appends exactly what it logs. */
  lemma SessionLogPush(comments: seq<Comment>, plans: seq<Option<seq<string>>>, plan: Option<seq<string>>,
                       start: string, before: string, after: string)
    requires |plans| < |comments|
    requires before == start + SessionLog(comments, plans, |plans|)
    requires after == before + PlanLog(comments[|plans|].id, plan)
    ensures after == start + SessionLog(comments, plans + [plan], |plans| + 1)
  {
    SessionLogLaterPlans(comments, plans, [plan], |plans|);
    AppendAssoc(start, SessionLog(comments, plans, |plans|), PlanLog(comments[|plans|].id, plan));
  }

  /** The session only appends lines: every line of the log before it is a
      line after it, and so is the id of every comment that got a reply. */
  lemma {:induction false} SessionLogLines(s: string, comments: seq<Comment>, plans: seq<Option<seq<string>>>, n: nat)
    requires n <= |comments| && n <= |plans|
    requires LineEnded(s)
    requires forall k :: 0 <= k < n ==> '\n' !in comments[k].id
    ensures LineEnded(s + SessionLog(comments, plans, n))
    ensures forall x :: x in SplitLines(s) ==> x in SplitLines(s + SessionLog(comments, plans, n))
    ensures forall k :: 0 <= k < n && plans[k].Some? && plans[k].value != [] ==>
      comments[k].id in SplitLines(s + SessionLog(comments, plans, n))
  {
    if n > 0 {
      SessionLogLines(s, comments, plans, n - 1);
      var t := s + SessionLog(comments, plans, n - 1);
      var id := comments[n - 1].id;
      AppendAssoc(s, SessionLog(comments, plans, n - 1), PlanLog(id, plans[n - 1]));
      assert s + SessionLog(comments, plans, n) == t + PlanLog(id, plans[n - 1]);
      PlanLogKeeps(t, id, plans[n - 1]);
    } else {
      assert s + SessionLog(comments, plans, n) == s;
    }
  }

  /** One comment's log lines keep the log's lines and add its id when it
      got a reply. */
  lemma PlanLogKeeps(t: string, id: string, plan: Option<seq<string>>)
    requires LineEnded(t) && '\n' !in id
    ensures LineEnded(t + PlanLog(id, plan))
    ensures forall x :: x in SplitLines(t) ==> x in SplitLines(t + PlanLog(id, plan))
    ensures plan.Some? && plan.value != [] ==> id in SplitLines(t + PlanLog(id, plan))
  {
    match plan {
      case None =>
        assert t + PlanLog(id, plan) == t;
      case Some(texts) =>
        LinesAppendMany(t, id, |texts|);
        if texts != [] {
          assert (SplitLines(t) + Copies(id, |texts|))[|SplitLines(t)|] == id;
        }
    }
  }

  /** After a session that started from a newline-ended log, the id of
      every comment that got a reply is in the log the next start-up loads. */
  lemma ServedIdsLogged(s: string, comments: seq<Comment>, plans: seq<Option<seq<string>>>)
    requires |plans| == |comments|
    requires LineEnded(s)
    requires forall k :: 0 <= k < |comments| ==> '\n' !in comments[k].id
    ensures forall k :: 0 <= k < |comments| && plans[k].Some? && plans[k].value != [] ==>
      comments[k].id in SplitLines(Trimmed(s) + SessionLog(comments, plans, |comments|))
  {
    TrimmedKeepsNewest(s);
    SessionLogLines(Trimmed(s), comments, plans, |comments|);
  }

  /** Plan `k` of the stream is the planner's plan for comment `k`. */
  lemma {:induction false} PlansAt(comments: seq<Comment>, outcomes: seq<Outcome>, planner: Planner, k: nat)
    requires |outcomes| == |comments| && k < |comments|
    ensures Plans(comments, outcomes, planner)[k] == planner(comments[k], outcomes[k])
    decreases |comments|
  {
    var n := |comments| - 1;
    if k < n {
      PlansAt(comments[..n], outcomes[..n], planner, k);
    }
  }

  /** A comment `run` answers has its id in the comment log the next
      start-up loads, so a restarted bot passes it over. */
  lemma AnsweredLogged(s: string, comments: seq<Comment>, outcomes: seq<Outcome>, spellings: seq<string>,
                       aliases: AliasTable, build: Builder, k: nat)
    requires |outcomes| == |comments| && k < |comments|
    requires LineEnded(s)
    requires forall j :: 0 <= j < |comments| ==> '\n' !in comments[j].id
    requires Answered(comments[k], spellings, SplitLines(s))
    ensures comments[k].id in SplitLines(Trimmed(s)
      + SessionLog(comments, Plans(comments, outcomes, PlanFor(spellings, aliases, build, SplitLines(s))), |comments|))
  {
    var planner := PlanFor(spellings, aliases, build, SplitLines(s));
    PlansAt(comments, outcomes, planner, k);
    PlanOfShape(comments[k], outcomes[k], spellings, aliases, build, SplitLines(s));
    ServedIdsLogged(s, comments, Plans(comments, outcomes, planner));
  }

  // ---------------------------------------------------------------------------
  // The bot's state
  // ---------------------------------------------------------------------------

  /** The comment log file's text and the side effects so far. */
  class Ledger {
    var log: string
    var events: seq<Event>

    constructor (log: string)
      ensures this.log == log && events == []
    {
      this.log := log;
      events := [];
    }

    /** `get_commented_list`: the full list of logged ids; the file is
        rewritten to its newest 50 ids when it holds more than 100. */
    method Load() returns (commented: seq<string>)
      modifies this
      ensures commented == SplitLines(old(log))
      ensures log == Trimmed(old(log))
      ensures events == old(events)
    {
      commented := SplitLines(log);
      if |commented| > 100 {
        log := JoinWith("\n", commented[|commented| - 50..]) + "\n";
      }
    }

    /** `log_comment`: the id is appended to the file, one line. */
    method LogComment(id: string)
      modifies this
      ensures log == old(log) + id + "\n"
      ensures events == old(events) + [Logged(id)]
    {
      log := log + id + "\n";
      events := events + [Logged(id)];
    }

    /** `log_and_reply`: the id is logged before the reply is posted. */
    method LogAndReply(id: string, text: string)
      modifies this
      ensures log == old(log) + id + "\n"
      ensures events == old(events) + [Logged(id), Replied(id, text)]
    {
      LogComment(id);
      events := events + [Replied(id, text)];
    }

    /** `send_reply` for the comment `id` by `author`. */
    method SendReply(fights: seq<Fight>, id: string, author: string, input: string, build: Builder,
                     failText: string, victory: string)
      modifies this
      ensures events == old(events) + Trace(id, ReplyPlan(fights, author, input, build, failText, victory))
      ensures log == old(log) + Repeated(id + "\n", |ReplyPlan(fights, author, input, build, failText, victory)|)
    {
      if |fights| > 0 {
        ghost var sent: seq<string> := [];
        for k := 0 to |fights|
          invariant k <= FirstMissing(fights)
          invariant sent == Composed(fights, author, build, k)
          invariant events == old(events) + Trace(id, sent)
          invariant log == old(log) + Repeated(id + "\n", k)
        {
          var fight := fights[k];
          if fight.tables.None? {
            ghost var before := log;
            LogAndReply(id, failText);
            SentStep(id, sent, failText, old(log), before, k);
            PlanStops(fights, author, input, build, failText, victory, k);
            return;
          }
          var reply := build(fight, author);
          ComposedSnoc(fights, author, build, k);
          ghost var before := log;
          LogAndReply(id, reply);
          SentStep(id, sent, reply, old(log), before, k);
          sent := sent + [reply];
        }
        PlanComplete(fights, author, input, build, failText, victory);
      } else {
        var text := failText;
        if Contains(input, "dana") {
          text := "Dana defeats Goof" + victory;
        } else if Contains(input, "usada") {
          text := "USADA" + victory;
        }
        LogAndReply(id, text);
        SentStep(id, [], text, old(log), old(log), 0);
      }
    }

    /** One comment of `run`'s loop: answered when a trigger occurs in it
        and its id is not in the loaded list. */
    method Answer(c: Comment, o: Outcome, spellings: seq<string>, aliases: AliasTable,
                  build: Builder, commented: seq<string>, ghost planner: Planner)
      returns (ghost plan: Option<seq<string>>)
      requires Follows(planner, spellings, aliases, build, commented)
      modifies this
      ensures plan == planner(c, o)
      ensures events == old(events) + CommentEvents(c.id, plan)
      ensures log == old(log) + PlanLog(c.id, plan)
    {
      plan := PlanOf(c, o, spellings, aliases, build, commented);
      var text := Strip(Lower(c.body), Whitespace);
      var index := TriggerIndex(text, spellings);
      assert text == CommentText(c.body);
      if index != -1 {
        if c.id !in commented {
          var input := ReplaceNicknames(SanitizeInput(text[index..], spellings), aliases);
          assert input == InputFight(c, spellings, aliases);
          SendReply(o.fights, c.id, c.author, input, build, o.failText, o.victory);
        }
      }
    }

    /** The comment loop of `run` after the list is loaded: the comments
        in stream order, each with the plan the planner gives it. */
    method Stream(comments: seq<Comment>, outcomes: seq<Outcome>, spellings: seq<string>,
                  aliases: AliasTable, build: Builder, commented: seq<string>, ghost planner: Planner)
      returns (ghost plans: seq<Option<seq<string>>>)
      requires |outcomes| == |comments|
      requires Follows(planner, spellings, aliases, build, commented)
      modifies this
      ensures plans == Plans(comments, outcomes, planner)
      ensures events == old(events) + Session(comments, plans, |comments|)
      ensures log == old(log) + SessionLog(comments, plans, |comments|)
    {
      plans := [];
      for i := 0 to |comments|
        invariant plans == Plans(comments[..i], outcomes[..i], planner)
        invariant events == old(events) + Session(comments, plans, i)
        invariant log == old(log) + SessionLog(comments, plans, i)
      {
        ghost var before := events;
        ghost var logBefore := log;
        var plan := Answer(comments[i], outcomes[i], spellings, aliases, build, commented, planner);
        SessionPush(comments, plans, plan, old(events), before, events);
        SessionLogPush(comments, plans, plan, old(log), logBefore, log);
        plans := plans + [plan];
        assert comments[..i + 1][..i] == comments[..i] && outcomes[..i + 1][..i] == outcomes[..i];
      }
      assert comments[..|comments|] == comments && outcomes[..|comments|] == outcomes;
    }

    /** `run`: load the list once, then answer the stream against it. */
    method Serve(comments: seq<Comment>, outcomes: seq<Outcome>, spellings: seq<string>,
                 aliases: AliasTable, build: Builder)
      requires |outcomes| == |comments|
      modifies this
      ensures events == old(events)
        + Session(comments, Plans(comments, outcomes, PlanFor(spellings, aliases, build, SplitLines(old(log)))), |comments|)
      ensures log == Trimmed(old(log))
        + SessionLog(comments, Plans(comments, outcomes, PlanFor(spellings, aliases, build, SplitLines(old(log)))), |comments|)
    {
      var commented := Load();
      PlanForFollows(spellings, aliases, build, commented);
      ghost var plans := Stream(comments, outcomes, spellings, aliases, build, commented,
                                PlanFor(spellings, aliases, build, commented));
    }
  }
}
