/** The judge line and the whole reply (`build_judge_text`,
    `build_comment_reply`). */
module Reply {
  import opened Text
  import opened Records
  import opened Normalizer
  import opened Scorecard
  import opened Media

  const JudgesLead := "Judges, in order: "

  // ---------------------------------------------------------------------------
  // The judge line
  // ---------------------------------------------------------------------------

  function JudgeNames(tables: seq<ScoreTable>): (names: seq<string>)
    ensures |names| == |tables|
  {
    seq(|tables|, i requires 0 <= i < |tables| => tables[i].judge)
  }

  /** `judge_text` after the loop: every judge's name followed by `", "`. */
  function JudgeList(tables: seq<ScoreTable>): string {
    JudgesLead + Concat(seq(|tables|, i requires 0 <= i < |tables| => tables[i].judge + ", "))
  }

  /** `build_judge_text`. */
  function JudgeText(tables: seq<ScoreTable>, author: string): string {
    "*^(" + Strip(JudgeList(tables), StripChars) + ". Summoned by " + author + ".)*"
  }

  lemma {:induction false} ConcatWithSep(names: seq<string>, sep: string, n: nat)
    requires 1 <= n <= |names|
    ensures Concat(seq(n, i requires 0 <= i < n => names[i] + sep)) == JoinWith(sep, names[..n]) + sep
  {
    var pieces := seq(n, i requires 0 <= i < n => names[i] + sep);
    if n == 1 {
      assert pieces[..0] == [];
      assert names[..1] == [names[0]];
    } else {
      var shorter := seq(n - 1, i requires 0 <= i < n - 1 => names[i] + sep);
      assert pieces[..n - 1] == shorter;
      ConcatWithSep(names, sep, n - 1);
      assert names[..n][..n - 1] == names[..n - 1];
      AppendAssoc(JoinWith(sep, names[..n - 1]) + sep, names[n - 1], sep);
    }
  }

  /** `sep.join(parts)` ends with the last part. */
  lemma JoinWithEnds(sep: string, parts: seq<string>)
    requires parts != []
    ensures |parts[|parts| - 1]| <= |JoinWith(sep, parts)|
    ensures JoinWith(sep, parts)[|JoinWith(sep, parts)| - |parts[|parts| - 1]|..] == parts[|parts| - 1]
  {
  }

  /** The list is the lead-in, the names joined by `", "`, then a last `", "`. */
  lemma JudgeListJoined(tables: seq<ScoreTable>)
    requires tables != []
    ensures JudgeList(tables) == JudgesLead + JoinWith(", ", JudgeNames(tables)) + ", "
  {
    var names := JudgeNames(tables);
    var n := |tables|;
    assert seq(n, i requires 0 <= i < n => names[i] + ", ")
        == seq(|tables|, i requires 0 <= i < |tables| => tables[i].judge + ", ");
    ConcatWithSep(names, ", ", n);
    assert names[..n] == names;
    AppendAssoc(JudgesLead, JoinWith(", ", names), ", ");
  }

  /** The joined names end with the last name's last character. */
  lemma JoinedLastChar(tables: seq<ScoreTable>)
    requires tables != [] && tables[|tables| - 1].judge != []
    ensures var x := JudgesLead + JoinWith(", ", JudgeNames(tables));
      var last := tables[|tables| - 1].judge;
      x != [] && x[0] == 'J' && x[|x| - 1] == last[|last| - 1]
  {
    var names := JudgeNames(tables);
    var joined := JoinWith(", ", names);
    JoinWithEnds(", ", names);
    var last := names[|names| - 1];
    EndsWithLast(joined, last);
    LeadThenLast(JudgesLead, joined);
  }

  lemma EndsWithLast(s: string, t: string)
    requires t != [] && |t| <= |s| && s[|s| - |t|..] == t
    ensures s[|s| - 1] == t[|t| - 1]
  {
    assert s[|s| - |t|..][|t| - 1] == s[|s| - 1];
  }

  lemma LeadThenLast(lead: string, s: string)
    requires lead == JudgesLead && s != []
    ensures var x := lead + s; x[0] == 'J' && x[|x| - 1] == s[|s| - 1]
  {
  }

  /** When the last judge's name ends in a letter or digit, the line is the
      names joined by `", "`: the final `", "` goes and nothing else does. */
  lemma JudgeListNames(tables: seq<ScoreTable>)
    requires tables != []
    requires var last := tables[|tables| - 1].judge; last != [] && last[|last| - 1] !in StripChars
    ensures Strip(JudgeList(tables), StripChars) == JudgesLead + JoinWith(", ", JudgeNames(tables))
  {
    JudgeListJoined(tables);
    JoinedLastChar(tables);
    StripCharsMembers('J');
    StripCleanSuffix(JudgesLead + JoinWith(", ", JudgeNames(tables)), ", ", StripChars);
  }

  /** With no judges only the lead-in remains, its `": "` stripped. */
  lemma JudgeListEmpty(tables: seq<ScoreTable>)
    requires tables == []
    ensures Strip(JudgeList(tables), StripChars) == "Judges, in order"
  {
    assert JudgeList(tables) == JudgesLead + "";
    StripLead(JudgesLead + "", "Judges, in order");
  }

  lemma StripLead(s: string, x: string)
    requires s == JudgesLead + "" && x == "Judges, in order"
    ensures Strip(s, StripChars) == x
  {
    assert s == x + ": " && x[0] == 'J' && x[|x| - 1] == 'r';
    StripCharsMembers('J');
    StripCharsMembers('r');
    StripCleanSuffix(x, ": ", StripChars);
  }

  // ---------------------------------------------------------------------------
  // Easter eggs and the whole reply
  // ---------------------------------------------------------------------------

  /** `(fragment, prefix)`: the prefix goes in front of replies whose result
      mentions the fragment. */
  type Egg = (string, string)

  /** Position of the first egg whose fragment occurs in the result, from `k` on. */
  function FirstEggFrom(eggs: seq<Egg>, result: string, k: nat): (r: Option<nat>)
    requires k <= |eggs|
    ensures r.None? <==> forall j :: k <= j < |eggs| ==> !Contains(result, eggs[j].0)
    ensures r.Some? ==> (k <= r.value < |eggs| && Contains(result, eggs[r.value].0)
      && forall j :: k <= j < r.value ==> !Contains(result, eggs[j].0))
    decreases |eggs| - k
  {
    if k == |eggs| then None
    else if Contains(result, eggs[k].0) then Some(k)
    else FirstEggFrom(eggs, result, k + 1)
  }

  /** The loop over `cfg['easter_eggs']` with its `break`. */
  function FirstEgg(eggs: seq<Egg>, result: string): (r: Option<nat>)
    ensures r.None? <==> forall j :: 0 <= j < |eggs| ==> !Contains(result, eggs[j].0)
    ensures r.Some? ==> (r.value < |eggs| && Contains(result, eggs[r.value].0)
      && forall j :: 0 <= j < r.value ==> !Contains(result, eggs[j].0))
  {
    FirstEggFrom(eggs, result, 0)
  }

  /** The text before the scorecard: the result, then the event and an
      easter-egg prefix when the event is known. */
  function ReplyHead(result: string, event: Option<string>, eggs: seq<Egg>): string {
    var comment := result + "\n\n";
    if event.None? then comment
    else
      var withEvent := comment + event.value + "\n\n";
      match FirstEgg(eggs, result)
      case None => withEvent
      case Some(j) => eggs[j].1 + withEvent
  }

  /** The four parts of the reply laid out with a blank line after the judges. */
  function Assemble(head: string, card: string, judges: string, mediaText: string): string {
    head + card + judges + "\n\n" + mediaText
  }

  /** `build_comment_reply`. */
  function CommentReply(tables: seq<ScoreTable>, result: string, media: seq<Score>,
                        event: Option<string>, author: string, eggs: seq<Egg>): string
    requires WellShaped(tables)
  {
    Assemble(ReplyHead(result, event, eggs), ScorecardText(tables), JudgeText(tables, author), MediaText(media))
  }

  /** The head starts with the first matching egg's prefix when the event is
      known, and is the bare result otherwise; the egg never applies without
      an event. */
  lemma ReplyHeadCases(result: string, event: Option<string>, eggs: seq<Egg>)
    ensures event.None? ==> ReplyHead(result, event, eggs) == result + "\n\n"
    ensures event.Some? && FirstEgg(eggs, result).None? ==>
      ReplyHead(result, event, eggs) == result + "\n\n" + event.value + "\n\n"
    ensures event.Some? && FirstEgg(eggs, result).Some? ==>
      var j := FirstEgg(eggs, result).value;
      StartsWith(ReplyHead(result, event, eggs), eggs[j].1)
      && ReplyHead(result, event, eggs)[|eggs[j].1|..] == result + "\n\n" + event.value + "\n\n"
  {
  }

  /** The reply reads back as the head, the scorecard, the judge line with
      its blank line, and the media text, in that order. */
  lemma AssembleOrder(head: string, card: string, judges: string, mediaText: string)
    ensures var r := Assemble(head, card, judges, mediaText);
      && StartsWith(r, head)
      && r[|head|..|head| + |card|] == card
      && r[|head| + |card|..|head| + |card| + |judges| + 2] == judges + "\n\n"
      && r[|head| + |card| + |judges| + 2..] == mediaText
  {
    var r := Assemble(head, card, judges, mediaText);
    assert r == head + card + (judges + "\n\n") + mediaText;
  }
}
