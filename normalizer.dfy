/** Trigger detection, input cleaning, nickname substitution, and the line
    parsers of the nickname and rematch stores. */
module Normalizer {
  import opened Text

  // ---------------------------------------------------------------------------
  // Trigger detection (get_trigger_index)
  // ---------------------------------------------------------------------------

  /** The spelling `w` occurs in either trigger form. */
  predicate Triggered(text: string, w: string) {
    Contains(text, w + "bot") || Contains(text, w + " bot")
  }

  /** The form of `w` that the search settles on: `w + "bot"` is tried first. */
  function MatchedForm(text: string, w: string): string {
    if Contains(text, w + "bot") then w + "bot" else w + " bot"
  }

  /** `spellings[j]` is the first spelling, in configuration order, that occurs. */
  predicate IsFirstTriggered(text: string, spellings: seq<string>, j: int) {
    0 <= j < |spellings| && Triggered(text, spellings[j])
    && forall i :: 0 <= i < j ==> !Triggered(text, spellings[i])
  }

  /** `get_trigger_index`: -1 when no spelling occurs in either form; otherwise
      the leftmost position of the matched form of the FIRST spelling that
      occurs (not the leftmost trigger of all). */
  function TriggerIndex(text: string, spellings: seq<string>): (r: int)
    ensures -1 <= r <= |text|
    ensures r == -1 <==> forall j :: 0 <= j < |spellings| ==> !Triggered(text, spellings[j])
    ensures r != -1 ==> exists j :: (IsFirstTriggered(text, spellings, j)
      && OccursAt(text, MatchedForm(text, spellings[j]), r)
      && forall i :: 0 <= i < r ==> !OccursAt(text, MatchedForm(text, spellings[j]), i))
  {
    if spellings == [] then -1
    else
      var w := spellings[0];
      var a := Find(text, w + "bot");
      if a != -1 then
        assert IsFirstTriggered(text, spellings, 0);
        a
      else
        var b := Find(text, w + " bot");
        if b != -1 then
          assert IsFirstTriggered(text, spellings, 0);
          b
        else
          var rest := spellings[1..];
          var r := TriggerIndex(text, rest);
          assert forall j :: 1 <= j < |spellings| ==> spellings[j] == rest[j - 1];
          if r == -1 then
            assert forall j :: 0 <= j < |spellings| ==> !Triggered(text, spellings[j]) by {
              forall j | 0 <= j < |spellings| ensures !Triggered(text, spellings[j]) {
                if j > 0 { assert !Triggered(text, rest[j - 1]); }
              }
            }
            r
          else
            var j :| IsFirstTriggered(text, rest, j)
              && OccursAt(text, MatchedForm(text, rest[j]), r)
              && forall i :: 0 <= i < r ==> !OccursAt(text, MatchedForm(text, rest[j]), i);
            assert IsFirstTriggered(text, spellings, j + 1);
            r
  }

  /** The match need not be the leftmost trigger: with spellings
      `["decision", "dec"]` the text `"decbot decisionbot"` yields 7, although
      the trigger `"decbot"` starts at 0. */
  lemma TriggerNotLeftmost(text: string, spellings: seq<string>)
    requires text == "decbot decisionbot" && spellings == ["decision", "dec"]
    ensures OccursAt(text, spellings[1] + "bot", 0)
    ensures TriggerIndex(text, spellings) == 7
  {
    var form := spellings[0] + "bot";
    LaterForm(text, form);
    assert text[0..6] == spellings[1] + "bot";
    assert MatchedForm(text, spellings[0]) == form;
    assert IsFirstTriggered(text, spellings, 0);
    var r := TriggerIndex(text, spellings);
    var j :| IsFirstTriggered(text, spellings, j)
      && OccursAt(text, MatchedForm(text, spellings[j]), r)
      && forall i :: 0 <= i < r ==> !OccursAt(text, MatchedForm(text, spellings[j]), i);
    assert j == 0;
  }

  /** `"decisionbot"` first occurs at 7 in the text above. */
  lemma LaterForm(text: string, form: string)
    requires text == "decbot decisionbot" && form == "decisionbot"
    ensures OccursAt(text, form, 7)
    ensures forall i :: 0 <= i < 7 ==> !OccursAt(text, form, i)
  {
    assert text[7..18] == form;
    forall i | 0 <= i < 7 ensures !OccursAt(text, form, i) {
      assert text[3..10] == "bot dec";
      assert text[i + 3] in text[3..10];
      assert text[i..i + 11][3] == text[i + 3];
    }
  }

  // ---------------------------------------------------------------------------
  // Input cleaning (sanitize_input)
  // ---------------------------------------------------------------------------

  /** The characters stripped from both ends: `string.punctuation + ' '`. */
  const StripChars: string := Punctuation + " "

  /** Letters are not among the characters stripped; `,`, `:` and space are. */
  lemma StripCharsMembers(c: char)
    requires 'A' <= c <= 'Z' || 'a' <= c <= 'z'
    ensures c !in StripChars && ',' in StripChars && ':' in StripChars && ' ' in StripChars
  {
    assert StripChars[11] == ',' && StripChars[15] == ':' && StripChars[32] == ' ';
    assert forall k :: 0 <= k < |StripChars| ==> !('A' <= StripChars[k] <= 'Z' || 'a' <= StripChars[k] <= 'z');
  }

  /** The text before the first newline (`text.split('\n')[0]` when there is one). */
  function FirstLine(text: string): (r: string)
    ensures '\n' !in r
    ensures |r| <= |text| && r == text[..|r|]
    ensures |r| == |text| || text[|r|] == '\n'
  {
    if '\n' in text then Split(text, '\n')[0] else text
  }

  /** Deletes `w + "bot"` and then `w + " bot"` for every spelling, in order. */
  function RemoveTriggers(text: string, spellings: seq<string>): string
    decreases |spellings|
  {
    if spellings == [] then text
    else
      var w := spellings[0];
      RemoveTriggers(Replace(Replace(text, w + "bot", ""), w + " bot", ""), spellings[1..])
  }

  lemma {:induction false} RemoveTriggersShrinks(text: string, spellings: seq<string>)
    ensures multiset(RemoveTriggers(text, spellings)) <= multiset(text)
    decreases |spellings|
  {
    if spellings != [] {
      var w := spellings[0];
      var once := Replace(text, w + "bot", "");
      ReplaceEmptyShrinks(text, w + "bot");
      ReplaceEmptyShrinks(once, w + " bot");
      RemoveTriggersShrinks(Replace(once, w + " bot", ""), spellings[1..]);
    }
  }

  /** `sanitize_input`. */
  function SanitizeInput(text: string, spellings: seq<string>): string {
    Strip(RemoveTriggers(FirstLine(text), spellings), StripChars)
  }

  /** The cleaned input holds only characters of the first line, so no
      newline, and neither starts nor ends with punctuation or a space. */
  lemma SanitizeInputClean(text: string, spellings: seq<string>, r: string)
    requires r == SanitizeInput(text, spellings)
    ensures '\n' !in r
    ensures multiset(r) <= multiset(FirstLine(text))
    ensures r == [] || (r[0] !in StripChars && r[|r| - 1] !in StripChars)
  {
    var line := FirstLine(text);
    var removed := RemoveTriggers(line, spellings);
    RemoveTriggersShrinks(line, spellings);
    StripShrinks(removed, StripChars);
    assert multiset(r) <= multiset(line);
    assert multiset(line)['\n'] == 0;
    assert multiset(r)['\n'] == 0;
  }

  /** Cleaning is not idempotent: one deletion can make a new trigger, so
      `"decisiondecisionbotbot"` becomes `"decisionbot"`, which becomes `""`. */
  lemma SanitizeNotIdempotent(text: string, spellings: seq<string>)
    requires text == "decisiondecisionbotbot" && spellings == ["decision"]
    ensures SanitizeInput(text, spellings) == "decisionbot"
    ensures SanitizeInput(SanitizeInput(text, spellings), spellings) == ""
  {
    SanitizeTricky(text, spellings);
    SanitizeTriggerOnly("decisionbot", spellings);
  }

  /** The first cleaning of the example keeps a trigger. */
  lemma SanitizeTricky(text: string, spellings: seq<string>)
    requires text == "decisiondecisionbotbot" && spellings == ["decision"]
    ensures SanitizeInput(text, spellings) == "decisionbot"
  {
    ExamplesSingleLine(text);
    RemoveTriggersOnce(text, spellings);
    ExampleStripsClean(RemoveTriggers(text, spellings));
  }

  /** A comment that is only the trigger cleans to the empty query. */
  lemma SanitizeTriggerOnly(text: string, spellings: seq<string>)
    requires text == "decisionbot" && spellings == ["decision"]
    ensures SanitizeInput(text, spellings) == ""
  {
    ExamplesSingleLine(text);
    RemoveTriggersTwice(text, spellings);
  }

  /** Deleting the triggers of `"decisiondecisionbotbot"` leaves `"decisionbot"`. */
  lemma RemoveTriggersOnce(text: string, spellings: seq<string>)
    requires text == "decisiondecisionbotbot" && spellings == ["decision"]
    ensures RemoveTriggers(text, spellings) == "decisionbot"
  {
    RemoveOneSpelling(text, spellings);
    var w := spellings[0];
    TriggerForms(w);
    DeleteInnerTrigger(text, w + "bot");
    NoSpacedTrigger(Replace(text, w + "bot", ""), w + " bot");
  }

  /** Deleting the triggers of `"decisionbot"` leaves nothing. */
  lemma RemoveTriggersTwice(text: string, spellings: seq<string>)
    requires text == "decisionbot" && spellings == ["decision"]
    ensures RemoveTriggers(text, spellings) == ""
  {
    RemoveOneSpelling(text, spellings);
    var w := spellings[0];
    TriggerForms(w);
    assert Replace(text, w + "bot", "") == "" by {
      ReplaceWhole(text, w + "bot");
    }
    assert Replace("", w + " bot", "") == "";
  }

  /** The two trigger forms of `"decision"`. */
  lemma TriggerForms(w: string)
    requires w == "decision"
    ensures w + "bot" == "decisionbot" && w + " bot" == "decision bot"
  {
  }

  /** With one spelling the loop of `sanitize_input` runs once: the `bot`
      form is deleted, then the ` bot` form from what is left. */
  lemma RemoveOneSpelling(text: string, spellings: seq<string>)
    requires |spellings| == 1
    ensures RemoveTriggers(text, spellings)
      == Replace(Replace(text, spellings[0] + "bot", ""), spellings[0] + " bot", "")
  {
    assert spellings[1..] == [];
  }

  /** Replacing the whole text by nothing. */
  lemma ReplaceWhole(s: string, pat: string)
    requires pat != [] && s == pat
    ensures Replace(s, pat, "") == ""
  {
    assert s[..|pat|] == pat;
    assert s[|pat|..] == [];
  }

  /** `"decision bot"` holds a space and `"decisionbot"` does not. */
  lemma NoSpacedTrigger(s: string, p: string)
    requires s == "decisionbot" && p == "decision bot"
    ensures Replace(s, p, "") == s
  {
    assert p[8] == ' ';
    assert ' ' !in s;
    MissingCharNoOccurrence(s, p, 8);
    ReplaceAbsent(s, p, "");
  }

  /** `replace` deletes the inner trigger, and its neighbours join. */
  lemma DeleteInnerTrigger(a: string, pat: string)
    requires a == "decisiondecisionbotbot" && pat == "decisionbot"
    ensures Replace(a, pat, "") == "decisionbot"
  {
    SkipFirstSpelling(a, pat);
    DeleteLeadingTrigger(a[8..], pat);
    FirstSpellingThenBot(a);
  }

  /** No trigger starts inside the leading `"decision"`, so `replace` copies it. */
  lemma SkipFirstSpelling(a: string, pat: string)
    requires a == "decisiondecisionbotbot" && pat == "decisionbot"
    ensures Replace(a, pat, "") == a[..8] + Replace(a[8..], pat, "")
  {
    NoTriggerInFirstSpelling(a, pat);
    ReplaceSkip(a, pat, "", 8);
  }

  /** The leading `"decision"` and the trailing `"bot"` form a new trigger. */
  lemma FirstSpellingThenBot(a: string)
    requires a == "decisiondecisionbotbot"
    ensures a[..8] + "bot" == "decisionbot"
  {
    assert a[..8] == "decision";
    TriggerForms(a[..8]);
  }

  /** A trigger starting in the first eight characters would need a
      `'b'` where the second `"decision"` has none. */
  lemma NoTriggerInFirstSpelling(a: string, pat: string)
    requires a == "decisiondecisionbotbot" && pat == "decisionbot"
    ensures forall i :: 0 <= i < 8 ==> !OccursAt(a, pat, i)
  {
    forall i | 0 <= i < 8 ensures !OccursAt(a, pat, i) {
      assert a[8..16] == "decision";
      assert a[i + 8] in a[8..16];
      assert a[i..i + 11][8] == a[i + 8];
    }
  }

  /** A trigger at the front is deleted and the rest, too short for
      another, is kept. */
  lemma DeleteLeadingTrigger(t: string, pat: string)
    requires t == "decisionbotbot" && pat == "decisionbot"
    ensures Replace(t, pat, "") == "bot"
  {
    assert t[..11] == pat;
    assert t[11..] == "bot";
    var rest := t[11..];
    assert Replace(rest, pat, "") == rest;
  }

  /** `p` cannot occur in `s` if its character at offset `d` never does. */
  lemma MissingCharNoOccurrence(s: string, p: string, d: nat)
    requires d < |p| && p[d] !in s
    ensures !Contains(s, p)
  {
    forall i | 0 <= i && i + |p| <= |s| ensures !OccursAt(s, p, i) {
      assert s[i..i + |p|][d] == s[i + d];
    }
  }

  /** The examples have no newline, so their first line is all of them. */
  lemma ExamplesSingleLine(text: string)
    requires text == "decisiondecisionbotbot" || text == "decisionbot"
    ensures FirstLine(text) == text
  {
  }

  /** `"decisionbot"` starts and ends with letters, so `strip` keeps it. */
  lemma ExampleStripsClean(b: string)
    requires b == "decisionbot"
    ensures Strip(b, StripChars) == b
  {
    StripCharsMembers(b[0]);
    StripCharsMembers(b[|b| - 1]);
    StripClean(b);
  }

  /** A text whose ends are not strip characters is its own strip. */
  lemma StripClean(s: string)
    requires s != [] && s[0] !in StripChars && s[|s| - 1] !in StripChars
    ensures Strip(s, StripChars) == s
  {
  }

  // ---------------------------------------------------------------------------
  // Nickname substitution (create_nickname_dict, replace_nicknames)
  // ---------------------------------------------------------------------------

  /** A Python dict in insertion order. */
  type AliasTable = seq<(string, string)>

  predicate DistinctKeys(d: AliasTable) {
    forall i, j :: 0 <= i < j < |d| ==> d[i].0 != d[j].0
  }

  /** The dictionary the table denotes. */
  function ToMap(d: AliasTable): map<string, string> {
    if d == [] then map[] else ToMap(d[..|d| - 1])[d[|d| - 1].0 := d[|d| - 1].1]
  }

  function KeyIndex(d: AliasTable, k: string): (i: nat)
    ensures i <= |d|
    ensures i < |d| ==> d[i].0 == k
    ensures forall j :: 0 <= j < i ==> d[j].0 != k
  {
    if d == [] then 0 else if d[0].0 == k then 0 else 1 + KeyIndex(d[1..], k)
  }

  /** `d[k] = v`: an existing key keeps its position, a new key goes last. */
  function Put(d: AliasTable, k: string, v: string): (r: AliasTable)
    requires DistinctKeys(d)
    ensures DistinctKeys(r)
    ensures |r| == |d| + 1 <==> forall i :: 0 <= i < |d| ==> d[i].0 != k
    ensures |r| == |d| || |r| == |d| + 1
    ensures forall i :: 0 <= i < |d| ==> r[i] == if d[i].0 == k then (k, v) else d[i]
    ensures |r| == |d| + 1 ==> r[|d|] == (k, v)
    ensures KeyIndex(d, k) < |r| && r[KeyIndex(d, k)] == (k, v)
  {
    var i := KeyIndex(d, k);
    if i < |d| then d[i := (k, v)] else d + [(k, v)]
  }

  lemma {:induction false} ToMapDistinct(d: AliasTable, i: nat)
    requires DistinctKeys(d) && i < |d|
    ensures d[i].0 in ToMap(d) && ToMap(d)[d[i].0] == d[i].1
  {
    if i < |d| - 1 { ToMapDistinct(d[..|d| - 1], i); }
  }

  lemma {:induction false} ToMapKeys(d: AliasTable)
    ensures forall k :: k in ToMap(d) <==> exists i :: 0 <= i < |d| && d[i].0 == k
  {
    if d != [] {
      var init := d[..|d| - 1];
      ToMapKeys(init);
      forall k | k in ToMap(d) ensures exists i :: 0 <= i < |d| && d[i].0 == k {
        if k != d[|d| - 1].0 {
          assert k in ToMap(init);
          var i :| 0 <= i < |init| && init[i].0 == k;
          assert d[i].0 == k;
        }
      }
    }
  }

  /** Storing in the table updates the dictionary it denotes. */
  lemma PutIsUpdate(d: AliasTable, k: string, v: string)
    requires DistinctKeys(d)
    ensures ToMap(Put(d, k, v)) == ToMap(d)[k := v]
  {
    PutValues(d, k, v);
    PutKeys(d, k, v);
    MapsAgree(ToMap(Put(d, k, v)), ToMap(d)[k := v]);
  }

  lemma MapsAgree(a: map<string, string>, b: map<string, string>)
    requires forall key :: key in a ==> key in b && a[key] == b[key]
    requires forall key :: key in b ==> key in a
    ensures a == b
  {
    assert a.Keys == b.Keys;
  }

  lemma PutValues(d: AliasTable, k: string, v: string)
    requires DistinctKeys(d)
    ensures forall key :: key in ToMap(Put(d, k, v)) ==>
      key in ToMap(d)[k := v] && ToMap(Put(d, k, v))[key] == ToMap(d)[k := v][key]
  {
    var r := Put(d, k, v);
    ToMapKeys(r);
    forall key | key in ToMap(r) ensures key in ToMap(d)[k := v] && ToMap(r)[key] == ToMap(d)[k := v][key] {
      var j :| 0 <= j < |r| && r[j].0 == key;
      ToMapDistinct(r, j);
      if key != k {
        assert j < |d| && r[j] == d[j];
        ToMapDistinct(d, j);
      }
    }
  }

  lemma PutKeys(d: AliasTable, k: string, v: string)
    requires DistinctKeys(d)
    ensures forall key :: key in ToMap(d)[k := v] ==> key in ToMap(Put(d, k, v))
  {
    var r := Put(d, k, v);
    ToMapKeys(d);
    ToMapKeys(r);
    forall key | key in ToMap(d)[k := v] ensures key in ToMap(r) {
      if key == k {
        assert r[KeyIndex(d, k)].0 == k;
      } else {
        assert key in ToMap(d);
        var j :| 0 <= j < |d| && d[j].0 == key;
        assert r[j].0 == key;
      }
    }
  }

  /** One line of the nickname store: `alias:canonical`, skipped unless it
      splits into exactly two fields. */
  function AddNicknameLine(d: AliasTable, line: string): (r: AliasTable)
    requires DistinctKeys(d)
    ensures DistinctKeys(r)
  {
    var names := Split(RStrip(line, "\n"), ':');
    if |names| == 2 then Put(d, names[0], names[1]) else d
  }

  /** The line parser of `create_nickname_dict`, with the file as its lines. */
  function ParseNicknameLines(lines: seq<string>): (r: AliasTable)
    ensures DistinctKeys(r)
  {
    if lines == [] then [] else AddNicknameLine(ParseNicknameLines(lines[..|lines| - 1]), lines[|lines| - 1])
  }

  /** The dictionary the store describes: later lines overwrite earlier ones. */
  function NicknameMap(lines: seq<string>): map<string, string> {
    if lines == [] then map[]
    else
      var m := NicknameMap(lines[..|lines| - 1]);
      var names := Split(RStrip(lines[|lines| - 1], "\n"), ':');
      if |names| == 2 then m[names[0] := names[1]] else m
  }

  /** The parsed table holds exactly the dictionary the lines describe. */
  lemma {:induction false} ParseNicknameLinesIsMap(lines: seq<string>)
    ensures ToMap(ParseNicknameLines(lines)) == NicknameMap(lines)
  {
    if lines != [] {
      var init := lines[..|lines| - 1];
      ParseNicknameLinesIsMap(init);
      var names := Split(RStrip(lines[|lines| - 1], "\n"), ':');
      if |names| == 2 { PutIsUpdate(ParseNicknameLines(init), names[0], names[1]); }
    }
  }

  /** A kept line has exactly one colon. */
  lemma KeptLineHasOneColon(line: string)
    ensures |Split(RStrip(line, "\n"), ':')| == 2 <==> Count(RStrip(line, "\n"), ':') == 1
  {
    SplitCount(RStrip(line, "\n"), ':');
  }

  /** `replace_nicknames`: `text.replace(alias, canonical)` for every entry, in
      table order. */
  function ReplaceNicknames(text: string, d: AliasTable): string
    decreases |d|
  {
    if d == [] then text else ReplaceNicknames(Replace(text, d[0].0, d[0].1), d[1..])
  }

  /** The fold over a concatenated table is the fold over its parts in turn. */
  lemma {:induction false} ReplaceNicknamesAppend(text: string, d: AliasTable, e: AliasTable)
    ensures ReplaceNicknames(text, d + e) == ReplaceNicknames(ReplaceNicknames(text, d), e)
    decreases |d|
  {
    if d == [] {
      assert d + e == e;
    } else {
      assert (d + e)[1..] == d[1..] + e;
      ReplaceNicknamesAppend(Replace(text, d[0].0, d[0].1), d[1..], e);
    }
  }

  /** Text in which no (non-empty) alias occurs is left alone. */
  lemma {:induction false} ReplaceNicknamesAbsent(text: string, d: AliasTable)
    requires forall i :: 0 <= i < |d| ==> d[i].0 != [] && !Contains(text, d[i].0)
    ensures ReplaceNicknames(text, d) == text
    decreases |d|
  {
    if d != [] {
      ReplaceAbsent(text, d[0].0, d[0].1);
      ReplaceNicknamesAbsent(text, d[1..]);
    }
  }

  // ---------------------------------------------------------------------------
  // Rematch store (create_rematch_list)
  // ---------------------------------------------------------------------------

  /** The line parser of `create_rematch_list`: each line, without its newline
      and lower-cased, split on `|`. */
  function ParseRematchLines(lines: seq<string>): (r: seq<seq<string>>)
    ensures |r| == |lines|
    ensures forall i :: 0 <= i < |lines| ==>
      JoinWith("|", r[i]) == Lower(RStrip(lines[i], "\n"))
      && forall k :: 0 <= k < |r[i]| ==> '|' !in r[i][k]
  {
    var r := seq(|lines|, i requires 0 <= i < |lines| => Split(Lower(RStrip(lines[i], "\n")), '|'));
    assert forall i :: 0 <= i < |lines| ==> JoinWith("|", r[i]) == Lower(RStrip(lines[i], "\n")) by {
      forall i | 0 <= i < |lines| ensures JoinWith("|", r[i]) == Lower(RStrip(lines[i], "\n")) {
        SplitJoin(Lower(RStrip(lines[i], "\n")), '|');
      }
    }
    r
  }
}
