/** Failure replies: the cycling failure phrase (`get_failure_phrase` and its
    global `PHRASE_INDEX`), the random guess (`generate_fail_text`), the
    victory method (`generate_victory_method`) and `string.capwords`. */
module Failure {
  import opened Text
  import opened Records

  // ---------------------------------------------------------------------------
  // The phrase counter
  // ---------------------------------------------------------------------------

  /** The position a call reads when the counter stands at `index`: a counter
      that has run off the end is first reset to 0. */
  function Slot(index: nat, len: nat): (k: nat)
    requires len > 0
    ensures k < len
    ensures index < len ==> k == index
  {
    if index >= len then 0 else index
  }

  /** The counter after one call. */
  function NextIndex(index: nat, len: nat): (n: nat)
    requires len > 0
    ensures 1 <= n <= len
    ensures n == Slot(index, len) + 1
  {
    Slot(index, len) + 1
  }

  /** The counter after `calls` calls starting from `index`. */
  function IndexAfter(index: nat, len: nat, calls: nat): (n: nat)
    requires len > 0
  {
    if calls == 0 then index else NextIndex(IndexAfter(index, len, calls - 1), len)
  }

  /** Starting from 0, the first `len` calls read positions `0, 1, ..., len - 1`
      in turn. */
  lemma {:induction false} FirstRound(len: nat, calls: nat)
    requires len > 0 && calls <= len
    ensures IndexAfter(0, len, calls) == calls
    ensures calls < len ==> Slot(IndexAfter(0, len, calls), len) == calls
  {
    if calls > 0 {
      FirstRound(len, calls - 1);
    }
  }

  /** After the first call the counter repeats with period `len`. */
  lemma {:induction false} CyclePeriod(len: nat, calls: nat)
    requires len > 0 && calls >= 1
    ensures IndexAfter(0, len, calls + len) == IndexAfter(0, len, calls)
  {
    if calls == 1 {
      FirstRound(len, len);
      FirstRound(len, 1);
      assert IndexAfter(0, len, 1 + len) == NextIndex(IndexAfter(0, len, len), len);
    } else {
      CyclePeriod(len, calls - 1);
      assert IndexAfter(0, len, calls + len) == NextIndex(IndexAfter(0, len, calls - 1 + len), len);
    }
  }

  /** Whatever the counter holds, one call puts it back on the cycle. */
  lemma AfterOneCall(index: nat, len: nat)
    requires len > 0
    ensures 1 <= IndexAfter(index, len, 1) <= len
    ensures index < len ==> IndexAfter(index, len, 1) == index + 1
    ensures index >= len ==> IndexAfter(index, len, 1) == 1
  {
  }

  // ---------------------------------------------------------------------------
  // The phrase
  // ---------------------------------------------------------------------------

  /** Phrases that read as a sentence about the author. */
  predicate Addressed(phrase: string) {
    StartsWith(phrase, "was never") || StartsWith(phrase, "I'm sitting on about")
  }

  function Personalize(phrase: string, author: string): string {
    if Addressed(phrase) then author + " " + phrase else phrase
  }

  /** The author's name and a space go in front exactly when the phrase is
      addressed; either way the phrase itself ends the text. */
  lemma PersonalizeShape(phrase: string, author: string)
    ensures var r := Personalize(phrase, author);
      && |phrase| <= |r|
      && r[|r| - |phrase|..] == phrase
      && (Addressed(phrase) <==> r != phrase)
      && (Addressed(phrase) ==> StartsWith(r, author + " "))
  {
    var r := Personalize(phrase, author);
    if Addressed(phrase) {
      assert |r| > |phrase|;
      assert r == (author + " ") + phrase;
    }
  }

  /** The phrase list and `PHRASE_INDEX`. */
  class PhraseCycler {
    const phrases: seq<string>
    const troubleshoot: string
    var index: nat

    constructor (phrases: seq<string>, troubleshoot: string)
      ensures this.phrases == phrases && this.troubleshoot == troubleshoot
      ensures index == 0
    {
      this.phrases := phrases;
      this.troubleshoot := troubleshoot;
      index := 0;
    }

    /** `get_failure_phrase`: the phrase at the counter (reset to 0 once it
        has run off the end) with the troubleshooting text, addressed to the
        author when it calls for it; the counter moves on by one. An empty
        list has no phrase to give. */
    method Next(author: string) returns (phrase: string)
      requires |phrases| > 0
      modifies this
      ensures index == NextIndex(old(index), |phrases|)
      ensures phrase == Personalize(phrases[Slot(old(index), |phrases|)] + troubleshoot, author)
    {
      if index >= |phrases| {
        index := 0;
      }
      phrase := phrases[index] + troubleshoot;
      index := index + 1;
      if StartsWith(phrase, "was never") {
        phrase := author + " " + phrase;
      } else if StartsWith(phrase, "I'm sitting on about") {
        phrase := author + " " + phrase;
      }
    }

    /** `generate_fail_text`. The draw `random.random() < .5` is `lowDraw`,
        the scraper's fighter pair is `fighters`, `random.randint(0, 1) == 0`
        is `pickFirst` and `victory` is the text of `generate_victory_method`.
        The counter moves only when the phrase list is used. */
    method FailText(author: string, lowDraw: bool, fighters: Option<(string, string)>,
                    pickFirst: bool, victory: string)
      returns (text: string)
      requires lowDraw || fighters.None? ==> |phrases| > 0
      modifies this
      ensures lowDraw || fighters.None? ==>
        text == Personalize(phrases[Slot(old(index), |phrases|)] + troubleshoot, author)
        && index == NextIndex(old(index), |phrases|)
      ensures !lowDraw && fighters.Some? ==>
        text == GuessText(if pickFirst then fighters.value.0 else fighters.value.1, victory, troubleshoot)
        && index == old(index)
    {
      if lowDraw {
        text := Next(author);
      } else if fighters.None? {
        text := Next(author);
      } else {
        var fighter := if pickFirst then fighters.value.0 else fighters.value.1;
        text := GuessPrefix + CapWords(fighter) + victory + troubleshoot;
      }
    }
  }

  // ---------------------------------------------------------------------------
  // The guess
  // ---------------------------------------------------------------------------

  const GuessPrefix := "I couldn't find this fight! Gonna guess... "

  function GuessText(fighter: string, victory: string, troubleshoot: string): string {
    GuessPrefix + CapWords(fighter) + victory + troubleshoot
  }

  /** `generate_victory_method`: `random.choice` is the position `pick`. */
  function VictoryMethod(methods: seq<string>, pick: nat): (r: string)
    requires pick < |methods|
    ensures StartsWith(r, " by ") && r[|r| - 1] == '.'
    ensures r[4..|r| - 1] == methods[pick]
  {
    " by " + methods[pick] + "."
  }

  // ---------------------------------------------------------------------------
  // string.capwords
  // ---------------------------------------------------------------------------

  predicate NoWhitespace(w: string) {
    forall k :: 0 <= k < |w| ==> w[k] !in Whitespace
  }

  /** Length of the run of non-whitespace characters that starts `s`. */
  function WordEnd(s: string): (n: nat)
    ensures n <= |s|
    ensures forall k :: 0 <= k < n ==> s[k] !in Whitespace
    ensures n == |s| || s[n] in Whitespace
  {
    if s != [] && s[0] !in Whitespace then 1 + WordEnd(s[1..]) else 0
  }

  /** Python's `s.split()`: the maximal runs of non-whitespace characters. */
  function Words(s: string): (ws: seq<string>)
    ensures forall k :: 0 <= k < |ws| ==> ws[k] != [] && NoWhitespace(ws[k])
    decreases |s|
  {
    var t := LStrip(s, Whitespace);
    if t == [] then []
    else
      var n := WordEnd(t);
      [t[..n]] + Words(t[n..])
  }

  /** Python's `w.capitalize()` on ASCII: first letter upper, the rest lower. */
  function Capitalize(w: string): (r: string)
    ensures |r| == |w|
  {
    if w == [] then [] else [UpperChar(w[0])] + Lower(w[1..])
  }

  function CapitalizeAll(ws: seq<string>): (r: seq<string>)
    ensures |r| == |ws|
  {
    seq(|ws|, i requires 0 <= i < |ws| => Capitalize(ws[i]))
  }

  /** `string.capwords(s)`: the words, capitalized, joined by single spaces. */
  function CapWords(s: string): string {
    JoinWith(" ", CapitalizeAll(Words(s)))
  }

  lemma CharCases(c: char)
    ensures UpperChar(c) in Whitespace <==> c in Whitespace
    ensures LowerChar(c) in Whitespace <==> c in Whitespace
    ensures UpperChar(UpperChar(c)) == UpperChar(c) && LowerChar(LowerChar(c)) == LowerChar(c)
    ensures LowerChar(UpperChar(c)) == LowerChar(c) || 'a' <= c <= 'z'
  {
  }

  /** Capitalizing keeps a word a word and does nothing the second time. */
  lemma CapitalizeWord(w: string)
    requires w != [] && NoWhitespace(w)
    ensures NoWhitespace(Capitalize(w))
    ensures Capitalize(Capitalize(w)) == Capitalize(w)
  {
    var r := Capitalize(w);
    forall k | 0 <= k < |r| ensures r[k] !in Whitespace {
      CharCases(w[k]);
    }
    var rest := Lower(w[1..]);
    forall k | 0 <= k < |rest| ensures LowerChar(rest[k]) == rest[k] {
      CharCases(w[1..][k]);
    }
    CharCases(w[0]);
    assert Lower(r[1..]) == rest;
  }

  /** A word followed by whitespace: the first word is split off there. */
  lemma WordsCons(w: string, rest: string)
    requires w != [] && NoWhitespace(w) && (rest == [] || rest[0] in Whitespace)
    ensures Words(w + rest) == [w] + Words(rest)
  {
    var s := w + rest;
    assert s[0] == w[0];
    assert LeadingCount(s, Whitespace) == 0;
    assert LStrip(s, Whitespace) == s;
    WordEndAt(w, rest);
    assert s[..|w|] == w && s[|w|..] == rest;
  }

  lemma {:induction false} WordEndAt(w: string, rest: string)
    requires NoWhitespace(w) && (rest == [] || rest[0] in Whitespace)
    ensures WordEnd(w + rest) == |w|
    decreases |w|
  {
    if w != [] {
      assert (w + rest)[1..] == w[1..] + rest;
      WordEndAt(w[1..], rest);
    } else {
      assert w + rest == rest;
    }
  }

  /** Leading whitespace is skipped. */
  lemma WordsSkipSpace(rest: string)
    requires rest != [] && rest[0] !in Whitespace
    ensures Words(" " + rest) == Words(rest)
  {
    var s := " " + rest;
    assert s[1..] == rest;
    assert LeadingCount(rest, Whitespace) == 0;
    assert LeadingCount(s, Whitespace) == 1;
  }

  /** Splitting words joined by single spaces gives the words back. */
  lemma {:induction false} WordsOfJoined(ws: seq<string>)
    requires forall k :: 0 <= k < |ws| ==> ws[k] != [] && NoWhitespace(ws[k])
    ensures Words(JoinWith(" ", ws)) == ws
    decreases |ws|
  {
    if |ws| == 0 {
      assert LeadingCount("", Whitespace) == 0;
    } else if |ws| == 1 {
      WordsCons(ws[0], "");
      assert ws[0] + "" == ws[0];
      assert LeadingCount("", Whitespace) == 0;
    } else {
      var w := ws[0];
      var rest := ws[1..];
      assert ws == [w] + rest;
      JoinWithCons(" ", w, rest);
      var tail := JoinWith(" ", rest);
      JoinWithStarts(" ", rest);
      WordsOfJoined(rest);
      WordsSkipSpace(tail);
      AppendAssoc(w, " ", tail);
      WordsCons(w, " " + tail);
    }
  }

  /** A space-joined list of non-empty words starts with the first word's
      first character. */
  lemma JoinWithStarts(sep: string, ws: seq<string>)
    requires ws != [] && ws[0] != []
    ensures JoinWith(sep, ws) != [] && JoinWith(sep, ws)[0] == ws[0][0]
  {
    if |ws| > 1 {
      JoinWithCons(sep, ws[0], ws[1..]);
      assert ws == [ws[0]] + ws[1..];
    }
  }

  /** `capwords` applied twice is `capwords` applied once: its result is
      already single-spaced, capitalized words. */
  lemma CapWordsIdempotent(s: string)
    ensures CapWords(CapWords(s)) == CapWords(s)
  {
    var ws := Words(s);
    var cs := CapitalizeAll(ws);
    forall k | 0 <= k < |cs| ensures cs[k] != [] && NoWhitespace(cs[k]) && Capitalize(cs[k]) == cs[k] {
      CapitalizeWord(ws[k]);
    }
    WordsOfJoined(cs);
    assert CapitalizeAll(cs) == cs;
  }
}
