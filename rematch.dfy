/** Rematch disambiguation (`handle_rematch`): the fight list from the lookup
    is newest first; it is reversed in place into chronological order, and a
    curated table of rules remaps a requested fight number onto the record the
    results site actually lists for it. */
module Rematch {
  import opened Text
  import opened Records

  /** One line of the rematch store: `real|website|fighter1|fighter2`, the real
      fight number, the site's fight number counted from the bottom, and two
      lower-case name fragments. */
  datatype Rule = Rule(realFight: nat, siteFight: nat, fighter1: string, fighter2: string)

  /** A parsed store line that `int()` accepts and that unpacks into four fields. */
  predicate WellFormedCells(cells: seq<string>) {
    |cells| == 4 && IsDigits(cells[0]) && IsDigits(cells[1])
  }

  function ToRule(cells: seq<string>): Rule
    requires WellFormedCells(cells)
  {
    Rule(ParseDigits(cells[0]), ParseDigits(cells[1]), cells[2], cells[3])
  }

  function ToRules(table: seq<seq<string>>): (rules: seq<Rule>)
    requires forall i :: 0 <= i < |table| ==> WellFormedCells(table[i])
    ensures |rules| == |table|
    ensures forall i :: 0 <= i < |table| ==> rules[i] == ToRule(table[i])
  {
    seq(|table|, i requires 0 <= i < |table| => ToRule(table[i]))
  }

  /** A rule as a line of the store: its two numbers in decimal, then its
      fragments. */
  function RuleCells(rule: Rule): seq<string> {
    [NatToString(rule.realFight), NatToString(rule.siteFight), rule.fighter1, rule.fighter2]
  }

  /** A rule written back as a store line's cells is read back unchanged. */
  lemma RuleRoundTrip(rule: Rule)
    ensures WellFormedCells(RuleCells(rule))
    ensures ToRule(RuleCells(rule)) == rule
  {
    ParseNatToString(rule.realFight);
    ParseNatToString(rule.siteFight);
  }

  /** A table of rules written out line by line. */
  function RuleTable(rules: seq<Rule>): (table: seq<seq<string>>)
    ensures |table| == |rules|
    ensures forall i :: 0 <= i < |rules| ==> table[i] == RuleCells(rules[i])
  {
    if rules == [] then [] else RuleTable(rules[..|rules| - 1]) + [RuleCells(rules[|rules| - 1])]
  }

  /** Writing a table of rules out and reading it back gives the same rules,
      in the same order. */
  lemma RulesRoundTrip(rules: seq<Rule>)
    ensures forall i :: 0 <= i < |rules| ==> WellFormedCells(RuleTable(rules)[i])
    ensures ToRules(RuleTable(rules)) == rules
  {
    forall i | 0 <= i < |rules|
      ensures WellFormedCells(RuleTable(rules)[i]) && ToRule(RuleTable(rules)[i]) == rules[i]
    {
      RuleRoundTrip(rules[i]);
    }
  }

  /** `list.reverse()` as a value. */
  function Reversed<T>(s: seq<T>): (r: seq<T>)
    ensures |r| == |s|
  {
    seq(|s|, i requires 0 <= i < |s| => s[|s| - 1 - i])
  }

  /** The text the fragments are searched in: the chronologically first
      record's result, lower-cased, with non-breaking spaces made plain. */
  function MatchText(chronological: seq<Fight>): string
    requires chronological != []
  {
    Replace(Lower(chronological[0].result), "\U{00A0}", " ")
  }

  predicate FightersMatch(rule: Rule, text: string) {
    Contains(text, rule.fighter1) && Contains(text, rule.fighter2)
  }

  /** The rule ends the scan: its fragments occur and one of its two
      conditions holds for `n` records. A rule whose fragments occur but whose
      conditions fail does not. */
  predicate Fires(rule: Rule, text: string, fightNum: int, n: nat) {
    FightersMatch(rule, text)
    && ((rule.realFight == 0 && n >= fightNum) || (rule.realFight == fightNum && n >= rule.siteFight))
  }

  /** The 0-based chronological index a firing rule selects; a site number of
      0 indexes `[-1]`, the last record. */
  function Pick(rule: Rule, fightNum: int, n: nat): (k: nat)
    requires fightNum > 0 && n > 0
    requires (rule.realFight == 0 && n >= fightNum) || (rule.realFight == fightNum && n >= rule.siteFight)
    ensures k < n
  {
    if rule.realFight == 0 then fightNum - 1
    else if rule.siteFight == 0 then n - 1
    else rule.siteFight - 1
  }

  predicate IsFirstFiring(rules: seq<Rule>, text: string, fightNum: int, n: nat, j: int) {
    0 <= j < |rules| && Fires(rules[j], text, fightNum, n)
    && forall i :: 0 <= i < j ==> !Fires(rules[i], text, fightNum, n)
  }

  /** The first rule, in table order, that fires. */
  function FirstFiring(rules: seq<Rule>, text: string, fightNum: int, n: nat): (r: Option<nat>)
    ensures r.None? <==> forall i :: 0 <= i < |rules| ==> !Fires(rules[i], text, fightNum, n)
    ensures r.Some? ==> IsFirstFiring(rules, text, fightNum, n, r.value)
  {
    if rules == [] then None
    else if Fires(rules[0], text, fightNum, n) then Some(0)
    else
      var rest := FirstFiring(rules[1..], text, fightNum, n);
      assert forall i :: 1 <= i < |rules| ==> rules[i] == rules[1..][i - 1];
      match rest
      case None => None
      case Some(j) => Some(j + 1)
  }

  lemma FirstFiringUnique(rules: seq<Rule>, text: string, fightNum: int, n: nat, j: nat)
    requires IsFirstFiring(rules, text, fightNum, n, j)
    ensures FirstFiring(rules, text, fightNum, n) == Some(j)
  {
  }

  /** `handle_rematch` as a value: the list returned. */
  function Resolve(fights: seq<Fight>, fightNum: int, rules: seq<Rule>): seq<Fight> {
    if fightNum > 0 && |fights| > 0 then
      var chronological := Reversed(fights);
      var n := |chronological|;
      match FirstFiring(rules, MatchText(chronological), fightNum, n)
      case None => chronological
      case Some(j) => [chronological[Pick(rules[j], fightNum, n)]]
    else fights
  }

  /** With no fight number or no records the list comes back as it was,
      in its original order. */
  lemma ResolveWithoutOrdinal(fights: seq<Fight>, fightNum: int, rules: seq<Rule>)
    requires fightNum <= 0 || fights == []
    ensures Resolve(fights, fightNum, rules) == fights
  {
  }

  /** Otherwise the result is the reversed list, or a single record of it. */
  lemma {:induction false} ResolveShape(fights: seq<Fight>, fightNum: int, rules: seq<Rule>)
    requires fightNum > 0 && fights != []
    ensures var r := Resolve(fights, fightNum, rules);
      r == Reversed(fights) || (|r| == 1 && r[0] in fights)
  {
    var chronological := Reversed(fights);
    var n := |fights|;
    match FirstFiring(rules, MatchText(chronological), fightNum, n)
    case None =>
    case Some(j) =>
      var k := Pick(rules[j], fightNum, n);
      assert chronological[k] == fights[n - 1 - k];
  }

  /** The first rule that fires decides; the scan passes over rules whose
      fragments occur but whose conditions fail. */
  lemma FirstFiringRuleDecides(fights: seq<Fight>, fightNum: int, rules: seq<Rule>, j: nat)
    requires fightNum > 0 && fights != []
    requires IsFirstFiring(rules, MatchText(Reversed(fights)), fightNum, |fights|, j)
    ensures Resolve(fights, fightNum, rules)
         == [Reversed(fights)[Pick(rules[j], fightNum, |fights|)]]
  {
    FirstFiringUnique(rules, MatchText(Reversed(fights)), fightNum, |fights|, j);
  }

  /** When no rule fires the list comes back reversed. */
  lemma NoRuleFires(fights: seq<Fight>, fightNum: int, rules: seq<Rule>)
    requires fightNum > 0 && fights != []
    requires forall i :: 0 <= i < |rules| ==> !Fires(rules[i], MatchText(Reversed(fights)), fightNum, |fights|)
    ensures Resolve(fights, fightNum, rules) == Reversed(fights)
  {
  }

  /** A rule that does not fire can be dropped from the front of the table. */
  lemma SkipNonFiring(fights: seq<Fight>, fightNum: int, rule: Rule, rest: seq<Rule>)
    requires fightNum > 0 && fights != []
    requires !Fires(rule, MatchText(Reversed(fights)), fightNum, |fights|)
    ensures Resolve(fights, fightNum, [rule] + rest) == Resolve(fights, fightNum, rest)
  {
    var text := MatchText(Reversed(fights));
    var n := |fights|;
    var rules := [rule] + rest;
    assert rules[1..] == rest;
    match FirstFiring(rest, text, fightNum, n)
    case None =>
      assert forall i :: 0 <= i < |rules| ==> !Fires(rules[i], text, fightNum, n) by {
        forall i | 0 <= i < |rules| ensures !Fires(rules[i], text, fightNum, n) {
          if i > 0 { assert rules[i] == rest[i - 1]; }
        }
      }
    case Some(j) =>
      assert IsFirstFiring(rules, text, fightNum, n, j + 1) by {
        forall i | 0 <= i < j + 1 ensures !Fires(rules[i], text, fightNum, n) {
          if i > 0 { assert rules[i] == rest[i - 1]; }
        }
      }
      FirstFiringUnique(rules, text, fightNum, n, j + 1);
  }

  /** A remapping rule for the requested fight number picks the record that
      is `website`-th from the bottom of the newest-first list. */
  lemma RemapCountsFromBottom(fights: seq<Fight>, fightNum: int, rule: Rule, rest: seq<Rule>)
    requires fightNum > 0 && rule.realFight == fightNum && 1 <= rule.siteFight <= |fights|
    requires FightersMatch(rule, MatchText(Reversed(fights)))
    ensures Resolve(fights, fightNum, [rule] + rest) == [fights[|fights| - rule.siteFight]]
  {
    FirstFiringRuleDecides(fights, fightNum, [rule] + rest, 0);
  }

  /** A rule with real number 0 takes the requested number literally, as a
      1-based chronological position. */
  lemma InOrderRule(fights: seq<Fight>, fightNum: int, rule: Rule, rest: seq<Rule>)
    requires 0 < fightNum <= |fights| && rule.realFight == 0
    requires FightersMatch(rule, MatchText(Reversed(fights)))
    ensures Resolve(fights, fightNum, [rule] + rest) == [fights[|fights| - fightNum]]
  {
    FirstFiringRuleDecides(fights, fightNum, [rule] + rest, 0);
  }

  /** A remapping rule whose site number is 0 indexes `[-1]`: it selects the
      newest record, not "no remapping". */
  lemma RemapZeroPicksNewest(fights: seq<Fight>, fightNum: int, rule: Rule, rest: seq<Rule>)
    requires fightNum > 0 && rule.realFight == fightNum && rule.siteFight == 0 && fights != []
    requires FightersMatch(rule, MatchText(Reversed(fights)))
    ensures Resolve(fights, fightNum, [rule] + rest) == [fights[0]]
  {
    FirstFiringRuleDecides(fights, fightNum, [rule] + rest, 0);
  }

  /** `fight_info.reverse()`. */
  method ReverseInPlace<T>(a: array<T>)
    modifies a
    ensures a[..] == Reversed(old(a[..]))
  {
    var lo, hi := 0, a.Length - 1;
    while lo < hi
      invariant 0 <= lo <= a.Length && hi == a.Length - 1 - lo
      invariant forall k :: 0 <= k < lo ==> a[k] == old(a[a.Length - 1 - k]) && a[a.Length - 1 - k] == old(a[k])
      invariant forall k :: lo <= k <= hi ==> a[k] == old(a[k])
    {
      a[lo], a[hi] := a[hi], a[lo];
      lo, hi := lo + 1, hi - 1;
    }
  }

  /** The scan over the rules table in `handle_rematch`: the first rule, in
      table order, whose fragments occur and one of whose conditions holds. */
  method FindFiringRule(table: seq<seq<string>>, text: string, fightNum: int, n: nat)
    returns (found: Option<nat>)
    requires forall i :: 0 <= i < |table| ==> WellFormedCells(table[i])
    ensures found == FirstFiring(ToRules(table), text, fightNum, n)
  {
    ghost var rules := ToRules(table);
    var j := 0;
    while j < |table|
      invariant 0 <= j <= |table|
      invariant forall i :: 0 <= i < j ==> !Fires(rules[i], text, fightNum, n)
    {
      var rule := ToRule(table[j]);
      if Contains(text, rule.fighter1) && Contains(text, rule.fighter2) {
        if (rule.realFight == 0 && n >= fightNum) || (rule.realFight == fightNum && n >= rule.siteFight) {
          assert IsFirstFiring(rules, text, fightNum, n, j);
          FirstFiringUnique(rules, text, fightNum, n, j);
          return Some(j);
        }
      }
      j := j + 1;
    }
    return None;
  }

  /** `handle_rematch`: reverses the caller's list in place whenever a fight
      number is given and the list is non-empty, on the fallback path too, and
      returns either that reversed list or one record of it. */
  method HandleRematch(fightInfo: array<Fight>, fightNum: int, table: seq<seq<string>>)
    returns (r: seq<Fight>)
    requires forall i :: 0 <= i < |table| ==> WellFormedCells(table[i])
    modifies fightInfo
    ensures fightInfo[..] == if fightNum > 0 && fightInfo.Length > 0
      then Reversed(old(fightInfo[..])) else old(fightInfo[..])
    ensures r == Resolve(old(fightInfo[..]), fightNum, ToRules(table))
  {
    if fightNum > 0 && fightInfo.Length > 0 {
      ghost var original := fightInfo[..];
      ReverseInPlace(fightInfo);
      var n := fightInfo.Length;
      var text := Replace(Lower(fightInfo[0].result), "\U{00A0}", " ");
      assert text == MatchText(Reversed(original));
      var found := FindFiringRule(table, text, fightNum, n);
      if found.Some? {
        FirstFiringRuleDecides(original, fightNum, ToRules(table), found.value);
        var rule := ToRule(table[found.value]);
        var k := if rule.realFight == 0 then fightNum - 1
          else if rule.siteFight == 0 then n - 1
          else rule.siteFight - 1;
        return [fightInfo[k]];
      }
      NoRuleFires(original, fightNum, ToRules(table));
    }
    r := fightInfo[..];
  }
}
