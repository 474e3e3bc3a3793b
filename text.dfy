/** Python's string operations used by the bot (`find`, `in`, `replace`,
    `strip(chars)`, `split(sep)`, `lower`, `startswith`, `str(int)`),
    written over `seq<char>`. */
module Text {

  // ---------------------------------------------------------------------------
  // Occurrence, containment, prefix
  // ---------------------------------------------------------------------------

  /** `p` occurs in `s` starting at position `i`. */
  predicate OccursAt(s: string, p: string, i: int) {
    0 <= i && i + |p| <= |s| && s[i..i + |p|] == p
  }

  /** Python's `p in s` for strings. */
  predicate Contains(s: string, p: string) {
    exists i | 0 <= i <= |s| :: OccursAt(s, p, i)
  }

  /** Python's `s.startswith(p)`. */
  predicate StartsWith(s: string, p: string) {
    |p| <= |s| && s[..|p|] == p
  }

  /** Python's `s.find(p)`: the lowest index at which `p` occurs, or -1. */
  function Find(s: string, p: string): (r: int)
    ensures r == -1 <==> !Contains(s, p)
    ensures r != -1 ==> OccursAt(s, p, r) && forall j :: 0 <= j < r ==> !OccursAt(s, p, j)
    decreases |s|
  {
    if |p| > |s| then
      assert forall i :: !OccursAt(s, p, i);
      -1
    else if s[..|p|] == p then
      assert OccursAt(s, p, 0);
      0
    else
      var k := Find(s[1..], p);
      OccursAfterFirst(s, p);
      assert !OccursAt(s, p, 0);
      if k == -1 then
        assert forall i :: !OccursAt(s, p, i) by {
          forall i ensures !OccursAt(s, p, i) {
            if i >= 1 { assert !OccursAt(s[1..], p, i - 1); }
          }
        }
        -1
      else
        assert OccursAt(s, p, k + 1);
        k + 1
  }

  /** Occurrences past the first position are those of the tail, shifted by one. */
  lemma OccursAfterFirst(s: string, p: string)
    requires |s| >= 1
    ensures forall j :: 1 <= j ==> (OccursAt(s, p, j) <==> OccursAt(s[1..], p, j - 1))
  {
    forall j | 1 <= j ensures OccursAt(s, p, j) <==> OccursAt(s[1..], p, j - 1) {
      if j + |p| <= |s| {
        var a, b := s[j..j + |p|], s[1..][j - 1..j - 1 + |p|];
        assert |a| == |b| && forall t :: 0 <= t < |a| ==> a[t] == b[t];
      }
    }
  }

  /** The character `c` does not occur anywhere in `s`. */
  lemma NoOccurrenceOfChar(s: string, c: char)
    requires c !in s
    ensures !Contains(s, [c])
  {
    forall i ensures !OccursAt(s, [c], i) {
      if 0 <= i < |s| { assert s[i..i + 1] == [s[i]]; }
    }
  }

  // ---------------------------------------------------------------------------
  // Concatenation and joining
  // ---------------------------------------------------------------------------

  /** `''.join(parts)`. */
  function Concat(parts: seq<string>): string {
    if parts == [] then "" else Concat(parts[..|parts| - 1]) + parts[|parts| - 1]
  }

  lemma ConcatSnoc(parts: seq<string>, i: nat)
    requires i < |parts|
    ensures Concat(parts[..i + 1]) == Concat(parts[..i]) + parts[i]
  {
    assert parts[..i + 1][..i] == parts[..i];
  }

  lemma ConcatAll(parts: seq<string>)
    ensures Concat(parts[..|parts|]) == Concat(parts)
  {
    assert parts[..|parts|] == parts;
  }

  lemma AppendAssoc(a: string, b: string, c: string)
    ensures (a + b) + c == a + (b + c)
  {
  }

  /** A character that no part holds is not in their concatenation. */
  lemma {:induction false} NoCharInConcat(parts: seq<string>, c: char)
    requires forall i :: 0 <= i < |parts| ==> c !in parts[i]
    ensures c !in Concat(parts)
  {
    if parts != [] {
      NoCharInConcat(parts[..|parts| - 1], c);
    }
  }

  /** `sep.join(parts)`. */
  function JoinWith(sep: string, parts: seq<string>): string {
    if |parts| == 0 then ""
    else if |parts| == 1 then parts[0]
    else JoinWith(sep, parts[..|parts| - 1]) + sep + parts[|parts| - 1]
  }

  /** Each part followed by `sep`, except the last one. */
  function Separated(parts: seq<string>, sep: string): (r: seq<string>)
    ensures |r| == |parts|
  {
    seq(|parts|, i requires 0 <= i < |parts| => parts[i] + (if i < |parts| - 1 then sep else ""))
  }

  lemma SeparatedAt(parts: seq<string>, sep: string, i: nat)
    requires i < |parts|
    ensures Separated(parts, sep)[i] == if i < |parts| - 1 then parts[i] + sep else parts[i]
  {
    if i == |parts| - 1 {
      assert parts[i] + "" == parts[i];
    }
  }

  /** Extending an accumulator that holds `head` and the first `i` parts. */
  lemma ConcatExtend(head: string, parts: seq<string>, i: nat)
    requires i < |parts|
    ensures head + Concat(parts[..i + 1]) == head + Concat(parts[..i]) + parts[i]
  {
    ConcatSnoc(parts, i);
    AppendAssoc(head, Concat(parts[..i]), parts[i]);
  }

  /** Appending a separator after every part but the last one and then
      concatenating is `sep.join(parts)`. */
  lemma {:induction false} ConcatSeparated(parts: seq<string>, sep: string)
    ensures Concat(Separated(parts, sep)) == JoinWith(sep, parts)
  {
    var s := Separated(parts, sep);
    if |parts| > 0 {
      ConcatSeparatedPrefix(parts, sep, |parts|);
      ConcatAll(s);
      assert parts[..|parts|] == parts;
    }
  }

  lemma {:induction false} ConcatSeparatedPrefix(parts: seq<string>, sep: string, i: nat)
    requires 1 <= i <= |parts|
    ensures Concat(Separated(parts, sep)[..i])
         == JoinWith(sep, parts[..i]) + (if i < |parts| then sep else "")
  {
    var s := Separated(parts, sep);
    if i == 1 {
      assert s[..1] == [s[0]];
      assert Concat(s[..1]) == Concat(s[..1][..0]) + s[0];
      assert s[..1][..0] == [];
    } else {
      ConcatSeparatedPrefix(parts, sep, i - 1);
      ConcatSnoc(s, i - 1);
      assert parts[..i][..i - 1] == parts[..i - 1];
    }
  }

  /** Rows each terminated by a newline, as the scorecard is written out. */
  function JoinLines(lines: seq<string>): string {
    if lines == [] then "" else JoinLines(lines[..|lines| - 1]) + lines[|lines| - 1] + "\n"
  }

  lemma JoinLinesSnoc(lines: seq<string>, i: nat)
    requires i < |lines|
    ensures JoinLines(lines[..i + 1]) == JoinLines(lines[..i]) + lines[i] + "\n"
  {
    assert lines[..i + 1][..i] == lines[..i];
  }

  /** Number of occurrences of `x` in `s` (Python's `s.count(x)` on a list). */
  function Count<T(==)>(s: seq<T>, x: T): nat {
    if s == [] then 0 else Count(s[..|s| - 1], x) + (if s[|s| - 1] == x then 1 else 0)
  }

  lemma {:induction false} CountAppend<T>(s: seq<T>, t: seq<T>, x: T)
    ensures Count(s + t, x) == Count(s, x) + Count(t, x)
    decreases |t|
  {
    if t == [] {
      assert s + t == s;
    } else {
      var u := t[..|t| - 1];
      assert (s + t)[..|s + t| - 1] == s + u;
      CountAppend(s, u, x);
    }
  }

  lemma {:induction false} CountZero<T>(s: seq<T>, x: T)
    ensures Count(s, x) == 0 <==> x !in s
  {
    if s != [] {
      var u := s[..|s| - 1];
      CountZero(u, x);
      assert s == u + [s[|s| - 1]];
    }
  }

  /** Newlines in the text: the number of lines it holds. */
  lemma {:induction false} JoinLinesNewlines(lines: seq<string>)
    requires forall i :: 0 <= i < |lines| ==> '\n' !in lines[i]
    ensures Count(JoinLines(lines), '\n') == |lines|
  {
    if lines != [] {
      var init := lines[..|lines| - 1];
      var last := lines[|lines| - 1];
      JoinLinesNewlines(init);
      CountAppend(JoinLines(init), last, '\n');
      CountAppend(JoinLines(init) + last, "\n", '\n');
      CountZero(last, '\n');
      assert Count("\n", '\n') == Count("\n"[..0], '\n') + 1;
    }
  }

  // ---------------------------------------------------------------------------
  // replace
  // ---------------------------------------------------------------------------

  /** Python's `s.replace(pat, rep)`: every non-overlapping occurrence, scanning
      left to right; an empty `pat` inserts `rep` around every character. */
  function Replace(s: string, pat: string, rep: string): string
    decreases |s|
  {
    if pat == [] then
      (if s == [] then rep else rep + [s[0]] + Replace(s[1..], pat, rep))
    else if |s| < |pat| then s
    else if s[..|pat|] == pat then rep + Replace(s[|pat|..], pat, rep)
    else [s[0]] + Replace(s[1..], pat, rep)
  }

  /** Deleting a non-empty pattern only removes characters. */
  lemma {:induction false} ReplaceEmptyShrinks(s: string, pat: string)
    requires pat != []
    ensures multiset(Replace(s, pat, "")) <= multiset(s)
    decreases |s|
  {
    if |s| < |pat| {
      assert Replace(s, pat, "") == s;
    } else if s[..|pat|] == pat {
      var rest := s[|pat|..];
      assert Replace(s, pat, "") == Replace(rest, pat, "");
      ReplaceEmptyShrinks(rest, pat);
      DropShrinks(s, |pat|, Replace(rest, pat, ""));
    } else {
      var rest := s[1..];
      assert Replace(s, pat, "") == [s[0]] + Replace(rest, pat, "");
      ReplaceEmptyShrinks(rest, pat);
      KeepShrinks(s, Replace(rest, pat, ""));
    }
  }

  lemma DropShrinks(s: string, k: nat, out: string)
    requires k <= |s| && multiset(out) <= multiset(s[k..])
    ensures multiset(out) <= multiset(s)
  {
    assert s == s[..k] + s[k..];
  }

  lemma KeepShrinks(s: string, out: string)
    requires s != [] && multiset(out) <= multiset(s[1..])
    ensures multiset([s[0]] + out) <= multiset(s)
  {
    assert s == [s[0]] + s[1..];
  }

  /** Replace copies a prefix in which no match starts, whatever the replacement. */
  lemma {:induction false} ReplaceSkip(s: string, pat: string, rep: string, k: nat)
    requires pat != [] && k + |pat| <= |s|
    requires forall i :: 0 <= i < k ==> !OccursAt(s, pat, i)
    ensures Replace(s, pat, rep) == s[..k] + Replace(s[k..], pat, rep)
    decreases k
  {
    if k > 0 {
      var t := s[1..];
      OccursAfterFirst(s, pat);
      forall i | 0 <= i < k - 1 ensures !OccursAt(t, pat, i) {
        assert !OccursAt(s, pat, i + 1);
      }
      ReplaceNoMatchHere(s, pat, rep);
      ReplaceSkip(t, pat, rep, k - 1);
      assert t[k - 1..] == s[k..];
      assert s[..k] == [s[0]] + t[..k - 1];
      AppendAssoc([s[0]], t[..k - 1], Replace(s[k..], pat, rep));
    }
  }

  /** Where no match starts, the first character is copied. */
  lemma ReplaceNoMatchHere(s: string, pat: string, rep: string)
    requires pat != [] && |pat| <= |s| && !OccursAt(s, pat, 0)
    ensures Replace(s, pat, rep) == [s[0]] + Replace(s[1..], pat, rep)
  {
  }

  /** Replacing a pattern that does not occur changes nothing. */
  lemma {:induction false} ReplaceAbsent(s: string, pat: string, rep: string)
    requires pat != [] && !Contains(s, pat)
    ensures Replace(s, pat, rep) == s
    decreases |s|
  {
    if |s| < |pat| {
    } else {
      assert !OccursAt(s, pat, 0);
      forall i ensures !OccursAt(s[1..], pat, i) {
        if 0 <= i && i + |pat| <= |s| - 1 {
          assert s[1..][i..i + |pat|] == s[i + 1..i + 1 + |pat|];
          assert !OccursAt(s, pat, i + 1);
        }
      }
      ReplaceAbsent(s[1..], pat, rep);
    }
  }

  // ---------------------------------------------------------------------------
  // strip(chars)
  // ---------------------------------------------------------------------------

  /** How many leading characters of `s` belong to `chars`. */
  function LeadingCount(s: string, chars: string): (n: nat)
    ensures n <= |s|
    ensures forall k :: 0 <= k < n ==> s[k] in chars
    ensures n == |s| || s[n] !in chars
  {
    if s != [] && s[0] in chars then 1 + LeadingCount(s[1..], chars) else 0
  }

  /** How many trailing characters of `s` belong to `chars`. */
  function TrailingCount(s: string, chars: string): (n: nat)
    ensures n <= |s|
    ensures forall k :: |s| - n <= k < |s| ==> s[k] in chars
    ensures n == |s| || s[|s| - 1 - n] !in chars
  {
    if s != [] && s[|s| - 1] in chars then 1 + TrailingCount(s[..|s| - 1], chars) else 0
  }

  /** Python's `s.lstrip(chars)`. */
  function LStrip(s: string, chars: string): string {
    s[LeadingCount(s, chars)..]
  }

  /** Python's `s.rstrip(chars)`. */
  function RStrip(s: string, chars: string): string {
    s[..|s| - TrailingCount(s, chars)]
  }

  /** Python's `s.strip(chars)`: the slice of `s` left once every leading and
      every trailing character from `chars` is removed. */
  function Strip(s: string, chars: string): (r: string)
    ensures exists i, j :: (0 <= i <= j <= |s| && r == s[i..j]
              && (forall k :: 0 <= k < i ==> s[k] in chars)
              && (forall k :: j <= k < |s| ==> s[k] in chars))
    ensures r == [] || (r[0] !in chars && r[|r| - 1] !in chars)
  {
    var i := LeadingCount(s, chars);
    var n := TrailingCount(s[i..], chars);
    StripBounds(s, chars, i, n);
    RStrip(LStrip(s, chars), chars)
  }

  lemma StripBounds(s: string, chars: string, i: nat, n: nat)
    requires i == LeadingCount(s, chars) && n == TrailingCount(s[i..], chars)
    ensures RStrip(LStrip(s, chars), chars) == s[i..|s| - n]
    ensures forall k :: |s| - n <= k < |s| ==> s[k] in chars
  {
    var t := s[i..];
    assert t[..|t| - n] == s[i..|s| - n];
    forall k | |s| - n <= k < |s| ensures s[k] in chars {
      assert s[k] == t[k - i];
    }
  }

  /** Dropping a tail of `chars` after a last character outside them. */
  lemma {:induction false} TrailingSuffix(x: string, suffix: string, chars: string)
    requires x != [] && x[|x| - 1] !in chars
    requires forall k :: 0 <= k < |suffix| ==> suffix[k] in chars
    ensures TrailingCount(x + suffix, chars) == |suffix|
    decreases |suffix|
  {
    var s := x + suffix;
    if suffix == [] {
      assert s == x;
    } else {
      assert s[..|s| - 1] == x + suffix[..|suffix| - 1];
      TrailingSuffix(x, suffix[..|suffix| - 1], chars);
    }
  }

  /** Stripping a clean text followed by characters from `chars` leaves the text. */
  lemma StripCleanSuffix(x: string, suffix: string, chars: string)
    requires x != [] && x[0] !in chars && x[|x| - 1] !in chars
    requires forall k :: 0 <= k < |suffix| ==> suffix[k] in chars
    ensures Strip(x + suffix, chars) == x
  {
    var s := x + suffix;
    TrailingSuffix(x, suffix, chars);
    assert s[0] == x[0];
    assert LeadingCount(s, chars) == 0;
    assert s[..|s| - |suffix|] == x;
  }

  /** Stripping only removes characters. */
  lemma StripShrinks(s: string, chars: string)
    ensures multiset(Strip(s, chars)) <= multiset(s)
  {
    var r := Strip(s, chars);
    var i, j :| 0 <= i <= j <= |s| && r == s[i..j];
    SliceShrinks(s, i, j);
  }

  lemma SliceShrinks(s: string, i: nat, j: nat)
    requires i <= j <= |s|
    ensures multiset(s[i..j]) <= multiset(s)
  {
    assert s == s[..i] + s[i..j] + s[j..];
  }

  // ---------------------------------------------------------------------------
  // split(sep)
  // ---------------------------------------------------------------------------

  /** Index of the first `c` in `s`, or `|s|` when there is none. */
  function IndexOf(s: string, c: char): (i: nat)
    ensures i <= |s|
    ensures i < |s| <==> c in s
    ensures i < |s| ==> s[i] == c
    ensures c !in s[..i]
  {
    if s == [] then 0 else if s[0] == c then 0 else 1 + IndexOf(s[1..], c)
  }

  /** Python's `s.split(c)` for a one-character separator. */
  function Split(s: string, c: char): (pieces: seq<string>)
    ensures |pieces| >= 1
    ensures forall k :: 0 <= k < |pieces| ==> c !in pieces[k]
    decreases |s|
  {
    var i := IndexOf(s, c);
    if i == |s| then [s] else [s[..i]] + Split(s[i + 1..], c)
  }

  lemma {:induction false} JoinWithCons(sep: string, p: string, ps: seq<string>)
    requires ps != []
    ensures JoinWith(sep, [p] + ps) == p + sep + JoinWith(sep, ps)
    decreases |ps|
  {
    var qs := [p] + ps;
    if |ps| == 1 {
      assert qs[..1] == [p];
    } else {
      assert qs[..|qs| - 1] == [p] + ps[..|ps| - 1];
      JoinWithCons(sep, p, ps[..|ps| - 1]);
    }
  }

  /** `c.join(s.split(c)) == s`. */
  lemma {:induction false} SplitJoin(s: string, c: char)
    ensures JoinWith([c], Split(s, c)) == s
    decreases |s|
  {
    var i := IndexOf(s, c);
    if i < |s| {
      var rest := s[i + 1..];
      var head := s[..i];
      var tail := Split(rest, c);
      assert Split(s, c) == [head] + tail;
      SplitJoin(rest, c);
      JoinWithCons([c], head, tail);
      SplitAround(s, i);
      assert s[i] == c;
    } else {
      assert Split(s, c) == [s];
    }
  }

  /** The first `c` in `p + [c] + t`, when `p` has none, is right after `p`. */
  lemma {:induction false} IndexOfAfter(p: string, c: char, t: string)
    requires c !in p
    ensures IndexOf(p + [c] + t, c) == |p|
    decreases |p|
  {
    var s := p + [c] + t;
    if p != [] {
      assert s[1..] == p[1..] + [c] + t;
      IndexOfAfter(p[1..], c, t);
    }
  }

  /** `c.join(parts).split(c) == parts` when no part holds `c`. */
  lemma {:induction false} JoinSplit(parts: seq<string>, c: char)
    requires parts != []
    requires forall k :: 0 <= k < |parts| ==> c !in parts[k]
    ensures Split(JoinWith([c], parts), c) == parts
    decreases |parts|
  {
    if |parts| == 1 {
      assert IndexOf(parts[0], c) == |parts[0]|;
    } else {
      var p := parts[0];
      var ps := parts[1..];
      assert parts == [p] + ps;
      JoinWithCons([c], p, ps);
      var t := JoinWith([c], ps);
      var s := p + [c] + t;
      IndexOfAfter(p, c, t);
      assert s[..|p|] == p && s[|p| + 1..] == t;
      JoinSplit(ps, c);
    }
  }

  lemma SplitAround(s: string, i: nat)
    requires i < |s|
    ensures s == s[..i] + [s[i]] + s[i + 1..]
  {
  }

  /** `s.split(c)` has one more piece than `s` has separators. */
  lemma {:induction false} SplitCount(s: string, c: char)
    ensures |Split(s, c)| == Count(s, c) + 1
    decreases |s|
  {
    var i := IndexOf(s, c);
    CountZero(s[..i], c);
    if i == |s| {
      assert s[..i] == s;
    } else {
      var rest := s[i + 1..];
      SplitCount(rest, c);
      assert s == s[..i] + ([c] + rest);
      CountAppend(s[..i], [c] + rest, c);
      CountAppend([c], rest, c);
      assert Count([c], c) == Count([c][..0], c) + 1;
    }
  }

  /** The text before the first `c`: `s.split(c)[0]`. */
  lemma SplitFirst(s: string, c: char)
    ensures Split(s, c)[0] == s[..IndexOf(s, c)]
  {
  }

  // ---------------------------------------------------------------------------
  // Characters
  // ---------------------------------------------------------------------------

  /** Python's `string.punctuation`. */
  const Punctuation: string := "!\"#$%&'()*+,-./:;<=>?@[\\]^_`{|}~"

  /** The characters for which Python's `str.isspace()` holds: what the
      argument-less `strip()` removes and `split()` splits on. */
  const Whitespace: string :=
    "\t\n\U{000B}\U{000C}\r\U{001C}\U{001D}\U{001E}\U{001F} \U{0085}\U{00A0}\U{1680}"
    + "\U{2000}\U{2001}\U{2002}\U{2003}\U{2004}\U{2005}\U{2006}\U{2007}\U{2008}\U{2009}\U{200A}"
    + "\U{2028}\U{2029}\U{202F}\U{205F}\U{3000}"

  /** Python's `c.lower()` on ASCII letters; every other character is kept. */
  function LowerChar(c: char): (r: char)
    ensures 'A' <= c <= 'Z' ==> 'a' <= r <= 'z'
    ensures !('A' <= c <= 'Z') ==> r == c
  {
    if 'A' <= c <= 'Z' then (c as int - 'A' as int + 'a' as int) as char else c
  }

  /** Python's `c.upper()` on ASCII letters. */
  function UpperChar(c: char): (r: char)
    ensures 'a' <= c <= 'z' ==> 'A' <= r <= 'Z'
    ensures !('a' <= c <= 'z') ==> r == c
  {
    if 'a' <= c <= 'z' then (c as int - 'a' as int + 'A' as int) as char else c
  }

  /** Python's `s.lower()` restricted to ASCII letters. */
  function Lower(s: string): (r: string)
    ensures |r| == |s|
    ensures forall k :: 0 <= k < |s| ==> r[k] == LowerChar(s[k])
  {
    seq(|s|, k requires 0 <= k < |s| => LowerChar(s[k]))
  }
  /** No upper-case ASCII letter survives `lower`, and lowering twice is
      lowering once. */
  lemma LowerNoUpper(s: string)
    ensures forall k :: 0 <= k < |Lower(s)| ==> !('A' <= Lower(s)[k] <= 'Z')
    ensures Lower(Lower(s)) == Lower(s)
  {
  }


  // ---------------------------------------------------------------------------
  // str(n)
  // ---------------------------------------------------------------------------

  function DigitChar(d: nat): (c: char)
    requires d < 10
    ensures '0' <= c <= '9'
  {
    ('0' as int + d) as char
  }

  predicate IsDigits(s: string) {
    s != [] && forall k :: 0 <= k < |s| ==> '0' <= s[k] <= '9'
  }

  /** Python's `str(n)` for a non-negative integer. */
  function NatToString(n: nat): (s: string)
    ensures IsDigits(s)
  {
    if n < 10 then [DigitChar(n)] else NatToString(n / 10) + [DigitChar(n % 10)]
  }

  /** Python's `int(s)` on a string of decimal digits. */
  function ParseDigits(s: string): (n: nat)
    requires IsDigits(s)
  {
    if |s| == 1 then s[0] as int - '0' as int
    else 10 * ParseDigits(s[..|s| - 1]) + (s[|s| - 1] as int - '0' as int)
  }

  /** `int(str(n)) == n`. */
  lemma {:induction false} ParseNatToString(n: nat)
    ensures ParseDigits(NatToString(n)) == n
  {
    if n >= 10 {
      var s := NatToString(n);
      ParseNatToString(n / 10);
      assert s[..|s| - 1] == NatToString(n / 10);
    }
  }
}
