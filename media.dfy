/** The media-score tally (`build_media_scores_text`). */
module Media {
  import opened Text
  import opened Records

  const NoMediaText := "No media scores available for this fight."
  const MediaHeader := "**MEDIA MEMBER SCORES**\n\n"

  // ---------------------------------------------------------------------------
  // Distinct values in first-seen order
  // ---------------------------------------------------------------------------

  /** The scores of `xs`, each once, in the order they are first seen. */
  function Distinct(xs: seq<Score>): seq<Score>
    decreases |xs|
  {
    if xs == [] then []
    else
      var init := Distinct(xs[..|xs| - 1]);
      if xs[|xs| - 1] in init then init else init + [xs[|xs| - 1]]
  }

  predicate NoDuplicates(r: seq<Score>) {
    forall i, j :: 0 <= i < j < |r| ==> r[i] != r[j]
  }

  /** Position of the first occurrence of `x` in `xs` (`|xs|` when absent). */
  function FirstIndex(xs: seq<Score>, x: Score): (i: nat)
    ensures i <= |xs|
    ensures i < |xs| <==> x in xs
    ensures i < |xs| ==> xs[i] == x
    ensures forall j :: 0 <= j < i ==> xs[j] != x
  {
    if xs == [] then 0 else if xs[0] == x then 0 else 1 + FirstIndex(xs[1..], x)
  }

  lemma DistinctSnoc(xs: seq<Score>, i: nat)
    requires i < |xs|
    ensures Distinct(xs[..i + 1])
      == if xs[i] in Distinct(xs[..i]) then Distinct(xs[..i]) else Distinct(xs[..i]) + [xs[i]]
  {
    assert xs[..i + 1][..i] == xs[..i];
  }

  /** Each score appears once, exactly the scores of `xs` appear, and they
      appear in the order of their first occurrence in `xs`. */
  lemma DistinctFirstSeen(xs: seq<Score>)
    ensures NoDuplicates(Distinct(xs))
    ensures forall x :: x in Distinct(xs) <==> x in xs
    ensures forall i, j :: 0 <= i < j < |Distinct(xs)| ==>
      FirstIndex(xs, Distinct(xs)[i]) < FirstIndex(xs, Distinct(xs)[j])
  {
    DistinctMembers(xs);
    DistinctOrder(xs);
    assert FirstSeenOrder(xs, Distinct(xs));
  }

  lemma {:induction false} DistinctMembers(xs: seq<Score>)
    ensures NoDuplicates(Distinct(xs))
    ensures forall x :: x in Distinct(xs) <==> x in xs
    decreases |xs|
  {
    if xs != [] {
      var init := xs[..|xs| - 1];
      DistinctMembers(init);
      assert xs == init + [xs[|xs| - 1]];
    }
  }

  lemma {:induction false} DistinctOrder(xs: seq<Score>)
    ensures FirstSeenOrder(xs, Distinct(xs))
    decreases |xs|
  {
    if xs != [] {
      var init := xs[..|xs| - 1];
      var x := xs[|xs| - 1];
      DistinctOrder(init);
      DistinctMembers(init);
      assert xs == init + [x];
      OrderStep(init, x, Distinct(init), Distinct(xs));
    }
  }

  /** The values of `r` come in the order of their first occurrence in `xs`. */
  predicate FirstSeenOrder(xs: seq<Score>, r: seq<Score>) {
    forall i, j :: 0 <= i < j < |r| ==> FirstIndex(xs, r[i]) < FirstIndex(xs, r[j])
  }

  lemma OrderStep(init: seq<Score>, x: Score, d: seq<Score>, r: seq<Score>)
    requires FirstSeenOrder(init, d)
    requires forall y :: y in d <==> y in init
    requires r == if x in d then d else d + [x]
    ensures FirstSeenOrder(init + [x], r)
  {
    FirstIndexSnoc(init, x);
    var xs := init + [x];
    forall i, j | 0 <= i < j < |r| ensures FirstIndex(xs, r[i]) < FirstIndex(xs, r[j]) {
      assert r[i] == d[i] && d[i] in init;
      if j < |d| {
        assert r[j] == d[j] && d[j] in init;
      } else {
        assert r[j] == x && x !in init;
      }
    }
  }

  /** Appending a value leaves the first occurrences already present alone. */
  lemma FirstIndexSnoc(xs: seq<Score>, x: Score)
    ensures forall y :: y in xs ==> FirstIndex(xs + [x], y) == FirstIndex(xs, y)
    ensures x !in xs ==> FirstIndex(xs + [x], x) == |xs|
  {
    forall y | y in xs ensures FirstIndex(xs + [x], y) == FirstIndex(xs, y) {
      var i := FirstIndex(xs, y);
      assert (xs + [x])[i] == y;
    }
  }

  // ---------------------------------------------------------------------------
  // The tally adds up
  // ---------------------------------------------------------------------------

  /** The sum, over the scores of `r`, of how often each occurs in `xs`. */
  function SumCounts(r: seq<Score>, xs: seq<Score>): nat {
    if r == [] then 0 else SumCounts(r[..|r| - 1], xs) + Count(xs, r[|r| - 1])
  }

  lemma {:induction false} SumCountsSnocValue(r: seq<Score>, xs: seq<Score>, x: Score)
    requires NoDuplicates(r)
    ensures SumCounts(r, xs + [x]) == SumCounts(r, xs) + (if x in r then 1 else 0)
    decreases |r|
  {
    if r != [] {
      var init := r[..|r| - 1];
      var last := r[|r| - 1];
      SumCountsSnocValue(init, xs, x);
      CountAppend(xs, [x], last);
      assert Count([x], last) == Count([x][..0], last) + (if x == last then 1 else 0);
      assert r == init + [last];
      assert x in r <==> x in init || x == last;
      assert x in init ==> x != last;
    }
  }

  lemma SumCountsSnocScore(r: seq<Score>, xs: seq<Score>, x: Score)
    ensures SumCounts(r + [x], xs) == SumCounts(r, xs) + Count(xs, x)
  {
    assert (r + [x])[..|r|] == r;
  }

  /** The counts printed in the bullets add up to the number of scores. */
  lemma {:induction false} TallyAddsUp(xs: seq<Score>)
    ensures SumCounts(Distinct(xs), xs) == |xs|
    decreases |xs|
  {
    if xs != [] {
      var init := xs[..|xs| - 1];
      var x := xs[|xs| - 1];
      TallyAddsUp(init);
      DistinctFirstSeen(init);
      assert xs == init + [x];
      SumCountsSnocValue(Distinct(init), init, x);
      if x !in Distinct(init) {
        TallyNewScore(init, x);
      }
    }
  }

  /** A score seen for the first time adds a bullet counting one. */
  lemma TallyNewScore(init: seq<Score>, x: Score)
    requires x !in init
    ensures SumCounts(Distinct(init) + [x], init + [x]) == SumCounts(Distinct(init), init + [x]) + 1
  {
    SumCountsSnocScore(Distinct(init), init + [x], x);
    CountAppend(init, [x], x);
    CountZero(init, x);
    assert Count([x], x) == Count([x][..0], x) + 1;
  }

  // ---------------------------------------------------------------------------
  // The text
  // ---------------------------------------------------------------------------

  /** One bullet: `count/total` people gave this score. */
  function Bullet(s: Score, count: nat, total: nat): string {
    "- **" + NatToString(count) + "/" + NatToString(total) + "** people scored it **"
      + s.first + " " + s.second + "**.\n"
  }

  function Bullets(media: seq<Score>, seen: seq<Score>): (r: seq<string>)
    ensures |r| == |seen|
  {
    seq(|seen|, j requires 0 <= j < |seen| => Bullet(seen[j], Count(media, seen[j]), |media|))
  }

  /** The text `build_media_scores_text` returns. */
  function MediaText(media: seq<Score>): string {
    if media == [] then NoMediaText
    else MediaHeader + Concat(Bullets(media, Distinct(media)))
  }

  lemma BulletsSnoc(media: seq<Score>, seen: seq<Score>, x: Score)
    ensures Concat(Bullets(media, seen + [x]))
      == Concat(Bullets(media, seen)) + Bullet(x, Count(media, x), |media|)
  {
    var b := Bullets(media, seen + [x]);
    assert b[..|seen|] == Bullets(media, seen);
    ConcatSnoc(b, |seen|);
    ConcatAll(b);
  }

  /** `build_media_scores_text`: one pass over the scores, a bullet for each
      score not yet covered. */
  method BuildMediaScoresText(media: seq<Score>) returns (text: string)
    ensures text == MediaText(media)
  {
    if |media| == 0 {
      return NoMediaText;
    }
    text := MediaHeader;
    var total := |media|;
    var covered: set<Score> := {};
    ghost var seen: seq<Score> := [];
    for i := 0 to |media|
      invariant seen == Distinct(media[..i])
      invariant forall x :: x in covered <==> x in seen
      invariant text == MediaHeader + Concat(Bullets(media, seen))
    {
      var score := media[i];
      DistinctSnoc(media, i);
      if score !in covered {
        var count := Count(media, score);
        var bullet := "- **" + NatToString(count) + "/" + NatToString(total) + "** people scored it **"
          + score.first + " " + score.second + "**.\n";
        BulletsSnoc(media, seen, score);
        AppendAssoc(MediaHeader, Concat(Bullets(media, seen)), bullet);
        text := text + bullet;
        covered := covered + {score};
        seen := seen + [score];
      }
    }
    assert media[..|media|] == media;
  }

  /** Every bullet counts at least one and at most all of the scores. */
  lemma BulletCountsInRange(xs: seq<Score>)
    ensures forall j :: 0 <= j < |Distinct(xs)| ==> 1 <= Count(xs, Distinct(xs)[j]) <= |xs|
  {
    DistinctFirstSeen(xs);
    forall j | 0 <= j < |Distinct(xs)| ensures 1 <= Count(xs, Distinct(xs)[j]) <= |xs| {
      CountZero(xs, Distinct(xs)[j]);
      CountBound(xs, Distinct(xs)[j]);
    }
  }

  lemma {:induction false} CountBound(xs: seq<Score>, x: Score)
    ensures Count(xs, x) <= |xs|
    decreases |xs|
  {
    if xs != [] {
      CountBound(xs[..|xs| - 1], x);
    }
  }
}
