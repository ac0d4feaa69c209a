/**
 * The group similarity score (`groupSimilarityScore`) and the pairwise rule it
 * counts (`exifIdentical`). Capture times are parsed as RFC 3339 date-times
 * (section 5.6 of RFC 3339); the parser is a parameter `parse` that maps a
 * string to its instant in nanoseconds, or to None when it does not parse.
 */
module Similarity {
  import opened Wrappers
  import opened Types

  /** One hour as a `time.Duration` (nanoseconds). */
  const Hour: int := 3_600_000_000_000

  /** `time.Time.Sub`: the difference in nanoseconds, saturated at the bounds of `time.Duration`. */
  function SubTimes(t: int, u: int): (d: Int64)
    ensures MinInt64 <= t - u <= MaxInt64 ==> d == t - u
    ensures t - u > MaxInt64 ==> d == MaxInt64
    ensures t - u < MinInt64 ==> d == MinInt64
  {
    if t - u > MaxInt64 then MaxInt64 else if t - u < MinInt64 then MinInt64 else t - u
  }

  /** `if delta < 0 { delta = -delta }` on a `time.Duration`: negating the minimum wraps to itself. */
  function AbsDurationAsWritten(d: Int64): (r: Int64)
    ensures d > MinInt64 ==> r >= 0 && (r == d || r == -d)
    ensures d == MinInt64 ==> r == MinInt64
  {
    if d < 0 then Wrap64(-(d as int)) else d
  }
  /**
   * `exifIdentical` as written: same camera model, same FStop and, when both
   * dates parse, a saturated and then negated difference of at most one hour.
   */
  predicate ExifIdenticalAsWritten(a: ExifData, b: ExifData, parse: string -> Option<int>) {
    && a.cameraModel == b.cameraModel
    && a.fStop == b.fStop
    && (parse(a.dateTaken).Some? && parse(b.dateTaken).Some? ==>
          !(AbsDurationAsWritten(SubTimes(parse(a.dateTaken).value, parse(b.dateTaken).value)) > Hour))
  }

  /**
   * The pairwise identity rule: same camera model, same FStop and, when both
   * dates parse, capture times at most one hour apart (exactly one hour still
   * counts); a date that does not parse skips the time check.
   */
  predicate ExifIdentical(a: ExifData, b: ExifData, parse: string -> Option<int>) {
    && a.cameraModel == b.cameraModel
    && a.fStop == b.fStop
    && (parse(a.dateTaken).Some? && parse(b.dateTaken).Some? ==>
          -Hour <= parse(a.dateTaken).value - parse(b.dateTaken).value <= Hour)
  }

  /** Wherever the difference fits in a `time.Duration`, the code as written follows the rule. */
  lemma AsWrittenAgreesWithinDurationRange(a: ExifData, b: ExifData, parse: string -> Option<int>)
    requires parse(a.dateTaken).Some? && parse(b.dateTaken).Some? ==>
               MinInt64 < parse(a.dateTaken).value - parse(b.dateTaken).value <= MaxInt64
    ensures ExifIdenticalAsWritten(a, b, parse) == ExifIdentical(a, b, parse)
  {
  }

  /** A parser that knows two instants 300 years apart (nanoseconds since 1970-01-01T00:00:00Z). */
  function TwoInstantParser(s: string): Option<int> {
    if s == "1700-01-01T00:00:00Z" then Some(-8_520_336_000 * 1_000_000_000)
    else if s == "2000-01-01T00:00:00Z" then Some(946_684_800 * 1_000_000_000)
    else None
  }

  /**
   * Two photos 300 years apart: as written, the earlier one is "identical" to
   * the later one (the difference saturates at the minimum Duration and its
   * negation wraps back to it), but not the other way round.
   */
  lemma AsWrittenNotSymmetric()
    ensures
      var early := NoExif.(dateTaken := "1700-01-01T00:00:00Z");
      var late := NoExif.(dateTaken := "2000-01-01T00:00:00Z");
      && ExifIdenticalAsWritten(early, late, TwoInstantParser)
      && !ExifIdenticalAsWritten(late, early, TwoInstantParser)
      && !ExifIdentical(early, late, TwoInstantParser)
  {
  }

  lemma ExifIdenticalSymmetric(a: ExifData, b: ExifData, parse: string -> Option<int>)
    ensures ExifIdentical(a, b, parse) == ExifIdentical(b, a, parse)
  {
  }

  lemma ExifIdenticalReflexive(a: ExifData, parse: string -> Option<int>)
    ensures ExifIdentical(a, a, parse)
  {
  }

  /** Different camera models or FStops are never identical, whatever the dates. */
  lemma DifferentCameraNeverIdentical(a: ExifData, b: ExifData, parse: string -> Option<int>)
    requires a.cameraModel != b.cameraModel || a.fStop != b.fStop
    ensures !ExifIdentical(a, b, parse)
  {
  }

  /** Exactly one hour apart is still identical; one nanosecond more is not. */
  lemma OneHourBoundary(a: ExifData, b: ExifData, parse: string -> Option<int>)
    requires a.cameraModel == b.cameraModel && a.fStop == b.fStop
    requires parse(a.dateTaken).Some? && parse(b.dateTaken).Some?
    ensures parse(b.dateTaken).value - parse(a.dateTaken).value == Hour ==> ExifIdentical(a, b, parse)
    ensures parse(b.dateTaken).value - parse(a.dateTaken).value == Hour + 1 ==> !ExifIdentical(a, b, parse)
  {
  }

  /** A date that does not parse skips the time check. */
  lemma UnparsableDateSkipsTimeCheck(a: ExifData, b: ExifData, parse: string -> Option<int>)
    requires a.cameraModel == b.cameraModel && a.fStop == b.fStop
    requires parse(a.dateTaken).None? || parse(b.dateTaken).None?
    ensures ExifIdentical(a, b, parse)
  {
  }

  /** Every two capture dates of the group that parse differ by an amount a `time.Duration` can hold. */
  predicate DatesWithinDurationRange(s: seq<ExifData>, parse: string -> Option<int>) {
    forall i, j :: 0 <= i < |s| && 0 <= j < |s| && parse(s[i].dateTaken).Some? && parse(s[j].dateTaken).Some? ==>
      MinInt64 < parse(s[i].dateTaken).value - parse(s[j].dateTaken).value <= MaxInt64
  }

  /**
   * In a group whose dates fit a `time.Duration`, the count applies the
   * pairwise rule itself: every pair it counts is identical, every pair it
   * skips is not.
   */
  lemma GroupFollowsRuleWithinDurationRange(s: seq<ExifData>, parse: string -> Option<int>)
    requires DatesWithinDurationRange(s, parse)
    ensures forall i, j :: 0 <= i < |s| && 0 <= j < |s| ==>
              ExifIdenticalAsWritten(s[i], s[j], parse) == ExifIdentical(s[i], s[j], parse)
  {
    forall i, j | 0 <= i < |s| && 0 <= j < |s|
      ensures ExifIdenticalAsWritten(s[i], s[j], parse) == ExifIdentical(s[i], s[j], parse)
    {
      AsWrittenAgreesWithinDurationRange(s[i], s[j], parse);
    }
  }

  /** The metadata column of a group. */
  function Exifs(imgs: seq<ImageWithExif>): (r: seq<ExifData>)
    ensures |r| == |imgs|
    ensures forall i :: 0 <= i < |imgs| ==> r[i] == imgs[i].exif
  {
    seq(|imgs|, i requires 0 <= i < |imgs| => imgs[i].exif)
  }

  /** A pairwise test on metadata, the one a group count applies. */
  type PairRule = (ExifData, ExifData) -> bool

  /** The test `groupSimilarityScore` applies: `exifIdentical` as written. */
  function AsWrittenRule(parse: string -> Option<int>): PairRule {
    (a, b) => ExifIdenticalAsWritten(a, b, parse)
  }

  /** The pairwise identity rule as a test. */
  function IntendedRule(parse: string -> Option<int>): PairRule {
    (a, b) => ExifIdentical(a, b, parse)
  }

  /** Number of `j` in `[from, |s|)` whose metadata `same` finds identical to that of `s[i]`. */
  function MatchesFrom(s: seq<ExifData>, i: nat, from: nat, same: PairRule): (r: nat)
    requires i < |s|
    ensures from <= |s| ==> r <= |s| - from
    ensures from >= |s| ==> r == 0
    decreases |s| - from
  {
    if from >= |s| then 0
    else (if same(s[i], s[from]) then 1 else 0) + MatchesFrom(s, i, from + 1, same)
  }

  lemma TriangleStep(m: nat)
    requires m >= 1
    ensures m * (m - 1) == (m - 1) * (m - 2) + 2 * (m - 1)
  {
  }

  /** Number of pairs `(i, j)` with `from <= i < j < |s|` that `same` finds identical. */
  function PairsFrom(s: seq<ExifData>, from: nat, same: PairRule): (r: nat)
    ensures from <= |s| ==> 2 * r <= (|s| - from) * (|s| - from - 1)
    decreases |s| - from
  {
    if from >= |s| then 0
    else
      var r := MatchesFrom(s, from, from + 1, same) + PairsFrom(s, from + 1, same);
      TriangleStep(|s| - from);
      r
  }

  /**
   * The number of unordered pairs of a group that `groupSimilarityScore`
   * counts as identical: each pair `i < j` is compared once, with `exifIdentical`
   * as written, so the count lies between 0 and n(n-1)/2.
   */
  function IdenticalPairs(s: seq<ExifData>, parse: string -> Option<int>): (r: nat)
    ensures 2 * r <= |s| * (|s| - 1)
  {
    PairsFrom(s, 0, AsWrittenRule(parse))
  }

  /** The same count under the pairwise identity rule. */
  function IntendedPairs(s: seq<ExifData>, parse: string -> Option<int>): (r: nat)
    ensures 2 * r <= |s| * (|s| - 1)
  {
    PairsFrom(s, 0, IntendedRule(parse))
  }

  /** Two tests that agree on every pair of the group count the same matches. */
  lemma {:induction false} MatchesAgree(s: seq<ExifData>, i: nat, from: nat, same: PairRule, other: PairRule)
    requires i < |s|
    requires forall j :: 0 <= j < |s| ==> same(s[i], s[j]) == other(s[i], s[j])
    ensures MatchesFrom(s, i, from, same) == MatchesFrom(s, i, from, other)
    decreases |s| - from
  {
    if from < |s| {
      MatchesAgree(s, i, from + 1, same, other);
    }
  }

  lemma {:induction false} PairsAgree(s: seq<ExifData>, from: nat, same: PairRule, other: PairRule)
    requires forall i, j :: 0 <= i < |s| && 0 <= j < |s| ==> same(s[i], s[j]) == other(s[i], s[j])
    ensures PairsFrom(s, from, same) == PairsFrom(s, from, other)
    decreases |s| - from
  {
    if from < |s| {
      MatchesAgree(s, from, from + 1, same, other);
      PairsAgree(s, from + 1, same, other);
    }
  }

  /** In a group whose dates fit a `time.Duration`, the count as written is the count under the rule. */
  lemma CountAgreesWithinDurationRange(s: seq<ExifData>, parse: string -> Option<int>)
    requires DatesWithinDurationRange(s, parse)
    ensures IdenticalPairs(s, parse) == IntendedPairs(s, parse)
  {
    GroupFollowsRuleWithinDurationRange(s, parse);
    PairsAgree(s, 0, AsWrittenRule(parse), IntendedRule(parse));
  }

  /**
   * The similarity formula: 5.0 for at most one image, else n / (pairs + 1) * 5.0.
   * A group of two or more scores at most 5n, exactly 5n when no pair is
   * identical, and less the more pairs are.
   */
  function SimilarityScore(n: nat, pairs: nat): (r: real)
    ensures n <= 1 ==> r == 5.0
    ensures n >= 2 ==> 0.0 < r <= 5.0 * (n as real)
    ensures n >= 2 && pairs == 0 ==> r == 5.0 * (n as real)
    ensures n >= 2 && pairs > 0 ==> r < 5.0 * (n as real)
  {
    if n <= 1 then 5.0 else (n as real) / ((pairs + 1) as real) * 5.0
  }

  /**
   * `groupSimilarityScore`: counts the identical pairs `i < j` in two nested
   * loops and applies the similarity formula to the count.
   */
  method GroupSimilarityScore(imgs: seq<ImageWithExif>, parse: string -> Option<int>) returns (score: real)
    ensures score == SimilarityScore(|imgs|, IdenticalPairs(Exifs(imgs), parse))
  {
    ghost var s := Exifs(imgs);
    ghost var same := AsWrittenRule(parse);
    var total := |imgs|;
    var identical := 0;
    var i := 0;
    while i < total
      invariant 0 <= i <= total
      invariant identical + PairsFrom(s, i, same) == PairsFrom(s, 0, same)
    {
      var j := i + 1;
      while j < total
        invariant i + 1 <= j <= total
        invariant identical + MatchesFrom(s, i, j, same) + PairsFrom(s, i + 1, same) == PairsFrom(s, 0, same)
      {
        if ExifIdenticalAsWritten(imgs[i].exif, imgs[j].exif, parse) {
          identical := identical + 1;
        }
        j := j + 1;
      }
      i := i + 1;
    }
    if total <= 1 {
      return 5.0;
    }
    score := (total as real) / ((identical + 1) as real) * 5.0;
  }

  lemma SmallGroupScoresFive(s: seq<ExifData>, parse: string -> Option<int>)
    requires |s| <= 1
    ensures SimilarityScore(|s|, IdenticalPairs(s, parse)) == 5.0
  {
  }

  /** Counts of matches when every later image is identical. */
  lemma {:induction false} AllMatch(s: seq<ExifData>, i: nat, from: nat, same: PairRule)
    requires i < |s| && from <= |s|
    requires forall j :: from <= j < |s| ==> same(s[i], s[j])
    ensures MatchesFrom(s, i, from, same) == |s| - from
    decreases |s| - from
  {
    if from < |s| {
      AllMatch(s, i, from + 1, same);
    }
  }

  /** One more row in which every later image matches adds `m - 1` pairs to the triangle. */
  lemma FullRowStep(s: seq<ExifData>, from: nat, same: PairRule)
    requires from < |s|
    requires MatchesFrom(s, from, from + 1, same) == |s| - (from + 1)
    requires 2 * PairsFrom(s, from + 1, same) == (|s| - (from + 1)) * (|s| - (from + 1) - 1)
    ensures 2 * PairsFrom(s, from, same) == (|s| - from) * (|s| - from - 1)
  {
    var m := |s| - from;
    assert PairsFrom(s, from, same) == (m - 1) + PairsFrom(s, from + 1, same);
    TriangleStep(m);
  }

  lemma {:induction false} AllPairs(s: seq<ExifData>, from: nat, same: PairRule)
    requires from <= |s|
    requires forall i, j :: 0 <= i < j < |s| ==> same(s[i], s[j])
    ensures 2 * PairsFrom(s, from, same) == (|s| - from) * (|s| - from - 1)
    decreases |s| - from
  {
    if from < |s| {
      AllMatch(s, from, from + 1, same);
      AllPairs(s, from + 1, same);
      FullRowStep(s, from, same);
    }
  }

  /** When `exifIdentical` holds for every pair the count reaches its maximum n(n-1)/2. */
  lemma AllIdenticalMaximum(s: seq<ExifData>, parse: string -> Option<int>)
    requires forall i, j :: 0 <= i < j < |s| ==> ExifIdenticalAsWritten(s[i], s[j], parse)
    ensures 2 * IdenticalPairs(s, parse) == |s| * (|s| - 1)
  {
    AllPairs(s, 0, AsWrittenRule(parse));
  }

  lemma {:induction false} NoMatch(s: seq<ExifData>, i: nat, from: nat, same: PairRule)
    requires i < |s|
    requires forall j :: from <= j < |s| ==> !same(s[i], s[j])
    ensures MatchesFrom(s, i, from, same) == 0
    decreases |s| - from
  {
    if from < |s| {
      NoMatch(s, i, from + 1, same);
    }
  }

  lemma {:induction false} NoPairs(s: seq<ExifData>, from: nat, same: PairRule)
    requires forall i, j :: 0 <= i < j < |s| ==> !same(s[i], s[j])
    ensures PairsFrom(s, from, same) == 0
    decreases |s| - from
  {
    if from < |s| {
      NoMatch(s, from, from + 1, same);
      NoPairs(s, from + 1, same);
    }
  }

  /** When `exifIdentical` holds for no pair, a group of n >= 2 images scores 5n. */
  lemma NoIdenticalPairScoresFiveN(s: seq<ExifData>, parse: string -> Option<int>)
    requires |s| >= 2
    requires forall i, j :: 0 <= i < j < |s| ==> !ExifIdenticalAsWritten(s[i], s[j], parse)
    ensures SimilarityScore(|s|, IdenticalPairs(s, parse)) == 5.0 * (|s| as real)
  {
    NoPairs(s, 0, AsWrittenRule(parse));
  }

  /**
   * The group of the two photos 300 years apart, earlier one first: the
   * count as written finds one identical pair and scores the group 5.0,
   * where the rule finds none and scores it 2 / 1 * 5.0 = 10.0.
   */
  lemma CenturiesApartScoreFive()
    ensures
      var s := [NoExif.(dateTaken := "1700-01-01T00:00:00Z"), NoExif.(dateTaken := "2000-01-01T00:00:00Z")];
      && IdenticalPairs(s, TwoInstantParser) == 1
      && SimilarityScore(2, IdenticalPairs(s, TwoInstantParser)) == 5.0
      && IntendedPairs(s, TwoInstantParser) == 0
      && SimilarityScore(2, IntendedPairs(s, TwoInstantParser)) == 10.0
  {
    var s := [NoExif.(dateTaken := "1700-01-01T00:00:00Z"), NoExif.(dateTaken := "2000-01-01T00:00:00Z")];
    var asWritten := AsWrittenRule(TwoInstantParser);
    var intended := IntendedRule(TwoInstantParser);
    AsWrittenNotSymmetric();
    assert MatchesFrom(s, 0, 1, asWritten) == 1 by {
      assert MatchesFrom(s, 0, 2, asWritten) == 0;
    }
    assert PairsFrom(s, 1, asWritten) == 0 by {
      assert MatchesFrom(s, 1, 2, asWritten) == 0;
      assert PairsFrom(s, 2, asWritten) == 0;
    }
    assert MatchesFrom(s, 0, 1, intended) == 0 by {
      assert MatchesFrom(s, 0, 2, intended) == 0;
    }
    assert PairsFrom(s, 1, intended) == 0 by {
      assert MatchesFrom(s, 1, 2, intended) == 0;
      assert PairsFrom(s, 2, intended) == 0;
    }
  }

  /** Three images of which exactly the first two agree: one pair, score 3 / 2 * 5.0 = 7.5. */
  lemma ThreeImagesOnePair(a: ExifData, c: ExifData, parse: string -> Option<int>)
    requires a.cameraModel != c.cameraModel
    ensures IdenticalPairs([a, a, c], parse) == 1
    ensures SimilarityScore(3, IdenticalPairs([a, a, c], parse)) == 7.5
  {
    var s := [a, a, c];
    var same := AsWrittenRule(parse);
    assert same(a, a) && !same(a, c);
    assert MatchesFrom(s, 0, 1, same) == 1 by {
      assert MatchesFrom(s, 0, 3, same) == 0;
      assert MatchesFrom(s, 0, 2, same) == 0;
    }
    assert MatchesFrom(s, 1, 2, same) == 0 by {
      assert MatchesFrom(s, 1, 3, same) == 0;
    }
    assert PairsFrom(s, 2, same) == 0 by {
      assert MatchesFrom(s, 2, 3, same) == 0;
      assert PairsFrom(s, 3, same) == 0;
    }
    assert PairsFrom(s, 1, same) == 0;
    assert PairsFrom(s, 0, same) == 1;
    assert (3 as real) / (2 as real) == 1.5;
  }
}
