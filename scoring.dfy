/**
 * The keep-score of each image of a group (`scoreImages`): +1 for metadata,
 * +2 for a meaningful subject, +1 for every image with the group's largest
 * pixel area, and, only when no image has metadata, +1 for the first image
 * with the oldest modification time. The scores are rewritten in place.
 */
module Scoring {
  import opened Text
  import opened Types
  import ExifMerge

  /** `Width*Height` in Go's 64-bit `int`, which wraps on overflow. */
  function Area(img: ImageWithExif): Int64 {
    Wrap64(img.image.width * img.image.height)
  }

  /** `maxRes` after the first `n` images; it starts at 0, so it is never negative. */
  function MaxAreaBefore(s: seq<ImageWithExif>, n: nat): (m: int)
    requires n <= |s|
    ensures m >= 0
  {
    if n == 0 then 0
    else
      var m := MaxAreaBefore(s, n - 1);
      if Area(s[n - 1]) > m then Area(s[n - 1]) else m
  }

  /** `maxRes` bounds every area seen so far, and when positive it is one of them. */
  lemma {:induction false} MaxAreaBeforeIsLargest(s: seq<ImageWithExif>, n: nat)
    requires n <= |s|
    ensures forall i :: 0 <= i < n ==> Area(s[i]) <= MaxAreaBefore(s, n)
    ensures MaxAreaBefore(s, n) > 0 ==> exists i :: 0 <= i < n && Area(s[i]) == MaxAreaBefore(s, n)
  {
    if n > 0 {
      MaxAreaBeforeIsLargest(s, n - 1);
    }
  }

  /** The largest area of the group, or 0 when every area is negative. */
  function MaxArea(s: seq<ImageWithExif>): (m: int)
    ensures m >= 0
  {
    MaxAreaBefore(s, |s|)
  }

  /** A subject that earns the +2 bonus: not empty, not a placeholder, not camera boilerplate. */
  predicate MeaningfulSubject(subject: string) {
    && subject != ""
    && !Contains(subject, ExifMerge.UserCommentSentinel)
    && subject != ExifMerge.AsciiPlaceholder
    && !Contains(ToUpper(subject), ExifMerge.CameraBoilerplate)
  }

  /** None of the first `n` images has metadata. */
  predicate NoExifBefore(s: seq<ImageWithExif>, n: nat)
    requires n <= |s|
  {
    forall i :: 0 <= i < n ==> !s[i].exif.hasExif
  }

  predicate NoneHasExif(s: seq<ImageWithExif>) {
    NoExifBefore(s, |s|)
  }

  /**
   * `oldestIdx` and `oldest` after the first `n` images: they start at 0 and
   * the largest `int64`, and a strictly earlier time replaces them, so of two
   * equal times the earlier index is kept.
   */
  function OldestScan(s: seq<ImageWithExif>, n: nat): (r: (nat, int))
    requires n <= |s|
    ensures r.0 < |s| || (n == 0 && r.0 == 0)
  {
    if n == 0 then (0, MaxInt64)
    else
      var (k, t) := OldestScan(s, n - 1);
      if s[n - 1].image.modifiedDate < t then (n - 1, s[n - 1].image.modifiedDate) else (k, t)
  }

  /** After at least one image, the scan holds the first image with the smallest modification time. */
  lemma {:induction false} OldestScanIsFirstMinimum(s: seq<ImageWithExif>, n: nat)
    requires 0 < n <= |s|
    ensures OldestScan(s, n).0 < n
    ensures OldestScan(s, n).1 == s[OldestScan(s, n).0].image.modifiedDate
    ensures forall j :: 0 <= j < n ==> OldestScan(s, n).1 <= s[j].image.modifiedDate
    ensures forall j :: 0 <= j < OldestScan(s, n).0 ==> s[j].image.modifiedDate > OldestScan(s, n).1
  {
    if n > 1 {
      OldestScanIsFirstMinimum(s, n - 1);
    }
  }

  /** The index the fallback point goes to. */
  function OldestIndex(s: seq<ImageWithExif>): (k: nat)
    requires |s| > 0
    ensures k < |s|
  {
    OldestScan(s, |s|).0
  }

  function BaseBonus(img: ImageWithExif): int {
    if img.exif.hasExif then 1 else 0
  }

  function SubjectBonus(img: ImageWithExif): int {
    if MeaningfulSubject(img.exif.subject) then 2 else 0
  }

  function FallbackBonus(s: seq<ImageWithExif>, i: nat): int
    requires i < |s|
  {
    if NoneHasExif(s) && i == OldestIndex(s) then 1 else 0
  }

  /** The points an image earns on its own, given the group's `maxRes`, before the fallback point. */
  function MeritScore(img: ImageWithExif, maxRes: int): int {
    BaseBonus(img) + SubjectBonus(img) + (if Area(img) == maxRes then 1 else 0)
  }

  /** The keep-score of image `i` of group `s`; it always lies in 0..4. */
  function KeepScore(s: seq<ImageWithExif>, i: nat): (r: int)
    requires i < |s|
    ensures 0 <= r <= 4
  {
    MeritScore(s[i], MaxArea(s)) + FallbackBonus(s, i)
  }

  /**
   * The group after scoring: same length and order, every image and its
   * metadata untouched, and every score replaced (never added to) by its
   * keep-score.
   */
  function Scored(s: seq<ImageWithExif>): (r: seq<ImageWithExif>)
    requires |s| > 0
    ensures |r| == |s|
    ensures forall i :: 0 <= i < |s| ==>
              r[i].image == s[i].image && r[i].exif == s[i].exif && r[i].score == KeepScore(s, i)
  {
    seq(|s|, i requires 0 <= i < |s| => s[i].(score := KeepScore(s, i)))
  }

  /** The first loop of `scoreImages`: the largest area of the group, or 0. */
  method LargestArea(imgs: array<ImageWithExif>) returns (maxRes: int)
    ensures maxRes == MaxArea(imgs[..])
  {
    var i := 0;
    maxRes := 0;
    while i < imgs.Length
      invariant 0 <= i <= imgs.Length
      invariant maxRes == MaxAreaBefore(imgs[..], i)
    {
      var res := Area(imgs[i]);
      if res > maxRes {
        maxRes := res;
      }
      i := i + 1;
    }
  }

  /** The points the second loop of `scoreImages` gives one image before the fallback point. */
  method MeritPoints(img: ImageWithExif, maxRes: int) returns (score: int)
    ensures score == MeritScore(img, maxRes)
  {
    if img.exif.hasExif {
      score := 1;
    } else {
      score := 0;
    }
    if img.exif.subject != "" {
      if MeaningfulSubject(img.exif.subject) {
        score := score + 2;
      }
    }
    if Area(img) == maxRes {
      score := score + 1;
    }
  }

  /** The group with the scores of its first `i` images replaced by their merit points, the rest as they were. */
  function MeritRescored(s: seq<ImageWithExif>, maxRes: int, i: nat): (r: seq<ImageWithExif>)
    requires i <= |s|
    ensures |r| == |s|
    ensures forall k :: 0 <= k < i ==> r[k] == s[k].(score := MeritScore(s[k], maxRes))
    ensures forall k :: i <= k < |s| ==> r[k] == s[k]
  {
    seq(|s|, k requires 0 <= k < |s| => if k < i then s[k].(score := MeritScore(s[k], maxRes)) else s[k])
  }

  /** Rescoring image `i` extends the rescored prefix by one. */
  lemma MeritRescoredStep(s: seq<ImageWithExif>, maxRes: int, i: nat)
    requires i < |s|
    ensures MeritRescored(s, maxRes, i)[i := s[i].(score := MeritScore(s[i], maxRes))] == MeritRescored(s, maxRes, i + 1)
  {
  }

  /**
   * The second loop of `scoreImages`: every score is reset and given the
   * metadata, subject and resolution points, while the loop records whether
   * no image has metadata and which image is the first oldest.
   */
  method ScoreEach(imgs: array<ImageWithExif>, maxRes: int) returns (allNoExif: bool, oldestIdx: nat)
    requires imgs.Length > 0
    modifies imgs
    ensures imgs[..] == MeritRescored(old(imgs[..]), maxRes, imgs.Length)
    ensures allNoExif == NoneHasExif(old(imgs[..]))
    ensures oldestIdx == OldestIndex(old(imgs[..]))
  {
    ghost var s := imgs[..];
    var n := imgs.Length;
    allNoExif := true;
    oldestIdx := 0;
    var oldest: Int64 := MaxInt64;
    var i := 0;
    while i < n
      invariant 0 <= i <= n && oldestIdx < n
      invariant imgs[..] == MeritRescored(s, maxRes, i)
      invariant allNoExif <==> NoExifBefore(s, i)
      invariant oldestIdx == OldestScan(s, i).0 && oldest as int == OldestScan(s, i).1
    {
      var img := imgs[i];
      if img.exif.hasExif {
        allNoExif := false;
      }
      var score := MeritPoints(img, maxRes);
      imgs[i] := img.(score := score);
      MeritRescoredStep(s, maxRes, i);
      if img.image.modifiedDate < oldest {
        oldest := img.image.modifiedDate;
        oldestIdx := i;
      }
      i := i + 1;
    }
  }

  /**
   * `scoreImages`: the largest area, then the per-image points, then the
   * fallback point for the first oldest image when no image has metadata.
   * The source indexes `imgs[oldestIdx]` unconditionally in that case, so it
   * needs a non-empty group (its caller rejects empty ones).
   */
  method ScoreImages(imgs: array<ImageWithExif>)
    requires imgs.Length > 0
    modifies imgs
    ensures imgs[..] == Scored(old(imgs[..]))
  {
    ghost var s := imgs[..];
    var maxRes := LargestArea(imgs);
    var allNoExif, oldestIdx := ScoreEach(imgs, maxRes);
    if allNoExif {
      imgs[oldestIdx] := imgs[oldestIdx].(score := imgs[oldestIdx].score + 1);
    }
    assert forall k :: 0 <= k < imgs.Length ==> imgs[k] == Scored(s)[k];
  }

  /** Two groups that differ at most in their scores. */
  predicate SameImages(s: seq<ImageWithExif>, t: seq<ImageWithExif>) {
    |s| == |t| && forall i :: 0 <= i < |s| ==> s[i].image == t[i].image && s[i].exif == t[i].exif
  }

  lemma {:induction false} MaxAreaIgnoresScores(s: seq<ImageWithExif>, t: seq<ImageWithExif>, n: nat)
    requires SameImages(s, t) && n <= |s|
    ensures MaxAreaBefore(s, n) == MaxAreaBefore(t, n)
  {
    if n > 0 {
      MaxAreaIgnoresScores(s, t, n - 1);
    }
  }

  lemma {:induction false} OldestScanIgnoresScores(s: seq<ImageWithExif>, t: seq<ImageWithExif>, n: nat)
    requires SameImages(s, t) && n <= |s|
    ensures OldestScan(s, n) == OldestScan(t, n)
  {
    if n > 0 {
      OldestScanIgnoresScores(s, t, n - 1);
    }
  }

  /** The scores a group had before never influence the new ones. */
  lemma ScoredIgnoresOldScores(s: seq<ImageWithExif>, t: seq<ImageWithExif>)
    requires |s| > 0 && SameImages(s, t)
    ensures Scored(s) == Scored(t)
  {
    MaxAreaIgnoresScores(s, t, |s|);
    OldestScanIgnoresScores(s, t, |s|);
    assert NoneHasExif(s) == NoneHasExif(t);
    forall i | 0 <= i < |s| ensures Scored(s)[i] == Scored(t)[i] {
      assert KeepScore(s, i) == KeepScore(t, i);
      assert s[i].(score := 0) == t[i].(score := 0);
    }
  }

  /** Scoring is safe to re-run: scoring a scored group changes nothing. */
  lemma ScoringIdempotent(s: seq<ImageWithExif>)
    requires |s| > 0
    ensures Scored(Scored(s)) == Scored(s)
  {
    ScoredIgnoresOldScores(Scored(s), s);
  }

  /**
   * The resolution point (an area equal to `maxRes`) goes to exactly the
   * images whose area is the group's largest, ties included, as long as some
   * area is not negative; `maxRes` starts at 0, so when every area is
   * negative nobody gets it.
   */
  lemma ResolutionPointForLargest(s: seq<ImageWithExif>, i: nat)
    requires i < |s|
    ensures (exists j :: 0 <= j < |s| && Area(s[j]) >= 0) ==>
              (Area(s[i]) == MaxArea(s) <==> forall j :: 0 <= j < |s| ==> Area(s[j]) <= Area(s[i]))
    ensures (forall j :: 0 <= j < |s| ==> Area(s[j]) < 0) ==> Area(s[i]) != MaxArea(s)
  {
    MaxAreaBeforeIsLargest(s, |s|);
    if exists j :: 0 <= j < |s| && Area(s[j]) >= 0 {
      var j :| 0 <= j < |s| && Area(s[j]) >= 0;
      if forall j :: 0 <= j < |s| ==> Area(s[j]) <= Area(s[i]) {
        if MaxArea(s) > 0 {
          var k :| 0 <= k < |s| && Area(s[k]) == MaxArea(s);
        }
      }
    }
  }

  /**
   * When no image has metadata, exactly one image gets the fallback point: the
   * first one with the oldest modification time. Otherwise nobody gets it.
   */
  lemma FallbackToFirstOldest(s: seq<ImageWithExif>, k: nat)
    requires k < |s|
    requires forall j :: 0 <= j < |s| ==> s[k].image.modifiedDate <= s[j].image.modifiedDate
    requires forall j :: 0 <= j < k ==> s[j].image.modifiedDate > s[k].image.modifiedDate
    ensures NoneHasExif(s) ==> forall i :: 0 <= i < |s| ==> (FallbackBonus(s, i) == 1 <==> i == k)
    ensures !NoneHasExif(s) ==> forall i :: 0 <= i < |s| ==> FallbackBonus(s, i) == 0
  {
    OldestScanIsFirstMinimum(s, |s|);
  }

  /**
   * Two images without metadata and of the same size: the older one scores 2
   * (resolution and fallback), the newer one 1, so the older one ranks first.
   */
  lemma OlderOfTwoPlainImagesWins(older: ImageWithExif, newer: ImageWithExif)
    requires !older.exif.hasExif && !newer.exif.hasExif
    requires older.exif.subject == "" && newer.exif.subject == ""
    requires Area(older) == Area(newer) >= 0
    requires older.image.modifiedDate < newer.image.modifiedDate
    ensures Scored([newer, older])[1].score == 2 && Scored([newer, older])[0].score == 1
    ensures Scored([older, newer])[0].score == 2 && Scored([older, newer])[1].score == 1
  {
    var s := [newer, older];
    assert MaxAreaBefore(s, 1) == Area(newer);
    assert OldestScan(s, 1) == (0, newer.image.modifiedDate);
    var t := [older, newer];
    assert MaxAreaBefore(t, 1) == Area(older);
    assert OldestScan(t, 1) == (0, older.image.modifiedDate);
  }

  /**
   * An image with metadata and a meaningful subject always outranks one with
   * neither: it has at least 3 points, the other at most 1 (the fallback point
   * is not given out when some image has metadata).
   */
  lemma DescribedImageOutranksBareOne(s: seq<ImageWithExif>, a: nat, b: nat)
    requires a < |s| && b < |s|
    requires s[a].exif.hasExif && MeaningfulSubject(s[a].exif.subject)
    requires !s[b].exif.hasExif && !MeaningfulSubject(s[b].exif.subject)
    ensures Scored(s)[a].score > Scored(s)[b].score
  {
    assert !NoneHasExif(s);
  }

  /** A lone image scores its metadata and subject points plus the resolution point when its area is not negative. */
  lemma LoneImageScore(img: ImageWithExif)
    requires Area(img) >= 0
    ensures Scored([img])[0].score == BaseBonus(img) + SubjectBonus(img) + 1 + (if img.exif.hasExif then 0 else 1)
  {
    var s := [img];
    assert MaxAreaBefore(s, 0) == 0;
  }
}
