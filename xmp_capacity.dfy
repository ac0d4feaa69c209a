/**
 * `extractXMPSubject` as written. Its window `data[start : start+length]` is a
 * Go slice expression, which is bounded by the capacity of the backing array
 * and not by the length of the data: the window may take in the spare bytes
 * behind the data, and it panics only when it reaches past the capacity.
 */
module XmpCapacity {
  import opened Wrappers
  import opened Text
  import opened Xmp

  /** The outcome of a Go function that may panic. */
  datatype Outcome<+T> = Returned(value: T) | Panicked(message: string)

  /**
   * The bytes of a slice's backing array behind its length. A Go slice
   * expression is bounded by the capacity, not the length, so the window may
   * take them in. `io.ReadAll` grows its buffer with fresh, zeroed memory and
   * a file read writes only the bytes it returns, so they are NULs.
   */
  function Spare(k: nat): (r: string)
    ensures |r| == k && forall i :: 0 <= i < k ==> r[i] == '\0'
  {
    seq(k, _ => '\0')
  }

  /**
   * `extractXMPSubject` as written, on data whose backing array holds
   * `capacity` bytes: the window `data[start : start+length]` panics when the
   * packet-trailer slack reaches past the capacity, and otherwise takes in
   * the spare bytes behind the data.
   */
  function ExtractXmpSubjectAsWritten(data: string, capacity: nat): (r: Outcome<string>)
    requires |data| <= capacity
    ensures r.Panicked? <==>
              WindowStart(data).Some? && WindowLength(data, WindowStart(data).value).Some? &&
              WindowStart(data).value + WindowLength(data, WindowStart(data).value).value > capacity
    ensures r.Returned? ==> r.value == ExtractXmpSubject(data)
  {
    match WindowStart(data)
    case None =>
      NoWindow(data);
      Returned("")
    case Some(start) =>
      match WindowLength(data, start)
      case None =>
        NoWindowEnd(data, start);
        Returned("")
      case Some(length) =>
        if start + length > capacity then Panicked("slice bounds out of range")
        else
          PaddedSubjectIsClamped(data, capacity, start, length);
          Returned(SubjectInWindow((data + Spare(capacity - |data|))[start..start + length]))
  }

  /** No character of `p` is a NUL. */
  predicate NoNul(p: string) {
    forall i :: 0 <= i < |p| ==> p[i] != '\0'
  }

  /** A NUL-free pattern occurs in `w` followed by NULs exactly where it occurs in `w`. */
  lemma OccursPadded(w: string, k: nat, pat: string, j: nat)
    requires pat != [] && NoNul(pat)
    ensures OccursAt(w + Spare(k), pat, j) <==> OccursAt(w, pat, j)
  {
    var v := w + Spare(k);
    if OccursAt(v, pat, j) {
      var m := j + |pat| - 1;
      assert v[m] == v[j..j + |pat|][|pat| - 1] == pat[|pat| - 1];
      assert m < |w|;
      assert v[j..j + |pat|] == w[j..j + |pat|];
    }
    if OccursAt(w, pat, j) {
      assert v[j..j + |pat|] == w[j..j + |pat|];
    }
  }

  /** Trailing NULs never change where a NUL-free pattern is first found. */
  lemma IndexOfPadded(w: string, k: nat, pat: string)
    requires pat != [] && NoNul(pat)
    ensures IndexOf(w + Spare(k), pat) == IndexOf(w, pat)
  {
    var v := w + Spare(k);
    forall j: nat ensures OccursAt(v, pat, j) <==> OccursAt(w, pat, j) {
      OccursPadded(w, k, pat, j);
    }
    if IndexOf(w, pat).Some? {
      var a := IndexOf(w, pat).value;
      assert OccursAt(v, pat, a);
      var b := IndexOf(v, pat).value;
      assert OccursAt(w, pat, b);
    }
  }

  /** Trailing NULs never change the value before the first NUL-free `close`. */
  lemma ValueBeforePadded(u: string, k: nat, close: string)
    requires close != [] && NoNul(close)
    ensures ValueBefore(u + Spare(k), close) == ValueBefore(u, close)
  {
    IndexOfPadded(u, k, close);
    if IndexOf(u, close).Some? {
      var e := IndexOf(u, close).value;
      assert (u + Spare(k))[..e] == u[..e];
    }
  }

  lemma SuffixOfPadded(w: string, k: nat, a: nat)
    requires a <= |w|
    ensures (w + Spare(k))[a..] == w[a..] + Spare(k)
  {
  }

  /**
   * Two texts with the same first `open`, at `s`, and the same value behind it
   * have the same value between `open` and `close`.
   */
  lemma ValueBetweenAgree(v: string, w: string, open: string, close: string, s: nat)
    requires IndexOf(v, open) == Some(s) && IndexOf(w, open) == Some(s)
    requires s + |open| <= |v| && s + |open| <= |w|
    requires ValueBefore(v[s + |open|..], close) == ValueBefore(w[s + |open|..], close)
    ensures ValueBetween(v, open, close) == ValueBetween(w, open, close)
  {
  }

  /** Trailing NULs never change the value between two NUL-free patterns. */
  lemma ValueBetweenPadded(w: string, k: nat, open: string, close: string)
    requires open != [] && NoNul(open) && close != [] && NoNul(close)
    ensures ValueBetween(w + Spare(k), open, close) == ValueBetween(w, open, close)
  {
    var v := w + Spare(k);
    IndexOfPadded(w, k, open);
    match IndexOf(w, open)
    case None =>
    case Some(s) =>
      assert OccursAt(w, open, s);
      assert s + |open| <= |w| <= |v|;
      SuffixOfPadded(w, k, s + |open|);
      ValueBeforePadded(w[s + |open|..], k, close);
      ValueBetweenAgree(v, w, open, close, s);
  }

  lemma PatternsHaveNoNul()
    ensures ListItemOpen != [] && NoNul(ListItemOpen) && ListItemClose != [] && NoNul(ListItemClose)
    ensures forall i :: 0 <= i < |FallbackPatterns| ==>
              FallbackPatterns[i] != [] && NoNul(FallbackPatterns[i]) &&
              TerminatorFor(FallbackPatterns[i]) != [] && NoNul(TerminatorFor(FallbackPatterns[i]))
  {
  }

  /** The subject of a window does not change when NULs follow it. */
  lemma SubjectIgnoresSpare(w: string, k: nat)
    ensures SubjectInWindow(w + Spare(k)) == SubjectInWindow(w)
  {
    var padded := Candidates(w + Spare(k));
    var plain := Candidates(w);
    PatternsHaveNoNul();
    forall i | 0 <= i < |plain| ensures padded[i] == plain[i] {
      if i == 0 {
        ValueBetweenPadded(w, k, ListItemOpen, ListItemClose);
      } else {
        var p := FallbackPatterns[i - 1];
        ValueBetweenPadded(w, k, p, TerminatorFor(p));
      }
    }
    assert padded == plain;
  }

  /** Without a start marker the clamped scanner finds nothing. */
  lemma NoWindow(data: string)
    requires WindowStart(data).None?
    ensures ExtractXmpSubject(data) == ""
  {
  }

  /** Without an end marker behind the start the clamped scanner finds nothing. */
  lemma NoWindowEnd(data: string, start: nat)
    requires WindowStart(data) == Some(start) && WindowLength(data, start).None?
    ensures ExtractXmpSubject(data) == ""
  {
    assert Window(data).None?;
  }

  /** Where both markers are found, the clamped scanner takes the clamped window. */
  lemma ClampedWindow(data: string, start: nat, length: nat)
    requires WindowStart(data) == Some(start) && WindowLength(data, start) == Some(length)
    ensures start <= |data|
    ensures ExtractXmpSubject(data) == SubjectInWindow(data[start..Min(start + length, |data|)])
  {
    assert Window(data) == Some((start, Min(start + length, |data|)));
  }

  /** Where the slice stays within the capacity, the spare bytes it takes in change nothing. */
  lemma PaddedSubjectIsClamped(data: string, capacity: nat, start: nat, length: nat)
    requires |data| <= capacity && start + length <= capacity
    requires WindowStart(data) == Some(start) && WindowLength(data, start) == Some(length)
    ensures start <= |data|
    ensures SubjectInWindow((data + Spare(capacity - |data|))[start..start + length]) == ExtractXmpSubject(data)
  {
    calc {
      SubjectInWindow((data + Spare(capacity - |data|))[start..start + length]);
    == { SubjectOfPaddedWindow(data, capacity, start, length); }
      SubjectInWindow(data[start..Min(start + length, |data|)]);
    == { ClampedWindow(data, start, length); }
      ExtractXmpSubject(data);
    }
  }

  /** The subject of a window reaching into the spare bytes is that of the clamped window. */
  lemma SubjectOfPaddedWindow(data: string, capacity: nat, start: nat, length: nat)
    requires start <= |data| && start + length <= capacity && |data| <= capacity
    ensures SubjectInWindow((data + Spare(capacity - |data|))[start..start + length]) ==
            SubjectInWindow(data[start..Min(start + length, |data|)])
  {
    PaddedWindow(data, capacity, start, length);
    SubjectIgnoresSpare(data[start..Min(start + length, |data|)], start + length - Min(start + length, |data|));
  }

  /** A window reaching into the spare bytes is the clamped window followed by NULs. */
  lemma PaddedWindow(data: string, capacity: nat, start: nat, length: nat)
    requires start <= |data| && start + length <= capacity && |data| <= capacity
    ensures (data + Spare(capacity - |data|))[start..start + length] ==
            data[start..Min(start + length, |data|)] + Spare(start + length - Min(start + length, |data|))
  {
    var padded := data + Spare(capacity - |data|);
    var stop := start + length;
    var end := Min(stop, |data|);
    assert |padded[start..stop]| == |data[start..end] + Spare(stop - end)|;
    forall i | 0 <= i < stop - start
      ensures padded[start..stop][i] == (data[start..end] + Spare(stop - end))[i]
    {
      if start + i < |data| {
        assert padded[start + i] == data[start + i];
      } else {
        assert padded[start + i] == '\0';
      }
    }
  }

  /** `n` spaces. */
  function Blank(n: nat): (r: string)
    ensures |r| == n && forall i :: 0 <= i < n ==> r[i] == ' '
  {
    seq(n, _ => ' ')
  }

  /**
   * Data made of `n` blanks and the packet trailer `<?xpacket end=`, with
   * fewer than 100 bytes of capacity behind the trailer's start, makes the
   * code as written panic. `io.ReadAll` reads a file of up to 511 bytes into
   * a buffer of capacity 512, so `n = 480, capacity = 512` is a 494-byte file.
   */
  lemma TrailerNearCapacityPanics(n: nat, capacity: nat)
    requires n + |PacketEnd| <= capacity < n + PacketEndSlack
    ensures ExtractXmpSubjectAsWritten(Blank(n) + PacketEnd, capacity).Panicked?
  {
    BlankThenTrailerStartsWindow(n);
    var data := Blank(n) + PacketEnd;
    assert data[n..] == PacketEnd[0..];
    TrailerEndsWindow();
  }

  lemma LeadingCharsAt(s: string, pat: string, k: nat)
    ensures OccursAt(s, pat, k) && |pat| >= 2 ==> s[k] == pat[0] && s[k + 1] == pat[1]
  {
    if OccursAt(s, pat, k) && |pat| >= 2 {
      assert s[k..k + |pat|][0] == s[k];
      assert s[k..k + |pat|][1] == s[k + 1];
    }
  }

  lemma NoMetaStartAt(n: nat, k: nat)
    ensures !OccursAt(Blank(n) + PacketEnd, MetaStart, k)
  {
    var data := Blank(n) + PacketEnd;
    LeadingCharsAt(data, MetaStart, k);
    if k < n {
      assert data[k] == ' ';
    } else if k + 1 < |data| {
      assert data[k] == PacketEnd[k - n] && data[k + 1] == PacketEnd[k + 1 - n];
    }
  }

  lemma BlankThenTrailerStartsWindow(n: nat)
    ensures WindowStart(Blank(n) + PacketEnd) == Some(n)
  {
    var data := Blank(n) + PacketEnd;
    forall k: nat ensures !OccursAt(data, MetaStart, k) {
      NoMetaStartAt(n, k);
    }
    assert data[n..n + |PacketStart|] == PacketStart;
    assert OccursAt(data, PacketStart, n);
    forall k: nat | k < n ensures !OccursAt(data, PacketStart, k) {
      LeadingCharsAt(data, PacketStart, k);
    }
  }

  lemma TrailerEndsWindow()
    ensures WindowLength(PacketEnd, 0) == Some(PacketEndSlack)
  {
    var data := PacketEnd;
    assert data[0..] == data;
    forall k: nat ensures !OccursAt(data, MetaEnd, k) {
      LeadingCharsAt(data, MetaEnd, k);
    }
    assert OccursAt(data, PacketEnd, 0);
  }
}
