/**
 * The XMP subject scanner (`extractXMPSubject`): a plain substring search over
 * the file's bytes, not an XML parser. It locates a metadata window between a
 * start marker and an end marker and takes the first non-empty value found
 * behind a fixed list of opening patterns.
 */
module Xmp {
  import opened Wrappers
  import opened Text

  const MetaStart := "<x:xmpmeta"
  const PacketStart := "<?xpacket"
  const MetaEnd := "</x:xmpmeta>"
  const PacketEnd := "<?xpacket end="
  /** Slack added behind the packet trailer so that the trailer itself is in the window. */
  const PacketEndSlack := 100

  const ListItemOpen := "<rdf:li>"
  const ListItemClose := "</rdf:li>"

  /** The patterns tried after the RDF list item, in this order. */
  const FallbackPatterns: seq<string> :=
    ["<dc:subject>", "dc:subject=\"", "<photoshop:Headline>", "photoshop:Headline=\""]

  /** Where the window starts: the first `<x:xmpmeta`, else the first `<?xpacket`. */
  function WindowStart(data: string): (r: Option<nat>)
    ensures IndexOf(data, MetaStart).Some? ==> r == IndexOf(data, MetaStart)
    ensures IndexOf(data, MetaStart).None? ==> r == IndexOf(data, PacketStart)
    ensures r.Some? ==> r.value <= |data|
  {
    match IndexOf(data, MetaStart)
    case Some(i) => Some(i)
    case None => IndexOf(data, PacketStart)
  }

  /** There is no window start exactly when neither start marker occurs. */
  lemma NoWindowStart(data: string)
    ensures WindowStart(data).None? <==>
              forall k: nat :: !OccursAt(data, MetaStart, k) && !OccursAt(data, PacketStart, k)
  {
  }

  /**
   * The window's length counted from `start`: up to the first `</x:xmpmeta>`,
   * else up to the first `<?xpacket end=` plus the slack (which can reach past
   * the end of `data`), else none.
   */
  function WindowLength(data: string, start: nat): (r: Option<nat>)
    requires start <= |data|
    ensures IndexOf(data[start..], MetaEnd).Some? ==> r == IndexOf(data[start..], MetaEnd)
    ensures IndexOf(data[start..], MetaEnd).None? && IndexOf(data[start..], PacketEnd).Some? ==>
              r == Some(IndexOf(data[start..], PacketEnd).value + PacketEndSlack)
    ensures IndexOf(data[start..], MetaEnd).None? && IndexOf(data[start..], PacketEnd).None? ==> r.None?
  {
    var rest := data[start..];
    match IndexOf(rest, MetaEnd)
    case Some(e) => Some(e)
    case None =>
      match IndexOf(rest, PacketEnd)
      case Some(e) => Some(e + PacketEndSlack)
      case None => None
  }

  /**
   * There is no window end exactly when neither end marker occurs behind the
   * start; a window closed by `</x:xmpmeta>` lies inside the data, marker
   * included.
   */
  lemma WindowLengthProperties(data: string, start: nat)
    requires start <= |data|
    ensures WindowLength(data, start).None? <==>
              forall k: nat :: !OccursAt(data[start..], MetaEnd, k) && !OccursAt(data[start..], PacketEnd, k)
    ensures IndexOf(data[start..], MetaEnd).Some? ==>
              start + WindowLength(data, start).value + |MetaEnd| <= |data|
  {
  }

  /** The terminator of a pattern's value: `</` after a tag, `"` after an attribute. */
  function TerminatorFor(pattern: string): (r: string)
    ensures HasSuffix(pattern, ">") ==> r == "</"
    ensures !HasSuffix(pattern, ">") ==> r == "\""
  {
    if HasSuffix(pattern, ">") then "</" else "\""
  }

  lemma OccursAtCompose(t: string, r: string, a: nat, c: string, k: nat)
    requires OccursAt(t, r, a) && OccursAt(r, c, k)
    ensures OccursAt(t, c, a + k)
  {
    forall i | 0 <= i < |c| ensures t[a + k + i] == c[i] {
      assert c[i] == r[k..k + |c|][i] == r[k + i];
      assert r[k + i] == t[a..a + |r|][k + i] == t[a + k + i];
    }
    assert t[a + k..a + k + |c|] == c;
  }

  lemma SubstringOfSlice(r: string, w: string, a: nat, b: nat)
    requires a <= b <= |w| && IsSubstring(r, w[a..b])
    ensures IsSubstring(r, w)
  {
    var k: nat :| OccursAt(w[a..b], r, k);
    forall i | 0 <= i < |r| ensures w[a + k + i] == r[i] {
      assert r[i] == w[a..b][k..k + |r|][i] == w[a..b][k + i];
    }
    assert w[a + k..a + k + |r|] == r;
    assert OccursAt(w, r, a + k);
  }

  lemma OccursInPrefix(u: string, e: nat, c: string, j: nat)
    requires e <= |u| && OccursAt(u[..e], c, j)
    ensures OccursAt(u, c, j)
  {
    assert u[j..j + |c|] == u[..e][j..j + |c|];
  }

  /** A piece of the text before the first `close` of `u` holds no `close`. */
  lemma NoCloseBeforeFirst(u: string, e: nat, r: string, close: string)
    requires e <= |u| && IsSubstring(r, u[..e]) && close != ""
    requires forall k: nat :: k < e ==> !OccursAt(u, close, k)
    ensures !Contains(r, close)
  {
    if Contains(r, close) {
      var a: nat :| OccursAt(u[..e], r, a);
      var k := IndexOf(r, close).value;
      OccursAtCompose(u[..e], r, a, close, k);
      OccursInPrefix(u, e, close, a + k);
    }
  }

  /** A piece of a suffix of `w` is a piece of `w`. */
  lemma SubstringOfSuffix(r: string, w: string, a: nat)
    requires a <= |w|
    ensures IsSubstring(r, w[a..]) ==> IsSubstring(r, w)
  {
    if IsSubstring(r, w[a..]) {
      assert w[a..|w|] == w[a..];
      SubstringOfSlice(r, w, a, |w|);
    }
  }

  /** The trimmed text before the first `close` of `u` lies in `u` and holds no `close`. */
  lemma ValueProperties(u: string, e: nat, close: string)
    requires e <= |u|
    requires forall k: nat :: k < e ==> !OccursAt(u, close, k)
    ensures TrimSpace(u[..e]) != "" ==> IsSubstring(TrimSpace(u[..e]), u)
    ensures TrimSpace(u[..e]) != "" && close != "" ==> !Contains(TrimSpace(u[..e]), close)
  {
    var r := TrimSpace(u[..e]);
    if r != "" {
      assert u[0..e] == u[..e];
      SubstringOfSlice(r, u, 0, e);
      if close != "" {
        NoCloseBeforeFirst(u, e, r, close);
      }
    }
  }

  /**
   * The trimmed text of `u` up to its first `close`, or "" when `u` holds no
   * `close`.
   */
  function ValueBefore(u: string, close: string): (r: string)
    ensures IndexOf(u, close).None? ==> r == ""
    ensures IndexOf(u, close).Some? ==> r == TrimSpace(u[..IndexOf(u, close).value])
    ensures r != "" ==> IsSubstring(r, u) && !IsSpace(r[0]) && !IsSpace(r[|r| - 1])
    ensures r != "" && close != "" ==> !Contains(r, close)
  {
    match IndexOf(u, close)
    case None => ""
    case Some(e) =>
      ValueProperties(u, e, close);
      TrimSpace(u[..e])
  }

  /**
   * The trimmed text between the first `open` in `w` and the first `close`
   * behind it, or "" when either is missing.
   */
  function ValueBetween(w: string, open: string, close: string): (r: string)
    ensures IndexOf(w, open).None? ==> r == ""
    ensures IndexOf(w, open).Some? ==>
              && IndexOf(w, open).value + |open| <= |w|
              && r == ValueBefore(w[IndexOf(w, open).value + |open|..], close)
    ensures r != "" ==> IsSubstring(r, w) && !IsSpace(r[0]) && !IsSpace(r[|r| - 1])
    ensures r != "" && close != "" ==> !Contains(r, close)
  {
    match IndexOf(w, open)
    case None => ""
    case Some(s) =>
      var r := ValueBefore(w[s + |open|..], close);
      SubstringOfSuffix(r, w, s + |open|);
      r
  }

  /** The candidate values in the order they are tried. */
  function Candidates(w: string): (r: seq<string>)
    ensures |r| == 1 + |FallbackPatterns|
    ensures r[0] == ValueBetween(w, ListItemOpen, ListItemClose)
    ensures forall i :: 0 <= i < |FallbackPatterns| ==>
              r[i + 1] == ValueBetween(w, FallbackPatterns[i], TerminatorFor(FallbackPatterns[i]))
  {
    [ValueBetween(w, ListItemOpen, ListItemClose)] +
    seq(|FallbackPatterns|, i requires 0 <= i < |FallbackPatterns| =>
      ValueBetween(w, FallbackPatterns[i], TerminatorFor(FallbackPatterns[i])))
  }

  /** The subject found in a window: the first non-empty candidate. */
  function SubjectInWindow(w: string): (r: string)
    ensures r == "" <==> forall i :: 0 <= i < |Candidates(w)| ==> Candidates(w)[i] == ""
    ensures r != "" ==> exists i :: 0 <= i < |Candidates(w)| && Candidates(w)[i] == r &&
                                    forall j :: 0 <= j < i ==> Candidates(w)[j] == ""
    ensures r != "" ==> IsSubstring(r, w) && !IsSpace(r[0]) && !IsSpace(r[|r| - 1])
  {
    FirstNonEmpty(Candidates(w))
  }

  function Min(a: nat, b: nat): nat {
    if a <= b then a else b
  }

  /** The window with its end clamped to the end of `data`. */
  function Window(data: string): (r: Option<(nat, nat)>)
    ensures r.Some? ==> r.value.0 <= r.value.1 <= |data|
    ensures r.None? <==> WindowStart(data).None? || WindowLength(data, WindowStart(data).value).None?
    ensures r.Some? ==> r.value == (WindowStart(data).value,
                                    Min(WindowStart(data).value + WindowLength(data, WindowStart(data).value).value, |data|))
  {
    match WindowStart(data)
    case None => None
    case Some(start) =>
      match WindowLength(data, start)
      case None => None
      case Some(length) => Some((start, Min(start + length, |data|)))
  }

  /**
   * `extractXMPSubject` with the slack clamped to the end of the data: "" when
   * no start marker or no end marker occurs, otherwise the subject of the
   * window, which is a whitespace-trimmed piece of the window.
   */
  function ExtractXmpSubject(data: string): (r: string)
    ensures Window(data).None? ==> r == ""
    ensures r != "" ==> Window(data).Some? &&
                        IsSubstring(r, data[Window(data).value.0..Window(data).value.1]) &&
                        !IsSpace(r[0]) && !IsSpace(r[|r| - 1])
    ensures Window(data).Some? ==> r == SubjectInWindow(data[Window(data).value.0..Window(data).value.1])
  {
    match Window(data)
    case None => ""
    case Some((start, end)) => SubjectInWindow(data[start..end])
  }

  /** Data holding neither start marker has no subject. */
  lemma NoMarkerNoSubject(data: string)
    requires forall k: nat :: !OccursAt(data, MetaStart, k) && !OccursAt(data, PacketStart, k)
    ensures ExtractXmpSubject(data) == ""
  {
    NoWindowStart(data);
  }
}
