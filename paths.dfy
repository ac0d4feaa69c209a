/**
 * Path helpers of the server: the root-relative display path of an image
 * (`getRelativeImagePath`), Go's `filepath.Ext` on slash-separated paths and
 * the raw-format test built on it (`isCR2File`).
 */
module Paths {
  import opened Wrappers
  import opened Text

  const Separator := '/'
  const Cr2Extension := ".cr2"

  /**
   * `getRelativeImagePath`: a path under the image root loses the root and the
   * separator after it; any other path is returned unchanged. A path that only
   * shares a textual prefix with the root (`/photos2/a.jpg` for `/photos`) passes
   * the first test but has no `root + "/"` to trim, so it too is unchanged.
   */
  function RelativeImagePath(root: string, full: string): (r: string)
    ensures HasPrefix(full, root + [Separator]) ==> root + [Separator] + r == full
    ensures !HasPrefix(full, root + [Separator]) ==> r == full
  {
    if HasPrefix(full, root) then TrimPrefix(full, root + [Separator]) else full
  }

  /** A path built as root, separator and `rel` is displayed as `rel`. */
  lemma RelativePathRoundTrip(root: string, rel: string)
    ensures RelativeImagePath(root, root + [Separator] + rel) == rel
  {
    var full := root + [Separator] + rel;
    assert full[..|root + [Separator]|] == root + [Separator];
    assert HasPrefix(full, root);
    assert full[|root + [Separator]|..] == rel;
  }

  /**
   * The scan of `filepath.Ext` over `path[..i]`, from the right: the index of the
   * first '.' met before any separator, or none.
   */
  function DotScan(path: string, i: nat): (r: Option<nat>)
    requires i <= |path|
    ensures r.Some? ==> r.value < i && path[r.value] == '.' &&
                        forall j :: r.value < j < i ==> path[j] != '.' && path[j] != Separator
    ensures r.None? ==> forall j :: 0 <= j < i && path[j] == '.' ==>
                          exists m :: j < m < i && path[m] == Separator
  {
    if i == 0 then None
    else if path[i - 1] == Separator then None
    else if path[i - 1] == '.' then Some(i - 1)
    else DotScan(path, i - 1)
  }

  /**
   * `filepath.Ext`: the suffix from the last '.' of the final path element,
   * or "" when that element has no '.'.
   */
  function Ext(path: string): (r: string)
    ensures r != "" ==> r[0] == '.' && HasSuffix(path, r) &&
                        forall j :: 1 <= j < |r| ==> r[j] != '.' && r[j] != Separator
    ensures r == "" ==> forall j :: 0 <= j < |path| && path[j] == '.' ==>
                          exists m :: j < m < |path| && path[m] == Separator
  {
    match DotScan(path, |path|)
    case None => ""
    case Some(k) =>
      assert forall j :: 1 <= j < |path| - k ==> path[k..][j] == path[k + j];
      path[k..]
  }

  /** `isCR2File`: the extension, lower-cased, is `.cr2`. */
  predicate IsCr2File(path: string) {
    ToLower(Ext(path)) == Cr2Extension
  }

  /** A raw-format source ends in its four-character extension. */
  lemma Cr2EndsInExtension(path: string)
    requires IsCr2File(path)
    ensures |path| >= 4 && ToLower(path[|path| - 4..]) == Cr2Extension
  {
    var e := Ext(path);
    assert |e| == 4;
    assert path[|path| - 4..] == e;
  }

  /** Four last characters that spell `.cr2` in any case make the extension. */
  lemma ExtensionFromLastFourChars(path: string)
    requires |path| >= 4 && ToLower(path[|path| - 4..]) == Cr2Extension
    ensures IsCr2File(path)
  {
    var tail := path[|path| - 4..];
    assert LowerChar(tail[0]) == '.' && LowerChar(tail[1]) == 'c';
    assert LowerChar(tail[2]) == 'r' && LowerChar(tail[3]) == '2';
    assert path[|path| - 4] == '.';
    assert path[|path| - 3] != '.' && path[|path| - 3] != Separator;
    assert path[|path| - 2] != '.' && path[|path| - 2] != Separator;
    assert path[|path| - 1] != '.' && path[|path| - 1] != Separator;
    assert DotScan(path, |path|) == Some(|path| - 4);
  }

  /**
   * A path is a raw-format source exactly when its last four characters are
   * `.cr2` in any mix of letter cases.
   */
  lemma Cr2ByLastFourChars(path: string)
    ensures IsCr2File(path) <==> |path| >= 4 && ToLower(path[|path| - 4..]) == Cr2Extension
  {
    if IsCr2File(path) {
      Cr2EndsInExtension(path);
    }
    if |path| >= 4 && ToLower(path[|path| - 4..]) == Cr2Extension {
      ExtensionFromLastFourChars(path);
    }
  }

  /** An upper-case extension counts. */
  lemma Cr2UpperCase()
    ensures IsCr2File("photo.CR2")
  {
    var p := "photo.CR2";
    var tail := p[|p| - 4..];
    assert tail == ".CR2";
    assert ToLower(tail) == Cr2Extension;
    ExtensionFromLastFourChars(p);
  }

  /** Only the final extension counts: `photo.cr2.jpg` is not a raw source. */
  lemma Cr2OnlyAsFinalExtension()
    ensures !IsCr2File("photo.cr2.jpg")
  {
    var p := "photo.cr2.jpg";
    Cr2ByLastFourChars(p);
    assert p[|p| - 4..][1] == 'j';
  }
}
