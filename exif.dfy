/**
 * The metadata merge of `getExif`: which tag of which IFD supplies each field,
 * the subject precedence, the UserComment header skip, the XMP override and
 * the has-metadata flag. The EXIF library itself is replaced by its results:
 * for each IFD, the tags it found, each with its formatted first value and its
 * raw value.
 */
module ExifMerge {
  import opened Wrappers
  import opened Text
  import opened Types
  import Xmp
  import XmpCapacity

  /** What `entry.Value()` yields for a tag. */
  datatype RawValue = ValueError | StringValue(s: string) | BytesValue(bytes: string) | OtherValue

  /** The first entry of a found tag: `FormatFirst()` (None when it errs) and `Value()`. */
  datatype TagEntry = TagEntry(formatted: Option<string>, raw: RawValue)

  /** The tags one IFD holds, by name (`FindTagWithName` succeeds exactly for these). */
  type Ifd = map<string, TagEntry>

  /** What the EXIF library makes of a file's bytes. */
  datatype ExifBlock =
    | NoExifBlock                               // SearchAndExtractExif failed
    | CollectFailed                             // tag index, IFD mapping or Collect failed
    | Collected(root: Ifd, exifIfd: Option<Ifd>) // the root IFD and, when present, IFD/Exif

  /** What reading a file yields. */
  datatype FileContent = Unreadable | Readable(data: string, exif: ExifBlock)

  /** Length of the character-code header in front of a UserComment's text (Exif 2.3, section 4.6.5). */
  const UserCommentHeader := 8
  const AsciiPlaceholder := "[ASCII]"
  const UserCommentSentinel := "UserComment<"
  const CameraBoilerplate := "DIGITAL CAMERA"

  /**
   * A tag's entry, looked up in the root IFD first and in the Exif IFD only when
   * the root IFD does not hold the tag at all.
   */
  function Lookup(root: Ifd, exifIfd: Option<Ifd>, name: string): (r: Option<TagEntry>)
    ensures name in root ==> r == Some(root[name])
    ensures name !in root && exifIfd.Some? && name in exifIfd.value ==> r == Some(exifIfd.value[name])
    ensures r.None? <==> name !in root && (exifIfd.None? || name !in exifIfd.value)
  {
    if name in root then Some(root[name])
    else if exifIfd.Some? && name in exifIfd.value then Some(exifIfd.value[name])
    else None
  }

  /** `getFirst`: the trimmed formatted value, "" when the tag is absent or does not format. */
  function FirstValue(entry: Option<TagEntry>): (r: string)
    ensures entry.None? || entry.value.formatted.None? ==> r == ""
    ensures entry.Some? && entry.value.formatted.Some? ==> r == TrimSpace(entry.value.formatted.value)
  {
    match entry
    case None => ""
    case Some(e) => if e.formatted.Some? then TrimSpace(e.formatted.value) else ""
  }

  /** The text of a UserComment byte value: the bytes behind the header, NULs trimmed. */
  function UserCommentText(bytes: string): (r: string)
    ensures |bytes| <= UserCommentHeader ==> r == ""
    ensures |bytes| > UserCommentHeader ==> r == TrimNul(bytes[UserCommentHeader..])
  {
    if |bytes| > UserCommentHeader then TrimNul(bytes[UserCommentHeader..]) else ""
  }

  /** The raw value carries text: a non-empty string, or bytes with text behind the header. */
  predicate RawTextPresent(raw: RawValue) {
    (raw.StringValue? && raw.s != "") || (raw.BytesValue? && UserCommentText(raw.bytes) != "")
  }

  /**
   * `getUserComment`: a non-empty string value, else the text behind the
   * 8-byte header of a byte value, else the formatted value unless it is the
   * "[ASCII]" placeholder; each trimmed of whitespace.
   */
  function UserCommentValue(entry: TagEntry): (r: string)
    ensures entry.raw.StringValue? && entry.raw.s != "" ==> r == TrimSpace(entry.raw.s)
    ensures entry.raw.BytesValue? && UserCommentText(entry.raw.bytes) != "" ==>
              r == TrimSpace(UserCommentText(entry.raw.bytes))
    ensures !RawTextPresent(entry.raw) && entry.formatted == Some(AsciiPlaceholder) ==> r == ""
    ensures !RawTextPresent(entry.raw) && entry.formatted.Some? && entry.formatted.value != AsciiPlaceholder ==>
              r == TrimSpace(entry.formatted.value)
    ensures !RawTextPresent(entry.raw) && entry.formatted.None? ==> r == ""
  {
    var fromRaw :=
      match entry.raw
      case StringValue(s) => if s != "" then Some(TrimSpace(s)) else None
      case BytesValue(b) => var text := UserCommentText(b); if text != "" then Some(TrimSpace(text)) else None
      case _ => None;
    if fromRaw.Some? then fromRaw.value
    else if entry.formatted.Some? && entry.formatted.value != AsciiPlaceholder && entry.formatted.value != "" then
      TrimSpace(entry.formatted.value)
    else ""
  }

  /**
   * Round trip of the UserComment layout: a header of 8 bytes followed by a
   * trimmed text (optionally NUL-padded) decodes to that text.
   */
  lemma {:induction false} UserCommentRoundTrip(header: string, text: string, padding: nat, formatted: Option<string>)
    requires |header| == UserCommentHeader
    requires text != "" && !IsNul(text[0]) && !IsNul(text[|text| - 1])
    requires !IsSpace(text[0]) && !IsSpace(text[|text| - 1])
    ensures UserCommentValue(TagEntry(formatted, BytesValue(header + text + seq(padding, _ => '\0')))) == text
  {
    var b := header + text + seq(padding, _ => '\0');
    assert b[UserCommentHeader..] == text + seq(padding, _ => '\0');
    TrimNulPadded(text, padding);
    TrimFuncOfTrimmed(text, IsSpace);
  }

  lemma TrimNulPadded(text: string, padding: nat)
    requires text != "" && !IsNul(text[0]) && !IsNul(text[|text| - 1])
    ensures TrimNul(text + seq(padding, _ => '\0')) == text
  {
    var tail := text + seq(padding, _ => '\0');
    assert tail[0] == text[0];
    assert LeadingCount(tail, IsNul) == 0;
    TrailingNuls(text, padding);
    assert tail[..|tail| - padding] == text;
  }

  lemma {:induction false} TrailingNuls(text: string, padding: nat)
    requires text != [] && !IsNul(text[|text| - 1])
    ensures TrailingCount(text + seq(padding, _ => '\0'), IsNul) == padding
  {
    var s := text + seq(padding, _ => '\0');
    if padding == 0 {
      assert s == text;
    } else {
      assert s[..|s| - 1] == text + seq(padding - 1, _ => '\0');
      TrailingNuls(text, padding - 1);
    }
  }

  /** ImageDescription counts as a subject unless it is empty or camera boilerplate. */
  function DescriptionCandidate(root: Ifd): (r: string)
    ensures r != "" ==> "ImageDescription" in root && !Contains(ToUpper(r), CameraBoilerplate)
    ensures r != "" ==> r == FirstValue(Some(root["ImageDescription"]))
    ensures "ImageDescription" in root && FirstValue(Some(root["ImageDescription"])) != "" &&
            !Contains(ToUpper(FirstValue(Some(root["ImageDescription"]))), CameraBoilerplate) ==>
              r == FirstValue(Some(root["ImageDescription"]))
  {
    if "ImageDescription" in root then
      var d := FirstValue(Some(root["ImageDescription"]));
      if d != "" && !Contains(ToUpper(d), CameraBoilerplate) then d else ""
    else ""
  }

  /** UserComment is consulted in the Exif IFD only. */
  function UserCommentCandidate(exifIfd: Option<Ifd>): (r: string)
    ensures exifIfd.None? || "UserComment" !in exifIfd.value ==> r == ""
    ensures exifIfd.Some? && "UserComment" in exifIfd.value ==> r == UserCommentValue(exifIfd.value["UserComment"])
  {
    if exifIfd.Some? && "UserComment" in exifIfd.value then UserCommentValue(exifIfd.value["UserComment"]) else ""
  }

  /** The subject sources in the order they are consulted. */
  function SubjectSources(root: Ifd, exifIfd: Option<Ifd>): seq<string> {
    [ FirstValue(Lookup(root, exifIfd, "XPSubject")),
      FirstValue(Lookup(root, exifIfd, "Subject")),
      UserCommentCandidate(exifIfd),
      DescriptionCandidate(root) ]
  }

  /**
   * The fields read from the two IFDs, before XMP is considered. The subject is
   * built as the code does, by a chain of "if still empty" assignments; its
   * contract says it is the first non-empty source, in the order XPSubject,
   * Subject, UserComment, ImageDescription.
   */
  function MergeTags(root: Ifd, exifIfd: Option<Ifd>): (r: ExifData)
    ensures r.dateTaken == FirstValue(Lookup(root, exifIfd, "DateTimeOriginal"))
    ensures r.cameraMake == FirstValue(Lookup(root, exifIfd, "Make"))
    ensures r.cameraModel == FirstValue(Lookup(root, exifIfd, "Model"))
    ensures r.fStop == ""
    ensures r.subject == FirstNonEmpty(SubjectSources(root, exifIfd))
    ensures r.hasExif <==> r.dateTaken != "" || r.cameraMake != "" || r.cameraModel != "" || r.subject != ""
  {
    var dateTaken := FirstValue(Lookup(root, exifIfd, "DateTimeOriginal"));
    var cameraMake := FirstValue(Lookup(root, exifIfd, "Make"));
    var cameraModel := FirstValue(Lookup(root, exifIfd, "Model"));
    var s1 := FirstValue(Lookup(root, exifIfd, "XPSubject"));
    var s2 := if s1 == "" then FirstValue(Lookup(root, exifIfd, "Subject")) else s1;
    var s3 := if s2 == "" && exifIfd.Some? && "UserComment" in exifIfd.value
              then UserCommentValue(exifIfd.value["UserComment"]) else s2;
    var s4 := if s3 == "" && "ImageDescription" in root then
                var d := FirstValue(Some(root["ImageDescription"]));
                if d != "" && !Contains(ToUpper(d), CameraBoilerplate) then d else s3
              else s3;
    SubjectChain(root, exifIfd);
    ExifData(dateTaken, cameraMake, cameraModel, "", s4,
             dateTaken != "" || cameraMake != "" || cameraModel != "" || s4 != "")
  }

  /** The chain of "if still empty" assignments computes the first non-empty source. */
  lemma SubjectChain(root: Ifd, exifIfd: Option<Ifd>)
    ensures
      var s1 := FirstValue(Lookup(root, exifIfd, "XPSubject"));
      var s2 := if s1 == "" then FirstValue(Lookup(root, exifIfd, "Subject")) else s1;
      var s3 := if s2 == "" && exifIfd.Some? && "UserComment" in exifIfd.value
                then UserCommentValue(exifIfd.value["UserComment"]) else s2;
      var s4 := if s3 == "" && "ImageDescription" in root then
                  var d := FirstValue(Some(root["ImageDescription"]));
                  if d != "" && !Contains(ToUpper(d), CameraBoilerplate) then d else s3
                else s3;
      s4 == FirstNonEmpty(SubjectSources(root, exifIfd))
  {
    var c := SubjectSources(root, exifIfd);
    assert c[1..][1..][1..][1..] == [];
    assert FirstNonEmpty(c[1..][1..][1..]) == c[3];
    assert FirstNonEmpty(c[1..][1..]) == if c[2] != "" then c[2] else c[3];
    assert FirstNonEmpty(c[1..]) == if c[1] != "" then c[1] else FirstNonEmpty(c[1..][1..]);
  }

  /** A subject the XMP block replaces: empty, the placeholder, or a raw UserComment dump. */
  predicate XmpOverrides(subject: string) {
    subject == "" || subject == AsciiPlaceholder || Contains(subject, UserCommentSentinel)
  }

  /**
   * `getExif`: an unreadable file, or one the EXIF library fails on, has no
   * metadata (except that a file without any EXIF block still reports its XMP
   * subject); otherwise the IFD fields, with the XMP subject taking over an
   * empty or placeholder subject and then forcing the has-metadata flag.
   */
  function GetExif(file: FileContent): (r: ExifData)
    ensures r.fStop == ""
    ensures file.Unreadable? ==> r == NoExif
    ensures file.Readable? && file.exif.CollectFailed? ==> r == NoExif
    ensures file.Readable? && file.exif.NoExifBlock? ==>
              r == (var x := Xmp.ExtractXmpSubject(file.data); if x != "" then NoExif.(subject := x, hasExif := true) else NoExif)
    ensures file.Readable? && file.exif.Collected? ==>
              var tags := MergeTags(file.exif.root, file.exif.exifIfd);
              var x := Xmp.ExtractXmpSubject(file.data);
              && r.dateTaken == tags.dateTaken && r.cameraMake == tags.cameraMake && r.cameraModel == tags.cameraModel
              && (if x != "" && XmpOverrides(tags.subject) then r.subject == x && r.hasExif
                  else r.subject == tags.subject && r.hasExif == tags.hasExif)
    ensures r.hasExif <==> r.dateTaken != "" || r.cameraMake != "" || r.cameraModel != "" || r.subject != ""
  {
    match file
    case Unreadable => NoExif
    case Readable(data, block) =>
      var xmpSubject := Xmp.ExtractXmpSubject(data);
      match block
      case NoExifBlock => if xmpSubject != "" then NoExif.(subject := xmpSubject, hasExif := true) else NoExif
      case CollectFailed => NoExif
      case Collected(root, exifIfd) =>
        var tags := MergeTags(root, exifIfd);
        if xmpSubject != "" && XmpOverrides(tags.subject) then tags.(subject := xmpSubject, hasExif := true)
        else tags
  }

  /**
   * `getExif` as written, on a file whose bytes sit in a buffer of `capacity`
   * bytes: the XMP scan runs first on every readable file, so `getExif` panics
   * exactly where `extractXMPSubject` does, and otherwise yields `GetExif`.
   */
  function GetExifAsWritten(file: FileContent, capacity: nat): (r: XmpCapacity.Outcome<ExifData>)
    requires file.Readable? ==> |file.data| <= capacity
    ensures r.Panicked? <==> file.Readable? && XmpCapacity.ExtractXmpSubjectAsWritten(file.data, capacity).Panicked?
    ensures r.Returned? ==> r.value == GetExif(file)
  {
    match file
    case Unreadable => XmpCapacity.Returned(NoExif)
    case Readable(data, block) =>
      match XmpCapacity.ExtractXmpSubjectAsWritten(data, capacity)
      case Panicked(message) => XmpCapacity.Panicked(message)
      case Returned(xmpSubject) =>
        match block
        case NoExifBlock =>
          XmpCapacity.Returned(if xmpSubject != "" then NoExif.(subject := xmpSubject, hasExif := true) else NoExif)
        case CollectFailed => XmpCapacity.Returned(NoExif)
        case Collected(root, exifIfd) =>
          var tags := MergeTags(root, exifIfd);
          XmpCapacity.Returned(if xmpSubject != "" && XmpOverrides(tags.subject) then tags.(subject := xmpSubject, hasExif := true)
                               else tags)
  }

  /**
   * A file of blanks ending in a packet trailer, read into a buffer with less
   * than the trailer slack behind it, makes `getExif` panic, although the
   * clamped scan reports no metadata for it.
   */
  lemma TrailerNearCapacityPanicsInGetExif(n: nat, capacity: nat)
    requires n + |Xmp.PacketEnd| <= capacity < n + Xmp.PacketEndSlack
    ensures GetExifAsWritten(Readable(XmpCapacity.Blank(n) + Xmp.PacketEnd, NoExifBlock), capacity).Panicked?
  {
    XmpCapacity.TrailerNearCapacityPanics(n, capacity);
  }

  /** Root IFD wins: a tag the root IFD holds is never read from the Exif IFD, even when it formats to "". */
  lemma RootIfdFirst(root: Ifd, exifIfd: Ifd, name: string)
    requires name in root && name in exifIfd
    ensures FirstValue(Lookup(root, Some(exifIfd), name)) == FirstValue(Some(root[name]))
  {
  }

  /** An XPSubject value wins over every later source. */
  lemma XpSubjectFirst(root: Ifd, exifIfd: Option<Ifd>)
    requires FirstValue(Lookup(root, exifIfd, "XPSubject")) != ""
    ensures MergeTags(root, exifIfd).subject == FirstValue(Lookup(root, exifIfd, "XPSubject"))
  {
  }

  /** Camera boilerplate in ImageDescription never becomes the subject. */
  lemma BoilerplateDescriptionIgnored(root: Ifd, exifIfd: Option<Ifd>)
    requires FirstValue(Lookup(root, exifIfd, "XPSubject")) == ""
    requires FirstValue(Lookup(root, exifIfd, "Subject")) == ""
    requires UserCommentCandidate(exifIfd) == ""
    requires "ImageDescription" in root
    requires Contains(ToUpper(FirstValue(Some(root["ImageDescription"]))), CameraBoilerplate)
    ensures MergeTags(root, exifIfd).subject == ""
  {
  }
}
