/**
 * The request logic of the server without its HTTP and JSON plumbing: the
 * group query (`groupHandler`), the deletion service (`deleteHandler`) and
 * the cache of raw-format conversions (`convertCR2ToJPG`). The process-wide
 * state the Go code keeps in package variables, the file system it consults
 * and the conversion cache, are the fields of a `Server`.
 */
module Server {
  import opened Wrappers
  import opened Text
  import opened Types
  import Paths
  import IndexParam
  import ExifMerge
  import Scoring
  import Similarity
  import Ranking

  /** The successful answer of the group endpoint. */
  datatype GroupView = GroupView(similarity: real, images: seq<FrontendImage>)

  /** The two ways a group query fails; both are answered with status 404. */
  datatype QueryError = GroupNotFound | NoImagesInGroup

  function QueryErrorMessage(e: QueryError): string {
    match e
    case GroupNotFound => "Group not found"
    case NoImagesInGroup => "No images found in group"
  }

  /** The answer of the delete endpoint: a plain HTTP error, or a JSON `success`/`error` object. */
  datatype DeleteReply = HttpError(status: int, message: string) | JsonReply(success: bool, error: string)

  /** What ImageMagick does when asked to convert a raw file. */
  datatype Converter = NoImageMagick | ConvertFailed(reason: string) | Converted

  const MethodNotAllowed := HttpError(405, "Method not allowed")
  const InvalidJson := HttpError(400, "Invalid JSON")
  const PathRequired := HttpError(400, "Path is required")
  const OutsideRoot := JsonReply(false, "File is outside allowed directory")
  const NoSuchFile := JsonReply(false, "File does not exist")
  const NoImageMagickMessage := "ImageMagick not found: neither 'magick' nor 'convert' command available"
  const ConvertFailedPrefix := "failed to convert CR2 to JPG: "

  /** One surviving group member as the query first builds it: display path, metadata, score 0. */
  function Prepared(root: string, contents: string -> ExifMerge.FileContent, img: Image): FrontendImage {
    FrontendImage(
      ImageWithExif(img.(path := Paths.RelativeImagePath(root, img.path)), ExifMerge.GetExif(contents(img.path)), 0),
      img.path)
  }

  /**
   * The positions of the members of `group` whose file exists, in increasing
   * order: each position names an existing file, and every member whose file
   * exists has its position listed.
   */
  function SurvivorIndices(files: set<string>, group: seq<Image>): (ix: seq<nat>)
    ensures |ix| <= |group|
    ensures forall k :: 0 <= k < |ix| ==> ix[k] < |group| && group[ix[k]].path in files
    ensures forall k, l :: 0 <= k < l < |ix| ==> ix[k] < ix[l]
    ensures forall m :: 0 <= m < |group| && group[m].path in files ==> m in ix
  {
    if group == [] then []
    else
      var before := SurvivorIndices(files, group[..|group| - 1]);
      assert forall m :: 0 <= m < |group| - 1 ==> group[..|group| - 1][m] == group[m];
      if group[|group| - 1].path in files then before + [|group| - 1] else before
  }

  /**
   * The members of `group` whose file exists, in group order, each prepared
   * for display from its own record: the k-th entry is the k-th survivor.
   * No entry refers to a missing file, and there are none exactly when every
   * member's file is missing.
   */
  function Entries(root: string, contents: string -> ExifMerge.FileContent, files: set<string>, group: seq<Image>)
    : (r: seq<FrontendImage>)
    ensures |r| == |SurvivorIndices(files, group)| <= |group|
    ensures forall k :: 0 <= k < |r| ==> r[k] == Prepared(root, contents, group[SurvivorIndices(files, group)[k]])
    ensures forall k :: 0 <= k < |r| ==> r[k].originalPath in files
    ensures r == [] <==> forall m :: 0 <= m < |group| ==> group[m].path !in files
  {
    if group == [] then []
    else
      var last := group[|group| - 1];
      var before := Entries(root, contents, files, group[..|group| - 1]);
      assert forall m :: 0 <= m < |group| - 1 ==> group[..|group| - 1][m] == group[m];
      if last.path in files then before + [Prepared(root, contents, last)] else before
  }

  /** The images handed to the scorer. */
  function Items(entries: seq<FrontendImage>): (r: seq<ImageWithExif>)
    ensures |r| == |entries|
    ensures forall k :: 0 <= k < |entries| ==> r[k] == entries[k].item
  {
    seq(|entries|, k requires 0 <= k < |entries| => entries[k].item)
  }

  /** The entries with their keep-scores, still in group order. */
  function ScoredEntries(entries: seq<FrontendImage>): (r: seq<FrontendImage>)
    requires |entries| > 0
    ensures |r| == |entries|
    ensures forall k :: 0 <= k < |r| ==>
              r[k] == FrontendImage(Scoring.Scored(Items(entries))[k], entries[k].originalPath)
  {
    var scored := Scoring.Scored(Items(entries));
    seq(|entries|, k requires 0 <= k < |entries| => FrontendImage(scored[k], entries[k].originalPath))
  }

  /**
   * Every entry of a group view names an existing file, is displayed by its
   * root-relative path and carries the metadata extracted from its own file.
   */
  lemma ScoredEntriesDescribeExistingFiles(
    root: string, contents: string -> ExifMerge.FileContent, files: set<string>, group: seq<Image>)
    requires |Entries(root, contents, files, group)| > 0
    ensures forall e :: e in ScoredEntries(Entries(root, contents, files, group)) ==>
              && e.originalPath in files
              && e.item.image.path == Paths.RelativeImagePath(root, e.originalPath)
              && e.item.exif == ExifMerge.GetExif(contents(e.originalPath))
  {
    var entries := Entries(root, contents, files, group);
    forall e | e in ScoredEntries(entries)
      ensures e.originalPath in files
      ensures e.item.image.path == Paths.RelativeImagePath(root, e.originalPath)
      ensures e.item.exif == ExifMerge.GetExif(contents(e.originalPath))
    {
      var k :| 0 <= k < |entries| && ScoredEntries(entries)[k] == e;
      assert Items(entries)[k] == entries[k].item;
    }
  }

  /** Every path that starts with the root text passes the deletion guard: it is lexical, not a directory test. */
  lemma GuardIsLexical()
    ensures HasPrefix("/photos-old/a.jpg", "/photos")
    ensures HasPrefix("/photos/../etc/passwd", "/photos")
    ensures !HasPrefix("/etc/passwd", "/photos")
  {
    assert "/etc/passwd"[..7] != "/photos" by {
      assert "/etc/passwd"[1] == 'e';
    }
  }

  class Server {
    /** The `-imagepath` flag; the server refuses to start without one. */
    const imageRoot: string
    /** The duplicate groups, loaded once and read-only afterwards. */
    const groups: seq<seq<Image>>
    /** What reading a file yields, for the metadata extractor. */
    const contents: string -> ExifMerge.FileContent
    /** `time.Parse` of RFC 3339 text, as nanoseconds since the epoch. */
    const parseTime: string -> Option<int>
    /** `generateTempJPGPath`: the temporary-directory file named by the hash of a raw path. */
    const tempJpgPath: string -> string

    /** The files that exist. */
    var files: set<string>
    /** `cr2Cache`: raw path to converted file. */
    var cr2Cache: map<string, string>

    /** The cache only ever maps a raw path to its own temporary file. */
    ghost predicate Valid()
      reads this
    {
      && imageRoot != ""
      && forall p :: p in cr2Cache ==> cr2Cache[p] == tempJpgPath(p)
    }

    constructor(
      imageRoot: string,
      groups: seq<seq<Image>>,
      contents: string -> ExifMerge.FileContent,
      parseTime: string -> Option<int>,
      tempJpgPath: string -> string,
      files: set<string>)
      requires imageRoot != ""
      ensures Valid()
      ensures this.imageRoot == imageRoot && this.groups == groups && this.contents == contents
      ensures this.parseTime == parseTime && this.tempJpgPath == tempJpgPath
      ensures this.files == files && this.cr2Cache == map[]
    {
      this.imageRoot := imageRoot;
      this.groups := groups;
      this.contents := contents;
      this.parseTime := parseTime;
      this.tempJpgPath := tempJpgPath;
      this.files := files;
      this.cr2Cache := map[];
    }

    /**
     * `groupHandler`: the group selected by `idx` (0 when missing or malformed)
     * must exist and keep at least one member whose file exists. The answer
     * holds exactly those members, each with its display path, metadata and
     * keep-score, ordered by score from high to low, together with the
     * similarity score of the scored group. Nothing is changed.
     */
    method QueryGroup(idxParam: string) returns (r: Result<GroupView, QueryError>)
      ensures var idx := IndexParam.ParseIdx(idxParam);
              (idx < 0 || idx >= |groups|) <==> r == Failure(GroupNotFound)
      ensures var idx := IndexParam.ParseIdx(idxParam);
              0 <= idx < |groups| ==>
                (r == Failure(NoImagesInGroup) <==> forall m :: 0 <= m < |groups[idx]| ==> groups[idx][m].path !in files)
      ensures r.Success? ==>
                var idx := IndexParam.ParseIdx(idxParam);
                var entries := Entries(imageRoot, contents, files, groups[idx]);
                && 0 <= idx < |groups| && |entries| > 0
                && Ranking.SortedByScore(r.value.images)
                && multiset(r.value.images) == multiset(ScoredEntries(entries))
                && (forall e :: e in r.value.images ==>
                      && e.originalPath in files
                      && e.item.image.path == Paths.RelativeImagePath(imageRoot, e.originalPath)
                      && e.item.exif == ExifMerge.GetExif(contents(e.originalPath)))
                && r.value.similarity ==
                     Similarity.SimilarityScore(|entries|,
                       Similarity.IdenticalPairs(Similarity.Exifs(Scoring.Scored(Items(entries))), parseTime))
    {
      var idx := 0;
      if idxParam != "" {
        match IndexParam.Atoi(idxParam)
        case Some(n) => idx := n;
        case None =>
      }
      if idx < 0 || idx >= |groups| {
        return Failure(GroupNotFound);
      }
      var withPaths := ExistingMembers(groups[idx]);
      if |withPaths| == 0 {
        return Failure(NoImagesInGroup);
      }
      var images, score := Rank(withPaths);
      ScoredEntriesDescribeExistingFiles(imageRoot, contents, files, groups[idx]);
      assert forall e :: e in images ==> e in multiset(ScoredEntries(withPaths));
      return Success(GroupView(score, images));
    }

    /**
     * The first loop of `groupHandler`: the members whose file exists, each
     * with its display path and metadata; a missing file is skipped, not an error.
     */
    method ExistingMembers(group: seq<Image>) returns (withPaths: seq<FrontendImage>)
      ensures withPaths == Entries(imageRoot, contents, files, group)
    {
      withPaths := [];
      var i := 0;
      while i < |group|
        invariant 0 <= i <= |group|
        invariant withPaths == Entries(imageRoot, contents, files, group[..i])
      {
        assert group[..i + 1][..i] == group[..i];
        var img := group[i];
        if img.path in files {
          var exif := ExifMerge.GetExif(contents(img.path));
          var item := ImageWithExif(img.(path := Paths.RelativeImagePath(imageRoot, img.path)), exif, 0);
          withPaths := withPaths + [FrontendImage(item, img.path)];
        }
        i := i + 1;
      }
      assert group[..|group|] == group;
    }

    /**
     * The rest of `groupHandler`: score the survivors, copy the scores back
     * onto the entries, sort them by score and compute the similarity score of
     * the scored group.
     */
    method Rank(withPaths: seq<FrontendImage>) returns (images: seq<FrontendImage>, score: real)
      requires |withPaths| > 0
      ensures Ranking.SortedByScore(images)
      ensures multiset(images) == multiset(ScoredEntries(withPaths))
      ensures score == Similarity.SimilarityScore(|withPaths|,
                         Similarity.IdenticalPairs(Similarity.Exifs(Scoring.Scored(Items(withPaths))), parseTime))
    {
      var n := |withPaths|;
      var imgs := new ImageWithExif[n](k requires 0 <= k < n => withPaths[k].item);
      assert imgs[..] == Items(withPaths);
      Scoring.ScoreImages(imgs);
      ghost var scored := imgs[..];
      var ranked := new FrontendImage[n](k requires 0 <= k < n => withPaths[k]);
      var i := 0;
      while i < n
        modifies ranked
        invariant 0 <= i <= n
        invariant forall k :: 0 <= k < i ==> ranked[k] == FrontendImage(scored[k], withPaths[k].originalPath)
        invariant forall k :: i <= k < n ==> ranked[k] == withPaths[k]
      {
        assert scored[i] == imgs[i] && scored[i].image == withPaths[i].item.image && scored[i].exif == withPaths[i].item.exif;
        ranked[i] := ranked[i].(item := ranked[i].item.(score := imgs[i].score));
        i := i + 1;
      }
      assert ranked[..] == ScoredEntries(withPaths);
      Ranking.SortByScore(ranked);
      images := ranked[..];
      assert imgs[..] == scored == Scoring.Scored(Items(withPaths));
      score := Similarity.GroupSimilarityScore(imgs[..], parseTime);
    }

    /**
     * `deleteHandler`: the checks run in this order and the first that fails
     * answers: the method must be POST, the body must decode (`request` is the
     * decoded `path`, `None` when decoding fails), the path must be non-empty,
     * start with the image root, name an existing file, and its removal must
     * succeed (`removeError` is the error of the removal, if any). Only then is
     * the file gone, and for a raw file with a cached conversion the cache
     * entry is dropped and the converted file removed on a best-effort basis
     * (`jpgRemoved`). A failed request changes nothing.
     */
    method Delete(httpMethod: string, request: Option<string>, removeError: Option<string>, jpgRemoved: bool)
      returns (reply: DeleteReply)
      requires Valid()
      modifies this
      ensures Valid()
      ensures httpMethod != "POST" ==> reply == MethodNotAllowed
      ensures httpMethod == "POST" && request.None? ==> reply == InvalidJson
      ensures httpMethod == "POST" && request == Some("") ==> reply == PathRequired
      ensures httpMethod == "POST" && request.Some? && request.value != "" ==>
                var path := request.value;
                && (!HasPrefix(path, imageRoot) ==> reply == OutsideRoot)
                && (HasPrefix(path, imageRoot) && path !in old(files) ==> reply == NoSuchFile)
                && (HasPrefix(path, imageRoot) && path in old(files) && removeError.Some? ==>
                      reply == JsonReply(false, removeError.value))
                && (HasPrefix(path, imageRoot) && path in old(files) && removeError.None? ==>
                      reply == JsonReply(true, ""))
      ensures !(reply.JsonReply? && reply.success) ==> files == old(files) && cr2Cache == old(cr2Cache)
      ensures reply.JsonReply? && reply.success ==>
                var path := request.value;
                var cached := Paths.IsCr2File(path) && path in old(cr2Cache);
                && cr2Cache == (if cached then old(cr2Cache) - {path} else old(cr2Cache))
                && files == old(files) - {path} - (if cached && jpgRemoved then {old(cr2Cache)[path]} else {})
      ensures forall p :: p in old(files) && p !in files ==>
                HasPrefix(p, imageRoot) || p in old(cr2Cache).Values
    {
      if httpMethod != "POST" {
        return MethodNotAllowed;
      }
      if request.None? {
        return InvalidJson;
      }
      var path := request.value;
      if path == "" {
        return PathRequired;
      }
      if !HasPrefix(path, imageRoot) {
        return OutsideRoot;
      }
      if path !in files {
        return NoSuchFile;
      }
      if removeError.Some? {
        return JsonReply(false, removeError.value);
      }
      files := files - {path};
      if Paths.IsCr2File(path) {
        if path in cr2Cache {
          var jpgPath := cr2Cache[path];
          if jpgRemoved {
            files := files - {jpgPath};
          }
          cr2Cache := cr2Cache - {path};
        }
      }
      return JsonReply(true, "");
    }

    /**
     * `convertCR2ToJPG`: a cached conversion whose file still exists is
     * reused; a stale entry is dropped. Otherwise the raw file is converted
     * into its temporary file, which is then cached, unless ImageMagick is
     * missing or fails.
     */
    method ConvertCr2ToJpg(cr2Path: string, converter: Converter) returns (r: Result<string, string>)
      requires Valid()
      modifies this
      ensures Valid()
      ensures old(cr2Path in cr2Cache && cr2Cache[cr2Path] in files) ==>
                r == Success(old(cr2Cache[cr2Path])) && files == old(files) && cr2Cache == old(cr2Cache)
      ensures !old(cr2Path in cr2Cache && cr2Cache[cr2Path] in files) ==>
                match converter
                case NoImageMagick =>
                  r == Failure(NoImageMagickMessage) && files == old(files) && cr2Cache == old(cr2Cache) - {cr2Path}
                case ConvertFailed(reason) =>
                  r == Failure(ConvertFailedPrefix + reason) && files == old(files) && cr2Cache == old(cr2Cache) - {cr2Path}
                case Converted =>
                  && r == Success(tempJpgPath(cr2Path))
                  && files == old(files) + {tempJpgPath(cr2Path)}
                  && cr2Cache == old(cr2Cache)[cr2Path := tempJpgPath(cr2Path)]
      ensures r.Success? ==> r.value == tempJpgPath(cr2Path) && r.value in files &&
                             cr2Path in cr2Cache && cr2Cache[cr2Path] == r.value
    {
      if cr2Path in cr2Cache {
        var cached := cr2Cache[cr2Path];
        if cached in files {
          return Success(cached);
        }
        cr2Cache := cr2Cache - {cr2Path};
      }
      var jpgPath := tempJpgPath(cr2Path);
      match converter
      case NoImageMagick =>
        return Failure(NoImageMagickMessage);
      case ConvertFailed(reason) =>
        return Failure(ConvertFailedPrefix + reason);
      case Converted =>
        cr2Cache := cr2Cache[cr2Path := jpgPath];
        files := files + {jpgPath};
        return Success(jpgPath);
    }
  }
}
