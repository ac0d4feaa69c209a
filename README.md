# Duplicate-photo review server: a Dafny model of its core

The server (`dupe_delete.go`) serves groups of near-duplicate photos found by an
external tool and lets a user delete the copies they do not want. This project
models the logic of that server:

- the metadata the server reads from each file: an XMP subject scanner, the merge of
  EXIF tags from the root and Exif IFDs, and the UserComment decoding;
- the keep-score of every image of a group, rewritten in place over an array;
- the pairwise "identical metadata" rule and the similarity score of a group;
- the display path of an image and the raw-format (`.cr2`) test;
- the `idx` parameter and the group query: filtering out missing files, scoring,
  ranking by score with an in-place sort, and the similarity score;
- the deletion service, with its checks in order, its effect on the file system and
  on the conversion cache;
- the conversion cache of raw files.

The server's process-wide state is a class `Server.Server`:
- its constant configuration is the image root, the groups, file contents, the
  time parser and the temporary-path function;
- its mutable state is `files`, the set of files that exist, and `cr2Cache`, the
  conversion cache.

Its invariant `Valid` states two things: the image root is not empty (the program
refuses to start otherwise), and the cache maps each raw path only to its own
temporary file.

Modules:

| module | file | models |
|---|---|---|
| `Wrappers` | wrappers.dfy | `Option`, `Result` |
| `Text` | text.dfy | the `strings`/`bytes` helpers used: `Index`, `HasPrefix`, `TrimPrefix`, `TrimSpace`, `Trim`, `ToUpper`, `ToLower` |
| `Types` | types.dfy | `Image`, `ExifData`, `ImageWithExif`, the response entry, 64-bit wrap-around |
| `Xmp` | xmp.dfy | `extractXMPSubject` with the window clamped to the data |
| `XmpCapacity` | xmp_capacity.dfy | `extractXMPSubject` as written, on a buffer with spare capacity |
| `ExifMerge` | exif.dfy | `getExif`: tag lookup, `getFirst`, `getUserComment`, subject precedence, XMP override |
| `Similarity` | similarity.dfy | `exifIdentical`, `groupSimilarityScore` |
| `Scoring` | scoring.dfy | `scoreImages` |
| `Paths` | paths.dfy | `getRelativeImagePath`, `filepath.Ext`, `isCR2File` |
| `IndexParam` | index_param.dfy | `strconv.Atoi` and the `idx` rule of `groupHandler` |
| `Ranking` | ranking.dfy | the descending sort of `groupHandler` |
| `Server` | server.dfy | `groupHandler`, `deleteHandler`, `convertCR2ToJPG` without HTTP |

Points where the behaviour is easy to misread:
- `exifIdentical` compares the FStop field, which `getExif` always leaves "". The model keeps the comparison.
- The group query sorts with `sort.Slice`, which is not stable. The model promises only an order by score and a permutation, not that ties keep their group order.
- The deletion guard is a textual prefix test (`strings.HasPrefix`), not a directory test. The lemma `Server.GuardIsLexical` shows what it lets through: `/photos-old/...` and `/photos/../etc/passwd` both pass for root `/photos`.
- The group similarity score counts pairs with `exifIdentical` exactly as written, saturation and wrap-around included (`Similarity.IdenticalPairs`). The count under the one-hour rule is `Similarity.IntendedPairs`, and the two agree on every group whose capture dates lie within about 292 years of each other (`Similarity.CountAgreesWithinDurationRange`).
- The XMP scanner's window is a Go slice expression bounded by the capacity of the buffer `io.ReadAll` returns, not by the data's length. `XmpCapacity.ExtractXmpSubjectAsWritten` models that; `Xmp.ExtractXmpSubject` is the scanner with the window clamped to the data, and the two agree whenever the code as written does not panic. `ExifMerge.GetExifAsWritten` carries the panic up to `getExif`; the metadata merge and the group query are built on the clamped scanner.

## Model

| member | source | states |
|---|---|---|
| `Types.Wrap64` | dupe_delete.go:415 | the product of two `int`s wraps modulo 2^64 into the int64 range and is unchanged when it fits |
| `Text.IndexOf` | dupe_delete.go:77-87 | `bytes.Index`: the result is an occurrence with no earlier occurrence; none exactly when the pattern occurs nowhere |
| `Text.TrimPrefix` | dupe_delete.go:460 | drops the prefix exactly when the string starts with it, otherwise returns the string unchanged |
| `Text.HasPrefix` | dupe_delete.go:573 | `strings.HasPrefix`: the string begins with the prefix; `Server.GuardIsLexical` and `Paths.RelativeImagePath` state what the guard and the display path make of it |
| `Text.TrimSpace` | dupe_delete.go:103 | the result is the input with its leading and trailing whitespace removed and nothing else: every character dropped at either end is whitespace, the result is a contiguous piece of the input whose first and last characters are not; empty exactly when the input is all whitespace |
| `Text.TrimNul` | dupe_delete.go:272 | the result is the input with its leading and trailing NULs removed and nothing else: every character dropped at either end is a NUL, the result is a contiguous piece of the input whose first and last characters are not; empty exactly when the input is all NULs |
| `Text.ToUpper` | dupe_delete.go:350 | same length, each character upper-cased |
| `Text.ToLower` | dupe_delete.go:146 | same length, each character lower-cased |
| `Text.FirstNonEmpty` | dupe_delete.go:318-354 | the first non-empty candidate, with every earlier candidate empty; "" exactly when all are empty |
| `Xmp.WindowStart` | dupe_delete.go:77-80 | the first `<x:xmpmeta` when there is one, otherwise the first `<?xpacket`, otherwise none; a start lies inside the data |
| `Xmp.NoWindowStart` | dupe_delete.go:77-83 | there is no start exactly when neither start marker occurs anywhere |
| `Xmp.WindowLength` | dupe_delete.go:85-94 | counted from the start: the first `</x:xmpmeta>`; when there is none, the first `<?xpacket end=` plus 100; when neither occurs, none |
| `Xmp.WindowLengthProperties` | dupe_delete.go:85-94 | there is no window end exactly when neither end marker occurs behind the start; a window closed by `</x:xmpmeta>` lies inside the data, marker included |
| `Xmp.TerminatorFor` | dupe_delete.go:123-129 | a tag pattern's value ends at `</`, an attribute pattern's at `"` |
| `Xmp.ValueBefore` | dupe_delete.go:101-103 | the text up to the first terminator, whitespace-trimmed; "" when there is no terminator; a non-empty value is a piece of the searched text with no whitespace at its ends and no terminator inside |
| `Xmp.ValueBetween` | dupe_delete.go:99-107 | "" when the opening pattern is missing; otherwise the value before the first terminator that follows the first opening pattern; a non-empty value is a trimmed piece of the window holding no terminator |
| `Xmp.Candidates` | dupe_delete.go:98-139 | the RDF list item first, then `dc:subject` and `photoshop:Headline` as tag and as attribute, in that order, each with its own terminator |
| `Xmp.SubjectInWindow` | dupe_delete.go:98-141 | the first non-empty candidate, every earlier one empty; "" exactly when all are empty; a trimmed piece of the window |
| `Xmp.Window` | dupe_delete.go:77-96 | from the start marker's position to its start plus the window length, with the end clamped to the end of the data; none exactly when a start or an end marker is missing |
| `Xmp.ExtractXmpSubject` | dupe_delete.go:75-142 | "" without a start or an end marker; otherwise the subject found in the clamped window, a whitespace-trimmed piece of it |
| `Xmp.NoMarkerNoSubject` | dupe_delete.go:77-83 | data holding neither start marker has no subject |
| `XmpCapacity.ExtractXmpSubjectAsWritten` | dupe_delete.go:75-142 | with the spare capacity of the buffer behind the data: it panics exactly when a start and an end marker are found and the window reaches past the capacity; whenever it does not panic it returns what `Xmp.ExtractXmpSubject` returns |
| `XmpCapacity.SubjectIgnoresSpare` | dupe_delete.go:98-141 | NUL bytes taken into the window behind the data change no candidate, so not the subject |
| `XmpCapacity.ValueBetweenPadded` | dupe_delete.go:99-107 | trailing NULs do not change a value found with NUL-free patterns |
| `XmpCapacity.IndexOfPadded` | dupe_delete.go:99 | trailing NULs do not change where a NUL-free pattern first occurs |
| `XmpCapacity.PaddedWindow` | dupe_delete.go:96 | the window taken from the buffer is the clamped window followed by NULs |
| `XmpCapacity.Spare` | dupe_delete.go:213 | the bytes of `io.ReadAll`'s buffer behind the data: as many as asked for, all NULs |
| `XmpCapacity.ClampedWindow` | dupe_delete.go:77-96 | where both markers are found, the clamped scanner's result is the subject of the window clamped to the data |
| `XmpCapacity.TrailerNearCapacityPanics` | dupe_delete.go:85-96 | blanks followed by `<?xpacket end=`, with fewer than 100 bytes of capacity behind the trailer's start, make the code as written panic |
| `ExifMerge.Lookup` | dupe_delete.go:294-300 | a tag is read from the root IFD when the root holds it, from the Exif IFD only otherwise; absent when neither holds it |
| `ExifMerge.FirstValue` | dupe_delete.go:248-255 | `getFirst`: the trimmed formatted value, "" for a missing tag or a formatting error |
| `ExifMerge.UserCommentText` | dupe_delete.go:266-276 | the bytes after the 8-byte character-code header with NULs trimmed; "" for 8 bytes or fewer |
| `ExifMerge.UserCommentValue` | dupe_delete.go:258-285 | a non-empty string value wins, then the text behind the header, then the formatted value unless it is `[ASCII]`, each trimmed; "" when there is no raw text and the value does not format |
| `ExifMerge.UserCommentRoundTrip` | dupe_delete.go:266-276 | an 8-byte header followed by a trimmed text and any NUL padding decodes back to that text |
| `ExifMerge.DescriptionCandidate` | dupe_delete.go:345-354 | ImageDescription counts only when it is in the root IFD and does not contain `DIGITAL CAMERA` in any case, and then it is always taken |
| `ExifMerge.UserCommentCandidate` | dupe_delete.go:338-343 | UserComment is read from the Exif IFD only: "" when that IFD or the tag is missing, otherwise the decoded comment |
| `ExifMerge.MergeTags` | dupe_delete.go:293-356 | date, make and model come from their tags; FStop stays ""; the subject is the first non-empty of XPSubject, Subject, UserComment and ImageDescription; the flag is set iff some field is non-empty |
| `ExifMerge.SubjectChain` | dupe_delete.go:318-354 | the chain of "if still empty" assignments computes the first non-empty source |
| `ExifMerge.GetExif` | dupe_delete.go:207-372 | an unreadable file or a library failure yields no metadata; a file without an EXIF block keeps only its XMP subject; otherwise the merged tags, with the XMP subject replacing an empty, `[ASCII]` or raw UserComment subject; the flag is set iff some field is non-empty; the XMP subject is that of the clamped scanner, so the panic of the code as written is stated by `ExifMerge.GetExifAsWritten` instead |
| `ExifMerge.GetExifAsWritten` | dupe_delete.go:207-221 | on a file read into a buffer of a given capacity: panics exactly when the file is readable and the XMP scan as written panics, and otherwise yields `GetExif` |
| `ExifMerge.TrailerNearCapacityPanicsInGetExif` | dupe_delete.go:213-221 | blanks followed by `<?xpacket end=`, with fewer than 100 bytes of capacity behind the trailer's start, make `getExif` panic on a file without an EXIF block |
| `ExifMerge.XmpOverrides` | dupe_delete.go:359 | the XMP subject replaces a subject that is empty, `[ASCII]` or holds the raw `UserComment<` rendering |
| `ExifMerge.RootIfdFirst` | dupe_delete.go:294-300 | a tag in the root IFD hides the same tag in the Exif IFD |
| `ExifMerge.XpSubjectFirst` | dupe_delete.go:318-326 | a non-empty XPSubject is the subject whatever the later sources hold |
| `ExifMerge.BoilerplateDescriptionIgnored` | dupe_delete.go:345-354 | a `DIGITAL CAMERA` description never becomes the subject |
| `Similarity.SubTimes` | dupe_delete.go:401 | `time.Time.Sub`: the exact difference when it fits in a Duration, otherwise the bound it saturates at |
| `Similarity.AbsDurationAsWritten` | dupe_delete.go:402-404 | the negation gives the absolute value, except that the minimum Duration stays negative |
| `Similarity.ExifIdenticalAsWritten` | dupe_delete.go:390-410 | `exifIdentical` as written: same camera model and FStop, and when both dates parse, the saturated difference, negated when negative, is not more than one hour |
| `Similarity.ExifIdentical` | dupe_delete.go:390-410 | the one-hour rule: same camera model and FStop, and when both dates parse, at most one hour apart |
| `Similarity.AsWrittenAgreesWithinDurationRange` | dupe_delete.go:390-410 | wherever the time difference fits in a Duration, `exifIdentical` as written is the one-hour rule |
| `Similarity.AsWrittenNotSymmetric` | dupe_delete.go:398-407 | as written, a photo from 1700 is "identical" to one from 2000 but not the other way round |
| `Similarity.ExifIdenticalSymmetric` | dupe_delete.go:390-410 | the corrected rule does not depend on argument order |
| `Similarity.ExifIdenticalReflexive` | dupe_delete.go:390-410 | every image's metadata is identical to itself |
| `Similarity.DifferentCameraNeverIdentical` | dupe_delete.go:391-396 | a different camera model or FStop is never identical, whatever the dates |
| `Similarity.OneHourBoundary` | dupe_delete.go:405-407 | exactly one hour apart is still identical; one nanosecond more is not |
| `Similarity.UnparsableDateSkipsTimeCheck` | dupe_delete.go:398-400 | a date that does not parse skips the time check |
| `Similarity.GroupFollowsRuleWithinDurationRange` | dupe_delete.go:379-410 | in a group whose date differences fit a Duration, `exifIdentical` as written decides every pair as the one-hour rule does |
| `Similarity.Exifs` | dupe_delete.go:379 | the metadata of each image of the group, in order |
| `Similarity.MatchesFrom` | dupe_delete.go:378-382 | the inner loop counts at most one match per later image |
| `Similarity.PairsFrom` | dupe_delete.go:377-383 | the pair count of a suffix is at most k(k-1)/2 |
| `Similarity.IdenticalPairs` | dupe_delete.go:374-383 | the pairs `groupSimilarityScore` counts: each pair i < j is compared once with `exifIdentical` as written, so the count lies between 0 and n(n-1)/2 |
| `Similarity.IntendedPairs` | dupe_delete.go:374-383 | the same count under the one-hour rule, also between 0 and n(n-1)/2 |
| `Similarity.CountAgreesWithinDurationRange` | dupe_delete.go:374-410 | when the group's date differences fit a Duration, the count as written equals the count under the rule |
| `Similarity.SimilarityScore` | dupe_delete.go:384-387 | 5.0 for at most one image; for n >= 2 images a positive score of at most 5n, exactly 5n with no identical pair and less with any |
| `Similarity.GroupSimilarityScore` | dupe_delete.go:374-388 | the two nested loops count the pairs i < j that `exifIdentical` as written finds identical, and the score is 5.0 for at most one image, else n / (pairs + 1) * 5.0 |
| `Similarity.SmallGroupScoresFive` | dupe_delete.go:384-386 | a group of at most one image scores 5.0 |
| `Similarity.AllIdenticalMaximum` | dupe_delete.go:374-383 | when `exifIdentical` holds for every pair the count is n(n-1)/2 |
| `Similarity.NoIdenticalPairScoresFiveN` | dupe_delete.go:374-387 | when `exifIdentical` holds for no pair, n >= 2 images score 5n |
| `Similarity.ThreeImagesOnePair` | dupe_delete.go:374-388 | three images of which two agree: one pair, score 7.5 |
| `Similarity.CenturiesApartScoreFive` | dupe_delete.go:374-410 | photos from 1700 and 2000, in that order, count as one identical pair and score 5.0, where the one-hour rule counts none and scores 10.0 |
| `Scoring.MaxAreaBefore` | dupe_delete.go:413-419 | `maxRes` starts at 0 and is never negative |
| `Scoring.MaxAreaBeforeIsLargest` | dupe_delete.go:413-419 | `maxRes` bounds every area seen, and when positive it is one of them |
| `Scoring.MaxArea` | dupe_delete.go:413-419 | the group's `maxRes` is not negative |
| `Scoring.Area` | dupe_delete.go:415 | the pixel area is the product of width and height in Go's 64-bit `int`, wrapping as `Types.Wrap64` states |
| `Scoring.MeaningfulSubject` | dupe_delete.go:433-439 | a subject earns the bonus when it is not empty, holds no `UserComment<`, is not `[ASCII]` and does not contain `DIGITAL CAMERA` in any case |
| `Scoring.OldestScan` | dupe_delete.go:421-422 | the fallback index is always inside the group |
| `Scoring.OldestScanIsFirstMinimum` | dupe_delete.go:446-450 | the scan ends on the first image with the smallest modification time |
| `Scoring.OldestIndex` | dupe_delete.go:446-453 | the fallback index lies inside the group |
| `Scoring.KeepScore` | dupe_delete.go:424-453 | every keep-score lies between 0 and 4 |
| `Scoring.Scored` | dupe_delete.go:412-456 | the images and their metadata stay, the order stays, and every score is replaced by its keep-score |
| `Scoring.LargestArea` | dupe_delete.go:413-419 | the first loop computes the group's `maxRes` |
| `Scoring.MeritPoints` | dupe_delete.go:424-444 | one image's points before the fallback: 1 for metadata, 2 for a meaningful subject, 1 for the group's largest area |
| `Scoring.MeritRescored` | dupe_delete.go:424-444 | the images before position i have their score replaced by their merit points, the rest are unchanged |
| `Scoring.MeritRescoredStep` | dupe_delete.go:424-444 | rescoring image i extends the rescored prefix by one, as one turn of the second loop does |
| `Scoring.ScoreEach` | dupe_delete.go:420-451 | the second loop replaces each image's score by its merit points and changes nothing else, reports whether no image has metadata, and finds the first oldest image |
| `Scoring.ScoreImages` | dupe_delete.go:412-456 | the array afterwards is the scored group |
| `Scoring.MaxAreaIgnoresScores` | dupe_delete.go:413-419 | `maxRes` does not depend on earlier scores |
| `Scoring.OldestScanIgnoresScores` | dupe_delete.go:446-450 | the oldest-image scan does not depend on earlier scores |
| `Scoring.ScoredIgnoresOldScores` | dupe_delete.go:425-430 | earlier scores never influence the new ones |
| `Scoring.ScoringIdempotent` | dupe_delete.go:412-456 | scoring a scored group changes nothing |
| `Scoring.ResolutionPointForLargest` | dupe_delete.go:441-444 | the resolution point goes to exactly the images of largest area, ties included, and to nobody when every area is negative |
| `Scoring.FallbackToFirstOldest` | dupe_delete.go:446-453 | with no metadata anywhere, exactly the first oldest image gets the fallback point; otherwise nobody does |
| `Scoring.OlderOfTwoPlainImagesWins` | dupe_delete.go:412-456 | of two equal-sized images without metadata, the older one scores 2 and the newer 1, in either order |
| `Scoring.DescribedImageOutranksBareOne` | dupe_delete.go:424-453 | an image with metadata and a meaningful subject outscores one with neither |
| `Scoring.LoneImageScore` | dupe_delete.go:412-456 | a lone image gets the resolution point, and the fallback point when it has no metadata |
| `Paths.RelativeImagePath` | dupe_delete.go:458-463 | a path under `root/` loses that prefix; any other path, including one that merely starts with the root text, is unchanged |
| `Paths.RelativePathRoundTrip` | dupe_delete.go:458-463 | `root/rel` is displayed as `rel` |
| `Paths.DotScan` | dupe_delete.go:146 | the scan finds the last '.' after the final separator, or reports that there is none |
| `Paths.Ext` | dupe_delete.go:146 | `filepath.Ext`: the suffix from the last '.' of the final element, with no '.' or separator after it; "" when that element has no '.' |
| `Paths.IsCr2File` | dupe_delete.go:145-147 | `isCR2File`: the extension, lower-cased, is `.cr2` |
| `Paths.Cr2EndsInExtension` | dupe_delete.go:145-147 | a raw file's last four characters spell `.cr2` in some case |
| `Paths.ExtensionFromLastFourChars` | dupe_delete.go:145-147 | a path whose last four characters spell `.cr2` in any case is a raw file, whatever comes before |
| `Paths.Cr2ByLastFourChars` | dupe_delete.go:145-147 | a path is a raw file exactly when its last four characters are `.cr2` in any case |
| `Paths.Cr2UpperCase` | dupe_delete.go:145-147 | `photo.CR2` is a raw file |
| `Paths.Cr2OnlyAsFinalExtension` | dupe_delete.go:145-147 | `photo.cr2.jpg` is not a raw file |
| `IndexParam.DigitChar` | dupe_delete.go:468 | a digit character has the digit's value |
| `IndexParam.Atoi` | dupe_delete.go:468 | only an optional sign followed by at least one decimal digit parses; such a string gives its signed digit value when that lies in the int64 range, and fails otherwise |
| `IndexParam.LeadingZerosAccepted` | dupe_delete.go:468 | `007` gives 7, `-0` gives 0 and `+0012` gives 12 |
| `IndexParam.Decimal` | dupe_delete.go:468 | a non-empty run of decimal digits |
| `IndexParam.DecimalValue` | dupe_delete.go:468 | the decimal spelling of n reads back as n |
| `IndexParam.Itoa` | dupe_delete.go:468 | the printed form is never empty |
| `IndexParam.AtoiItoa` | dupe_delete.go:468 | every int64 parses back from its printed form |
| `IndexParam.ParseIdx` | dupe_delete.go:466-471 | a missing or malformed `idx` selects 0, a well-formed one its value |
| `IndexParam.ParseIdxOfPrinted` | dupe_delete.go:466-471 | a printed index selects that index |
| `IndexParam.MalformedIndexSelectsFirstGroup` | dupe_delete.go:466-471 | `" 7"` selects group 0; `"+7"` selects 7 |
| `IndexParam.OverflowingIndexSelectsFirstGroup` | dupe_delete.go:466-471 | an index beyond int64 selects group 0 |
| `Ranking.SwapDown` | dupe_delete.go:523-526 | two neighbours are exchanged, the rest unchanged, a permutation |
| `Ranking.Sink` | dupe_delete.go:523-526 | one more entry joins the sorted prefix, the rest stays, a permutation |
| `Ranking.SortByScore` | dupe_delete.go:523-526 | the entries end up sorted by score from high to low and are a permutation of the input |
| `Server.SurvivorIndices` | dupe_delete.go:483-488 | the positions of the members whose file exists: increasing, each an existing file, and every such member listed |
| `Server.Entries` | dupe_delete.go:483-503 | the k-th entry is the k-th member whose file exists, prepared from that member's own record with its display path and metadata; there is one entry per such member, in group order; none exactly when every file is missing |
| `Server.Items` | dupe_delete.go:512-515 | the images handed to the scorer, in order |
| `Server.ScoredEntries` | dupe_delete.go:512-521 | each entry keeps its original path and receives the score of its image |
| `Server.ScoredEntriesDescribeExistingFiles` | dupe_delete.go:484-503 | every scored entry names an existing file, is shown by its root-relative path and carries its own file's metadata |
| `Server.GuardIsLexical` | dupe_delete.go:572-581 | the deletion guard is textual: `/photos-old/a.jpg` and `/photos/../etc/passwd` pass for root `/photos`, `/etc/passwd` does not |
| `Server.Server.constructor` | dupe_delete.go:666-673 | the server starts with a non-empty image root and an empty cache |
| `Server.Server.QueryGroup` | dupe_delete.go:465-550 | "Group not found" exactly when `idx` is out of range; "No images found" exactly when every file is missing; otherwise the surviving members are sorted by score and are a permutation of the scored entries, each names an existing file with its display path and metadata, and the similarity score is that of the scored group; nothing changes; metadata comes from `ExifMerge.GetExif`, so a member on which `getExif` panics is not modelled |
| `Server.Server.ExistingMembers` | dupe_delete.go:483-503 | the filter loop builds the entries of the existing members |
| `Server.Server.Rank` | dupe_delete.go:511-528 | the scores are copied back, the entries sorted by score and a permutation of the scored entries, and the similarity score computed |
| `Server.Server.Delete` | dupe_delete.go:552-618 | the checks answer in the source's order; nothing changes unless the deletion succeeds; a success removes the file, and for a cached raw file also drops the cache entry and, when that removal succeeds, the converted file; only paths whose text begins with the image root, or cached conversions, are ever removed; the cache invariant holds |
| `Server.Server.ConvertCr2ToJpg` | dupe_delete.go:155-188 | a cached conversion whose file exists is returned with nothing changed; a stale entry is dropped; without ImageMagick, or when it fails, the matching error is returned and nothing is added; a conversion creates the raw path's temporary file and caches it |

The lemmas `Text.TrimFuncOfTrimmed`, `Similarity.TriangleStep` and `Similarity.FullRowStep` are proof steps for the members above and have no row of their own.

## Left out

- HTTP and JSON plumbing (response writers, headers, encoding) is left out. The decoded request body is a parameter `request: Option<string>`, with `None` for a body that does not decode; a body without a `path` key decodes to "".
- The static handlers, the embedded files, `imageHandler` and `cleanupTempFiles` are left out: they only serve bytes or remove the temporary directory. So are `loadGroups` and the flag parsing: the groups and the image root are constructor arguments.
- The go-exif library is left out. Its results are input data: for each IFD, the found tags with their formatted first value and raw value, or a failure.
- ImageMagick, `exec.LookPath` and the md5 naming of temporary files are left out. The conversion outcome is a parameter, and `generateTempJPGPath` is the constructor argument `tempJpgPath`.
- `time.Parse` with RFC 3339 is the parameter `parseTime`, which gives instants in nanoseconds.
- `os.Stat` errors other than "does not exist" are not modelled. The file system is the set `files`, and a file's bytes are the constructor argument `contents`.
- Logging and concurrent requests are left out: handlers are modelled as running one at a time.
- The `Hash` and `Similarity` fields of an image are left out: the server only passes them through.
- `TrimSpace`, `ToUpper` and `ToLower` cover ASCII only: Unicode whitespace and case mapping are not modelled, and one character stands for one byte.
- Similarity.GroupSimilarityScore is computed over reals: `float64` rounding of the division is not modelled.
- Server.Server.ConvertCr2ToJpg does not model a partial output file left behind by a failed conversion.
- Ranking.SortByScore: does not model the exact order `sort.Slice` gives to equal scores, because that order is unspecified; only the order by score and the permutation are stated.
- Scoring.ScoreImages and Server.Server.QueryGroup are each split into helper methods (`LargestArea`/`ScoreEach`, `ExistingMembers`/`Rank`), one per loop of the source, to keep each proof small; one image's points inside the second scoring loop are the method `Scoring.MeritPoints`.
- ExifMerge.GetExif uses the clamped scanner `Xmp.ExtractXmpSubject`: on a file whose XMP window reaches past its buffer's capacity it yields metadata where `getExif` panics. `ExifMerge.GetExifAsWritten` states the panic and agrees with it otherwise.
- Server.Server.QueryGroup builds its entries with `ExifMerge.GetExif`: for a group holding an existing file on which `ExifMerge.GetExifAsWritten` panics it returns a view, where `groupHandler` panics and sends no reply. The buffer capacities of the files are not modelled on the server.
- XmpCapacity.ExtractXmpSubjectAsWritten takes the buffer's capacity as a parameter: the growth policy by which `io.ReadAll` picks it for files of 512 bytes or more is not modelled. The spare bytes behind the data are NULs, as the fresh memory `io.ReadAll` allocates is.
- Server.Server.Delete: a file's identity is its path string. Path resolution (`..`, symbolic links, repeated separators) is not modelled, so the removal guarantee is textual and not a containment in the image directory: `/photos/../etc/passwd` passes the guard, as `Server.GuardIsLexical` shows.
- Paths.Ext models a Unix build of `filepath.Ext`: only '/' stops the scan, while on Windows `\` would stop it too.
- Server.Server.Delete: the cache entry uses the request's raw path as key. `imageHandler` stores entries under the joined, cleaned path, so a deletion by an uncleaned path can miss the entry; since `imageHandler` is not part of this model, this is a note, not a property.

## Findings

| source | as written | input that shows it | evidently intended | confidence | as-written member | corrected member |
|---|---|---|---|---|---|---|
| dupe_delete.go:88-96 | the window end is the packet-trailer position plus 100 and is sliced without clamping; the slice is bounded by the buffer's capacity, not the data's length | a 494-byte file of 480 blanks followed by `<?xpacket end=`, read by `io.ReadAll` into its 512-byte buffer: the window ends at byte 580, past the capacity, and the slice panics | clamp the window end to the end of the data | not executed | `XmpCapacity.ExtractXmpSubjectAsWritten` (`XmpCapacity.TrailerNearCapacityPanics`) | `Xmp.ExtractXmpSubject` |
| dupe_delete.go:401-405 | `at.Sub(bt)` saturates at the minimum Duration, and `-delta` of the minimum Duration wraps back to itself, so the "more than one hour" test fails | capture dates 1700-01-01T00:00:00Z and 2000-01-01T00:00:00Z: (early, late) counts as identical, (late, early) does not, and the group [early, late] scores 5.0 instead of 10.0 | at most one hour apart, symmetric in its arguments | not executed | `Similarity.ExifIdenticalAsWritten` (`Similarity.AsWrittenNotSymmetric`, `Similarity.CenturiesApartScoreFive`) | `Similarity.ExifIdentical` (`Similarity.ExifIdenticalSymmetric`, `Similarity.IntendedPairs`) |
