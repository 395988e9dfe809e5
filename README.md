# publicdata_ca download core, modelled in Dafny

This project models the deterministic logic around downloading in `publicdata_ca`, a toolkit that fetches Canadian public data. It covers seven parts:

- **Statistics Canada tables.** Product-id normalisation and formatting, the WDS download URL, ZIP extraction, the manifest precedence rule, the provenance sidecars and the control flow of `download_statcan_table`: the skip path, removal of the temporary ZIP, and error wrapping.
- **CMHC landing pages.** Extension detection, URL absolutisation, title fallback, de-duplication by URL, and the order of anchor and data-attribute assets. Also the page-metadata selection.
- **CMHC downloads.** The asset filter, file-name sanitisation, the per-asset loop with isolated failures, the dataset id, and the sidecar merge.
- **`retry_request`.** Bounded attempts, status classification, doubling back-off, and the error raised at the end. Also `download_file`.
- **Provenance sidecars.** The `<name>.meta.json` naming, the record build, the chunked hash loop, and integrity verification.
- **The run manifest.** How it is built and how it is validated.
- **The pinned raw-data root.** `ensure_raw_destination`, `Dataset.destination` and `Dataset.table_number`.

How the model stands in for the environment:

- **Disk.** The filesystem is a value, `Common.Disk`, mapping each path that holds a file to its bytes. Operations take a disk and return the new one. `p.exists()` is `p in disk`, and directories are not modelled.
- **Paths.** Paths are lexical (`Paths.Path`): an absolute flag plus a list of parts. `Path.resolve()` is lexical `..` normalisation (`Paths.Resolve`).
- **Plumbing taken as parameters.** Four pieces of plumbing are parameters, not code:
  - `json.dump`/`json.load` are a `JsonCodec`; `load` answers None where `json.load` raises. Lemmas that need a load to return what was dumped say so with `Faithful(codec)`.
  - Hashing is `Provenance.Hashlib`: the names `hashlib.new` accepts (it raises `ValueError` for any other), the extendable-output ones (whose `hexdigest()` raises `TypeError`), and an uninterpreted hex digest. Every build accepts `hashlib.algorithms_guaranteed`.
  - `zipfile` is an `Unzip` function from bytes to the list of members, or None for a corrupt archive. Where `extract` writes a member is written out: a leading `/`, empty and `.` pieces and every `..` piece are dropped (`StatCan.ExtractTarget`), and the content is that of the last member of the name.
  - The network is a function from the attempt number to what that attempt observes (`Http.Outcome`).
- **Sleeps.** `time.sleep` calls are recorded as a list of delays.
- **Downloads at the provider call sites.** The StatCan and CMHC providers call `download_file` with keyword arguments that the `download_file` in `http.py` does not accept. So at those call sites the download is an abstract operation: `StatCan.Fetch` writes the body or fails, and `Cmhc.Download` saves the body (possibly with a sidecar) or fails with a message. Each call is recorded.
- **Regular expressions.** The regex scans of the landing page are functions of the fetched body (`scan`): the anchor matches `(href, link text)`, the data-attribute hrefs, and the first `<title>`, `<h1>` and description matches. Tag removal (`re.sub(r'<[^>]+>', '', s)`) and `str.strip()` are written out as functions.
- **URLs.** `urlparse` gives a `CmhcLanding.Page`: the page's scheme, network location and an abstract `urljoin`.
- **Timestamps and absolute paths.** `datetime` timestamps and `Path.absolute()` are parameters.

The operations that loop or change files in the source are methods proved against a reference function: `Http.RetryRequest`, `Provenance.CalculateFileHash`, `Manifest.ValidateManifest`, `StatCan.ExtractZip`, `StatCan.WriteStatcanMetadata`, `StatCan.DownloadStatcanTable`, `CmhcLanding.CollectAssets`, `CmhcLanding.ResolveLandingPage`, `CmhcLanding.ExtractMetadataFromPage` and `Cmhc.DownloadCmhcAsset`. The lemmas then state the promised properties for all inputs.

## Model

| member | source | states |
|---|---|---|
| Paths.KeepParts | publicdata_ca/datasets.py:36 | the pieces pathlib keeps: empty and `.` pieces are dropped, so every kept piece is a valid part |
| Paths.Parse | publicdata_ca/datasets.py:36 | a parsed path is absolute exactly when the string starts with `/` |
| Paths.ParseSinglePart | publicdata_ca/providers/statcan.py:67 | a string that is one valid part parses to the relative path of that part |
| Paths.ParseTwoParts | publicdata_ca/providers/statcan.py:227 | `a/b` of two valid parts parses to the relative path `[a, b]` (an archive member inside one directory) |
| Paths.Join | publicdata_ca/datasets.py:38 | `a / b`: an absolute `b` replaces `a`; otherwise the parts are concatenated under `a`'s anchor |
| Paths.ChildOfPart | publicdata_ca/provenance.py:114 | `dir / name` for a one-part name is a direct child of `dir` named `name` |
| Paths.AddPart | publicdata_ca/providers/cmhc.py:120 | adding one part keeps the anchor, appends the part, and has `dir` as parent and the part as name |
| Paths.RelativeTo | publicdata_ca/providers/cmhc.py:130 | `relative_to` succeeds exactly when `base` is a prefix of `p` with the same anchor, and joining `base` with the result gives `p` back |
| Paths.Collapse | publicdata_ca/datasets.py:39 | applying `..` parts never leaves a `..` in the result |
| Paths.CollapseNoDotDot | publicdata_ca/datasets.py:39 | without `..` parts, resolution only appends |
| Paths.Resolve | publicdata_ca/datasets.py:39 | a resolved absolute path stays absolute and has no `..` part |
| Paths.CollapseValid | publicdata_ca/datasets.py:39 | resolution keeps every part a valid part |
| Paths.ResolveNoDotDot | publicdata_ca/datasets.py:39 | a path without `..` resolves to itself, so resolving twice is resolving once |
| Common.Utf8Prefix | publicdata_ca/manifest.py:83-84 | the length of the well-formed UTF-8 sequence at the start of the bytes, at most 4 and 1 for an ASCII byte, or 0 when there is none |
| Common.AsciiIsUtf8 | publicdata_ca/manifest.py:83-84 | ASCII bytes decode as UTF-8 |
| Common.Utf8Examples | publicdata_ca/manifest.py:83-84 | `é` and a four-byte emoji decode; a stray `FF`, an overlong `C0 80` and an encoded surrogate do not |
| Common.LoadUtf8 | publicdata_ca/manifest.py:83-84 | `json.load` on a file opened as UTF-8 raises `UnicodeDecodeError` for bytes that are not UTF-8 and `JSONDecodeError` for text that is not JSON, and otherwise gives the document |
| Common.DumpThenLoad | publicdata_ca/manifest.py:56-84 | what a faithful codec dumps loads back as the same document |
| Strings.NotContainsWithoutHead | publicdata_ca/providers/cmhc.py:110 | a string lacking the pattern's first character does not contain the pattern |
| Strings.TrimLeft | publicdata_ca/providers/statcan.py:169 | `lstrip` keeps a suffix, drops only whitespace, and leaves no leading whitespace |
| Strings.TrimRight | publicdata_ca/providers/statcan.py:169 | `rstrip` keeps a prefix, drops only whitespace, and leaves no trailing whitespace |
| Strings.TrimmedFrom | publicdata_ca/providers/statcan.py:169 | left then right trimming gives a contiguous part of the string with only whitespace outside it |
| Strings.Strip | publicdata_ca/providers/statcan.py:169 | `strip()` is a contiguous part of `s`, everything cut off is whitespace, and the result neither starts nor ends with whitespace |
| Strings.StripNoSpace | publicdata_ca/providers/statcan.py:169 | a string without whitespace at either end is its own `strip()` |
| Strings.StripAllChars | publicdata_ca/providers/cmhc.py:106 | what `strip()` keeps satisfies every property all original characters had |
| Strings.ReplaceAllAbsent | publicdata_ca/providers/cmhc.py:107-110 | replacing an absent pattern changes nothing |
| Strings.ReplaceAll | publicdata_ca/providers/statcan.py:169 | `str.replace`, every non-overlapping occurrence left to right; `ReplaceAllAbsent`, `ReplaceCharAppend` and `RemoveCharChars` state its properties |
| Strings.ReplaceCharAppend | publicdata_ca/providers/statcan.py:169 | replacing one character distributes over concatenation |
| Strings.RemoveCharAfter | publicdata_ca/providers/statcan.py:169 | deleting `c` from `x + c + y`, where `x` has no `c`, keeps `x` and goes on in `y` |
| Strings.RemoveCharChars | publicdata_ca/providers/statcan.py:169 | `s.replace(c, '')` leaves no `c` and keeps the other characters |
| Strings.ReplaceCharChars | publicdata_ca/providers/cmhc.py:107 | replacing one character by another keeps the length and removes every occurrence |
| Strings.FilterChars | publicdata_ca/providers/cmhc.py:106 | a character filter keeps only accepted characters and keeps a fully accepted string whole |
| Strings.FilterCharsAppend | publicdata_ca/providers/statcan.py:169 | a character filter distributes over concatenation |
| Strings.RemoveCharFiltered | publicdata_ca/providers/statcan.py:169 | deleting a character from a filtered string is filtering with that character also excluded |
| Strings.FirstSegment | publicdata_ca/resolvers/cmhc_landing.py:92 | `s.split(c)[0]` is the prefix before the first `c`, or all of `s` |
| Strings.LastSegment | publicdata_ca/providers/cmhc.py:150 | `s.split(c)[-1]` is the suffix after the last `c`, or all of `s` |
| Strings.IndexOf | publicdata_ca/resolvers/cmhc_landing.py:92 | the index of the first `c` holds `c`, with no `c` before it |
| Strings.Split | publicdata_ca/resolvers/cmhc_landing.py:92 | `split` gives a non-empty list of pieces without the separator |
| Strings.SplitJoin | publicdata_ca/resolvers/cmhc_landing.py:92 | joining the pieces of `split(c)` with `c` gives the string back |
| StatCan.NormalizePid | publicdata_ca/providers/statcan.py:169-176 | a normalised id is always exactly eight digits; a rejection names the original id |
| StatCan.CleanId | publicdata_ca/providers/statcan.py:169 | the id with surrounding whitespace stripped and every space and hyphen dropped; `RemovalsClean` ties it to the source's `replace` chain |
| StatCan.RemovalsClean | publicdata_ca/providers/statcan.py:169 | `strip().replace(' ', '').replace('-', '')` keeps exactly the stripped id's characters other than spaces and hyphens |
| StatCan.NormalizePidCleans | publicdata_ca/providers/statcan.py:169-176 | an id is accepted exactly when its cleaned form starts with eight digits, which are then the product id |
| StatCan.NormalizeKeepsLeadingPid | publicdata_ca/providers/statcan.py:169-174 | any id whose stripped form, with spaces and hyphens dropped, starts with eight digits normalises to those eight digits, whatever follows |
| StatCan.NormalizePidIdempotent | publicdata_ca/providers/statcan.py:169-174 | normalising a normalised id returns it unchanged |
| StatCan.NormalizePidRejects | publicdata_ca/providers/statcan.py:169-176 | an id whose cleaned form is shorter than eight characters, or has a non-digit among its first eight, raises `ValueError` naming the original id |
| StatCan.SeparatorFreeUnchanged | publicdata_ca/providers/statcan.py:169 | an id without whitespace or hyphens comes through stripping and both deletions unchanged |
| StatCan.SeparatorFreeKeepsLeadingPid | publicdata_ca/providers/statcan.py:169-174 | a product id followed by anything without whitespace or hyphens normalises to the product id |
| StatCan.SeparatorFreeRejects | publicdata_ca/providers/statcan.py:173-176 | an id without whitespace or hyphens that is too short or has a non-digit among its first eight characters is rejected |
| StatCan.NormalizePidPlainExample | publicdata_ca/providers/statcan.py:169-174 | `18100004` normalises to itself |
| StatCan.NormalizePidTrailingDigitsExample | publicdata_ca/providers/statcan.py:173-174 | `1810000401` normalises to `18100004` |
| StatCan.NormalizePidHyphenatedExample | publicdata_ca/providers/statcan.py:169-174 | `18-10-0004` normalises to `18100004` |
| StatCan.SpacedGroupsJoined | publicdata_ca/providers/statcan.py:169 | dropping single spaces between separator-free groups concatenates the groups |
| StatCan.SpacedPidNormalizes | publicdata_ca/providers/statcan.py:169-174 | a product id's digits in groups separated by single spaces normalise to the product id |
| StatCan.NormalizePidSpacedExample | publicdata_ca/providers/statcan.py:169-174 | `18 10 00 04` normalises to `18100004` |
| StatCan.NormalizePidWordExample | publicdata_ca/providers/statcan.py:173-176 | `invalid` is rejected |
| StatCan.NormalizePidShortExample | publicdata_ca/providers/statcan.py:173-176 | `123` is rejected |
| StatCan.NormalizePidLettersExample | publicdata_ca/providers/statcan.py:173-176 | `abc12345` is rejected |
| StatCan.FormatTableNumber | publicdata_ca/providers/statcan.py:319-331 | `_format_table_number`: `NN-NN-NNNN` for eight characters, anything else unchanged; `FormatTableNumberShape`, `FormatHyphensRemoved` and `NormalizeFormatRoundTrip` state what it promises |
| StatCan.FormatTableNumberShape | publicdata_ca/providers/statcan.py:329-330 | an 8-character pid formats to ten characters with hyphens at positions 2 and 5 and the pid's characters elsewhere |
| StatCan.FormatTableNumberExample | publicdata_ca/providers/statcan.py:329-330 | `18100004` formats to `18-10-0004` |
| StatCan.HyphensBetweenRemoved | publicdata_ca/providers/statcan.py:169 | deleting the two separators between three separator-free strings concatenates them |
| StatCan.FormatHyphensRemoved | publicdata_ca/providers/statcan.py:329-331 | deleting the hyphens of a formatted number gives the pid back |
| StatCan.FormatHasNoSpace | publicdata_ca/providers/statcan.py:329-331 | a formatted number has no surrounding whitespace and no spaces |
| StatCan.NormalizeFormatRoundTrip | publicdata_ca/providers/statcan.py:169-174 | normalising the formatted number of any valid pid gives the pid back |
| StatCan.SliceThree | publicdata_ca/providers/statcan.py:330 | the three slices of the formatter make up the whole pid |
| StatCan.BuildWdsUrl | publicdata_ca/providers/statcan.py:190 | the WDS URL for a pid and a language; `WdsUrlRoundTrip` shows both can be read back out of it |
| StatCan.WdsUrlRoundTrip | publicdata_ca/providers/statcan.py:190 | the WDS URL is the fixed prefix, the language, `/`, the pid, and both can be read back out of it |
| StatCan.FirstSegmentOfPrefix | publicdata_ca/providers/statcan.py:190 | the text before the first `/` of `language + "/" + pid` is the language |
| StatCan.WdsUrlExamples | publicdata_ca/providers/statcan.py:190 | the English and French URLs for `18100004` |
| StatCan.ExtractZip | publicdata_ca/providers/statcan.py:193-232 | a missing archive raises `FileNotFoundError` and a corrupt one `BadZipFile`, both with the disk unchanged; otherwise the file members are extracted in archive order to their sanitised targets with the content of the last member of that name, a member whose name keeps no part raises `IsADirectoryError` after the members before it were written, and otherwise the reported `output_dir / name` paths are returned |
| StatCan.ExtractMembers | publicdata_ca/providers/statcan.py:219-232 | the loop over the members of an opened archive does exactly what `Extracted` says: the writes before the first unextractable member, then `IsADirectoryError` or the reported paths |
| StatCan.SafeParts | publicdata_ca/providers/statcan.py:226 | the pieces of a member name that `zipfile` keeps are valid parts and never `..` |
| StatCan.ExtractTarget | publicdata_ca/providers/statcan.py:226 | where `extract` writes a member: `output_dir` plus the kept pieces of its name; `ExtractTargetInside` and `PlainNameTarget` state where that is |
| StatCan.FirstUnextractable | publicdata_ca/providers/statcan.py:220-226 | the position of the first file member whose name keeps no part: no member before it is one, and the one found is |
| StatCan.MemberData | publicdata_ca/providers/statcan.py:226 | the content `extract(name)` writes, that of the last member with the name; `MemberDataDefault` and `MemberDataLast` state what it picks |
| StatCan.WriteEntries | publicdata_ca/providers/statcan.py:220-228 | the disk after extracting the file members in order; `WriteEntriesFrame`, `WriteEntriesInside` and `ExtractedContent` state what it writes |
| StatCan.Targets | publicdata_ca/providers/statcan.py:220-226 | the targets of the file members, in archive order; `TargetListed` and `WriteEntriesFrame` connect them to the disk |
| StatCan.Extracted | publicdata_ca/providers/statcan.py:220-232 | what the loop does: the file members before the first unextractable one are written, that one raises `IsADirectoryError`, and otherwise the reported paths are returned; `ExtractZip` is proved against it |
| StatCan.ExtractedPathsSingle | publicdata_ca/providers/statcan.py:220-230 | a directory member contributes nothing; a file member contributes `output_dir / name` |
| StatCan.ExtractedPathsAppend | publicdata_ca/providers/statcan.py:220-230 | the extracted paths of a split archive are those of each part, in order |
| StatCan.WriteEntriesFrame | publicdata_ca/providers/statcan.py:220-230 | extraction adds exactly the sanitised targets of the file members and leaves every file that is not a target as it was |
| StatCan.TargetListed | publicdata_ca/providers/statcan.py:220-226 | every file member's target is among the targets |
| StatCan.ExtractTargetInside | publicdata_ca/providers/statcan.py:226 | a target with at least one kept part lies strictly inside `output_dir` |
| StatCan.WriteEntriesInside | publicdata_ca/providers/statcan.py:220-228 | before the first unextractable member, extraction creates files only strictly inside `output_dir` and leaves every file outside it as it was |
| StatCan.ExtractionStaysInside | publicdata_ca/providers/statcan.py:193-232 | whatever the member names, `_extract_zip` never writes outside `output_dir`, `../` and absolute names included |
| StatCan.MemberDataDefault | publicdata_ca/providers/statcan.py:226 | for the name of a member, the content looked up does not depend on the default |
| StatCan.MemberDataLast | publicdata_ca/providers/statcan.py:226 | the content looked up for a name is that of the last member with the name |
| StatCan.ExtractedContent | publicdata_ca/providers/statcan.py:226 | a file member whose target no later member of another name overwrites leaves, at its target, the content `extract` reads for its name |
| StatCan.LastMemberAt | publicdata_ca/providers/statcan.py:220-228 | a file member written before any unextractable one, with no later file member aiming at its target, leaves exactly its own content there |
| StatCan.LaterNamesDiffer | publicdata_ca/providers/statcan.py:226 | when no later file member aims at a member's target, no later member shares its name |
| StatCan.SafeOfKept | publicdata_ca/providers/statcan.py:226-227 | of the pieces `pathlib` keeps, only `..` is dropped by `zipfile` |
| StatCan.SafeAppend | publicdata_ca/providers/statcan.py:226 | the kept pieces of a concatenation are those of each part |
| StatCan.SafeOfValid | publicdata_ca/providers/statcan.py:226 | valid parts other than `..` are all kept |
| StatCan.PlainNameTarget | publicdata_ca/providers/statcan.py:226-227 | for a relative name without `..` the target is the reported `output_dir / name` |
| StatCan.ParentRefTarget | publicdata_ca/providers/statcan.py:226-227 | `../name` is extracted to `output_dir / name`, while the reported path climbs out of `output_dir` |
| StatCan.AbsoluteNameTarget | publicdata_ca/providers/statcan.py:226-227 | `/name` is extracted to `output_dir / name`, while the reported path is the absolute `/name` |
| StatCan.EscapingNamesExample | publicdata_ca/providers/statcan.py:226 | `../b.csv` and `/x.csv` both land directly in `output_dir` |
| StatCan.SkipsDirectoryMember | publicdata_ca/providers/statcan.py:220-230 | an archive of `dir/` and `dir/file` yields just the one file, two levels below the output directory |
| StatCan.ParseManifest | publicdata_ca/providers/statcan.py:235-269 | `_parse_manifest` raises exactly when `manifest.json` exists and is not UTF-8, and then raises `UnicodeDecodeError` for it; `ManifestJsonWins`, `InvalidManifestFallsThrough` and `ParseManifestNone` state the precedence |
| StatCan.InvalidManifestFallsThrough | publicdata_ca/providers/statcan.py:251-257 | a `manifest.json` that is UTF-8 but not JSON counts as no `manifest.json` |
| StatCan.ManifestJsonWins | publicdata_ca/providers/statcan.py:251-257 | a UTF-8 `manifest.json` that parses is returned as it is, whether or not a metadata CSV exists |
| StatCan.ParseManifestNone | publicdata_ca/providers/statcan.py:250-269 | the result is `None` exactly when the manifest parses to `null`, or when there is no parseable and no undecodable `manifest.json` and no metadata CSV; the CSV record is truthy and names the CSV |
| StatCan.MetadataCsvPathShape | publicdata_ca/providers/statcan.py:260-261 | `<pid>_MetaData.csv` is a direct child of the output directory, distinct from `manifest.json` |
| StatCan.AdditionalMetadata | publicdata_ca/providers/statcan.py:295-303 | the shared fields are exactly `provider`, `pid`, `table_number`, and `title` when the manifest is a truthy object with one; the `in` test on other truthy values raises exactly when the source's does |
| StatCan.WriteStatcanMetadata | publicdata_ca/providers/statcan.py:272-316 | an error while building the shared fields raises before any write; otherwise every listed file gets its sidecar, and each failing file is skipped |
| StatCan.WriteSidecarStep | publicdata_ca/providers/statcan.py:306-316 | one step writes the sidecar of an existing file with its record, skips a missing file, and changes nothing else |
| StatCan.WriterWritesSidecars | publicdata_ca/providers/statcan.py:306-316 | the loop step writes an existing file's record into its sidecar and nothing else |
| StatCan.WriteAllKeys | publicdata_ca/providers/statcan.py:306-316 | such a loop keeps every file, adds only sidecars of listed files, and adds one for each existing listed file |
| StatCan.WriteAllKeepsOthers | publicdata_ca/providers/statcan.py:306-316 | such a loop leaves every file that is not a listed file's sidecar as it was |
| StatCan.WriteAllContent | publicdata_ca/providers/statcan.py:306-316 | without sidecar clashes, each existing listed file's sidecar holds that file's record |
| StatCan.WriteSidecars | publicdata_ca/providers/statcan.py:306-316 | the loop writing each listed file's sidecar; `WriteSidecarsKeys`, `WriteSidecarsKeepsOthers` and `WriteSidecarsContent` state what it writes |
| StatCan.WriteSidecarsKeys | publicdata_ca/providers/statcan.py:306-316 | writing the StatCan sidecars keeps every file and adds exactly the existing listed files' `.meta.json` sidecars |
| StatCan.WriteSidecarsKeepsOthers | publicdata_ca/providers/statcan.py:306-316 | every file that is not a listed file's sidecar keeps its content |
| StatCan.WriteSidecarsContent | publicdata_ca/providers/statcan.py:306-313 | an existing listed file's sidecar holds its provenance record with content type `application/zip`, a `sha256` hash and the shared fields |
| StatCan.ResultTitle | publicdata_ca/providers/statcan.py:112 | the title raises `AttributeError` exactly when the manifest is truthy but not an object |
| StatCan.TitleMatchesSidecars | publicdata_ca/providers/statcan.py:96-112 | the returned title is the sidecars' `title` when they have one, and the default `StatsCan Table <pid>` otherwise |
| StatCan.DownloadTable | publicdata_ca/providers/statcan.py:14-127 | the reference run of `download_statcan_table`; `DownloadStatcanTable` is proved against it and the lemmas below state its properties |
| StatCan.FetchAndExtractTable | publicdata_ca/providers/statcan.py:84-120 | the `try` block: download to the temporary ZIP, extract, parse the manifest (which can raise `UnicodeDecodeError`), write the sidecars, remove the ZIP and build the result, up to the first exception |
| StatCan.DownloadStatcanTable | publicdata_ca/providers/statcan.py:14-127 | the whole function equals its reference run: the disk afterwards, the result or exception, and the download calls made |
| StatCan.TableFilesShape | publicdata_ca/providers/statcan.py:67-86 | `<pid>.csv` and `<pid>_temp.zip` are distinct direct children of the output directory, and neither is a sidecar |
| StatCan.InvalidIdRaisesAtOnce | publicdata_ca/providers/statcan.py:60 | an invalid id raises its `ValueError` unwrapped, before any download, with the disk untouched |
| StatCan.SkipExistingTouchesNothing | publicdata_ca/providers/statcan.py:70-79 | with `skip_existing` and `<pid>.csv` present there is no download, the disk is unchanged, and the result lists just that file, skipped, with the default title and no manifest |
| StatCan.TempZipAlwaysRemoved | publicdata_ca/providers/statcan.py:82-127 | past the skip condition there is exactly one download, to the temporary ZIP at the WDS URL, and the temporary ZIP is gone afterwards on success and on failure |
| StatCan.TempZipOnlyWhenSkipped | publicdata_ca/providers/statcan.py:70-127 | a temporary ZIP survives only when it was already there and the run took the skip path |
| StatCan.FailuresNamePid | publicdata_ca/providers/statcan.py:60-127 | every exception is the id's `ValueError` or a `RuntimeError` naming the normalised pid |
| StatCan.FetchFailureWrapped | publicdata_ca/providers/statcan.py:84-127 | a failed download raises at once, wrapped, with the disk as it was minus any stale temporary ZIP |
| StatCan.BadZipWrapped | publicdata_ca/providers/statcan.py:90-127 | a body that is not a ZIP archive raises, wrapped, and only the temporary ZIP is removed |
| StatCan.SuccessReportsArchive | publicdata_ca/providers/statcan.py:84-120 | a successful unskipped run downloaded an archive that opened and had no unextractable member, reports exactly its file members' `output_dir / name` paths under `statcan_<pid>`, and includes the manifest only when it is truthy |
| StatCan.DownloadPastSkip | publicdata_ca/providers/statcan.py:70-127 | past the skip condition a run is the download path for the normalised pid |
| StatCan.DownloadedArchive | publicdata_ca/providers/statcan.py:87-90 | a downloaded archive that opens is extracted next to the temporary ZIP; an extraction error is raised from there, and otherwise the run continues from the extracted files |
| StatCan.AfterExtractDisk | publicdata_ca/providers/statcan.py:93-105 | after extraction, an undecodable `manifest.json` raises with the extracted disk, a failure building the shared fields leaves the extracted disk, and otherwise the sidecars are written and the temporary ZIP is removed |
| StatCan.AfterExtractResult | publicdata_ca/providers/statcan.py:107-118 | a built result reports the extracted files under `statcan_<pid>`, unskipped, with a truthy manifest or none |
| StatCan.SuccessKeepsExtracted | publicdata_ca/providers/statcan.py:84-120 | a successful download path extracted an archive without unextractable members, and every file extraction left, other than the temporary ZIP, is still on disk at the end |
| StatCan.ExtractedFilesPresent | publicdata_ca/providers/statcan.py:84-120 | after a successful download every file member's sanitised target other than the temporary ZIP is on disk, and so is every reported path of a member whose name is relative and has no `..` |
| StatCan.RedownloadReplacesMainCsv | publicdata_ca/providers/statcan.py:84-127 | past the skip condition, when the last file member aiming at `<pid>.csv` comes before any unextractable member, `<pid>.csv` ends up holding exactly its content, whether or not the rest of the run raises |
| StatCan.AfterExtractKeepsMainCsv | publicdata_ca/providers/statcan.py:93-105 | parsing the manifest, writing the sidecars and removing the temporary ZIP leave `<pid>.csv` as extraction left it |
| StatCan.UnextractableMemberWrapped | publicdata_ca/providers/statcan.py:84-127 | a member `zipfile` cannot extract raises `IsADirectoryError` wrapped with the pid, after the members before it were written, and the temporary ZIP is removed |
| StatCan.UndecodableManifestRaises | publicdata_ca/providers/statcan.py:84-127 | an extracted `manifest.json` that is not UTF-8 raises `UnicodeDecodeError` wrapped with the pid, no sidecar is written, and the temporary ZIP is removed |
| CmhcLanding.FirstExtension | publicdata_ca/resolvers/cmhc_landing.py:73-77 | the extension found is one the href ends with; none is found exactly when no extension matches |
| CmhcLanding.SuffixChar | publicdata_ca/resolvers/cmhc_landing.py:75 | the characters of a suffix are those at the end of the string |
| CmhcLanding.SuffixesUnique | publicdata_ca/resolvers/cmhc_landing.py:75 | two dot-free extensions that both end a string are equal |
| CmhcLanding.ExtensionsDotFree | publicdata_ca/resolvers/cmhc_landing.py:52-54 | no allowed extension contains a dot |
| CmhcLanding.ExtensionUnique | publicdata_ca/resolvers/cmhc_landing.py:52-77 | at most one allowed extension ends an href, so the one found does not depend on the order the set is walked |
| CmhcLanding.DetectExtension | publicdata_ca/resolvers/cmhc_landing.py:73-77 | the loop with `break` finds the first matching extension |
| CmhcLanding.StripTags | publicdata_ca/resolvers/cmhc_landing.py:70 | tag removal only removes characters |
| CmhcLanding.StripTagsKeepsHead | publicdata_ca/resolvers/cmhc_landing.py:70 | a character that starts no tag is kept in front |
| CmhcLanding.NoTagCons | publicdata_ca/resolvers/cmhc_landing.py:70 | prefixing a tag-free string with a character that starts no tag keeps it tag-free |
| CmhcLanding.StripTagsHead | publicdata_ca/resolvers/cmhc_landing.py:70 | a first character that starts no tag still starts none once the rest is stripped |
| CmhcLanding.StripTagsNoTag | publicdata_ca/resolvers/cmhc_landing.py:70 | nothing `re.sub(r'<[^>]+>', '', s)` leaves behind is a tag |
| CmhcLanding.StripTagsFixpoint | publicdata_ca/resolvers/cmhc_landing.py:70 | a tag-free string is left as it is |
| CmhcLanding.StripTagsIdempotent | publicdata_ca/resolvers/cmhc_landing.py:70 | stripping tags twice is stripping once |
| CmhcLanding.Absolutize | publicdata_ca/resolvers/cmhc_landing.py:81-89 | `http(s)` links are kept, `//x` gets the page's scheme, `/x` the page's scheme and host, and anything else is joined to the landing URL |
| CmhcLanding.AbsolutizeIdempotent | publicdata_ca/resolvers/cmhc_landing.py:81-89 | on an http(s) page every absolutised link is an http(s) URL, and absolutising it again changes nothing |
| CmhcLanding.FileName | publicdata_ca/resolvers/cmhc_landing.py:92 | the file name has no `/` and no `?` |
| CmhcLanding.NoTagSlice | publicdata_ca/resolvers/cmhc_landing.py:70 | stripping whitespace from a tag-free string keeps it tag-free |
| CmhcLanding.TrimmedChars | publicdata_ca/resolvers/cmhc_landing.py:70 | stripping keeps only characters of the original |
| CmhcLanding.CleanText | publicdata_ca/resolvers/cmhc_landing.py:70 | cleaned link text is tag-free, trimmed, and made of the original's characters |
| CmhcLanding.CleanTextIdempotent | publicdata_ca/resolvers/cmhc_landing.py:70 | cleaning clean text leaves it unchanged |
| CmhcLanding.AnchorTitle | publicdata_ca/resolvers/cmhc_landing.py:92-93 | the title is the cleaned link text, or the file name when that is empty |
| CmhcLanding.AnchorCandidate | publicdata_ca/resolvers/cmhc_landing.py:73-93 | an anchor asset's format is an allowed extension |
| CmhcLanding.DataCandidate | publicdata_ca/resolvers/cmhc_landing.py:112-127 | a data-attribute asset's format is an allowed extension |
| CmhcLanding.AnchorCandidates | publicdata_ca/resolvers/cmhc_landing.py:65-101 | one candidate per anchor match |
| CmhcLanding.DataCandidates | publicdata_ca/resolvers/cmhc_landing.py:110-134 | one candidate per data-attribute match |
| CmhcLanding.AddAnchorAsset | publicdata_ca/resolvers/cmhc_landing.py:66-101 | the first loop's body adds an anchor's asset exactly when its href has a data extension and its URL is new |
| CmhcLanding.AddDataAsset | publicdata_ca/resolvers/cmhc_landing.py:111-134 | the second loop's body adds a data-attribute asset exactly when its format is allowed and its URL is new |
| CmhcLanding.ResolvedAssets | publicdata_ca/resolvers/cmhc_landing.py:65-136 | the resolver's list: anchor candidates first, then data-attribute candidates, each URL once; `ResolvedAssetsShape` and `FormatsAllowed` state its properties |
| CmhcLanding.CollectAssets | publicdata_ca/resolvers/cmhc_landing.py:65-134 | the two loops over the pattern matches compute exactly the resolver's list |
| CmhcLanding.ResolveLandingPage | publicdata_ca/resolvers/cmhc_landing.py:15-136 | fetching the page with three tries and a delay of 1 either raises the fetch's error or yields, in order, the anchor candidates and then the data-attribute candidates found in the body, each URL once |
| CmhcLanding.CollectShape | publicdata_ca/resolvers/cmhc_landing.py:96-101 | collecting extends the list it starts from, keeps URLs distinct, and adds only offered candidates |
| CmhcLanding.CollectCovers | publicdata_ca/resolvers/cmhc_landing.py:96-101 | every offered candidate's URL ends up in the list |
| CmhcLanding.CollectGrows | publicdata_ca/resolvers/cmhc_landing.py:96-101 | one more candidate keeps what was collected so far in front |
| CmhcLanding.FirstOccurrenceWins | publicdata_ca/resolvers/cmhc_landing.py:96-134 | the asset kept for a URL is the first candidate offered with that URL |
| CmhcLanding.CollectOrigin | publicdata_ca/resolvers/cmhc_landing.py:96-101 | every collected element comes from the starting list or from a candidate |
| CmhcLanding.CollectedShape | publicdata_ca/resolvers/cmhc_landing.py:65-134 | after both loops no URL appears twice, the first list's assets precede the second's, every candidate is represented by its URL, and every asset comes from a candidate |
| CmhcLanding.ResolvedAssetsShape | publicdata_ca/resolvers/cmhc_landing.py:65-136 | the resolver's list has distinct URLs, all anchor assets in match order before any data-attribute asset, every accepted match represented, and nothing else |
| CmhcLanding.CollectFormats | publicdata_ca/resolvers/cmhc_landing.py:96-101 | collecting candidates with allowed formats keeps every format allowed |
| CmhcLanding.FormatsAllowed | publicdata_ca/resolvers/cmhc_landing.py:52-136 | every resolved asset's format is one of the data extensions |
| CmhcLanding.AnchorCandidateIff | publicdata_ca/resolvers/cmhc_landing.py:73-89 | an anchor yields an asset exactly when its lower-cased href ends in `.` and an allowed extension, which becomes the format; its URL is the absolutised href |
| CmhcLanding.LowerLastSegment | publicdata_ca/resolvers/cmhc_landing.py:114 | lower-casing commutes with taking the last `.` segment |
| CmhcLanding.LastSegmentOfSuffix | publicdata_ca/resolvers/cmhc_landing.py:114 | a string ending in `.` plus a dot-free `e` has `e` as its last `.` segment |
| CmhcLanding.DataMatchAccepted | publicdata_ca/resolvers/cmhc_landing.py:104-127 | every href the data-attribute pattern can match is accepted, with its extension as format and its file name as title |
| CmhcLanding.PageMetadata | publicdata_ca/resolvers/cmhc_landing.py:155-175 | `title` is present exactly when a `<title>` or `<h1>` matched, `description` exactly when the meta tag matched, and there are no other keys |
| CmhcLanding.PageTitleSource | publicdata_ca/resolvers/cmhc_landing.py:157-173 | the `<title>` wins over the `<h1>`; the title is tag-free and trimmed; the description is the stripped match |
| CmhcLanding.ExtractMetadataFromPage | publicdata_ca/resolvers/cmhc_landing.py:139-175 | fetching the page with three tries and a delay of 1 either raises the fetch's error or returns the metadata built from the matches in the body |
| Cmhc.FromLink | publicdata_ca/providers/cmhc.py:85 | a resolved asset enters the loop with its URL, title and format, and no rank, `local_path` or `error` |
| Cmhc.KeepMatching | publicdata_ca/providers/cmhc.py:88-94 | the filter never adds assets |
| Cmhc.FilterAssets | publicdata_ca/providers/cmhc.py:88-94 | no filter, or an empty one, keeps every asset |
| Cmhc.KeepMatchingMembers | publicdata_ca/providers/cmhc.py:89-94 | an asset survives exactly when it was offered and the lower-cased filter occurs in its lower-cased format or title |
| Cmhc.KeepMatchingAppend | publicdata_ca/providers/cmhc.py:89-94 | filtering a concatenation filters each part, so the survivors keep their order |
| Cmhc.KeepMatchingSingle | publicdata_ca/providers/cmhc.py:89-94 | each asset is kept or dropped on its own |
| Strings.Lower | publicdata_ca/providers/cmhc.py:89-94 | ASCII `str.lower()`, used by the filter; `KeepMatchingMembers` and `LowerLastSegment` state what it is used for |
| Cmhc.SafeHasNoSeparators | publicdata_ca/providers/cmhc.py:106-110 | a string of safe characters contains no space, `/`, `\` or `..` |
| Cmhc.ReplaceSeparatorsSafe | publicdata_ca/providers/cmhc.py:107-110 | on safe characters the separator replacements change nothing |
| Cmhc.SafeTitle | publicdata_ca/providers/cmhc.py:106-112 | the sanitised title is non-empty, consists of alphanumerics, `-` and `_`, and has no `.` or `/` |
| Cmhc.SafeHasNoDot | publicdata_ca/providers/cmhc.py:106-112 | safe characters include neither `.` nor `/` |
| Cmhc.ReplaceSeparatorsTail | publicdata_ca/providers/cmhc.py:110 | after the space replacement the remaining replacements change nothing |
| Cmhc.SafeTitleKeepsSafe | publicdata_ca/providers/cmhc.py:106-112 | a non-empty title that is already safe is kept as it is |
| Cmhc.SafeTitleIdempotent | publicdata_ca/providers/cmhc.py:106-112 | sanitising a sanitised title changes nothing |
| Cmhc.SafeFormat | publicdata_ca/providers/cmhc.py:115-117 | the sanitised format is non-empty and alphanumeric, `dat` when nothing is left |
| Cmhc.SafeFormatIdempotent | publicdata_ca/providers/cmhc.py:115-117 | sanitising a sanitised format changes nothing |
| Cmhc.AssetFileName | publicdata_ca/providers/cmhc.py:119 | the file name is one valid path part and not `..` |
| Cmhc.AssetOutput | publicdata_ca/providers/cmhc.py:120 | the output file is a direct child of the output directory, named by the file name |
| Cmhc.DottedName | publicdata_ca/providers/cmhc.py:119 | `t.f` of two dot-free, slash-free parts is one part whose only dot separates them, so it is never a `.meta.json` name |
| Cmhc.AssetFileNameShape | publicdata_ca/providers/cmhc.py:119-120 | the file name has exactly one dot, between the title and the format, is not a sidecar name, and `output_path / file_name` is its direct child |
| Cmhc.RelativeToParent | publicdata_ca/providers/cmhc.py:130 | `(dir / name).relative_to(dir.parent)` succeeds, and joining it to `dir.parent` gives the file back |
| Cmhc.ListedPath | publicdata_ca/providers/cmhc.py:130 | the `files` entry names the output file relative to the output directory's parent |
| Cmhc.DatasetId | publicdata_ca/providers/cmhc.py:150 | the dataset id is `cmhc_` followed by the landing URL's last `/`-separated segment |
| Cmhc.CmhcFields | publicdata_ca/providers/cmhc.py:190-197 | sets `provider`, `landing_page_url`, `asset_title` and `asset_format`; sets `asset_rank` only when the asset has a rank; every other field stays |
| Cmhc.CmhcFieldsIdempotent | publicdata_ca/providers/cmhc.py:190-197 | setting the CMHC fields twice is setting them once |
| Cmhc.AddCmhcMetadata | publicdata_ca/providers/cmhc.py:164-204 | the merge touches only the sidecar and does nothing when the sidecar is absent |
| Cmhc.AddCmhcMetadataRead | publicdata_ca/providers/cmhc.py:179-204 | reading the sidecar back gives the old record with the CMHC fields set; a sidecar that is not UTF-8, not JSON or not an object is left alone |
| Cmhc.AddCmhcMetadataIdempotent | publicdata_ca/providers/cmhc.py:164-204 | merging twice is merging once |
| Cmhc.Processed | publicdata_ca/providers/cmhc.py:131-147 | a saved asset gets `local_path`, a failed one gets `error`, and the rest of the asset is unchanged |
| Cmhc.Step | publicdata_ca/providers/cmhc.py:122-147 | one iteration of the loop; `StepShape`, `StepFrame` and `SavedStepWritten` state what it does |
| Cmhc.ProcessAssets | publicdata_ca/providers/cmhc.py:100-147 | the loop over the selected assets; `ProcessAssetsShape`, `ProcessAssetsFrame`, `LocalPathXorError` and `SavedAssetWritten` state its properties |
| Cmhc.Plan | publicdata_ca/providers/cmhc.py:119-130 | an asset's download goes to a direct child of the output directory, and its `files` entry, joined to the output directory's parent, is that file |
| Cmhc.Plans | publicdata_ca/providers/cmhc.py:100-120 | one plan per asset, in order |
| Cmhc.Selected | publicdata_ca/providers/cmhc.py:85-94 | the assets handed to the loop have neither `local_path` nor `error` yet |
| Cmhc.DownloadPlanned | publicdata_ca/providers/cmhc.py:122-147 | one loop body: download, then either list the file, set `local_path` and merge metadata, or record the error |
| Cmhc.DownloadAll | publicdata_ca/providers/cmhc.py:100-147 | the loop runs the body over every planned asset, in order |
| Cmhc.DownloadCmhcAsset | publicdata_ca/providers/cmhc.py:39-161 | the whole function: a failed page fetch raises with no download and the disk unchanged; otherwise resolve, filter, then run the loop; the result carries `cmhc_<segment>`, the files, the processed assets and the errors |
| Cmhc.SavedDiskFrame | publicdata_ca/providers/cmhc.py:124-134 | a saved download writes the body at its destination, removes nothing, and changes nothing outside the destination's directory |
| Cmhc.StepShape | publicdata_ca/providers/cmhc.py:100-147 | one iteration makes one call, processes one asset, and adds one entry to `files` or one to `errors` |
| Cmhc.StepFrame | publicdata_ca/providers/cmhc.py:100-147 | one iteration writes only in its destination's directory and leaves a saved body at the destination |
| Cmhc.RunPlansShape | publicdata_ca/providers/cmhc.py:100-147 | every planned asset is processed in order with exactly one call; no failure stops the assets after it |
| Cmhc.ProcessAssetsShape | publicdata_ca/providers/cmhc.py:100-147 | every asset gets one call to its sanitised output file, `local_path` when saved and `error` when failed, and `|files| + |errors|` equals the number of assets |
| Cmhc.LocalPathXorError | publicdata_ca/providers/cmhc.py:131-137 | each processed asset has a `local_path` or an `error`, never both |
| Cmhc.RunPlansFrame | publicdata_ca/providers/cmhc.py:100-147 | plans that write in one directory remove nothing, change nothing outside it, and leave every listed file on disk |
| Cmhc.ProcessAssetsFrame | publicdata_ca/providers/cmhc.py:100-147 | the loop writes only inside the output directory, removes nothing, and every `files` entry, taken from the output directory's parent, is on disk |
| Cmhc.SavedStepWritten | publicdata_ca/providers/cmhc.py:124-131 | after a saved download the destination holds the body and the last `files` entry is the listed path |
| Cmhc.SavedAssetWritten | publicdata_ca/providers/cmhc.py:119-131 | after a saved download the asset's output file holds the body and its `files` entry names that file |
| Http.Backoff | publicdata_ca/http.py:82-84 | `n` back-off delays |
| Http.Retry | publicdata_ca/http.py:28-90 | the reference run of `retry_request`: attempts until the first terminal outcome or `max_retries`, doubling sleeps, and the error at the end; `RetryRequest` is proved against it and `RetryBounds` and the lemmas below state its properties |
| Http.FirstTerminal | publicdata_ca/http.py:66-79 | the first attempt that ends the loop is found: every earlier one was retryable |
| Http.RetryRequest | publicdata_ca/http.py:28-90 | the loop's result, attempt count and recorded sleeps are the reference run's |
| Http.RetryBounds | publicdata_ca/http.py:66-84 | at most `max_retries` attempts, one sleep fewer than attempts, and the k-th sleep is `retry_delay * 2^k` |
| Http.FirstTerminalAt | publicdata_ca/http.py:66-79 | the first terminal attempt is found whatever the bound beyond it |
| Http.FirstTerminalNone | publicdata_ca/http.py:66-79 | without a terminal attempt the search runs to the bound |
| Http.FirstSuccessReturned | publicdata_ca/http.py:66-70 | the first success within the budget is returned at once, after as many sleeps as failed attempts before it |
| Http.FatalStatusRaisedAtOnce | publicdata_ca/http.py:72-75 | a 4xx other than 429 and 408 is raised at once, with no further attempt or sleep |
| Http.RetryableOutcomes | publicdata_ca/http.py:72-79 | 5xx, 429, 408 and connection errors are retried; other 4xx end the loop |
| Http.ExhaustedRaisesLastError | publicdata_ca/http.py:66-88 | when every attempt fails retryably, all attempts are made with `max_retries - 1` sleeps and the last error is raised |
| Http.NoAttemptsWithoutRetries | publicdata_ca/http.py:66-90 | with `max_retries <= 0` nothing is fetched and the generic "after N attempts" error is raised |
| Http.AlwaysUnavailableExample | publicdata_ca/http.py:66-88 | three tries against a server that always answers 503: three attempts, sleeps of 1 and 2, and the 503 raised |
| Http.DownloadFile | publicdata_ca/http.py:93-119 | after a successful fetch the file holds exactly the body, every other file is unchanged, and its path is returned; a raising fetch raises its error and writes nothing |
| Provenance.CalculateFileHash | publicdata_ca/provenance.py:16-40 | the chunks are non-empty, at most 8192 bytes, and concatenate to exactly the file content, so the digest is that of the whole content; an unknown algorithm raises `ValueError` before the file is opened, a missing file `FileNotFoundError`, an extendable-output hash `TypeError` |
| Provenance.FileHash | publicdata_ca/provenance.py:33-40 | succeeds exactly for a usable algorithm and an existing file, with the hex digest of the content; the unknown-name `ValueError` wins over a missing file |
| Provenance.GuaranteedUsable | publicdata_ca/provenance.py:33 | every name in `hashlib.algorithms_guaranteed` other than the SHAKE functions, `sha256` among them, hashes on every build |
| Provenance.SidecarName | publicdata_ca/provenance.py:114 | the sidecar name is the file's name plus `.meta.json`, one valid part |
| Provenance.SidecarPath | publicdata_ca/provenance.py:114 | the sidecar sits in the file's directory, is named after it, and is never the file itself |
| Provenance.SidecarPathIsChild | publicdata_ca/provenance.py:114 | the sidecar path is `parent / (name + ".meta.json")` |
| Provenance.SidecarPathShape | publicdata_ca/provenance.py:114 | the sidecar name ends in `.meta.json` |
| Provenance.MetadataPathFor | publicdata_ca/provenance.py:144-148 | the metadata read is always a `.meta.json` file |
| Provenance.MetadataPathOfSidecar | publicdata_ca/provenance.py:144-148 | a `.meta.json` path is used directly; any other file's sidecar is derived |
| Provenance.BaseRecord | publicdata_ca/provenance.py:94-105 | the record before the additional fields are merged; `ProvenanceRecordFields` states its fields |
| Provenance.ProvenanceRecord | publicdata_ca/provenance.py:94-111 | the base record updated with the additional fields; `ProvenanceRecordFields` states which wins |
| Provenance.ProvenanceRecordFields | publicdata_ca/provenance.py:94-111 | the record holds `file`, `source_url`, `downloaded_at`, `file_size_bytes` and `hash`; `content_type` only when non-empty; additional keys win on clashes and every other base field stays |
| Provenance.WriteProvenanceMetadata | publicdata_ca/provenance.py:43-119 | a missing data file raises `FileNotFoundError`, an unknown algorithm `ValueError` and an extendable-output one `TypeError`, each writing nothing; otherwise exactly the sidecar is added or replaced and its path returned |
| Provenance.WriteKeepsOtherFiles | publicdata_ca/provenance.py:114-117 | with a usable algorithm, writing a sidecar succeeds and leaves the data file and every other file as they were |
| Provenance.ReadProvenanceMetadata | publicdata_ca/provenance.py:122-154 | reading raises `FileNotFoundError` exactly when the metadata file is missing, and otherwise is the UTF-8 JSON load of it, with its `UnicodeDecodeError` and `JSONDecodeError` |
| Provenance.VerifyFileIntegrity | publicdata_ca/provenance.py:157-189 | `verify_file_integrity`; `VerifyComparesHash`, `VerifyUnusableAlgorithmRaises`, `VerifyNeedsHashValue`, `VerifyWithoutSidecar`, `WriteThenVerify` and `TamperedFileFailsVerify` state its answers and errors |
| Provenance.VerifyComparesHash | publicdata_ca/provenance.py:176-189 | with a recorded non-empty hash and an algorithm `hashlib` can use, verification answers exactly whether the current digest equals it |
| Provenance.VerifyUnusableAlgorithmRaises | publicdata_ca/provenance.py:176-187 | a recorded algorithm `hashlib` does not know raises `ValueError` whether or not the data file exists; a known extendable-output one raises `TypeError` |
| Provenance.VerifyNeedsHashValue | publicdata_ca/provenance.py:179-184 | a missing or empty hash value raises `ValueError` |
| Provenance.VerifyWithoutSidecar | publicdata_ca/provenance.py:150-151 | verifying a file without metadata raises `FileNotFoundError` for the metadata path |
| Provenance.WriteThenVerify | publicdata_ca/provenance.py:43-189 | with a usable algorithm, writing succeeds and verifying right after answers true when `hash` was not overridden |
| Provenance.TamperedFileFailsVerify | publicdata_ca/provenance.py:157-189 | with a usable algorithm, a file whose content changed to one with a different digest fails verification |
| Manifest.BuildRunManifest | publicdata_ca/manifest.py:15-66 | the manifest is written at `output_dir / manifest_name`, that path is returned, and only that file is added |
| Manifest.LoadManifest | publicdata_ca/manifest.py:69-84 | loading raises `FileNotFoundError` exactly when the file is missing and `UnicodeDecodeError` when it is not UTF-8; a loaded document is what `json.load` gives |
| Manifest.BuildThenLoad | publicdata_ca/manifest.py:56-84 | loading a freshly built manifest gives the record back: the datasets verbatim and `total_datasets` equal to their count |
| Manifest.Iterable | publicdata_ca/manifest.py:101-102 | `for x in v` visits a list's items, a string's characters, and an object's keys as strings in the decoded order; it raises exactly for `null`, numbers and booleans |
| Manifest.FilePaths | publicdata_ca/manifest.py:102-103 | one full path per `files` entry |
| Manifest.MissingEmptyIff | publicdata_ca/manifest.py:104-108 | nothing is missing exactly when every path exists |
| Manifest.MissingCounts | publicdata_ca/manifest.py:101-106 | every missing path is reported once per listing, and no present path is reported |
| Manifest.FilePathsErrorStays | publicdata_ca/manifest.py:102-103 | an error on a prefix of the files is the error of the whole list |
| Manifest.ManifestPathsErrorStays | publicdata_ca/manifest.py:101-102 | an error on a prefix of the datasets is the error of the whole list |
| Manifest.MissingAppend | publicdata_ca/manifest.py:101-106 | the missing paths of a concatenation are those of each part, in order |
| Manifest.ManifestPaths | publicdata_ca/manifest.py:101-103 | the full paths of all datasets, dataset by dataset, or the first error; `ManifestPathsStep` and `ManifestPathsErrorStays` state how it grows |
| Manifest.Missing | publicdata_ca/manifest.py:104-106 | the missing paths in order, once per occurrence; `MissingEmptyIff` and `MissingCounts` state its properties |
| Manifest.FilePathsStep | publicdata_ca/manifest.py:102-106 | one more `files` entry adds its full path, reported if missing; a non-string entry raises |
| Manifest.FilePathsOfStrings | publicdata_ca/manifest.py:102-103 | a list of strings names their full paths, one each, in order |
| Manifest.KeyPaths | publicdata_ca/manifest.py:102-103 | a dataset whose `files` is an object lists `dir / key` for each key, in the decoded key order |
| Manifest.KeyPathsCover | publicdata_ca/manifest.py:102-103 | paths named by an enumeration of an object's keys are exactly the paths of its keys |
| Manifest.KeyPathsMissing | publicdata_ca/manifest.py:102-106 | such paths are all on disk exactly when the file of every key is |
| Manifest.ObjectFilesByKey | publicdata_ca/manifest.py:101-106 | a `files` object lists one path per key, and the dataset has nothing missing exactly when the file named by every key exists |
| Manifest.ObjectDatasetsRaise | publicdata_ca/manifest.py:101-102 | a non-empty object as `datasets` raises `AttributeError`: its first key is a string, which has no `.get` |
| Manifest.ScanFiles | publicdata_ca/manifest.py:102-106 | the inner loop reports exactly the missing full paths of one dataset, or raises for a malformed entry |
| Manifest.ManifestPathsStep | publicdata_ca/manifest.py:101-102 | one more dataset adds its paths, or its error is the whole list's |
| Manifest.ScanDataset | publicdata_ca/manifest.py:101-106 | one dataset: a non-object raises `AttributeError`, a `files` that is not iterable raises `TypeError`, a `files` object is walked by key, and otherwise its entries are scanned |
| Manifest.ScanDatasets | publicdata_ca/manifest.py:100-108 | the outer loop reports every missing path and answers whether none was missing |
| Manifest.ValidateManifest | publicdata_ca/manifest.py:87-108 | validation raises what loading or walking the manifest raises first (`FileNotFoundError`, `UnicodeDecodeError`, `JSONDecodeError`, `AttributeError`, `TypeError`); otherwise it reports every missing listed path, in order, once per occurrence, and answers true exactly when every listed file exists relative to the manifest's directory; the disk is not changed |
| Manifest.NoFilesListsNothing | publicdata_ca/manifest.py:101-102 | datasets that are objects without `files`, or with an empty `files` list, list nothing, so they validate |
| Manifest.BuildThenValidate | publicdata_ca/manifest.py:15-108 | a manifest built over datasets whose files all exist validates right after it is written |
| Datasets.Anchored | publicdata_ca/datasets.py:36-38 | a relative destination is taken under the root, so the result is absolute |
| Datasets.EnsureRawDestination | publicdata_ca/datasets.py:33-43 | a returned destination is the resolved path and is the root or below it; otherwise `ValueError` names the resolved path, which lies outside the root |
| Datasets.ResolveResolved | publicdata_ca/datasets.py:39 | a path without `..` is its own resolution |
| Datasets.RelativeStaysUnder | publicdata_ca/datasets.py:36-43 | a relative destination without `..` lands exactly at `root / dest` |
| Datasets.EnsureIdempotent | publicdata_ca/datasets.py:33-43 | pinning a pinned destination gives it back unchanged |
| Datasets.AbsoluteOutsideRejected | publicdata_ca/datasets.py:37-41 | an absolute, resolved destination outside the root is rejected |
| Datasets.DotDotEscapeRejected | publicdata_ca/datasets.py:36-41 | `..` climbs out of any root other than `/` and is rejected, naming the root's parent |
| Datasets.CollapseSplit | publicdata_ca/datasets.py:39 | resolving a concatenation resolves the first part, then walks the second from there |
| Datasets.Destination | publicdata_ca/datasets.py:61-64 | `destination()` is None exactly when there is no target, and otherwise the pinned target or its error |
| Datasets.TableNumber | publicdata_ca/datasets.py:67-73 | the table number is None exactly for a missing or empty pid |
| Datasets.TableNumberAgrees | publicdata_ca/datasets.py:67-73 | the catalogue's table number is the StatCan formatter's, and for a product id it normalises back to the id |

## Left out

- `cli.py`, the package `__init__` re-exports and the test modules are not part of this model.
- `build_dataset_catalog` (pandas) and the contents of `DEFAULT_DATASETS` are not modelled: they are a data table and a DataFrame build.
- `search_statcan_tables` is a placeholder that returns an empty list. It is not modelled.
- `resolve_cmhc_assets` is a one-line delegation to `resolve_cmhc_landing_page`. `Cmhc.DownloadCmhcAsset` calls `CmhcLanding.ResolveLandingPage` directly.
- `get_default_headers`, request headers and timeouts do not affect any modelled result. They are left out.
- The network and `time.sleep`:
  - the network is a function from attempt number to outcome;
  - sleeps are recorded;
  - `retry_delay` is a natural number of time units, not a float.
- Response objects are represented by their body. `Http.RetryRequest` returns the body where the source returns the response.
- `download_file` as called by the providers: `statcan.py:87` and `cmhc.py:128` pass keyword arguments the `download_file` in `http.py` does not accept. The providers therefore use an abstract download, not `Http.DownloadFile`, and do not model the `TypeError` or content-type validation.
- `Cmhc.Download`: a saved download may carry a sidecar the downloader wrote. Which downloader writes it is left open.
- Partial files left by a download that fails midway are not modelled: a failed download writes nothing.
- `json`, `hashlib` and `zipfile` are abstract. `hashlib` is `Provenance.Hashlib`: which names `hashlib.new` accepts beyond `algorithms_guaranteed` and which are extendable-output are parameters, and the digest is an uninterpreted function. Key order, indentation and number formats of the dumped JSON are not modelled. JSON numbers are integers.
- The regex engine (non-greedy `.*?`, `DOTALL`, `IGNORECASE`) and `decode('utf-8', errors='ignore')` of the landing page are not modelled: the matches are an abstract function `scan` of the fetched bytes. Tag removal is written out.
- The order in which `for key in d` visits a decoded JSON object is the codec's `keys` (the document's order); lemmas that need it to visit exactly the keys say so with `EnumeratesKeys(codec)`.
- `urljoin` is an abstract function of the page. `urlparse` is given as the page's scheme and network location.
- `str.isalnum`, `str.isdigit`, `str.lower` and `str.strip` are restricted to ASCII.
- `Path.resolve` is lexical:
  - symlinks are not followed;
  - the project root is a parameter (an absolute path without `..`), not the working directory.
- Directories, `mkdir` and `Path.stat` are not modelled. The file size is the content length. So a collision between a file and a directory (an archive member named like a directory another member needs, where `makedirs` would raise) is not modelled.
- Disk keys are lexical paths. The paths `_extract_zip` reports for escaping names (`out/../b.csv`, `/x.csv`) are kept as written and are not the keys the data was written to; `StatCan.ParentRefTarget` and `StatCan.AbsoluteNameTarget` state both. `zipfile`'s `os.path.normpath` of `output_dir` and its Windows handling (`\` separators, drive letters, `altsep`) are not modelled.
- Paths.Parse: a leading `//`, which `PurePosixPath` keeps as its own anchor (`PurePosixPath('//x').parts == ('//', 'x')`), is read as a single `/`. It shows only in the path `_extract_zip` reports for a member named like `//x.csv`; `resolve()` makes the two the same.
- Paths that the source returns or lists as `str` are paths in the model. `str(path)` is written out only where the rendered text is stored as data.
- `datetime.utcnow()`, `datetime.now()` and `Path.absolute()` are parameters.
- Console output (`print`, logging) is not modelled. The missing paths `validate_manifest` prints are returned as a list.
- `file_format` of `download_statcan_table` is a parameter the source never reads. It is left out.
- Name clashes on disk (two CMHC assets with the same sanitised name, or an archive member named like a sidecar) are side conditions of the content lemmas. The loops themselves handle them as the source does: the last write wins.
- `Cmhc.DownloadCmhcAsset` works out every asset's destination and `files` entry before the loop. The source does this inside each iteration; since the computation is pure, the result is the same.
