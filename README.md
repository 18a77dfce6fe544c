# apkeep: F-Droid index retrieval and verification, package queries, APKPure choice

This project models, in Dafny, the core of `apkeep`, a command-line tool that
downloads Android packages from several sources. The model covers the following.

- **F-Droid index retrieval** (`src/download_sources/fdroid.rs`, and the older
  `src/fdroid.rs`):
  - The repository options: `repo` with an optional `?fingerprint=` part,
    `use_entry` and `verify-index`.
  - The per-repository cache directory and its ETag cache. A HEAD request
    yields the current ETag. When it equals the stored one, the cached index is
    used without downloading anything. Otherwise the signed JAR is downloaded,
    extracted and verified, and only then are the index and the ETag stored.
  - The signed-JAR check:
    - Exactly one `META-INF/*.{RSA,DSA,EC}` block.
    - The `.SF` path derived from it by `set_extension`.
    - Exactly one certificate and one signer.
    - The signature, then the SHA-256 certificate fingerprint against the pin.
    - The digest chain from the signed file to `MANIFEST.MF` and on to
      `entry.json` or `index-v1.json`.
  - The second stage of the `entry.json` scheme: the named index file is
    downloaded and its SHA-256 compared.
- **F-Droid package queries**, in both index shapes:
  - Version arrays (`index-v1`).
  - `versions` objects (`index-v2`): the highest `versionCode` wins, or the
    first entry naming the requested version.
  - The architecture filter, the abort when nothing matches and no version was
    requested, version listing, and downloads with the hash warning.
- **APKPure** (`src/download_sources/apkpure.rs`):
  - The request headers, including the device-info header (sent as the code writes it, one closing brace short).
  - The choice of the asset from the versions response (a version test that can
    abort, APK or XAPK naming).
  - The sorted, descending version listing.
- **App lists and file names** (`src/main.rs`):
  - `fetch_list` for the AndroidRank and ISDi lists.
  - Removal of a ` (<size> MB)` suffix from a displayed file name.

Things the program delegates to libraries are parameters of type
`Platform.Primitives`. These are hashing, base64, CMS parsing, signature
verification, JSON parsing and `DefaultHasher`. The model states what the core
does with whatever those return.

Where the program changes state, the model does so too. `Retrieval.Host` is a
class with these fields:

- the configuration directory (a map from path to bytes);
- the log of requests sent;
- the responses.

Its methods are proved to agree with the pure `Retrieve`/`CacheStep` functions.
The lemmas about cache hits, write order and the second call are proved on
those functions. The extraction loop, the signature-block search, the query
loops and the listing loops are methods with loop invariants. Each is proved
equal to a specification function.

Points where the code's behaviour is easy to misread:

- When a version is requested, the first matching release wins, even when
  several match.
- In the current reader (`src/download_sources/fdroid.rs:338-341`), an app
  whose array of releases has no match ends the whole query, not only that
  app. This happens when no version was requested, for example when no
  release has the architecture.
- A HEAD response without an ETag header ends the run. So does one whose ETag
  is not visible ASCII (`to_str().unwrap()`).
- Extraction skips entries without an enclosed name and does not fail on them.

## Model

| member | source | states |
|---|---|---|
| Bytes.AsciiBytes | src/download_sources/fdroid.rs:111-116 | an ASCII text as bytes keeps its length and every code |
| Bytes.SequenceWidth | src/download_sources/fdroid.rs:524 | the width of a UTF-8 sequence at the head of a byte string is at most 4 and fits the string |
| Bytes.AsciiIsUtf8 | src/download_sources/fdroid.rs:553 | bytes below 0x80 are valid UTF-8 |
| Bytes.VisibleAsciiIsUtf8 | src/download_sources/fdroid.rs:111-116 | an ETag accepted by `to_str` is valid UTF-8 when stored |
| Text.Split | src/main.rs:40-42 | `split` gives at least one part and no part holds the separator |
| Text.JoinSplit | src/download_sources/apkpure.rs:27 | joining the parts of a split with the separator gives back the text |
| Text.SplitJoin | src/download_sources/apkpure.rs:27 | splitting a join of separator-free parts gives back the parts |
| Text.SplitNoSeparator | src/download_sources/apkpure.rs:27 | a text without the separator splits into itself alone |
| Text.FindFrom | src/download_sources/fdroid.rs:48 | the result is the first occurrence of the pattern at or after the start |
| Text.SplitOnce | src/download_sources/fdroid.rs:48 | `split_once` fails exactly when the pattern is absent; otherwise the text is head + pattern + tail, split at the first occurrence |
| Text.TrimStartMatches | src/download_sources/fdroid.rs:597 | the result is the suffix left after every leading copy of the character is removed |
| Text.TrimStart | src/main.rs:41 | removes exactly the leading white space |
| Text.TrimEnd | src/main.rs:41 | removes exactly the trailing white space |
| Text.Trim | src/main.rs:41 | the result is a slice with only white space around it, and it neither starts nor ends with white space |
| Text.AsciiLowercase | src/download_sources/fdroid.rs:43 | lower-cases each ASCII letter and keeps the length |
| Text.LessIrreflexive | src/download_sources/fdroid.rs:460-461 | the string order used by the sort is irreflexive |
| Text.LessTransitive | src/download_sources/fdroid.rs:460-461 | the string order is transitive |
| Text.LessTotal | src/download_sources/fdroid.rs:460-461 | any two distinct strings are ordered |
| Text.Insert | src/download_sources/fdroid.rs:460-461 | inserting into a strictly ascending list keeps it strictly ascending and adds exactly the new element |
| Text.SortedFromSet | src/download_sources/fdroid.rs:460-461 | collecting a set and sorting it gives a strictly ascending list of exactly its elements |
| Text.Reverse | src/download_sources/apkpure.rs:235 | the reversal puts element i at position n-1-i |
| Text.ReverseAscending | src/download_sources/apkpure.rs:233-235 | sorting and then reversing gives a strictly descending list of the same elements |
| Text.Decimal | src/download_sources/fdroid.rs:79 | a hash written in decimal is a non-empty string of digits |
| Text.DecimalRoundTrip | src/download_sources/fdroid.rs:79 | reading the decimal text back gives the number |
| Text.DecimalInjective | src/download_sources/fdroid.rs:79 | distinct hashes give distinct directory names |
| Hex.DigitValue | src/download_sources/fdroid.rs:49 | a hex digit has a value below 16 |
| Hex.Decode | src/download_sources/fdroid.rs:49 | `hex::decode` succeeds exactly on even-length hex text, and its bytes are what the text spells |
| Hex.LowerDigit | src/download_sources/fdroid.rs:49 | each value below 16 has a lower-case digit that decodes to it |
| Hex.Encode | src/download_sources/fdroid.rs:49 | the hex text of bytes (the inverse of `hex::decode`) has two lower-case hex digits per byte |
| Hex.DecodeEncode | src/download_sources/fdroid.rs:49 | decoding the encoding of bytes gives the bytes back |
| Hex.DecodeUnique | src/download_sources/fdroid.rs:376 | a hex text spells at most one byte string |
| Hex.DecodeEmpty | src/download_sources/fdroid.rs:49 | an empty fingerprint decodes to no bytes |
| Json.Lookup | src/download_sources/fdroid.rs:298-306 | member lookup is absent exactly when no member has the key, and otherwise returns a member's value |
| Json.Get | src/download_sources/fdroid.rs:298-306 | `Value::get` answers only on objects, by member lookup |
| Json.GetStr | src/download_sources/fdroid.rs:362 | `as_str` on a member succeeds exactly when the member is a string |
| Json.AsU64 | src/download_sources/fdroid.rs:362 | `as_u64` succeeds exactly on non-negative integers |
| Json.EscapeChar | src/download_sources/apkpure.rs:33 | a character is kept as itself exactly when it needs no escape |
| Json.Quote | src/download_sources/apkpure.rs:37 | a serialized string starts and ends with a quotation mark |
| Json.Serialize | src/download_sources/apkpure.rs:28 | serialization of a value is never empty; a string comes out quoted, an array bracketed and an object braced |
| Json.StrArray | src/download_sources/apkpure.rs:28 | the string array holds the given strings in order |
| Json.UnescapeEscape | src/download_sources/apkpure.rs:33 | unescaping the escaped text gives the text back |
| Json.UnescapeChar | src/download_sources/apkpure.rs:33 | unescaping one escaped character gives that character |
| Json.EscapeCharacters | src/download_sources/apkpure.rs:33 | escaped text has no control characters and contains DEL exactly when the input does |
| FdroidConfig.UseEntry | src/download_sources/fdroid.rs:42-45 | `use_entry` defaults to on, and "0" turns it off |
| FdroidConfig.FalseSpellings | src/download_sources/fdroid.rs:43 | a value lower-cases to "false" exactly when it spells false in any mix of cases |
| FdroidConfig.UseEntryOff | src/download_sources/fdroid.rs:42-45 | `use_entry` is off exactly when it is "0" or false in any case |
| FdroidConfig.VerifyIndex | src/download_sources/fdroid.rs:129-132 | verification is off only when `verify-index` is given |
| FdroidConfig.VerifyIndexCaseSensitive | src/download_sources/fdroid.rs:129-132 | only the exact "false" turns verification off |
| FdroidConfig.RepoConfigOf | src/download_sources/fdroid.rs:39-60 | no `repo` gives the default repository and pin; a given repo is custom; an error arises only from a fingerprint part |
| FdroidConfig.ParseRepoOption | src/download_sources/fdroid.rs:39-60 | the option parsing computes the repository configuration |
| FdroidConfig.SplitAtMarker | src/download_sources/fdroid.rs:46-48 | a repo URL without '?' splits at the fingerprint marker into URL and fingerprint |
| FdroidConfig.RepoWithFingerprint | src/download_sources/fdroid.rs:46-60 | a hex fingerprint becomes the pin of the given URL; non-hex is an error |
| FdroidConfig.EmptyFingerprint | src/download_sources/fdroid.rs:46-60 | an empty fingerprint pins no bytes and is accepted |
| FdroidConfig.RepoWithoutMarker | src/download_sources/fdroid.rs:46-60 | a repo without the marker keeps the default pin |
| FdroidConfig.CacheDir | src/download_sources/fdroid.rs:74-81 | the default repository caches at the top of the config directory; a custom one in a directory named by the decimal hash of its URL |
| FdroidConfig.JarUrl | src/download_sources/fdroid.rs:102-106 | the JAR URL is the repository URL followed by `/entry.jar` exactly in the entry scheme, and by `/index-v1.jar` exactly otherwise |
| FdroidConfig.CacheDirIgnoresFingerprint | src/download_sources/fdroid.rs:46-81 | adding a fingerprint to a repo URL does not change its cache directory |
| FdroidConfig.CacheDirSeparation | src/download_sources/fdroid.rs:74-81 | two repositories share a cache directory only when both are custom and their URLs hash alike |
| FdroidConfig.CacheFilesDistinct | src/download_sources/fdroid.rs:83-88 | the ETag file and the index file never coincide, and each names its scheme |
| Archive.ExtractedNames | src/download_sources/fdroid.rs:695-723 | at most one listed name per archive entry |
| Archive.Extract | src/download_sources/fdroid.rs:695-723 | the extraction loop lists the enclosed file names in order and writes each file, later entries replacing earlier ones |
| Archive.ExtractedNamesAppend | src/download_sources/fdroid.rs:695-723 | the names listed for two runs of entries are the names of each, in order |
| Archive.ExtractedNamesMembership | src/download_sources/fdroid.rs:697-709 | a name is listed exactly when some non-directory entry has it as enclosed name |
| Archive.ListedFilesAreWritten | src/download_sources/fdroid.rs:709-711 | the listed names and the written paths are the same set |
| Archive.ExtractedContents | src/download_sources/fdroid.rs:710-711 | a written file holds the data of the last entry with that name |
| SignedJar.SignatureBlockExamples | src/consts.rs:6 | example: the block pattern accepts `META-INF/CERT.RSA`, `.DSA`, `.EC` and the empty stem |
| SignedJar.NotSignatureBlockExamples | src/consts.rs:6 | example: the pattern rejects the `.SF` file, the manifest, names outside META-INF and names with a line feed |
| SignedJar.LastIndexOf | src/download_sources/fdroid.rs:500-504 | the last occurrence of a character, absent exactly when it does not occur |
| SignedJar.FileNameStart | src/download_sources/fdroid.rs:500-504 | the file name is the part after the last '/' |
| SignedJar.StemEnd | src/download_sources/fdroid.rs:500-504 | the stem ends inside the file name |
| SignedJar.SignedFilePath | src/download_sources/fdroid.rs:500-504 | `set_extension("SF")` keeps the path up to the stem and adds ".SF" |
| SignedJar.SignedFileOfBlock | src/download_sources/fdroid.rs:500-504 | `CERT.RSA` becomes `CERT.SF`; a file name that is only an extension gets ".SF" appended |
| SignedJar.HiddenSignedFileExample | src/fdroid.rs:324-330 | example: `META-INF/.RSA` gives `META-INF/.RSA.SF` |
| SignedJar.Matching | src/download_sources/fdroid.rs:484-499 | the matches are files that satisfy the pattern |
| SignedJar.FindSignatureBlock | src/download_sources/fdroid.rs:484-499 | the search loop computes the signature-block choice |
| SignedJar.NoneMatching | src/download_sources/fdroid.rs:489-495 | no match exactly when no file satisfies the pattern |
| SignedJar.SingleMatching | src/download_sources/fdroid.rs:489-499 | exactly one match n exactly when n is the only file that satisfies the pattern |
| SignedJar.SignatureBlockChoice | src/download_sources/fdroid.rs:484-499 | a block is chosen exactly when it is the only match; "none found" exactly when no file matches |
| SignedJar.CheckSignedData | src/download_sources/fdroid.rs:647-671 | signed data is accepted exactly with one certificate and one signer; each failure has its error |
| DigestChain.LineEnd | src/download_sources/fdroid.rs:528-536 | the first line feed at or after the start, or the end |
| DigestChain.PatternAtCapture | src/download_sources/fdroid.rs:528-536 | the pattern matches at a position with a capture exactly when the prefix occurs there and the capture runs to the CR LF |
| DigestChain.CaptureFrom | src/download_sources/fdroid.rs:533-536 | the search finds the first match at or after the start, or none when there is none |
| DigestChain.Capture | src/download_sources/fdroid.rs:562-569 | `captures` yields the capture of the leftmost match, none exactly when nothing matches |
| DigestChain.CaptureOfLine | src/download_sources/fdroid.rs:562-569 | a record at the first matching position is what the search returns |
| DigestChain.CaptureHasNoLineFeed | src/download_sources/fdroid.rs:528-536 | a captured digest never contains a line feed |
| IndexVerification.ReadFile | src/download_sources/fdroid.rs:524 | reading a scratch file succeeds exactly when it exists, with its contents |
| IndexVerification.RequireUtf8 | src/download_sources/fdroid.rs:524 | `from_utf8` succeeds exactly on valid UTF-8 |
| IndexVerification.CheckTrustOk | src/download_sources/fdroid.rs:508-522 | the trust check passes exactly when the signature verifies and the certificate's SHA-256 equals the pin |
| IndexVerification.CheckDigestOk | src/download_sources/fdroid.rs:527-551 | a digest check passes exactly when the text records the base64 digest of the data after the prefix |
| IndexVerification.JsonFromManifestOk | src/download_sources/fdroid.rs:553-586 | the manifest stage succeeds exactly when the JSON file exists, is UTF-8 and, when verifying, is recorded in the manifest; it returns that file |
| IndexVerification.JsonFromSignedFileOk | src/download_sources/fdroid.rs:524-586 | the signed-file stage succeeds exactly when the manifest exists, is UTF-8, is recorded in the signed file when verifying, and the next stage succeeds |
| IndexVerification.JsonFromBlockOk | src/download_sources/fdroid.rs:500-586 | the stages after the block choice succeed exactly when all checks pass, and return the JSON file |
| IndexVerification.SignedChainOk | src/download_sources/fdroid.rs:524-586 | the chain succeeds exactly when both files exist, are UTF-8 and, when verifying, each digest record matches |
| IndexVerification.VerifiedJsonCharacterized | src/download_sources/fdroid.rs:483-587 | `verify_and_return_json` yields text exactly when there is a single signature block, every check passes, and the text is the JSON file |
| IndexVerification.UnverifiedIgnoresTrust | src/download_sources/fdroid.rs:508 | without verification neither the primitives' verdicts nor the pin matter |
| IndexVerification.VerifiedImpliesUnverified | src/download_sources/fdroid.rs:508 | what passes with verification passes without it, with the same text |
| IndexVerification.VerifiedJsonUtf8 | src/download_sources/fdroid.rs:586 | the returned text is valid UTF-8 |
| IndexVerification.VerifyAndReturnJson | src/download_sources/fdroid.rs:483-587 | the method computes the verified JSON |
| LegacyIndex.VerifyAndReturnIndex | src/fdroid.rs:306-381 | the older method computes the verified index |
| LegacyIndex.LegacyCheckTrustOk | src/fdroid.rs:332-340 | the older trust check passes exactly when the signature verifies and the fingerprint is the built-in one |
| LegacyIndex.LegacyIndexFromBlockOk | src/fdroid.rs:324-380 | the older stages succeed exactly when every check passes, returning `index-v1.json` |
| LegacyIndex.LegacyVerifiedIndexCharacterized | src/fdroid.rs:306-381 | the older reader yields the index exactly when there is a single block and every check passes |
| LegacyIndex.LegacyIsCurrentForced | src/fdroid.rs:306-381 | when the two libraries' signature checks agree and the X.509 digest is the SHA-256 of the DER encoding, the older reader equals the current one with the default pin, verification on and the `index-v1` scheme |
| EntryIndex.EntryFields | src/download_sources/fdroid.rs:591-605 | `entry.json` yields the index name (leading slashes removed) and its digest exactly when both fields are strings |
| EntryIndex.IndexUrl | src/download_sources/fdroid.rs:606 | the index URL is repo + "/" + name |
| EntryIndex.CheckFetchedOk | src/download_sources/fdroid.rs:619-638 | a downloaded index is accepted exactly when it is UTF-8 and, when verifying, its SHA-256 is the recorded one |
| EntryIndex.IndexFromEntryOk | src/download_sources/fdroid.rs:589-645 | the second stage returns data exactly when the entry parses, the download succeeds and the checks pass |
| EntryIndex.IndexFromEntryUtf8 | src/download_sources/fdroid.rs:638 | the second stage returns valid UTF-8 |
| EntryIndex.DownloadBeforeDigest | src/download_sources/fdroid.rs:607-636 | a failed download is reported before any digest check; a bad digest is reported only after a download |
| EntryIndex.UnverifiedIgnoresDigest | src/download_sources/fdroid.rs:619 | without verification the digest is not looked at |
| EntryIndex.LeadingSlashesDropped | src/download_sources/fdroid.rs:597 | any number of leading slashes are removed from the index name |
| Retrieval.StoredEtag | src/download_sources/fdroid.rs:89-99 | no ETag file means none stored; an unreadable one is an error; otherwise its contents |
| Retrieval.HeadEtag | src/download_sources/fdroid.rs:107-116 | the HEAD request yields an ETag exactly when the header is present and visible ASCII |
| Retrieval.CachedIndex | src/download_sources/fdroid.rs:124-126 | the cached index is used exactly when its file exists, is UTF-8 and parses |
| Retrieval.Miss | src/download_sources/fdroid.rs:149-165 | a miss makes no request of its own and writes nothing when verification or parsing fails (write failures are not modelled) |
| Retrieval.Retrieve | src/download_sources/fdroid.rs:31-173 | a bad fingerprint fails before any request; a modelled failure writes nothing |
| Retrieval.LegacyRetrieve | src/fdroid.rs:26-116 | the older retrieval writes nothing when it fails |
| Retrieval.CacheHit | src/download_sources/fdroid.rs:124-126 | an ETag equal to the stored one makes one HEAD request, no download and no write, and returns the cached index |
| Retrieval.StoredOnlyAfterSuccess | src/download_sources/fdroid.rs:149-165 | files are written only after a verified, parsed fresh index, first the index and then the new ETag |
| Retrieval.RequestOrder | src/download_sources/fdroid.rs:107-147 | the HEAD request comes first; downloads follow only on an ETag mismatch |
| Retrieval.FreshIsUtf8 | src/download_sources/fdroid.rs:128-147 | a freshly fetched index is valid UTF-8 in either scheme |
| Retrieval.SecondCallHits | src/download_sources/fdroid.rs:124-165 | after a successful refresh, the next call makes only a HEAD request and returns the same index |
| Retrieval.RetrieveHit | src/download_sources/fdroid.rs:31-126 | a whole retrieval with a matching ETag returns the cached index after one HEAD request |
| Retrieval.RetrieveTwice | src/download_sources/fdroid.rs:31-173 | two retrievals against an unchanged remote: the second makes one HEAD request, no download and no write, and returns the same index |
| Retrieval.LegacyRetrieveTwice | src/fdroid.rs:26-116 | the same for the older retrieval |
| Retrieval.Host.ReadFile | src/download_sources/fdroid.rs:182-187 | reading a file gives its contents, absent exactly when missing |
| Retrieval.Host.SendHead | src/download_sources/fdroid.rs:107-109 | a HEAD request is logged and answered, and the files are unchanged |
| Retrieval.Host.Download | src/download_sources/fdroid.rs:683 | a download is logged and answered, and the files are unchanged |
| Retrieval.Host.Write | src/download_sources/fdroid.rs:149-165 | a write changes exactly that file |
| Retrieval.RetrieveIndexOrExit | src/download_sources/fdroid.rs:31-173 | the method's result, requests and writes are those of `Retrieve` |
| Retrieval.LegacyRetrieveIndexOrExit | src/fdroid.rs:26-116 | the older method's result, requests and writes are those of `LegacyRetrieve` |
| Retrieval.CachedOrFresh | src/download_sources/fdroid.rs:89-165 | the cache step performed on the host is the one that `CacheStep` specifies |
| Retrieval.FetchFreshIndex | src/download_sources/fdroid.rs:128-147 | fetching afresh makes the requests of `FreshIndex` and writes nothing |
| Retrieval.FetchIndexFromEntry | src/download_sources/fdroid.rs:589-645 | the second stage makes one download when the entry names an index and writes nothing |
| Retrieval.Store | src/download_sources/fdroid.rs:149-165 | storing writes exactly what `Miss` specifies and sends nothing |
| PackageQuery.IndexParts | src/download_sources/fdroid.rs:298-306 | the index yields the repository address and the packages object exactly when both are present |
| PackageQuery.FirstPick | src/download_sources/fdroid.rs:311-337 | the first release that the test accepts, none exactly when none is accepted |
| PackageQuery.ArrayRelease | src/download_sources/fdroid.rs:311-337 | an array release is taken exactly when its version name is given and matches, it names a file, has a hex hash and, when asked, the architecture |
| PackageQuery.ReleaseFile | src/download_sources/fdroid.rs:348-359 | a version object yields a file exactly when `manifest` and `file` are objects and `file` has string `name` and `sha256`; the result is those two strings |
| PackageQuery.NamedRelease | src/download_sources/fdroid.rs:348-359 | a version object is taken for a version exactly when its manifest names it, with a file and a hex hash |
| PackageQuery.Candidate | src/download_sources/fdroid.rs:361-369 | a version object is a candidate for the latest only with its file and hash |
| PackageQuery.QueryReleases | src/download_sources/fdroid.rs:343-381 | the loop over version objects computes the object-shape resolution |
| PackageQuery.QueryReleasesMissing | src/download_sources/fdroid.rs:348-359 | no version object names the version, so nothing is found |
| PackageQuery.QueryReleasesFound | src/download_sources/fdroid.rs:348-359 | the first version object naming the version is the one found |
| PackageQuery.ResolveOne | src/download_sources/fdroid.rs:308-382 | the per-app method computes the resolution |
| PackageQuery.ResolveObject | src/download_sources/fdroid.rs:343-381 | the object-shape method computes its resolution |
| PackageQuery.ParseForDownload | src/download_sources/fdroid.rs:297-388 | the method computes `parse_json_for_download_information` |
| PackageQuery.ResolveAllErrSticky | src/download_sources/fdroid.rs:340 | once an app aborts the query, later apps change nothing |
| PackageQuery.BestIsMaximum | src/download_sources/fdroid.rs:361-369 | the latest has the highest version code among the candidates |
| PackageQuery.BestIsEarliest | src/download_sources/fdroid.rs:361-369 | ties go to the first candidate with the highest code |
| PackageQuery.ScanIsMaximum | src/download_sources/fdroid.rs:361-369 | over a versions object, the latest has the highest code |
| PackageQuery.ScanIsEarliest | src/download_sources/fdroid.rs:361-369 | over a versions object, the latest is the first with that code |
| PackageQuery.ScanStaysEmpty | src/download_sources/fdroid.rs:361-369 | when no candidate has a positive code, the scan keeps its empty start |
| PackageQuery.NoCodeGivesEmptyName | src/download_sources/fdroid.rs:375-379 | without positive codes the app resolves to the empty file name and hash |
| PackageQuery.EmptyScanFound | src/download_sources/fdroid.rs:375-379 | an empty scan is reported as found, with the empty name |
| PackageQuery.ObjectShapeIgnoresArch | src/download_sources/fdroid.rs:343-381 | the object shape ignores the architecture |
| PackageQuery.PanicExactly | src/download_sources/fdroid.rs:338-341 | the query aborts for an app exactly when no version was requested, its package is an array, and no release passes |
| PackageQuery.ArrayVersionIsFirstMatch | src/download_sources/fdroid.rs:311-337 | the release found for a version is the first that passes and names that version |
| PackageQuery.ResolveAllOkPrefix | src/download_sources/fdroid.rs:308-387 | a query that succeeds succeeds on every prefix, and its last app did not abort |
| PackageQuery.ResolveAllAppend | src/download_sources/fdroid.rs:308-387 | downloads of two successful runs of apps are concatenated |
| PackageQuery.DownloadsAreRequested | src/download_sources/fdroid.rs:308-387 | every download answers a requested app and is its resolution; no app aborted |
| PackageQuery.RequestedAreDownloaded | src/download_sources/fdroid.rs:308-387 | every requested app that resolves has its download, under its own id and version, in the result |
| PackageQuery.CollectArrayNames | src/download_sources/fdroid.rs:424-432 | the loop collects the version names of an array of releases |
| PackageQuery.CollectObjectNames | src/download_sources/fdroid.rs:433-445 | the loop collects the version names of a versions object |
| PackageQuery.DisplayVersions | src/download_sources/fdroid.rs:405-481 | listing fails exactly without a packages object; otherwise each app gets its sorted names, or a note that it is missing |
| PackageQuery.AscendingUnique | src/download_sources/fdroid.rs:460-461 | two strictly ascending lists with the same elements are equal, so the listing is determined by the names |
| LegacyQuery.FirstRelease | src/fdroid.rs:212-225 | without a version, the first release is taken exactly when it has a file name and a hex hash |
| LegacyQuery.VersionRelease | src/fdroid.rs:226-249 | for a version, a release is taken exactly when it names that version and otherwise qualifies |
| LegacyQuery.ResolveAllNoPanic | src/fdroid.rs:195-259 | a resolver that never aborts gives a list of downloads |
| LegacyQuery.LegacyFailsOnlyOnIndex | src/fdroid.rs:195-259 | the older query fails exactly when the index is malformed |
| LegacyQuery.OnlyFirstReleaseCounts | src/fdroid.rs:212-225 | without a version, releases after the first change nothing |
| LegacyQuery.FirstPickSame | src/fdroid.rs:226-249 | two tests that agree on every release pick the same one |
| LegacyQuery.VersionQueryAgrees | src/fdroid.rs:226-249 | for a version, the older and the current reader agree on arrays |
| LegacyQuery.LegacyDisplayVersions | src/fdroid.rs:268-304 | the older listing fails exactly without a packages object; arrays get sorted names, other packages only a heading |
| FdroidDownload.DownloadApp | src/download_sources/fdroid.rs:235-281 | a download is saved exactly when the fetch succeeds, under the app-string name, and reports a match exactly when the SHA-256 equals the expected hash |
| FdroidDownload.DownloadApps | src/download_sources/fdroid.rs:208-289 | each requested download is performed independently, in order |
| FdroidDownload.DownloadsIndependent | src/download_sources/fdroid.rs:208-289 | downloading two lists is downloading each |
| FdroidDownload.EmptyNameFetchesRoot | src/download_sources/fdroid.rs:239 | the empty resolution fetches the repository root and always warns |
| AppNaming.Parts | src/download_sources/fdroid.rs:217-234 | the parts of an app string start with the app id |
| AppNaming.AppString | src/download_sources/fdroid.rs:217-234 | the app string starts with the id, and equals it exactly without version and architecture |
| AppNaming.ApkName | src/download_sources/fdroid.rs:235 | the file name is the app string plus ".apk" |
| AppNaming.AppStringIsJoin | src/download_sources/apkpure.rs:75-92 | the app string joins id, version and architecture with '@' |
| AppNaming.AppStringSplits | src/download_sources/apkpure.rs:75-92 | splitting an app string of '@'-free parts at '@' gives those parts |
| AppNaming.AppStringInjective | src/download_sources/apkpure.rs:75-92 | '@'-free requests with equal app strings have equal parts |
| AppNaming.VersionAndArchCollide | src/download_sources/fdroid.rs:217-235 | example: a version alone and an architecture alone with the same text give the same file name |
| AppList.LineEntries | src/main.rs:40-57 | each line yields its own entry, in order |
| AppList.PresentAppend | src/main.rs:40-57 | the collected ids of two runs are concatenated |
| AppList.PresentMembers | src/main.rs:40-57 | an id is collected exactly when some position holds it |
| AppList.EntriesAppend | src/main.rs:40-57 | the ids of two runs of lines are the ids of each, in order |
| AppList.EntriesMembers | src/main.rs:40-57 | an id is listed exactly when some line yields it |
| AppList.FirstFieldOfLine | src/main.rs:41-45 | a listed id is the text of the trimmed line before its first comma |
| AppList.IsdiNarrowsAndroidRank | src/main.rs:46-52 | ISDi lists a line exactly when AndroidRank would and the second field is "playstore" |
| AppList.PaddedPlaystoreRejected | src/main.rs:46-52 | example: a second field " playstore" is not accepted by ISDi but the line is by AndroidRank |
| AppList.FailedRequestIsError | src/main.rs:31-38 | a failed request is an error, not an empty list |
| AppList.RunStart | src/main.rs:161-164 | the maximal run of size characters before a position |
| AppList.StripSizeSuffix | src/main.rs:161-164 | stripping gives a prefix of the name |
| AppList.StripRemovesSuffix | src/main.rs:161-164 | a size suffix is removed whatever precedes it |
| AppList.StripRemovesOnlySuffix | src/main.rs:161-164 | what is removed is a size suffix |
| AppList.StripOnlySuffix | src/main.rs:161-164 | the name changes exactly when it ends in a size suffix, and then exactly that suffix goes |
| Apkpure.Archs | src/download_sources/apkpure.rs:25-31 | the architectures list is never empty |
| Apkpure.HttpHeaders | src/download_sources/apkpure.rs:18-53 | the user agent and business id are always sent; the device header, with the text as the format string writes it, exactly when that text is a valid header value |
| Apkpure.DeviceHeaderSent | src/download_sources/apkpure.rs:41-52 | the device header is sent exactly when none of `arch`, `language` and `os_ver` contains DEL |
| Apkpure.DefaultAbisIsJson | src/download_sources/apkpure.rs:30 | the default abis text is the JSON array of the five default architectures |
| Apkpure.DefaultsAreQuoted | src/download_sources/apkpure.rs:34-38 | the default language and OS version are JSON strings |
| Apkpure.AbisIsJson | src/download_sources/apkpure.rs:25-29 | the abis text is the JSON array of the requested architectures |
| Apkpure.DeviceInfoIsJson | src/download_sources/apkpure.rs:40 | the corrected device-info text (two closing braces) is the JSON serialization of the device object |
| Apkpure.DeviceInfoAsWrittenIsNotJson | src/download_sources/apkpure.rs:40 | the device-info text the program sends is not the JSON of the device object, and adding one `}` makes it so |
| Apkpure.AsWrittenSameHeaderDecision | src/download_sources/apkpure.rs:41 | the missing brace does not change whether the header is sent |
| Apkpure.VersionsUrl | src/download_sources/apkpure.rs:96 | the versions URL is the format's prefix followed by the app id |
| Apkpure.VersionTest | src/download_sources/apkpure.rs:122 | a version passes exactly when none is wanted or its name is the wanted one; it aborts exactly when a version is wanted and the name is not a string |
| Apkpure.DownloadFromResponse | src/download_sources/apkpure.rs:109-145 | the method computes the choice of the asset to download |
| Apkpure.PickedIsFirstMatch | src/download_sources/apkpure.rs:119-136 | the asset picked is from the first version that passes and has one |
| Apkpure.AbortsIsFirstBadName | src/download_sources/apkpure.rs:122 | the scan aborts exactly at a version with a non-string name before any pick, and only when a version is wanted |
| Apkpure.ExhaustedPassesAll | src/download_sources/apkpure.rs:143-145 | the scan finds nothing exactly when every version passes without an asset |
| Apkpure.XapkExactly | src/download_sources/apkpure.rs:128-132 | the file is named the app string plus ".xapk" exactly for XAPK assets, ".apk" otherwise |
| Apkpure.ChoiceOk | src/download_sources/apkpure.rs:119-145 | a download is chosen exactly when status 200 and a body give a picked asset with a non-empty URL, named by its kind |
| Apkpure.ResponseErrors | src/download_sources/apkpure.rs:139-141 | a non-200 status and an unreadable body each have their own error |
| Apkpure.NoAbortWithoutVersion | src/download_sources/apkpure.rs:122 | without a requested version the choice never aborts |
| Apkpure.OutcomePerApp | src/download_sources/apkpure.rs:67-106 | an app's outcome depends only on the response to its own URL |
| Apkpure.ListVersions | src/download_sources/apkpure.rs:219-235 | listing fails exactly on a non-200 status or an unreadable body; otherwise the names are strictly descending and are exactly the listed ones |

## Left out

- Networking is modelled as response functions, and a request log is kept where
  the order of requests matters. Left out:
  - The HTTP client and TLS.
  - The retries of `AsyncDownload` and its "Invalid response" message.
  - The panics of `send().await.unwrap()` in the APKPure requests
    (`src/download_sources/apkpure.rs:100`, `:217`). The F-Droid HEAD request's
    panic is modelled as `HeadFailed`.
  - Timeouts.
- The filesystem outside the configuration directory is not modelled: temporary
  directories, config-directory creation, file permissions, `fs::rename` and
  output paths. The scratch directory is a map from path to bytes.
- Progress bars, printing, `print_error` and the JSON output of the listing
  commands are not modelled. The listing is modelled as the sorted names it
  prints.
- Concurrency is not modelled: `buffer_unordered`, `Rc`, async tasks. Each app
  is independent, and the model handles them in order.
- Cryptography, base64, CMS and X.509 parsing, serde JSON parsing, unzip and
  `DefaultHasher` are parameters (`Platform.Primitives`). Their own
  correctness is assumed of the library.
- JSON objects are sequences of members, so serde's map order is not captured.
- Header values are checked on characters rather than on bytes. A non-ASCII
  character is taken as allowed, as it is for the bytes UTF-8 gives it.
- The Google Play and Huawei AppGallery sources and the webdriver flow of
  `src/main.rs` are not part of this model. Only its file-name clean-up is.
- The older `download_apps` in `src/fdroid.rs` is not modelled on its own. It
  does what `FdroidDownload.DownloadApps` does with no architecture.
- The default repository comes in as the `defaultRepo` parameter. `crate::config`
  is not part of this model.
- Apkpure.DownloadFromResponse: a panic inside an APKPure task
  (`as_str().unwrap()`) ends the whole program. The model records it as
  `Aborted` for that app and stops before the download.
- Apkpure.ListVersions: the listing as printed, in plain or JSON form, is not
  modelled. Only the sorted names are.
- FdroidDownload.DownloadApp: the hash comparison warns and keeps the file. It
  is modelled as a `Mismatched` report, not as a log line.
- Archive.Extract: the scratch directory is keyed by the enclosed name as
  written, while the program writes at `dir.path().join(name)`, which the
  filesystem resolves. Not captured: names such as `x/../META-INF/MANIFEST.MF`,
  `META-INF/./MANIFEST.MF` or `META-INF//MANIFEST.MF` land on
  `META-INF/MANIFEST.MF` and replace it; an entry named like the downloaded
  JAR overwrites it; a file/directory clash (`a`, then `a/b`) and a failure of
  `create_dir_all`, `File::create`, `io::copy` or `set_permissions` end the
  program, where the model carries on.
- Retrieval.Host.Write: writes to the configuration directory cannot fail in
  the model. The program exits when `fs::write` fails
  (`src/download_sources/fdroid.rs:151-158`, `src/fdroid.rs:94-101`): a failed
  index write exits with nothing written, while a failed ETag write exits with
  the new index already in place beside the old ETag file, or none.
- Retrieval.Retrieve: exiting the process is modelled as an error outcome that
  writes nothing. The exit code is not modelled.

## Findings

| source | as written | input that shows it | evidently intended | confidence | as-written member | corrected member |
|---|---|---|---|---|---|---|
| src/download_sources/apkpure.rs:40 | the format string `{{"device_info":{{"abis":{},"language":{},"os_ver":{}}}` gives `{"device_info":{...}` with one closing brace for two opened objects | any options, e.g. none: the text is `{"device_info":{"abis":[...],"language":"en-US","os_ver":"35"}` | two closing braces, so the header is the JSON device object | not executed | Apkpure.DeviceInfoAsWritten (shown by Apkpure.DeviceInfoAsWrittenIsNotJson) | Apkpure.DeviceInfo (proved by Apkpure.DeviceInfoIsJson) |
