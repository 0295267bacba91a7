# Ultra Fast Duplicate Files Finder, modelled in Dafny

This is a model of the core of `UltraFastDuplicateFilesFinder.py`. The script reads a list of paths. It buckets the paths by an MD5 signature of their contents. It prints each bucket of two or more files as a duplicate group: the first path is the reference, and every other member is marked `' '` (full match) or `'!'` (partial match only). It ends with a summary line giving the number of files, the total size, the number of duplicate groups and the size of the duplicates.

Modules (one per piece of the script):

- `Signature` (`signature.dfy`) models `get_file_hash`. A file is a byte sequence and the file system is a `map<string, seq<byte>>`; a path missing from the map cannot be opened. MD5's hexdigest is a function parameter `H: seq<byte> -> string`, and the incremental hasher is the sequence of bytes fed to it. `f.read(n)` follows Python 2: a negative `n` reads to end of file, otherwise it reads at most `n` bytes. The chunked whole-file loop is a `while` loop with invariants.
- `Grouping` (`grouping.dfy`) models `check_file` and the collection loop. `hashlist` is a `map<string, seq<string>>` and `hashcount` a `map<string, nat>`, and the loop is a fold over the input `seq<string>`. The bucketing signature is a parameter `sig`.
- `Report` (`report.dfy`) models the report loop as a fold over an iteration order `order` of the bucket keys. It produces group records and the totals `dupfiles` and `dupsize`. The signature recomputed for the `' '`/`'!'` verdict is a parameter `verify`.
- `Sums` (`sums.dfy`) holds sums over the paths and over the values of a map. The map sums do not depend on which order the keys are visited in.
- `Humanize` (`humanize.dfy`) models the choice of unit in `humanize_size`. Every limit is a power of two, so `float(size) / limit > 0.5` is exactly `2 * size > limit`.
- `Finder` (`finder.dfy`) models the whole script. `Run` is the script as written: it buckets and verifies with the whole-file signature. `RunFast` buckets by the first `CHUNK_SIZE` bytes instead (see Findings).

Where the script's own documentation and its code disagree, the model follows the code. The docstring (line 21) says the script compares only the very beginning of the files, and the comment on `CHUNK_SIZE` (line 34) says one `CHUNK_SIZE` read checks duplicates. But line 81 calls `get_file_hash(filename)` with no `limit_size`. So the script as written buckets by the whole-file digest, and `CHUNK_SIZE` (line 35) is never used.

## Model

| member | source | states |
|---|---|---|
| `Signature.Read` | UltraFastDuplicateFilesFinder.py:58-64 | Python 2 `f.read(n)` from read position `pos`: the chunk is the file's next bytes. A negative `n` reads to the end of the file; otherwise it reads `min(n, remaining)` bytes. The chunk is empty exactly when `n` is 0 or the file is exhausted. |
| `Signature.GetFileHash` | UltraFastDuplicateFilesFinder.py:41-68 | The chunked loop hashes exactly the file's bytes. It returns `'NONE'` when the file cannot be opened. A truthy positive `limit_size` hashes `content[..min(limit, len)]`, and a truthy negative one reads the whole file. A falsy `limit_size` with a non-zero buffer hashes the whole file for any buffer size. A zero buffer hashes nothing. |
| `Signature.FastMatchesWholeOnSmallFiles` | UltraFastDuplicateFilesFinder.py:56-65 | A file no longer than `CHUNK_SIZE` gets the same prefix and whole-file signature. |
| `Signature.FastDependsOnPrefixOnly` | UltraFastDuplicateFilesFinder.py:56-59 | The prefix signature depends only on the first `min(CHUNK_SIZE, len)` bytes. |
| `Signature.EmptyFileSignatures` | UltraFastDuplicateFilesFinder.py:56-65 | An empty file does not fail. Both signatures are the digest of no bytes. |
| `Signature.UnopenableIsSentinel` | UltraFastDuplicateFilesFinder.py:48-51 | In every mode, a path that cannot be opened gets `'NONE'`. |
| `Signature.FalsyLimitHashesWholeFile` | UltraFastDuplicateFilesFinder.py:56-65 | `limit_size` of `None` or `0` takes the whole-file branch. |
| `Grouping.CheckFileSpec` | UltraFastDuplicateFilesFinder.py:76-90 | `check_file` puts the path at the end of its own bucket, after that bucket's earlier members in their order. That bucket's count goes up by one. No other bucket or count changes. The counts stay equal to the bucket lengths. |
| `Grouping.Collect` | UltraFastDuplicateFilesFinder.py:110-115 | After the collection loop `totalfiles` is the number of input paths and `totalsize` is the sum of their sizes. |
| `Grouping.CollectInStep` | UltraFastDuplicateFilesFinder.py:83-90 | After the collection loop `hashlist` and `hashcount` have the same keys, and each count is the length of its non-empty bucket. |
| `Grouping.CollectIsMatching` | UltraFastDuplicateFilesFinder.py:110-113 | Each bucket is exactly the input paths with its signature, in input order. The keys are exactly the signatures that occur. |
| `Grouping.InOwnBucket` | UltraFastDuplicateFilesFinder.py:83-90 | Every input occurrence is in the bucket of its own signature. |
| `Grouping.OnlyOwnSignature` | UltraFastDuplicateFilesFinder.py:81-90 | A bucket holds only paths whose signature is its key. |
| `Grouping.CollectPartitions` | UltraFastDuplicateFilesFinder.py:110-115 | Each occurrence lies in exactly one bucket, repeats included. The bucket lengths add up to `totalfiles`. The bucket sizes add up to `totalsize`. |
| `Grouping.BucketTotals` | UltraFastDuplicateFilesFinder.py:113-115 | The sum of bucket lengths is `totalfiles`. The sum of bucket sizes is `totalsize`. |
| `Grouping.ReferenceIsFirstSeen` | UltraFastDuplicateFilesFinder.py:88-90 | A bucket is never empty, and its first member, `f[0]`, is the first input path with that signature. |
| `Report.MemberLines` | UltraFastDuplicateFilesFinder.py:131-143 | There is one line per member of `f[1:]`, in order, with its size. The line is `'!'` exactly when its recomputed signature differs from the reference's. The sizes on the lines add up to the size of `f[1:]`. |
| `Report.ReportGroup` | UltraFastDuplicateFilesFinder.py:125-143 | The reference is `f[0]` with its size, and the member lines describe `f[1:]`. |
| `Report.ReportLoop` | UltraFastDuplicateFilesFinder.py:120-145 | There is one group per key with `hashcount >= 2`, in iteration order, and singletons are skipped. `dupfiles` is the number of groups. `dupsize` is the sum of the sizes on the member lines. |
| `Report.ReportTotals` | UltraFastDuplicateFilesFinder.py:120-144 | For any iteration order, `dupfiles` is the number of buckets with two or more members. `dupsize` is the sum, over those buckets, of the sizes of `f[1:]`, whatever their status. |
| `Report.ReportedInMembers` | UltraFastDuplicateFilesFinder.py:120-123 | A key is reported exactly when it is visited and its count is at least 2. |
| `Report.NoPartialWhenSignaturesAgree` | UltraFastDuplicateFilesFinder.py:134-140 | When each bucket's key is the recomputed signature of all its members, no member is marked `'!'`. |
| `Report.ReportedInCount` | UltraFastDuplicateFilesFinder.py:120-124 | Along an order with no repeats, the number of reported keys equals the number of keys with count at least 2. |
| `Humanize.FirstUnit` | UltraFastDuplicateFilesFinder.py:103-106 | The loop returns the suffix of the first limit whose half is exceeded. It returns nothing when no limit qualifies. |
| `Humanize.HumanizeUnit` | UltraFastDuplicateFilesFinder.py:99-106 | The unit is GiB when `2*size > 1024^3`, otherwise MiB when `2*size > 1024^2`, otherwise KiB when `2*size > 1024`. There is no unit when `size <= 512`. |
| `Humanize.HumanizeUnitIsLargest` | UltraFastDuplicateFilesFinder.py:103-106 | The chosen unit is the largest one whose half the size exceeds. |
| `Humanize.HumanizeUnitMonotone` | UltraFastDuplicateFilesFinder.py:103-106 | A larger size never gets a smaller unit. |
| `Finder.ExecuteTotals` | UltraFastDuplicateFilesFinder.py:110-149 | The summary line: `totalfiles` and `totalsize` as collected, `dupfiles` and `dupsize` computed without regard to order, `dupsize <= totalsize`, and both sizes humanized. |
| `Finder.NoPartialMatch` | UltraFastDuplicateFilesFinder.py:127-140 | As written, while no file changes between the two passes, every member of every group is `' '`, so the `'!'` branch cannot be reached. |
| `Finder.UnopenableShareBucket` | UltraFastDuplicateFilesFinder.py:81-90 | All unopenable paths land in the `'NONE'` bucket. If no digest is `'NONE'`, that bucket holds nothing else. |
| `Finder.TwoCopiesAndAnother` | UltraFastDuplicateFilesFinder.py:110-144 | Input: two copies and one different file. Output: 3 files, exactly one group, the first copy as reference and the second marked `' '`. |
| `Finder.WholeSigSplitsPrefixTwins` | UltraFastDuplicateFilesFinder.py:81 | As written, two files that share their first 1024 bytes but differ later land in two separate one-file buckets. |
| `Finder.WholeSigReportsNeither` | UltraFastDuplicateFilesFinder.py:120-123 | As written, the script run on those two files prints no group at all. |
| `Finder.FastSigFlagsPrefixTwins` | UltraFastDuplicateFilesFinder.py:81 | When bucketing by the first `CHUNK_SIZE` bytes, the same two files form one group. The second file is marked `'!'`. |
| `Finder.FastSigGroupsEqualPrefixes` | UltraFastDuplicateFilesFinder.py:81-90 | When bucketing by the first `CHUNK_SIZE` bytes, inputs with equal prefixes share a bucket. |

## Left out

- Reading paths from standard input and stripping each line (lines 110-111): this is stream I/O. The input is a given `seq<string>`.
- `os.path.getsize` (lines 115, 126, 133): this is an operating-system call. It is modelled as a total function `size: string -> nat`, the same at every call. Its unguarded failure, which aborts the run, is not modelled. In the script a path that does not exist gets `'NONE'` at line 81, and then `getsize` at line 115 aborts the run. So the only paths that reach the `'NONE'` bucket and survive are existing files that cannot be opened, such as directories and unreadable files. The model's file system has no such entries: every path missing from the map is unopenable and still has a size.
- MD5 (`hashlib.md5`, line 54): this is a foreign library. It is the function parameter `H`. Hex rendering is part of `H`.
- Opening and closing real files (lines 49, 67): the file system is a map. Only the open can fail. Read errors part-way through a file are not modelled.
- Files that change between the collection pass and the report pass are not modelled. `Run` uses one file system for both passes. The `Report` lemmas take the recomputed signature `verify` as a separate parameter, so they also cover a changed file system.
- `print` formatting and column widths (lines 118, 128, 142, 145, 148-149): this is presentation. The model keeps the content of each line (size, status, path) and of the summary.
- `Humanize.HumanizeUnit`: states only the unit, not the `%.2f` value printed with it, because that is floating-point rendering.
- The iteration order of `hashlist.iteritems()` (line 120) is unspecified. The report loop takes any repeat-free enumeration of the keys, and the totals are proved to be the same for every enumeration.
- `limit_size` values that are not integers, and the Python 2 `file()` builtin itself, are outside the model.

## Findings

| source | as written | input that shows it | evidently intended | confidence | as-written member | corrected member |
|---|---|---|---|---|---|---|
| UltraFastDuplicateFilesFinder.py:81 | `get_file_hash(filename)` is called without `limit_size`, so files are bucketed by the whole-file digest. `CHUNK_SIZE` (line 35) is never used, and, while no file changes between the two passes, the `'!'` "partial match only!" branch (lines 138-140) cannot be reached. | Two files that agree on bytes 0-1023 and differ at byte 1024. As written they are not reported together at all. | `get_file_hash(filename, CHUNK_SIZE)`, as the docstring ("compares only the very beginning of the files") and the comment on `CHUNK_SIZE` say. Files with a common prefix are then grouped, and a mismatch is flagged `'!'`. | high (not executed) | `Finder.WholeSigSplitsPrefixTwins` | `Finder.FastSigFlagsPrefixTwins` |

`Finder.WholeSigReportsNeither` carries the as-written half through to the report: no group is printed. `Finder.NoPartialMatch` is its general form: every member of every group is `' '`. `Finder.RunFast` is the corrected script. It shares the collection loop and the report loop with `Run`, and differs only in the bucketing signature.
