/**
  The signature engine: `get_file_hash`, the MD5 digest of a file or of a
  prefix of it.

  A file is a byte sequence, the file system a map from path to contents
  (a path that is absent cannot be opened), and MD5's hexdigest a function
  `H` from byte sequences to strings that is passed in. The incremental
  hasher is modelled by the bytes it has been fed so far.
 */
module Signature {
  import opened Wrappers

  newtype byte = x: int | 0 <= x < 256

  type FileSystem = map<string, seq<byte>>

  /** The digest of everything fed to a hasher (MD5 hexdigest). */
  type Digest = seq<byte> -> string

  /** Number of bytes hashed by the prefix signature. */
  const CHUNK_SIZE: int := 1024

  /** Read size of the whole-file loop, the default `buffer_size`. */
  const BUFFER_SIZE: int := 64 * 1024

  /** Returned instead of a digest when the file cannot be opened. */
  const NONE: string := "NONE"

  /** The smaller of two counts, as in "at most `n` bytes, or what is left". */
  function Min(a: int, b: int): int
  {
    if a <= b then a else b
  }

  /** Python truthiness of the `limit_size` argument: `None` and `0` are false. */
  predicate Truthy(limit: Option<int>)
  {
    limit.Some? && limit.value != 0
  }

  /**
    `f.read(n)` on a file whose read position is `pos`: a negative `n` reads
    to the end of the file, otherwise at most `n` bytes are read.
   */
  function Read(content: seq<byte>, pos: nat, n: int): (chunk: seq<byte>)
    requires pos <= |content|
    ensures pos + |chunk| <= |content|
    ensures chunk == content[pos..pos + |chunk|]
    ensures |chunk| == 0 <==> n == 0 || pos == |content|
    ensures n < 0 ==> pos + |chunk| == |content|
    ensures 0 <= n ==> |chunk| == Min(n, |content| - pos)
  {
    if n < 0 || |content| - pos <= n then content[pos..] else content[pos..pos + n]
  }

  /** An incremental hasher, known by the bytes fed to it in order. */
  datatype Hasher = Hasher(fed: seq<byte>)
  {
    function Update(chunk: seq<byte>): Hasher
    {
      Hasher(fed + chunk)
    }

    function HexDigest(H: Digest): string
    {
      H(fed)
    }
  }

  /**
    The bytes of an opened file that `get_file_hash` hashes: the prefix read
    by a single `read(limit_size)` when `limit_size` is truthy; otherwise the
    whole file, except that a zero `buffer_size` makes the first read empty
    and ends the loop at once.
   */
  function HashedBytes(content: seq<byte>, limit: Option<int>, bufferSize: int): seq<byte>
  {
    if Truthy(limit) then Read(content, 0, limit.value)
    else if bufferSize == 0 then []
    else content
  }

  /** What `get_file_hash(filename, limit_size, buffer_size)` returns. */
  function FileSignature(fs: FileSystem, H: Digest, filename: string, limit: Option<int>, bufferSize: int): string
  {
    if filename in fs then H(HashedBytes(fs[filename], limit, bufferSize)) else NONE
  }

  /** The signature used when grouping: the whole file, default buffer. */
  function WholeSig(fs: FileSystem, H: Digest): string -> string
  {
    p => FileSignature(fs, H, p, None, BUFFER_SIZE)
  }

  /** The prefix signature over the first `CHUNK_SIZE` bytes. */
  function FastSig(fs: FileSystem, H: Digest): string -> string
  {
    p => FileSignature(fs, H, p, Some(CHUNK_SIZE), BUFFER_SIZE)
  }

  /**
    `get_file_hash` with its chunked whole-file loop. The loop feeds the
    hasher chunk after chunk until a read comes back empty; the bytes fed are
    always exactly the file's bytes read so far, so the digest is that of the
    whole file for every non-zero buffer size.
   */
  method GetFileHash(fs: FileSystem, H: Digest, filename: string, limit: Option<int>, bufferSize: int)
    returns (digest: string)
    ensures filename !in fs ==> digest == NONE
    ensures filename in fs && Truthy(limit) && limit.value > 0 ==>
              digest == H(fs[filename][..Min(limit.value, |fs[filename]|)])
    ensures filename in fs && Truthy(limit) && limit.value < 0 ==> digest == H(fs[filename])
    ensures filename in fs && !Truthy(limit) && bufferSize != 0 ==> digest == H(fs[filename])
    ensures filename in fs && !Truthy(limit) && bufferSize == 0 ==> digest == H([])
    ensures digest == FileSignature(fs, H, filename, limit, bufferSize)
  {
    if filename !in fs {
      return NONE;
    }
    var content := fs[filename];
    var hasher := Hasher([]);
    if Truthy(limit) {
      var chunk := Read(content, 0, limit.value);
      hasher := hasher.Update(chunk);
      assert hasher.fed == chunk == content[..|chunk|];
      assert limit.value < 0 ==> content[..|chunk|] == content;
    } else {
      var pos := 0;
      var more := true;  // the truth value of the last chunk read
      while more
        invariant pos <= |content|
        invariant hasher.fed == content[..pos]
        invariant bufferSize == 0 ==> pos == 0
        invariant !more ==> bufferSize == 0 || pos == |content|
        decreases |content| - pos, more
      {
        var chunk := Read(content, pos, bufferSize);
        assert content[..pos] + chunk == content[..pos + |chunk|];
        hasher := hasher.Update(chunk);
        pos := pos + |chunk|;
        more := |chunk| > 0;
      }
      assert bufferSize != 0 ==> content[..pos] == content;
    }
    digest := hasher.HexDigest(H);
  }

  /** A file no longer than the prefix has the same prefix and whole-file signature. */
  lemma {:induction false} FastMatchesWholeOnSmallFiles(fs: FileSystem, H: Digest, p: string)
    requires p in fs ==> |fs[p]| <= CHUNK_SIZE
    ensures FastSig(fs, H)(p) == WholeSig(fs, H)(p)
  {
    if p in fs {
      assert fs[p][..|fs[p]|] == fs[p];
    }
  }

  /** The prefix signature depends only on the first `CHUNK_SIZE` bytes. */
  lemma {:induction false} FastDependsOnPrefixOnly(fs1: FileSystem, fs2: FileSystem, H: Digest, p: string)
    requires p in fs1 && p in fs2
    requires fs1[p][..Min(CHUNK_SIZE, |fs1[p]|)] == fs2[p][..Min(CHUNK_SIZE, |fs2[p]|)]
    ensures FastSig(fs1, H)(p) == FastSig(fs2, H)(p)
  {
  }

  /** An empty file is hashed, not rejected: both signatures are the digest of no bytes. */
  lemma {:induction false} EmptyFileSignatures(fs: FileSystem, H: Digest, p: string)
    requires p in fs && fs[p] == []
    ensures FastSig(fs, H)(p) == H([])
    ensures WholeSig(fs, H)(p) == H([])
  {
  }

  /** Every path that cannot be opened has the sentinel signature, in either mode. */
  lemma {:induction false} UnopenableIsSentinel(fs: FileSystem, H: Digest, p: string, limit: Option<int>, bufferSize: int)
    requires p !in fs
    ensures FileSignature(fs, H, p, limit, bufferSize) == NONE
  {
  }

  /** A falsy `limit_size` (`None` or `0`) takes the whole-file branch. */
  lemma {:induction false} FalsyLimitHashesWholeFile(fs: FileSystem, H: Digest, p: string, bufferSize: int)
    requires p in fs && bufferSize != 0
    ensures FileSignature(fs, H, p, None, bufferSize) == H(fs[p])
    ensures FileSignature(fs, H, p, Some(0), bufferSize) == H(fs[p])
  {
  }
}
