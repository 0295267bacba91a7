/**
  The whole script: the collection loop over the input paths, the report
  loop over the buckets, and the final summary line.

  The script buckets by `get_file_hash(filename)` and verifies by the same
  call, so both signatures are the whole-file one (`Run`). Its docstring and
  `CHUNK_SIZE` say the bucketing was meant to read only the first
  `CHUNK_SIZE` bytes; `RunFast` is that variant.
 */
module Finder {
  import opened Wrappers
  import opened Signature
  import opened Sums
  import opened Grouping
  import opened Report
  import opened Humanize

  /** Everything the script computes: the buckets, the groups it prints, and the summary line. */
  datatype Outcome = Outcome(
    buckets: Buckets,
    groups: seq<Group>,
    totalfiles: nat,
    totalsize: nat,
    dupfiles: nat,
    dupsize: nat,
    totalUnit: Option<Unit>,
    dupUnit: Option<Unit>)

  /** A bucket adds at most its own size to `dupsize`. */
  lemma {:induction false} DupSizeBound(m: map<string, seq<string>>, size: string -> nat)
    ensures MapSum(m, DupWeight(size)) <= MapSum(m, WeightOf(size))
  {
    forall k | k in m
      ensures DupWeight(size)(m[k]) <= WeightOf(size)(m[k])
    {
      if |m[k]| >= 2 {
        WeightFirst(m[k], size);
      }
    }
    MapSumMonotone(m, DupWeight(size), WeightOf(size));
  }

  /**
    The script with bucketing signature `sig` and verifying signature
    `verify`, iterating the buckets in the order `order`.
   */
  function Execute(paths: seq<string>, sig: string -> string, verify: string -> string, size: string -> nat, order: seq<string>): Outcome
    requires Enumerates(order, Collect(paths, sig, size).buckets.hashlist.Keys)
  {
    var t := Collect(paths, sig, size);
    CollectInStep(paths, sig, size);
    var rep := ReportLoop(t.buckets, order, verify, size);
    Outcome(t.buckets, rep.groups, t.totalfiles, t.totalsize, rep.dupfiles, rep.dupsize,
            HumanizeUnit(t.totalsize), HumanizeUnit(rep.dupsize))
  }

  /**
    The summary line: every input is counted once; `totalsize` is the sum of
    all input sizes and of all bucket sizes; `dupfiles` is the number of
    buckets with two or more members; `dupsize` is the order-free sum of
    their non-reference members' sizes, so never more than `totalsize`; both
    sizes are printed in the unit `humanize_size` picks.
   */
  lemma {:induction false} ExecuteTotals(paths: seq<string>, sig: string -> string, verify: string -> string, size: string -> nat, order: seq<string>)
    requires Enumerates(order, Collect(paths, sig, size).buckets.hashlist.Keys)
    ensures var r := Execute(paths, sig, verify, size, order);
            && r.buckets == Collect(paths, sig, size).buckets
            && r.totalfiles == |paths| == MapSum(r.buckets.hashlist, Len)
            && r.totalsize == Weight(paths, size) == MapSum(r.buckets.hashlist, WeightOf(size))
            && r.dupfiles == |DupKeys(r.buckets)| == |r.groups|
            && r.dupsize == MapSum(r.buckets.hashlist, DupWeight(size))
            && r.dupsize <= r.totalsize
            && r.totalUnit == HumanizeUnit(r.totalsize) && r.dupUnit == HumanizeUnit(r.dupsize)
  {
    var t := Collect(paths, sig, size);
    CollectInStep(paths, sig, size);
    BucketTotals(paths, sig, size);
    ReportTotals(t.buckets, order, verify, size);
    DupSizeBound(t.buckets.hashlist, size);
  }

  /** The script as written: whole-file signatures for bucketing and for verification. */
  function Run(fs: FileSystem, H: Digest, size: string -> nat, paths: seq<string>, order: seq<string>): Outcome
    requires Enumerates(order, Collect(paths, WholeSig(fs, H), size).buckets.hashlist.Keys)
  {
    Execute(paths, WholeSig(fs, H), WholeSig(fs, H), size, order)
  }

  /** The script as its documentation describes it: buckets by the first `CHUNK_SIZE` bytes. */
  function RunFast(fs: FileSystem, H: Digest, size: string -> nat, paths: seq<string>, order: seq<string>): Outcome
    requires Enumerates(order, Collect(paths, FastSig(fs, H), size).buckets.hashlist.Keys)
  {
    Execute(paths, FastSig(fs, H), WholeSig(fs, H), size, order)
  }

  /**
    As written, the `'!'` branch is dead: a member's bucket is keyed by its
    whole-file signature, which is exactly what is recomputed and compared
    with the reference's.
   */
  lemma {:induction false} NoPartialMatch(fs: FileSystem, H: Digest, size: string -> nat, paths: seq<string>, order: seq<string>)
    requires Enumerates(order, Collect(paths, WholeSig(fs, H), size).buckets.hashlist.Keys)
    ensures var r := Run(fs, H, size, paths, order);
            forall i, j :: 0 <= i < |r.groups| && 0 <= j < |r.groups[i].members| ==> r.groups[i].members[j].status == Full
  {
    var sig := WholeSig(fs, H);
    var b := Collect(paths, sig, size).buckets;
    forall h, q | h in b.hashlist && q in b.hashlist[h]
      ensures sig(q) == h
    {
      OnlyOwnSignature(paths, sig, size, h, q);
    }
    CollectInStep(paths, sig, size);
    NoPartialWhenSignaturesAgree(b, order, sig, size);
  }

  /**
    All paths that cannot be opened share the bucket of the sentinel; when no
    real digest equals the sentinel, that bucket holds nothing else.
   */
  lemma {:induction false} UnopenableShareBucket(fs: FileSystem, H: Digest, size: string -> nat, paths: seq<string>)
    ensures var m := Collect(paths, WholeSig(fs, H), size).buckets.hashlist;
            forall i :: 0 <= i < |paths| && paths[i] !in fs ==> NONE in m && paths[i] in m[NONE]
    ensures var m := Collect(paths, WholeSig(fs, H), size).buckets.hashlist;
            (forall c :: H(c) != NONE) ==> NONE in m ==> forall q :: q in m[NONE] ==> q !in fs
  {
    var sig := WholeSig(fs, H);
    var m := Collect(paths, sig, size).buckets.hashlist;
    forall i | 0 <= i < |paths| && paths[i] !in fs
      ensures NONE in m && paths[i] in m[NONE]
    {
      InOwnBucket(paths, sig, size, i);
      assert sig(paths[i]) == NONE;
    }
    if (forall c :: H(c) != NONE) && NONE in m {
      forall q | q in m[NONE]
        ensures q !in fs
      {
        OnlyOwnSignature(paths, sig, size, NONE, q);
      }
    }
  }

  /** When exactly one bucket has two members, the script prints that one group. */
  lemma {:induction false} ExecuteSingleGroup(paths: seq<string>, sig: string -> string, verify: string -> string, size: string -> nat,
                           order: seq<string>, h: string, x: string, y: string)
    requires Enumerates(order, Collect(paths, sig, size).buckets.hashlist.Keys)
    requires var m := Collect(paths, sig, size).buckets.hashlist;
             && h in m && m[h] == [x, y]
             && forall k :: k in m && k != h ==> |m[k]| < 2
    ensures Execute(paths, sig, verify, size, order).groups ==
            [Group(h, Entry(x, size(x)), [Member(y, size(y), if verify(y) == verify(x) then Full else Partial)])]
  {
    CollectInStep(paths, sig, size);
    SingleGroup(Collect(paths, sig, size).buckets, order, verify, size, h, x, y);
  }

  /**
    Two copies and one unrelated file: exactly one group, whose reference is
    the first copy and whose one member is the second copy, fully matched;
    three files are counted.
   */
  lemma {:induction false} TwoCopiesAndAnother(fs: FileSystem, H: Digest, size: string -> nat, a: string, b: string, c: string, order: seq<string>)
    requires a in fs && b in fs && c in fs
    requires fs[a] == fs[b] && H(fs[c]) != H(fs[a])
    requires Enumerates(order, Collect([a, b, c], WholeSig(fs, H), size).buckets.hashlist.Keys)
    ensures var r := Run(fs, H, size, [a, b, c], order);
            && r.totalfiles == 3
            && r.dupfiles == 1
            && r.groups == [Group(H(fs[a]), Entry(a, size(a)), [Member(b, size(b), Full)])]
  {
    var sig := WholeSig(fs, H);
    assert sig(a) == H(fs[a]) && sig(b) == H(fs[b]) && sig(c) == H(fs[c]);
    CollectTriple(a, b, c, sig, size);
    ExecuteSingleGroup([a, b, c], sig, sig, size, order, H(fs[a]), a, b);
    ExecuteTotals([a, b, c], sig, sig, size, order);
  }

  /**
    As written, two files that agree on their first `CHUNK_SIZE` bytes but
    differ in whole-file digest land in two one-file buckets.
   */
  lemma {:induction false} WholeSigSplitsPrefixTwins(fs: FileSystem, H: Digest, size: string -> nat, d: string, e: string)
    requires d in fs && e in fs && |fs[d]| > CHUNK_SIZE && |fs[e]| > CHUNK_SIZE
    requires fs[d][..CHUNK_SIZE] == fs[e][..CHUNK_SIZE] && H(fs[d]) != H(fs[e])
    ensures Collect([d, e], WholeSig(fs, H), size).buckets.hashlist == map[H(fs[d]) := [d], H(fs[e]) := [e]]
  {
    var sig := WholeSig(fs, H);
    assert sig(d) == H(fs[d]) && sig(e) == H(fs[e]);
    CollectPair(d, e, sig, size);
  }

  /**
    So the script as written reports neither of them: the `'!'` marker the
    report has for exactly this case cannot appear.
   */
  lemma {:induction false} WholeSigReportsNeither(fs: FileSystem, H: Digest, size: string -> nat, d: string, e: string, order: seq<string>)
    requires d in fs && e in fs && |fs[d]| > CHUNK_SIZE && |fs[e]| > CHUNK_SIZE
    requires fs[d][..CHUNK_SIZE] == fs[e][..CHUNK_SIZE] && H(fs[d]) != H(fs[e])
    requires Enumerates(order, Collect([d, e], WholeSig(fs, H), size).buckets.hashlist.Keys)
    ensures Run(fs, H, size, [d, e], order).groups == []
  {
    var sig := WholeSig(fs, H);
    var b := Collect([d, e], sig, size).buckets;
    assert forall h :: h in b.hashlist ==> |b.hashlist[h]| < 2 by {
      WholeSigSplitsPrefixTwins(fs, H, size, d, e);
    }
    CollectInStep([d, e], sig, size);
    NoDupKeys(b);
    ExecuteTotals([d, e], sig, sig, size, order);
  }

  /**
    Bucketing by the first `CHUNK_SIZE` bytes, the same two files form one
    group with the first as reference and the second flagged as a partial
    match.
   */
  lemma {:induction false} FastSigFlagsPrefixTwins(fs: FileSystem, H: Digest, size: string -> nat, d: string, e: string, order: seq<string>)
    requires d in fs && e in fs && |fs[d]| > CHUNK_SIZE && |fs[e]| > CHUNK_SIZE
    requires fs[d][..CHUNK_SIZE] == fs[e][..CHUNK_SIZE] && H(fs[d]) != H(fs[e])
    requires Enumerates(order, Collect([d, e], FastSig(fs, H), size).buckets.hashlist.Keys)
    ensures RunFast(fs, H, size, [d, e], order).groups ==
            [Group(H(fs[d][..CHUNK_SIZE]), Entry(d, size(d)), [Member(e, size(e), Partial)])]
  {
    var sig := FastSig(fs, H);
    var verify := WholeSig(fs, H);
    var h := H(fs[d][..CHUNK_SIZE]);
    assert sig(d) == h && sig(e) == h;
    assert verify(d) == H(fs[d]) && verify(e) == H(fs[e]);
    CollectPair(d, e, sig, size);
    ExecuteSingleGroup([d, e], sig, verify, size, order, h, d, e);
  }

  /** With prefix bucketing, inputs whose first `CHUNK_SIZE` bytes agree always share a bucket. */
  lemma {:induction false} FastSigGroupsEqualPrefixes(fs: FileSystem, H: Digest, size: string -> nat, paths: seq<string>, i: nat, j: nat)
    requires i < |paths| && j < |paths|
    requires paths[i] in fs && paths[j] in fs
    requires fs[paths[i]][..Min(CHUNK_SIZE, |fs[paths[i]]|)] == fs[paths[j]][..Min(CHUNK_SIZE, |fs[paths[j]]|)]
    ensures var m := Collect(paths, FastSig(fs, H), size).buckets.hashlist;
            var h := FastSig(fs, H)(paths[i]);
            h in m && paths[i] in m[h] && paths[j] in m[h]
  {
    var sig := FastSig(fs, H);
    InOwnBucket(paths, sig, size, i);
    InOwnBucket(paths, sig, size, j);
    assert sig(paths[i]) == sig(paths[j]);
  }
}
