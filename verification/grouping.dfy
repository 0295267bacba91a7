/**
  Bucketing: `check_file` and the collection loop that drives it.

  `hashlist` maps a signature to the paths that produced it, in insertion
  order; `hashcount` maps the same signature to how many there are. The
  signature function is a parameter: the source buckets by the whole-file
  signature.
 */
module Grouping {
  import opened Sums

  datatype Buckets = Buckets(hashlist: map<string, seq<string>>, hashcount: map<string, nat>)

  /** The two parallel maps have the same keys, and each count is its (non-empty) list's length. */
  predicate InStep(b: Buckets)
  {
    && b.hashcount.Keys == b.hashlist.Keys
    && forall h :: h in b.hashlist ==> b.hashcount[h] == |b.hashlist[h]| > 0
  }

  /** `hashlist.get(h, [])` */
  function Bucket(m: map<string, seq<string>>, h: string): seq<string>
  {
    if h in m then m[h] else []
  }

  /** `hashcount.get(h, 0)` */
  function Count(b: Buckets, h: string): nat
  {
    if h in b.hashcount then b.hashcount[h] else 0
  }

  /** `check_file(filename)`: append the path to the bucket of its signature and bump that bucket's count. */
  function CheckFile(b: Buckets, sig: string -> string, filename: string): Buckets
  {
    var h := sig(filename);
    var i := Count(b, h);
    var f := Bucket(b.hashlist, h) + [filename];
    Buckets(b.hashlist[h := f], b.hashcount[h := i + 1])
  }

  /**
    `check_file` puts the path at the end of its own bucket, after that
    bucket's earlier members, bumps that bucket's count by one, changes no
    other bucket, and keeps the two maps in step.
   */
  lemma {:induction false} CheckFileSpec(b: Buckets, sig: string -> string, filename: string)
    ensures var r := CheckFile(b, sig, filename);
            && r.hashlist.Keys == b.hashlist.Keys + {sig(filename)}
            && r.hashcount.Keys == b.hashcount.Keys + {sig(filename)}
    ensures var r := CheckFile(b, sig, filename);
            var prev := Bucket(b.hashlist, sig(filename));
            && |r.hashlist[sig(filename)]| == |prev| + 1
            && r.hashlist[sig(filename)][..|prev|] == prev
            && r.hashlist[sig(filename)][|prev|] == filename
            && r.hashcount[sig(filename)] == Count(b, sig(filename)) + 1
    ensures var r := CheckFile(b, sig, filename);
            && (forall k :: k in b.hashlist && k != sig(filename) ==> r.hashlist[k] == b.hashlist[k])
            && (forall k :: k in b.hashcount && k != sig(filename) ==> r.hashcount[k] == b.hashcount[k])
    ensures InStep(b) ==> InStep(CheckFile(b, sig, filename))
  {
    var prev := Bucket(b.hashlist, sig(filename));
    assert (prev + [filename])[..|prev|] == prev;
  }

  /** Reference definition of a bucket: the input paths with signature `h`, in input order. */
  function Matching(paths: seq<string>, sig: string -> string, h: string): seq<string>
  {
    if paths == [] then []
    else
      var p := paths[|paths| - 1];
      Matching(paths[..|paths| - 1], sig, h) + (if sig(p) == h then [p] else [])
  }

  /** Running state of the collection loop. */
  datatype Tally = Tally(buckets: Buckets, totalfiles: nat, totalsize: nat)

  /**
    The collection loop: `check_file` on every input path in order, counting
    files and adding up their sizes.
   */
  function Collect(paths: seq<string>, sig: string -> string, size: string -> nat): (r: Tally)
    ensures r.totalfiles == |paths|
    ensures r.totalsize == Weight(paths, size)
  {
    if paths == [] then Tally(Buckets(map[], map[]), 0, 0)
    else
      var filename := paths[|paths| - 1];
      var t := Collect(paths[..|paths| - 1], sig, size);
      Tally(CheckFile(t.buckets, sig, filename), t.totalfiles + 1, t.totalsize + size(filename))
  }

  /** After the collection loop the two maps are in step: same keys, and each count is its bucket's length. */
  lemma {:induction false} CollectInStep(paths: seq<string>, sig: string -> string, size: string -> nat)
    ensures InStep(Collect(paths, sig, size).buckets)
    decreases |paths|
  {
    if paths != [] {
      var prefix := paths[..|paths| - 1];
      CollectInStep(prefix, sig, size);
      CheckFileSpec(Collect(prefix, sig, size).buckets, sig, paths[|paths| - 1]);
    }
  }

  /**
    After the collection loop each bucket is exactly the input paths with
    its signature, in input order, and the keys are the signatures that occur.
   */
  lemma {:induction false} CollectIsMatching(paths: seq<string>, sig: string -> string, size: string -> nat)
    ensures var m := Collect(paths, sig, size).buckets.hashlist;
            forall h :: h in m <==> Matching(paths, sig, h) != []
    ensures var m := Collect(paths, sig, size).buckets.hashlist;
            forall h :: h in m ==> m[h] == Matching(paths, sig, h)
    decreases |paths|
  {
    if paths != [] {
      var prefix := paths[..|paths| - 1];
      var p := paths[|paths| - 1];
      CollectIsMatching(prefix, sig, size);
      assert Collect(paths, sig, size).buckets == CheckFile(Collect(prefix, sig, size).buckets, sig, p);
      CheckFileSpec(Collect(prefix, sig, size).buckets, sig, p);
    }
  }

  /** A path is in the bucket of `h` exactly when it is an input with signature `h`. */
  lemma {:induction false} MatchingMembers(paths: seq<string>, sig: string -> string, h: string, q: string)
    ensures q in Matching(paths, sig, h) <==> q in paths && sig(q) == h
    ensures multiset(Matching(paths, sig, h))[q] == if sig(q) == h then multiset(paths)[q] else 0
    decreases |paths|
  {
    if paths != [] {
      var prefix := paths[..|paths| - 1];
      assert paths == prefix + [paths[|paths| - 1]];
      MatchingMembers(prefix, sig, h, q);
    }
  }

  /** No input has signature `h` exactly when its bucket would be empty. */
  lemma {:induction false} MatchingEmpty(paths: seq<string>, sig: string -> string, h: string)
    ensures Matching(paths, sig, h) == [] <==> forall i :: 0 <= i < |paths| ==> sig(paths[i]) != h
    decreases |paths|
  {
    if paths != [] {
      var prefix := paths[..|paths| - 1];
      MatchingEmpty(prefix, sig, h);
      assert forall i :: 0 <= i < |prefix| ==> prefix[i] == paths[i];
    }
  }

  /** The first member of a bucket is the first input path with that signature. */
  lemma {:induction false} MatchingFirst(paths: seq<string>, sig: string -> string, h: string)
    requires Matching(paths, sig, h) != []
    ensures exists i :: 0 <= i < |paths| && paths[i] == Matching(paths, sig, h)[0] && sig(paths[i]) == h &&
                        forall j :: 0 <= j < i ==> sig(paths[j]) != h
    decreases |paths|
  {
    var prefix := paths[..|paths| - 1];
    assert forall i :: 0 <= i < |prefix| ==> prefix[i] == paths[i];
    if Matching(prefix, sig, h) != [] {
      MatchingFirst(prefix, sig, h);
    } else {
      MatchingEmpty(prefix, sig, h);
      var i := |paths| - 1;
      assert paths[i] == Matching(paths, sig, h)[0] && sig(paths[i]) == h;
    }
  }

  /** `f(bucket)` is the bucket's total weight. */
  function WeightOf(w: string -> nat): seq<string> -> nat
  {
    ps => Weight(ps, w)
  }

  /** `f(bucket)` is the bucket's length. */
  function Len(ps: seq<string>): nat
  {
    |ps|
  }

  /** Appending one path to one bucket adds that path's weight to the sum over all buckets. */
  lemma {:induction false} AppendWeight(m: map<string, seq<string>>, w: string -> nat, h: string, p: string)
    ensures var v := Bucket(m, h) + [p];
            MapSum(m[h := v], WeightOf(w)) == MapSum(m, WeightOf(w)) + w(p)
  {
    var prev := Bucket(m, h);
    var v := prev + [p];
    assert v[..|v| - 1] == prev;
    assert WeightOf(w)(v) == WeightOf(w)(prev) + w(p);
    MapSumUpdate(m, WeightOf(w), h, v);
    if h !in m {
      assert m - {h} == m;
    }
  }

  /** Summing a weight over all buckets gives its sum over all inputs. */
  lemma {:induction false} CollectWeight(paths: seq<string>, sig: string -> string, size: string -> nat, w: string -> nat)
    ensures MapSum(Collect(paths, sig, size).buckets.hashlist, WeightOf(w)) == Weight(paths, w)
    decreases |paths|
  {
    if paths != [] {
      var prefix := paths[..|paths| - 1];
      var p := paths[|paths| - 1];
      var m := Collect(prefix, sig, size).buckets.hashlist;
      var h := sig(p);
      assert Collect(paths, sig, size).buckets.hashlist == m[h := Bucket(m, h) + [p]];
      CollectWeight(prefix, sig, size, w);
      AppendWeight(m, w, h, p);
    }
  }

  /** Every input occurrence is in the bucket of its own signature. */
  lemma {:induction false} InOwnBucket(paths: seq<string>, sig: string -> string, size: string -> nat, i: nat)
    requires i < |paths|
    ensures var m := Collect(paths, sig, size).buckets.hashlist;
            sig(paths[i]) in m && paths[i] in m[sig(paths[i])]
  {
    CollectIsMatching(paths, sig, size);
    MatchingMembers(paths, sig, sig(paths[i]), paths[i]);
  }

  /** A bucket holds only paths of its own signature. */
  lemma {:induction false} OnlyOwnSignature(paths: seq<string>, sig: string -> string, size: string -> nat, h: string, q: string)
    requires var m := Collect(paths, sig, size).buckets.hashlist;
             h in m && q in m[h]
    ensures sig(q) == h
  {
    CollectIsMatching(paths, sig, size);
    MatchingMembers(paths, sig, h, q);
  }

  /**
    Every input occurrence, repeats included, lies in exactly one bucket:
    the one of its own signature, which holds it as often as the input does;
    the bucket lengths add up to `totalfiles` and the bucket sizes to
    `totalsize`.
   */
  lemma {:induction false} CollectPartitions(paths: seq<string>, sig: string -> string, size: string -> nat)
    ensures var t := Collect(paths, sig, size);
            forall i :: 0 <= i < |paths| ==> sig(paths[i]) in t.buckets.hashlist && paths[i] in t.buckets.hashlist[sig(paths[i])]
    ensures var t := Collect(paths, sig, size);
            forall h, q :: h in t.buckets.hashlist && q in t.buckets.hashlist[h] ==> sig(q) == h
    ensures var t := Collect(paths, sig, size);
            forall q :: sig(q) in t.buckets.hashlist ==> multiset(t.buckets.hashlist[sig(q)])[q] == multiset(paths)[q]
    ensures var t := Collect(paths, sig, size);
            MapSum(t.buckets.hashlist, Len) == t.totalfiles
    ensures var t := Collect(paths, sig, size);
            MapSum(t.buckets.hashlist, WeightOf(size)) == t.totalsize
  {
    var t := Collect(paths, sig, size);
    var m := t.buckets.hashlist;
    forall i | 0 <= i < |paths|
      ensures sig(paths[i]) in m && paths[i] in m[sig(paths[i])]
    {
      InOwnBucket(paths, sig, size, i);
    }
    forall h, q | h in m && q in m[h]
      ensures sig(q) == h
    {
      OnlyOwnSignature(paths, sig, size, h, q);
    }
    CollectIsMatching(paths, sig, size);
    forall q | sig(q) in m
      ensures multiset(m[sig(q)])[q] == multiset(paths)[q]
    {
      MatchingMembers(paths, sig, sig(q), q);
    }
    BucketTotals(paths, sig, size);
  }

  /** The bucket lengths add up to `totalfiles` and the bucket sizes to `totalsize`. */
  lemma {:induction false} BucketTotals(paths: seq<string>, sig: string -> string, size: string -> nat)
    ensures var t := Collect(paths, sig, size);
            MapSum(t.buckets.hashlist, Len) == t.totalfiles
    ensures var t := Collect(paths, sig, size);
            MapSum(t.buckets.hashlist, WeightOf(size)) == t.totalsize
  {
    CollectWeight(paths, sig, size, One);
    WeightOneLen(Collect(paths, sig, size).buckets.hashlist);
    WeightOne(paths);
    CollectWeight(paths, sig, size, size);
  }

  /** Counting each member once is the same as taking bucket lengths. */
  lemma {:induction false} WeightOneLen(m: map<string, seq<string>>)
    ensures MapSum(m, Len) == MapSum(m, WeightOf(One))
  {
    forall k | k in m
      ensures Len(m[k]) == WeightOf(One)(m[k])
    {
      WeightOne(m[k]);
    }
    MapSumMonotone(m, Len, WeightOf(One));
    MapSumMonotone(m, WeightOf(One), Len);
  }

  /** The reference of each bucket is the first input path that produced its signature. */
  lemma {:induction false} ReferenceIsFirstSeen(paths: seq<string>, sig: string -> string, size: string -> nat, h: string)
    requires h in Collect(paths, sig, size).buckets.hashlist
    ensures var bucket := Collect(paths, sig, size).buckets.hashlist[h];
            bucket != [] &&
            exists i :: 0 <= i < |paths| && paths[i] == bucket[0] && sig(paths[i]) == h &&
                        forall j :: 0 <= j < i ==> sig(paths[j]) != h
  {
    CollectIsMatching(paths, sig, size);
    MatchingFirst(paths, sig, h);
  }

  /** One input: one bucket holding it. */
  lemma {:induction false} CollectOne(x: string, sig: string -> string, size: string -> nat)
    ensures Collect([x], sig, size).buckets == Buckets(map[sig(x) := [x]], map[sig(x) := 1])
  {
    assert [x][..0] == [] && [] + [x] == [x];
  }

  /** Appending a path applies `check_file` to the buckets collected so far. */
  lemma {:induction false} CollectSnoc(paths: seq<string>, p: string, sig: string -> string, size: string -> nat)
    ensures Collect(paths + [p], sig, size).buckets == CheckFile(Collect(paths, sig, size).buckets, sig, p)
  {
    assert (paths + [p])[..|paths|] == paths;
  }

  /** Two inputs: one shared bucket when their signatures agree, two singletons otherwise. */
  lemma {:induction false} CollectPair(x: string, y: string, sig: string -> string, size: string -> nat)
    ensures Collect([x, y], sig, size).buckets.hashlist ==
            if sig(x) == sig(y) then map[sig(x) := [x, y]] else map[sig(x) := [x], sig(y) := [y]]
  {
    var b1 := Buckets(map[sig(x) := [x]], map[sig(x) := 1]);
    CollectOne(x, sig, size);
    CollectSnoc([x], y, sig, size);
    assert [x] + [y] == [x, y];
    PairStep(b1, x, y, sig);
  }

  /** `check_file` on a second path after a first: the bucket of the first grows or a second bucket appears. */
  lemma {:induction false} PairStep(b1: Buckets, x: string, y: string, sig: string -> string)
    requires b1.hashlist == map[sig(x) := [x]]
    ensures CheckFile(b1, sig, y).hashlist ==
            if sig(x) == sig(y) then map[sig(x) := [x, y]] else map[sig(x) := [x], sig(y) := [y]]
  {
    if sig(x) == sig(y) {
      assert [x] + [y] == [x, y];
    } else {
      assert [] + [y] == [y];
    }
  }

  /** Three inputs of which the first two share a signature and the third does not. */
  lemma {:induction false} CollectTriple(x: string, y: string, z: string, sig: string -> string, size: string -> nat)
    requires sig(x) == sig(y) != sig(z)
    ensures Collect([x, y, z], sig, size).buckets.hashlist == map[sig(x) := [x, y], sig(z) := [z]]
  {
    CollectPair(x, y, sig, size);
    CollectSnoc([x, y], z, sig, size);
    assert [x, y] + [z] == [x, y, z] && [] + [z] == [z];
  }
}
