/**
  The report loop: every bucket with at least two members becomes a group,
  whose first member is the reference and whose other members are marked as
  full (`' '`) or partial (`'!'`) matches by recomputing their signature;
  `dupfiles` counts the groups and `dupsize` adds up the sizes of the
  non-reference members.

  The dictionary's iteration order is unspecified, so the loop takes the
  order of the keys as a parameter; the totals are shown not to depend on it.
 */
module Report {
  import opened Sums
  import opened Grouping

  /** `' '` (the whole-file signatures agree) or `'!'` ("partial match only!"). */
  datatype Status = Full | Partial

  /** A printed line: the reference's size and path. */
  datatype Entry = Entry(path: string, size: nat)

  /** A printed line: a member's size, status marker and path. */
  datatype Member = Member(path: string, size: nat, status: Status)

  datatype Group = Group(hash: string, reference: Entry, members: seq<Member>)

  datatype Report = Report(groups: seq<Group>, dupfiles: nat, dupsize: nat)

  /** Sum of the sizes on the member lines. */
  function MembersSize(ms: seq<Member>): nat
  {
    if ms == [] then 0 else ms[0].size + MembersSize(ms[1..])
  }

  /** Sum of the sizes on the member lines of all groups. */
  function GroupsSize(gs: seq<Group>): nat
  {
    if gs == [] then 0 else MembersSize(gs[0].members) + GroupsSize(gs[1..])
  }

  /** Does the loop report the bucket of `h`? (`hashcount[h] < 2` is skipped.) */
  predicate Reported(b: Buckets, h: string)
  {
    h in b.hashcount && b.hashcount[h] >= 2
  }

  /** Reference definition of the reported keys, in iteration order. */
  function ReportedIn(b: Buckets, order: seq<string>): seq<string>
  {
    if order == [] then []
    else (if Reported(b, order[0]) then [order[0]] else []) + ReportedIn(b, order[1..])
  }

  /**
    `g` is the group of its bucket: the reference is the bucket's first path,
    the members are the remaining paths in bucket order with their sizes, and
    a member is partial exactly when its recomputed signature differs from
    the reference's.
   */
  predicate Describes(b: Buckets, g: Group, verify: string -> string, size: string -> nat)
    requires InStep(b)
  {
    && g.hash in b.hashlist
    && Reported(b, g.hash)
    && var f := b.hashlist[g.hash];
       && g.reference == Entry(f[0], size(f[0]))
       && |g.members| == |f| - 1
       && forall j :: 0 <= j < |g.members| ==>
            && g.members[j].path == f[j + 1]
            && g.members[j].size == size(f[j + 1])
            && (g.members[j].status == Partial <==> verify(f[j + 1]) != verify(f[0]))
  }

  /** The groups `gs` are, one for one and in order, the groups of the buckets keyed `hs`. */
  predicate Lists(b: Buckets, gs: seq<Group>, hs: seq<string>, verify: string -> string, size: string -> nat)
    requires InStep(b)
  {
    && |gs| == |hs|
    && forall i :: 0 <= i < |gs| ==> gs[i].hash == hs[i] && Describes(b, gs[i], verify, size)
  }

  /** Putting the group of `h` in front of the groups of `hs` gives the groups of `[h] + hs`. */
  lemma {:induction false} ListsCons(b: Buckets, g: Group, gs: seq<Group>, h: string, hs: seq<string>,
                                     verify: string -> string, size: string -> nat)
    requires InStep(b)
    requires g.hash == h && Describes(b, g, verify, size)
    requires Lists(b, gs, hs, verify, size)
    ensures Lists(b, [g] + gs, [h] + hs, verify, size)
  {
    assert forall i :: 0 < i < |gs| + 1 ==> ([g] + gs)[i] == gs[i - 1] && ([h] + hs)[i] == hs[i - 1];
  }

  /** The inner loop over `f[1:]`, against the reference signature `refmd5`. */
  function MemberLines(rest: seq<string>, refmd5: string, verify: string -> string, size: string -> nat): (ms: seq<Member>)
    ensures |ms| == |rest|
    ensures forall j :: 0 <= j < |rest| ==>
              && ms[j].path == rest[j]
              && ms[j].size == size(rest[j])
              && (ms[j].status == Partial <==> verify(rest[j]) != refmd5)
    ensures MembersSize(ms) == Weight(rest, size)
  {
    if rest == [] then []
    else
      var status := if verify(rest[0]) != refmd5 then Partial else Full;
      WeightFirst(rest, size);
      [Member(rest[0], size(rest[0]), status)] + MemberLines(rest[1..], refmd5, verify, size)
  }

  /** One reported bucket. */
  function ReportGroup(b: Buckets, h: string, verify: string -> string, size: string -> nat): (g: Group)
    requires InStep(b) && h in b.hashlist && Reported(b, h)
    ensures g.hash == h
    ensures Describes(b, g, verify, size)
    ensures MembersSize(g.members) == Weight(b.hashlist[h][1..], size)
  {
    var f := b.hashlist[h];
    var refmd5 := verify(f[0]);
    Group(h, Entry(f[0], size(f[0])), MemberLines(f[1..], refmd5, verify, size))
  }

  /**
    The report loop over the keys in the order `order`: one group per
    reported key, in that order, `dupfiles` their number and `dupsize` the
    sum of the sizes printed on member lines.
   */
  function ReportLoop(b: Buckets, order: seq<string>, verify: string -> string, size: string -> nat): (r: Report)
    requires InStep(b)
    requires forall i :: 0 <= i < |order| ==> order[i] in b.hashlist
    ensures r.dupfiles == |r.groups|
    ensures Lists(b, r.groups, ReportedIn(b, order), verify, size)
    ensures r.dupsize == GroupsSize(r.groups)
  {
    if order == [] then Report([], 0, 0)
    else
      var h := order[0];
      var r := ReportLoop(b, order[1..], verify, size);
      assert ReportedIn(b, order) == (if Reported(b, h) then [h] else []) + ReportedIn(b, order[1..]);
      if b.hashcount[h] < 2 then r
      else
        var g := ReportGroup(b, h, verify, size);
        ListsCons(b, g, r.groups, h, ReportedIn(b, order[1..]), verify, size);
        Report([g] + r.groups, r.dupfiles + 1, MembersSize(g.members) + r.dupsize)
  }

  /** `order` visits every key of `keys` exactly once. */
  predicate Enumerates(order: seq<string>, keys: set<string>)
  {
    && (forall i, j :: 0 <= i < j < |order| ==> order[i] != order[j])
    && (forall i :: 0 <= i < |order| ==> order[i] in keys)
    && (forall k :: k in keys ==> k in order)
  }

  /** The keys of reported buckets. */
  function DupKeys(b: Buckets): set<string>
  {
    set h | h in b.hashlist && Reported(b, h)
  }

  /** What a bucket adds to `dupsize`: its members after the first, when it is reported. */
  function DupWeight(size: string -> nat): seq<string> -> nat
  {
    ps => if |ps| < 2 then 0 else Weight(ps[1..], size)
  }

  /** The part of `hashlist` whose keys occur in `order`. */
  function Restrict(m: map<string, seq<string>>, order: seq<string>): map<string, seq<string>>
  {
    map h | h in m && h in order :: m[h]
  }

  /** One step of the loop adds the first key's bucket to both totals. */
  lemma {:induction false} ReportLoopStep(b: Buckets, order: seq<string>, verify: string -> string, size: string -> nat)
    requires InStep(b)
    requires forall i :: 0 <= i < |order| ==> order[i] in b.hashlist
    requires order != []
    ensures var r := ReportLoop(b, order, verify, size);
            var r' := ReportLoop(b, order[1..], verify, size);
            && r.dupfiles == (if Reported(b, order[0]) then 1 else 0) + r'.dupfiles
            && r.dupsize == DupWeight(size)(b.hashlist[order[0]]) + r'.dupsize
  {
  }

  /** Along a duplicate-free order, the reported keys are as many as the set of them. */
  lemma {:induction false} ReportedInCount(b: Buckets, order: seq<string>)
    requires forall i, j :: 0 <= i < j < |order| ==> order[i] != order[j]
    ensures |ReportedIn(b, order)| == |set h | h in order && Reported(b, h)|
    decreases |order|
  {
    if order == [] {
      assert (set h | h in order && Reported(b, h)) == {};
    } else {
      var x := order[0];
      var rest := order[1..];
      assert forall i :: 0 <= i < |rest| ==> rest[i] == order[i + 1];
      ReportedInCount(b, rest);
      assert x !in rest;
      var before := set h | h in rest && Reported(b, h);
      var after := set h | h in order && Reported(b, h);
      assert x !in before;
      if Reported(b, x) {
        assert after == before + {x};
      } else {
        assert after == before;
      }
    }
  }

  /** `dupsize` over a duplicate-free stretch of the iteration order. */
  lemma {:induction false} ReportLoopDupSize(b: Buckets, order: seq<string>, verify: string -> string, size: string -> nat)
    requires InStep(b)
    requires forall i :: 0 <= i < |order| ==> order[i] in b.hashlist
    requires forall i, j :: 0 <= i < j < |order| ==> order[i] != order[j]
    ensures ReportLoop(b, order, verify, size).dupsize == MapSum(Restrict(b.hashlist, order), DupWeight(size))
    decreases |order|
  {
    if order == [] {
      assert Restrict(b.hashlist, order) == map[];
    } else {
      var x := order[0];
      var rest := order[1..];
      assert forall i :: 0 <= i < |rest| ==> rest[i] == order[i + 1];
      ReportLoopDupSize(b, rest, verify, size);
      ReportLoopStep(b, order, verify, size);
      assert x !in rest;
      var m := Restrict(b.hashlist, rest);
      assert Restrict(b.hashlist, order) == m[x := b.hashlist[x]];
      assert m - {x} == m;
      MapSumUpdate(m, DupWeight(size), x, b.hashlist[x]);
    }
  }

  /**
    Whatever order the dictionary is iterated in, `dupfiles` is the number of
    buckets with at least two members, and `dupsize` is the sum over those
    buckets of the sizes of every member but the first, whatever their status;
    singletons add nothing.
   */
  lemma {:induction false} ReportTotals(b: Buckets, order: seq<string>, verify: string -> string, size: string -> nat)
    requires InStep(b)
    requires Enumerates(order, b.hashlist.Keys)
    ensures ReportLoop(b, order, verify, size).dupfiles == |DupKeys(b)|
    ensures ReportLoop(b, order, verify, size).dupsize == MapSum(b.hashlist, DupWeight(size))
  {
    ReportedInCount(b, order);
    ReportLoopDupSize(b, order, verify, size);
    assert (set h | h in order && Reported(b, h)) == DupKeys(b);
    assert Restrict(b.hashlist, order) == b.hashlist;
  }

  /** Every reported bucket appears among the groups, and nothing else does. */
  lemma {:induction false} ReportedInMembers(b: Buckets, order: seq<string>, h: string)
    ensures h in ReportedIn(b, order) <==> h in order && Reported(b, h)
    decreases |order|
  {
    if order != [] {
      ReportedInMembers(b, order[1..], h);
      assert order == [order[0]] + order[1..];
    }
  }

  /** With a signature that is the same at verification as at bucketing, no member is partial. */
  lemma {:induction false} NoPartialWhenSignaturesAgree(b: Buckets, order: seq<string>, verify: string -> string, size: string -> nat)
    requires InStep(b)
    requires forall i :: 0 <= i < |order| ==> order[i] in b.hashlist
    requires forall h, q :: h in b.hashlist && q in b.hashlist[h] ==> verify(q) == h
    ensures var r := ReportLoop(b, order, verify, size);
            forall i, j :: 0 <= i < |r.groups| && 0 <= j < |r.groups[i].members| ==> r.groups[i].members[j].status == Full
  {
    var r := ReportLoop(b, order, verify, size);
    forall i, j | 0 <= i < |r.groups| && 0 <= j < |r.groups[i].members|
      ensures r.groups[i].members[j].status == Full
    {
      var g := r.groups[i];
      assert Describes(b, g, verify, size);
      var f := b.hashlist[g.hash];
      assert f[0] in f && f[j + 1] in f;
    }
  }

  /** With no bucket of two or more, no key is reported. */
  lemma {:induction false} NoDupKeys(b: Buckets)
    requires InStep(b)
    requires forall h :: h in b.hashlist ==> |b.hashlist[h]| < 2
    ensures DupKeys(b) == {}
  {
  }

  /** With exactly one bucket of two or more, it is the only key reported. */
  lemma {:induction false} OnlyReportedKey(b: Buckets, order: seq<string>, h: string)
    requires InStep(b)
    requires Enumerates(order, b.hashlist.Keys)
    requires h in b.hashlist && |b.hashlist[h]| >= 2
    requires forall k :: k in b.hashlist && k != h ==> |b.hashlist[k]| < 2
    ensures ReportedIn(b, order) == [h]
  {
    ReportedInCount(b, order);
    assert (set k | k in order && Reported(b, k)) == {h};
    var reported := ReportedIn(b, order);
    ReportedInMembers(b, order, reported[0]);
  }

  /** With exactly one bucket of two, the report is that one group. */
  lemma {:induction false} SingleGroup(b: Buckets, order: seq<string>, verify: string -> string, size: string -> nat, h: string, x: string, y: string)
    requires InStep(b)
    requires Enumerates(order, b.hashlist.Keys)
    requires h in b.hashlist && b.hashlist[h] == [x, y]
    requires forall k :: k in b.hashlist && k != h ==> |b.hashlist[k]| < 2
    ensures ReportLoop(b, order, verify, size).groups ==
            [Group(h, Entry(x, size(x)), [Member(y, size(y), if verify(y) == verify(x) then Full else Partial)])]
  {
    var rep := ReportLoop(b, order, verify, size);
    OnlyReportedKey(b, order, h);
    var g := rep.groups[0];
    assert Describes(b, g, verify, size);
    assert g.members == [g.members[0]];
    assert rep.groups == [g];
  }
}
