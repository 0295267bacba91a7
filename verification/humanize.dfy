/**
  `humanize_size`: the choice of unit for a byte count in the final summary.

  The source tries GiB, MiB and KiB in that order and takes the first whose
  quotient `float(size) / limit` exceeds 0.5. Every limit is a power of two,
  so the division is exact and the test is `2 * size > limit` on integers.
  When no unit qualifies the function falls off its end and returns `None`.
 */
module Humanize {
  import opened Wrappers

  datatype Unit = GiB | MiB | KiB

  const KIB: nat := 1024
  const MIB: nat := 1024 * 1024
  const GIB: nat := 1024 * 1024 * 1024

  /** The (limit, suffix) pairs, in the order they are tried. */
  const UNITS: seq<(nat, Unit)> := [(GIB, GiB), (MIB, MiB), (KIB, KiB)]

  /** `float(size) / limit > 0.5` */
  predicate Exceeds(size: nat, limit: nat)
  {
    2 * size > limit
  }

  /** The bytes in one `u`. */
  function Divisor(u: Unit): nat
  {
    match u
    case GiB => GIB
    case MiB => MIB
    case KiB => KIB
  }

  /** The loop of `humanize_size` over `table`: the suffix of the first limit exceeded. */
  function FirstUnit(size: nat, table: seq<(nat, Unit)>): (r: Option<Unit>)
    ensures r.None? <==> forall i :: 0 <= i < |table| ==> !Exceeds(size, table[i].0)
    ensures r.Some? ==> exists i :: && 0 <= i < |table|
                                    && table[i].1 == r.value
                                    && Exceeds(size, table[i].0)
                                    && forall j :: 0 <= j < i ==> !Exceeds(size, table[j].0)
  {
    if table == [] then None
    else if Exceeds(size, table[0].0) then Some(table[0].1)
    else
      var r := FirstUnit(size, table[1..]);
      assert forall i :: 0 <= i < |table| - 1 ==> table[1..][i] == table[i + 1];
      r
  }

  /**
    The unit `humanize_size(size)` prints: GiB above half a GiB, else MiB
    above half a MiB, else KiB above half a KiB, and none at all for 512
    bytes or less.
   */
  function HumanizeUnit(size: nat): (r: Option<Unit>)
    ensures r == Some(GiB) <==> 2 * size > GIB
    ensures r == Some(MiB) <==> MIB < 2 * size <= GIB
    ensures r == Some(KiB) <==> KIB < 2 * size <= MIB
    ensures r == None <==> size <= 512
  {
    assert UNITS[0] == (GIB, GiB) && UNITS[1] == (MIB, MiB) && UNITS[2] == (KIB, KiB);
    FirstUnit(size, UNITS)
  }

  /** The unit chosen is the largest whose half is exceeded. */
  lemma {:induction false} HumanizeUnitIsLargest(size: nat, u: Unit)
    requires HumanizeUnit(size) == Some(u)
    ensures Exceeds(size, Divisor(u))
    ensures forall v :: Divisor(v) > Divisor(u) ==> !Exceeds(size, Divisor(v))
  {
  }

  /** A larger count never gets a smaller unit. */
  lemma {:induction false} HumanizeUnitMonotone(small: nat, large: nat)
    requires small <= large && HumanizeUnit(small).Some?
    ensures HumanizeUnit(large).Some?
    ensures Divisor(HumanizeUnit(small).value) <= Divisor(HumanizeUnit(large).value)
  {
  }
}
