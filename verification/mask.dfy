/**
 The alignment mask of the aligned image view: an option set over a
 64-bit integer raw value. A raw value is modelled by the set of its
 one-bits (bit 0 is the value 1, bit 3 is the value 8), so that union,
 difference and the subset test of the option set are the set operations
 on those bit positions. Four bits carry meaning (Left, Right, Top,
 Bottom); the empty mask means "centred".
 */
module AlignmentMask {

  /** A bit position of a 64-bit integer. */
  type BitIndex = i: nat | i < 64

  /** An option set: the positions of the one-bits of its raw value. Any
      raw value can be built, including bits no named flag uses. */
  datatype Mask = Mask(bits: set<BitIndex>)

  /** The four edges a single flag of the mask can pin the content to. */
  datatype Edge = Left | Right | Top | Bottom

  /** Raw value 0. */
  const Center: Mask := Mask({})
  /** Raw value 1. */
  const LeftFlag: Mask := Mask({0})
  /** Raw value 2. */
  const RightFlag: Mask := Mask({1})
  /** Raw value 4. */
  const TopFlag: Mask := Mask({2})
  /** Raw value 8. */
  const BottomFlag: Mask := Mask({3})
  const TopLeft: Mask := Union(TopFlag, LeftFlag)
  const TopRight: Mask := Union(TopFlag, RightFlag)
  const BottomLeft: Mask := Union(BottomFlag, LeftFlag)
  const BottomRight: Mask := Union(BottomFlag, RightFlag)

  /** The single-flag mask of an edge: exactly one bit, one of the low
      four. */
  function Flag(e: Edge): (m: Mask)
    ensures |m.bits| == 1
    ensures OnlyEdgeBits(m)
  {
    match e
    case Left => LeftFlag
    case Right => RightFlag
    case Top => TopFlag
    case Bottom => BottomFlag
  }

  /** `contains`: every bit of `member` is set in `m`. */
  predicate Contains(m: Mask, member: Mask)
  {
    member.bits <= m.bits
  }

  /** Option-set union: the smallest mask containing both operands. */
  function Union(a: Mask, b: Mask): (r: Mask)
    ensures Contains(r, a) && Contains(r, b)
    ensures forall i :: i in r.bits ==> i in a.bits || i in b.bits
  {
    Mask(a.bits + b.bits)
  }

  /** `insert`: afterwards the mask contains `member`, and every bit outside
      `member` is what it was. */
  function Insert(m: Mask, member: Mask): (r: Mask)
    ensures Contains(r, member)
    ensures forall i :: i !in member.bits ==> (i in r.bits <==> i in m.bits)
  {
    Union(m, member)
  }

  /** `remove`: afterwards no bit of `member` is set, and every bit outside
      `member` is what it was. */
  function Remove(m: Mask, member: Mask): (r: Mask)
    ensures r.bits !! member.bits
    ensures forall i :: i !in member.bits ==> (i in r.bits <==> i in m.bits)
  {
    Mask(m.bits - member.bits)
  }

  /** The edges a mask names: the abstract view of its four meaningful
      bits. */
  function Edges(m: Mask): set<Edge>
  {
    set e: Edge | e in {Left, Right, Top, Bottom} && Contains(m, Flag(e))
  }

  /** A mask built from the four edge flags only. */
  predicate OnlyEdgeBits(m: Mask)
  {
    m.bits <= {0, 1, 2, 3}
  }

  /** The integer raw value of the low four bits of a mask (the part every
      named constant lives in). */
  function LowRawValue(m: Mask): (v: int)
    ensures 0 <= v < 16
  {
    (if 0 in m.bits then 1 else 0) + (if 1 in m.bits then 2 else 0)
    + (if 2 in m.bits then 4 else 0) + (if 3 in m.bits then 8 else 0)
  }

  /** The edge whose flag is bit `i`, for one of the low four bits. */
  function EdgeAt(i: BitIndex): (e: Edge)
    requires i < 4
    ensures Flag(e).bits == {i}
  {
    if i == 0 then Left else if i == 1 then Right else if i == 2 then Top else Bottom
  }

  /** Distinct edges have disjoint flags. */
  lemma FlagsAreDisjoint(e: Edge, e': Edge)
    ensures e != e' <==> Flag(e).bits !! Flag(e').bits
  {
  }

  /** Membership of an edge's flag is membership of the edge in the
      abstract edge set. */
  lemma ContainsFlagIsMembership(m: Mask, e: Edge)
    ensures Contains(m, Flag(e)) <==> e in Edges(m)
  {
  }

  /** On masks built from the four flags, the subset test is the subset
      relation on edge sets, and two such masks are equal exactly when they
      name the same edges. */
  lemma ContainsIsSubset(m: Mask, n: Mask)
    requires OnlyEdgeBits(m) && OnlyEdgeBits(n)
    ensures Contains(m, n) <==> Edges(n) <= Edges(m)
    ensures m == n <==> Edges(m) == Edges(n)
  {
    if Edges(n) <= Edges(m) {
      forall i | i in n.bits
        ensures i in m.bits
      {
        assert EdgeAt(i) in Edges(n);
      }
    }
    if Edges(m) == Edges(n) {
      forall i | i in m.bits
        ensures i in n.bits
      {
        assert EdgeAt(i) in Edges(m);
      }
      forall i | i in n.bits
        ensures i in m.bits
      {
        assert EdgeAt(i) in Edges(n);
      }
    }
  }

  /** Inserting an edge flag adds exactly that edge. */
  lemma InsertAddsEdge(m: Mask, e: Edge)
    ensures Edges(Insert(m, Flag(e))) == Edges(m) + {e}
  {
  }

  /** Removing an edge flag takes away exactly that edge. */
  lemma RemoveDropsEdge(m: Mask, e: Edge)
    ensures Edges(Remove(m, Flag(e))) == Edges(m) - {e}
  {
  }

  /** The named constants: Center is empty, each corner names exactly its
      two edges, and each single flag names its own edge. */
  lemma ConstantsAreUnions()
    ensures Edges(Center) == {} && Center.bits == {}
    ensures LowRawValue(LeftFlag) == 1 && LowRawValue(RightFlag) == 2
    ensures LowRawValue(TopFlag) == 4 && LowRawValue(BottomFlag) == 8
    ensures Edges(TopLeft) == {Top, Left} && LowRawValue(TopLeft) == 5
    ensures Edges(TopRight) == {Top, Right} && LowRawValue(TopRight) == 6
    ensures Edges(BottomLeft) == {Bottom, Left} && LowRawValue(BottomLeft) == 9
    ensures Edges(BottomRight) == {Bottom, Right} && LowRawValue(BottomRight) == 10
    ensures forall e :: Edges(Flag(e)) == {e}
  {
  }

  /** Option-set equality compares raw values: on masks built from the four
      flags, equal raw values mean equal masks and the converse. */
  lemma RawValueDeterminesMask(m: Mask, n: Mask)
    requires OnlyEdgeBits(m) && OnlyEdgeBits(n)
    ensures m == n <==> LowRawValue(m) == LowRawValue(n)
  {
  }

  /** Every mask contains the empty mask, so testing for `Center` with
      `contains` is true whatever the alignment. */
  lemma EveryMaskContainsCenter(m: Mask)
    ensures Contains(m, Center)
  {
  }
}
