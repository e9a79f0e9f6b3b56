/** Range inclusion, and punching one address out of a range. */
module Exclusion {
  import opened Text
  import opened Ranges
  import opened RangeText
  import opened IpGroups

  // ----- isPartOfRange -----

  /** Both texts are readable and the first range includes the second. */
  predicate Includes(ipRange: string, subIpRange: string) {
    && RangeOf(ipRange).Some?
    && RangeOf(subIpRange).Some?
    && RangeOf(ipRange).value <= RangeOf(subIpRange).value
  }

  lemma AgreeUpToMarker(c: Cells, d: Cells, i: nat)
    requires i <= BITS && c[..i] == d[..i] && i <= Len(c)
    ensures i == Len(c) ==> Prefix(c) <= Prefix(d)
    ensures i < Len(c) && c[i] != d[i] ==> !(Prefix(c) <= Prefix(d))
  {
    assert forall k :: 0 <= k < i ==> c[k] == c[..i][k] == d[k];
    if i == Len(c) {
      assert Len(d) >= i;
      assert Prefix(d)[..i] == d[..i];
    } else if c[i] != d[i] && Len(d) > i {
      assert Prefix(c)[i] != Prefix(d)[i];
    }
  }

  method IsPartOfRange(ipRange: string, subIpRange: string) returns (isPart: bool)
    requires RangeCells(ipRange) != Crash && RangeCells(subIpRange) != Crash
    ensures isPart == Includes(ipRange, subIpRange)
  {
    hide RangeCells, Prefix, Len;
    var range := IpRangeToBin(ipRange);
    if range.Bad? {
      return false;
    }
    var sub := IpRangeToBin(subIpRange);
    if sub.Bad? {
      return false;
    }
    var ipRangeBin, subIpRangeBin := range.cells, sub.cells;
    for i := 0 to BITS
      invariant i <= Len(ipRangeBin) && ipRangeBin[..i] == subIpRangeBin[..i]
    {
      AgreeUpToMarker(ipRangeBin, subIpRangeBin, i);
      if ipRangeBin[i] == -1 {
        return true;
      }
      if subIpRangeBin[i] != ipRangeBin[i] {
        return false;
      }
    }
    AgreeUpToMarker(ipRangeBin, subIpRangeBin, BITS);
    return true;
  }

  /** isPartOfRange decides inclusion of address sets. */
  lemma IncludesIsInclusion(ipRange: string, subIpRange: string)
    requires RangeOf(ipRange).Some? && RangeOf(subIpRange).Some?
    ensures Includes(ipRange, subIpRange) <==>
            Addresses(RangeOf(subIpRange).value) <= Addresses(RangeOf(ipRange).value)
  {
    InclusionIsPrefix(RangeOf(ipRange).value, RangeOf(subIpRange).value);
  }

  // ----- excludeIpFromRange -----

  /** The range that agrees with the address on its first `i` bits and differs in the next one. */
  function Sibling(a: Address, i: nat): (p: Range)
    requires i < BITS
    ensures |p| == i + 1
  {
    a[..i] + [1 - a[i]]
  }

  /** The siblings of an address from bit `from` on. */
  function Siblings(a: Address, from: nat): (ps: seq<Range>)
    requires from <= BITS
    ensures |ps| == BITS - from
    ensures forall i :: 0 <= i < |ps| ==> ps[i] == Sibling(a, from + i)
  {
    seq<Range>(BITS - from, i requires 0 <= i < BITS - from => Sibling(a, from + i))
  }

  /** What excludeIpFromRange computes. The last bit of the range is never compared with the address. */
  function Excluded(p: Range, a: Address): seq<Range> {
    if |p| > 0 && p[..|p| - 1] <= a then Siblings(a, |p|) else []
  }

  /** A sibling holds exactly the addresses whose first difference to `a` is at bit `i`. */
  lemma SiblingHolds(a: Address, i: nat, b: Address)
    requires i < BITS
    ensures Holds(Sibling(a, i), b) <==> b[..i] == a[..i] && b[i] != a[i]
  {
    if Holds(Sibling(a, i), b) {
      assert b[..i + 1] == Sibling(a, i);
      assert b[..i] == b[..i + 1][..i];
    }
    if b[..i] == a[..i] && b[i] != a[i] {
      assert b[..i + 1] == b[..i] + [b[i]];
    }
  }

  lemma {:induction false} FirstDifferenceExists(a: Address, b: Address, from: nat) returns (i: nat)
    requires from <= BITS && a[..from] == b[..from] && a != b
    ensures from <= i < BITS && b[..i] == a[..i] && b[i] != a[i]
    decreases BITS - from
  {
    assert a[..BITS] == a && b[..BITS] == b;
    if a[from] != b[from] {
      i := from;
    } else {
      assert a[..from + 1] == a[..from] + [a[from]] == b[..from + 1];
      i := FirstDifferenceExists(a, b, from + 1);
    }
  }

  lemma SiblingsCover(a: Address, from: nat, b: Address)
    requires from <= BITS
    ensures Covers(Siblings(a, from), b) <==> Holds(a[..from], b) && b != a
  {
    hide Sibling, Siblings;
    var ps := Siblings(a, from);
    if Covers(ps, b) {
      var i :| 0 <= i < |ps| && Holds(ps[i], b);
      SiblingHolds(a, from + i, b);
      assert b[..from] == b[..from + i][..from] == a[..from];
    }
    if Holds(a[..from], b) && b != a {
      assert b[..from] == a[..from];
      var i := FirstDifferenceExists(a, b, from);
      SiblingHolds(a, i, b);
      assert Holds(ps[i - from], b);
    }
  }

  /** The siblings from bit `from` on partition what shares those bits with the address, less the address. */
  lemma SiblingsPartition(a: Address, from: nat)
    requires from <= BITS
    ensures PairwiseDisjoint(Siblings(a, from))
    ensures AddressesOf(Siblings(a, from)) == Addresses(a[..from]) - iset{a}
  {
    hide Sibling, Siblings;
    var ps := Siblings(a, from);
    forall i, j | 0 <= i < j < |ps|
      ensures !Overlap(ps[i], ps[j])
    {
      SiblingsDiffer(a, from + i, from + j);
    }
    hide Covers, Holds;
    forall b: Address
      ensures Covers(ps, b) <==> Holds(a[..from], b) && b != a
    {
      SiblingsCover(a, from, b);
    }
  }

  lemma SiblingsDiffer(a: Address, i: nat, j: nat)
    requires i < j < BITS
    ensures !Overlap(Sibling(a, i), Sibling(a, j))
  {
    assert Sibling(a, j)[i] == a[i] != Sibling(a, i)[i];
  }

  /** excludeIpFromRange is an exact partition of the range less the address: 32 - L ranges with masks L+1 to 32 in
      order, pairwise disjoint. */
  lemma ExcludedIsPartition(p: Range, a: Address)
    requires |p| > 0 && Holds(p, a)
    ensures |Excluded(p, a)| == BITS - |p|
    ensures forall i :: 0 <= i < |Excluded(p, a)| ==> |Excluded(p, a)[i]| == |p| + 1 + i
    ensures PairwiseDisjoint(Excluded(p, a))
    ensures AddressesOf(Excluded(p, a)) == Addresses(p) - iset{a}
  {
    assert p[..|p| - 1] <= a by {
      InclusionIsPrefix(p[..|p| - 1], p);
    }
    assert a[..|p|] == p;
    SiblingsPartition(a, |p|);
  }

  /** The result is right exactly when the range fixes a bit and holds the address: on 0.0.0.0/0 nothing comes back,
      and an address in the other half of the parent range is answered with that half. */
  lemma ExcludedIsRightIff(p: Range, a: Address)
    ensures AddressesOf(Excluded(p, a)) == Addresses(p) - iset{a} <==> |p| > 0 && Holds(p, a)
  {
    if |p| > 0 && Holds(p, a) {
      ExcludedIsPartition(p, a);
    } else {
      var b := MissedAddress(p, a);
      assert b in Addresses(p) - iset{a} && b !in AddressesOf(Excluded(p, a));
    }
  }

  /** Where the result is wrong, it misses this address of the range. */
  lemma MissedAddress(p: Range, a: Address) returns (b: Address)
    requires |p| == 0 || !Holds(p, a)
    ensures Holds(p, b) && b != a && !Covers(Excluded(p, a), b)
  {
    var low := Lowest(p);
    b := if low == a then low[BITS - 1 := 1 - low[BITS - 1]] else low;
    if |p| > 0 && p[..|p| - 1] <= a {
      // the address lies in the other half of the parent range, and so do its siblings
      SiblingsPartition(a, |p|);
      assert b[..|p|] == p != a[..|p|];
      assert !Holds(a[..|p|], b);
      assert b !in AddressesOf(Siblings(a, |p|));
    }
  }

  /** A readable range has exactly one end marker, right after its prefix. */
  lemma OneMarker(ipRange: string)
    requires RangeCells(ipRange).Parsed?
    ensures var c := RangeCells(ipRange).cells;
            forall k :: 0 <= k < BITS ==> (c[k] < 0 <==> k == Len(c))
  {
    hide PlainCells, Atoi, Split;
    var c := RangeCells(ipRange).cells;
    var parts := Split(ipRange, '/');
    var n := Atoi(parts[1]).value;
    PlainHasNoMarker(parts[0]);
    LenIs(c, if n < BITS then n else BITS);
  }

  lemma PlainHasNoMarker(ip: string)
    requires PlainCells(ip).Parsed?
    ensures forall k :: 0 <= k < BITS ==> PlainCells(ip).cells[k] >= 0
  {
  }

  function Flipped(cell: int): int {
    if cell == 0 then 1 else 0
  }

  /** The buffer after the turn for bit `i`, up to its end marker; the address may itself have one. */
  function Turned(a: Cells, i: nat): Cells
    requires i < BITS
  {
    a[..i] + [Flipped(a[i])] + seq(BITS - i - 1, _ => -1)
  }

  /** What excludeIpFromRange computes for the cells of any text. */
  function ExcludedCells(p: Range, a: Cells): seq<Range> {
    if |p| > 0 && p[..|p| - 1] <= a
    then seq<Range>(BITS - |p|, i requires 0 <= i < BITS - |p| => Prefix(Turned(a, |p| + i))) else []
  }

  lemma SamePrefix(c: Cells, d: Cells, k: nat)
    requires k <= BITS && c[..k] == d[..k] && (k < BITS ==> c[k] < 0 && d[k] < 0)
    ensures Prefix(c) == Prefix(d)
  {
    var n := Len(c);
    assert n <= k;
    assert forall j :: 0 <= j < k ==> c[j] == c[..k][j] == d[j];
    LenIs(d, n);
    assert c[..n] == c[..k][..n];
  }

  lemma TurnedIsSibling(a: Address, i: nat)
    requires i < BITS
    ensures Prefix(Turned(a, i)) == Sibling(a, i)
  {
    LenIs(Turned(a, i), i + 1);
    assert Turned(a, i)[..i + 1] == a[..i] + [Flipped(a[i])];
  }

  /** On an address it is what the laws above speak of. */
  lemma ExcludedCellsOfAddress(p: Range, a: Address)
    ensures ExcludedCells(p, a) == Excluded(p, a)
  {
    hide Turned, Sibling, Prefix;
    forall i | |p| <= i < BITS
      ensures Prefix(Turned(a, i)) == Sibling(a, i)
    {
      TurnedIsSibling(a, i);
    }
  }

  /** A range with a shorter mask is not taken out of a range around it: some of it comes back. */
  lemma RangeIsNotExcluded(p: Range, q: Range) returns (a: Address)
    requires 0 < |p| && p <= q && |q| < BITS
    ensures Holds(q, a) && Covers(ExcludedCells(p, CellsOf(q)), a)
  {
    var c := CellsOf(q);
    assert p[..|p| - 1] <= c;
    var i := if |q| == BITS - 1 then BITS - 1 else |q| + 1;
    var t := Turned(c, i);
    LenIs(t, if |q| == BITS - 1 then BITS else |q|);
    a := Lowest(q);
    assert Prefix(t) <= a;
    assert Holds(ExcludedCells(p, c)[i - |p|], a);
  }

  /** One turn of the loop below in the host part: the buffer takes over one more cell of the address, flips the next
      one, ends there and is printed. */
  method PrintSibling(excludedIpBin: array<int>, ipBin: Cells, i: nat) returns (text: string)
    requires excludedIpBin.Length == BITS && 0 < i < BITS
    requires excludedIpBin[..i - 1] == ipBin[..i - 1]
    requires forall k :: 0 <= k < BITS ==> -1 <= excludedIpBin[k] <= 1
    modifies excludedIpBin
    ensures text == TextOf(Prefix(Turned(ipBin, i)))
    ensures excludedIpBin[..i] == ipBin[..i]
    ensures forall k :: 0 <= k < BITS ==> -1 <= excludedIpBin[k] <= 1
  {
    hide Prefix, Len, TextOf;
    excludedIpBin[i - 1] := ipBin[i - 1];
    excludedIpBin[i] := if ipBin[i] == 0 then 1 else 0;
    if i < 31 {
      excludedIpBin[i + 1] := -1;
    }
    assert excludedIpBin[..i] == excludedIpBin[..i - 1] + [excludedIpBin[i - 1]];
    assert excludedIpBin[..i + 1] == Turned(ipBin, i)[..i + 1];
    SamePrefix(excludedIpBin[..], Turned(ipBin, i), i + 1);
    text := BinToIpRange(excludedIpBin[..], false);
  }

  lemma PrefixFront(c: Cells)
    ensures |Prefix(c)| == Len(c)
    ensures forall k | 0 <= k <= Len(c) :: Prefix(c)[..k] == c[..k]
  {
  }

  lemma PrefixMatches(a: Cells, p: Range)
    ensures |p| > 0 ==> (p[..|p| - 1] <= a <==> p[..|p| - 1] == a[..|p| - 1])
  {
  }

  /** What the loop below does, in terms of the prefix length of the range. */
  lemma ExcludedFrom(c: Cells, a: Cells)
    ensures Len(c) == 0 || Len(c) == BITS ==> ExcludedCells(Prefix(c), a) == []
    ensures 0 < Len(c) < BITS && c[..Len(c) - 1] == a[..Len(c) - 1] ==>
              |ExcludedCells(Prefix(c), a)| == BITS - Len(c)
              && forall k :: 0 <= k < BITS - Len(c) ==> ExcludedCells(Prefix(c), a)[k] == Prefix(Turned(a, Len(c) + k))
  {
    PrefixFront(c);
    hide Turned, Prefix;
    PrefixMatches(a, Prefix(c));
  }

  lemma NothingExcluded(c: Cells, a: Cells, i: nat)
    requires 0 <= i < BITS && i + 1 < Len(c) && c[i] != a[i]
    ensures ExcludedCells(Prefix(c), a) == []
  {
    PrefixFront(c);
    hide Turned, Prefix;
    assert Prefix(c)[..Len(c) - 1][i] == c[i];
  }

  lemma AllPrinted(texts: seq<string>, rs: seq<Range>)
    requires |texts| == |rs| && forall k :: 0 <= k < |texts| ==> texts[k] == TextOf(rs[k])
    ensures texts == TextsOf(rs)
  {
    hide TextOf;
  }

  lemma OneLonger(s: seq<int>, t: seq<int>, i: nat)
    requires i < |s| && i < |t| && s[..i] == t[..i] && s[i] == t[i]
    ensures s[..i + 1] == t[..i + 1]
  {
  }

  method ExcludeIpFromRange(ipRange: string, ip: string) returns (ranges: seq<string>)
    requires RangeCells(ipRange) != Crash && IpCells(ip) != Crash
    ensures ranges ==
            if RangeOf(ipRange).Some? && IpCells(ip).Parsed?
            then TextsOf(ExcludedCells(RangeOf(ipRange).value, IpCells(ip).cells)) else []
  {
    hide RangeCells, IpCells, Prefix, Len, TextOf, TextsOf, Turned, ExcludedCells;
    assert TextsOf([]) == [] by {
      NothingPrinted();
    }
    var range := IpRangeToBin(ipRange);
    if range.Bad? {
      return [];
    }
    var address := IpToBin(ip);
    if address.Bad? {
      return [];
    }
    var ipRangeBin, ipBin := range.cells, address.cells;
    OneMarker(ipRange);
    ExcludedFrom(ipRangeBin, ipBin);
    ghost var length := Len(ipRangeBin);
    var excludedRanges: seq<string> := [];
    var excludedIpBin := new int[32](_ => 0);
    var reachHostPart := false;
    for i := 0 to 32
      invariant reachHostPart <==> 0 < length <= i && length < 32
      invariant !reachHostPart
                ==> |excludedRanges| == 0 && ipRangeBin[..i] == ipBin[..i] && excludedIpBin[..i] == ipBin[..i]
      invariant reachHostPart
                ==> ipRangeBin[..length - 1] == ipBin[..length - 1] && excludedIpBin[..i - 1] == ipBin[..i - 1]
      invariant reachHostPart ==> |excludedRanges| == i - length
      invariant forall k :: 0 <= k < |excludedRanges| ==> excludedRanges[k] == TextOf(Prefix(Turned(ipBin, length + k)))
      invariant forall k :: 0 <= k < 32 ==> -1 <= excludedIpBin[k] <= 1
    {
      if i < 31 && ipRangeBin[i + 1] == -1 {
        reachHostPart := true;
      } else if reachHostPart {
        var text := PrintSibling(excludedIpBin, ipBin, i);
        excludedRanges := excludedRanges + [text];
      } else if ipRangeBin[i] != ipBin[i] {
        if i + 1 < length {
          NothingExcluded(ipRangeBin, ipBin, i);
        }
        return [];
      } else {
        OneLonger(ipRangeBin, ipBin, i);
        excludedIpBin[i] := ipBin[i];
        OneLonger(excludedIpBin[..], ipBin, i);
      }
    }
    if reachHostPart {
      AllPrinted(excludedRanges, ExcludedCells(Prefix(ipRangeBin), ipBin));
    }
    return excludedRanges;
  }

  lemma NothingPrinted()
    ensures TextsOf([]) == []
  {
  }
}
