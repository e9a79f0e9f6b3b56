/** Addresses as 32-bit numbers: an independent account of what the texts of calculateMinimalIpRange stand for. A range
    with mask m is a block of 2^(32-m) numbers that begins at a multiple of its size. */
module CidrNumbers {
  import opened Text
  import opened Ranges
  import opened RangeText
  import opened IpGroups
  import opened GroupLaws

  /** The four octets of an address. */
  predicate IsQuad(ns: seq<int>) {
    |ns| == 4 && forall i :: 0 <= i < 4 ==> 0 <= ns[i] < 256
  }

  function Number(ns: seq<int>): int
    requires |ns| == 4
  {
    ((ns[0] * 256 + ns[1]) * 256 + ns[2]) * 256 + ns[3]
  }

  /** Two numbers lie in the same block of a mask. */
  predicate SameBlock(x: int, y: int, mask: nat)
    requires mask <= BITS
  {
    x / Pow2(BITS - mask) == y / Pow2(BITS - mask)
  }

  function MaskText(ns: seq<int>, mask: nat): string {
    QuadText(ns) + "/" + Itoa(mask)
  }

  /** "a.b.c.d/m" holds x. */
  ghost predicate TextHolds(text: string, x: int) {
    exists ns, mask: nat :: IsQuad(ns) && mask <= BITS && text == MaskText(ns, mask) && SameBlock(x, Number(ns), mask)
  }

  // ----- bits and numbers -----

  lemma {:induction false} ValueOfConcat(s: seq<int>, t: seq<int>)
    ensures Value(s + t) == Value(s) * Pow2(|t|) + Value(t)
  {
    if t == [] {
      assert s + t == s;
    } else {
      var n := |t| - 1;
      ValueOfConcat(s, t[..n]);
      assert (s + t)[..|s + t| - 1] == s + t[..n];
      hide Value;
      ShiftedSum(Value(s), Pow2(n), Value(t[..n]), t[n]);
    }
  }

  lemma ShiftedSum(a: int, power: int, b: int, bit: int)
    ensures 2 * (a * power + b) + bit == a * (2 * power) + (2 * b + bit)
  {
  }

  /** The leading bits are the quotient. */
  lemma ValueOfPrefix(s: seq<int>, k: nat)
    requires IsBits(s) && k <= |s|
    ensures Value(s) / Pow2(|s| - k) == Value(s[..k])
  {
    assert s == s[..k] + s[k..];
    ValueOfConcat(s[..k], s[k..]);
    BitsOfValue(s[k..]);
    hide Value, Pow2;
    Quotient(Value(s), Value(s[..k]), Pow2(|s| - k), Value(s[k..]));
  }

  lemma Quotient(x: int, q: int, d: int, r: int)
    requires d > 0 && x == q * d + r && 0 <= r < d
    ensures x / d == q
  {
    var e, m := x / d - q, x % d;
    assert x == x / d * d + m;
    Difference(x / d, q, d);
    assert e * d == r - m;
    Difference(0, e, d);
    if e > 0 {
      AtLeastOnce(e, d);
    } else if e < 0 {
      AtLeastOnce(-e, d);
    }
  }

  lemma Difference(p: int, q: int, d: int)
    ensures (p - q) * d == p * d - q * d
  {
  }

  lemma AtLeastOnce(e: int, d: int)
    requires e >= 1 && d > 0
    ensures e * d >= d
  {
  }

  lemma SameValueSameBits(s: seq<int>, t: seq<int>)
    requires IsBits(s) && IsBits(t) && |s| == |t|
    ensures Value(s) == Value(t) <==> s == t
  {
    BitsOfValue(s);
    BitsOfValue(t);
  }

  /** Addresses agree on their first bits exactly if their numbers lie in the same block. */
  lemma PrefixIsBlock(a: Address, b: Address, mask: nat)
    requires mask <= BITS
    ensures a[..mask] == b[..mask] <==> SameBlock(Value(a), Value(b), mask)
  {
    ValueOfPrefix(a, mask);
    ValueOfPrefix(b, mask);
    hide Value, Pow2;
    SameValueSameBits(a[..mask], b[..mask]);
  }

  lemma OctetValue(n: int)
    requires 0 <= n < 256
    ensures Value(OctetBits(n)) == n && Pow2(|OctetBits(n)|) == 256
  {
    OctetRoundTrip(n, []);
    assert Pow2(8) == 256;
  }

  lemma {:induction false} ValueOfQuads(ns: seq<int>)
    requires ns != [] && forall i :: 0 <= i < |ns| ==> 0 <= ns[i] < 256
    ensures Value(QuadBits(ns)) == Value(QuadBits(ns[..|ns| - 1])) * 256 + ns[|ns| - 1]
  {
    var n := |ns| - 1;
    ValueOfConcat(QuadBits(ns[..n]), OctetBits(ns[n]));
    OctetValue(ns[n]);
    hide Value, Pow2, OctetBits;
  }

  /** The bits of an address are those of its number. */
  lemma NumberOfQuad(ns: seq<int>)
    requires IsQuad(ns)
    ensures Value(QuadBits(ns)) == Number(ns)
  {
    var one, two, three := ns[..1], ns[..2], ns[..3];
    assert three[..2] == two && two[..1] == one && one[..0] == [];
    assert Value(QuadBits([])) == 0;
    hide Value, QuadBits;
    ValueOfQuads(one);
    ValueOfQuads(two);
    ValueOfQuads(three);
    ValueOfQuads(ns);
  }

  lemma QuadsAreBlocks(ns: seq<int>, ms: seq<int>, mask: nat)
    requires IsQuad(ns) && IsQuad(ms) && mask <= BITS
    ensures QuadBits(ns)[..mask] == QuadBits(ms)[..mask] <==> SameBlock(Number(ns), Number(ms), mask)
  {
    NumberOfQuad(ns);
    NumberOfQuad(ms);
    hide QuadBits;
    PrefixIsBlock(QuadBits(ns), QuadBits(ms), mask);
  }

  // ----- reading -----

  lemma QuadTextIs(ns: seq<int>)
    requires |ns| == 4
    ensures QuadText(ns) == Itoa(ns[0]) + "." + Itoa(ns[1]) + "." + Itoa(ns[2]) + "." + Itoa(ns[3])
  {
    var texts := OctetTexts(ns);
    hide OctetTexts, Itoa;
    assert texts[1..][1..][1..] == [texts[3]] && texts[1..][1..] == [texts[2], texts[3]];
    assert texts[1..] == [texts[1], texts[2], texts[3]];
    assert Join(texts[1..][1..], '.') == texts[2] + ['.'] + texts[3];
    assert Join(texts[1..], '.') == texts[1] + ['.'] + (texts[2] + ['.'] + texts[3]);
    assert QuadText(ns) == texts[0] + ['.'] + (texts[1] + ['.'] + (texts[2] + ['.'] + texts[3]));
    Flattened(texts[0], texts[1], texts[2], texts[3]);
  }

  lemma Flattened(a: string, b: string, c: string, d: string)
    ensures a + ['.'] + (b + ['.'] + (c + ['.'] + d)) == a + "." + b + "." + c + "." + d
  {
    assert "." == ['.'];
  }

  /** An address without a mask is read as its bits, and one with a mask as as many of them; a mask beyond 32 cuts
      nothing off. */
  lemma TextsAreRead(ns: seq<int>, mask: nat)
    requires IsQuad(ns) && mask < INT64_LIMIT
    ensures IpCells(QuadText(ns)) == Parsed(QuadBits(ns))
    ensures RangeOf(MaskText(ns, mask)) == Some(QuadBits(ns)[..if mask < BITS then mask else BITS])
    ensures IpCells(MaskText(ns, mask)) == RangeCells(MaskText(ns, mask)) != Crash
  {
    QuadIsRead(ns);
    CountIsZero(QuadText(ns), '/');
    AtoiOfItoa(mask);
    MaskSplits(ns, mask);
    assert Count(MaskText(ns, mask), '/') == 1;
    hide Split, QuadText, QuadBits, PlainCells, Atoi, Itoa, Count, MaskText;
    MaskedCells(QuadBits(ns), mask);
  }

  lemma MaskSplits(ns: seq<int>, mask: nat)
    requires IsQuad(ns)
    ensures Split(MaskText(ns, mask), '/') == [QuadText(ns), Itoa(mask)]
  {
    QuadIsRead(ns);
    assert '/' !in Itoa(mask);
    hide Split, QuadText, Itoa;
    SplitCons(QuadText(ns), Itoa(mask), '/');
    SplitPlain(Itoa(mask), '/');
    assert "/" == ['/'];
  }

  lemma MaskedCells(c: Cells, mask: nat)
    requires IsBits(c)
    ensures mask < BITS ==> Prefix(c[mask := -1]) == c[..mask]
    ensures Prefix(c) == c
  {
    LenIs(c, BITS);
    if mask < BITS {
      LenIs(c[mask := -1], mask);
    }
  }

  /** A text with a mask holds exactly the numbers of its block. */
  lemma MaskTextHolds(ns: seq<int>, mask: nat, q: seq<int>)
    requires IsQuad(ns) && IsQuad(q) && mask <= BITS
    ensures RangeOf(MaskText(ns, mask)).Some?
    ensures Holds(RangeOf(MaskText(ns, mask)).value, QuadBits(q)) <==> SameBlock(Number(q), Number(ns), mask)
  {
    TextsAreRead(ns, mask);
    QuadsAreBlocks(q, ns, mask);
    hide RangeOf, QuadBits, Number;
    var a, p: Address := QuadBits(q), QuadBits(ns);
    assert p[..mask] <= a <==> p[..mask] == a[..mask];
  }

  lemma TextHoldsIff(text: string, q: seq<int>)
    requires IsQuad(q) && exists ns, mask: nat :: IsQuad(ns) && mask <= BITS && text == MaskText(ns, mask)
    ensures RangeOf(text).Some? && (Holds(RangeOf(text).value, QuadBits(q)) <==> TextHolds(text, Number(q)))
  {
    var ns, mask: nat :| IsQuad(ns) && mask <= BITS && text == MaskText(ns, mask);
    MaskTextHolds(ns, mask, q);
    hide RangeOf, QuadBits, MaskText;
    if TextHolds(text, Number(q)) {
      var ms, m: nat :| IsQuad(ms) && m <= BITS && text == MaskText(ms, m) && SameBlock(Number(q), Number(ms), m);
      MaskTextHolds(ms, m, q);
    }
  }

  // ----- the ranges of a list of addresses -----

  /** An address is in a list of texts. */
  predicate Listed(ips: seq<string>, ns: seq<int>) {
    IsQuad(ns) && QuadText(ns) in ips
  }

  /** All listed addresses with the first two octets of ns also share its first k octets. */
  ghost predicate Sharing(ips: seq<string>, ns: seq<int>, k: nat)
    requires |ns| == 4 && k <= 4
  {
    forall q | Listed(ips, q) && q[..2] == ns[..2] :: q[..k] == ns[..k]
  }

  /** An address that is the only one of its group is a range of its own; else the group's range has 24 or 16 bits. */
  ghost function GroupMask(ips: seq<string>, ns: seq<int>): (mask: nat)
    requires |ns| == 4
    ensures mask <= BITS
  {
    if Sharing(ips, ns, 4) then 32 else if Sharing(ips, ns, 3) then 24 else 16
  }

  function Masked(ns: seq<int>, mask: nat): seq<int>
    requires |ns| == 4
  {
    if mask == 32 then ns else if mask == 24 then ns[..3] + [0] else ns[..2] + [0, 0]
  }

  ghost function GroupText(ips: seq<string>, ns: seq<int>): string
    requires |ns| == 4
  {
    var mask := GroupMask(ips, ns);
    MaskText(Masked(ns, mask), mask)
  }

  /** Addresses without a mask, and IPv6 addresses, which are passed over. */
  ghost predicate AllAddresses(ips: seq<string>) {
    forall ip | ip in ips :: ':' in ip || exists ns :: IsQuad(ns) && ip == QuadText(ns)
  }

  lemma QuadHasNoColon(ns: seq<int>)
    requires IsQuad(ns)
    ensures ':' !in QuadText(ns)
  {
    JoinHolds(OctetTexts(ns), '.', ':');
  }

  lemma SameEnds<T>(s: seq<T>, t: seq<T>)
    requires |s| == |t| > 0 && s[..|s| - 1] == t[..|t| - 1] && s[|s| - 1] == t[|t| - 1]
    ensures s == t
  {
    assert s == s[..|s| - 1] + [s[|s| - 1]] && t == t[..|t| - 1] + [t[|t| - 1]];
  }

  lemma {:induction false} BitsDetermine(s: seq<int>, t: seq<int>)
    requires |s| == |t|
    requires forall i :: 0 <= i < |s| ==> 0 <= s[i] < 256 && 0 <= t[i] < 256
    ensures QuadBits(s) == QuadBits(t) <==> s == t
  {
    hide QuadBits, OctetBits, Value, Pow2;
    if s != [] && QuadBits(s) == QuadBits(t) {
      var n := |s| - 1;
      LastOctet(s);
      LastOctet(t);
      OctetValue(s[n]);
      OctetValue(t[n]);
      BitsDetermine(s[..n], t[..n]);
      SameEnds(s, t);
    }
  }

  lemma LastOctet(s: seq<int>)
    requires s != []
    ensures var n := |s| - 1; QuadBits(s)[..8 * n] == QuadBits(s[..n]) && QuadBits(s)[8 * n..] == OctetBits(s[n])
  {
    hide OctetBits;
  }

  /** The bits of the first octets come first. */
  lemma FrontBits(ns: seq<int>, k: nat)
    requires |ns| == 4 && k <= 4
    ensures QuadBits(ns)[..8 * k] == QuadBits(ns[..k])
    decreases 4 - k
  {
    if k < 4 {
      FrontBits(ns, k + 1);
      var next := ns[..k + 1];
      LastOctet(next);
      hide QuadBits;
      assert next[..k] == ns[..k];
      SliceOfFront(QuadBits(ns), 8 * (k + 1), 0, 8 * k);
    } else {
      assert ns[..4] == ns && QuadBits(ns)[..32] == QuadBits(ns);
    }
  }

  lemma SharedOctets(ns: seq<int>, q: seq<int>, k: nat)
    requires IsQuad(ns) && IsQuad(q) && k <= 4
    ensures QuadBits(ns)[..8 * k] == QuadBits(q)[..8 * k] <==> ns[..k] == q[..k]
  {
    FrontBits(ns, k);
    FrontBits(q, k);
    hide QuadBits;
    BitsDetermine(ns[..k], q[..k]);
  }

  /** What the calculation reads are the bits of the listed addresses. */
  lemma {:induction false} ReadableAre(ips: seq<string>)
    requires AllAddresses(ips)
    ensures forall c: Cells :: c in Readable(ips) <==> exists ns :: Listed(ips, ns) && c == QuadBits(ns)
  {
    hide QuadBits, QuadText, IpCells;
    if ips != [] {
      var n := |ips| - 1;
      var front, ip := ips[..n], ips[n];
      assert ips == front + [ip] && ip in ips;
      assert AllAddresses(front);
      ReadableAre(front);
      forall c: Cells
        ensures c in Readable(ips) <==> exists ns :: Listed(ips, ns) && c == QuadBits(ns)
      {
        OneMoreListed(front, ip, c);
      }
    }
  }

  lemma PassedOver(front: seq<string>, ip: string)
    requires ':' in ip
    ensures forall ns :: Listed(front + [ip], ns) <==> Listed(front, ns)
    ensures Readable(front + [ip]) == Readable(front)
  {
    var ips := front + [ip];
    assert ips[..|front|] == front;
    hide QuadText, IpCells;
    forall ns
      ensures Listed(ips, ns) <==> Listed(front, ns)
    {
      if IsQuad(ns) {
        QuadHasNoColon(ns);
      }
    }
  }

  lemma OneMoreListed(front: seq<string>, ip: string, c: Cells)
    requires ':' in ip || exists ns :: IsQuad(ns) && ip == QuadText(ns)
    requires c in Readable(front) <==> exists ns :: Listed(front, ns) && c == QuadBits(ns)
    ensures c in Readable(front + [ip]) <==> exists ns :: Listed(front + [ip], ns) && c == QuadBits(ns)
  {
    hide QuadBits, QuadText, IpCells, Readable;
    if ':' in ip {
      PassedOver(front, ip);
      hide Listed;
    } else {
      var own :| IsQuad(own) && ip == QuadText(own);
      TextsAreRead(own, 0);
      ReadableGrows(front, ip);
      forall ns
        ensures Listed(front + [ip], ns) <==> Listed(front, ns) || ns == own
      {
        OnlyItself(front, own, ns);
      }
      hide Listed;
    }
  }

  lemma OnlyItself(front: seq<string>, own: seq<int>, ns: seq<int>)
    requires IsQuad(own)
    ensures Listed(front + [QuadText(own)], ns) <==> Listed(front, ns) || ns == own
  {
    if IsQuad(ns) && QuadText(ns) == QuadText(own) {
      TextsAreRead(ns, 0);
      TextsAreRead(own, 0);
      hide QuadBits, QuadText, IpCells;
      BitsDetermine(ns, own);
    }
    hide QuadText;
  }

  lemma ReadableGrows(front: seq<string>, ip: string)
    requires ':' !in ip && IpCells(ip).Parsed?
    ensures Readable(front + [ip]) == Readable(front) + [IpCells(ip).cells]
  {
    hide IpCells;
    assert (front + [ip])[..|front|] == front;
  }

  lemma PlainCellsAreLong(ips: seq<string>)
    requires AllAddresses(ips)
    ensures PlainAddresses(Readable(ips)) && LongPrefixes(Readable(ips))
  {
    ReadableAre(ips);
    hide Readable, QuadBits, Listed;
    forall i | 0 <= i < |Readable(ips)|
      ensures Len(Readable(ips)[i]) == BITS
    {
      var c := Readable(ips)[i];
      assert c in Readable(ips);
      MaskedCells(c, BITS);
    }
  }

  /** The members of a group are the listed addresses with its first two octets. */
  lemma MembersAre(ips: seq<string>, ns: seq<int>, c: Cells)
    requires AllAddresses(ips) && IsQuad(ns)
    ensures Member(Readable(ips), KeyOf(QuadBits(ns)), c) <==>
            exists q :: Listed(ips, q) && c == QuadBits(q) && q[..2] == ns[..2]
  {
    ReadableAre(ips);
    hide Readable, QuadBits, QuadText;
    if c in Readable(ips) {
      var q :| Listed(ips, q) && c == QuadBits(q);
      SharedOctets(q, ns, 2);
      if q' :| Listed(ips, q') && c == QuadBits(q') && q'[..2] == ns[..2] {
        SharedOctets(q', ns, 2);
      }
    }
    if q :| Listed(ips, q) && c == QuadBits(q) && q[..2] == ns[..2] {
      SharedOctets(q, ns, 2);
    }
  }

  lemma AgreeingShares(ips: seq<string>, ns: seq<int>, k: nat, q: seq<int>)
    requires AllAddresses(ips) && Listed(ips, ns) && k <= 4
    requires Agree(Readable(ips), KeyOf(QuadBits(ns)), 8 * k) && Listed(ips, q) && q[..2] == ns[..2]
    ensures q[..k] == ns[..k]
  {
    hide Readable, QuadBits, KeyOf, Member, AllAddresses, QuadText;
    MembersAre(ips, ns, QuadBits(ns));
    MembersAre(ips, ns, QuadBits(q));
    SharedOctets(q, ns, k);
  }

  lemma SharingAgrees(ips: seq<string>, ns: seq<int>, k: nat, c: Cells)
    requires AllAddresses(ips) && Listed(ips, ns) && k <= 4
    requires Sharing(ips, ns, k) && Member(Readable(ips), KeyOf(QuadBits(ns)), c)
    ensures c[..8 * k] == QuadBits(ns)[..8 * k]
  {
    hide Readable, QuadBits, KeyOf, Member, AllAddresses, QuadText;
    MembersAre(ips, ns, c);
    var q :| Listed(ips, q) && c == QuadBits(q) && q[..2] == ns[..2];
    SharedOctets(q, ns, k);
  }

  lemma AgreeIsSharing(ips: seq<string>, ns: seq<int>, k: nat)
    requires AllAddresses(ips) && Listed(ips, ns) && k <= 4
    ensures Agree(Readable(ips), KeyOf(QuadBits(ns)), 8 * k) <==> Sharing(ips, ns, k)
  {
    var bs, key := Readable(ips), KeyOf(QuadBits(ns));
    hide Readable, QuadBits, KeyOf, Member, AllAddresses, Listed;
    if Agree(bs, key, 8 * k) {
      forall q | Listed(ips, q) && q[..2] == ns[..2]
        ensures q[..k] == ns[..k]
      {
        AgreeingShares(ips, ns, k, q);
      }
    }
    if Sharing(ips, ns, k) {
      forall c: Cells | Member(bs, key, c)
        ensures c[..8 * k] == QuadBits(ns)[..8 * k]
      {
        SharingAgrees(ips, ns, k, c);
      }
    }
  }

  /** The lowest address of a group's range has zeros behind the octets that the group shares. */
  lemma LowestIsMasked(ns: seq<int>, mask: nat)
    requires IsQuad(ns) && mask in {16, 24, 32}
    ensures IsQuad(Masked(ns, mask)) && Lowest(QuadBits(ns)[..mask]) == QuadBits(Masked(ns, mask))
  {
    var k := mask / 8;
    var low := Masked(ns, mask);
    FrontBits(ns, k);
    FrontBits(low, k);
    assert low[..k] == ns[..k];
    assert Lowest(QuadBits(ns)[..mask])[..mask] == QuadBits(low)[..mask];
    ZeroOctets(low, k);
    assert forall i | mask <= i < BITS :: QuadBits(low)[i] == QuadBits(low)[mask..][i - mask];
    hide QuadBits;
    assert Lowest(QuadBits(ns)[..mask]) == QuadBits(low)[..mask] + QuadBits(low)[mask..];
  }

  lemma {:induction false} ZeroOctets(ns: seq<int>, k: nat)
    requires k <= |ns| && forall i :: k <= i < |ns| ==> ns[i] == 0
    ensures QuadBits(ns)[8 * k..] == seq(8 * (|ns| - k), _ => 0)
  {
    if k < |ns| {
      var n := |ns| - 1;
      LastOctet(ns);
      ZeroOctets(ns[..n], k);
      BitsOfZero(8);
      hide QuadBits;
      assert QuadBits(ns) == QuadBits(ns[..n]) + OctetBits(ns[n]);
      assert QuadBits(ns)[8 * k..] == QuadBits(ns[..n])[8 * k..] + OctetBits(ns[n]);
    } else {
      assert QuadBits(ns)[8 * k..] == [];
    }
  }

  lemma TextOfMasked(ns: seq<int>, mask: nat)
    requires IsQuad(ns) && mask in {16, 24, 32}
    ensures TextOf(QuadBits(ns)[..mask]) == MaskText(Masked(ns, mask), mask)
  {
    var p: Range := QuadBits(ns)[..mask];
    LowestIsMasked(ns, mask);
    OctetsOfLowest(p);
    hide QuadBits, Octets, QuadText, Itoa, Masked;
    BitsDetermine(Octets(p), Masked(ns, mask));
  }

  lemma GroupRange(ips: seq<string>, ns: seq<int>, i: nat)
    requires AllAddresses(ips) && Listed(ips, ns)
    requires i < |Keys(Readable(ips))| && Keys(Readable(ips))[i] == KeyOf(QuadBits(ns))
    ensures var r := MinimalRanges(Readable(ips))[i]; r <= QuadBits(ns) && |r| == GroupMask(ips, ns)
  {
    var bs, key := Readable(ips), KeyOf(QuadBits(ns));
    hide MinimalRanges, Readable, Keys, KeyOf, QuadBits, Member, Agree, Sharing, AllAddresses, Listed;
    PlainCellsAreLong(ips);
    ShapeOnPlainAddresses(bs, i);
    AgreeIsSharing(ips, ns, 4);
    AgreeIsSharing(ips, ns, 3);
    ListedIsMember(ips, ns);
  }

  lemma ListedIsMember(ips: seq<string>, ns: seq<int>)
    requires AllAddresses(ips) && Listed(ips, ns)
    ensures IsQuad(ns) && Member(Readable(ips), KeyOf(QuadBits(ns)), QuadBits(ns))
  {
    hide Readable, KeyOf, QuadBits, Member;
    MembersAre(ips, ns, QuadBits(ns));
  }

  /** The range of the group of a listed address. */
  lemma GroupIs(ips: seq<string>, ns: seq<int>, i: nat)
    requires AllAddresses(ips) && Listed(ips, ns)
    requires i < |Keys(Readable(ips))| && Keys(Readable(ips))[i] == KeyOf(QuadBits(ns))
    ensures MinimalRanges(Readable(ips))[i] == QuadBits(ns)[..GroupMask(ips, ns)]
    ensures TextsOf(MinimalRanges(Readable(ips)))[i] == GroupText(ips, ns)
  {
    hide MinimalRanges, Readable, Keys, KeyOf, QuadBits, Sharing, TextOf, AllAddresses, Masked, MaskText;
    GroupRange(ips, ns, i);
    TextOfMasked(ns, GroupMask(ips, ns));
  }

  lemma GroupOf(ips: seq<string>, ns: seq<int>) returns (i: nat)
    requires AllAddresses(ips) && Listed(ips, ns)
    ensures i < |Keys(Readable(ips))| && Keys(Readable(ips))[i] == KeyOf(QuadBits(ns))
  {
    ReadableAre(ips);
    hide Readable, Keys, KeyOf, QuadBits;
    KeyIsFound(Readable(ips), QuadBits(ns));
    i :| 0 <= i < |Keys(Readable(ips))| && Keys(Readable(ips))[i] == KeyOf(QuadBits(ns));
  }

  lemma AddressOfGroup(ips: seq<string>, i: nat) returns (ns: seq<int>)
    requires AllAddresses(ips) && i < |Keys(Readable(ips))|
    ensures Listed(ips, ns) && Keys(Readable(ips))[i] == KeyOf(QuadBits(ns))
  {
    var bs := Readable(ips);
    ReadableAre(ips);
    MeetIsWithin(bs, Keys(bs)[i]);
    hide Readable, Keys, KeyOf, QuadBits, Meet;
    var b: Cells :| Member(bs, Keys(bs)[i], b);
    ns :| Listed(ips, ns) && b == QuadBits(ns);
  }

  /** What calculateMinimalIpRange makes of a list of addresses, text by text: exactly one range for each pair of first
      two octets that is listed, the block of 32, 24 or 16 bits by what the group shares; it holds the whole group. */
  lemma RangesOfAddresses(ips: seq<string>)
    requires AllAddresses(ips)
    ensures var texts := TextsOf(MinimalRanges(Readable(ips)));
            && (forall text :: text in texts <==> exists ns :: Listed(ips, ns) && text == GroupText(ips, ns))
            && (forall i, j :: 0 <= i < j < |texts| ==> texts[i] != texts[j])
    ensures forall ns, q | Listed(ips, ns) && Listed(ips, q) ::
              GroupText(ips, ns) == GroupText(ips, q) <==> ns[..2] == q[..2]
    ensures forall ns | Listed(ips, ns) :: TextHolds(GroupText(ips, ns), Number(ns))
  {
    var texts := TextsOf(MinimalRanges(Readable(ips)));
    hide MinimalRanges, Readable, Keys, KeyOf, QuadBits, GroupText, TextHolds, Number;
    forall text
      ensures text in texts <==> exists ns :: Listed(ips, ns) && text == GroupText(ips, ns)
    {
      if i :| 0 <= i < |texts| && texts[i] == text {
        var ns := AddressOfGroup(ips, i);
        GroupIs(ips, ns, i);
      }
      if ns :| Listed(ips, ns) && text == GroupText(ips, ns) {
        var i := GroupOf(ips, ns);
        GroupIs(ips, ns, i);
      }
    }
    forall i, j | 0 <= i < j < |texts|
      ensures texts[i] != texts[j]
    {
      GroupsDiffer(ips, i, j);
    }
    forall ns, q | Listed(ips, ns) && Listed(ips, q)
      ensures GroupText(ips, ns) == GroupText(ips, q) <==> ns[..2] == q[..2]
    {
      SameGroup(ips, ns, q);
    }
    forall ns | Listed(ips, ns)
      ensures TextHolds(GroupText(ips, ns), Number(ns))
    {
      GroupHolds(ips, ns);
    }
  }

  lemma GroupsDiffer(ips: seq<string>, i: nat, j: nat)
    requires AllAddresses(ips) && i < j < |Keys(Readable(ips))|
    ensures TextsOf(MinimalRanges(Readable(ips)))[i] != TextsOf(MinimalRanges(Readable(ips)))[j]
  {
    var bs := Readable(ips);
    PlainCellsAreLong(ips);
    RangesAreDisjoint(bs);
    hide Readable, Keys, TextOf, RangeOf;
    TextRoundTrip(MinimalRanges(bs)[i]);
    TextRoundTrip(MinimalRanges(bs)[j]);
  }

  lemma SameGroup(ips: seq<string>, ns: seq<int>, q: seq<int>)
    requires AllAddresses(ips) && Listed(ips, ns) && Listed(ips, q)
    ensures GroupText(ips, ns) == GroupText(ips, q) <==> ns[..2] == q[..2]
  {
    var i := GroupOf(ips, ns);
    var j := GroupOf(ips, q);
    GroupIs(ips, ns, i);
    GroupIs(ips, q, j);
    SharedOctets(ns, q, 2);
    KeysAreDistinct(Readable(ips));
    hide MinimalRanges, Readable, Keys, QuadBits, GroupText;
    if i < j {
      GroupsDiffer(ips, i, j);
    } else if j < i {
      GroupsDiffer(ips, j, i);
    }
  }

  /** The base of the block lies in it. */
  lemma GroupBase(ns: seq<int>, mask: nat)
    requires IsQuad(ns) && mask in {16, 24, 32} && IsQuad(Masked(ns, mask))
    ensures SameBlock(Number(ns), Number(Masked(ns, mask)), mask)
  {
    LowestIsMasked(ns, mask);
    var low := Lowest(QuadBits(ns)[..mask]);
    assert low[..mask] == QuadBits(ns)[..mask];
    hide Lowest, Masked, Number, QuadBits;
    QuadsAreBlocks(ns, Masked(ns, mask), mask);
  }

  lemma GroupHolds(ips: seq<string>, ns: seq<int>)
    requires AllAddresses(ips) && Listed(ips, ns)
    ensures TextHolds(GroupText(ips, ns), Number(ns))
  {
    var mask := GroupMask(ips, ns);
    LowestIsMasked(ns, mask);
    GroupBase(ns, mask);
    hide Sharing, MaskText, Masked, Number;
  }
}
