/** What the ranges of calculateMinimalIpRange are, whatever the order of the inputs. */
module GroupLaws {
  import opened Text
  import opened Ranges
  import opened RangeText
  import opened IpGroups

  /** Every input fixes at least the 16 bits that decide about merging: plain addresses do. */
  ghost predicate LongPrefixes(bs: seq<Cells>) {
    forall i :: 0 <= i < |bs| ==> Len(bs[i]) >= THRESHOLD
  }

  ghost predicate PlainAddresses(bs: seq<Cells>) {
    forall i :: 0 <= i < |bs| ==> Len(bs[i]) == BITS
  }

  ghost predicate Member(bs: seq<Cells>, k: seq<int>, b: Cells) {
    b in bs && KeyOf(b) == k
  }

  lemma MeetIsWithin(bs: seq<Cells>, k: seq<int>)
    requires k in Keys(bs)
    ensures forall b: Cells | Member(bs, k, b) :: Meet(bs, k) <= Prefix(b)
    ensures exists b: Cells :: Member(bs, k, b)
  {
    MeetIsGreatest(bs, k, Meet(bs, k));
    KeysAreDistinct(bs);
    var i :| 0 <= i < |bs| && KeyOf(bs[i]) == k;
    assert Member(bs, k, bs[i]);
  }

  lemma SharedIsWithinMeet(bs: seq<Cells>, k: seq<int>, r: Range)
    requires k in Keys(bs)
    requires forall b: Cells | Member(bs, k, b) :: r <= Prefix(b)
    ensures r <= Meet(bs, k)
  {
    MeetIsGreatest(bs, k, r);
    forall i | 0 <= i < |bs| && KeyOf(bs[i]) == k
      ensures r <= Prefix(bs[i])
    {
      assert Member(bs, k, bs[i]);
    }
  }

  /** Every range starts with its own 16-bit key and is no shorter than that. */
  lemma RangeStartsWithKey(bs: seq<Cells>, i: nat)
    requires LongPrefixes(bs) && i < |Keys(bs)|
    ensures IsBits(Keys(bs)[i]) && |Keys(bs)[i]| == THRESHOLD
    ensures Keys(bs)[i] <= MinimalRanges(bs)[i]
  {
    hide Meet, Keys;
    var k := Keys(bs)[i];
    MeetIsWithin(bs, k);
    forall b: Cells | Member(bs, k, b)
      ensures IsBits(k) && |k| == THRESHOLD && k <= Prefix(b)
    {
      assert Prefix(b)[..THRESHOLD] == b[..THRESHOLD];
    }
    SharedIsWithinMeet(bs, k, k);
  }

  /** All members of a group have the same first `n` bits. */
  ghost predicate Agree(bs: seq<Cells>, k: seq<int>, n: nat)
    requires n <= BITS
  {
    forall b: Cells, c: Cells | Member(bs, k, b) && Member(bs, k, c) :: b[..n] == c[..n]
  }

  lemma MeetLength(bs: seq<Cells>, k: seq<int>, n: nat)
    requires PlainAddresses(bs) && k in Keys(bs) && n <= BITS
    ensures |Meet(bs, k)| >= n <==> Agree(bs, k, n)
  {
    hide Meet, Keys;
    var m := Meet(bs, k);
    MeetIsWithin(bs, k);
    if |m| >= n {
      forall b: Cells | Member(bs, k, b)
        ensures b[..n] == m[..n]
      {
        assert m <= Prefix(b) == b;
      }
    }
    if Agree(bs, k, n) {
      var b: Cells :| Member(bs, k, b);
      forall c: Cells | Member(bs, k, c)
        ensures b[..n] <= Prefix(c)
      {
        assert b[..n] == c[..n] && Prefix(c) == c;
      }
      SharedIsWithinMeet(bs, k, b[..n]);
    }
  }

  /** On plain addresses: /32 for a group of equal addresses, else /24 if they share 24 bits, else /16, and the range
      holds the whole group. */
  lemma ShapeOnPlainAddresses(bs: seq<Cells>, i: nat)
    requires PlainAddresses(bs) && i < |Keys(bs)|
    ensures var r, k := MinimalRanges(bs)[i], Keys(bs)[i];
            && k <= r
            && (exists b: Cells :: Member(bs, k, b))
            && (forall b: Cells | Member(bs, k, b) :: r <= b)
            && |r| == if Agree(bs, k, 32) then 32 else if Agree(bs, k, 24) then 24 else 16
  {
    hide Meet, Keys, Agree;
    var r, k := MinimalRanges(bs)[i], Keys(bs)[i];
    RangeStartsWithKey(bs, i);
    MeetIsWithin(bs, k);
    MeetLength(bs, k, 32);
    MeetLength(bs, k, 24);
    forall b: Cells | Member(bs, k, b)
      ensures r <= b
    {
      assert Prefix(b) == b;
      InclusionIsPrefix(r, Meet(bs, k));
      InclusionIsPrefix(Meet(bs, k), b);
      InclusionIsPrefix(r, b);
    }
  }

  lemma RangesAreDisjoint(bs: seq<Cells>)
    requires LongPrefixes(bs)
    ensures PairwiseDisjoint(MinimalRanges(bs))
  {
    var rs := MinimalRanges(bs);
    KeysAreDistinct(bs);
    forall i, j | 0 <= i < j < |rs|
      ensures !Overlap(rs[i], rs[j])
    {
      RangeStartsWithKey(bs, i);
      RangeStartsWithKey(bs, j);
      assert rs[i][..THRESHOLD] != rs[j][..THRESHOLD];
    }
  }

  /** Every address of every input is covered. */
  lemma InputsAreCovered(bs: seq<Cells>, b: Cells)
    requires b in bs
    ensures Addresses(Prefix(b)) <= AddressesOf(MinimalRanges(bs))
  {
    KeysAreDistinct(bs);
    var k := KeyOf(b);
    var j :| 0 <= j < |bs| && bs[j] == b;
    assert k in Keys(bs);
    var i :| 0 <= i < |Keys(bs)| && Keys(bs)[i] == k;
    MeetIsWithin(bs, k);
    assert Member(bs, k, b);
    InclusionIsPrefix(Meet(bs, k), Prefix(b));
    InclusionIsPrefix(MinimalRanges(bs)[i], Meet(bs, k));
  }

  lemma MeetInside(bs: seq<Cells>, cs: seq<Cells>, k: seq<int>)
    requires k in Keys(bs) && k in Keys(cs)
    requires forall b: Cells | Member(bs, k, b) :: Member(cs, k, b)
    ensures Meet(cs, k) <= Meet(bs, k)
  {
    hide Meet, Keys, Prefix;
    MeetIsWithin(cs, k);
    SharedIsWithinMeet(bs, k, Meet(cs, k));
  }

  /** The same inputs in another order, or more often, give the same ranges. */
  lemma OrderIsIrrelevant(bs: seq<Cells>, cs: seq<Cells>)
    requires forall b: Cells :: b in bs <==> b in cs
    ensures forall r :: r in MinimalRanges(bs) ==> r in MinimalRanges(cs)
  {
    hide Meet, Keys, Prefix, KeyOf;
    forall i | 0 <= i < |Keys(bs)|
      ensures MinimalRanges(bs)[i] in MinimalRanges(cs)
    {
      var k := Keys(bs)[i];
      MeetIsWithin(bs, k);
      var b: Cells :| Member(bs, k, b);
      KeyIsFound(cs, b);
      MeetInside(bs, cs, k);
      MeetInside(cs, bs, k);
      var n :| 0 <= n < |Keys(cs)| && Keys(cs)[n] == k;
      assert MinimalRanges(cs)[n] == MinimalRanges(bs)[i];
    }
  }

  lemma KeyIsFound(bs: seq<Cells>, b: Cells)
    requires b in bs
    ensures KeyOf(b) in Keys(bs)
  {
    KeysAreDistinct(bs);
    var j :| 0 <= j < |bs| && bs[j] == b;
  }

  // ----- feeding the result back in -----

  lemma TextHoldsNoColon(r: Range)
    ensures ':' !in TextOf(r)
  {
    JoinHolds(OctetTexts(Octets(r)), '.', ':');
  }

  lemma TextHasOneSlash(r: Range)
    ensures Count(TextOf(r), '/') == 1
  {
    hide IpCells, PlainCells, TextOf;
    TextRoundTrip(r);
    assert |Split(TextOf(r), '/')| == 2;
  }

  /** Printed ranges are read back one by one. */
  lemma {:induction false} ReadBack(rs: seq<Range>, cs: seq<Cells>)
    requires |cs| == |rs| && forall i :: 0 <= i < |rs| ==> cs[i] == CellsOf(rs[i])
    ensures forall text | text in TextsOf(rs) :: ':' !in text && IpCells(text) != Crash
    ensures Readable(TextsOf(rs)) == cs
  {
    hide TextOf, CellsOf, RangeCells, Split;
    if rs != [] {
      var n := |rs| - 1;
      ReadBack(rs[..n], cs[..n]);
      assert TextsOf(rs)[..n] == TextsOf(rs[..n]);
      TextHoldsNoColon(rs[n]);
      TextHasOneSlash(rs[n]);
      TextRoundTrip(rs[n]);
      assert cs == cs[..n] + [cs[n]];
    }
  }

  lemma {:induction false} DistinctKeysStay(cs: seq<Cells>)
    requires forall i, j :: 0 <= i < j < |cs| ==> KeyOf(cs[i]) != KeyOf(cs[j])
    ensures |Keys(cs)| == |cs|
    ensures forall i :: 0 <= i < |cs| ==> Keys(cs)[i] == KeyOf(cs[i]) && Meet(cs, KeyOf(cs[i])) == Prefix(cs[i])
  {
    hide KeyOf, Prefix, Common;
    if cs != [] {
      var front := cs[..|cs| - 1];
      DistinctKeysStay(front);
      KeysAreDistinct(front);
      assert forall i :: 0 <= i < |front| ==> KeyOf(front[i]) == KeyOf(cs[i]);
    }
  }

  lemma CellsKeepKey(bs: seq<Cells>, i: nat)
    requires LongPrefixes(bs) && i < |Keys(bs)|
    ensures var r := MinimalRanges(bs)[i];
            KeyOf(CellsOf(r)) == Keys(bs)[i] && Prefix(CellsOf(r)) == r && Aligned(r) == r
  {
    hide Keys, Meet;
    RangeStartsWithKey(bs, i);
    PrefixOfCellsOf(MinimalRanges(bs)[i]);
  }

  /** Running the calculation on its own result changes nothing. */
  lemma ResultIsStable(bs: seq<Cells>)
    requires LongPrefixes(bs)
    ensures MinimalRanges(Readable(TextsOf(MinimalRanges(bs)))) == MinimalRanges(bs)
  {
    hide Keys, Meet, TextsOf, Readable, CellsOf, KeyOf, Prefix, Aligned;
    var rs := MinimalRanges(bs);
    var cs := seq(|rs|, i requires 0 <= i < |rs| => CellsOf(rs[i]));
    ReadBack(rs, cs);
    KeysAreDistinct(bs);
    forall i | 0 <= i < |rs|
      ensures KeyOf(cs[i]) == Keys(bs)[i] && Prefix(cs[i]) == rs[i] && Aligned(rs[i]) == rs[i]
    {
      CellsKeepKey(bs, i);
    }
    DistinctKeysStay(cs);
  }
}
