/** calculateMinimalIpRange: addresses that agree on their first 16 bits are merged into one octet-aligned range. */
module IpGroups {
  import opened Text
  import opened Ranges
  import opened RangeText

  const THRESHOLD: nat := 16

  /** The cells two inputs must share to be merged. An end marker counts as a cell of its own. */
  function KeyOf(c: Cells): seq<int> {
    c[..THRESHOLD]
  }

  /** The distinct keys, in order of first occurrence. */
  function Keys(bs: seq<Cells>): seq<seq<int>> {
    if bs == [] then []
    else
      var front, k := Keys(bs[..|bs| - 1]), KeyOf(bs[|bs| - 1]);
      if k in front then front else front + [k]
  }

  /** The longest prefix that all inputs with key `k` share. */
  function Meet(bs: seq<Cells>, k: seq<int>): Range
    requires k in Keys(bs)
  {
    var front, last := bs[..|bs| - 1], bs[|bs| - 1];
    if KeyOf(last) != k then Meet(front, k)
    else if k in Keys(front) then Common(Meet(front, k), Prefix(last))
    else Prefix(last)
  }

  /** One range per key: the octet-aligned range around what the group shares. */
  function MinimalRanges(bs: seq<Cells>): (rs: seq<Range>)
    ensures |rs| == |Keys(bs)|
    ensures forall i :: 0 <= i < |rs| ==> rs[i] == Aligned(Meet(bs, Keys(bs)[i]))
  {
    seq(|Keys(bs)|, i requires 0 <= i < |Keys(bs)| => Aligned(Meet(bs, Keys(bs)[i])))
  }

  lemma {:induction false} KeysAreDistinct(bs: seq<Cells>)
    ensures forall i, j :: 0 <= i < j < |Keys(bs)| ==> Keys(bs)[i] != Keys(bs)[j]
    ensures forall k :: k in Keys(bs) <==> exists i :: 0 <= i < |bs| && KeyOf(bs[i]) == k
  {
    if bs != [] {
      var front := bs[..|bs| - 1];
      KeysAreDistinct(front);
      forall k
        ensures k in Keys(bs) <==> exists i :: 0 <= i < |bs| && KeyOf(bs[i]) == k
      {
        if k in Keys(front) {
          var i :| 0 <= i < |front| && KeyOf(front[i]) == k;
          assert KeyOf(bs[i]) == k;
        }
        if i :| 0 <= i < |bs| && KeyOf(bs[i]) == k {
          assert i < |front| ==> KeyOf(front[i]) == k;
        }
      }
    }
  }

  /** The members of a group lie inside a range. */
  predicate GroupInside(bs: seq<Cells>, k: seq<int>, r: Range) {
    forall i :: 0 <= i < |bs| && KeyOf(bs[i]) == k ==> r <= Prefix(bs[i])
  }

  lemma GroupInsideNext(bs: seq<Cells>, k: seq<int>, r: Range)
    requires bs != []
    ensures var front, last := bs[..|bs| - 1], bs[|bs| - 1];
            GroupInside(bs, k, r) <==> GroupInside(front, k, r) && (KeyOf(last) == k ==> r <= Prefix(last))
  {
    hide KeyOf, Prefix;
    var front := bs[..|bs| - 1];
    assert forall i :: 0 <= i < |front| ==> front[i] == bs[i];
  }

  lemma NoGroupInside(bs: seq<Cells>, k: seq<int>, r: Range)
    requires k !in Keys(bs)
    ensures GroupInside(bs, k, r)
  {
    KeysAreDistinct(bs);
    hide Keys, KeyOf, Prefix;
  }

  lemma {:induction false} MeetIsInside(bs: seq<Cells>, k: seq<int>, r: Range)
    requires k in Keys(bs)
    ensures r <= Meet(bs, k) <==> GroupInside(bs, k, r)
  {
    var front, last := bs[..|bs| - 1], bs[|bs| - 1];
    hide KeyOf, Prefix, Common, GroupInside;
    GroupInsideNext(bs, k, r);
    if k in Keys(front) {
      MeetIsInside(front, k, r);
      CommonIsGreatest(Meet(front, k), Prefix(last), r);
    } else {
      NoGroupInside(front, k, r);
    }
  }

  /** A group's range is the greatest range inside all its members' prefixes, and nothing else is. */
  lemma MeetIsGreatest(bs: seq<Cells>, k: seq<int>, r: Range)
    requires k in Keys(bs)
    ensures r <= Meet(bs, k) <==> forall i :: 0 <= i < |bs| && KeyOf(bs[i]) == k ==> r <= Prefix(bs[i])
  {
    MeetIsInside(bs, k, r);
  }

  // ----- the method -----

  /** The inputs that are neither IPv6 nor unreadable. */
  function Readable(ips: seq<string>): seq<Cells> {
    if ips == [] then []
    else
      var front, ip := Readable(ips[..|ips| - 1]), ips[|ips| - 1];
      if ':' !in ip && IpCells(ip).Parsed? then front + [IpCells(ip).cells] else front
  }

  function TextsOf(rs: seq<Range>): (texts: seq<string>)
    ensures |texts| == |rs|
    ensures forall i :: 0 <= i < |rs| ==> texts[i] == TextOf(rs[i])
  {
    seq(|rs|, i requires 0 <= i < |rs| => TextOf(rs[i]))
  }

  /** `bins` has one entry per key, which stands for what the group shares so far. */
  ghost predicate Represents(bins: seq<Cells>, bs: seq<Cells>) {
    && |bins| == |Keys(bs)|
    && forall i :: 0 <= i < |bins| ==> KeyOf(bins[i]) == Keys(bs)[i] && Prefix(bins[i]) == Meet(bs, Keys(bs)[i])
  }

  /** Ending an entry at the first difference to an input leaves what the two share. */
  lemma CutAtDifference(c: Cells, d: Cells, j: nat)
    requires j < BITS && c[..j] == d[..j] && c[j] != d[j]
    ensures Prefix(c[j := -1]) == Common(Prefix(c), Prefix(d))
  {
    var m := if Len(c) < j then Len(c) else j;
    LenIs(c[j := -1], m);
    assert forall k :: 0 <= k < j ==> c[k] == c[..j][k] == d[k];
    assert c[j := -1][..m] == c[..m] == d[..m];
    CommonIs(Prefix(c), Prefix(d), c[..m]);
  }

  lemma RepresentsNew(bins: seq<Cells>, bs: seq<Cells>, b: Cells)
    requires Represents(bins, bs) && KeyOf(b) !in Keys(bs)
    ensures Represents(bins + [b], bs + [b])
  {
    assert (bs + [b])[..|bs|] == bs;
  }

  lemma RepresentsOld(bins: seq<Cells>, bs: seq<Cells>, b: Cells, i: nat, c: Cells)
    requires Represents(bins, bs) && i < |bins| && KeyOf(bins[i]) == KeyOf(b) == KeyOf(c)
    requires Prefix(c) == Common(Prefix(bins[i]), Prefix(b))
    ensures Represents(bins[i := c], bs + [b])
  {
    assert (bs + [b])[..|bs|] == bs;
    KeysAreDistinct(bs);
  }

  /** The first place where an input differs from an entry; 32 if they are equal. */
  method FirstDifference(bins: Cells, ipBin: Cells) returns (j: nat)
    ensures j <= BITS && bins[..j] == ipBin[..j]
    ensures j < BITS ==> bins[j] != ipBin[j]
  {
    j := 0;
    while j < BITS
      invariant j <= BITS && bins[..j] == ipBin[..j]
    {
      if bins[j] != ipBin[j] {
        break;
      }
      j := j + 1;
    }
  }

  lemma MarkedCut(c: Cells, d: Cells, j: nat)
    requires THRESHOLD <= j < BITS && c[..j] == d[..j] && c[j] != d[j]
    ensures KeyOf(c[j := -1]) == KeyOf(c) == KeyOf(d)
    ensures Prefix(c[j := -1]) == Common(Prefix(c), Prefix(d))
  {
    CutAtDifference(c, d, j);
    assert KeyOf(c) == c[..j][..THRESHOLD] == d[..j][..THRESHOLD];
  }

  lemma EqualCells(c: Cells, d: Cells)
    requires c[..BITS] == d[..BITS]
    ensures c == d && KeyOf(c) == KeyOf(d) && Prefix(c) == Common(Prefix(c), Prefix(d))
  {
    assert c == c[..BITS] && d == d[..BITS];
    CommonIs(Prefix(c), Prefix(d), Prefix(c));
  }

  lemma EarlyDifference(c: Cells, d: Cells, j: nat)
    requires j < THRESHOLD && c[j] != d[j]
    ensures KeyOf(c) != KeyOf(d)
  {
    assert KeyOf(c)[j] != KeyOf(d)[j];
  }

  lemma NotAKey(bins: seq<Cells>, bs: seq<Cells>, b: Cells)
    requires Represents(bins, bs)
    requires forall k :: 0 <= k < |bins| ==> KeyOf(bins[k]) != KeyOf(b)
    ensures KeyOf(b) !in Keys(bs)
  {
  }

  lemma ReadableNext(ips: seq<string>, n: nat)
    requires n < |ips|
    ensures Readable(ips[..n + 1]) ==
            if ':' !in ips[n] && IpCells(ips[n]).Parsed? then Readable(ips[..n]) + [IpCells(ips[n]).cells]
            else Readable(ips[..n])
  {
    assert ips[..n + 1][..n] == ips[..n];
  }

  /** The second loop of the method: every entry printed with alignment. */
  method PrintRanges(miniBins: seq<Cells>, ghost bs: seq<Cells>) returns (miniRange: seq<string>)
    requires Represents(miniBins, bs)
    ensures miniRange == TextsOf(MinimalRanges(bs))
  {
    hide Keys, Meet, TextOf, Aligned;
    miniRange := [];
    for i := 0 to |miniBins|
      invariant |miniRange| == i
      invariant forall k :: 0 <= k < i ==> miniRange[k] == TextsOf(MinimalRanges(bs))[k]
    {
      var text := BinToIpRange(miniBins[i], true);
      assert text == TextOf(MinimalRanges(bs)[i]);
      miniRange := miniRange + [text];
    }
  }

  /** The body of the loop over the inputs: merge one input into the entry it matches, or append it. */
  method Absorb(bins: seq<Cells>, ipBin: Cells, ghost bs: seq<Cells>) returns (miniBins: seq<Cells>)
    requires Represents(bins, bs)
    ensures Represents(miniBins, bs + [ipBin])
  {
    hide *;
    miniBins := bins;
    for i := 0 to |bins|
      invariant miniBins == bins
      invariant forall k :: 0 <= k < i ==> KeyOf(bins[k]) != KeyOf(ipBin)
    {
      var j := FirstDifference(bins[i], ipBin);
      if j == BITS {
        // the same cells
        EqualCells(bins[i], ipBin);
        RepresentsOld(bins, bs, ipBin, i, bins[i]);
        assert bins[i := bins[i]] == bins;
        return;
      } else if j >= THRESHOLD {
        // equal beyond the sixteenth cell: the entry ends here
        MarkedCut(bins[i], ipBin, j);
        RepresentsOld(bins, bs, ipBin, i, bins[i][j := -1]);
        miniBins := bins[i := bins[i][j := -1]];
        return;
      }
      EarlyDifference(bins[i], ipBin, j);
    }
    // no entry shares the group
    NotAKey(bins, bs, ipBin);
    RepresentsNew(bins, bs, ipBin);
    miniBins := bins + [ipBin];
  }

  method CalculateMinimalIpRange(ips: seq<string>) returns (miniRange: seq<string>)
    requires forall ip | ip in ips :: ':' in ip || IpCells(ip) != Crash
    ensures miniRange == TextsOf(MinimalRanges(Readable(ips)))
  {
    var miniBins: seq<Cells> := [];
    assert Represents(miniBins, Readable(ips[..0]));
    hide *;
    for n := 0 to |ips|
      invariant Represents(miniBins, Readable(ips[..n]))
    {
      ReadableNext(ips, n);
      if ':' in ips[n] {
        continue;
      }
      var parsed := IpToBin(ips[n]);
      if parsed.Bad? {
        // unreadable
        continue;
      }
      miniBins := Absorb(miniBins, parsed.cells, Readable(ips[..n]));
    }
    assert ips[..|ips|] == ips;
    miniRange := PrintRanges(miniBins, Readable(ips));
  }
}
