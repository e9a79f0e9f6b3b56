/** ClusterCidr: the ranges to route into the cluster, without the API server and without what the user excludes. */
module CidrPlan {
  import opened Text
  import opened Ranges
  import opened RangeText
  import opened IpGroups
  import opened GroupLaws
  import opened Exclusion

  // ----- mergeIpRange -----

  /** What is left of a range without the server. */
  function Remainder(r: Range, server: Option<Address>): seq<Range> {
    if server.Some? && Holds(r, server.value) then Excluded(r, server.value) else [r]
  }

  /** The ranges with the server punched out of those that hold it. */
  function WithoutServer(rs: seq<Range>, server: Option<Address>): seq<Range> {
    if rs == [] then []
    else
      var front, r := WithoutServer(rs[..|rs| - 1], server), rs[|rs| - 1];
      front + Remainder(r, server)
  }

  /** The address of the API server, if mergeIpRange can read it. */
  function ServerOf(apiServerIp: string): Option<Address> {
    match RangeOf(apiServerIp + "/32")
    case None => None
    case Some(p) => if |p| == BITS then Some(p) else None
  }

  /** A readable server is one address. */
  lemma ServerIsAddress(apiServerIp: string)
    ensures RangeOf(apiServerIp + "/32").Some? <==> ServerOf(apiServerIp).Some?
    ensures ServerOf(apiServerIp).Some? ==> IpCells(apiServerIp + "/32") == Parsed(ServerOf(apiServerIp).value)
    ensures ServerOf(apiServerIp).None? ==> !IpCells(apiServerIp + "/32").Parsed?
    ensures IpCells(apiServerIp + "/32") == Crash ==> RangeCells(apiServerIp + "/32") == Crash
  {
    var text := apiServerIp + "/32";
    hide PlainCells, Atoi, Split;
    CountOfConcat(apiServerIp, "/32", '/');
    CountIsZero(apiServerIp, '/');
    if '/' !in apiServerIp {
      assert text == apiServerIp + ['/'] + "32";
      SplitCons(apiServerIp, "32", '/');
      SplitPlain("32", '/');
      assert Itoa(32) == "32";
      AtoiOfItoa(32);
      if PlainCells(apiServerIp).Parsed? {
        PlainHasNoMarker(apiServerIp);
        LenIs(PlainCells(apiServerIp).cells, BITS);
      }
    }
  }

  lemma TextsOfConcat(rs: seq<Range>, qs: seq<Range>)
    ensures TextsOf(rs + qs) == TextsOf(rs) + TextsOf(qs)
  {
  }

  lemma WithoutServerNext(rs: seq<Range>, i: nat, server: Option<Address>)
    requires i < |rs|
    ensures WithoutServer(rs[..i + 1], server) == WithoutServer(rs[..i], server) + Remainder(rs[i], server)
  {
    assert rs[..i + 1][..i] == rs[..i];
  }

  /** The body of the loop of mergeIpRange. */
  method Punch(ipRange: string, ghost r: Range, apiServerIp: string) returns (ranges: seq<string>)
    requires ipRange == TextOf(r) && RangeCells(apiServerIp + "/32") != Crash
    ensures ranges == TextsOf(Remainder(r, ServerOf(apiServerIp)))
  {
    hide TextOf, RangeCells, IpCells, Excluded, ExcludedCells;
    ServerIsAddress(apiServerIp);
    if ServerOf(apiServerIp).Some? {
      ExcludedCellsOfAddress(r, ServerOf(apiServerIp).value);
    }
    TextRoundTrip(r);
    var isPart := IsPartOfRange(ipRange, apiServerIp + "/32");
    if isPart {
      ranges := ExcludeIpFromRange(ipRange, apiServerIp + "/32");
    } else {
      assert TextsOf([r]) == [ipRange];
      ranges := [ipRange];
    }
  }

  method MergeIpRange(svcCidr: seq<string>, podCidr: seq<string>, apiServerIp: string) returns (mergedCidr: seq<string>)
    requires forall r | r in svcCidr + podCidr :: ':' in r || IpCells(r) != Crash
    requires RangeCells(apiServerIp + "/32") != Crash
    ensures mergedCidr ==
            TextsOf(WithoutServer(MinimalRanges(Readable(svcCidr + podCidr)), ServerOf(apiServerIp)))
  {
    ghost var rs, server := MinimalRanges(Readable(svcCidr + podCidr)), ServerOf(apiServerIp);
    var cidr := CalculateMinimalIpRange(svcCidr + podCidr);
    assert TextsOf(WithoutServer(rs[..0], server)) == [];
    hide MinimalRanges, TextOf, WithoutServer, RangeCells, IpCells, Remainder, ServerOf;
    mergedCidr := [];
    for i := 0 to |cidr|
      invariant mergedCidr == TextsOf(WithoutServer(rs[..i], server))
    {
      WithoutServerNext(rs, i, server);
      TextsOfConcat(WithoutServer(rs[..i], server), Remainder(rs[i], server));
      var ranges := Punch(cidr[i], rs[i], apiServerIp);
      mergedCidr := mergedCidr + ranges;
    }
    assert rs[..|cidr|] == rs;
  }

  /** An unreadable server changes nothing. */
  lemma {:induction false} UnreadableServerChangesNothing(rs: seq<Range>)
    ensures WithoutServer(rs, None) == rs
  {
    if rs != [] {
      UnreadableServerChangesNothing(rs[..|rs| - 1]);
    }
  }

  lemma AddressesOfConcat(ps: seq<Range>, qs: seq<Range>)
    ensures AddressesOf(ps + qs) == AddressesOf(ps) + AddressesOf(qs)
  {
    forall a: Address
      ensures Covers(ps + qs, a) <==> Covers(ps, a) || Covers(qs, a)
    {
      if i :| 0 <= i < |ps| && Holds(ps[i], a) {
        assert Holds((ps + qs)[i], a);
      }
      if i :| 0 <= i < |qs| && Holds(qs[i], a) {
        assert Holds((ps + qs)[|ps| + i], a);
      }
    }
  }

  lemma AddressesOfOne(p: Range)
    ensures AddressesOf([p]) == Addresses(p)
  {
    assert forall a: Address :: Holds(p, a) ==> Holds([p][0], a);
  }

  lemma RemainderCovers(r: Range, a: Address)
    requires |r| > 0
    ensures AddressesOf(Remainder(r, Some(a))) == Addresses(r) - iset{a}
  {
    if Holds(r, a) {
      ExcludedIsPartition(r, a);
    } else {
      AddressesOfOne(r);
    }
  }

  /** The addresses of the result are those of the ranges, less the server. */
  lemma {:induction false} WithoutServerCovers(rs: seq<Range>, a: Address)
    requires forall i :: 0 <= i < |rs| ==> |rs[i]| > 0
    ensures AddressesOf(WithoutServer(rs, Some(a))) == AddressesOf(rs) - iset{a}
  {
    if rs != [] {
      hide Remainder, Addresses, AddressesOf;
      var front, r := rs[..|rs| - 1], rs[|rs| - 1];
      WithoutServerCovers(front, a);
      RemainderCovers(r, a);
      assert rs == front + [r];
      AddressesOfConcat(front, [r]);
      AddressesOfOne(r);
      AddressesOfConcat(WithoutServer(front, Some(a)), Remainder(r, Some(a)));
    } else {
      assert AddressesOf([]) == iset{};
    }
  }

  lemma RemainderIsInside(r: Range, server: Option<Address>, i: nat)
    requires i < |Remainder(r, server)|
    ensures r <= Remainder(r, server)[i]
  {
    if server.Some? && Holds(r, server.value) {
      var a := server.value;
      assert r == a[..|r|] == Sibling(a, |r| + i)[..|r|];
    }
  }

  lemma {:induction false} WithoutServerIsInside(rs: seq<Range>, server: Option<Address>, i: nat)
    requires i < |WithoutServer(rs, server)|
    ensures exists j :: 0 <= j < |rs| && rs[j] <= WithoutServer(rs, server)[i]
  {
    hide Remainder;
    var front, r := rs[..|rs| - 1], rs[|rs| - 1];
    if i < |WithoutServer(front, server)| {
      WithoutServerIsInside(front, server, i);
      var j :| 0 <= j < |front| && front[j] <= WithoutServer(front, server)[i];
      assert rs[j] == front[j];
    } else {
      RemainderIsInside(r, server, i - |WithoutServer(front, server)|);
    }
  }

  lemma OverlapIsAgreement(p: Range, q: Range)
    ensures Overlap(p, q) <==> forall k :: 0 <= k < |p| && k < |q| ==> p[k] == q[k]
  {
    if forall k :: 0 <= k < |p| && k < |q| ==> p[k] == q[k] {
      if |p| <= |q| {
        assert p == q[..|p|];
      } else {
        assert q == p[..|q|];
      }
    }
  }

  lemma PartsAreApart(p: Range, q: Range, p': Range, q': Range)
    requires !Overlap(p, q) && p <= p' && q <= q'
    ensures !Overlap(p', q')
  {
    OverlapIsAgreement(p, q);
    OverlapIsAgreement(p', q');
    var k :| 0 <= k < |p| && k < |q| && p[k] != q[k];
    assert p'[k] == p[k] && q'[k] == q[k];
  }

  /** Punching out the server keeps ranges disjoint. */
  lemma {:induction false} WithoutServerIsDisjoint(rs: seq<Range>, server: Option<Address>)
    requires PairwiseDisjoint(rs)
    ensures PairwiseDisjoint(WithoutServer(rs, server))
  {
    if rs != [] {
      hide Remainder, Overlap;
      var front, r := rs[..|rs| - 1], rs[|rs| - 1];
      var ps, qs := WithoutServer(front, server), Remainder(r, server);
      WithoutServerIsDisjoint(front, server);
      RemainderIsDisjoint(r, server);
      forall i, j | 0 <= i < |ps| && 0 <= j < |qs|
        ensures !Overlap(ps[i], qs[j])
      {
        WithoutServerIsInside(front, server, i);
        var n :| 0 <= n < |front| && front[n] <= ps[i];
        RemainderIsInside(r, server, j);
        PartsAreApart(rs[n], r, ps[i], qs[j]);
      }
      forall i, j | 0 <= i < j < |ps + qs|
        ensures !Overlap((ps + qs)[i], (ps + qs)[j])
      {
      }
    }
  }

  lemma RemainderIsDisjoint(r: Range, server: Option<Address>)
    ensures PairwiseDisjoint(Remainder(r, server))
  {
    if server.Some? && Holds(r, server.value) {
      SiblingsPartition(server.value, |r|);
    }
  }
}
