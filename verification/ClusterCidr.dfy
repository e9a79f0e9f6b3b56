/** ClusterCidr as a whole, and what its two merging stages amount to. */
module ClusterCidr {
  import opened Text
  import opened Ranges
  import opened RangeText
  import opened IpGroups
  import opened GroupLaws
  import opened CidrPlan
  import opened ExcludeLoop

  // ----- two stages of merging are one -----

  function NewKeys(old_: seq<seq<int>>, new_: seq<seq<int>>): seq<seq<int>> {
    if new_ == [] then []
    else
      var front, k := NewKeys(old_, new_[..|new_| - 1]), new_[|new_| - 1];
      if k in old_ then front else front + [k]
  }

  lemma {:induction false} NewKeysHold(old_: seq<seq<int>>, new_: seq<seq<int>>)
    ensures forall k :: k in NewKeys(old_, new_) <==> k in new_ && k !in old_
  {
    if new_ != [] {
      var front, k := new_[..|new_| - 1], new_[|new_| - 1];
      NewKeysHold(old_, front);
      assert forall x :: x in new_ <==> x in front || x == k;
    }
  }

  lemma KeysNext(bs: seq<Cells>, c: Cells)
    ensures Keys(bs + [c]) == if KeyOf(c) in Keys(bs) then Keys(bs) else Keys(bs) + [KeyOf(c)]
  {
    hide KeyOf;
    assert (bs + [c])[..|bs|] == bs;
  }

  lemma NewKeysNext(old_: seq<seq<int>>, new_: seq<seq<int>>, k: seq<int>)
    ensures NewKeys(old_, new_ + [k]) == if k in old_ then NewKeys(old_, new_) else NewKeys(old_, new_) + [k]
  {
    assert (new_ + [k])[..|new_|] == new_;
  }

  lemma {:induction false} KeysOfConcat(bs: seq<Cells>, cs: seq<Cells>)
    ensures Keys(bs + cs) == Keys(bs) + NewKeys(Keys(bs), Keys(cs))
  {
    hide Keys, KeyOf, NewKeys;
    if cs == [] {
      assert bs + cs == bs;
      NoKeys(Keys(bs));
    } else {
      var front, c := cs[..|cs| - 1], cs[|cs| - 1];
      KeysOfConcat(bs, front);
      KeysOfConcatStep(bs, front, c);
      assert cs == front + [c];
    }
  }

  lemma NoKeys(old_: seq<seq<int>>)
    ensures Keys([]) == [] && NewKeys(old_, []) == [] && old_ + [] == old_
  {
  }

  lemma KeysOfConcatStep(bs: seq<Cells>, front: seq<Cells>, c: Cells)
    requires Keys(bs + front) == Keys(bs) + NewKeys(Keys(bs), Keys(front))
    ensures Keys(bs + (front + [c])) == Keys(bs) + NewKeys(Keys(bs), Keys(front + [c]))
  {
    hide Keys, KeyOf, NewKeys;
    AppendLast(bs, front, c);
    KeysNext(bs + front, c);
    KeysNext(front, c);
    NewKeysHold(Keys(bs), Keys(front));
    NewKeysNext(Keys(bs), Keys(front), KeyOf(c));
    AppendLast(Keys(bs), NewKeys(Keys(bs), Keys(front)), KeyOf(c));
  }

  lemma AppendLast<T>(s: seq<T>, t: seq<T>, x: T)
    ensures s + t + [x] == s + (t + [x])
    ensures x in s + t <==> x in s || x in t
  {
  }

  lemma MeetOfConcat(bs: seq<Cells>, cs: seq<Cells>, k: seq<int>)
    requires k in Keys(bs + cs)
    ensures k in Keys(bs) || k in Keys(cs)
    ensures Meet(bs + cs, k) == if k !in Keys(cs) then Meet(bs, k) else if k !in Keys(bs) then Meet(cs, k)
                                else Common(Meet(bs, k), Meet(cs, k))
  {
    hide Meet, Keys, KeyOf, Prefix;
    KeysOfConcatHold(bs, cs, k);
    forall b: Cells
      ensures Member(bs + cs, k, b) <==> Member(bs, k, b) || Member(cs, k, b)
    {
    }
    var r := if k !in Keys(cs) then Meet(bs, k) else if k !in Keys(bs) then Meet(cs, k)
             else Common(Meet(bs, k), Meet(cs, k));
    if k in Keys(bs) {
      MeetIsWithin(bs, k);
      MeetInside(bs, bs + cs, k);
    } else {
      NoMembers(bs, k);
    }
    if k in Keys(cs) {
      MeetIsWithin(cs, k);
      MeetInside(cs, bs + cs, k);
    } else {
      NoMembers(cs, k);
    }
    if k in Keys(bs) && k in Keys(cs) {
      CommonIsGreatest(Meet(bs, k), Meet(cs, k), Meet(bs + cs, k));
      CommonIsGreatest(Meet(bs, k), Meet(cs, k), r);
    }
    forall b: Cells | Member(bs + cs, k, b)
      ensures r <= Prefix(b)
    {
      var m := if Member(bs, k, b) then Meet(bs, k) else Meet(cs, k);
      InclusionIsPrefix(r, m);
      InclusionIsPrefix(m, Prefix(b));
      InclusionIsPrefix(r, Prefix(b));
    }
    SharedIsWithinMeet(bs + cs, k, r);
  }

  lemma KeysOfConcatHold(bs: seq<Cells>, cs: seq<Cells>, k: seq<int>)
    ensures k in Keys(bs + cs) <==> k in Keys(bs) || k in Keys(cs)
  {
    KeysOfConcat(bs, cs);
    NewKeysHold(Keys(bs), Keys(cs));
  }

  lemma NoMembers(bs: seq<Cells>, k: seq<int>)
    requires k !in Keys(bs)
    ensures forall b: Cells :: !Member(bs, k, b)
  {
    forall b: Cells | b in bs
      ensures KeyOf(b) != k
    {
      KeyIsFound(bs, b);
    }
  }

  lemma AlignedTwice(p: Range)
    ensures Aligned(Aligned(p)) == Aligned(p)
  {
  }

  /** Aligning before taking the common prefix does not change its alignment. */
  lemma AlignedCommon(p: Range, q: Range)
    ensures Aligned(Common(Aligned(p), Aligned(q))) == Aligned(Common(p, q))
  {
    hide Common, Aligned;
    var c, d := Common(p, q), Common(Aligned(p), Aligned(q));
    AlignedTwice(c);
    AlignedTwice(d);
    Chain(Aligned(c), c, p);
    Chain(Aligned(c), c, q);
    AlignedIsGreatest(p, Aligned(c));
    AlignedIsGreatest(q, Aligned(c));
    CommonIsGreatest(Aligned(p), Aligned(q), Aligned(c));
    AlignedIsGreatest(d, Aligned(c));
    Chain(Aligned(d), d, Aligned(p));
    Chain(Aligned(d), Aligned(p), p);
    Chain(Aligned(d), d, Aligned(q));
    Chain(Aligned(d), Aligned(q), q);
    CommonIsGreatest(p, q, Aligned(d));
    AlignedIsGreatest(c, Aligned(d));
  }

  lemma Chain(p: Range, q: Range, r: Range)
    requires p <= q && q <= r
    ensures p <= r
  {
  }

  lemma AlignedIsGreatest(p: Range, r: Range)
    requires Aligned(r) == r && r <= p
    ensures r <= Aligned(p)
  {
  }

  lemma ReadableLast(s: seq<string>, ip: string)
    ensures Readable(s + [ip]) ==
            if ':' !in ip && IpCells(ip).Parsed? then Readable(s) + [IpCells(ip).cells] else Readable(s)
  {
    hide IpCells;
    assert (s + [ip])[..|s|] == s;
  }

  lemma EndsWith<T>(s: seq<T>)
    requires s != []
    ensures s == s[..|s| - 1] + [s[|s| - 1]]
  {
  }

  lemma {:induction false} ReadableOfConcat(s: seq<string>, t: seq<string>)
    ensures Readable(s + t) == Readable(s) + Readable(t)
  {
    if t == [] {
      assert s + t == s;
    } else {
      hide Readable, IpCells;
      var front, ip := t[..|t| - 1], t[|t| - 1];
      ReadableOfConcat(s, front);
      AppendLast(s, front, ip);
      EndsWith(t);
      ReadableLast(s + front, ip);
      ReadableLast(front, ip);
      if ':' !in ip && IpCells(ip).Parsed? {
        AppendLast(Readable(s), Readable(front), IpCells(ip).cells);
      }
    }
  }

  /** The cells that the printed ranges of a group calculation are read back as. */
  function RangeCellsOf(bs: seq<Cells>): (cs: seq<Cells>)
    ensures |cs| == |MinimalRanges(bs)|
    ensures forall i :: 0 <= i < |cs| ==> cs[i] == CellsOf(MinimalRanges(bs)[i])
  {
    seq<Cells>(|MinimalRanges(bs)|, i requires 0 <= i < |MinimalRanges(bs)| => CellsOf(MinimalRanges(bs)[i]))
  }

  /** The printed ranges have the same keys, and each stands for its aligned group. */
  lemma ReadBackKeys(bs: seq<Cells>)
    requires LongPrefixes(bs)
    ensures Readable(TextsOf(MinimalRanges(bs))) == RangeCellsOf(bs)
    ensures Keys(RangeCellsOf(bs)) == Keys(bs)
    ensures forall k | k in Keys(bs) :: Meet(RangeCellsOf(bs), k) == Aligned(Meet(bs, k))
  {
    hide Keys, Meet, TextsOf, Readable, CellsOf, KeyOf, Prefix, Aligned;
    var cs := RangeCellsOf(bs);
    ReadBack(MinimalRanges(bs), cs);
    KeysAreDistinct(bs);
    forall i | 0 <= i < |cs|
      ensures KeyOf(cs[i]) == Keys(bs)[i] && Prefix(cs[i]) == MinimalRanges(bs)[i]
    {
      CellsKeepKey(bs, i);
    }
    DistinctKeysStay(cs);
  }

  /** Merging services and pods apart and then together is the same as merging all addresses at once. */
  lemma TwoStagesAreOne(bs: seq<Cells>, cs: seq<Cells>)
    requires LongPrefixes(bs) && LongPrefixes(cs)
    ensures MinimalRanges(Readable(TextsOf(MinimalRanges(bs)) + TextsOf(MinimalRanges(cs)))) == MinimalRanges(bs + cs)
  {
    hide Keys, Meet, TextsOf, Readable, Aligned, Common, RangeCellsOf;
    var bs', cs' := RangeCellsOf(bs), RangeCellsOf(cs);
    ReadBackKeys(bs);
    ReadBackKeys(cs);
    ReadableOfConcat(TextsOf(MinimalRanges(bs)), TextsOf(MinimalRanges(cs)));
    KeysOfConcat(bs, cs);
    KeysOfConcat(bs', cs');
    forall i | 0 <= i < |Keys(bs + cs)|
      ensures MinimalRanges(bs' + cs')[i] == MinimalRanges(bs + cs)[i]
    {
      var k := Keys(bs + cs)[i];
      MeetOfConcat(bs, cs, k);
      MeetOfConcat(bs', cs', k);
      if k in Keys(bs) && k in Keys(cs) {
        AlignedCommon(Meet(bs, k), Meet(cs, k));
      } else if k in Keys(bs) {
        AlignedTwice(Meet(bs, k));
      } else {
        AlignedTwice(Meet(cs, k));
      }
    }
  }

  // ----- ClusterCidr -----

  /** The ranges of the cluster, without the API server. */
  function Planned(serviceIps: seq<string>, podIps: seq<string>, apiServerIp: string): seq<Range> {
    var svcCidr, podCidr := TextsOf(MinimalRanges(Readable(serviceIps))), TextsOf(MinimalRanges(Readable(podIps)));
    WithoutServer(MinimalRanges(Readable(svcCidr + podCidr)), ServerOf(apiServerIp))
  }

  predicate IsSingleIp(ipRange: string) {
    '/' !in ipRange || Split(ipRange, '/')[1] == "32"
  }

  /** The user's extra ranges; the tun mode takes no single addresses. */
  function Included(includeIps: seq<string>, tunMode: bool): seq<string> {
    if includeIps == [] then []
    else
      var front, r := Included(includeIps[..|includeIps| - 1], tunMode), includeIps[|includeIps| - 1];
      if tunMode && IsSingleIp(r) then front else front + [r]
  }

  /** Everything to route before the excludes. */
  function ToRoute(serviceIps: seq<string>, podIps: seq<string>, apiServerIp: string, includeIps: string, tunMode: bool)
    : seq<string>
  {
    var planned := TextsOf(Planned(serviceIps, podIps, apiServerIp));
    if includeIps == "" then planned else planned + Included(Split(includeIps, ','), tunMode)
  }

  /** The user's excludes and the API server. They only apply if the user gave some. */
  function Excludes(excludeIps: string, apiServerIp: string): seq<string> {
    if excludeIps == "" then []
    else if apiServerIp == "" then Split(excludeIps, ',')
    else Split(excludeIps, ',') + [apiServerIp + "/32"]
  }

  /** What ClusterCidr returns. */
  function PlanOf(serviceIps: seq<string>, podIps: seq<string>, apiServerIp: string, includeIps: string,
                  excludeIps: string, tunMode: bool): Routes
  {
    ExcludeAll(ToRoute(serviceIps, podIps, apiServerIp, includeIps, tunMode), Excludes(excludeIps, apiServerIp))
  }

  lemma RangesDoNotCrash(rs: seq<Range>)
    ensures NoCrash(TextsOf(rs))
    ensures forall r | r in TextsOf(rs) :: ':' in r || IpCells(r) != Crash
  {
    hide RangeCells, IpCells;
    forall i | 0 <= i < |rs|
      ensures RangeCells(TextOf(rs[i])) != Crash && IpCells(TextOf(rs[i])) != Crash
    {
      TextRoundTrip(rs[i]);
      TextHasOneSlash(rs[i]);
      OneSlashIsRange(TextOf(rs[i]));
    }
  }

  lemma OneSlashIsRange(text: string)
    requires Count(text, '/') == 1
    ensures IpCells(text) == RangeCells(text)
  {
  }

  method AddIncludes(ranges: seq<string>, includes: seq<string>, tunMode: bool) returns (cidr: seq<string>)
    requires NoCrash(ranges) && NoCrash(includes)
    ensures cidr == ranges + Included(includes, tunMode) && NoCrash(cidr)
  {
    hide RangeCells, IsSingleIp;
    cidr := ranges;
    for n := 0 to |includes|
      invariant cidr == ranges + Included(includes[..n], tunMode) && NoCrash(cidr)
    {
      assert includes[..n + 1][..n] == includes[..n];
      AppendLast(ranges, Included(includes[..n], tunMode), includes[n]);
      if !(tunMode && IsSingleIp(includes[n])) {
        cidr := cidr + [includes[n]];
      }
    }
    assert includes[..|includes|] == includes;
  }

  /** `podIps` is empty when pod addresses are disabled. */
  method ClusterCidr(serviceIps: seq<string>, podIps: seq<string>, apiServerIp: string,
                     includeIps: string, excludeIps: string, tunMode: bool)
    returns (cidr: seq<string>, excludeCidr: seq<string>)
    requires forall ip | ip in serviceIps + podIps :: ':' in ip || IpCells(ip) != Crash
    requires RangeCells(apiServerIp + "/32") != Crash
    requires NoCrash(Split(includeIps, ',')) && NoCrash(Split(excludeIps, ','))
    ensures Routes(cidr, excludeCidr) == PlanOf(serviceIps, podIps, apiServerIp, includeIps, excludeIps, tunMode)
  {
    hide RangeCells, IpCells, Readable, MinimalRanges, TextOf, WithoutServer, ServerOf, Included, Split;
    var svcCidr := CalculateMinimalIpRange(serviceIps);
    var podCidr := CalculateMinimalIpRange(podIps);
    RangesDoNotCrash(MinimalRanges(Readable(serviceIps)));
    RangesDoNotCrash(MinimalRanges(Readable(podIps)));
    cidr := MergeIpRange(svcCidr, podCidr, apiServerIp);
    RangesDoNotCrash(Planned(serviceIps, podIps, apiServerIp));
    var excludes := Split(excludeIps, ',');
    if apiServerIp != "" {
      excludes := excludes + [apiServerIp + "/32"];
    }
    excludeCidr := [];
    if includeIps != "" {
      cidr := AddIncludes(cidr, Split(includeIps, ','), tunMode);
    }
    if excludeIps != "" {
      cidr, excludeCidr := ApplyExcludes(cidr, excludes);
    }
  }

  ghost function ServerSet(apiServerIp: string): iset<Address> {
    match ServerOf(apiServerIp)
    case None => iset{}
    case Some(a) => iset{a}
  }

  /** The plan is the merge of all inputs at once, less exactly the API server: its ranges are disjoint and every input
      address other than the server is in one of them. */
  lemma PlanIsRight(serviceIps: seq<string>, podIps: seq<string>, apiServerIp: string)
    requires LongPrefixes(Readable(serviceIps)) && LongPrefixes(Readable(podIps))
    ensures var planned, all := Planned(serviceIps, podIps, apiServerIp), Readable(serviceIps) + Readable(podIps);
            && PairwiseDisjoint(planned)
            && AddressesOf(planned) == AddressesOf(MinimalRanges(all)) - ServerSet(apiServerIp)
            && forall b | b in all :: Addresses(Prefix(b)) - ServerSet(apiServerIp) <= AddressesOf(planned)
  {
    hide Readable, MinimalRanges, WithoutServer, AddressesOf, Addresses, TextsOf, ServerOf;
    var all := Readable(serviceIps) + Readable(podIps);
    TwoStagesAreOne(Readable(serviceIps), Readable(podIps));
    RangesAreDisjoint(all);
    WithoutServerIsDisjoint(MinimalRanges(all), ServerOf(apiServerIp));
    if ServerOf(apiServerIp).Some? {
      NoEmptyPrefix(all);
      WithoutServerCovers(MinimalRanges(all), ServerOf(apiServerIp).value);
    } else {
      UnreadableServerChangesNothing(MinimalRanges(all));
    }
    forall b | b in all
      ensures Addresses(Prefix(b)) <= AddressesOf(MinimalRanges(all))
    {
      InputsAreCovered(all, b);
    }
  }

  lemma NoEmptyPrefix(bs: seq<Cells>)
    requires LongPrefixes(bs)
    ensures forall i :: 0 <= i < |MinimalRanges(bs)| ==> |MinimalRanges(bs)[i]| > 0
  {
    hide Keys, Meet, Aligned;
    forall i | 0 <= i < |MinimalRanges(bs)|
      ensures |MinimalRanges(bs)[i]| > 0
    {
      RangeStartsWithKey(bs, i);
    }
  }

  lemma TextsDenote(rs: seq<Range>)
    ensures TextAddresses(TextsOf(rs)) == AddressesOf(rs)
    ensures PairwiseDisjoint(rs) ==> DisjointTexts(TextsOf(rs))
  {
    hide RangeOf, TextOf;
    forall i | 0 <= i < |rs|
      ensures RangeOf(TextsOf(rs)[i]) == Some(rs[i])
    {
      TextRoundTrip(rs[i]);
    }
    forall a: Address
      ensures CoversText(TextsOf(rs), a) <==> Covers(rs, a)
    {
      if i :| 0 <= i < |rs| && Holds(rs[i], a) {
        assert TextsOf(rs)[i] in TextsOf(rs);
      }
    }
  }

  /** The addresses of the user's extra ranges that are taken. */
  ghost function IncludeSet(includeIps: string, tunMode: bool): iset<Address> {
    if includeIps == "" then iset{} else TextAddresses(Included(Split(includeIps, ','), tunMode))
  }

  lemma ToRouteDenotes(serviceIps: seq<string>, podIps: seq<string>, apiServerIp: string, includeIps: string,
                       tunMode: bool)
    ensures TextAddresses(ToRoute(serviceIps, podIps, apiServerIp, includeIps, tunMode)) ==
            AddressesOf(Planned(serviceIps, podIps, apiServerIp)) + IncludeSet(includeIps, tunMode)
  {
    hide Planned, TextAddresses, AddressesOf, Included, Split;
    var planned := Planned(serviceIps, podIps, apiServerIp);
    TextsDenote(planned);
    if includeIps != "" {
      TextAddressesOfConcat(TextsOf(planned), Included(Split(includeIps, ','), tunMode));
    }
  }

  /** End to end: what is routed and not bypassed is the merge of all service and pod addresses, less the API server,
      and the user's extra ranges, less the excludes; for any extra ranges, unless an exclude that is a range of the
      list is followed by an overlapping one. */
  lemma RoutesAreRight(serviceIps: seq<string>, podIps: seq<string>, apiServerIp: string, includeIps: string,
                       excludeIps: string, tunMode: bool)
    requires LongPrefixes(Readable(serviceIps)) && LongPrefixes(Readable(podIps))
    requires NoneMissed(ToRoute(serviceIps, podIps, apiServerIp, includeIps, tunMode),
                        Excludes(excludeIps, apiServerIp))
    ensures var routes := PlanOf(serviceIps, podIps, apiServerIp, includeIps, excludeIps, tunMode);
            TextAddresses(routes.cidr) - TextAddresses(routes.bypass) ==
            AddressesOf(MinimalRanges(Readable(serviceIps) + Readable(podIps))) - ServerSet(apiServerIp)
              + IncludeSet(includeIps, tunMode)
              - TextAddresses(Excludes(excludeIps, apiServerIp))
  {
    hide Readable, MinimalRanges, AddressesOf, TextAddresses, TextsOf, Excludes, Planned, ServerSet, ToRoute,
         NoneMissed, ExcludeAll, IncludeSet;
    PlanIsRight(serviceIps, podIps, apiServerIp);
    ToRouteDenotes(serviceIps, podIps, apiServerIp, includeIps, tunMode);
    UnmissedExcludesAreHonoured(ToRoute(serviceIps, podIps, apiServerIp, includeIps, tunMode),
                                Excludes(excludeIps, apiServerIp));
  }

  /** Without extra ranges nothing is ever missed. */
  lemma PlanMissesNothing(serviceIps: seq<string>, podIps: seq<string>, apiServerIp: string, excludeIps: string,
                          tunMode: bool)
    requires LongPrefixes(Readable(serviceIps)) && LongPrefixes(Readable(podIps))
    ensures NoneMissed(ToRoute(serviceIps, podIps, apiServerIp, "", tunMode), Excludes(excludeIps, apiServerIp))
  {
    hide Readable, MinimalRanges, AddressesOf, TextAddresses, TextsOf, Excludes, Planned, ServerSet, NoneMissed;
    var planned := Planned(serviceIps, podIps, apiServerIp);
    PlanIsRight(serviceIps, podIps, apiServerIp);
    TextsDenote(planned);
    DisjointNoneMissed(TextsOf(planned), Excludes(excludeIps, apiServerIp));
  }
}
