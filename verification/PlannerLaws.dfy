/** The planner from end to end: from the texts of addresses and options to the texts of the routes. */
module PlannerLaws {
  import opened Text
  import opened Ranges
  import opened RangeText
  import opened IpGroups
  import opened GroupLaws
  import opened CidrNumbers
  import opened CidrPlan
  import opened ExcludeLoop
  import opened ClusterCidr

  // ----- the user's options -----

  lemma {:induction false} IncludedAre(items: seq<string>, tunMode: bool)
    ensures forall r :: r in Included(items, tunMode) <==> r in items && !(tunMode && IsSingleIp(r))
  {
    hide IsSingleIp;
    if items != [] {
      var n := |items| - 1;
      IncludedAre(items[..n], tunMode);
      assert items == items[..n] + [items[n]];
      assert forall r :: r in items <==> r in items[..n] || r == items[n];
    }
  }

  /** Of the texts that hold an address, the single addresses are those with the mask 32. */
  lemma SingleHas32(item: string, a: Address)
    requires HoldsText(item, a)
    ensures IsSingleIp(item) <==> HasSuffix(item, "/32")
  {
    assert |Split(item, '/')| == 2;
    assert '/' in item by {
      CountIsZero(item, '/');
    }
    TwoParts(item);
  }

  lemma TwoParts(item: string)
    requires |Split(item, '/')| == 2
    ensures HasSuffix(item, "/32") <==> Split(item, '/')[1] == "32"
  {
    var parts := Split(item, '/');
    assert Join(parts[1..], '/') == parts[1];
    assert item == parts[0] + ['/'] + parts[1];
    hide Split, Join;
    if parts[1] == "32" {
      assert item[|item| - 3..] == "/32";
    }
    if HasSuffix(item, "/32") {
      var rest := item[..|item| - 3];
      assert item == rest + ['/'] + "32";
      SplitConcat(rest, "32", '/');
      SplitPlain("32", '/');
    }
  }

  /** The texts that the user excludes; the API server is one of them if there are any. */
  lemma ExcludesAre(excludeIps: string, apiServerIp: string, e: string)
    ensures e in Excludes(excludeIps, apiServerIp) <==>
            excludeIps != "" && (e in Split(excludeIps, ',') || (apiServerIp != "" && e == apiServerIp + "/32"))
  {
    hide Split;
  }

  lemma IncludeSetIs(includeIps: string, tunMode: bool, a: Address)
    ensures a in IncludeSet(includeIps, tunMode) <==>
            includeIps != "" &&
            exists item :: item in Split(includeIps, ',') && !(tunMode && HasSuffix(item, "/32")) && HoldsText(item, a)
  {
    IncludedAre(Split(includeIps, ','), tunMode);
    hide Included, Split, HasSuffix, IsSingleIp, RangeOf;
    forall item | HoldsText(item, a)
      ensures IsSingleIp(item) <==> HasSuffix(item, "/32")
    {
      SingleHas32(item, a);
    }
  }

  lemma ServerSetIs(apiServerIp: string, a: Address)
    ensures a in ServerSet(apiServerIp) <==> HoldsText(apiServerIp + "/32", a)
  {
    ServerIsAddress(apiServerIp);
    var range := RangeOf(apiServerIp + "/32");
    hide RangeOf;
    if range.Some? {
      assert ServerOf(apiServerIp) == Some(range.value) && |range.value| == BITS;
      assert range.value <= a <==> range.value == a;
    }
  }

  // ----- the theorem -----

  /** The group of some listed address holds a. */
  ghost predicate InGroup(ips: seq<string>, a: Address) {
    exists ns :: Listed(ips, ns) && HoldsText(GroupText(ips, ns), a)
  }

  lemma GroupsCover(ips: seq<string>, a: Address)
    requires AllAddresses(ips)
    ensures a in AddressesOf(MinimalRanges(Readable(ips))) <==> InGroup(ips, a)
  {
    RangesOfAddresses(ips);
    TextsDenote(MinimalRanges(Readable(ips)));
    hide MinimalRanges, Readable, TextsOf, GroupText, RangeOf, AddressesOf, Listed;
  }

  /** An extra range of the user that is taken holds a. */
  ghost predicate InExtra(includeIps: string, tunMode: bool, a: Address) {
    includeIps != "" &&
    exists item :: item in Split(includeIps, ',') && !(tunMode && HasSuffix(item, "/32")) && HoldsText(item, a)
  }

  /** The user excludes a. */
  ghost predicate IsExcluded(excludeIps: string, apiServerIp: string, a: Address) {
    && excludeIps != ""
    && ((exists e :: e in Split(excludeIps, ',') && HoldsText(e, a))
        || (apiServerIp != "" && HoldsText(apiServerIp + "/32", a)))
  }

  lemma ExcludedSetIs(excludeIps: string, apiServerIp: string, a: Address)
    ensures a in TextAddresses(Excludes(excludeIps, apiServerIp)) <==> IsExcluded(excludeIps, apiServerIp, a)
  {
    hide Excludes, Split, RangeOf;
    forall e
      ensures e in Excludes(excludeIps, apiServerIp) <==>
              excludeIps != "" && (e in Split(excludeIps, ',') || (apiServerIp != "" && e == apiServerIp + "/32"))
    {
      ExcludesAre(excludeIps, apiServerIp, e);
    }
  }

  /** Address by address: routed and not bypassed is what lies in the group of a service or a pod, but for the API
      server, or in an extra range of the user's, single addresses not in tun mode; less what lies in one of the user's
      excludes, or is the API server if there are excludes. */
  lemma PlannerIsRight(serviceIps: seq<string>, podIps: seq<string>, apiServerIp: string, includeIps: string,
                       excludeIps: string, tunMode: bool, a: Address)
    requires AllAddresses(serviceIps + podIps)
    requires NoneMissed(ToRoute(serviceIps, podIps, apiServerIp, includeIps, tunMode),
                        Excludes(excludeIps, apiServerIp))
    ensures var plan := PlanOf(serviceIps, podIps, apiServerIp, includeIps, excludeIps, tunMode);
            CoversText(plan.cidr, a) && !CoversText(plan.bypass, a) <==>
            && ((InGroup(serviceIps + podIps, a) && !HoldsText(apiServerIp + "/32", a))
                || InExtra(includeIps, tunMode, a))
            && !IsExcluded(excludeIps, apiServerIp, a)
    ensures excludeIps == "" ==>
              PlanOf(serviceIps, podIps, apiServerIp, includeIps, excludeIps, tunMode).bypass == []
  {
    AddressesSplit(serviceIps, podIps);
    PlainCellsAreLong(serviceIps);
    PlainCellsAreLong(podIps);
    RoutesAreRight(serviceIps, podIps, apiServerIp, includeIps, excludeIps, tunMode);
    ReadableOfConcat(serviceIps, podIps);
    var plan := PlanOf(serviceIps, podIps, apiServerIp, includeIps, excludeIps, tunMode);
    assert excludeIps == "" ==> plan.bypass == [];
    hide PlanOf, ToRoute, Excludes, MinimalRanges, Readable, NoneMissed, AddressesOf, ServerSet, IncludeSet, InGroup,
         InExtra, IsExcluded, RangeOf, AllAddresses, CoversText;
    GroupsCover(serviceIps + podIps, a);
    ServerSetIs(apiServerIp, a);
    IncludeSetIs(includeIps, tunMode, a);
    ExcludedSetIs(excludeIps, apiServerIp, a);
    assert InExtra(includeIps, tunMode, a) <==> a in IncludeSet(includeIps, tunMode) by {
      ExtraIs(includeIps, tunMode, a);
    }
    Routed(plan, a);
  }

  lemma ExtraIs(includeIps: string, tunMode: bool, a: Address)
    ensures InExtra(includeIps, tunMode, a) <==> a in IncludeSet(includeIps, tunMode)
  {
    IncludeSetIs(includeIps, tunMode, a);
    hide IncludeSet, Split, RangeOf;
  }

  lemma Routed(plan: Routes, a: Address)
    ensures a in TextAddresses(plan.cidr) - TextAddresses(plan.bypass) <==>
            CoversText(plan.cidr, a) && !CoversText(plan.bypass, a)
  {
    hide CoversText;
  }

  lemma AddressesSplit(ips: seq<string>, more: seq<string>)
    requires AllAddresses(ips + more)
    ensures AllAddresses(ips) && AllAddresses(more)
  {
    assert forall ip :: ip in ips ==> ip in ips + more;
    assert forall ip :: ip in more ==> ip in ips + more;
  }

  // ----- the same on numbers -----

  ghost predicate IsMaskText(text: string) {
    exists ns, mask: nat :: IsQuad(ns) && mask <= BITS && text == MaskText(ns, mask)
  }

  ghost predicate IsPlainText(text: string) {
    exists ns :: IsQuad(ns) && text == QuadText(ns)
  }

  /** "a.b.c.d/m" or "a.b.c.d" */
  ghost predicate AreItems(texts: seq<string>) {
    forall text | text in texts :: IsMaskText(text) || IsPlainText(text)
  }

  lemma ItemHolds(text: string, q: seq<int>)
    requires IsQuad(q) && (IsMaskText(text) || IsPlainText(text))
    ensures HoldsText(text, QuadBits(q)) <==> TextHolds(text, Number(q))
  {
    if IsMaskText(text) {
      TextHoldsIff(text, q);
      hide RangeOf, QuadBits, TextHolds;
    } else {
      var ns :| IsQuad(ns) && text == QuadText(ns);
      QuadIsRead(ns);
      SplitPlain(text, '/');
      hide QuadText, QuadBits, Number;
      assert forall ms, mask :: MaskText(ms, mask)[|QuadText(ms)|] == '/' && '/' in MaskText(ms, mask);
    }
  }

  lemma GroupBlock(ips: seq<string>, ns: seq<int>, q: seq<int>)
    requires IsQuad(ns) && IsQuad(q)
    ensures HoldsText(GroupText(ips, ns), QuadBits(q)) <==> SameBlock(Number(q), Number(ns), GroupMask(ips, ns))
  {
    var mask := GroupMask(ips, ns);
    LowestIsMasked(ns, mask);
    hide Sharing, RangeOf;
    MaskTextHolds(Masked(ns, mask), mask, q);
    GroupBase(ns, mask);
    hide Number, QuadBits, Masked, MaskText;
  }

  lemma ServerHolds(apiServerIp: string, q: seq<int>)
    requires IsQuad(q) && (apiServerIp == "" || IsPlainText(apiServerIp))
    ensures HoldsText(apiServerIp + "/32", QuadBits(q)) <==> apiServerIp == QuadText(q)
  {
    assert Itoa(32) == "32";
    if apiServerIp == "" {
      NoServer();
      assert QuadText(q) != "" by {
        QuadTextIs(q);
      }
      hide RangeOf, QuadText, QuadBits;
    } else {
      var ns :| IsQuad(ns) && apiServerIp == QuadText(ns);
      ServerText(apiServerIp, ns);
      MaskTextHolds(ns, 32, q);
      hide RangeOf, QuadText, QuadBits, MaskText;
      assert SameBlock(Number(q), Number(ns), 32) <==> Number(q) == Number(ns);
      NumberDetermines(ns, q);
      if QuadText(ns) == QuadText(q) {
        TextsAreRead(ns, 0);
        TextsAreRead(q, 0);
        BitsDetermine(ns, q);
      }
    }
  }

  lemma ServerText(apiServerIp: string, ns: seq<int>)
    requires apiServerIp == QuadText(ns)
    ensures apiServerIp + "/32" == MaskText(ns, 32)
  {
    assert Itoa(32) == "32" && "/" + "32" == "/32";
    hide QuadText, Itoa;
    assert apiServerIp + "/" + "32" == apiServerIp + ("/" + "32");
  }

  lemma LastDigit(a: int, b: int, c: int, d: int)
    requires a * 256 + b == c * 256 + d && 0 <= b < 256 && 0 <= d < 256
    ensures a == c && b == d
  {
  }

  lemma NumberDetermines(ns: seq<int>, q: seq<int>)
    requires IsQuad(ns) && IsQuad(q)
    ensures Number(ns) == Number(q) <==> ns == q
  {
    if Number(ns) == Number(q) {
      var three, three' := (ns[0] * 256 + ns[1]) * 256 + ns[2], (q[0] * 256 + q[1]) * 256 + q[2];
      LastDigit(three, ns[3], three', q[3]);
      LastDigit(ns[0] * 256 + ns[1], ns[2], q[0] * 256 + q[1], q[2]);
      LastDigit(ns[0], ns[1], q[0], q[1]);
      hide Number;
      assert ns == [ns[0], ns[1], ns[2], ns[3]] && q == [q[0], q[1], q[2], q[3]];
    }
  }

  lemma NoServer()
    ensures RangeOf("" + "/32") == None
  {
    var text := "/32";
    assert "" + "/32" == text && text == "" + ['/'] + "32";
    assert Atoi("") == None && Split("", '.') == [""];
    hide Split;
    SplitCons("", "32", '/');
  }

  lemma {:induction false} PlanIsFrom(ranges: seq<string>, excludes: seq<string>)
    ensures forall r | r in ExcludeAll(ranges, excludes).cidr :: r in ranges
    ensures forall e | e in ExcludeAll(ranges, excludes).bypass :: e in excludes
  {
    hide Scan, WithoutAll;
    if excludes != [] {
      var n := |excludes| - 1;
      PlanIsFrom(ranges, excludes[..n]);
      var before := ExcludeAll(ranges, excludes[..n]).cidr;
      WithoutAllIsPart(before, Scan(before, excludes[n]).toRemove);
      assert excludes[n] in excludes && forall e | e in excludes[..n] :: e in excludes;
    }
  }

  lemma PlannedAreItems(rs: seq<Range>)
    ensures AreItems(TextsOf(rs))
  {
    hide TextOf;
    forall text | text in TextsOf(rs)
      ensures IsMaskText(text)
    {
      var i :| 0 <= i < |rs| && TextsOf(rs)[i] == text;
      RangeTextIs(rs[i]);
    }
  }

  lemma RangeTextIs(p: Range)
    ensures IsMaskText(TextOf(p))
  {
    OctetsOfLowest(p);
    assert TextOf(p) == MaskText(Octets(p), |p|);
  }

  lemma PlanHasItems(serviceIps: seq<string>, podIps: seq<string>, apiServerIp: string, includeIps: string,
                     excludeIps: string, tunMode: bool)
    requires includeIps == "" || AreItems(Split(includeIps, ','))
    requires excludeIps == "" || AreItems(Split(excludeIps, ','))
    requires apiServerIp == "" || IsPlainText(apiServerIp)
    ensures var plan := PlanOf(serviceIps, podIps, apiServerIp, includeIps, excludeIps, tunMode);
            AreItems(plan.cidr) && AreItems(plan.bypass)
  {
    var routes, excludes :=
      ToRoute(serviceIps, podIps, apiServerIp, includeIps, tunMode), Excludes(excludeIps, apiServerIp);
    PlanIsFrom(routes, excludes);
    PlannedAreItems(Planned(serviceIps, podIps, apiServerIp));
    IncludedAre(Split(includeIps, ','), tunMode);
    hide ExcludeAll, Planned, TextsOf, Included, Split, IsMaskText, IsPlainText, IsSingleIp;
    forall e | e in excludes
      ensures IsMaskText(e) || IsPlainText(e)
    {
      ExcludesAre(excludeIps, apiServerIp, e);
      if excludeIps != "" && e !in Split(excludeIps, ',') {
        ServerIsItem(apiServerIp);
      }
    }
  }

  lemma ServerIsItem(apiServerIp: string)
    requires IsPlainText(apiServerIp)
    ensures IsMaskText(apiServerIp + "/32")
  {
    var ns :| IsQuad(ns) && apiServerIp == QuadText(ns);
    hide QuadText;
    ServerText(apiServerIp, ns);
  }

  /** Some text of a list holds a number. */
  ghost predicate ListHolds(texts: seq<string>, x: int) {
    exists text :: text in texts && TextHolds(text, x)
  }

  lemma ListHoldsIff(texts: seq<string>, q: seq<int>)
    requires IsQuad(q) && AreItems(texts)
    ensures CoversText(texts, QuadBits(q)) <==> ListHolds(texts, Number(q))
  {
    hide HoldsText, TextHolds, IsMaskText, IsPlainText, Number, QuadBits;
    forall text | text in texts
      ensures HoldsText(text, QuadBits(q)) <==> TextHolds(text, Number(q))
    {
      ItemHolds(text, q);
    }
  }

  /** A number lies in the block of the group of a listed address. */
  ghost predicate GroupHoldsNumber(ips: seq<string>, x: int) {
    exists ns :: Listed(ips, ns) && SameBlock(x, Number(ns), GroupMask(ips, ns))
  }

  ghost predicate ExtraHoldsNumber(includeIps: string, tunMode: bool, x: int) {
    includeIps != "" &&
    exists item :: item in Split(includeIps, ',') && !(tunMode && HasSuffix(item, "/32")) && TextHolds(item, x)
  }

  lemma InGroupIff(ips: seq<string>, q: seq<int>)
    requires IsQuad(q)
    ensures InGroup(ips, QuadBits(q)) <==> GroupHoldsNumber(ips, Number(q))
  {
    hide HoldsText, GroupText, QuadBits, Number, SameBlock, GroupMask, QuadText;
    forall ns | Listed(ips, ns)
      ensures HoldsText(GroupText(ips, ns), QuadBits(q)) <==> SameBlock(Number(q), Number(ns), GroupMask(ips, ns))
    {
      GroupBlock(ips, ns, q);
    }
  }

  lemma InExtraIff(includeIps: string, tunMode: bool, q: seq<int>)
    requires IsQuad(q) && (includeIps == "" || AreItems(Split(includeIps, ',')))
    ensures InExtra(includeIps, tunMode, QuadBits(q)) <==> ExtraHoldsNumber(includeIps, tunMode, Number(q))
  {
    hide HoldsText, TextHolds, IsMaskText, IsPlainText, Number, QuadBits, Split, HasSuffix;
    forall item | includeIps != "" && item in Split(includeIps, ',')
      ensures HoldsText(item, QuadBits(q)) <==> TextHolds(item, Number(q))
    {
      ItemHolds(item, q);
    }
  }

  lemma IsExcludedIff(excludeIps: string, apiServerIp: string, q: seq<int>)
    requires IsQuad(q) && (excludeIps == "" || AreItems(Split(excludeIps, ',')))
    requires apiServerIp == "" || IsPlainText(apiServerIp)
    ensures IsExcluded(excludeIps, apiServerIp, QuadBits(q)) <==>
            excludeIps != "" && (ListHolds(Split(excludeIps, ','), Number(q)) || apiServerIp == QuadText(q))
  {
    ServerHolds(apiServerIp, q);
    assert QuadText(q) != "" by {
      QuadTextIs(q);
    }
    hide HoldsText, ListHolds, AreItems, IsPlainText, Number, QuadBits, Split, QuadText;
    if excludeIps != "" {
      ListHoldsIff(Split(excludeIps, ','), q);
    }
  }

  /** Number by number, with nothing but texts and arithmetic: a number is routed and not bypassed exactly if it lies in
      the 32-, 24- or 16-bit block of the group of a service or pod address and is not the API server's, or lies in an
      extra range of the user's, and neither lies in an exclude nor, if there are excludes, is the API server's. */
  lemma PlannerOnNumbers(serviceIps: seq<string>, podIps: seq<string>, apiServerIp: string, includeIps: string,
                         excludeIps: string, tunMode: bool, q: seq<int>)
    requires AllAddresses(serviceIps + podIps) && IsQuad(q)
    requires includeIps == "" || AreItems(Split(includeIps, ','))
    requires excludeIps == "" || AreItems(Split(excludeIps, ','))
    requires apiServerIp == "" || IsPlainText(apiServerIp)
    requires NoneMissed(ToRoute(serviceIps, podIps, apiServerIp, includeIps, tunMode),
                        Excludes(excludeIps, apiServerIp))
    ensures var plan := PlanOf(serviceIps, podIps, apiServerIp, includeIps, excludeIps, tunMode);
            ListHolds(plan.cidr, Number(q)) && !ListHolds(plan.bypass, Number(q)) <==>
            && ((GroupHoldsNumber(serviceIps + podIps, Number(q)) && apiServerIp != QuadText(q))
                || ExtraHoldsNumber(includeIps, tunMode, Number(q)))
            && !(excludeIps != "" && (ListHolds(Split(excludeIps, ','), Number(q)) || apiServerIp == QuadText(q)))
  {
    hide PlanOf, ToRoute, Excludes, NoneMissed, ListHolds, GroupHoldsNumber, ExtraHoldsNumber, InGroup, InExtra,
         IsExcluded, HoldsText, CoversText, AllAddresses, AreItems, IsPlainText, Number, QuadBits, QuadText, Split;
    var plan := PlanOf(serviceIps, podIps, apiServerIp, includeIps, excludeIps, tunMode);
    PlannerIsRight(serviceIps, podIps, apiServerIp, includeIps, excludeIps, tunMode, QuadBits(q));
    PlanHasItems(serviceIps, podIps, apiServerIp, includeIps, excludeIps, tunMode);
    ListHoldsIff(plan.cidr, q);
    ListHoldsIff(plan.bypass, q);
    InGroupIff(serviceIps + podIps, q);
    InExtraIff(includeIps, tunMode, q);
    IsExcludedIff(excludeIps, apiServerIp, q);
    ServerHolds(apiServerIp, q);
  }

  /** Without extra ranges that holds for all excludes. */
  lemma PlannerWithoutExtras(serviceIps: seq<string>, podIps: seq<string>, apiServerIp: string, excludeIps: string,
                             tunMode: bool, q: seq<int>)
    requires AllAddresses(serviceIps + podIps) && IsQuad(q)
    requires excludeIps == "" || AreItems(Split(excludeIps, ','))
    requires apiServerIp == "" || IsPlainText(apiServerIp)
    ensures var plan := PlanOf(serviceIps, podIps, apiServerIp, "", excludeIps, tunMode);
            ListHolds(plan.cidr, Number(q)) && !ListHolds(plan.bypass, Number(q)) <==>
            && GroupHoldsNumber(serviceIps + podIps, Number(q)) && apiServerIp != QuadText(q)
            && !(excludeIps != "" && ListHolds(Split(excludeIps, ','), Number(q)))
  {
    AddressesSplit(serviceIps, podIps);
    PlainCellsAreLong(serviceIps);
    PlainCellsAreLong(podIps);
    hide PlanOf, ToRoute, Excludes, NoneMissed, ListHolds, GroupHoldsNumber, AllAddresses, AreItems, IsPlainText,
         Number,
         QuadText, Split, Readable, LongPrefixes;
    PlanMissesNothing(serviceIps, podIps, apiServerIp, excludeIps, tunMode);
    PlannerOnNumbers(serviceIps, podIps, apiServerIp, "", excludeIps, tunMode, q);
  }
}
