/** The loop of ClusterCidr that applies the user's excludes to the ranges to route. */
module ExcludeLoop {
  import opened Text
  import opened Ranges
  import opened RangeText
  import opened Exclusion

  ghost predicate HoldsText(text: string, a: Address) {
    RangeOf(text).Some? && Holds(RangeOf(text).value, a)
  }

  ghost predicate CoversText(texts: seq<string>, a: Address) {
    exists text :: text in texts && HoldsText(text, a)
  }

  /** The addresses of the readable ones of several ranges in text form. */
  ghost function TextAddresses(texts: seq<string>): iset<Address> {
    iset a: Address | CoversText(texts, a)
  }

  predicate OverlapText(s: string, t: string) {
    RangeOf(s).Some? && RangeOf(t).Some? && Overlap(RangeOf(s).value, RangeOf(t).value)
  }

  /** Different ranges share no address. */
  ghost predicate DisjointTexts(texts: seq<string>) {
    forall s, t | s in texts && t in texts && s != t :: !OverlapText(s, t)
  }

  /** What one exclude does to the ranges: the ones to remove, and whether it needs a bypass route. */
  datatype Verdict = Verdict(toRemove: seq<string>, bypass: bool)

  function Scan(cidr: seq<string>, e: string): (v: Verdict)
    ensures forall r | r in v.toRemove :: r in cidr
  {
    if cidr == [] then Verdict([], false)
    else if cidr[0] == e then Verdict([e], false)
    else if Includes(e, cidr[0]) then
      var rest := Scan(cidr[1..], e);
      Verdict([cidr[0]] + rest.toRemove, rest.bypass)
    else if Includes(cidr[0], e) then Verdict([], true)
    else Scan(cidr[1..], e)
  }

  /** util.ArrayDelete: the array without an item. */
  function Without(arr: seq<string>, item: string): seq<string> {
    if arr == [] then []
    else if arr[0] == item then Without(arr[1..], item)
    else [arr[0]] + Without(arr[1..], item)
  }

  function WithoutAll(arr: seq<string>, items: seq<string>): seq<string> {
    if items == [] then arr else Without(WithoutAll(arr, items[..|items| - 1]), items[|items| - 1])
  }

  datatype Routes = Routes(cidr: seq<string>, bypass: seq<string>)

  /** The ranges to route and to bypass after the first excludes. */
  function ExcludeAll(cidr: seq<string>, excludes: seq<string>): Routes {
    if excludes == [] then Routes(cidr, [])
    else
      var before, e := ExcludeAll(cidr, excludes[..|excludes| - 1]), excludes[|excludes| - 1];
      var v := Scan(before.cidr, e);
      Routes(WithoutAll(before.cidr, v.toRemove), if v.bypass then before.bypass + [e] else before.bypass)
  }

  // ----- the code -----

  lemma WithoutFirst(arr: seq<string>, item: string)
    requires arr != []
    ensures Without(arr, item) == (if arr[0] == item then [] else [arr[0]]) + Without(arr[1..], item)
  {
  }

  lemma TailOfConcat<T>(s: seq<T>, t: seq<T>)
    requires s != []
    ensures s + t != [] && (s + t)[0] == s[0] && (s + t)[1..] == s[1..] + t
  {
  }

  lemma Regrouped<T>(a: seq<T>, b: seq<T>, c: seq<T>)
    ensures a + (b + c) == a + b + c && [] + (b + c) == [] + b + c
  {
  }

  lemma {:induction false} WithoutOfConcat(s: seq<string>, t: seq<string>, item: string)
    ensures Without(s + t, item) == Without(s, item) + Without(t, item)
  {
    if s == [] {
      assert s + t == t;
    } else {
      WithoutOfConcat(s[1..], t, item);
      WithoutFirst(s, item);
      WithoutFirst(s + t, item);
      hide Without;
      TailOfConcat(s, t);
      Regrouped([s[0]], Without(s[1..], item), Without(t, item));
    }
  }

  lemma WithoutNext(arr: seq<string>, n: nat, item: string)
    requires n < |arr|
    ensures Without(arr[..n + 1], item) == Without(arr[..n], item) + if arr[n] == item then [] else [arr[n]]
    ensures |Without(arr[..n + 1], item)| <= |Without(arr, item)|
  {
    assert arr[..n + 1] == arr[..n] + [arr[n]];
    WithoutOfConcat(arr[..n], [arr[n]], item);
    assert arr == arr[..n + 1] + arr[n + 1..];
    WithoutOfConcat(arr[..n + 1], arr[n + 1..], item);
  }

  method ArrayDelete(arr: seq<string>, item: string) returns (result: seq<string>)
    ensures result == Without(arr, item)
  {
    var count := 0;
    for n := 0 to |arr|
      invariant count + |Without(arr[..n], item)| == n && 0 <= count
      invariant count == 0 ==> Without(arr[..n], item) == arr[..n]
    {
      WithoutNext(arr, n, item);
      if arr[n] == item {
        count := count + 1;
      }
    }
    assert arr[..|arr|] == arr;
    if count == 0 {
      return arr;
    }
    var newArr := new string[|arr| - count];
    var i := 0;
    for n := 0 to |arr|
      invariant 0 <= i <= newArr.Length && newArr[..i] == Without(arr[..n], item)
    {
      WithoutNext(arr, n, item);
      if arr[n] != item {
        newArr[i] := arr[n];
        i := i + 1;
      }
    }
    return newArr[..];
  }

  predicate NoCrash(texts: seq<string>) {
    forall text | text in texts :: RangeCells(text) != Crash
  }

  /** The inner loop: one exclude against every range, until it is decided. */
  lemma ScanNext(cidr: seq<string>, n: nat, e: string)
    requires n < |cidr|
    ensures var r, rest := cidr[n], Scan(cidr[n + 1..], e);
            Scan(cidr[n..], e) == if r == e then Verdict([r], false)
                                  else if Includes(e, r) then Verdict([r] + rest.toRemove, rest.bypass)
                                  else if Includes(r, e) then Verdict([], true)
                                  else rest
  {
    hide Includes;
    assert cidr[n..][1..] == cidr[n + 1..];
  }

  lemma MovedFirst<T>(done: seq<T>, first: T, rest: seq<T>)
    ensures done + ([first] + rest) == done + [first] + rest && done + [] == done
  {
  }

  method ScanRanges(cidr: seq<string>, ipRange: string) returns (toRemove: seq<string>, bypass: bool)
    requires NoCrash(cidr) && RangeCells(ipRange) != Crash
    ensures Verdict(toRemove, bypass) == Scan(cidr, ipRange)
  {
    toRemove, bypass := [], false;
    assert [] + Scan(cidr, ipRange).toRemove == Scan(cidr, ipRange).toRemove && cidr[0..] == cidr;
    assert Scan(cidr[|cidr|..], ipRange) == Verdict([], false);
    hide RangeCells, Includes, Scan;
    for n := 0 to |cidr|
      invariant !bypass
      invariant Scan(cidr, ipRange) ==
                Verdict(toRemove + Scan(cidr[n..], ipRange).toRemove, Scan(cidr[n..], ipRange).bypass)
    {
      var r := cidr[n];
      ScanNext(cidr, n, ipRange);
      MovedFirst(toRemove, r, Scan(cidr[n + 1..], ipRange).toRemove);
      if r == ipRange {
        // the exclude is a range of its own: it goes, and nothing else is looked at
        toRemove := toRemove + [r];
        return;
      }
      var covered := IsPartOfRange(ipRange, r);
      if covered {
        // the range lies inside the exclude
        toRemove := toRemove + [r];
      } else {
        var covers := IsPartOfRange(r, ipRange);
        if covers {
          // the exclude lies inside the range
          bypass := true;
          return;
        }
      }
    }
    MovedFirst(toRemove, "", []);
  }

  lemma {:induction false} WithoutAllIsPart(arr: seq<string>, items: seq<string>)
    ensures forall r :: r in WithoutAll(arr, items) <==> r in arr && r !in items
  {
    if items != [] {
      var front, last := items[..|items| - 1], items[|items| - 1];
      WithoutAllIsPart(arr, front);
      WithoutHolds(WithoutAll(arr, front), last);
      assert forall r :: r in items <==> r in front || r == last;
    }
  }

  lemma {:induction false} WithoutHolds(arr: seq<string>, item: string)
    ensures forall r :: r in Without(arr, item) <==> r in arr && r != item
  {
    if arr != [] {
      WithoutHolds(arr[1..], item);
      assert forall r :: r in arr <==> r == arr[0] || r in arr[1..];
    }
  }

  method ApplyExcludes(ranges: seq<string>, excludeIps: seq<string>)
      returns (cidr: seq<string>, excludeCidr: seq<string>)
    requires NoCrash(ranges) && NoCrash(excludeIps)
    ensures Routes(cidr, excludeCidr) == ExcludeAll(ranges, excludeIps)
  {
    cidr, excludeCidr := ranges, [];
    for n := 0 to |excludeIps|
      invariant Routes(cidr, excludeCidr) == ExcludeAll(ranges, excludeIps[..n]) && NoCrash(cidr)
    {
      var ipRange := excludeIps[n];
      assert excludeIps[..n + 1][..n] == excludeIps[..n];
      var toRemove, bypass := ScanRanges(cidr, ipRange);
      if bypass {
        excludeCidr := excludeCidr + [ipRange];
      }
      ghost var before := cidr;
      for k := 0 to |toRemove|
        invariant cidr == WithoutAll(before, toRemove[..k])
      {
        assert toRemove[..k + 1][..k] == toRemove[..k];
        cidr := ArrayDelete(cidr, toRemove[k]);
      }
      assert toRemove[..|toRemove|] == toRemove;
      WithoutAllIsPart(before, toRemove);
    }
    assert excludeIps[..|excludeIps|] == excludeIps;
  }

  // ----- what the loop achieves -----

  predicate StrictlyIncludes(r: string, e: string) {
    r != e && Includes(r, e) && !Includes(e, r)
  }

  /** Where the scan stops: at the exclude itself or at a range strictly around it, whichever comes first. */
  lemma {:induction false} ScanStops(cidr: seq<string>, e: string) returns (n: nat)
    ensures n <= |cidr|
    ensures forall k :: 0 <= k < n ==> cidr[k] != e && !StrictlyIncludes(cidr[k], e)
    ensures n < |cidr| ==> cidr[n] == e || StrictlyIncludes(cidr[n], e)
    ensures Scan(cidr, e).bypass <==> n < |cidr| && cidr[n] != e
    ensures forall r :: r in Scan(cidr, e).toRemove <==>
                        (r in cidr[..n] && Includes(e, r)) || (n < |cidr| && cidr[n] == e && r == e)
  {
    hide Includes;
    if cidr == [] || cidr[0] == e || StrictlyIncludes(cidr[0], e) {
      n := 0;
    } else {
      var m := ScanStops(cidr[1..], e);
      n := m + 1;
      assert cidr[..n] == [cidr[0]] + cidr[1..][..m];
      assert forall k :: 1 <= k < |cidr| ==> cidr[k] == cidr[1..][k - 1];
      forall r
        ensures r in Scan(cidr, e).toRemove <==> (r == cidr[0] && Includes(e, r)) || r in Scan(cidr[1..], e).toRemove
      {
      }
    }
  }

  /** The order of the ranges hides an overlap: the exclude itself comes first, and the scan stops there. */
  ghost predicate MissesOverlap(cidr: seq<string>, e: string) {
    exists n, m :: 0 <= n < m < |cidr| && StopsAtItself(cidr, e, n) && cidr[m] !in cidr[..n + 1]
        && OverlapText(cidr[m], e)
  }

  ghost predicate StopsAtItself(cidr: seq<string>, e: string, n: nat)
    requires n < |cidr|
  {
    cidr[n] == e && forall k :: 0 <= k < n ==> cidr[k] != e && !StrictlyIncludes(cidr[k], e)
  }

  function Kept(cidr: seq<string>, e: string): seq<string> {
    WithoutAll(cidr, Scan(cidr, e).toRemove)
  }

  function Bypassed(cidr: seq<string>, e: string): seq<string> {
    if Scan(cidr, e).bypass then [e] else []
  }

  ghost predicate ExcludesExactly(cidr: seq<string>, e: string) {
    TextAddresses(Kept(cidr, e)) - TextAddresses(Bypassed(cidr, e)) == TextAddresses(cidr) - TextAddresses([e])
  }

  lemma KeptInside(cidr: seq<string>, e: string, a: Address)
    requires CoversText(cidr, a) && !HoldsText(e, a)
    ensures CoversText(Kept(cidr, e), a)
  {
    hide RangeOf;
    var r :| r in cidr && HoldsText(r, a);
    var n := ScanStops(cidr, e);
    WithoutAllIsPart(cidr, Scan(cidr, e).toRemove);
    if r in Scan(cidr, e).toRemove {
      InclusionIsPrefix(RangeOf(e).value, RangeOf(r).value);
    }
    assert r in Kept(cidr, e);
  }

  /** One exclude is honoured exactly when its scan does not stop too early. */
  lemma ExcludesExactlyIff(cidr: seq<string>, e: string)
    ensures ExcludesExactly(cidr, e) <==> !MissesOverlap(cidr, e)
  {
    hide RangeOf, Scan, WithoutAll, Addresses;
    var kept := Kept(cidr, e);
    var n := ScanStops(cidr, e);
    WithoutAllIsPart(cidr, Scan(cidr, e).toRemove);
    if MissesOverlap(cidr, e) {
      var n', m :| 0 <= n' < m < |cidr| && StopsAtItself(cidr, e, n') && cidr[m] !in cidr[..n' + 1]
          && OverlapText(cidr[m], e);
      assert n' == n;
      assert cidr[m] in kept by {
        assert forall r | r in cidr[..n] :: r in cidr[..n + 1];
        assert e == cidr[..n + 1][n];
      }
      var a := SharedAddress(cidr[m], e);
      assert CoversText(kept, a) && CoversText([e], a);
      assert a in TextAddresses(kept) - TextAddresses(Bypassed(cidr, e));
    } else {
      forall a: Address
        ensures CoversText(kept, a) && !CoversText(Bypassed(cidr, e), a) <==> CoversText(cidr, a) && !CoversText([e], a)
      {
        if CoversText(cidr, a) && !CoversText([e], a) {
          assert e in [e];
          KeptInside(cidr, e, a);
        }
        if CoversText(kept, a) && !CoversText(Bypassed(cidr, e), a) {
          var r :| r in kept && HoldsText(r, a);
          KeptIsApart(cidr, e, r, a);
        }
      }
    }
  }

  lemma SharedAddress(s: string, t: string) returns (a: Address)
    requires OverlapText(s, t)
    ensures HoldsText(s, a) && HoldsText(t, a)
  {
    NestedOrDisjoint(RangeOf(s).value, RangeOf(t).value);
    a :| a in Addresses(RangeOf(s).value) * Addresses(RangeOf(t).value);
  }

  lemma OverlapFromAddress(s: string, t: string, a: Address)
    requires HoldsText(s, a) && HoldsText(t, a)
    ensures OverlapText(s, t)
  {
    NestedOrDisjoint(RangeOf(s).value, RangeOf(t).value);
    assert a in Addresses(RangeOf(s).value) * Addresses(RangeOf(t).value);
  }

  lemma KeptIsApart(cidr: seq<string>, e: string, r: string, a: Address)
    requires !MissesOverlap(cidr, e) && r in Kept(cidr, e) && HoldsText(r, a)
    ensures HoldsText(e, a) ==> CoversText(Bypassed(cidr, e), a)
  {
    hide RangeOf, Scan, WithoutAll;
    WithoutAllIsPart(cidr, Scan(cidr, e).toRemove);
    if HoldsText(e, a) {
      OverlapFromAddress(r, e, a);
      if !Scan(cidr, e).bypass {
        OverlapIsRemoved(cidr, e, r);
      }
      assert Scan(cidr, e).bypass;
      assert e in Bypassed(cidr, e);
    }
  }

  lemma OverlapIsRemoved(cidr: seq<string>, e: string, r: string)
    requires !MissesOverlap(cidr, e) && !Scan(cidr, e).bypass && r in cidr && OverlapText(r, e)
    ensures r in Scan(cidr, e).toRemove
  {
    hide RangeOf, Scan;
    var n := ScanStops(cidr, e);
    var m :| 0 <= m < |cidr| && cidr[m] == r;
    if n < |cidr| {
      assert StopsAtItself(cidr, e, n);
      assert r in cidr[..n + 1] by {
        assert m <= n ==> cidr[..n + 1][m] == r;
      }
      assert cidr[..n + 1] == cidr[..n] + [e];
    } else {
      assert cidr[..n] == cidr;
    }
  }

  /** Disjoint ranges are always handled right. */
  lemma DisjointIsNotMissed(cidr: seq<string>, e: string)
    requires DisjointTexts(cidr)
    ensures !MissesOverlap(cidr, e)
  {
    forall n, m | 0 <= n < m < |cidr| && StopsAtItself(cidr, e, n) && cidr[m] !in cidr[..n + 1]
      ensures !OverlapText(cidr[m], e)
    {
      assert cidr[..n + 1][n] == e;
    }
  }

  /** A range around another one hides it: excluding the smaller one, listed first, leaves its addresses routed. */
  lemma OverlapIsMissed(p: Range, q: Range)
    requires q <= p && p != q
    ensures MissesOverlap([TextOf(p), TextOf(q)], TextOf(p))
    ensures !ExcludesExactly([TextOf(p), TextOf(q)], TextOf(p))
  {
    hide TextOf, RangeCells;
    var cidr := [TextOf(p), TextOf(q)];
    TextRoundTrip(p);
    TextRoundTrip(q);
    assert StopsAtItself(cidr, TextOf(p), 0);
    assert cidr[1] !in cidr[..0 + 1];
    ExcludesExactlyIff(cidr, TextOf(p));
  }

  /** A plain address given as an exclude, without a mask, is ignored. */
  lemma {:induction false} PlainExcludeIsIgnored(cidr: seq<string>, e: string)
    requires '/' !in e && e !in cidr
    ensures Scan(cidr, e) == Verdict([], false)
  {
    SplitPlain(e, '/');
    if cidr != [] {
      PlainExcludeIsIgnored(cidr[1..], e);
    }
  }

  predicate HeldBy(e: string, r: string) {
    r == e || Includes(e, r)
  }

  predicate HeldByAny(excludes: seq<string>, r: string) {
    exists e :: e in excludes && HeldBy(e, r)
  }

  ghost predicate Honoured(ranges: seq<string>, excludes: seq<string>, routes: Routes) {
    && TextAddresses(routes.cidr) - TextAddresses(routes.bypass) == TextAddresses(ranges) - TextAddresses(excludes)
    && (forall r :: r in routes.cidr <==> r in ranges && !HeldByAny(excludes, r))
    && (forall e | e in routes.bypass :: e in excludes && exists r :: r in ranges && StrictlyIncludes(r, e))
  }

  /** For disjoint ranges: routes less bypasses are the ranges less the excludes; a range stays exactly when no exclude
      holds it; and only excludes strictly inside a range are bypassed. */
  lemma {:induction false} ExcludesAreHonoured(ranges: seq<string>, excludes: seq<string>)
    requires DisjointTexts(ranges)
    ensures Honoured(ranges, excludes, ExcludeAll(ranges, excludes))
    ensures DisjointTexts(ExcludeAll(ranges, excludes).cidr)
  {
    hide RangeOf, Scan, WithoutAll, Includes, TextAddresses;
    if excludes == [] {
      NoAddresses();
    } else {
      var front, e := excludes[..|excludes| - 1], excludes[|excludes| - 1];
      var before, after := ExcludeAll(ranges, front), ExcludeAll(ranges, excludes);
      ExcludesAreHonoured(ranges, front);
      DisjointIsNotMissed(before.cidr, e);
      ExcludesExactlyIff(before.cidr, e);
      assert excludes == front + [e];
      TextAddressesOfConcat(front, [e]);
      TextAddressesOfConcat(before.bypass, Bypassed(before.cidr, e));
      assert after.bypass == before.bypass + Bypassed(before.cidr, e);
      KeptOfDisjoint(before.cidr, e);
      assert forall x :: x in excludes <==> x in front || x == e;
      assert after.cidr == Kept(before.cidr, e);
      DifferenceInSteps(TextAddresses(ranges), TextAddresses(front), TextAddresses([e]), TextAddresses(before.cidr),
                        TextAddresses(before.bypass), TextAddresses(after.cidr),
                        TextAddresses(Bypassed(before.cidr, e)));
      forall r
        ensures HeldByAny(excludes, r) <==> HeldByAny(front, r) || HeldBy(e, r)
      {
      }
    }
  }

  /** At no exclude does the order of the ranges hide an overlap. */
  ghost predicate NoneMissed(ranges: seq<string>, excludes: seq<string>) {
    forall n | 0 <= n < |excludes| :: !MissesOverlap(ExcludeAll(ranges, excludes[..n]).cidr, excludes[n])
  }

  /** Then the set equation holds for any ranges, also for overlapping ones. */
  lemma {:induction false} UnmissedExcludesAreHonoured(ranges: seq<string>, excludes: seq<string>)
    requires NoneMissed(ranges, excludes)
    ensures var routes := ExcludeAll(ranges, excludes);
            TextAddresses(routes.cidr) - TextAddresses(routes.bypass) == TextAddresses(ranges) - TextAddresses(excludes)
  {
    hide RangeOf, Scan, WithoutAll, Includes, TextAddresses, MissesOverlap;
    if excludes == [] {
      NoAddresses();
    } else {
      var n := |excludes| - 1;
      var front, e := excludes[..n], excludes[n];
      assert NoneMissed(ranges, front) by {
        assert forall k | 0 <= k < n :: front[..k] == excludes[..k] && front[k] == excludes[k];
      }
      UnmissedExcludesAreHonoured(ranges, front);
      var before := ExcludeAll(ranges, front);
      ExcludesExactlyIff(before.cidr, e);
      assert excludes == front + [e];
      TextAddressesOfConcat(front, [e]);
      TextAddressesOfConcat(before.bypass, Bypassed(before.cidr, e));
      assert ExcludeAll(ranges, excludes).cidr == Kept(before.cidr, e);
      assert ExcludeAll(ranges, excludes).bypass == before.bypass + Bypassed(before.cidr, e);
      DifferenceInSteps(TextAddresses(ranges), TextAddresses(front), TextAddresses([e]), TextAddresses(before.cidr),
                        TextAddresses(before.bypass), TextAddresses(Kept(before.cidr, e)),
                        TextAddresses(Bypassed(before.cidr, e)));
    }
  }

  lemma DisjointNoneMissed(ranges: seq<string>, excludes: seq<string>)
    requires DisjointTexts(ranges)
    ensures NoneMissed(ranges, excludes)
  {
    forall n | 0 <= n < |excludes|
      ensures !MissesOverlap(ExcludeAll(ranges, excludes[..n]).cidr, excludes[n])
    {
      ExcludesAreHonoured(ranges, excludes[..n]);
      DisjointIsNotMissed(ExcludeAll(ranges, excludes[..n]).cidr, excludes[n]);
    }
  }

  /** Somewhere in the list x comes before y. */
  predicate InOrder(list: seq<string>, x: string, y: string) {
    exists i, j :: 0 <= i < j < |list| && list[i] == x && list[j] == y
  }

  lemma OrderOfTail(list: seq<string>, x: string, y: string)
    requires list != []
    ensures InOrder(list, x, y) <==> InOrder(list[1..], x, y) || (list[0] == x && y in list[1..])
  {
    var tail := list[1..];
    if i, j :| 0 <= i < j < |list| && list[i] == x && list[j] == y {
      assert tail[j - 1] == y;
      assert i > 0 ==> tail[i - 1] == x;
    }
    if i, j :| 0 <= i < j < |tail| && tail[i] == x && tail[j] == y {
      assert list[i + 1] == x && list[j + 1] == y;
    }
    if list[0] == x && y in tail {
      var j :| 0 <= j < |tail| && tail[j] == y;
      assert list[j + 1] == y;
    }
  }

  lemma {:induction false} WithoutKeepsOrder(list: seq<string>, item: string, x: string, y: string)
    requires InOrder(Without(list, item), x, y)
    ensures InOrder(list, x, y)
  {
    OrderOfTail(list, x, y);
    if list[0] == item {
      WithoutKeepsOrder(list[1..], item, x, y);
    } else {
      var kept := Without(list, item);
      assert kept[1..] == Without(list[1..], item);
      OrderOfTail(kept, x, y);
      WithoutHolds(list[1..], item);
      hide InOrder;
      if InOrder(kept[1..], x, y) {
        WithoutKeepsOrder(list[1..], item, x, y);
      }
    }
  }

  lemma {:induction false} WithoutAllKeepsOrder(list: seq<string>, items: seq<string>, x: string, y: string)
    requires InOrder(WithoutAll(list, items), x, y)
    ensures InOrder(list, x, y)
  {
    hide InOrder;
    if items != [] {
      var n := |items| - 1;
      WithoutKeepsOrder(WithoutAll(list, items[..n]), items[n], x, y);
      WithoutAllKeepsOrder(list, items[..n], x, y);
    }
  }

  lemma {:induction false} ExcludeAllKeepsOrder(ranges: seq<string>, excludes: seq<string>, x: string, y: string)
    requires InOrder(ExcludeAll(ranges, excludes).cidr, x, y)
    ensures InOrder(ranges, x, y)
  {
    hide InOrder, Scan, WithoutAll;
    if excludes != [] {
      var n := |excludes| - 1;
      var before := ExcludeAll(ranges, excludes[..n]).cidr;
      WithoutAllKeepsOrder(before, Scan(before, excludes[n]).toRemove, x, y);
      ExcludeAllKeepsOrder(ranges, excludes[..n], x, y);
    }
  }

  /** No exclude that is a range of the list is followed by another range that overlaps it: the inputs alone tell. */
  ghost predicate NoOverlapFollows(ranges: seq<string>, excludes: seq<string>) {
    forall e, r | e in excludes && r != e && InOrder(ranges, e, r) :: !OverlapText(r, e)
  }

  lemma InOrderNoneMissed(ranges: seq<string>, excludes: seq<string>)
    requires NoOverlapFollows(ranges, excludes)
    ensures NoneMissed(ranges, excludes)
  {
    hide OverlapText, ExcludeAll;
    forall n | 0 <= n < |excludes|
      ensures !MissesOverlap(ExcludeAll(ranges, excludes[..n]).cidr, excludes[n])
    {
      var cidr, e := ExcludeAll(ranges, excludes[..n]).cidr, excludes[n];
      forall k, m | 0 <= k < m < |cidr| && StopsAtItself(cidr, e, k) && cidr[m] !in cidr[..k + 1]
        ensures !OverlapText(cidr[m], e)
      {
        assert cidr[k] == e && cidr[..k + 1][k] == e;
        assert InOrder(cidr, e, cidr[m]);
        ExcludeAllKeepsOrder(ranges, excludes[..n], e, cidr[m]);
      }
    }
  }

  lemma DifferenceInSteps<T(!new)>(all: iset<T>, front: iset<T>, last: iset<T>, mid: iset<T>, midBypass: iset<T>,
                                   end: iset<T>, endBypass: iset<T>)
    requires mid - midBypass == all - front
    requires end - endBypass == mid - last
    ensures end - (midBypass + endBypass) == all - (front + last)
  {
    forall x: T
      ensures x in end - (midBypass + endBypass) <==> x in all - (front + last)
    {
      assert x in mid - midBypass <==> x in all - front;
      assert x in end - endBypass <==> x in mid - last;
    }
  }

  lemma NoAddresses()
    ensures TextAddresses([]) == iset{}
  {
  }

  lemma TextAddressesOfConcat(s: seq<string>, t: seq<string>)
    ensures TextAddresses(s + t) == TextAddresses(s) + TextAddresses(t)
  {
  }

  lemma KeptOfDisjoint(cidr: seq<string>, e: string)
    requires DisjointTexts(cidr)
    ensures forall r :: r in Kept(cidr, e) <==> r in cidr && !HeldBy(e, r)
    ensures Scan(cidr, e).bypass ==> exists r :: r in cidr && StrictlyIncludes(r, e)
  {
    hide RangeOf, Scan, WithoutAll;
    var n := ScanStops(cidr, e);
    WithoutAllIsPart(cidr, Scan(cidr, e).toRemove);
    forall r | r in cidr && (r == e || Includes(e, r))
      ensures r in Scan(cidr, e).toRemove
    {
      if n < |cidr| {
        assert OverlapText(cidr[n], r) || cidr[n] == r;
      } else {
        assert cidr[..n] == cidr;
      }
    }
  }
}
