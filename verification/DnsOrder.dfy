/** The resolvers that the dnsMode option asks for, as the "protocol:ip:port" texts that a query splits again. */
module DnsOrder {
  import opened Text
  import opened DnsCache

  const DNS_ORDER_CLUSTER := "cluster"
  const DNS_ORDER_UPSTREAM := "upstream"
  const LOCALHOST := "127.0.0.1"
  const STANDARD_DNS_PORT := 53

  /** `[cdptu]{3}` */
  predicate IsProtocolLike(s: string) {
    |s| == 3 && forall c | c in s :: c == 'c' || c == 'd' || c == 'p' || c == 't' || c == 'u'
  }

  /** `[0-9]+` */
  predicate IsNumber(s: string) {
    s != "" && forall c | c in s :: IsDigit(c)
  }

  /** `^([cdptu]{3}:)?upstream(:[0-9]+)?$` */
  predicate IsUpstream(dnsAddr: string) {
    var parts := Split(dnsAddr, ':');
    || parts == [DNS_ORDER_UPSTREAM]
    || (|parts| == 2 && parts[0] == DNS_ORDER_UPSTREAM && IsNumber(parts[1]))
    || (|parts| == 2 && IsProtocolLike(parts[0]) && parts[1] == DNS_ORDER_UPSTREAM)
    || (|parts| == 3 && IsProtocolLike(parts[0]) && parts[1] == DNS_ORDER_UPSTREAM && IsNumber(parts[2]))
  }

  function Colons(a: string, b: string, c: string): string {
    a + ":" + b + ":" + c
  }

  /** The address of one entry of the order, or none. */
  function AddressOf(dnsAddr: string, upstreamDns: string, clusterDnsPort: nat): seq<string> {
    var parts := Split(dnsAddr, ':');
    if dnsAddr == DNS_ORDER_CLUSTER then [Colons("tcp", LOCALHOST, Itoa(clusterDnsPort))]
    else if IsUpstream(dnsAddr) then
      if upstreamDns == "" then []
      else if |parts| == 1 then [Colons("udp", upstreamDns, Itoa(STANDARD_DNS_PORT))]
      else if |parts| == 2 then
        if Atoi(parts[1]).Some? then [Colons("udp", upstreamDns, parts[1])]
        else [Colons(parts[0], upstreamDns, Itoa(STANDARD_DNS_PORT))]
      else [Colons(parts[0], upstreamDns, parts[2])]
    else if |parts| == 1 then [Colons("udp", dnsAddr, Itoa(STANDARD_DNS_PORT))]
    else if |parts| == 2 then
      if Atoi(parts[1]).Some? then ["udp:" + dnsAddr] else [dnsAddr + ":" + Itoa(STANDARD_DNS_PORT)]
    else if |parts| == 3 then [dnsAddr]
    else []
  }

  function AddressesOf(dnsOrder: seq<string>, upstreamDns: string, clusterDnsPort: nat): seq<string> {
    if dnsOrder == [] then []
    else
      var n := |dnsOrder| - 1;
      AddressesOf(dnsOrder[..n], upstreamDns, clusterDnsPort) + AddressOf(dnsOrder[n], upstreamDns, clusterDnsPort)
  }

  method GetDnsAddresses(dnsOrder: seq<string>, upstreamDns: string, clusterDnsPort: nat)
      returns (dnsAddresses: seq<string>)
    ensures dnsAddresses == AddressesOf(dnsOrder, upstreamDns, clusterDnsPort)
  {
    dnsAddresses := [];
    for i := 0 to |dnsOrder|
      invariant dnsAddresses == AddressesOf(dnsOrder[..i], upstreamDns, clusterDnsPort)
    {
      assert dnsOrder[..i + 1][..i] == dnsOrder[..i];
      hide IsUpstream, Split, Atoi, Itoa, Colons;
      var dnsAddr := dnsOrder[i];
      var parts := Split(dnsAddr, ':');
      if dnsAddr == DNS_ORDER_CLUSTER {
        dnsAddresses := dnsAddresses + [Colons("tcp", LOCALHOST, Itoa(clusterDnsPort))];
      } else if IsUpstream(dnsAddr) {
        if upstreamDns != "" {
          match |parts|
          case 1 => dnsAddresses := dnsAddresses + [Colons("udp", upstreamDns, Itoa(STANDARD_DNS_PORT))];
          case 2 =>
            if Atoi(parts[1]).Some? {
              dnsAddresses := dnsAddresses + [Colons("udp", upstreamDns, parts[1])];
            } else {
              dnsAddresses := dnsAddresses + [Colons(parts[0], upstreamDns, Itoa(STANDARD_DNS_PORT))];
            }
          case _ => dnsAddresses := dnsAddresses + [Colons(parts[0], upstreamDns, parts[2])];
        }
      } else {
        match |parts|
        case 1 => dnsAddresses := dnsAddresses + [Colons("udp", dnsAddr, Itoa(STANDARD_DNS_PORT))];
        case 2 =>
          if Atoi(parts[1]).Some? {
            dnsAddresses := dnsAddresses + ["udp:" + dnsAddr];
          } else {
            dnsAddresses := dnsAddresses + [dnsAddr + ":" + Itoa(STANDARD_DNS_PORT)];
          }
        case 3 => dnsAddresses := dnsAddresses + [dnsAddr];
        case _ =>
      }
    }
    assert dnsOrder[..|dnsOrder|] == dnsOrder;
  }

  lemma ColonsCount(a: string, b: string, c: string)
    ensures Count(Colons(a, b, c), ':') >= 2
  {
    CountOfConcat(a, ":", ':');
    CountOfConcat(a + ":", b, ':');
    CountOfConcat(a + ":" + b, ":", ':');
    CountOfConcat(a + ":" + b + ":", c, ':');
    assert Count(":", ':') == 1;
  }

  /** Whatever the order says, a query can split each address into its three parts. */
  lemma {:induction false} AddressesHaveThreeParts(dnsOrder: seq<string>, upstreamDns: string, clusterDnsPort: nat)
    ensures forall addr | addr in AddressesOf(dnsOrder, upstreamDns, clusterDnsPort) :: Count(addr, ':') >= 2
  {
    if dnsOrder != [] {
      var n := |dnsOrder| - 1;
      AddressesHaveThreeParts(dnsOrder[..n], upstreamDns, clusterDnsPort);
      hide AddressOf, Count;
      AddressHasThreeParts(dnsOrder[n], upstreamDns, clusterDnsPort);
    }
  }

  /** So a server with these addresses can be asked. */
  lemma ServerIsValid(dnsOrder: seq<string>, upstreamDns: string, clusterDnsPort: nat, extraDomains: set<string>,
                      ingressIp: string, ttl: int)
    ensures Config(AddressesOf(dnsOrder, upstreamDns, clusterDnsPort), extraDomains, ingressIp, ttl).Valid()
  {
    AddressesHaveThreeParts(dnsOrder, upstreamDns, clusterDnsPort);
  }

  lemma AddressHasThreeParts(dnsAddr: string, upstreamDns: string, clusterDnsPort: nat)
    ensures forall addr | addr in AddressOf(dnsAddr, upstreamDns, clusterDnsPort) :: Count(addr, ':') >= 2
  {
    var parts := Split(dnsAddr, ':');
    hide IsUpstream, Split, Atoi, Itoa, Colons, Count;
    ColonsCount("tcp", LOCALHOST, Itoa(clusterDnsPort));
    ColonsCount("udp", upstreamDns, Itoa(STANDARD_DNS_PORT));
    ColonsCount("udp", dnsAddr, Itoa(STANDARD_DNS_PORT));
    OneMoreColon("udp", dnsAddr);
    OneMoreColon(dnsAddr, Itoa(STANDARD_DNS_PORT));
    assert "udp" + ":" == "udp:";
    if |parts| >= 2 {
      ColonsCount("udp", upstreamDns, parts[1]);
      ColonsCount(parts[0], upstreamDns, Itoa(STANDARD_DNS_PORT));
    }
    if |parts| >= 3 {
      ColonsCount(parts[0], upstreamDns, parts[2]);
    }
  }

  lemma OneMoreColon(a: string, b: string)
    ensures Count(a + ":" + b, ':') == Count(a, ':') + 1 + Count(b, ':')
  {
    CountOfConcat(a, ":", ':');
    CountOfConcat(a + ":", b, ':');
    assert Count(":", ':') == 1;
  }

  lemma SplitColons(a: string, b: string, c: string)
    requires ':' !in a && ':' !in b && ':' !in c
    ensures Split(Colons(a, b, c), ':') == [a, b, c]
  {
    hide Split;
    SplitPlain(c, ':');
    SplitCons(b, c, ':');
    SplitCons(a, b + ":" + c, ':');
    assert Colons(a, b, c) == a + ":" + (b + ":" + c);
    Triple(a, b, c);
  }

  lemma Triple<T>(a: T, b: T, c: T)
    ensures [a] + ([b] + [c]) == [a, b, c] && [a, b, c][2..] == [c]
  {
  }

  lemma ResolverOfColons(protocol: string, ip: string, port: nat)
    requires ':' !in protocol && ':' !in ip && port < INT64_LIMIT
    ensures Count(Colons(protocol, ip, Itoa(port)), ':') >= 2
    ensures ResolverOf(Colons(protocol, ip, Itoa(port)))
            == if ip == "" || (protocol != "tcp" && protocol != "udp") then None else Some(Resolver(protocol, ip, port))
  {
    ColonsCount(protocol, ip, Itoa(port));
    AtoiOfItoa(port);
    assert ':' !in Itoa(port);
    hide Count, Atoi, Itoa, Colons, Split;
    SplitColons(protocol, ip, Itoa(port));
    Triple(protocol, ip, Itoa(port));
  }

  // ----- what an entry means -----

  datatype Host = Machine(ip: string) | Upstream

  /** cluster, or [protocol:]host[:port] */
  datatype Entry = Cluster | Server(protocol: Option<string>, host: Host, port: Option<nat>)

  predicate IsEntry(entry: Entry) {
    entry.Server? ==>
      && (entry.protocol.Some? ==> entry.protocol.value == "tcp" || entry.protocol.value == "udp")
      && (entry.host.Machine? ==>
            var ip := entry.host.ip; ':' !in ip && ip != "" && ip != DNS_ORDER_CLUSTER && ip != DNS_ORDER_UPSTREAM)
      && (entry.port.Some? ==> entry.port.value < INT64_LIMIT)
  }

  function HostText(host: Host): string {
    if host.Machine? then host.ip else DNS_ORDER_UPSTREAM
  }

  function Parts(entry: Entry): seq<string> {
    if entry.Cluster? then [DNS_ORDER_CLUSTER]
    else
      (if entry.protocol.Some? then [entry.protocol.value] else []) + [HostText(entry.host)]
      + if entry.port.Some? then [Itoa(entry.port.value)] else []
  }

  function TextOf(entry: Entry): string {
    Join(Parts(entry), ':')
  }

  /** UDP and port 53, unless the entry says otherwise. */
  function Meant(entry: Entry, upstreamDns: string, clusterDnsPort: nat): Resolver {
    if entry.Cluster? then Resolver("tcp", LOCALHOST, clusterDnsPort)
    else Resolver(if entry.protocol.Some? then entry.protocol.value else "udp",
                  if entry.host.Machine? then entry.host.ip else upstreamDns,
                  if entry.port.Some? then entry.port.value else STANDARD_DNS_PORT)
  }

  /** A machine written as a number behind a protocol looks like a port behind a machine. */
  predicate IsAmbiguous(entry: Entry) {
    entry.Server? && entry.protocol.Some? && entry.host.Machine? && entry.port.None? && Atoi(entry.host.ip).Some?
  }

  lemma PartsHaveNoColon(entry: Entry)
    requires IsEntry(entry)
    ensures Parts(entry) != [] && forall p | p in Parts(entry) :: ':' !in p
    ensures Split(TextOf(entry), ':') == Parts(entry)
  {
    assert entry.Server? && entry.port.Some? ==> ':' !in Itoa(entry.port.value);
    hide Itoa, Split, Join;
    SplitOfJoin(Parts(entry), ':');
  }

  /** The one address of an entry, by its three parts. */
  function AddressParts(entry: Entry, upstreamDns: string, clusterDnsPort: nat): (string, string, string)
    requires IsEntry(entry)
  {
    if entry.Cluster? then ("tcp", LOCALHOST, Itoa(clusterDnsPort))
    else if IsAmbiguous(entry) then ("udp", entry.protocol.value, entry.host.ip)
    else (if entry.protocol.Some? then entry.protocol.value else "udp",
          if entry.host.Machine? then entry.host.ip else upstreamDns,
          Itoa(if entry.port.Some? then entry.port.value else STANDARD_DNS_PORT))
  }

  lemma NotANumber(s: string)
    requires s == DNS_ORDER_UPSTREAM || s == "tcp" || s == "udp"
    ensures Atoi(s).None?
  {
  }

  /** A text of which the middle part alone decides. */
  lemma KindOfParts(text: string, front: seq<string>, host: string, back: seq<string>)
    requires Split(text, ':') == front + [host] + back && |front| <= 1 && |back| <= 1
    requires forall p | p in front :: IsProtocolLike(p) && p != DNS_ORDER_UPSTREAM
    requires forall p | p in back :: IsNumber(p) && p != DNS_ORDER_UPSTREAM
    ensures IsUpstream(text) <==> host == DNS_ORDER_UPSTREAM
  {
    hide Split, IsNumber, IsProtocolLike;
    var parts := Split(text, ':');
    assert (front != [] ==> front[0] in front) && (back != [] ==> back[0] in back);
    if front == [] {
      assert parts == if back == [] then [host] else [host, back[0]];
    } else {
      assert parts == if back == [] then [front[0], host] else [front[0], host, back[0]];
    }
  }

  lemma EntryKind(entry: Entry)
    requires IsEntry(entry) && entry.Server?
    ensures IsUpstream(TextOf(entry)) <==> entry.host.Upstream?
  {
    PartsHaveNoColon(entry);
    var front := if entry.protocol.Some? then [entry.protocol.value] else [];
    var back := if entry.port.Some? then [Itoa(entry.port.value)] else [];
    if entry.port.Some? {
      NumberIsNotUpstream(entry.port.value);
    }
    hide Itoa, Split, TextOf, IsNumber, IsUpstream;
    KindOfParts(TextOf(entry), front, HostText(entry.host), back);
  }

  lemma NumberIsNotUpstream(port: nat)
    ensures IsNumber(Itoa(port)) && Itoa(port) != DNS_ORDER_UPSTREAM
  {
    var number := Itoa(port);
    assert number[0] in number && DNS_ORDER_UPSTREAM[0] == 'u';
  }

  lemma JoinedThree(a: string, b: string, c: string)
    ensures Join([a, b, c], ':') == Colons(a, b, c) && Join([a, b], ':') == a + ":" + b && Join([a], ':') == a
  {
    assert [a, b, c][1..] == [b, c] && [b, c][1..] == [c] && [a, b][1..] == [b];
    assert Join([b, c], ':') == b + [':'] + c && Join([a, b], ':') == a + [':'] + b;
    assert Join([a, b, c], ':') == a + [':'] + (b + [':'] + c);
    assert a + [':'] + (b + [':'] + c) == a + ":" + b + ":" + c;
  }

  /** Which address an entry becomes. */
  lemma AddressOfEntry(entry: Entry, upstreamDns: string, clusterDnsPort: nat)
    requires IsEntry(entry) && entry.Server? && (entry.host.Upstream? ==> upstreamDns != "")
    ensures var (a, b, c) := AddressParts(entry, upstreamDns, clusterDnsPort);
            AddressOf(TextOf(entry), upstreamDns, clusterDnsPort) == [Colons(a, b, c)]
  {
    PartsHaveNoColon(entry);
    EntryKind(entry);
    NotTheClusterText(entry);
    NotANumber(DNS_ORDER_UPSTREAM);
    var parts := Parts(entry);
    if entry.port.Some? {
      AtoiOfItoa(entry.port.value);
    }
    hide Itoa, Atoi, Split, Join, IsUpstream, Colons;
    var text := TextOf(entry);
    if |parts| == 3 {
      assert parts == [parts[0], parts[1], parts[2]];
      JoinedThree(parts[0], parts[1], parts[2]);
    } else if |parts| == 2 {
      assert parts == [parts[0], parts[1]];
      JoinedThree(parts[0], parts[1], Itoa(STANDARD_DNS_PORT));
      ColonsOf(parts[0], parts[1]);
    } else {
      assert parts == [parts[0]];
      JoinedThree(parts[0], "", "");
    }
  }

  lemma ColonsOf(a: string, b: string)
    ensures "udp:" + (a + ":" + b) == Colons("udp", a, b)
    ensures a + ":" + b + ":" + Itoa(STANDARD_DNS_PORT) == Colons(a, b, Itoa(STANDARD_DNS_PORT))
  {
    hide Itoa;
    assert "udp" + ":" == "udp:";
    assert "udp:" + (a + ":" + b) == "udp:" + a + ":" + b;
  }

  lemma OneWord(entry: Entry, word: string)
    requires IsEntry(entry) && entry.Server? && ':' !in word && TextOf(entry) == word
    ensures HostText(entry.host) == word
  {
    PartsHaveNoColon(entry);
    hide Itoa, Join, Split, HostText;
    SplitPlain(word, ':');
    assert |Parts(entry)| == 1 && Parts(entry)[0] == word;
  }

  lemma NotTheClusterText(entry: Entry)
    requires IsEntry(entry) && entry.Server?
    ensures TextOf(entry) != DNS_ORDER_CLUSTER
  {
    assert ':' !in DNS_ORDER_CLUSTER && |DNS_ORDER_UPSTREAM| != |DNS_ORDER_CLUSTER|;
    hide TextOf;
    if TextOf(entry) == DNS_ORDER_CLUSTER {
      OneWord(entry, DNS_ORDER_CLUSTER);
    }
  }

  /** Each entry of the order is asked as it says, exactly if it is not a number behind a protocol. */
  lemma EntryMeansIff(entry: Entry, upstreamDns: string, clusterDnsPort: nat)
    requires IsEntry(entry) && clusterDnsPort < INT64_LIMIT
    requires entry.Server? && entry.host.Upstream? ==> upstreamDns != "" && ':' !in upstreamDns
    ensures var addrs := AddressOf(TextOf(entry), upstreamDns, clusterDnsPort);
            && |addrs| == 1 && Count(addrs[0], ':') >= 2
            && (ResolverOf(addrs[0]) == Some(Meant(entry, upstreamDns, clusterDnsPort)) <==> !IsAmbiguous(entry))
  {
    if entry.Cluster? {
      ClusterMeans(upstreamDns, clusterDnsPort);
    } else {
      AddressOfEntry(entry, upstreamDns, clusterDnsPort);
      hide AddressOf, TextOf, Count, Colons, ResolverOf, Itoa;
      PartsMean(entry, upstreamDns, clusterDnsPort);
    }
  }

  lemma ClusterMeans(upstreamDns: string, clusterDnsPort: nat)
    requires clusterDnsPort < INT64_LIMIT
    ensures var addrs := AddressOf(TextOf(Cluster), upstreamDns, clusterDnsPort);
            && |addrs| == 1 && Count(addrs[0], ':') >= 2
            && ResolverOf(addrs[0]) == Some(Resolver("tcp", LOCALHOST, clusterDnsPort))
  {
    JoinedThree(DNS_ORDER_CLUSTER, "", "");
    hide Split, Count, Itoa, Colons, ResolverOf, IsUpstream, Join;
    ResolverOfColons("tcp", LOCALHOST, clusterDnsPort);
  }

  lemma PartsMean(entry: Entry, upstreamDns: string, clusterDnsPort: nat)
    requires IsEntry(entry) && entry.Server? && (entry.host.Upstream? ==> upstreamDns != "" && ':' !in upstreamDns)
    ensures var (a, b, c) := AddressParts(entry, upstreamDns, clusterDnsPort);
            && Count(Colons(a, b, c), ':') >= 2
            && (ResolverOf(Colons(a, b, c)) == Some(Meant(entry, upstreamDns, clusterDnsPort)) <==> !IsAmbiguous(entry))
  {
    var (a, b, c) := AddressParts(entry, upstreamDns, clusterDnsPort);
    hide Count, Colons, ResolverOf, Itoa;
    if IsAmbiguous(entry) {
      NotANumber(b);
      assert b != entry.host.ip;
      hide Atoi;
      ResolverOfParts(a, b, c);
    } else {
      hide Atoi;
      ResolverOfColons(a, b, if entry.port.Some? then entry.port.value else STANDARD_DNS_PORT);
    }
  }

  lemma ResolverOfParts(a: string, b: string, c: string)
    requires ':' !in a && ':' !in b && ':' !in c && b != ""
    ensures Count(Colons(a, b, c), ':') >= 2
    ensures ResolverOf(Colons(a, b, c)).Some? ==> ResolverOf(Colons(a, b, c)).value.ip == b
  {
    ColonsCount(a, b, c);
    hide Count, Atoi, Colons, Split;
    SplitColons(a, b, c);
  }

  /** If the machine's own name server is not known, its entries are skipped. */
  lemma UnknownUpstreamIsSkipped(entry: Entry, clusterDnsPort: nat)
    requires IsEntry(entry) && entry.Server? && entry.host.Upstream?
    ensures AddressOf(TextOf(entry), "", clusterDnsPort) == []
  {
    hide Itoa, Split, Join, TextOf, IsUpstream;
    EntryKind(entry);
    NotTheClusterText(entry);
  }

  // ----- the order -----

  function TextsOf(entries: seq<Entry>): seq<string> {
    seq(|entries|, k requires 0 <= k < |entries| => TextOf(entries[k]))
  }

  /** The entries that have a resolver. */
  function Known(entries: seq<Entry>, upstreamDns: string): seq<Entry> {
    if entries == [] then []
    else
      (if upstreamDns == "" && entries[0].Server? && entries[0].host.Upstream? then [] else [entries[0]])
      + Known(entries[1..], upstreamDns)
  }

  lemma Associate<T>(a: seq<T>, b: seq<T>, c: seq<T>)
    ensures a + b + c == a + (b + c)
  {
  }

  lemma NothingBehind<T>(a: seq<T>)
    ensures a + [] == a
  {
  }

  lemma LastOfConcat<T>(a: seq<T>, b: seq<T>)
    requires b != []
    ensures (a + b)[..|a + b| - 1] == a + b[..|b| - 1] && (a + b)[|a + b| - 1] == b[|b| - 1]
  {
  }

  lemma AddressesNext(dnsOrder: seq<string>, upstreamDns: string, clusterDnsPort: nat)
    requires dnsOrder != []
    ensures var n := |dnsOrder| - 1;
            AddressesOf(dnsOrder, upstreamDns, clusterDnsPort) ==
            AddressesOf(dnsOrder[..n], upstreamDns, clusterDnsPort)
                + AddressOf(dnsOrder[n], upstreamDns, clusterDnsPort)
  {
  }

  predicate IsColonNumber(s: string) {
    s == "" || (|s| >= 2 && s[0] == ':' && forall k | 1 <= k < |s| :: '0' <= s[k] <= '9')
  }

  predicate IsThreeColon(s: string) {
    s == "" || (|s| == 4 && s[0] in "cdptu" && s[1] in "cdptu" && s[2] in "cdptu" && s[3] == ':')
  }

  /** The parts of such a text. */
  function UpstreamParts(front: string, back: string): seq<string> {
    (if |front| < 3 then [] else [front[..3]]) + ["upstream"] + if back == "" then [] else [back[1..]]
  }

  lemma UpstreamText(front: string, back: string)
    requires IsThreeColon(front) && IsColonNumber(back)
    ensures Join(UpstreamParts(front, back), ':') == front + "upstream" + back
  {
    var protocol, number := if |front| < 3 then "" else front[..3], if back == "" then "" else back[1..];
    assert (front == "" || front == protocol + ":") && (back == "" || back == ":" + number);
    JoinedThree(protocol, "upstream", number);
    JoinedThree("upstream", number, "");
    JoinedThree("upstream", "", "");
    hide Join;
    if front == "" {
      assert UpstreamParts(front, back) == if back == "" then ["upstream"] else ["upstream", number];
      TwoColons("", "upstream", number);
      assert "" + "upstream" + back == "upstream" + back && "upstream" + "" == "upstream";
    } else {
      assert UpstreamParts(front, back) ==
             if back == "" then [protocol, "upstream"] else [protocol, "upstream", number];
      TwoColons(protocol, "upstream", number);
      assert protocol + ":" + "upstream" + "" == protocol + ":" + "upstream";
    }
  }

  lemma TwoColons(a: string, b: string, c: string)
    ensures a + ":" + b + ":" + c == Colons(a, b, c) == a + ":" + b + (":" + c) && b + ":" + c == b + (":" + c)
  {
  }

  /** The pattern of the entries that stand for the machine's own name server, character by character. */
  lemma UpstreamIs(text: string)
    ensures IsUpstream(text) <==>
            exists front, back :: text == front + "upstream" + back && IsThreeColon(front) && IsColonNumber(back)
  {
    var parts := Split(text, ':');
    if IsUpstream(text) {
      var front, back := PartsOfUpstream(parts);
      UpstreamText(front, back);
    }
    if front, back :| text == front + "upstream" + back && IsThreeColon(front) && IsColonNumber(back) {
      UpstreamText(front, back);
      PartsArePlain(front, back);
      hide Split, Join, IsNumber, IsProtocolLike;
      SplitOfJoin(UpstreamParts(front, back), ':');
    }
  }

  lemma PartsArePlain(front: string, back: string)
    requires IsThreeColon(front) && IsColonNumber(back)
    ensures forall p | p in UpstreamParts(front, back) :: ':' !in p
    ensures front != "" ==> IsProtocolLike(front[..3])
    ensures back != "" ==> IsNumber(back[1..])
  {
    if front != "" {
      assert front == front[..3] + ":";
      ProtocolIs(front[..3]);
    }
    if back != "" {
      assert back == ":" + back[1..];
      NumberIs(back[1..]);
    }
  }

  lemma PartsOfUpstream(parts: seq<string>) returns (front: string, back: string)
    requires 1 <= |parts| <= 3
    requires |parts| == 1 ==> parts[0] == "upstream"
    requires |parts| == 2 ==> (parts[0] == "upstream" && IsNumber(parts[1]))
                              || (IsProtocolLike(parts[0]) && parts[1] == "upstream")
    requires |parts| == 3 ==> IsProtocolLike(parts[0]) && parts[1] == "upstream" && IsNumber(parts[2])
    ensures IsThreeColon(front) && IsColonNumber(back) && parts == UpstreamParts(front, back)
  {
    front := if |parts| == 3 || (|parts| == 2 && parts[0] != "upstream") then parts[0] + ":" else "";
    back := if |parts| == 3 then ":" + parts[2] else if front == "" && |parts| == 2 then ":" + parts[1] else "";
    if front != "" {
      ProtocolIs(parts[0]);
      assert front[..3] == parts[0];
    }
    if back != "" {
      NumberIs(parts[|parts| - 1]);
      assert back[1..] == parts[|parts| - 1];
    }
    hide IsThreeColon, IsColonNumber, IsProtocolLike, IsNumber;
  }

  lemma ProtocolIs(s: string)
    ensures IsProtocolLike(s) ==> |s| == 3 && IsThreeColon(s + ":") && ':' !in s
    ensures IsThreeColon(s + ":") ==> IsProtocolLike(s)
  {
    if |s| == 3 {
      assert s == [s[0], s[1], s[2]];
      assert (s + ":")[0] == s[0] && (s + ":")[1] == s[1] && (s + ":")[2] == s[2] && (s + ":")[3] == ':';
      assert s[0] in s && s[1] in s && s[2] in s;
    }
  }

  lemma NumberIs(s: string)
    ensures IsNumber(s) <==> IsColonNumber(":" + s)
    ensures IsNumber(s) ==> ':' !in s
  {
    var text := ":" + s;
    assert forall k | 1 <= k < |text| :: text[k] == s[k - 1];
    assert forall k | 0 <= k < |s| :: s[k] == text[k + 1] && s[k] in s;
  }

  /** An entry with more than two colons is skipped. */
  lemma ManyColonsAreSkipped(dnsAddr: string, upstreamDns: string, clusterDnsPort: nat)
    requires Count(dnsAddr, ':') > 2
    ensures AddressOf(dnsAddr, upstreamDns, clusterDnsPort) == []
  {
    CountIsZero(DNS_ORDER_CLUSTER, ':');
    hide Split, Count;
  }

  lemma {:induction false} AddressesConcat(a: seq<string>, b: seq<string>, upstreamDns: string, clusterDnsPort: nat)
    ensures AddressesOf(a + b, upstreamDns, clusterDnsPort) ==
            AddressesOf(a, upstreamDns, clusterDnsPort) + AddressesOf(b, upstreamDns, clusterDnsPort)
  {
    if b == [] {
      NothingBehind(a);
      NothingBehind(AddressesOf(a, upstreamDns, clusterDnsPort));
    } else {
      var n := |b| - 1;
      AddressesNext(a + b, upstreamDns, clusterDnsPort);
      AddressesNext(b, upstreamDns, clusterDnsPort);
      hide AddressOf, AddressesOf;
      AddressesConcat(a, b[..n], upstreamDns, clusterDnsPort);
      LastOfConcat(a, b);
      Associate(AddressesOf(a, upstreamDns, clusterDnsPort), AddressesOf(b[..n], upstreamDns, clusterDnsPort),
                AddressOf(b[n], upstreamDns, clusterDnsPort));
    }
  }

  lemma AddressesOfOne(dnsAddr: string, upstreamDns: string, clusterDnsPort: nat)
    ensures AddressesOf([dnsAddr], upstreamDns, clusterDnsPort) == AddressOf(dnsAddr, upstreamDns, clusterDnsPort)
  {
    hide AddressOf;
    assert [dnsAddr][..0] == [];
  }

  /** The address is asked as the entry says, exactly if the entry is not ambiguous. */
  predicate IsAsked(addr: string, entry: Entry, upstreamDns: string, clusterDnsPort: nat) {
    && Count(addr, ':') >= 2
    && (ResolverOf(addr) == Some(Meant(entry, upstreamDns, clusterDnsPort)) <==> !IsAmbiguous(entry))
  }

  lemma EntryIsAsked(entry: Entry, upstreamDns: string, clusterDnsPort: nat)
    requires IsEntry(entry) && clusterDnsPort < INT64_LIMIT
    requires entry.Server? && entry.host.Upstream? ==> upstreamDns != "" && ':' !in upstreamDns
    ensures var addrs := AddressOf(TextOf(entry), upstreamDns, clusterDnsPort);
            |addrs| == 1 && IsAsked(addrs[0], entry, upstreamDns, clusterDnsPort)
  {
    hide AddressOf, TextOf, IsEntry, ResolverOf, Count, Meant, IsAmbiguous;
    EntryMeansIff(entry, upstreamDns, clusterDnsPort);
  }

  lemma AddressesOfFirst(entries: seq<Entry>, upstreamDns: string, clusterDnsPort: nat)
    requires entries != []
    ensures AddressesOf(TextsOf(entries), upstreamDns, clusterDnsPort) ==
            AddressOf(TextOf(entries[0]), upstreamDns, clusterDnsPort)
            + AddressesOf(TextsOf(entries[1..]), upstreamDns, clusterDnsPort)
  {
    var text, texts := TextOf(entries[0]), TextsOf(entries[1..]);
    assert TextsOf(entries) == [text] + texts;
    hide AddressOf, AddressesOf, TextOf;
    AddressesConcat([text], texts, upstreamDns, clusterDnsPort);
    AddressesOfOne(text, upstreamDns, clusterDnsPort);
  }

  /** One address for each entry, in order. */
  predicate AreAsked(addrs: seq<string>, entries: seq<Entry>, upstreamDns: string, clusterDnsPort: nat) {
    && |addrs| == |entries|
    && forall k | 0 <= k < |entries| :: IsAsked(addrs[k], entries[k], upstreamDns, clusterDnsPort)
  }

  lemma AskedInFront(addr: string, addrs: seq<string>, entry: Entry, entries: seq<Entry>, upstreamDns: string,
                     clusterDnsPort: nat)
    requires IsAsked(addr, entry, upstreamDns, clusterDnsPort)
    requires AreAsked(addrs, entries, upstreamDns, clusterDnsPort)
    ensures AreAsked([addr] + addrs, [entry] + entries, upstreamDns, clusterDnsPort)
  {
    hide IsAsked;
  }

  /** The resolvers are those that the entries mean, one for each known entry, in the order of the option. */
  lemma {:induction false} OrderIsKept(entries: seq<Entry>, upstreamDns: string, clusterDnsPort: nat)
    requires (forall entry | entry in entries :: IsEntry(entry))
             && ':' !in upstreamDns && clusterDnsPort < INT64_LIMIT
    ensures AreAsked(AddressesOf(TextsOf(entries), upstreamDns, clusterDnsPort), Known(entries, upstreamDns),
                     upstreamDns, clusterDnsPort)
  {
    if entries != [] {
      var entry, others := entries[0], entries[1..];
      hide AddressOf, AddressesOf, TextOf, TextsOf, IsEntry, IsAsked, AreAsked;
      OrderIsKept(others, upstreamDns, clusterDnsPort);
      AddressesOfFirst(entries, upstreamDns, clusterDnsPort);
      var addrs, rest := AddressOf(TextOf(entry), upstreamDns, clusterDnsPort), Known(others, upstreamDns);
      var others' := AddressesOf(TextsOf(others), upstreamDns, clusterDnsPort);
      if entry.Server? && entry.host.Upstream? && upstreamDns == "" {
        UnknownUpstreamIsSkipped(entry, clusterDnsPort);
        assert [] + others' == others' && [] + rest == rest;
      } else {
        EntryIsAsked(entry, upstreamDns, clusterDnsPort);
        assert addrs == [addrs[0]];
        AskedInFront(addrs[0], others', entry, rest, upstreamDns, clusterDnsPort);
      }
    }
  }
}
