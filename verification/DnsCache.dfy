/** The local DNS server: which resolvers it asks, and what it remembers of their answers. */
module DnsCache {
  import opened Text

  // ----- resolvers -----

  /** A resolver as written "protocol:ip:port"; strings.SplitN with three parts. None: skipped. */
  datatype Resolver = Resolver(protocol: string, ip: string, port: int)

  function ResolverOf(dnsAddr: string): Option<Resolver>
    requires Count(dnsAddr, ':') >= 2
  {
    var parts := Split(dnsAddr, ':');
    var port := Atoi(Join(parts[2..], ':'));
    if parts[1] == "" || port.None? || (parts[0] != "tcp" && parts[0] != "udp") then None
    else Some(Resolver(parts[0], parts[1], port.value))
  }

  // ----- ingress domains -----

  /** A pattern with stars against a text; a star stands for any characters. */
  predicate GlobMatch(pattern: string, text: string)
    decreases |pattern| + |text|
  {
    if pattern == "" then text == ""
    else if pattern[0] == '*' then GlobMatch(pattern[1..], text) || (text != "" && GlobMatch(pattern, text[1..]))
    else text != "" && pattern[0] == text[0] && GlobMatch(pattern[1..], text[1..])
  }

  predicate WildcardMatch(patternDomain: string, targetDomain: string) {
    var pattern := if HasSuffix(patternDomain, ".") then patternDomain else patternDomain + ".";
    if '*' in pattern then GlobMatch(pattern, targetDomain) else pattern == targetDomain
  }

  datatype Record = A(name: string, ip: string) | Other(name: string, data: string)

  // ----- cache -----

  datatype NsEntry = NsEntry(answer: seq<Record>, timestamp: int)

  type Cache = map<string, NsEntry>

  function CacheKey(domain: string, qtype: nat): string {
    domain + ":" + Itoa(qtype)
  }

  predicate NotExpired(timestamp: int, ttl: int, now: int) {
    now < timestamp + ttl
  }

  /** Go's division truncates towards zero. */
  function Half(ttl: int): int {
    if ttl >= 0 then ttl / 2 else -(-ttl / 2)
  }

  /** `extraDomains`: the hosts of the ingresses, all with the one ingress address. */
  datatype Config = Config(dnsAddresses: seq<string>, extraDomains: set<string>, ingressIp: string, ttl: int) {
    predicate Valid() {
      forall addr | addr in dnsAddresses :: Count(addr, ':') >= 2
    }
  }

  /** A question, the time at which the cache is read, the time at which it would be written, and what the resolvers
      would answer; a resolver that is not in the map fails. */
  datatype Query = Query(domain: string, qtype: nat, readAt: int, writtenAt: int, lookups: map<Resolver, seq<Record>>)

  predicate Matches(config: Config, domain: string) {
    exists host | host in config.extraDomains :: WildcardMatch(host, domain)
  }

  function AnswerOf(dnsAddr: string, q: Query): Option<seq<Record>>
    requires Count(dnsAddr, ':') >= 2
  {
    var resolver := ResolverOf(dnsAddr);
    if resolver.Some? && resolver.value in q.lookups && q.lookups[resolver.value] != []
        then Some(q.lookups[resolver.value])
    else None
  }

  /** The first non-empty answer. */
  function FirstAnswer(dnsAddresses: seq<string>, q: Query): (answer: Option<seq<Record>>)
    requires forall addr | addr in dnsAddresses :: Count(addr, ':') >= 2
    ensures answer.Some? ==> answer.value != []
  {
    if dnsAddresses == [] then None
    else if AnswerOf(dnsAddresses[0], q).Some? then AnswerOf(dnsAddresses[0], q)
    else FirstAnswer(dnsAddresses[1..], q)
  }

  predicate IsHit(config: Config, cache: Cache, q: Query) {
    var key := CacheKey(q.domain, q.qtype);
    key in cache && NotExpired(cache[key].timestamp, config.ttl, q.readAt)
  }

  function Answer(config: Config, cache: Cache, q: Query): seq<Record>
    requires config.Valid()
  {
    if IsHit(config, cache, q) then cache[CacheKey(q.domain, q.qtype)].answer
    else if Matches(config, q.domain) then [A(q.domain, config.ingressIp)]
    else match FirstAnswer(config.dnsAddresses, q)
      case Some(answer) => answer
      case None => []
  }

  /** What a query that asked the resolvers writes. */
  function Written(config: Config, q: Query): NsEntry
    requires config.Valid()
  {
    match FirstAnswer(config.dnsAddresses, q)
    case Some(answer) => NsEntry(answer, q.writtenAt)
    case None => NsEntry([], q.writtenAt - Half(config.ttl))
  }

  function CacheAfter(config: Config, cache: Cache, q: Query): Cache
    requires config.Valid()
  {
    if IsHit(config, cache, q) || Matches(config, q.domain) then cache
    else cache[CacheKey(q.domain, q.qtype) := Written(config, q)]
  }

  lemma {:induction false} FirstAnswerSkips(dnsAddresses: seq<string>, i: nat, q: Query)
    requires forall addr | addr in dnsAddresses :: Count(addr, ':') >= 2
    requires i <= |dnsAddresses| && forall k | 0 <= k < i :: AnswerOf(dnsAddresses[k], q).None?
    ensures FirstAnswer(dnsAddresses, q) == FirstAnswer(dnsAddresses[i..], q)
  {
    hide AnswerOf, Count;
    if i > 0 {
      assert dnsAddresses[1..][i - 1..] == dnsAddresses[i..];
      FirstAnswerSkips(dnsAddresses[1..], i - 1, q);
    }
  }

  class DnsServer {
    const config: Config
    var nsCache: Cache

    constructor (config: Config)
      ensures this.config == config && nsCache == map[]
    {
      this.config := config;
      nsCache := map[];
    }

    method ReadCache(domain: string, qtype: nat, now: int) returns (answer: Option<seq<Record>>)
      ensures var key := CacheKey(domain, qtype);
              answer == if key in nsCache && NotExpired(nsCache[key].timestamp, config.ttl, now)
                        then Some(nsCache[key].answer) else None
    {
      var key := CacheKey(domain, qtype);
      if key in nsCache && NotExpired(nsCache[key].timestamp, config.ttl, now) {
        return Some(nsCache[key].answer);
      }
      return None;
    }

    method WriteCache(domain: string, qtype: nat, answer: seq<Record>, timestamp: int)
      modifies this`nsCache
      ensures nsCache == old(nsCache)[CacheKey(domain, qtype) := NsEntry(answer, timestamp)]
    {
      nsCache := nsCache[CacheKey(domain, qtype) := NsEntry(answer, timestamp)];
    }

    method Resolve(q: Query) returns (answer: seq<Record>)
      requires config.Valid()
      modifies this`nsCache
      ensures answer == Answer(config, old(nsCache), q)
      ensures nsCache == CacheAfter(config, old(nsCache), q)
    {
      hide Count, WildcardMatch, CacheKey, ResolverOf;
      var cached := ReadCache(q.domain, q.qtype, q.readAt);
      if cached.Some? {
        return cached.value;
      }
      var left := config.extraDomains;
      while left != {}
        invariant left <= config.extraDomains
        invariant forall host | host in config.extraDomains - left :: !WildcardMatch(host, q.domain)
        decreases left
      {
        var host :| host in left;
        if WildcardMatch(host, q.domain) {
          return [A(q.domain, config.ingressIp)];
        }
        left := left - {host};
      }
      var addresses := config.dnsAddresses;
      for i := 0 to |addresses|
        invariant forall k | 0 <= k < i :: AnswerOf(addresses[k], q).None?
        invariant nsCache == old(nsCache)
      {
        var resolver := ResolverOf(addresses[i]);
        if resolver.None? {
          continue;
        }
        if resolver.value in q.lookups && |q.lookups[resolver.value]| > 0 {
          FirstAnswerSkips(addresses, i, q);
          WriteCache(q.domain, q.qtype, q.lookups[resolver.value], q.writtenAt);
          return q.lookups[resolver.value];
        }
      }
      FirstAnswerSkips(addresses, |addresses|, q);
      WriteCache(q.domain, q.qtype, [], q.writtenAt - Half(config.ttl));
      return [];
    }
  }
}
