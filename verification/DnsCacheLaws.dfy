/** Any run of queries: what an answer from the cache is worth. */
module DnsCacheLaws {
  import opened Text
  import opened DnsCache
  import opened DnsWildcard

  /** A host of an ingress stands for the domain. */
  ghost predicate IsIngress(config: Config, domain: string) {
    exists host | host in config.extraDomains :: IsOfHost(host, domain)
  }

  lemma MatchesIs(config: Config, domain: string)
    ensures Matches(config, domain) <==> IsIngress(config, domain)
  {
    hide WildcardMatch, IsOfHost;
    forall host
      ensures WildcardMatch(host, domain) <==> IsOfHost(host, domain)
    {
      WildcardIs(host, domain);
    }
  }

  // ----- the resolvers -----

  /** The address names a resolver by its protocol, its address and its port. */
  ghost predicate IsAddress(dnsAddr: string, resolver: Resolver) {
    && (resolver.protocol == "tcp" || resolver.protocol == "udp") && resolver.ip != "" && ':' !in resolver.ip
    && exists port :: Atoi(port) == Some(resolver.port) && dnsAddr == resolver.protocol + ":" + resolver.ip + ":" + port
  }

  lemma CutInThree(protocol: string, ip: string, port: string)
    requires ':' !in protocol && ':' !in ip
    ensures var parts := Split(protocol + ":" + ip + ":" + port, ':');
            |parts| >= 3 && parts[0] == protocol && parts[1] == ip && Join(parts[2..], ':') == port
  {
    var parts := Split(port, ':');
    assert protocol + ":" + ip + ":" + port == protocol + [':'] + (ip + [':'] + port);
    SplitCons(protocol, ip + [':'] + port, ':');
    SplitCons(ip, port, ':');
    hide Split, Join;
    assert ([protocol] + ([ip] + parts))[2..] == parts;
  }

  lemma ResolverIs(dnsAddr: string, resolver: Resolver)
    requires Count(dnsAddr, ':') >= 2
    ensures ResolverOf(dnsAddr) == Some(resolver) <==> IsAddress(dnsAddr, resolver)
  {
    var parts := Split(dnsAddr, ':');
    JoinInThree(parts);
    hide Split, Join, Atoi, Count;
    if IsAddress(dnsAddr, resolver) {
      var port :| Atoi(port) == Some(resolver.port)
                  && dnsAddr == resolver.protocol + ":" + resolver.ip + ":" + port;
      CutInThree(resolver.protocol, resolver.ip, port);
    }
    assert parts[1] in parts;
  }

  lemma JoinInThree(parts: seq<string>)
    requires |parts| >= 3
    ensures Join(parts, ':') == parts[0] + ":" + parts[1] + ":" + Join(parts[2..], ':')
  {
    assert parts[1..][1..] == parts[2..];
  }

  /** The resolver at the address gives the answer. */
  ghost predicate Gives(dnsAddr: string, q: Query, answer: seq<Record>) {
    answer != [] && exists resolver | resolver in q.lookups ::
      IsAddress(dnsAddr, resolver) && answer == q.lookups[resolver]
  }

  lemma GivesIs(dnsAddr: string, q: Query, answer: seq<Record>)
    requires Count(dnsAddr, ':') >= 2
    ensures Gives(dnsAddr, q, answer) <==> AnswerOf(dnsAddr, q) == Some(answer)
  {
    hide ResolverOf, IsAddress, Count;
    forall resolver: Resolver
      ensures ResolverOf(dnsAddr) == Some(resolver) <==> IsAddress(dnsAddr, resolver)
    {
      ResolverIs(dnsAddr, resolver);
    }
  }

  /** No resolver from the first to the `n`th gives an answer. */
  ghost predicate AreSilent(dnsAddresses: seq<string>, n: nat, q: Query)
    requires n <= |dnsAddresses|
  {
    forall k, answer | 0 <= k < n :: !Gives(dnsAddresses[k], q, answer)
  }

  /** What the first resolver in order that has an answer gives, or nothing if none has one. */
  ghost predicate IsFirstGiven(dnsAddresses: seq<string>, q: Query, answer: seq<Record>) {
    if answer == [] then AreSilent(dnsAddresses, |dnsAddresses|, q)
    else exists i | 0 <= i < |dnsAddresses| :: Gives(dnsAddresses[i], q, answer) && AreSilent(dnsAddresses, i, q)
  }

  /** What is answered if no ingress and no entry of the cache does. */
  function Asked(dnsAddresses: seq<string>, q: Query): seq<Record>
    requires forall addr | addr in dnsAddresses :: Count(addr, ':') >= 2
  {
    match FirstAnswer(dnsAddresses, q)
    case Some(answer) => answer
    case None => []
  }

  lemma {:induction false} FirstAnswerIs(dnsAddresses: seq<string>, q: Query)
    requires forall addr | addr in dnsAddresses :: Count(addr, ':') >= 2
    ensures IsFirstGiven(dnsAddresses, q, Asked(dnsAddresses, q))
  {
    if dnsAddresses != [] {
      var first, rest := dnsAddresses[0], dnsAddresses[1..];
      hide Gives, Count, AnswerOf;
      forall answer
        ensures Gives(first, q, answer) <==> AnswerOf(first, q) == Some(answer)
      {
        GivesIs(first, q, answer);
      }
      if AnswerOf(first, q).Some? {
        assert AreSilent(dnsAddresses, 0, q);
      } else {
        FirstAnswerIs(rest, q);
        SilentFirst(dnsAddresses, q, Asked(rest, q));
      }
    }
  }

  lemma SilentFirst(dnsAddresses: seq<string>, q: Query, answer: seq<Record>)
    requires dnsAddresses != [] && forall given :: !Gives(dnsAddresses[0], q, given)
    requires IsFirstGiven(dnsAddresses[1..], q, answer)
    ensures IsFirstGiven(dnsAddresses, q, answer)
  {
    hide Gives;
    var rest := dnsAddresses[1..];
    forall n: nat | n <= |rest| && AreSilent(rest, n, q)
      ensures AreSilent(dnsAddresses, n + 1, q)
    {
      forall k, given | 0 <= k < n + 1
        ensures !Gives(dnsAddresses[k], q, given)
      {
        assert k > 0 ==> dnsAddresses[k] == rest[k - 1];
      }
    }
    if answer != [] {
      var i :| 0 <= i < |rest| && Gives(rest[i], q, answer) && AreSilent(rest, i, q);
      assert rest[i] == dnsAddresses[i + 1];
    }
  }

  // ----- runs -----

  /** The queries so far, oldest first. */
  function Run(config: Config, queries: seq<Query>): Cache
    requires config.Valid()
  {
    if queries == [] then map[]
    else CacheAfter(config, Run(config, queries[..|queries| - 1]), queries[|queries| - 1])
  }

  lemma KeyIsInjective(domain: string, qtype: nat, domain': string, qtype': nat)
    requires CacheKey(domain, qtype) == CacheKey(domain', qtype')
    ensures domain == domain' && qtype == qtype'
  {
    var key := CacheKey(domain, qtype);
    LastColon(domain, qtype);
    LastColon(domain', qtype');
    assert key[|domain|] == ':' && key[|domain'|] == ':';
    assert |domain| == |domain'|;
    assert key[..|domain|] == domain && key[..|domain'|] == domain';
    assert key[|domain| + 1..] == Itoa(qtype) && key[|domain'| + 1..] == Itoa(qtype');
    SignedDecimalOfItoa(qtype);
    SignedDecimalOfItoa(qtype');
  }

  lemma LastColon(domain: string, qtype: nat)
    ensures var key := CacheKey(domain, qtype);
            |domain| < |key| && key[|domain|] == ':' && forall k | |domain| < k < |key| :: key[k] != ':'
  {
    var key := CacheKey(domain, qtype);
    forall k | |domain| < k < |key|
      ensures key[k] != ':'
    {
      assert key[k] == Itoa(qtype)[k - |domain| - 1] && key[k] in Itoa(qtype);
    }
  }

  /** The entry is what the query `q`, which no ingress answers, wrote. */
  ghost predicate IsOf(config: Config, key: string, entry: NsEntry, q: Query)
    requires config.Valid()
  {
    key == CacheKey(q.domain, q.qtype) && entry == Written(config, q) && !Matches(config, q.domain)
  }

  /** Each entry was written by one of the queries, and never for a domain of an ingress. */
  lemma {:induction false} EntriesAreAnswers(config: Config, queries: seq<Query>)
    requires config.Valid()
    ensures forall key | key in Run(config, queries) ::
              exists i | 0 <= i < |queries| :: IsOf(config, key, Run(config, queries)[key], queries[i])
  {
    if queries != [] {
      var n := |queries| - 1;
      EntriesAreAnswers(config, queries[..n]);
      hide Matches, Written, CacheKey, IsHit;
      forall key | key in Run(config, queries)
        ensures exists i | 0 <= i < |queries| :: IsOf(config, key, Run(config, queries)[key], queries[i])
      {
        if IsOf(config, key, Run(config, queries)[key], queries[n]) {
        } else {
          var i :| 0 <= i < |queries[..n]| && IsOf(config, key, Run(config, queries[..n])[key], queries[..n][i]);
          assert queries[..n][i] == queries[i];
        }
      }
    }
  }

  /** The answer to `past` is young enough at the time of `q`: an answer with records for the whole time to live, an
      empty one for half of it. */
  predicate IsYoung(config: Config, past: Query, answer: seq<Record>, q: Query) {
    var age := q.readAt - past.writtenAt;
    if answer != [] then age < config.ttl
    else if config.ttl >= 0 then 2 * age < config.ttl
    else 2 * age + 1 < config.ttl
  }

  lemma WrittenIsYoung(config: Config, past: Query, q: Query)
    requires config.Valid()
    ensures Written(config, past).answer == Asked(config.dnsAddresses, past)
    ensures NotExpired(Written(config, past).timestamp, config.ttl, q.readAt) <==>
            IsYoung(config, past, Asked(config.dnsAddresses, past), q)
  {
    hide FirstAnswer, Count;
  }

  /** The answer is what the resolvers gave to an earlier query of the same question, and is young enough. */
  ghost predicate IsWorth(config: Config, past: Query, q: Query, answer: seq<Record>) {
    && past.domain == q.domain && past.qtype == q.qtype
    && IsFirstGiven(config.dnsAddresses, past, answer) && IsYoung(config, past, answer, q)
  }

  lemma HitIsWorth(config: Config, queries: seq<Query>, q: Query) returns (i: nat)
    requires config.Valid() && IsHit(config, Run(config, queries), q)
    ensures i < |queries| && IsWorth(config, queries[i], q, Run(config, queries)[CacheKey(q.domain, q.qtype)].answer)
  {
    var cache, key := Run(config, queries), CacheKey(q.domain, q.qtype);
    EntriesAreAnswers(config, queries);
    hide Matches, CacheKey, Run, Written, NotExpired, IsFirstGiven, Asked, IsYoung;
    i :| 0 <= i < |queries| && IsOf(config, key, cache[key], queries[i]);
    KeyIsInjective(q.domain, q.qtype, queries[i].domain, queries[i].qtype);
    WrittenIsYoung(config, queries[i], q);
    FirstAnswerIs(config.dnsAddresses, queries[i]);
  }

  /** An ingress domain always gets the ingress address. Any other answer is fresh from the resolvers, or it is what an
      earlier query of the same question got from them, recently enough. */
  lemma AnswersAreFresh(config: Config, queries: seq<Query>, q: Query)
    requires config.Valid()
    ensures var cache := Run(config, queries);
            var answer := Answer(config, cache, q);
            if IsIngress(config, q.domain) then answer == [A(q.domain, config.ingressIp)]
            else if IsHit(config, cache, q) then exists i | 0 <= i < |queries| :: IsWorth(config, queries[i], q, answer)
            else IsFirstGiven(config.dnsAddresses, q, answer)
  {
    MatchesIs(config, q.domain);
    FirstAnswerIs(config.dnsAddresses, q);
    hide Matches, IsIngress, CacheKey, FirstAnswer, Run, IsWorth, IsFirstGiven;
    if Matches(config, q.domain) {
      IngressIsNeverCached(config, queries, q.domain, q.qtype);
    } else if IsHit(config, Run(config, queries), q) {
      var i := HitIsWorth(config, queries, q);
    }
  }

  /** A domain of an ingress never gets into the cache, so reading the cache first cannot hide it. */
  lemma IngressIsNeverCached(config: Config, queries: seq<Query>, domain: string, qtype: nat)
    requires config.Valid() && IsIngress(config, domain)
    ensures CacheKey(domain, qtype) !in Run(config, queries)
  {
    EntriesAreAnswers(config, queries);
    MatchesIs(config, domain);
    var cache, key := Run(config, queries), CacheKey(domain, qtype);
    hide Matches, IsIngress, CacheKey, Run, Written;
    if key in cache {
      var i :| 0 <= i < |queries| && IsOf(config, key, cache[key], queries[i]);
      KeyIsInjective(domain, qtype, queries[i].domain, queries[i].qtype);
    }
  }

  /** A question for a host of an ingress, written without a star and with or without the final dot, gets the ingress
      address after any run. */
  lemma PlainHostIsAnswered(config: Config, queries: seq<Query>, host: string, q: Query)
    requires config.Valid() && host in config.extraDomains && '*' !in host
    requires q.domain == if host != "" && host[|host| - 1] == '.' then host else host + "."
    ensures Answer(config, Run(config, queries), q) == [A(q.domain, config.ingressIp)]
  {
    PlainHost(host, q.domain);
    hide IsOfHost;
    assert IsIngress(config, q.domain);
    hide IsIngress, Answer, Run;
    AnswersAreFresh(config, queries, q);
  }

  // ----- what is remembered -----

  predicate SameQuestion(a: Query, b: Query) {
    a.domain == b.domain && a.qtype == b.qtype
  }

  lemma RunStep(config: Config, queries: seq<Query>, q: Query)
    requires config.Valid()
    ensures Run(config, queries + [q]) == CacheAfter(config, Run(config, queries), q)
  {
    hide CacheAfter;
    assert (queries + [q])[..|queries|] == queries;
  }

  lemma OtherKeeps(config: Config, cache: Cache, other: Query, q: Query)
    requires config.Valid() && !SameQuestion(other, q)
    ensures var key, after := CacheKey(q.domain, q.qtype), CacheAfter(config, cache, other);
            (key in after <==> key in cache) && (key in cache ==> after[key] == cache[key])
  {
    hide CacheKey, Written, Matches, IsHit;
    if CacheKey(other.domain, other.qtype) == CacheKey(q.domain, q.qtype) {
      KeyIsInjective(other.domain, other.qtype, q.domain, q.qtype);
    }
  }

  lemma {:induction false} OthersKeep(config: Config, queries: seq<Query>, between: seq<Query>, q: Query)
    requires config.Valid() && forall other | other in between :: !SameQuestion(other, q)
    ensures var key := CacheKey(q.domain, q.qtype);
            var before, after := Run(config, queries), Run(config, queries + between);
            (key in after <==> key in before) && (key in before ==> after[key] == before[key])
  {
    hide CacheKey, CacheAfter, Run;
    if between == [] {
      assert queries + between == queries;
    } else {
      var n := |between| - 1;
      OthersKeep(config, queries, between[..n], q);
      OtherKeeps(config, Run(config, queries + between[..n]), between[n], q);
      assert queries + between == queries + between[..n] + [between[n]];
      RunStep(config, queries + between[..n], between[n]);
    }
  }

  /** What the resolvers were asked for is remembered over any other questions: the same question gets the same answer
      as long as this is young, and then the resolvers are asked again. */
  lemma AnswerIsRemembered(config: Config, queries: seq<Query>, past: Query, between: seq<Query>, q: Query)
    requires config.Valid() && !IsIngress(config, past.domain) && !IsHit(config, Run(config, queries), past)
    requires SameQuestion(past, q) && forall other | other in between :: !SameQuestion(other, q)
    ensures var answer := Answer(config, Run(config, queries), past);
            var again := Answer(config, Run(config, queries + [past] + between), q);
            if IsYoung(config, past, answer, q) then again == answer
            else IsFirstGiven(config.dnsAddresses, q, again)
  {
    var before, cache := Run(config, queries), Run(config, queries + [past]);
    RunStep(config, queries, past);
    OthersKeep(config, queries + [past], between, q);
    MatchesIs(config, past.domain);
    WrittenIsYoung(config, past, q);
    FirstAnswerIs(config.dnsAddresses, q);
    hide Run, Written, CacheKey, Matches, IsIngress, IsFirstGiven, IsYoung, NotExpired, FirstAnswer;
  }
}
