/** The host names that a namespace owns, and the block as the picture of all namespaces. */
module HostsNames {
  import opened Text
  import opened HostsFile
  import opened HostsLaws

  // ----- getServiceHosts -----

  datatype Pod = Pod(name: string, ip: string)

  /** `pods`: what listing the pods of the selector gave, None for an error. */
  datatype Service = Service(name: string, clusterIp: string, pods: Option<seq<Pod>>)

  function FirstIp(pods: seq<Pod>): string {
    if pods == [] then "" else if pods[0].ip != "" then pods[0].ip else FirstIp(pods[1..])
  }

  /** The address of a service; None if it is skipped. */
  function IpOf(service: Service): Option<string> {
    if service.clusterIp != "" && service.clusterIp != "None" then Some(service.clusterIp)
    else if service.pods.None? || service.pods.value == [] then None
    else Some(FirstIp(service.pods.value))
  }

  function MidName(service: string, namespace: string): string {
    service + "." + namespace
  }

  function FullName(service: string, namespace: string, options: Options): string {
    service + "." + namespace + ".svc." + options.clusterDomain
  }

  function WithService(hosts: map<string, string>, name: string, ip: string, namespace: string, short: bool,
                       options: Options)
    : map<string, string>
  {
    if short then hosts[name := ip]
    else
      var hosts' := if namespace == options.namespace then hosts[name := ip] else hosts;
      hosts'[MidName(name, namespace) := ip][FullName(name, namespace, options) := ip]
  }

  function HostsOf(services: seq<Service>, namespace: string, short: bool, options: Options): map<string, string> {
    if services == [] then map[]
    else
      var n := |services| - 1;
      var hosts := HostsOf(services[..n], namespace, short, options);
      if IpOf(services[n]).None? then hosts
      else WithService(hosts, services[n].name, IpOf(services[n]).value, namespace, short, options)
  }

  /** The pod that the watcher has to follow: the one whose address stands for the service. */
  function FirstPod(pods: seq<Pod>): seq<string> {
    if pods == [] then [] else if pods[0].ip != "" then [pods[0].name] else FirstPod(pods[1..])
  }

  function HeadlessPods(services: seq<Service>): seq<string> {
    if services == [] then []
    else
      var n := |services| - 1;
      var headless := (services[n].clusterIp == "" || services[n].clusterIp == "None") && services[n].pods.Some?;
      HeadlessPods(services[..n]) + if headless then FirstPod(services[n].pods.value) else []
  }

  method PodIp(pods: seq<Pod>) returns (ip: string, podNames: seq<string>)
    ensures ip == FirstIp(pods) && podNames == FirstPod(pods)
    ensures podNames == [] <==> ip == ""
  {
    ip, podNames := "", [];
    for i := 0 to |pods|
      invariant ip == "" && podNames == []
      invariant FirstIp(pods) == FirstIp(pods[i..]) && FirstPod(pods) == FirstPod(pods[i..])
    {
      ip := pods[i].ip;
      if ip != "" {
        podNames := podNames + [pods[i].name];
        return;
      }
    }
  }

  lemma NoServices(namespace: string, short: bool, options: Options)
    ensures HostsOf([], namespace, short, options) == map[] && HeadlessPods([]) == []
  {
  }

  lemma NextService(services: seq<Service>, i: nat, namespace: string, short: bool, options: Options)
    requires i < |services|
    ensures var hosts := HostsOf(services[..i], namespace, short, options);
            HostsOf(services[..i + 1], namespace, short, options) ==
            if IpOf(services[i]).None? then hosts
            else WithService(hosts, services[i].name, IpOf(services[i]).value, namespace, short, options)
    ensures var headless := (services[i].clusterIp == "" || services[i].clusterIp == "None") && services[i].pods.Some?;
            HeadlessPods(services[..i + 1]) ==
            HeadlessPods(services[..i]) + if headless then FirstPod(services[i].pods.value) else []
  {
    assert services[..i + 1][..i] == services[..i];
    hide WithService, FirstPod, IpOf;
  }

  method GetServiceHosts(services: seq<Service>, namespace: string, shortDomainOnly: bool, options: Options)
    returns (hosts: map<string, string>, podNames: seq<string>)
    ensures hosts == HostsOf(services, namespace, shortDomainOnly, options)
    ensures podNames == HeadlessPods(services)
  {
    hide MidName, FullName, FirstIp, HostsOf, HeadlessPods;
    assert HostsOf(services[..0], namespace, shortDomainOnly, options) == map[]
        && HeadlessPods(services[..0]) == [] by {
      NoServices(namespace, shortDomainOnly, options);
    }
    hosts, podNames := map[], [];
    for i := 0 to |services|
      invariant hosts == HostsOf(services[..i], namespace, shortDomainOnly, options)
      invariant podNames == HeadlessPods(services[..i])
    {
      var service := services[i];
      NextService(services, i, namespace, shortDomainOnly, options);
      var ip := service.clusterIp;
      if ip == "" || ip == "None" {
        if service.pods.None? || service.pods.value == [] {
          continue;
        }
        var names;
        ip, names := PodIp(service.pods.value);
        podNames := podNames + names;
      }
      if shortDomainOnly {
        hosts := hosts[service.name := ip];
      } else {
        if namespace == options.namespace {
          hosts := hosts[service.name := ip];
        }
        hosts := hosts[MidName(service.name, namespace) := ip];
        hosts := hosts[FullName(service.name, namespace, options) := ip];
      }
    }
    assert services[..|services|] == services;
  }

  // ----- whose record is it -----

  /** A Kubernetes name, as far as it matters here. */
  predicate IsLabel(name: string) {
    name != "" && '.' !in name && ' ' !in name
  }

  ghost predicate IsShortHost(host: string, namespace: string, options: Options) {
    IsLabel(host) && namespace == options.namespace
  }

  ghost predicate IsMidHost(host: string, namespace: string) {
    exists service | IsLabel(service) :: host == MidName(service, namespace)
  }

  ghost predicate IsFullHost(host: string, namespace: string, options: Options) {
    exists service | IsLabel(service) :: host == FullName(service, namespace, options)
  }

  ghost predicate IsHostOf(host: string, namespace: string, options: Options) {
    IsShortHost(host, namespace, options) || IsMidHost(host, namespace) || IsFullHost(host, namespace, options)
  }

  lemma {:induction false} HostsAreOwn(services: seq<Service>, namespace: string, options: Options)
    requires forall service | service in services :: IsLabel(service.name)
    ensures forall host | host in HostsOf(services, namespace, false, options) :: IsHostOf(host, namespace, options)
  {
    if services != [] {
      var n := |services| - 1;
      forall service | service in services[..n]
        ensures IsLabel(service.name)
      {
        assert service in services;
      }
      HostsAreOwn(services[..n], namespace, options);
      var name := services[n].name;
      assert IsLabel(name) by {
        assert services[n] in services;
      }
      hide IsLabel, MidName, FullName;
      assert IsMidHost(MidName(name, namespace), namespace);
      assert IsFullHost(FullName(name, namespace, options), namespace, options);
    }
  }

  // ----- what a namespace's services are called -----

  predicate IsHeadless(service: Service) {
    service.clusterIp == "" || service.clusterIp == "None"
  }

  /** The address of the first pod that has one, or none if no pod has. */
  ghost predicate IsFirstIp(pods: seq<Pod>, ip: string) {
    if ip == "" then forall k :: 0 <= k < |pods| ==> pods[k].ip == ""
    else exists i :: 0 <= i < |pods| && pods[i].ip == ip && forall k :: 0 <= k < i ==> pods[k].ip == ""
  }

  /** The service's own address, or that of its first pod with one; without any pods it has no name at all. */
  ghost predicate HasIp(service: Service, ip: string) {
    if IsHeadless(service) then
      service.pods.Some? && service.pods.value != [] && IsFirstIp(service.pods.value, ip)
    else ip == service.clusterIp
  }

  /** The forms under which a service is known. */
  predicate IsNameOf(host: string, name: string, namespace: string, short: bool, options: Options) {
    if short then host == name
    else
      || (host == name && namespace == options.namespace)
      || host == name + "." + namespace
      || host == name + "." + namespace + ".svc." + options.clusterDomain
  }

  ghost predicate DistinctNames(services: seq<Service>) {
    && (forall i :: 0 <= i < |services| ==> IsLabel(services[i].name))
    && (forall i, j :: 0 <= i < j < |services| ==> services[i].name != services[j].name)
  }

  lemma {:induction false} FirstIpIs(pods: seq<Pod>, ip: string)
    ensures IsFirstIp(pods, ip) <==> ip == FirstIp(pods)
  {
    if pods != [] {
      var rest := pods[1..];
      FirstIpIs(rest, ip);
      assert forall k :: 0 <= k < |rest| ==> rest[k] == pods[k + 1];
      if pods[0].ip == "" {
        RestHasFirstIp(pods, ip);
      } else {
        assert IsFirstIp(pods, pods[0].ip);
      }
    }
  }

  lemma RestHasFirstIp(pods: seq<Pod>, ip: string)
    requires pods != [] && pods[0].ip == ""
    ensures IsFirstIp(pods, ip) <==> IsFirstIp(pods[1..], ip)
  {
    var rest := pods[1..];
    assert forall k :: 1 <= k < |pods| ==> pods[k] == rest[k - 1];
    if ip != "" && IsFirstIp(pods, ip) {
      var i :| 0 <= i < |pods| && pods[i].ip == ip && forall k :: 0 <= k < i ==> pods[k].ip == "";
      assert rest[i - 1].ip == ip && forall k :: 0 <= k < i - 1 ==> rest[k].ip == pods[k + 1].ip;
    }
    if ip != "" && IsFirstIp(rest, ip) {
      var i :| 0 <= i < |rest| && rest[i].ip == ip && forall k :: 0 <= k < i ==> rest[k].ip == "";
      assert pods[i + 1].ip == ip;
    }
  }

  lemma HasIpIs(service: Service, ip: string)
    ensures HasIp(service, ip) <==> IpOf(service) == Some(ip)
  {
    if service.pods.Some? {
      FirstIpIs(service.pods.value, ip);
    }
    hide FirstIp, IsFirstIp;
  }

  /** Before its first dot, a name in any form has the service's own name. */
  lemma OneNameOnly(host: string, name: string, name': string, namespace: string, short: bool, options: Options)
    requires IsLabel(name) && IsLabel(name')
    requires IsNameOf(host, name, namespace, short, options) && IsNameOf(host, name', namespace, short, options)
    ensures name == name'
  {
    NameBeforeDot(host, name, namespace, short, options);
    NameBeforeDot(host, name', namespace, short, options);
  }

  lemma NameBeforeDot(host: string, name: string, namespace: string, short: bool, options: Options)
    requires IsLabel(name) && IsNameOf(host, name, namespace, short, options)
    ensures Before(host, '.') == name
  {
    var tail := namespace + ".svc." + options.clusterDomain;
    BeforeFirst(name, namespace, '.');
    BeforeFirst(name, tail, '.');
    BeforeIsPrefix(name, '.');
    hide Before, IsLabel;
    assert name + ['.'] + namespace == name + "." + namespace;
    assert name + ['.'] + tail == name + "." + namespace + ".svc." + options.clusterDomain;
  }

  lemma WithServiceHolds(hosts: map<string, string>, name: string, ip: string, namespace: string, short: bool,
                         options: Options, host: string)
    ensures var all := WithService(hosts, name, ip, namespace, short, options);
            && (IsNameOf(host, name, namespace, short, options) ==> host in all && all[host] == ip)
            && (!IsNameOf(host, name, namespace, short, options) ==>
                  (host in all <==> host in hosts) && (host in hosts ==> all[host] == hosts[host]))
  {
  }

  /** The names that getServiceHosts gives, and their addresses: each service with an address under its short name if
      the namespace is the own one, under service.namespace and under service.namespace.svc.domain; or under the short
      name alone if only those are asked for; and nothing else. */
  lemma {:induction false} HostsAre(services: seq<Service>, namespace: string, short: bool, options: Options,
                                    host: string, ip: string)
    requires DistinctNames(services)
    ensures var hosts := HostsOf(services, namespace, short, options);
            host in hosts && hosts[host] == ip <==>
            exists i :: 0 <= i < |services| && HasIp(services[i], ip)
                        && IsNameOf(host, services[i].name, namespace, short, options)
  {
    if services != [] {
      var n := |services| - 1;
      var front, last := services[..n], services[n];
      assert forall i :: 0 <= i < n ==> front[i] == services[i];
      HostsAre(front, namespace, short, options, host, ip);
      hide IsNameOf, IsLabel, HasIp, WithService;
      if IpOf(last).Some? {
        WithServiceHolds(HostsOf(front, namespace, short, options), last.name, IpOf(last).value, namespace, short,
                         options, host);
      }
      HasIpIs(last, ip);
      if IsNameOf(host, last.name, namespace, short, options) {
        forall i | 0 <= i < n
          ensures !IsNameOf(host, services[i].name, namespace, short, options)
        {
          if IsNameOf(host, services[i].name, namespace, short, options) {
            OneNameOnly(host, last.name, services[i].name, namespace, short, options);
          }
        }
      }
    }
  }

  /** The service is headless, and its address is that of the pod. */
  ghost predicate Watches(service: Service, pod: string) {
    IsHeadless(service) && service.pods.Some? && IsFirstPod(service.pods.value, pod)
  }

  /** The pods to watch are exactly those whose address stands for a headless service. */
  lemma {:induction false} WatchedPodsAre(services: seq<Service>, pod: string)
    ensures pod in HeadlessPods(services) <==> exists service | service in services :: Watches(service, pod)
  {
    if services == [] {
      assert HeadlessPods(services) == [];
    } else {
      hide HeadlessPods, Watches;
      var front, last := services[..|services| - 1], services[|services| - 1];
      LastWatches(services, pod);
      WatchedPodsAre(front, pod);
      MembersOfLast(services);
    }
  }

  lemma MembersOfLast<T>(s: seq<T>)
    requires s != []
    ensures forall x :: x in s <==> x in s[..|s| - 1] || x == s[|s| - 1]
  {
    assert s == s[..|s| - 1] + [s[|s| - 1]];
  }

  lemma LastWatches(services: seq<Service>, pod: string)
    requires services != []
    ensures var n := |services| - 1;
            pod in HeadlessPods(services) <==> pod in HeadlessPods(services[..n]) || Watches(services[n], pod)
  {
    var last := services[|services| - 1];
    hide FirstPod, IsFirstPod;
    if last.pods.Some? {
      FirstPodIs(last.pods.value, pod);
    }
  }

  ghost predicate IsFirstPod(pods: seq<Pod>, pod: string) {
    exists i :: 0 <= i < |pods| && pods[i].name == pod && pods[i].ip != ""
        && forall k :: 0 <= k < i ==> pods[k].ip == ""
  }

  lemma {:induction false} FirstPodIs(pods: seq<Pod>, pod: string)
    ensures pod in FirstPod(pods) <==> IsFirstPod(pods, pod)
  {
    if pods != [] {
      FirstPodIs(pods[1..], pod);
      if pods[0].ip == "" {
        RestHasFirstPod(pods, pod);
      }
    }
  }

  lemma RestHasFirstPod(pods: seq<Pod>, pod: string)
    requires pods != [] && pods[0].ip == ""
    ensures IsFirstPod(pods, pod) <==> IsFirstPod(pods[1..], pod)
  {
    var rest := pods[1..];
    assert forall k :: 1 <= k < |pods| ==> pods[k] == rest[k - 1];
    if IsFirstPod(pods, pod) {
      var i :| 0 <= i < |pods| && pods[i].name == pod && pods[i].ip != ""
          && forall k :: 0 <= k < i ==> pods[k].ip == "";
      assert rest[i - 1].name == pod && forall k :: 0 <= k < i - 1 ==> rest[k].ip == pods[k + 1].ip;
    }
    if IsFirstPod(rest, pod) {
      var i :| 0 <= i < |rest| && rest[i].name == pod && rest[i].ip != ""
          && forall k :: 0 <= k < i ==> rest[k].ip == "";
      assert pods[i + 1].name == pod;
    }
  }

  /** A service as Kubernetes lets it be: its name is a label, and addresses have no spaces. */
  ghost predicate IsService(service: Service) {
    && IsLabel(service.name) && ' ' !in service.clusterIp
    && (service.pods.Some? ==> forall pod | pod in service.pods.value :: ' ' !in pod.ip)
  }

  lemma {:induction false} FirstIpHasNoSpace(pods: seq<Pod>)
    requires forall pod | pod in pods :: ' ' !in pod.ip
    ensures ' ' !in FirstIp(pods)
  {
    if pods != [] {
      assert pods[0] in pods;
      FirstIpHasNoSpace(pods[1..]);
    }
  }

  ghost predicate NoSpaceIn(hosts: map<string, string>) {
    forall host | host in hosts :: ' ' !in hosts[host]
  }

  lemma OneMoreHasNoSpace(hosts: map<string, string>, name: string, ip: string, namespace: string, options: Options)
    requires ' ' !in ip && NoSpaceIn(hosts)
    ensures NoSpaceIn(WithService(hosts, name, ip, namespace, false, options))
  {
    hide MidName, FullName;
  }

  lemma {:induction false} AddressesHaveNoSpace(services: seq<Service>, namespace: string, options: Options)
    requires forall service | service in services :: IsService(service)
    ensures NoSpaceIn(HostsOf(services, namespace, false, options))
  {
    if services != [] {
      var n := |services| - 1;
      AddressesHaveNoSpace(services[..n], namespace, options);
      assert IsService(services[n]) by {
        assert services[n] in services;
      }
      if services[n].pods.Some? {
        FirstIpHasNoSpace(services[n].pods.value);
      }
      hide WithService;
      if IpOf(services[n]).Some? {
        var hosts := HostsOf(services[..n], namespace, false, options);
        OneMoreHasNoSpace(hosts, services[n].name, IpOf(services[n]).value, namespace, options);
      }
    }
  }

  /** What follows the last dot. */
  function LastLabel(name: string): string {
    if name == "" then ""
    else if name[|name| - 1] == '.' then ""
    else LastLabel(name[..|name| - 1]) + [name[|name| - 1]]
  }

  /** What follows a dot, one character longer. */
  lemma LabelGrows(name: string, part: string, last: char)
    requires EndsWithLabel(name, part) && last != '.'
    ensures EndsWithLabel(name + [last], part + [last])
  {
    var k := |name| - |part|;
    assert (name + [last])[k..] == name[k..] + [last];
    LastOrBefore(part, last);
    assert k > 0 ==> (name + [last])[k - 1] == name[k - 1];
  }

  predicate EndsWithLabel(name: string, part: string) {
    && '.' !in part && |part| <= |name| && name[|name| - |part|..] == part
    && (|part| < |name| ==> name[|name| - |part| - 1] == '.')
  }

  lemma {:induction false} LastLabelEnds(name: string)
    ensures EndsWithLabel(name, LastLabel(name))
  {
    if name != "" && name[|name| - 1] != '.' {
      var front, last := name[..|name| - 1], name[|name| - 1];
      LastLabelEnds(front);
      hide EndsWithLabel;
      assert name == front + [last];
      LabelGrows(front, LastLabel(front), last);
    }
  }

  lemma {:induction false} LastLabelIs(front: string, last: string)
    requires '.' !in last
    ensures LastLabel(front + "." + last) == last
  {
    if last == "" {
      assert front + "." + last == front + ".";
    } else {
      var rest := last[..|last| - 1];
      AppendLast(front + ".", last);
      assert last == rest + [last[|last| - 1]] && last[|last| - 1] in last;
      LastLabelIs(front, rest);
    }
  }

  lemma SuffixLabel(front: string, last: string, other: string)
    requires '.' !in last && '.' !in other
    ensures HasSuffix(front + "." + last, "." + other) <==> last == other
  {
    var s, t := front + "." + last, "." + other;
    LastLabelIs(front, last);
    if HasSuffix(s, t) {
      assert s == s[..|s| - |t|] + "." + other;
      LastLabelIs(s[..|s| - |t|], other);
    } else {
      assert s[|s| - |"." + last|..] == "." + last;
    }
  }

  lemma SuffixStrip(a: string, b: string, tail: string)
    ensures HasSuffix(a + tail, b + tail) <==> HasSuffix(a, b)
  {
    if |b| <= |a| {
      var k := |a| - |b|;
      assert (a + tail)[k..] == a[k..] + tail;
      if a[k..] + tail == b + tail {
        assert (a[k..] + tail)[..|b|] == a[k..] && (b + tail)[..|b|] == b;
      }
    }
  }

  // ----- which records a namespace drops -----

  /** In "ip name", the one space is where the address ends. */
  lemma SpaceOf(ip: string, name: string)
    requires ' ' !in ip && ' ' !in name
    ensures var line := ip + " " + name;
            && (forall k | 0 <= k < |line| :: line[k] == ' ' <==> k == |ip|)
            && line[|ip| + 1..] == name
  {
    var line := ip + " " + name;
    forall k | 0 <= k < |line|
      ensures line[k] == ' ' <==> k == |ip|
    {
      if k < |ip| {
        assert line[k] == ip[k] && ip[k] in ip;
      } else if k > |ip| {
        assert line[k] == name[k - |ip| - 1] && name[k - |ip| - 1] in name;
      }
    }
  }

  lemma ShortRecords(ip: string, name: string)
    requires ip != "" && name != "" && ' ' !in ip && ' ' !in name
    ensures IsShort(ip + " " + name) <==> '.' !in name
  {
    SpaceOf(ip, name);
    var line := ip + " " + name;
    if '.' !in name {
      assert line[|ip|] == ' ' && '.' !in line[|ip| + 1..];
    }
  }

  /** A suffix without a space is a suffix of the name. */
  lemma SuffixOfName(ip: string, name: string, suffix: string)
    requires ' ' !in suffix
    ensures HasSuffix(ip + " " + name, suffix) <==> HasSuffix(name, suffix)
  {
    var line := ip + " " + name;
    if |suffix| <= |name| {
      assert line[|line| - |suffix|..] == name[|name| - |suffix|..];
    } else if |suffix| <= |line| {
      var k := |line| - |suffix|;
      assert line[k..][|ip| - k] == ' ';
      assert line[k..][|ip| - k] in line[k..];
    }
  }

  lemma SuffixCounts(s: string, suffix: string, c: char)
    ensures HasSuffix(s, suffix) ==> Count(s, c) >= Count(suffix, c)
  {
    if HasSuffix(s, suffix) {
      var front := s[..|s| - |suffix|];
      assert s == front + suffix;
      CountOfConcat(front, suffix, c);
    }
  }

  lemma Associative(a: string, b: string, c: string)
    ensures a + b + c == a + (b + c)
  {
  }

  lemma ShortKept(ip: string, host: string, owner: string, namespace: string, options: Options)
    requires ip != "" && ' ' !in ip && IsShortHost(host, owner, options)
    ensures Keeps(ip + " " + host, namespace, options) <==> namespace != owner
  {
    ShortRecords(ip, host);
    hide IsShort, HasSuffix;
  }

  lemma NotShort(ip: string, host: string)
    requires ip != "" && ' ' !in ip && ' ' !in host && '.' in host
    ensures !IsShort(ip + " " + host)
  {
    ShortRecords(ip, host);
  }

  lemma MidKept(ip: string, service: string, owner: string, namespace: string, options: Options)
    requires ip != "" && ' ' !in ip && IsLabel(service) && IsLabel(owner) && IsLabel(namespace)
    requires ' ' !in options.clusterDomain
    ensures Keeps(ip + " " + MidName(service, owner), namespace, options) <==> namespace != owner
  {
    var host := service + "." + owner;
    var mid, full := "." + namespace, "." + namespace + ".svc." + options.clusterDomain;
    assert host[|service|] == '.';
    NotShort(ip, host);
    SuffixOfName(ip, host, mid);
    SuffixOfName(ip, host, full);
    SuffixLabel(service, owner, namespace);
    DotsOfNames(service, owner, namespace, options);
    SuffixCounts(host, full, '.');
    hide IsShort, HasSuffix, Count;
  }

  lemma DotsOfNames(service: string, owner: string, namespace: string, options: Options)
    requires IsLabel(service) && IsLabel(owner)
    ensures Count(service + "." + owner, '.') == 1
    ensures Count("." + namespace + ".svc." + options.clusterDomain, '.') > 1
  {
    CountIsZero(service, '.');
    CountIsZero(owner, '.');
    assert Count(".", '.') == 1;
    CountOfConcat(service, ".", '.');
    CountOfConcat(service + ".", owner, '.');
    CountOfConcat(".", namespace, '.');
    CountOfConcat("." + namespace, ".svc.", '.');
    CountOfConcat("." + namespace + ".svc.", options.clusterDomain, '.');
    CountOfConcat(".svc", ".", '.');
  }

  lemma FullEndsWithMid(service: string, owner: string, namespace: string, options: Options)
    requires '.' !in namespace
    ensures HasSuffix(FullName(service, owner, options), "." + namespace)
            <==> namespace == LastLabel(options.clusterDomain)
  {
    var front := FrontOf(service + "." + owner, options.clusterDomain);
    LastLabelEnds(options.clusterDomain);
    SuffixLabel(front, LastLabel(options.clusterDomain), namespace);
  }

  lemma FullEndsWithFull(service: string, owner: string, namespace: string, options: Options)
    requires '.' !in namespace && '.' !in owner
    ensures HasSuffix(FullName(service, owner, options), "." + namespace + ".svc." + options.clusterDomain)
            <==> namespace == owner
  {
    hide HasSuffix;
    Associative(service + "." + owner, ".svc.", options.clusterDomain);
    Associative("." + namespace, ".svc.", options.clusterDomain);
    SuffixStrip(service + "." + owner, "." + namespace, ".svc." + options.clusterDomain);
    SuffixLabel(service, owner, namespace);
  }

  lemma FullKept(ip: string, service: string, owner: string, namespace: string, options: Options)
    requires ip != "" && ' ' !in ip && IsLabel(service) && IsLabel(owner) && IsLabel(namespace)
    requires ' ' !in options.clusterDomain
    ensures Keeps(ip + " " + FullName(service, owner, options), namespace, options)
            <==> namespace != owner && namespace != LastLabel(options.clusterDomain)
  {
    var host := FullName(service, owner, options);
    assert host[|service|] == '.';
    NotShort(ip, host);
    SuffixOfName(ip, host, "." + namespace);
    SuffixOfName(ip, host, "." + namespace + ".svc." + options.clusterDomain);
    hide IsShort, HasSuffix, LastLabel, FullName;
    FullEndsWithMid(service, owner, namespace, options);
    FullEndsWithFull(service, owner, namespace, options);
  }

  /** A full name ends with the last name of the cluster domain. */
  lemma FrontOf(name: string, domain: string) returns (front: string)
    ensures name + ".svc." + domain == front + "." + LastLabel(domain)
  {
    LastLabelEnds(domain);
    var last := LastLabel(domain);
    if |last| == |domain| {
      front := name + ".svc";
      assert domain == last;
    } else {
      var d := domain[..|domain| - |last| - 1];
      front := name + ".svc." + d;
      assert domain == d + "." + last;
    }
  }

  /** Dropping a namespace drops exactly its own records, and if it has the name that the cluster domain ends with, the
      full names of all namespaces. */
  lemma KeepsIff(ip: string, host: string, owner: string, namespace: string, options: Options)
    requires ip != "" && ' ' !in ip && ' ' !in options.clusterDomain
    requires IsLabel(owner) && IsLabel(namespace) && IsHostOf(host, owner, options)
    ensures Keeps(ip + " " + host, namespace, options)
            <==> namespace != owner
                 && !(namespace == LastLabel(options.clusterDomain) && IsFullHost(host, owner, options))
  {
    hide Keeps, LastLabel;
    if IsShortHost(host, owner, options) {
      ShortKept(ip, host, owner, namespace, options);
      ShortIsNotFull(host, owner, options);
    } else if IsFullHost(host, owner, options) {
      var service :| IsLabel(service) && host == FullName(service, owner, options);
      FullKept(ip, service, owner, namespace, options);
    } else {
      var service :| IsLabel(service) && host == MidName(service, owner);
      MidKept(ip, service, owner, namespace, options);
    }
  }

  lemma ShortIsNotFull(host: string, owner: string, options: Options)
    requires IsLabel(host)
    ensures !IsFullHost(host, owner, options)
  {
    forall service | IsLabel(service)
      ensures host != FullName(service, owner, options)
    {
      assert FullName(service, owner, options)[|service|] == '.';
      assert '.' in FullName(service, owner, options);
    }
  }
}
