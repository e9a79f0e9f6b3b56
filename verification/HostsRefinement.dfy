/** The block as the picture of a map from namespaces to their hosts, and a dump as an update of that map. */
module HostsRefinement {
  import opened Text
  import opened HostsFile
  import opened HostsLaws
  import opened HostsNames
  import opened HostsRuns

  type Cluster = map<string, map<string, string>>

  ghost predicate IsLineOf(line: string, hosts: map<string, string>) {
    exists host | host in hosts && hosts[host] != "" :: line == hosts[host] + " " + host
  }

  /** The records are those of all namespaces, no more and no fewer. */
  ghost predicate Pictures(records: seq<string>, cluster: Cluster) {
    forall line :: line in records <==> exists namespace | namespace in cluster :: IsLineOf(line, cluster[namespace])
  }

  ghost predicate HostsFit(hosts: map<string, string>, namespace: string, options: Options) {
    IsLabel(namespace) && forall host | host in hosts :: IsHostOf(host, namespace, options) && ' ' !in hosts[host]
  }

  ghost predicate ClusterFits(cluster: Cluster, options: Options) {
    && ' ' !in options.clusterDomain
    && forall namespace | namespace in cluster :: HostsFit(cluster[namespace], namespace, options)
  }

  /** Another namespace has a full name, and the namespace is called like the end of the cluster domain. */
  ghost predicate Clash(cluster: Cluster, namespace: string, options: Options) {
    && namespace == LastLabel(options.clusterDomain)
    && exists other, host | other in cluster && other != namespace && host in cluster[other] ::
         cluster[other][host] != "" && IsFullHost(host, other, options)
  }

  lemma {:induction false} RecordsAreLines(order: seq<string>, hosts: map<string, string>)
    requires forall host | host in order :: host in hosts
    ensures forall line :: line in Records(order, hosts)
                           <==> exists host | host in order && hosts[host] != "" :: line == hosts[host] + " " + host
  {
    if order != [] {
      var n := |order| - 1;
      var last := order[n];
      assert order == order[..n] + [last];
      RecordsAreLines(order[..n], hosts);
      LastOrBefore(order[..n], last);
      LastOrBefore(Records(order[..n], hosts), hosts[last] + " " + last);
    }
  }

  lemma {:induction false} KeptIff(records: seq<string>, namespace: string, options: Options)
    requires namespace != ""
    ensures forall line :: line in Kept(records, namespace, options)
                           <==> line in records && Keeps(line, namespace, options)
  {
    hide Keeps;
    if records != [] {
      var n := |records| - 1;
      assert records == records[..n] + [records[n]];
      KeptIff(records[..n], namespace, options);
      LastOrBefore(records[..n], records[n]);
      LastOrBefore(Kept(records[..n], namespace, options), records[n]);
    }
  }

  lemma NoSpaceInHosts(host: string, namespace: string, options: Options)
    requires IsLabel(namespace) && ' ' !in options.clusterDomain && IsHostOf(host, namespace, options)
    ensures ' ' !in host
  {
  }

  /** Without a clash, a record survives a dump exactly if it belongs to another namespace. */
  lemma LineKept(line: string, owner: string, cluster: Cluster, namespace: string, options: Options)
    requires ClusterFits(cluster, options) && IsLabel(namespace) && owner in cluster && IsLineOf(line, cluster[owner])
    requires !Clash(cluster, namespace, options)
    ensures Keeps(line, namespace, options) <==> namespace != owner
  {
    var hosts := cluster[owner];
    var host :| host in hosts && hosts[host] != "" && line == hosts[host] + " " + host;
    hide Keeps, IsHostOf, IsFullHost, LastLabel, IsLabel;
    KeepsIff(hosts[host], host, owner, namespace, options);
  }

  lemma SameLineSameHost(ip: string, host: string, ip': string, host': string)
    requires ' ' !in ip && ' ' !in host && ' ' !in ip' && ' ' !in host'
    requires ip + " " + host == ip' + " " + host'
    ensures ip == ip' && host == host'
  {
    SpaceOf(ip, host);
    SpaceOf(ip', host');
    var line := ip + " " + host;
    assert |ip| == |ip'| by {
      assert line[|ip|] == ' ';
    }
    assert line[..|ip|] == ip && (ip' + " " + host')[..|ip'|] == ip';
  }

  /** The records after a dump: the new ones, and those of the old ones that are kept. */
  lemma AfterLines(order: seq<string>, hosts: map<string, string>, records: seq<string>, namespace: string,
                   options: Options)
    requires IsOrder(order, hosts) && namespace != ""
    ensures forall line :: line in Records(order, hosts) + Kept(records, namespace, options)
                           <==> IsLineOf(line, hosts) || (line in records && Keeps(line, namespace, options))
  {
    hide Keeps;
    RecordsAreLines(order, hosts);
    KeptIff(records, namespace, options);
  }

  lemma RefinesWithoutClash(records: seq<string>, cluster: Cluster, order: seq<string>, hosts: map<string, string>,
                            namespace: string, options: Options)
    requires Pictures(records, cluster) && ClusterFits(cluster, options)
    requires HostsFit(hosts, namespace, options) && IsOrder(order, hosts)
    requires !Clash(cluster, namespace, options)
    ensures Pictures(Records(order, hosts) + Kept(records, namespace, options), cluster[namespace := hosts])
  {
    AfterLines(order, hosts, records, namespace, options);
    var after, cluster' := Records(order, hosts) + Kept(records, namespace, options), cluster[namespace := hosts];
    hide Keeps, Clash, IsLineOf, HostsFit;
    forall line
      ensures line in after <==> exists ns | ns in cluster' :: IsLineOf(line, cluster'[ns])
    {
      if line in after {
        if IsLineOf(line, hosts) {
          assert IsLineOf(line, cluster'[namespace]);
        } else {
          var owner :| owner in cluster && IsLineOf(line, cluster[owner]);
          LineKept(line, owner, cluster, namespace, options);
          assert IsLineOf(line, cluster'[owner]);
        }
      }
      if owner :| owner in cluster && owner != namespace && IsLineOf(line, cluster[owner]) {
        LineKept(line, owner, cluster, namespace, options);
      }
    }
  }

  /** The other namespace's full name is in the new map and no longer in the block. */
  lemma ClashLosesRecord(records: seq<string>, cluster: Cluster, order: seq<string>, hosts: map<string, string>,
                         namespace: string, options: Options)
    returns (line: string, other: string)
    requires ClusterFits(cluster, options)
    requires HostsFit(hosts, namespace, options) && IsOrder(order, hosts)
    requires Clash(cluster, namespace, options)
    ensures line !in Records(order, hosts) + Kept(records, namespace, options)
    ensures other in cluster && other != namespace && IsLineOf(line, cluster[other])
  {
    var host: string;
    other, host :| other in cluster && other != namespace && host in cluster[other]
                   && cluster[other][host] != "" && IsFullHost(host, other, options);
    var ip := cluster[other][host];
    line := ip + " " + host;
    assert IsLabel(namespace) && IsLabel(other) && IsHostOf(host, other, options);
    AfterLines(order, hosts, records, namespace, options);
    NoSpaceInHosts(host, other, options);
    KeepsIff(ip, host, other, namespace, options);
    KeepsIff(ip, host, other, other, options);
    if IsLineOf(line, hosts) {
      var host' :| host' in hosts && hosts[host'] != "" && line == hosts[host'] + " " + host';
      NoSpaceInHosts(host', namespace, options);
      SameLineSameHost(ip, host, hosts[host'], host');
      KeepsIff(ip, host, namespace, other, options);
    }
  }

  /** The block of a file that pictures a cluster pictures, after a dump for one namespace, the cluster with that
      namespace's hosts replaced; this holds exactly if the namespace's name does not clash with the cluster domain. */
  lemma DumpRefinesIff(records: seq<string>, cluster: Cluster, order: seq<string>, hosts: map<string, string>,
                       namespace: string, options: Options)
    requires Pictures(records, cluster) && ClusterFits(cluster, options)
    requires HostsFit(hosts, namespace, options) && IsOrder(order, hosts)
    ensures Pictures(Records(order, hosts) + Kept(records, namespace, options), cluster[namespace := hosts])
            <==> !Clash(cluster, namespace, options)
  {
    if Clash(cluster, namespace, options) {
      var line, other := ClashLosesRecord(records, cluster, order, hosts, namespace, options);
      var cluster' := cluster[namespace := hosts];
      assert other in cluster' && IsLineOf(line, cluster'[other]);
    } else {
      RefinesWithoutClash(records, cluster, order, hosts, namespace, options);
    }
  }

  /** The same of the file. */
  lemma FileRefines(lines: seq<string>, before: seq<string>, records: seq<string>, after: seq<string>, cluster: Cluster,
                    order: seq<string>, hosts: map<string, string>, namespace: string, options: Options)
    returns (head: seq<string>, block: seq<string>)
    requires HasBlock(lines, before, records, after) && Pictures(records, cluster) && ClusterFits(cluster, options)
    requires HostsFit(hosts, namespace, options) && IsOrder(order, hosts) && !Clash(cluster, namespace, options)
    ensures AfterDump(lines, Records(order, hosts), namespace, options) == Some(head + Block(block) + [""])
    ensures HasBlock(head + Block(block) + [""], head, block, [""])
    ensures Pictures(block, cluster[namespace := hosts])
  {
    RefinesWithoutClash(records, cluster, order, hosts, namespace, options);
    forall host | host in order
      ensures ' ' !in host && ' ' !in hosts[host]
    {
      NoSpaceInHosts(host, namespace, options);
    }
    RecordsAreUnmarked(order, hosts);
    hide Pictures, ClusterFits, HostsFit, IsOrder, Clash, AfterDump, Kept, Unmarked;
    BlockRest(lines, before, records, after, options);
    DumpedBlock(lines, before + after, records, Records(order, hosts), namespace, options);
    var all := Records(order, hosts) + Kept(records, namespace, options);
    head, block := Collapse(before + after + [""]), Collapse(all);
    CollapseElements(all);
    SamePicture(all, block, cluster[namespace := hosts]);
  }

  lemma SamePicture(a: seq<string>, b: seq<string>, cluster: Cluster)
    requires Pictures(a, cluster) && forall line :: line in b <==> line in a
    ensures Pictures(b, cluster)
  {
    hide IsLineOf;
  }

  lemma BlockRest(lines: seq<string>, before: seq<string>, records: seq<string>, after: seq<string>, options: Options)
    requires HasBlock(lines, before, records, after)
    ensures IsRest(lines, options, before + after, records)
  {
    UnmarkedConcat(before, after);
    hide Unmarked, Dropping, Kept;
    assert |lines| == |before + after| + |records| + 2;
    forall namespace
      ensures Dropping(lines, namespace, options) == Some(Dropped(before + after, Kept(records, namespace, options)))
    {
      DroppingBlock(lines, before, records, after, namespace, options);
    }
  }

  /** The first dump of a process drops all records and writes those of all its namespaces. */
  lemma FirstDumpPictures(order: seq<string>, hosts: map<string, string>, cluster: Cluster)
    requires IsOrder(order, hosts)
    requires forall host :: host in hosts <==> exists namespace | namespace in cluster :: host in cluster[namespace]
    requires forall namespace, host | namespace in cluster && host in cluster[namespace] ::
             hosts[host] == cluster[namespace][host]
    ensures Pictures(Records(order, hosts), cluster)
  {
    RecordsAreLines(order, hosts);
    forall line
      ensures line in Records(order, hosts)
              <==> exists namespace | namespace in cluster :: IsLineOf(line, cluster[namespace])
    {
      if line in Records(order, hosts) {
        var host :| host in order && hosts[host] != "" && line == hosts[host] + " " + host;
        var namespace :| namespace in cluster && host in cluster[namespace];
        assert IsLineOf(line, cluster[namespace]);
      }
      if namespace :| namespace in cluster && IsLineOf(line, cluster[namespace]) {
        var host :| host in cluster[namespace] && cluster[namespace][host] != ""
            && line == cluster[namespace][host] + " " + host;
        assert host in order && hosts[host] == cluster[namespace][host];
      }
    }
  }

  /** What is made of a namespace's services is fit to be dumped for it. */
  lemma HostsOfServicesFit(services: seq<Service>, namespace: string, options: Options)
    requires IsLabel(namespace) && forall service | service in services :: IsService(service)
    ensures HostsFit(HostsOf(services, namespace, false, options), namespace, options)
  {
    assert forall service | service in services :: IsLabel(service.name);
    HostsAreOwn(services, namespace, options);
    AddressesHaveNoSpace(services, namespace, options);
    hide HostsOf, IsLabel, IsHostOf, IsService;
  }

  /** A watcher has seen a change in a namespace, and its services are listed and dumped. */
  datatype Update = Update(namespace: string, services: seq<Service>, order: seq<string>)

  function HostsAfter(update: Update, options: Options): map<string, string> {
    HostsOf(update.services, update.namespace, false, options)
  }

  /** The namespace is not called like the end of the cluster domain. */
  ghost predicate IsUpdate(update: Update, options: Options) {
    && IsLabel(update.namespace) && update.namespace != LastLabel(options.clusterDomain)
    && (forall service | service in update.services :: IsService(service))
    && IsOrder(update.order, HostsAfter(update, options))
  }

  ghost predicate AreUpdates(updates: seq<Update>, options: Options) {
    forall n :: 0 <= n < |updates| ==> IsUpdate(updates[n], options)
  }

  /** The latest hosts of every namespace. */
  function Latest(cluster: Cluster, updates: seq<Update>, options: Options): Cluster {
    if updates == [] then cluster
    else
      var n := |updates| - 1;
      Latest(cluster, updates[..n], options)[updates[n].namespace := HostsAfter(updates[n], options)]
  }

  ghost function FileAfter(lines: seq<string>, updates: seq<Update>, options: Options): Option<seq<string>>
    requires AreUpdates(updates, options)
  {
    if updates == [] then Some(lines)
    else
      var n := |updates| - 1;
      assert IsUpdate(updates[n], options);
      match FileAfter(lines, updates[..n], options)
      case None => None
      case Some(file) =>
        AfterDump(file, Records(updates[n].order, HostsAfter(updates[n], options)), updates[n].namespace, options)
  }

  lemma LatestFits(cluster: Cluster, update: Update, options: Options)
    requires ClusterFits(cluster, options) && IsUpdate(update, options)
    ensures ClusterFits(cluster[update.namespace := HostsAfter(update, options)], options)
  {
    HostsOfServicesFit(update.services, update.namespace, options);
    hide HostsFit, HostsOf, IsOrder;
  }

  /** Over any number of changes in any namespaces, the block of the file pictures what the services of every namespace
      were when they were last listed. */
  lemma {:induction false} LatestIsPictured(lines: seq<string>, before: seq<string>, records: seq<string>,
                                            after: seq<string>, cluster: Cluster, updates: seq<Update>,
                                            options: Options)
    returns (head: seq<string>, block: seq<string>, tail: seq<string>)
    requires HasBlock(lines, before, records, after) && Pictures(records, cluster) && ClusterFits(cluster, options)
    requires AreUpdates(updates, options)
    ensures var file := FileAfter(lines, updates, options); file.Some? && HasBlock(file.value, head, block, tail)
    ensures Pictures(block, Latest(cluster, updates, options))
            && ClusterFits(Latest(cluster, updates, options), options)
  {
    hide HasBlock, Pictures, ClusterFits, AfterDump, Records, HostsAfter, HostsFit, IsUpdate, IsOrder;
    if updates == [] {
      head, block, tail := before, records, after;
    } else {
      var n := |updates| - 1;
      head, block, tail := LatestIsPictured(lines, before, records, after, cluster, updates[..n], options);
      var file := FileAfter(lines, updates[..n], options).value;
      var latest := Latest(cluster, updates[..n], options);
      head, block, tail := UpdateIsPictured(file, head, block, tail, latest, updates[n], options);
    }
  }

  lemma UpdateIsPictured(lines: seq<string>, before: seq<string>, records: seq<string>, after: seq<string>,
                         cluster: Cluster, update: Update, options: Options)
    returns (head: seq<string>, block: seq<string>, tail: seq<string>)
    requires HasBlock(lines, before, records, after) && Pictures(records, cluster) && ClusterFits(cluster, options)
    requires IsUpdate(update, options)
    ensures var hosts := HostsAfter(update, options);
            var file := AfterDump(lines, Records(update.order, hosts), update.namespace, options);
            && file.Some? && HasBlock(file.value, head, block, tail)
            && Pictures(block, cluster[update.namespace := hosts])
            && ClusterFits(cluster[update.namespace := hosts], options)
  {
    var hosts := HostsAfter(update, options);
    HostsOfServicesFit(update.services, update.namespace, options);
    LatestFits(cluster, update, options);
    hide HasBlock, Pictures, ClusterFits, AfterDump, Records, HostsOf, HostsFit, LastLabel;
    head, block := FileRefines(lines, before, records, after, cluster, update.order, hosts, update.namespace, options);
    tail := [""];
  }

  /** A namespace's own records are not kept by its next dump, so repeating it does not grow the file. */
  lemma OwnDumpsDoNotGrow(lines: seq<string>, first: seq<string>, second: seq<string>, hosts: map<string, string>,
                          namespace: string, options: Options)
    requires WellFormed(lines) && HostsFit(hosts, namespace, options) && ' ' !in options.clusterDomain
    requires IsOrder(first, hosts) && IsOrder(second, hosts)
    ensures var once := AfterDump(lines, Records(first, hosts), namespace, options);
            && once.Some?
            && var twice := AfterDump(once.value, Records(second, hosts), namespace, options);
               twice.Some? && |twice.value| == |once.value|
  {
    OwnRecords(first, hosts, namespace, options);
    OwnRecords(second, hosts, namespace, options);
    SameLength(first, second, hosts);
    hide AfterDump, Keeps, Unmarked, Records, IsOrder, HostsFit, WellFormed;
    GrowthIff(lines, Records(first, hosts), Records(second, hosts), namespace, options);
  }

  lemma OwnRecords(order: seq<string>, hosts: map<string, string>, namespace: string, options: Options)
    requires HostsFit(hosts, namespace, options) && ' ' !in options.clusterDomain && IsOrder(order, hosts)
    ensures Unmarked(Records(order, hosts)) && NoBlanks(Records(order, hosts))
    ensures forall l | l in Records(order, hosts) :: !Keeps(l, namespace, options)
  {
    forall host | host in order
      ensures ' ' !in host && ' ' !in hosts[host]
    {
      NoSpaceInHosts(host, namespace, options);
    }
    RecordsAreUnmarked(order, hosts);
    RecordsAreLines(order, hosts);
    hide Keeps, IsLabel, IsHostOf, IsFullHost, LastLabel;
    forall l | l in Records(order, hosts)
      ensures !Keeps(l, namespace, options) && l != ""
    {
      var host :| host in order && hosts[host] != "" && l == hosts[host] + " " + host;
      KeepsIff(hosts[host], host, namespace, namespace, options);
    }
  }

  lemma SameLength(first: seq<string>, second: seq<string>, hosts: map<string, string>)
    requires IsOrder(first, hosts) && IsOrder(second, hosts)
    ensures |Records(first, hosts)| == |Records(second, hosts)|
  {
    LengthOfRecords(first, hosts);
    LengthOfRecords(second, hosts);
    assert (set host | host in first && hosts[host] != "") == (set host | host in second && hosts[host] != "");
  }

  lemma Named(order: seq<string>, hosts: map<string, string>)
    requires order != [] && forall host | host in order :: host in hosts
    requires forall i, j | 0 <= i < j < |order| :: order[i] != order[j]
    ensures var n := |order| - 1;
            |set host | host in order && hosts[host] != ""| ==
            |set host | host in order[..n] && hosts[host] != ""| + if hosts[order[n]] != "" then 1 else 0
  {
    var n := |order| - 1;
    var last := order[n];
    assert order == order[..n] + [last];
    LastOrBefore(order[..n], last);
    assert last !in order[..n];
    var front := set host | host in order[..n] && hosts[host] != "";
    assert (set host | host in order && hosts[host] != "") == front + if hosts[last] != "" then {last} else {};
  }

  lemma {:induction false} LengthOfRecords(order: seq<string>, hosts: map<string, string>)
    requires forall host | host in order :: host in hosts
    requires forall i, j | 0 <= i < j < |order| :: order[i] != order[j]
    ensures |Records(order, hosts)| == |set host | host in order && hosts[host] != ""|
  {
    if order != [] {
      var n := |order| - 1;
      var last := order[n];
      LengthOfRecords(order[..n], hosts);
      Named(order, hosts);
    }
  }
}
