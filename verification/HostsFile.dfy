/** The block of records that kt keeps in the hosts file. The file is the sequence of its lines. */
module HostsFile {
  import opened Text

  function KtHostsEscapeBegin(): string { "# Kt Hosts Begin" }

  function KtHostsEscapeEnd(): string { "# Kt Hosts End" }

  /** opt.Connect.ClusterDomain and opt.Global.Namespace. */
  datatype Options = Options(clusterDomain: string, namespace: string)

  predicate IsMarker(line: string) {
    line == KtHostsEscapeBegin() || line == KtHostsEscapeEnd()
  }

  /** The regular expression `.+ [^.]+$`: a space that is not the first character, and no dot in what follows it. */
  predicate IsShort(line: string) {
    exists k | 1 <= k < |line| - 1 :: line[k] == ' ' && '.' !in line[k + 1..]
  }

  /** Whether a record stays if the records of a namespace are dropped. */
  predicate Keeps(line: string, namespace: string, options: Options) {
    if IsShort(line) then namespace != options.namespace
    else !HasSuffix(line, "." + namespace) && !HasSuffix(line, "." + namespace + ".svc." + options.clusterDomain)
  }

  function LastIndex<T(==)>(lines: seq<T>, line: T): (i: int)
    ensures -1 <= i < |lines|
  {
    if lines == [] then -1
    else if lines[|lines| - 1] == line then |lines| - 1
    else LastIndex(lines[..|lines| - 1], line)
  }

  /** The records to keep: those after the first begin marker and before the first end marker. */
  function Collected(lines: seq<string>, namespace: string, options: Options): seq<string> {
    if lines == [] then []
    else
      var n := |lines| - 1;
      var kept := Collected(lines[..n], namespace, options);
      if (&& !IsMarker(lines[n]) && namespace != "" && Keeps(lines[n], namespace, options)
          && LastIndex(lines[..n], KtHostsEscapeBegin()) >= 0 && LastIndex(lines[..n], KtHostsEscapeEnd()) < 0)
      then kept + [lines[n]] else kept
  }

  datatype Dropped = Dropped(rest: seq<string>, kept: seq<string>)

  /** None: the markers of the file do not pair up. */
  function Dropping(lines: seq<string>, namespace: string, options: Options): Option<Dropped> {
    var begin, end := LastIndex(lines, KtHostsEscapeBegin()), LastIndex(lines, KtHostsEscapeEnd());
    if end < begin then None
    else if begin >= 0 then Some(Dropped(lines[..begin] + lines[end + 1..], Collected(lines, namespace, options)))
    else if end > 0 then None
    else Some(Dropped(lines, []))
  }

  /** Without the blank lines that follow another blank line. */
  function Collapse(lines: seq<string>): seq<string> {
    if lines == [] then []
    else
      var n := |lines| - 1;
      if lines[n] == "" && n > 0 && lines[n - 1] == "" then Collapse(lines[..n]) else Collapse(lines[..n]) + [lines[n]]
  }

  function Records(order: seq<string>, hosts: map<string, string>): seq<string>
    requires forall host | host in order :: host in hosts
  {
    if order == [] then []
    else
      var n := |order| - 1;
      var ip := hosts[order[n]];
      Records(order[..n], hosts) + if ip != "" then [ip + " " + order[n]] else []
  }

  /** The hosts of a map, each once, in the order in which a loop over the map happens to meet them. */
  ghost predicate IsOrder(order: seq<string>, hosts: map<string, string>) {
    && (forall host :: host in order <==> host in hosts)
    && forall i, j | 0 <= i < j < |order| :: order[i] != order[j]
  }

  function Block(records: seq<string>): seq<string> {
    [KtHostsEscapeBegin()] + records + [KtHostsEscapeEnd()]
  }

  /** The file after a dump of the records; None if the file is left alone. */
  function AfterDump(lines: seq<string>, records: seq<string>, namespace: string,
                     options: Options): Option<seq<string>> {
    match Dropping(lines, namespace, options)
    case None => None
    case Some(d) => Some(Collapse(d.rest + [""] + Block(records + d.kept) + [""]))
  }

  function AfterDrop(lines: seq<string>, options: Options): seq<string> {
    match Dropping(lines, "", options)
    case None => lines
    case Some(d) => if |d.rest| < |lines| then Collapse(d.rest) else lines
  }

  lemma {:induction false} LastIndexFound<T>(lines: seq<T>, line: T)
    ensures LastIndex(lines, line) >= 0 ==> lines[LastIndex(lines, line)] == line
  {
    if lines != [] {
      LastIndexFound(lines[..|lines| - 1], line);
    }
  }

  lemma NothingScanned(namespace: string, options: Options)
    ensures forall line: string :: LastIndex([], line) == -1
    ensures Collected([], namespace, options) == []
  {
  }

  lemma MarkersDiffer()
    ensures KtHostsEscapeBegin() != KtHostsEscapeEnd()
  {
    assert |KtHostsEscapeBegin()| != |KtHostsEscapeEnd()|;
  }

  lemma LastIndexNext<T>(lines: seq<T>, i: nat, line: T)
    requires i < |lines|
    ensures LastIndex(lines[..i + 1], line) == if lines[i] == line then i else LastIndex(lines[..i], line)
  {
    assert lines[..i + 1][..i] == lines[..i];
  }

  lemma CollectedNext(lines: seq<string>, i: nat, namespace: string, options: Options)
    requires i < |lines|
    ensures Collected(lines[..i + 1], namespace, options) ==
            if (&& !IsMarker(lines[i]) && namespace != "" && Keeps(lines[i], namespace, options)
                && LastIndex(lines[..i], KtHostsEscapeBegin()) >= 0 && LastIndex(lines[..i], KtHostsEscapeEnd()) < 0)
            then Collected(lines[..i], namespace, options) + [lines[i]] else Collected(lines[..i], namespace, options)
  {
    hide Keeps, IsMarker;
    assert lines[..i + 1][..i] == lines[..i];
  }

  /** Two lists copied into a buffer, with one blank line between them and one after them. */
  method MergeLines(linesBefore: seq<string>, linesAfter: seq<string>) returns (lines: seq<string>)
    ensures lines == linesBefore + [""] + linesAfter + [""]
  {
    var buffer := new string[|linesBefore| + |linesAfter| + 2](_ => "");
    var posBegin := |linesBefore|;
    forall i | 0 <= i < posBegin {
      buffer[i] := linesBefore[i];
    }
    forall i | 0 <= i < |linesAfter| {
      buffer[posBegin + 1 + i] := linesAfter[i];
    }
    return buffer[..];
  }

  method DumpLines(hosts: map<string, string>, linesToKeep: seq<string>)
      returns (lines: seq<string>, order: seq<string>)
    ensures IsOrder(order, hosts) && lines == Block(Records(order, hosts) + linesToKeep)
  {
    lines, order := [KtHostsEscapeBegin()], [];
    var left := hosts.Keys;
    while left != {}
      invariant left <= hosts.Keys && forall host :: host in order <==> host in hosts.Keys - left
      invariant forall i, j | 0 <= i < j < |order| :: order[i] != order[j]
      invariant lines == [KtHostsEscapeBegin()] + Records(order, hosts)
      decreases left
    {
      var host :| host in left;
      assert host !in order;
      left := left - {host};
      if hosts[host] != "" {
        lines := lines + [hosts[host] + " " + host];
      }
      assert (order + [host])[..|order|] == order;
      order := order + [host];
    }
    for i := 0 to |linesToKeep|
      invariant lines == [KtHostsEscapeBegin()] + Records(order, hosts) + linesToKeep[..i]
    {
      lines := lines + [linesToKeep[i]];
    }
    lines := lines + [KtHostsEscapeEnd()];
  }

  /** The last marker of either kind, and the records to keep. */
  method ScanLines(rawLines: seq<string>, namespaceToDrop: string, options: Options)
    returns (escapeBegin: int, escapeEnd: int, recordsToKeep: seq<string>)
    ensures escapeBegin == LastIndex(rawLines, KtHostsEscapeBegin())
    ensures escapeEnd == LastIndex(rawLines, KtHostsEscapeEnd())
    ensures recordsToKeep == Collected(rawLines, namespaceToDrop, options)
  {
    escapeBegin, escapeEnd, recordsToKeep := -1, -1, [];
    NothingScanned(namespaceToDrop, options);
    hide IsShort, HasSuffix, LastIndex, Collected, KtHostsEscapeBegin, KtHostsEscapeEnd;
    MarkersDiffer();
    var midDomain := "." + namespaceToDrop;
    var fullDomain := "." + namespaceToDrop + ".svc." + options.clusterDomain;
    var keepShortDomain := namespaceToDrop != options.namespace;
    for i := 0 to |rawLines|
      invariant escapeBegin == LastIndex(rawLines[..i], KtHostsEscapeBegin())
      invariant escapeEnd == LastIndex(rawLines[..i], KtHostsEscapeEnd())
      invariant recordsToKeep == Collected(rawLines[..i], namespaceToDrop, options)
    {
      var l := rawLines[i];
      LastIndexNext(rawLines, i, KtHostsEscapeBegin());
      LastIndexNext(rawLines, i, KtHostsEscapeEnd());
      CollectedNext(rawLines, i, namespaceToDrop, options);
      if l == KtHostsEscapeBegin() {
        escapeBegin := i;
      } else if l == KtHostsEscapeEnd() {
        escapeEnd := i;
      } else if escapeBegin >= 0 && escapeEnd < 0 && namespaceToDrop != "" {
        if IsShort(l) {
          if keepShortDomain {
            recordsToKeep := recordsToKeep + [l];
          }
        } else if !HasSuffix(l, midDomain) && !HasSuffix(l, fullDomain) {
          recordsToKeep := recordsToKeep + [l];
        }
      }
    }
    assert rawLines[..|rawLines|] == rawLines;
  }

  /** Everything before and everything after the block, copied into a buffer. */
  method CutOut(rawLines: seq<string>, escapeBegin: nat, escapeEnd: nat) returns (linesAfterDrop: seq<string>)
    requires escapeBegin <= escapeEnd < |rawLines|
    ensures linesAfterDrop == rawLines[..escapeBegin] + rawLines[escapeEnd + 1..]
  {
    var buffer := new string[|rawLines| - (escapeEnd - escapeBegin + 1)](_ => "");
    forall i | 0 <= i < escapeBegin {
      buffer[i] := rawLines[i];
    }
    forall i | 0 <= i < |rawLines| - escapeEnd - 1 {
      buffer[escapeBegin + i] := rawLines[escapeEnd + 1 + i];
    }
    return buffer[..];
  }

  method DropLines(rawLines: seq<string>, namespaceToDrop: string, options: Options) returns (r: Option<Dropped>)
    ensures r == Dropping(rawLines, namespaceToDrop, options)
  {
    hide Collected, LastIndex, KtHostsEscapeBegin, KtHostsEscapeEnd;
    MarkersDiffer();
    LastIndexFound(rawLines, KtHostsEscapeBegin());
    LastIndexFound(rawLines, KtHostsEscapeEnd());
    var escapeBegin, escapeEnd, recordsToKeep := ScanLines(rawLines, namespaceToDrop, options);
    if escapeEnd < escapeBegin {
      return None;
    }
    if escapeBegin >= 0 && escapeEnd > 0 {
      var linesAfterDrop := CutOut(rawLines, escapeBegin, escapeEnd);
      return Some(Dropped(linesAfterDrop, recordsToKeep));
    } else if escapeBegin >= 0 || escapeEnd > 0 {
      return None;
    } else {
      return Some(Dropped(rawLines, []));
    }
  }

  /** The hosts file, and the process-wide flag that stops dumping once the cleanup has begun. */
  class HostsFile {
    var lines: seq<string>
    var doNotDump: bool
    const options: Options

    constructor (lines: seq<string>, options: Options)
      ensures this.lines == lines && this.options == options && !doNotDump
    {
      this.lines := lines;
      this.options := options;
      doNotDump := false;
    }

    /** `locked`: the file lock was obtained. */
    method UpdateHostsFile(lines: seq<string>, locked: bool) returns (ok: bool)
      modifies this`lines
      ensures ok == locked
      ensures this.lines == if ok then Collapse(lines) else old(this.lines)
    {
      if !locked {
        return false;
      }
      var written: seq<string> := [];
      var continualEmptyLine := false;
      for i := 0 to |lines|
        invariant written == Collapse(lines[..i])
        invariant continualEmptyLine <==> i > 0 && lines[i - 1] == ""
      {
        var l := lines[i];
        assert lines[..i + 1][..i] == lines[..i];
        if continualEmptyLine && l == "" {
          continue;
        }
        continualEmptyLine := l == "";
        written := written + [l];
      }
      assert lines[..|lines|] == lines;
      this.lines := written;
      return true;
    }

    method DumpHosts(hosts: map<string, string>, namespaceToDrop: string, locked: bool) returns (ok: bool)
      modifies this`lines
      ensures ok <==> doNotDump || (Dropping(old(lines), namespaceToDrop, options).Some? && locked)
      ensures doNotDump || !ok ==> lines == old(lines)
      ensures !doNotDump && ok ==>
                exists order :: IsOrder(order, hosts)
                                && Some(lines) == AfterDump(old(lines), Records(order, hosts), namespaceToDrop, options)
    {
      if doNotDump {
        return true;
      }
      hide Dropping, Collapse, Records, Block, IsOrder, KtHostsEscapeBegin, KtHostsEscapeEnd;
      var dropped := DropLines(lines, namespaceToDrop, options);
      if dropped.None? {
        return false;
      }
      var block, order := DumpLines(hosts, dropped.value.kept);
      var merged := MergeLines(dropped.value.rest, block);
      ok := UpdateHostsFile(merged, locked);
      assert ok ==> Some(lines) == AfterDump(old(lines), Records(order, hosts), namespaceToDrop, options);
    }

    method DropHosts(locked: bool)
      modifies this
      ensures doNotDump
      ensures lines == if locked then AfterDrop(old(lines), options) else old(lines)
    {
      doNotDump := true;
      var dropped := DropLines(lines, "", options);
      if dropped.None? {
        return;
      }
      if |dropped.value.rest| < |lines| {
        var ok := UpdateHostsFile(dropped.value.rest, locked);
      }
    }
  }
}
