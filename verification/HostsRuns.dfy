/** Any sequence of dumps and drops: the user's lines stay, and a repeated dump does not grow the file. */
module HostsRuns {
  import opened Text
  import opened HostsFile
  import opened HostsLaws

  datatype Op =
    | Start // a new kt process
    | Dump(records: seq<string>, namespace: string)
    | Drop

  datatype State = State(lines: seq<string>, doNotDump: bool)

  function Apply(s: State, op: Op, options: Options): State {
    match op
    case Start => s.(doNotDump := false)
    case Dump(records, namespace) =>
      if s.doNotDump then s
      else
        var after := AfterDump(s.lines, records, namespace, options);
        if after.Some? then s.(lines := after.value) else s
    case Drop => State(AfterDrop(s.lines, options), true)
  }

  function Run(s: State, ops: seq<Op>, options: Options): State {
    if ops == [] then s else Apply(Run(s, ops[..|ops| - 1], options), ops[|ops| - 1], options)
  }

  ghost predicate Fits(op: Op) {
    op.Dump? ==> Unmarked(op.records)
  }

  /** The step of a method that dumps, as a step of the run. */
  method Step(file: HostsFile, hosts: map<string, string>, namespace: string) returns (ghost op: Op, ok: bool)
    requires forall host | host in hosts :: ' ' !in host && ' ' !in hosts[host]
    modifies file`lines
    ensures Fits(op) && file.doNotDump == old(file.doNotDump)
    ensures State(file.lines, file.doNotDump) == Apply(old(State(file.lines, file.doNotDump)), op, file.options)
  {
    ghost var before := file.lines;
    ok := file.DumpHosts(hosts, namespace, true);
    if !file.doNotDump && ok {
      ghost var order :| IsOrder(order, hosts)
                         && Some(file.lines) == AfterDump(before, Records(order, hosts), namespace, file.options);
      RecordsAreUnmarked(order, hosts);
      op := Dump(Records(order, hosts), namespace);
    } else {
      op := Dump([], namespace);
    }
  }

  lemma {:induction false} RecordsAreUnmarked(order: seq<string>, hosts: map<string, string>)
    requires forall host | host in order :: host in hosts && ' ' !in host && ' ' !in hosts[host]
    ensures Unmarked(Records(order, hosts))
  {
    if order != [] {
      var n := |order| - 1;
      RecordsAreUnmarked(order[..n], hosts);
      assert order[n] in order;
      RecordIsNoMarker(hosts[order[n]], order[n]);
      LastOrBefore(Records(order[..n], hosts), hosts[order[n]] + " " + order[n]);
    }
  }

  /** A marker has more than one space. */
  lemma RecordIsNoMarker(ip: string, host: string)
    requires ' ' !in ip && ' ' !in host
    ensures !IsMarker(ip + " " + host)
  {
    var line := ip + " " + host;
    forall k | 0 <= k < |line| && k != |ip|
      ensures line[k] != ' '
    {
      if k < |ip| {
        assert line[k] == ip[k] && ip[k] in ip;
      } else {
        assert line[k] == host[k - |ip| - 1] && host[k - |ip| - 1] in host;
      }
    }
    assert KtHostsEscapeBegin()[1] == KtHostsEscapeBegin()[4] == KtHostsEscapeEnd()[1] == KtHostsEscapeEnd()[4] == ' ';
  }

  // ----- the user's lines -----

  lemma DumpKeeps(lines: seq<string>, records: seq<string>, namespace: string, options: Options)
    requires WellFormed(lines) && Unmarked(records)
    ensures AfterDump(lines, records, namespace, options).Some?
    ensures var after := AfterDump(lines, records, namespace, options).value;
            WellFormed(after) && Normal(Outside(after, options)) == Normal(Outside(lines, options))
  {
    var rest, before := Opened(lines, options);
    DumpedBlock(lines, rest, before, records, namespace, options);
    hide AfterDump, Kept, Unmarked, Normal;
    var block := Collapse(records + Kept(before, namespace, options));
    var after := Collapse(rest + [""]) + Block(block) + [""];
    assert Outside(lines, options) == rest;
    DroppingBlock(after, Collapse(rest + [""]), block, [""], "", options);
    NormalBlank(Collapse(rest + [""]));
    NormalCollapsed(rest + [""]);
    NormalBlank(rest);
  }

  lemma DropKeeps(lines: seq<string>, options: Options)
    requires WellFormed(lines)
    ensures Unmarked(AfterDrop(lines, options))
    ensures Normal(AfterDrop(lines, options)) == Normal(Outside(lines, options))
  {
    var rest, records := Opened(lines, options);
    assert Dropping(lines, "", options) == Some(Dropped(rest, Kept(records, "", options)));
    hide Dropping, Unmarked, Normal;
    UnmarkedCollapse(rest);
    NormalCollapsed(rest);
  }

  lemma StepKeeps(s: State, op: Op, options: Options)
    requires WellFormed(s.lines) && Fits(op)
    ensures WellFormed(Apply(s, op, options).lines)
    ensures Normal(Outside(Apply(s, op, options).lines, options)) == Normal(Outside(s.lines, options))
  {
    match op
    case Start =>
    case Dump(records, namespace) => DumpKeeps(s.lines, records, namespace, options);
    case Drop =>
      DropKeeps(s.lines, options);
      var after := AfterDrop(s.lines, options);
      DroppingPlain(after, "", options);
  }

  /** After any dumps and drops there is at most one block, and the other lines are the user's, in order, but for
      repeated and trailing blank lines. */
  lemma {:induction false} UserLinesStay(s: State, ops: seq<Op>, options: Options)
    requires WellFormed(s.lines) && forall op | op in ops :: Fits(op)
    ensures WellFormed(Run(s, ops, options).lines)
    ensures Normal(Outside(Run(s, ops, options).lines, options)) == Normal(Outside(s.lines, options))
  {
    if ops != [] {
      var n := |ops| - 1;
      UserLinesStay(s, ops[..n], options);
      hide WellFormed, Outside, Normal, Apply, Fits;
      StepKeeps(Run(s, ops[..n], options), ops[n], options);
    }
  }

  /** A cleanup leaves the user's file as it was before the first dump, but for repeated and trailing blank lines. */
  lemma CleanupRestores(lines: seq<string>, ops: seq<Op>, options: Options)
    requires Unmarked(lines) && forall op | op in ops :: Fits(op)
    ensures var s := Apply(Run(State(lines, false), ops, options), Drop, options);
            Unmarked(s.lines) && Normal(s.lines) == Normal(lines) && s.doNotDump
  {
    UserLinesStay(State(lines, false), ops, options);
    DroppingPlain(lines, "", options);
    DropKeeps(Run(State(lines, false), ops, options).lines, options);
  }

  /** A begin marker without an end marker behind it, or no begin marker and an end marker that is not on the very first
      line, where the code does not look for it. */
  ghost predicate IsBroken(lines: seq<string>) {
    || (exists b | 0 <= b < |lines| :: lines[b] == "# Kt Hosts Begin" && IsMissing("# Kt Hosts End", lines, b + 1))
    || (IsMissing("# Kt Hosts Begin", lines, 0) && exists e | 1 <= e < |lines| :: lines[e] == "# Kt Hosts End")
  }

  predicate IsMissing<T(==)>(line: T, lines: seq<T>, from: nat) {
    forall k | from <= k < |lines| :: lines[k] != line
  }

  lemma {:induction false} LastIndexIs<T>(lines: seq<T>, line: T)
    ensures IsMissing(line, lines, LastIndex(lines, line) + 1)
    ensures LastIndex(lines, line) >= 0 ==> lines[LastIndex(lines, line)] == line
  {
    if lines != [] {
      LastIndexIs(lines[..|lines| - 1], line);
    }
  }

  lemma BrokenIff(lines: seq<string>, namespace: string, options: Options)
    ensures Dropping(lines, namespace, options).None? <==> IsBroken(lines)
  {
    var begin, end := LastIndex(lines, "# Kt Hosts Begin"), LastIndex(lines, "# Kt Hosts End");
    LastIndexIs(lines, "# Kt Hosts Begin");
    LastIndexIs(lines, "# Kt Hosts End");
    hide LastIndex, Collected;
    assert Dropping(lines, namespace, options).None? <==> end < begin || (begin < 0 && end > 0);
    hide Dropping;
    if end < begin {
      assert lines[begin] == "# Kt Hosts Begin" && IsMissing("# Kt Hosts End", lines, begin + 1);
    }
  }

  /** If the markers do not pair up, nothing ever changes the file. */
  lemma {:induction false} BrokenFileIsLeftAlone(s: State, ops: seq<Op>, options: Options)
    requires IsBroken(s.lines)
    ensures Run(s, ops, options).lines == s.lines
  {
    forall namespace
      ensures Dropping(s.lines, namespace, options).None?
    {
      BrokenIff(s.lines, namespace, options);
    }
    hide IsBroken;
    if ops != [] {
      hide Dropping;
      BrokenFileIsLeftAlone(s, ops[..|ops| - 1], options);
    }
  }

  /** A cleanup does not even touch the blank lines of a file without markers. */
  lemma NothingToDrop(lines: seq<string>, options: Options)
    requires forall line | line in lines :: line != "# Kt Hosts Begin" && line != "# Kt Hosts End"
    ensures AfterDrop(lines, options) == lines
  {
    LastIndexIs(lines, KtHostsEscapeBegin());
    LastIndexIs(lines, KtHostsEscapeEnd());
    assert forall k | 0 <= k < |lines| :: lines[k] in lines;
    assert LastIndex(lines, KtHostsEscapeBegin()) == LastIndex(lines, KtHostsEscapeEnd()) == -1;
    hide LastIndex;
  }

  // ----- growth -----

  predicate NoBlanks(lines: seq<string>) {
    "" !in lines
  }

  lemma {:induction false} CollapseAfterNoBlanks(a: seq<string>, b: seq<string>)
    requires NoBlanks(a)
    ensures Collapse(a + b) == a + Collapse(b)
  {
    if a == [] {
      assert a + b == b && a + Collapse(b) == Collapse(b);
    } else {
      var front, last := a[..|a| - 1], a[|a| - 1];
      LastOrBefore(front, last);
      assert a == front + [last];
      CollapseAround(front, last, b);
      CollapseAfterNoBlanks(front, []);
      assert front + [] == front && front + Collapse([]) == front;
    }
  }

  lemma NoBlanksConcat(a: seq<string>, b: seq<string>)
    ensures NoBlanks(a + b) <==> NoBlanks(a) && NoBlanks(b)
  {
  }

  /** The first records stay as far as they are kept. */
  lemma KeptAgain(first: seq<string>, kept: seq<string>, namespace: string, options: Options)
    requires forall l | l in kept :: Keeps(l, namespace, options)
    requires namespace == "" ==> kept == []
    ensures Kept(first + Collapse(kept), namespace, options) == Kept(first, namespace, options) + Collapse(kept)
  {
    hide Keeps;
    CollapseElements(kept);
    KeptOfConcat(first, Collapse(kept), namespace, options);
    if namespace != "" {
      KeptAll(Collapse(kept), namespace, options);
    }
  }

  lemma HeadStays(rest: seq<string>)
    ensures Collapse(Collapse(rest + [""]) + [""] + [""]) == Collapse(rest + [""])
  {
    var head := Collapse(rest + [""]);
    CollapseEnds(rest + [""]);
    CollapseIsCollapsed(rest + [""]);
    CollapseLast(head, "");
    CollapseLast(head + [""], "");
  }

  lemma RecordsStay(a: seq<string>, b: seq<string>, kept: seq<string>)
    requires NoBlanks(a) && NoBlanks(b)
    ensures Collapse(a + (b + Collapse(kept))) == a + b + Collapse(kept)
  {
    NoBlanksConcat(a, b);
    hide Collapse, NoBlanks;
    CollapseAfterNoBlanks(a + b, Collapse(kept));
    CollapseIsCollapsed(kept);
    SumOfThree(a, b, Collapse(kept));
  }

  /** Two dumps for a namespace, one after the other: the second has whatever of the first block it keeps on top. */
  lemma SecondDump(lines: seq<string>, first: seq<string>, second: seq<string>, namespace: string, options: Options)
    returns (head: seq<string>, tail: seq<string>)
    requires WellFormed(lines) && Unmarked(first) && Unmarked(second) && NoBlanks(first) && NoBlanks(second)
    ensures AfterDump(lines, first, namespace, options) == Some(head + Block(first + tail) + [""])
    ensures AfterDump(head + Block(first + tail) + [""], second, namespace, options)
            == Some(head + Block(second + Kept(first, namespace, options) + tail) + [""])
  {
    var rest, before := Opened(lines, options);
    var kept := Kept(before, namespace, options);
    KeptElements(before, namespace, options);
    KeptElements(first, namespace, options);
    KeptOfNothing(before, options);
    var again := Kept(first, namespace, options);
    assert NoBlanks(again);
    hide AfterDump, Kept, Unmarked, Keeps, NoBlanks, Collapse, Block, HasBlock, IsRest;
    DumpedBlock(lines, rest, before, first, namespace, options);
    head, tail := Collapse(rest + [""]), Collapse(kept);
    CollapseAfterNoBlanks(first, kept);
    KeptAgain(first, kept, namespace, options);
    var file := head + Block(first + tail) + [""];
    BlockIsRest(file, head, first + tail, options);
    DumpedBlock(file, head + [""], first + tail, second, namespace, options);
    HeadStays(rest);
    RecordsStay(second, again, kept);
  }

  lemma KeptOfNothing(records: seq<string>, options: Options)
    ensures Kept(records, "", options) == []
  {
  }

  lemma CollapseIsCollapsed(lines: seq<string>)
    ensures Collapse(Collapse(lines)) == Collapse(lines)
  {
    CollapseTwice(lines, []);
    assert lines + [] == lines && Collapse(lines) + [] == Collapse(lines);
  }

  lemma BlockIsRest(file: seq<string>, head: seq<string>, records: seq<string>, options: Options)
    requires HasBlock(file, head, records, [""])
    ensures IsRest(file, options, head + [""], records) && Unmarked(records)
  {
    UnmarkedConcat(head, [""]);
    hide Unmarked, Dropping, Kept;
    forall namespace
      ensures Dropping(file, namespace, options) == Some(Dropped(head + [""], Kept(records, namespace, options)))
    {
      DroppingBlock(file, head, records, [""], namespace, options);
    }
  }

  /** Repeating a dump leaves the length as it is exactly if none of the dumped records is kept by the next one. */
  lemma GrowthIff(lines: seq<string>, first: seq<string>, second: seq<string>, namespace: string, options: Options)
    requires WellFormed(lines) && Unmarked(first) && Unmarked(second) && NoBlanks(first) && NoBlanks(second)
    requires |first| == |second|
    ensures var once := AfterDump(lines, first, namespace, options);
            && once.Some?
            && var twice := AfterDump(once.value, second, namespace, options);
               && twice.Some?
               && |twice.value| >= |once.value|
               && (|twice.value| == |once.value|
                   <==> forall l | l in first :: namespace == "" || !Keeps(l, namespace, options))
  {
    var head, tail := SecondDump(lines, first, second, namespace, options);
    KeptNothing(first, namespace, options);
  }

  lemma {:induction false} KeptNothing(records: seq<string>, namespace: string, options: Options)
    ensures Kept(records, namespace, options) == []
            <==> forall l | l in records :: namespace == "" || !Keeps(l, namespace, options)
  {
    hide Keeps;
    if records != [] {
      KeptNothing(records[..|records| - 1], namespace, options);
      LastOrBefore(records[..|records| - 1], records[|records| - 1]);
      assert records == records[..|records| - 1] + [records[|records| - 1]];
    }
  }
}
