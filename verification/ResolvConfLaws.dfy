/** Restoring resolv.conf: after one setup, after a repeated one, and after any mix of setups and restores. */
module ResolvConfLaws {
  import opened Text
  import opened ResolvConf

  predicate HasComment(line: string) {
    HasSuffix(line, CommentKtAdded()) || HasSuffix(line, CommentKtRemoved())
  }

  // ----- single lines -----

  lemma SuffixAt(line: string, suffix: string, k: nat)
    requires k < |suffix|
    ensures HasSuffix(line, suffix) ==> line[|line| - |suffix| + k] == suffix[k]
  {
    if HasSuffix(line, suffix) {
      assert line[|line| - |suffix|..][k] == suffix[k];
    }
  }

  lemma CommentsDiffer(line: string)
    ensures HasSuffix(line, CommentKtAdded()) ==> !HasSuffix(line, CommentKtRemoved())
  {
    assert CommentKtAdded()[5] == 'd' && CommentKtRemoved()[7] == 'v';
    assert |CommentKtAdded()| == 21 && |CommentKtRemoved()| == 23;
    SuffixAt(line, CommentKtAdded(), 5);
    SuffixAt(line, CommentKtRemoved(), 7);
  }

  lemma ConcatHasSuffix(front: string, suffix: string)
    ensures HasSuffix(front + suffix, suffix)
    ensures TrimSuffix(front + suffix, suffix) == front
  {
  }

  /** A line that was commented out comes back. */
  lemma CommentedBack(line: string)
    ensures RestoredLine(CommentedOut(line)) == [line]
  {
    ConcatHasSuffix("#" + line, CommentKtRemoved());
    assert ("#" + line)[1..] == line && "#" <= "#" + line;
    hide CommentKtAdded, CommentKtRemoved, TrimSuffix;
  }

  lemma AddedGoes(dnsServer: string)
    ensures RestoredLine(AddedLine(dnsServer)) == []
    ensures IsNameserver(AddedLine(dnsServer))
  {
    hide Split;
    var front := FIELD_NAMESERVER + " " + Ip(dnsServer);
    ConcatHasSuffix(front, CommentKtAdded());
    CommentsDiffer(AddedLine(dnsServer));
    assert FIELD_NAMESERVER <= AddedLine(dnsServer);
  }

  lemma AddedIsFound(dnsServer: string)
    ensures Names(AddedLine(dnsServer), dnsServer)
  {
    hide Split;
    var sample := FIELD_NAMESERVER + " " + Ip(dnsServer) + " ";
    assert CommentKtAdded()[0] == ' ' && CommentKtAdded() == " " + CommentKtAdded()[1..];
    assert AddedLine(dnsServer) == sample + CommentKtAdded()[1..];
  }

  lemma CommentedIsNone(line: string)
    ensures !IsNameserver(CommentedOut(line))
  {
    assert CommentedOut(line)[0] == '#' && FIELD_NAMESERVER[0] == 'n';
  }

  lemma PlainStaysIff(line: string)
    ensures RestoredLine(line) == [line] <==> !HasComment(line)
  {
    if HasSuffix(line, CommentKtRemoved()) {
      assert |CommentKtRemoved()| > 0;
      var back := TrimPrefix(TrimSuffix(line, CommentKtRemoved()), "#");
      assert |back| < |line|;
    }
  }

  // ----- one setup -----

  lemma RestoreOfShown(line: string)
    ensures var shown := if IsNameserver(line) then CommentedOut(line) else line;
            && |RestoredLine(shown)| <= 1
            && (RestoredLine(shown) == [line] <==> IsNameserver(line) || !HasComment(line))
  {
    CommentedBack(line);
    PlainStaysIff(line);
    OneLine(line);
    hide IsNameserver, HasComment, RestoredLine, CommentedOut;
  }

  lemma {:induction false} RestoreOfCommented(lines: seq<string>)
    ensures |Restore(Commented(lines))| <= |lines|
    ensures Restore(Commented(lines)) == lines
            <==> forall line | line in lines :: IsNameserver(line) || !HasComment(line)
  {
    hide IsNameserver, HasComment, RestoredLine, CommentedOut;
    if lines != [] {
      var n := |lines| - 1;
      var front, last := lines[..n], lines[n];
      RestoreOfCommented(front);
      assert lines == front + [last];
      var shown := if IsNameserver(last) then CommentedOut(last) else last;
      RestoreOfShown(last);
      RestoreLast(Commented(front), shown);
      AppendedEqual(Restore(Commented(front)), RestoredLine(shown), front, last);
    }
  }

  lemma RestoreLast(lines: seq<string>, line: string)
    ensures Restore(lines + [line]) == Restore(lines) + RestoredLine(line)
  {
    hide RestoredLine;
    assert (lines + [line])[..|lines|] == lines;
  }

  lemma OneLine(line: string)
    ensures |RestoredLine(line)| <= 1
  {
  }

  lemma AppendedEqual<T>(a: seq<T>, b: seq<T>, front: seq<T>, last: T)
    requires |a| <= |front| && |b| <= 1
    ensures a + b == front + [last] <==> a == front && b == [last]
  {
    if a + b == front + [last] {
      assert |a + b| == |front| + 1;
      assert (a + b)[..|a|] == a && (front + [last])[..|front|] == front;
      assert (a + b)[|a|..] == b && (front + [last])[|front|..] == [last];
    }
  }

  /** A restore leaves a file as it is exactly if no line ends with one of kt's comments. */
  lemma {:induction false} RestoreStaysIff(lines: seq<string>)
    ensures |Restore(lines)| <= |lines|
    ensures Restore(lines) == lines <==> forall line | line in lines :: !HasComment(line)
  {
    hide HasComment, RestoredLine;
    if lines != [] {
      var n := |lines| - 1;
      var front, last := lines[..n], lines[n];
      RestoreStaysIff(front);
      assert lines == front + [last];
      PlainStaysIff(last);
      OneLine(last);
      AppendedEqual(Restore(front), RestoredLine(last), front, last);
    }
  }

  /** One setup and then a restore: the lines are the original ones exactly if each line that setup left alone has none
      of kt's comments; a setup that finds its server leaves all of them alone. */
  lemma RestoreUndoesSetupIff(lines: seq<string>, dnsServer: string)
    ensures var found := exists line | line in lines :: Names(line, dnsServer);
            Restore(Setup(lines, dnsServer)) == lines
            <==> forall line | line in lines :: !HasComment(line) || (IsNameserver(line) && !found)
  {
    hide IsNameserver, HasComment, RestoredLine, Names, Commented;
    if exists line | line in lines :: Names(line, dnsServer) {
      RestoreStaysIff(lines);
    } else {
      RestoreLast(Commented(lines), AddedLine(dnsServer));
      AddedGoes(dnsServer);
      RestoreOfCommented(lines);
      assert Restore(Commented(lines)) + [] == Restore(Commented(lines));
    }
  }

  /** Setting up the same server again changes nothing. */
  lemma RepeatedSetup(lines: seq<string>, dnsServer: string)
    ensures Setup(Setup(lines, dnsServer), dnsServer) == Setup(lines, dnsServer)
  {
    hide Names, Commented;
    AddedIsFound(dnsServer);
    if forall line | line in lines :: !Names(line, dnsServer) {
      assert AddedLine(dnsServer) in Commented(lines) + [AddedLine(dnsServer)];
    }
  }

  lemma {:induction false} CommentedAt(lines: seq<string>, k: nat)
    requires k < |lines|
    ensures |Commented(lines)| == |lines|
    ensures Commented(lines)[k] == if HasPrefix(lines[k], "nameserver") then CommentedOut(lines[k]) else lines[k]
  {
    var n := |lines| - 1;
    if k < n {
      CommentedAt(lines[..n], k);
    } else if n > 0 {
      CommentedAt(lines[..n], n - 1);
    }
  }

  /** The server is written with or without a port; the line that is added names its address alone. */
  lemma SetupNamesServer(lines: seq<string>, ip: string, dnsServer: string)
    requires ':' !in ip && (dnsServer == ip || exists port :: dnsServer == ip + ":" + port)
    ensures var after, n := Setup(lines, dnsServer), |lines|;
            if exists line | line in lines :: HasPrefix(line, "nameserver " + ip + " ") then after == lines
            else
              && |after| == n + 1 && after[n] == "nameserver " + ip + " # Added by KtConnect"
              && forall k | 0 <= k < n ::
                   after[k] == if HasPrefix(lines[k], "nameserver")
                               then "#" + lines[k] + " # Removed by KtConnect" else lines[k]
  {
    AddressAlone(ip, dnsServer);
    assert FIELD_NAMESERVER + " " + ip + " " == "nameserver " + ip + " ";
    assert FIELD_NAMESERVER + " " + ip + CommentKtAdded() == "nameserver " + ip + " # Added by KtConnect";
    forall k | 0 <= k < |lines|
      ensures |Commented(lines)| == |lines|
      ensures Commented(lines)[k] == if HasPrefix(lines[k], "nameserver") then CommentedOut(lines[k]) else lines[k]
    {
      CommentedAt(lines, k);
    }
    hide Ip, Commented, HasPrefix;
  }

  lemma AddressAlone(ip: string, dnsServer: string)
    requires ':' !in ip && (dnsServer == ip || exists port :: dnsServer == ip + ":" + port)
    ensures Ip(dnsServer) == ip
  {
    if dnsServer == ip {
      SplitPlain(ip, ':');
    } else {
      var port :| dnsServer == ip + ":" + port;
      assert ":" == [':'];
      SplitCons(ip, port, ':');
      hide Split;
    }
  }

  /** After a setup that found no such line, the added one is the only one that a resolver reads as a server. */
  lemma OnlyServer(lines: seq<string>, ip: string, dnsServer: string)
    requires ':' !in ip && (dnsServer == ip || exists port :: dnsServer == ip + ":" + port)
    requires forall line | line in lines :: !HasPrefix(line, "nameserver " + ip + " ")
    ensures var after := Setup(lines, dnsServer);
            forall k | 0 <= k < |after| :: HasPrefix(after[k], "nameserver") <==> k == |lines|
  {
    SetupNamesServer(lines, ip, dnsServer);
    var after := Setup(lines, dnsServer);
    hide Setup;
    forall k | 0 <= k < |after|
      ensures HasPrefix(after[k], "nameserver") <==> k == |lines|
    {
      if k == |lines| {
        assert "nameserver" <= after[k];
      } else if HasPrefix(lines[k], "nameserver") {
        assert after[k][0] == '#' && "nameserver"[0] == 'n';
      }
    }
  }

  // ----- any mix -----

  /** A line of the file: whose it is, and whether it is commented out. */
  datatype Entry = Original(text: string, off: bool) | Added(dnsServer: string, off: bool)

  function TextOf(entry: Entry): string {
    if entry.Original? then entry.text else AddedLine(entry.dnsServer)
  }

  function LineOf(entry: Entry): string {
    if entry.off then CommentedOut(TextOf(entry)) else TextOf(entry)
  }

  function LinesOf(entries: seq<Entry>): seq<string> {
    if entries == [] then [] else LinesOf(entries[..|entries| - 1]) + [LineOf(entries[|entries| - 1])]
  }

  function OriginalsOf(entries: seq<Entry>): seq<string> {
    if entries == [] then []
    else
      var last := entries[|entries| - 1];
      OriginalsOf(entries[..|entries| - 1]) + if last.Original? then [last.text] else []
  }

  predicate EntryFits(entry: Entry) {
    && (entry.Original? ==> !HasComment(entry.text))
    && (entry.off ==> IsNameserver(TextOf(entry)))
  }

  predicate EntriesFit(entries: seq<Entry>) {
    forall e | e in entries :: EntryFits(e)
  }

  function SetEntry(entry: Entry): Entry {
    if IsNameserver(LineOf(entry)) then entry.(off := true) else entry
  }

  function SetEntries(entries: seq<Entry>): seq<Entry> {
    if entries == [] then [] else SetEntries(entries[..|entries| - 1]) + [SetEntry(entries[|entries| - 1])]
  }

  function RestoredEntry(entry: Entry): seq<Entry> {
    if entry.off then [entry.(off := false)] else if entry.Added? then [] else [entry]
  }

  function RestoredEntries(entries: seq<Entry>): seq<Entry> {
    if entries == [] then [] else RestoredEntries(entries[..|entries| - 1]) + RestoredEntry(entries[|entries| - 1])
  }

  lemma SetLine(entry: Entry)
    requires EntryFits(entry)
    ensures EntryFits(SetEntry(entry)) && SetEntry(entry).Original? == entry.Original?
    ensures entry.Original? ==> SetEntry(entry).text == entry.text
    ensures LineOf(SetEntry(entry)) ==
            if IsNameserver(LineOf(entry)) then CommentedOut(LineOf(entry)) else LineOf(entry)
  {
    CommentedIsNone(TextOf(entry));
    hide IsNameserver, HasComment, CommentedOut, AddedLine;
  }

  lemma RestoreEntry(entry: Entry)
    requires EntryFits(entry)
    ensures LinesOf(RestoredEntry(entry)) == RestoredLine(LineOf(entry))
    ensures EntriesFit(RestoredEntry(entry)) && OriginalsOf(RestoredEntry(entry)) == OriginalsOf([entry])
  {
    CommentedBack(TextOf(entry));
    if entry.Added? {
      AddedGoes(entry.dnsServer);
    } else {
      PlainStaysIff(entry.text);
    }
    hide IsNameserver, HasComment, CommentedOut, AddedLine, RestoredLine;
    Singleton(entry);
    Singleton(entry.(off := false));
  }

  lemma Singleton(entry: Entry)
    ensures LinesOf([entry]) == [LineOf(entry)] && LinesOf([]) == [] && OriginalsOf([]) == []
    ensures OriginalsOf([entry]) == if entry.Original? then [entry.text] else []
  {
    hide LineOf;
    assert [entry][..0] == [];
  }

  lemma {:induction false} EntriesConcat(a: seq<Entry>, b: seq<Entry>)
    ensures LinesOf(a + b) == LinesOf(a) + LinesOf(b) && OriginalsOf(a + b) == OriginalsOf(a) + OriginalsOf(b)
    ensures EntriesFit(a + b) <==> EntriesFit(a) && EntriesFit(b)
  {
    hide LineOf, EntryFits;
    if b == [] {
      assert a + b == a;
    } else {
      var front := b[..|b| - 1];
      assert (a + b)[..|a + b| - 1] == a + front && (a + b)[|a + b| - 1] == b[|b| - 1];
      EntriesConcat(a, front);
    }
  }

  lemma CommentedOfLast(lines: seq<string>, line: string)
    ensures Commented(lines + [line]) ==
            Commented(lines) + [if IsNameserver(line) then CommentedOut(line) else line]
  {
    hide IsNameserver, CommentedOut;
    assert (lines + [line])[..|lines|] == lines;
  }

  lemma {:induction false} CommentedEntries(entries: seq<Entry>)
    requires EntriesFit(entries)
    ensures Commented(LinesOf(entries)) == LinesOf(SetEntries(entries))
    ensures EntriesFit(SetEntries(entries)) && OriginalsOf(SetEntries(entries)) == OriginalsOf(entries)
  {
    if entries != [] {
      var n := |entries| - 1;
      var front, last := entries[..n], entries[n];
      assert entries == front + [last];
      EntriesConcat(front, [last]);
      CommentedEntries(front);
      assert last in entries;
      SetLine(last);
      assert SetEntries(entries) == SetEntries(front) + [SetEntry(last)];
      assert EntriesFit([SetEntry(last)]);
      Singleton(last);
      Singleton(SetEntry(last));
      CommentedOfLast(LinesOf(front), LineOf(last));
      EntriesConcat(SetEntries(front), [SetEntry(last)]);
      hide Commented, LinesOf, EntriesFit, OriginalsOf, SetEntries, IsNameserver, CommentedOut, LineOf, EntryFits,
           SetEntry;
    }
  }

  lemma SetupEntries(entries: seq<Entry>, dnsServer: string) returns (after: seq<Entry>)
    requires EntriesFit(entries)
    ensures Setup(LinesOf(entries), dnsServer) == LinesOf(after)
    ensures EntriesFit(after) && OriginalsOf(after) == OriginalsOf(entries)
  {
    if exists line | line in LinesOf(entries) :: Names(line, dnsServer) {
      after := entries;
    } else {
      CommentedEntries(entries);
      var added := Added(dnsServer, false);
      Singleton(added);
      assert EntryFits(added) && LineOf(added) == AddedLine(dnsServer);
      hide Names, Commented, LinesOf, OriginalsOf, EntryFits, LineOf, SetEntries;
      after := SetEntries(entries) + [added];
      EntriesConcat(SetEntries(entries), [added]);
      assert OriginalsOf(entries) + [] == OriginalsOf(entries);
    }
  }

  lemma {:induction false} RestoreEntries(entries: seq<Entry>)
    requires EntriesFit(entries)
    ensures Restore(LinesOf(entries)) == LinesOf(RestoredEntries(entries))
    ensures EntriesFit(RestoredEntries(entries)) && OriginalsOf(RestoredEntries(entries)) == OriginalsOf(entries)
  {
    if entries != [] {
      var n := |entries| - 1;
      var front, last := entries[..n], entries[n];
      assert entries == front + [last];
      EntriesConcat(front, [last]);
      RestoreEntries(front);
      assert last in entries;
      RestoreEntry(last);
      hide RestoredLine, LineOf, EntryFits, RestoredEntry;
      Singleton(last);
      EntriesConcat(RestoredEntries(front), RestoredEntry(last));
      RestoreLast(LinesOf(front), LineOf(last));
    }
  }

  lemma {:induction false} RestoredAreOn(entries: seq<Entry>)
    ensures forall e | e in RestoredEntries(entries) :: !e.off
    ensures (forall e | e in entries :: !e.off) ==> forall e | e in RestoredEntries(entries) :: e.Original?
  {
    if entries != [] {
      var n := |entries| - 1;
      assert entries == entries[..n] + [entries[n]];
      RestoredAreOn(entries[..n]);
    }
  }

  lemma {:induction false} OriginalLines(entries: seq<Entry>)
    requires forall e | e in entries :: e.Original? && !e.off
    ensures LinesOf(entries) == OriginalsOf(entries)
  {
    if entries != [] {
      var n := |entries| - 1;
      assert entries == entries[..n] + [entries[n]];
      OriginalLines(entries[..n]);
    }
  }

  function EntriesOf(lines: seq<string>): seq<Entry> {
    if lines == [] then [] else EntriesOf(lines[..|lines| - 1]) + [Original(lines[|lines| - 1], false)]
  }

  lemma {:induction false} EntriesOfLines(lines: seq<string>)
    requires forall line | line in lines :: !HasComment(line)
    ensures EntriesFit(EntriesOf(lines)) && LinesOf(EntriesOf(lines)) == lines && OriginalsOf(EntriesOf(lines)) == lines
  {
    if lines != [] {
      var n := |lines| - 1;
      var last := Original(lines[n], false);
      assert lines == lines[..n] + [lines[n]];
      assert lines[n] in lines;
      EntriesOfLines(lines[..n]);
      hide HasComment;
      Singleton(last);
      EntriesConcat(EntriesOf(lines[..n]), [last]);
      assert EntryFits(last);
    }
  }

  datatype Op = SetUp(dnsServer: string) | PutBack

  function Run(lines: seq<string>, ops: seq<Op>): seq<string> {
    if ops == [] then lines
    else
      var before := Run(lines, ops[..|ops| - 1]);
      var op := ops[|ops| - 1];
      if op.SetUp? then Setup(before, op.dnsServer) else Restore(before)
  }

  lemma {:induction false} RunEntries(lines: seq<string>, ops: seq<Op>) returns (entries: seq<Entry>)
    requires forall line | line in lines :: !HasComment(line)
    ensures Run(lines, ops) == LinesOf(entries) && EntriesFit(entries) && OriginalsOf(entries) == lines
  {
    if ops == [] {
      EntriesOfLines(lines);
      entries := EntriesOf(lines);
    } else {
      var op := ops[|ops| - 1];
      var before := RunEntries(lines, ops[..|ops| - 1]);
      hide Setup, Restore, HasComment;
      if op.SetUp? {
        entries := SetupEntries(before, op.dnsServer);
      } else {
        RestoreEntries(before);
        entries := RestoredEntries(before);
      }
    }
  }

  /** After any setups, of any servers, and restores, two restores give back the original lines. */
  lemma TwoRestoresRestore(lines: seq<string>, ops: seq<Op>)
    requires forall line | line in lines :: !HasComment(line)
    ensures Restore(Restore(Run(lines, ops))) == lines
  {
    var entries := RunEntries(lines, ops);
    hide Restore, HasComment, Run;
    RestoreEntries(entries);
    RestoredAreOn(entries);
    var once := RestoredEntries(entries);
    RestoreEntries(once);
    RestoredAreOn(once);
    OriginalLines(RestoredEntries(once));
  }

  // ----- when one restore is enough -----

  /** A line that kt added and later commented out. */
  predicate IsBuried(line: string) {
    HasSuffix(line, CommentKtAdded() + CommentKtRemoved())
  }

  predicate IsStuck(entry: Entry) {
    entry.Added? && entry.off
  }

  lemma SuffixOfSuffix(line: string, a: string, b: string)
    ensures HasSuffix(line, a + b) <==> HasSuffix(line, b) && HasSuffix(line[..|line| - |b|], a)
  {
    if |a + b| <= |line| {
      var k := |line| - |b|;
      assert line[|line| - |a + b|..] == line[..k][k - |a|..] + line[k..];
      if line[|line| - |a + b|..] == a + b {
        assert (a + b)[..|a|] == a && (a + b)[|a|..] == b;
        assert (line[..k][k - |a|..] + line[k..])[..|a|] == line[..k][k - |a|..];
        assert (line[..k][k - |a|..] + line[k..])[|a|..] == line[k..];
      }
    }
  }

  lemma HashedSuffix(text: string)
    ensures HasSuffix("#" + text, CommentKtAdded()) <==> HasSuffix(text, CommentKtAdded())
  {
    var added := CommentKtAdded();
    assert added[0] == ' ';
    if |added| <= |text| {
      assert ("#" + text)[|text| + 1 - |added|..] == text[|text| - |added|..];
    } else if |added| == |text| + 1 {
      assert ("#" + text)[0..][0] == '#';
    }
  }

  /** From its line one can tell whether an entry is stuck. */
  lemma StuckIsBuried(entry: Entry)
    requires EntryFits(entry)
    ensures IsBuried(LineOf(entry)) <==> IsStuck(entry)
  {
    var added, removed, text := CommentKtAdded(), CommentKtRemoved(), TextOf(entry);
    SuffixOfSuffix(LineOf(entry), added, removed);
    if entry.Added? {
      AddedEnds(entry.dnsServer);
      CommentsDiffer(text);
    }
    if entry.off {
      ConcatHasSuffix("#" + text, removed);
      HashedSuffix(text);
    }
    hide CommentKtAdded, CommentKtRemoved, AddedLine;
  }

  lemma AddedEnds(dnsServer: string)
    ensures HasSuffix(AddedLine(dnsServer), CommentKtAdded())
  {
    hide Split, CommentKtAdded;
    ConcatHasSuffix(FIELD_NAMESERVER + " " + Ip(dnsServer), CommentKtAdded());
  }

  lemma {:induction false} LinesLength(entries: seq<Entry>)
    ensures |LinesOf(entries)| == |entries|
  {
    hide LineOf;
    if entries != [] {
      LinesLength(entries[..|entries| - 1]);
    }
  }

  /** A stuck entry survives the restore and is no original line. */
  lemma {:induction false} LengthAfterRestore(entries: seq<Entry>)
    ensures |RestoredEntries(entries)| >= |OriginalsOf(entries)|
    ensures |RestoredEntries(entries)| == |OriginalsOf(entries)| <==> forall e | e in entries :: !IsStuck(e)
  {
    if entries != [] {
      var front, last := entries[..|entries| - 1], entries[|entries| - 1];
      LengthAfterRestore(front);
      assert forall e :: e in entries <==> e in front || e == last by {
        assert entries == front + [last];
      }
      assert |RestoredEntry(last)| == (if last.Original? then 1 else 0) + if IsStuck(last) then 1 else 0;
      hide IsStuck, RestoredEntry;
    }
  }

  lemma {:induction false} RestoredOriginals(entries: seq<Entry>)
    requires forall e | e in entries :: !IsStuck(e)
    ensures forall e | e in RestoredEntries(entries) :: e.Original? && !e.off
  {
    if entries != [] {
      var n := |entries| - 1;
      assert entries == entries[..n] + [entries[n]];
      assert entries[n] in entries;
      RestoredOriginals(entries[..n]);
    }
  }

  lemma {:induction false} BuriedLines(entries: seq<Entry>)
    requires EntriesFit(entries)
    ensures (exists line | line in LinesOf(entries) :: IsBuried(line)) <==> exists e | e in entries :: IsStuck(e)
  {
    if entries != [] {
      var n := |entries| - 1;
      var last := entries[n];
      assert entries == entries[..n] + [last];
      assert last in entries;
      BuriedLines(entries[..n]);
      StuckIsBuried(last);
      hide IsBuried, LineOf, IsStuck;
      var lines := LinesOf(entries[..n]);
      assert forall line :: line in lines + [LineOf(last)] <==> line in lines || line == LineOf(last);
    }
  }

  /** After any setups and restores, one restore gives back the original lines exactly if no line of the file was added
      by kt and commented out by it later. */
  lemma OneRestoreIff(lines: seq<string>, ops: seq<Op>)
    requires forall line | line in lines :: !HasComment(line)
    ensures Restore(Run(lines, ops)) == lines <==> forall line | line in Run(lines, ops) :: !IsBuried(line)
  {
    var entries := RunEntries(lines, ops);
    hide Restore, HasComment, Run, IsBuried, IsStuck, LinesOf, OriginalsOf, EntryFits;
    RestoreEntries(entries);
    LengthAfterRestore(entries);
    LinesLength(RestoredEntries(entries));
    BuriedLines(entries);
    if forall e | e in entries :: !IsStuck(e) {
      RestoredOriginals(entries);
      OriginalLines(RestoredEntries(entries));
    }
  }

  lemma NamesIsNameserver(line: string, dnsServer: string)
    ensures Names(line, dnsServer) ==> IsNameserver(line)
  {
    hide Split;
    var sample := FIELD_NAMESERVER + " " + Ip(dnsServer) + " ";
    assert sample[..|FIELD_NAMESERVER|] == FIELD_NAMESERVER;
    if Names(line, dnsServer) {
      assert line[..|sample|] == sample && line[..|sample|][..|FIELD_NAMESERVER|] == line[..|FIELD_NAMESERVER|];
    }
  }

  lemma FirstSpace(a: string, s: string, b: string)
    requires ' ' !in a && ' ' !in b
    ensures HasPrefix(a + " " + s, b + " ") ==> a == b
  {
    var line, prefix := a + " " + s, b + " ";
    SplitCons(a, s, ' ');
    if HasPrefix(line, prefix) {
      SplitCons(b, line[|prefix|..], ' ');
      assert line == b + " " + line[|prefix|..];
    }
  }

  lemma AddedIsNotFound(first: string, second: string)
    requires Ip(first) != Ip(second) && ' ' !in Ip(first) && ' ' !in Ip(second)
    ensures !Names(AddedLine(first), second)
  {
    hide Split;
    var front, rest := FIELD_NAMESERVER + " ", CommentKtAdded()[1..];
    assert CommentKtAdded()[0] == ' ' && CommentKtAdded() == " " + rest;
    assert AddedLine(first) == front + (Ip(first) + " " + rest);
    PrefixStrip(front, Ip(first) + " " + rest, Ip(second) + " ");
    assert FIELD_NAMESERVER + " " + Ip(second) + " " == front + (Ip(second) + " ");
    FirstSpace(Ip(first), rest, Ip(second));
  }

  lemma PrefixStrip<T>(front: seq<T>, a: seq<T>, b: seq<T>)
    ensures front + b <= front + a ==> b <= a
  {
    if front + b <= front + a {
      assert (front + a)[..|front + b|] == front + b;
      assert (front + a)[|front|..] == a && (front + b)[|front|..] == b;
      assert (front + a)[..|front + b|][|front|..] == a[..|b|];
    }
  }

  /** One is not enough after setups of two servers: the first server, which the second setup commented out, comes back.
      */
  lemma OneRestoreIsNotEnough(lines: seq<string>, first: string, second: string)
    requires forall line | line in lines :: !HasComment(line) && !Names(line, first) && !Names(line, second)
    requires Ip(first) != Ip(second) && ' ' !in Ip(first) && ' ' !in Ip(second)
    ensures Restore(Setup(Setup(lines, first), second)) == lines + [AddedLine(first)]
  {
    AddedIsNotFound(first, second);
    hide HasComment, RestoredLine, Names, CommentedOut, IsNameserver, Ip;
    CommentedNames(lines, second);
    var once := Setup(lines, first);
    assert forall line | line in once :: !Names(line, second);
    AddedGoes(first);
    AddedGoes(second);
    TwiceCommented(lines, AddedLine(first));
    CommentedBack(AddedLine(first));
    var twice := Commented(lines) + [CommentedOut(AddedLine(first))];
    assert Setup(once, second) == twice + [AddedLine(second)];
    RestoreLast(twice, AddedLine(second));
    RestoreLast(Commented(lines), CommentedOut(AddedLine(first)));
    RestoreOfCommented(lines);
    assert lines + [AddedLine(first)] + [] == lines + [AddedLine(first)];
  }

  lemma {:induction false} CommentedNames(lines: seq<string>, dnsServer: string)
    requires forall line | line in lines :: !Names(line, dnsServer)
    ensures forall line | line in Commented(lines) :: !Names(line, dnsServer)
  {
    if lines != [] {
      var n := |lines| - 1;
      assert lines == lines[..n] + [lines[n]];
      assert lines[n] in lines;
      CommentedNames(lines[..n], dnsServer);
      CommentedIsNone(lines[n]);
      NamesIsNameserver(CommentedOut(lines[n]), dnsServer);
      hide Names, CommentedOut, IsNameserver;
    }
  }

  lemma {:induction false} CommentedTwice(lines: seq<string>)
    ensures Commented(Commented(lines)) == Commented(lines)
  {
    if lines != [] {
      var n := |lines| - 1;
      CommentedTwice(lines[..n]);
      CommentedIsNone(lines[n]);
      hide CommentedOut, IsNameserver;
      var shown := if IsNameserver(lines[n]) then CommentedOut(lines[n]) else lines[n];
      assert (Commented(lines[..n]) + [shown])[..|Commented(lines[..n])|] == Commented(lines[..n]);
    }
  }

  lemma TwiceCommented(lines: seq<string>, line: string)
    requires IsNameserver(line)
    ensures Commented(Commented(lines) + [line]) == Commented(lines) + [CommentedOut(line)]
  {
    CommentedTwice(lines);
    hide CommentedOut, IsNameserver;
    assert (Commented(lines) + [line])[..|Commented(lines)|] == Commented(lines);
  }
}
