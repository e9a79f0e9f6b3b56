/** What the hosts file keeps: the user's lines, and one block that is read back as it was written. */
module HostsLaws {
  import opened Text
  import opened HostsFile

  // ----- a file with one block -----

  ghost predicate Unmarked(lines: seq<string>) {
    forall line | line in lines :: !IsMarker(line)
  }

  lemma {:induction false} LastIndexSkips<T>(a: seq<T>, b: seq<T>, x: T)
    requires x !in b
    ensures LastIndex(a + b, x) == LastIndex(a, x)
  {
    if b == [] {
      assert a + b == a;
    } else {
      var n := |b| - 1;
      assert (a + b)[..|a + b| - 1] == a + b[..n];
      LastIndexSkips(a, b[..n], x);
    }
  }

  lemma LastIndexAt<T>(a: seq<T>, x: T, b: seq<T>)
    requires x !in b
    ensures LastIndex(a + [x] + b, x) == |a|
  {
    LastIndexSkips(a + [x], b, x);
    assert (a + [x])[..|a|] == a;
  }

  lemma LastIndexMisses<T>(a: seq<T>, x: T)
    requires x !in a
    ensures LastIndex(a, x) == -1
  {
    LastIndexSkips([], a, x);
    assert [] + a == a;
  }

  lemma AppendLast<T>(a: seq<T>, b: seq<T>)
    requires b != []
    ensures var n := |a + b| - 1; (a + b)[n] == b[|b| - 1] && (a + b)[..n] == a + b[..|b| - 1] && a + b != []
  {
  }

  lemma Slices<T>(a: seq<T>, b: seq<T>, c: seq<T>)
    ensures (a + b + c)[..|a|] == a && (a + b + c)[|a| + |b|..] == c
  {
  }

  /** The records that stay. */
  function Kept(records: seq<string>, namespace: string, options: Options): seq<string> {
    if records == [] || namespace == "" then []
    else
      var n := |records| - 1;
      Kept(records[..n], namespace, options) + if Keeps(records[n], namespace, options) then [records[n]] else []
  }

  /** Lines outside of an open block are not collected. */
  lemma {:induction false} CollectedOutside(a: seq<string>, b: seq<string>, namespace: string, options: Options)
    requires Unmarked(b)
    requires LastIndex(a, KtHostsEscapeBegin()) < 0 || LastIndex(a, KtHostsEscapeEnd()) >= 0
    ensures Collected(a + b, namespace, options) == Collected(a, namespace, options)
  {
    if b == [] {
      assert a + b == a;
    } else {
      var rest := b[..|b| - 1];
      AppendLast(a, b);
      hide Keeps, IsMarker;
      assert Unmarked(rest);
      MarkersSkip(a, rest);
      CollectedOutside(a, rest, namespace, options);
    }
  }

  lemma MarkersSkip(a: seq<string>, b: seq<string>)
    requires Unmarked(b)
    ensures LastIndex(a + b, KtHostsEscapeBegin()) == LastIndex(a, KtHostsEscapeBegin())
    ensures LastIndex(a + b, KtHostsEscapeEnd()) == LastIndex(a, KtHostsEscapeEnd())
  {
    hide LastIndex;
    NotAMarker(b);
    LastIndexSkips(a, b, KtHostsEscapeBegin());
    LastIndexSkips(a, b, KtHostsEscapeEnd());
  }

  lemma NotAMarker(lines: seq<string>)
    requires Unmarked(lines)
    ensures KtHostsEscapeBegin() !in lines && KtHostsEscapeEnd() !in lines
  {
    hide KtHostsEscapeBegin, KtHostsEscapeEnd;
  }

  lemma {:induction false} CollectedInside(a: seq<string>, b: seq<string>, namespace: string, options: Options)
    requires Unmarked(b)
    requires LastIndex(a, KtHostsEscapeBegin()) >= 0 && LastIndex(a, KtHostsEscapeEnd()) < 0
    ensures Collected(a + b, namespace, options) == Collected(a, namespace, options) + Kept(b, namespace, options)
  {
    if b == [] {
      assert a + b == a;
    } else {
      var rest := b[..|b| - 1];
      AppendLast(a, b);
      hide Keeps, IsMarker;
      assert Unmarked(rest);
      MarkersSkip(a, rest);
      CollectedInside(a, rest, namespace, options);
    }
  }

  lemma CollectedMarker(a: seq<string>, marker: string, namespace: string, options: Options)
    requires IsMarker(marker)
    ensures Collected(a + [marker], namespace, options) == Collected(a, namespace, options)
  {
    hide Keeps;
    AppendLast(a, [marker]);
  }

  ghost predicate HasBlock(lines: seq<string>, before: seq<string>, records: seq<string>, after: seq<string>) {
    && Unmarked(before) && Unmarked(records) && Unmarked(after)
    && lines == before + Block(records) + after
  }

  /** Dropping from a file with one block: what is around the block, and the records that stay. */
  lemma DroppingBlock(lines: seq<string>, before: seq<string>, records: seq<string>, after: seq<string>,
                      namespace: string, options: Options)
    requires HasBlock(lines, before, records, after)
    ensures Dropping(lines, namespace, options) == Some(Dropped(before + after, Kept(records, namespace, options)))
  {
    var begin, end := KtHostsEscapeBegin(), KtHostsEscapeEnd();
    var open := before + [begin] + records;
    assert lines == open + [end] + after && lines == before + [begin] + (records + [end] + after);
    MarkersDiffer();
    NotAMarker(before);
    NotAMarker(records);
    NotAMarker(after);
    assert IsMarker(begin) && IsMarker(end);
    hide KtHostsEscapeBegin, KtHostsEscapeEnd, LastIndex, Collected, Kept, IsMarker, Unmarked;
    LastIndexAt(before, begin, records + [end] + after);
    LastIndexAt(open, end, after);
    Slices(before, [begin], records + [end] + after);
    Slices(open, [end], after);
    CollectedOfBlock(before, records, after, namespace, options);
  }

  lemma CollectedOfBlock(before: seq<string>, records: seq<string>, after: seq<string>, namespace: string,
                         options: Options)
    requires Unmarked(before) && Unmarked(records) && Unmarked(after)
    ensures Collected(before + [KtHostsEscapeBegin()] + records + [KtHostsEscapeEnd()] + after, namespace, options)
            == Kept(records, namespace, options)
  {
    var begin, end := KtHostsEscapeBegin(), KtHostsEscapeEnd();
    NotAMarker(before);
    NotAMarker(records);
    assert IsMarker(begin) && IsMarker(end);
    MarkersDiffer();
    hide KtHostsEscapeBegin, KtHostsEscapeEnd, LastIndex, Collected, Kept, IsMarker, Unmarked;
    LastIndexMisses(before, begin);
    LastIndexMisses(before, end);
    CollectedPlain(before, namespace, options);
    CollectedMarker(before, begin, namespace, options);
    LastIndexAt(before, begin, []);
    assert before + [begin] + [] == before + [begin];
    LastIndexSkips(before, [begin], end);
    var open := before + [begin];
    CollectedInside(open, records, namespace, options);
    CollectedMarker(open + records, end, namespace, options);
    LastIndexAt(open + records, end, []);
    assert open + records + [end] + [] == open + records + [end];
    CollectedOutside(open + records + [end], after, namespace, options);
    assert [] + Kept(records, namespace, options) == Kept(records, namespace, options);
  }

  lemma CollectedPlain(lines: seq<string>, namespace: string, options: Options)
    requires Unmarked(lines)
    ensures Collected(lines, namespace, options) == []
  {
    assert [] + lines == lines;
    CollectedOutside([], lines, namespace, options);
  }

  lemma DroppingPlain(lines: seq<string>, namespace: string, options: Options)
    requires Unmarked(lines)
    ensures Dropping(lines, namespace, options) == Some(Dropped(lines, []))
  {
    NotAMarker(lines);
    hide KtHostsEscapeBegin, KtHostsEscapeEnd, LastIndex;
    LastIndexMisses(lines, KtHostsEscapeBegin());
    LastIndexMisses(lines, KtHostsEscapeEnd());
  }

  // ----- blank lines -----

  predicate EndsBlank(lines: seq<string>) {
    lines != [] && lines[|lines| - 1] == ""
  }

  function TrimEnd(lines: seq<string>): seq<string> {
    if EndsBlank(lines) then TrimEnd(lines[..|lines| - 1]) else lines
  }

  /** The lines, but for repeated and trailing blank ones. */
  function Normal(lines: seq<string>): seq<string> {
    TrimEnd(Collapse(lines))
  }

  lemma CollapseLast(lines: seq<string>, line: string)
    ensures Collapse(lines + [line]) ==
            if line == "" && EndsBlank(lines) then Collapse(lines) else Collapse(lines) + [line]
  {
    assert (lines + [line])[..|lines|] == lines;
  }

  lemma {:induction false} CollapseEnds(lines: seq<string>)
    ensures EndsBlank(Collapse(lines)) <==> EndsBlank(lines)
    ensures Collapse(lines) == [] <==> lines == []
  {
    if lines != [] {
      CollapseEnds(lines[..|lines| - 1]);
    }
  }

  lemma {:induction false} CollapseElements(lines: seq<string>)
    ensures forall l :: l in Collapse(lines) <==> l in lines
  {
    if lines != [] {
      var n := |lines| - 1;
      CollapseElements(lines[..n]);
      LastOrBefore(lines[..n], lines[n]);
      LastOrBefore(Collapse(lines[..n]), lines[n]);
      assert lines[..n] + [lines[n]] == lines;
      if lines[n] == "" && n > 0 && lines[n - 1] == "" {
        assert lines[..n][n - 1] in lines[..n];
      }
    }
  }

  lemma LastOrBefore<T>(a: seq<T>, x: T)
    ensures forall y :: y in a + [x] <==> y in a || y == x
  {
  }

  lemma LastOfThree<T>(a: seq<T>, b: seq<T>)
    requires b != []
    ensures var rest, last := b[..|b| - 1], b[|b| - 1]; b == rest + [last] && a + b == a + rest + [last]
  {
  }

  lemma SumOfThree<T>(a: seq<T>, b: seq<T>, c: seq<T>)
    ensures a + (b + c) == a + b + c
  {
  }

  lemma {:induction false} CollapseAround(a: seq<string>, line: string, b: seq<string>)
    requires line != ""
    ensures Collapse(a + [line] + b) == Collapse(a) + [line] + Collapse(b)
  {
    if b == [] {
      assert a + [line] + b == a + [line];
      CollapseLast(a, line);
    } else {
      var rest, last := b[..|b| - 1], b[|b| - 1];
      hide Collapse, EndsBlank;
      CollapseAround(a, line, rest);
      LastOfThree(a + [line], b);
      CollapseLast(rest, last);
      CollapseLast(a + [line] + rest, last);
      EndsAfter(a, line, rest);
      SumOfThree(Collapse(a) + [line], Collapse(rest), [last]);
    }
  }

  lemma EndsAfter(a: seq<string>, line: string, b: seq<string>)
    requires line != ""
    ensures EndsBlank(a + [line] + b) <==> EndsBlank(b)
  {
    if b != [] {
      AppendLast(a + [line], b);
    }
  }

  lemma {:induction false} CollapseTwice(a: seq<string>, b: seq<string>)
    ensures Collapse(Collapse(a) + b) == Collapse(a + b)
    decreases |a| + |b|, |b|
  {
    if b != [] {
      var rest, last := b[..|b| - 1], b[|b| - 1];
      CollapseTwice(a, rest);
      assert a + b == a + rest + [last] && Collapse(a) + b == Collapse(a) + rest + [last];
      CollapseEnds(a);
      hide Collapse;
      CollapseLast(a + rest, last);
      CollapseLast(Collapse(a) + rest, last);
      if rest != [] {
        AppendLast(a, rest);
        AppendLast(Collapse(a), rest);
      } else {
        assert a + rest == a && Collapse(a) + rest == Collapse(a);
      }
    } else if a != [] {
      var front, last := a[..|a| - 1], a[|a| - 1];
      CollapseTwice(front, []);
      assert front + [] == front && Collapse(front) + [] == Collapse(front);
      assert a == front + [last] && a + b == a && Collapse(a) + b == Collapse(a);
      CollapseEnds(front);
      hide Collapse;
      CollapseLast(front, last);
      CollapseLast(Collapse(front), last);
    } else {
      assert Collapse(a) + b == a + b;
    }
  }

  lemma NormalBlank(lines: seq<string>)
    ensures Normal(lines + [""]) == Normal(lines)
  {
    CollapseLast(lines, "");
    if !EndsBlank(lines) {
      assert (Collapse(lines) + [""])[..|Collapse(lines)|] == Collapse(lines);
    }
  }

  lemma NormalCollapsed(lines: seq<string>)
    ensures Normal(Collapse(lines)) == Normal(lines)
  {
    CollapseTwice(lines, []);
    assert lines + [] == lines && Collapse(lines) + [] == Collapse(lines);
  }

  // ----- a dump, and another one -----

  lemma MarkersShow()
    ensures KtHostsEscapeBegin() != "" && KtHostsEscapeEnd() != "" && !IsMarker("")
  {
  }

  lemma CollapseBlock(before: seq<string>, records: seq<string>)
    ensures Collapse(before + [""] + Block(records) + [""]) == Collapse(before + [""]) + Block(Collapse(records)) + [""]
  {
    var begin, end, front := KtHostsEscapeBegin(), KtHostsEscapeEnd(), before + [""];
    MarkersShow();
    Regroup(front, begin, records, end, [""]);
    Regroup(Collapse(front), begin, Collapse(records), end, [""]);
    assert Collapse([""]) == [""];
    hide KtHostsEscapeBegin, KtHostsEscapeEnd, Collapse;
    CollapseAround(front, begin, records + [end] + [""]);
    CollapseAround(records, end, [""]);
  }

  lemma Regroup<T>(a: seq<T>, x: T, b: seq<T>, y: T, c: seq<T>)
    ensures a + ([x] + b + [y]) + c == a + [x] + (b + [y] + c)
  {
  }

  lemma {:induction false} KeptElements(records: seq<string>, namespace: string, options: Options)
    ensures forall l | l in Kept(records, namespace, options) :: l in records && Keeps(l, namespace, options)
  {
    hide Keeps;
    if records != [] && namespace != "" {
      var n := |records| - 1;
      KeptElements(records[..n], namespace, options);
      LastOrBefore(Kept(records[..n], namespace, options), records[n]);
      LastOrBefore(records[..n], records[n]);
      assert records == records[..n] + [records[n]];
    }
  }

  lemma {:induction false} KeptOfConcat(a: seq<string>, b: seq<string>, namespace: string, options: Options)
    ensures Kept(a + b, namespace, options) == Kept(a, namespace, options) + Kept(b, namespace, options)
  {
    hide Keeps;
    if b == [] {
      assert a + b == a;
    } else {
      AppendLast(a, b);
      KeptOfConcat(a, b[..|b| - 1], namespace, options);
    }
  }

  lemma {:induction false} KeptAll(records: seq<string>, namespace: string, options: Options)
    requires namespace != "" && forall l | l in records :: Keeps(l, namespace, options)
    ensures Kept(records, namespace, options) == records
  {
    hide Keeps;
    if records != [] {
      var n := |records| - 1;
      assert records == records[..n] + [records[n]];
      KeptAll(records[..n], namespace, options);
    }
  }

  ghost predicate WellFormed(lines: seq<string>) {
    Unmarked(lines) || exists before, records, after :: HasBlock(lines, before, records, after)
  }

  /** Everything but the block. */
  function Outside(lines: seq<string>, options: Options): seq<string> {
    match Dropping(lines, "", options)
    case None => lines
    case Some(d) => d.rest
  }

  ghost predicate IsRest(lines: seq<string>, options: Options, rest: seq<string>, records: seq<string>) {
    && Unmarked(rest) && Unmarked(records)
    && (forall namespace ::
          Dropping(lines, namespace, options) == Some(Dropped(rest, Kept(records, namespace, options))))
    && (rest == lines || |rest| < |lines|)
  }

  lemma UnmarkedConcat(a: seq<string>, b: seq<string>)
    requires Unmarked(a) && Unmarked(b)
    ensures Unmarked(a + b)
  {
    hide IsMarker;
  }

  lemma UnmarkedCollapse(lines: seq<string>)
    requires Unmarked(lines)
    ensures Unmarked(Collapse(lines))
  {
    CollapseElements(lines);
    hide IsMarker;
  }

  lemma Opened(lines: seq<string>, options: Options) returns (rest: seq<string>, records: seq<string>)
    requires WellFormed(lines)
    ensures IsRest(lines, options, rest, records)
  {
    if Unmarked(lines) {
      rest, records := lines, [];
      forall namespace
        ensures Dropping(lines, namespace, options) == Some(Dropped(rest, Kept(records, namespace, options)))
      {
        DroppingPlain(lines, namespace, options);
      }
    } else {
      var before, records', after :| HasBlock(lines, before, records', after);
      hide Unmarked, Dropping, Kept;
      rest, records := before + after, records';
      UnmarkedConcat(before, after);
      assert |lines| == |rest| + |records| + 2;
      forall namespace
        ensures Dropping(lines, namespace, options) == Some(Dropped(rest, Kept(records, namespace, options)))
      {
        DroppingBlock(lines, before, records, after, namespace, options);
      }
    }
  }

  /** What a dump makes of any well-formed file: the other lines collapsed and ended with one blank line, then the
      block. */
  lemma DumpedBlock(lines: seq<string>, rest: seq<string>, before: seq<string>, records: seq<string>, namespace: string,
                    options: Options)
    requires IsRest(lines, options, rest, before) && Unmarked(records)
    ensures var block := Collapse(records + Kept(before, namespace, options));
            && AfterDump(lines, records, namespace, options) == Some(Collapse(rest + [""]) + Block(block) + [""])
            && HasBlock(Collapse(rest + [""]) + Block(block) + [""], Collapse(rest + [""]), block, [""])
  {
    var kept := Kept(before, namespace, options);
    CollapseBlock(rest, records + kept);
    MarkersShow();
    assert Unmarked([""]);
    UnmarkedConcat(rest, [""]);
    UnmarkedCollapse(rest + [""]);
    KeptElements(before, namespace, options);
    UnmarkedConcat(records, kept);
    UnmarkedCollapse(records + kept);
    assert Dropping(lines, namespace, options) == Some(Dropped(rest, kept));
  }
}
