/** Which domains an ingress host stands for, character by character. */
module DnsWildcard {
  import opened Text
  import opened DnsCache

  /** The pieces in order, with a gap of any text between each two. */
  function Interleaved(pieces: seq<string>, gaps: seq<string>): string
    requires |pieces| == |gaps| + 1
    decreases |gaps|
  {
    if gaps == [] then pieces[0] else pieces[0] + gaps[0] + Interleaved(pieces[1..], gaps[1..])
  }

  /** The text begins with the first piece, ends with the last, and has the others in between, in order and without
      overlap. */
  ghost predicate IsSpread(pieces: seq<string>, text: string) {
    exists gaps :: |pieces| == |gaps| + 1 && text == Interleaved(pieces, gaps)
  }

  lemma SpreadOfOne(piece: string, text: string)
    ensures IsSpread([piece], text) <==> text == piece
  {
    assert Interleaved([piece], []) == piece;
  }

  lemma StarInFront(pieces: seq<string>, gaps: seq<string>)
    requires |pieces| == |gaps| != 0
    ensures Interleaved([""] + pieces, gaps) == gaps[0] + Interleaved(pieces, gaps[1..])
  {
    assert ([""] + pieces)[1..] == pieces;
    assert "" + gaps[0] == gaps[0];
  }

  lemma NothingInGap(pieces: seq<string>, text: string)
    requires pieces != [] && IsSpread(pieces, text)
    ensures IsSpread([""] + pieces, text)
  {
    var gaps :| |pieces| == |gaps| + 1 && text == Interleaved(pieces, gaps);
    StarInFront(pieces, [""] + gaps);
    hide Interleaved;
    assert ([""] + gaps)[1..] == gaps;
    assert "" + text == text;
  }

  lemma OneMoreInGap(pieces: seq<string>, text: string)
    requires pieces != [] && text != "" && IsSpread([""] + pieces, text[1..])
    ensures IsSpread([""] + pieces, text)
  {
    var gaps :| |[""] + pieces| == |gaps| + 1 && text[1..] == Interleaved([""] + pieces, gaps);
    var more := [[text[0]] + gaps[0]] + gaps[1..];
    StarInFront(pieces, gaps);
    StarInFront(pieces, more);
    hide Interleaved;
    assert more[1..] == gaps[1..];
    assert text == [text[0]] + text[1..];
    assert [text[0]] + (gaps[0] + Interleaved(pieces, gaps[1..])) == more[0] + Interleaved(pieces, gaps[1..]);
  }

  lemma SomeInGap(pieces: seq<string>, text: string)
    requires pieces != [] && IsSpread([""] + pieces, text)
    ensures IsSpread(pieces, text) || (text != "" && IsSpread([""] + pieces, text[1..]))
  {
    var gaps :| |[""] + pieces| == |gaps| + 1 && text == Interleaved([""] + pieces, gaps);
    StarInFront(pieces, gaps);
    if gaps[0] == "" {
      assert "" + Interleaved(pieces, gaps[1..]) == text;
    } else {
      var less := [gaps[0][1..]] + gaps[1..];
      StarInFront(pieces, less);
      hide Interleaved;
      assert less[1..] == gaps[1..];
      assert text[1..] == gaps[0][1..] + Interleaved(pieces, gaps[1..]);
    }
  }

  /** A star in front takes nothing, or one character more. */
  lemma SpreadBehindStar(pieces: seq<string>, text: string)
    requires pieces != []
    ensures IsSpread([""] + pieces, text) <==>
            IsSpread(pieces, text) || (text != "" && IsSpread([""] + pieces, text[1..]))
  {
    hide IsSpread;
    if IsSpread([""] + pieces, text) {
      SomeInGap(pieces, text);
    }
    if IsSpread(pieces, text) {
      NothingInGap(pieces, text);
    }
    if text != "" && IsSpread([""] + pieces, text[1..]) {
      OneMoreInGap(pieces, text);
    }
  }

  /** Any other character in front stands for itself. */
  lemma SpreadBehindCharacter(c: char, pieces: seq<string>, text: string)
    requires pieces != []
    ensures IsSpread([[c] + pieces[0]] + pieces[1..], text) <==>
            text != "" && text[0] == c && IsSpread(pieces, text[1..])
  {
    var all := [[c] + pieces[0]] + pieces[1..];
    forall gaps | |pieces| == |gaps| + 1
      ensures Interleaved(all, gaps) == [c] + Interleaved(pieces, gaps)
    {
      CharacterInFront(c, pieces, gaps);
    }
    if text != "" && text[0] == c && IsSpread(pieces, text[1..]) {
      var gaps :| |pieces| == |gaps| + 1 && text[1..] == Interleaved(pieces, gaps);
      assert text == [c] + text[1..] == Interleaved(all, gaps);
    }
    if IsSpread(all, text) {
      var gaps :| |all| == |gaps| + 1 && text == Interleaved(all, gaps);
      assert text == [c] + Interleaved(pieces, gaps);
    }
  }

  lemma CharacterInFront(c: char, pieces: seq<string>, gaps: seq<string>)
    requires |pieces| == |gaps| + 1
    ensures Interleaved([[c] + pieces[0]] + pieces[1..], gaps) == [c] + Interleaved(pieces, gaps)
  {
    var all := [[c] + pieces[0]] + pieces[1..];
    if gaps != [] {
      assert all[1..] == pieces[1..];
      var rest := Interleaved(pieces[1..], gaps[1..]);
      assert [c] + pieces[0] + gaps[0] + rest == [c] + (pieces[0] + gaps[0] + rest);
    }
  }

  /** A pattern matches exactly the texts that have its pieces between the stars in order. */
  lemma {:induction false} GlobIsSpread(pattern: string, text: string)
    ensures GlobMatch(pattern, text) <==> IsSpread(Split(pattern, '*'), text)
    decreases |pattern| + |text|
  {
    hide IsSpread;
    if pattern == "" {
      SpreadOfOne("", text);
    } else {
      var rest := Split(pattern[1..], '*');
      SplitStep(pattern, '*');
      hide Split;
      GlobIsSpread(pattern[1..], text);
      if text != "" {
        GlobIsSpread(pattern[1..], text[1..]);
      }
      if pattern[0] == '*' {
        if text != "" {
          GlobIsSpread(pattern, text[1..]);
        }
        SpreadBehindStar(rest, text);
      } else {
        SpreadBehindCharacter(pattern[0], rest, text);
      }
    }
  }

  /** Domains are written with a final dot, hosts of an ingress without or with it. */
  function Dotted(host: string): string {
    if host != "" && host[|host| - 1] == '.' then host else host + "."
  }

  /** The domain is one that the host stands for. */
  ghost predicate IsOfHost(host: string, domain: string) {
    IsSpread(Split(Dotted(host), '*'), domain)
  }

  lemma WildcardIs(host: string, domain: string)
    ensures WildcardMatch(host, domain) <==> IsOfHost(host, domain)
  {
    var dotted := Dotted(host);
    GlobIsSpread(dotted, domain);
    assert HasSuffix(host, ".") <==> host != "" && host[|host| - 1] == '.';
    hide GlobMatch, IsSpread, Split;
    if '*' !in dotted {
      SplitPlain(dotted, '*');
      SpreadOfOne(dotted, domain);
    }
  }

  /** A host without a star stands for itself alone. */
  lemma PlainHost(host: string, domain: string)
    requires '*' !in host
    ensures IsOfHost(host, domain) <==> domain == Dotted(host)
  {
    hide IsSpread, Split;
    SplitPlain(Dotted(host), '*');
    SpreadOfOne(Dotted(host), domain);
  }

  /** A host that begins with its only star stands for all domains that end like it. */
  lemma StarHost(rest: string, domain: string)
    requires '*' !in rest
    ensures IsOfHost("*" + rest, domain) <==> HasSuffix(domain, if rest == "" then "." else Dotted(rest))
  {
    var tail := if rest == "" then "." else Dotted(rest);
    assert Dotted("*" + rest) == "*" + tail && '*' !in tail;
    StarSplits(tail);
    hide Split, IsSpread;
    SpreadOfSuffix(tail, domain);
  }

  lemma SpreadOfSuffix(tail: string, text: string)
    ensures IsSpread(["", tail], text) <==> HasSuffix(text, tail)
  {
    assert [""] + [tail] == ["", tail];
    if HasSuffix(text, tail) {
      var gap := text[..|text| - |tail|];
      StarInFront([tail], [gap]);
      assert [gap][1..] == [] && text == gap + tail;
    }
    if gaps :| |["", tail]| == |gaps| + 1 && text == Interleaved(["", tail], gaps) {
      StarInFront([tail], gaps);
      assert gaps[1..] == [];
    }
  }

  lemma StarSplits(tail: string)
    requires '*' !in tail
    ensures Split("*" + tail, '*') == ["", tail]
  {
    assert ("*" + tail)[1..] == tail;
    SplitStep("*" + tail, '*');
    SplitPlain(tail, '*');
    hide Split;
  }
}
