/** The sidecar's Lua filter, as a second implementation of the merge. */
module BaggageLua {
  import opened Text
  import opened Baggage
  import opened BaggageLaws

  /** The non-empty pieces that string.gmatch finds for '([^,]+)'. */
  function GMatch(s: string): seq<string>
    decreases |s|
  {
    if s == "" then []
    else if s[0] == ',' then GMatch(s[1..])
    else
      var run := Before(s, ',');
      assert run == [s[0]] + Before(s[1..], ',');
      BeforeIsPrefix(s, ',');
      [run] + GMatch(s[|run|..])
  }

  predicate AllSpace(s: string) {
    forall c | c in s :: IsSpace(c)
  }

  /** The capture of "^%s*(.-)%s*$": behind the leading spaces, the shortest text that only spaces follow. */
  function LuaTrim(s: string): string {
    Shortest(TrimLeft(s))
  }

  function Shortest(s: string): string {
    if AllSpace(s) then "" else [s[0]] + Shortest(s[1..])
  }

  /** The capture of "^([^=]+)=". */
  function LuaKey(s: string): Option<string> {
    var key := Before(s, '=');
    if key != "" && |key| < |s| then Some(key) else None
  }

  lemma {:induction false} TrimRightOfSpace(s: string)
    requires AllSpace(s)
    ensures TrimRight(s) == ""
  {
    if s != "" {
      assert s[|s| - 1] in s;
      TrimRightOfSpace(s[..|s| - 1]);
    }
  }

  lemma {:induction false} TrimRightCons(c: char, s: string)
    ensures TrimRight([c] + s) == if TrimRight(s) == "" && IsSpace(c) then "" else [c] + TrimRight(s)
  {
    if s == "" {
      assert [c] + s == [c] && [c][..0] == "";
      assert [c] + TrimRight(s) == [c];
    } else {
      assert ([c] + s)[..|[c] + s| - 1] == [c] + s[..|s| - 1];
      if IsSpace(s[|s| - 1]) {
        TrimRightCons(c, s[..|s| - 1]);
      }
    }
  }

  lemma {:induction false} ShortestIsTrimRight(s: string)
    ensures Shortest(s) == TrimRight(s)
    ensures TrimRight(s) == "" <==> AllSpace(s)
  {
    if AllSpace(s) {
      TrimRightOfSpace(s);
    } else {
      assert s == [s[0]] + s[1..];
      ShortestIsTrimRight(s[1..]);
      TrimRightCons(s[0], s[1..]);
    }
  }

  lemma LuaTrimIsTrimSpace(s: string)
    ensures LuaTrim(s) == TrimSpace(s)
  {
    ShortestIsTrimRight(TrimLeft(s));
  }

  /** Lua keeps the same members as Go. */
  lemma SameLaneMember(s: string)
    ensures LuaKey(s).Some? && ToLower(LuaTrim(LuaKey(s).value)) == "lane" <==> IsLaneMember(s)
  {
    BeforeIsPrefix(s, '=');
    LuaTrimIsTrimSpace(Before(s, '='));
    assert TrimSpace("") == "" && ToLower("") == "";
    hide LuaTrim, TrimSpace, ToLower;
  }

  lemma NothingKept()
    ensures Kept([""]) == []
  {
    assert [""][..0] == [] && TrimSpace("") == "";
  }

  /** The first piece, and what follows its comma. */
  lemma FirstPiece(s: string) returns (run: string, rest: string)
    requires s != "" && s[0] != ','
    ensures |rest| < |s|
    ensures GMatch(s) == [run] + GMatch(rest)
    ensures Split(s, ',') == [run] + Split(rest, ',') || (rest == "" && Split(s, ',') == [run])
  {
    run := Before(s, ',');
    BeforeIsPrefix(s, ',');
    assert run == [s[0]] + Before(s[1..], ',');
    var tail := s[|run|..];
    if tail == "" {
      rest := "";
      assert run == s;
      SplitPlain(s, ',');
    } else {
      rest := tail[1..];
      assert GMatch(tail) == GMatch(rest);
      assert s == run + [','] + rest;
      hide Split;
      SplitCons(run, rest, ',');
    }
  }

  lemma {:induction false} SamePieces(s: string)
    ensures Kept(GMatch(s)) == Kept(Split(s, ','))
    decreases |s|
  {
    NothingKept();
    if s == "" {
      assert GMatch(s) == [] && Split(s, ',') == [""];
    } else if s[0] == ',' {
      SamePieces(s[1..]);
      assert GMatch(s) == GMatch(s[1..]) && Split(s, ',') == [""] + Split(s[1..], ',');
      hide Kept, GMatch, Split;
      KeptOfConcat([""], Split(s[1..], ','));
    } else {
      var run, rest := FirstPiece(s);
      assert GMatch("") == [];
      hide Kept, GMatch, Split;
      SamePieces(rest);
      KeptOfConcat([run], GMatch(rest));
      KeptOfConcat([run], Split(rest, ','));
      assert [run] + [] == [run];
    }
  }

  lemma LuaNext(pieces: seq<string>, i: nat)
    requires i < |pieces|
    ensures var trimmed := LuaTrim(pieces[i]);
            var key := LuaKey(trimmed);
            Kept(pieces[..i + 1]) ==
            Kept(pieces[..i]) +
            if trimmed == "" || (key.Some? && ToLower(LuaTrim(key.value)) == "lane") then [] else [trimmed]
  {
    KeptNext(pieces, i);
    LuaTrimIsTrimSpace(pieces[i]);
    SameLaneMember(LuaTrim(pieces[i]));
    hide Kept, LuaTrim, LuaKey, TrimSpace, ToLower, IsLaneMember;
  }

  // The lane is written into the program as a literal, by Go's %q, and read from it by LuaJIT.

  predicate IsAscii(s: string) {
    forall i | 0 <= i < |s| :: s[i] < 128 as char
  }

  /** The letter behind the backslash of a control character. */
  function EscapeLetter(c: char): Option<char> {
    match c as int
    case 7 => Some('a')
    case 8 => Some('b')
    case 9 => Some('t')
    case 10 => Some('n')
    case 11 => Some('v')
    case 12 => Some('f')
    case 13 => Some('r')
    case _ => None
  }

  function LetterMeaning(c: char): Option<char> {
    match c
    case 'a' => Some(7 as char)
    case 'b' => Some(8 as char)
    case 't' => Some(9 as char)
    case 'n' => Some(10 as char)
    case 'v' => Some(11 as char)
    case 'f' => Some(12 as char)
    case 'r' => Some(13 as char)
    case _ => None
  }

  function HexDigit(n: nat): char
    requires n < 16
  {
    if n < 10 then '0' + n as char else 'a' + (n - 10) as char
  }

  function HexValue(c: char): Option<nat> {
    if '0' <= c <= '9' then Some((c - '0') as nat)
    else if 'a' <= c <= 'f' then Some((c - 'a') as nat + 10)
    else None
  }

  function EscapedChar(c: char): string
    requires c < 128 as char
  {
    if c == '\"' || c == '\\' then ['\\', c]
    else if ' ' <= c <= '~' then [c]
    else if EscapeLetter(c).Some? then ['\\', EscapeLetter(c).value]
    else ['\\', 'x', HexDigit(c as nat / 16), HexDigit(c as nat % 16)]
  }

  function Escaped(s: string): string
    requires IsAscii(s)
  {
    if s == "" then "" else EscapedChar(s[0]) + Escaped(s[1..])
  }

  function Quoted(s: string): string
    requires IsAscii(s)
  {
    "\"" + Escaped(s) + "\""
  }

  function Prepended(c: char, s: Option<string>): Option<string> {
    if s.None? then None else Some([c] + s.value)
  }

  /** The inside of a Lua literal; None if it is malformed. */
  function Unescaped(s: string): Option<string> {
    if s == "" then Some("")
    else if s[0] == '\"' then None
    else if s[0] != '\\' then Prepended(s[0], Unescaped(s[1..]))
    else if |s| == 1 then None
    else if s[1] == '\"' || s[1] == '\\' then Prepended(s[1], Unescaped(s[2..]))
    else if LetterMeaning(s[1]).Some? then Prepended(LetterMeaning(s[1]).value, Unescaped(s[2..]))
    else if s[1] == 'x' && |s| >= 4 && HexValue(s[2]).Some? && HexValue(s[3]).Some?
    then Prepended((16 * HexValue(s[2]).value + HexValue(s[3]).value) as char, Unescaped(s[4..]))
    else None
  }

  function LuaString(literal: string): Option<string> {
    if |literal| >= 2 && literal[0] == '\"' && literal[|literal| - 1] == '\"'
    then Unescaped(literal[1..|literal| - 1]) else None
  }

  lemma OneCharacter(c: char, rest: string)
    requires c < 128 as char
    ensures Unescaped(EscapedChar(c) + rest) == Prepended(c, Unescaped(rest))
  {
    var s := EscapedChar(c) + rest;
    assert s[|EscapedChar(c)|..] == rest;
  }

  lemma {:induction false} UnescapedEscaped(s: string)
    requires IsAscii(s)
    ensures Unescaped(Escaped(s)) == Some(s)
  {
    if s != "" {
      assert s[0] in s;
      assert s == [s[0]] + s[1..];
      UnescapedEscaped(s[1..]);
      OneCharacter(s[0], Escaped(s[1..]));
    }
  }

  /** Lua reads every ASCII lane as it was given. */
  lemma LaneIsRead(lane: string)
    requires IsAscii(lane)
    ensures LuaString(Quoted(lane)) == Some(lane)
  {
    hide Escaped, Unescaped;
    UnescapedEscaped(lane);
    assert Quoted(lane)[1..|Quoted(lane)| - 1] == Escaped(lane);
  }

  /** The program with its lane; `baggage`: the one value of the header, or None if the request does not have it. */
  method LuaFilter(baggage: Option<string>, laneName: string) returns (header: string)
    requires IsAscii(laneName)
    ensures header == Merged(if baggage.Some? then [baggage.value] else [], laneName)
  {
    LaneIsRead(laneName);
    var lane := LuaString(Quoted(laneName)).value;
    if baggage.None? || baggage.value == "" {
      NoBaggage(baggage, lane);
      return "lane=" + lane;
    }
    var members := LuaMembers(GMatch(baggage.value));
    SamePieces(baggage.value);
    OneValue(baggage.value);
    Unfolded([baggage.value], lane);
    hide *;
    members := members + ["lane=" + lane];
    return Join(members, ',');
  }

  method LuaMembers(pieces: seq<string>) returns (members: seq<string>)
    ensures members == Kept(pieces)
  {
    members := [];
    assert Kept(pieces[..0]) == [];
    hide *;
    for i := 0 to |pieces|
      invariant members == Kept(pieces[..i])
    {
      LuaNext(pieces, i);
      var trimmed := LuaTrim(pieces[i]);
      var key := LuaKey(trimmed);
      if key.Some? {
        key := Some(ToLower(LuaTrim(key.value)));
      }
      if trimmed != "" && (key.None? || key.value != "lane") {
        members := members + [trimmed];
      }
    }
    assert pieces[..|pieces|] == pieces;
  }

  lemma NoBaggage(baggage: Option<string>, lane: string)
    requires baggage.None? || baggage.value == ""
    ensures Merged(if baggage.Some? then [baggage.value] else [], lane) == "lane=" + lane
  {
    if baggage.Some? {
      OneValue("");
      NothingKept();
    }
    assert [] + ["lane=" + lane] == ["lane=" + lane];
  }
}
