/** The lane in the W3C Baggage header: merged by the local proxy and, a second time and in Lua, by the sidecar. Header
    values are ASCII. */
module Baggage {
  import opened Text

  predicate IsSpace(c: char) {
    c == ' ' || '\t' <= c <= '\r'
  }

  function TrimLeft(s: string): string {
    if s != "" && IsSpace(s[0]) then TrimLeft(s[1..]) else s
  }

  function TrimRight(s: string): string {
    if s != "" && IsSpace(s[|s| - 1]) then TrimRight(s[..|s| - 1]) else s
  }

  function TrimSpace(s: string): string {
    TrimRight(TrimLeft(s))
  }

  function ToLower(s: string): string {
    if s == "" then "" else [if 'A' <= s[0] <= 'Z' then s[0] + 32 as char else s[0]] + ToLower(s[1..])
  }

  predicate IsLaneMember(member: string) {
    '=' in member && ToLower(TrimSpace(Before(member, '='))) == "lane"
  }

  /** The members that stay, trimmed. */
  function Kept(pieces: seq<string>): seq<string> {
    if pieces == [] then []
    else
      var n := |pieces| - 1;
      var member := TrimSpace(pieces[n]);
      Kept(pieces[..n]) + if member == "" || IsLaneMember(member) then [] else [member]
  }

  function Pieces(values: seq<string>): seq<string> {
    if values == [] then [] else Pieces(values[..|values| - 1]) + Split(values[|values| - 1], ',')
  }

  function Merged(values: seq<string>, lane: string): string {
    Join(Kept(Pieces(values)) + ["lane=" + lane], ',')
  }

  lemma KeptNext(pieces: seq<string>, i: nat)
    requires i < |pieces|
    ensures var member := TrimSpace(pieces[i]);
            Kept(pieces[..i + 1]) == Kept(pieces[..i]) + if member == "" || IsLaneMember(member) then [] else [member]
  {
    hide IsLaneMember, TrimSpace;
    assert pieces[..i + 1][..i] == pieces[..i];
  }

  lemma {:induction false} KeptOfConcat(a: seq<string>, b: seq<string>)
    ensures Kept(a + b) == Kept(a) + Kept(b)
  {
    hide IsLaneMember, TrimSpace;
    if b == [] {
      assert a + b == a;
    } else {
      var rest := b[..|b| - 1];
      assert (a + b)[..|a + b| - 1] == a + rest && (a + b)[|a + b| - 1] == b[|b| - 1];
      KeptOfConcat(a, rest);
    }
  }

  // ----- the proxy -----

  method IsLaneBaggageMember(member: string) returns (isLane: bool)
    ensures isLane <==> IsLaneMember(member)
  {
    var i := 0;
    while i < |member| && member[i] != '='
      invariant i <= |member| && '=' !in member[..i]
      invariant Before(member, '=') == member[..i] + Before(member[i..], '=')
    {
      i := i + 1;
    }
    if i == |member| {
      assert member[..i] == member;
      return false;
    }
    assert member[i] in member;
    assert member[..i] + "" == member[..i];
    return ToLower(TrimSpace(member[..i])) == "lane";
  }

  /** The inner loop, over the members of one value. */
  method AppendMembers(before: seq<string>, value: string) returns (members: seq<string>)
    ensures members == before + Kept(Split(value, ','))
  {
    members := before;
    var pieces := Split(value, ',');
    assert Kept(pieces[..0]) == [];
    hide *;
    for j := 0 to |pieces|
      invariant members == before + Kept(pieces[..j])
    {
      KeptNext(pieces, j);
      var member := TrimSpace(pieces[j]);
      var isLane := IsLaneBaggageMember(member);
      if member == "" || isLane {
        continue;
      }
      members := members + [member];
    }
    assert pieces[..|pieces|] == pieces;
  }

  lemma PiecesNext(values: seq<string>, i: nat)
    requires i < |values|
    ensures Pieces(values[..i + 1]) == Pieces(values[..i]) + Split(values[i], ',')
  {
    hide Split;
    assert values[..i + 1][..i] == values[..i];
  }

  method MergeBaggage(values: seq<string>, lane: string) returns (merged: string)
    ensures merged == Merged(values, lane)
  {
    var members: seq<string> := [];
    hide Kept, Pieces, Split, Join;
    assert members == Kept(Pieces(values[..0])) by {
      KeptOfNothing(values);
    }
    for i := 0 to |values|
      invariant members == Kept(Pieces(values[..i]))
    {
      members := AppendMembers(members, values[i]);
      PiecesNext(values, i);
      KeptOfConcat(Pieces(values[..i]), Split(values[i], ','));
    }
    assert values[..|values|] == values;
    members := members + ["lane=" + lane];
    return Join(members, ',');
  }

  lemma KeptOfNothing(values: seq<string>)
    ensures Kept(Pieces(values[..0])) == []
  {
  }
}
