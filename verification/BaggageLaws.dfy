/** The merged header: its normal form, and a second merge. */
module BaggageLaws {
  import opened Text
  import opened Baggage

  // ----- trimming -----

  predicate Trimmed(s: string) {
    s == "" || (!IsSpace(s[0]) && !IsSpace(s[|s| - 1]))
  }

  lemma {:induction false} TrimLeftIsSuffix(s: string)
    ensures |TrimLeft(s)| <= |s| && TrimLeft(s) == s[|s| - |TrimLeft(s)|..]
    ensures TrimLeft(s) != "" ==> !IsSpace(TrimLeft(s)[0])
  {
    if s != "" && IsSpace(s[0]) {
      TrimLeftIsSuffix(s[1..]);
      assert s[1..][|s| - 1 - |TrimLeft(s)|..] == s[|s| - |TrimLeft(s)|..];
    }
  }

  lemma {:induction false} TrimRightIsPrefix(s: string)
    ensures TrimRight(s) <= s
    ensures TrimRight(s) != "" ==> !IsSpace(TrimRight(s)[|TrimRight(s)| - 1])
  {
    if s != "" && IsSpace(s[|s| - 1]) {
      TrimRightIsPrefix(s[..|s| - 1]);
    }
  }

  lemma TrimSpaceTrims(s: string)
    ensures Trimmed(TrimSpace(s))
    ensures forall c | c in TrimSpace(s) :: c in s
  {
    TrimLeftIsSuffix(s);
    TrimRightIsPrefix(TrimLeft(s));
  }

  lemma TrimSpaceStays(s: string)
    requires Trimmed(s)
    ensures TrimSpace(s) == s
  {
  }

  /** Trimming on the right does not see what is in front of the last character that is no space. */
  lemma {:induction false} TrimRightAfter(front: string, s: string)
    requires front != "" && !IsSpace(front[|front| - 1])
    ensures TrimRight(front + s) == front + TrimRight(s)
  {
    if s == "" {
      assert front + s == front;
    } else {
      assert (front + s)[..|front + s| - 1] == front + s[..|s| - 1];
      if IsSpace(s[|s| - 1]) {
        TrimRightAfter(front, s[..|s| - 1]);
      }
    }
  }

  // ----- the normal form -----

  /** A member as it stays: trimmed, not empty, not the lane, in one piece. */
  ghost predicate IsClean(member: string) {
    Trimmed(member) && member != "" && !IsLaneMember(member) && ',' !in member
  }

  ghost predicate AllClean(members: seq<string>) {
    forall m | m in members :: IsClean(m)
  }

  lemma {:induction false} KeptIsClean(pieces: seq<string>)
    requires forall p | p in pieces :: ',' !in p
    ensures AllClean(Kept(pieces))
  {
    if pieces != [] {
      var n := |pieces| - 1;
      assert pieces == pieces[..n] + [pieces[n]];
      KeptIsClean(pieces[..n]);
      TrimSpaceTrims(pieces[n]);
      hide IsLaneMember, TrimSpace;
      var member := TrimSpace(pieces[n]);
      assert forall m | m in Kept(pieces) ::
          m in Kept(pieces[..n]) || (m == member && member != "" && !IsLaneMember(member));
    }
  }

  lemma {:induction false} KeptOfClean(members: seq<string>)
    requires AllClean(members)
    ensures Kept(members) == members
  {
    if members != [] {
      var n := |members| - 1;
      assert members == members[..n] + [members[n]];
      KeptOfClean(members[..n]);
      assert members[n] in members;
      TrimSpaceStays(members[n]);
    }
  }

  lemma {:induction false} PiecesHaveNoComma(values: seq<string>)
    ensures forall p | p in Pieces(values) :: ',' !in p
  {
    if values != [] {
      PiecesHaveNoComma(values[..|values| - 1]);
    }
  }

  lemma {:induction false} SplitOfJoinLast(parts: seq<string>, last: string, sep: char)
    requires forall p | p in parts :: sep !in p
    ensures Split(Join(parts + [last], sep), sep) == parts + Split(last, sep)
  {
    if parts == [] {
      assert parts + [last] == [last];
      assert parts + Split(last, sep) == Split(last, sep);
    } else {
      var rest := parts[1..];
      assert (parts + [last])[1..] == rest + [last];
      assert forall p | p in rest :: p in parts;
      SplitOfJoinLast(rest, last, sep);
      assert parts[0] in parts;
      SplitCons(parts[0], Join(rest + [last], sep), sep);
      assert [parts[0]] + (rest + Split(last, sep)) == [parts[0]] + rest + Split(last, sep);
      assert [parts[0]] + rest == parts;
    }
  }

  /** The merged header splits into the members that stay, in order, and then the lane. */
  lemma NormalForm(values: seq<string>, lane: string)
    ensures Split(Merged(values, lane), ',') == Kept(Pieces(values)) + Split("lane=" + lane, ',')
    ensures ',' !in lane ==> Split(Merged(values, lane), ',') == Kept(Pieces(values)) + ["lane=" + lane]
    ensures AllClean(Kept(Pieces(values)))
  {
    PiecesHaveNoComma(values);
    KeptIsClean(Pieces(values));
    var members := Kept(Pieces(values));
    assert forall m | m in members :: IsClean(m) && ',' !in m;
    hide Split, Join, Kept, Pieces, IsClean;
    SplitOfJoinLast(members, "lane=" + lane, ',');
    if ',' !in lane {
      SplitPlain("lane=" + lane, ',');
    }
  }

  // ----- which members stay -----

  /** Blank, tab, line feed, vertical tab, form feed or carriage return. */
  predicate IsBlank(c: char) {
    c == ' ' || c == '\t' || c == '\n' || c == 11 as char || c == 12 as char || c == '\r'
  }

  predicate AreSpaces(s: string) {
    forall c | c in s :: IsBlank(c)
  }

  lemma BlankIsSpace(c: char)
    ensures IsSpace(c) <==> IsBlank(c)
  {
  }

  /** "lane", in any case. */
  predicate SaysLane(s: string) {
    |s| == 4 && s[0] in "lL" && s[1] in "aA" && s[2] in "nN" && s[3] in "eE"
  }

  lemma {:induction false} LowerAt(s: string, k: nat)
    requires k < |s|
    ensures |ToLower(s)| == |s|
    ensures ToLower(s)[k] == if 'A' <= s[k] <= 'Z' then s[k] + 32 as char else s[k]
  {
    if k > 0 {
      LowerAt(s[1..], k - 1);
    } else if |s| > 1 {
      LowerAt(s[1..], 0);
    }
  }

  lemma LowerIsLaneIff(s: string)
    ensures ToLower(s) == "lane" <==> SaysLane(s)
  {
    var lower := ToLower(s);
    assert ToLower("") == "";
    forall k | 0 <= k < |s|
      ensures |lower| == |s|
      ensures lower[k] == if 'A' <= s[k] <= 'Z' then s[k] + 32 as char else s[k]
    {
      LowerAt(s, k);
    }
    hide ToLower;
    if |s| == 4 {
      assert lower == [lower[0], lower[1], lower[2], lower[3]];
    }
  }

  lemma Regroup(a: string, b: string, c: string)
    ensures a + b + c == a + (b + c)
  {
  }

  lemma {:induction false} TrimLeftCuts(s: string) returns (front: string)
    ensures s == front + TrimLeft(s) && AreSpaces(front)
  {
    if s != "" && IsSpace(s[0]) {
      BlankIsSpace(s[0]);
      var more := TrimLeftCuts(s[1..]);
      front := [s[0]] + more;
      hide TrimLeft, IsBlank;
      assert s == [s[0]] + s[1..];
      Regroup([s[0]], more, TrimLeft(s));
    } else {
      front := "";
    }
  }

  lemma {:induction false} TrimRightCuts(s: string) returns (back: string)
    ensures s == TrimRight(s) + back && AreSpaces(back)
  {
    if s != "" && IsSpace(s[|s| - 1]) {
      var n := |s| - 1;
      BlankIsSpace(s[n]);
      var more := TrimRightCuts(s[..n]);
      back := more + [s[n]];
      hide TrimRight, IsBlank;
      assert s == s[..n] + [s[n]];
      Regroup(TrimRight(s), more, [s[n]]);
    } else {
      back := "";
    }
  }

  lemma {:induction false} TrimLeftOfSpaces(front: string, s: string)
    requires AreSpaces(front) && (s != "" ==> !IsSpace(s[0]))
    ensures TrimLeft(front + s) == s
  {
    if front == "" {
      assert front + s == s;
    } else {
      assert front[0] in front && (front + s)[1..] == front[1..] + s;
      assert forall c | c in front[1..] :: c in front;
      TrimLeftOfSpaces(front[1..], s);
    }
  }

  lemma {:induction false} TrimRightOfSpaces(s: string, back: string)
    requires AreSpaces(back) && (s != "" ==> !IsSpace(s[|s| - 1]))
    ensures TrimRight(s + back) == s
  {
    if back == "" {
      assert s + back == s;
    } else {
      var n := |back| - 1;
      assert back[n] in back && (s + back)[..|s| + n] == s + back[..n];
      assert forall c | c in back[..n] :: c in back;
      TrimRightOfSpaces(s, back[..n]);
    }
  }

  /** The member is the text in between, up to spaces around it. */
  lemma TrimSpaceIs(s: string, text: string)
    requires Trimmed(text)
    ensures TrimSpace(s) == text <==>
            exists front, back :: s == front + text + back && AreSpaces(front) && AreSpaces(back)
  {
    hide AreSpaces, IsSpace;
    var front := TrimLeftCuts(s);
    var back := TrimRightCuts(TrimLeft(s));
    assert s == front + TrimSpace(s) + back;
    if front, back :| s == front + text + back && AreSpaces(front) && AreSpaces(back) {
      SpacesAround(front, text, back);
    }
  }

  lemma SpacesAround(front: string, text: string, back: string)
    requires Trimmed(text) && AreSpaces(front) && AreSpaces(back)
    ensures TrimSpace(front + text + back) == text
  {
    if text == "" {
      assert front + text + back == (front + back) + "" && AreSpaces(front + back);
      TrimLeftOfSpaces(front + back, "");
    } else {
      assert front + text + back == front + (text + back);
      TrimLeftOfSpaces(front, text + back);
      TrimRightOfSpaces(text, back);
    }
  }

  /** A member is the lane exactly if it is the word in any case, with any spaces around it, and a value behind. */
  ghost predicate IsLane(member: string) {
    exists front, key, back, value ::
      member == front + key + back + "=" + value && AreSpaces(front) && SaysLane(key) && AreSpaces(back)
  }

  lemma LaneMemberIs(member: string)
    ensures IsLaneMember(member) <==> IsLane(member)
  {
    BeforeIsPrefix(member, '=');
    var name := Before(member, '=');
    hide Before, TrimSpace, AreSpaces, SaysLane;
    if IsLaneMember(member) {
      var key := TrimSpace(name);
      LowerIsLaneIff(key);
      SaysLaneIsTrimmed(key);
      TrimSpaceIs(name, key);
      var front, back :| name == front + key + back && AreSpaces(front) && AreSpaces(back);
      var value := member[|name| + 1..];
      assert member == front + key + back + "=" + value;
    }
    if IsLane(member) {
      var front, key, back, value :|
        member == front + key + back + "=" + value && AreSpaces(front) && SaysLane(key) && AreSpaces(back);
      NameOfLane(front, key, back, value);
      LowerIsLaneIff(key);
      SaysLaneIsTrimmed(key);
      TrimSpaceIs(name, key);
      assert member[|front + key + back|] == '=';
    }
  }

  lemma SaysLaneIsTrimmed(key: string)
    requires SaysLane(key)
    ensures Trimmed(key) && '=' !in key
  {
  }

  lemma NameOfLane(front: string, key: string, back: string, value: string)
    requires AreSpaces(front) && SaysLane(key) && AreSpaces(back)
    ensures Before(front + key + back + "=" + value, '=') == front + key + back
  {
    SaysLaneIsTrimmed(key);
    assert '=' !in front && '=' !in back;
    assert "=" == ['='];
    BeforeFirst(front + key + back, value, '=');
  }

  /** The member of a piece, if it is one that stays. */
  ghost predicate Stays(piece: string, member: string) {
    && member != "" && Trimmed(member) && !IsLane(member)
    && exists front, back :: piece == front + member + back && AreSpaces(front) && AreSpaces(back)
  }

  lemma StaysIff(piece: string, member: string)
    ensures Stays(piece, member) <==> TrimSpace(piece) == member && member != "" && !IsLaneMember(member)
  {
    LaneMemberIs(member);
    TrimSpaceTrims(piece);
    hide TrimSpace, IsLaneMember, IsLane, AreSpaces;
    if Trimmed(member) {
      TrimSpaceIs(piece, member);
    }
  }

  /** Which piece each member comes from. */
  ghost predicate AreFrom(members: seq<string>, pieces: seq<string>, at: seq<nat>) {
    && |at| == |members| && (forall i, j | 0 <= i < j < |at| :: at[i] < at[j])
    && (forall i | 0 <= i < |at| :: at[i] < |pieces| && Stays(pieces[at[i]], members[i]))
    && (forall k, member | 0 <= k < |pieces| && k !in at :: !Stays(pieces[k], member))
  }

  /** The members that stay are those of the pieces, in their order; the other pieces have none. */
  lemma {:induction false} KeptAreFrom(pieces: seq<string>) returns (at: seq<nat>)
    ensures AreFrom(Kept(pieces), pieces, at)
  {
    if pieces == [] {
      at := [];
    } else {
      var n := |pieces| - 1;
      at := KeptAreFrom(pieces[..n]);
      var member := TrimSpace(pieces[n]);
      hide Stays, IsLaneMember, TrimSpace;
      forall other
        ensures Stays(pieces[n], other) <==> other == member && member != "" && !IsLaneMember(member)
      {
        StaysIff(pieces[n], other);
      }
      FromOneMore(Kept(pieces[..n]), pieces[..n], at, pieces[n], member);
      assert pieces[..n] + [pieces[n]] == pieces;
      if member != "" && !IsLaneMember(member) {
        at := at + [n];
      } else {
        assert Kept(pieces[..n]) + [] == Kept(pieces[..n]);
      }
    }
  }

  lemma FromOneMore(members: seq<string>, pieces: seq<string>, at: seq<nat>, piece: string, member: string)
    requires AreFrom(members, pieces, at)
    ensures Stays(piece, member) ==> AreFrom(members + [member], pieces + [piece], at + [|pieces|])
    ensures (forall other :: !Stays(piece, other)) ==> AreFrom(members, pieces + [piece], at)
  {
    hide Stays;
    var n := |pieces|;
    forall k | 0 <= k < n
      ensures (pieces + [piece])[k] == pieces[k] && (k in at + [n] <==> k in at)
    {
    }
    assert n in at + [n];
  }

  // ----- a second merge -----

  lemma {:induction false} SplitPrefix(front: string, s: string, sep: char)
    requires sep !in front
    ensures Split(front + s, sep) == [front + Split(s, sep)[0]] + Split(s, sep)[1..]
  {
    hide Split, Join;
    if front == "" {
      var parts := Split(s, sep);
      assert front + s == s && front + parts[0] == parts[0] && [parts[0]] + parts[1..] == parts;
    } else {
      assert (front + s)[1..] == front[1..] + s && front[0] in front;
      SplitPrefix(front[1..], s, sep);
      SplitStep(front + s, sep);
      var parts := Split(s, sep);
      FirstExtended(front[0], front[1..] + parts[0], parts[1..]);
      Regroup([front[0]], front[1..], parts[0]);
      assert [front[0]] + front[1..] == front;
    }
  }

  lemma LowerLane()
    ensures ToLower(TrimSpace("lane")) == "lane"
  {
    TrimSpaceStays("lane");
    assert "lane"[1..] == "ane" && "ane"[1..] == "ne" && "ne"[1..] == "e" && "e"[1..] == "";
    assert ToLower("e") == "e" && ToLower("ne") == "ne" && ToLower("ane") == "ane";
  }

  /** A piece that begins with "lane=" does not stay. */
  lemma LaneGoes(lane: string)
    ensures Kept(["lane=" + lane]) == []
  {
    var piece, member := "lane=" + lane, "lane=" + TrimRight(lane);
    assert TrimSpace(piece) == member by {
      TrimRightAfter("lane=", lane);
      assert TrimLeft(piece) == piece;
    }
    hide TrimSpace, ToLower;
    BeforeFirst("lane", TrimRight(lane), '=');
    assert member == "lane" + "=" + TrimRight(lane) && member[4] == '=';
    LowerLane();
    assert IsLaneMember(member);
    hide IsLaneMember;
    KeptNext([piece], 0);
    assert [piece][..1] == [piece] && [piece][..0] == [];
  }

  lemma PiecesOfMerged(values: seq<string>, lane: string)
    ensures Pieces([Merged(values, lane)])
            == Kept(Pieces(values)) + (["lane=" + Split(lane, ',')[0]] + Split(lane, ',')[1..])
  {
    NormalForm(values, lane);
    hide Split, Pieces, Merged, Kept;
    SplitPrefix("lane=", lane, ',');
    OneValue(Merged(values, lane));
  }

  lemma KeptBehind(members: seq<string>, gone: seq<string>, rest: seq<string>)
    requires AllClean(members) && Kept(gone) == []
    ensures Kept(members + (gone + rest)) == members + Kept(rest)
  {
    hide Kept, AllClean;
    KeptOfClean(members);
    KeptOfConcat(members, gone + rest);
    KeptOfConcat(gone, rest);
  }

  /** Merging again: the members that stayed stay, the old lane goes, but for what follows a comma in it. */
  lemma MergedTwice(values: seq<string>, first: string, second: string)
    ensures Merged([Merged(values, first)], second)
            == Join(Kept(Pieces(values)) + Kept(Split(first, ',')[1..]) + ["lane=" + second], ',')
  {
    assert AllClean(Kept(Pieces(values))) by {
      NormalForm(values, first);
    }
    hide Split, Join, Kept, Pieces, Merged, AllClean;
    var lane := Split(first, ',');
    LaneGoes(lane[0]);
    PiecesOfMerged(values, first);
    KeptBehind(Kept(Pieces(values)), ["lane=" + lane[0]], lane[1..]);
    Unfolded([Merged(values, first)], second);
  }

  lemma Unfolded(values: seq<string>, lane: string)
    ensures Merged(values, lane) == Join(Kept(Pieces(values)) + ["lane=" + lane], ',')
  {
  }

  lemma OneValue(value: string)
    ensures Pieces([value]) == Split(value, ',')
  {
    assert [value][..0] == [] && Pieces([]) == [];
    assert [] + Split(value, ',') == Split(value, ',');
  }

  /** The last merge decides exactly if the lane before it was not followed, after a comma, by members of its own: then
      merging again with another lane replaces the lane, and with the same lane changes nothing. */
  lemma LastMergeDecidesIff(values: seq<string>, first: string, second: string)
    ensures Merged([Merged(values, first)], second) == Merged(values, second) <==> Kept(Split(first, ',')[1..]) == []
  {
    MergedTwice(values, first, second);
    NormalForm(values, second);
    var members, more, lane := Kept(Pieces(values)), Kept(Split(first, ',')[1..]), "lane=" + second;
    KeptIsClean(Split(first, ',')[1..]);
    assert forall m | m in members + more :: IsClean(m) && ',' !in m;
    hide Split, Join, Kept, Pieces, IsClean;
    SplitOfJoinLast(members + more, lane, ',');
    if more == [] {
      assert members + more == members;
    } else {
      assert |members + more + Split(lane, ',')| > |members + Split(lane, ',')|;
    }
  }

  /** In particular for a lane name, which has no comma. */
  lemma LastMergeDecides(values: seq<string>, first: string, second: string)
    requires ',' !in first
    ensures Merged([Merged(values, first)], second) == Merged(values, second)
    ensures Merged([Merged(values, first)], first) == Merged(values, first)
  {
    SplitPlain(first, ',');
    LastMergeDecidesIff(values, first, second);
    LastMergeDecidesIff(values, first, first);
    assert Split(first, ',')[1..] == [];
  }

  /** Several header lines mean the same as one line with their values joined. */
  lemma {:induction false} LinesAreOneLine(values: seq<string>)
    requires values != []
    ensures Kept(Pieces([Join(values, ',')])) == Kept(Pieces(values))
  {
    OneValue(Join(values, ','));
    if |values| == 1 {
      OneValue(values[0]);
      assert values == [values[0]];
    } else {
      PiecesFromFront(values);
      LinesAreOneLine(values[1..]);
      OneValue(Join(values[1..], ','));
      SplitConcat(values[0], Join(values[1..], ','), ',');
      hide Kept, Pieces, Split, Join;
      KeptOfConcat(Split(values[0], ','), Pieces(values[1..]));
      KeptOfConcat(Split(values[0], ','), Split(Join(values[1..], ','), ','));
    }
  }

  lemma PiecesLast(values: seq<string>)
    requires values != []
    ensures var n := |values| - 1; Pieces(values) == Pieces(values[..n]) + Split(values[n], ',')
  {
    hide Split;
  }

  lemma FrontOfTail<T>(values: seq<T>)
    requires |values| >= 2
    ensures var n := |values| - 1;
            && values[..n][1..] == values[1..n] == values[1..][..|values[1..]| - 1]
            && values[..n][0] == values[0] && values[1..][|values[1..]| - 1] == values[n]
  {
  }

  lemma SumOfThree<T>(a: seq<T>, b: seq<T>, c: seq<T>)
    ensures a + (b + c) == a + b + c
  {
  }

  lemma {:induction false} PiecesFromFront(values: seq<string>)
    requires values != []
    ensures Pieces(values) == Split(values[0], ',') + Pieces(values[1..])
  {
    hide Split;
    var n := |values| - 1;
    if n > 0 {
      PiecesFromFront(values[..n]);
      PiecesLast(values);
      PiecesLast(values[1..]);
      hide Pieces;
      FrontOfTail(values);
      SumOfThree(Split(values[0], ','), Pieces(values[1..n]), Split(values[n], ','));
    } else {
      assert values[..0] == [] && values[1..] == [];
    }
  }
}
