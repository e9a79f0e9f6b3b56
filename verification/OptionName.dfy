/** Names of configuration items: a field name printed with dashes, and found again. Names are ASCII. */
module OptionName {
  import opened Text

  predicate IsUpper(c: char) {
    'A' <= c <= 'Z'
  }

  predicate IsLower(c: char) {
    'a' <= c <= 'z'
  }

  function UpperOf(c: char): char {
    if IsLower(c) then c - 32 as char else c
  }

  function LowerOf(c: char): char {
    if IsUpper(c) then c + 32 as char else c
  }

  function Lowered(s: string): string {
    if s == "" then "" else [LowerOf(s[0])] + Lowered(s[1..])
  }

  /** Replacing `([^-])([A-Z])` by `$1-$2`: matches are taken from the left and do not overlap. */
  function Pass(s: string): string {
    if |s| < 2 then s
    else if s[0] != '-' && IsUpper(s[1]) then [s[0], '-', s[1]] + Pass(s[2..])
    else [s[0]] + Pass(s[1..])
  }

  function DashSeparated(word: string): string {
    Lowered(Pass(Pass(word)))
  }

  /** A character in upper case after a dash, in lower case elsewhere; the dashes go. `prev` is in front of the text. */
  function CapitalizedAfter(prev: char, s: string): string
    decreases s
  {
    if s == "" then "" else Shown(Mapped(prev, s[0])) + CapitalizedAfter(s[0], s[1..])
  }

  function Mapped(prev: char, c: char): char {
    if prev == '-' then UpperOf(c) else LowerOf(c)
  }

  function Shown(c: char): string {
    if c == '-' then "" else [c]
  }

  function Capitalized(word: string): string {
    CapitalizedAfter('-', word)
  }

  function WithoutDashes(s: string): string {
    if s == "" then ""
    else WithoutDashes(s[..|s| - 1]) + Shown(s[|s| - 1])
  }

  lemma CapitalizedNext(word: string, i: nat, prev: char, capitalized: string)
    requires i < |word|
    ensures var mapped := Mapped(prev, word[i]);
            WithoutDashes(capitalized + [mapped]) + CapitalizedAfter(word[i], word[i + 1..])
            == WithoutDashes(capitalized) + CapitalizedAfter(prev, word[i..])
  {
    hide Mapped, Shown;
    var mapped := Mapped(prev, word[i]);
    assert (capitalized + [mapped])[..|capitalized|] == capitalized;
    assert word[i..][1..] == word[i + 1..];
    var a, b, c := WithoutDashes(capitalized), Shown(mapped), CapitalizedAfter(word[i], word[i + 1..]);
    assert a + b + c == a + (b + c);
  }

  method Capitalize(word: string) returns (name: string)
    ensures name == Capitalized(word)
  {
    var prev := '-';
    var capitalized := "";
    hide UpperOf, LowerOf, CapitalizedAfter, WithoutDashes;
    StartsEmpty(word);
    for i := 0 to |word|
      invariant prev == if i == 0 then '-' else word[i - 1]
      invariant Capitalized(word) == WithoutDashes(capitalized) + CapitalizedAfter(prev, word[i..])
    {
      var r := word[i];
      var mapped := if prev == '-' then UpperOf(r) else LowerOf(r);
      CapitalizedNext(word, i, prev, capitalized);
      prev := r;
      capitalized := capitalized + [mapped];
    }
    name := ReplaceDashes(capitalized);
    assert word[|word|..] == "" && name + "" == name;
  }

  lemma StartsEmpty(word: string)
    ensures WithoutDashes("") == "" && Capitalized(word) == "" + CapitalizedAfter('-', word[0..])
    ensures forall prev: char :: CapitalizedAfter(prev, "") == ""
  {
    assert word[0..] == word;
    assert "" + CapitalizedAfter('-', word) == CapitalizedAfter('-', word);
  }

  method ReplaceDashes(s: string) returns (r: string)
    ensures r == WithoutDashes(s)
  {
    r := "";
    for i := 0 to |s|
      invariant r == WithoutDashes(s[..i])
    {
      assert s[..i + 1][..i] == s[..i];
      if s[i] != '-' {
        r := r + [s[i]];
      }
    }
    assert s[..|s|] == s;
  }

  // ----- two passes are enough -----

  /** A dash in front of every capital that follows something else than a dash. */
  function Dashed(s: string): string {
    if |s| < 2 then s
    else [s[0]] + (if s[0] != '-' && IsUpper(s[1]) then "-" else "") + Dashed(s[1..])
  }

  lemma PassOfCons(c: char, s: string)
    ensures s == "" ==> Pass([c] + s) == [c]
    ensures s != "" ==> Pass([c] + s) ==
                        if c != '-' && IsUpper(s[0]) then [c, '-', s[0]] + Pass(s[1..]) else [c] + Pass(s)
  {
    if s != "" {
      assert ([c] + s)[1..] == s && ([c] + s)[2..] == s[1..];
    }
  }

  lemma PassKeepsHead(s: string)
    ensures s != "" ==> Pass(s) != "" && Pass(s)[0] == s[0]
    ensures s == "" ==> Pass(s) == ""
  {
  }

  lemma Regrouped(a: char, b: char, c: char, s: string)
    ensures [a, b, c] + s == [a] + [b] + ([c] + s) && [a] + "" + s == [a] + s
  {
  }

  /** The second pass, over a text whose first pass began at its second character. */
  lemma {:induction false} PassBehindHead(s: string)
    requires s != ""
    ensures Pass([s[0]] + Pass(s[1..])) == Dashed(s)
    decreases |s|, 0
  {
    var t := s[1..];
    PassOfCons(s[0], Pass(t));
    PassKeepsHead(t);
    if t != "" {
      DashedFirst(s);
      if s[0] != '-' && IsUpper(t[0]) {
        PassBehindCapital(t);
        hide Pass, Dashed;
        Regrouped(s[0], '-', t[0], Pass(Pass(t)[1..]));
      } else {
        TwoPasses(t);
        hide Pass, Dashed;
        Regrouped(s[0], '-', t[0], Dashed(t));
      }
    }
  }

  lemma DashedFirst(s: string)
    requires |s| >= 2
    ensures Dashed(s) == [s[0]] + (if s[0] != '-' && IsUpper(s[1]) then ['-'] else "") + Dashed(s[1..])
  {
    assert "-" == ['-'];
  }

  lemma {:induction false} PassBehindCapital(s: string)
    requires s != "" && IsUpper(s[0])
    ensures Pass(s) != "" && [s[0]] + Pass(Pass(s)[1..]) == Dashed(s)
    decreases |s|, 0
  {
    if |s| >= 2 {
      var t := s[1..];
      if IsUpper(s[1]) {
        assert Pass(s)[1..] == ['-'] + ([t[0]] + Pass(t[1..])) && s[2..] == t[1..];
        PassOfCons('-', [t[0]] + Pass(t[1..]));
        PassBehindHead(t);
      } else {
        assert Pass(s)[1..] == Pass(t);
        TwoPasses(t);
      }
    }
  }

  lemma PassOfMatch(s: string)
    requires |s| >= 2 && s[0] != '-' && IsUpper(s[1])
    ensures Pass(s) == [s[0]] + (['-'] + ([s[1]] + Pass(s[1..][1..])))
  {
    assert s[1..][1..] == s[2..];
    MatchedPass(s);
    hide Pass;
    Regrouped(s[0], '-', s[1], Pass(s[2..]));
    InSequence(s[0], '-', "", [s[1]] + Pass(s[2..]));
  }

  lemma MatchedPass(s: string)
    requires |s| >= 2 && s[0] != '-' && IsUpper(s[1])
    ensures Pass(s) == [s[0], '-', s[1]] + Pass(s[2..])
  {
  }

  lemma PassOfOther(s: string)
    requires |s| >= 2 && !(s[0] != '-' && IsUpper(s[1]))
    ensures Pass(s) == [s[0]] + Pass(s[1..])
  {
  }

  /** Two passes put a dash in front of every such capital, although one pass leaves out every second one of a row. */
  lemma {:induction false} TwoPasses(s: string)
    ensures Pass(Pass(s)) == Dashed(s)
    decreases |s|, 1
  {
    if |s| >= 2 {
      var t := s[1..];
      if s[0] != '-' && IsUpper(s[1]) {
        var rest := [t[0]] + Pass(t[1..]);
        DashedFirst(s);
        PassOfMatch(s);
        hide Pass, Dashed;
        PassOfCons(s[0], ['-'] + rest);
        PassOfCons('-', rest);
        PassBehindHead(t);
        InSequence(s[0], '-', rest, Dashed(t));
      } else {
        PassOfOther(s);
        hide Pass, Dashed;
        PassBehindHead(s);
      }
    }
  }

  lemma InSequence(a: char, b: char, rest: string, s: string)
    ensures [a] + ([b] + s) == [a] + [b] + s && ([b] + rest)[0] == b && ([b] + rest)[1..] == rest
  {
  }

  /** So a third one changes nothing. */
  lemma {:induction false} PassOfDashed(s: string)
    ensures Pass(Dashed(s)) == Dashed(s)
  {
    if |s| >= 2 {
      PassOfDashed(s[1..]);
      DashedKeepsHead(s[1..]);
      if s[0] != '-' && IsUpper(s[1]) {
        assert Dashed(s) == [s[0]] + (['-'] + Dashed(s[1..]));
        PassOfCons(s[0], ['-'] + Dashed(s[1..]));
        PassOfCons('-', Dashed(s[1..]));
      } else {
        assert Dashed(s) == [s[0]] + Dashed(s[1..]);
        PassOfCons(s[0], Dashed(s[1..]));
      }
    }
  }

  lemma DashedKeepsHead(s: string)
    ensures s != "" ==> Dashed(s) != "" && Dashed(s)[0] == s[0]
  {
  }

  // ----- there and back -----

  lemma LoweredConcat(c: char, s: string)
    ensures Lowered([c] + s) == [LowerOf(c)] + Lowered(s)
  {
    assert ([c] + s)[1..] == s;
  }

  lemma CapitalizedCons(prev: char, c: char, s: string)
    ensures CapitalizedAfter(prev, [c] + s) == Shown(Mapped(prev, c)) + CapitalizedAfter(c, s)
  {
    assert ([c] + s)[1..] == s;
  }

  /** One letter in front of a text that begins with a capital, or that does not. */
  lemma CapitalizedStep(prev: char, c: char, rest: string, dash: bool)
    ensures CapitalizedAfter(prev, Lowered([c] + (if dash then ['-'] else "") + rest)) ==
            Shown(Mapped(prev, LowerOf(c))) + CapitalizedAfter(if dash then '-' else LowerOf(c), Lowered(rest))
  {
    var lower := LowerOf(c);
    if dash {
      assert [c] + ['-'] + rest == [c] + (['-'] + rest);
      LoweredConcat(c, ['-'] + rest);
      LoweredConcat('-', rest);
      CapitalizedCons(prev, lower, ['-'] + Lowered(rest));
      CapitalizedCons(lower, '-', Lowered(rest));
      assert "" + CapitalizedAfter('-', Lowered(rest)) == CapitalizedAfter('-', Lowered(rest));
    } else {
      assert [c] + "" + rest == [c] + rest;
      LoweredConcat(c, rest);
      CapitalizedCons(prev, lower, Lowered(rest));
    }
  }

  lemma {:induction false} CapitalizedDashed(prev: char, s: string)
    requires s != "" && '-' !in s
    ensures CapitalizedAfter(prev, Lowered(Dashed(s))) == [Mapped(prev, s[0])] + s[1..]
    decreases s
  {
    var c := LowerOf(s[0]);
    assert s[0] in s && c != '-' && Mapped(prev, c) == Mapped(prev, s[0]) != '-';
    var t := s[1..];
    if t == "" {
      assert s == [s[0]] && Dashed(s) == s && [s[0]] + "" + "" == s;
      CapitalizedStep(prev, s[0], "", false);
    } else {
      assert '-' !in t && t[0] in t;
      var after := if IsUpper(t[0]) then '-' else c;
      assert Mapped(after, t[0]) == t[0] && [t[0]] + t[1..] == t;
      DashedFirst(s);
      CapitalizedDashed(after, t);
      hide Dashed, Lowered, CapitalizedAfter;
      CapitalizedStep(prev, s[0], Dashed(t), IsUpper(t[0]));
    }
  }

  lemma {:induction false} CapitalizedHasNoDash(prev: char, s: string)
    ensures '-' !in CapitalizedAfter(prev, s)
    decreases s
  {
    if s != "" {
      CapitalizedHasNoDash(s[0], s[1..]);
    }
  }

  /** A name comes back exactly if it has no dash and does not begin with a small letter. */
  lemma RoundTripIff(word: string)
    ensures Capitalized(DashSeparated(word)) == word <==> '-' !in word && (word != "" ==> !IsLower(word[0]))
  {
    TwoPasses(word);
    CapitalizedHasNoDash('-', DashSeparated(word));
    if word != "" && '-' !in word {
      CapitalizedDashed('-', word);
      assert word == [word[0]] + word[1..];
    }
  }

  lemma {:induction false} LoweredIsLower(s: string)
    ensures forall c | c in Lowered(s) :: !IsUpper(c)
  {
    if s != "" {
      LoweredIsLower(s[1..]);
    }
  }

  /** What is printed has no capital letter, whatever the name. */
  lemma PrintedIsLower(word: string)
    ensures forall c | c in DashSeparated(word) :: !IsUpper(c)
  {
    LoweredIsLower(Pass(Pass(word)));
  }

  // ----- the words of a name -----

  /** Begins with a small letter, and has neither a capital nor a dash. */
  predicate IsWord(word: string) {
    word != "" && IsLower(word[0]) && AreSmall(word)
  }

  predicate AreSmall(s: string) {
    forall c | c in s :: c != '-' && !IsUpper(c)
  }

  function Titled(word: string): string {
    if word == "" then "" else [UpperOf(word[0])] + word[1..]
  }

  /** The words one behind the other, each with a capital. */
  function Name(words: seq<string>): string {
    if words == [] then "" else Titled(words[0]) + Name(words[1..])
  }

  lemma PrintedStep(c: char, rest: string, dash: bool)
    ensures Lowered([c] + (if dash then ['-'] else "") + rest)
            == [LowerOf(c)] + (if dash then "-" else "") + Lowered(rest)
  {
    if dash {
      assert [c] + ['-'] + rest == [c] + (['-'] + rest);
      LoweredConcat(c, ['-'] + rest);
      LoweredConcat('-', rest);
      assert "-" == ['-'];
    } else {
      LoweredConcat(c, rest);
      assert [c] + "" + rest == [c] + rest;
    }
  }

  function Printed(s: string): string {
    Lowered(Dashed(s))
  }

  lemma PrintedCons(c: char, s: string)
    requires s != ""
    ensures Printed([c] + s) == [LowerOf(c)] + (if c != '-' && IsUpper(s[0]) then "-" else "") + Printed(s)
  {
    DashedFirst([c] + s);
    assert ([c] + s)[1..] == s;
    hide Dashed;
    PrintedStep(c, Dashed(s), c != '-' && IsUpper(s[0]));
  }

  /** The rest of a word, and the next word with its capital. */
  lemma {:induction false} PrintedWord(c: char, small: string, rest: string)
    requires c != '-' && AreSmall(small) && (rest != "" ==> IsUpper(rest[0]))
    ensures Printed([c] + small + rest) ==
            [LowerOf(c)] + small + if rest == "" then "" else "-" + Printed(rest)
    decreases |small|
  {
    var tail := if rest == "" then "" else "-" + Printed(rest);
    if small == "" {
      assert [c] + small + rest == [c] + rest && [LowerOf(c)] + small + tail == [LowerOf(c)] + tail;
      PrintedEnd(c, rest);
    } else {
      var d, more := small[0], small[1..];
      SmallFirst(small);
      PrintedWord(d, more, rest);
      PrintedCons(c, [d] + more + rest);
      hide Printed, IsUpper, LowerOf, AreSmall;
      Moved([c], d, more, rest);
      Moved([LowerOf(c)] + "", d, more, tail);
      assert [LowerOf(c)] + "" == [LowerOf(c)];
    }
  }

  lemma SmallFirst(small: string)
    requires small != "" && AreSmall(small)
    ensures small == [small[0]] + small[1..] && AreSmall(small[1..])
    ensures small[0] != '-' && !IsUpper(small[0]) && LowerOf(small[0]) == small[0]
  {
    assert small[0] in small && forall e | e in small[1..] :: e in small;
  }

  lemma Moved(a: string, d: char, more: string, b: string)
    ensures a + ([d] + more + b) == a + ([d] + more) + b
  {
  }

  lemma PrintedEnd(c: char, rest: string)
    requires c != '-' && (rest != "" ==> IsUpper(rest[0]))
    ensures Printed([c] + rest) == [LowerOf(c)] + if rest == "" then "" else "-" + Printed(rest)
  {
    if rest == "" {
      PrintedLetter(c);
      assert [c] + rest == [c] && [LowerOf(c)] + "" == [LowerOf(c)];
    } else {
      PrintedCons(c, rest);
      assert [LowerOf(c)] + "-" + Printed(rest) == [LowerOf(c)] + ("-" + Printed(rest));
    }
  }

  lemma PrintedLetter(c: char)
    ensures Printed([c]) == [LowerOf(c)]
  {
    assert [c][1..] == "" && Lowered("") == "" && [LowerOf(c)] + "" == [LowerOf(c)];
  }

  /** A name made of words is printed as these words with dashes in between, and read back from them. */
  lemma WordsAreDashed(words: seq<string>)
    requires words != [] && forall word | word in words :: IsWord(word)
    ensures DashSeparated(Name(words)) == Join(words, '-')
    ensures Capitalized(Join(words, '-')) == Name(words)
  {
    hide Pass, Dashed, Lowered, Capitalized, Name;
    NameOfWords(words);
    TwoPasses(Name(words));
    RoundTripIff(Name(words));
  }

  lemma {:induction false} NameOfWords(words: seq<string>)
    requires words != [] && forall word | word in words :: IsWord(word)
    ensures Name(words) != "" && IsUpper(Name(words)[0]) && '-' !in Name(words)
    ensures Printed(Name(words)) == Join(words, '-')
  {
    hide Printed;
    var word, others := words[0], words[1..];
    assert IsWord(word) && word == [word[0]] + word[1..];
    TitleIsUpper(word);
    if others != [] {
      NameOfWords(others);
    }
    PrintedWord(UpperOf(word[0]), word[1..], Name(others));
    assert "-" == ['-'];
  }

  lemma TitleIsUpper(word: string)
    requires IsWord(word)
    ensures IsUpper(UpperOf(word[0])) && LowerOf(UpperOf(word[0])) == word[0]
    ensures AreSmall(word[1..]) && '-' !in Titled(word)
  {
    assert forall c | c in word[1..] :: c in word;
  }

  // ----- configuration items -----

  /** The option groups and the names of their fields. */
  type Fields = map<string, set<string>>

  /** Go's exported identifiers, in ASCII. */
  predicate IsFieldName(name: string) {
    && name != "" && IsUpper(name[0])
    && forall c | c in name :: IsUpper(c) || IsLower(c) || IsDigit(c) || c == '_'
  }

  function ItemKey(group: string, item: string): string {
    DashSeparated(group) + "." + DashSeparated(item)
  }

  /** The group and the item of a key, as written; None if the key has another form or names no field. */
  function ParseConfigItem(fields: Fields, key: string): Option<(string, string)> {
    if Count(key, '.') != 1 then None
    else
      var parts := Split(key, '.');
      if Capitalized(parts[0]) !in fields then None
      else if Capitalized(parts[1]) !in fields[Capitalized(parts[0])] then None
      else Some((parts[0], parts[1]))
  }

  /** A key parses exactly if it is a group and an item with one dot between, and both are there. */
  lemma ParsesIff(fields: Fields, key: string, group: string, item: string)
    ensures ParseConfigItem(fields, key) == Some((group, item)) <==>
            && '.' !in group && '.' !in item && key == group + "." + item
            && Capitalized(group) in fields && Capitalized(item) in fields[Capitalized(group)]
  {
    var parts := Split(key, '.');
    assert "." == ['.'];
    hide Capitalized, Split;
    if |parts| == 2 {
      assert parts[0] in parts && parts[1] in parts && Join(parts[1..], '.') == parts[1];
      assert key == parts[0] + ['.'] + parts[1];
    }
    if '.' !in group && '.' !in item && key == group + "." + item {
      SplitPlain(item, '.');
      SplitCons(group, item, '.');
    }
  }

  lemma {:induction false} PassCharacters(s: string)
    ensures forall c | c in Pass(s) :: c in s || c == '-'
  {
    if |s| >= 2 {
      PassCharacters(s[1..]);
      PassCharacters(s[2..]);
    }
  }

  lemma {:induction false} LoweredHasNoDot(s: string)
    ensures '.' in Lowered(s) ==> '.' in s
  {
    if s != "" {
      LoweredHasNoDot(s[1..]);
    }
  }

  lemma NoDot(name: string)
    requires IsFieldName(name)
    ensures '.' !in DashSeparated(name)
  {
    PassCharacters(name);
    PassCharacters(Pass(name));
    LoweredHasNoDot(Pass(Pass(name)));
    hide Pass, Lowered;
  }

  /** Every key that the listing prints is the key of its own field: it parses, and its parts lead back to the group and
      to the field; so no two fields share a key. */
  lemma ListedKeysResolve(fields: Fields, group: string, item: string)
    requires group in fields && item in fields[group] && IsFieldName(group) && IsFieldName(item)
    ensures ParseConfigItem(fields, ItemKey(group, item)) == Some((DashSeparated(group), DashSeparated(item)))
    ensures Capitalized(DashSeparated(group)) == group && Capitalized(DashSeparated(item)) == item
  {
    RoundTripIff(group);
    RoundTripIff(item);
    NoDot(group);
    NoDot(item);
    hide DashSeparated, Capitalized, Count;
    SplitPlain(DashSeparated(item), '.');
    SplitCons(DashSeparated(group), DashSeparated(item), '.');
  }
}
