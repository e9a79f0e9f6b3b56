/** Strings as Go's `strings` and `strconv` packages cut, join, print and read them. */
module Text {

  datatype Option<+T> = None | Some(value: T)

  /** strings.Count for a one-character substring. */
  function Count(s: string, c: char): nat
  {
    if s == "" then 0 else (if s[0] == c then 1 else 0) + Count(s[1..], c)
  }

  lemma {:induction false} CountIsZero(s: string, c: char)
    ensures Count(s, c) == 0 <==> c !in s
  {
    if s != "" {
      CountIsZero(s[1..], c);
      assert s == [s[0]] + s[1..];
    }
  }

  lemma {:induction false} CountOfConcat(s: string, t: string, c: char)
    ensures Count(s + t, c) == Count(s, c) + Count(t, c)
  {
    if s == "" {
      assert s + t == t;
    } else {
      CountOfConcat(s[1..], t, c);
      assert (s + t)[1..] == s[1..] + t;
    }
  }

  /** strings.Split for a one-character separator. */
  function Split(s: string, sep: char): (parts: seq<string>)
    ensures |parts| == Count(s, sep) + 1
    ensures forall p | p in parts :: sep !in p
    ensures Join(parts, sep) == s
  {
    if s == "" then [""]
    else
      var rest := Split(s[1..], sep);
      if s[0] == sep then [""] + rest
      else [[s[0]] + rest[0]] + rest[1..]
  }

  /** strings.Join for a one-character separator. */
  function Join(parts: seq<string>, sep: char): string
  {
    if parts == [] then ""
    else if |parts| == 1 then parts[0]
    else parts[0] + [sep] + Join(parts[1..], sep)
  }

  lemma {:induction false} SplitPlain(s: string, sep: char)
    requires sep !in s
    ensures Split(s, sep) == [s]
  {
    if s != "" {
      SplitPlain(s[1..], sep);
    }
  }

  lemma SplitStep(s: string, sep: char)
    requires s != ""
    ensures var rest := Split(s[1..], sep);
            Split(s, sep) == if s[0] == sep then [""] + rest else [[s[0]] + rest[0]] + rest[1..]
  {
  }

  lemma FirstExtended(c: char, first: string, rest: seq<string>)
    ensures [[c] + ([first] + rest)[0]] + ([first] + rest)[1..] == [[c] + first] + rest
  {
  }

  lemma {:induction false} SplitCons(head: string, tail: string, sep: char)
    requires sep !in head
    ensures Split(head + [sep] + tail, sep) == [head] + Split(tail, sep)
  {
    var s := head + [sep] + tail;
    SplitStep(s, sep);
    hide Split, Join;
    if head == "" {
      assert s[1..] == tail;
    } else {
      assert s[0] == head[0] && head[0] in head;
      assert s[1..] == head[1..] + [sep] + tail;
      SplitCons(head[1..], tail, sep);
      FirstExtended(head[0], head[1..], Split(tail, sep));
      assert [head[0]] + head[1..] == head;
    }
  }

  /** Splitting undoes joining, for parts that do not hold the separator. */
  lemma {:induction false} SplitOfJoin(parts: seq<string>, sep: char)
    requires parts != []
    requires forall p | p in parts :: sep !in p
    ensures Split(Join(parts, sep), sep) == parts
  {
    if |parts| == 1 {
      SplitPlain(parts[0], sep);
    } else {
      SplitOfJoin(parts[1..], sep);
      SplitCons(parts[0], Join(parts[1..], sep), sep);
    }
  }

  lemma HeadChanged(parts: seq<string>, first: string, others: seq<string>)
    requires parts != []
    ensures [first] + (parts + others)[1..] == [first] + parts[1..] + others && (parts + others)[0] == parts[0]
    ensures [""] + (parts + others) == [""] + parts + others
  {
  }

  lemma {:induction false} SplitConcat(a: string, b: string, sep: char)
    ensures Split(a + [sep] + b, sep) == Split(a, sep) + Split(b, sep)
  {
    if a == "" {
      assert a + [sep] + b == [sep] + b && ([sep] + b)[1..] == b;
    } else {
      var s, tail := a + [sep] + b, a[1..] + [sep] + b;
      assert s[1..] == tail && s[0] == a[0];
      SplitConcat(a[1..], b, sep);
      var parts := Split(a[1..], sep);
      assert Split(s, sep) == if a[0] == sep then [""] + Split(tail, sep)
                              else [[a[0]] + Split(tail, sep)[0]] + Split(tail, sep)[1..];
      assert Split(a, sep) == if a[0] == sep then [""] + parts else [[a[0]] + parts[0]] + parts[1..];
      hide Split;
      HeadChanged(parts, [a[0]] + parts[0], Split(b, sep));
    }
  }

  /** The part in front of the first separator, or everything. */
  function Before(s: string, sep: char): string {
    if s == "" || s[0] == sep then "" else [s[0]] + Before(s[1..], sep)
  }

  lemma {:induction false} BeforeIsPrefix(s: string, sep: char)
    ensures Before(s, sep) <= s && sep !in Before(s, sep)
    ensures |Before(s, sep)| < |s| ==> s[|Before(s, sep)|] == sep
    ensures |Before(s, sep)| < |s| <==> sep in s
  {
    if s != "" && s[0] != sep {
      BeforeIsPrefix(s[1..], sep);
    }
  }

  lemma {:induction false} BeforeFirst(front: string, s: string, sep: char)
    requires sep !in front
    ensures Before(front + [sep] + s, sep) == front
  {
    if front != "" {
      assert front[0] in front && (front + [sep] + s)[1..] == front[1..] + [sep] + s;
      BeforeFirst(front[1..], s, sep);
    }
  }

  predicate HasPrefix(s: string, prefix: string) {
    prefix <= s
  }

  predicate HasSuffix(s: string, suffix: string) {
    |suffix| <= |s| && s[|s| - |suffix|..] == suffix
  }

  predicate IsDigit(c: char) {
    '0' <= c <= '9'
  }

  /** The value of a non-empty run of decimal digits. */
  function Decimal(s: string): (r: Option<nat>)
  {
    if s == "" then None
    else
      var c := s[|s| - 1];
      if !IsDigit(c) then None
      else if |s| == 1 then Some((c - '0') as nat)
      else match Decimal(s[..|s| - 1])
        case None => None
        case Some(v) => Some(10 * v + (c - '0') as nat)
  }

  /** The decimal digits of a natural number, as strconv.Itoa and %d print them. */
  function Digits(n: nat): (s: string)
    ensures s != ""
    ensures forall c | c in s :: IsDigit(c)
    ensures Decimal(s) == Some(n)
  {
    var d := '0' + (n % 10) as char;
    if n < 10 then [d]
    else
      var front := Digits(n / 10);
      assert (front + [d])[..|front|] == front;
      front + [d]
  }

  function Itoa(n: int): (s: string)
    ensures s != ""
    ensures forall c | c in s :: IsDigit(c) || c == '-'
  {
    if n < 0 then "-" + Digits(-n) else Digits(n)
  }

  /** The number written in `s` in base ten, of any size: an optional sign, then digits. */
  function SignedDecimal(s: string): Option<int>
  {
    if s != "" && (s[0] == '-' || s[0] == '+') then
      match Decimal(s[1..])
      case None => None
      case Some(v) =>
        var n: int := v;
        Some(if s[0] == '-' then -n else n)
    else Decimal(s)
  }

  const INT64_LIMIT: int := 0x8000_0000_0000_0000

  /** strconv.Atoi on a 64-bit platform: a syntax error and an overflow are both errors. */
  function Atoi(s: string): Option<int>
  {
    match SignedDecimal(s)
    case None => None
    case Some(v) => if -INT64_LIMIT <= v < INT64_LIMIT then Some(v) else None
  }

  const INT32_LIMIT: int := 0x8000_0000

  /** The value strconv.ParseInt(s, 10, 32) returns next to its error: 0 on a syntax error,
      the nearest bound on an overflow. */
  function ParseInt32(s: string): int
  {
    match SignedDecimal(s)
    case None => 0
    case Some(v) => if v < -INT32_LIMIT then -INT32_LIMIT else if v >= INT32_LIMIT then INT32_LIMIT - 1 else v
  }

  lemma SignedDecimalOfItoa(n: int)
    ensures SignedDecimal(Itoa(n)) == Some(n)
  {
    if n >= 0 {
      assert Digits(n)[0] in Digits(n);
    }
  }

  /** Reading back a printed number gives the number. */
  lemma AtoiOfItoa(n: int)
    requires -INT64_LIMIT <= n < INT64_LIMIT
    ensures Atoi(Itoa(n)) == Some(n)
  {
    SignedDecimalOfItoa(n);
  }

  /** What ParseInt32 gives for a number is the number of 32 bits nearest to it, and for any other text zero. */
  lemma ParseInt32IsNearest(s: string, r: int)
    requires -INT32_LIMIT <= r < INT32_LIMIT
    ensures -INT32_LIMIT <= ParseInt32(s) < INT32_LIMIT
    ensures match SignedDecimal(s)
            case None => ParseInt32(s) == 0
            case Some(v) => Distance(ParseInt32(s), v) <= Distance(r, v)
  {
    hide SignedDecimal;
  }

  function Distance(a: int, b: int): nat {
    if a <= b then b - a else a - b
  }
}
