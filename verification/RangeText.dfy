/** Reading and printing addresses and ranges: the bit arithmetic at the bottom of the CIDR planner. */
module RangeText {
  import opened Text
  import opened Ranges

  function Pow2(n: nat): (r: nat)
    ensures r >= 1
  {
    if n == 0 then 1 else 2 * Pow2(n - 1)
  }

  /** The number written by bits, most significant first. */
  function Value(bits: seq<int>): int {
    if bits == [] then 0 else 2 * Value(bits[..|bits| - 1]) + bits[|bits| - 1]
  }

  /** The `k` lowest bits of a number, most significant first. */
  function BitsOf(n: nat, k: nat): (s: seq<int>)
    ensures |s| == k && IsBits(s)
  {
    if k == 0 then [] else BitsOf(n / 2, k - 1) + [n % 2]
  }

  lemma {:induction false} ValueOfBitsOf(n: nat, k: nat)
    requires n < Pow2(k)
    ensures Value(BitsOf(n, k)) == n
  {
    if k > 0 {
      ValueOfBitsOf(n / 2, k - 1);
      assert BitsOf(n, k)[..k - 1] == BitsOf(n / 2, k - 1);
    }
  }

  lemma {:induction false} BitsOfValue(s: seq<int>)
    requires IsBits(s)
    ensures 0 <= Value(s) < Pow2(|s|) && BitsOf(Value(s), |s|) == s
  {
    if s != [] {
      BitsOfValue(s[..|s| - 1]);
      assert s == s[..|s| - 1] + [s[|s| - 1]];
    }
  }

  lemma {:induction false} BitsOfZero(k: nat)
    ensures BitsOf(0, k) == seq(k, _ => 0)
  {
    if k > 0 {
      BitsOfZero(k - 1);
    }
  }

  lemma {:induction false} ValuePadded(s: seq<int>, k: nat)
    ensures Value(s + seq(k, _ => 0)) == Value(s) * Pow2(k)
  {
    var t := s + seq(k, _ => 0);
    if k == 0 {
      assert t == s;
    } else {
      ValuePadded(s, k - 1);
      assert t[..|t| - 1] == s + seq(k - 1, _ => 0);
    }
  }

  /** The eight bits of an octet; the source turns every negative number into zeros. */
  function OctetBits(n: int): (s: seq<int>)
    ensures |s| == 8 && IsBits(s)
  {
    BitsOf(if n < 0 then 0 else n, 8)
  }

  /** An octet and its bits determine each other. */
  lemma OctetRoundTrip(n: int, s: seq<int>)
    ensures 0 <= n < 256 ==> Value(OctetBits(n)) == n
    ensures |s| == 8 && IsBits(s) ==> 0 <= Value(s) < 256 && OctetBits(Value(s)) == s
  {
    assert Pow2(8) == 256;
    if 0 <= n < 256 {
      ValueOfBitsOf(n, 8);
    }
    if |s| == 8 && IsBits(s) {
      BitsOfValue(s);
    }
  }

  lemma HalfStep(n: nat, k: nat)
    requires 0 < n < Pow2(k)
    ensures k > 0 && n / 2 < Pow2(k - 1)
    ensures BitsOf(n, k)[..k - 1] == BitsOf(n / 2, k - 1) && BitsOf(n, k)[k - 1] == n % 2
  {
  }

  method Reverse(bin: array<int>)
    modifies bin
    ensures forall k :: 0 <= k < bin.Length ==> bin[k] == old(bin[bin.Length - 1 - k])
  {
    var i, j := 0, bin.Length - 1;
    while i < j
      invariant 0 <= i && i + j == bin.Length - 1 && i <= j + 1
      invariant forall k :: i <= k <= j ==> bin[k] == old(bin[k])
      invariant forall k :: 0 <= k < i || j < k < bin.Length ==> bin[k] == old(bin[bin.Length - 1 - k])
    {
      bin[i], bin[j] := bin[j], bin[i];
      i, j := i + 1, j - 1;
    }
  }

  lemma OctetIs(dec: int, rest: nat)
    requires dec < 256 && rest == if dec < 0 then 0 else dec
    ensures rest < Pow2(8) && OctetBits(dec)[..8] == BitsOf(rest, 8)
  {
  }

  method DecToBin(dec: int) returns (bin: seq<int>)
    requires dec < 256
    ensures bin == OctetBits(dec)
  {
    hide BitsOf, Pow2, OctetBits;
    ghost var all := OctetBits(dec);
    var cells := new int[8](_ => 0);
    var n, i := dec, 0;
    ghost var rest: nat := if n < 0 then 0 else n;
    OctetIs(dec, rest);
    while n > 0
      invariant 0 <= i <= 8
      invariant rest < Pow2(8 - i)
      invariant rest == if n < 0 then 0 else n
      invariant all[..8 - i] == BitsOf(rest, 8 - i)
      invariant forall k :: 0 <= k < i ==> cells[k] == all[7 - k]
      invariant forall k :: i <= k < 8 ==> cells[k] == 0
      decreases n
    {
      HalfStep(rest, 8 - i);
      assert all[7 - i] == all[..8 - i][7 - i];
      assert all[..7 - i] == all[..8 - i][..7 - i] == BitsOf(rest / 2, 7 - i);
      cells[i] := n % 2;
      i := i + 1;
      n := n / 2;
      rest := rest / 2;
    }
    BitsOfZero(8 - i);
    forall k | i <= k < 8
      ensures all[7 - k] == cells[k]
    {
      assert all[7 - k] == all[..8 - i][7 - k];
    }
    Reverse(cells);
    bin := cells[..];
  }

  // ----- reading -----

  /** Crash stands for the run-time panic of an index out of range. */
  datatype Numbers = Numbers(ns: seq<int>) | BadNumbers | CrashNumbers {
    function After(front: seq<int>): Numbers {
      if Numbers? then Numbers(front + ns) else this
    }
  }

  /** Segment by segment into `room` places; places without a segment stay zero. */
  function ParseSegments(segments: seq<string>, room: nat): (r: Numbers)
    ensures r.Numbers? ==> |r.ns| == room
  {
    if segments == [] then Numbers(seq(room, _ => 0))
    else if room == 0 then CrashNumbers
    else match Atoi(segments[0])
      case None => BadNumbers
      case Some(n) => ParseSegments(segments[1..], room - 1).After([n])
  }

  lemma AfterAfter(r: Numbers, front: seq<int>, n: int)
    ensures r.After([n]).After(front) == r.After(front + [n])
  {
    if r.Numbers? {
      assert front + ([n] + r.ns) == front + [n] + r.ns;
    }
  }

  lemma OnePlaced(ns: seq<int>, i: nat, n: int)
    requires i < |ns|
    ensures ns[i := n][..i + 1] == ns[..i] + [n] && ns[i := n][i + 1..] == ns[i..][1..]
  {
  }

  method ParseIp(ip: string) returns (r: Numbers)
    requires !ParseSegments(Split(ip, '.'), 4).CrashNumbers?
    ensures r == ParseSegments(Split(ip, '.'), 4)
  {
    var segments := Split(ip, '.');
    hide Split, Atoi;
    var ipNum: seq<int> := [0, 0, 0, 0];
    for i := 0 to |segments|
      invariant i <= 4 && |ipNum| == 4
      invariant ipNum[i..] == seq(4 - i, _ => 0)
      invariant ParseSegments(segments, 4) == ParseSegments(segments[i..], 4 - i).After(ipNum[..i])
    {
      var n := Atoi(segments[i]);
      assert segments[i..][1..] == segments[i + 1..];
      if n.None? {
        return BadNumbers;
      }
      AfterAfter(ParseSegments(segments[i + 1..], 3 - i), ipNum[..i], n.value);
      OnePlaced(ipNum, i, n.value);
      ipNum := ipNum[i := n.value];
    }
    assert ipNum == ipNum[..|segments|] + ipNum[|segments|..];
    return Numbers(ipNum);
  }

  datatype Parsed = Parsed(cells: Cells) | Bad | Crash

  /** The bits of several octets in a row. */
  function QuadBits(ns: seq<int>): (s: seq<int>)
    ensures |s| == 8 * |ns| && IsBits(s)
  {
    if ns == [] then [] else QuadBits(ns[..|ns| - 1]) + OctetBits(ns[|ns| - 1])
  }

  function PlainCells(ip: string): Parsed {
    match ParseSegments(Split(ip, '.'), 4)
    case BadNumbers => Bad
    case CrashNumbers => Crash
    case Numbers(ns) => if exists i :: 0 <= i < 4 && ns[i] >= 256 then Crash else Parsed(QuadBits(ns))
  }

  function RangeCells(ipRange: string): Parsed {
    var parts := Split(ipRange, '/');
    if |parts| != 2 then Bad
    else match Atoi(parts[1])
      case None => Bad
      case Some(n) =>
        match PlainCells(parts[0])
        case Bad => Bad
        case Crash => Crash
        case Parsed(c) => if n >= BITS then Parsed(c) else if n < 0 then Crash else Parsed(c[n := -1])
  }

  /** What an address or a range in text form is read as. */
  function IpCells(ip: string): Parsed {
    if Count(ip, '/') == 1 then RangeCells(ip)
    else if Count(ip, '/') > 1 then Bad
    else PlainCells(ip)
  }

  /** Eight cells are overwritten with the bits of the next octet. */
  lemma OctetCopied(ipBin: seq<int>, bin: seq<int>, ns: seq<int>, i: nat)
    requires i < |ns| && |ipBin| == 8 * |ns| && bin == OctetBits(ns[i])
    requires ipBin[..i * 8] == QuadBits(ns[..i])
    ensures var next := ipBin[..i * 8] + bin + ipBin[i * 8 + 8..];
            |next| == |ipBin| && next[..(i + 1) * 8] == QuadBits(ns[..i + 1])
  {
    var next, done := ipBin[..i * 8] + bin + ipBin[i * 8 + 8..], ns[..i + 1];
    assert done[..i] == ns[..i] && done[i] == ns[i];
    hide OctetBits;
    assert QuadBits(done) == QuadBits(ns[..i]) + bin;
    hide QuadBits;
    FrontOfThree(ipBin[..i * 8], bin, ipBin[i * 8 + 8..]);
  }

  lemma NumbersAreOctets(ip: string, ns: seq<int>)
    requires PlainCells(ip) != Crash && ParseSegments(Split(ip, '.'), 4) == Numbers(ns)
    ensures PlainCells(ip) == Parsed(QuadBits(ns)) && forall i :: 0 <= i < 4 ==> ns[i] < 256
  {
    hide ParseSegments, Split, QuadBits;
  }

  lemma NoBits()
    ensures QuadBits([]) == []
  {
  }

  lemma FrontOfThree<T>(a: seq<T>, b: seq<T>, c: seq<T>)
    ensures (a + b + c)[..|a| + |b|] == a + b
  {
  }

  method IpToBin(ip: string) returns (r: Parsed)
    requires IpCells(ip) != Crash
    ensures r == IpCells(ip)
    decreases |ip|, 1
  {
    var slashCount := Count(ip, '/');
    if slashCount == 1 {
      r := IpRangeToBin(ip);
      return;
    } else if slashCount > 1 {
      return Bad;
    }
    hide OctetBits, QuadBits, Split, ParseSegments, RangeCells, Count;
    var ipNum := ParseIp(ip);
    if ipNum.BadNumbers? {
      return Bad;
    }
    NumbersAreOctets(ip, ipNum.ns);
    hide PlainCells, IpCells;
    assert QuadBits([]) == [] by {
      NoBits();
    }
    var ipBin: seq<int> := seq(BITS, _ => 0);
    for i := 0 to 4
      invariant |ipBin| == BITS
      invariant ipBin[..i * 8] == QuadBits(ipNum.ns[..i])
    {
      var bin := DecToBin(ipNum.ns[i]);
      OctetCopied(ipBin, bin, ipNum.ns, i);
      ipBin := ipBin[..i * 8] + bin + ipBin[i * 8 + 8..];
    }
    assert ipNum.ns[..4] == ipNum.ns;
    return Parsed(ipBin);
  }

  method IpRangeToBin(ipRange: string) returns (r: Parsed)
    requires RangeCells(ipRange) != Crash
    ensures r == RangeCells(ipRange)
    decreases |ipRange|, 0
  {
    var parts := Split(ipRange, '/');
    if |parts| != 2 {
      return Bad;
    }
    var sepIndex := Atoi(parts[1]);
    if sepIndex.None? {
      return Bad;
    }
    assert ipRange == parts[0] + ['/'] + Join(parts[1..], '/');
    SplitPlain(parts[0], '/');
    var ipBin := IpToBin(parts[0]);
    if ipBin.Bad? {
      return Bad;
    }
    if sepIndex.value < BITS {
      return Parsed(ipBin.cells[sepIndex.value := -1]);
    }
    return ipBin;
  }

  /** The range a text denotes, if the source can read it. */
  function RangeOf(ipRange: string): Option<Range> {
    match RangeCells(ipRange)
    case Parsed(c) => Some(Prefix(c))
    case _ => None
  }

  // ----- printing -----

  function Octet(p: Range, i: nat): int
    requires i < 4
  {
    Value(Lowest(p)[i * 8..i * 8 + 8])
  }

  function OctetTexts(ns: seq<int>): (texts: seq<string>)
    ensures |texts| == |ns|
    ensures forall i :: 0 <= i < |ns| ==> texts[i] == Itoa(ns[i])
  {
    seq(|ns|, i requires 0 <= i < |ns| => Itoa(ns[i]))
  }

  function Octets(p: Range): (ns: seq<int>)
    ensures |ns| == 4
  {
    [Octet(p, 0), Octet(p, 1), Octet(p, 2), Octet(p, 3)]
  }

  /** Dotted-quad notation. */
  function QuadText(ns: seq<int>): string {
    Join(OctetTexts(ns), '.')
  }

  /** The dotted lowest address of a range, a slash and the number of fixed bits. */
  function TextOf(p: Range): string {
    QuadText(Octets(p)) + "/" + Itoa(|p|)
  }

  /** The smallest octet-aligned range around a range; a full address stays one. */
  function Aligned(p: Range): (q: Range)
    ensures q <= p
  {
    if |p| == BITS then p else p[..|p| / 8 * 8]
  }

  lemma OctetBehind(p: Range, k: nat)
    requires k < 4 && |p| <= k * 8
    ensures Octet(p, k) == 0
  {
    assert Lowest(p)[k * 8..k * 8 + 8] == [] + seq(8, _ => 0);
    ValuePadded([], 8);
  }

  lemma OctetWithin(p: Range, i: nat, j: nat)
    requires i < 4 && j <= 8 && |p| == i * 8 + j
    ensures Octets(p)[i] == Value(p[i * 8..]) * Pow2(8 - j)
    ensures forall k :: i < k < 4 ==> Octets(p)[k] == 0
  {
    assert Lowest(p)[i * 8..i * 8 + 8] == p[i * 8..] + seq(8 - j, _ => 0);
    ValuePadded(p[i * 8..], 8 - j);
    forall k | i < k < 4
      ensures Octet(p, k) == 0
    {
      OctetBehind(p, k);
    }
    hide Value, Pow2, Lowest;
  }

  lemma OctetBefore(p: Range, i: nat)
    requires i < 4 && |p| >= i * 8 + 8
    ensures Octets(p)[i] == Value(p[i * 8..i * 8 + 8])
  {
    assert Lowest(p)[i * 8..i * 8 + 8] == p[i * 8..i * 8 + 8];
  }

  /** The sum of the first `j` of eight cells by their weights. */
  function Weighed(bins: seq<int>, from: nat, j: nat): int
    requires j <= 8 && from + j <= |bins|
  {
    Value(bins[from..from + j]) * Pow2(8 - j)
  }

  lemma NothingWeighed(bins: seq<int>, from: nat)
    requires from <= |bins|
    ensures Weighed(bins, from, 0) == 0
  {
    assert bins[from..from] == [];
  }

  /** One more cell in the weighted sum. */
  lemma NextBit(bins: seq<int>, from: nat, j: nat, factor: int)
    requires j < 8 && from + j < |bins| && factor == Pow2(7 - j)
    ensures Weighed(bins, from, j + 1) == Weighed(bins, from, j) + bins[from + j] * factor
    ensures j < 7 ==> factor / 2 == Pow2(7 - (j + 1))
  {
    var read := bins[from..from + j + 1];
    assert read[..j] == bins[from..from + j] && read[j] == bins[from + j];
    assert Value(read) == 2 * Value(bins[from..from + j]) + bins[from + j];
    assert Pow2(8 - j) == 2 * factor;
    hide Value, Pow2;
    Weighted(Value(bins[from..from + j]), bins[from + j], factor);
  }

  lemma Weighted(value: int, bit: int, factor: int)
    ensures value * (2 * factor) + bit * factor == (2 * value + bit) * factor
  {
  }

  lemma AlignedLength(n: nat, i: nat)
    requires i * 8 <= n < i * 8 + 8
    ensures n / 8 * 8 == i * 8
  {
  }

  /** One octet of the printing loop: its weighted sum, and how many cells came before an end marker. */
  method SumOctet(bins: Cells, i: nat) returns (segment: int, bits: nat, end: bool)
    requires i < 4 && i * 8 <= Len(bins)
    ensures end <==> Len(bins) < i * 8 + 8
    ensures bits == if end then Len(bins) - i * 8 else 8
    ensures segment == Weighed(bins, i * 8, bits)
  {
    segment, bits, end := 0, 0, false;
    var factor := 128;
    assert Pow2(7) == 128;
    NothingWeighed(bins, i * 8);
    hide Pow2, Len, Weighed;
    for j := 0 to 8
      invariant !end && bits == j && i * 8 + j <= Len(bins)
      invariant j < 8 ==> factor == Pow2(7 - j)
      invariant segment == Weighed(bins, i * 8, j)
    {
      if bins[i * 8 + j] < 0 {
        end := true;
        break;
      }
      NextBit(bins, i * 8, j, factor);
      segment := segment + bins[i * 8 + j] * factor;
      factor := factor / 2;
      bits := bits + 1;
    }
  }

  /** The first `i` entries, the others at their initial value. */
  ghost function Filled<T>(full: seq<T>, i: nat, initial: T): (s: seq<T>)
    requires i <= |full|
    ensures |s| == |full|
    ensures i == 0 ==> forall k :: 0 <= k < |full| ==> s[k] == initial
  {
    seq(|full|, k requires 0 <= k < |full| => if k < i then full[k] else initial)
  }

  lemma FillNext<T>(full: seq<T>, i: nat, initial: T)
    requires i < |full|
    ensures Filled(full, i, initial)[i := full[i]] == Filled(full, i + 1, initial)
  {
  }

  lemma FilledUp<T>(full: seq<T>, i: nat, initial: T)
    requires i <= |full|
    requires forall k :: i <= k < |full| ==> full[k] == initial
    ensures Filled(full, i, initial) == full
  {
  }

  lemma TextBefore(p: Range, i: nat, segment: int)
    requires i < 4 && |p| >= i * 8 + 8
    requires segment == Value(p[i * 8..i * 8 + 8]) * Pow2(0)
    ensures OctetTexts(Octets(p))[i] == Itoa(segment)
  {
    OctetBefore(p, i);
  }

  lemma TextWithin(p: Range, i: nat, bits: nat, segment: int)
    requires i < 4 && bits < 8 && |p| == i * 8 + bits
    requires segment == Value(p[i * 8..]) * Pow2(8 - bits)
    ensures OctetTexts(Octets(p))[i] == Itoa(segment)
    ensures forall k :: i < k < 4 ==> OctetTexts(Octets(p))[k] == "0"
  {
    OctetWithin(p, i, bits);
    assert Itoa(0) == "0";
  }

  lemma TextAligned(p: Range, i: nat)
    requires i < 4 && |p| == i * 8
    ensures forall k :: i <= k < 4 ==> OctetTexts(Octets(p))[k] == "0"
  {
    assert p[i * 8..] == [];
    TextWithin(p, i, 0, 0);
  }

  /** The range to print, and where the cells end. */
  lemma PrintedRange(bins: Cells, withAlign: bool, i: nat)
    requires i < 4 && i * 8 <= Len(bins)
    ensures var p := if withAlign then Aligned(Prefix(bins)) else Prefix(bins);
            && (withAlign && Len(bins) < i * 8 + 8 ==> |p| == i * 8)
            && (!withAlign ==> |p| == Len(bins) && p[i * 8..] == bins[i * 8..Len(bins)])
            && (Len(bins) >= i * 8 + 8 ==> |p| >= i * 8 + 8 && p[i * 8..i * 8 + 8] == bins[i * 8..i * 8 + 8])
  {
    var p := Prefix(bins);
    if Len(bins) >= i * 8 + 8 {
      assert p[..|p| / 8 * 8][i * 8..i * 8 + 8] == p[i * 8..i * 8 + 8] == bins[i * 8..i * 8 + 8];
    } else {
      AlignedLength(Len(bins), i);
    }
    assert p[i * 8..] == bins[i * 8..Len(bins)];
  }

  lemma WeighedWithin(bins: Cells, p: Range, i: nat, bits: nat, segment: int)
    requires i < 4 && bits < 8 && |p| == i * 8 + bits && p[i * 8..] == bins[i * 8..|p|]
    requires segment == Weighed(bins, i * 8, bits)
    ensures segment == Value(p[i * 8..]) * Pow2(8 - bits)
  {
  }

  lemma WeighedBefore(bins: Cells, p: Range, i: nat, segment: int)
    requires i < 4 && |p| >= i * 8 + 8 && p[i * 8..i * 8 + 8] == bins[i * 8..i * 8 + 8]
    requires segment == Weighed(bins, i * 8, 8)
    ensures segment == Value(p[i * 8..i * 8 + 8]) * Pow2(0)
  {
  }

  method BinToIpRange(bins: Cells, withAlign: bool) returns (text: string)
    ensures text == TextOf(if withAlign then Aligned(Prefix(bins)) else Prefix(bins))
  {
    hide OctetTexts, Octets, Value, Itoa, Pow2, Filled, Aligned, Prefix, Len, Weighed;
    ghost var p := if withAlign then Aligned(Prefix(bins)) else Prefix(bins);
    ghost var texts := OctetTexts(Octets(p));
    var ips := ["0", "0", "0", "0"];
    var mask := 0;
    assert ips == Filled(texts, 0, "0");
    for i := 0 to 4
      invariant mask == i * 8 <= |p| && i * 8 <= Len(bins)
      invariant ips == Filled(texts, i, "0")
    {
      var segment, bits, end := SumOctet(bins, i);
      mask := mask + bits;
      FillNext(texts, i, "0");
      PrintedRange(bins, withAlign, i);
      if end {
        if withAlign {
          mask := i * 8;
          TextAligned(p, i);
          FilledUp(texts, i, "0");
        } else {
          WeighedWithin(bins, p, i, bits, segment);
          TextWithin(p, i, bits, segment);
          ips := ips[i := Itoa(segment)];
          FilledUp(texts, i + 1, "0");
        }
        return Join(ips, '.') + "/" + Itoa(mask);
      }
      WeighedBefore(bins, p, i, segment);
      TextBefore(p, i, segment);
      ips := ips[i := Itoa(segment)];
    }
    FilledUp(texts, 4, "0");
    return Join(ips, '.') + "/" + Itoa(mask);
  }

  // ----- printing, then reading -----

  lemma {:induction false} SegmentsOfTexts(ns: seq<int>)
    requires forall i :: 0 <= i < |ns| ==> 0 <= ns[i] < 256
    ensures ParseSegments(OctetTexts(ns), |ns|) == Numbers(ns)
  {
    if ns != [] {
      SegmentsOfTexts(ns[1..]);
      assert OctetTexts(ns)[1..] == OctetTexts(ns[1..]);
      AtoiOfItoa(ns[0]);
      assert [ns[0]] + ns[1..] == ns;
    }
  }

  lemma {:induction false} JoinHolds(parts: seq<string>, sep: char, c: char)
    requires c != sep && forall i :: 0 <= i < |parts| ==> c !in parts[i]
    ensures c !in Join(parts, sep)
  {
    if |parts| > 1 {
      JoinHolds(parts[1..], sep, c);
    }
  }

  /** Dotted octets are read as the bits of the octets. */
  lemma QuadIsRead(ns: seq<int>)
    requires |ns| == 4 && forall i :: 0 <= i < 4 ==> 0 <= ns[i] < 256
    ensures '/' !in QuadText(ns)
    ensures PlainCells(QuadText(ns)) == Parsed(QuadBits(ns))
  {
    hide Split, Join, ParseSegments, Itoa, Digits, QuadBits, OctetTexts;
    SplitOfJoin(OctetTexts(ns), '.');
    SegmentsOfTexts(ns);
    JoinHolds(OctetTexts(ns), '.', '/');
  }

  lemma SliceOfFront<T>(s: seq<T>, n: nat, lo: nat, hi: nat)
    requires lo <= hi <= n <= |s|
    ensures s[..n][lo..hi] == s[lo..hi]
  {
  }

  lemma FrontAndRest<T>(s: seq<T>, n: nat)
    requires n <= |s|
    ensures s == s[..n] + s[n..] == s[..n] + s[n..|s|]
  {
  }

  lemma {:induction false} QuadBitsOfChunks(ns: seq<int>, bits: seq<int>)
    requires |bits| == 8 * |ns|
    requires forall i :: 0 <= i < |ns| ==> OctetBits(ns[i]) == bits[i * 8..i * 8 + 8]
    ensures QuadBits(ns) == bits
  {
    hide OctetBits;
    if ns != [] {
      var n := |ns| - 1;
      forall i | 0 <= i < n
        ensures OctetBits(ns[..n][i]) == bits[..n * 8][i * 8..i * 8 + 8]
      {
        SliceOfFront(bits, n * 8, i * 8, i * 8 + 8);
      }
      QuadBitsOfChunks(ns[..n], bits[..n * 8]);
      FrontAndRest(bits, n * 8);
    }
  }

  lemma OctetsOfLowest(p: Range)
    ensures forall i :: 0 <= i < 4 ==> 0 <= Octets(p)[i] < 256
    ensures QuadBits(Octets(p)) == Lowest(p)
  {
    hide QuadBits, OctetBits, Value;
    forall i | 0 <= i < 4
      ensures 0 <= Octets(p)[i] < 256 && OctetBits(Octets(p)[i]) == Lowest(p)[i * 8..i * 8 + 8]
    {
      assert Octets(p)[i] == Octet(p, i);
      OctetRoundTrip(0, Lowest(p)[i * 8..i * 8 + 8]);
    }
    QuadBitsOfChunks(Octets(p), Lowest(p));
  }

  lemma TextSplits(p: Range)
    ensures Split(TextOf(p), '/') == [QuadText(Octets(p)), Itoa(|p|)]
  {
    OctetsOfLowest(p);
    QuadIsRead(Octets(p));
    var parts := [QuadText(Octets(p)), Itoa(|p|)];
    assert '/' !in Itoa(|p|);
    hide Octets, QuadText, Split, Itoa;
    assert Join(parts[1..], '/') == parts[1];
    SplitOfJoin(parts, '/');
  }

  lemma RangeIsRead(text: string, front: string, mask: string, p: Range)
    requires Split(text, '/') == [front, mask] && Atoi(mask) == Some(|p|) && PlainCells(front) == Parsed(Lowest(p))
    ensures RangeCells(text) == Parsed(CellsOf(p))
  {
    hide Split, Atoi, PlainCells, Lowest;
  }

  /** A printed range is read back as itself, cell by cell. */
  lemma TextRoundTrip(p: Range)
    ensures RangeCells(TextOf(p)) == Parsed(CellsOf(p)) && RangeOf(TextOf(p)) == Some(p)
  {
    OctetsOfLowest(p);
    QuadIsRead(Octets(p));
    AtoiOfItoa(|p|);
    PrefixOfCellsOf(p);
    TextSplits(p);
    hide RangeCells, Octets, QuadBits, QuadText, PlainCells, Split, Itoa, Atoi, TextOf, Prefix;
    RangeIsRead(TextOf(p), QuadText(Octets(p)), Itoa(|p|), p);
  }

  // ----- any text without a slash -----

  /** Which of the segments are read before the reading ends. */
  predicate AreNumbers(segments: seq<string>, n: nat)
    requires n <= |segments|
  {
    forall k | 0 <= k < n :: Atoi(segments[k]).Some?
  }

  function Least(a: nat, b: nat): nat {
    if a <= b then a else b
  }

  /** The segments in front are the numbers, and the other places are zero. */
  lemma {:induction false} SegmentsAre(segments: seq<string>, room: nat)
    ensures var r := ParseSegments(segments, room);
            && (r.BadNumbers? <==> !AreNumbers(segments, Least(|segments|, room)))
            && (r.CrashNumbers? <==> |segments| > room && AreNumbers(segments, room))
            && (r.Numbers? ==> forall k | 0 <= k < room ::
                  r.ns[k] == if k < |segments| then Atoi(segments[k]).value else 0)
  {
    hide Atoi;
    if segments != [] && room > 0 && Atoi(segments[0]).Some? {
      var rest, n := segments[1..], Least(|segments|, room);
      SegmentsAre(rest, room - 1);
      assert AreNumbers(segments, n) <==> AreNumbers(rest, n - 1) by {
        forall k | 1 <= k < n
          ensures segments[k] == rest[k - 1]
        {
        }
      }
    }
  }

  /** The number in one place of an address. */
  function NumberAt(parts: seq<string>, k: nat): int {
    if k >= |parts| then 0
    else match Atoi(parts[k])
      case None => 0
      case Some(n) => n
  }

  /** What any text without a slash is read as: nothing if one of its first four parts is no number; the program stops
      if there is a fifth part or if a number has more than eight bits; otherwise eight bits for each of the parts, and
      zeros for the missing ones. */
  lemma AddressIsRead(ip: string)
    requires '/' !in ip
    ensures var parts := Split(ip, '.');
            if !AreNumbers(parts, Least(|parts|, 4)) then IpCells(ip) == Bad
            else if |parts| > 4 || exists k | 0 <= k < 4 :: NumberAt(parts, k) >= 256 then IpCells(ip) == Crash
            else
              && IpCells(ip).Parsed? && |IpCells(ip).cells| == BITS
              && forall k | 0 <= k < 4 :: IpCells(ip).cells[k * 8..k * 8 + 8] == OctetBits(NumberAt(parts, k))
  {
    var parts := Split(ip, '.');
    CountIsZero(ip, '/');
    SegmentsAre(parts, 4);
    hide Split, Count, ParseSegments, OctetBits, Atoi;
    match ParseSegments(parts, 4)
    case BadNumbers =>
    case CrashNumbers =>
    case Numbers(ns) =>
      assert forall k | 0 <= k < 4 :: ns[k] == NumberAt(parts, k);
      if forall k | 0 <= k < 4 :: ns[k] < 256 {
        assert IpCells(ip) == Parsed(QuadBits(ns));
        hide IpCells, PlainCells, NumberAt, QuadBits;
        forall k | 0 <= k < 4
          ensures QuadBits(ns)[k * 8..k * 8 + 8] == OctetBits(ns[k])
        {
          ChunkOfQuad(ns, k);
        }
      }
  }

  lemma {:induction false} ChunkOfQuad(ns: seq<int>, k: nat)
    requires k < |ns|
    ensures QuadBits(ns)[k * 8..k * 8 + 8] == OctetBits(ns[k])
  {
    hide OctetBits;
    var n := |ns| - 1;
    if k < n {
      ChunkOfQuad(ns[..n], k);
      SliceOfConcat(QuadBits(ns[..n]), OctetBits(ns[n]), k * 8, k * 8 + 8);
    }
  }

  lemma SliceOfConcat<T>(a: seq<T>, b: seq<T>, lo: nat, hi: nat)
    requires lo <= hi <= |a|
    ensures (a + b)[lo..hi] == a[lo..hi]
  {
  }
}
