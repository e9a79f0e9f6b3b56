/** Address ranges in the prefix notation of section 3.1 of RFC 4632.

    A range is the sequence of its leading bits, most significant first, and it holds the 32-bit addresses that
    start with them. `Cells` is the form the planner computes with: 32 cells, where the first -1 ends the prefix. */
module Ranges {

  const BITS: nat := 32

  predicate IsBits(s: seq<int>) {
    forall i :: 0 <= i < |s| ==> 0 <= s[i] <= 1
  }

  type Address = a: seq<int> | |a| == BITS && IsBits(a) witness seq(BITS, _ => 0)

  type Range = p: seq<int> | |p| <= BITS && IsBits(p) witness []

  type Cells = c: seq<int> | |c| == BITS && forall i :: 0 <= i < |c| ==> -1 <= c[i] <= 1 witness seq(BITS, _ => 0)

  predicate Holds(p: Range, a: Address) {
    p <= a
  }

  ghost predicate Covers(ps: seq<Range>, a: Address) {
    exists i :: 0 <= i < |ps| && Holds(ps[i], a)
  }

  /** The addresses of a range. */
  ghost function Addresses(p: Range): iset<Address> {
    iset a: Address | Holds(p, a)
  }

  /** The addresses of any of several ranges. */
  ghost function AddressesOf(ps: seq<Range>): iset<Address> {
    iset a: Address | Covers(ps, a)
  }

  predicate Overlap(p: Range, q: Range) {
    p <= q || q <= p
  }

  ghost predicate PairwiseDisjoint(ps: seq<Range>) {
    forall i, j :: 0 <= i < j < |ps| ==> !Overlap(ps[i], ps[j])
  }

  /** The prefix followed by zeros: the lowest address of a range. */
  function Lowest(p: Range): (a: Address)
    ensures p <= a
  {
    p + seq(BITS - |p|, _ => 0)
  }

  /** A range lies inside another one exactly when its prefix is longer and agrees. */
  lemma InclusionIsPrefix(p: Range, q: Range)
    ensures p <= q <==> Addresses(q) <= Addresses(p)
  {
    if p <= q {
      forall a: Address | a in Addresses(q)
        ensures a in Addresses(p)
      {
        assert p == q[..|p|] == a[..|p|];
      }
    }
    if !(p <= q) {
      // an address of q that p does not hold
      var low := Lowest(q);
      var out: Address := if Holds(p, low) && |q| < |p| then low[|q| := 1 - p[|q|]] else low;
      assert Holds(q, out);
      assert !Holds(p, out) by {
        if |p| <= |q| {
          assert out[..|p|] == q[..|p|];
        } else if Holds(p, low) {
          assert out[|q|] != p[|q|];
        }
      }
      assert out in Addresses(q) && out !in Addresses(p);
    }
  }

  /** Two ranges are nested or share no address. */
  lemma NestedOrDisjoint(p: Range, q: Range)
    ensures Overlap(p, q) <==> Addresses(p) * Addresses(q) != iset{}
  {
    if Overlap(p, q) {
      var long := if p <= q then q else p;
      var low := Lowest(long);
      assert p <= low && q <= low by {
        InclusionIsPrefix(p, long);
        InclusionIsPrefix(q, long);
        assert low in Addresses(long);
      }
      assert low in Addresses(p) * Addresses(q);
    }
    if a: Address :| a in Addresses(p) * Addresses(q) {
      if |p| <= |q| {
        assert p == a[..|p|] == q[..|p|];
      } else {
        assert q == a[..|q|] == p[..|q|];
      }
    }
  }

  /** How many cells come before the first negative one. */
  function Len(c: seq<int>): (n: nat)
    ensures n <= |c|
    ensures forall i :: 0 <= i < n ==> c[i] >= 0
    ensures n < |c| ==> c[n] < 0
  {
    if c == [] || c[0] < 0 then 0 else 1 + Len(c[1..])
  }

  /** The range that an array of cells stands for. */
  function Prefix(c: Cells): Range {
    c[..Len(c)]
  }

  /** The cells of a range, with nothing but zeros after its end marker. */
  function CellsOf(p: Range): (c: Cells)
  {
    if |p| == BITS then p else Lowest(p)[|p| := -1]
  }

  lemma LenIs(c: seq<int>, n: nat)
    requires n <= |c|
    requires forall i :: 0 <= i < n ==> c[i] >= 0
    requires n < |c| ==> c[n] < 0
    ensures Len(c) == n
  {
  }

  lemma PrefixOfCellsOf(p: Range)
    ensures Prefix(CellsOf(p)) == p
  {
    LenIs(CellsOf(p), |p|);
  }

  /** The longest common prefix of two ranges. */
  function Common(p: Range, q: Range): (r: Range)
    ensures r <= p && r <= q
  {
    if p == [] || q == [] || p[0] != q[0] then []
    else [p[0]] + Common(p[1..], q[1..])
  }

  lemma {:induction false} CommonIsGreatest(p: Range, q: Range, r: Range)
    ensures r <= Common(p, q) <==> r <= p && r <= q
  {
    if p != [] && q != [] && r != [] && p[0] == q[0] == r[0] {
      CommonIsGreatest(p[1..], q[1..], r[1..]);
      assert p == [p[0]] + p[1..] && q == [q[0]] + q[1..] && r == [r[0]] + r[1..];
      assert r <= p <==> r[1..] <= p[1..];
      assert r <= q <==> r[1..] <= q[1..];
      assert r <= Common(p, q) <==> r[1..] <= Common(p[1..], q[1..]);
    }
  }

  lemma {:induction false} CommonIs(p: Range, q: Range, r: Range)
    requires r <= p && r <= q
    requires |r| < |p| && |r| < |q| ==> p[|r|] != q[|r|]
    ensures Common(p, q) == r
  {
    if r != [] {
      CommonIs(p[1..], q[1..], r[1..]);
    }
  }
}
