/** The version order of the in-memory store. */
module Versions {
  import opened Text
  import Int64

  // ----- components -----

  predicate IsDigit(c: char) {
    '0' <= c <= '9'
  }

  function Digit(c: char): (d: nat)
    requires IsDigit(c)
    ensures d <= 9
  {
    c as int - '0' as int
  }

  predicate AllDigits(s: string) {
    forall i :: 0 <= i < |s| ==> IsDigit(s[i])
  }

  /** The number a digit string denotes. */
  function Decimal(s: string): nat
    requires AllDigits(s)
  {
    if s == "" then 0 else Decimal(s[..|s| - 1]) * 10 + Digit(s[|s| - 1])
  }

  /** The longest digit prefix. */
  function LeadingDigits(s: string): (r: string)
    ensures AllDigits(r) && r <= s
    ensures |r| < |s| ==> !IsDigit(s[|r|])
  {
    if s == "" || !IsDigit(s[0]) then "" else [s[0]] + LeadingDigits(s[1..])
  }

  /** The value of one dotted component: its leading digits, on a 64-bit int. */
  function Component(s: string): int {
    Int64.Wrap(Decimal(LeadingDigits(s)))
  }

  lemma LeadingDigitsUnique(s: string, i: nat)
    requires i <= |s| && AllDigits(s[..i])
    requires i == |s| || !IsDigit(s[i])
    ensures LeadingDigits(s) == s[..i]
  {
    var r := LeadingDigits(s);
    assert r == s[..|r|];
    assert forall k :: 0 <= k < i ==> s[..i][k] == s[k];
    assert forall k :: 0 <= k < |r| ==> r[k] == s[k];
    assert |r| == i;
  }

  method AtoiSafe(s: string) returns (v: int)
    ensures v == Component(s)
  {
    v := 0;
    var i := 0;
    while i < |s|
      invariant 0 <= i <= |s|
      invariant AllDigits(s[..i]) && v == Int64.Wrap(Decimal(s[..i]))
    {
      var c := s[i];
      if c < '0' || c > '9' {
        break;
      }
      assert s[..i + 1][..i] == s[..i];
      Int64.WrapDigit(Decimal(s[..i]), Digit(c));
      v := Int64.Wrap(v * 10 + Digit(c));
      i := i + 1;
    }
    LeadingDigitsUnique(s, i);
  }

  // A component is the number of its leading digits, whatever text follows them.
  lemma ComponentReads(digits: string, rest: string)
    requires AllDigits(digits) && (rest != "" ==> !IsDigit(rest[0]))
    ensures Component(digits + rest) == Int64.Wrap(Decimal(digits))
  {
    LeadingDigitsUnique(digits + rest, |digits|);
    assert (digits + rest)[..|digits|] == digits;
  }

  // ----- zero-padded lexicographic order on component vectors -----

  /** Entry i of a vector padded with zeros without end. */
  function At(xs: seq<int>, i: nat): int {
    if i < |xs| then xs[i] else 0
  }

  ghost predicate AgreeBelow(xs: seq<int>, ys: seq<int>, i: nat) {
    forall j: nat :: j < i ==> At(xs, j) == At(ys, j)
  }

  ghost predicate Precedes(xs: seq<int>, ys: seq<int>) {
    exists i: nat :: AgreeBelow(xs, ys, i) && At(xs, i) < At(ys, i)
  }

  /** The sign of comparing two padded vectors. */
  ghost function VectorOrder(xs: seq<int>, ys: seq<int>): int {
    if Precedes(xs, ys) then -1 else if Precedes(ys, xs) then 1 else 0
  }

  function Components(v: string): (r: seq<int>)
    ensures |r| == |Split(v, '.')|
    ensures forall i :: 0 <= i < |r| ==> r[i] == Component(Split(v, '.')[i])
  {
    var parts := Split(v, '.');
    seq(|parts|, i requires 0 <= i < |parts| => Component(parts[i]))
  }

  ghost function Order(v: string, w: string): int {
    VectorOrder(Components(v), Components(w))
  }

  // The first place where two vectors differ decides, and nothing before it can.
  lemma FirstDifference(xs: seq<int>, ys: seq<int>, i: nat)
    requires AgreeBelow(xs, ys, i) && At(xs, i) != At(ys, i)
    ensures VectorOrder(xs, ys) == if At(xs, i) < At(ys, i) then -1 else 1
  {
    assert AgreeBelow(ys, xs, i);
    if At(xs, i) > At(ys, i) {
      forall j: nat | AgreeBelow(xs, ys, j) ensures At(xs, j) >= At(ys, j) {
      }
    }
  }

  lemma AgreeEverywhere(xs: seq<int>, ys: seq<int>)
    ensures VectorOrder(xs, ys) == 0 <==> forall i: nat :: At(xs, i) == At(ys, i)
  {
    if i: nat :| At(xs, i) != At(ys, i) {
      var d := LeastDifference(xs, ys, i);
      FirstDifference(xs, ys, d);
    }
  }

  lemma {:induction false} LeastDifference(xs: seq<int>, ys: seq<int>, i: nat) returns (d: nat)
    requires At(xs, i) != At(ys, i)
    ensures AgreeBelow(xs, ys, d) && At(xs, d) != At(ys, d)
  {
    if j: nat :| j < i && At(xs, j) != At(ys, j) {
      d := LeastDifference(xs, ys, j);
    } else {
      d := i;
    }
  }

  /** Compares two versions component by component, the shorter padded with zeros. */
  method CompareVersion(a: string, b: string) returns (r: int)
    ensures r == Order(a, b)
  {
    var xs, ys := Split(a, '.'), Split(b, '.');
    var n := |xs|;
    if |ys| > n {
      n := |ys|;
    }
    for i := 0 to n
      invariant AgreeBelow(Components(a), Components(b), i)
    {
      var x, y := 0, 0;
      if i < |xs| {
        x := AtoiSafe(xs[i]);
      }
      if i < |ys| {
        y := AtoiSafe(ys[i]);
      }
      if x != y {
        FirstDifference(Components(a), Components(b), i);
        if x < y {
          return -1;
        }
        return 1;
      }
    }
    AgreeEverywhere(Components(a), Components(b));
    return 0;
  }

  // ----- the order is a total preorder on all strings -----

  lemma OrderReflexive(a: string)
    ensures Order(a, a) == 0
  {
    AgreeEverywhere(Components(a), Components(a));
  }

  lemma OrderAntisymmetric(a: string, b: string)
    ensures Order(b, a) == -Order(a, b)
  {
    VectorOrderSwap(Components(a), Components(b));
  }

  lemma VectorOrderSwap(xs: seq<int>, ys: seq<int>)
    ensures VectorOrder(ys, xs) == -VectorOrder(xs, ys)
  {
    AgreeEverywhere(xs, ys);
    AgreeEverywhere(ys, xs);
    if i: nat :| At(xs, i) != At(ys, i) {
      var d := LeastDifference(xs, ys, i);
      FirstDifference(xs, ys, d);
      assert AgreeBelow(ys, xs, d);
      FirstDifference(ys, xs, d);
    }
  }

  lemma PrecedesTransitive(xs: seq<int>, ys: seq<int>, zs: seq<int>)
    requires Precedes(xs, ys) && Precedes(ys, zs)
    ensures Precedes(xs, zs)
  {
    var i: nat :| AgreeBelow(xs, ys, i) && At(xs, i) < At(ys, i);
    var j: nat :| AgreeBelow(ys, zs, j) && At(ys, j) < At(zs, j);
    var k := if i < j then i else j;
    assert AgreeBelow(xs, zs, k) by {
      forall l: nat | l < k ensures At(xs, l) == At(zs, l) {
        assert At(xs, l) == At(ys, l) == At(zs, l);
      }
    }
    assert At(xs, k) < At(zs, k);
  }

  // Versions that tie compare alike with every third version.
  lemma OrderTieCongruent(a: string, b: string, c: string)
    requires Order(a, b) == 0
    ensures Order(a, c) == Order(b, c)
  {
    var xs, ys, zs := Components(a), Components(b), Components(c);
    AgreeEverywhere(xs, ys);
    AgreeEverywhere(xs, zs);
    AgreeEverywhere(ys, zs);
    if i: nat :| At(xs, i) != At(zs, i) {
      var d := LeastDifference(xs, zs, i);
      FirstDifference(xs, zs, d);
      assert AgreeBelow(ys, zs, d);
      FirstDifference(ys, zs, d);
    }
  }

  lemma OrderTransitive(a: string, b: string, c: string)
    requires Order(a, b) <= 0 && Order(b, c) <= 0
    ensures Order(a, c) <= 0
    ensures Order(a, b) < 0 || Order(b, c) < 0 ==> Order(a, c) < 0
  {
    OrderAntisymmetric(a, b);
    OrderAntisymmetric(b, c);
    OrderAntisymmetric(a, c);
    if Order(a, b) == 0 {
      OrderTieCongruent(a, b, c);
    } else if Order(b, c) == 0 {
      OrderTieCongruent(b, c, a);
      OrderAntisymmetric(b, a);
      OrderAntisymmetric(c, a);
    } else {
      PrecedesTransitive(Components(a), Components(b), Components(c));
    }
  }

  // Ties are exactly the versions whose padded components coincide.
  lemma OrderTie(a: string, b: string)
    ensures Order(a, b) == 0 <==> forall i: nat :: At(Components(a), i) == At(Components(b), i)
  {
    AgreeEverywhere(Components(a), Components(b));
  }
}
