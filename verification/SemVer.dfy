/** Where the store's version order meets Semantic Versioning 2.0.0, and where it meets text order. */
module SemVer {
  import opened Text
  import opened Versions
  import Int64

  // ----- vectors of one length -----

  /** The sign of the first difference of two vectors. */
  function Lexicographic(xs: seq<int>, ys: seq<int>): int
    requires |xs| == |ys|
  {
    if xs == [] then 0
    else if xs[0] < ys[0] then -1
    else if xs[0] > ys[0] then 1
    else Lexicographic(xs[1..], ys[1..])
  }

  lemma {:induction false} LexicographicAt(xs: seq<int>, ys: seq<int>, d: nat)
    requires |xs| == |ys| && d < |xs|
    requires xs[..d] == ys[..d] && xs[d] != ys[d]
    ensures Lexicographic(xs, ys) == if xs[d] < ys[d] then -1 else 1
  {
    if d > 0 {
      assert xs[0] == xs[..d][0] == ys[..d][0] == ys[0];
      assert xs[1..][..d - 1] == xs[..d][1..] == ys[..d][1..] == ys[1..][..d - 1];
      LexicographicAt(xs[1..], ys[1..], d - 1);
    }
  }

  lemma {:induction false} LexicographicTie(xs: seq<int>)
    ensures Lexicographic(xs, xs) == 0
  {
    if xs != [] { LexicographicTie(xs[1..]); }
  }

  lemma {:induction false} LexicographicBelow(xs: seq<int>, ys: seq<int>)
    requires |xs| == |ys| && forall i :: 0 <= i < |xs| ==> xs[i] <= ys[i]
    ensures Lexicographic(xs, ys) <= 0
  {
    if xs != [] { LexicographicBelow(xs[1..], ys[1..]); }
  }

  lemma VectorOrderIsLexicographic(xs: seq<int>, ys: seq<int>)
    requires |xs| == |ys|
    ensures VectorOrder(xs, ys) == Lexicographic(xs, ys)
  {
    AgreeEverywhere(xs, ys);
    if i: nat :| At(xs, i) != At(ys, i) {
      var d := LeastDifference(xs, ys, i);
      FirstDifference(xs, ys, d);
      assert xs[..d] == ys[..d] by {
        forall j | 0 <= j < d ensures xs[j] == ys[j] {
          assert At(xs, j) == At(ys, j);
        }
      }
      LexicographicAt(xs, ys, d);
    } else {
      assert xs == ys by {
        forall j | 0 <= j < |xs| ensures xs[j] == ys[j] {
          assert At(xs, j) == At(ys, j);
        }
      }
      LexicographicTie(xs);
    }
  }

  // ----- canonical numerals -----

  /** A decimal numeral without leading zeros. */
  predicate CanonicalNumeral(s: string) {
    s != "" && AllDigits(s) && (s[0] == '0' ==> |s| == 1)
  }

  lemma AllDigitsIsLeading(s: string)
    requires AllDigits(s)
    ensures LeadingDigits(s) == s
  {
    assert s[..|s|] == s;
    LeadingDigitsUnique(s, |s|);
  }

  lemma {:induction false} CanonicalPositive(s: string)
    requires CanonicalNumeral(s) && s[0] != '0'
    ensures Decimal(s) >= 1
  {
    if |s| > 1 {
      CanonicalPositive(s[..|s| - 1]);
    }
  }

  // A number has one canonical numeral.
  lemma {:induction false} NumeralUnique(s: string, t: string)
    requires CanonicalNumeral(s) && CanonicalNumeral(t)
    requires Decimal(s) == Decimal(t)
    ensures s == t
  {
    var s', t' := s[..|s| - 1], t[..|t| - 1];
    assert s == s' + [s[|s| - 1]] && t == t' + [t[|t| - 1]];
    if |s| > 1 { CanonicalPositive(s'); }
    if |t| > 1 { CanonicalPositive(t'); }
    assert Decimal(s') == Decimal(t') && s[|s| - 1] == t[|t| - 1];
    if |s| > 1 && |t| > 1 {
      NumeralUnique(s', t');
    }
  }

  /** The canonical numeral of n. */
  function Numeral(n: nat): (s: string)
    ensures CanonicalNumeral(s) && Decimal(s) == n
    ensures n > 0 ==> s[0] != '0'
  {
    if n < 10 then
      var s := [('0' as int + n) as char];
      assert Decimal(s[..0]) == 0;
      s
    else
      var s := Numeral(n / 10) + [('0' as int + n % 10) as char];
      assert s[..|s| - 1] == Numeral(n / 10);
      s
  }

  // The numbers of versions are ints of 64 bits.
  lemma NumbersWrap(n: nat)
    ensures -9223372036854775808 <= Component(Numeral(n)) <= 9223372036854775807
    ensures n <= 9223372036854775807 ==> Component(Numeral(n)) == n
    ensures Component(Numeral(9223372036854775808)) == -9223372036854775808
  {
    AllDigitsIsLeading(Numeral(n));
    AllDigitsIsLeading(Numeral(9223372036854775808));
  }

  // ----- core versions X.Y.Z (section 2 of Semantic Versioning 2.0.0) -----

  predicate IsCore(v: string) {
    var p := Split(v, '.');
    |p| == 3 && forall i :: 0 <= i < 3 ==> CanonicalNumeral(p[i])
  }

  /** Major, minor and patch as numbers. */
  function Numbers(v: string): (r: seq<nat>)
    requires IsCore(v)
    ensures |r| == 3
  {
    var p := Split(v, '.');
    [Decimal(p[0]), Decimal(p[1]), Decimal(p[2])]
  }

  /** Section 11 of Semantic Versioning 2.0.0 on core versions: numerically, major first. */
  function Precedence(v: string, w: string): int
    requires IsCore(v) && IsCore(w)
  {
    Lexicographic(Numbers(v), Numbers(w))
  }

  /** Every number of the version is an int64. */
  predicate CoreFits(v: string)
    requires IsCore(v)
  {
    forall i :: 0 <= i < 3 ==> Int64.Fits(Numbers(v)[i])
  }

  lemma CoreComponents(v: string)
    requires IsCore(v)
    ensures |Components(v)| == 3
    ensures forall i :: 0 <= i < 3 ==> Components(v)[i] == Int64.Wrap(Numbers(v)[i])
  {
    var p := Split(v, '.');
    AllDigitsIsLeading(p[0]);
    AllDigitsIsLeading(p[1]);
    AllDigitsIsLeading(p[2]);
  }

  lemma CoreIsItsNumbers(v: string, w: string)
    requires IsCore(v) && IsCore(w) && Numbers(v) == Numbers(w)
    ensures v == w
  {
    var p, q := Split(v, '.'), Split(w, '.');
    forall i | 0 <= i < 3 ensures p[i] == q[i] {
      assert Decimal(p[i]) == Numbers(v)[i] == Numbers(w)[i] == Decimal(q[i]);
      NumeralUnique(p[i], q[i]);
    }
    assert p == q;
    JoinOfSplit(v, '.');
    JoinOfSplit(w, '.');
  }

  // Within int64 the store's order is semantic precedence, and only equal versions tie.
  lemma OrderIsPrecedence(v: string, w: string)
    requires IsCore(v) && IsCore(w) && CoreFits(v) && CoreFits(w)
    ensures Order(v, w) == Precedence(v, w)
    ensures Order(v, w) == 0 <==> v == w
  {
    CoreComponents(v);
    CoreComponents(w);
    assert Components(v) == Numbers(v) && Components(w) == Numbers(w);
    VectorOrderIsLexicographic(Components(v), Components(w));
    AgreeEverywhere(Components(v), Components(w));
    if Order(v, w) == 0 {
      forall i | 0 <= i < 3 ensures Numbers(v)[i] == Numbers(w)[i] {
        assert At(Components(v), i) == At(Components(w), i);
      }
      CoreIsItsNumbers(v, w);
    } else if v == w {
      OrderReflexive(v);
    }
  }

  ghost predicate AgreesWithPrecedence(v: string)
    requires IsCore(v)
  {
    forall w :: IsCore(w) && CoreFits(w) ==> Order(v, w) == Precedence(v, w)
  }

  /** v with every number from place k on replaced by the greatest int64. */
  function Saturated(v: string, k: nat): string
    requires IsCore(v) && k < 3
  {
    var p, m := Split(v, '.'), Numeral(Int64.TWO_63 - 1);
    Join([if k > 0 then p[0] else m, if k > 1 then p[1] else m, m], '.')
  }

  lemma SaturatedIsCore(v: string, k: nat)
    requires IsCore(v) && k < 3
    ensures IsCore(Saturated(v, k))
    ensures forall i :: 0 <= i < 3 ==>
      Numbers(Saturated(v, k))[i] == if i < k then Numbers(v)[i] else Int64.TWO_63 - 1
  {
    var p, m := Split(v, '.'), Numeral(Int64.TWO_63 - 1);
    var q := [if k > 0 then p[0] else m, if k > 1 then p[1] else m, m];
    forall i | 0 <= i < 3 ensures Free(q[i], '.') {
      assert CanonicalNumeral(q[i]);
    }
    SplitOfJoin(q, '.');
  }

  // A version with a number beyond int64 is not ranked above its saturation, though it precedes it.
  lemma OversizedIsMisranked(v: string, k: nat)
    requires IsCore(v) && k < 3 && !Int64.Fits(Numbers(v)[k])
    requires forall i :: 0 <= i < k ==> Int64.Fits(Numbers(v)[i])
    ensures var w := Saturated(v, k);
      IsCore(w) && CoreFits(w) && Order(v, w) <= 0 && Precedence(v, w) == 1
  {
    var w := Saturated(v, k);
    SaturatedIsCore(v, k);
    var ns, ms: seq<int> := Numbers(v), Numbers(w);
    assert ns[..k] == ms[..k];
    LexicographicAt(ns, ms, k);
    CoreComponents(v);
    CoreComponents(w);
    LexicographicBelow(Components(v), Components(w));
    VectorOrderIsLexicographic(Components(v), Components(w));
  }

  // The store's order is semantic precedence exactly on the versions whose numbers are int64s: each
  // larger one is ranked wrongly against some version that fits.
  lemma AgreesExactlyWhenFits(v: string)
    requires IsCore(v)
    ensures AgreesWithPrecedence(v) <==> CoreFits(v)
  {
    if CoreFits(v) {
      forall w | IsCore(w) && CoreFits(w) ensures Order(v, w) == Precedence(v, w) {
        OrderIsPrecedence(v, w);
      }
    } else {
      var ns := Numbers(v);
      var k := if !Int64.Fits(ns[0]) then 0 else if !Int64.Fits(ns[1]) then 1 else 2;
      OversizedIsMisranked(v, k);
      assert Order(v, Saturated(v, k)) != Precedence(v, Saturated(v, k));
    }
  }

  // ----- text order, by which the SQL store sorts -----

  /** Dotted numerals of the same widths, place by place, all within int64. */
  predicate SameWidths(v: string, w: string) {
    var p, q := Split(v, '.'), Split(w, '.');
    && |p| == |q|
    && forall i :: 0 <= i < |p| ==>
      |p[i]| == |q[i]| && FittingNumeral(p[i]) && FittingNumeral(q[i])
  }

  predicate FittingNumeral(s: string) {
    AllDigits(s) && Int64.Fits(Decimal(s))
  }

  function Sign(x: int): int {
    if x < 0 then -1 else if x > 0 then 1 else 0
  }

  // Digit strings of one length compare as text as they compare as numbers.
  lemma {:induction false} NumeralTextOrder(x: string, y: string)
    requires |x| == |y| && AllDigits(x) && AllDigits(y)
    ensures Compare(x, y) == Sign(Decimal(x) - Decimal(y))
  {
    if x != "" {
      var n := |x| - 1;
      NumeralTextOrder(x[..n], y[..n]);
      assert x == x[..n] + [x[n]] && y == y[..n] + [y[n]];
      CompareConcat(x[..n], [x[n]], y[..n], [y[n]]);
      LessTotal(x[..n], y[..n]);
      assert Less([x[n]], [y[n]]) <==> x[n] < y[n] by { assert [x[n]][1..] == ""; }
      assert Less([y[n]], [x[n]]) <==> y[n] < x[n] by { assert [y[n]][1..] == ""; }
    }
  }

  // A longer numeral without leading zeros denotes a greater number.
  lemma {:induction false} WiderIsGreater(x: string, y: string)
    requires AllDigits(x) && AllDigits(y) && |x| < |y| && y[0] != '0'
    ensures Decimal(x) < Decimal(y)
  {
    if x == "" {
      CanonicalPositive(y);
    } else {
      WiderIsGreater(x[..|x| - 1], y[..|y| - 1]);
    }
  }

  /** Two numerals within int64 that have one width or no leading zeros. */
  predicate Alike(x: string, y: string) {
    && FittingNumeral(x) && FittingNumeral(y)
    && (|x| == |y| || (CanonicalNumeral(x) && CanonicalNumeral(y)))
  }

  predicate Numerals(p: seq<string>) {
    forall i :: 0 <= i < |p| ==> FittingNumeral(p[i])
  }

  /** Two lists of numerals, alike place by place as far as both go. */
  predicate Comparable(p: seq<string>, q: seq<string>) {
    && Numerals(p) && Numerals(q)
    && forall i :: 0 <= i < |p| && i < |q| ==> Alike(p[i], q[i])
  }

  /** If y is longer than x, its front of that length is no smaller text than x. */
  predicate CutInOrder(x: string, y: string) {
    |x| < |y| ==> !Less(y[..|x|], x)
  }

  predicate SomeNonZero(p: seq<string>)
    requires Numerals(p)
  {
    exists i :: 0 <= i < |p| && Decimal(p[i]) != 0
  }

  /** At the first place where the lists differ, the longer numeral cut to the width of the shorter is no
      smaller text; where one list ends first, a number other than zero follows in the other. */
  predicate TextFollows(p: seq<string>, q: seq<string>)
    requires Comparable(p, q)
  {
    if p == [] then q == [] || SomeNonZero(q)
    else if q == [] then SomeNonZero(p)
    else if p[0] == q[0] then TextFollows(p[1..], q[1..])
    else CutInOrder(p[0], q[0]) && CutInOrder(q[0], p[0])
  }

  function Decimals(p: seq<string>): (xs: seq<int>)
    requires Numerals(p)
    ensures |xs| == |p| && forall i :: 0 <= i < |p| ==> xs[i] == Decimal(p[i])
  {
    seq(|p|, i requires 0 <= i < |p| => Decimal(p[i]))
  }

  // The first entries decide unless they are equal.
  lemma VectorOrderCons(xs: seq<int>, ys: seq<int>)
    requires xs != [] && ys != []
    ensures VectorOrder(xs, ys) == if xs[0] != ys[0] then Sign(xs[0] - ys[0]) else VectorOrder(xs[1..], ys[1..])
  {
    var xs', ys' := xs[1..], ys[1..];
    if xs[0] != ys[0] {
      FirstDifference(xs, ys, 0);
    } else if i: nat :| At(xs', i) != At(ys', i) {
      var d := LeastDifference(xs', ys', i);
      FirstDifference(xs', ys', d);
      forall j: nat | j < d + 1 ensures At(xs, j) == At(ys, j) {
        if j > 0 { assert At(xs', j - 1) == At(ys', j - 1); }
      }
      FirstDifference(xs, ys, d + 1);
    } else {
      AgreeEverywhere(xs', ys');
      forall j: nat ensures At(xs, j) == At(ys, j) {
        if j > 0 { assert At(xs', j - 1) == At(ys', j - 1); }
      }
      AgreeEverywhere(xs, ys);
    }
  }

  // Against nothing, non-negative numbers count when one of them is not zero.
  lemma VectorOrderNil(ys: seq<int>)
    requires forall i :: 0 <= i < |ys| ==> ys[i] >= 0
    ensures var some := exists i :: 0 <= i < |ys| && ys[i] != 0;
      VectorOrder([], ys) == (if some then -1 else 0) && VectorOrder(ys, []) == if some then 1 else 0
  {
    AgreeEverywhere([], ys);
    AgreeEverywhere(ys, []);
    if i :| 0 <= i < |ys| && ys[i] != 0 {
      var d := LeastDifference([], ys, i);
      FirstDifference([], ys, d);
      assert AgreeBelow(ys, [], d);
      FirstDifference(ys, [], d);
    }
  }

  /** The text of the components that follow others. */
  function Tail(p: seq<string>): string {
    if p == [] then "" else "." + Join(p, '.')
  }

  lemma JoinIsHeadAndTail(p: seq<string>)
    requires p != []
    ensures Join(p, '.') == p[0] + Tail(p[1..])
  {
    if |p| > 1 {
      assert p[0] + ['.'] + Join(p[1..], '.') == p[0] + ("." + Join(p[1..], '.'));
    }
  }

  // A shorter numeral, followed by more components or nothing, is less text than a longer one exactly when
  // the cut of the longer one is no smaller.
  lemma ShorterNumeralText(x: string, r: seq<string>, y: string, q: string)
    requires AllDigits(y) && |x| < |y|
    ensures Compare(x + Tail(r), y + q) == if CutInOrder(x, y) then -1 else 1
  {
    var front, back := y[..|x|], y[|x|..] + q;
    assert y + q == front + back;
    CompareConcat(x, Tail(r), front, back);
    LessIrreflexive(x);
    LessTotal(x, front);
    assert IsDigit(back[0]) by { assert back[0] == y[|x|]; }
    if Less(x, front) && Less(front, x) { LessTransitive(x, front, x); }
  }

  lemma CompareSwap(a: string, b: string)
    ensures Compare(b, a) == -Compare(a, b)
  {
    LessIrreflexive(a);
    if Less(a, b) && Less(b, a) { LessTransitive(a, b, a); }
  }

  // Where the first components differ in width, the shorter is the smaller number.
  lemma WidthsDiffer(p: seq<string>, q: seq<string>)
    requires Comparable(p, q) && p != [] && q != [] && |p[0]| < |q[0]|
    ensures VectorOrder(Decimals(p), Decimals(q)) == -1
    ensures Compare(Join(p, '.'), Join(q, '.')) == if CutInOrder(p[0], q[0]) then -1 else 1
  {
    assert Alike(p[0], q[0]);
    WiderIsGreater(p[0], q[0]);
    VectorOrderCons(Decimals(p), Decimals(q));
    JoinIsHeadAndTail(p);
    JoinIsHeadAndTail(q);
    ShorterNumeralText(p[0], p[1..], q[0], Tail(q[1..]));
  }

  // Where they have one width and differ, text and numbers agree.
  lemma WidthsEqual(p: seq<string>, q: seq<string>)
    requires Comparable(p, q) && p != [] && q != [] && |p[0]| == |q[0]| && p[0] != q[0]
    ensures Compare(Join(p, '.'), Join(q, '.')) == VectorOrder(Decimals(p), Decimals(q))
  {
    assert Alike(p[0], q[0]);
    NumeralTextOrder(p[0], q[0]);
    LessTotal(p[0], q[0]);
    VectorOrderCons(Decimals(p), Decimals(q));
    JoinIsHeadAndTail(p);
    JoinIsHeadAndTail(q);
    CompareConcat(p[0], Tail(p[1..]), q[0], Tail(q[1..]));
  }

  lemma {:induction false} TailsFollow(p: seq<string>, q: seq<string>)
    requires Comparable(p, q)
    ensures Compare(Tail(p), Tail(q)) == VectorOrder(Decimals(p), Decimals(q)) <==> TextFollows(p, q)
    decreases |p|
  {
    if p == [] {
      VectorOrderNil(Decimals(q));
    } else if q == [] {
      VectorOrderNil(Decimals(p));
    } else {
      CompareConcat(".", Join(p, '.'), ".", Join(q, '.'));
      JoinsFollow(p, q);
    }
  }

  lemma {:induction false} JoinsFollow(p: seq<string>, q: seq<string>)
    requires Comparable(p, q) && p != [] && q != []
    ensures Compare(Join(p, '.'), Join(q, '.')) == VectorOrder(Decimals(p), Decimals(q)) <==> TextFollows(p, q)
    decreases |p|, 0
  {
    if p[0] == q[0] {
      var p', q' := p[1..], q[1..];
      forall i | 0 <= i < |p'| && i < |q'| ensures Alike(p'[i], q'[i]) {
        assert p'[i] == p[i + 1] && q'[i] == q[i + 1];
      }
      TailsFollow(p', q');
      VectorOrderCons(Decimals(p), Decimals(q));
      assert Decimals(p)[1..] == Decimals(p') && Decimals(q)[1..] == Decimals(q');
      JoinIsHeadAndTail(p);
      JoinIsHeadAndTail(q);
      CompareConcat(p[0], Tail(p'), q[0], Tail(q'));
    } else if |p[0]| == |q[0]| {
      WidthsEqual(p, q);
    } else if |p[0]| < |q[0]| {
      WidthsDiffer(p, q);
    } else {
      WidthsDiffer(q, p);
      CompareSwap(Join(p, '.'), Join(q, '.'));
      VectorOrderSwap(Decimals(p), Decimals(q));
    }
  }

  // Text order is the version order exactly when text follows the numbers at the first difference.
  lemma TextOrderExactly(v: string, w: string)
    requires Comparable(Split(v, '.'), Split(w, '.'))
    ensures Compare(v, w) == Order(v, w) <==> TextFollows(Split(v, '.'), Split(w, '.'))
  {
    var p, q := Split(v, '.'), Split(w, '.');
    DecimalComponents(v);
    DecimalComponents(w);
    JoinsFollow(p, q);
    JoinOfSplit(v, '.');
    JoinOfSplit(w, '.');
  }

  lemma DecimalComponents(v: string)
    requires Numerals(Split(v, '.'))
    ensures Components(v) == Decimals(Split(v, '.'))
  {
    var p := Split(v, '.');
    forall i | 0 <= i < |p| ensures Components(v)[i] == Decimal(p[i]) {
      assert FittingNumeral(p[i]);
      AllDigitsIsLeading(p[i]);
    }
  }

  // Core versions within int64 are comparable, and only equal ones tie.
  lemma CoreIsComparable(v: string, w: string)
    requires IsCore(v) && IsCore(w) && CoreFits(v) && CoreFits(w)
    ensures Comparable(Split(v, '.'), Split(w, '.'))
    ensures Order(v, w) == 0 ==> v == w
  {
    var p, q := Split(v, '.'), Split(w, '.');
    assert forall i :: 0 <= i < 3 ==> Int64.Fits(Numbers(v)[i]) && Int64.Fits(Numbers(w)[i]);
    assert Numbers(v) == [Decimal(p[0]), Decimal(p[1]), Decimal(p[2])];
    assert Numbers(w) == [Decimal(q[0]), Decimal(q[1]), Decimal(q[2])];
    forall i | 0 <= i < 3 ensures FittingNumeral(p[i]) && FittingNumeral(q[i]) && Alike(p[i], q[i]) {
      assert CanonicalNumeral(p[i]) && CanonicalNumeral(q[i]);
      assert Decimal(p[i]) == Numbers(v)[i] && Decimal(q[i]) == Numbers(w)[i];
    }
    OrderIsPrecedence(v, w);
  }

  // So does text order among versions of the same widths, leading zeros or not.
  lemma TextOrderIsOrder(v: string, w: string)
    requires SameWidths(v, w)
    ensures Comparable(Split(v, '.'), Split(w, '.')) && Compare(v, w) == Order(v, w)
    ensures Order(v, w) == 0 ==> v == w
  {
    SameWidthsFollow(Split(v, '.'), Split(w, '.'));
    TextOrderExactly(v, w);
    LessTotal(v, w);
  }

  lemma {:induction false} SameWidthsFollow(p: seq<string>, q: seq<string>)
    requires |p| == |q|
    requires forall i :: 0 <= i < |p| ==> |p[i]| == |q[i]| && FittingNumeral(p[i]) && FittingNumeral(q[i])
    ensures Comparable(p, q) && TextFollows(p, q)
  {
    if p != [] { SameWidthsFollow(p[1..], q[1..]); }
  }

  // Among comparable versions without ties both stores pick the same latest one exactly when text follows
  // the numbers between that one and every other.
  lemma SameLatestExactly(versions: set<string>, latest: string, last: string)
    requires forall v, w :: v in versions && w in versions ==> Comparable(Split(v, '.'), Split(w, '.'))
    requires forall v, w :: v in versions && w in versions && Order(v, w) == 0 ==> v == w
    requires latest in versions && forall v :: v in versions ==> Order(v, latest) <= 0
    requires last in versions && forall v :: v in versions ==> !Less(last, v)
    ensures latest == last <==> forall v :: v in versions ==> TextFollows(Split(v, '.'), Split(latest, '.'))
  {
    if latest == last {
      forall v | v in versions ensures TextFollows(Split(v, '.'), Split(latest, '.')) {
        TextOrderExactly(v, latest);
        LessTotal(v, latest);
        OrderReflexive(v);
        LessIrreflexive(v);
      }
    } else if forall v :: v in versions ==> TextFollows(Split(v, '.'), Split(latest, '.')) {
      TextOrderExactly(last, latest);
      LessTotal(last, latest);
    }
  }

  // Versions of the same widths always lead both stores to the same latest one.
  lemma SameLatestVersion(versions: set<string>, latest: string, last: string)
    requires forall v, w :: v in versions && w in versions ==> SameWidths(v, w)
    requires latest in versions && forall v :: v in versions ==> Order(v, latest) <= 0
    requires last in versions && forall v :: v in versions ==> !Less(last, v)
    ensures latest == last
  {
    TextOrderIsOrder(last, latest);
    LessTotal(last, latest);
  }

  lemma SingleNumeral(x: string)
    requires FittingNumeral(x)
    ensures Components(x) == [Decimal(x)]
  {
    assert Free(x, '.');
    SplitFree(x, '.');
    AllDigitsIsLeading(x);
  }

  lemma SingletonOrder(a: int, b: int)
    ensures VectorOrder([a], [b]) == Sign(a - b)
  {
    VectorOrderCons([a], [b]);
    AgreeEverywhere([], []);
    assert [a][1..] == [] && [b][1..] == [];
  }

  // Of two numerals the wider may be smaller or greater text.
  lemma TextOrderVaries()
    ensures Order("10", "9") == 1 && Compare("10", "9") == -1
    ensures Order("10", "1") == 1 && Compare("10", "1") == 1
  {
    assert Decimal("1") == 1 && Decimal("9") == 9;
    assert Decimal("10") == 10 by { assert "10"[..1] == "1"; }
    SingleNumeral("1");
    SingleNumeral("9");
    SingleNumeral("10");
    SingletonOrder(10, 9);
    SingletonOrder(10, 1);
    assert Less("1", "10") && !Less("10", "1") by { assert "1"[1..] == "" && "10"[1..] == "0"; }
  }
}
