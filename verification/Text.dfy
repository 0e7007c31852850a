/** Strings as the registry uses them: split and join on a separator, trimming, and byte order.
    A string is its sequence of code points, whose order is the order of the UTF-8 bytes. */
module Text {

  predicate Free(s: string, c: char) {
    c !in s
  }

  function Split(s: string, sep: char): (r: seq<string>)
    ensures |r| >= 1
  {
    if s == "" then [""] else Prepend(s[0], Split(s[1..], sep), sep)
  }

  /** The parts of c followed by a string whose parts are given. */
  function Prepend(c: char, parts: seq<string>, sep: char): seq<string>
    requires parts != []
  {
    if c == sep then [""] + parts else [[c] + parts[0]] + parts[1..]
  }

  function Join(parts: seq<string>, sep: char): string {
    if parts == [] then ""
    else if |parts| == 1 then parts[0]
    else parts[0] + [sep] + Join(parts[1..], sep)
  }

  // Split only cuts at separators, and at all of them.
  lemma {:induction false} JoinOfSplit(s: string, sep: char)
    ensures Join(Split(s, sep), sep) == s
    ensures forall p :: p in Split(s, sep) ==> Free(p, sep)
  {
    if s != "" {
      JoinOfSplit(s[1..], sep);
      var rest := Split(s[1..], sep);
      if s[0] == sep {
        assert ([""] + rest)[1..] == rest;
      } else {
        var r := [[s[0]] + rest[0]] + rest[1..];
        assert r[1..] == rest[1..];
        assert rest[0] in rest;
        forall p | p in r ensures Free(p, sep) {
          assert p == r[0] || p in rest[1..];
        }
      }
    }
  }

  lemma {:induction false} SplitFree(s: string, sep: char)
    requires Free(s, sep)
    ensures Split(s, sep) == [s]
  {
    if s != "" {
      SplitFree(s[1..], sep);
      assert [s[0]] + s[1..] == s;
    }
  }

  lemma {:induction false} SplitConcat(a: string, b: string, sep: char)
    ensures Split(a + [sep] + b, sep) == Split(a, sep) + Split(b, sep)
  {
    if a == "" {
      assert "" + [sep] + b == [sep] + b;
      assert ([sep] + b)[1..] == b;
    } else {
      SplitConcat(a[1..], b, sep);
      assert (a + [sep] + b)[1..] == a[1..] + [sep] + b;
      PrependConcat(a[0], Split(a[1..], sep), Split(b, sep), sep);
    }
  }

  lemma PrependConcat(c: char, front: seq<string>, back: seq<string>, sep: char)
    requires front != []
    ensures Prepend(c, front + back, sep) == Prepend(c, front, sep) + back
  {
  }

  lemma SplitCons(head: string, tail: string, sep: char)
    requires Free(head, sep)
    ensures Split(head + [sep] + tail, sep) == [head] + Split(tail, sep)
  {
    SplitConcat(head, tail, sep);
    SplitFree(head, sep);
  }

  lemma {:induction false} SplitOfJoin(parts: seq<string>, sep: char)
    requires parts != []
    requires forall p :: p in parts ==> Free(p, sep)
    ensures Split(Join(parts, sep), sep) == parts
  {
    if |parts| == 1 {
      SplitFree(parts[0], sep);
    } else {
      SplitOfJoin(parts[1..], sep);
      SplitCons(parts[0], Join(parts[1..], sep), sep);
      assert [parts[0]] + parts[1..] == parts;
    }
  }

  // The text before the first separator and the text after it are determined by the whole.
  lemma CutUnique(a: string, r: string, a': string, r': string, sep: char)
    requires Free(a, sep) && Free(a', sep)
    requires a + [sep] + r == a' + [sep] + r'
    ensures a == a' && r == r'
  {
    var s := a + [sep] + r;
    assert s[|a|] == sep && s[|a'|] == sep;
    assert s[..|a|] == a && s[..|a'|] == a';
    assert forall k :: 0 <= k < |a| ==> s[k] == a[k] && a[k] != sep;
    assert forall k :: 0 <= k < |a'| ==> s[k] == a'[k] && a'[k] != sep;
    assert |a| == |a'|;
    assert r == s[|a| + 1..] == r';
  }

  // ----- byte order -----

  predicate Less(a: string, b: string) {
    b != "" && (a == "" || a[0] < b[0] || (a[0] == b[0] && Less(a[1..], b[1..])))
  }

  /** The sign of the comparison of two strings in byte order. */
  function Compare(a: string, b: string): int {
    if Less(a, b) then -1 else if Less(b, a) then 1 else 0
  }

  lemma {:induction false} LessIrreflexive(a: string)
    ensures !Less(a, a)
  {
    if a != "" { LessIrreflexive(a[1..]); }
  }

  lemma {:induction false} LessTransitive(a: string, b: string, c: string)
    requires Less(a, b) && Less(b, c)
    ensures Less(a, c)
  {
    if a != "" && a[0] == b[0] == c[0] { LessTransitive(a[1..], b[1..], c[1..]); }
  }

  lemma {:induction false} LessTotal(a: string, b: string)
    ensures Less(a, b) || Less(b, a) || a == b
  {
    if a != "" && b != "" && a[0] == b[0] {
      LessTotal(a[1..], b[1..]);
      assert a == [a[0]] + a[1..] && b == [b[0]] + b[1..];
    }
  }

  // Strings of one length in front decide the comparison unless they are equal.
  lemma {:induction false} CompareConcat(x: string, r: string, y: string, q: string)
    requires |x| == |y|
    ensures Compare(x + r, y + q) == if x == y then Compare(r, q) else Compare(x, y)
  {
    if x == "" {
      assert x + r == r && y + q == q;
    } else {
      assert (x + r)[1..] == x[1..] + r && (y + q)[1..] == y[1..] + q;
      CompareConcat(x[1..], r[..], y[1..], q[..]);
      assert r[..] == r && q[..] == q;
      assert x == [x[0]] + x[1..] && y == [y[0]] + y[1..];
      LessIrreflexive(x);
    }
  }

  // ----- trimming -----

  /** The White_Space code points of Unicode. */
  predicate IsSpace(c: char) {
    || '\U{9}' <= c <= '\U{D}' || c == ' ' || c == '\U{85}' || c == '\U{A0}' || c == '\U{1680}'
    || '\U{2000}' <= c <= '\U{200A}' || c == '\U{2028}' || c == '\U{2029}' || c == '\U{202F}'
    || c == '\U{205F}' || c == '\U{3000}'
  }

  const SPACES: set<int> := {
    9, 10, 11, 12, 13, 32, 133, 160, 5760, 8192, 8193, 8194, 8195, 8196, 8197, 8198, 8199, 8200, 8201, 8202,
    8232, 8233, 8239, 8287, 12288}

  // They are these twenty-five.
  lemma SpacesByNumber(c: char)
    ensures IsSpace(c) <==> c as int in SPACES
  {
  }

  predicate IsBrace(c: char) {
    c == '{' || c == '}'
  }

  /** s without the characters of the cutset at its two ends. */
  function Trim(s: string, cut: char -> bool): string
    decreases |s|
  {
    if s == "" then ""
    else if cut(s[0]) then Trim(s[1..], cut)
    else if cut(s[|s| - 1]) then Trim(s[..|s| - 1], cut)
    else s
  }

  predicate Trimmed(s: string, cut: char -> bool) {
    s == "" || (!cut(s[0]) && !cut(s[|s| - 1]))
  }

  predicate AllOf(s: string, cut: char -> bool) {
    forall i :: 0 <= i < |s| ==> cut(s[i])
  }

  // Trimming removes cut characters only, at the ends only...
  lemma {:induction false} TrimIsMiddle(s: string, cut: char -> bool) returns (l: string, r: string)
    ensures s == l + Trim(s, cut) + r
    ensures AllOf(l, cut) && AllOf(r, cut)
    decreases |s|
  {
    l, r := "", "";
    if s != "" && cut(s[0]) {
      var l', r' := TrimIsMiddle(s[1..], cut);
      l, r := [s[0]] + l', r';
      assert s == [s[0]] + (l' + Trim(s, cut) + r');
    } else if s != "" && cut(s[|s| - 1]) {
      var l', r' := TrimIsMiddle(s[..|s| - 1], cut);
      l, r := l', r' + [s[|s| - 1]];
      assert s == (l' + Trim(s, cut) + r') + [s[|s| - 1]];
    }
  }

  // ...and all of them.
  lemma {:induction false} TrimIsTrimmed(s: string, cut: char -> bool)
    ensures Trimmed(Trim(s, cut), cut)
    decreases |s|
  {
    if s != "" && cut(s[0]) {
      TrimIsTrimmed(s[1..], cut);
    } else if s != "" && cut(s[|s| - 1]) {
      TrimIsTrimmed(s[..|s| - 1], cut);
    }
  }

  lemma TrimFixed(s: string, cut: char -> bool)
    ensures Trim(s, cut) == s <==> Trimmed(s, cut)
  {
    TrimIsTrimmed(s, cut);
  }

  // A separator-free string stays separator-free.
  lemma TrimFree(s: string, cut: char -> bool, sep: char)
    requires Free(s, sep)
    ensures Free(Trim(s, cut), sep)
  {
    var l, r := TrimIsMiddle(s, cut);
  }
}
