/** The string codecs around the stores: the SQL store's array text and the query parameter lists. */
module Codecs {
  import opened Sequences
  import opened Text

  // ----- array text of the SQL store -----

  /** The text the SQL store writes for a list of tags or roles. */
  function EncodeArray(xs: seq<string>): string {
    if xs == [] then "{}" else "{" + Join(xs, ',') + "}"
  }

  /** How the SQL store reads such a text back. */
  function DecodeArray(s: string): seq<string> {
    if s == "" || s == "{}" then []
    else
      var out := Split(Trim(s, IsBrace), ',');
      if |out| == 1 && out[0] == "" then [] else out
  }

  /** No comma inside an element, no brace at either end of the list, and not the list of one empty string. */
  predicate RoundTrips(xs: seq<string>) {
    xs == [] ||
    (&& xs != [""]
     && (forall i :: 0 <= i < |xs| ==> Free(xs[i], ','))
     && (xs[0] != "" ==> !IsBrace(xs[0][0]))
     && (var last := xs[|xs| - 1]; last != "" ==> !IsBrace(last[|last| - 1])))
  }

  // The first and the last character of a joined list.
  lemma {:induction false} JoinEnds(xs: seq<string>)
    requires xs != [] && xs != [""]
    ensures var j, last := Join(xs, ','), xs[|xs| - 1];
      && j != ""
      && j[0] == (if xs[0] == "" then ',' else xs[0][0])
      && j[|j| - 1] == (if last == "" then ',' else last[|last| - 1])
  {
    if |xs| > 1 {
      var j, tail := Join(xs, ','), Join(xs[1..], ',');
      assert j == xs[0] + [','] + tail;
      if xs[1..] == [""] {
        assert tail == "";
      } else {
        JoinEnds(xs[1..]);
        assert j[|j| - 1] == tail[|tail| - 1];
      }
    }
  }

  lemma TrimBraced(j: string)
    requires j != "" && Trimmed(j, IsBrace)
    ensures Trim("{" + j + "}", IsBrace) == j
  {
    var s := "{" + j + "}";
    assert s[1..] == j + "}";
    assert (j + "}")[..|j|] == j;
    TrimFixed(j, IsBrace);
  }

  // Decoding inverts encoding exactly on these lists.
  lemma DecodeInvertsEncodeExactly(xs: seq<string>)
    ensures DecodeArray(EncodeArray(xs)) == xs <==> RoundTrips(xs)
  {
    if xs == [] {
    } else if xs == [""] {
      assert EncodeArray(xs) == "{}";
    } else if RoundTrips(xs) {
      RoundTripSucceeds(xs);
    } else if DecodeArray(EncodeArray(xs)) == xs {
      RoundTripNeeds(xs);
    }
  }

  lemma RoundTripSucceeds(xs: seq<string>)
    requires xs != [] && RoundTrips(xs)
    ensures DecodeArray(EncodeArray(xs)) == xs
  {
    JoinEnds(xs);
    TrimBraced(Join(xs, ','));
    SplitOfJoin(xs, ',');
    assert |EncodeArray(xs)| > 2;
  }

  // What decoding yields is cut at all commas and has no brace at its ends.
  lemma RoundTripNeeds(xs: seq<string>)
    requires xs != [] && xs != [""] && DecodeArray(EncodeArray(xs)) == xs
    ensures RoundTrips(xs)
  {
    var t := Trim(EncodeArray(xs), IsBrace);
    assert Split(t, ',') == xs;
    JoinOfSplit(t, ',');
    TrimIsTrimmed(EncodeArray(xs), IsBrace);
    JoinEnds(xs);
  }

  /** Section 8.15.6 of the PostgreSQL documentation: such elements appear unquoted in array text. */
  predicate NeedsNoQuoting(x: string) {
    && x != ""
    && (forall i :: 0 <= i < |x| ==> !IsBrace(x[i]) && !IsSpace(x[i]) && x[i] !in {',', '"', '\\'})
    && !(|x| == 4 && x[0] in "nN" && x[1] in "uU" && x[2] in "lL" && x[3] in "lL")
  }

  lemma UnquotedListsRoundTrip(xs: seq<string>)
    requires forall i :: 0 <= i < |xs| ==> NeedsNoQuoting(xs[i])
    ensures DecodeArray(EncodeArray(xs)) == xs
  {
    if xs != [] {
      assert NeedsNoQuoting(xs[0]) && NeedsNoQuoting(xs[|xs| - 1]);
      forall i | 0 <= i < |xs| ensures Free(xs[i], ',') {
        assert NeedsNoQuoting(xs[i]);
      }
      DecodeInvertsEncodeExactly(xs);
    }
  }

  // ----- comma-separated query parameters -----

  /** The trimmed parts that are not empty. */
  function NonEmptyTrimmed(parts: seq<string>): seq<string> {
    if parts == [] then []
    else
      var before, p := NonEmptyTrimmed(parts[..|parts| - 1]), Trim(parts[|parts| - 1], IsSpace);
      if p != "" then before + [p] else before
  }

  function QueryList(s: string): seq<string> {
    if s == "" then [] else NonEmptyTrimmed(Split(s, ','))
  }

  method SplitCSV(s: string) returns (out: seq<string>)
    ensures out == QueryList(s)
  {
    out := [];
    if s == "" {
      return;
    }
    var parts := Split(s, ',');
    for i := 0 to |parts|
      invariant out == NonEmptyTrimmed(parts[..i])
    {
      assert parts[..i + 1][..i] == parts[..i];
      var p := Trim(parts[i], IsSpace);
      if p != "" {
        out := out + [p];
      }
    }
    assert parts[..|parts|] == parts;
  }

  function NotBlank(): string -> bool {
    (p: string) => exists i :: 0 <= i < |p| && !IsSpace(p[i])
  }

  // Each part between commas that is not blank gives one element, in order, and what it loses are blanks at its ends.
  lemma QueryListHoldsParts(s: string, i: nat)
    ensures |QueryList(s)| == |Filter(Split(s, ','), NotBlank())|
    ensures i < |QueryList(s)| ==> QueryList(s)[i] == Trim(Filter(Split(s, ','), NotBlank())[i], IsSpace)
  {
    NonEmptyIsNotBlank(Split(s, ','));
    if s == "" { assert Split(s, ',') == [""] && Filter([""][..0], NotBlank()) == []; }
  }

  lemma {:induction false} NonEmptyIsNotBlank(parts: seq<string>)
    ensures var kept, out := Filter(parts, NotBlank()), NonEmptyTrimmed(parts);
      |out| == |kept| && forall i :: 0 <= i < |kept| ==> out[i] == Trim(kept[i], IsSpace)
  {
    if parts != [] {
      NonEmptyIsNotBlank(parts[..|parts| - 1]);
      TrimOfBlank(parts[|parts| - 1]);
    }
  }

  lemma TrimOfBlank(p: string)
    ensures Trim(p, IsSpace) != "" <==> NotBlank()(p)
  {
    var l, r := TrimIsMiddle(p, IsSpace);
    var t := Trim(p, IsSpace);
    TrimIsTrimmed(p, IsSpace);
    if t != "" { assert p[|l|] == t[0]; }
    if t == "" { assert p == l + r; }
  }

  /** An element a query list can hold. */
  predicate Clean(x: string) {
    x != "" && Trimmed(x, IsSpace) && Free(x, ',')
  }

  lemma {:induction false} NonEmptyTrimmedIsClean(parts: seq<string>)
    requires forall p :: p in parts ==> Free(p, ',')
    ensures forall x :: x in NonEmptyTrimmed(parts) ==> Clean(x)
  {
    if parts != [] {
      var last := parts[|parts| - 1];
      NonEmptyTrimmedIsClean(parts[..|parts| - 1]);
      TrimFree(last, IsSpace, ',');
      TrimIsTrimmed(last, IsSpace);
    }
  }

  lemma {:induction false} CleanStays(xs: seq<string>)
    requires forall x :: x in xs ==> Clean(x)
    ensures NonEmptyTrimmed(xs) == xs
  {
    if xs != [] {
      CleanStays(xs[..|xs| - 1]);
      assert xs[|xs| - 1] in xs && xs == xs[..|xs| - 1] + [xs[|xs| - 1]];
      TrimFixed(xs[|xs| - 1], IsSpace);
    }
  }

  lemma QueryListIsClean(s: string)
    ensures forall x :: x in QueryList(s) ==> Clean(x)
  {
    JoinOfSplit(s, ',');
    NonEmptyTrimmedIsClean(Split(s, ','));
  }

  // The lists a query can express are those of clean elements, each by its own join.
  lemma QueryListOfJoin(xs: seq<string>)
    ensures QueryList(Join(xs, ',')) == xs <==> forall x :: x in xs ==> Clean(x)
  {
    QueryListIsClean(Join(xs, ','));
    if xs != [] && forall x :: x in xs ==> Clean(x) {
      assert xs[0] in xs;
      SplitOfJoin(xs, ',');
      CleanStays(xs);
      JoinEnds(xs);
    }
  }

  // Hence splitting, joining and splitting again changes nothing.
  lemma QueryListIdempotent(s: string)
    ensures QueryList(Join(QueryList(s), ',')) == QueryList(s)
  {
    QueryListIsClean(s);
    QueryListOfJoin(QueryList(s));
  }
}
