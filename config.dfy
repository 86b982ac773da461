/** The comma-separated configuration lists (`SUBSCRIBED_EMAILS`, `ESTATE_NAMES`):
    `[x.strip() for x in s.split(',') if x.strip()]`. */
module Config {
  import opened Text

  /** An entry as the parser keeps it: not empty, no surrounding whitespace, no comma. */
  predicate IsEntry(x: string) {
    x != [] && IsStripped(x) && ',' !in x
  }

  /** Strip every piece and drop those that strip to nothing, keeping the order. */
  function Clean(pieces: seq<string>): (r: seq<string>)
    ensures |r| <= |pieces|
    ensures forall i :: 0 <= i < |r| ==> r[i] != [] && IsStripped(r[i])
  {
    if pieces == [] then []
    else
      var x := Strip(pieces[0]);
      StripSlice(pieces[0]);
      (if x == [] then [] else [x]) + Clean(pieces[1..])
  }

  /** Parse a comma-separated list. A missing variable reads as the empty string. */
  function ParseList(s: string): (r: seq<string>)
    ensures forall i :: 0 <= i < |r| ==> IsEntry(r[i])
  {
    var pieces := Split(s, ',');
    CleanKeepsNoComma(pieces);
    Clean(pieces)
  }

  lemma {:induction false} CleanKeepsNoComma(pieces: seq<string>)
    requires forall i :: 0 <= i < |pieces| ==> ',' !in pieces[i]
    ensures forall i :: 0 <= i < |Clean(pieces)| ==> ',' !in Clean(pieces)[i]
  {
    if pieces != [] {
      StripKeepsInner(pieces[0], ',');
      CleanKeepsNoComma(pieces[1..]);
    }
  }

  lemma {:induction false} CleanAppend(a: seq<string>, b: seq<string>)
    ensures Clean(a + b) == Clean(a) + Clean(b)
  {
    if a != [] {
      var x := Strip(a[0]);
      var head := if x == [] then [] else [x];
      assert (a + b)[0] == a[0];
      assert (a + b)[1..] == a[1..] + b;
      calc {
        Clean(a + b);
        head + Clean(a[1..] + b);
        { CleanAppend(a[1..], b); }
        head + (Clean(a[1..]) + Clean(b));
        (head + Clean(a[1..])) + Clean(b);
      }
    } else {
      assert a + b == b;
    }
  }

  /** Order is kept: the entries before a comma come first, then those after it. */
  lemma {:induction false} ParseListAppend(a: string, b: string)
    ensures ParseList(a + "," + b) == ParseList(a) + ParseList(b)
  {
    SplitAtSeparator(a, b, ',');
    CleanAppend(Split(a, ','), Split(b, ','));
  }

  /** A single piece without a comma parses to its stripped form, or to nothing when it is
      blank; with `ParseListAppend` this fixes the parse of every input. */
  lemma ParseListPiece(x: string)
    requires ',' !in x
    ensures ParseList(x) == (if Strip(x) == [] then [] else [Strip(x)])
  {
    SplitNoSeparator(x, ',');
    assert Clean([x]) == (if Strip(x) == [] then [] else [Strip(x)]) + Clean([]);
  }

  /** An entry, a comma and then anything: the entry comes first, with or without one space
      in front of it. */
  lemma ParseEntryThen(x: string, t: string)
    requires IsEntry(x)
    ensures ParseList(x + "," + t) == [x] + ParseList(t)
    ensures ParseList(" " + x + "," + t) == [x] + ParseList(t)
  {
    StripStripped(x);
    StripPadded(x);
    ParseListAppend(x, t);
    ParseListPiece(x);
    ParseListAppend(" " + x, t);
    ParseListPiece(" " + x);
  }

  /** A single entry, with or without one space in front of it. */
  lemma ParseEntry(x: string)
    requires IsEntry(x)
    ensures ParseList(x) == [x] && ParseList(" " + x) == [x]
  {
    StripStripped(x);
    StripPadded(x);
    ParseListPiece(x);
    ParseListPiece(" " + x);
  }

  /** `", "` between the first part and the rest is a comma, then the rest with one space in
      front. */
  lemma JoinCommaSpace(xs: seq<string>)
    requires |xs| >= 2
    ensures Join(xs, ", ") == xs[0] + "," + (" " + Join(xs[1..], ", "))
    ensures " " + Join(xs, ", ") == " " + xs[0] + "," + (" " + Join(xs[1..], ", "))
  {
    var a, r := xs[0], Join(xs[1..], ", ");
    assert Join(xs, ", ") == a + ", " + r;
    CommaSpace(a, r);
  }

  lemma CommaSpace(a: string, r: string)
    ensures a + ", " + r == a + "," + (" " + r)
    ensures " " + (a + ", " + r) == " " + a + "," + (" " + r)
  {
    assert ", " == "," + " ";
  }

  /** Entries joined with `", "`, the way the alert body lists estates, parse back to the same
      list: the space after each comma is stripped off the following piece. */
  lemma {:induction false} ParseCommaSpaceJoin(xs: seq<string>)
    requires forall i :: 0 <= i < |xs| ==> IsEntry(xs[i])
    ensures ParseList(Join(xs, ", ")) == xs
    ensures xs != [] ==> ParseList(" " + Join(xs, ", ")) == xs
  {
    if xs == [] {
      ParseListBlank([]);
    } else if |xs| == 1 {
      ParseEntry(xs[0]);
    } else {
      var x := xs[0];
      var t := " " + Join(xs[1..], ", ");
      JoinCommaSpace(xs);
      ParseCommaSpaceJoin(xs[1..]);
      ParseEntryThen(x, t);
      assert [x] + xs[1..] == xs;
    }
  }

  /** An empty or all-blank string parses to no entries at all. */
  lemma ParseListBlank(s: string)
    requires AllSpace(s)
    ensures ParseList(s) == []
  {
    assert ',' !in s by {
      assert !IsSpace(',');
    }
    SplitNoSeparator(s, ',');
    StripAllSpace(s);
  }

  /** Parsing undoes joining with commas: a list of entries survives `",".join` and re-parsing
      unchanged, in the same order. */
  lemma {:induction false} ParseJoinRoundTrip(xs: seq<string>)
    requires forall i :: 0 <= i < |xs| ==> IsEntry(xs[i])
    ensures ParseList(Join(xs, ",")) == xs
  {
    if xs == [] {
      assert Split([], ',') == [[]];
    } else {
      SplitJoin(xs, ',');
      CleanEntries(xs);
    }
  }

  lemma {:induction false} CleanEntries(xs: seq<string>)
    requires forall i :: 0 <= i < |xs| ==> IsEntry(xs[i])
    ensures Clean(xs) == xs
  {
    if xs != [] {
      StripStripped(xs[0]);
      CleanEntries(xs[1..]);
      calc {
        Clean(xs);
        [xs[0]] + Clean(xs[1..]);
        [xs[0]] + xs[1..];
        xs;
      }
    }
  }

  /** Parsing is idempotent: re-joining a parsed list and parsing again gives the same list,
      which is what the recipient header `",".join(SUBSCRIBED_EMAILS)` relies on. */
  lemma ParseListIdempotent(s: string)
    ensures ParseList(Join(ParseList(s), ",")) == ParseList(s)
  {
    ParseJoinRoundTrip(ParseList(s));
  }
}
