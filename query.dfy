/** The search query `monitor_twitter` sends: posts by the utility's care account, not reposts or
    replies, mentioning any configured estate as a quoted phrase. `ParseQuery` reads the names
    back out of a query, which is how the builder is shown to lose and reorder nothing. */
module Query {
  import opened Wrappers
  import opened Text

  const Prefix: string := "from:KenyaPower_Care ("
  const Suffix: string := ") -is:retweet -is:reply"
  const Or: string := " OR "

  /** `f'"{name.strip()}"'` */
  function Quote(name: string): string {
    "\"" + Strip(name) + "\""
  }

  function QuoteAll(names: seq<string>): (r: seq<string>)
    ensures |r| == |names| && forall i :: 0 <= i < |names| ==> r[i] == Quote(names[i])
  {
    seq(|names|, i requires 0 <= i < |names| => Quote(names[i]))
  }

  function StripAll(names: seq<string>): (r: seq<string>)
    ensures |r| == |names| && forall i :: 0 <= i < |names| ==> r[i] == Strip(names[i])
  {
    seq(|names|, i requires 0 <= i < |names| => Strip(names[i]))
  }

  /** `" OR ".join(f'"{name.strip()}"' for name in ESTATE_NAMES)` */
  function Conditions(names: seq<string>): string {
    Join(QuoteAll(names), Or)
  }

  /** The whole query: the fixed account filter, the alternatives in parentheses, and the
      exclusion of reposts and replies. */
  function BuildQuery(names: seq<string>): (q: string)
    ensures |q| >= |Prefix| + |Suffix|
    ensures q[..|Prefix|] == Prefix && q[|q| - |Suffix|..] == Suffix
  {
    Prefix + Conditions(names) + Suffix
  }

  /** The first index of `c` in `s`, if any. */
  function IndexOf(s: string, c: char): (r: Option<nat>)
    ensures r.None? ==> c !in s
    ensures r.Some? ==> r.value < |s| && s[r.value] == c && c !in s[..r.value]
  {
    if s == [] then None
    else if s[0] == c then Some(0)
    else
      match IndexOf(s[1..], c)
      case None => None
      case Some(k) =>
        assert s[..k + 1] == [s[0]] + s[1..][..k];
        Some(k + 1)
  }

  /** Reads `"a" OR "b" OR ...` (one or more quoted phrases) back into its phrases. */
  function ParseTermList(s: string): Option<seq<string>>
    decreases |s|
  {
    if |s| < 2 || s[0] != '"' then None
    else
      match IndexOf(s[1..], '"')
      case None => None
      case Some(k) =>
        var rest := s[k + 2..];
        if rest == [] then Some([s[1..k + 1]])
        else if |rest| >= |Or| && rest[..|Or|] == Or then
          match ParseTermList(rest[|Or|..])
          case None => None
          case Some(more) => Some([s[1..k + 1]] + more)
        else None
  }

  function ParseTerms(s: string): Option<seq<string>> {
    if s == [] then Some([]) else ParseTermList(s)
  }

  /** The estate names a query asks for, if it has the shape `BuildQuery` gives. */
  function ParseQuery(q: string): Option<seq<string>> {
    if |q| >= |Prefix| + |Suffix| && q[..|Prefix|] == Prefix && q[|q| - |Suffix|..] == Suffix then
      ParseTerms(q[|Prefix|..|q| - |Suffix|])
    else None
  }

  /** A quoted phrase followed by `tail` reads back as the phrase, then whatever `tail` holds. */
  lemma QuotedHead(x: string, tail: string)
    requires '"' !in x
    ensures IndexOf((Quote(x) + tail)[1..], '"') == Some(|Strip(x)|)
    ensures (Quote(x) + tail)[1..|Strip(x)| + 1] == Strip(x)
    ensures (Quote(x) + tail)[|Strip(x)| + 2..] == tail
  {
    var y := Strip(x);
    StripKeepsInner(x, '"');
    var s := Quote(x) + tail;
    assert s[1..] == y + ("\"" + tail);
    IndexOfAfter(y, "\"" + tail, '"');
  }

  lemma {:induction false} IndexOfAfter(a: string, b: string, c: char)
    requires c !in a && b != [] && b[0] == c
    ensures IndexOf(a + b, c) == Some(|a|)
  {
    if a != [] {
      assert (a + b)[1..] == a[1..] + b;
      IndexOfAfter(a[1..], b, c);
    } else {
      assert a + b == b;
    }
  }

  /** One step of the reader: a quoted phrase, then either the end or `" OR "` and more. */
  lemma ParseHead(x: string, tail: string)
    requires '"' !in x
    ensures tail == [] ==> ParseTermList(Quote(x) + tail) == Some([Strip(x)])
    ensures |tail| >= |Or| && tail[..|Or|] == Or ==>
      ParseTermList(Quote(x) + tail) ==
        match ParseTermList(tail[|Or|..])
        case None => None
        case Some(more) => Some([Strip(x)] + more)
  {
    QuotedHead(x, tail);
  }

  /** With two or more names the alternatives are the first quoted name, `" OR "`, and the
      alternatives of the rest. */
  lemma ConditionsCons(names: seq<string>)
    requires |names| >= 2
    ensures Conditions(names) == Quote(names[0]) + (Or + Conditions(names[1..]))
    ensures Conditions(names[1..]) != []
    ensures StripAll(names) == [Strip(names[0])] + StripAll(names[1..])
  {
    assert QuoteAll(names)[1..] == QuoteAll(names[1..]);
    assert QuoteAll(names[1..])[0] == Quote(names[1]);
  }

  /** The alternatives read back as the stripped names, in configuration order, provided no
      name holds a double quote. */
  lemma {:induction false} ParseConditions(names: seq<string>)
    requires forall i :: 0 <= i < |names| ==> '"' !in names[i]
    ensures ParseTerms(Conditions(names)) == Some(StripAll(names))
  {
    if names == [] {
    } else if |names| == 1 {
      assert QuoteAll(names) == [Quote(names[0])];
      ParseHead(names[0], []);
      assert Quote(names[0]) + [] == Quote(names[0]);
      assert StripAll(names) == [Strip(names[0])];
    } else {
      var more := Conditions(names[1..]);
      var tail := Or + more;
      ConditionsCons(names);
      ParseHead(names[0], tail);
      assert tail[|Or|..] == more;
      ParseConditions(names[1..]);
    }
  }

  /** Round trip: the names read back out of the built query are the configured names, stripped,
      in configuration order, none lost and none added. */
  lemma QueryRoundTrip(names: seq<string>)
    requires forall i :: 0 <= i < |names| ==> '"' !in names[i]
    ensures ParseQuery(BuildQuery(names)) == Some(StripAll(names))
  {
    var q := BuildQuery(names);
    assert q[|Prefix|..|q| - |Suffix|] == Conditions(names);
    ParseConditions(names);
  }
}
