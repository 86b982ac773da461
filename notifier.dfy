/** The notification `monitor_twitter` hands to `send_email` for a post that matched: a fixed
    subject, a body naming the matched estates, quoting the post and linking to it, from the
    configured account to all subscribers in one `To` header. */
module Notifier {
  import opened Wrappers
  import opened Text
  import Config
  import Query

  const Subject: string := "Power Maintenance Alert"
  const Lead: string := "Kenya Power posted about maintenance in "
  const LinkLabel: string := "\n\nTweet Link: "
  const LinkBase: string := "https://x.com/"

  /** The headers and text of the message `send_email` builds. */
  datatype Message = Message(sender: string, to: string, subject: string, body: string)

  predicate IsDigit(c: char) {
    '0' <= c <= '9'
  }

  predicate AllDigits(s: string) {
    forall i :: 0 <= i < |s| ==> IsDigit(s[i])
  }

  function DigitChar(d: nat): (c: char)
    requires d < 10
    ensures IsDigit(c)
  {
    ('0' as int + d) as char
  }

  /** Python's `str(n)` for a non-negative integer: decimal digits, most significant first. */
  function Decimal(n: nat): (s: string)
    ensures s != [] && AllDigits(s)
    ensures s[0] == '0' <==> n == 0
    ensures n == 0 ==> s == "0"
  {
    if n < 10 then [DigitChar(n)] else Decimal(n / 10) + [DigitChar(n % 10)]
  }

  /** The number a string of decimal digits denotes. */
  function DigitsValue(s: string): nat
    requires AllDigits(s)
  {
    if s == [] then 0 else DigitsValue(s[..|s| - 1]) * 10 + (s[|s| - 1] as int - '0' as int)
  }

  /** Reading the digits back gives the number: the decimal rendering loses nothing. */
  lemma {:induction false} DecimalRoundTrip(n: nat)
    ensures DigitsValue(Decimal(n)) == n
  {
    if n >= 10 {
      DecimalRoundTrip(n / 10);
      var s := Decimal(n);
      assert s[..|s| - 1] == Decimal(n / 10);
    }
  }

  /** `https://x.com/{tweet.id}` */
  function Permalink(id: nat): string {
    LinkBase + Decimal(id)
  }

  /** How many digits `s` ends with. */
  function TrailingDigits(s: string): (d: nat)
    ensures d <= |s| && AllDigits(s[|s| - d..])
  {
    if s != [] && IsDigit(s[|s| - 1]) then
      var d := TrailingDigits(s[..|s| - 1]);
      assert s[|s| - (d + 1)..] == s[..|s| - 1][|s| - 1 - d..] + [s[|s| - 1]];
      d + 1
    else 0
  }

  /** The post a notification body links to: the digits it ends with, right after the link base. */
  function LinkedId(body: string): Option<nat> {
    var d := TrailingDigits(body);
    var head := body[..|body| - d];
    if d > 0 && |head| >= |LinkBase| && head[|head| - |LinkBase|..] == LinkBase then
      Some(DigitsValue(body[|body| - d..]))
    else None
  }

  /** `f"Kenya Power posted about maintenance in {estates_string}:\n\n{content}\n\nTweet Link: https://x.com/{tweet.id}"`
      with `estates_string = ", ".join(matched_estates)`. */
  function AlertBody(estates: seq<string>, content: string, id: nat): string {
    Lead + Join(estates, ", ") + ":\n\n" + content + LinkLabel + Permalink(id)
  }

  /** The whole message: the configured sender, every recipient comma-joined into one header,
      the fixed subject and the body. */
  function Alert(sender: string, recipients: seq<string>, estates: seq<string>, content: string, id: nat): (m: Message)
    ensures m.subject == Subject && m.sender == sender
    ensures Lead <= m.body
  {
    Message(sender, Join(recipients, ","), Subject, AlertBody(estates, content, id))
  }

  lemma {:induction false} TrailingDigitsAfter(a: string, d: string)
    requires AllDigits(d)
    requires a == [] || !IsDigit(a[|a| - 1])
    ensures TrailingDigits(a + d) == |d|
    decreases |d|
  {
    if d == [] {
      assert a + d == a;
    } else {
      assert (a + d)[..|a + d| - 1] == a + d[..|d| - 1];
      TrailingDigitsAfter(a, d[..|d| - 1]);
    }
  }

  /** Whatever precedes a permalink, the identifier read back is the one linked to. */
  lemma LinkedIdOfPermalink(before: string, id: nat)
    ensures LinkedId(before + Permalink(id)) == Some(id)
  {
    var head := before + LinkBase;
    var digits := Decimal(id);
    var body := before + Permalink(id);
    assert body == head + digits;
    assert head[|head| - 1] == '/';
    TrailingDigitsAfter(head, digits);
    assert body[..|body| - |digits|] == head;
    assert head[|head| - |LinkBase|..] == LinkBase;
    assert body[|body| - |digits|..] == digits;
    DecimalRoundTrip(id);
  }

  /** The body links to the post it reports: the identifier read back from its end is the
      post's identifier, whatever the estates and the post text are. */
  lemma AlertLinksToTweet(estates: seq<string>, content: string, id: nat)
    ensures LinkedId(AlertBody(estates, content, id)) == Some(id)
  {
    LinkedIdOfPermalink(Lead + Join(estates, ", ") + ":\n\n" + content + LinkLabel, id);
  }

  /** The body names every matched estate and quotes the post text. */
  lemma AlertNamesEstates(estates: seq<string>, content: string, id: nat, k: int)
    requires 0 <= k < |estates|
    ensures Contains(AlertBody(estates, content, id), estates[k])
    ensures Contains(AlertBody(estates, content, id), content)
  {
    var joined := Join(estates, ", ");
    var tail := ":\n\n" + content + LinkLabel + Permalink(id);
    JoinContainsParts(estates, ", ", k);
    ContainsInfix(Lead, joined, tail, estates[k]);
    assert AlertBody(estates, content, id) == Lead + joined + tail;
    assert OccursAt(content, content, 0);
    ContainsInfix(Lead + joined + ":\n\n", content, LinkLabel + Permalink(id), content);
    assert AlertBody(estates, content, id) == (Lead + joined + ":\n\n") + content + (LinkLabel + Permalink(id));
  }

  /** After the lead, the body is the `", "`-joined estates and then the rest, which opens
      with a colon. */
  lemma BodyAfterLead(estates: seq<string>, content: string, id: nat)
    ensures AlertBody(estates, content, id)[|Lead|..]
            == Join(estates, ", ") + (":\n\n" + content + LinkLabel + Permalink(id))
  {
    var joined := Join(estates, ", ");
    var tail := ":\n\n" + content + LinkLabel + Permalink(id);
    assert AlertBody(estates, content, id) == Lead + (joined + tail);
  }

  /** The estates are listed right after the lead, joined with `", "`, up to the first colon;
      that segment parses back, like a configuration list, to exactly the matched estates in
      their order. */
  lemma AlertEstatesRoundTrip(estates: seq<string>, content: string, id: nat)
    requires forall i :: 0 <= i < |estates| ==> Config.IsEntry(estates[i]) && ':' !in estates[i]
    ensures var named := AlertBody(estates, content, id)[|Lead|..];
            && Query.IndexOf(named, ':') == Some(|Join(estates, ", ")|)
            && named[..|Join(estates, ", ")|] == Join(estates, ", ")
            && Config.ParseList(named[..|Join(estates, ", ")|]) == estates
  {
    var joined := Join(estates, ", ");
    var tail := ":\n\n" + content + LinkLabel + Permalink(id);
    BodyAfterLead(estates, content, id);
    JoinExcludes(estates, ", ", ':');
    Query.IndexOfAfter(joined, tail, ':');
    assert (joined + tail)[..|joined|] == joined;
    Config.ParseCommaSpaceJoin(estates);
  }

  /** Every subscriber is reached by the one message: re-parsing the `To` header as the
      configuration list is parsed gives back exactly the subscriber list, in order. */
  lemma AlertReachesSubscribers(sender: string, recipients: seq<string>, estates: seq<string>, content: string, id: nat)
    requires forall i :: 0 <= i < |recipients| ==> Config.IsEntry(recipients[i])
    ensures Config.ParseList(Alert(sender, recipients, estates, content, id).to) == recipients
  {
    Config.ParseJoinRoundTrip(recipients);
  }
}
