/** `analyze_tweet`: which configured estates a post mentions, in its text or in the text read
    from its images. Fetching an image, decoding it and recognising its text are one oracle. */
module Matcher {
  import opened Wrappers
  import opened Text

  /** What fetching one image and reading its text can come to. */
  datatype Fetched =
    | Recognised(text: string)  // status 200, decoded, text recognised
    | NotOk                     // any other status: the image is skipped
    | Raised                    // the fetch, the decoder or the recogniser raised

  /** The pair `analyze_tweet` returns when no exception escapes it. */
  datatype Analysis = Analysis(hasMatches: bool, estates: seq<string>)

  /** One image as the loop sees it. A media entry without a URL is passed to the HTTP client
      as `None`, which raises. */
  function Retrieve(fetch: string -> Fetched, url: Option<string>): Fetched {
    match url
    case None => Raised
    case Some(u) => fetch(u)
  }

  function Retrievals(fetch: string -> Fetched, images: seq<Option<string>>): (fs: seq<Fetched>)
    ensures |fs| == |images|
    ensures forall j :: 0 <= j < |images| ==> fs[j] == Retrieve(fetch, images[j])
  {
    seq(|images|, j requires 0 <= j < |images| => Retrieve(fetch, images[j]))
  }

  predicate AnyRaised(fs: seq<Fetched>) {
    exists j :: 0 <= j < |fs| && fs[j].Raised?
  }

  /** `estate.strip().lower() in text.lower()` */
  predicate Mentions(estate: string, text: string) {
    Contains(Lower(text), Lower(Strip(estate)))
  }

  /** A name is mentioned by the post text or by the text of an image that was read. */
  predicate MentionedAnywhere(estate: string, content: string, fs: seq<Fetched>) {
    Mentions(estate, content) || exists j :: 0 <= j < |fs| && fs[j].Recognised? && Mentions(estate, fs[j].text)
  }

  /** The names one pass over the estate list adds for `text`. */
  function MatchesIn(names: seq<string>, text: string): set<string> {
    if names == [] then {}
    else
      var last := names[|names| - 1];
      MatchesIn(names[..|names| - 1], text) + (if Mentions(last, text) then {Strip(last)} else {})
  }

  /** The names the loop over the images adds. */
  function ImageMatches(names: seq<string>, fs: seq<Fetched>): set<string> {
    if fs == [] then {}
    else
      ImageMatches(names, fs[..|fs| - 1])
      + match fs[|fs| - 1] {
        case Recognised(t) => MatchesIn(names, t)
        case _ => {}
      }
  }

  /** The set `analyze_tweet` builds when no exception escapes. */
  function Expected(names: seq<string>, content: string, fs: seq<Fetched>): set<string> {
    MatchesIn(names, content) + ImageMatches(names, fs)
  }

  function Elements<T>(s: seq<T>): set<T> {
    set x | x in s
  }

  predicate NoDuplicates<T(==)>(s: seq<T>) {
    forall i, j :: 0 <= i < j < |s| ==> s[i] != s[j]
  }

  /** `analyze_tweet(content, images)` with `ESTATE_NAMES` passed as `names`. `None` stands for an
      exception escaping the function, which happens exactly when some image raises; otherwise
      the estates are the expected set without duplicates, in some order, and the flag says
      whether there are any. */
  method AnalyzeTweet(names: seq<string>, content: string, images: seq<Option<string>>, fetch: string -> Fetched)
    returns (r: Option<Analysis>)
    ensures r.None? <==> AnyRaised(Retrievals(fetch, images))
    ensures r.Some? ==> r.value.hasMatches == (r.value.estates != [])
    ensures r.Some? ==> NoDuplicates(r.value.estates)
    ensures r.Some? ==> Elements(r.value.estates) == Expected(names, content, Retrievals(fetch, images))
  {
    ghost var fs := Retrievals(fetch, images);
    var matched := AddMatches({}, names, content);
    for j := 0 to |images|
      invariant matched == MatchesIn(names, content) + ImageMatches(names, fs[..j])
      invariant !AnyRaised(fs[..j])
    {
      assert fs[..j + 1][..j] == fs[..j];
      var f := Retrieve(fetch, images[j]);
      if f.Raised? {
        assert fs[j].Raised?;
        return None;
      }
      if f.Recognised? {
        matched := AddMatches(matched, names, f.text);
      }
    }
    assert fs[..|images|] == fs;
    var estates := ToSequence(matched);
    assert estates != [] ==> estates[0] in Elements(estates);
    return Some(Analysis(matched != {}, estates));
  }

  /** One pass over the estate list: add to `acc` every stripped name that `text` mentions. */
  method AddMatches(acc: set<string>, names: seq<string>, text: string) returns (r: set<string>)
    ensures r == acc + MatchesIn(names, text)
  {
    r := acc;
    for k := 0 to |names|
      invariant r == acc + MatchesIn(names[..k], text)
    {
      assert names[..k + 1][..k] == names[..k];
      if Mentions(names[k], text) {
        r := r + {Strip(names[k])};
      }
    }
    assert names[..|names|] == names;
  }

  /** `list(s)`: every element once, in an order the set does not fix. */
  method ToSequence<T(==)>(s: set<T>) returns (xs: seq<T>)
    ensures Elements(xs) == s && NoDuplicates(xs)
  {
    xs := [];
    var rest := s;
    while rest != {}
      invariant rest + Elements(xs) == s
      invariant rest !! Elements(xs)
      invariant NoDuplicates(xs)
      decreases |rest|
    {
      var x :| x in rest;
      xs := xs + [x];
      rest := rest - {x};
    }
  }

  /** A name is in `MatchesIn` exactly when some configured name strips to it and is mentioned. */
  lemma {:induction false} MatchesInIff(names: seq<string>, text: string, m: string)
    ensures m in MatchesIn(names, text)
            <==> exists i :: 0 <= i < |names| && m == Strip(names[i]) && Mentions(names[i], text)
  {
    if names != [] {
      var init := names[..|names| - 1];
      var last := names[|names| - 1];
      MatchesInIff(init, text, m);
      assert MatchesIn(names, text) == MatchesIn(init, text) + (if Mentions(last, text) then {Strip(last)} else {});
      forall i | 0 <= i < |init| ensures init[i] == names[i] {
      }
    }
  }

  lemma {:induction false} ImageMatchesIff(names: seq<string>, fs: seq<Fetched>, m: string)
    ensures m in ImageMatches(names, fs)
            <==> exists j :: 0 <= j < |fs| && fs[j].Recognised? && m in MatchesIn(names, fs[j].text)
  {
    if fs != [] {
      var init := fs[..|fs| - 1];
      ImageMatchesIff(names, init, m);
      if exists j :: 0 <= j < |init| && init[j].Recognised? && m in MatchesIn(names, init[j].text) {
        var j :| 0 <= j < |init| && init[j].Recognised? && m in MatchesIn(names, init[j].text);
        assert fs[j] == init[j];
      }
      if j :| 0 <= j < |fs| && fs[j].Recognised? && m in MatchesIn(names, fs[j].text) {
        if j < |init| {
          assert init[j] == fs[j];
        }
      }
    }
  }

  /** An estate is matched exactly when some configured name strips to it and its lower-cased
      form occurs in the lower-cased post text or in the lower-cased text of an image that was
      read. */
  lemma MatchedIff(names: seq<string>, content: string, fs: seq<Fetched>, m: string)
    ensures m in Expected(names, content, fs)
            <==> exists i :: 0 <= i < |names| && m == Strip(names[i]) && MentionedAnywhere(names[i], content, fs)
  {
    MatchesInIff(names, content, m);
    ImageMatchesIff(names, fs, m);
    if m in ImageMatches(names, fs) {
      var j :| 0 <= j < |fs| && fs[j].Recognised? && m in MatchesIn(names, fs[j].text);
      MatchesInIff(names, fs[j].text, m);
      var i :| 0 <= i < |names| && m == Strip(names[i]) && Mentions(names[i], fs[j].text);
      assert MentionedAnywhere(names[i], content, fs);
    }
    if i :| 0 <= i < |names| && m == Strip(names[i]) && MentionedAnywhere(names[i], content, fs) {
      if !Mentions(names[i], content) {
        var j :| 0 <= j < |fs| && fs[j].Recognised? && Mentions(names[i], fs[j].text);
        MatchesInIff(names, fs[j].text, m);
        assert m in MatchesIn(names, fs[j].text);
      }
    }
  }

  /** Only configured names are reported: with names as the configuration parser leaves them
      (already stripped), every match is one of them. */
  lemma MatchedAreConfigured(names: seq<string>, content: string, fs: seq<Fetched>, m: string)
    requires forall i :: 0 <= i < |names| ==> IsStripped(names[i])
    requires m in Expected(names, content, fs)
    ensures m in names
  {
    MatchedIff(names, content, fs, m);
    var i :| 0 <= i < |names| && m == Strip(names[i]) && MentionedAnywhere(names[i], content, fs);
    StripStripped(names[i]);
  }

  /** With no configured names nothing is ever matched, whatever the post and its images. */
  lemma {:induction false} NoNamesNoMatches(content: string, fs: seq<Fetched>)
    ensures Expected([], content, fs) == {}
  {
    if fs != [] {
      NoNamesNoMatches(content, fs[..|fs| - 1]);
    }
  }

  lemma {:induction false} ImageMatchesAppend(names: seq<string>, a: seq<Fetched>, b: seq<Fetched>)
    ensures ImageMatches(names, a + b) == ImageMatches(names, a) + ImageMatches(names, b)
    decreases |b|
  {
    if b == [] {
      assert a + b == a;
    } else {
      assert (a + b)[..|a + b| - 1] == a + b[..|b| - 1];
      ImageMatchesAppend(names, a, b[..|b| - 1]);
    }
  }

  /** An image whose fetch did not return 200 changes nothing, wherever it stands. */
  lemma NotOkChangesNothing(names: seq<string>, content: string, a: seq<Fetched>, b: seq<Fetched>)
    ensures Expected(names, content, a + [NotOk] + b) == Expected(names, content, a + b)
  {
    ImageMatchesAppend(names, a + [NotOk], b);
    ImageMatchesAppend(names, a, [NotOk]);
    ImageMatchesAppend(names, a, b);
    assert [NotOk][..0] == [];
  }

  /** "Donholm" is found in "Power outage in Donholm", ignoring case. */
  lemma DonholmMentioned()
    ensures Mentions("Donholm", "Power outage in Donholm")
  {
    var content := "Power outage in Donholm";
    StripStripped("Donholm");
    assert Lower("Donholm") == "donholm";
    assert Lower(content)[16..23] == "donholm";
    assert OccursAt("donholm", Lower(content), 16);
  }

  /** "Runda" is found in "Runda maintenance", ignoring case. */
  lemma RundaMentioned()
    ensures Mentions("Runda", "Runda maintenance")
  {
    StripStripped("Runda");
    assert Lower("Runda") == "runda";
    assert Lower("Runda maintenance")[..5] == "runda";
    assert OccursAt("runda", Lower("Runda maintenance"), 0);
  }

  /** Two stripped estates, the first named in the post and the second in the one image that
      could be read: exactly those two are matched. */
  lemma TwoEstates(a: string, b: string, content: string, ocr: string)
    requires IsStripped(a) && IsStripped(b)
    requires Mentions(a, content) && Mentions(b, ocr)
    ensures Expected([a, b], content, [NotOk, Recognised(ocr)]) == {a, b}
  {
    var names := [a, b];
    var fs := [NotOk, Recognised(ocr)];
    StripStripped(a);
    StripStripped(b);
    forall m ensures m in Expected(names, content, fs) <==> m == a || m == b {
      MatchedIff(names, content, fs, m);
      if m == a {
        assert MentionedAnywhere(names[0], content, fs);
      } else if m == b {
        assert fs[1].Recognised? && Mentions(names[1], fs[1].text);
        assert MentionedAnywhere(names[1], content, fs);
      }
    }
  }

  /** A worked example: the post names Donholm, the one image that could be
      read names Runda, and a second image answered 404; both estates are matched, once each. */
  lemma DonholmRundaExample()
    ensures Expected(["Donholm", "Runda"], "Power outage in Donholm", [NotOk, Recognised("Runda maintenance")])
            == {"Donholm", "Runda"}
  {
    DonholmMentioned();
    RundaMentioned();
    TwoEstates("Donholm", "Runda", "Power outage in Donholm", "Runda maintenance");
  }
}
