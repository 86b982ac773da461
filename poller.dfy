/** `monitor_twitter`: one poll of the search API. The search call and the image fetches are
    oracles passed in; sending an email is recorded as a `Sent` entry (the SMTP exchange and its
    swallowed failures are not part of this model). */
module Poller {
  import opened Wrappers
  import opened Matcher
  import opened Media
  import opened Notifier
  import Query

  /** The exceptions the poll tells apart. */
  datatype ApiError = TooManyRequests | TwitterServerError | OtherApiError

  /** What `search_recent_tweets` comes to: an exception, or a response whose `data` is `None`
      when no post matched, with the expanded media objects. */
  datatype SearchResponse =
    | ApiFailed(error: ApiError)
    | Page(data: Option<seq<Tweet>>, media: seq<MediaObject>)

  /** The process-wide configuration the poll reads. */
  datatype Settings = Settings(sender: string, recipients: seq<string>, estates: seq<string>)

  /** One call of `send_email`, with the post and the estates list it was built from. */
  datatype Sent = Sent(tweet: Tweet, estates: seq<string>, message: Message)

  /** How a poll ended: the emails in the order they were handed over, and the seconds it slept
      before returning. */
  datatype PollResult = PollResult(sent: seq<Sent>, backoff: nat)

  /** The sleep in each `except` branch: 15 minutes on a rate limit, one minute on a server
      error, none on anything else. */
  function Backoff(e: ApiError): (s: nat)
    ensures e.TooManyRequests? ==> s == 15 * 60
    ensures e.TwitterServerError? ==> s == 60
    ensures e.OtherApiError? ==> s == 0
  {
    match e
    case TooManyRequests => 15 * 60
    case TwitterServerError => 60
    case OtherApiError => 0
  }

  /** What analysing one post comes to: `None` when an exception escapes (a media key missing
      from the dictionary, or an image whose fetch raises), otherwise the set of matched estates. */
  function TweetOutcome(names: seq<string>, mm: map<string, Option<string>>, t: Tweet, fetch: string -> Fetched)
    : Option<set<string>>
  {
    match ImagesOf(mm, t)
    case None => None
    case Some(images) =>
      var fs := Retrievals(fetch, images);
      if AnyRaised(fs) then None else Some(Expected(names, t.text, fs))
  }

  /** The posts that get an email, in order, each with its matched set; `aborted` once an
      exception has ended the loop, after which no later post is looked at. */
  datatype Plan = Plan(alerts: seq<(Tweet, set<string>)>, aborted: bool)

  function Planned(names: seq<string>, mm: map<string, Option<string>>, tweets: seq<Tweet>, fetch: string -> Fetched)
    : Plan
  {
    if tweets == [] then Plan([], false)
    else
      var p := Planned(names, mm, tweets[..|tweets| - 1], fetch);
      if p.aborted then p
      else
        var t := tweets[|tweets| - 1];
        match TweetOutcome(names, mm, t, fetch)
        case None => Plan(p.alerts, true)
        case Some(s) => if s == {} then p else Plan(p.alerts + [(t, s)], false)
  }

  /** `s` is the email for alert `a`: same post, the matched set listed once each, and the
      message built from that list, the post text and the post identifier. */
  predicate Delivers(cfg: Settings, s: Sent, a: (Tweet, set<string>)) {
    && s.tweet == a.0
    && Elements(s.estates) == a.1
    && NoDuplicates(s.estates)
    && s.message == Alert(cfg.sender, cfg.recipients, s.estates, a.0.text, a.0.id)
  }

  predicate DeliversAll(cfg: Settings, sent: seq<Sent>, alerts: seq<(Tweet, set<string>)>) {
    |sent| == |alerts| && forall k :: 0 <= k < |sent| ==> Delivers(cfg, sent[k], alerts[k])
  }

  /** One poll: search with the built query; on an API exception sleep its backoff and send
      nothing; with no posts do nothing; otherwise email every post that matched, in order,
      until a post raises, which ends the poll without a sleep. */
  method MonitorTwitter(cfg: Settings, search: string -> SearchResponse, fetch: string -> Fetched)
    returns (r: PollResult)
    ensures match search(Query.BuildQuery(cfg.estates)) {
      case ApiFailed(e) => r == PollResult([], Backoff(e))
      case Page(None, _) => r == PollResult([], 0)
      case Page(Some(tweets), media) =>
        r.backoff == 0 && DeliversAll(cfg, r.sent, Planned(cfg.estates, MediaMap(media), tweets, fetch).alerts)
    }
  {
    var response := search(Query.BuildQuery(cfg.estates));
    if response.ApiFailed? {
      return PollResult([], Backoff(response.error));
    }
    if response.data.None? {
      return PollResult([], 0);
    }
    var sent := NotifyMatches(cfg, MediaMap(response.media), response.data.value, fetch);
    return PollResult(sent, 0);
  }

  /** The loop over the posts of one response: analyse each, email those that matched, and stop
      at the first post that raises, keeping the emails already handed over. */
  method NotifyMatches(cfg: Settings, mm: map<string, Option<string>>, tweets: seq<Tweet>, fetch: string -> Fetched)
    returns (sent: seq<Sent>)
    ensures DeliversAll(cfg, sent, Planned(cfg.estates, mm, tweets, fetch).alerts)
  {
    sent := [];
    for i := 0 to |tweets|
      invariant !Planned(cfg.estates, mm, tweets[..i], fetch).aborted
      invariant DeliversAll(cfg, sent, Planned(cfg.estates, mm, tweets[..i], fetch).alerts)
    {
      PlannedStep(cfg.estates, mm, tweets, i, fetch);
      var t := tweets[i];
      var images := ImagesOf(mm, t);
      if images.None? {
        AbortedStays(cfg.estates, mm, tweets, i + 1, fetch);
        return;
      }
      var analysis := AnalyzeTweet(cfg.estates, t.text, images.value, fetch);
      if analysis.None? {
        AbortedStays(cfg.estates, mm, tweets, i + 1, fetch);
        return;
      }
      assert TweetOutcome(cfg.estates, mm, t, fetch) == Some(Elements(analysis.value.estates));
      assert analysis.value.estates != [] ==> analysis.value.estates[0] in Elements(analysis.value.estates);
      if analysis.value.hasMatches {
        var message := Alert(cfg.sender, cfg.recipients, analysis.value.estates, t.text, t.id);
        sent := sent + [Sent(t, analysis.value.estates, message)];
      }
    }
    assert tweets[..|tweets|] == tweets;
  }

  /** One more post: the plan for `tweets[..i + 1]` in terms of the plan for `tweets[..i]`. */
  lemma PlannedStep(names: seq<string>, mm: map<string, Option<string>>, tweets: seq<Tweet>, i: nat, fetch: string -> Fetched)
    requires i < |tweets| && !Planned(names, mm, tweets[..i], fetch).aborted
    ensures Planned(names, mm, tweets[..i + 1], fetch) ==
      var p := Planned(names, mm, tweets[..i], fetch);
      match TweetOutcome(names, mm, tweets[i], fetch)
      case None => Plan(p.alerts, true)
      case Some(s) => if s == {} then p else Plan(p.alerts + [(tweets[i], s)], false)
  {
    assert tweets[..i + 1][..i] == tweets[..i];
  }

  /** Once an exception has ended the loop, the later posts change nothing. */
  lemma {:induction false} AbortedStays(names: seq<string>, mm: map<string, Option<string>>, tweets: seq<Tweet>, i: nat, fetch: string -> Fetched)
    requires i <= |tweets|
    requires Planned(names, mm, tweets[..i], fetch).aborted
    ensures Planned(names, mm, tweets, fetch) == Planned(names, mm, tweets[..i], fetch)
    decreases |tweets|
  {
    if i < |tweets| {
      var init := tweets[..|tweets| - 1];
      assert init[..i] == tweets[..i];
      AbortedStays(names, mm, init, i, fetch);
    } else {
      assert tweets[..i] == tweets;
    }
  }

  /** One more post either leaves the alerts as they were or adds that post with its matched
      set. */
  lemma PlannedAlerts(names: seq<string>, mm: map<string, Option<string>>, tweets: seq<Tweet>, fetch: string -> Fetched)
    requires tweets != []
    ensures var p := Planned(names, mm, tweets[..|tweets| - 1], fetch);
            var q := Planned(names, mm, tweets, fetch);
            var o := TweetOutcome(names, mm, tweets[|tweets| - 1], fetch);
            q.alerts == p.alerts
            || (!p.aborted && o.Some? && o.value != {} && q.alerts == p.alerts + [(tweets[|tweets| - 1], o.value)])
  {
  }

  /** Every email goes to a post that matched at least one estate, with exactly that post's
      matched set. */
  lemma {:induction false} PlannedSound(names: seq<string>, mm: map<string, Option<string>>, tweets: seq<Tweet>, fetch: string -> Fetched, k: int)
    requires 0 <= k < |Planned(names, mm, tweets, fetch).alerts|
    ensures Planned(names, mm, tweets, fetch).alerts[k].1 != {}
    ensures exists i :: 0 <= i < |tweets| && tweets[i] == Planned(names, mm, tweets, fetch).alerts[k].0
                        && TweetOutcome(names, mm, tweets[i], fetch) == Some(Planned(names, mm, tweets, fetch).alerts[k].1)
  {
    var init := tweets[..|tweets| - 1];
    var p := Planned(names, mm, init, fetch);
    var a := Planned(names, mm, tweets, fetch).alerts[k];
    PlannedAlerts(names, mm, tweets, fetch);
    if k < |p.alerts| {
      assert a == p.alerts[k];
      PlannedSound(names, mm, init, fetch, k);
      var i :| 0 <= i < |init| && init[i] == a.0 && TweetOutcome(names, mm, init[i], fetch) == Some(a.1);
      assert tweets[i] == init[i];
    } else {
      var last := |tweets| - 1;
      assert tweets[last] == a.0 && TweetOutcome(names, mm, tweets[last], fetch) == Some(a.1);
    }
  }

  /** The poll is cut short exactly when some post raises. */
  lemma {:induction false} PlannedAborted(names: seq<string>, mm: map<string, Option<string>>, tweets: seq<Tweet>, fetch: string -> Fetched)
    ensures Planned(names, mm, tweets, fetch).aborted
            <==> exists i :: 0 <= i < |tweets| && TweetOutcome(names, mm, tweets[i], fetch).None?
  {
    if tweets != [] {
      var init := tweets[..|tweets| - 1];
      var last := |tweets| - 1;
      PlannedAborted(names, mm, init, fetch);
      if i :| 0 <= i < |init| && TweetOutcome(names, mm, init[i], fetch).None? {
        assert tweets[i] == init[i];
      }
      if i :| 0 <= i < |tweets| && TweetOutcome(names, mm, tweets[i], fetch).None? {
        if i < last {
          assert init[i] == tweets[i];
        }
      }
    }
  }

  /** When no post raises, every post that matched at least one estate gets its email. */
  lemma {:induction false} PlannedComplete(names: seq<string>, mm: map<string, Option<string>>, tweets: seq<Tweet>, fetch: string -> Fetched)
    requires !Planned(names, mm, tweets, fetch).aborted
    ensures forall i :: 0 <= i < |tweets| && TweetOutcome(names, mm, tweets[i], fetch).Some?
                        && TweetOutcome(names, mm, tweets[i], fetch).value != {} ==>
              (tweets[i], TweetOutcome(names, mm, tweets[i], fetch).value) in Planned(names, mm, tweets, fetch).alerts
  {
    if tweets != [] {
      var init := tweets[..|tweets| - 1];
      var p := Planned(names, mm, init, fetch);
      assert !p.aborted;
      PlannedComplete(names, mm, init, fetch);
      var q := Planned(names, mm, tweets, fetch);
      PlannedAlerts(names, mm, tweets, fetch);
      assert forall x :: x in p.alerts ==> x in q.alerts;
      forall i | 0 <= i < |init| ensures init[i] == tweets[i] {
      }
    }
  }

  /** The plan of two runs of posts, the first of which raised nowhere, is the first run's
      alerts followed by the second run's, in order, ending as the second run ends. */
  lemma {:induction false} PlannedAppend(names: seq<string>, mm: map<string, Option<string>>, a: seq<Tweet>, b: seq<Tweet>, fetch: string -> Fetched)
    requires !Planned(names, mm, a, fetch).aborted
    ensures Planned(names, mm, a + b, fetch)
            == Plan(Planned(names, mm, a, fetch).alerts + Planned(names, mm, b, fetch).alerts, Planned(names, mm, b, fetch).aborted)
    decreases |b|
  {
    if b == [] {
      assert a + b == a;
    } else {
      var init := b[..|b| - 1];
      assert (a + b)[..|a + b| - 1] == a + init;
      assert (a + b)[|a + b| - 1] == b[|b| - 1];
      PlannedAppend(names, mm, a, init, fetch);
      var A := Planned(names, mm, a, fetch).alerts;
      var p := Planned(names, mm, init, fetch);
      match TweetOutcome(names, mm, b[|b| - 1], fetch)
      case None =>
      case Some(s) =>
        if s != {} {
          assert A + p.alerts + [(b[|b| - 1], s)] == A + (p.alerts + [(b[|b| - 1], s)]);
        }
    }
  }
}
