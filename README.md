# Kenya Power maintenance alerts — a verified model of the polling script

The script `kenya_power_script.py` polls the recent posts of the utility's customer-care account
on X (formerly Twitter). It looks for mentions of configured estate names in each post's text
and in the text read from the post's images. For every post that matched, it emails the
subscriber list. It polls only between 19:00 and 21:00 East Africa Time (UTC+3).

This project models the deterministic logic of that script in Dafny. Each part of the script
has its own module:

- `Text` covers the Python string operations the script relies on: `str.strip()`,
  `str.lower()` (ASCII letters only), the `in` substring test, `str.split(',')` and
  `sep.join(...)`.
- `Config` parses the comma-separated `SUBSCRIBED_EMAILS` and `ESTATE_NAMES` variables.
- `Matcher` models `analyze_tweet` as an imperative method with a `set` accumulator and
  nested loops. It is proved against the specification function `Expected`. Fetching an image,
  decoding it and running OCR on it form one oracle, `string -> Fetched`. The oracle returns
  the recognised text, "status was not 200", or "raised".
- `Query` builds the search query. A reader, `ParseQuery`, turns a query back into its names.
- `Media` builds the media-key-to-URL dictionary and resolves a post's media keys into image
  URLs.
- `Notifier` builds the subject, body and `To` header of the alert email, including the post
  permalink `https://x.com/{id}`.
- `Schedule` models `is_within_time_window` and one turn of the main loop.
- `Poller` models `monitor_twitter` as a method. It calls the search oracle with the built
  query, picks the backoff for each exception, and runs the loop over the posts. That loop is
  proved against the specification function `Planned`.

Two behaviours of the script are kept as written:

- An image that cannot be decoded, a fetch that raises, or a media entry without a URL is not
  turned into empty text. The exception escapes `analyze_tweet` and ends the whole poll
  (line 139), so later posts are not looked at. Emails already handed over stay sent.
- Missing configuration is not fatal. An unset list parses to the empty list, and the script
  runs on.

## Model

| member | source | states |
|---|---|---|
| `Text.StripSlice` | kenya_power_script.py:27-28 | `strip()` keeps a middle slice with no whitespace at either end, and removes only whitespace on each side |
| `Text.Contains` | kenya_power_script.py:79 | the `in` test holds exactly when the needle occurs at some index of the text (the empty needle occurs everywhere) |
| `Text.Split` | kenya_power_script.py:27-28 | `split(',')` yields at least one piece, no piece holds a comma, and joining the pieces with commas gives back the input |
| `Text.SplitJoin` | kenya_power_script.py:27-28 | splitting undoes joining when no part holds the separator |
| `Config.ParseList` | kenya_power_script.py:27-28 | every parsed entry is non-empty, has no leading or trailing whitespace, and holds no comma |
| `Config.ParseListPiece` | kenya_power_script.py:27-28 | a piece without a comma gives its stripped form as the one entry, or nothing when it strips to empty; with `ParseListAppend` this determines the parse of every input |
| `Config.ParseCommaSpaceJoin` | kenya_power_script.py:128 | entries joined with `", "` (as the alert lists estates) parse back to the same list, with or without a leading space |
| `Config.ParseListAppend` | kenya_power_script.py:27-28 | order is kept: parsing `a + "," + b` gives the entries of `a`, then those of `b` |
| `Config.ParseJoinRoundTrip` | kenya_power_script.py:27-28 | a list of entries survives comma-joining and re-parsing unchanged, in the same order |
| `Config.ParseListBlank` | kenya_power_script.py:27-28 | an unset (empty) or all-blank variable parses to no entries |
| `Config.ParseListIdempotent` | kenya_power_script.py:27-28 | re-joining a parsed list and parsing it again gives the same list |
| `Matcher.AnalyzeTweet` | kenya_power_script.py:74-93 | an exception escapes exactly when some image's fetch raises; otherwise the estates equal the expected set (text matches plus matches in every image read), with no duplicates, and the flag is true exactly when the list is non-empty |
| `Matcher.AddMatches` | kenya_power_script.py:78-80 | one pass over the estate list adds exactly the stripped names whose lower-cased form occurs in the lower-cased text |
| `Matcher.ToSequence` | kenya_power_script.py:93 | `list(set)` holds every element of the set exactly once |
| `Matcher.MatchesInIff` | kenya_power_script.py:78-80 | a name is matched against a text exactly when some configured name strips to it and its lower-cased form occurs in the lower-cased text |
| `Matcher.ImageMatchesIff` | kenya_power_script.py:83-91 | a name is matched through the images exactly when some image whose fetch returned 200 mentions it |
| `Matcher.MatchedIff` | kenya_power_script.py:78-91 | an estate is matched exactly when some configured name strips to it and is mentioned by the post text or by the text of an image that was read |
| `Matcher.MatchedAreConfigured` | kenya_power_script.py:78-93 | with stripped configured names, every matched estate is one of them |
| `Matcher.NoNamesNoMatches` | kenya_power_script.py:78-93 | with no configured names nothing is matched, whatever the post and its images |
| `Matcher.NotOkChangesNothing` | kenya_power_script.py:84-85 | an image whose status is not 200 changes nothing, wherever it stands in the list |
| `Matcher.TwoEstates` | kenya_power_script.py:74-93 | two stripped estates, one named in the post and one in the only image that was read, next to an image answering non-200, are exactly the matched set |
| `Matcher.DonholmRundaExample` | kenya_power_script.py:74-93 | a post naming Donholm, an image reading "Runda maintenance" and an image answering 404 give exactly {Donholm, Runda} |
| `Query.BuildQuery` | kenya_power_script.py:103-104 | the query starts with `from:KenyaPower_Care (` and ends with `) -is:retweet -is:reply` |
| `Query.ParseConditions` | kenya_power_script.py:103 | the `" OR "`-joined quoted alternatives read back as the stripped names, in order |
| `Query.QueryRoundTrip` | kenya_power_script.py:103-104 | the names read back out of the query are the configured names, stripped, in configuration order, none lost and none added |
| `Media.MediaMapKeys` | kenya_power_script.py:119 | the media dictionary has exactly the media keys of the response |
| `Media.MediaMapLastWins` | kenya_power_script.py:119 | for a key given more than once, the dictionary keeps the last entry's URL |
| `Media.Resolve` | kenya_power_script.py:124 | the lookup fails exactly when some key is missing; otherwise it gives one URL per key, in key order |
| `Media.ImagesOf` | kenya_power_script.py:123-124 | a post without attachments has no images; otherwise its images have the same length and order as its media keys, or the lookup fails on a missing key |
| `Notifier.Alert` | kenya_power_script.py:128-131 | the message has the fixed subject "Power Maintenance Alert", the configured sender, and a body opening with the fixed lead text |
| `Notifier.Decimal` | kenya_power_script.py:131 | `str(tweet.id)` is a non-empty run of digits with no leading zero: it starts with `0` exactly when the identifier is 0, and then it is `"0"` |
| `Notifier.DecimalRoundTrip` | kenya_power_script.py:131 | the decimal rendering of the post identifier reads back as the identifier |
| `Notifier.LinkedIdOfPermalink` | kenya_power_script.py:131 | whatever precedes a permalink, the identifier read back from it is the one linked to |
| `Notifier.AlertLinksToTweet` | kenya_power_script.py:131 | the identifier read back from the end of the body is the post's identifier |
| `Notifier.AlertNamesEstates` | kenya_power_script.py:128-131 | the body contains every matched estate and the post text |
| `Notifier.AlertEstatesRoundTrip` | kenya_power_script.py:128-131 | right after the lead, up to the first colon, the body lists the matched estates joined with `", "`; that segment parses back to exactly the matched estates, in their order |
| `Notifier.AlertReachesSubscribers` | kenya_power_script.py:60 | the one `To` header, parsed back like the configuration list, gives exactly the subscriber list, in order |
| `Schedule.LocalHour` | kenya_power_script.py:144-145 | the hour in UTC+3 is between 0 and 23 |
| `Schedule.LocalHourInHours` | kenya_power_script.py:144-145 | the hour of the shifted time equals the whole hours since the epoch of the shifted time, modulo 24 |
| `Schedule.WindowInUtc` | kenya_power_script.py:142-148 | the window holds exactly from 16:00 inclusive to 18:00 exclusive UTC: 19:00 local is in, 21:00 local and 18:59:59 local are out |
| `Schedule.SchedulerTurn` | kenya_power_script.py:153-162 | a loop turn polls exactly inside that window; it then sleeps 15 minutes, and otherwise sleeps 5 minutes |
| `Poller.Backoff` | kenya_power_script.py:133-140 | a rate limit sleeps 15 minutes, a server error 1 minute, any other exception not at all |
| `Poller.MonitorTwitter` | kenya_power_script.py:96-140 | the search gets the built query; an API exception sends nothing and sleeps its backoff; no data sends nothing; otherwise the emails are exactly the planned alerts, in order, each listing its post's matched set once and built from that post |
| `Poller.NotifyMatches` | kenya_power_script.py:121-132 | the emails handed over by the post loop are exactly the planned alerts, in order |
| `Poller.AbortedStays` | kenya_power_script.py:121-139 | once a post has raised, the later posts change nothing |
| `Poller.PlannedAlerts` | kenya_power_script.py:121-132 | one more post adds at most its own email, with its non-empty matched set, and only if no earlier post raised; otherwise the alerts stay as they were |
| `Poller.PlannedAppend` | kenya_power_script.py:121-132 | the plan of two runs of posts, the first raising nowhere, is the first run's alerts followed by the second's, in post order, ending as the second run ends |
| `Poller.PlannedSound` | kenya_power_script.py:121-132 | every email goes to a post of the response that matched at least one estate, with exactly that post's matched set |
| `Poller.PlannedAborted` | kenya_power_script.py:121-139 | the poll is cut short exactly when some post raises (a missing media key or an image fetch that raises) |
| `Poller.PlannedComplete` | kenya_power_script.py:121-132 | when no post raises, every post that matched at least one estate gets its email, with that post's matched set |

## Left out

- `send_email` (lines 56-71) is not modelled as I/O. The SMTP session, STARTTLS, login and the
  swallowed exception are left out. A send is recorded as the `Message` it would submit, and a
  failed send changes nothing else in the poll.
- The search API call (lines 98, 106-112) is an oracle from the query string to a response.
  Its `max_results=10` cap and its field and expansion arguments are not modelled, so the
  oracle may return any list of posts.
- `requests.get`, `Image.open` and `pytesseract.image_to_string` (lines 84-87) form one oracle.
  A network exception, a decode failure and an OCR failure all come out as the same `Raised`
  outcome.
- `time.sleep` and the endless `while True` loop (lines 135, 138, 153-162) are not modelled as
  behaviour over time. The model gives one loop turn (`SchedulerTurn`) and the backoff seconds
  (`Backoff`) as values.
- `load_dotenv`, `validate_environment_variables`, logging and the tesseract path (lines 13-53)
  are configuration and logging plumbing. They are not part of this model.
- `Text.Lower` case-folds ASCII letters only. Python's `str.lower()` also folds other Unicode
  letters.
- `time.time()` is a float. The model uses whole seconds, which is what `time.gmtime` floors it
  to.
- The order of `list(matched_estates)` depends on string hashing in Python. The model leaves it
  open: `AnalyzeTweet` picks elements in an arbitrary order and promises only the set and the
  absence of duplicates.
- `Query.QueryRoundTrip` is stated only for names without a double quote. A quote inside a name
  makes the query ambiguous to read back.
- `Notifier.AlertEstatesRoundTrip` is stated for estates without a colon. A colon inside a
  name would end the listed segment early when reading the body back.
- `Config.ParseJoinRoundTrip` and `Notifier.AlertReachesSubscribers` are stated for lists whose
  entries are non-empty, stripped and comma-free. Those are exactly the lists `ParseList`
  produces.
