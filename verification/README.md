# stracal activity-scoring core, in Dafny

stracal is a browser client. It signs in to Strava with OAuth2 and pages through the
last year of the user's activities. It turns them into a GitHub-style calendar
heat map, where each day carries a score from 1 to 4. This project models the scoring
pipeline in `generateCalendar` (src/App.tsx) and the small helpers around it. The pieces:

- **Credentials** (module `Auth`). The browser's `localStorage` is modelled as a
  `map<string, string>` held by the class `CredentialStore`. `getToken` becomes the
  method `GetToken`, which writes the access token and the refresh token together. The
  query it sends is chosen by the truthiness of `code`. The authorization code is read
  back out of the redirect URL by a model of `split("&")` and `slice(5)`. The start-up
  hook's "authenticated" test (`CallbackQuery`) is also modelled.
- **Metric** (module `Metric`). The metric is `average_speed * elapsed_time`, halved when
  the sport type contains `Bike`. `AddSamples` is the inner `forEach`. It keeps the running
  `minMetric` (none before the first sample, instead of `Number.MAX_VALUE`) and `maxMetric`
  (starting at 0).
- **Bucketing** (module `Buckets`). `QuartilesOf` computes the three thresholds.
  `Increment` picks 1 to 4 using strict comparisons. `Bucket` is the second `forEach`,
  which sums increments per date and clamps the sum at 4.
- **Pagination and retry** (modules `Pagination` and `Calendar`). `Step` and `Replay`
  form the specification of the `while` loop: one step per response of the activity
  endpoint. `Calendar.FetchActivities` is the loop itself, written imperatively over the
  credential store. It is proved to follow `Replay` and to log exactly the requests and
  refresh exchanges the specification predicts. `Calendar.GenerateCalendar` adds the
  bucketing.
- **Colour check** (module `Colour`). `HEX_CHECK` is modelled as a predicate and proved
  equal to "`#` and then 3 or 6 hex digits, in either case".

The remote endpoints are scripts. `api: seq<Reply>` lists the activity endpoint's
answers in the order they are consumed: `Fail` for a non-ok response, or `Page(records)`.
`tokens: seq<TokenReply>` lists the token endpoint's answers, one per refresh exchange.
`Unreachable` means the request or its JSON decoding rejected. Otherwise `Body` holds the
two fields, each possibly missing.

Where the code's behaviour is easy to misread, the model follows the code:

- Only a sport type containing `Bike` is halved (`EBikeRide`, `MountainBikeRide`). A
  `Ride` keeps the full product (`Metric.UnhalvedExamples`).
- A page of exactly 30 records advances the page before the `forEach`, so its records are
  never collected (`Pagination.FullPageAdvances`).
- A page of more than 30 records matches no size test. Its records are collected and the
  same page is requested again (`Pagination.LongPageRepeats`).
- When the two retries are used up, the loop simply ends and the collected samples are
  still scored. There is no "retries exhausted" failure (`Pagination.TwoFailuresExhaust`,
  `Calendar.GenerateCalendar`).
- The retry counter is never reset, so a run allows two failed requests in total
  (`Pagination.RetriesBounded`).
- The "authenticated" test compares stored values with the string `"undefined"`. Empty
  storage therefore counts as authenticated, and the callback code is never exchanged
  (`Auth.EmptyStorageSkipsCallback`).
- A refresh exchange whose request rejects makes `getToken`, and with it
  `generateCalendar`, reject. Nothing is scored (`Calendar.Outcome.ExchangeFailed`).

## Model

| member | source | states |
|---|---|---|
| Auth.Saved | src/App.tsx:69-70 | an answered exchange writes the access and the refresh token from the reply (`"undefined"` for a missing field), adds no key besides those two, and leaves every other key unchanged |
| Auth.LastExchangeWins | src/App.tsx:69-70 | after a sequence whose final exchange is answered, storage equals the initial storage with only that exchange's pair written: both tokens always move together |
| Auth.LatestAnsweredWins | src/App.tsx:61-70 | after any sequence whose last answered exchange is followed only by unanswered ones, storage equals the initial storage with only that answered exchange's pair written |
| Auth.NoAnswerKeepsStorage | src/App.tsx:61-70 | a sequence of exchanges none of which is answered leaves storage exactly as it was |
| Auth.ReplayedKeepsKeys | src/App.tsx:69-70 | exchanges never remove a key, add at most the two token keys, and never change any other key |
| Auth.CredentialStore.GetToken | src/App.tsx:61-72 | the query sent is the grant chosen by `code`; storage becomes the saved pair when the endpoint answers and is unchanged when it does not |
| Auth.Split | src/App.tsx:85 | `split` always yields at least one segment |
| Auth.SplitSingle | src/App.tsx:85-86 | the split has exactly one segment iff the separator does not occur, and then that segment is the whole string |
| Auth.SplitConcat | src/App.tsx:85 | splitting `a & b` is splitting `a` followed by splitting `b` |
| Auth.Drop | src/App.tsx:87 | `slice(5)`: the suffix after the first five characters, or empty when the string is shorter; used by `Auth.CallbackCodeFound` and `Auth.ShortSegmentFallsBackToRefresh` |
| Auth.CallbackCode | src/App.tsx:85-87 | the code read from the redirect URL; its contract is stated by `Auth.CallbackCodeAbsent` (none iff no `&`) and `Auth.CallbackCodeFound` (the `code=` value of the second segment) |
| Auth.CallbackCodeAbsent | src/App.tsx:85-86 | no code is extracted exactly when the URL holds no `&` |
| Auth.CallbackCodeFound | src/App.tsx:85-87 | for a URL `a&code=c` or `a&code=c&...` with no `&` in `a` or `c`, the extracted code is `c` |
| Auth.SplitQuery | src/App.tsx:63-64 | a query `&pt&y` with no `&` in its parts splits into `""`, `pt` and `y` |
| Auth.TokenQuery | src/App.tsx:62-64 | the grant chosen by the truthiness of `code`; its contract is stated by `Auth.AuthorizationQueryFields` (truthy code) and `Auth.RefreshQueryFields` (falsy code) |
| Auth.AuthorizationQueryFields | src/App.tsx:63 | a truthy code without `&` gives the fields `code=c` and `grant_type=authorization_code` |
| Auth.RefreshQuery | src/App.tsx:169 | the refresh-grant query `getToken(undefined, stored refresh token)` sends; stated by `Calendar.ExchangeLogAt` (each exchange carries the refresh token stored at that moment) and `Auth.RefreshQueryFields` |
| Auth.RefreshQueryFields | src/App.tsx:63-64 | a falsy code gives the fields `refresh_token=<refresh>` and `grant_type=refresh_token` |
| Auth.LooksAuthenticated | src/App.tsx:80 | either stored token differs from the string `"undefined"` (a missing key reads as `null`, which differs too); stated by `Auth.EmptyStorageSkipsCallback` and `Auth.CallbackQuery` |
| Auth.CallbackQuery | src/App.tsx:79-88 | no exchange iff storage looks authenticated or the URL has no `&`; otherwise the exchange uses the extracted code |
| Auth.EmptyStorageSkipsCallback | src/App.tsx:80-82 | empty storage passes the `"undefined"` test, so no code is exchanged |
| Auth.ShortSegmentFallsBackToRefresh | src/App.tsx:85-88 | a second segment shorter than `code=` gives the empty, falsy code, so the query is a refresh grant with token `undefined` |
| Colour.MatchesHexCheck | src/App.tsx:11 | the anchored pattern `^#([0-9a-f]{3}){1,2}$` with the `i` flag; its contract is stated by `Colour.HexCheckShape` (exactly `#` and 3 or 6 hex digits) |
| Colour.HexGroupsShape | src/App.tsx:11 | `n` repetitions of the three-digit group are exactly `3n` hex digits |
| Colour.HexCheckShape | src/App.tsx:11 | the pattern matches iff the string is `#` followed by 3 or 6 hex digits of either case |
| Colour.HexCheckExamples | src/App.tsx:11 | `#fc4c02`, `#EEEEEE`, `#abc` pass; `#abcd`, `fc4c02`, `#ggg` fail |
| Metric.Includes | src/App.tsx:187 | `String.prototype.includes`; its contract is stated by `Metric.IncludesMeansOccurs` |
| Metric.IncludesMeansOccurs | src/App.tsx:187 | `includes` holds iff the substring occurs at some position |
| Metric.DerivedMetric | src/App.tsx:186-189 | the metric is speed times time, exactly halved iff the sport type includes `Bike`, and non-negative for non-negative inputs |
| Metric.UnhalvedExamples | src/App.tsx:186-189 | `Ride` and `Run` at 10 and 100 both give 1000 |
| Metric.HalvedExamples | src/App.tsx:186-189 | `EBikeRide` and `MountainBikeRide` at 10 and 100 give 500 |
| Metric.MinMetric | src/App.tsx:193-195 | the folded minimum lies at or below every metric and equals one of them |
| Metric.MaxMetric | src/App.tsx:190-192 | the folded maximum lies at or above every metric and equals one of them |
| Metric.TrackedBounds | src/App.tsx:190-195 | the running values bound every collected metric, and the minimum is set exactly when a sample exists |
| Metric.ToSample | src/App.tsx:196-199 | the `{evalMetric, date}` record pushed for one activity; its metric is stated by `Metric.DerivedMetric` |
| Metric.Samples | src/App.tsx:184-200 | one record per activity, in order; stated by `Metric.SamplesAppend`, `Metric.AddSamples` and `Pagination.PartialPageFinishes` |
| Metric.SamplesAppend | src/App.tsx:196-199 | the samples of one activity more are the earlier ones plus its own |
| Metric.TracksAppend | src/App.tsx:190-199 | the loop's update of `maxMetric` and `minMetric` keeps them the maximum and minimum of the grown sample list |
| Metric.AddSamples | src/App.tsx:184-200 | appends one sample per activity, in order, and returns the running minimum and maximum of all samples |
| Buckets.QuartilesOf | src/App.tsx:203-205 | the thresholds are the midpoint and the two quarter points of `[min, max]`, ordered between min and max |
| Buckets.Thresholds | src/App.tsx:203-205 | the three thresholds of the run's minimum and maximum; stated by `Buckets.ThresholdsOrdered` and used by `Calendar.GenerateCalendar` |
| Buckets.ThresholdsOrdered | src/App.tsx:203-205 | every sample lies between the run's min and max, and min ≤ upperBottom ≤ mid ≤ lowerUpper ≤ max |
| Buckets.Increment | src/App.tsx:211-219 | every increment is between 1 and 4 |
| Buckets.IncrementBands | src/App.tsx:211-219 | 1 iff below upperBottom; 2 iff strictly between upperBottom and mid; 3 iff strictly between mid and lowerUpper; 4 iff exactly on upperBottom or mid, or at or above lowerUpper |
| Buckets.EqualBoundsGiveFour | src/App.tsx:203-219 | when min equals max, all thresholds equal it and its sample gets 4 |
| Buckets.HundredExample | src/App.tsx:203-219 | min 0 and max 100 give thresholds 25, 50, 75; metrics 50 and 25 get 4, 60 gets 3, 10 gets 1 |
| Buckets.DateTotalSign | src/App.tsx:206-219 | a date's sum of increments is non-negative, and positive iff the date has a sample |
| Buckets.ScoreMapRange | src/App.tsx:221-225 | every score in a score map is between 1 and 4, and no samples give the empty map |
| Buckets.UniformMetricsScoreFour | src/App.tsx:203-225 | when every sample has the same metric, every date with a sample scores 4 |
| Buckets.DateTotalAppend | src/App.tsx:206-225 | one sample more adds its increment to its own date's total only |
| Buckets.Cap | src/App.tsx:221-223 | the clamp of a date's sum at 4; stated through `Buckets.Bucket` and `Buckets.UniformMetricsScoreFour` |
| Buckets.Bucket | src/App.tsx:206-226 | the map holds exactly the dates with a sample, each with the capped sum of its increments, all in 1..4 |
| Pagination.Step | src/App.tsx:166-201 | one iteration of the `while` loop on one response; its contract is stated branch by branch by `Pagination.EmptyPageStops`, `Pagination.FullPageAdvances`, `Pagination.PartialPageFinishes`, `Pagination.LongPageRepeats`, `Pagination.FailureRetries` and `Pagination.StopReasons` |
| Pagination.Replay | src/App.tsx:161-201 | the loop's state after the first `n` responses, with no step once it has stopped; its contract is stated by `Pagination.ReplayCounts`, `Pagination.RetriesBounded` and `Pagination.TwoFailuresExhaust` |
| Pagination.EmptyPageStops | src/App.tsx:175-176 | an empty page breaks out of the loop and adds nothing |
| Pagination.FullPageAdvances | src/App.tsx:177-179 | a page of 30 increments `page` and changes nothing else; none of its records are added, and the retry count is kept |
| Pagination.PartialPageFinishes | src/App.tsx:180-200 | a page of 1 to 29 records appends one sample per record in order, sets `success` and ends the loop, keeping page and retries |
| Pagination.LongPageRepeats | src/App.tsx:174-200 | a page of more than 30 adds its records and keeps the page number, so the same page is requested again |
| Pagination.FailureRetries | src/App.tsx:168-171 | a failed request adds one retry and changes nothing else, so the same page is requested again |
| Pagination.ConsumedAppend | src/App.tsx:166 | a running loop consumes one more response |
| Pagination.ReplayCounts | src/App.tsx:161-201 | while the loop runs, `page` is 1 plus the full pages seen, `numRetries` is the failures seen, and `events` holds exactly the samples of pages neither empty nor full |
| Pagination.RetriesBounded | src/App.tsx:161-171 | the retry counter never exceeds 2, whatever the responses |
| Pagination.StopReasons | src/App.tsx:166-182 | a running loop stops only on an empty page, a page of 1 to 29 records, or the failure that uses up the last retry |
| Pagination.ThreePagesExample | src/App.tsx:161-201 | pages of 30, 30 and 17 records: three iterations, ending at page 3 with no retry and only the last page's 17 samples |
| Pagination.TwoFailuresExhaust | src/App.tsx:161-171 | two failures stop the loop at page 1 with two retries, and a third response is never consumed |
| Calendar.StoreAfterNext | src/App.tsx:169-170 | one exchange more saves its pair over the storage before it, or leaves storage unchanged when unanswered |
| Calendar.FetchLogAt | src/App.tsx:167 | the `j`-th logged request is the request for the page and token reached after `j` responses |
| Calendar.NextFetchPage | src/App.tsx:167-179 | the next request is for the next page after a full page, and for the same page otherwise |
| Calendar.StoredRefreshToken | src/App.tsx:169-170 | after an answered exchange, storage holds the refresh token it returned |
| Calendar.RequestToken | src/App.tsx:167-170 | a request carries the initial access token before any failure, and afterwards the one the last answered exchange returned |
| Calendar.ExchangeLogAt | src/App.tsx:169 | exchange `k` sends the refresh token stored at that moment: the initial one first, then the one the previous exchange returned |
| Calendar.FetchLogNext | src/App.tsx:167 | the request log grows by exactly the next request |
| Calendar.FetchAtState | src/App.tsx:167 | the `n`-th request uses the access token in storage and the page reached after `n` responses |
| Calendar.FetchNext | src/App.tsx:166-167 | one response consumed by the running loop: the request is logged and the replay takes one step |
| Calendar.FailAnswered | src/App.tsx:168-171 | after a failure and an answered exchange, the loop invariant holds with one retry more, the exchange logged and the new pair stored |
| Calendar.FailUnanswered | src/App.tsx:168-169 | after a failure whose exchange is unanswered, the run ends aborted, with storage unchanged |
| Calendar.EmptyPageEnds | src/App.tsx:175-176 | an empty page ends the run with the samples gathered so far |
| Calendar.FullPageNext | src/App.tsx:177-179 | a full page keeps the loop invariant with the page advanced |
| Calendar.DataPageNext | src/App.tsx:180-200 | any other page keeps the loop invariant with its samples appended |
| Calendar.LoopExit | src/App.tsx:166 | when the loop condition fails or the script is exhausted, the run ends with what was gathered |
| Calendar.FetchActivities | src/App.tsx:161-201 | every request follows `Replay`, with the page and token predicted. There is one refresh exchange per failure and at most 2, each sending the stored refresh token. Every exchange but the last was answered; the run aborts exactly when the last one is unanswered, right after the failed request that called for it, and storage holds the answered exchanges' pairs. Otherwise the loop ran until it stopped, collecting exactly the non-empty, non-full pages with their min and max |
| Calendar.GenerateCalendar | src/App.tsx:147-230 | every exchange but the last was answered, and the outcome is `ExchangeFailed` exactly when the last one went unanswered, right after a failed request; otherwise it is the score map of the gathered samples (empty when there are none), with the same request and exchange logs as the loop |

## Left out

- Rendering, React state and effects, the colour pickers (`toggleMain`, `toggleBox`) and
  the palette computation at src/App.tsx:92-114: these are UI code and floating-point colour
  maths in a foreign library.
- `saveCalendar`, `generateDemoCalendar` and `getUserName`: these are image export, random
  demo data and a network call outside the scoring pipeline.
- `genDateString` and `new Date(event.start_date)`: each activity's date string is taken as
  given (`Activity.day`). The one-year lookback bound is a parameter (`after`), because it
  comes from the clock.
- The `connectStrava` redirect at src/App.tsx:148-150 and the `window.location.href = "/"`
  navigation inside `getToken` (src/App.tsx:68): navigation is not modelled. The model lets
  the run continue; in a browser the navigation can end it before it reaches scoring.
- The base URL, client id and secret from the environment: the model keeps only the
  variable tail of each URL (the `TokenQuery` string and the `Fetch` record).
- A rejected `fetch` on the activity endpoint (a network error, as opposed to a non-ok
  response) and a body that is not a JSON array: the script has no such answer.
- The `setAuthenticated`, `setCalendarValues`, `setCalendarReady` and `setUntilString`
  calls: they only hand results to the UI.
- Calendar.FetchActivities: the loop also stops when the response script runs out, a bound
  the source does not have. A token script that runs out counts as an unreachable endpoint.
- Metric.DerivedMetric: metrics are exact reals, not IEEE-754 doubles. Rounding in the
  product and the halving is not modelled.
- Metric.AddSamples: activities are required to have non-negative speed and time, because
  `maxMetric` starts at 0.
- Concurrency: two overlapping runs that interleave their writes to storage are not
  modelled. Each run is sequential.
