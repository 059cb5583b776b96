/**
 * `generateCalendar`: the retry and pagination loop over the activity endpoint,
 * refreshing the stored credentials after each failed request, followed by the
 * quartile bucketing of everything collected. The remote endpoints are scripts:
 * `api` holds the activity endpoint's responses in the order they are consumed and
 * `tokens` the token endpoint's answers, one per refresh exchange.
 */
module Calendar {
  import opened Common
  import opened Auth
  import opened Metric
  import opened Buckets
  import opened Pagination

  /** One request to the activity endpoint: the access token from storage, the
      one-year lookback bound in epoch seconds, and the page number. */
  datatype Fetch = Fetch(accessToken: string, after: int, page: int)

  /** A run either produces a score map, or is rejected because a refresh exchange
      could not reach the token endpoint. */
  datatype Outcome = Scored(scores: map<string, int>) | ExchangeFailed

  /** The score map of the collected samples: empty when there are none, otherwise
      bucketed by the thresholds of their minimum and maximum. */
  ghost predicate ScoresFor(scores: map<string, int>, events: seq<Sample>) {
    if events == [] then scores == map[] else IsScoreMap(scores, events, Thresholds(events))
  }

  /** The token endpoint's answer to the `k`-th exchange; a script that has run out
      counts as unreachable. */
  function TokenAnswer(tokens: seq<TokenReply>, k: nat): TokenReply {
    if k < |tokens| then tokens[k] else Unreachable
  }

  /** Storage after the first `k` refresh exchanges (all of them, if the script is shorter). */
  function StoreAfter(items0: map<string, string>, tokens: seq<TokenReply>, k: nat): map<string, string> {
    Replayed(items0, tokens, if k <= |tokens| then k else |tokens|)
  }

  /** One exchange more: an answered one saves its pair over the storage before it. */
  lemma StoreAfterNext(items0: map<string, string>, tokens: seq<TokenReply>, k: nat)
    requires k < |tokens|
    ensures StoreAfter(items0, tokens, k + 1)
         == if tokens[k].Body? then Saved(StoreAfter(items0, tokens, k), tokens[k]) else StoreAfter(items0, tokens, k)
  {
  }

  /** The `j`-th request to the activity endpoint: the access token written by the
      exchanges of the failures before it, and the page reached by the full pages before it. */
  function FetchAt(items0: map<string, string>, after: int, api: seq<Reply>, tokens: seq<TokenReply>, j: nat): Fetch
    requires j <= |api|
  {
    Fetch(Lookup(StoreAfter(items0, tokens, Failures(api, j)), ACCESS_KEY), after, 1 + FullPages(api, j))
  }

  /** The first `n` requests to the activity endpoint. */
  function FetchLog(items0: map<string, string>, after: int, api: seq<Reply>, tokens: seq<TokenReply>, n: nat): seq<Fetch>
    requires n <= |api|
    decreases n
  {
    if n == 0 then [] else FetchLog(items0, after, api, tokens, n - 1) + [FetchAt(items0, after, api, tokens, n - 1)]
  }

  /** The first `k` queries sent to the token endpoint: each a refresh grant carrying the
      refresh token in storage at that moment. */
  function ExchangeLog(items0: map<string, string>, tokens: seq<TokenReply>, k: nat): seq<string>
    decreases k
  {
    if k == 0 then [] else ExchangeLog(items0, tokens, k - 1) + [RefreshQuery(StoreAfter(items0, tokens, k - 1))]
  }

  /** The `j`-th logged request is the `j`-th request: the page requested after `j`
      responses is 1 plus the full pages among them, and a failure repeats the page. */
  lemma {:induction false} FetchLogAt(items0: map<string, string>, after: int, api: seq<Reply>, tokens: seq<TokenReply>, n: nat)
    requires n <= |api|
    ensures |FetchLog(items0, after, api, tokens, n)| == n
    ensures forall j :: 0 <= j < n ==> FetchLog(items0, after, api, tokens, n)[j] == FetchAt(items0, after, api, tokens, j)
    decreases n
  {
    if n > 0 {
      FetchLogAt(items0, after, api, tokens, n - 1);
    }
  }

  /** A failed request is followed by a request for the same page; a full page by a
      request for the next one. */
  lemma NextFetchPage(items0: map<string, string>, after: int, api: seq<Reply>, tokens: seq<TokenReply>, j: nat)
    requires j < |api|
    ensures FetchAt(items0, after, api, tokens, j + 1).page
         == FetchAt(items0, after, api, tokens, j).page + (if api[j].Page? && |api[j].records| == PAGE_SIZE then 1 else 0)
  {
  }

  /** After an answered exchange, storage holds the refresh token it returned. */
  lemma StoredRefreshToken(items0: map<string, string>, tokens: seq<TokenReply>, m: nat)
    requires 0 < m <= |tokens| && tokens[m - 1].Body?
    ensures Lookup(StoreAfter(items0, tokens, m), REFRESH_KEY) == Text(tokens[m - 1].refreshToken)
  {
  }

  /** The access token of a request: the stored one before any failure; after a failure
      whose exchange was answered, the one that exchange returned. */
  lemma RequestToken(items0: map<string, string>, after: int, api: seq<Reply>, tokens: seq<TokenReply>, j: nat)
    requires j <= |api|
    ensures Failures(api, j) == 0 ==> FetchAt(items0, after, api, tokens, j).accessToken == Lookup(items0, ACCESS_KEY)
    ensures var f := Failures(api, j);
      0 < f <= |tokens| && tokens[f - 1].Body? ==>
        FetchAt(items0, after, api, tokens, j).accessToken == Text(tokens[f - 1].accessToken)
  {
  }

  /** Exchange `k` sends the refresh token in storage after the exchanges before it:
      the initial one first, afterwards the one the previous exchange wrote. */
  lemma {:induction false} ExchangeLogAt(items0: map<string, string>, tokens: seq<TokenReply>, k: nat)
    ensures |ExchangeLog(items0, tokens, k)| == k
    ensures forall m :: 0 <= m < k ==> ExchangeLog(items0, tokens, k)[m] == RefreshQuery(StoreAfter(items0, tokens, m))
    ensures k > 0 ==> ExchangeLog(items0, tokens, k)[0] == RefreshQuery(items0)
    ensures forall m :: 0 < m < k && m <= |tokens| && tokens[m - 1].Body? ==>
      ExchangeLog(items0, tokens, k)[m] == TokenQuery(None, Some(Text(tokens[m - 1].refreshToken)))
    decreases k
  {
    if k > 0 {
      ExchangeLogAt(items0, tokens, k - 1);
    }
    forall m | 0 < m < k && m <= |tokens| && tokens[m - 1].Body?
      ensures RefreshQuery(StoreAfter(items0, tokens, m)) == TokenQuery(None, Some(Text(tokens[m - 1].refreshToken)))
    {
      StoredRefreshToken(items0, tokens, m);
    }
  }

  /** What the loop promises once it is over. Every request was made by the running loop,
      for the page and with the access token reached by then; there was one refresh
      exchange per failed request, never more than the retry budget, each carrying the
      refresh token stored at that moment; every exchange but the last was answered, and
      the run aborted exactly when the last one went unanswered, right after the failed
      request that called for it; storage holds what the answered exchanges wrote; and unless aborted, the
      loop ran until it stopped (or the script ended), gathering every page that was
      neither empty nor full, with the running minimum and maximum describing them. */
  ghost predicate Finished(items0: map<string, string>, after: int, api: seq<Reply>, tokens: seq<TokenReply>,
                           events: seq<Sample>, minMetric: Option<real>, maxMetric: real,
                           fetches: seq<Fetch>, exchanges: seq<string>, failed: bool, items: map<string, string>)
  {
    |fetches| <= |api| && ConsumedWhileRunning(api, |fetches|) &&
    fetches == FetchLog(items0, after, api, tokens, |fetches|) &&
    |exchanges| == Failures(api, |fetches|) <= MAX_RETRIES &&
    exchanges == ExchangeLog(items0, tokens, |exchanges|) &&
    (failed <==> |exchanges| > 0 && TokenAnswer(tokens, |exchanges| - 1).Unreachable?) &&
    (forall k :: 0 <= k < |exchanges| - 1 ==> TokenAnswer(tokens, k).Body?) &&
    (failed ==> 0 < |fetches| && api[|fetches| - 1].Fail?) &&
    items == StoreAfter(items0, tokens, if failed then |exchanges| - 1 else |exchanges|) &&
    (!failed ==> |fetches| == |api| || !Running(Replay(api, |fetches|))) &&
    (!failed ==> events == Gathered(api, |fetches|) && Tracks(events, minMetric, maxMetric))
  }

  /** The loop invariant: the loop's variables are the replay of the responses consumed so
      far, and the logs and storage are those of the exchanges made so far. */
  ghost predicate LoopInv(items0: map<string, string>, after: int, api: seq<Reply>, tokens: seq<TokenReply>,
                          page: int, numRetries: int, success: bool,
                          events: seq<Sample>, minMetric: Option<real>, maxMetric: real,
                          fetches: seq<Fetch>, exchanges: seq<string>, items: map<string, string>)
  {
    |fetches| <= |api| &&
    Replay(api, |fetches|) == LoopState(page, numRetries, success, false, events) &&
    ConsumedWhileRunning(api, |fetches|) &&
    numRetries == Failures(api, |fetches|) <= MAX_RETRIES &&
    numRetries <= |tokens| && (forall k :: 0 <= k < numRetries ==> tokens[k].Body?) &&
    fetches == FetchLog(items0, after, api, tokens, |fetches|) &&
    |exchanges| == numRetries && exchanges == ExchangeLog(items0, tokens, numRetries) &&
    items == StoreAfter(items0, tokens, numRetries) &&
    Tracks(events, minMetric, maxMetric)
  }

  /** The log grows by one request at a time. */
  lemma FetchLogNext(items0: map<string, string>, after: int, api: seq<Reply>, tokens: seq<TokenReply>, fetches: seq<Fetch>)
    requires |fetches| < |api| && fetches == FetchLog(items0, after, api, tokens, |fetches|)
    ensures fetches + [FetchAt(items0, after, api, tokens, |fetches|)] == FetchLog(items0, after, api, tokens, |fetches| + 1)
  {
  }

  /** The `n`-th request, in terms of the page and storage reached after `n` responses. */
  lemma FetchAtState(items0: map<string, string>, after: int, api: seq<Reply>, tokens: seq<TokenReply>,
                     n: nat, page: int, numRetries: int, items: map<string, string>)
    requires n <= |api|
    requires page == 1 + FullPages(api, n) && numRetries == Failures(api, n)
    requires items == StoreAfter(items0, tokens, numRetries)
    ensures FetchAt(items0, after, api, tokens, n) == Fetch(Lookup(items, ACCESS_KEY), after, page)
  {
  }

  /** One more response consumed by the running loop: the replay takes its step. */
  lemma FetchNext(items0: map<string, string>, after: int, api: seq<Reply>, tokens: seq<TokenReply>,
                  page: int, numRetries: int, success: bool,
                  events: seq<Sample>, minMetric: Option<real>, maxMetric: real,
                  fetches: seq<Fetch>, exchanges: seq<string>, items: map<string, string>)
    requires LoopInv(items0, after, api, tokens, page, numRetries, success, events, minMetric, maxMetric, fetches, exchanges, items)
    requires |fetches| < |api| && Running(LoopState(page, numRetries, success, false, events))
    ensures fetches + [Fetch(Lookup(items, ACCESS_KEY), after, page)] == FetchLog(items0, after, api, tokens, |fetches| + 1)
    ensures Replay(api, |fetches| + 1) == Step(LoopState(page, numRetries, success, false, events), api[|fetches|])
    ensures Failures(api, |fetches| + 1) == numRetries + (if api[|fetches|].Fail? then 1 else 0)
    ensures ConsumedWhileRunning(api, |fetches| + 1)
  {
    var n := |fetches|;
    ReplayCounts(api, n);
    FetchAtState(items0, after, api, tokens, n, page, numRetries, items);
    FetchLogNext(items0, after, api, tokens, fetches);
    ConsumedAppend(api, n);
  }

  /** A failed request whose refresh exchange is answered: one retry used, the exchange
      logged, the new pair stored, the same page still to be requested. */
  lemma FailAnswered(items0: map<string, string>, after: int, api: seq<Reply>, tokens: seq<TokenReply>,
                     page: int, numRetries: int, success: bool,
                     events: seq<Sample>, minMetric: Option<real>, maxMetric: real,
                     fetches: seq<Fetch>, exchanges: seq<string>, items: map<string, string>)
    requires LoopInv(items0, after, api, tokens, page, numRetries, success, events, minMetric, maxMetric, fetches, exchanges, items)
    requires |fetches| < |api| && api[|fetches|].Fail? && Running(LoopState(page, numRetries, success, false, events))
    requires TokenAnswer(tokens, numRetries).Body?
    ensures LoopInv(items0, after, api, tokens, page, numRetries + 1, success, events, minMetric, maxMetric,
                    fetches + [Fetch(Lookup(items, ACCESS_KEY), after, page)], exchanges + [RefreshQuery(items)],
                    Saved(items, tokens[numRetries]))
  {
    FetchNext(items0, after, api, tokens, page, numRetries, success, events, minMetric, maxMetric, fetches, exchanges, items);
    StoreAfterNext(items0, tokens, numRetries);
  }

  /** A failed request whose refresh exchange goes unanswered ends the run as aborted. */
  lemma FailUnanswered(items0: map<string, string>, after: int, api: seq<Reply>, tokens: seq<TokenReply>,
                       page: int, numRetries: int, success: bool,
                       events: seq<Sample>, minMetric: Option<real>, maxMetric: real,
                       fetches: seq<Fetch>, exchanges: seq<string>, items: map<string, string>)
    requires LoopInv(items0, after, api, tokens, page, numRetries, success, events, minMetric, maxMetric, fetches, exchanges, items)
    requires |fetches| < |api| && api[|fetches|].Fail? && Running(LoopState(page, numRetries, success, false, events))
    requires TokenAnswer(tokens, numRetries).Unreachable?
    ensures Finished(items0, after, api, tokens, events, minMetric, maxMetric,
                     fetches + [Fetch(Lookup(items, ACCESS_KEY), after, page)], exchanges + [RefreshQuery(items)], true, items)
  {
    FetchNext(items0, after, api, tokens, page, numRetries, success, events, minMetric, maxMetric, fetches, exchanges, items);
  }

  /** An empty page: the loop breaks out and the run ends with what was gathered. */
  lemma EmptyPageEnds(items0: map<string, string>, after: int, api: seq<Reply>, tokens: seq<TokenReply>,
                      page: int, numRetries: int, success: bool,
                      events: seq<Sample>, minMetric: Option<real>, maxMetric: real,
                      fetches: seq<Fetch>, exchanges: seq<string>, items: map<string, string>)
    requires LoopInv(items0, after, api, tokens, page, numRetries, success, events, minMetric, maxMetric, fetches, exchanges, items)
    requires |fetches| < |api| && api[|fetches|] == Page([]) && Running(LoopState(page, numRetries, success, false, events))
    ensures Finished(items0, after, api, tokens, events, minMetric, maxMetric,
                     fetches + [Fetch(Lookup(items, ACCESS_KEY), after, page)], exchanges, false, items)
  {
    FetchNext(items0, after, api, tokens, page, numRetries, success, events, minMetric, maxMetric, fetches, exchanges, items);
    ReplayCounts(api, |fetches| + 1);
  }

  /** A full page: the page number advances and nothing else changes. */
  lemma FullPageNext(items0: map<string, string>, after: int, api: seq<Reply>, tokens: seq<TokenReply>,
                     page: int, numRetries: int, success: bool,
                     events: seq<Sample>, minMetric: Option<real>, maxMetric: real,
                     fetches: seq<Fetch>, exchanges: seq<string>, items: map<string, string>)
    requires LoopInv(items0, after, api, tokens, page, numRetries, success, events, minMetric, maxMetric, fetches, exchanges, items)
    requires |fetches| < |api| && api[|fetches|].Page? && |api[|fetches|].records| == PAGE_SIZE
    requires Running(LoopState(page, numRetries, success, false, events))
    ensures LoopInv(items0, after, api, tokens, page + 1, numRetries, success, events, minMetric, maxMetric,
                    fetches + [Fetch(Lookup(items, ACCESS_KEY), after, page)], exchanges, items)
  {
    FetchNext(items0, after, api, tokens, page, numRetries, success, events, minMetric, maxMetric, fetches, exchanges, items);
  }

  /** Any other page: its samples are appended, and `success` is set when it is short. */
  lemma DataPageNext(items0: map<string, string>, after: int, api: seq<Reply>, tokens: seq<TokenReply>,
                     page: int, numRetries: int, success: bool,
                     events: seq<Sample>, minMetric: Option<real>, maxMetric: real,
                     fetches: seq<Fetch>, exchanges: seq<string>, items: map<string, string>,
                     newMin: Option<real>, newMax: real)
    requires LoopInv(items0, after, api, tokens, page, numRetries, success, events, minMetric, maxMetric, fetches, exchanges, items)
    requires |fetches| < |api| && api[|fetches|].Page?
    requires |api[|fetches|].records| != 0 && |api[|fetches|].records| != PAGE_SIZE
    requires Running(LoopState(page, numRetries, success, false, events))
    requires Tracks(events + Samples(api[|fetches|].records), newMin, newMax)
    ensures LoopInv(items0, after, api, tokens, page, numRetries, |api[|fetches|].records| < PAGE_SIZE,
                    events + Samples(api[|fetches|].records), newMin, newMax,
                    fetches + [Fetch(Lookup(items, ACCESS_KEY), after, page)], exchanges, items)
  {
    FetchNext(items0, after, api, tokens, page, numRetries, success, events, minMetric, maxMetric, fetches, exchanges, items);
  }

  /** The loop condition fails or the script is over: the run ends with what was gathered. */
  lemma LoopExit(items0: map<string, string>, after: int, api: seq<Reply>, tokens: seq<TokenReply>,
                 page: int, numRetries: int, success: bool,
                 events: seq<Sample>, minMetric: Option<real>, maxMetric: real,
                 fetches: seq<Fetch>, exchanges: seq<string>, items: map<string, string>)
    requires LoopInv(items0, after, api, tokens, page, numRetries, success, events, minMetric, maxMetric, fetches, exchanges, items)
    requires !(!success && numRetries < MAX_RETRIES && |fetches| < |api|)
    ensures Finished(items0, after, api, tokens, events, minMetric, maxMetric, fetches, exchanges, false, items)
  {
    ReplayCounts(api, |fetches|);
  }

  /** The `while` loop of `generateCalendar`: requests pages until an empty page, a page
      shorter than a full one, or the second failure stops it. After a failed request it
      exchanges the stored refresh token for a new pair and requests the same page again;
      `failed` reports that such an exchange went unanswered, which aborts the run. */
  method FetchActivities(store: CredentialStore, after: int, api: seq<Reply>, tokens: seq<TokenReply>)
    returns (events: seq<Sample>, minMetric: Option<real>, maxMetric: real,
             fetches: seq<Fetch>, exchanges: seq<string>, failed: bool)
    requires forall j :: 0 <= j < |api| ==> NonNegativeReply(api[j])
    modifies store
    ensures Finished(old(store.items), after, api, tokens, events, minMetric, maxMetric, fetches, exchanges, failed, store.items)
  {
    var page := 1;
    var numRetries := 0;
    var success := false;
    events, minMetric, maxMetric := [], None, 0.0;
    fetches, exchanges, failed := [], [], false;
    ghost var items0 := store.items;
    ghost var emptied := false;
    while !success && numRetries < MAX_RETRIES && |fetches| < |api|
      invariant LoopInv(items0, after, api, tokens, page, numRetries, success, events, minMetric, maxMetric, fetches, exchanges, store.items)
      invariant !failed && !emptied
      decreases |api| - |fetches|
    {
      ghost var before := store.items;
      var i := |fetches|;
      var request := Fetch(Lookup(store.items, ACCESS_KEY), after, page);
      match api[i] {
        case Fail =>
          var reply := TokenAnswer(tokens, numRetries);
          var query := store.GetToken(None, Some(Lookup(store.items, REFRESH_KEY)), reply);
          if reply.Unreachable? {
            FailUnanswered(items0, after, api, tokens, page, numRetries, success, events, minMetric, maxMetric, fetches, exchanges, before);
            fetches, exchanges, failed := fetches + [request], exchanges + [query], true;
            return;
          }
          FailAnswered(items0, after, api, tokens, page, numRetries, success, events, minMetric, maxMetric, fetches, exchanges, before);
          fetches, exchanges := fetches + [request], exchanges + [query];
          numRetries := numRetries + 1;
        case Page(data) =>
          if |data| == 0 {
            EmptyPageEnds(items0, after, api, tokens, page, numRetries, success, events, minMetric, maxMetric, fetches, exchanges, before);
            fetches := fetches + [request];
            emptied := true;
            break;
          } else if |data| == PAGE_SIZE {
            FullPageNext(items0, after, api, tokens, page, numRetries, success, events, minMetric, maxMetric, fetches, exchanges, before);
            fetches := fetches + [request];
            page := page + 1;
          } else {
            if |data| < PAGE_SIZE {
              success := true;
            }
            var grown, newMin, newMax := AddSamples(data, events, minMetric, maxMetric);
            DataPageNext(items0, after, api, tokens, page, numRetries, false, events, minMetric, maxMetric, fetches, exchanges, before, newMin, newMax);
            events, minMetric, maxMetric := grown, newMin, newMax;
            fetches := fetches + [request];
          }
      }
    }
    if !emptied {
      LoopExit(items0, after, api, tokens, page, numRetries, success, events, minMetric, maxMetric, fetches, exchanges, store.items);
    }
  }

  /** `generateCalendar`: the loop, then the thresholds from the running minimum and
      maximum and the bucketing of every collected sample. A rejected exchange aborts
      the run before any score map is produced. */
  method GenerateCalendar(store: CredentialStore, after: int, api: seq<Reply>, tokens: seq<TokenReply>)
    returns (outcome: Outcome, fetches: seq<Fetch>, exchanges: seq<string>)
    requires forall j :: 0 <= j < |api| ==> NonNegativeReply(api[j])
    modifies store
    ensures |fetches| <= |api| && ConsumedWhileRunning(api, |fetches|)
    ensures fetches == FetchLog(old(store.items), after, api, tokens, |fetches|)
    ensures |exchanges| == Failures(api, |fetches|) <= MAX_RETRIES
    ensures exchanges == ExchangeLog(old(store.items), tokens, |exchanges|)
    ensures outcome.ExchangeFailed? <==> |exchanges| > 0 && TokenAnswer(tokens, |exchanges| - 1).Unreachable?
    ensures forall k :: 0 <= k < |exchanges| - 1 ==> TokenAnswer(tokens, k).Body?
    ensures outcome.ExchangeFailed? ==> 0 < |fetches| && api[|fetches| - 1].Fail?
    ensures store.items == StoreAfter(old(store.items), tokens, if outcome.ExchangeFailed? then |exchanges| - 1 else |exchanges|)
    ensures outcome.Scored? ==> |fetches| == |api| || !Running(Replay(api, |fetches|))
    ensures outcome.Scored? ==> ScoresFor(outcome.scores, Gathered(api, |fetches|))
  {
    var events, minMetric, maxMetric, failed;
    events, minMetric, maxMetric, fetches, exchanges, failed := FetchActivities(store, after, api, tokens);
    if failed {
      return ExchangeFailed, fetches, exchanges;
    }
    var scores: map<string, int> := map[];
    if minMetric.Some? {
      scores := Bucket(events, QuartilesOf(minMetric.value, maxMetric));
    }
    outcome := Scored(scores);
  }
}
