/**
 * The pagination and retry state machine of `generateCalendar`, as a step function
 * over the loop's variables and a replay of a scripted sequence of responses from
 * the activity endpoint. The imperative loop in module Calendar is proved to follow it.
 */
module Pagination {
  import opened Metric

  const PAGE_SIZE := 30
  const MAX_RETRIES := 2

  /** One response of the activity endpoint: a failed request, or a page of records. */
  datatype Reply = Fail | Page(records: seq<Activity>)

  predicate NonNegativeReply(r: Reply) {
    r.Page? ==> forall k :: 0 <= k < |r.records| ==> NonNegative(r.records[k])
  }

  /** The loop's variables; `stopped` records the `break` on an empty page. */
  datatype LoopState = LoopState(page: int, numRetries: int, success: bool, stopped: bool, events: seq<Sample>)

  const Start := LoopState(1, 0, false, false, [])

  /** The loop condition `!success && numRetries < maxRetries`, plus not having broken out. */
  predicate Running(s: LoopState) {
    !s.success && !s.stopped && s.numRetries < MAX_RETRIES
  }

  /** One iteration on one response. A failure costs a retry and keeps the page; an
      empty page breaks out; a full page advances before any record is added; any other
      page adds one sample per record and, when shorter than a full page, ends the loop. */
  function Step(s: LoopState, r: Reply): LoopState {
    match r
    case Fail => s.(numRetries := s.numRetries + 1)
    case Page(data) =>
      if |data| == 0 then s.(stopped := true)
      else if |data| == PAGE_SIZE then s.(page := s.page + 1)
      else s.(success := if |data| < PAGE_SIZE then true else s.success, events := s.events + Samples(data))
  }

  /** The loop's state after the first `n` responses of `rs`, consumed one per iteration
      while the loop runs; responses after the loop has stopped are not consumed. */
  function Replay(rs: seq<Reply>, n: nat): LoopState
    requires n <= |rs|
    decreases n
  {
    if n == 0 then Start
    else
      var s := Replay(rs, n - 1);
      if Running(s) then Step(s, rs[n - 1]) else s
  }

  /** An empty page stops the loop and adds nothing. */
  lemma EmptyPageStops(s: LoopState)
    ensures Step(s, Page([])) == s.(stopped := true)
    ensures !Running(Step(s, Page([])))
  {
  }

  /** A page of exactly 30 records advances the page, adds none of its records and
      leaves the retry count and the loop's status alone. */
  lemma FullPageAdvances(s: LoopState, data: seq<Activity>)
    requires |data| == PAGE_SIZE
    ensures Step(s, Page(data)) == s.(page := s.page + 1)
  {
  }

  /** A page of 1 to 29 records appends one sample per record, in order, and sets
      `success`, which ends the loop. */
  lemma PartialPageFinishes(s: LoopState, data: seq<Activity>)
    requires 0 < |data| < PAGE_SIZE
    ensures Step(s, Page(data)).events == s.events + Samples(data)
    ensures |Step(s, Page(data)).events| == |s.events| + |data|
    ensures Step(s, Page(data)).success && !Running(Step(s, Page(data)))
    ensures Step(s, Page(data)).page == s.page && Step(s, Page(data)).numRetries == s.numRetries
  {
  }

  /** A page longer than 30 matches none of the size tests: its records are added and the
      same page is requested again. */
  lemma LongPageRepeats(s: LoopState, data: seq<Activity>)
    requires |data| > PAGE_SIZE
    ensures Step(s, Page(data)) == s.(events := s.events + Samples(data))
  {
  }

  /** A failed request costs exactly one retry and requests the same page again. */
  lemma FailureRetries(s: LoopState)
    ensures Step(s, Fail) == s.(numRetries := s.numRetries + 1)
  {
  }

  /** Number of failed requests among the first `n` responses. */
  function Failures(rs: seq<Reply>, n: nat): nat
    requires n <= |rs|
    decreases n
  {
    if n == 0 then 0 else Failures(rs, n - 1) + (if rs[n - 1].Fail? then 1 else 0)
  }

  /** Number of full pages among the first `n` responses. */
  function FullPages(rs: seq<Reply>, n: nat): nat
    requires n <= |rs|
    decreases n
  {
    if n == 0 then 0
    else FullPages(rs, n - 1) + (if rs[n - 1].Page? && |rs[n - 1].records| == PAGE_SIZE then 1 else 0)
  }

  /** The samples contributed by the first `n` responses: every page that is neither
      empty nor full. */
  function Gathered(rs: seq<Reply>, n: nat): seq<Sample>
    requires n <= |rs|
    decreases n
  {
    if n == 0 then []
    else
      var last := rs[n - 1];
      if last.Page? && |last.records| != 0 && |last.records| != PAGE_SIZE then Gathered(rs, n - 1) + Samples(last.records)
      else Gathered(rs, n - 1)
  }

  /** Each of the first `n` responses was consumed while the loop was running. */
  ghost predicate ConsumedWhileRunning(rs: seq<Reply>, n: nat) {
    n <= |rs| && forall j :: 0 <= j < n ==> Running(Replay(rs, j))
  }

  /** One more response consumed by the running loop. */
  lemma ConsumedAppend(rs: seq<Reply>, n: nat)
    requires ConsumedWhileRunning(rs, n) && n < |rs| && Running(Replay(rs, n))
    ensures ConsumedWhileRunning(rs, n + 1)
  {
  }

  /** While every response is consumed by a running loop: the page requested is 1 plus
      the number of full pages, the retry count is the number of failures, and the
      samples are exactly those of the pages that were neither empty nor full. */
  lemma {:induction false} ReplayCounts(rs: seq<Reply>, n: nat)
    requires ConsumedWhileRunning(rs, n)
    ensures Replay(rs, n).page == 1 + FullPages(rs, n)
    ensures Replay(rs, n).numRetries == Failures(rs, n)
    ensures Replay(rs, n).events == Gathered(rs, n)
    decreases n
  {
    if n > 0 {
      ReplayCounts(rs, n - 1);
    }
  }

  /** The loop performs at most `MAX_RETRIES` failed iterations, whatever the responses:
      the retry counter is never reset. */
  lemma {:induction false} RetriesBounded(rs: seq<Reply>, n: nat)
    requires n <= |rs|
    ensures 0 <= Replay(rs, n).numRetries <= MAX_RETRIES
    decreases n
  {
    if n > 0 {
      RetriesBounded(rs, n - 1);
    }
  }

  /** Why a running loop stops after a response: an empty page, a page of 1 to 29
      records, or the failure that uses up the last retry. */
  lemma StopReasons(rs: seq<Reply>, n: nat)
    requires 0 < n <= |rs| && Running(Replay(rs, n - 1)) && !Running(Replay(rs, n))
    ensures var last := rs[n - 1];
      (last.Page? && |last.records| == 0) ||
      (last.Page? && 0 < |last.records| < PAGE_SIZE) ||
      (last.Fail? && Replay(rs, n).numRetries == MAX_RETRIES)
  {
  }

  /** Pages of 30, 30 and 17 records: three requests, for pages 1, 2 and 3, no retry
      used, and only the 17 records of the last page collected. */
  lemma ThreePagesExample(a: Activity)
    ensures var full := seq(PAGE_SIZE, _ => a);
      var part := seq(17, _ => a);
      var rs := [Page(full), Page(full), Page(part)];
      ConsumedWhileRunning(rs, 3) && Replay(rs, 3) == LoopState(3, 0, true, false, Samples(part))
  {
    var full := seq(PAGE_SIZE, _ => a);
    var part := seq(17, _ => a);
    var rs := [Page(full), Page(full), Page(part)];
    assert Replay(rs, 1) == LoopState(2, 0, false, false, []);
    assert Replay(rs, 2) == LoopState(3, 0, false, false, []);
  }

  /** Two failed requests in a row use up the retries: the loop stops, and a third
      response is never consumed. */
  lemma TwoFailuresExhaust(r: Reply)
    ensures Replay([Fail, Fail], 2) == LoopState(1, 2, false, false, [])
    ensures !Running(Replay([Fail, Fail], 2))
    ensures Replay([Fail, Fail, r], 3) == Replay([Fail, Fail], 2)
  {
    assert Replay([Fail, Fail, r], 2) == Replay([Fail, Fail], 2);
  }
}
