/** The browser's response interceptor: after a 401 one refresh at a time, with the requests that fail meanwhile
    waiting in a queue to be sent again. */
module Client {
  import opened Models
  import opened Sets

  datatype Phase =
    | InFlight               // sent, and not answered yet
    | Waiting(ticket: nat)   // its promise is in the queue
    | Refreshing             // it is the request that started the refresh
    | Settled(ok: bool)

  /** `exempt` requests go to the auth endpoints that are never retried; `retry` is the flag set on the request when
      it starts a refresh; `sent` counts how often it has been sent. */
  datatype Request = Request(exempt: bool, retry: bool, phase: Phase, sent: nat)

  datatype Waiter = Waiter(ticket: nat, request: Id)

  /** `isRefreshing` and `failedQueue` are the module's variables. The rest is history: refreshes started and finished,
      promises queued (numbered in order), and the numbers of those resolved or rejected, in order. */
  datatype State = State(
    isRefreshing: bool,
    failedQueue: seq<Waiter>,
    requests: map<Id, Request>,
    started: nat,
    finished: nat,
    tickets: nat,
    answered: seq<nat>)

  const FRESH := State(false, [], map[], 0, 0, 0, [])

  datatype Status = Fine | Unauthorized | OtherError

  datatype Event =
    | Issue(request: Id, exempt: bool)
    | Reply(request: Id, status: Status)
    | RefreshReply(ok: bool)

  /** Whether the event can happen: answers come only to what is in flight. */
  predicate Enabled(s: State, e: Event) {
    match e
    case Issue(id, _) => id !in s.requests
    case Reply(id, _) => id in s.requests && s.requests[id].phase.InFlight?
    case RefreshReply(_) => s.isRefreshing
  }

  function Settle(s: State, id: Id, ok: bool): State
    requires id in s.requests
  {
    s.(requests := s.requests[id := s.requests[id].(phase := Settled(ok))])
  }

  /** The branch of the interceptor for a failed request. */
  function OnError(s: State, id: Id, status: Status): State
    requires id in s.requests
  {
    var r := s.requests[id];
    if !status.Unauthorized? || r.retry || r.exempt then Settle(s, id, false)
    else if s.isRefreshing then
      s.(failedQueue := s.failedQueue + [Waiter(s.tickets, id)], tickets := s.tickets + 1,
         requests := s.requests[id := r.(phase := Waiting(s.tickets))])
    else
      s.(isRefreshing := true, started := s.started + 1,
         requests := s.requests[id := r.(retry := true, phase := Refreshing)])
  }

  /** What the end of a refresh does to a request: the one that started it and those that wait are sent again if it
      succeeded, and fail if it did not. */
  function Resume(r: Request, ok: bool): Request {
    if r.phase.Waiting? || r.phase.Refreshing? then
      if ok then r.(phase := InFlight, sent := r.sent + 1) else r.(phase := Settled(false))
    else r
  }

  function Tickets(queue: seq<Waiter>): seq<nat> {
    seq(|queue|, i requires 0 <= i < |queue| => queue[i].ticket)
  }

  function OnRefreshReply(s: State, ok: bool): State {
    s.(isRefreshing := false, failedQueue := [], finished := s.finished + 1,
       answered := s.answered + Tickets(s.failedQueue),
       requests := map id | id in s.requests :: Resume(s.requests[id], ok))
  }

  function Step(s: State, e: Event): State {
    if !Enabled(s, e) then s
    else
      match e
      case Issue(id, exempt) => s.(requests := s.requests[id := Request(exempt, false, InFlight, 1)])
      case Reply(id, status) => if status.Fine? then Settle(s, id, true) else OnError(s, id, status)
      case RefreshReply(ok) => OnRefreshReply(s, ok)
  }

  function Run(s: State, events: seq<Event>): State
    decreases |events|
  {
    if events == [] then s else Step(Run(s, events[..|events| - 1]), events[|events| - 1])
  }

  // ----- Single flight, and no stranded waiter -----

  function Flagged(s: State): set<Id> {
    set id | id in s.requests && s.requests[id].retry
  }

  ghost predicate QueueMatches(s: State) {
    && (forall k :: 0 <= k < |s.failedQueue| ==>
          && s.failedQueue[k].request in s.requests
          && s.requests[s.failedQueue[k].request].phase == Waiting(s.failedQueue[k].ticket))
    && (forall id :: id in s.requests && s.requests[id].phase.Waiting? ==>
          Waiter(s.requests[id].phase.ticket, id) in s.failedQueue)
  }

  ghost predicate OneRefresher(s: State) {
    && (s.isRefreshing <==> exists id :: id in s.requests && s.requests[id].phase.Refreshing?)
    && (forall i, j | i in s.requests && j in s.requests ::
          s.requests[i].phase.Refreshing? && s.requests[j].phase.Refreshing? ==> i == j)
    && (forall id :: id in s.requests && s.requests[id].phase.Refreshing? ==> s.requests[id].retry)
  }

  /** Promises are answered once each, in the order in which they were queued, and the queue holds the rest. */
  ghost predicate AnsweredInOrder(s: State) {
    s.answered + Tickets(s.failedQueue) == seq(s.tickets, i => i)
  }

  ghost predicate Counted(s: State) {
    && |Flagged(s)| == s.started
    && s.started == s.finished + (if s.isRefreshing then 1 else 0)
    && forall id :: id in s.requests ==> s.requests[id].sent <= 1 + s.finished
  }

  ghost predicate Inv(s: State) {
    && (s.failedQueue != [] ==> s.isRefreshing)
    && QueueMatches(s) && OneRefresher(s) && AnsweredInOrder(s) && Counted(s)
  }

  lemma SettleInv(s: State, id: Id, ok: bool)
    requires Inv(s) && id in s.requests && s.requests[id].phase.InFlight?
    ensures Inv(Settle(s, id, ok))
  {
    var after := Settle(s, id, ok);
    assert Flagged(after) == Flagged(s);
    if s.isRefreshing {
      var r :| r in s.requests && s.requests[r].phase.Refreshing?;
      assert after.requests[r].phase.Refreshing?;
    }
  }

  lemma QueueInv(s: State, id: Id)
    requires Inv(s) && id in s.requests && s.requests[id].phase.InFlight?
    requires s.isRefreshing && !s.requests[id].retry && !s.requests[id].exempt
    ensures Inv(OnError(s, id, Unauthorized))
  {
    var after := OnError(s, id, Unauthorized);
    assert Flagged(after) == Flagged(s);
    var r :| r in s.requests && s.requests[r].phase.Refreshing?;
    assert after.requests[r].phase.Refreshing?;
    assert Tickets(after.failedQueue) == Tickets(s.failedQueue) + [s.tickets];
    assert s.answered + (Tickets(s.failedQueue) + [s.tickets]) == seq(s.tickets, i => i) + [s.tickets];
    assert seq(s.tickets, i => i) + [s.tickets] == seq(s.tickets + 1, i => i);
  }

  lemma StartInv(s: State, id: Id)
    requires Inv(s) && id in s.requests && s.requests[id].phase.InFlight?
    requires !s.isRefreshing && !s.requests[id].retry && !s.requests[id].exempt
    ensures Inv(OnError(s, id, Unauthorized))
  {
    var after := OnError(s, id, Unauthorized);
    assert Flagged(after) == Flagged(s) + {id};
    assert after.requests[id].phase.Refreshing?;
  }

  lemma RefreshReplyInv(s: State, ok: bool)
    requires Inv(s) && s.isRefreshing
    ensures Inv(OnRefreshReply(s, ok))
  {
    var after := OnRefreshReply(s, ok);
    assert Flagged(after) == Flagged(s);
    assert Tickets(after.failedQueue) == [];
    assert after.answered + [] == after.answered;
  }

  lemma IssueInv(s: State, id: Id, exempt: bool)
    requires Inv(s) && id !in s.requests
    ensures Inv(Step(s, Issue(id, exempt)))
  {
    var after := Step(s, Issue(id, exempt));
    assert Flagged(after) == Flagged(s);
    if s.isRefreshing {
      var r :| r in s.requests && s.requests[r].phase.Refreshing?;
      assert after.requests[r].phase.Refreshing?;
    }
  }

  lemma StepInv(s: State, e: Event)
    requires Inv(s)
    ensures Inv(Step(s, e))
  {
    if Enabled(s, e) {
      match e
      case Issue(id, exempt) => IssueInv(s, id, exempt);
      case RefreshReply(ok) => RefreshReplyInv(s, ok);
      case Reply(id, status) =>
        var r := s.requests[id];
        if status.Fine? || !status.Unauthorized? || r.retry || r.exempt {
          SettleInv(s, id, status.Fine?);
        } else if s.isRefreshing {
          QueueInv(s, id);
        } else {
          StartInv(s, id);
        }
    }
  }

  lemma {:induction false} RunInv(s: State, events: seq<Event>)
    requires Inv(s)
    ensures Inv(Run(s, events))
    decreases |events|
  {
    if events == [] {
    } else {
      RunInv(s, events[..|events| - 1]);
      StepInv(Run(s, events[..|events| - 1]), events[|events| - 1]);
    }
  }

  lemma FreshInv()
    ensures Inv(FRESH)
  {
    assert Tickets([]) == [] && seq(0, i => i) == [];
  }

  /** In every reachable state at most one refresh is in flight; requests wait only while one is, and each has its own
      promise in the queue; and every promise that was ever queued has been answered exactly once or is still in the
      queue, exactly once. */
  lemma SingleFlight(events: seq<Event>)
    ensures var s := Run(FRESH, events);
            && s.started - s.finished == (if s.isRefreshing then 1 else 0)
            && (s.failedQueue != [] ==> s.isRefreshing)
            && QueueMatches(s)
            && s.answered + Tickets(s.failedQueue) == seq(s.tickets, i => i)
  {
    FreshInv();
    RunInv(FRESH, events);
  }

  /** However the server answers, there are never more refreshes than requests, and no request is sent more than once
      for each request plus one. */
  lemma BoundedEffort(events: seq<Event>, id: Id)
    ensures var s := Run(FRESH, events);
            s.started <= |s.requests| && (id in s.requests ==> s.requests[id].sent <= |s.requests| + 1)
  {
    FreshInv();
    RunInv(FRESH, events);
    SubsetCounts(Flagged(Run(FRESH, events)), Run(FRESH, events).requests.Keys);
  }

  /** No request waits twice. */
  lemma WaitersDiffer(s: State)
    requires Inv(s)
    ensures forall i, j :: 0 <= i < j < |s.failedQueue| ==> s.failedQueue[i].request != s.failedQueue[j].request
  {
    forall i, j | 0 <= i < j < |s.failedQueue|
      ensures s.failedQueue[i].ticket != s.failedQueue[j].ticket
    {
      var all := s.answered + Tickets(s.failedQueue);
      assert all[|s.answered| + i] == s.failedQueue[i].ticket && all[|s.answered| + j] == s.failedQueue[j].ticket;
    }
  }

  // ----- Termination -----

  /** Requests that may still start a refresh. */
  function Unflagged(s: State): set<Id> {
    set id | id in s.requests && !s.requests[id].retry && !s.requests[id].phase.Settled?
  }

  function Flying(s: State): set<Id> {
    set id | id in s.requests && s.requests[id].phase.InFlight?
  }

  function Prospects(s: State): nat {
    |Unflagged(s)| + if s.isRefreshing then 1 else 0
  }

  /** The pair of `Prospects` and the number of requests in flight, as one number. */
  function Measure(s: State): nat {
    Prospects(s) * (|s.requests| + 1) + |Flying(s)|
  }

  lemma ProductBound(p: nat, q: nat, n: nat)
    requires p <= q
    ensures p * n <= q * n
  {
    assert q * n == p * n + (q - p) * n;
  }

  lemma Lexicographic(p: nat, f: nat, p': nat, f': nat, n: nat)
    requires f <= n && f' <= n
    requires p' < p || (p' == p && f' < f)
    ensures p' * (n + 1) + f' < p * (n + 1) + f
  {
    if p' < p {
      ProductBound(p' + 1, p, n + 1);
      assert (p' + 1) * (n + 1) == p' * (n + 1) + (n + 1);
    }
  }

  lemma ReplyDescends(s: State, id: Id, status: Status)
    requires id in s.requests && s.requests[id].phase.InFlight?
    ensures var after := Step(s, Reply(id, status));
            && after.requests.Keys == s.requests.Keys
            && (Prospects(after) < Prospects(s)
                || (Prospects(after) == Prospects(s) && |Flying(after)| < |Flying(s)|))
  {
    var after := Step(s, Reply(id, status));
    assert Flying(after) == Flying(s) - {id};
    if after.requests[id].phase.Waiting? {
      assert Unflagged(after) == Unflagged(s);
    } else {
      assert Unflagged(after) == Unflagged(s) - {id};
    }
  }

  lemma RefreshDescends(s: State, ok: bool)
    requires s.isRefreshing
    ensures var after := Step(s, RefreshReply(ok));
            after.requests.Keys == s.requests.Keys && Prospects(after) < Prospects(s)
  {
    SubsetCounts(Unflagged(Step(s, RefreshReply(ok))), Unflagged(s));
  }

  /** Every answer takes the measure down. */
  lemma AnswersDescend(s: State, e: Event)
    requires Enabled(s, e) && !e.Issue?
    ensures Step(s, e).requests.Keys == s.requests.Keys
    ensures Measure(Step(s, e)) < Measure(s)
  {
    var after := Step(s, e);
    match e {
      case Reply(id, status) => ReplyDescends(s, id, status);
      case RefreshReply(ok) => RefreshDescends(s, ok);
    }
    SubsetCounts(Flying(s), s.requests.Keys);
    SubsetCounts(Flying(after), after.requests.Keys);
    assert |after.requests| == |after.requests.Keys| && |s.requests| == |s.requests.Keys|;
    Lexicographic(Prospects(s), |Flying(s)|, Prospects(after), |Flying(after)|, |s.requests|);
  }

  ghost predicate AllSettled(s: State) {
    forall id :: id in s.requests ==> s.requests[id].phase.Settled?
  }

  /** While a request is unsettled, an answer is still to come: nothing waits for nothing. */
  lemma SomethingPending(s: State)
    requires Inv(s)
    ensures AllSettled(s) <==> !s.isRefreshing && Flying(s) == {}
  {
    if !s.isRefreshing && Flying(s) == {} {
      forall id | id in s.requests ensures s.requests[id].phase.Settled? {
        assert id !in Flying(s);
      }
    }
  }

  /** Answers that arrive one after another, with no new request among them. */
  ghost predicate Answers(s: State, events: seq<Event>)
    decreases |events|
  {
    events != [] ==>
      && Answers(s, events[..|events| - 1])
      && !events[|events| - 1].Issue?
      && Enabled(Run(s, events[..|events| - 1]), events[|events| - 1])
  }

  lemma {:induction false} AnswersUseUpMeasure(s: State, events: seq<Event>)
    requires Answers(s, events)
    ensures Run(s, events).requests.Keys == s.requests.Keys
    ensures |events| + Measure(Run(s, events)) <= Measure(s)
    decreases |events|
  {
    if events == [] {
    } else {
      AnswersUseUpMeasure(s, events[..|events| - 1]);
      AnswersDescend(Run(s, events[..|events| - 1]), events[|events| - 1]);
    }
  }

  /** Whatever the server answers, once no more requests are issued the answers run out after finitely many, and then
      every request has settled. */
  lemma EveryRequestSettles(issued: seq<Event>, events: seq<Event>)
    requires Answers(Run(FRESH, issued), events)
    ensures var s, n := Run(Run(FRESH, issued), events), |Run(FRESH, issued).requests|;
            && |events| <= (n + 1) * (n + 1) + n
            && ((forall e :: Enabled(s, e) ==> e.Issue?) ==> AllSettled(s))
  {
    hide Measure, Inv, Answers;
    var before := Run(FRESH, issued);
    var s := Run(before, events);
    FreshInv();
    RunInv(FRESH, issued);
    RunInv(before, events);
    AnswersUseUpMeasure(before, events);
    MeasureBound(before);
    if forall e :: Enabled(s, e) ==> e.Issue? {
      AnswersRunOut(s);
    }
  }

  lemma AnswersRunOut(s: State)
    requires Inv(s) && forall e :: Enabled(s, e) ==> e.Issue?
    ensures AllSettled(s)
  {
    SomethingPending(s);
    assert !Enabled(s, RefreshReply(true));
    forall id ensures id !in Flying(s) {
      assert !Enabled(s, Reply(id, Fine));
    }
  }

  lemma MeasureBound(s: State)
    ensures Measure(s) <= (|s.requests| + 1) * (|s.requests| + 1) + |s.requests|
  {
    SubsetCounts(Unflagged(s), s.requests.Keys);
    SubsetCounts(Flying(s), s.requests.Keys);
    assert |s.requests.Keys| == |s.requests|;
    ProductBound(Prospects(s), |s.requests| + 1, |s.requests| + 1);
  }

  // ----- Which result a request settles with -----

  /** The end of a refresh: what waited for it, and what started it, is sent once more if it succeeded, and fails if it
      was refused. Nothing else changes, and nothing is left waiting. */
  lemma RefreshReplyEffect(s: State, ok: bool)
    requires s.isRefreshing
    ensures var after := Step(s, RefreshReply(ok));
            && !after.isRefreshing && after.failedQueue == [] && after.requests.Keys == s.requests.Keys
            && forall id :: id in s.requests ==>
                 var r, q := s.requests[id], after.requests[id];
                 && q.exempt == r.exempt && q.retry == r.retry
                 && (if r.phase.Waiting? || r.phase.Refreshing? then
                       if ok then q.phase == InFlight && q.sent == r.sent + 1
                       else q.phase == Settled(false) && q.sent == r.sent
                     else q == r)
  {
  }

  /** A new request is sent once, and open to retry unless it goes to an auth endpoint. */
  lemma IssueEffect(s: State, id: Id, exempt: bool)
    requires id !in s.requests
    ensures var after := Step(s, Issue(id, exempt));
            && id in after.requests && after == s.(requests := s.requests[id := after.requests[id]])
            && var q := after.requests[id];
            && q.phase == InFlight && q.sent == 1 && q.exempt == exempt && (OpenToRetry(q) <==> !exempt)
  {
  }

  /** A 401 can still be met by a refresh. */
  ghost predicate OpenToRetry(r: Request) { !r.retry && !r.exempt }

  /** The answer to a request: no other request changes, and a 401 that is open to retry settles nothing, but makes the
      request wait for the refresh under way or start one. */
  lemma ReplyEffect(s: State, id: Id, status: Status)
    requires id in s.requests && s.requests[id].phase.InFlight?
    ensures var r, after := s.requests[id], Step(s, Reply(id, status));
            && id in after.requests && after.requests == s.requests[id := after.requests[id]]
            && var q := after.requests[id];
            && q.exempt == r.exempt && q.sent == r.sent
            && if status == Unauthorized && OpenToRetry(r) then
                 if s.isRefreshing then
                   && q.phase == Waiting(s.tickets) && q.retry == r.retry && after.isRefreshing
                   && after.failedQueue == s.failedQueue + [Waiter(s.tickets, id)]
                 else
                   q.phase == Refreshing && q.retry && after.isRefreshing && after.failedQueue == s.failedQueue
               else
                 && q.phase == Settled(status == Fine) && q.retry == r.retry
                 && after.isRefreshing == s.isRefreshing && after.failedQueue == s.failedQueue
  {
  }

  /** The event settles the request with this result. */
  ghost predicate Settles(s: State, e: Event, id: Id, ok: bool) {
    && id in s.requests
    && match e
       case Issue(_, _) => false
       case Reply(other, status) =>
         && other == id && s.requests[id].phase.InFlight? && ok == (status == Fine)
         && !(status == Unauthorized && OpenToRetry(s.requests[id]))
       case RefreshReply(success) =>
         && !success && !ok && s.isRefreshing
         && (s.requests[id].phase.Waiting? || s.requests[id].phase.Refreshing?)
  }

  ghost predicate IsSettled(s: State, id: Id, ok: bool) {
    id in s.requests && s.requests[id].phase == Settled(ok)
  }

  lemma SettledStep(s: State, e: Event, id: Id, ok: bool)
    ensures IsSettled(Step(s, e), id, ok) <==> IsSettled(s, id, ok) || Settles(s, e, id, ok)
  {
  }

  ghost predicate SettledAt(events: seq<Event>, k: int, id: Id, ok: bool) {
    0 <= k < |events| && Settles(Run(FRESH, events[..k]), events[k], id, ok)
  }

  lemma SettledAtEarlier(events: seq<Event>, k: int, id: Id, ok: bool)
    requires events != [] && k < |events| - 1
    ensures SettledAt(events, k, id, ok) <==> SettledAt(events[..|events| - 1], k, id, ok)
  {
    if 0 <= k {
      assert events[..|events| - 1][..k] == events[..k];
    }
  }

  /** Over every run, a request has succeeded if and only if it was answered well; and it has failed if and only if a
      refresh that it waited for or had started was refused, or it was answered badly otherwise than by a 401 that a
      refresh could still meet. Both are for good. */
  lemma {:induction false} SettledIff(events: seq<Event>, id: Id, ok: bool)
    ensures IsSettled(Run(FRESH, events), id, ok) <==> exists k :: SettledAt(events, k, id, ok)
    decreases |events|
  {
    hide Settles, IsSettled, Step;
    if events == [] {
      NothingSettled(id, ok);
    } else {
      var init := events[..|events| - 1];
      SettledIff(init, id, ok);
      SettledStep(Run(FRESH, init), events[|events| - 1], id, ok);
      if k :| SettledAt(init, k, id, ok) {
        SettledAtEarlier(events, k, id, ok);
        assert SettledAt(events, k, id, ok);
      }
      if k :| SettledAt(events, k, id, ok) && k < |init| {
        SettledAtEarlier(events, k, id, ok);
      }
      assert Settles(Run(FRESH, init), events[|events| - 1], id, ok) <==> SettledAt(events, |events| - 1, id, ok);
    }
  }

  lemma NothingSettled(id: Id, ok: bool)
    ensures !IsSettled(Run(FRESH, []), id, ok)
  {
  }

  /** A request to the auth endpoints never waits and never starts a refresh, and so is sent just once. */
  ghost predicate ExemptStayOut(s: State) {
    forall id :: id in s.requests && s.requests[id].exempt ==>
      && !s.requests[id].retry && s.requests[id].sent == 1
      && (s.requests[id].phase.InFlight? || s.requests[id].phase.Settled?)
  }

  lemma {:induction false} ExemptAreSentOnce(events: seq<Event>)
    ensures ExemptStayOut(Run(FRESH, events))
    decreases |events|
  {
    if events == [] {
    } else {
      ExemptAreSentOnce(events[..|events| - 1]);
      ExemptStep(Run(FRESH, events[..|events| - 1]), events[|events| - 1]);
    }
  }

  lemma ExemptStep(s: State, e: Event)
    requires ExemptStayOut(s)
    ensures ExemptStayOut(Step(s, e))
  {
  }
}
