/** The interceptor as it runs: module variables that its callbacks change in place. */
module Interceptor {
  import opened Models
  import opened Client

  class Api {
    var isRefreshing: bool
    var failedQueue: seq<Waiter>
    var requests: map<Id, Request>

    var tickets: nat  // numbers the promises, and so tells them apart

    // History: refreshes started and finished, and the promises answered.
    ghost var started: nat
    ghost var finished: nat
    ghost var answered: seq<nat>

    constructor ()
      ensures View() == FRESH && Inv(View())
    {
      isRefreshing, failedQueue, requests := false, [], map[];
      started, finished, tickets, answered := 0, 0, 0, [];
      new;
      FreshInv();
    }

    ghost function View(): State
      reads this
    {
      State(isRefreshing, failedQueue, requests, started, finished, tickets, answered)
    }

    /** Send a request for the first time. */
    method Send(id: Id, exempt: bool)
      requires id !in requests
      modifies this
      ensures View() == Step(old(View()), Issue(id, exempt))
      ensures Inv(old(View())) ==> Inv(View())
    {
      ghost var before := View();
      requests := requests[id := Request(exempt, false, InFlight, 1)];
      if Inv(before) { StepInv(before, Issue(id, exempt)); }
    }

    /** The response callback of a request, up to the point where it awaits the refresh. */
    method OnResponse(id: Id, status: Status)
      requires id in requests && requests[id].phase.InFlight?
      modifies this
      ensures View() == Step(old(View()), Reply(id, status))
      ensures Inv(old(View())) ==> Inv(View())
    {
      ghost var before := View();
      var original := requests[id];
      if status == Fine {
        requests := requests[id := original.(phase := Settled(true))];
      } else if status == Unauthorized && !original.retry && !original.exempt {
        if isRefreshing {
          failedQueue := failedQueue + [Waiter(tickets, id)];
          original := original.(phase := Waiting(tickets));
          requests := requests[id := original];
          tickets := tickets + 1;
        } else {
          original := original.(retry := true);
          isRefreshing := true;
          original := original.(phase := Refreshing);
          requests := requests[id := original];
          started := started + 1;
        }
      } else {
        requests := requests[id := original.(phase := Settled(false))];
      }
      if Inv(before) { StepInv(before, Reply(id, status)); }
    }

    /** Resolve or reject every waiter of the queue, in order, and empty it. A waiter that is resolved is sent again. */
    method ProcessQueue(ok: bool)
      requires Inv(View())
      modifies this`requests, this`failedQueue, this`answered
      ensures failedQueue == [] && answered == old(answered) + Tickets(old(failedQueue))
      ensures requests.Keys == old(requests).Keys
      ensures forall id :: id in requests ==>
                requests[id] == if old(requests)[id].phase.Waiting? then Resume(old(requests)[id], ok)
                                else old(requests)[id]
      ensures forall id :: id in requests && old(requests)[id].phase.Waiting? ==>
                && requests[id].phase == (if ok then InFlight else Settled(false))
                && requests[id].sent == old(requests)[id].sent + if ok then 1 else 0
    {
      ghost var before := View();
      ghost var done: set<Id> := {};
      WaitersDiffer(before);
      var i := 0;
      while i < |failedQueue|
        invariant 0 <= i <= |failedQueue| && failedQueue == before.failedQueue
        invariant done == set k | 0 <= k < i :: failedQueue[k].request
        invariant requests.Keys == before.requests.Keys
        invariant forall id :: id in requests ==>
                    requests[id] == if id in done then Resume(before.requests[id], ok) else before.requests[id]
        invariant answered == before.answered + Tickets(failedQueue[..i])
      {
        var p := failedQueue[i];
        requests := requests[p.request := Resume(requests[p.request], ok)];
        done := done + {p.request};
        answered := answered + [p.ticket];
        assert Tickets(failedQueue[..i + 1]) == Tickets(failedQueue[..i]) + [p.ticket];
        i := i + 1;
      }
      assert failedQueue[..|failedQueue|] == failedQueue;
      forall id | id in before.requests && before.requests[id].phase.Waiting? ensures id in done {
        assert Waiter(before.requests[id].phase.ticket, id) in failedQueue;
      }
      failedQueue := [];
    }

    /** What follows the awaited refresh, in the callback of the request `id` that started it. */
    method OnRefreshed(id: Id, ok: bool)
      requires Inv(View()) && id in requests && requests[id].phase.Refreshing?
      modifies this
      ensures View() == Step(old(View()), RefreshReply(ok))
      ensures requests[id].phase == if ok then InFlight else Settled(false)
      ensures requests[id].sent == old(requests)[id].sent + if ok then 1 else 0
      ensures Inv(View())
    {
      ghost var before := View();
      ProcessQueue(ok);
      var original := requests[id];
      if ok {
        original := original.(phase := InFlight, sent := original.sent + 1);
      } else {
        original := original.(phase := Settled(false));
      }
      requests := requests[id := original];
      isRefreshing := false;
      finished := finished + 1;
      assert requests == OnRefreshReply(before, ok).requests;
      StepInv(before, RefreshReply(ok));
    }
  }
}
