/** src/ingestion/resilience/singleflight.py and `get_json` of resilient_http_client.py: of all
    tasks that want one URL at the same time, one does the request and the others await its future.
    The bodies under the lock hold no await, so each is one step; a run is any interleaving of
    the steps of any number of tasks. */
module SingleFlight {
  import opened Common

  type Url = string
  type TaskId = nat
  type FutureId = nat

  /** What a task ends with. `Cancelled` is what awaiting a cancelled future raises. */
  datatype Outcome = Answer(payload: Option<string>) | Failed(error: string) | Cancelled

  /** A future, with the URL it was created for and the task that created it. */
  datatype Future = Future(url: Url, leader: TaskId, status: Option<Outcome>)

  /** The table of requests under way. */
  datatype Group = Group(inflight: map<Url, FutureId>, created: nat) {

    /** The holder of `url`, and whether the caller has to do the request itself. */
    function Acquire(url: Url): (Group, FutureId, bool)
    {
      if url in inflight then (this, inflight[url], false)
      else (Group(inflight[url := created], created + 1), created, true)
    }

    function Release(url: Url, holder: FutureId): Group
    {
      if url in inflight && inflight[url] == holder then this.(inflight := inflight - {url}) else this
    }
  }

  /** A release undoes the acquire of the same holder, and no other one. */
  lemma ReleaseUndoesAcquire(group: Group, url: Url, other: FutureId)
    ensures var (acquired, holder, leader) := group.Acquire(url);
      && (leader <==> url !in group.inflight) && url in acquired.inflight && acquired.inflight[url] == holder
      && (leader ==> acquired.Release(url, holder).inflight == group.inflight)
      && (!leader ==> acquired == group)
      && (other != holder ==> acquired.Release(url, other) == acquired)
  {
    var (acquired, holder, leader) := group.Acquire(url);
    if leader {
      assert acquired.inflight - {url} == group.inflight;
    }
  }

  class SingleFlightGroup {
    var inflightRequests: map<Url, FutureId>
    var created: nat

    ghost function Snapshot(): Group
      reads this
    {
      Group(inflightRequests, created)
    }

    constructor ()
      ensures Snapshot() == Group(map[], 0)
    {
      inflightRequests, created := map[], 0;
    }

    method Acquire(key: Url) returns (holder: FutureId, leader: bool)
      modifies this
      ensures (Snapshot(), holder, leader) == old(Snapshot()).Acquire(key)
    {
      if key in inflightRequests {
        return inflightRequests[key], false;
      }
      holder, leader := created, true;
      created := created + 1;
      inflightRequests := inflightRequests[key := holder];
    }

    method Release(key: Url, holder: FutureId)
      modifies this
      ensures Snapshot() == old(Snapshot()).Release(key, holder)
    {
      if key in inflightRequests && inflightRequests[key] == holder {
        inflightRequests := inflightRequests - {key};
      }
    }
  }

  // ----- The protocol -----

  /** Where a task stands: awaiting another task's future, doing the request, about to release
      (its own outcome settled), or finished. */
  datatype Pc =
    | Waiting(url: Url, future: FutureId)
    | Leading(url: Url, future: FutureId)
    | Releasing(url: Url, future: FutureId, outcome: Outcome)
    | Finished(result: Outcome)

  datatype State = State(group: Group, futures: map<FutureId, Future>, tasks: map<TaskId, Pc>)

  const START := State(Group(map[], 0), map[], map[])

  datatype Event =
    | Enter(task: TaskId, url: Url)
    /** The request of a leader ends: an answer, an exception, or the task's own cancellation. */
    | Settle(task: TaskId, outcome: Outcome)
    | Leave(task: TaskId)
    | Wake(task: TaskId)
    /** A waiting task is cancelled, and with it the future it awaits unless that is settled. */
    | CancelWaiting(task: TaskId)

  ghost predicate Enabled(s: State, e: Event)
  {
    match e
    case Enter(t, _) => t !in s.tasks
    case Settle(t, _) => t in s.tasks && s.tasks[t].Leading? && s.tasks[t].future in s.futures
    case Leave(t) => t in s.tasks && s.tasks[t].Releasing?
    case Wake(t) =>
      t in s.tasks && s.tasks[t].Waiting? && s.tasks[t].future in s.futures && s.futures[s.tasks[t].future].status.Some?
    case CancelWaiting(t) => t in s.tasks && s.tasks[t].Waiting? && s.tasks[t].future in s.futures
  }

  /** A future keeps the first outcome it is given. */
  function Resolve(future: Future, outcome: Outcome): Future
  {
    if future.status.Some? then future else future.(status := Some(outcome))
  }

  ghost function Next(s: State, e: Event): State
    requires Enabled(s, e)
  {
    match e
    case Enter(t, url) =>
      var (group, f, leader) := s.group.Acquire(url);
      if leader then State(group, s.futures[f := Future(url, t, None)], s.tasks[t := Leading(url, f)])
      else s.(tasks := s.tasks[t := Waiting(url, f)])
    case Settle(t, outcome) =>
      var pc := s.tasks[t];
      s.(futures := s.futures[pc.future := Resolve(s.futures[pc.future], outcome)],
           tasks := s.tasks[t := Releasing(pc.url, pc.future, outcome)])
    case Leave(t) =>
      var pc := s.tasks[t];
      s.(group := s.group.Release(pc.url, pc.future), tasks := s.tasks[t := Finished(pc.outcome)])
    case Wake(t) =>
      s.(tasks := s.tasks[t := Finished(s.futures[s.tasks[t].future].status.value)])
    case CancelWaiting(t) =>
      var f := s.tasks[t].future;
      s.(futures := s.futures[f := Resolve(s.futures[f], Cancelled)], tasks := s.tasks[t := Finished(Cancelled)])
  }

  /** A run: every event enabled when its turn comes. */
  ghost predicate Behaves(s: State, events: seq<Event>)
    decreases events
  {
    events == [] || (Enabled(s, events[0]) && Behaves(Next(s, events[0]), events[1..]))
  }

  ghost function After(s: State, events: seq<Event>): State
    requires Behaves(s, events)
    decreases events
  {
    if events == [] then s else After(Next(s, events[0]), events[1..])
  }

  /** From acquire to release. */
  ghost predicate Leads(s: State, t: TaskId)
  {
    t in s.tasks && (s.tasks[t].Leading? || s.tasks[t].Releasing?)
  }

  /** What every reachable state satisfies. */
  ghost predicate Inv(s: State)
  {
    && (forall f: FutureId :: f in s.futures <==> f < s.group.created)
    && TableHeld(s) && LeadersHold(s) && WaitersWait(s) && UnsettledListed(s)
  }

  ghost predicate TableHeld(s: State)
  {
    // an entry of the table is held by the leader that made it
    forall url: Url :: url in s.group.inflight ==>
          var f := s.group.inflight[url];
          && f in s.futures && s.futures[f].url == url
          && Leads(s, s.futures[f].leader) && s.tasks[s.futures[f].leader].future == f
  }

  ghost predicate LeadersHold(s: State)
  {
    // a leader holds the entry of its URL, and releases it only with its future settled
    forall t: TaskId :: Leads(s, t) ==>
          var pc := s.tasks[t];
          && pc.future in s.futures && s.futures[pc.future].leader == t && s.futures[pc.future].url == pc.url
          && pc.url in s.group.inflight && s.group.inflight[pc.url] == pc.future
          && (pc.Releasing? ==> s.futures[pc.future].status.Some?)
  }

  ghost predicate WaitersWait(s: State)
  {
    // a waiter waits for a future of its URL
    forall t: TaskId :: t in s.tasks && s.tasks[t].Waiting? ==>
          s.tasks[t].future in s.futures && s.futures[s.tasks[t].future].url == s.tasks[t].url
  }

  ghost predicate UnsettledListed(s: State)
  {
    // an unsettled future is in the table
    forall f: FutureId :: f in s.futures && s.futures[f].status.None? ==>
          s.futures[f].url in s.group.inflight && s.group.inflight[s.futures[f].url] == f
  }

  lemma InvStart()
    ensures Inv(START)
  {
  }

  lemma InvLead(s: State, e: Event)
    requires Inv(s) && Enabled(s, e) && e.Enter? && e.url !in s.group.inflight
    ensures Inv(Next(s, e))
  {
    LeadHeld(s, e);
    LeadHolds(s, e);
  }

  lemma LeadHeld(s: State, e: Event)
    requires Inv(s) && Enabled(s, e) && e.Enter? && e.url !in s.group.inflight
    ensures TableHeld(Next(s, e))
  {
  }

  lemma LeadHolds(s: State, e: Event)
    requires Inv(s) && Enabled(s, e) && e.Enter? && e.url !in s.group.inflight
    ensures LeadersHold(Next(s, e))
  {
  }

  lemma InvJoin(s: State, e: Event)
    requires Inv(s) && Enabled(s, e) && e.Enter? && e.url in s.group.inflight
    ensures Inv(Next(s, e))
  {
  }

  lemma InvSettle(s: State, e: Event)
    requires Inv(s) && Enabled(s, e) && e.Settle?
    ensures Inv(Next(s, e))
  {
  }

  lemma InvLeave(s: State, e: Event)
    requires Inv(s) && Enabled(s, e) && e.Leave?
    ensures Inv(Next(s, e))
  {
  }

  lemma InvWake(s: State, e: Event)
    requires Inv(s) && Enabled(s, e) && e.Wake?
    ensures Inv(Next(s, e))
  {
  }

  lemma InvCancelWaiting(s: State, e: Event)
    requires Inv(s) && Enabled(s, e) && e.CancelWaiting?
    ensures Inv(Next(s, e))
  {
    CancelHeld(s, e);
    CancelHolds(s, e);
  }

  lemma CancelHeld(s: State, e: Event)
    requires Inv(s) && Enabled(s, e) && e.CancelWaiting?
    ensures TableHeld(Next(s, e))
  {
  }

  lemma CancelHolds(s: State, e: Event)
    requires Inv(s) && Enabled(s, e) && e.CancelWaiting?
    ensures LeadersHold(Next(s, e))
  {
  }

  lemma InvNext(s: State, e: Event)
    requires Inv(s) && Enabled(s, e)
    ensures Inv(Next(s, e))
  {
    match e {
      case Enter(_, url) => if url in s.group.inflight { InvJoin(s, e); } else { InvLead(s, e); }
      case Settle(_, _) => InvSettle(s, e);
      case Leave(_) => InvLeave(s, e);
      case Wake(_) => InvWake(s, e);
      case CancelWaiting(_) => InvCancelWaiting(s, e);
    }
  }

  lemma {:induction false} InvAlways(s: State, events: seq<Event>)
    requires Inv(s) && Behaves(s, events)
    ensures Inv(After(s, events))
    decreases events
  {
    if events != [] {
      InvNext(s, events[0]);
      InvAlways(Next(s, events[0]), events[1..]);
    }
  }

  /** However the tasks interleave, succeed, fail or are cancelled: one leader per URL; a waiter's
      future is settled or still being worked on by a running leader; a future that left the table
      is settled. */
  lemma NoOrphanWaiters(events: seq<Event>)
    requires Behaves(START, events)
    ensures var s := After(START, events);
      && (forall t, u :: Leads(s, t) && Leads(s, u) && s.tasks[t].url == s.tasks[u].url ==> t == u)
      && (forall t :: t in s.tasks && s.tasks[t].Waiting? ==>
            var f := s.tasks[t].future;
            && f in s.futures
            && (s.futures[f].status.Some?
                || (var l := s.futures[f].leader; l in s.tasks && s.tasks[l] == Leading(s.tasks[t].url, f))))
      && (forall f :: f in s.futures && f !in s.group.inflight.Values ==> s.futures[f].status.Some?)
  {
    InvStart();
    InvAlways(START, events);
    var s := After(START, events);
    forall f | f in s.futures && s.futures[f].status.None? ensures f in s.group.inflight.Values {
      assert s.futures[f].url in s.group.inflight.Keys;
    }
  }

  lemma EntryHasLeader(s: State, url: Url)
    requires Inv(s) && url in s.group.inflight
    ensures exists t :: Leads(s, t)
  {
    assert Leads(s, s.futures[s.group.inflight[url]].leader);
  }

  /** When no leader is left, the table is empty and every waiter can finish. */
  lemma QuiescentMeansSettled(events: seq<Event>)
    requires Behaves(START, events) && forall t :: !Leads(After(START, events), t)
    ensures After(START, events).group.inflight == map[]
    ensures forall t :: t in After(START, events).tasks && After(START, events).tasks[t].Waiting? ==>
                          Enabled(After(START, events), Wake(t))
  {
    InvStart();
    InvAlways(START, events);
    var s := After(START, events);
    forall url ensures url !in s.group.inflight {
      if url in s.group.inflight { EntryHasLeader(s, url); }
    }
  }

  // ----- Whose outcome the waiters get -----

  /** Some task waiting for `f` is cancelled in the run. */
  ghost predicate WaiterCancelled(s: State, events: seq<Event>, f: FutureId)
    requires Behaves(s, events)
    decreases events
  {
    events != []
    && ((events[0].CancelWaiting? && s.tasks[events[0].task].future == f)
        || WaiterCancelled(Next(s, events[0]), events[1..], f))
  }

  ghost predicate NotSettling(t: TaskId, events: seq<Event>)
  {
    forall i :: 0 <= i < |events| ==> !(events[i].Settle? && events[i].task == t)
  }

  lemma {:induction false} UntilSettled(s: State, events: seq<Event>, t: TaskId)
    requires Inv(s) && Behaves(s, events) && NotSettling(t, events)
    requires t in s.tasks && s.tasks[t].Leading?
    ensures var f := s.tasks[t].future; var n := After(s, events);
      && t in n.tasks && n.tasks[t] == s.tasks[t] && f in n.futures
      && n.futures[f].status ==
         if s.futures[f].status.None? && WaiterCancelled(s, events, f) then Some(Cancelled) else s.futures[f].status
    decreases events
  {
    if events != [] {
      var n := Next(s, events[0]);
      var f := s.tasks[t].future;
      InvNext(s, events[0]);
      assert NotSettling(t, events[1..]) by {
        forall i | 0 <= i < |events[1..]| ensures !(events[1..][i].Settle? && events[1..][i].task == t) {
          assert events[1..][i] == events[i + 1];
        }
      }
      assert !(events[0].Settle? && events[0].task == t);
      if events[0].Settle? {
        assert s.tasks[events[0].task].future != f;
      }
      assert n.tasks[t] == s.tasks[t];
      UntilSettled(n, events[1..], t);
    }
  }

  lemma {:induction false} SettledForGood(s: State, events: seq<Event>, f: FutureId)
    requires Inv(s) && Behaves(s, events) && f in s.futures && s.futures[f].status.Some?
    ensures f in After(s, events).futures && After(s, events).futures[f].status == s.futures[f].status
    decreases events
  {
    if events != [] {
      InvNext(s, events[0]);
      SettledForGood(Next(s, events[0]), events[1..], f);
    }
  }

  /** All waiters of one request are woken with one and the same outcome. It is the leader's own
      outcome exactly when no waiter was cancelled before the leader got there; otherwise the
      cancellation of that one waiter reaches all the others. */
  lemma WaitersGet(s: State, before: seq<Event>, t: TaskId, outcome: Outcome, after: seq<Event>, w: TaskId)
    requires Inv(s) && t in s.tasks && s.tasks[t].Leading? && s.futures[s.tasks[t].future].status.None?
    requires Behaves(s, before) && NotSettling(t, before)
    requires Enabled(After(s, before), Settle(t, outcome))
    requires Behaves(Next(After(s, before), Settle(t, outcome)), after)
    ensures var f := s.tasks[t].future; var n := After(Next(After(s, before), Settle(t, outcome)), after);
      && f in n.futures
      && n.futures[f].status == Some(if WaiterCancelled(s, before, f) then Cancelled else outcome)
      && (n.futures[f].status == Some(outcome) <==> outcome == Cancelled || !WaiterCancelled(s, before, f))
      && (Enabled(n, Wake(w)) && n.tasks[w].future == f ==>
            Next(n, Wake(w)).tasks[w] == Finished(if WaiterCancelled(s, before, f) then Cancelled else outcome))
  {
    OutcomeOf(s, before, t, outcome, after);
  }

  lemma OutcomeOf(s: State, before: seq<Event>, t: TaskId, outcome: Outcome, after: seq<Event>)
    requires Inv(s) && t in s.tasks && s.tasks[t].Leading? && s.futures[s.tasks[t].future].status.None?
    requires Behaves(s, before) && NotSettling(t, before)
    requires Enabled(After(s, before), Settle(t, outcome))
    requires Behaves(Next(After(s, before), Settle(t, outcome)), after)
    ensures var f := s.tasks[t].future; var n := After(Next(After(s, before), Settle(t, outcome)), after);
      f in n.futures && n.futures[f].status == Some(if WaiterCancelled(s, before, f) then Cancelled else outcome)
  {
    UntilSettled(s, before, t);
    InvAlways(s, before);
    var m := Next(After(s, before), Settle(t, outcome));
    InvNext(After(s, before), Settle(t, outcome));
    SettledForGood(m, after, s.tasks[t].future);
  }

  /** It does happen: of two tasks waiting for one leader, one is cancelled, and the other one is
      cancelled too although the leader gets its answer. */
  lemma CancelledWaiterTakesTheOthersAlong()
    ensures
      var events := [Enter(0, "u"), Enter(1, "u"), Enter(2, "u"), CancelWaiting(1), Settle(0, Answer(Some("p"))), Wake(2), Leave(0)];
      && Behaves(START, events)
      && After(START, events).tasks[0] == Finished(Answer(Some("p")))
      && After(START, events).tasks[2] == Finished(Cancelled)
  {
    var events := [Enter(0, "u"), Enter(1, "u"), Enter(2, "u"), CancelWaiting(1), Settle(0, Answer(Some("p"))), Wake(2), Leave(0)];
    var s1 := Next(START, events[0]);
    var s2 := Next(s1, events[1]);
    var s3 := Next(s2, events[2]);
    var s4 := Next(s3, events[3]);
    var s5 := Next(s4, events[4]);
    var s6 := Next(s5, events[5]);
    var s7 := Next(s6, events[6]);
    Unfold(s6, events[6..], s7);
    Unfold(s5, events[5..], s6);
    Unfold(s4, events[4..], s5);
    Unfold(s3, events[3..], s4);
    Unfold(s2, events[2..], s3);
    Unfold(s1, events[1..], s2);
    Unfold(START, events, s1);
  }

  lemma Unfold(s: State, events: seq<Event>, n: State)
    requires events != [] && Enabled(s, events[0]) && n == Next(s, events[0]) && Behaves(n, events[1..])
    ensures Behaves(s, events) && After(s, events) == After(n, events[1..])
  {
  }
}
