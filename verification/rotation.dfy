/** Auth requests that overlap: each call that a refresh makes on the tables is a step of its own. */
module Rotation {
  import opened Models
  import opened Sessions

  /** What a refresh has found out so far, and with it the call that it makes next. */
  datatype Work =
    | Theft(user: Id)            // the session had been revoked: revoke all sessions of its user
    | Stale                      // it has expired: revoke it
    | Seen(session: Session)     // it is good: load its user
    | Allowed(session: Session)  // the user is active: revoke it
    | Spent(session: Session)    // it is revoked: insert its successor
  {
    predicate Rotating() { Seen? || Allowed? || Spent? }
  }

  datatype Progress = Going(work: Work) | Over(answer: Answer)

  /** The first call, which reads the session row. */
  function Look(a: Auth, token: Token, now: Time, fails: bool): Progress {
    if fails then Over(Failed)
    else if token !in a.sessions then Over(Unauthorized)
    else
      var s := a.sessions[token];
      if s.revoked then Going(Theft(s.user))
      else if s.expiresAt < now then Going(Stale)
      else Going(Seen(s))
  }

  /** Each later call. */
  function Advance(a: Auth, token: Token, work: Work, next: Token, expiresAt: Time, fails: bool): (Auth, Progress) {
    match work
    case Theft(user) => (if fails then a else RevokeAll(a, user), Over(Unauthorized))
    case Stale => (if fails then a else Revoke(a, token), Over(Unauthorized))
    case Seen(s) =>
      (a, if fails || s.user !in a.users then Over(Unauthorized)
          else if !a.users[s.user].active then Over(Forbidden)
          else Going(Allowed(s)))
    case Allowed(s) => if fails then (a, Over(Failed)) else (Revoke(a, token), Going(Spent(s)))
    case Spent(s) =>
      if fails || next in a.sessions then (a, Over(Failed))
      else (Insert(a, next, Session(s.user, expiresAt, false, s.lineage)), Over(Issued(next)))
  }

  /** A refresh under way. */
  datatype Call = Call(token: Token, work: Work)

  datatype System = System(auth: Auth, calls: map<Id, Call>)

  const EMPTY := System(Auth(map[], map[]), map[])

  /** A login is the insertion it ends with; what it checked before that, and when, makes no difference here. */
  datatype Event =
    | Read(call: Id, token: Token, now: Time, fails: bool)
    | Proceed(call: Id, next: Token, expiresAt: Time, fails: bool)
    | LogIn(user: Id, token: Token, expiresAt: Time, fails: bool)
    | LogOut(token: Token, fails: bool)
    | SetUser(user: Id, profile: User)

  function Step(s: System, e: Event): System {
    match e
    case Read(c, token, now, fails) =>
      var found := Look(s.auth, token, now, fails);
      if c !in s.calls && found.Going? then s.(calls := s.calls[c := Call(token, found.work)]) else s
    case Proceed(c, next, expiresAt, fails) =>
      if c !in s.calls then s
      else
        var (auth, progress) := Advance(s.auth, s.calls[c].token, s.calls[c].work, next, expiresAt, fails);
        System(auth, if progress.Going? then s.calls[c := s.calls[c].(work := progress.work)] else s.calls - {c})
    case LogIn(user, token, expiresAt, fails) =>
      if fails || token in s.auth.sessions then s
      else s.(auth := Insert(s.auth, token, Session(user, expiresAt, false, token)))
    case LogOut(token, fails) => s.(auth := LogoutReply(s.auth, token, fails).auth)
    case SetUser(user, profile) => s.(auth := s.auth.(users := s.auth.users[user := profile]))
  }

  /** The system after the first `n` events. */
  function State(start: System, events: seq<Event>, n: nat): System
    requires n <= |events|
  {
    if n == 0 then start else Step(State(start, events, n - 1), events[n - 1])
  }

  // ----- Undisturbed, the steps are the request -----

  /** The fault that meets the next call. */
  function FaultAt(work: Work, faults: Faults): bool {
    match work
    case Theft(_) => faults.revokeAll
    case Stale => faults.revokeExpired
    case Seen(_) => faults.loadUser
    case Allowed(_) => faults.revoke
    case Spent(_) => faults.generate || faults.create
  }

  function Pending(work: Work): nat {
    match work
    case Seen(_) => 3
    case Allowed(_) => 2
    case _ => 1
  }

  function Finish(a: Auth, token: Token, work: Work, next: Token, expiresAt: Time, faults: Faults): Reply
    decreases Pending(work)
  {
    var (auth, progress) := Advance(a, token, work, next, expiresAt, FaultAt(work, faults));
    match progress
    case Over(answer) => Reply(auth, answer)
    case Going(more) => Finish(auth, token, more, next, expiresAt, faults)
  }

  function Refresh(a: Auth, token: Token, now: Time, next: Token, expiresAt: Time, faults: Faults): Reply {
    match Look(a, token, now, faults.lookup)
    case Over(answer) => Reply(a, answer)
    case Going(work) => Finish(a, token, work, next, expiresAt, faults)
  }

  /** A refresh whose calls follow each other without anything between them is the refresh as one step. */
  lemma StepsMakeRefresh(a: Auth, token: Token, now: Time, next: Token, expiresAt: Time, faults: Faults)
    ensures Refresh(a, token, now, next, expiresAt, faults) == RefreshReply(a, token, now, next, expiresAt, faults)
  {
    var found := Look(a, token, now, faults.lookup);
    if found.Going? && found.work.Seen? {
      var s := found.work.session;
      assert Finish(a, token, Allowed(s), next, expiresAt, faults) == Rotate(a, token, s, next, expiresAt, faults);
    }
  }

  /** A login as one step is its insertion, or changes nothing. */
  lemma LoginIsInsertion(s: System, user: Id, lookup: bool, passwordMatches: bool, token: Token, expiresAt: Time,
                         fails: bool)
    ensures var reply := LoginReply(s.auth, user, lookup, passwordMatches, token, expiresAt, fails);
            reply.auth == if reply.answer.Issued? then Step(s, LogIn(user, token, expiresAt, false)).auth else s.auth
  {
  }

  // ----- What every run keeps, whatever overlaps -----

  /** What the call knows of its session is still so, except perhaps whether it is revoked. */
  ghost predicate Sound(a: Auth, call: Call) {
    && call.token in a.sessions
    && (call.work.Rotating() ==> call.work.session == a.sessions[call.token].(revoked := false))
    && (call.work.Spent? || call.work.Theft? ==> a.sessions[call.token].revoked)
    && (call.work.Theft? ==> call.work.user == a.sessions[call.token].user)
  }

  ghost predicate CallsSound(s: System) {
    forall c :: c in s.calls ==> Sound(s.auth, s.calls[c])
  }

  ghost predicate WeakInv(s: System) {
    Lineages(s.auth) && CallsSound(s)
  }

  /** Sessions stay, and change only in being revoked. */
  ghost predicate Grows(a: Auth, after: Auth) {
    forall t :: t in a.sessions ==>
      && t in after.sessions
      && (after.sessions[t] == a.sessions[t] || after.sessions[t] == a.sessions[t].(revoked := true))
  }

  /** The event inserts the session that a refresh ends with. */
  ghost predicate Inserts(s: System, e: Event) {
    e.Proceed? && e.call in s.calls && s.calls[e.call].work.Spent? && !e.fails && e.next !in s.auth.sessions
  }

  ghost predicate LogsIn(s: System, e: Event) {
    e.LogIn? && !e.fails && e.token !in s.auth.sessions
  }

  ghost predicate InsertsAlone(s: System, e: Event) {
    Inserts(s, e) ==> NoneLiveIn(s.auth, s.calls[e.call].work.session.lineage)
  }

  lemma StepGrows(s: System, e: Event)
    ensures Grows(s.auth, Step(s, e).auth)
    ensures Inserts(s, e) || LogsIn(s, e) || Step(s, e).auth.sessions.Keys == s.auth.sessions.Keys
  {
  }

  lemma StepKeepsSound(s: System, e: Event)
    requires CallsSound(s)
    ensures CallsSound(Step(s, e))
  {
    StepGrows(s, e);
  }

  lemma InsertionStep(s: System, e: Event)
    requires WeakInv(s) && Inserts(s, e)
    ensures Lineages(Step(s, e).auth)
    ensures SingleLive(s.auth) ==> (SingleLive(Step(s, e).auth) <==> InsertsAlone(s, e))
  {
    var Call(token, work) := s.calls[e.call];
    assert Rooted(s.auth, token);
    forall t | t in s.auth.sessions && s.auth.sessions[t].lineage == work.session.lineage
      ensures s.auth.sessions[t].user == work.session.user
    {
      assert Kin(s.auth, t, token);
    }
    InsertKeepsIff(s.auth, e.next, Session(work.session.user, e.expiresAt, false, work.session.lineage));
  }

  lemma LoginStep(s: System, e: Event)
    requires Lineages(s.auth) && LogsIn(s, e)
    ensures Lineages(Step(s, e).auth)
    ensures SingleLive(s.auth) ==> SingleLive(Step(s, e).auth)
  {
    forall t | t in s.auth.sessions ensures s.auth.sessions[t].lineage != e.token { assert Rooted(s.auth, t); }
    InsertKeepsIff(s.auth, e.token, Session(e.user, e.expiresAt, false, e.token));
  }

  lemma StepKeepsWeakInv(s: System, e: Event)
    requires WeakInv(s)
    ensures WeakInv(Step(s, e))
    ensures SingleLive(s.auth) ==> (SingleLive(Step(s, e).auth) <==> InsertsAlone(s, e))
  {
    hide Step, SingleLive, Lineages;
    StepKeepsSound(s, e);
    StepGrows(s, e);
    if Inserts(s, e) {
      InsertionStep(s, e);
    } else if LogsIn(s, e) {
      LoginStep(s, e);
    } else {
      FewerLive(s.auth, Step(s, e).auth);
    }
  }

  lemma {:induction false} RunKeepsWeakInv(start: System, events: seq<Event>, n: nat)
    requires WeakInv(start) && n <= |events|
    ensures WeakInv(State(start, events, n))
  {
    if n == 0 {
    } else {
      RunKeepsWeakInv(start, events, n - 1);
      StepKeepsWeakInv(State(start, events, n - 1), events[n - 1]);
    }
  }

  ghost predicate AlwaysSingle(start: System, events: seq<Event>, n: nat)
    requires n <= |events|
  {
    forall m :: 0 <= m <= n ==> SingleLive(State(start, events, m).auth)
  }

  ghost predicate AlwaysAlone(start: System, events: seq<Event>, n: nat)
    requires n <= |events|
  {
    forall j :: 0 <= j < n ==> InsertsAlone(State(start, events, j), events[j])
  }

  lemma OneMore(start: System, events: seq<Event>, n: nat)
    requires 0 < n <= |events|
    ensures AlwaysSingle(start, events, n) <==>
            AlwaysSingle(start, events, n - 1) && SingleLive(State(start, events, n).auth)
    ensures AlwaysAlone(start, events, n) <==>
            AlwaysAlone(start, events, n - 1) && InsertsAlone(State(start, events, n - 1), events[n - 1])
    ensures AlwaysSingle(start, events, n - 1) ==> SingleLive(State(start, events, n - 1).auth)
  {
    hide SingleLive, InsertsAlone, State;
  }

  /** Whatever overlaps, each lineage has at most one session that is not revoked in all states of a run if and only if
      no refresh inserts a session while another of the lineage is live. */
  lemma {:induction false} SingleIffInsertsAlone(start: System, events: seq<Event>, n: nat)
    requires WeakInv(start) && SingleLive(start.auth) && n <= |events|
    ensures AlwaysSingle(start, events, n) <==> AlwaysAlone(start, events, n)
  {
    hide Step, SingleLive, InsertsAlone, WeakInv;
    if n == 0 {
      assert State(start, events, 0) == start;
    } else {
      SingleIffInsertsAlone(start, events, n - 1);
      RunKeepsWeakInv(start, events, n - 1);
      StepKeepsWeakInv(State(start, events, n - 1), events[n - 1]);
      OneMore(start, events, n);
    }
  }

  // ----- Whom a refresh issues a token -----

  /** The event is the first call of a refresh, and finds the session in force: not revoked, and not expired. */
  ghost predicate FindsInForce(s: System, e: Event, call: Id, token: Token, session: Session) {
    && e.Read? && e.call == call && call !in s.calls && e.token == token && !e.fails
    && token in s.auth.sessions && s.auth.sessions[token] == session && !session.revoked && e.now <= session.expiresAt
  }

  /** The event is a later call of that refresh, and finds the user active. */
  ghost predicate FindsActive(s: System, e: Event, call: Id, token: Token, session: Session) {
    && e.Proceed? && e.call == call && !e.fails && call in s.calls && s.calls[call].token == token
    && session.user in s.auth.users && s.auth.users[session.user].active
  }

  /** Event `i`, one of the first `n`, is that first call. */
  ghost predicate InForceAt(events: seq<Event>, i: int, n: nat, call: Id, token: Token, session: Session)
    requires n <= |events|
  {
    0 <= i < n && FindsInForce(State(EMPTY, events, i), events[i], call, token, session)
  }

  /** And event `j` is the call that finds the user active. */
  ghost predicate ActiveAt(events: seq<Event>, j: int, n: nat, call: Id, token: Token, session: Session)
    requires n <= |events|
  {
    0 <= j < n && FindsActive(State(EMPTY, events, j), events[j], call, token, session)
  }

  /** Among the first `n` events the refresh has found the session in force and, after that, its user active. */
  ghost predicate Vetted(events: seq<Event>, n: nat, call: Id, token: Token, session: Session)
    requires n <= |events|
  {
    exists i, j :: i < j && InForceAt(events, i, n, call, token, session) && ActiveAt(events, j, n, call, token, session)
  }

  /** What each rotating call has found out, it found out by a reading of the run. */
  ghost predicate CallVetted(events: seq<Event>, n: nat, call: Id, c: Call)
    requires n <= |events|
  {
    && (c.work.Seen? ==> exists i :: InForceAt(events, i, n, call, c.token, c.work.session))
    && (c.work.Allowed? || c.work.Spent? ==> Vetted(events, n, call, c.token, c.work.session))
  }

  lemma CallVettedStep(events: seq<Event>, n: nat, call: Id)
    requires n < |events| && call in State(EMPTY, events, n + 1).calls
    requires call in State(EMPTY, events, n).calls ==> CallVetted(events, n, call, State(EMPTY, events, n).calls[call])
    ensures CallVetted(events, n + 1, call, State(EMPTY, events, n + 1).calls[call])
  {
    var s, e, after := State(EMPTY, events, n), events[n], State(EMPTY, events, n + 1);
    assert after == Step(s, e);
    var c := after.calls[call];
    hide State;
    if call !in s.calls {
      assert c.work.Seen? ==> InForceAt(events, n, n + 1, call, c.token, c.work.session);
    } else {
      var b := s.calls[call];
      if b.work.Seen? {
        var i :| InForceAt(events, i, n, call, b.token, b.work.session);
        assert InForceAt(events, i, n + 1, call, b.token, b.work.session);
        assert c.work.Allowed? ==> ActiveAt(events, n, n + 1, call, b.token, b.work.session);
      } else if b.work.Allowed? || b.work.Spent? {
        var i, j :| i < j && InForceAt(events, i, n, call, b.token, b.work.session)
                    && ActiveAt(events, j, n, call, b.token, b.work.session);
        assert InForceAt(events, i, n + 1, call, b.token, b.work.session);
        assert ActiveAt(events, j, n + 1, call, b.token, b.work.session);
      }
    }
  }

  lemma {:induction false} EveryCallVetted(events: seq<Event>, n: nat)
    requires n <= |events|
    ensures forall c :: c in State(EMPTY, events, n).calls ==> CallVetted(events, n, c, State(EMPTY, events, n).calls[c])
  {
    if n == 0 {
    } else {
      EveryCallVetted(events, n - 1);
      forall c | c in State(EMPTY, events, n).calls
        ensures CallVetted(events, n, c, State(EMPTY, events, n).calls[c])
      {
        CallVettedStep(events, n - 1, c);
      }
    }
  }

  /** However the calls interleave, a refresh inserts a session only after it has read the presented one to be neither
      revoked nor expired, and after that has found its user active; the new session is of the same user and lineage. */
  lemma IssuedOnlyIfVetted(events: seq<Event>, n: nat)
    requires n < |events| && Inserts(State(EMPTY, events, n), events[n])
    ensures var s, e, after := State(EMPTY, events, n), events[n], State(EMPTY, events, n + 1);
            var c := s.calls[e.call];
            && c.work.Rotating() && Vetted(events, n, e.call, c.token, c.work.session)
            && e.next in after.auth.sessions
            && after.auth.sessions[e.next] == Session(c.work.session.user, e.expiresAt, false, c.work.session.lineage)
  {
    EveryCallVetted(events, n);
  }

  // ----- Requests that present the same token one after another -----

  /** No refresh starts while another with the same token is under way. */
  ghost predicate Serial(s: System, e: Event) {
    e.Read? ==> forall c :: c in s.calls ==> s.calls[c].token != e.token
  }

  ghost predicate AlwaysSerial(start: System, events: seq<Event>, n: nat)
    requires n <= |events|
  {
    forall j :: 0 <= j < n ==> Serial(State(start, events, j), events[j])
  }

  ghost predicate Rotates(s: System, call: Id, token: Token) {
    call in s.calls && s.calls[call].token == token && s.calls[call].work.Rotating()
  }

  /** A refresh that will insert a session has its lineage to itself. */
  ghost predicate Inv(s: System) {
    && WeakInv(s) && SingleLive(s.auth)
    && (forall c, d :: c in s.calls && d in s.calls && s.calls[c].token == s.calls[d].token ==> c == d)
    && (forall c, t, u {:trigger Rotates(s, c, t), Kin(s.auth, t, u)} ::
          Rotates(s, c, t) && Kin(s.auth, t, u) && Live(s.auth, u) ==> t == u)
    && (forall c, d, t, u {:trigger Rotates(s, c, t), Rotates(s, d, u)} ::
          Rotates(s, c, t) && Rotates(s, d, u) && Kin(s.auth, t, u) ==> t == u)
  }

  lemma InsertionAlone(s: System, e: Event)
    requires Inv(s)
    ensures InsertsAlone(s, e)
  {
    if Inserts(s, e) {
      var token := s.calls[e.call].token;
      assert Rotates(s, e.call, token);
      forall t | Live(s.auth, t) && s.auth.sessions[t].lineage == s.calls[e.call].work.session.lineage ensures false {
        assert Kin(s.auth, token, t);
      }
    }
  }

  /** Steps that neither start a refresh nor insert a session. */
  lemma QuietStep(s: System, e: Event)
    requires Inv(s) && !e.Read? && !Inserts(s, e) && !LogsIn(s, e)
    ensures Inv(Step(s, e))
  {
    var after := Step(s, e);
    StepKeepsWeakInv(s, e);
    InsertionAlone(s, e);
    forall c, t ensures Rotates(after, c, t) ==> Rotates(s, c, t) {}
    forall t, u ensures Kin(after.auth, t, u) <==> Kin(s.auth, t, u) {}
    forall t ensures Live(after.auth, t) ==> Live(s.auth, t) {}
    hide Step, WeakInv;
  }

  lemma ReadStep(s: System, e: Event)
    requires Inv(s) && Serial(s, e) && e.Read?
    ensures Inv(Step(s, e))
  {
    var after := Step(s, e);
    StepKeepsWeakInv(s, e);
    InsertionAlone(s, e);
    forall c, t ensures Rotates(after, c, t) ==> Rotates(s, c, t) || (c == e.call && t == e.token && Live(s.auth, t)) {}
    assert after.auth == s.auth;
    assert forall t, u :: Kin(s.auth, t, u) ==> Kin(s.auth, u, t);
  }

  lemma InsertStep(s: System, e: Event)
    requires Inv(s) && (Inserts(s, e) || LogsIn(s, e))
    ensures Inv(Step(s, e))
  {
    var after := Step(s, e);
    StepKeepsWeakInv(s, e);
    InsertionAlone(s, e);
    var added := if e.LogIn? then e.token else e.next;
    forall c, t ensures Rotates(after, c, t) ==> Rotates(s, c, t) && t != added {
      assert Rotates(after, c, t) ==> Sound(s.auth, s.calls[c]);
    }
    forall t, u | t != added && u != added ensures Kin(after.auth, t, u) <==> Kin(s.auth, t, u) {}
    forall c, t | Rotates(after, c, t) ensures !Kin(after.auth, t, added) {
      if e.LogIn? {
        assert Rooted(s.auth, t);
      } else {
        var spent := s.calls[e.call].token;
        assert Rotates(s, e.call, spent) && Rotates(s, c, t) && c != e.call;
        assert Sound(s.auth, s.calls[e.call]);
        assert !Kin(s.auth, t, spent);
      }
    }
  }

  lemma StepKeepsInv(s: System, e: Event)
    requires Inv(s) && Serial(s, e)
    ensures Inv(Step(s, e))
  {
    if e.Read? {
      ReadStep(s, e);
    } else if Inserts(s, e) || LogsIn(s, e) {
      InsertStep(s, e);
    } else {
      QuietStep(s, e);
    }
  }

  lemma EmptyInv()
    ensures Inv(EMPTY)
  {
  }

  lemma {:induction false} RunKeepsInv(events: seq<Event>, n: nat)
    requires n <= |events| && AlwaysSerial(EMPTY, events, n)
    ensures Inv(State(EMPTY, events, n))
  {
    hide Step, Inv, Serial;
    if n == 0 {
      EmptyInv();
    } else {
      RunKeepsInv(events, n - 1);
      StepKeepsInv(State(EMPTY, events, n - 1), events[n - 1]);
    }
  }

  /** While requests with the same token come one after another, each lineage has at most one session that is not
      revoked, however refreshes with different tokens, logins and logouts overlap, and whatever calls fail. */
  lemma OneLivePerLineage(events: seq<Event>, n: nat)
    requires n <= |events| && AlwaysSerial(EMPTY, events, n)
    ensures LineageInv(State(EMPTY, events, n).auth)
  {
    RunKeepsInv(events, n);
  }

  // ----- Tokens are used once -----

  /** The event ends a refresh that presented `token`, and issues its successor. */
  ghost predicate Redeems(s: System, e: Event, token: Token) {
    Inserts(s, e) && s.calls[e.call].token == token
  }

  /** The token is revoked, and whoever presents it is taken for a thief. */
  ghost predicate Used(s: System, token: Token) {
    && token in s.auth.sessions && s.auth.sessions[token].revoked
    && forall c :: c in s.calls && s.calls[c].token == token ==> s.calls[c].work == Theft(s.auth.sessions[token].user)
  }

  lemma RedeemedIsUsed(s: System, e: Event, token: Token)
    requires Inv(s) && Redeems(s, e, token)
    ensures Used(Step(s, e), token)
  {
    assert Sound(s.auth, s.calls[e.call]);
  }

  lemma UsedStays(s: System, e: Event, token: Token)
    requires Used(s, token)
    ensures Used(Step(s, e), token)
  {
  }

  lemma {:induction false} UsedForever(events: seq<Event>, i: nat, j: nat, token: Token)
    requires i < j <= |events| && AlwaysSerial(EMPTY, events, i) && Redeems(State(EMPTY, events, i), events[i], token)
    ensures Used(State(EMPTY, events, j), token)
    decreases j
  {
    hide Step, Inv, Serial, Redeems, Used;
    if j == i + 1 {
      RunKeepsInv(events, i);
      RedeemedIsUsed(State(EMPTY, events, i), events[i], token);
    } else {
      UsedForever(events, i, j - 1, token);
      UsedStays(State(EMPTY, events, j - 1), events[j - 1], token);
    }
  }

  /** No token is redeemed twice. */
  lemma RedeemedOnce(events: seq<Event>, i: nat, j: nat, token: Token)
    requires i < j < |events| && AlwaysSerial(EMPTY, events, i)
    requires Redeems(State(EMPTY, events, i), events[i], token)
    ensures !Redeems(State(EMPTY, events, j), events[j], token)
  {
    UsedForever(events, i, j, token);
  }

  // ----- Theft detection -----

  ghost predicate NoneLiveOf(a: Auth, user: Id) {
    forall t :: Live(a, t) ==> a.sessions[t].user != user
  }

  ghost predicate SameOfOthers(a: Auth, after: Auth, user: Id) {
    && after.sessions.Keys == a.sessions.Keys
    && forall t :: t in a.sessions && a.sessions[t].user != user ==> after.sessions[t] == a.sessions[t]
  }

  /** A token that has been redeemed and comes back, at any later time: reading it tells a theft, and the call after
      that revokes every session that its user has at that moment, leaves those of others alone, and ends the request
      without a new token. Only a failing call stops the reading or the revocation. */
  lemma TheftDetected(events: seq<Event>, i: nat, j: nat, token: Token)
    requires i < j < |events| && AlwaysSerial(EMPTY, events, i)
    requires Redeems(State(EMPTY, events, i), events[i], token)
    ensures var s, e, after := State(EMPTY, events, j), events[j], State(EMPTY, events, j + 1);
            && token in s.auth.sessions
            && var user := s.auth.sessions[token].user;
            && (e.Read? && e.token == token && e.call !in s.calls && !e.fails ==>
                  after == s.(calls := s.calls[e.call := Call(token, Theft(user))]))
            && (e.Proceed? && e.call in s.calls && s.calls[e.call].token == token ==>
                  && after.calls == s.calls - {e.call} && SameOfOthers(s.auth, after.auth, user)
                  && (!e.fails ==> NoneLiveOf(after.auth, user)))
  {
    UsedForever(events, i, j, token);
  }

  // ----- How long the revocation lasts -----

  /** A refresh of the user that is past its reading, and has found its session good. */
  ghost predicate Straggles(s: System, call: Id, user: Id) {
    call in s.calls && s.calls[call].work.Rotating() && s.calls[call].work.session.user == user
  }

  ghost predicate NoLogins(events: seq<Event>, user: Id) {
    forall e :: e in events && e.LogIn? ==> e.user != user
  }

  /** A refresh that was straggling at `start` inserts its session. */
  ghost predicate StragglerInserts(start: System, s: System, e: Event, user: Id) {
    Inserts(s, e) && Straggles(s, e.call, user) && Straggles(start, e.call, user)
  }

  ghost predicate NoStragglerInserts(start: System, events: seq<Event>, n: nat, user: Id)
    requires n <= |events|
  {
    forall k :: 0 <= k < n ==> !StragglerInserts(start, State(start, events, k), events[k], user)
  }

  ghost predicate AlwaysNoneLiveOf(start: System, events: seq<Event>, n: nat, user: Id)
    requires n <= |events|
  {
    forall m :: 0 <= m <= n ==> NoneLiveOf(State(start, events, m).auth, user)
  }

  /** Nothing of the user's is live, and all their refreshes that rotate were straggling at `start`. */
  ghost predicate Settled(start: System, s: System, user: Id) {
    NoneLiveOf(s.auth, user) && forall c :: Straggles(s, c, user) ==> Straggles(start, c, user)
  }

  lemma SettledStays(start: System, s: System, e: Event, user: Id)
    requires Settled(start, s, user) && !(e.LogIn? && e.user == user)
    ensures Settled(start, Step(s, e), user) <==> !StragglerInserts(start, s, e, user)
  {
    var after := Step(s, e);
    forall c ensures Straggles(after, c, user) ==> Straggles(s, c, user) {
      if e.Read? && Straggles(after, c, user) && !Straggles(s, c, user) {
        assert Live(s.auth, e.token);
      }
    }
    if Inserts(s, e) && Straggles(s, e.call, user) {
      assert Live(after.auth, e.next);
    } else {
      forall t ensures Live(after.auth, t) && after.auth.sessions[t].user == user ==> Live(s.auth, t) {}
    }
  }

  lemma SettledAtStart(start: System, user: Id)
    requires NoneLiveOf(start.auth, user)
    ensures Settled(start, start, user)
  {
  }

  lemma {:induction false} RunSettled(start: System, events: seq<Event>, n: nat, user: Id)
    requires n <= |events| && NoLogins(events, user) && NoneLiveOf(start.auth, user)
    requires NoStragglerInserts(start, events, n, user)
    ensures Settled(start, State(start, events, n), user)
  {
    hide Step, Settled, StragglerInserts, NoneLiveOf;
    if n == 0 {
      SettledAtStart(start, user);
    } else {
      RunSettled(start, events, n - 1, user);
      SettledStays(start, State(start, events, n - 1), events[n - 1], user);
    }
  }

  lemma NoneInserts(start: System, events: seq<Event>, n: nat, user: Id)
    requires n <= |events| && AlwaysNoneLiveOf(start, events, n, user)
    ensures NoStragglerInserts(start, events, n, user)
  {
    forall k | 0 <= k < n ensures !StragglerInserts(start, State(start, events, k), events[k], user) {
      assert NoneLiveOf(State(start, events, k + 1).auth, user);
      InsertedIsLive(State(start, events, k), events[k], user);
    }
  }

  lemma InsertedIsLive(s: System, e: Event, user: Id)
    requires NoneLiveOf(Step(s, e).auth, user)
    ensures !(Inserts(s, e) && Straggles(s, e.call, user))
  {
    assert Inserts(s, e) ==> Live(Step(s, e).auth, e.next);
  }

  /** From a state in which nothing of the user's is live, such as a revocation of all their sessions leaves, and until
      they log in: it stays so if and only if no refresh of theirs that was past its reading at that moment inserts its
      session. */
  lemma RevocationHoldsIff(start: System, events: seq<Event>, n: nat, user: Id)
    requires n <= |events| && NoLogins(events, user) && NoneLiveOf(start.auth, user)
    ensures AlwaysNoneLiveOf(start, events, n, user) <==> NoStragglerInserts(start, events, n, user)
  {
    if AlwaysNoneLiveOf(start, events, n, user) {
      NoneInserts(start, events, n, user);
    } else if NoStragglerInserts(start, events, n, user) {
      hide Step, NoneLiveOf, StragglerInserts;
      forall m | 0 <= m <= n ensures NoneLiveOf(State(start, events, m).auth, user) {
        RunSettled(start, events, m, user);
      }
    }
  }

  ghost predicate LineageOfStraggler(start: System, user: Id, lineage: Token) {
    exists c :: Straggles(start, c, user) && start.calls[c].work.session.lineage == lineage
  }

  ghost predicate LineagesOfStragglers(start: System, s: System, user: Id) {
    && (forall t :: Live(s.auth, t) && s.auth.sessions[t].user == user ==>
          LineageOfStraggler(start, user, s.auth.sessions[t].lineage))
    && (forall c :: Straggles(s, c, user) ==> LineageOfStraggler(start, user, s.calls[c].work.session.lineage))
  }

  lemma LineagesStay(start: System, s: System, e: Event, user: Id)
    requires LineagesOfStragglers(start, s, user) && !(e.LogIn? && e.user == user)
    ensures LineagesOfStragglers(start, Step(s, e), user)
  {
    var after := Step(s, e);
    hide LineageOfStraggler;
    forall c | Straggles(after, c, user)
      ensures LineageOfStraggler(start, user, after.calls[c].work.session.lineage)
    {
      if !Straggles(s, c, user) {
        assert Live(s.auth, e.token);
      }
    }
    forall t | Live(after.auth, t) && after.auth.sessions[t].user == user
      ensures LineageOfStraggler(start, user, after.auth.sessions[t].lineage)
    {
      if !Live(s.auth, t) {
        assert Straggles(s, e.call, user);
      }
    }
  }

  /** And whatever comes to life again belongs to the lineage of such a refresh; all other lineages of the user, the
      thief's if it has none under way, are dead for good. */
  lemma {:induction false} OnlyTheirLineages(start: System, events: seq<Event>, n: nat, user: Id)
    requires n <= |events| && NoLogins(events, user) && NoneLiveOf(start.auth, user)
    ensures LineagesOfStragglers(start, State(start, events, n), user)
  {
    if n == 0 {
      forall c | Straggles(start, c, user)
        ensures LineageOfStraggler(start, user, start.calls[c].work.session.lineage)
      {}
    } else {
      OnlyTheirLineages(start, events, n - 1, user);
      LineagesStay(start, State(start, events, n - 1), events[n - 1], user);
    }
  }

  ghost predicate CanRevive(start: System, user: Id) {
    exists events :: NoLogins(events, user) && !NoneLiveOf(State(start, events, |events|).auth, user)
  }

  lemma {:induction false} StateCons(start: System, first: Event, rest: seq<Event>, n: nat)
    requires n <= |rest|
    ensures State(start, [first] + rest, n + 1) == State(Step(start, first), rest, n)
  {
    hide Step;
    var events := [first] + rest;
    assert State(start, events, n + 1) == Step(State(start, events, n), events[n]);
    if n == 0 {
      assert State(start, events, 0) == start;
    } else {
      StateCons(start, first, rest, n - 1);
    }
  }

  lemma ReviveEarlier(start: System, first: Event, user: Id)
    requires CanRevive(Step(start, first), user) && !(first.LogIn? && first.user == user)
    ensures CanRevive(start, user)
  {
    hide Step, NoneLiveOf;
    var rest :| NoLogins(rest, user) && !NoneLiveOf(State(Step(start, first), rest, |rest|).auth, user);
    StateCons(start, first, rest, |rest|);
    assert NoLogins([first] + rest, user);
  }

  lemma {:induction false} UnusedToken(used: set<Token>) returns (token: Token)
    ensures forall t :: t in used ==> t < token
    decreases |used|
  {
    if used == {} {
      token := 0;
    } else {
      var t :| t in used;
      var rest := UnusedToken(used - {t});
      token := if t < rest then rest else t + 1;
      assert forall u :: u in used ==> u == t || u in used - {t};
    }
  }

  lemma {:induction false} StragglerRevives(s: System, call: Id, user: Id)
    requires Straggles(s, call, user)
    ensures CanRevive(s, user)
    decreases Pending(s.calls[call].work)
  {
    var token := UnusedToken(s.auth.sessions.Keys);
    var e := Proceed(call, token, 0, false);
    if s.calls[call].work.Spent? {
      var after := Step(s, e);
      assert State(s, [e], 1) == after;
      assert Live(after.auth, token) && NoLogins([e], user);
    } else if s.calls[call].work.Allowed? {
      StragglerRevives(Step(s, e), call, user);
      ReviveEarlier(s, e, user);
    } else {
      var activate := SetUser(user, User(true, true));
      var active := Step(s, activate);
      StragglerRevives(Step(active, e), call, user);
      ReviveEarlier(active, e, user);
      ReviveEarlier(s, activate, user);
    }
  }

  /** So a revocation of all sessions is final until the next login, whatever comes, if and only if no refresh of the
      user's is past its reading when it happens. */
  lemma RevocationFinalIff(start: System, user: Id)
    requires NoneLiveOf(start.auth, user)
    ensures CanRevive(start, user) <==> exists c :: Straggles(start, c, user)
  {
    if c :| Straggles(start, c, user) {
      StragglerRevives(start, c, user);
    } else if CanRevive(start, user) {
      var events :| NoLogins(events, user) && !NoneLiveOf(State(start, events, |events|).auth, user);
      RevocationHoldsIff(start, events, |events|, user);
      assert !AlwaysNoneLiveOf(start, events, |events|, user);
    }
  }

  const ROTATED := [SetUser(1, User(true, true)), LogIn(1, 10, 100, false), Read(0, 10, 0, false),
                    Proceed(0, 0, 0, false), Proceed(0, 0, 0, false), Proceed(0, 11, 100, false)]

  const REPLAYED := [Read(1, 11, 0, false), Proceed(1, 0, 0, false), Proceed(1, 0, 0, false),
                     Read(2, 10, 0, false), Proceed(2, 0, 0, false), Proceed(1, 12, 100, false)]

  const AFTER_ROTATION := System(Auth(map[1 := User(true, true)],
                                      map[10 := Session(1, 100, true, 10), 11 := Session(1, 100, false, 10)]), map[])

  /** 10 is redeemed for 11. */
  lemma RotatedRun()
    ensures AlwaysSerial(EMPTY, ROTATED, 6)
    ensures Redeems(State(EMPTY, ROTATED, 5), ROTATED[5], 10)
    ensures State(EMPTY, ROTATED, 6) == AFTER_ROTATION
  {
    assert State(EMPTY, ROTATED, 4) ==
           System(Auth(map[1 := User(true, true)], map[10 := Session(1, 100, false, 10)]),
                  map[0 := Call(10, Allowed(Session(1, 100, false, 10)))]);
  }

  lemma ReplayReads()
    ensures State(AFTER_ROTATION, REPLAYED, 4) ==
            System(Auth(map[1 := User(true, true)],
                        map[10 := Session(1, 100, true, 10), 11 := Session(1, 100, true, 10)]),
                   map[1 := Call(11, Spent(Session(1, 100, false, 10))), 2 := Call(10, Theft(1))])
  {
  }

  lemma ReplayRevokes()
    ensures State(AFTER_ROTATION, REPLAYED, 5) ==
            System(Auth(map[1 := User(true, true)],
                        map[10 := Session(1, 100, true, 10), 11 := Session(1, 100, true, 10)]),
                   map[1 := Call(11, Spent(Session(1, 100, false, 10)))])
  {
    ReplayReads();
  }

  lemma ReplayedSerially()
    ensures AlwaysSerial(AFTER_ROTATION, REPLAYED, 6)
  {
    assert State(AFTER_ROTATION, REPLAYED, 3).calls ==
           map[1 := Call(11, Spent(Session(1, 100, false, 10)))];
  }

  /** After that, a revocation that is not final: a refresh of 11 revokes it, 10 comes back and everything is revoked,
      and then the refresh of 11 inserts 12. Requests with the same token never overlap. */
  lemma SuccessorSurvivesTheft()
    ensures State(EMPTY, ROTATED, 6) == AFTER_ROTATION
    ensures AlwaysSerial(AFTER_ROTATION, REPLAYED, 6)
    ensures var s := State(AFTER_ROTATION, REPLAYED, 4);
            2 in s.calls && s.calls[2] == Call(10, Theft(1)) && REPLAYED[4] == Proceed(2, 0, 0, false)
    ensures NoneLiveOf(State(AFTER_ROTATION, REPLAYED, 5).auth, 1)
    ensures Live(State(AFTER_ROTATION, REPLAYED, 6).auth, 12)
    ensures State(AFTER_ROTATION, REPLAYED, 6).auth.sessions[12].user == 1
  {
    hide AlwaysSerial;
    RotatedRun();
    ReplayedSerially();
    ReplayReads();
    ReplayRevokes();
  }
}
