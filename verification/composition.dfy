/** Browsers that run the interceptor against a server that rotates refresh tokens. */
module Composition {
  import opened Models
  import Sessions
  import Rotation
  import Client

  type Token = Sessions.Token

  /** What a response does to the refresh cookie. */
  datatype Effect = Keep | Clear | Put(token: Token)

  /** The refresh call: none, on its way with the cookie it was sent with, being worked on by the server, or answered
      but not yet delivered. */
  datatype Wire =
    | Idle
    | Asked(cookie: Option<Token>)
    | Working(token: Token, work: Rotation.Work)
    | Answered(ok: bool, effect: Effect)

  datatype Browser = Browser(client: Client.State, jar: Option<Token>, wire: Wire)

  datatype System = System(auth: Sessions.Auth, browsers: map<Id, Browser>)

  /** The events of honest use. A logout does not overlap a refresh, and every answer to a refresh is delivered. */
  datatype Event =
    | Open(browser: Id)
    | Page(browser: Id, event: Client.Event)   // a request is issued, or answered
    | Take(browser: Id, now: Time, fails: bool)                                // the server reads the session
    | Work(browser: Id, next: Token, expiresAt: Time, fails: bool)             // the server makes its next call
    | Deliver(browser: Id)
    | LogIn(browser: Id, user: Id, lookup: bool, passwordMatches: bool, token: Token, expiresAt: Time, fails: bool)
    | LogOut(browser: Id, fails: bool)
    | CookieExpires(browser: Id)
    | SetUser(user: Id, profile: Sessions.User)

  predicate Enabled(s: System, e: Event) {
    match e
    case Open(b) => b !in s.browsers
    case Page(b, event) => b in s.browsers && !event.RefreshReply?
    case Take(b, _, _) => b in s.browsers && s.browsers[b].wire.Asked?
    case Work(b, _, _, _) => b in s.browsers && s.browsers[b].wire.Working?
    case Deliver(b) => b in s.browsers && s.browsers[b].wire.Answered?
    case LogIn(b, _, _, _, _, _, _) => b in s.browsers
    case LogOut(b, _) => b in s.browsers && s.browsers[b].wire.Idle?
    case CookieExpires(b) => b in s.browsers
    case SetUser(_, _) => true
  }

  /** What the progress of a refresh makes of its call: a refusal clears the cookies, whatever its reason. */
  function Respond(token: Token, progress: Rotation.Progress): Wire {
    match progress
    case Going(work) => Working(token, work)
    case Over(answer) => if answer.Issued? then Answered(true, Put(answer.token)) else Answered(false, Clear)
  }

  /** The handler of the refresh endpoint as one step. */
  function Handle(a: Sessions.Auth, cookie: Option<Token>, now: Time, next: Token, expiresAt: Time,
                  faults: Sessions.Faults): (Sessions.Auth, Wire)
  {
    if cookie.None? then (a, Answered(false, Keep))
    else
      var reply := Sessions.RefreshReply(a, cookie.value, now, next, expiresAt, faults);
      (reply.auth, Respond(cookie.value, Rotation.Over(reply.answer)))
  }

  /** The handlers of login and logout, with what they leave in the jar. */
  function HandleLogin(a: Sessions.Auth, jar: Option<Token>, user: Id, lookup: bool, passwordMatches: bool, token: Token,
                       expiresAt: Time, fails: bool): (Sessions.Auth, Option<Token>)
  {
    var reply := Sessions.LoginReply(a, user, lookup, passwordMatches, token, expiresAt, fails);
    (reply.auth, if reply.answer.Issued? then Some(token) else jar)
  }

  function HandleLogout(a: Sessions.Auth, jar: Option<Token>, fails: bool): (Sessions.Auth, Option<Token>) {
    (if jar.Some? then Sessions.LogoutReply(a, jar.value, fails).auth else a, None)
  }

  function Store(jar: Option<Token>, effect: Effect): Option<Token> {
    match effect
    case Keep => jar
    case Clear => None
    case Put(token) => Some(token)
  }

  function Step(s: System, e: Event): System {
    if !Enabled(s, e) then s
    else
      match e
      case Open(id) => s.(browsers := s.browsers[id := Browser(Client.FRESH, None, Idle)])
      case Page(id, event) =>
        var b := s.browsers[id];
        var client := Client.Step(b.client, event);
        var wire := if client.isRefreshing && !b.client.isRefreshing then Asked(b.jar) else b.wire;
        s.(browsers := s.browsers[id := b.(client := client, wire := wire)])
      case Take(id, now, fails) =>
        var b := s.browsers[id];
        var wire := match b.wire.cookie
          case None => Answered(false, Keep)
          case Some(token) => Respond(token, Rotation.Look(s.auth, token, now, fails));
        s.(browsers := s.browsers[id := b.(wire := wire)])
      case Work(id, next, expiresAt, fails) =>
        var b := s.browsers[id];
        var (auth, progress) := Rotation.Advance(s.auth, b.wire.token, b.wire.work, next, expiresAt, fails);
        System(auth, s.browsers[id := b.(wire := Respond(b.wire.token, progress))])
      case Deliver(id) =>
        var b := s.browsers[id];
        s.(browsers := s.browsers[id := Browser(Client.Step(b.client, Client.RefreshReply(b.wire.ok)),
                                                Store(b.jar, b.wire.effect), Idle)])
      case LogIn(id, user, lookup, matches, token, expiresAt, fails) =>
        var b := s.browsers[id];
        var (auth, jar) := HandleLogin(s.auth, b.jar, user, lookup, matches, token, expiresAt, fails);
        System(auth, s.browsers[id := b.(jar := jar)])
      case LogOut(id, fails) =>
        var b := s.browsers[id];
        var (auth, jar) := HandleLogout(s.auth, b.jar, fails);
        System(auth, s.browsers[id := b.(jar := jar)])
      case CookieExpires(id) => s.(browsers := s.browsers[id := s.browsers[id].(jar := None)])
      case SetUser(user, profile) => s.(auth := s.auth.(users := s.auth.users[user := profile]))
  }

  /** The system after the first `n` events. */
  function State(events: seq<Event>, n: nat): System
    requires n <= |events|
  {
    if n == 0 then System(Sessions.Auth(map[], map[]), map[]) else Step(State(events, n - 1), events[n - 1])
  }

  // ----- A refresh that nothing interleaves with -----

  /** The server's calls for a browser's refresh, one after another until it is answered. */
  function WorkOut(s: System, id: Id, next: Token, expiresAt: Time, faults: Sessions.Faults): System
    decreases if id in s.browsers && s.browsers[id].wire.Working? then Rotation.Pending(s.browsers[id].wire.work) else 0
  {
    if id !in s.browsers || !s.browsers[id].wire.Working? then s
    else
      WorkOut(Step(s, Work(id, next, expiresAt, Rotation.FaultAt(s.browsers[id].wire.work, faults))), id, next,
              expiresAt, faults)
  }

  lemma {:induction false} WorkOutFinishes(s: System, id: Id, next: Token, expiresAt: Time, faults: Sessions.Faults)
    requires id in s.browsers && s.browsers[id].wire.Working?
    ensures var Working(token, work) := s.browsers[id].wire;
            var after := WorkOut(s, id, next, expiresAt, faults);
            var reply := Rotation.Finish(s.auth, token, work, next, expiresAt, faults);
            && after.auth == reply.auth && after.browsers.Keys == s.browsers.Keys
            && after.browsers[id].wire == Respond(token, Rotation.Over(reply.answer))
    decreases Rotation.Pending(s.browsers[id].wire.work)
  {
    var after := Step(s, Work(id, next, expiresAt, Rotation.FaultAt(s.browsers[id].wire.work, faults)));
    assert after.browsers.Keys == s.browsers.Keys;
    if after.browsers[id].wire.Working? {
      WorkOutFinishes(after, id, next, expiresAt, faults);
    }
  }

  /** Then its calls amount to the handler as one step. */
  lemma ServedAlone(s: System, id: Id, now: Time, next: Token, expiresAt: Time, faults: Sessions.Faults)
    requires id in s.browsers && s.browsers[id].wire.Asked?
    ensures var after := WorkOut(Step(s, Take(id, now, faults.lookup)), id, next, expiresAt, faults);
            && id in after.browsers
            && (after.auth, after.browsers[id].wire)
               == Handle(s.auth, s.browsers[id].wire.cookie, now, next, expiresAt, faults)
  {
    var cookie := s.browsers[id].wire.cookie;
    var taken := Step(s, Take(id, now, faults.lookup));
    if taken.browsers[id].wire.Working? {
      WorkOutFinishes(taken, id, next, expiresAt, faults);
    }
    if cookie.Some? {
      Rotation.StepsMakeRefresh(s.auth, cookie.value, now, next, expiresAt, faults);
    }
  }

  // ----- What each browser holds -----

  /** The token that the browser will be left with, or is about to spend. */
  function Claim(b: Browser): Option<Token> {
    match b.wire
    case Idle => b.jar
    case Asked(cookie) => if cookie.Some? then cookie else b.jar
    case Working(token, work) => if work.Spent? then None else Some(token)
    case Answered(_, effect) => Store(b.jar, effect)
  }

  ghost predicate Claims(s: System, id: Id, token: Token) {
    id in s.browsers && Claim(s.browsers[id]) == Some(token)
  }

  /** The interceptor and the server agree on whether a refresh is under way, and it is not a thief's. */
  ghost predicate InStep(b: Browser) {
    && (b.client.isRefreshing <==> !b.wire.Idle?)
    && (b.wire.Working? ==> !b.wire.work.Theft?)
    && (b.wire.Answered? ==> (b.wire.ok <==> b.wire.effect.Put?))
  }

  ghost predicate Inv(s: System) {
    && (forall id, t :: Claims(s, id, t) ==> Sessions.Live(s.auth, t))
    && (forall i, j, t :: Claims(s, i, t) && Claims(s, j, t) ==> i == j)
    && (forall id :: id in s.browsers ==> InStep(s.browsers[id]))
  }

  /** A browser drops its claim, and the server may revoke the token. */
  lemma ClaimDropped(s: System, after: System, id: Id)
    requires Inv(s) && id in s.browsers && after.browsers.Keys == s.browsers.Keys
    requires forall j :: j in s.browsers && j != id ==> after.browsers[j] == s.browsers[j]
    requires Claim(after.browsers[id]).None?
    requires InStep(after.browsers[id])
    requires forall t :: Sessions.Live(s.auth, t) && !Sessions.Live(after.auth, t) ==> Claims(s, id, t)
    ensures Inv(after)
  {
    forall j, t ensures Claims(after, j, t) ==> Claims(s, j, t) && j != id {}
  }

  /** A browser gets a token that was in nobody's hands, perhaps in exchange for its old one. */
  lemma ClaimReplaced(s: System, after: System, id: Id, token: Token)
    requires Inv(s) && id in s.browsers && after.browsers.Keys == s.browsers.Keys
    requires forall j :: j in s.browsers && j != id ==> after.browsers[j] == s.browsers[j]
    requires Claim(after.browsers[id]) == Some(token)
    requires !Sessions.Live(s.auth, token) && Sessions.Live(after.auth, token)
    requires InStep(after.browsers[id])
    requires forall t :: Sessions.Live(s.auth, t) && !Sessions.Live(after.auth, t) ==> Claims(s, id, t)
    ensures Inv(after)
  {
    forall j, t ensures Claims(after, j, t) ==> (if j == id then t == token else Claims(s, j, t)) {}
  }

  /** A browser's claim stays what it was, or lapses. */
  lemma ClaimKept(s: System, after: System, id: Id)
    requires Inv(s) && id in s.browsers && after.browsers.Keys == s.browsers.Keys
    requires forall j :: j in s.browsers && j != id ==> after.browsers[j] == s.browsers[j]
    requires Claim(after.browsers[id]) == Claim(s.browsers[id]) || Claim(after.browsers[id]).None?
    requires InStep(after.browsers[id])
    requires forall t :: Sessions.Live(s.auth, t) ==> Sessions.Live(after.auth, t)
    ensures Inv(after)
  {
    forall j, t ensures Claims(after, j, t) ==> Claims(s, j, t) {}
  }

  lemma TakeKeeps(s: System, e: Event)
    requires Inv(s) && e.Take? && Enabled(s, e)
    ensures Inv(Step(s, e))
  {
    var cookie := s.browsers[e.browser].wire.cookie;
    assert cookie.Some? ==> Claims(s, e.browser, cookie.value);
    ClaimKept(s, Step(s, e), e.browser);
  }

  lemma WorkKeeps(s: System, e: Event)
    requires Inv(s) && e.Work? && Enabled(s, e)
    ensures Inv(Step(s, e))
  {
    var after := Step(s, e);
    var Working(token, work) := s.browsers[e.browser].wire;
    forall t | Sessions.Live(s.auth, t) && !Sessions.Live(after.auth, t) ensures Claims(s, e.browser, t) {}
    if after.browsers[e.browser].wire.Answered? && after.browsers[e.browser].wire.ok {
      ClaimReplaced(s, after, e.browser, e.next);
    } else if Claim(after.browsers[e.browser]).None? {
      ClaimDropped(s, after, e.browser);
    } else {
      ClaimKept(s, after, e.browser);
    }
  }

  lemma LogInKeeps(s: System, e: Event)
    requires Inv(s) && e.LogIn? && Enabled(s, e)
    ensures Inv(Step(s, e))
  {
    var after := Step(s, e);
    if after != s {
      forall t | Sessions.Live(s.auth, t) ensures Sessions.Live(after.auth, t) {}
      assert !Sessions.Live(s.auth, e.token) && Sessions.Live(after.auth, e.token);
      if Claim(after.browsers[e.browser]) == Some(e.token) {
        ClaimReplaced(s, after, e.browser, e.token);
      } else {
        ClaimKept(s, after, e.browser);
      }
    }
  }

  lemma OpenKeeps(s: System, e: Event)
    requires Inv(s) && e.Open? && Enabled(s, e)
    ensures Inv(Step(s, e))
  {
    var after := Step(s, e);
    forall j, t ensures Claims(after, j, t) ==> Claims(s, j, t) {}
  }

  lemma StepKeeps(s: System, e: Event)
    requires Inv(s)
    ensures Inv(Step(s, e))
  {
    if Enabled(s, e) {
      match e
      case Open(_) => OpenKeeps(s, e);
      case Page(id, event) => ClaimKept(s, Step(s, e), id);
      case Take(_, _, _) => TakeKeeps(s, e);
      case Work(_, _, _, _) => WorkKeeps(s, e);
      case Deliver(id) => ClaimKept(s, Step(s, e), id);
      case LogIn(_, _, _, _, _, _, _) => LogInKeeps(s, e);
      case LogOut(id, _) =>
        assert s.browsers[id].jar.Some? ==> Claims(s, id, s.browsers[id].jar.value);
        ClaimDropped(s, Step(s, e), id);
      case CookieExpires(id) => ClaimKept(s, Step(s, e), id);
      case SetUser(_, _) =>
        var after := Step(s, e);
        forall t ensures Sessions.Live(s.auth, t) ==> Sessions.Live(after.auth, t) {}
        forall j, t ensures Claims(after, j, t) ==> Claims(s, j, t) {}
    }
  }

  lemma {:induction false} RunKeeps(events: seq<Event>, n: nat)
    requires n <= |events|
    ensures Inv(State(events, n))
  {
    if n == 0 {
    } else {
      RunKeeps(events, n - 1);
      StepKeeps(State(events, n - 1), events[n - 1]);
    }
  }

  /** For any number of browsers, whose refreshes may interleave call by call, the server never takes the
      reuse-detection branch: a token on its way to the server is live, and no refresh at work has found its own to be
      revoked. */
  lemma ReuseNeverDetected(events: seq<Event>, n: nat, id: Id)
    requires n <= |events| && id in State(events, n).browsers
    ensures var s := State(events, n);
            var wire := s.browsers[id].wire;
            && (wire.Asked? && wire.cookie.Some? ==> Sessions.Live(s.auth, wire.cookie.value))
            && (wire.Working? ==> !wire.work.Theft?)
  {
    RunKeeps(events, n);
    var s := State(events, n);
    var wire := s.browsers[id].wire;
    assert wire.Asked? && wire.cookie.Some? ==> Claims(s, id, wire.cookie.value);
  }

  /** A cookie in a browser with no refresh under way is always one that the server still honours. */
  lemma IdleJarIsLive(events: seq<Event>, n: nat, id: Id)
    requires n <= |events| && id in State(events, n).browsers
    requires !State(events, n).browsers[id].client.isRefreshing && State(events, n).browsers[id].jar.Some?
    ensures Sessions.Live(State(events, n).auth, State(events, n).browsers[id].jar.value)
  {
    RunKeeps(events, n);
    assert Claims(State(events, n), id, State(events, n).browsers[id].jar.value);
  }

  /** The events that surround the refreshes: what a profile says may change at any time, a cookie may expire, and logins
      and logouts go through their handlers. */
  lemma OtherEvents(s: System, e: Event)
    requires Enabled(s, e)
    ensures e.SetUser? ==>
              && Step(s, e).browsers == s.browsers && Step(s, e).auth.sessions == s.auth.sessions
              && Step(s, e).auth.users == s.auth.users[e.user := e.profile]
    ensures e.CookieExpires? || e.LogIn? || e.LogOut? ==>
              && Step(s, e).browsers.Keys == s.browsers.Keys
              && (forall id :: id in s.browsers && id != e.browser ==> Step(s, e).browsers[id] == s.browsers[id])
              && var b, c := s.browsers[e.browser], Step(s, e).browsers[e.browser];
              && c.client == b.client && c.wire == b.wire
              && (Step(s, e).auth, c.jar) ==
                 if e.LogIn? then
                   HandleLogin(s.auth, b.jar, e.user, e.lookup, e.passwordMatches, e.token, e.expiresAt, e.fails)
                 else if e.LogOut? then HandleLogout(s.auth, b.jar, e.fails)
                 else (s.auth, None)
  {
  }

  ghost predicate HeldUp(c: Client.State, id: Id) {
    id in c.requests && (c.requests[id].phase.Waiting? || c.requests[id].phase.Refreshing?)
  }

  /** A refresh starts with the cookie that is in the jar, and once it is delivered every request that it held up is
      settled with what it brought: after a success they are in flight again and the jar holds a token that the server
      honours, and after a refusal they have failed. */
  lemma RefreshBrings(events: seq<Event>, n: nat)
    requires n < |events| && Enabled(State(events, n), events[n])
    ensures var s, e, after := State(events, n), events[n], State(events, n + 1);
            && (e.Page? && s.browsers[e.browser].wire.Idle? && after.browsers[e.browser].client.isRefreshing ==>
                  after.browsers[e.browser].wire == Asked(s.browsers[e.browser].jar))
            && (e.Deliver? ==>
                  var b, c := s.browsers[e.browser], after.browsers[e.browser];
                  && c.wire.Idle? && (b.wire.ok ==> c.jar.Some? && Sessions.Live(after.auth, c.jar.value))
                  && forall id | HeldUp(b.client, id) ::
                       && id in c.client.requests
                       && c.client.requests[id].phase == if b.wire.ok then Client.InFlight else Client.Settled(false))
  {
    RunKeeps(events, n);
    var s, e := State(events, n), events[n];
    if e.Deliver? {
      var b := s.browsers[e.browser];
      assert b.wire.ok ==> Claims(s, e.browser, b.wire.effect.token);
      Client.RefreshReplyEffect(b.client, b.wire.ok);
    }
  }

  /** Single flight is what this rests on: if a browser sent its token twice, and the server got to the second call after
      serving the first, the user would lose every session, the one just issued included. */
  lemma SecondFlightRevokes(a: Sessions.Auth, token: Token, now: Time, next: Token, expiresAt: Time,
                            faults: Sessions.Faults, later: Time, other: Token, again: Sessions.Faults)
    requires Sessions.RefreshReply(a, token, now, next, expiresAt, faults).answer.Issued?
    requires !again.lookup && !again.revokeAll
    ensures var first := Sessions.RefreshReply(a, token, now, next, expiresAt, faults);
            var second := Sessions.RefreshReply(first.auth, token, later, other, expiresAt, again);
            && second.answer == Sessions.Unauthorized
            && forall t :: t in a.sessions && a.sessions[t].user == a.sessions[token].user ==>
                 !Sessions.Live(second.auth, t) && !Sessions.Live(second.auth, next)
  {
  }

  /** And so it rests on a logout not overtaking a refresh: if it revokes the token that the refresh is on its way with,
      the server takes the browser for a thief. */
  lemma OvertakingLogoutIsTheft(s: System, id: Id, now: Time)
    requires Inv(s) && id in s.browsers && s.browsers[id].jar.Some?
    requires s.browsers[id].wire == Asked(s.browsers[id].jar)
    ensures var token := s.browsers[id].jar.value;
            && token in s.auth.sessions
            && Rotation.Look(Sessions.LogoutReply(s.auth, token, false).auth, token, now, false)
               == Rotation.Going(Rotation.Theft(s.auth.sessions[token].user))
  {
    assert Claims(s, id, s.browsers[id].jar.value);
  }
}
