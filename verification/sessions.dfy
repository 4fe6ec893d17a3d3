/** Refresh sessions: rotation at every use, and revocation of all of a user's sessions when a used token comes back. */
module Sessions {
  import opened Models

  /** A refresh token. Hashing is injective, so a session row is known by the token whose hash it stores, and the
      unique index on that hash makes the table a map. */
  type Token = nat

  /** `lineage` is history that the table does not store: the token of the login from which rotations led here. */
  datatype Session = Session(user: Id, expiresAt: Time, revoked: bool, lineage: Token)

  datatype User = User(active: bool, verified: bool)

  datatype Auth = Auth(users: map<Id, User>, sessions: map<Token, Session>)

  /** Which of the calls that a refresh makes fail. */
  datatype Faults = Faults(
    lookup: bool,         // reading the session row
    revokeAll: bool,      // revoking all sessions of the user
    revokeExpired: bool,  // revoking a session that has expired
    loadUser: bool,       // reading the user row
    revoke: bool,         // revoking the presented session
    generate: bool,       // signing the access token, drawing random bytes
    create: bool)         // inserting the new session row

  datatype Answer = Issued(token: Token) | Unauthorized | Forbidden | Failed | Acknowledged

  datatype Reply = Reply(auth: Auth, answer: Answer)

  // ----- Table updates -----

  /** `UPDATE sessions SET revoked_at = now() WHERE id = ? AND revoked_at IS NULL`. */
  function Revoke(a: Auth, token: Token): Auth {
    if token in a.sessions then a.(sessions := a.sessions[token := a.sessions[token].(revoked := true)]) else a
  }

  function RevokeAll(a: Auth, user: Id): Auth {
    a.(sessions := map t | t in a.sessions ::
         if a.sessions[t].user == user then a.sessions[t].(revoked := true) else a.sessions[t])
  }

  function Insert(a: Auth, token: Token, s: Session): Auth {
    a.(sessions := a.sessions[token := s])
  }

  /** `lookup` says whether reading the user row fails, `fails` whether a later call does. */
  function LoginReply(a: Auth, user: Id, lookup: bool, passwordMatches: bool, token: Token, expiresAt: Time,
                      fails: bool): Reply
  {
    if lookup then Reply(a, Failed)
    else if user !in a.users then Reply(a, Unauthorized)
    else if !a.users[user].active || !a.users[user].verified then Reply(a, Forbidden)
    else if !passwordMatches then Reply(a, Unauthorized)
    else if fails || token in a.sessions then Reply(a, Failed)
    else Reply(Insert(a, token, Session(user, expiresAt, false, token)), Issued(token))
  }

  /** What a refresh finds out before it writes. */
  datatype Finding = Reused(user: Id) | Lapsed | Rotating(session: Session) | Stopped(answer: Answer)

  function Examine(a: Auth, token: Token, now: Time, faults: Faults): Finding {
    if faults.lookup then Stopped(Failed)
    else if token !in a.sessions then Stopped(Unauthorized)
    else
      var s := a.sessions[token];
      if s.revoked then Reused(s.user)
      else if s.expiresAt < now then Lapsed
      else if faults.loadUser || s.user !in a.users then Stopped(Unauthorized)
      else if !a.users[s.user].active then Stopped(Forbidden)
      else Rotating(s)
  }

  /** The writes of a refresh that read `session` under `token`. */
  function Rotate(a: Auth, token: Token, session: Session, next: Token, expiresAt: Time, faults: Faults): Reply {
    if faults.revoke then Reply(a, Failed)
    else
      var revoked := Revoke(a, token);
      if faults.generate || faults.create || next in a.sessions then Reply(revoked, Failed)
      else Reply(Insert(revoked, next, Session(session.user, expiresAt, false, session.lineage)), Issued(next))
  }

  function RefreshReply(a: Auth, token: Token, now: Time, next: Token, expiresAt: Time, faults: Faults): Reply {
    match Examine(a, token, now, faults)
    case Stopped(answer) => Reply(a, answer)
    case Reused(user) => Reply(if faults.revokeAll then a else RevokeAll(a, user), Unauthorized)
    case Lapsed => Reply(if faults.revokeExpired then a else Revoke(a, token), Unauthorized)
    case Rotating(session) => Rotate(a, token, session, next, expiresAt, faults)
  }

  function LogoutReply(a: Auth, token: Token, fails: bool): Reply {
    Reply(if fails then a else Revoke(a, token), Acknowledged)
  }

  // ----- What the requests answer and do -----

  /** Other sessions than `token` stay as they are. */
  ghost predicate OnlySession(a: Auth, after: Auth, token: Token) {
    && after.users == a.users
    && forall t :: t != token ==>
         && (t in after.sessions <==> t in a.sessions)
         && (t in a.sessions ==> after.sessions[t] == a.sessions[t])
  }

  /** The session under `token`, if there is one, is revoked and otherwise as before; all others stay as they are. */
  ghost predicate RevokesOne(a: Auth, after: Auth, token: Token) {
    && OnlySession(a, after, token) && (token in after.sessions <==> token in a.sessions)
    && (token in a.sessions ==>
          var s := a.sessions[token]; after.sessions[token] == Session(s.user, s.expiresAt, true, s.lineage))
  }

  /** The user's sessions are revoked and otherwise as before; those of others stay as they are. */
  ghost predicate RevokesUser(a: Auth, after: Auth, user: Id) {
    && after.users == a.users && after.sessions.Keys == a.sessions.Keys
    && forall t :: t in a.sessions ==>
         var s := a.sessions[t];
         after.sessions[t] == if s.user == user then Session(user, s.expiresAt, true, s.lineage) else s
  }

  ghost predicate LoginSpec(a: Auth, user: Id, lookup: bool, passwordMatches: bool, token: Token, expiresAt: Time,
                            fails: bool, reply: Reply)
  {
    var found := !lookup && user in a.users;
    var admitted := found && a.users[user].active && a.users[user].verified;
    && (reply.answer == Forbidden <==> found && !admitted)
    && (reply.answer == Unauthorized <==> (!lookup && user !in a.users) || (admitted && !passwordMatches))
    && (reply.answer == Failed <==> lookup || (admitted && passwordMatches && (fails || token in a.sessions)))
    && (reply.answer.Issued? <==> admitted && passwordMatches && !fails && token !in a.sessions)
    && if !reply.answer.Issued? then reply.auth == a
       else
         && reply.answer.token == token && OnlySession(a, reply.auth, token)
         && token in reply.auth.sessions && reply.auth.sessions[token] == Session(user, expiresAt, false, token)
  }

  /** A login issues a token exactly if the user exists, is active and verified, and the password matches, and no call
      fails; each refusal has its answer, and leaves the tables as they were. */
  lemma LoginEffect(a: Auth, user: Id, lookup: bool, passwordMatches: bool, token: Token, expiresAt: Time, fails: bool)
    ensures LoginSpec(a, user, lookup, passwordMatches, token, expiresAt, fails,
                      LoginReply(a, user, lookup, passwordMatches, token, expiresAt, fails))
  {
  }

  /** The session may be refreshed: neither revoked nor past its expiry, and of a user who exists and is active. */
  ghost predicate Refreshable(a: Auth, token: Token, now: Time) {
    && token in a.sessions && !a.sessions[token].revoked && now <= a.sessions[token].expiresAt
    && a.sessions[token].user in a.users && a.users[a.sessions[token].user].active
  }

  ghost predicate RefreshAnswer(a: Auth, token: Token, now: Time, next: Token, faults: Faults, answer: Answer) {
    var known := !faults.lookup && token in a.sessions;
    var good := known && !a.sessions[token].revoked && now <= a.sessions[token].expiresAt;
    var loaded := good && !faults.loadUser && a.sessions[token].user in a.users;
    var broken := faults.revoke || faults.generate || faults.create || next in a.sessions;
    && (answer == Unauthorized <==> !faults.lookup && !loaded)
    && (answer == Forbidden <==> loaded && !Refreshable(a, token, now))
    && (answer == Failed <==> faults.lookup || (loaded && Refreshable(a, token, now) && broken))
    && (answer.Issued? <==> loaded && Refreshable(a, token, now) && !broken)
    && (answer.Issued? ==> answer.token == next)
  }

  ghost predicate RefreshTables(a: Auth, token: Token, now: Time, next: Token, expiresAt: Time, faults: Faults,
                                reply: Reply)
  {
    if faults.lookup || token !in a.sessions then reply.auth == a
    else if a.sessions[token].revoked then
      if faults.revokeAll then reply.auth == a else RevokesUser(a, reply.auth, a.sessions[token].user)
    else if a.sessions[token].expiresAt < now then
      if faults.revokeExpired then reply.auth == a else RevokesOne(a, reply.auth, token)
    else if reply.answer.Issued? then
      && next in reply.auth.sessions
      && reply.auth.sessions[next] == Session(a.sessions[token].user, expiresAt, false, a.sessions[token].lineage)
      && RevokesOne(a, reply.auth.(sessions := reply.auth.sessions - {next}), token)
    else if Refreshable(a, token, now) && !faults.loadUser && !faults.revoke then RevokesOne(a, reply.auth, token)
    else reply.auth == a
  }

  lemma RefreshTablesEffect(a: Auth, token: Token, now: Time, next: Token, expiresAt: Time, faults: Faults)
    ensures RefreshTables(a, token, now, next, expiresAt, faults,
                          RefreshReply(a, token, now, next, expiresAt, faults))
  {
  }

  /** A refresh issues a token exactly for a session that is neither revoked nor expired, of an active user, if no call
      fails; it then replaces that session by one of the same user. Each refusal has its answer, and revokes what it
      should: all sessions of the user for a used token, this one if it has expired or the refresh got that far, and
      otherwise none. */
  lemma RefreshEffect(a: Auth, token: Token, now: Time, next: Token, expiresAt: Time, faults: Faults)
    ensures RefreshAnswer(a, token, now, next, faults, RefreshReply(a, token, now, next, expiresAt, faults).answer)
    ensures RefreshTables(a, token, now, next, expiresAt, faults,
                          RefreshReply(a, token, now, next, expiresAt, faults))
  {
    RefreshTablesEffect(a, token, now, next, expiresAt, faults);
    hide RefreshTables;
  }

  /** A logout revokes the session presented, and no other. */
  lemma LogoutEffect(a: Auth, token: Token, fails: bool)
    ensures if fails then LogoutReply(a, token, fails).auth == a
            else RevokesOne(a, LogoutReply(a, token, fails).auth, token)
  {
  }

  // ----- One live session in every lineage -----

  ghost predicate Live(a: Auth, token: Token) {
    token in a.sessions && !a.sessions[token].revoked
  }

  ghost predicate Rooted(a: Auth, token: Token)
    requires token in a.sessions
  {
    a.sessions[token].lineage in a.sessions
  }

  ghost predicate Kin(a: Auth, t: Token, u: Token) {
    t in a.sessions && u in a.sessions && a.sessions[t].lineage == a.sessions[u].lineage
  }

  /** Every lineage goes back to a login, and belongs to one user. */
  ghost predicate Lineages(a: Auth) {
    && (forall t {:trigger Rooted(a, t)} :: t in a.sessions ==> Rooted(a, t))
    && (forall t, u {:trigger Kin(a, t, u)} :: Kin(a, t, u) ==> a.sessions[t].user == a.sessions[u].user)
  }

  /** At most one session of a lineage is not revoked. */
  ghost predicate SingleLive(a: Auth) {
    forall t, u {:trigger Kin(a, t, u)} :: Kin(a, t, u) && Live(a, t) && Live(a, u) ==> t == u
  }

  ghost predicate LineageInv(a: Auth) {
    Lineages(a) && SingleLive(a)
  }

  ghost predicate NoneLiveIn(a: Auth, lineage: Token) {
    forall t :: Live(a, t) ==> a.sessions[t].lineage != lineage
  }

  /** The same sessions, of which some may have been revoked. */
  ghost predicate OnlyRevokes(a: Auth, after: Auth) {
    && after.sessions.Keys == a.sessions.Keys
    && forall t :: t in a.sessions ==>
         after.sessions[t] == a.sessions[t] || after.sessions[t] == a.sessions[t].(revoked := true)
  }

  lemma SameLineages(a: Auth, after: Auth)
    requires Lineages(a) && OnlyRevokes(a, after)
    ensures Lineages(after)
  {
    forall t | t in after.sessions ensures Rooted(after, t) { assert Rooted(a, t); }
    forall t, u | Kin(after, t, u) ensures after.sessions[t].user == after.sessions[u].user { assert Kin(a, t, u); }
  }

  lemma FewerLive(a: Auth, after: Auth)
    requires Lineages(a) && OnlyRevokes(a, after)
    ensures Lineages(after)
    ensures SingleLive(a) ==> SingleLive(after)
  {
    SameLineages(a, after);
    hide Lineages;
    if SingleLive(a) {
      forall t, u | Kin(after, t, u) && Live(after, t) && Live(after, u) ensures t == u {
        assert Kin(a, t, u);
      }
    }
  }

  lemma InsertKeepsIff(a: Auth, token: Token, s: Session)
    requires Lineages(a) && token !in a.sessions && !s.revoked && (s.lineage == token || s.lineage in a.sessions)
    requires forall t :: t in a.sessions && a.sessions[t].lineage == s.lineage ==> a.sessions[t].user == s.user
    ensures Lineages(Insert(a, token, s))
    ensures SingleLive(a) ==> (SingleLive(Insert(a, token, s)) <==> NoneLiveIn(a, s.lineage))
  {
    var after := Insert(a, token, s);
    forall t | t in after.sessions ensures Rooted(after, t) { assert t != token ==> Rooted(a, t); }
    forall t, u | Kin(after, t, u)
      ensures after.sessions[t].user == after.sessions[u].user
      ensures SingleLive(a) && t != token && u != token && Live(after, t) && Live(after, u) ==> t == u
    {
      assert t != token && u != token ==> Kin(a, t, u);
    }
    if t :| Live(a, t) && a.sessions[t].lineage == s.lineage {
      assert Live(after, t) && Live(after, token) && Kin(after, t, token);
    }
  }

  /** The writes of a refresh keep the lineages single exactly when no other session of the lineage is live at that
      moment; one whose reading is stale may meet the session's own successor there. */
  lemma RotateKeepsIff(a: Auth, token: Token, session: Session, next: Token, expiresAt: Time, faults: Faults)
    requires LineageInv(a)
    requires token in a.sessions && session == a.sessions[token].(revoked := session.revoked)
    ensures var reply := Rotate(a, token, session, next, expiresAt, faults);
            LineageInv(reply.auth) <==>
            (reply.answer.Issued? ==>
               forall t :: Live(a, t) && a.sessions[t].lineage == session.lineage ==> t == token)
  {
    var reply := Rotate(a, token, session, next, expiresAt, faults);
    var revoked := Revoke(a, token);
    FewerLive(a, revoked);
    if reply.answer.Issued? {
      forall t | t in a.sessions && a.sessions[t].lineage == session.lineage
        ensures a.sessions[t].user == session.user
      {
        assert Kin(a, t, token);
      }
      assert Rooted(a, token);
      InsertKeepsIff(revoked, next, Session(session.user, expiresAt, false, session.lineage));
      forall t ensures Live(revoked, t) <==> Live(a, t) && t != token {}
    }
  }

  lemma RefreshKeepsLineage(a: Auth, token: Token, now: Time, next: Token, expiresAt: Time, faults: Faults)
    requires LineageInv(a)
    ensures LineageInv(RefreshReply(a, token, now, next, expiresAt, faults).auth)
  {
    match Examine(a, token, now, faults)
    case Rotating(session) =>
      forall t | Live(a, t) && a.sessions[t].lineage == session.lineage
        ensures t == token
      {
        assert Kin(a, t, token);
      }
      RotateKeepsIff(a, token, session, next, expiresAt, faults);
    case _ =>
      FewerLive(a, RefreshReply(a, token, now, next, expiresAt, faults).auth);
  }

  lemma LoginKeepsLineage(a: Auth, user: Id, lookup: bool, passwordMatches: bool, token: Token, expiresAt: Time,
                          fails: bool)
    requires LineageInv(a)
    ensures LineageInv(LoginReply(a, user, lookup, passwordMatches, token, expiresAt, fails).auth)
  {
    if LoginReply(a, user, lookup, passwordMatches, token, expiresAt, fails).answer.Issued? {
      forall t | t in a.sessions ensures a.sessions[t].lineage != token { assert Rooted(a, t); }
      InsertKeepsIff(a, token, Session(user, expiresAt, false, token));
    }
  }

  // ----- Requests that present the same token at the same time -----

  /** Two refreshes that both read the token before either writes both succeed, and fork the lineage. */
  lemma OverlappingRefreshesFork()
    ensures var none := Faults(false, false, false, false, false, false, false);
            var a := Auth(map[1 := User(true, true)], map[10 := Session(1, 100, false, 10)]);
            var read := Examine(a, 10, 0, none);
            && LineageInv(a) && read.Rotating?
            && var first := Rotate(a, 10, read.session, 11, 100, none);
            var second := Rotate(first.auth, 10, read.session, 12, 100, none);
            first.answer == Issued(11) && second.answer == Issued(12) && !LineageInv(second.auth)
  {
    var none := Faults(false, false, false, false, false, false, false);
    var a := Auth(map[1 := User(true, true)], map[10 := Session(1, 100, false, 10)]);
    var session := Examine(a, 10, 0, none).session;
    var first := Rotate(a, 10, session, 11, 100, none).auth;
    var second := Rotate(first, 10, session, 12, 100, none).auth;
    assert Live(second, 11) && Live(second, 12) && Kin(second, 11, 12);
  }
}
