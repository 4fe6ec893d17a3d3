/** The auth service and its handler as they run: one call on the session table after another, any of which may fail,
    and cookies set or cleared on the response. */
module AuthService {
  import opened Models
  import opened Sessions
  import Composition

  class Repository {
    var users: map<Id, User>
    var sessions: map<Token, Session>

    constructor ()
      ensures View() == Auth(map[], map[])
    {
      users, sessions := map[], map[];
    }

    function View(): Auth
      reads this
    {
      Auth(users, sessions)
    }

    method RevokeSession(token: Token, fails: bool) returns (ok: bool)
      modifies this`sessions
      ensures ok == !fails && View() == if fails then old(View()) else Revoke(old(View()), token)
    {
      if fails {
        return false;
      }
      if token in sessions && !sessions[token].revoked {
        sessions := sessions[token := sessions[token].(revoked := true)];
      }
      ok := true;
    }

    method RevokeAllForUser(user: Id, fails: bool) returns (ok: bool)
      modifies this`sessions
      ensures ok == !fails && View() == if fails then old(View()) else RevokeAll(old(View()), user)
    {
      if fails {
        return false;
      }
      sessions := map t | t in sessions ::
        if sessions[t].user == user && !sessions[t].revoked then sessions[t].(revoked := true) else sessions[t];
      ok := true;
    }

    /** The unique index refuses a hash that is already there. */
    method CreateSession(token: Token, s: Session, fails: bool) returns (ok: bool)
      modifies this`sessions
      ensures ok == (!fails && token !in old(sessions))
      ensures View() == if ok then Insert(old(View()), token, s) else old(View())
    {
      if fails || token in sessions {
        return false;
      }
      sessions := sessions[token := s];
      ok := true;
    }
  }

  class Service {
    const repo: Repository

    constructor (repo: Repository)
      ensures this.repo == repo
    {
      this.repo := repo;
    }

    method Login(user: Id, lookup: bool, passwordMatches: bool, token: Token, expiresAt: Time, fails: bool)
      returns (answer: Answer)
      modifies repo
      ensures Reply(repo.View(), answer)
              == LoginReply(old(repo.View()), user, lookup, passwordMatches, token, expiresAt, fails)
      ensures answer.Issued? <==>
                && !lookup && user in old(repo.users) && old(repo.users)[user].active && old(repo.users)[user].verified
                && passwordMatches && !fails && token !in old(repo.sessions)
      ensures LoginSpec(old(repo.View()), user, lookup, passwordMatches, token, expiresAt, fails,
                        Reply(repo.View(), answer))
      ensures LineageInv(old(repo.View())) ==> LineageInv(repo.View())
    {
      ghost var before := repo.View();
      LoginEffect(before, user, lookup, passwordMatches, token, expiresAt, fails);
      if lookup {
        return Failed;
      }
      if user !in repo.users {
        return Unauthorized;
      }
      var u := repo.users[user];
      if !u.active {
        return Forbidden;
      }
      if !u.verified {
        return Forbidden;
      }
      if !passwordMatches {
        return Unauthorized;
      }
      var ok := repo.CreateSession(token, Session(user, expiresAt, false, token), fails);
      answer := if ok then Issued(token) else Failed;
      if LineageInv(before) {
        LoginKeepsLineage(before, user, lookup, passwordMatches, token, expiresAt, fails);
      }
    }

    method Refresh(token: Token, now: Time, next: Token, expiresAt: Time, faults: Faults) returns (answer: Answer)
      modifies repo
      ensures Reply(repo.View(), answer) == RefreshReply(old(repo.View()), token, now, next, expiresAt, faults)
      ensures RefreshAnswer(old(repo.View()), token, now, next, faults, answer)
      ensures RefreshTables(old(repo.View()), token, now, next, expiresAt, faults, Reply(repo.View(), answer))
      ensures LineageInv(old(repo.View())) ==> LineageInv(repo.View())
    {
      ghost var before := repo.View();
      RefreshEffect(before, token, now, next, expiresAt, faults);
      answer := RotateSession(token, now, next, expiresAt, faults);
      if LineageInv(before) {
        RefreshKeepsLineage(before, token, now, next, expiresAt, faults);
      }
    }

    method RotateSession(token: Token, now: Time, next: Token, expiresAt: Time, faults: Faults)
      returns (answer: Answer)
      modifies repo
      ensures Reply(repo.View(), answer) == RefreshReply(old(repo.View()), token, now, next, expiresAt, faults)
    {
      if faults.lookup {
        return Failed;
      }
      if token !in repo.sessions {
        return Unauthorized;
      }
      var sess := repo.sessions[token];
      if sess.revoked {
        var _ := repo.RevokeAllForUser(sess.user, faults.revokeAll);
        return Unauthorized;
      }
      if sess.expiresAt < now {
        var _ := repo.RevokeSession(token, faults.revokeExpired);
        return Unauthorized;
      }
      if faults.loadUser || sess.user !in repo.users {
        return Unauthorized;
      }
      if !repo.users[sess.user].active {
        return Forbidden;
      }
      var revoked := repo.RevokeSession(token, faults.revoke);
      if !revoked {
        return Failed;
      }
      if faults.generate {
        return Failed;
      }
      var created := repo.CreateSession(next, Session(sess.user, expiresAt, false, sess.lineage), faults.create);
      if !created {
        return Failed;
      }
      return Issued(next);
    }

    /** Logging out without a cookie, or with one that is unknown or revoked, does nothing. */
    method Logout(cookie: Option<Token>, fails: bool)
      modifies repo
      ensures repo.View() == if cookie.Some? then LogoutReply(old(repo.View()), cookie.value, fails).auth
                             else old(repo.View())
    {
      if cookie.None? || cookie.value !in repo.sessions {
        return;
      }
      var sess := repo.sessions[cookie.value];
      if sess.revoked {
        assert repo.sessions == repo.sessions[cookie.value := sess];
        return;
      }
      var _ := repo.RevokeSession(cookie.value, fails);
    }
  }

  class Handler {
    const svc: Service

    constructor (svc: Service)
      ensures this.svc == svc
    {
      this.svc := svc;
    }

    /** A refresh without a cookie leaves the cookies alone; one that is refused clears them, whatever the reason. */
    method Refresh(cookie: Option<Token>, now: Time, next: Token, expiresAt: Time, faults: Faults)
      returns (response: Composition.Wire)
      modifies svc.repo
      ensures (svc.repo.View(), response)
              == Composition.Handle(old(svc.repo.View()), cookie, now, next, expiresAt, faults)
      ensures cookie.None? ==>
                svc.repo.View() == old(svc.repo.View()) && response == Composition.Answered(false, Composition.Keep)
      ensures cookie.Some? ==>
                if response == Composition.Answered(true, Composition.Put(next))
                then RefreshAnswer(old(svc.repo.View()), cookie.value, now, next, faults, Issued(next))
                else response == Composition.Answered(false, Composition.Clear)
                     && !RefreshAnswer(old(svc.repo.View()), cookie.value, now, next, faults, Issued(next))
      ensures LineageInv(old(svc.repo.View())) ==> LineageInv(svc.repo.View())
    {
      if cookie.None? {
        return Composition.Answered(false, Composition.Keep);
      }
      var answer := svc.Refresh(cookie.value, now, next, expiresAt, faults);
      if answer.Issued? {
        return Composition.Answered(true, Composition.Put(answer.token));
      }
      return Composition.Answered(false, Composition.Clear);
    }

    /** A login that succeeds puts its token in the jar; one that fails changes neither table nor jar. */
    method Login(jar: Option<Token>, user: Id, lookup: bool, passwordMatches: bool, token: Token, expiresAt: Time,
                 fails: bool)
      returns (after: Option<Token>)
      modifies svc.repo
      ensures (svc.repo.View(), after)
              == Composition.HandleLogin(old(svc.repo.View()), jar, user, lookup, passwordMatches, token, expiresAt,
                                         fails)
      ensures var users, sessions := old(svc.repo.users), old(svc.repo.sessions);
              after == if !lookup && user in users && users[user].active && users[user].verified
                          && passwordMatches && !fails && token !in sessions then Some(token) else jar
    {
      var answer := svc.Login(user, lookup, passwordMatches, token, expiresAt, fails);
      after := if answer.Issued? then Some(answer.token) else jar;
    }

    /** A logout clears the jar whether or not the session could be revoked. */
    method Logout(jar: Option<Token>, fails: bool) returns (after: Option<Token>)
      modifies svc.repo
      ensures (svc.repo.View(), after) == Composition.HandleLogout(old(svc.repo.View()), jar, fails)
      ensures after.None?
      ensures jar.None? || fails ==> svc.repo.View() == old(svc.repo.View())
      ensures jar.Some? && !fails ==> RevokesOne(old(svc.repo.View()), svc.repo.View(), jar.value)
    {
      svc.Logout(jar, fails);
      after := None;
    }
  }
}
