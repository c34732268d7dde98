/**
 The login challenge: authorization requests that are completed once by a login form, by the accept
 endpoint or automatically.  Here are the request record and the store's two completing operations, which
 change it in place; `LoginRuns` interleaves the handlers that call them.
 */
module LoginChallenge {
  import opened Basics

  type ReqId(==, !new)
  type SessionId(==, !new)

  datatype Request = Request(
    user: UserId, done: bool, authTime: Time, session: SessionId, acr: Option<Text>, acrValues: seq<Text>)

  /** What a login leaves behind for later requests from the same browser. */
  datatype LoginSession = LoginSession(subject: UserId, client: ClientId, authTime: Time, sid: SessionId, expiry: Time)

  const SESSION_TTL: Time := 24 * 3600 * SECOND

  function ChosenAcr(r: Request): Option<Text> {
    if |r.acrValues| > 0 then Some(r.acrValues[0]) else r.acr
  }

  /** `CompleteAuthRequest` on a request that exists; `false` when it was completed before. */
  function Complete(r: Request, subject: UserId, authTime: Time, session: SessionId): (Request, bool) {
    if r.done then (r, false)
    else (r.(user := subject, done := true, authTime := authTime, session := session, acr := ChosenAcr(r)), true)
  }

  /** A successful `CheckUsernamePassword`; it does not ask whether the request was completed before. */
  function Login(r: Request, user: UserId, now: Time): Request {
    r.(user := user, done := true, authTime := now, acr := ChosenAcr(r))
  }

  class AuthRequest {
    const id: ReqId
    const client: ClientId
    var userID: UserId
    var done: bool
    var authTime: Time
    var sessionID: SessionId
    var acr: Option<Text>
    const acrValues: seq<Text>

    ghost function View(): Request
      reads this
    {
      Request(userID, done, authTime, sessionID, acr, acrValues)
    }

    constructor (id: ReqId, client: ClientId, user: UserId, session: SessionId, acrValues: seq<Text>)
      ensures this.id == id && this.client == client && View() == Request(user, false, 0, session, None, acrValues)
    {
      this.id, this.client, this.userID, this.done, this.authTime := id, client, user, false, 0;
      this.sessionID, this.acr, this.acrValues := session, None, acrValues;
    }
  }

  class LoginStore {
    var authRequests: map<ReqId, AuthRequest>
    var sessions: map<SessionId, LoginSession>

    ghost predicate Valid()
      reads this
    {
      forall id :: id in authRequests ==> authRequests[id].id == id
    }

    ghost function View(): map<ReqId, Request>
      reads this, authRequests.Values
    {
      map id | id in authRequests :: authRequests[id].View()
    }

    constructor ()
      ensures Valid() && View() == map[] && sessions == map[]
    {
      authRequests, sessions := map[], map[];
    }

    method CreateAuthRequest(id: ReqId, client: ClientId, user: UserId, session: SessionId, acrValues: seq<Text>)
      requires Valid()
      modifies `authRequests
      ensures Valid() && id in authRequests && authRequests[id].client == client
      ensures View() == old(View())[id := Request(user, false, 0, session, None, acrValues)]
    {
      var request := new AuthRequest(id, client, user, session, acrValues);
      authRequests := authRequests[id := request];
    }

    method CompleteAuthRequest(id: ReqId, subject: UserId, authTime: Time, session: SessionId) returns (ok: bool)
      requires Valid()
      modifies authRequests.Values
      ensures Valid()
      ensures id !in old(View()) ==> !ok && View() == old(View())
      ensures id in old(View()) ==>
                var r := Complete(old(View())[id], subject, authTime, session);
                ok == r.1 && View() == old(View())[id := r.0]
      ensures ok <==> id in old(View()) && !old(View())[id].done
      ensures ok ==>
                id in View() && id in old(View()) &&
                var was, now := old(View())[id], View()[id];
                && now.user == subject && now.done && now.authTime == authTime && now.session == session
                && now.acr == (if |was.acrValues| > 0 then Some(was.acrValues[0]) else was.acr)
                && now.acrValues == was.acrValues
    {
      if id !in authRequests {
        return false;
      }
      var request := authRequests[id];
      if request.done {
        return false;
      }
      request.userID := subject;
      request.done := true;
      request.authTime := authTime;
      request.sessionID := session;
      if |request.acrValues| > 0 {
        request.acr := Some(request.acrValues[0]);
      }
      return true;
    }

    /**
     `user` is the account whose name and password matched, if any did; the clock is read twice.  A login
     also opens a session for the client of the request.
     */
    method CheckUsernamePassword(id: ReqId, user: Option<UserId>, now: Time, later: Time) returns (ok: bool)
      requires Valid()
      modifies `sessions, authRequests.Values
      ensures Valid()
      ensures !ok ==> sessions == old(sessions)
      ensures ok ==>
                id in authRequests && user.Some? &&
                var request := authRequests[id];
                sessions == old(sessions)[request.sessionID :=
                  LoginSession(user.value, request.client, now, request.sessionID, later + 86400 * 1_000_000_000)]
      ensures ok == (id in old(View()) && user.Some?)
      ensures View() == if ok then old(View())[id := Login(old(View())[id], user.value, now)] else old(View())
      ensures ok ==>
                id in View() && id in old(View()) && user.Some? &&
                var was, after := old(View())[id], View()[id];
                && after.user == user.value && after.done && after.authTime == now && after.session == was.session
                && after.acr == (if |was.acrValues| > 0 then Some(was.acrValues[0]) else was.acr)
                && after.acrValues == was.acrValues
    {
      if id !in authRequests || user.None? {
        return false;
      }
      var request := authRequests[id];
      request.userID := user.value;
      request.done := true;
      request.authTime := now;
      if |request.acrValues| > 0 {
        request.acr := Some(request.acrValues[0]);
      }
      sessions := sessions[request.sessionID :=
        LoginSession(user.value, request.client, request.authTime, request.sessionID, later + SESSION_TTL)];
      return true;
    }

    method DeleteAuthRequest(id: ReqId)
      requires Valid()
      modifies this
      ensures Valid() && View() == old(View()) - {id}
    {
      authRequests := authRequests - {id};
    }
  }
}
