/**
 The store as an object: one field per table, changed in place, with the loops over the tables written
 out.  Every method is tied to the function of the same operation on the tables taken together.
 */
module Storages {
  import opened Basics
  import opened StoreModel

  class Storage {
    var authRequests: map<Id, AuthRequest>
    var authCodes: map<Id, Code>
    var codeToAuthReq: map<Code, Id>
    var codeCreatedAt: map<Code, Time>
    var usedCodes: map<Code, Id>
    var codeTokens: map<Id, seq<Id>>
    var tokens: map<Id, Token>
    var refreshTokens: map<Id, RefreshToken>
    var sessions: map<Id, Session>
    var clientSessions: map<UserId, map<ClientId, Id>>

    ghost function Codes(): CodeTables
      reads this
    {
      CodeTables(authRequests, authCodes, codeToAuthReq, codeCreatedAt, usedCodes)
    }

    ghost function Tokens(): TokenTables
      reads this
    {
      TokenTables(codeTokens, tokens, refreshTokens, sessions, clientSessions)
    }

    constructor ()
      ensures Codes() == NO_CODES && Tokens() == NO_TOKENS
    {
      authRequests, authCodes, codeToAuthReq, codeCreatedAt, usedCodes := map[], map[], map[], map[], map[];
      codeTokens, tokens, refreshTokens, sessions, clientSessions := map[], map[], map[], map[], map[];
    }

    method CreateAuthRequest(id: Id, request: AuthRequest)
      modifies `authRequests
      ensures authRequests == old(authRequests)[id := request]
    {
      authRequests := authRequests[id := request];
    }

    method SaveAuthCode(id: Id, code: Code, now: Time) returns (ok: bool)
      modifies `authCodes, `codeToAuthReq, `codeCreatedAt
      ensures (Codes(), ok) == SaveCode(old(Codes()), id, code, now)
    {
      if id !in authRequests {
        return false;
      }
      authCodes := authCodes[id := code];
      codeToAuthReq := codeToAuthReq[code := id];
      codeCreatedAt := codeCreatedAt[code := now];
      return true;
    }

    method AuthRequestByCode(code: Code, now: Time) returns (answer: CodeAnswer)
      modifies `authCodes, `codeToAuthReq, `codeCreatedAt, `usedCodes
      ensures (Codes(), answer) == Redeem(old(Codes()), code, now)
    {
      if code !in codeToAuthReq {
        if code in usedCodes {
          return AlreadyUsed;
        }
        return CodeNotFound;
      }
      var id := codeToAuthReq[code];
      if code in codeCreatedAt {
        var createdAt := codeCreatedAt[code];
        if now - createdAt > AUTH_CODE_TTL {
          codeToAuthReq := codeToAuthReq - {code};
          authCodes := authCodes - {id};
          codeCreatedAt := codeCreatedAt - {code};
          return CodeExpired;
        }
      }
      if id !in authRequests {
        return RequestNotFound;
      }
      answer := Redeemed(authRequests[id]);
      codeToAuthReq := codeToAuthReq - {code};
      usedCodes := usedCodes[code := id];
      authCodes := authCodes - {id};
      codeCreatedAt := codeCreatedAt - {code};
    }

    method DeleteAuthRequest(id: Id)
      modifies `authRequests, `authCodes, `codeToAuthReq, `codeCreatedAt, `usedCodes
      ensures Codes() == DeleteRequest(old(Codes()), id)
    {
      authRequests := authRequests - {id};
      if id in authCodes {
        var code := authCodes[id];
        usedCodes := usedCodes[code := id];
        codeToAuthReq := codeToAuthReq - {code};
        authCodes := authCodes - {id};
        codeCreatedAt := codeCreatedAt - {code};
      }
    }

    method TrackTokenForAuthRequest(id: Id, tokenId: Id)
      modifies `codeTokens
      ensures Tokens() == Track(old(Tokens()), id, tokenId)
    {
      var tracked := if id in codeTokens then codeTokens[id] else [];
      codeTokens := codeTokens[id := tracked + [tokenId]];
    }

    /** The inner loop of the code-reuse revocation: every refresh token linked to one access token. */
    method DeleteLinkedRefreshTokens(tokenId: Id)
      modifies `refreshTokens
      ensures refreshTokens == NotLinked(old(refreshTokens), {tokenId})
    {
      ghost var was := refreshTokens;
      var todo := refreshTokens.Keys;
      while todo != {}
        invariant todo <= was.Keys
        invariant refreshTokens == map r | r in was && (r in todo || was[r].accessToken != tokenId) :: was[r]
        decreases todo
      {
        var r :| r in todo;
        todo := todo - {r};
        if refreshTokens[r].accessToken == tokenId {
          refreshTokens := refreshTokens - {r};
        }
      }
    }

    method DeleteTracked(tokenIds: seq<Id>)
      modifies `tokens, `refreshTokens
      ensures Tokens() == RevokeAccessIds(old(Tokens()), Members(tokenIds))
    {
      for i := 0 to |tokenIds|
        invariant tokens == old(tokens) - Members(tokenIds[..i])
        invariant refreshTokens == NotLinked(old(refreshTokens), Members(tokenIds[..i]))
      {
        assert Members(tokenIds[..i + 1]) == Members(tokenIds[..i]) + {tokenIds[i]};
        tokens := tokens - {tokenIds[i]};
        DeleteLinkedRefreshTokens(tokenIds[i]);
      }
      assert tokenIds[..|tokenIds|] == tokenIds;
    }

    method RevokeTokensForUsedCode(code: Code) returns (found: Option<Id>)
      modifies `tokens, `refreshTokens, `codeTokens
      ensures found == if code in usedCodes then Some(usedCodes[code]) else None
      ensures Tokens() == if code in usedCodes then RevokeForRequest(old(Tokens()), usedCodes[code]) else old(Tokens())
    {
      if code !in usedCodes {
        return None;
      }
      var id := usedCodes[code];
      if id in codeTokens {
        DeleteTracked(codeTokens[id]);
        codeTokens := codeTokens - {id};
      } else {
        assert Members([]) == {} && NotLinked(refreshTokens, {}) == refreshTokens && tokens - {} == tokens;
        assert codeTokens - {id} == codeTokens;
      }
      return Some(id);
    }

    method CreateAccessToken(id: Id, req: TokenRequest, cnf: Option<Confirmation>, now: Time) returns (expiration: Time)
      modifies `tokens
      ensures expiration == now + TOKEN_TTL
      ensures Tokens() == AddAccess(old(Tokens()), id, req, cnf, expiration)
    {
      expiration := now + TOKEN_TTL;
      tokens := tokens[id := Token(req.client, req.subject, req.audience, req.scopes, expiration, cnf, req.claims)];
    }

    method CreateRefreshToken(id: Id, accessId: Id, req: TokenRequest, cnf: Option<Confirmation>,
                              now: Time, later: Time)
      modifies `refreshTokens
      ensures Tokens() == AddRefresh(old(Tokens()), id, accessId, req, cnf, now, later)
    {
      var jkt: Option<Text> := None;
      if cnf.Some? {
        jkt := cnf.value.jkt;
      }
      var token := RefreshToken(accessId, accessId, req.client, req.subject, req.audience, req.scopes,
                                now, later + REFRESH_TTL, jkt);
      refreshTokens := refreshTokens[id := token];
    }

    /** `accessId` and `refreshId` are the two UUIDs the sections draw. */
    method CreateAccessAndRefreshTokens(accessId: Id, refreshId: Id, req: TokenRequest, cnf: Option<Confirmation>,
                                        at: Readings, current: Option<Id>) returns (expiration: Time)
      modifies `tokens, `refreshTokens
      ensures expiration == at.access + TOKEN_TTL
      ensures Tokens() == IssuePair(old(Tokens()), accessId, refreshId, req, cnf, at, current)
    {
      expiration := CreateAccessToken(accessId, req, cnf, at.access);
      CreateRefreshToken(refreshId, accessId, req, cnf, at.auth, at.refresh);
      if current.Some? {
        refreshTokens := refreshTokens - {current.value};
      }
    }

    method TokenRequestByRefreshToken(id: Id) returns (r: Option<RefreshToken>)
      ensures r.None? <==> id !in Tokens().refresh
      ensures r.Some? ==> r.value in Tokens().refresh.Values && r.value == Tokens().refresh[id]
    {
      r := if id in refreshTokens then Some(refreshTokens[id]) else None;
    }

    method SetTokenCNF(id: Id, cnf: Option<Confirmation>) returns (ok: bool)
      modifies `tokens
      ensures (Tokens(), ok) == SetCnf(old(Tokens()), id, cnf)
    {
      if id !in tokens {
        return false;
      }
      tokens := tokens[id := tokens[id].(cnf := cnf)];
      return true;
    }

    method RevokeToken(id: Id, client: ClientId) returns (ok: bool)
      modifies `tokens, `refreshTokens
      ensures (Tokens(), ok) == Revoke(old(Tokens()), id, client)
    {
      if id in tokens {
        if tokens[id].client != client {
          return false;
        }
        tokens := tokens - {id};
        return true;
      }
      if id in refreshTokens {
        var token := refreshTokens[id];
        if token.client != client {
          return false;
        }
        tokens := tokens - {token.accessToken};
        refreshTokens := refreshTokens - {id};
      }
      return true;
    }

    method TerminateSession(user: UserId, client: ClientId)
      modifies `sessions, `tokens, `refreshTokens, `clientSessions
      ensures Tokens() == Terminate(old(Tokens()), user, client)
    {
      DeleteSessionsOf(user);
      DeleteTokensOf(user, client);
      DeleteRefreshTokensOf(user, client);
      RemoveClientSession(user, client);
    }

    method RemoveClientSession(user: UserId, client: ClientId)
      modifies `clientSessions
      ensures clientSessions == RemoveClient(old(clientSessions), user, client)
    {
      if user in clientSessions {
        var clients := clientSessions[user] - {client};
        clientSessions := clientSessions[user := clients];
        if |clients| == 0 {
          clientSessions := clientSessions - {user};
        }
      }
    }

    method DeleteSessionsOf(user: UserId)
      modifies `sessions
      ensures sessions == map i | i in old(sessions) && old(sessions)[i].subject != user :: old(sessions)[i]
    {
      ghost var was := sessions;
      var todo := sessions.Keys;
      while todo != {}
        invariant todo <= was.Keys
        invariant sessions == map i | i in was && (i in todo || was[i].subject != user) :: was[i]
        decreases todo
      {
        var i :| i in todo;
        todo := todo - {i};
        if sessions[i].subject == user {
          sessions := sessions - {i};
        }
      }
    }

    method DeleteTokensOf(user: UserId, client: ClientId)
      modifies `tokens
      ensures tokens == map i | i in old(tokens) && !old(tokens)[i].BelongsTo(user, client) :: old(tokens)[i]
    {
      ghost var was := tokens;
      var todo := tokens.Keys;
      while todo != {}
        invariant todo <= was.Keys
        invariant tokens == map i | i in was && (i in todo || !was[i].BelongsTo(user, client)) :: was[i]
        decreases todo
      {
        var i :| i in todo;
        todo := todo - {i};
        if tokens[i].client == client && tokens[i].subject == user {
          tokens := tokens - {i};
        }
      }
    }

    method DeleteRefreshTokensOf(user: UserId, client: ClientId)
      modifies `refreshTokens
      ensures refreshTokens ==
              map i | i in old(refreshTokens) && !old(refreshTokens)[i].BelongsTo(user, client) :: old(refreshTokens)[i]
    {
      ghost var was := refreshTokens;
      var todo := refreshTokens.Keys;
      while todo != {}
        invariant todo <= was.Keys
        invariant refreshTokens == map i | i in was && (i in todo || !was[i].BelongsTo(user, client)) :: was[i]
        decreases todo
      {
        var i :| i in todo;
        todo := todo - {i};
        if refreshTokens[i].client == client && refreshTokens[i].user == user {
          refreshTokens := refreshTokens - {i};
        }
      }
    }

    /** The lookup and the filling of the response; `None` stands for "token not found". */
    method SetIntrospectionFromToken(id: Id) returns (answer: Option<Introspection>)
      ensures IsIntrospection(Tokens(), id, answer)
    {
      if id in tokens {
        return Some(FromAccess(tokens[id]));
      }
      var todo := refreshTokens.Keys;
      while todo != {}
        invariant todo <= refreshTokens.Keys
        invariant forall r :: r in refreshTokens && r !in todo ==> refreshTokens[r].token != id
        decreases todo
      {
        var r :| r in todo;
        todo := todo - {r};
        if refreshTokens[r].token == id {
          return Some(FromRefresh(refreshTokens[r]));
        }
      }
      return None;
    }
  }
}
