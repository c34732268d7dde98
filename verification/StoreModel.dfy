/**
 The tables of the example server's store and what each locked section does to them.

 Identifiers are opaque.  Access-token ids, refresh-token ids, request ids and session ids share the
 type `Id`, because the store looks the same string up in several tables.
 */
module StoreModel {
  import opened Basics

  type Id(==, !new)
  type Code(==, !new)

  const AUTH_CODE_TTL: Time := 60 * SECOND
  const TOKEN_TTL: Time := 3600 * SECOND
  const REFRESH_TTL: Time := 86400 * SECOND

  /** The part of an authorization request that the token endpoint reads. */
  datatype AuthRequest = AuthRequest(client: ClientId, user: UserId, scopes: seq<Text>)

  datatype Confirmation = Confirmation(jkt: Option<Text>)

  /** What a grant asks tokens for; only an authorization request carries a claims request. */
  datatype TokenRequest = TokenRequest(
    client: ClientId, subject: UserId, audience: seq<Text>, scopes: seq<Text>, claims: Option<Text>)

  datatype Token = Token(
    client: ClientId, subject: UserId, audience: seq<Text>, scopes: seq<Text>,
    expiration: Time, cnf: Option<Confirmation>, claims: Option<Text>)
  {
    predicate BelongsTo(u: UserId, c: ClientId) {
      client == c && subject == u
    }
  }

  datatype RefreshToken = RefreshToken(
    token: Id, accessToken: Id, client: ClientId, user: UserId, audience: seq<Text>, scopes: seq<Text>,
    authTime: Time, expiration: Time, dpopJKT: Option<Text>)
  {
    predicate BelongsTo(u: UserId, c: ClientId) {
      client == c && user == u
    }
  }

  datatype Session = Session(subject: UserId, sid: Id)

  datatype CodeTables = CodeTables(
    authRequests: map<Id, AuthRequest>,
    authCodes: map<Id, Code>,
    codeToAuthReq: map<Code, Id>,
    codeCreatedAt: map<Code, Time>,
    usedCodes: map<Code, Id>)

  datatype TokenTables = TokenTables(
    codeTokens: map<Id, seq<Id>>,
    access: map<Id, Token>,
    refresh: map<Id, RefreshToken>,
    sessions: map<Id, Session>,
    clientSessions: map<UserId, map<ClientId, Id>>)

  const NO_CODES := CodeTables(map[], map[], map[], map[], map[])

  const NO_TOKENS := TokenTables(map[], map[], map[], map[], map[])

  // ---------------------------------------------------------------------------------------------
  // Authorization codes
  // ---------------------------------------------------------------------------------------------

  datatype CodeAnswer = Redeemed(request: AuthRequest) | AlreadyUsed | CodeNotFound | CodeExpired | RequestNotFound

  function SaveCode(c: CodeTables, id: Id, code: Code, now: Time): (CodeTables, bool) {
    if id !in c.authRequests then (c, false)
    else (c.(authCodes := c.authCodes[id := code],
             codeToAuthReq := c.codeToAuthReq[code := id],
             codeCreatedAt := c.codeCreatedAt[code := now]), true)
  }

  function ForgetCode(c: CodeTables, code: Code, id: Id): CodeTables {
    c.(codeToAuthReq := c.codeToAuthReq - {code},
       authCodes := c.authCodes - {id},
       codeCreatedAt := c.codeCreatedAt - {code})
  }

  function Redeem(c: CodeTables, code: Code, now: Time): (CodeTables, CodeAnswer) {
    if code !in c.codeToAuthReq then (c, if code in c.usedCodes then AlreadyUsed else CodeNotFound)
    else
      var id := c.codeToAuthReq[code];
      if code in c.codeCreatedAt && now - c.codeCreatedAt[code] > AUTH_CODE_TTL then
        (ForgetCode(c, code, id), CodeExpired)
      else if id !in c.authRequests then (c, RequestNotFound)
      else (ForgetCode(c, code, id).(usedCodes := c.usedCodes[code := id]), Redeemed(c.authRequests[id]))
  }

  function DeleteRequest(c: CodeTables, id: Id): CodeTables {
    var c' := c.(authRequests := c.authRequests - {id});
    if id in c.authCodes
    then ForgetCode(c', c.authCodes[id], id).(usedCodes := c.usedCodes[c.authCodes[id] := id])
    else c'
  }

  // ---------------------------------------------------------------------------------------------
  // Tokens
  // ---------------------------------------------------------------------------------------------

  function TrackedTokens(t: TokenTables, id: Id): seq<Id> {
    if id in t.codeTokens then t.codeTokens[id] else []
  }

  function Track(t: TokenTables, id: Id, tokenId: Id): TokenTables {
    t.(codeTokens := t.codeTokens[id := TrackedTokens(t, id) + [tokenId]])
  }

  function NotLinked(rts: map<Id, RefreshToken>, ids: set<Id>): map<Id, RefreshToken> {
    map r | r in rts && rts[r].accessToken !in ids :: rts[r]
  }

  function Members(ids: seq<Id>): set<Id> {
    set i | i in ids
  }

  /** Removes the given access tokens and every refresh token linked to one of them. */
  function RevokeAccessIds(t: TokenTables, ids: set<Id>): TokenTables {
    t.(access := t.access - ids, refresh := NotLinked(t.refresh, ids))
  }

  /** Revokes what was tracked for a request whose code has been used. */
  function RevokeForRequest(t: TokenTables, id: Id): TokenTables {
    RevokeAccessIds(t, Members(TrackedTokens(t, id))).(codeTokens := t.codeTokens - {id})
  }

  function AddAccess(t: TokenTables, id: Id, req: TokenRequest, cnf: Option<Confirmation>, expiration: Time)
    : TokenTables
  {
    t.(access := t.access[id := Token(req.client, req.subject, req.audience, req.scopes, expiration, cnf, req.claims)])
  }

  /** The section reads the clock twice, for the authentication time and for the expiration. */
  function AddRefresh(t: TokenTables, id: Id, accessId: Id, req: TokenRequest, cnf: Option<Confirmation>,
                      now: Time, later: Time): TokenTables {
    var jkt := if cnf.Some? then cnf.value.jkt else None;
    t.(refresh := t.refresh[id := RefreshToken(accessId, accessId, req.client, req.subject, req.audience, req.scopes,
                                               now, later + REFRESH_TTL, jkt)])
  }

  function DropRefresh(t: TokenTables, id: Id): TokenTables {
    t.(refresh := t.refresh - {id})
  }

  /** The clock readings of `CreateAccessAndRefreshTokens`, in order. */
  datatype Readings = Readings(access: Time, auth: Time, refresh: Time)

  /** The three lock sections of `CreateAccessAndRefreshTokens` one after the other. */
  function IssuePair(t: TokenTables, accessId: Id, refreshId: Id, req: TokenRequest, cnf: Option<Confirmation>,
                     at: Readings, current: Option<Id>): TokenTables {
    var t1 := AddAccess(t, accessId, req, cnf, at.access + TOKEN_TTL);
    var t2 := AddRefresh(t1, refreshId, accessId, req, cnf, at.auth, at.refresh);
    if current.Some? then DropRefresh(t2, current.value) else t2
  }

  function SetCnf(t: TokenTables, id: Id, cnf: Option<Confirmation>): (TokenTables, bool) {
    if id in t.access then (t.(access := t.access[id := t.access[id].(cnf := cnf)]), true) else (t, false)
  }

  /** Revocation of either kind of token; `false` when the token belongs to another client. */
  function Revoke(t: TokenTables, id: Id, client: ClientId): (TokenTables, bool) {
    if id in t.access then
      if t.access[id].client != client then (t, false) else (t.(access := t.access - {id}), true)
    else if id in t.refresh then
      var rt := t.refresh[id];
      if rt.client != client then (t, false)
      else (t.(access := t.access - {rt.accessToken}, refresh := t.refresh - {id}), true)
    else (t, true)
  }

  function Terminate(t: TokenTables, user: UserId, client: ClientId): TokenTables {
    t.(sessions := map i | i in t.sessions && t.sessions[i].subject != user :: t.sessions[i],
       access := map i | i in t.access && !t.access[i].BelongsTo(user, client) :: t.access[i],
       refresh := map i | i in t.refresh && !t.refresh[i].BelongsTo(user, client) :: t.refresh[i],
       clientSessions := RemoveClient(t.clientSessions, user, client))
  }

  function RemoveClient(cs: map<UserId, map<ClientId, Id>>, user: UserId, client: ClientId)
    : map<UserId, map<ClientId, Id>>
  {
    if user !in cs then cs
    else
      var rest := cs[user] - {client};
      if rest == map[] then cs - {user} else cs[user := rest]
  }

  // ---------------------------------------------------------------------------------------------
  // Introspection
  // ---------------------------------------------------------------------------------------------

  /** `notBefore` is filled from the expiration, as the code does. */
  datatype Introspection = Introspection(
    client: ClientId, subject: UserId, audience: seq<Text>, scopes: seq<Text>,
    expiration: Time, notBefore: Time, cnf: Option<Confirmation>)

  function FromAccess(t: Token): Introspection {
    Introspection(t.client, t.subject, t.audience, t.scopes, t.expiration, t.expiration, t.cnf)
  }

  function FromRefresh(t: RefreshToken): Introspection {
    Introspection(t.client, t.user, t.audience, t.scopes, t.expiration, t.expiration, None)
  }

  /** A refresh record that stands in for this access token when it is missing. */
  ghost predicate StandsIn(t: TokenTables, r: Id, id: Id) {
    r in t.refresh && t.refresh[r].token == id
  }

  ghost predicate Linked(t: TokenTables, id: Id) {
    exists r :: StandsIn(t, r, id)
  }

  ghost predicate Active(t: TokenTables, id: Id) {
    id in t.access || Linked(t, id)
  }

  /** The possible answers: a refresh record stands in for a missing access token, in any map order. */
  ghost predicate IsIntrospection(t: TokenTables, id: Id, a: Option<Introspection>) {
    if id in t.access then a == Some(FromAccess(t.access[id]))
    else
      match a
      case None => !Active(t, id)
      case Some(i) => exists r :: StandsIn(t, r, id) && i == FromRefresh(t.refresh[r])
  }
}
