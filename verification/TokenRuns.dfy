/**
 Tokens over whole runs: the invariant that ties refresh tokens to the access tokens they were issued
 with, what each way of revoking does to introspection, and that a dead token never comes back.
 */
module TokenRuns {
  import opened Basics
  import opened StoreModel
  import opened StoreRuns

  // ---------------------------------------------------------------------------------------------
  // The invariant
  // ---------------------------------------------------------------------------------------------

  /** Access-token ids and refresh-token ids are disjoint, live or not. */
  ghost predicate SeparateIds(w: World) {
    && w.tokens.access.Keys <= w.accessIds
    && w.tokens.refresh.Keys <= w.family.Keys
    && w.pending.Keys <= w.accessIds
    && w.accessIds !! w.family.Keys
  }

  /** A refresh record names one access token, twice, which is not half issued. */
  ghost predicate LinksAreSound(refresh: map<Id, RefreshToken>, accessIds: set<Id>, pending: map<Id, Pending>) {
    forall r :: r in refresh ==>
      && refresh[r].token == refresh[r].accessToken
      && refresh[r].accessToken in accessIds
      && refresh[r].accessToken !in pending
  }

  ghost predicate LinksAreDistinct(refresh: map<Id, RefreshToken>) {
    forall r, r' :: r in refresh && r' in refresh && refresh[r].accessToken == refresh[r'].accessToken ==> r == r'
  }

  /** While the linked access token lives, it has the same owner as the refresh token. */
  ghost predicate LinkedOwnersAgree(access: map<Id, Token>, refresh: map<Id, RefreshToken>) {
    forall r :: r in refresh && refresh[r].accessToken in access ==>
      access[refresh[r].accessToken].BelongsTo(refresh[r].user, refresh[r].client)
  }

  ghost predicate PendingOwnersAgree(access: map<Id, Token>, pending: map<Id, Pending>) {
    forall a :: a in pending && a in access ==>
      access[a].BelongsTo(pending[a].grant.req.subject, pending[a].grant.req.client)
  }

  ghost predicate LinkInv(t: TokenTables, accessIds: set<Id>, pending: map<Id, Pending>) {
    && LinksAreSound(t.refresh, accessIds, pending)
    && LinksAreDistinct(t.refresh)
    && LinkedOwnersAgree(t.access, t.refresh)
    && PendingOwnersAgree(t.access, pending)
  }

  ghost predicate TokenInv(w: World) {
    && SeparateIds(w)
    && LinkInv(w.tokens, w.accessIds, w.pending)
  }

  /** The tables only lost entries. */
  ghost predicate Shrunk(t: TokenTables, t': TokenTables) {
    && (forall a :: a in t'.access ==> a in t.access && t'.access[a] == t.access[a])
    && (forall r :: r in t'.refresh ==> r in t.refresh && t'.refresh[r] == t.refresh[r])
  }

  lemma {:induction false} ShrinkingKeepsLinks(t: TokenTables, t': TokenTables, ids: set<Id>, pending: map<Id, Pending>)
    requires LinkInv(t, ids, pending) && Shrunk(t, t')
    ensures LinkInv(t', ids, pending)
    ensures t'.access.Keys <= t.access.Keys && t'.refresh.Keys <= t.refresh.Keys
  {
  }

  lemma {:induction false} ShrinkingKeepsInv(w: World, t': TokenTables)
    requires TokenInv(w) && Shrunk(w.tokens, t')
    ensures TokenInv(w.(tokens := t'))
  {
    ShrinkingKeepsLinks(w.tokens, t', w.accessIds, w.pending);
  }

  /** A fresh access token is linked to no refresh token. */
  lemma {:induction false} AddAccessKeepsLinks(t: TokenTables, ids: set<Id>, pending: map<Id, Pending>,
                                               a: Id, g: Grant, p: Option<Id>, e: Time)
    requires LinkInv(t, ids, pending) && a !in ids && pending.Keys <= ids
    ensures LinkInv(AddAccess(t, a, g.req, g.cnf, e), ids + {a}, pending)
    ensures LinkInv(AddAccess(t, a, g.req, g.cnf, e), ids + {a}, pending[a := Pending(g, p)])
  {
    var t' := AddAccess(t, a, g.req, g.cnf, e);
    assert forall x :: x in t'.access && x != a ==> x in t.access && t'.access[x] == t.access[x];
  }

  lemma {:induction false} BeginKeepsInv(w: World, a: Id, g: Grant, p: Option<Id>, held: bool)
    requires TokenInv(w) && w.Fresh(a)
    ensures TokenInv(if held then BeginStep(w, a, g).(pending := w.pending[a := Pending(g, p)]) else BeginStep(w, a, g))
  {
    AddAccessKeepsLinks(w.tokens, w.accessIds, w.pending, a, g, p, w.now + TOKEN_TTL);
  }

  lemma {:induction false} AddRefreshKeepsLinks(t: TokenTables, ids: set<Id>, pending: map<Id, Pending>,
                                                a: Id, r: Id, now: Time, later: Time)
    requires a in pending && a in ids && r !in t.refresh && LinkInv(t, ids, pending)
    ensures LinkInv(AddRefresh(t, r, a, pending[a].grant.req, pending[a].grant.cnf, now, later), ids, pending - {a})
  {
    var t' := AddRefresh(t, r, a, pending[a].grant.req, pending[a].grant.cnf, now, later);
    assert t'.access == t.access && t'.refresh[r].accessToken == a;
    assert forall x :: x in t'.refresh && x != r ==>
      x in t.refresh && t'.refresh[x] == t.refresh[x] && t.refresh[x].accessToken != a;
  }

  lemma {:induction false} EndKeepsInv(w: World, a: Id, r: Id, later: Time)
    requires TokenInv(w) && a in w.pending && w.Fresh(r)
    ensures TokenInv(EndStep(w, a, r, later))
  {
    AddRefreshKeepsLinks(w.tokens, w.accessIds, w.pending, a, r, w.now, later);
  }

  lemma {:induction false} SetCnfKeepsInv(w: World, a: Id, cnf: Option<Confirmation>)
    requires TokenInv(w)
    ensures TokenInv(w.(tokens := SetCnf(w.tokens, a, cnf).0))
  {
    var t, t' := w.tokens, SetCnf(w.tokens, a, cnf).0;
    assert t'.access.Keys == t.access.Keys && t'.refresh == t.refresh;
    assert forall x, u, c :: x in t'.access ==> t'.access[x].BelongsTo(u, c) == t.access[x].BelongsTo(u, c);
  }

  lemma {:induction false} StepKeepsTokenInv(w: World, op: Op)
    requires TokenInv(w)
    ensures TokenInv(Step(w, op))
  {
    match op
    case Tick(_) =>
    case NewRequest(_, _) =>
    case SaveAuthCode(_, _) =>
    case RedeemCode(_) =>
    case DeleteAuthRequest(_) =>
    case TrackToken(id, a) => ShrinkingKeepsInv(w, Track(w.tokens, id, a));
    case IssueAccess(a, g) => if w.Fresh(a) { BeginKeepsInv(w, a, g, None, false); }
    case BeginPair(a, g, p) =>
      if w.Fresh(a) && (p.Some? ==> p.value in w.family) {
        BeginKeepsInv(w, a, g, p, true);
      }
    case EndPair(a, r, lag) => if a in w.pending && w.Fresh(r) { EndKeepsInv(w, a, r, w.now + lag); }
    case SetTokenCnf(a, cnf) => SetCnfKeepsInv(w, a, cnf);
    case _ => LosingKeepsInv(w, op);
  }

  predicate Loses(op: Op) {
    op.ReuseDetected? || op.Retire? || op.RevokeToken? || op.TerminateSession?
  }

  lemma {:induction false} LosingShrinks(w: World, op: Op)
    requires Loses(op)
    ensures Shrunk(w.tokens, Step(w, op).tokens)
    ensures Step(w, op) == w.(tokens := Step(w, op).tokens, retiring := Step(w, op).retiring)
  {
    if op.ReuseDetected? {
      if op.code in w.codes.usedCodes {
        assert Shrunk(w.tokens, RevokeForRequest(w.tokens, w.codes.usedCodes[op.code]));
      }
    } else if op.Retire? {
      if op.accessId in w.retiring {
        assert Shrunk(w.tokens, DropRefresh(w.tokens, w.retiring[op.accessId]));
      }
    } else if op.RevokeToken? {
      assert Shrunk(w.tokens, Revoke(w.tokens, op.id, op.client).0);
    } else {
      assert Shrunk(w.tokens, Terminate(w.tokens, op.user, op.client));
    }
  }

  lemma {:induction false} LosingKeepsInv(w: World, op: Op)
    requires TokenInv(w) && Loses(op)
    ensures TokenInv(Step(w, op))
  {
    LosingShrinks(w, op);
    ShrinkingKeepsInv(w, Step(w, op).tokens);
  }

  lemma {:induction false} RunKeepsTokenInv(ops: seq<Op>)
    ensures TokenInv(Run(ops))
  {
    if ops != [] {
      RunKeepsTokenInv(ops[..|ops| - 1]);
      StepKeepsTokenInv(Run(ops[..|ops| - 1]), ops[|ops| - 1]);
    }
  }

  // ---------------------------------------------------------------------------------------------
  // What revocation does to introspection
  // ---------------------------------------------------------------------------------------------

  /** In a reachable state introspection has one answer, whatever order the map is ranged over. */
  lemma {:induction false} IntrospectionIsUnique(w: World, id: Id, x: Option<Introspection>, y: Option<Introspection>)
    requires TokenInv(w) && IsIntrospection(w.tokens, id, x) && IsIntrospection(w.tokens, id, y)
    ensures x == y
  {
  }

  ghost predicate OwnedBy(t: TokenTables, id: Id, user: UserId, client: ClientId) {
    if id in t.access then t.access[id].BelongsTo(user, client)
    else exists r :: StandsIn(t, r, id) && t.refresh[r].BelongsTo(user, client)
  }

  /** The client is on the back-channel logout list of the user. */
  ghost predicate Notified(t: TokenTables, user: UserId, client: ClientId) {
    user in t.clientSessions && client in t.clientSessions[user]
  }

  /**
   Introspection after losing entries: an id whose entries all went is inactive, and one whose entries
   all stayed is unchanged.
   */
  lemma {:induction false} IntrospectionAfterLoss(t: TokenTables, t': TokenTables, id: Id, gone: bool)
    requires Shrunk(t, t')
    requires gone ==> id !in t'.access && forall r :: StandsIn(t, r, id) ==> r !in t'.refresh
    requires !gone ==> (id in t.access ==> id in t'.access) && forall r :: StandsIn(t, r, id) ==> r in t'.refresh
    ensures forall a :: IsIntrospection(t', id, a) <==> if gone then a == None else IsIntrospection(t, id, a)
  {
    assert forall r :: StandsIn(t', r, id) ==> StandsIn(t, r, id);
    assert forall r :: StandsIn(t, r, id) && r in t'.refresh ==> StandsIn(t', r, id);
  }

  /**
   Reuse of a code (section 4.1.2 of RFC 6749): exactly the tokens tracked for its request become
   inactive, refresh tokens linked to them included; every other answer stays as it was.
   */
  lemma {:induction false} ReuseRevokesExactlyTracked(w: World, code: Code, id: Id)
    requires TokenInv(w) && code in w.codes.usedCodes
    ensures var tracked := TrackedTokens(w.tokens, w.codes.usedCodes[code]);
            var t' := Step(w, ReuseDetected(code)).tokens;
            && (forall a :: IsIntrospection(t', id, a) <==>
                  if id in tracked then a == None else IsIntrospection(w.tokens, id, a))
            && (forall r :: r in t'.refresh <==> r in w.tokens.refresh && w.tokens.refresh[r].accessToken !in tracked)
  {
    var t' := Step(w, ReuseDetected(code)).tokens;
    IntrospectionAfterLoss(w.tokens, t', id, id in TrackedTokens(w.tokens, w.codes.usedCodes[code]));
  }

  /** Revoking one's own refresh token silences it and its access token, and nothing else (section 2.1 of RFC 7009). */
  lemma {:induction false} RevokingRefreshCascades(w: World, r: Id, id: Id)
    requires TokenInv(w) && r in w.tokens.refresh
    ensures var rt := w.tokens.refresh[r];
            var (t', ok) := Revoke(w.tokens, r, rt.client);
            && ok && t'.refresh == w.tokens.refresh - {r}
            && (forall a :: IsIntrospection(t', id, a) <==>
                  if id == rt.accessToken then a == None else IsIntrospection(w.tokens, id, a))
  {
    var rt := w.tokens.refresh[r];
    IntrospectionAfterLoss(w.tokens, Revoke(w.tokens, r, rt.client).0, id, id == rt.accessToken);
  }

  /**
   Revoking an access token on its own makes it inactive exactly when no refresh record is linked to
   it: introspection falls back on such a record.
   */
  lemma {:induction false} RevokedAccessStaysActiveWhileLinked(w: World, id: Id)
    requires TokenInv(w) && id in w.tokens.access
    ensures var (t', ok) := Revoke(w.tokens, id, w.tokens.access[id].client);
            && ok && id !in t'.access && t'.refresh == w.tokens.refresh
            && (Active(t', id) <==> exists r :: r in w.tokens.refresh && w.tokens.refresh[r].accessToken == id)
  {
    var t' := Revoke(w.tokens, id, w.tokens.access[id].client).0;
    assert forall r :: StandsIn(t', r, id) <==> r in w.tokens.refresh && w.tokens.refresh[r].accessToken == id;
  }

  /** Whoever asks for someone else's live token, or for an unknown one, changes nothing. */
  lemma {:induction false} OnlyTheOwnerRevokes(w: World, id: Id, client: ClientId)
    requires TokenInv(w)
    ensures var (t', ok) := Revoke(w.tokens, id, client);
            && (!ok <==> (id in w.tokens.access && w.tokens.access[id].client != client) ||
                         (id in w.tokens.refresh && w.tokens.refresh[id].client != client))
            && (!ok || (id !in w.tokens.access && id !in w.tokens.refresh) ==> t' == w.tokens)
  {
  }

  /**
   Ending a session silences exactly the tokens of that user at that client: an access token with a
   matching owner never survives through its refresh record, because linked owners agree.
   */
  lemma {:induction false} TerminationSilencesExactlyTheOwner(w: World, user: UserId, client: ClientId, id: Id)
    requires TokenInv(w)
    ensures var t' := Terminate(w.tokens, user, client);
            && (forall a :: IsIntrospection(t', id, a) <==>
                  if OwnedBy(w.tokens, id, user, client) then a == None else IsIntrospection(w.tokens, id, a))
            && (forall s :: s in t'.sessions <==> s in w.tokens.sessions && w.tokens.sessions[s].subject != user)
            && (forall u, c :: Notified(t', u, c) <==> Notified(w.tokens, u, c) && !(u == user && c == client))
            && (forall r :: r in t'.refresh <==> r in w.tokens.refresh && !w.tokens.refresh[r].BelongsTo(user, client))
  {
    var t' := Terminate(w.tokens, user, client);
    IntrospectionAfterLoss(w.tokens, t', id, OwnedBy(w.tokens, id, user, client));
    if user in w.tokens.clientSessions {
      var rest := w.tokens.clientSessions[user] - {client};
      assert forall c :: c in rest <==> c in w.tokens.clientSessions[user] && c != client;
    }
  }

  /** A user's list of logged-in clients goes with its last client, and no other user's list changes. */
  lemma {:induction false} EmptiedListsAreDropped(cs: map<UserId, map<ClientId, Id>>, user: UserId,
                                                  client: ClientId, u: UserId)
    ensures var cs' := RemoveClient(cs, user, client);
            && (u != user ==> (u in cs' <==> u in cs) && (u in cs ==> cs'[u] == cs[u]))
            && (u == user && user in cs ==> (user in cs' <==> exists c :: c in cs[user] && c != client))
            && (u == user && user in cs' ==> user in cs && cs'[user] == cs[user] - {client})
  {
    if user in cs {
      var rest := cs[user] - {client};
      if c :| c in cs[user] && c != client {
        assert c in rest;
      } else {
        assert forall c :: c !in rest;
      }
    }
  }

  /**
   A fresh pair introspects as it was granted; once the access token alone is revoked, the refresh
   record answers in its place, with its own expiration and without the confirmation.
   */
  lemma {:induction false} PairIntrospectsAsGranted(t: TokenTables, a: Id, r: Id, g: Grant, at: Readings)
    requires forall x :: x in t.refresh ==> t.refresh[x].token != a
    ensures var t' := IssuePair(t, a, r, g.req, g.cnf, at, None);
            var q := g.req;
            var e, e' := at.access + 3600 * 1_000_000_000, at.refresh + 24 * 3600 * 1_000_000_000;
            && (forall x :: IsIntrospection(t', a, x) <==>
                  x == Some(Introspection(q.client, q.subject, q.audience, q.scopes, e, e, g.cnf)))
            && (forall x :: IsIntrospection(Revoke(t', a, q.client).0, a, x) <==>
                  x == Some(Introspection(q.client, q.subject, q.audience, q.scopes, e', e', None)))
            && t'.access[a].claims == q.claims && t'.refresh[r].authTime == at.auth
            && t'.refresh[r].dpopJKT == (if g.cnf.Some? then g.cnf.value.jkt else None)
  {
    var t' := IssuePair(t, a, r, g.req, g.cnf, at, None);
    var t'' := Revoke(t', a, g.req.client).0;
    assert StandsIn(t'', r, a);
    assert forall x :: StandsIn(t'', x, a) ==> x == r;
  }

  /** Binding a token to a key shows in its introspection and nowhere else. */
  lemma {:induction false} ConfirmationShows(w: World, a: Id, cnf: Option<Confirmation>, id: Id)
    requires a in w.tokens.access
    ensures var t' := Step(w, SetTokenCnf(a, cnf)).tokens;
            && SetCnf(w.tokens, a, cnf).1
            && forall x :: IsIntrospection(t', id, x) <==>
                 if id == a then x == Some(FromAccess(w.tokens.access[a]).(cnf := cnf))
                 else IsIntrospection(w.tokens, id, x)
  {
    var t' := Step(w, SetTokenCnf(a, cnf)).tokens;
    assert forall r :: StandsIn(t', r, id) <==> StandsIn(w.tokens, r, id);
  }

  // ---------------------------------------------------------------------------------------------
  // Which tokens stay dead
  // ---------------------------------------------------------------------------------------------

  /** Inactive, not between the first two sections of a pair, and no longer available as a new id. */
  ghost predicate Dead(w: World, id: Id) {
    id !in w.pending && !w.Fresh(id) && !Active(w.tokens, id)
  }

  /** In no continuation is the id ever active again. */
  ghost predicate Silent(w: World, id: Id) {
    forall more :: !Active(RunFrom(w, more).tokens, id)
  }

  predicate Issues(op: Op) {
    op.IssueAccess? || op.BeginPair? || op.EndPair?
  }

  lemma {:induction false} IssuingKeepsDead(w: World, op: Op, id: Id)
    requires Dead(w, id) && Issues(op)
    ensures Dead(Step(w, op), id)
  {
    assert forall r :: StandsIn(Step(w, op).tokens, r, id) ==> StandsIn(w.tokens, r, id);
  }

  lemma {:induction false} NothingIsIssued(w: World, op: Op)
    requires !Issues(op)
    ensures var w' := Step(w, op);
            && w'.tokens.access.Keys <= w.tokens.access.Keys
            && (forall r :: r in w'.tokens.refresh ==>
                  r in w.tokens.refresh && w'.tokens.refresh[r] == w.tokens.refresh[r])
  {
    if Loses(op) {
      LosingShrinks(w, op);
    } else {
      assert Step(w, op).tokens.refresh == w.tokens.refresh;
    }
  }

  lemma {:induction false} DeadStaysDead(w: World, op: Op, id: Id)
    requires Dead(w, id)
    ensures Dead(Step(w, op), id)
  {
    if Issues(op) {
      IssuingKeepsDead(w, op, id);
    } else {
      NothingIsIssued(w, op);
      assert forall r :: StandsIn(Step(w, op).tokens, r, id) ==> StandsIn(w.tokens, r, id);
    }
  }

  lemma {:induction false} DeadForEver(w: World, ops: seq<Op>, id: Id)
    requires Dead(w, id)
    ensures Dead(RunFrom(w, ops), id)
    decreases |ops|
  {
    if ops != [] {
      DeadStaysDead(w, ops[0], id);
      DeadForEver(Step(w, ops[0]), ops[1..], id);
    }
  }

  lemma {:induction false} DeadIsSilent(w: World, id: Id)
    requires Dead(w, id)
    ensures Silent(w, id)
  {
    forall more ensures !Active(RunFrom(w, more).tokens, id) {
      DeadForEver(w, more, id);
    }
  }

  lemma OneStep(w: World, op: Op)
    ensures RunFrom(w, [op]) == Step(w, op)
  {
    assert [op][1..] == [];
  }

  /** The second section of a pair makes the id of its access token active, whatever became of that token. */
  lemma {:induction false} SecondSectionRevives(w: World, a: Id, r: Id, lag: nat)
    requires a in w.pending && w.Fresh(r)
    ensures Active(Step(w, EndPair(a, r, lag)).tokens, a)
  {
    assert StandsIn(Step(w, EndPair(a, r, lag)).tokens, r, a);
  }

  /** Dead is exactly what never comes back, as long as UUIDs do not run out. */
  lemma {:induction false} SilentExactlyWhenDead(w: World, id: Id, r: Id, g: Grant)
    requires w.Fresh(r) && r != id
    ensures Silent(w, id) <==> Dead(w, id)
  {
    if Dead(w, id) {
      DeadIsSilent(w, id);
    } else if Active(w.tokens, id) {
      assert RunFrom(w, []) == w;
    } else if id in w.pending {
      OneStep(w, EndPair(id, r, 0));
      SecondSectionRevives(w, id, r, 0);
    } else {
      OneStep(w, IssueAccess(id, g));
    }
  }

  lemma {:induction false} PendingIsNotSilent(w: World, id: Id, r: Id)
    requires id in w.pending && w.Fresh(r)
    ensures !Silent(w, id)
  {
    OneStep(w, EndPair(id, r, 0));
    SecondSectionRevives(w, id, r, 0);
  }

  /**
   After a reuse of a used code a tracked id is inactive in every continuation, if and only if it has
   been issued and is not between the two sections of a pair.
   */
  lemma {:induction false} ReuseIsFinal(ops: seq<Op>, code: Code, id: Id, r: Id, g: Grant)
    requires var w := Run(ops); code in w.codes.usedCodes && id in TrackedTokens(w.tokens, w.codes.usedCodes[code])
    ensures var w := Run(ops);
            && (id !in w.pending && !w.Fresh(id) ==> Silent(Step(w, ReuseDetected(code)), id))
            && (w.Fresh(r) && r != id ==>
                  (Silent(Step(w, ReuseDetected(code)), id) <==> id !in w.pending && !w.Fresh(id)))
  {
    var w := Run(ops);
    var w' := Step(w, ReuseDetected(code));
    RunKeepsTokenInv(ops);
    ReuseRevokesExactlyTracked(w, code, id);
    assert IsIntrospection(w'.tokens, id, None);
    if Dead(w', id) {
      DeadIsSilent(w', id);
    }
    if w.Fresh(r) && r != id {
      SilentExactlyWhenDead(w', id, r, g);
    }
  }

  /** A refresh-token id that is not live and can no longer be drawn is refused in every continuation. */
  lemma {:induction false} RefreshGoneForEver(w: World, ops: seq<Op>, r: Id)
    requires !w.Fresh(r) && r !in w.tokens.refresh
    ensures !RunFrom(w, ops).Fresh(r) && r !in RunFrom(w, ops).tokens.refresh
    decreases |ops|
  {
    if ops != [] {
      RefreshGoneStaysGone(w, ops[0], r);
      RefreshGoneForEver(Step(w, ops[0]), ops[1..], r);
    }
  }

  lemma {:induction false} RefreshGoneStaysGone(w: World, op: Op, r: Id)
    requires !w.Fresh(r) && r !in w.tokens.refresh
    ensures !Step(w, op).Fresh(r) && r !in Step(w, op).tokens.refresh
  {
  }

  /** After its owner revokes a refresh token, neither it nor its access token is usable in any continuation. */
  lemma {:induction false} RevocationIsFinal(ops: seq<Op>, r: Id, more: seq<Op>)
    requires r in Run(ops).tokens.refresh
    ensures var rt := Run(ops).tokens.refresh[r];
            var later := RunFrom(Step(Run(ops), RevokeToken(r, rt.client)), more);
            r !in later.tokens.refresh && !Active(later.tokens, rt.accessToken)
  {
    var w := Run(ops);
    RunKeepsTokenInv(ops);
    var rt := w.tokens.refresh[r];
    var w' := Step(w, RevokeToken(r, rt.client));
    RevokingRefreshCascades(w, r, rt.accessToken);
    assert IsIntrospection(w'.tokens, rt.accessToken, None);
    RefreshGoneForEver(w', more, r);
    DeadForEver(w', more, rt.accessToken);
  }

  /**
   After its owner revokes an access token on its own, it is inactive in every continuation if and only
   if no refresh record is linked to it and none is about to be.
   */
  lemma {:induction false} RevokedAccessIsFinal(ops: seq<Op>, id: Id, r: Id)
    requires id in Run(ops).tokens.access && Run(ops).Fresh(r)
    ensures var w := Run(ops);
            Silent(Step(w, RevokeToken(id, w.tokens.access[id].client)), id) <==>
              id !in w.pending && forall x :: x in w.tokens.refresh ==> w.tokens.refresh[x].accessToken != id
  {
    var w := Run(ops);
    RunKeepsTokenInv(ops);
    var w' := Step(w, RevokeToken(id, w.tokens.access[id].client));
    RevokedAccessStaysActiveWhileLinked(w, id);
    if Active(w'.tokens, id) {
      assert RunFrom(w', []) == w';
    } else if id in w.pending {
      PendingIsNotSilent(w', id, r);
    } else {
      DeadIsSilent(w', id);
    }
  }

  /**
   After a session ends, a token id of that user at that client is inactive in every continuation, if and
   only if it is not between the two sections of a pair; the second section brings it back.
   */
  lemma {:induction false} TerminationIsFinal(ops: seq<Op>, user: UserId, client: ClientId, id: Id, r: Id)
    requires OwnedBy(Run(ops).tokens, id, user, client)
    ensures var w := Run(ops);
            var w' := Step(w, TerminateSession(user, client));
            && !Active(w'.tokens, id)
            && (id !in w.pending ==> Silent(w', id))
            && (w.Fresh(r) ==> (Silent(w', id) <==> id !in w.pending))
  {
    var w := Run(ops);
    RunKeepsTokenInv(ops);
    var w' := Step(w, TerminateSession(user, client));
    TerminationSilencesExactlyTheOwner(w, user, client, id);
    assert IsIntrospection(w'.tokens, id, None);
    if id !in w.pending {
      DeadIsSilent(w', id);
    } else if w.Fresh(r) {
      PendingIsNotSilent(w', id, r);
    }
  }

  /** A run in which a token issued before the end of the session is active after it. */
  lemma {:induction false} LoggedOutTokenComesBack(a: Id, r: Id, g: Grant)
    requires a != r
    ensures var user, client := g.req.subject, g.req.client;
            var begun := Step(START, BeginPair(a, g, None));
            var ended := Step(begun, TerminateSession(user, client));
            && OwnedBy(begun.tokens, a, user, client)
            && !Active(ended.tokens, a)
            && Active(Step(ended, EndPair(a, r, 0)).tokens, a)
  {
    var begun := Step(START, BeginPair(a, g, None));
    SecondSectionRevives(Step(begun, TerminateSession(g.req.subject, g.req.client)), a, r, 0);
  }

  // ---------------------------------------------------------------------------------------------
  // What kills a token
  // ---------------------------------------------------------------------------------------------

  /** The causes of death of an active token, told from the state before and the operation alone. */
  ghost predicate Kills(w: World, op: Op, id: Id) {
    match op
    case ReuseDetected(code) =>
      code in w.codes.usedCodes && id in TrackedTokens(w.tokens, w.codes.usedCodes[code])
    case RevokeToken(x, client) =>
      if x in w.tokens.access then x == id && w.tokens.access[x].client == client && !Linked(w.tokens, id)
      else StandsIn(w.tokens, x, id) && w.tokens.refresh[x].client == client
    case TerminateSession(user, client) => OwnedBy(w.tokens, id, user, client)
    case Retire(a) => a in w.retiring && StandsIn(w.tokens, w.retiring[a], id) && id !in w.tokens.access
    case _ => false
  }

  lemma {:induction false} RevokingKillsExactly(w: World, x: Id, client: ClientId, id: Id)
    requires TokenInv(w) && Active(w.tokens, id)
    ensures !Active(Step(w, RevokeToken(x, client)).tokens, id) <==> Kills(w, RevokeToken(x, client), id)
  {
    var t, t' := w.tokens, Revoke(w.tokens, x, client).0;
    if x !in t.access && x in t.refresh && t.refresh[x].client == client {
      RevokingRefreshCascades(w, x, id);
      assert !Active(t', id) <==> IsIntrospection(t', id, None);
      assert StandsIn(t, x, id) <==> id == t.refresh[x].accessToken;
    } else {
      assert t'.refresh == t.refresh;
      assert forall r :: StandsIn(t', r, id) <==> StandsIn(t, r, id);
    }
  }

  lemma {:induction false} RetiringKillsExactly(w: World, a: Id, id: Id)
    requires TokenInv(w) && Active(w.tokens, id)
    ensures !Active(Step(w, Retire(a)).tokens, id) <==> Kills(w, Retire(a), id)
  {
    var t' := Step(w, Retire(a)).tokens;
    if a in w.retiring {
      assert forall r :: StandsIn(t', r, id) <==> StandsIn(w.tokens, r, id) && r != w.retiring[a];
    }
  }

  lemma {:induction false} OtherOpsKillNothing(w: World, op: Op, id: Id)
    requires TokenInv(w) && Active(w.tokens, id)
    requires !op.ReuseDetected? && !op.RevokeToken? && !op.TerminateSession? && !op.Retire?
    ensures Active(Step(w, op).tokens, id)
  {
    var t' := Step(w, op).tokens;
    if id !in w.tokens.access {
      var r :| StandsIn(w.tokens, r, id);
      assert StandsIn(t', r, id);
    }
  }

  /** One step makes an active token inactive for exactly these causes. */
  lemma {:induction false} KillsExactly(w: World, op: Op, id: Id)
    requires TokenInv(w) && Active(w.tokens, id)
    ensures !Active(Step(w, op).tokens, id) <==> Kills(w, op, id)
  {
    var w' := Step(w, op);
    match op
    case ReuseDetected(code) =>
      if code in w.codes.usedCodes {
        ReuseRevokesExactlyTracked(w, code, id);
        assert !Active(w'.tokens, id) <==> IsIntrospection(w'.tokens, id, None);
      }
    case TerminateSession(user, client) =>
      TerminationSilencesExactlyTheOwner(w, user, client, id);
      assert !Active(w'.tokens, id) <==> IsIntrospection(w'.tokens, id, None);
    case RevokeToken(x, client) => RevokingKillsExactly(w, x, client, id);
    case Retire(a) => RetiringKillsExactly(w, a, id);
    case _ => OtherOpsKillNothing(w, op, id);
  }

  ghost predicate KilledWithin(w: World, ops: seq<Op>, id: Id)
    decreases |ops|
  {
    ops != [] && (Kills(w, ops[0], id) || KilledWithin(Step(w, ops[0]), ops[1..], id))
  }

  /** An active token that is not half issued is inactive after a run exactly if one of the causes struck in it. */
  lemma {:induction false} InactiveExactlyWhenKilled(w: World, ops: seq<Op>, id: Id)
    requires TokenInv(w) && Active(w.tokens, id) && id !in w.pending
    ensures !Active(RunFrom(w, ops).tokens, id) <==> KilledWithin(w, ops, id)
    decreases |ops|
  {
    if ops != [] {
      var w' := Step(w, ops[0]);
      KillsExactly(w, ops[0], id);
      StepKeepsTokenInv(w, ops[0]);
      ActiveIsIssued(w, id);
      NotPendingStays(w, ops[0], id);
      if Active(w'.tokens, id) {
        InactiveExactlyWhenKilled(w', ops[1..], id);
      } else {
        DeadForEver(w', ops[1..], id);
      }
    }
  }

  lemma {:induction false} ActiveIsIssued(w: World, id: Id)
    requires TokenInv(w) && Active(w.tokens, id)
    ensures id in w.accessIds
  {
  }

  lemma {:induction false} NotPendingStays(w: World, op: Op, id: Id)
    requires id in w.accessIds && id !in w.pending
    ensures id in Step(w, op).accessIds && id !in Step(w, op).pending
  {
  }

  lemma {:induction false} PairTradesRefreshTokens(t: TokenTables, current: Id, a: Id, r: Id, g: Grant, at: Readings)
    requires current in t.refresh && r !in t.refresh
    ensures var t' := IssuePair(t, a, r, g.req, g.cnf, at, Some(current));
            && t'.refresh.Keys == t.refresh.Keys - {current} + {r} && |t'.refresh| == |t.refresh|
            && t'.refresh[r].accessToken == a && t'.refresh[r].token == a
            && t'.refresh[r].BelongsTo(g.req.subject, g.req.client)
            && (forall x :: x in t.refresh && x != current ==> t'.refresh[x] == t.refresh[x])
            && t'.access.Keys == t.access.Keys + {a} && t'.access[a].BelongsTo(g.req.subject, g.req.client)
  {
    var t' := IssuePair(t, a, r, g.req, g.cnf, at, Some(current));
    assert t'.refresh.Keys == t.refresh.Keys - {current} + {r};
    assert |t'.refresh.Keys| == |t.refresh.Keys|;
  }
}
