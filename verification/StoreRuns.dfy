/**
 Runs of the store: any sequence of its locked sections, with fresh UUIDs and codes and a clock that
 does not go back.  An operation whose freshness or hand-over condition fails changes nothing, so every
 list of operations is a run.

 `CreateAccessAndRefreshTokens` is its three separate lock sections, `BeginPair`, `EndPair` and `Retire`,
 which may be interleaved with anything, other rotations of the same refresh token included.
 */
module StoreRuns {
  import opened Basics
  import opened StoreModel

  datatype Saved = Saved(id: Id, at: Time)

  /**
   What has ever happened to codes and requests; nothing is removed from it.  `expired` holds the codes
   whose redemption was answered so, and `closed` those that went with their deleted request.
   */
  datatype History = History(
    saved: map<Code, Saved>, redeemed: set<Code>, expired: set<Code>, closed: set<Code>,
    requests: map<Id, AuthRequest>, deleted: set<Id>)

  datatype Grant = Grant(req: TokenRequest, cnf: Option<Confirmation>)

  /** A pair between its first and its second section; `presented` is the refresh token to be rotated. */
  datatype Pending = Pending(grant: Grant, presented: Option<Id>)

  /**
   The store with the book-keeping of a run.  `retiring` holds the rotations between their second and
   third section.  `parent` names, for every refresh token ever issued, the token that was presented for
   it, and `family` numbers the grant from which it descends by such presentations.
   */
  datatype World = World(
    codes: CodeTables, tokens: TokenTables, now: Time, history: History,
    accessIds: set<Id>, pending: map<Id, Pending>, retiring: map<Id, Id>,
    parent: map<Id, Option<Id>>, family: map<Id, nat>, families: nat)
  {
    predicate Fresh(id: Id) {
      id !in accessIds && id !in family && id !in history.requests
    }
  }

  const START := World(NO_CODES, NO_TOKENS, 0, History(map[], {}, {}, {}, map[], {}), {}, map[], map[], map[], map[], 0)

  datatype Op =
    | Tick(elapsed: nat)
    | NewRequest(id: Id, request: AuthRequest)
    | SaveAuthCode(id: Id, code: Code)
    | RedeemCode(code: Code)
    | DeleteAuthRequest(id: Id)
    | TrackToken(id: Id, tokenId: Id)
    | ReuseDetected(code: Code)
    | IssueAccess(accessId: Id, grant: Grant)
    | BeginPair(accessId: Id, grant: Grant, presented: Option<Id>)
    | EndPair(accessId: Id, refreshId: Id, lag: nat)
    | Retire(accessId: Id)
    | SetTokenCnf(accessId: Id, cnf: Option<Confirmation>)
    | RevokeToken(id: Id, client: ClientId)
    | TerminateSession(user: UserId, client: ClientId)

  function Step(w: World, op: Op): World {
    match op
    case Tick(d) => w.(now := w.now + d)
    case NewRequest(id, r) =>
      if w.Fresh(id)
      then w.(codes := w.codes.(authRequests := w.codes.authRequests[id := r]),
              history := w.history.(requests := w.history.requests[id := r]))
      else w
    case SaveAuthCode(id, code) =>
      if code in w.history.saved || id !in w.codes.authRequests then w
      else w.(codes := SaveCode(w.codes, id, code, w.now).0,
              history := w.history.(saved := w.history.saved[code := Saved(id, w.now)]))
    case RedeemCode(code) =>
      var r := Redeem(w.codes, code, w.now);
      w.(codes := r.0,
         history := if r.1.Redeemed? then w.history.(redeemed := w.history.redeemed + {code})
                    else if r.1.CodeExpired? then w.history.(expired := w.history.expired + {code})
                    else w.history)
    case DeleteAuthRequest(id) =>
      w.(codes := DeleteRequest(w.codes, id),
         history := w.history.(
           deleted := if id in w.history.requests then w.history.deleted + {id} else w.history.deleted,
           closed := if id in w.codes.authCodes then w.history.closed + {w.codes.authCodes[id]} else w.history.closed))
    case BeginPair(a, g, p) =>
      if w.Fresh(a) && (p.Some? ==> p.value in w.family)
      then BeginStep(w, a, g).(pending := w.pending[a := Pending(g, p)])
      else w
    case EndPair(a, r, lag) => if a in w.pending && w.Fresh(r) then EndStep(w, a, r, w.now + lag) else w
    case Retire(a) =>
      if a in w.retiring
      then w.(tokens := DropRefresh(w.tokens, w.retiring[a]), retiring := w.retiring - {a})
      else w
    case IssueAccess(a, g) => if w.Fresh(a) then BeginStep(w, a, g) else w
    case ReuseDetected(code) =>
      if code in w.codes.usedCodes then w.(tokens := RevokeForRequest(w.tokens, w.codes.usedCodes[code])) else w
    case TrackToken(id, tokenId) => w.(tokens := Track(w.tokens, id, tokenId))
    case SetTokenCnf(a, cnf) => w.(tokens := SetCnf(w.tokens, a, cnf).0)
    case RevokeToken(id, client) => w.(tokens := Revoke(w.tokens, id, client).0)
    case TerminateSession(user, client) => w.(tokens := Terminate(w.tokens, user, client))
  }

  function BeginStep(w: World, a: Id, g: Grant): World {
    w.(tokens := AddAccess(w.tokens, a, g.req, g.cnf, w.now + TOKEN_TTL), accessIds := w.accessIds + {a})
  }

  function EndStep(w: World, a: Id, r: Id, later: Time): World
    requires a in w.pending
  {
    var g, p := w.pending[a].grant, w.pending[a].presented;
    var rotates := p.Some? && p.value in w.family;
    w.(tokens := AddRefresh(w.tokens, r, a, g.req, g.cnf, w.now, later),
       pending := w.pending - {a},
       retiring := if rotates then w.retiring[a := p.value] else w.retiring,
       parent := w.parent[r := p],
       family := w.family[r := if rotates then w.family[p.value] else w.families],
       families := w.families + 1)
  }

  function Run(ops: seq<Op>): World {
    if ops == [] then START else Step(Run(ops[..|ops| - 1]), ops[|ops| - 1])
  }

  function RunFrom(w: World, ops: seq<Op>): World
    decreases |ops|
  {
    if ops == [] then w else RunFrom(Step(w, ops[0]), ops[1..])
  }
}
