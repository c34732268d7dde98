/**
 A replayed authorization code, end to end (section 4.1.2 of RFC 6749): the code tables and the token
 tables together.
 */
module ReplayRuns {
  import opened Basics
  import opened StoreModel
  import opened StoreRuns
  import CodeRuns
  import TokenRuns

  /** A tracked token is still on its request's list, or has died already. */
  ghost predicate TrackedOrDead(w: World, id: Id, tokenId: Id) {
    tokenId in TrackedTokens(w.tokens, id) || TokenRuns.Dead(w, tokenId)
  }

  ghost predicate Settled(w: World, tokenId: Id) {
    tokenId in w.accessIds && tokenId !in w.pending
  }

  lemma {:induction false} SettledStaysSettled(w: World, op: Op, tokenId: Id)
    requires Settled(w, tokenId)
    ensures Settled(Step(w, op), tokenId)
  {
  }

  /** Only a detected reuse takes tokens off a request's list. */
  lemma {:induction false} ListsOnlyGrow(w: World, op: Op, id: Id, tokenId: Id)
    requires !op.ReuseDetected? && tokenId in TrackedTokens(w.tokens, id)
    ensures tokenId in TrackedTokens(Step(w, op).tokens, id)
  {
  }

  lemma {:induction false} StepKeepsTrackedOrDead(w: World, op: Op, id: Id, tokenId: Id)
    requires TokenRuns.TokenInv(w) && Settled(w, tokenId) && TrackedOrDead(w, id, tokenId)
    ensures TrackedOrDead(Step(w, op), id, tokenId)
  {
    if TokenRuns.Dead(w, tokenId) {
      TokenRuns.DeadStaysDead(w, op, tokenId);
    } else if !op.ReuseDetected? {
      ListsOnlyGrow(w, op, id, tokenId);
    } else if op.code in w.codes.usedCodes && w.codes.usedCodes[op.code] == id {
      ReuseKills(w, op.code, tokenId);
    }
  }

  lemma {:induction false} ReuseKills(w: World, code: Code, tokenId: Id)
    requires TokenRuns.TokenInv(w) && Settled(w, tokenId) && code in w.codes.usedCodes
    requires TrackedOrDead(w, w.codes.usedCodes[code], tokenId)
    ensures TokenRuns.Dead(Step(w, ReuseDetected(code)), tokenId)
  {
    if TokenRuns.Dead(w, tokenId) {
      TokenRuns.DeadStaysDead(w, ReuseDetected(code), tokenId);
    } else {
      TokenRuns.ReuseRevokesExactlyTracked(w, code, tokenId);
      assert IsIntrospection(Step(w, ReuseDetected(code)).tokens, tokenId, None);
    }
  }

  /** A redeemed code stays in the table of used codes, under the request it was saved for. */
  ghost predicate RedeemedFor(w: World, code: Code, id: Id) {
    code in w.history.redeemed && code in w.history.saved && w.history.saved[code].id == id
  }

  lemma {:induction false} StepKeepsRedeemedFor(w: World, op: Op, code: Code, id: Id)
    requires RedeemedFor(w, code, id)
    ensures RedeemedFor(Step(w, op), code, id)
  {
    if CodeRuns.IsTokenOp(op) {
      CodeRuns.TokenOpsLeaveCodes(w, op);
    }
  }

  lemma {:induction false} AllKept(w: World, ops: seq<Op>, code: Code, id: Id, tokenId: Id)
    requires TokenRuns.TokenInv(w) && CodeRuns.CodeInv(w)
    requires RedeemedFor(w, code, id) && Settled(w, tokenId) && TrackedOrDead(w, id, tokenId)
    ensures var w' := RunFrom(w, ops);
            && TokenRuns.TokenInv(w') && CodeRuns.CodeInv(w')
            && RedeemedFor(w', code, id) && Settled(w', tokenId) && TrackedOrDead(w', id, tokenId)
    decreases |ops|
  {
    if ops != [] {
      TokenRuns.StepKeepsTokenInv(w, ops[0]);
      CodeRuns.StepKeepsCodeInv(w, ops[0]);
      StepKeepsRedeemedFor(w, ops[0], code, id);
      SettledStaysSettled(w, ops[0], tokenId);
      StepKeepsTrackedOrDead(w, ops[0], id, tokenId);
      AllKept(Step(w, ops[0]), ops[1..], code, id, tokenId);
    }
  }

  lemma {:induction false} DeadHasNoLink(w: World, tokenId: Id)
    requires TokenRuns.TokenInv(w) && TokenRuns.Dead(w, tokenId)
    ensures forall r :: r in w.tokens.refresh ==> w.tokens.refresh[r].accessToken != tokenId
  {
    forall r | r in w.tokens.refresh ensures w.tokens.refresh[r].accessToken != tokenId {
      assert !StandsIn(w.tokens, r, tokenId);
    }
  }

  /**
   Let a code be redeemed, a token issued and tracked for its request, and anything at all happen.
   When the code is then presented again, redemption is refused, and after the revocation that follows
   the token is inactive in every continuation; so is every refresh token linked to it.
   */
  lemma {:induction false} ReplayKillsTheTokensOfTheCode(ops: seq<Op>, code: Code, tokenId: Id,
                                                         between: seq<Op>, more: seq<Op>)
    requires code in Run(ops).history.redeemed && Settled(Run(ops), tokenId)
    ensures code in Run(ops).history.saved
    ensures var tracked := Step(Run(ops), TrackToken(Run(ops).history.saved[code].id, tokenId));
            var replayed := RunFrom(tracked, between);
            var revoked := Step(replayed, ReuseDetected(code));
            && Redeem(replayed.codes, code, replayed.now).1 == AlreadyUsed
            && (forall r :: r in revoked.tokens.refresh ==> revoked.tokens.refresh[r].accessToken != tokenId)
            && !Active(RunFrom(revoked, more).tokens, tokenId)
  {
    CodeRuns.RunKeepsCodeInv(ops);
    TokenRuns.RunKeepsTokenInv(ops);
    var w := Run(ops);
    var id := w.history.saved[code].id;
    var tracked := Step(w, TrackToken(id, tokenId));
    TokenRuns.StepKeepsTokenInv(w, TrackToken(id, tokenId));
    AllKept(tracked, between, code, id, tokenId);
    var replayed := RunFrom(tracked, between);
    ReuseKills(replayed, code, tokenId);
    var revoked := Step(replayed, ReuseDetected(code));
    TokenRuns.StepKeepsTokenInv(replayed, ReuseDetected(code));
    TokenRuns.DeadForEver(revoked, more, tokenId);
    DeadHasNoLink(revoked, tokenId);
  }

  /**
   A replay that strikes before the token is tracked misses it: right after the revocation an issued
   token is silent for ever if and only if it was on the list of the code's request, or inactive already.
   */
  lemma {:induction false} ReplayKillsExactlyTheTracked(ops: seq<Op>, code: Code, tokenId: Id)
    requires code in Run(ops).codes.usedCodes && Settled(Run(ops), tokenId)
    ensures var w := Run(ops);
            TokenRuns.Silent(Step(w, ReuseDetected(code)), tokenId) <==>
              tokenId in TrackedTokens(w.tokens, w.codes.usedCodes[code]) || !Active(w.tokens, tokenId)
  {
    var w := Run(ops);
    var w' := Step(w, ReuseDetected(code));
    TokenRuns.RunKeepsTokenInv(ops);
    if Active(w.tokens, tokenId) {
      TokenRuns.KillsExactly(w, ReuseDetected(code), tokenId);
    } else {
      TokenRuns.DeadStaysDead(w, ReuseDetected(code), tokenId);
    }
    if TokenRuns.Dead(w', tokenId) {
      TokenRuns.DeadIsSilent(w', tokenId);
    } else {
      assert RunFrom(w', []) == w';
    }
  }

  /** A run in which a code is saved and redeemed. */
  function RedeemedRun(id: Id, request: AuthRequest, code: Code): World {
    Step(Step(Step(START, NewRequest(id, request)), SaveAuthCode(id, code)), RedeemCode(code))
  }

  lemma {:induction false} RedeemedRunState(id: Id, request: AuthRequest, code: Code)
    ensures var w := RedeemedRun(id, request, code);
            && w.codes.usedCodes == map[code := id] && code !in w.codes.codeToAuthReq && w.tokens == NO_TOKENS
            && w.pending == map[] && w.retiring == map[] && w.accessIds == {} && w.family == map[]
            && w.history.requests == map[id := request]
  {
    var saved := Step(Step(START, NewRequest(id, request)), SaveAuthCode(id, code));
    assert saved.codes.codeToAuthReq[code] == id && saved.codes.codeCreatedAt[code] == 0;
  }

  lemma {:induction false} IssuedState(w: World, a: Id, r: Id, g: Grant)
    requires w.Fresh(a) && w.Fresh(r) && a != r
    ensures var issued := Step(Step(w, BeginPair(a, g, None)), EndPair(a, r, 0));
            && issued.codes == w.codes && issued.tokens.codeTokens == w.tokens.codeTokens
            && a in issued.tokens.access && r in issued.tokens.refresh
            && issued.tokens.refresh.Keys == w.tokens.refresh.Keys + {r} && issued.tokens.refresh[r].accessToken == a
  {
    var begun := Step(w, BeginPair(a, g, None));
    assert a in begun.pending && begun.Fresh(r);
  }

  /**
   The failing run: the code is presented again after a pair was issued for it and before the pair is
   tracked.  Both tokens of the pair outlive the replay.
   */
  lemma {:induction false} ReplayBeforeTracking(id: Id, request: AuthRequest, code: Code, a: Id, r: Id, g: Grant)
    requires id != a && id != r && a != r
    ensures var issued := Step(Step(RedeemedRun(id, request, code), BeginPair(a, g, None)), EndPair(a, r, 0));
            var replayed := Step(issued, ReuseDetected(code));
            var tracked := Step(replayed, TrackToken(id, a));
            && Redeem(issued.codes, code, issued.now).1 == AlreadyUsed
            && Active(tracked.tokens, a) && r in tracked.tokens.refresh
  {
    var w := RedeemedRun(id, request, code);
    RedeemedRunState(id, request, code);
    IssuedState(w, a, r, g);
    MissedReplay(Step(Step(w, BeginPair(a, g, None)), EndPair(a, r, 0)), code, id, a, r);
  }

  lemma {:induction false} MissedReplay(w: World, code: Code, id: Id, a: Id, r: Id)
    requires code !in w.codes.codeToAuthReq && code in w.codes.usedCodes && w.codes.usedCodes[code] == id
    requires id !in w.tokens.codeTokens && a in w.tokens.access && r in w.tokens.refresh
    ensures var tracked := Step(Step(w, ReuseDetected(code)), TrackToken(id, a));
            && Redeem(w.codes, code, w.now).1 == AlreadyUsed
            && Active(tracked.tokens, a) && r in tracked.tokens.refresh
  {
    var replayed := Step(w, ReuseDetected(code));
    assert a in replayed.tokens.access && r in replayed.tokens.refresh;
  }
}
