/**
 The life of an authorization code (section 4.1.2 of RFC 6749): in every run the five code tables give
 the answers of a history that remembers every save, redemption and deletion.
 */
module CodeRuns {
  import opened Basics
  import opened StoreModel
  import opened StoreRuns

  /** The reference: may this code be redeemed now, and for which request? */
  ghost predicate Redeemable(h: History, code: Code, now: Time) {
    && code in h.saved && code !in h.redeemed
    && h.saved[code].id in h.requests && h.saved[code].id !in h.deleted
    && now - h.saved[code].at <= 60 * SECOND
  }

  /** The two directions of the code index and the table of creation times fit together. */
  ghost predicate Indexed(s: CodeTables) {
    && s.codeToAuthReq.Keys == s.codeCreatedAt.Keys
    && s.codeToAuthReq.Keys !! s.usedCodes.Keys
    && (forall id :: id in s.authCodes ==> s.authCodes[id] in s.codeToAuthReq && s.codeToAuthReq[s.authCodes[id]] == id)
  }

  ghost predicate LiveCodesAreInHistory(s: CodeTables, h: History) {
    forall c :: c in s.codeToAuthReq && c in s.codeCreatedAt ==>
      c in h.saved && h.saved[c] == Saved(s.codeToAuthReq[c], s.codeCreatedAt[c]) && c !in h.redeemed
  }

  ghost predicate HistoryIsInTheStore(s: CodeTables, h: History, now: Time) {
    && h.deleted <= h.requests.Keys && s.authRequests == h.requests - h.deleted
    && (forall c :: Redeemable(h, c, now) ==> c in s.codeToAuthReq)
    && (forall c :: c in h.saved ==> h.saved[c].id in h.requests)
  }

  ghost predicate UsedCodesAreInHistory(s: CodeTables, h: History) {
    && h.redeemed <= s.usedCodes.Keys
    && (forall c :: c in s.usedCodes ==>
          c in h.saved && s.usedCodes[c] == h.saved[c].id && (c in h.redeemed || h.saved[c].id in h.deleted))
  }

  /** A saved code is in exactly one place: live, used, or answered as expired. */
  ghost predicate EveryCodeIsAccounted(s: CodeTables, h: History) {
    && (forall c :: c in h.saved <==> c in s.codeToAuthReq || c in s.usedCodes || c in h.expired)
    && s.codeToAuthReq.Keys !! h.expired && s.usedCodes.Keys !! h.expired
    && (forall c :: c in s.usedCodes <==> c in h.redeemed || c in h.closed)
    && (forall c :: c in h.closed ==> c in h.saved && h.saved[c].id in h.deleted)
  }

  ghost predicate ExpiredCodesAreOld(h: History, now: Time) {
    forall c :: c in h.expired && c in h.saved ==> now - h.saved[c].at > 60 * SECOND
  }

  ghost predicate CodeInv(w: World) {
    && Indexed(w.codes)
    && LiveCodesAreInHistory(w.codes, w.history)
    && HistoryIsInTheStore(w.codes, w.history, w.now)
    && UsedCodesAreInHistory(w.codes, w.history)
    && EveryCodeIsAccounted(w.codes, w.history)
    && ExpiredCodesAreOld(w.history, w.now)
  }

  lemma {:induction false} SaveKeepsCodeInv(w: World, id: Id, code: Code)
    requires CodeInv(w)
    ensures CodeInv(Step(w, SaveAuthCode(id, code)))
  {
  }

  lemma {:induction false} ForgetKeepsIndex(s: CodeTables, code: Code, id: Id)
    requires Indexed(s) && code in s.codeToAuthReq && s.codeToAuthReq[code] == id
    ensures Indexed(ForgetCode(s, code, id))
    ensures Indexed(ForgetCode(s, code, id).(usedCodes := s.usedCodes[code := id]))
  {
    var s' := ForgetCode(s, code, id);
    forall i | i in s'.authCodes
      ensures s'.authCodes[i] in s'.codeToAuthReq && s'.codeToAuthReq[s'.authCodes[i]] == i
    {
      assert s.authCodes[i] in s.codeToAuthReq;
    }
  }

  lemma {:induction false} ForgetKeepsLiveCodes(s: CodeTables, h: History, code: Code, id: Id)
    requires LiveCodesAreInHistory(s, h)
    ensures LiveCodesAreInHistory(ForgetCode(s, code, id), h.(redeemed := h.redeemed + {code}))
    ensures LiveCodesAreInHistory(ForgetCode(s, code, id), h)
  {
  }

  /** A live code becomes used, or is answered as expired, and every other code stays where it is. */
  lemma {:induction false} ForgetKeepsAccounts(s: CodeTables, h: History, code: Code, id: Id)
    requires EveryCodeIsAccounted(s, h) && Indexed(s) && code in s.codeToAuthReq
    ensures EveryCodeIsAccounted(ForgetCode(s, code, id), h.(expired := h.expired + {code}))
    ensures EveryCodeIsAccounted(ForgetCode(s, code, id).(usedCodes := s.usedCodes[code := id]),
                                 h.(redeemed := h.redeemed + {code}))
  {
  }

  lemma {:induction false} RedeemKeepsAccounts(w: World, code: Code)
    requires CodeInv(w)
    ensures var w' := Step(w, RedeemCode(code));
            EveryCodeIsAccounted(w'.codes, w'.history) && ExpiredCodesAreOld(w'.history, w'.now)
  {
    if code in w.codes.codeToAuthReq {
      ForgetKeepsAccounts(w.codes, w.history, code, w.codes.codeToAuthReq[code]);
    }
  }

  /** Redemption keeps what the history says about requests and used codes. */
  lemma {:induction false} RedeemKeepsHistory(w: World, code: Code)
    requires CodeInv(w)
    ensures var w' := Step(w, RedeemCode(code));
            HistoryIsInTheStore(w'.codes, w'.history, w'.now) && UsedCodesAreInHistory(w'.codes, w'.history)
  {
  }

  lemma {:induction false} RedeemKeepsIndex(w: World, code: Code)
    requires CodeInv(w)
    ensures var w' := Step(w, RedeemCode(code)); Indexed(w'.codes) && LiveCodesAreInHistory(w'.codes, w'.history)
  {
    if code in w.codes.codeToAuthReq {
      var id := w.codes.codeToAuthReq[code];
      ForgetKeepsIndex(w.codes, code, id);
      ForgetKeepsLiveCodes(w.codes, w.history, code, id);
    }
  }

  lemma {:induction false} RedeemKeepsCodeInv(w: World, code: Code)
    requires CodeInv(w)
    ensures CodeInv(Step(w, RedeemCode(code)))
  {
    RedeemKeepsIndex(w, code);
    RedeemKeepsAccounts(w, code);
    RedeemKeepsHistory(w, code);
  }

  lemma {:induction false} DeleteKeepsIndex(w: World, id: Id)
    requires CodeInv(w)
    ensures var w' := Step(w, DeleteAuthRequest(id)); Indexed(w'.codes) && LiveCodesAreInHistory(w'.codes, w'.history)
  {
    if id in w.codes.authCodes {
      ForgetKeepsIndex(w.codes, w.codes.authCodes[id], id);
      ForgetKeepsLiveCodes(w.codes, w.history, w.codes.authCodes[id], id);
    }
  }

  lemma {:induction false} DeleteKeepsHistory(w: World, id: Id)
    requires CodeInv(w)
    ensures var w' := Step(w, DeleteAuthRequest(id));
            HistoryIsInTheStore(w'.codes, w'.history, w'.now) && UsedCodesAreInHistory(w'.codes, w'.history)
  {
  }

  lemma {:induction false} DeleteKeepsAccounts(w: World, id: Id)
    requires CodeInv(w)
    ensures EveryCodeIsAccounted(Step(w, DeleteAuthRequest(id)).codes, Step(w, DeleteAuthRequest(id)).history)
  {
  }

  lemma {:induction false} DeleteKeepsCodeInv(w: World, id: Id)
    requires CodeInv(w)
    ensures CodeInv(Step(w, DeleteAuthRequest(id)))
  {
    DeleteKeepsIndex(w, id);
    DeleteKeepsHistory(w, id);
    DeleteKeepsAccounts(w, id);
  }

  lemma {:induction false} NewRequestKeepsCodeInv(w: World, id: Id, r: AuthRequest)
    requires CodeInv(w)
    ensures CodeInv(Step(w, NewRequest(id, r)))
  {
  }

  /** Operations on tokens and sessions, and the clock. */
  predicate IsTokenOp(op: Op) {
    !op.NewRequest? && !op.SaveAuthCode? && !op.RedeemCode? && !op.DeleteAuthRequest?
  }

  lemma {:induction false} TokenOpsLeaveCodes(w: World, op: Op)
    requires IsTokenOp(op)
    ensures var w' := Step(w, op); w'.codes == w.codes && w'.history == w.history && w.now <= w'.now
  {
  }

  lemma {:induction false} StepKeepsCodeInv(w: World, op: Op)
    requires CodeInv(w)
    ensures CodeInv(Step(w, op))
  {
    if IsTokenOp(op) {
      TokenOpsLeaveCodes(w, op);
    } else {
      match op
      case NewRequest(id, r) => NewRequestKeepsCodeInv(w, id, r);
      case SaveAuthCode(id, code) => SaveKeepsCodeInv(w, id, code);
      case RedeemCode(code) => RedeemKeepsCodeInv(w, code);
      case DeleteAuthRequest(id) => DeleteKeepsCodeInv(w, id);
    }
  }

  lemma {:induction false} RunKeepsCodeInv(ops: seq<Op>)
    ensures CodeInv(Run(ops))
  {
    if ops != [] {
      RunKeepsCodeInv(ops[..|ops| - 1]);
      StepKeepsCodeInv(Run(ops[..|ops| - 1]), ops[|ops| - 1]);
    }
  }

  /**
   Refinement: after any run, redeeming a code answers exactly as the full history says.  It succeeds if
   and only if the code was saved at most 60 s ago, was never redeemed, and its request is not deleted.
   */
  lemma {:induction false} RedemptionMatchesHistory(ops: seq<Op>, code: Code)
    ensures var w := Run(ops);
            var a := Redeem(w.codes, code, w.now).1;
            && (a.Redeemed? <==> Redeemable(w.history, code, w.now))
            && (a.Redeemed? ==> a.request == w.history.requests[w.history.saved[code].id])
            && (code in w.history.redeemed ==> a == AlreadyUsed)
            && (a == AlreadyUsed ==>
                  code in w.history.saved &&
                  (code in w.history.redeemed || w.history.saved[code].id in w.history.deleted))
  {
    RunKeepsCodeInv(ops);
  }

  /**
   Refinement, with every answer: in any run the store tells the five cases apart exactly as the history
   does, and an expired code is forgotten when it is first presented after its time.
   */
  lemma {:induction false} EveryAnswerMatchesHistory(ops: seq<Op>, code: Code)
    ensures var w := Run(ops);
            var h, a := w.history, Redeem(w.codes, code, w.now).1;
            var open := code in h.saved && code !in h.redeemed && code !in h.closed && code !in h.expired;
            && (a == CodeNotFound <==> code !in h.saved || code in h.expired)
            && (a == AlreadyUsed <==> code in h.redeemed || code in h.closed)
            && (a == CodeExpired <==> open && w.now - h.saved[code].at > 60 * SECOND)
            && (a == RequestNotFound <==>
                  open && w.now - h.saved[code].at <= 60 * SECOND && h.saved[code].id in h.deleted)
            && (a.Redeemed? <==>
                  open && w.now - h.saved[code].at <= 60 * SECOND && h.saved[code].id !in h.deleted)
  {
    RunKeepsCodeInv(ops);
  }

  /** A code lives for sixty seconds, counted from its save, and is forgotten by the answer "expired". */
  lemma {:induction false} CodeLivesForAMinute(ops: seq<Op>, id: Id, code: Code, elapsed: nat)
    requires var w := Run(ops); id in w.codes.authRequests && code !in w.history.saved
    ensures var later := Step(Step(Run(ops), SaveAuthCode(id, code)), Tick(elapsed));
            var r := Redeem(later.codes, code, later.now);
            && (elapsed <= 60_000_000_000 ==> r.1 == Redeemed(Run(ops).codes.authRequests[id]))
            && (elapsed > 60_000_000_000 ==>
                  r.1 == CodeExpired && Redeem(Step(later, RedeemCode(code)).codes, code, later.now).1 == CodeNotFound)
  {
    RunKeepsCodeInv(ops);
    assert code !in Run(ops).codes.usedCodes;
  }

  /** Deleting a request uses up the code that was saved for it last. */
  lemma {:induction false} DeletionUsesUpTheCode(ops: seq<Op>, id: Id, code: Code)
    requires var w := Run(ops); id in w.codes.authRequests && code !in w.history.saved
    ensures var w := Step(Step(Run(ops), SaveAuthCode(id, code)), DeleteAuthRequest(id));
            Redeem(w.codes, code, w.now).1 == AlreadyUsed && id !in w.codes.authRequests
  {
  }

  lemma {:induction false} RedeemedIsForEver(w: World, ops: seq<Op>, code: Code)
    requires code in w.history.redeemed
    ensures code in RunFrom(w, ops).history.redeemed
    decreases |ops|
  {
    if ops != [] {
      if IsTokenOp(ops[0]) {
        TokenOpsLeaveCodes(w, ops[0]);
      }
      RedeemedIsForEver(Step(w, ops[0]), ops[1..], code);
    }
  }

  lemma {:induction false} CodeInvFrom(w: World, ops: seq<Op>)
    requires CodeInv(w)
    ensures CodeInv(RunFrom(w, ops))
    decreases |ops|
  {
    if ops != [] {
      StepKeepsCodeInv(w, ops[0]);
      CodeInvFrom(Step(w, ops[0]), ops[1..]);
    }
  }

  /** Single use: after one success every later attempt, in every continuation, is told "already used". */
  lemma {:induction false} CodeIsSingleUse(ops: seq<Op>, code: Code, more: seq<Op>)
    requires Redeem(Run(ops).codes, code, Run(ops).now).1.Redeemed?
    ensures var later := RunFrom(Step(Run(ops), RedeemCode(code)), more);
            Redeem(later.codes, code, later.now).1 == AlreadyUsed
  {
    RunKeepsCodeInv(ops);
    StepKeepsCodeInv(Run(ops), RedeemCode(code));
    CodeInvFrom(Step(Run(ops), RedeemCode(code)), more);
    RedeemedIsForEver(Step(Run(ops), RedeemCode(code)), more, code);
  }

  lemma {:induction false} SavesAreInTheRun(ops: seq<Op>, code: Code)
    requires code in Run(ops).history.saved
    ensures var saved := Run(ops).history.saved[code];
            exists i :: 0 <= i < |ops| && ops[i] == SaveAuthCode(saved.id, code) && Run(ops[..i]).now == saved.at
  {
    var n := |ops| - 1;
    var before := Run(ops[..n]);
    if IsTokenOp(ops[n]) {
      TokenOpsLeaveCodes(before, ops[n]);
    }
    if code in before.history.saved {
      SavesAreInTheRun(ops[..n], code);
      var i :| 0 <= i < n && ops[..n][i] == SaveAuthCode(before.history.saved[code].id, code) &&
               Run(ops[..n][..i]).now == before.history.saved[code].at;
      assert ops[..n][..i] == ops[..i];
    }
  }

  /** A success comes at most 60 s after a save of that code, and hands out the request it was saved for. */
  lemma {:induction false} RedeemedInTimeForItsRequest(ops: seq<Op>, code: Code)
    requires Redeem(Run(ops).codes, code, Run(ops).now).1.Redeemed?
    ensures exists i, id :: 0 <= i < |ops| && ops[i] == SaveAuthCode(id, code)
              && Run(ops).now - Run(ops[..i]).now <= 60_000_000_000
              && id in Run(ops).history.requests
              && Redeem(Run(ops).codes, code, Run(ops).now).1.request == Run(ops).history.requests[id]
  {
    RedemptionMatchesHistory(ops, code);
    SavesAreInTheRun(ops, code);
  }
}
