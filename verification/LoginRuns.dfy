/**
 Any number of accept, reject, callback and auto-completing handlers, login forms and deletions,
 interleaved.  Each step of a handler is one lock section of the store or one unlocked read of the
 shared request record, which stays readable after the request has been deleted from the store.
 */
module LoginRuns {
  import opened Basics
  import opened LoginChallenge

  /** `drawn` is the session id a new request gets before it is completed with an existing `session`. */
  datatype Work =
    | AcceptWork(id: ReqId, subject: UserId, authTime: Time, session: SessionId)
    | RejectWork(id: ReqId)
    | CallbackWork(id: ReqId, hasError: bool)
    | AutoWork(id: ReqId, subject: UserId, authTime: Time, session: SessionId, drawn: SessionId, acrValues: seq<Text>)

  datatype Outcome =
    | NotFound | Conflict | CompletionFailed | InteractionRequired
    | AcceptRedirect | RejectRedirect | ErrorRedirect | AuthResponse

  datatype Stage = Begin | HaveRequest | MayComplete | MayFetch | Ended(outcome: Outcome)

  datatype Handler = Handler(work: Work, stage: Stage)

  /**
   `winner` records which handler's `CompleteAuthRequest` succeeded, `completions` counts the successes, and
   `logins` holds the last login form that reached each request.
   */
  datatype LastLogin = LastLogin(user: UserId, at: Time)

  datatype State = State(
    records: map<ReqId, Request>, live: set<ReqId>, handlers: map<Tid, Handler>,
    winner: map<ReqId, Tid>, completions: multiset<ReqId>, logins: map<ReqId, LastLogin>)

  const INIT := State(map[], {}, map[], map[], multiset{}, map[])

  datatype Event =
    | Spawn(t: Tid, work: Work)
    | Advance(t: Tid)
    | NewRequest(id: ReqId, session: SessionId, acrValues: seq<Text>, user: UserId)
    | LoginForm(id: ReqId, user: UserId, now: Time)
    | Delete(id: ReqId)

  function Step(s: State, e: Event): State {
    match e
    case Spawn(t, work) => if t in s.handlers then s else s.(handlers := s.handlers[t := Handler(work, Begin)])
    case NewRequest(id, session, acrValues, user) => Create(s, id, user, session, acrValues)
    case LoginForm(id, user, now) =>
      if id in s.live && id in s.records
      then s.(records := s.records[id := Login(s.records[id], user, now)],
              logins := s.logins[id := LastLogin(user, now)])
      else s
    case Delete(id) => s.(live := s.live - {id})
    case Advance(t) => if t in s.handlers then Move(s, t, s.handlers[t].work, s.handlers[t].stage) else s
  }

  function Create(s: State, id: ReqId, user: UserId, session: SessionId, acrValues: seq<Text>): State {
    if id in s.records then s
    else s.(records := s.records[id := Request(user, false, 0, session, None, acrValues)], live := s.live + {id})
  }

  function GoTo(s: State, t: Tid, work: Work, stage: Stage): State {
    s.(handlers := s.handlers[t := Handler(work, stage)])
  }

  function Move(s: State, t: Tid, work: Work, stage: Stage): State {
    match stage
    case Begin =>
      if work.AutoWork? then
        if work.id in s.records then s
        else GoTo(Create(s, work.id, work.subject, work.drawn, work.acrValues), t, work, MayComplete)
      else GoTo(s, t, work, if work.id in s.live then HaveRequest else Ended(NotFound))
    case HaveRequest =>
      if work.id !in s.records then s else GoTo(s, t, work, AfterRead(work, s.records[work.id].done))
    case MayComplete =>
      if work.AcceptWork? || work.AutoWork? then
        if work.id !in s.live || work.id !in s.records then GoTo(s, t, work, Ended(CompletionFailed))
        else CompleteStep(s, t, work)
      else s
    case MayFetch => GoTo(s, t, work, if work.id in s.live then Ended(AuthResponse) else Ended(NotFound))
    case Ended(_) => s
  }

  /** What a handler does after reading `Done()` from the shared record without the lock. */
  function AfterRead(work: Work, done: bool): Stage {
    match work
    case AcceptWork(_, _, _, _) => if done then Ended(Conflict) else MayComplete
    case RejectWork(_) => if done then Ended(Conflict) else Ended(RejectRedirect)
    case CallbackWork(_, hasError) =>
      if hasError then Ended(ErrorRedirect) else if !done then Ended(InteractionRequired) else Ended(AuthResponse)
    case AutoWork(_, _, _, _, _, _) => MayComplete
  }

  function CompleteStep(s: State, t: Tid, work: Work): State
    requires work.id in s.records && (work.AcceptWork? || work.AutoWork?)
  {
    var r := Complete(s.records[work.id], work.subject, work.authTime, work.session);
    if !r.1 then GoTo(s, t, work, Ended(CompletionFailed))
    else
      GoTo(s, t, work, if work.AcceptWork? then Ended(AcceptRedirect) else MayFetch)
      .(records := s.records[work.id := r.0], winner := s.winner[work.id := t],
        completions := s.completions + multiset{work.id})
  }

  function Run(es: seq<Event>): State {
    if es == [] then INIT else Step(Run(es[..|es| - 1]), es[|es| - 1])
  }

  // ---------------------------------------------------------------------------------------------
  // The invariant
  // ---------------------------------------------------------------------------------------------

  ghost predicate HandlerInv(s: State, t: Tid, h: Handler) {
    && (h.stage == HaveRequest || h.stage == MayComplete ==> h.work.id in s.records)
    && (h.stage == HaveRequest ==> !h.work.AutoWork?)
    && (h.stage == MayComplete ==> h.work.AcceptWork? || h.work.AutoWork?)
    && (h.stage == MayFetch ==> h.work.AutoWork?)
    && (h.stage == MayFetch || h.stage == Ended(AuthResponse) ==> h.work.id in s.records && s.records[h.work.id].done)
    && (h.stage == Ended(AcceptRedirect) ==> h.work.AcceptWork? && h.work.id in s.winner && s.winner[h.work.id] == t)
  }

  ghost predicate WinnerInv(s: State, id: ReqId, t: Tid) {
    && id in s.records && s.records[id].done
    && t in s.handlers && s.handlers[t].work.id == id
    && (s.handlers[t].work.AcceptWork? || s.handlers[t].work.AutoWork?)
    && s.handlers[t].stage != Begin && s.handlers[t].stage != MayComplete && s.handlers[t].stage != HaveRequest
    && HoldsDataOf(s.records[id], s.handlers[t].work, if id in s.logins then Some(s.logins[id]) else None)
  }

  /** The data of a completed request: its winner's, except that a later login form brings its own user and time. */
  ghost predicate HoldsDataOf(r: Request, work: Work, login: Option<LastLogin>)
    requires work.AcceptWork? || work.AutoWork?
  {
    && r.done && r.session == work.session
    && r.user == (if login.Some? then login.value.user else work.subject)
    && r.authTime == (if login.Some? then login.value.at else work.authTime)
    && (|r.acrValues| > 0 ==> r.acr == Some(r.acrValues[0]))
  }

  ghost predicate Inv(s: State) {
    && s.live <= s.records.Keys
    && (forall t :: t in s.handlers ==> HandlerInv(s, t, s.handlers[t]))
    && (forall id :: id in s.winner ==> WinnerInv(s, id, s.winner[id]))
    && (forall id :: id in s.logins ==> id in s.records && s.records[id].done)
    && (forall id :: s.completions[id] == if id in s.winner then 1 else 0)
  }

  /** A successful completion: one record and one handler change, and both are the winner's. */
  lemma {:induction false} SuccessChanges(s: State, t: Tid)
    requires Inv(s) && t in s.handlers && s.handlers[t].stage == MayComplete && s.handlers[t].work.id in s.live
    requires !s.records[s.handlers[t].work.id].done
    ensures var work := s.handlers[t].work;
            var s' := CompleteStep(s, t, work);
            && work.id !in s.winner && work.id !in s.logins
            && s'.records.Keys == s.records.Keys && s'.handlers.Keys == s.handlers.Keys
            && s'.winner == s.winner[work.id := t] && s'.live == s.live && s'.logins == s.logins
            && (forall i :: i != work.id && i in s.records ==> s'.records[i] == s.records[i])
            && (forall u :: u != t && u in s.handlers ==> s'.handlers[u] == s.handlers[u])
            && HoldsDataOf(s'.records[work.id], work, None)
            && s'.handlers[t] == Handler(work, if work.AcceptWork? then Ended(AcceptRedirect) else MayFetch)
  {
  }

  lemma {:induction false} SuccessKeepsInv(s: State, t: Tid)
    requires Inv(s) && t in s.handlers && s.handlers[t].stage == MayComplete && s.handlers[t].work.id in s.live
    requires !s.records[s.handlers[t].work.id].done
    ensures Inv(CompleteStep(s, t, s.handlers[t].work))
  {
    var work := s.handlers[t].work;
    var s' := CompleteStep(s, t, work);
    SuccessChanges(s, t);
    forall u | u in s'.handlers ensures HandlerInv(s', u, s'.handlers[u]) {
      assert HandlerInv(s, u, s.handlers[u]);
    }
    forall i | i in s'.winner ensures WinnerInv(s', i, s'.winner[i]) {
      if i != work.id {
        OtherWinnersStay(s, s', i, t);
      }
    }
  }

  lemma {:induction false} OtherWinnersStay(s: State, s': State, i: ReqId, t: Tid)
    requires i in s.winner && WinnerInv(s, i, s.winner[i])
    requires t in s.handlers && s.handlers[t].stage == MayComplete
    requires i in s'.records && s'.records[i] == s.records[i] && s'.logins == s.logins
    requires forall u :: u != t && u in s.handlers ==> u in s'.handlers && s'.handlers[u] == s.handlers[u]
    ensures WinnerInv(s', i, s.winner[i])
  {
    assert s.winner[i] != t;
  }

  /** A handler that only moves on, to a stage that asks nothing of the winners. */
  lemma {:induction false} GoToKeepsInv(s: State, t: Tid, stage: Stage)
    requires Inv(s) && t in s.handlers && HandlerInv(s, t, Handler(s.handlers[t].work, stage))
    requires forall id :: id in s.winner && s.winner[id] == t ==>
               stage != Begin && stage != MayComplete && stage != HaveRequest
    ensures Inv(GoTo(s, t, s.handlers[t].work, stage))
  {
    var s' := GoTo(s, t, s.handlers[t].work, stage);
    forall u | u in s'.handlers ensures HandlerInv(s', u, s'.handlers[u]) {
      assert u != t ==> HandlerInv(s, u, s.handlers[u]);
    }
    forall i | i in s'.winner ensures WinnerInv(s', i, s'.winner[i]) {
      assert WinnerInv(s, i, s.winner[i]);
    }
  }

  lemma {:induction false} CreateKeepsInv(s: State, id: ReqId, user: UserId, session: SessionId, acrValues: seq<Text>)
    requires Inv(s)
    ensures Inv(Create(s, id, user, session, acrValues))
  {
    var s' := Create(s, id, user, session, acrValues);
    forall u | u in s'.handlers ensures HandlerInv(s', u, s'.handlers[u]) {
      assert HandlerInv(s, u, s.handlers[u]);
    }
    forall i | i in s'.winner ensures WinnerInv(s', i, s'.winner[i]) {
      assert WinnerInv(s, i, s.winner[i]);
    }
  }

  lemma {:induction false} MoveKeepsInv(s: State, t: Tid)
    requires Inv(s) && t in s.handlers
    ensures Inv(Move(s, t, s.handlers[t].work, s.handlers[t].stage))
  {
    var work, stage := s.handlers[t].work, s.handlers[t].stage;
    assert HandlerInv(s, t, s.handlers[t]);
    assert forall id :: id in s.winner && s.winner[id] == t ==> WinnerInv(s, id, t);
    match stage
    case Begin =>
      if work.AutoWork? {
        if work.id !in s.records {
          CreateKeepsInv(s, work.id, work.subject, work.drawn, work.acrValues);
          GoToKeepsInv(Create(s, work.id, work.subject, work.drawn, work.acrValues), t, MayComplete);
        }
      } else {
        GoToKeepsInv(s, t, if work.id in s.live then HaveRequest else Ended(NotFound));
      }
    case HaveRequest => GoToKeepsInv(s, t, AfterRead(work, s.records[work.id].done));
    case MayComplete =>
      if work.id in s.live && !s.records[work.id].done {
        SuccessKeepsInv(s, t);
      } else {
        GoToKeepsInv(s, t, Ended(CompletionFailed));
      }
    case MayFetch => GoToKeepsInv(s, t, if work.id in s.live then Ended(AuthResponse) else Ended(NotFound));
    case Ended(_) =>
  }

  lemma {:induction false} StepKeepsInv(s: State, e: Event)
    requires Inv(s)
    ensures Inv(Step(s, e))
  {
    match e
    case Advance(t) =>
      if t in s.handlers {
        MoveKeepsInv(s, t);
      }
    case NewRequest(id, session, acrValues, user) => CreateKeepsInv(s, id, user, session, acrValues);
    case LoginForm(id, user, now) => LoginKeepsInv(s, id, user, now);
    case _ =>
  }

  lemma {:induction false} LoginKeepsInv(s: State, id: ReqId, user: UserId, now: Time)
    requires Inv(s)
    ensures Inv(Step(s, LoginForm(id, user, now)))
  {
    var s' := Step(s, LoginForm(id, user, now));
    forall u | u in s'.handlers ensures HandlerInv(s', u, s'.handlers[u]) {
      assert HandlerInv(s, u, s.handlers[u]);
    }
    forall i | i in s'.winner ensures WinnerInv(s', i, s'.winner[i]) {
      assert WinnerInv(s, i, s.winner[i]);
    }
  }

  lemma {:induction false} RunKeepsInv(es: seq<Event>)
    ensures Inv(Run(es))
  {
    if es != [] {
      RunKeepsInv(es[..|es| - 1]);
      StepKeepsInv(Run(es[..|es| - 1]), es[|es| - 1]);
    }
  }

  // ---------------------------------------------------------------------------------------------
  // What every interleaving guarantees
  // ---------------------------------------------------------------------------------------------

  /** `CompleteAuthRequest` succeeds at most once per request. */
  lemma {:induction false} CompletedAtMostOnce(es: seq<Event>, id: ReqId)
    ensures Run(es).completions[id] <= 1
  {
    RunKeepsInv(es);
  }

  /** Of any number of accept calls for one request at most one is answered with the redirect. */
  lemma {:induction false} OneAcceptWins(es: seq<Event>, t: Tid, t': Tid)
    requires var s := Run(es);
             && t in s.handlers && t' in s.handlers && s.handlers[t].work.id == s.handlers[t'].work.id
             && s.handlers[t].stage == Ended(AcceptRedirect) == s.handlers[t'].stage
    ensures t == t'
  {
    RunKeepsInv(es);
    var s := Run(es);
    assert HandlerInv(s, t, s.handlers[t]) && HandlerInv(s, t', s.handlers[t']);
  }

  lemma {:induction false} Extend(es: seq<Event>, e: Event) returns (es': seq<Event>)
    ensures es' == es + [e] && Run(es') == Step(Run(es), e)
  {
    es' := es + [e];
    assert es'[..|es|] == es;
  }

  /** Two accept calls can both pass the unlocked test and stand before the store at the same time. */
  lemma {:induction false} BothMayPassTheTest(id: ReqId, t: Tid, t': Tid, w: Work, w': Work, k: SessionId, u: UserId)
    returns (es: seq<Event>)
    requires t != t' && w.AcceptWork? && w'.AcceptWork? && w.id == id == w'.id
    ensures var s := Run(es);
            && t in s.handlers && t' in s.handlers
            && s.handlers[t] == Handler(w, MayComplete) && s.handlers[t'] == Handler(w', MayComplete)
  {
    es := Extend([], NewRequest(id, k, [], u));
    es := Extend(es, Spawn(t, w));
    es := Extend(es, Spawn(t', w'));
    es := Extend(es, Advance(t));
    es := Extend(es, Advance(t'));
    es := Extend(es, Advance(t));
    es := Extend(es, Advance(t'));
  }

  lemma {:induction false} DoneStaysDone(s: State, e: Event, id: ReqId)
    requires id in s.records && s.records[id].done
    ensures id in Step(s, e).records && Step(s, e).records[id].done
  {
  }

  /** A request that is done stays done in every continuation, deleted or not. */
  lemma {:induction false} DoneIsForEver(es: seq<Event>, more: seq<Event>, id: ReqId)
    requires id in Run(es).records && Run(es).records[id].done
    ensures id in Run(es + more).records && Run(es + more).records[id].done
  {
    if more == [] {
      assert es + more == es;
    } else {
      var n := |more| - 1;
      DoneIsForEver(es, more[..n], id);
      assert (es + more)[..|es + more| - 1] == es + more[..n];
      DoneStaysDone(Run(es + more[..n]), more[n], id);
    }
  }

  /** An authorization response is produced only for a completed request, also without asking `Done()` again. */
  lemma {:induction false} ResponseNeedsCompletion(es: seq<Event>, t: Tid)
    requires t in Run(es).handlers && Run(es).handlers[t].stage == Ended(AuthResponse)
    ensures var s := Run(es);
            s.handlers[t].work.id in s.records && s.records[s.handlers[t].work.id].done
  {
    RunKeepsInv(es);
    assert HandlerInv(Run(es), t, Run(es).handlers[t]);
  }

  // ---------------------------------------------------------------------------------------------
  // When a handler answers what
  // ---------------------------------------------------------------------------------------------

  ghost predicate Done(s: State, id: ReqId) {
    id in s.records && s.records[id].done
  }

  ghost predicate At(s: State, t: Tid, work: Work, stage: Stage) {
    t in s.handlers && s.handlers[t] == Handler(work, stage)
  }

  /** The handler is where it should be for a next step, and this event is that step. */
  ghost predicate Moves(s: State, e: Event, t: Tid, work: Work, stage: Stage) {
    e == Advance(t) && At(s, t, work, stage)
  }

  /** The handler has not answered yet; the rest holds in every run. */
  ghost predicate StillWorking(s: State, t: Tid) {
    && s.live <= s.records.Keys
    && (t in s.handlers ==> !s.handlers[t].stage.Ended? && HandlerInv(s, t, s.handlers[t]))
  }

  /** Only a handler's own steps move it, and a new one starts at the beginning. */
  lemma {:induction false} OthersStandStill(s: State, e: Event, t: Tid)
    requires e != Advance(t) && t in Step(s, e).handlers
    ensures if t in s.handlers then Step(s, e).handlers[t] == s.handlers[t] else Step(s, e).handlers[t].stage == Begin
  {
  }

  /** A handler keeps its work, and no other is created in its place. */
  lemma {:induction false} WorkIsKept(s: State, t: Tid)
    ensures t in Step(s, Advance(t)).handlers <==> t in s.handlers
    ensures t in s.handlers ==> Step(s, Advance(t)).handlers[t].work == s.handlers[t].work
  {
  }

  /** When a callback answers what: by the record it reads, and by the error it carries. */
  lemma {:induction false} CallbackStep(s: State, e: Event, t: Tid, id: ReqId, hasError: bool)
    requires StillWorking(s, t)
    ensures var s', work := Step(s, e), CallbackWork(id, hasError);
            var looks := Moves(s, e, t, work, HaveRequest);
            && (At(s', t, work, Ended(AuthResponse)) <==> looks && !hasError && Done(s, id))
            && (At(s', t, work, Ended(InteractionRequired)) <==> looks && !hasError && !Done(s, id))
            && (At(s', t, work, Ended(ErrorRedirect)) <==> looks && hasError)
            && (At(s', t, work, Ended(NotFound)) <==> Moves(s, e, t, work, Begin) && id !in s.live)
  {
    if e != Advance(t) {
      if t in Step(s, e).handlers {
        OthersStandStill(s, e, t);
      }
    } else {
      WorkIsKept(s, t);
    }
  }

  /** When an accept call answers what: the redirect goes to the call that completes the request. */
  lemma {:induction false} AcceptStep(s: State, e: Event, t: Tid, work: Work)
    requires StillWorking(s, t) && work.AcceptWork?
    ensures var s', id := Step(s, e), work.id;
            && (At(s', t, work, Ended(NotFound)) <==> Moves(s, e, t, work, Begin) && id !in s.live)
            && (At(s', t, work, Ended(Conflict)) <==> Moves(s, e, t, work, HaveRequest) && Done(s, id))
            && (At(s', t, work, Ended(AcceptRedirect)) <==>
                  Moves(s, e, t, work, MayComplete) && id in s.live && !Done(s, id))
            && (At(s', t, work, Ended(CompletionFailed)) <==>
                  Moves(s, e, t, work, MayComplete) && (id !in s.live || Done(s, id)))
  {
    if e != Advance(t) {
      if t in Step(s, e).handlers {
        OthersStandStill(s, e, t);
      }
    } else {
      WorkIsKept(s, t);
    }
  }

  /** When the auto-completing branch answers what: the response for a completed request that is still stored. */
  lemma {:induction false} AutoStep(s: State, e: Event, t: Tid, work: Work)
    requires StillWorking(s, t) && work.AutoWork?
    ensures var s', id := Step(s, e), work.id;
            && (At(s', t, work, Ended(AuthResponse)) <==> Moves(s, e, t, work, MayFetch) && id in s.live)
            && (At(s', t, work, Ended(NotFound)) <==> Moves(s, e, t, work, MayFetch) && id !in s.live)
            && (At(s', t, work, Ended(CompletionFailed)) <==>
                  Moves(s, e, t, work, MayComplete) && (id !in s.live || Done(s, id)))
            && (Moves(s, e, t, work, MayComplete) && id in s.live && !Done(s, id) ==>
                  At(s', t, work, MayFetch) && Done(s', id))
  {
    if e != Advance(t) {
      if t in Step(s, e).handlers {
        OthersStandStill(s, e, t);
      }
    } else {
      WorkIsKept(s, t);
    }
  }

  /** The first step of each kind of handler, on a request that is there. */
  lemma {:induction false} FirstStep(s: State, t: Tid, work: Work)
    requires At(s, t, work, Begin)
    ensures var s' := Step(s, Advance(t));
            && (!work.AutoWork? && work.id in s.live ==> At(s', t, work, HaveRequest))
            && (work.AutoWork? && work.id !in s.records ==>
                  && At(s', t, work, MayComplete) && work.id in s'.live && work.id in s'.records
                  && s'.records[work.id] == Request(work.subject, false, 0, work.drawn, None, work.acrValues))
  {
  }

  /** A deleted request is found by no handler that looks for it afterwards, but those that hold it still read it. */
  lemma {:induction false} DeletedRequestIsNotFound(s: State, id: ReqId, t: Tid, work: Work)
    requires At(s, t, work, Begin) && work.id == id && !work.AutoWork?
    ensures var s' := Step(s, Delete(id));
            At(Step(s', Advance(t)), t, work, Ended(NotFound)) && s'.records == s.records
  {
  }

  /** A run in which a callback, after a login, is answered with the authorization response. */
  lemma {:induction false} CallbackIsAnswered(t: Tid, id: ReqId, k: SessionId, user: UserId, now: Time)
    returns (es: seq<Event>)
    ensures At(Run(es), t, CallbackWork(id, false), Ended(AuthResponse))
  {
    es := Extend([], NewRequest(id, k, [], user));
    es := Extend(es, LoginForm(id, user, now));
    es := Extend(es, Spawn(t, CallbackWork(id, false)));
    es := Extend(es, Advance(t));
    es := Extend(es, Advance(t));
  }

  /** A run in which the auto-completing branch is answered with it. */
  lemma {:induction false} AutoIsAnswered(t: Tid, work: Work) returns (es: seq<Event>)
    requires work.AutoWork?
    ensures At(Run(es), t, work, Ended(AuthResponse))
    ensures work.id in Run(es).records && HoldsDataOf(Run(es).records[work.id], work, None)
  {
    es := Extend([], Spawn(t, work));
    es := Extend(es, Advance(t));
    es := Extend(es, Advance(t));
    es := Extend(es, Advance(t));
  }

  // ---------------------------------------------------------------------------------------------
  // Rejecting
  // ---------------------------------------------------------------------------------------------

  ghost predicate Rejected(s: State, t: Tid, id: ReqId) {
    t in s.handlers && s.handlers[t] == Handler(RejectWork(id), Ended(RejectRedirect))
  }

  /** Where a reject call stands after its own step. */
  lemma {:induction false} RejectMoves(s: State, t: Tid, id: ReqId)
    requires t in s.handlers && s.handlers[t].work == RejectWork(id) && s.handlers[t].stage != MayComplete
    requires s.handlers[t].stage == HaveRequest ==> id in s.records
    ensures var stage := s.handlers[t].stage;
            Step(s, Advance(t)).handlers ==
              s.handlers[t := Handler(RejectWork(id),
                                      match stage
                                      case Begin => if id in s.live then HaveRequest else Ended(NotFound)
                                      case HaveRequest => if Done(s, id) then Ended(Conflict) else Ended(RejectRedirect)
                                      case MayFetch => if id in s.live then Ended(AuthResponse) else Ended(NotFound)
                                      case _ => stage)]
  {
  }

  /** One step answers a reject call with the redirect exactly if it reads a record that is not done. */
  lemma {:induction false} RejectStep(s: State, e: Event, t: Tid, id: ReqId)
    requires t in s.handlers ==> HandlerInv(s, t, s.handlers[t])
    requires !Rejected(s, t, id)
    ensures Rejected(Step(s, e), t, id) <==>
              && e == Advance(t) && t in s.handlers
              && s.handlers[t] == Handler(RejectWork(id), HaveRequest) && !Done(s, id)
  {
    if e != Advance(t) {
      if t in Step(s, e).handlers {
        OthersStandStill(s, e, t);
      }
    } else if t in s.handlers {
      WorkIsKept(s, t);
      if s.handlers[t].work == RejectWork(id) {
        RejectMoves(s, t, id);
      }
    }
  }

  /** Every reject redirect was answered from a state in which the request was not done. */
  lemma {:induction false} RejectedWhileOpen(es: seq<Event>, t: Tid, id: ReqId)
    requires Rejected(Run(es), t, id)
    ensures exists i :: 0 <= i < |es| && es[i] == Advance(t) && id in Run(es[..i]).records && !Done(Run(es[..i]), id)
  {
    var n := |es| - 1;
    var before := Run(es[..n]);
    RunKeepsInv(es[..n]);
    if Rejected(before, t, id) {
      RejectedWhileOpen(es[..n], t, id);
      var i :| 0 <= i < n && es[..n][i] == Advance(t) && id in Run(es[..n][..i]).records
               && !Done(Run(es[..n][..i]), id);
      assert es[..n][..i] == es[..i];
    } else {
      RejectStep(before, es[n], t, id);
      assert HandlerInv(before, t, before.handlers[t]);
    }
  }

  /** A completed request can no longer be rejected, in any continuation. */
  lemma {:induction false} NoRejectAfterDone(es: seq<Event>, more: seq<Event>, t: Tid, id: ReqId)
    requires Done(Run(es), id) && !Rejected(Run(es), t, id)
    ensures !Rejected(Run(es + more), t, id)
  {
    if more == [] {
      assert es + more == es;
    } else {
      var n := |more| - 1;
      assert (es + more)[..|es + more| - 1] == es + more[..n];
      NoRejectAfterDone(es, more[..n], t, id);
      DoneIsForEver(es, more[..n], id);
      RunKeepsInv(es + more[..n]);
      RejectStep(Run(es + more[..n]), more[n], t, id);
    }
  }

  /**
   A reject leaves no mark on the request, so one request can be answered with both redirects, the
   reject coming first.
   */
  lemma {:induction false} RejectedAndAccepted(t: Tid, u: Tid, w: Work, k: SessionId, user: UserId)
    returns (es: seq<Event>)
    requires t != u && w.AcceptWork?
    ensures Rejected(Run(es), t, w.id)
    ensures u in Run(es).handlers && Run(es).handlers[u] == Handler(w, Ended(AcceptRedirect))
  {
    es := Extend([], NewRequest(w.id, k, [], user));
    es := Extend(es, Spawn(t, RejectWork(w.id)));
    es := Extend(es, Advance(t));
    es := Extend(es, Advance(t));
    es := Extend(es, Spawn(u, w));
    es := Extend(es, Advance(u));
    es := Extend(es, Advance(u));
    es := Extend(es, Advance(u));
  }

  // ---------------------------------------------------------------------------------------------
  // The subject of a completed request
  // ---------------------------------------------------------------------------------------------

  /** The accept call `t` was answered with the redirect. */
  ghost predicate Won(s: State, t: Tid) {
    t in s.handlers && s.handlers[t].stage == Ended(AcceptRedirect) && s.handlers[t].work.AcceptWork?
  }

  ghost predicate HasSubject(s: State, id: ReqId, user: UserId) {
    id in s.records && s.records[id].user == user
  }

  /** In every run the subject of an accepted request is the accepted one, or that of the last login form after it. */
  lemma {:induction false} CompletedSubject(es: seq<Event>, t: Tid)
    requires Won(Run(es), t)
    ensures var s := Run(es);
            var work := s.handlers[t].work;
            && HasSubject(s, work.id, if work.id in s.logins then s.logins[work.id].user else work.subject)
            && (HasSubject(s, work.id, work.subject) <==>
                  work.id !in s.logins || s.logins[work.id].user == work.subject)
  {
    RunKeepsInv(es);
    var s := Run(es);
    assert HandlerInv(s, t, s.handlers[t]) && WinnerInv(s, s.handlers[t].work.id, t);
  }

  /**
   In every run the record of a request that a handler completed holds that handler's session, and its
   subject and authentication time, unless a login form came later and brought its own.
   */
  lemma {:induction false} CompletedRecordHoldsTheWinnersData(es: seq<Event>, id: ReqId)
    requires id in Run(es).winner
    ensures var s := Run(es);
            && id in s.records && s.winner[id] in s.handlers
            && var r, work := s.records[id], s.handlers[s.winner[id]].work;
               && work.id == id && (work.AcceptWork? || work.AutoWork?)
               && r.done && r.session == work.session
               && (id !in s.logins ==> r.user == work.subject && r.authTime == work.authTime)
               && (id in s.logins ==> r.user == s.logins[id].user && r.authTime == s.logins[id].at)
               && (|r.acrValues| > 0 ==> r.acr == Some(r.acrValues[0]))
  {
    RunKeepsInv(es);
    assert WinnerInv(Run(es), id, Run(es).winner[id]);
  }

  /** May this event give the request another subject?  A login form for it may, while it is in the store. */
  predicate Relogin(s: State, e: Event, id: ReqId, subject: UserId) {
    e.LoginForm? && e.id == id && id in s.live && e.user != subject
  }

  /** One step keeps the subject of a completed request if and only if it is no login form of another user. */
  lemma {:induction false} SubjectStep(s: State, e: Event, id: ReqId, subject: UserId)
    requires HasSubject(s, id, subject) && s.records[id].done
    ensures HasSubject(Step(s, e), id, subject) <==> !Relogin(s, e, id, subject)
  {
  }

  ghost predicate KeptThroughout(s: State, more: seq<Event>, id: ReqId, subject: UserId)
    decreases |more|
  {
    HasSubject(s, id, subject) && (more == [] || KeptThroughout(Step(s, more[0]), more[1..], id, subject))
  }

  predicate NoRelogin(s: State, more: seq<Event>, id: ReqId, subject: UserId)
    decreases |more|
  {
    more == [] || (!Relogin(s, more[0], id, subject) && NoRelogin(Step(s, more[0]), more[1..], id, subject))
  }

  lemma {:induction false} KeptExactly(s: State, more: seq<Event>, id: ReqId, subject: UserId)
    requires HasSubject(s, id, subject) && s.records[id].done
    ensures KeptThroughout(s, more, id, subject) <==> NoRelogin(s, more, id, subject)
    decreases |more|
  {
    if more != [] {
      SubjectStep(s, more[0], id, subject);
      DoneStaysDone(s, more[0], id);
      if !Relogin(s, more[0], id, subject) {
        KeptExactly(Step(s, more[0]), more[1..], id, subject);
      } else {
        assert !KeptThroughout(Step(s, more[0]), more[1..], id, subject);
      }
    }
  }

  /**
   Once an accept has won, its subject is kept throughout a continuation if and only if no login form
   of another user reaches the request while it is in the store.
   */
  lemma {:induction false} CompletedSubjectIsKept(es: seq<Event>, t: Tid, more: seq<Event>)
    requires Won(Run(es), t) && HasSubject(Run(es), Run(es).handlers[t].work.id, Run(es).handlers[t].work.subject)
    ensures var s := Run(es);
            var work := s.handlers[t].work;
            KeptThroughout(s, more, work.id, work.subject) <==> NoRelogin(s, more, work.id, work.subject)
  {
    RunKeepsInv(es);
    var s := Run(es);
    assert HandlerInv(s, t, s.handlers[t]) && WinnerInv(s, s.handlers[t].work.id, t);
    KeptExactly(s, more, s.handlers[t].work.id, s.handlers[t].work.subject);
  }

  /** A run in which an accept is answered with the redirect and a login form then changes the subject. */
  lemma {:induction false} LoginFormChangesSubject(t: Tid, w: Work, k: SessionId, u: UserId, user: UserId, now: Time)
    returns (es: seq<Event>)
    requires w.AcceptWork? && user != w.subject
    ensures Won(Run(es), t) && Run(es).handlers[t].work == w && HasSubject(Run(es), w.id, w.subject)
    ensures HasSubject(Step(Run(es), LoginForm(w.id, user, now)), w.id, user)
  {
    es := Extend([], NewRequest(w.id, k, [], u));
    es := Extend(es, Spawn(t, w));
    es := Extend(es, Advance(t));
    es := Extend(es, Advance(t));
    es := Extend(es, Advance(t));
  }
}
