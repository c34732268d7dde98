/**
 Any number of verifiers and updater goroutines on one remote key set, interleaved step by step.  A
 step is one lock section of the implementation together with the local work that follows it, the end
 of an HTTP fetch (with any result), or the cancellation of a waiting verifier.

 A run is any list of events; an event that is not possible in the current state changes nothing.
 */
module KeySetProtocol {
  import opened Basics
  import opened KeyMatching
  import opened RemoteKeySets

  /** `updateKeys` between its spawning and its lock section.  `flight` is the record it was spawned for. */
  datatype Updater = Updater(flight: nat, fetched: Option<Fetch>)

  /**
   A call of `VerifySignature`.  The positions count published fetches: `since` when the call began,
   `at` when the first cached field was read, `basis` when the keys behind the verdict were current.
   */
  datatype Verifier =
    | Called(t: Token, since: nat)
    | ReadStd(t: Token, since: nat, std: seq<Jwk>, at: nat)
    | Joining(t: Token, since: nat)
    | Waiting(t: Token, since: nat, flight: nat)
    | Decided(t: Token, since: nat, verdict: Verdict, basis: nat)
    | GaveUp(t: Token)

  datatype State = State(
    shared: Shared,
    updaters: map<Tid, Updater>,
    verifiers: map<Tid, Verifier>,
    log: seq<Fetch>,             // results in the order of publication
    outcomes: map<nat, Fetch>,   // what the fetch started for each record returned
    crashed: bool)

  const INIT := State(Shared(None, [], NO_KEYS), map[], map[], [], map[], false)

  datatype Event =
    | Call(v: Tid, t: Token)
    | ReadStdKeys(v: Tid)
    | ReadGMKeys(v: Tid)
    | Enter(v: Tid, u: Tid)
    | FetchEnds(u: Tid, r: Fetch)
    | Publish(u: Tid)
    | Return(v: Tid)
    | Cancel(v: Tid)

  function Step(c: Config, s: State, e: Event): State {
    match e
    case Call(v, t) =>
      if v in s.verifiers then s else s.(verifiers := s.verifiers[v := Called(t, |s.log|)])
    case FetchEnds(u, r) =>
      if u in s.updaters && s.updaters[u].fetched.None?
      then s.(updaters := s.updaters[u := s.updaters[u].(fetched := Some(r))],
              outcomes := s.outcomes[s.updaters[u].flight := r])
      else s
    case Publish(u) =>
      if u in s.updaters && s.updaters[u].fetched.Some? then PublishStep(s, u, s.updaters[u].fetched.value) else s
    case Enter(v, u) =>
      if v in s.verifiers && s.verifiers[v].Joining? && u !in s.updaters then EnterStep(s, v, u) else s
    case _ =>
      if e.v in s.verifiers then s.(verifiers := s.verifiers[e.v := Move(c, s, s.verifiers[e.v], e)]) else s
  }

  /** The steps that change nothing but the verifier's own progress. */
  function Move(c: Config, s: State, v: Verifier, e: Event): Verifier
    requires e.ReadStdKeys? || e.ReadGMKeys? || e.Return? || e.Cancel?
  {
    match e
    case ReadStdKeys(_) => if v.Called? then ReadStd(v.t, v.since, s.shared.cache.std, |s.log|) else v
    case ReadGMKeys(_) =>
      if v.ReadStd? then
        var verdict := c.Cached(v.t, KeySets(v.std, s.shared.cache.gm));
        if verdict == AskRemote then Joining(v.t, v.since)
        else Decided(v.t, v.since, verdict, if c.UsesGM(v.t) then |s.log| else v.at)
      else v
    case Return(_) =>
      if v.Waiting? && v.flight < |s.shared.flights| && s.shared.flights[v.flight].Closed? then
        var r := s.shared.flights[v.flight].result;
        if r.Failed? then GaveUp(v.t) else Decided(v.t, v.since, c.Remote(v.t, r), v.flight + 1)
      else v
    case Cancel(_) => if v.Waiting? then GaveUp(v.t) else v
  }

  function EnterStep(s: State, v: Tid, u: Tid): State
    requires v in s.verifiers && s.verifiers[v].Joining?
  {
    var (shared, f, spawn) := s.shared.Join();
    s.(shared := shared,
       verifiers := s.verifiers[v := Waiting(s.verifiers[v].t, s.verifiers[v].since, f)],
       updaters := if spawn then s.updaters[u := Updater(f, None)] else s.updaters)
  }

  function PublishStep(s: State, u: Tid, r: Fetch): State {
    match s.shared.Publish(r)
    case None => s.(crashed := true)
    case Some(shared) => s.(shared := shared, updaters := s.updaters - {u}, log := s.log + [r])
  }

  function Run(c: Config, es: seq<Event>): State {
    if es == [] then INIT else Step(c, Run(c, es[..|es| - 1]), es[|es| - 1])
  }

  lemma {:induction false} Extend(c: Config, es: seq<Event>, e: Event) returns (es': seq<Event>)
    ensures es' == es + [e] && Run(c, es') == Step(c, Run(c, es), e)
  {
    es' := es + [e];
    assert es'[..|es|] == es;
  }

  /** The key sets of the latest fetch that succeeded, if any did. */
  function LastGood(log: seq<Fetch>): KeySets {
    if log == [] then NO_KEYS
    else if log[|log| - 1].Fetched? then log[|log| - 1].keys
    else LastGood(log[..|log| - 1])
  }

  // ---------------------------------------------------------------------------------------------
  // The invariant
  // ---------------------------------------------------------------------------------------------

  /** The slot is occupied exactly while one updater runs, and that updater owns it. */
  ghost predicate SingleFlight(s: State) {
    && (forall u :: u in s.updaters ==> s.shared.slot == Some(s.updaters[u].flight))
    && (forall u, u' :: u in s.updaters && u' in s.updaters ==> u == u')
    && (s.shared.slot.Some? ==> s.updaters != map[])
  }

  /** Records are published in the order they were made; only the one in the slot is open. */
  ghost predicate FlightsInOrder(s: State) {
    var n := |s.log|;
    && |s.shared.flights| == n + (if s.shared.slot.Some? then 1 else 0)
    && (forall f :: 0 <= f < n ==> s.shared.flights[f] == Closed(s.log[f]))
    && (s.shared.slot.Some? ==> s.shared.slot.value == n && s.shared.flights[n] == Open)
  }

  ghost predicate FetchesAccounted(s: State) {
    && (forall f :: 0 <= f < |s.log| ==> f in s.outcomes && s.outcomes[f] == s.log[f])
    && (forall u :: u in s.updaters && s.updaters[u].fetched.Some? ==>
          s.updaters[u].flight in s.outcomes && s.outcomes[s.updaters[u].flight] == s.updaters[u].fetched.value)
    && (forall f :: f in s.outcomes ==> f < |s.log| || FetchedBy(s, f))
  }

  /** The fetch of this record has ended, and its updater has yet to publish the result. */
  ghost predicate FetchedBy(s: State, f: nat) {
    exists u :: u in s.updaters && s.updaters[u].flight == f && s.updaters[u].fetched.Some?
  }

  ghost predicate CacheIsLatest(s: State) {
    s.shared.cache == LastGood(s.log)
  }

  ghost predicate VerifierInv(c: Config, s: State, v: Verifier) {
    match v
    case Called(_, since) => since <= |s.log|
    case ReadStd(_, since, std, at) => since <= at <= |s.log| && std == LastGood(s.log[..at]).std
    case Joining(_, since) => since <= |s.log|
    case Waiting(_, since, f) => since <= f < |s.shared.flights|
    case Decided(t, since, verdict, basis) =>
      && since <= basis <= |s.log|
      && (c.Lawful() ==> verdict == c.Remote(t, Fetched(LastGood(s.log[..basis]))))
    case GaveUp(_) => true
  }

  ghost predicate Inv(c: Config, s: State) {
    && !s.crashed
    && SingleFlight(s) && FlightsInOrder(s) && FetchesAccounted(s) && CacheIsLatest(s)
    && (forall v :: v in s.verifiers ==> VerifierInv(c, s, s.verifiers[v]))
  }

  lemma {:induction false} MoveKeepsInv(c: Config, s: State, v: Verifier, e: Event)
    requires Inv(c, s) && VerifierInv(c, s, v)
    requires e.ReadStdKeys? || e.ReadGMKeys? || e.Return? || e.Cancel?
    ensures VerifierInv(c, s, Move(c, s, v, e))
  {
    assert s.log[..|s.log|] == s.log;
    if e.ReadGMKeys? && v.ReadStd? {
      var now, before := LastGood(s.log), LastGood(s.log[..v.at]);
      var read := KeySets(v.std, now.gm);
      if c.Cached(v.t, read) != AskRemote && c.Lawful() {
        TornReadIsHarmless(c, v.t, v.std, now.gm, if c.UsesGM(v.t) then now else before);
        CachedVerdictIsRemoteVerdict(c, v.t, if c.UsesGM(v.t) then now else before);
        assert KeySets(now.std, now.gm) == now && KeySets(before.std, before.gm) == before;
      }
    } else if e.Return? && v.Waiting? && v.flight < |s.log| {
      assert s.log[..v.flight + 1][..v.flight] == s.log[..v.flight];
    }
  }

  lemma {:induction false} EnterKeepsInv(c: Config, s: State, v: Tid, u: Tid)
    requires Inv(c, s) && v in s.verifiers && s.verifiers[v].Joining? && u !in s.updaters
    ensures Inv(c, EnterStep(s, v, u))
  {
    var s' := EnterStep(s, v, u);
    if s.shared.slot.None? {
      assert u in s'.updaters;
    }
    forall w | w in s'.verifiers ensures VerifierInv(c, s', s'.verifiers[w]) {
      assert VerifierInv(c, s, s.verifiers[w]);
    }
  }

  lemma {:induction false} PublishKeepsInv(c: Config, s: State, u: Tid)
    requires Inv(c, s) && u in s.updaters && s.updaters[u].fetched.Some?
    ensures Inv(c, PublishStep(s, u, s.updaters[u].fetched.value))
    ensures s.shared.Publish(s.updaters[u].fetched.value).Some?
  {
    var r := s.updaters[u].fetched.value;
    var s' := PublishStep(s, u, r);
    assert s'.log[..|s.log|] == s.log;
    assert s'.updaters == map[];
    forall w | w in s'.verifiers ensures VerifierInv(c, s', s'.verifiers[w]) {
      var v := s'.verifiers[w];
      assert VerifierInv(c, s, v);
      if v.ReadStd? {
        assert s'.log[..v.at] == s.log[..v.at];
      } else if v.Decided? {
        assert s'.log[..v.basis] == s.log[..v.basis];
      }
    }
  }

  lemma {:induction false} FetchEndsKeepsInv(c: Config, s: State, u: Tid, r: Fetch)
    requires Inv(c, s) && u in s.updaters && s.updaters[u].fetched.None?
    ensures Inv(c, Step(c, s, FetchEnds(u, r)))
  {
    var s' := Step(c, s, FetchEnds(u, r));
    assert s'.updaters.Keys == s.updaters.Keys;
    forall w | w in s'.verifiers ensures VerifierInv(c, s', s'.verifiers[w]) {
      assert VerifierInv(c, s, s.verifiers[w]);
    }
  }

  lemma {:induction false} VerifierUpdateKeepsInv(c: Config, s: State, v: Tid, pc: Verifier)
    requires Inv(c, s) && VerifierInv(c, s, pc)
    ensures Inv(c, s.(verifiers := s.verifiers[v := pc]))
  {
    var s' := s.(verifiers := s.verifiers[v := pc]);
    forall w | w in s'.verifiers ensures VerifierInv(c, s', s'.verifiers[w]) {
      assert w != v ==> VerifierInv(c, s, s.verifiers[w]);
    }
  }

  lemma {:induction false} StepKeepsInv(c: Config, s: State, e: Event)
    requires Inv(c, s)
    ensures Inv(c, Step(c, s, e))
  {
    match e
    case Enter(v, u) =>
      if v in s.verifiers && s.verifiers[v].Joining? && u !in s.updaters {
        EnterKeepsInv(c, s, v, u);
      }
    case Publish(u) =>
      if u in s.updaters && s.updaters[u].fetched.Some? {
        PublishKeepsInv(c, s, u);
      }
    case FetchEnds(u, r) =>
      if u in s.updaters && s.updaters[u].fetched.None? {
        FetchEndsKeepsInv(c, s, u, r);
      }
    case Call(v, t) =>
      VerifierUpdateKeepsInv(c, s, v, Called(t, |s.log|));
    case _ =>
      if e.v in s.verifiers {
        MoveKeepsInv(c, s, s.verifiers[e.v], e);
        VerifierUpdateKeepsInv(c, s, e.v, Move(c, s, s.verifiers[e.v], e));
      }
  }

  lemma {:induction false} RunKeepsInv(c: Config, es: seq<Event>)
    ensures Inv(c, Run(c, es))
  {
    if es != [] {
      RunKeepsInv(c, es[..|es| - 1]);
      StepKeepsInv(c, Run(c, es[..|es| - 1]), es[|es| - 1]);
    }
  }

  // ---------------------------------------------------------------------------------------------
  // What every interleaving guarantees
  // ---------------------------------------------------------------------------------------------

  /**
   At most one fetch runs and owns the slot, every other record has been published exactly once, and no
   updater ever dereferences nil or closes a channel twice.
   */
  lemma {:induction false} OneFetchAtATime(c: Config, es: seq<Event>)
    ensures var s := Run(c, es);
            && !s.crashed
            && |s.updaters.Keys| <= 1
            && |s.shared.flights| == |s.log| + |s.updaters.Keys|
            && (s.shared.slot.Some? <==> s.updaters != map[])
            && (forall u :: u in s.updaters ==> s.shared.slot == Some(s.updaters[u].flight))
  {
    RunKeepsInv(c, es);
    var s := Run(c, es);
    if s.updaters.Keys != {} {
      var u :| u in s.updaters.Keys;
      assert s.updaters.Keys == {u};
    }
  }

  /** A verifier joins a record that is still open, and `wait` hands it what that record's fetch returned. */
  lemma {:induction false} WaiterGetsItsFetch(c: Config, es: seq<Event>, v: Tid)
    requires v in Run(c, es).verifiers && Run(c, es).verifiers[v].Waiting?
    ensures var s := Run(c, es);
            var w := s.verifiers[v];
            && w.flight < |s.shared.flights|
            && (s.shared.flights[w.flight].Closed? ==>
                  w.flight in s.outcomes && s.shared.flights[w.flight].result == s.outcomes[w.flight])
  {
    RunKeepsInv(c, es);
    var s := Run(c, es);
    assert VerifierInv(c, s, s.verifiers[v]);
  }

  lemma {:induction false} JoinsAnUnpublishedFetch(c: Config, es: seq<Event>, v: Tid, u: Tid)
    requires v in Run(c, es).verifiers && Run(c, es).verifiers[v].Joining? && u !in Run(c, es).updaters
    ensures var s := Run(c, es + [Enter(v, u)]);
            && v in s.verifiers && s.verifiers[v].Waiting?
            && s.verifiers[v].flight < |s.shared.flights|
            && s.shared.flights[s.verifiers[v].flight] == Open
  {
    assert (es + [Enter(v, u)])[..|es|] == es;
    RunKeepsInv(c, es);
  }

  /**
   The fetch a verifier joins has not ended yet if and only if no updater stands between the end of its
   fetch and the publication of the result.
   */
  lemma {:induction false} JoinedFetchIsRunning(c: Config, es: seq<Event>, v: Tid, u: Tid)
    requires v in Run(c, es).verifiers && Run(c, es).verifiers[v].Joining? && u !in Run(c, es).updaters
    ensures var s := Run(c, es);
            var s' := Run(c, es + [Enter(v, u)]);
            && v in s'.verifiers && s'.verifiers[v].Waiting?
            && (s'.verifiers[v].flight !in s'.outcomes <==>
                  forall w :: w in s.updaters ==> s.updaters[w].fetched.None?)
  {
    assert (es + [Enter(v, u)])[..|es|] == es;
    RunKeepsInv(c, es);
    var s := Run(c, es);
    var f := EnterStep(s, v, u).verifiers[v].flight;
    if f in s.outcomes {
      assert FetchedBy(s, f);
    } else if s.shared.slot.None? {
      assert s.updaters == map[];
    }
  }

  /**
   The fetch may nevertheless have ended before the verifier joined: between the end of the HTTP
   request and the updater's lock section the record is still in the slot.
   */
  lemma {:induction false} JoinedFetchMayHaveEnded(c: Config, t: Token, v: Tid, w: Tid, u: Tid, u': Tid, r: Fetch)
    returns (es: seq<Event>)
    requires v != w && u != u'
    ensures var s := Run(c, es);
            && w in s.verifiers && s.verifiers[w].Joining?
            && u in s.updaters && s.updaters[u].fetched == Some(r)
            && Step(c, s, Enter(w, u')).verifiers[w] == Waiting(t, 0, s.updaters[u].flight)
  {
    es := Extend(c, [], Call(v, t));
    es := Extend(c, es, ReadStdKeys(v));
    es := Extend(c, es, ReadGMKeys(v));
    es := Extend(c, es, Enter(v, u));
    es := Extend(c, es, FetchEnds(u, r));
    es := Extend(c, es, Call(w, t));
    es := Extend(c, es, ReadStdKeys(w));
    es := Extend(c, es, ReadGMKeys(w));
  }

  /** No waiter is forgotten: while its record is open, the updater spawned for that record is alive. */
  lemma {:induction false} NoWaiterIsOrphaned(c: Config, es: seq<Event>, v: Tid)
    requires v in Run(c, es).verifiers && Run(c, es).verifiers[v].Waiting?
    ensures var s := Run(c, es);
            var f := s.verifiers[v].flight;
            && f < |s.shared.flights|
            && (s.shared.flights[f] == Open ==> exists u :: u in s.updaters && s.updaters[u].flight == f)
  {
    RunKeepsInv(c, es);
    var s := Run(c, es);
    assert VerifierInv(c, s, s.verifiers[v]);
    var f := s.verifiers[v].flight;
    if s.shared.flights[f] == Open {
      var u :| u in s.updaters;
    }
  }

  lemma {:induction false} SlotIsOpen(c: Config, s: State, u: Tid)
    requires Inv(c, s) && u in s.updaters
    ensures var f := s.updaters[u].flight;
            s.shared.slot == Some(f) && f < |s.shared.flights| && s.shared.flights[f] == Open
  {
  }

  lemma {:induction false} UpdaterCanPublish(c: Config, s: State, u: Tid, r: Fetch)
    requires u in s.updaters && s.shared.slot == Some(s.updaters[u].flight)
    requires s.updaters[u].flight < |s.shared.flights| && s.shared.flights[s.updaters[u].flight] == Open
    ensures var s' := Step(c, Step(c, s, FetchEnds(u, r)), Publish(u));
            && s'.verifiers == s.verifiers
            && s.updaters[u].flight < |s'.shared.flights|
            && s'.shared.flights[s.updaters[u].flight].Closed?
  {
    var fetched := Step(c, s, FetchEnds(u, r));
    assert fetched.shared == s.shared && u in fetched.updaters && fetched.updaters[u].fetched.Some?;
    assert Step(c, fetched, Publish(u)) == PublishStep(fetched, u, fetched.updaters[u].fetched.value);
  }

  /** In every reachable state a waiter is at most one end of a fetch and one publication away from its answer. */
  lemma {:induction false} WaiterCanFinish(c: Config, es: seq<Event>, v: Tid, r: Fetch)
    requires v in Run(c, es).verifiers && Run(c, es).verifiers[v].Waiting?
    ensures exists u :: var s := Run(c, es);
                        var s' := Step(c, Step(c, Step(c, s, FetchEnds(u, r)), Publish(u)), Return(v));
                        v in s'.verifiers && (s'.verifiers[v].Decided? || s'.verifiers[v].GaveUp?)
  {
    NoWaiterIsOrphaned(c, es, v);
    RunKeepsInv(c, es);
    var s := Run(c, es);
    var f := s.verifiers[v].flight;
    if s.shared.flights[f] == Open {
      var u :| u in s.updaters && s.updaters[u].flight == f;
      SlotIsOpen(c, s, u);
      UpdaterCanPublish(c, s, u, r);
    } else {
      var u: Tid :| true;
      StepKeepsClosed(c, s, FetchEnds(u, r), v, f);
      StepKeepsClosed(c, Step(c, s, FetchEnds(u, r)), Publish(u), v, f);
    }
  }

  lemma StepKeepsClosed(c: Config, s: State, e: Event, v: Tid, f: nat)
    requires e.FetchEnds? || e.Publish?
    requires f < |s.shared.flights| && s.shared.flights[f].Closed?
    ensures var s' := Step(c, s, e);
            s'.verifiers == s.verifiers && f < |s'.shared.flights| && s'.shared.flights[f].Closed?
  {}

  /** The cache holds the keys of the latest successful fetch; a failed fetch leaves it alone. */
  lemma {:induction false} CacheFollowsSuccessfulFetches(c: Config, es: seq<Event>)
    ensures var s := Run(c, es);
            && s.shared.cache == LastGood(s.log)
            && forall f :: 0 <= f < |s.log| ==> f in s.outcomes && s.log[f] == s.outcomes[f]
  {
    RunKeepsInv(c, es);
  }

  lemma {:induction false} LastGoodWasFetched(log: seq<Fetch>)
    ensures LastGood(log) == NO_KEYS || exists i :: 0 <= i < |log| && log[i] == Fetched(LastGood(log))
  {
    if log != [] && log[|log| - 1].Failed? {
      LastGoodWasFetched(log[..|log| - 1]);
    }
  }

  ghost predicate Underway(s: State, v: Tid) {
    v in s.verifiers && !s.verifiers[v].Decided? && !s.verifiers[v].GaveUp?
  }

  /** The fetch that a waiting verifier joined has been published with this result. */
  ghost predicate HasResult(s: State, v: Tid, r: Fetch) {
    && v in s.verifiers && s.verifiers[v].Waiting? && s.verifiers[v].flight < |s.shared.flights|
    && s.shared.flights[s.verifiers[v].flight] == Closed(r)
  }

  /** The verdict that a verifier, having read the standard keys, finds in the cache. */
  ghost predicate FoundInCache(c: Config, s: State, v: Tid, verdict: Verdict) {
    && v in s.verifiers && s.verifiers[v].ReadStd? && verdict != AskRemote
    && c.Cached(s.verifiers[v].t, KeySets(s.verifiers[v].std, s.shared.cache.gm)) == verdict
  }

  /**
   A verifier decides in exactly two steps: by what it finds in the cache, or by returning from a fetch
   that succeeded.  It gives up in exactly two: when it is cancelled while waiting, and when the fetch failed.
   */
  lemma {:induction false} DecidesExactly(c: Config, s: State, e: Event, v: Tid, verdict: Verdict)
    requires Underway(s, v)
    ensures var s' := Step(c, s, e);
            && v in s'.verifiers
            && (s'.verifiers[v].Decided? && s'.verifiers[v].verdict == verdict <==>
                  (e == ReadGMKeys(v) && FoundInCache(c, s, v, verdict)) ||
                  (e == Return(v) && exists keys :: HasResult(s, v, Fetched(keys))
                                                    && verdict == c.Remote(s.verifiers[v].t, Fetched(keys))))
            && (s'.verifiers[v].GaveUp? <==>
                  (e == Cancel(v) && s.verifiers[v].Waiting?) || (e == Return(v) && HasResult(s, v, Failed)))
  {
    if e == Return(v) && s.verifiers[v].Waiting? && s.verifiers[v].flight < |s.shared.flights| {
      var f := s.shared.flights[s.verifiers[v].flight];
      if f.Closed? && f.result.Fetched? {
        assert HasResult(s, v, Fetched(f.result.keys));
      }
    } else if e.Call? || e.FetchEnds? || e.Publish? || e.Enter? {
      OthersLeaveIt(c, s, e, v);
    }
  }

  /** Entering `keysFromRemote` only makes a verifier wait, and updaters do not touch verifiers at all. */
  lemma {:induction false} OthersLeaveIt(c: Config, s: State, e: Event, v: Tid)
    requires v in s.verifiers && (e.Call? || e.FetchEnds? || e.Publish? || e.Enter?)
    ensures var s' := Step(c, s, e);
            && v in s'.verifiers
            && (s'.verifiers[v] == s.verifiers[v] || (s.verifiers[v].Joining? && s'.verifiers[v].Waiting?))
  {
  }

  /**
   Verification is linearizable: whatever else runs, a verdict is the one the cache-free path gives on
   the key sets that were current at some instant between the call and the return.
   */
  lemma {:induction false} VerdictsAreLinearizable(c: Config, es: seq<Event>, v: Tid)
    requires c.Lawful() && v in Run(c, es).verifiers && Run(c, es).verifiers[v].Decided?
    ensures var s := Run(c, es);
            var d := s.verifiers[v];
            d.since <= d.basis <= |s.log| && d.verdict == c.Remote(d.t, Fetched(LastGood(s.log[..d.basis])))
  {
    RunKeepsInv(c, es);
    assert VerifierInv(c, Run(c, es), Run(c, es).verifiers[v]);
  }

  /** Every accepted token verifies under a fitting key that some successful fetch returned. */
  lemma {:induction false} AcceptedUnderFetchedKeys(c: Config, es: seq<Event>, v: Tid)
    requires c.Lawful() && v in Run(c, es).verifiers
    requires Run(c, es).verifiers[v].Decided? && Run(c, es).verifiers[v].verdict.Accept?
    ensures var s := Run(c, es);
            exists i :: 0 <= i < |s.log| && s.log[i].Fetched? && VouchedFor(c, s.verifiers[v].t, s.log[i].keys)
  {
    VerdictsAreLinearizable(c, es, v);
    var s := Run(c, es);
    var keys := LastGood(s.log[..s.verifiers[v].basis]);
    AcceptedIsVouchedFor(c, s.verifiers[v].t, keys);
    LastGoodWasFetched(s.log[..s.verifiers[v].basis]);
  }
}
