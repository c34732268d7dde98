/**
 The relying party's remote key set: signature verification against a cached key set with a fall-back
 to a fresh fetch, and the two critical sections of the single-flight fetch.

 The signature library is a parameter (`Library`): only the shape of its answers matters here.
 */
module RemoteKeySets {
  import opened Basics
  import opened KeyMatching

  type Payload(==, !new)

  type Body(==, !new)

  /** A parsed JWS; `alg` is empty when the protected header has no algorithm. */
  datatype Token = Token(kid: Label, alg: string, body: Body)

  datatype GMKey = GMKey(kid: Label, alg: string, material: Material)

  /** One parsed key-set document: the keys jwx understands and the SM2/SM9 keys. */
  datatype KeySets = KeySets(std: seq<Jwk>, gm: seq<GMKey>)

  datatype Fetch = Fetched(keys: KeySets) | Failed

  /** Go's pair of a possibly nil payload and a possibly nil error. */
  datatype Outcome = Outcome(payload: Option<Payload>, err: bool)

  datatype Library = Library(verify: (Jwk, Token) -> Outcome, verifyGM: (GMKey, Token) -> Outcome)

  datatype Verdict = Accept(payload: Option<Payload>) | Reject | AskRemote

  const NO_KEYS := KeySets([], [])

  predicate IsGMAlgorithm(alg: string) {
    alg == "SGD_SM3_SM2" || alg == "SM2-SM3" || alg == "SGD_SM3_SM9"
  }

  function FindGM(keys: seq<GMKey>, kid: Label, alg: string): Option<GMKey> {
    if keys == [] then None
    else if keys[0].alg == alg && (kid == Empty || keys[0].kid == kid) then Some(keys[0])
    else FindGM(keys[1..], kid, alg)
  }

  /** The configuration of one key set. */
  datatype Config = Config(defaultAlg: string, skipRemoteCheck: bool, lib: Library) {

    function Alg(t: Token): string {
      if t.alg == "" then defaultAlg else t.alg
    }

    predicate UsesGM(t: Token) {
      IsGMAlgorithm(Alg(t))
    }

    function Pick(t: Token, std: seq<Jwk>): Lookup {
      Find(Query(t.kid, Signature, Alg(t)), std)
    }

    predicate ExactMatch(jwkKid: Label, jwsKid: Label) {
      if jwkKid == Empty && jwsKid == Empty then skipRemoteCheck else jwkKid == jwsKid
    }

    /** `verifySignatureCached`; `AskRemote` is the pair of two nils. */
    function Cached(t: Token, cache: KeySets): Verdict {
      if cache.std == [] && cache.gm == [] then AskRemote
      else if UsesGM(t) then CachedGM(t, cache.gm)
      else if cache.std == [] then AskRemote
      else
        match Pick(t, cache.std)
        case Found(k) =>
          if t.alg == "" then AskRemote
          else
            var o := lib.verify(k, t);
            if o.payload.Some? then Accept(o.payload)
            else if ExactMatch(k.kid, t.kid) then Reject
            else AskRemote
        case _ => AskRemote
    }

    function CachedGM(t: Token, gm: seq<GMKey>): Verdict {
      match FindGM(gm, t.kid, Alg(t))
      case None => AskRemote
      case Some(k) =>
        var o := lib.verifyGM(k, t);
        if o.err then if t.kid != Empty && k.kid != t.kid then AskRemote else Reject
        else if o.payload.Some? then Accept(o.payload)
        else AskRemote
    }

    /** `verifySignatureRemote` once the fetch has ended; this is also the path without any cache. */
    function Remote(t: Token, fetch: Fetch): Verdict {
      match fetch
      case Failed => Reject
      case Fetched(keys) =>
        if UsesGM(t) then
          match FindGM(keys.gm, t.kid, Alg(t))
          case None => Reject
          case Some(k) =>
            var o := lib.verifyGM(k, t);
            if o.err then Reject else Accept(o.payload)
        else
          match Pick(t, keys.std)
          case Found(k) =>
            if t.alg == "" then Reject
            else
              var o := lib.verify(k, t);
              if o.err then Reject else Accept(o.payload)
          case _ => Reject
    }

    function VerifySignature(t: Token, cache: KeySets, fetch: Fetch): Verdict {
      var v := Cached(t, cache);
      if v == AskRemote then Remote(t, fetch) else v
    }

    /** The library's promise for standard keys: a payload comes back exactly when there is no error. */
    ghost predicate Lawful() {
      forall k, t :: lib.verify(k, t).payload.Some? <==> !lib.verify(k, t).err
    }

    /** An answer of the library that only one of the two paths takes for a success. */
    ghost predicate Ambiguous(t: Token, keys: KeySets) {
      && !UsesGM(t) && t.alg != "" && Pick(t, keys.std).Found?
      && var k := Pick(t, keys.std).key;
         var o := lib.verify(k, t);
         if o.payload.Some? then o.err else !o.err && ExactMatch(k.kid, t.kid)
    }
  }

  lemma {:induction false} FindGMKeepsKid(keys: seq<GMKey>, kid: Label, alg: string)
    ensures var r := FindGM(keys, kid, alg);
            r.Some? ==> r.value in keys && r.value.alg == alg && (kid == Empty || r.value.kid == kid)
  {
    if keys != [] {
      FindGMKeepsKid(keys[1..], kid, alg);
    }
  }

  predicate FitsGM(k: GMKey, kid: Label, alg: string) {
    k.alg == alg && (kid == Empty || k.kid == kid)
  }

  /** The first key of the list with the algorithm and, if the header has one, the id. */
  ghost predicate IsFirstGM(keys: seq<GMKey>, i: int, kid: Label, alg: string) {
    0 <= i < |keys| && FitsGM(keys[i], kid, alg) && forall j :: 0 <= j < i ==> !FitsGM(keys[j], kid, alg)
  }

  lemma {:induction false} FindGMIsFirst(keys: seq<GMKey>, kid: Label, alg: string)
    ensures var r := FindGM(keys, kid, alg);
            && (r.None? <==> forall k :: k in keys ==> !FitsGM(k, kid, alg))
            && (forall k :: r == Some(k) <==> exists i :: IsFirstGM(keys, i, kid, alg) && keys[i] == k)
  {
    if keys != [] {
      var rest := keys[1..];
      FindGMIsFirst(rest, kid, alg);
      assert keys == [keys[0]] + rest;
      if FitsGM(keys[0], kid, alg) {
        assert IsFirstGM(keys, 0, kid, alg);
        assert forall i :: IsFirstGM(keys, i, kid, alg) ==> i == 0;
      } else {
        forall k
          ensures FindGM(keys, kid, alg) == Some(k) <==> exists i :: IsFirstGM(keys, i, kid, alg) && keys[i] == k
        {
          if i :| IsFirstGM(rest, i, kid, alg) && rest[i] == k {
            assert IsFirstGM(keys, i + 1, kid, alg) && keys[i + 1] == k;
          }
          if i :| IsFirstGM(keys, i, kid, alg) && keys[i] == k {
            assert IsFirstGM(rest, i - 1, kid, alg) && rest[i - 1] == k;
          }
        }
      }
    }
  }

  // ---------------------------------------------------------------------------------------------
  // When the two paths accept
  // ---------------------------------------------------------------------------------------------

  /** The key that decides about a token, by the positions of the two lists, and what the library says about it. */
  ghost predicate StandardOutcome(c: Config, t: Token, keys: KeySets, o: Outcome) {
    t.alg != "" && exists k :: Answers(Query(t.kid, Signature, t.alg), keys.std, Found(k)) && c.lib.verify(k, t) == o
  }

  ghost predicate GMOutcome(c: Config, t: Token, keys: KeySets, alg: string, o: Outcome) {
    exists i :: IsFirstGM(keys.gm, i, t.kid, alg) && c.lib.verifyGM(keys.gm[i], t) == o
  }

  ghost predicate DecidedBy(c: Config, t: Token, keys: KeySets, o: Outcome) {
    var alg := if t.alg == "" then c.defaultAlg else t.alg;
    if alg == "SGD_SM3_SM2" || alg == "SM2-SM3" || alg == "SGD_SM3_SM9" then GMOutcome(c, t, keys, alg, o)
    else StandardOutcome(c, t, keys, o)
  }

  lemma {:induction false} DecidedByOne(c: Config, t: Token, keys: KeySets, o: Outcome)
    ensures DecidedBy(c, t, keys, o) <==>
              if c.UsesGM(t) then
                var k := FindGM(keys.gm, t.kid, c.Alg(t)); k.Some? && c.lib.verifyGM(k.value, t) == o
              else t.alg != "" && var k := c.Pick(t, keys.std); k.Found? && c.lib.verify(k.key, t) == o
  {
    if c.UsesGM(t) {
      FindGMIsFirst(keys.gm, t.kid, c.Alg(t));
      if k :| FindGM(keys.gm, t.kid, c.Alg(t)) == Some(k) {
        var i :| IsFirstGM(keys.gm, i, t.kid, c.Alg(t)) && keys.gm[i] == k;
        assert forall j :: IsFirstGM(keys.gm, j, t.kid, c.Alg(t)) ==> j == i;
      }
    } else {
      forall k ensures Answers(Query(t.kid, Signature, t.alg), keys.std, Found(k)) <==>
                       Find(Query(t.kid, Signature, t.alg), keys.std) == Found(k) {
        OnlyFindAnswers(Query(t.kid, Signature, t.alg), keys.std, Found(k));
      }
    }
  }

  /** A cached key set accepts a token exactly if the deciding key yields the payload, for GM keys without an error. */
  lemma {:induction false} CachedAcceptsExactly(c: Config, t: Token, cache: KeySets, payload: Option<Payload>)
    ensures c.Cached(t, cache) == Accept(payload) <==>
              payload.Some? && (DecidedBy(c, t, cache, Outcome(payload, false)) ||
                                (!c.UsesGM(t) && DecidedBy(c, t, cache, Outcome(payload, true))))
  {
    DecidedByOne(c, t, cache, Outcome(payload, false));
    DecidedByOne(c, t, cache, Outcome(payload, true));
    FindGMIsFirst(cache.gm, t.kid, c.Alg(t));
    FoundFits(Query(t.kid, Signature, c.Alg(t)), cache.std);
  }

  /** The cache-free path accepts a token exactly if the fetch succeeded and the deciding key yields no error. */
  lemma {:induction false} RemoteAcceptsExactly(c: Config, t: Token, fetch: Fetch, payload: Option<Payload>)
    ensures c.Remote(t, fetch) == Accept(payload) <==>
              fetch.Fetched? && DecidedBy(c, t, fetch.keys, Outcome(payload, false))
    ensures c.Remote(t, fetch).Accept? || c.Remote(t, fetch) == Reject
  {
    if fetch.Fetched? {
      DecidedByOne(c, t, fetch.keys, Outcome(payload, false));
    }
  }

  /**
   When the cache holds what the server publishes, the cached path answers as the cache-free path for
   exactly those tokens on which the library's two results do not contradict each other.
   */
  lemma {:induction false} CachedPathAgreesExactly(c: Config, t: Token, keys: KeySets)
    ensures c.VerifySignature(t, keys, Fetched(keys)) == c.Remote(t, Fetched(keys)) <==> !c.Ambiguous(t, keys)
  {
    FindGMKeepsKid(keys.gm, t.kid, c.Alg(t));
  }

  /** Either contradictory answer separates the paths: a payload with an error, or neither, under an exact match. */
  lemma {:induction false} ContradictionSeparatesPaths(k: Jwk, body: Body, o: Outcome) returns (c: Config, t: Token)
    requires k.kty == RSA && k.use == Signature && k.kid != Empty && (o.payload.Some? <==> o.err)
    ensures c.lib.verify(k, t) == o
    ensures c.VerifySignature(t, KeySets([k], []), Fetched(KeySets([k], []))) != c.Remote(t, Fetched(KeySets([k], [])))
  {
    c := Config("", false, Library((_, _) => o, (_, _) => o));
    t := Token(k.kid, "RS256", body);
    assert "RS256"[..2] == "RS";
    assert c.Pick(t, [k]) == Found(k);
  }

  /** With a library that keeps its promise the cache is transparent, for standard and GM keys alike. */
  lemma {:induction false} CacheIsTransparent(c: Config, t: Token, keys: KeySets)
    requires c.Lawful()
    ensures c.VerifySignature(t, keys, Fetched(keys)) == c.Remote(t, Fetched(keys))
  {
    CachedPathAgreesExactly(c, t, keys);
  }

  /** A verdict reached in the cache is the verdict of the cache-free path on the cached keys. */
  lemma {:induction false} CachedVerdictIsRemoteVerdict(c: Config, t: Token, keys: KeySets)
    requires c.Lawful() && c.Cached(t, keys) != AskRemote
    ensures c.Cached(t, keys) == c.Remote(t, Fetched(keys))
  {
    CacheIsTransparent(c, t, keys);
  }

  /** A key of the set under which the library accepts the token, and which the header does not rule out. */
  ghost predicate VouchedFor(c: Config, t: Token, keys: KeySets) {
    if c.UsesGM(t) then
      exists k :: k in keys.gm && k.alg == c.Alg(t) && (t.kid == Empty || k.kid == t.kid) && !c.lib.verifyGM(k, t).err
    else
      exists k :: k in keys.std && (k.use == Signature || k.use == Unspecified) && AlgMatchesType(k.kty, c.Alg(t))
        && (k.kid == t.kid || k.kid == Empty || t.kid == Empty) && !c.lib.verify(k, t).err
  }

  /** The cache-free path accepts only what a fitting signature key of the fetched set vouches for. */
  lemma {:induction false} AcceptedIsVouchedFor(c: Config, t: Token, keys: KeySets)
    requires c.Remote(t, Fetched(keys)).Accept?
    ensures VouchedFor(c, t, keys)
  {
    FindGMKeepsKid(keys.gm, t.kid, c.Alg(t));
    FoundFits(Query(t.kid, Signature, c.Alg(t)), keys.std);
  }

  /** For standard keys only a failure under equal ids, or under two absent ids when told to, is final. */
  lemma {:induction false} StandardRejectionNeedsExactMatch(c: Config, t: Token, cache: KeySets)
    requires !c.UsesGM(t)
    ensures c.Cached(t, cache) == Reject <==>
              && t.alg != "" && c.Pick(t, cache.std).Found?
              && c.lib.verify(c.Pick(t, cache.std).key, t).payload.None?
              && var kid := c.Pick(t, cache.std).key.kid;
                 (kid == t.kid != Empty || (kid == t.kid == Empty && c.skipRemoteCheck))
  {
    if c.Pick(t, cache.std).Found? {
      FoundFits(Query(t.kid, Signature, c.Alg(t)), cache.std);
    }
  }

  /** A GM signature that fails under the selected cached key is final, whether or not the header has an id. */
  lemma {:induction false} GMRejectionIsAlwaysFinal(c: Config, t: Token, cache: KeySets)
    requires c.UsesGM(t)
    ensures c.Cached(t, cache) == Reject <==>
              var k := FindGM(cache.gm, t.kid, c.Alg(t)); k.Some? && c.lib.verifyGM(k.value, t).err
  {
    FindGMKeepsKid(cache.gm, t.kid, c.Alg(t));
  }

  /**
   So a token without a key id that was signed with the new GM key of a server is rejected while the old
   key is cached, although the cache-free path accepts it.
   */
  lemma {:induction false} GMTokenWithoutIdIsRejected(cached: GMKey, current: GMKey, body: Body, p: Payload)
    returns (c: Config, t: Token)
    requires cached != current && cached.alg == current.alg == "SGD_SM3_SM2"
    ensures t.kid == Empty && c.UsesGM(t)
    ensures c.VerifySignature(t, KeySets([], [cached]), Fetched(KeySets([], [current]))) == Reject
    ensures c.Remote(t, Fetched(KeySets([], [current]))) == Accept(Some(p))
  {
    c := Config("", false, Library((_, _) => Outcome(None, true),
                                   (k, _) => if k == current then Outcome(Some(p), false) else Outcome(None, true)));
    t := Token(Empty, "SGD_SM3_SM2", body);
    assert FindGM([cached], Empty, "SGD_SM3_SM2") == Some(cached);
    assert FindGM([current], Empty, "SGD_SM3_SM2") == Some(current);
  }

  /**
   The two cached fields are read under two separate locks.  A verdict uses only one of them, so a
   pair torn between two publications gives the verdict of an untorn one.
   */
  lemma {:induction false} TornReadIsHarmless(c: Config, t: Token, std: seq<Jwk>, gm: seq<GMKey>, other: KeySets)
    ensures !c.UsesGM(t) ==> c.Cached(t, KeySets(std, gm)) == c.Cached(t, KeySets(std, other.gm))
    ensures c.UsesGM(t) ==> c.Cached(t, KeySets(std, gm)) == c.Cached(t, KeySets(other.std, gm))
  {}

  // ---------------------------------------------------------------------------------------------
  // The critical sections of the single-flight fetch
  // ---------------------------------------------------------------------------------------------

  /** One in-flight record: its channel is open until a result is recorded. */
  datatype Flight = Open | Closed(result: Fetch)

  datatype Shared = Shared(slot: Option<nat>, flights: seq<Flight>, cache: KeySets) {

    /** The locked part of `keysFromRemote`: the record to wait on, and whether a goroutine is started. */
    function Join(): (Shared, nat, bool) {
      match slot
      case Some(f) => (this, f, false)
      case None => (Shared(Some(|flights|), flights + [Open], cache), |flights|, true)
    }

    /** The locked part of `updateKeys`; `None` when it would dereference nil or close a channel twice. */
    function Publish(r: Fetch): Option<Shared> {
      if slot.None? || |flights| <= slot.value || flights[slot.value].Closed? then None
      else
        Some(Shared(None, flights[slot.value := Closed(r)], if r.Fetched? then r.keys else cache))
    }
  }

  class Inflight {
    var closed: bool
    var result: Fetch

    constructor ()
      ensures !closed
    {
      closed, result := false, Failed;
    }

    method Done(r: Fetch)
      requires !closed
      modifies this
      ensures closed && result == r
    {
      result := r;
      closed := true;
    }
  }

  class RemoteKeySet {
    var inflight: Inflight?
    var cachedKeys: seq<Jwk>
    var cachedGMKeys: seq<GMKey>

    /** Every record ever made, and the position of the current one. */
    ghost var Flights: seq<Inflight>
    ghost var Slot: Option<nat>

    ghost predicate Valid()
      reads this
    {
      && (forall i, j :: 0 <= i < j < |Flights| ==> Flights[i] != Flights[j])
      && (Slot.None? <==> inflight == null)
      && (Slot.Some? ==> Slot.value < |Flights| && Flights[Slot.value] == inflight)
    }

    ghost function View(): Shared
      reads this, Flights
    {
      Shared(Slot, seq(|Flights|, i requires 0 <= i < |Flights| reads this, Flights =>
                         if Flights[i].closed then Closed(Flights[i].result) else Open),
             KeySets(cachedKeys, cachedGMKeys))
    }

    constructor ()
      ensures Valid() && View() == Shared(None, [], NO_KEYS)
    {
      inflight, cachedKeys, cachedGMKeys := null, [], [];
      Flights, Slot := [], None;
    }

    method EnterRemote() returns (f: Inflight, spawn: bool, ghost id: nat)
      requires Valid()
      modifies this
      ensures Valid() && (View(), id, spawn) == old(View()).Join()
      ensures id < |Flights| && Flights[id] == f
    {
      spawn := inflight == null;
      if inflight == null {
        inflight := new Inflight();
        Slot, Flights := Some(|Flights|), Flights + [inflight];
        assert View().flights == old(View()).flights + [Open];
      } else {
        assert View() == old(View());
      }
      f, id := inflight, Slot.value;
    }

    method PublishKeys(r: Fetch)
      requires Valid() && View().Publish(r).Some?
      modifies this, inflight
      ensures Valid() && View() == old(View()).Publish(r).value
    {
      if r.Fetched? {
        cachedKeys := r.keys.std;
        cachedGMKeys := r.keys.gm;
      }
      inflight.Done(r);
      inflight, Slot := null, None;
    }
  }
}
