/**
 The server's signing keys: generation at start-up, rotation by prepending, the two ways to choose a
 key for signing, and the adapter that looks up a verification key in the same list.
 */
module SigningKeys {
  import opened KeyMatching

  datatype Kind = RSAKey | ECKey | EdKey | SM2Key | SM9Key

  datatype SigningKey = SigningKey(id: Name, algorithm: string, kind: Kind, material: Material)

  datatype Choice = Chosen(key: SigningKey) | NoSigningKey

  /** The keys as `jwk.Key` values, or the nil dereference that ends the conversion. */
  datatype Exported = Jwks(keys: seq<Jwk>) | NilKey

  /**
   `Key()` has a jwx form for RSA, EC and Ed25519 keys; the usage is always "sig".  For an SM9 key it returns
   nil, on which the adapter sets the id.  For an SM2 key it is assumed that the jwx library refuses to
   import the foreign key type, so that `Key()` itself sets parameters on nil.
   */
  predicate HasJwk(k: SigningKey) {
    k.kind == RSAKey || k.kind == ECKey || k.kind == EdKey
  }

  function ToJwk(k: SigningKey): Jwk
    requires HasJwk(k)
  {
    Jwk(Label(k.id), Signature, match k.kind case RSAKey => RSA case ECKey => EC case _ => OKP, k.material)
  }

  /** The start-up switch over the configured algorithm names; an unknown name makes no key. */
  function Generate(alg: string, id: Name, m: Material): Choice {
    if alg in {"RS256", "RS384", "RS512", "PS256", "PS384", "PS512"} then Chosen(SigningKey(id, alg, RSAKey, m))
    else if alg in {"ES256", "ES384", "ES512"} then Chosen(SigningKey(id, alg, ECKey, m))
    else if alg == "EdDSA" then Chosen(SigningKey(id, alg, EdKey, m))
    else if alg == "SGD_SM3_SM2" then Chosen(SigningKey(id, alg, SM2Key, m))
    else if alg == "SGD_SM3_SM9" then Chosen(SigningKey(id, alg, SM9Key, m))
    else NoSigningKey
  }

  datatype Event = StartUp(alg: string, id: Name, m: Material) | Rotate(id: Name, m: Material)

  function Step(keys: seq<SigningKey>, e: Event): seq<SigningKey> {
    match e
    case StartUp(alg, id, m) =>
      var g := Generate(alg, id, m);
      if g.Chosen? then keys + [g.key] else keys
    case Rotate(id, m) => [SigningKey(id, "RS256", RSAKey, m)] + keys
  }

  function Run(es: seq<Event>): seq<SigningKey> {
    if es == [] then [] else Step(Run(es[..|es| - 1]), es[|es| - 1])
  }

  function Default(keys: seq<SigningKey>): Choice {
    if keys == [] then NoSigningKey else Chosen(keys[0])
  }

  function ByAlg(keys: seq<SigningKey>, alg: string): Choice {
    if keys == [] then NoSigningKey
    else if keys[0].algorithm == alg then Chosen(keys[0])
    else ByAlg(keys[1..], alg)
  }

  /** The adapter's conversion loop. */
  function Export(keys: seq<SigningKey>): Exported {
    if keys == [] then Jwks([])
    else
      var front := Export(keys[..|keys| - 1]);
      if front.NilKey? || !HasJwk(keys[|keys| - 1]) then NilKey
      else Jwks(front.keys + [ToJwk(keys[|keys| - 1])])
  }

  class KeyStore {
    var signingKeys: seq<SigningKey>

    constructor ()
      ensures signingKeys == []
    {
      signingKeys := [];
    }

    method AddAtStartUp(alg: string, id: Name, m: Material)
      modifies this
      ensures signingKeys == Step(old(signingKeys), StartUp(alg, id, m))
    {
      var g := Generate(alg, id, m);
      if g.Chosen? {
        signingKeys := signingKeys + [g.key];
      }
    }

    method RotateSigningKey(id: Name, m: Material)
      modifies this
      ensures signingKeys == Step(old(signingKeys), Rotate(id, m))
    {
      signingKeys := [SigningKey(id, "RS256", RSAKey, m)] + signingKeys;
    }

    method DefaultSigningKey() returns (r: Choice)
      ensures r == Default(signingKeys)
      ensures r.Chosen? <==> signingKeys != []
      ensures r.Chosen? ==> r.key in signingKeys && ByAlg(signingKeys, r.key.algorithm) == r
    {
      r := if |signingKeys| == 0 then NoSigningKey else Chosen(signingKeys[0]);
    }

    method SigningKeyByAlg(alg: string) returns (r: Choice)
      ensures r == ByAlg(signingKeys, alg)
    {
      var i := 0;
      while i < |signingKeys|
        invariant 0 <= i <= |signingKeys| && ByAlg(signingKeys, alg) == ByAlg(signingKeys[i..], alg)
      {
        if signingKeys[i].algorithm == alg {
          return Chosen(signingKeys[i]);
        }
        assert signingKeys[i..][1..] == signingKeys[i + 1..];
        i := i + 1;
      }
      r := NoSigningKey;
    }

    method ExportKeys() returns (r: Exported)
      ensures r == Export(signingKeys)
    {
      var keys: seq<Jwk> := [];
      for i := 0 to |signingKeys|
        invariant Export(signingKeys[..i]) == Jwks(keys)
      {
        assert signingKeys[..i + 1][..i] == signingKeys[..i];
        if !HasJwk(signingKeys[i]) {
          NilKeyStays(signingKeys, i + 1);
          return NilKey;
        }
        keys := keys + [ToJwk(signingKeys[i])];
      }
      assert signingKeys[..|signingKeys|] == signingKeys;
      r := Jwks(keys);
    }
  }

  lemma {:induction false} NilKeyStays(keys: seq<SigningKey>, n: nat)
    requires n <= |keys| && Export(keys[..n]) == NilKey
    ensures Export(keys) == NilKey
    decreases |keys| - n
  {
    if n == |keys| {
      assert keys[..n] == keys;
    } else {
      assert keys[..n + 1][..n] == keys[..n];
      NilKeyStays(keys, n + 1);
    }
  }

  // ---------------------------------------------------------------------------------------------
  // Rotation against lookup
  // ---------------------------------------------------------------------------------------------

  ghost predicate FreshIds(es: seq<Event>) {
    forall i, j :: 0 <= i < j < |es| ==> es[i].id != es[j].id
  }

  ghost predicate DistinctIds(keys: seq<SigningKey>) {
    forall i, j :: 0 <= i < j < |keys| ==> keys[i].id != keys[j].id
  }

  predicate WellTyped(k: SigningKey) {
    HasJwk(k) ==> AlgMatchesType(ToJwk(k).kty, k.algorithm)
  }

  lemma {:induction false} GeneratedKeysAreWellTyped(alg: string, id: Name, m: Material)
    ensures var g := Generate(alg, id, m);
            && (g.Chosen? <==> alg in {"RS256", "RS384", "RS512", "PS256", "PS384", "PS512", "ES256", "ES384", "ES512",
                                       "EdDSA", "SGD_SM3_SM2", "SGD_SM3_SM9"})
            && (g.Chosen? ==>
                  && WellTyped(g.key) && g.key.algorithm == alg && g.key.id == id && g.key.material == m
                  && (g.key.kind == SM2Key <==> alg == "SGD_SM3_SM2")
                  && (g.key.kind == SM9Key <==> alg == "SGD_SM3_SM9")
                  && (HasJwk(g.key) ==> forall kty :: AlgMatchesType(kty, alg) <==> kty == ToJwk(g.key).kty))
  {
    if |alg| >= 2 {
      TwoLetterPrefix(alg, "RS");
      TwoLetterPrefix(alg, "PS");
      TwoLetterPrefix(alg, "ES");
    }
  }

  lemma {:induction false} KeysComeFromEvents(es: seq<Event>)
    ensures forall k :: k in Run(es) ==> WellTyped(k) && exists i :: 0 <= i < |es| && es[i].id == k.id
  {
    if es != [] {
      var n := |es| - 1;
      KeysComeFromEvents(es[..n]);
      GeneratedKeysAreWellTyped(if es[n].StartUp? then es[n].alg else "RS256", es[n].id, es[n].m);
      forall k | k in Run(es) ensures WellTyped(k) && exists i :: 0 <= i < |es| && es[i].id == k.id {
        if k in Run(es[..n]) {
          var i :| 0 <= i < n && es[..n][i].id == k.id;
          assert es[i].id == k.id;
        } else {
          assert es[n].id == k.id;
        }
      }
    }
  }

  lemma {:induction false} IdsStayDistinct(es: seq<Event>)
    requires FreshIds(es)
    ensures DistinctIds(Run(es))
  {
    if es != [] {
      var n := |es| - 1;
      IdsStayDistinct(es[..n]);
      KeysComeFromEvents(es[..n]);
      assert forall k :: k in Run(es[..n]) ==> k.id != es[n].id;
    }
  }

  lemma {:induction false} KeysAreNeverDropped(es: seq<Event>, more: seq<Event>, k: SigningKey)
    requires k in Run(es)
    ensures k in Run(es + more)
  {
    if more == [] {
      assert es + more == es;
    } else {
      var n := |more| - 1;
      KeysAreNeverDropped(es, more[..n], k);
      assert (es + more)[..|es + more| - 1] == es + more[..n];
    }
  }

  lemma {:induction false} ExportIsPointwise(keys: seq<SigningKey>)
    ensures Export(keys).Jwks? <==> forall k :: k in keys ==> HasJwk(k)
    ensures Export(keys).Jwks? ==> |Export(keys).keys| == |keys|
    ensures Export(keys).Jwks? ==>
              forall i :: 0 <= i < |keys| ==> HasJwk(keys[i]) && Export(keys).keys[i] == ToJwk(keys[i])
    ensures Export(keys).Jwks? ==>
              forall i :: 0 <= i < |keys| ==>
                var k, x := keys[i], Export(keys).keys[i];
                && x.kid == Label(k.id) && x.use == Signature && x.material == k.material
                && (x.kty == RSA <==> k.kind == RSAKey) && (x.kty == EC <==> k.kind == ECKey)
                && (x.kty == OKP <==> k.kind == EdKey)
  {
    if keys != [] {
      ExportIsPointwise(keys[..|keys| - 1]);
      assert keys == keys[..|keys| - 1] + [keys[|keys| - 1]];
    }
  }

  /**
   A signature made at any time with an RSA, EC or Ed25519 key still finds exactly that key after any
   further rotations, as long as the list holds no SM2 or SM9 key, for which the adapter has no
   `jwk.Key` to set the id on; with such a key it fails for every token.
   */
  lemma {:induction false} SignedTokensKeepTheirKey(es: seq<Event>, more: seq<Event>, k: SigningKey)
    requires FreshIds(es + more) && k in Run(es) && HasJwk(k)
    ensures var exported := Export(Run(es + more));
            var q := Query(Label(k.id), Signature, k.algorithm);
            (exported.Jwks? && Find(q, exported.keys) == Found(ToJwk(k))) <==>
              forall other :: other in Run(es + more) ==> HasJwk(other)
  {
    var keys := Run(es + more);
    KeysAreNeverDropped(es, more, k);
    IdsStayDistinct(es + more);
    KeysComeFromEvents(es + more);
    ExportIsPointwise(keys);
    if Export(keys).Jwks? {
      var jwks := Export(keys).keys;
      var i :| 0 <= i < |keys| && keys[i] == k;
      assert jwks[i] == ToJwk(k);
      FindByKid(Query(Label(k.id), Signature, k.algorithm), jwks, ToJwk(k));
    }
  }

  /** The start-up event at this position is the first whose algorithm is known. */
  ghost predicate IsFirstKnown(es: seq<Event>, i: int) {
    && 0 <= i < |es| && es[i].StartUp? && Generate(es[i].alg, es[i].id, es[i].m).Chosen?
    && forall j :: 0 <= j < i && es[j].StartUp? ==> Generate(es[j].alg, es[j].id, es[j].m).NoSigningKey?
  }

  /** Until the first rotation the server signs by default with the key of the first known algorithm. */
  lemma {:induction false} FirstKnownAlgorithmIsTheDefault(es: seq<Event>)
    requires forall i :: 0 <= i < |es| ==> es[i].StartUp?
    ensures Default(Run(es)).NoSigningKey? <==> forall i :: !IsFirstKnown(es, i)
    ensures forall i :: IsFirstKnown(es, i) ==> Default(Run(es)) == Generate(es[i].alg, es[i].id, es[i].m)
  {
    if es != [] {
      var n := |es| - 1;
      var front := es[..n];
      FirstKnownAlgorithmIsTheDefault(front);
      assert forall i :: IsFirstKnown(front, i) ==> IsFirstKnown(es, i);
      assert forall i :: i < n && IsFirstKnown(es, i) ==> IsFirstKnown(front, i);
      if Default(Run(front)).NoSigningKey? {
        NoneKnownYet(front);
        assert IsFirstKnown(es, n) <==> Generate(es[n].alg, es[n].id, es[n].m).Chosen?;
      } else {
        var i :| IsFirstKnown(front, i);
        assert !IsFirstKnown(es, n);
      }
    }
  }

  lemma {:induction false} NoneKnownYet(es: seq<Event>)
    requires forall i :: 0 <= i < |es| ==> es[i].StartUp?
    requires forall i :: !IsFirstKnown(es, i)
    ensures forall i :: 0 <= i < |es| ==> Generate(es[i].alg, es[i].id, es[i].m).NoSigningKey?
  {
    if es != [] {
      var n := |es| - 1;
      assert forall i :: IsFirstKnown(es[..n], i) ==> IsFirstKnown(es, i);
      NoneKnownYet(es[..n]);
      assert forall i :: 0 <= i < n ==> es[..n][i] == es[i];
      assert !IsFirstKnown(es, n);
    }
  }

  ghost predicate IsFirstFor(keys: seq<SigningKey>, alg: string, i: int) {
    0 <= i < |keys| && keys[i].algorithm == alg && forall j :: 0 <= j < i ==> keys[j].algorithm != alg
  }

  /** The key chosen for an algorithm is the first of the list that has it. */
  lemma {:induction false} FirstOfItsAlgorithmIsChosen(keys: seq<SigningKey>, alg: string, i: int)
    requires IsFirstFor(keys, alg, i)
    ensures ByAlg(keys, alg) == Chosen(keys[i])
    decreases |keys|
  {
    if i > 0 {
      assert IsFirstFor(keys[1..], alg, i - 1);
      FirstOfItsAlgorithmIsChosen(keys[1..], alg, i - 1);
    }
  }

  /** A key chosen for an algorithm has that algorithm and is in the list; none is chosen only when none fits. */
  lemma {:induction false} ChosenKeyIsInTheList(keys: seq<SigningKey>, alg: string)
    ensures var r := ByAlg(keys, alg);
            if r.Chosen? then r.key in keys && r.key.algorithm == alg else forall k :: k in keys ==> k.algorithm != alg
  {
    if keys != [] {
      ChosenKeyIsInTheList(keys[1..], alg);
    }
  }

  /**
   After a rotation the new key signs by default and for RS256, and tokens signed with it find it by its
   id if and only if none of the older keys is an SM2 or SM9 key.
   */
  lemma {:induction false} RotationPutsNewKeyInUse(es: seq<Event>, id: Name, m: Material)
    requires FreshIds(es + [Rotate(id, m)])
    ensures var keys := Run(es + [Rotate(id, m)]);
            var k := SigningKey(id, "RS256", RSAKey, m);
            var q := Query(Label(id), Signature, "RS256");
            && Default(keys) == Chosen(k) == ByAlg(keys, "RS256")
            && (Export(keys).Jwks? && Find(q, Export(keys).keys) == Found(ToJwk(k)) <==>
                  forall other :: other in Run(es) ==> HasJwk(other))
  {
    var es' := es + [Rotate(id, m)];
    var k := SigningKey(id, "RS256", RSAKey, m);
    assert es'[..|es'| - 1] == es;
    assert Run(es') == [k] + Run(es);
    assert es' + [] == es';
    SignedTokensKeepTheirKey(es', [], k);
  }

  lemma GMKeysHaveNoJwk(alg: string, id: Name, m: Material)
    requires alg == "SGD_SM3_SM2" || alg == "SGD_SM3_SM9"
    ensures Generate(alg, id, m).Chosen? && !HasJwk(Generate(alg, id, m).key)
  {
    assert alg[0] == 'S' && |alg| == 11;
  }

  /** A start-up with a GM algorithm anywhere makes the adapter's conversion, and so every lookup, fail. */
  lemma {:induction false} GMKeyStopsLookup(es: seq<Event>, alg: string, id: Name, m: Material, more: seq<Event>)
    requires alg == "SGD_SM3_SM2" || alg == "SGD_SM3_SM9"
    ensures Export(Run(es + [StartUp(alg, id, m)] + more)) == NilKey
  {
    var started := es + [StartUp(alg, id, m)];
    var k := Generate(alg, id, m).key;
    GMKeysHaveNoJwk(alg, id, m);
    assert started[..|started| - 1] == es;
    assert Run(started) == Run(es) + [k];
    KeysAreNeverDropped(started, more, k);
    ExportIsPointwise(Run(started + more));
  }

  lemma RS256MakesAnRsaKey(id: Name, m: Material)
    ensures Generate("RS256", id, m) == Chosen(SigningKey(id, "RS256", RSAKey, m))
  {}

  lemma {:induction false} RunOfOne(e: Event)
    ensures Run([e]) == Step([], e)
  {
    assert [e][..0] == [] && Run([]) == [];
  }

  lemma {:induction false} ExportOfOne(k: SigningKey)
    requires HasJwk(k)
    ensures Export([k]) == Jwks([ToJwk(k)])
  {
    assert [k][..0] == [] && Export([]) == Jwks([]);
  }

  /** An input on which lookup works until a GM algorithm is added. */
  lemma {:induction false} RsaKeyNextToGMKey(id: Name, m: Material, alg: string, id': Name, m': Material)
    requires alg == "SGD_SM3_SM2" || alg == "SGD_SM3_SM9"
    ensures var es := [StartUp("RS256", id, m)];
            var k := SigningKey(id, "RS256", RSAKey, m);
            && Run(es) == [k] && Export(Run(es)) == Jwks([ToJwk(k)])
            && Export(Run(es + [StartUp(alg, id', m')])) == NilKey
  {
    var es := [StartUp("RS256", id, m)];
    RS256MakesAnRsaKey(id, m);
    RunOfOne(es[0]);
    ExportOfOne(SigningKey(id, "RS256", RSAKey, m));
    GMKeyStopsLookup(es, alg, id', m', []);
    assert es + [StartUp(alg, id', m')] + [] == es + [StartUp(alg, id', m')];
  }
}
