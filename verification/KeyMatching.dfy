/**
 Choosing the verification key for a JWS: the search by key id, usage and algorithm family that the
 remote key set, the local key store and the request-object check all share.
 */
module KeyMatching {

  type Name(==, !new)

  /** A header or key parameter that may be absent; Go's empty string. */
  datatype Label = Empty | Label(name: Name)

  datatype Usage = Unspecified | Signature | Encryption

  datatype KeyType = RSA | EC | OKP | Symmetric

  type Material(==, !new)

  datatype Jwk = Jwk(kid: Label, use: Usage, kty: KeyType, material: Material)

  datatype Lookup = Found(key: Jwk) | NoKey | ManyKeys

  predicate HasPrefix(s: string, prefix: string) {
    |prefix| <= |s| && s[..|prefix|] == prefix
  }

  predicate AlgMatchesType(kty: KeyType, alg: string) {
    if HasPrefix(alg, "RS") || HasPrefix(alg, "PS") then kty == RSA
    else if HasPrefix(alg, "ES") || alg == "SGD_SM3_SM2" then kty == EC
    else if alg == "EdDSA" then kty == OKP
    else false
  }

  lemma TwoLetterPrefix(s: string, prefix: string)
    requires |s| >= 2 && |prefix| == 2
    ensures HasPrefix(s, prefix) <==> s[0] == prefix[0] && s[1] == prefix[1]
  {
    assert s[..2] == [s[0], s[1]];
  }

  /** Which key type goes with an algorithm, told from its name. */
  lemma AlgorithmFamilies(kty: KeyType, alg: string)
    ensures AlgMatchesType(kty, alg) <==>
              || (kty == RSA && |alg| >= 2 && (alg[0] == 'R' || alg[0] == 'P') && alg[1] == 'S')
              || (kty == EC && ((|alg| >= 2 && alg[0] == 'E' && alg[1] == 'S') || alg == "SGD_SM3_SM2"))
              || (kty == OKP && alg == "EdDSA")
  {
    if |alg| >= 2 {
      TwoLetterPrefix(alg, "RS");
      TwoLetterPrefix(alg, "PS");
      TwoLetterPrefix(alg, "ES");
    }
  }

  /** What the caller is looking for. */
  datatype Query = Query(kid: Label, use: Usage, alg: string) {

    predicate Usable(k: Jwk) {
      (k.use == use || k.use == Unspecified) && AlgMatchesType(k.kty, alg)
    }

    predicate Exact(k: Jwk) {
      Usable(k) && kid != Empty && k.kid == kid
    }

    predicate Candidate(k: Jwk) {
      Usable(k) && (kid == Empty || k.kid == Empty)
    }
  }

  function Candidates(q: Query, keys: seq<Jwk>): seq<Jwk> {
    if keys == [] then []
    else (if q.Candidate(keys[0]) then [keys[0]] else []) + Candidates(q, keys[1..])
  }

  function FirstExact(q: Query, keys: seq<Jwk>): Lookup {
    if keys == [] then NoKey
    else if q.Exact(keys[0]) then Found(keys[0])
    else FirstExact(q, keys[1..])
  }

  /** The first exact match wins; otherwise the answer is by the number of candidates. */
  function Find(q: Query, keys: seq<Jwk>): Lookup {
    var exact := FirstExact(q, keys);
    var cs := Candidates(q, keys);
    if exact.Found? then exact
    else if |cs| == 0 then NoKey
    else if |cs| == 1 then Found(cs[0])
    else ManyKeys
  }

  /** The search from position `n` on, in terms of the search from the next position. */
  lemma {:induction false} Unroll(q: Query, keys: seq<Jwk>, n: nat, front: seq<Jwk>)
    requires n < |keys|
    ensures FirstExact(q, keys[n..]) == if q.Exact(keys[n]) then Found(keys[n]) else FirstExact(q, keys[n + 1..])
    ensures front + Candidates(q, keys[n..]) ==
            (if q.Candidate(keys[n]) then front + [keys[n]] else front) + Candidates(q, keys[n + 1..])
  {
    assert keys[n..][0] == keys[n] && keys[n..][1..] == keys[n + 1..];
    var rest := Candidates(q, keys[n + 1..]);
    assert front + ([keys[n]] + rest) == front + [keys[n]] + rest && [] + rest == rest;
  }

  /** The key at this position has the usage, or none, and the type that goes with the algorithm. */
  ghost predicate UsableAt(q: Query, keys: seq<Jwk>, i: int) {
    0 <= i < |keys| && (keys[i].use == q.use || keys[i].use == Unspecified) && AlgMatchesType(keys[i].kty, q.alg)
  }

  /** A usable key under the header's own id. */
  ghost predicate NamedAt(q: Query, keys: seq<Jwk>, i: int) {
    UsableAt(q, keys, i) && q.kid != Empty && keys[i].kid == q.kid
  }

  /** A usable key, where it or the header has no id. */
  ghost predicate OpenAt(q: Query, keys: seq<Jwk>, i: int) {
    UsableAt(q, keys, i) && (q.kid == Empty || keys[i].kid == Empty)
  }

  ghost predicate OnlyOpenAt(q: Query, keys: seq<Jwk>, i: int) {
    OpenAt(q, keys, i) && forall j :: OpenAt(q, keys, j) ==> j == i
  }

  /** What the positions of the list say about the answer: a named key wins, otherwise an only open one. */
  ghost predicate Answers(q: Query, keys: seq<Jwk>, r: Lookup) {
    if exists i :: NamedAt(q, keys, i) then
      exists i :: NamedAt(q, keys, i) && r == Found(keys[i]) && forall j :: NamedAt(q, keys, j) ==> i <= j
    else
      && (forall k :: r == Found(k) <==> exists i :: OnlyOpenAt(q, keys, i) && keys[i] == k)
      && (r == NoKey <==> forall i :: !OpenAt(q, keys, i))
      && (r == ManyKeys <==> exists i, j :: OpenAt(q, keys, i) && OpenAt(q, keys, j) && i < j)
  }

  lemma {:induction false} FirstExactAt(q: Query, keys: seq<Jwk>)
    ensures var r := FirstExact(q, keys);
            if r.Found? then
              exists i :: NamedAt(q, keys, i) && r == Found(keys[i]) && forall j :: NamedAt(q, keys, j) ==> i <= j
            else forall i :: !NamedAt(q, keys, i)
  {
    if keys != [] {
      FirstExactAt(q, keys[1..]);
      assert forall i :: NamedAt(q, keys[1..], i) <==> i >= 0 && NamedAt(q, keys, i + 1);
      if q.Exact(keys[0]) {
        assert NamedAt(q, keys, 0);
      } else if FirstExact(q, keys[1..]).Found? {
        var i :| NamedAt(q, keys[1..], i) && FirstExact(q, keys[1..]) == Found(keys[1..][i])
                 && forall j :: NamedAt(q, keys[1..], j) ==> i <= j;
        assert NamedAt(q, keys, i + 1) && keys[1..][i] == keys[i + 1];
        forall j | NamedAt(q, keys, j) ensures i + 1 <= j {
          assert j != 0 && NamedAt(q, keys[1..], j - 1);
        }
      } else {
        forall i ensures !NamedAt(q, keys, i) {
          assert !NamedAt(q, keys[1..], i - 1);
        }
      }
    }
  }

  lemma {:induction false} CandidatesAt(q: Query, keys: seq<Jwk>)
    ensures var cs := Candidates(q, keys);
            && (|cs| == 0 ==> forall i :: !OpenAt(q, keys, i))
            && (|cs| == 1 ==> exists i :: OnlyOpenAt(q, keys, i) && keys[i] == cs[0])
            && (|cs| > 0 ==> exists i :: OpenAt(q, keys, i))
            && (|cs| > 1 ==> exists i, j :: OpenAt(q, keys, i) && OpenAt(q, keys, j) && i < j)
  {
    if keys != [] {
      var cs := Candidates(q, keys[1..]);
      CandidatesAt(q, keys[1..]);
      assert forall i :: OpenAt(q, keys[1..], i) ==> OpenAt(q, keys, i + 1) && keys[1..][i] == keys[i + 1];
      assert forall i :: i > 0 && OpenAt(q, keys, i) ==> OpenAt(q, keys[1..], i - 1);
      assert OpenAt(q, keys, 0) <==> q.Candidate(keys[0]);
      if |cs| == 0 {
        assert forall i :: i > 0 ==> !OpenAt(q, keys, i);
        if q.Candidate(keys[0]) {
          assert OnlyOpenAt(q, keys, 0);
        }
      } else {
        var i :| OpenAt(q, keys[1..], i);
        assert OpenAt(q, keys, i + 1);
        if |cs| == 1 && !q.Candidate(keys[0]) {
          var i :| OnlyOpenAt(q, keys[1..], i) && keys[1..][i] == cs[0];
          assert OnlyOpenAt(q, keys, i + 1);
        } else if |cs| > 1 {
          var i, j :| OpenAt(q, keys[1..], i) && OpenAt(q, keys[1..], j) && i < j;
          assert OpenAt(q, keys, i + 1) && OpenAt(q, keys, j + 1);
        }
      }
    }
  }

  /** The search answers by the positions of the list. */
  lemma {:induction false} FindAnswers(q: Query, keys: seq<Jwk>)
    ensures Answers(q, keys, Find(q, keys))
  {
    FirstExactAt(q, keys);
    CandidatesAt(q, keys);
    var r := Find(q, keys);
    if FirstExact(q, keys).NoKey? {
      forall k ensures r == Found(k) <==> exists i :: OnlyOpenAt(q, keys, i) && keys[i] == k {
      }
    }
  }

  /** And in no other way. */
  lemma {:induction false} OnlyFindAnswers(q: Query, keys: seq<Jwk>, r: Lookup)
    ensures Answers(q, keys, r) <==> r == Find(q, keys)
  {
    FindAnswers(q, keys);
    var f := Find(q, keys);
    if Answers(q, keys, r) {
      if exists i :: NamedAt(q, keys, i) {
        var i :| NamedAt(q, keys, i) && r == Found(keys[i]) && forall j :: NamedAt(q, keys, j) ==> i <= j;
        var j :| NamedAt(q, keys, j) && f == Found(keys[j]) && forall k :: NamedAt(q, keys, k) ==> j <= k;
        assert i == j;
      } else if r.Found? {
        assert f == Found(r.key);
      }
    }
  }

  method FindMatchingKey(q: Query, keys: seq<Jwk>) returns (r: Lookup)
    ensures r == Find(q, keys)
    ensures Answers(q, keys, r)
  {
    FindAnswers(q, keys);
    ghost var exact, candidates := FirstExact(q, keys), Candidates(q, keys);
    var valid: seq<Jwk> := [];
    var n := 0;
    while n < |keys|
      invariant 0 <= n <= |keys|
      invariant exact == FirstExact(q, keys[n..]) && candidates == valid + Candidates(q, keys[n..])
    {
      var k := keys[n];
      Unroll(q, keys, n, valid);
      n := n + 1;
      if k.use != q.use && k.use != Unspecified {
        continue;
      }
      if !AlgMatchesType(k.kty, q.alg) {
        continue;
      }
      if k.kid == q.kid && q.kid != Empty {
        return Found(k);
      }
      if k.kid == Empty || q.kid == Empty {
        valid := valid + [k];
      }
    }
    assert !exact.Found? && candidates == valid;
    if |valid| == 1 {
      return Found(valid[0]);
    }
    if |valid| > 1 {
      return ManyKeys;
    }
    return NoKey;
  }

  // ---------------------------------------------------------------------------------------------
  // The search seen as a property of the bag of keys
  // ---------------------------------------------------------------------------------------------

  ghost predicate DistinctKids(keys: seq<Jwk>) {
    forall i, j :: 0 <= i < j < |keys| && keys[i].kid != Empty ==> keys[i].kid != keys[j].kid
  }

  lemma {:induction false} FirstExactFinds(q: Query, keys: seq<Jwk>)
    ensures var r := FirstExact(q, keys);
            if r.Found? then r.key in keys && q.Exact(r.key) else forall k :: k in keys ==> !q.Exact(k)
  {
    if keys != [] {
      FirstExactFinds(q, keys[1..]);
    }
  }

  lemma {:induction false} CandidateBag(q: Query, keys: seq<Jwk>, k: Jwk)
    ensures multiset(Candidates(q, keys))[k] == if q.Candidate(k) then multiset(keys)[k] else 0
  {
    if keys != [] {
      assert keys == [keys[0]] + keys[1..];
      CandidateBag(q, keys[1..], k);
    }
  }

  /** A key that is found may be used: its usage and type fit, and its id does not contradict the header. */
  lemma {:induction false} FoundFits(q: Query, keys: seq<Jwk>)
    ensures var r := Find(q, keys);
            r.Found? ==> r.key in keys && q.Usable(r.key) &&
                         (r.key.kid == q.kid || r.key.kid == Empty || q.kid == Empty)
  {
    FirstExactFinds(q, keys);
    var cs := Candidates(q, keys);
    if |cs| == 1 {
      assert cs[0] in multiset(cs);
      CandidateBag(q, keys, cs[0]);
    }
  }

  /** With pairwise distinct ids a key is always found under its own id, wherever it stands in the list. */
  lemma {:induction false} FindByKid(q: Query, keys: seq<Jwk>, k: Jwk)
    requires DistinctKids(keys) && k in keys && q.Exact(k)
    ensures Find(q, keys) == Found(k)
  {
    FirstExactFinds(q, keys);
  }

  /** No two different keys of the list match the header exactly. */
  ghost predicate Unambiguous(q: Query, keys: seq<Jwk>) {
    forall k, k' :: k in keys && k' in keys && q.Exact(k) && q.Exact(k') ==> k == k'
  }

  /** The order in which an unambiguous key set lists its keys does not matter. */
  lemma {:induction false} FindIgnoresOrder(q: Query, a: seq<Jwk>, b: seq<Jwk>)
    requires multiset(a) == multiset(b) && Unambiguous(q, a)
    ensures Find(q, a) == Find(q, b)
  {
    FirstExactFinds(q, a);
    FirstExactFinds(q, b);
    assert forall k :: k in a <==> k in multiset(a);
    assert forall k :: k in b <==> k in multiset(b);
    var ca, cb := Candidates(q, a), Candidates(q, b);
    forall k ensures multiset(ca)[k] == multiset(cb)[k] {
      CandidateBag(q, a, k);
      CandidateBag(q, b, k);
    }
    assert multiset(ca) == multiset(cb);
    assert |ca| == |multiset(ca)| == |multiset(cb)| == |cb|;
    if |ca| == 1 {
      assert ca[0] in multiset(cb);
      assert cb == [cb[0]];
    }
  }

  /** In particular the order does not matter, for any header, when all key ids are distinct. */
  lemma {:induction false} DistinctKidsIgnoreOrder(q: Query, a: seq<Jwk>, b: seq<Jwk>)
    requires multiset(a) == multiset(b) && DistinctKids(a)
    ensures Find(q, a) == Find(q, b)
  {
    assert Unambiguous(q, a);
    FindIgnoresOrder(q, a, b);
  }

  /** For any other key set some reordering changes the answer. */
  lemma {:induction false} OrderMattersOtherwise(q: Query, a: seq<Jwk>) returns (b: seq<Jwk>)
    requires !Unambiguous(q, a)
    ensures multiset(a) == multiset(b) && Find(q, a) != Find(q, b)
  {
    FirstExactFinds(q, a);
    var first := Find(q, a).key;
    var i :| 0 <= i < |a| && q.Exact(a[i]) && a[i] != first;
    b := [a[i]] + (a[..i] + a[i + 1..]);
    assert a == a[..i] + [a[i]] + a[i + 1..];
    assert b[0] == a[i];
  }
}
