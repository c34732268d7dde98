/**
 Refresh-token rotation over whole runs, with the three lock sections of a rotation interleaved freely.

 The refresh tokens that descend from one grant form a tree: a token is the child of the token that was
 presented for it.  The code never asks, when it creates a token, whether the presented one is still
 live, so whether a family keeps a single live token is decided by the shape of that tree.
 */
module RotationRuns {
  import opened Basics
  import opened StoreModel
  import opened StoreRuns
  import TokenRuns

  type Parents = map<Id, Option<Id>>
  type Families = map<Id, nat>

  ghost predicate ChildOf(parent: Parents, x: Id, p: Id) {
    x in parent && parent[x] == Some(p)
  }

  /** A refresh token that was never traded for another one. */
  ghost predicate Leaf(parent: Parents, r: Id) {
    r in parent && forall x :: !ChildOf(parent, x, r)
  }

  ghost predicate LeafOf(parent: Parents, family: Families, r: Id, f: nat) {
    Leaf(parent, r) && r in family && family[r] == f
  }

  /** Two different tokens of the family were issued for the same presented token. */
  ghost predicate Siblings(parent: Parents, family: Families, f: nat) {
    exists p, x, y :: ChildOf(parent, x, p) && ChildOf(parent, y, p) && x != y && p in family && family[p] == f
  }

  ghost predicate HasLeaf(parent: Parents, family: Families, f: nat) {
    exists l :: LeafOf(parent, family, l, f)
  }

  ghost predicate TwoLeaves(parent: Parents, family: Families, f: nat) {
    exists l, l' :: LeafOf(parent, family, l, f) && LeafOf(parent, family, l', f) && l != l'
  }

  /** A presented token is a member of the family of its children. */
  ghost predicate Related(parent: Parents, family: Families, families: nat) {
    && parent.Keys == family.Keys
    && (forall x, p :: ChildOf(parent, x, p) ==> x in family && p in family && family[x] == family[p])
    && (forall x :: x in family ==> family[x] < families)
  }

  ghost predicate TreeInv(parent: Parents, family: Families, families: nat) {
    && Related(parent, family, families)
    && (forall x :: x in family ==> HasLeaf(parent, family, family[x]))
    && (forall f :: Siblings(parent, family, f) <==> TwoLeaves(parent, family, f))
  }

  /** A token between the second and the third section of a rotation that presented it. */
  ghost predicate BeingRetired(w: World, r: Id) {
    exists a :: a in w.retiring && w.retiring[a] == r
  }

  /** A live token that was traded for another one is about to be deleted. */
  ghost predicate RetireInv(w: World) {
    && (forall a :: a in w.retiring ==> w.retiring[a] in w.parent && !Leaf(w.parent, w.retiring[a]))
    && (forall r :: r in w.tokens.refresh ==> r in w.parent && (Leaf(w.parent, r) || BeingRetired(w, r)))
    && (forall a :: a in w.pending && w.pending[a].presented.Some? ==> w.pending[a].presented.value in w.family)
  }

  ghost predicate RotationInv(w: World) {
    TreeInv(w.parent, w.family, w.families) && RetireInv(w)
  }

  // ---------------------------------------------------------------------------------------------
  // The tree grows
  // ---------------------------------------------------------------------------------------------

  lemma {:induction false} NewRootKeepsTree(parent: Parents, family: Families, families: nat, r: Id)
    requires TreeInv(parent, family, families) && r !in family
    ensures TreeInv(parent[r := None], family[r := families], families + 1)
  {
    var parent', family' := parent[r := None], family[r := families];
    assert forall x, p :: ChildOf(parent', x, p) <==> ChildOf(parent, x, p);
    assert forall l :: Leaf(parent', l) <==> Leaf(parent, l) || l == r;
    assert LeafOf(parent', family', r, families);
    forall x | x in family' ensures HasLeaf(parent', family', family'[x]) {
      if x != r {
        var l :| LeafOf(parent, family, l, family[x]);
        assert LeafOf(parent', family', l, family'[x]);
      }
    }
    forall f ensures Siblings(parent', family', f) <==> TwoLeaves(parent', family', f) {
      if f == families {
        assert !Siblings(parent', family', f);
        assert forall l :: LeafOf(parent', family', l, f) ==> l == r;
      } else {
        SameLeaves(parent, family, parent', family', f);
      }
    }
  }

  /** A family in which nothing changed has siblings exactly if it has two leaves, as before. */
  lemma {:induction false} SameLeaves(parent: Parents, family: Families, parent': Parents, family': Families, f: nat)
    requires Siblings(parent, family, f) <==> TwoLeaves(parent, family, f)
    requires forall p :: p in family && family[p] == f <==> p in family' && family'[p] == f
    requires forall x, p :: p in family && family[p] == f ==> (ChildOf(parent', x, p) <==> ChildOf(parent, x, p))
    requires forall p :: p in family && family[p] == f ==> (p in parent <==> p in parent')
    ensures Siblings(parent', family', f) <==> TwoLeaves(parent', family', f)
  {
    assert forall l :: LeafOf(parent', family', l, f) <==> LeafOf(parent, family, l, f);
    assert TwoLeaves(parent', family', f) <==> TwoLeaves(parent, family, f);
    if Siblings(parent, family, f) {
      var p, x, y :| ChildOf(parent, x, p) && ChildOf(parent, y, p) && x != y && p in family && family[p] == f;
      assert ChildOf(parent', x, p) && ChildOf(parent', y, p);
    }
    if Siblings(parent', family', f) {
      var p, x, y :| ChildOf(parent', x, p) && ChildOf(parent', y, p) && x != y && p in family' && family'[p] == f;
      assert ChildOf(parent, x, p) && ChildOf(parent, y, p);
    }
  }

  lemma {:induction false} NewChildRelates(parent: Parents, family: Families, families: nat, r: Id, p: Id)
    requires Related(parent, family, families) && r !in family && p in family
    ensures var parent', family' := parent[r := Some(p)], family[r := family[p]];
            && Related(parent', family', families + 1)
            && (forall x, l :: ChildOf(parent', x, l) <==> ChildOf(parent, x, l) || (x == r && l == p))
            && (forall l :: Leaf(parent', l) <==> l == r || (Leaf(parent, l) && l != p))
  {
    var parent' := parent[r := Some(p)];
    assert forall x, l :: ChildOf(parent', x, l) <==> ChildOf(parent, x, l) || (x == r && l == p);
    assert ChildOf(parent', r, p);
  }

  lemma {:induction false} NewChildKeepsTree(parent: Parents, family: Families, families: nat, r: Id, p: Id)
    requires TreeInv(parent, family, families) && r !in family && p in family
    ensures TreeInv(parent[r := Some(p)], family[r := family[p]], families + 1)
  {
    var parent', family' := parent[r := Some(p)], family[r := family[p]];
    NewChildRelates(parent, family, families, r, p);
    forall x | x in family' ensures HasLeaf(parent', family', family'[x]) {
      if family'[x] == family[p] {
        assert LeafOf(parent', family', r, family[p]);
      } else {
        var l :| LeafOf(parent, family, l, family[x]);
        assert LeafOf(parent', family', l, family'[x]);
      }
    }
    forall f ensures Siblings(parent', family', f) <==> TwoLeaves(parent', family', f) {
      if f != family[p] {
        SameLeaves(parent, family, parent', family', f);
      } else if Leaf(parent, p) {
        LeafIsReplaced(parent, family, families, r, p);
      } else {
        BranchIsAdded(parent, family, families, r, p);
      }
    }
  }

  /** A token presented for the first time: the new leaf takes the place of the old one. */
  lemma {:induction false} LeafIsReplaced(parent: Parents, family: Families, families: nat, r: Id, p: Id)
    requires TreeInv(parent, family, families) && r !in family && p in family && Leaf(parent, p)
    ensures var f, parent', family' := family[p], parent[r := Some(p)], family[r := family[p]];
            Siblings(parent', family', f) <==> TwoLeaves(parent', family', f)
  {
    var f, parent', family' := family[p], parent[r := Some(p)], family[r := family[p]];
    NewChildRelates(parent, family, families, r, p);
    assert forall l :: LeafOf(parent', family', l, f) <==> l == r || (LeafOf(parent, family, l, f) && l != p);
    assert LeafOf(parent, family, p, f);
    if Siblings(parent', family', f) {
      var q, x, y :| ChildOf(parent', x, q) && ChildOf(parent', y, q) && x != y && q in family' && family'[q] == f;
      assert q != p && ChildOf(parent, x, q) && ChildOf(parent, y, q);
      assert Siblings(parent, family, f);
      var l, l' :| LeafOf(parent, family, l, f) && LeafOf(parent, family, l', f) && l != l';
      assert LeafOf(parent', family', if l == p then l' else l, f) && LeafOf(parent', family', r, f);
    }
    if TwoLeaves(parent', family', f) {
      var l, l' :| LeafOf(parent', family', l, f) && LeafOf(parent', family', l', f) && l != l';
      assert LeafOf(parent, family, if l == r then l' else l, f);
      assert TwoLeaves(parent, family, f);
      var q, x, y :| ChildOf(parent, x, q) && ChildOf(parent, y, q) && x != y && q in family && family[q] == f;
      assert ChildOf(parent', x, q) && ChildOf(parent', y, q);
    }
  }

  /** A token presented again: the family has siblings and one leaf more. */
  lemma {:induction false} BranchIsAdded(parent: Parents, family: Families, families: nat, r: Id, p: Id)
    requires TreeInv(parent, family, families) && r !in family && p in family && !Leaf(parent, p)
    ensures var f, parent', family' := family[p], parent[r := Some(p)], family[r := family[p]];
            Siblings(parent', family', f) && TwoLeaves(parent', family', f)
  {
    var f, parent', family' := family[p], parent[r := Some(p)], family[r := family[p]];
    NewChildRelates(parent, family, families, r, p);
    var x :| ChildOf(parent, x, p);
    assert ChildOf(parent', x, p) && ChildOf(parent', r, p) && x != r;
    var l :| LeafOf(parent, family, l, f);
    assert LeafOf(parent', family', l, f) && LeafOf(parent', family', r, f) && l != r;
  }

  // ---------------------------------------------------------------------------------------------
  // The invariant over runs
  // ---------------------------------------------------------------------------------------------

  lemma {:induction false} EndKeepsTree(w: World, a: Id, r: Id, later: Time)
    requires RotationInv(w) && a in w.pending && w.Fresh(r)
    ensures var w' := EndStep(w, a, r, later);
            && TreeInv(w'.parent, w'.family, w'.families)
            && (forall x, q :: ChildOf(w'.parent, x, q) <==>
                  ChildOf(w.parent, x, q) || (x == r && w.pending[a].presented == Some(q)))
  {
    var p := w.pending[a].presented;
    if p.Some? {
      NewChildKeepsTree(w.parent, w.family, w.families, r, p.value);
    } else {
      NewRootKeepsTree(w.parent, w.family, w.families, r);
    }
  }

  lemma {:induction false} EndKeepsRetireInv(w: World, a: Id, r: Id, later: Time)
    requires RotationInv(w) && a in w.pending && a !in w.retiring && w.Fresh(r)
    requires var w' := EndStep(w, a, r, later);
             forall x, q :: ChildOf(w'.parent, x, q) <==>
               ChildOf(w.parent, x, q) || (x == r && w.pending[a].presented == Some(q))
    ensures RetireInv(EndStep(w, a, r, later))
  {
    var w' := EndStep(w, a, r, later);
    var p := w.pending[a].presented;
    forall b | b in w'.retiring ensures w'.retiring[b] in w'.parent && !Leaf(w'.parent, w'.retiring[b]) {
      if b == a {
        assert ChildOf(w'.parent, r, p.value);
      } else {
        var x :| ChildOf(w.parent, x, w.retiring[b]);
        assert ChildOf(w'.parent, x, w'.retiring[b]);
      }
    }
    forall x | x in w'.tokens.refresh ensures x in w'.parent && (Leaf(w'.parent, x) || BeingRetired(w', x)) {
      if x == r {
        assert forall y :: !ChildOf(w'.parent, y, r);
      } else if p == Some(x) {
        assert w'.retiring[a] == x;
      } else if BeingRetired(w, x) {
        var b :| b in w.retiring && w.retiring[b] == x;
        assert b in w'.retiring && w'.retiring[b] == x;
      }
    }
  }

  lemma {:induction false} EndKeepsRotationInv(w: World, a: Id, r: Id, later: Time)
    requires RotationInv(w) && a in w.pending && a !in w.retiring && w.Fresh(r)
    ensures RotationInv(EndStep(w, a, r, later))
  {
    EndKeepsTree(w, a, r, later);
    EndKeepsRetireInv(w, a, r, later);
  }

  lemma {:induction false} RetireKeepsRotationInv(w: World, a: Id)
    requires RotationInv(w)
    ensures RotationInv(Step(w, Retire(a)))
  {
    var w' := Step(w, Retire(a));
    forall x | x in w'.tokens.refresh ensures Leaf(w'.parent, x) || BeingRetired(w', x) {
      if !Leaf(w.parent, x) {
        var b :| b in w.retiring && w.retiring[b] == x;
        assert b in w'.retiring && w'.retiring[b] == x;
      }
    }
  }

  /** Between two sections a pair is in one place only. */
  ghost predicate SectionsInOrder(w: World) {
    && w.pending.Keys <= w.accessIds && w.retiring.Keys <= w.accessIds
    && w.pending.Keys !! w.retiring.Keys
  }

  lemma {:induction false} StepKeepsOrder(w: World, op: Op)
    requires SectionsInOrder(w)
    ensures SectionsInOrder(Step(w, op))
  {
  }

  lemma {:induction false} StepKeepsRotationInv(w: World, op: Op)
    requires RotationInv(w) && SectionsInOrder(w)
    ensures RotationInv(Step(w, op))
  {
    if op.EndPair? {
      if op.accessId in w.pending && w.Fresh(op.refreshId) {
        EndKeepsRotationInv(w, op.accessId, op.refreshId, w.now + op.lag);
      }
    } else if op.Retire? {
      RetireKeepsRotationInv(w, op.accessId);
    } else {
      OtherStepsKeepRotationInv(w, op);
    }
  }

  predicate Revokes(op: Op) {
    op.ReuseDetected? || op.RevokeToken? || op.TerminateSession?
  }

  lemma {:induction false} RevokingLeavesTheTree(w: World, op: Op)
    requires Revokes(op)
    ensures var w' := Step(w, op);
            && w'.parent == w.parent && w'.family == w.family && w'.families == w.families && w'.retiring == w.retiring
            && w'.tokens.refresh.Keys <= w.tokens.refresh.Keys && w'.pending == w.pending
  {
  }

  lemma {:induction false} OtherStepsLeaveTheTree(w: World, op: Op)
    requires !op.EndPair? && !op.Retire?
    ensures var w' := Step(w, op);
            && w'.parent == w.parent && w'.family == w.family && w'.families == w.families && w'.retiring == w.retiring
            && w'.tokens.refresh.Keys <= w.tokens.refresh.Keys
            && (w'.pending == w.pending ||
                (op.BeginPair? && w'.pending == w.pending[op.accessId := Pending(op.grant, op.presented)]
                 && (op.presented.Some? ==> op.presented.value in w.family)))
  {
    if Revokes(op) {
      RevokingLeavesTheTree(w, op);
    }
  }

  lemma {:induction false} OtherStepsKeepRotationInv(w: World, op: Op)
    requires RotationInv(w) && !op.EndPair? && !op.Retire?
    ensures RotationInv(Step(w, op))
  {
    OtherStepsLeaveTheTree(w, op);
    SameTree(w, Step(w, op));
  }

  lemma {:induction false} SameTree(w: World, w': World)
    requires RotationInv(w)
    requires w'.parent == w.parent && w'.family == w.family && w'.families == w.families && w'.retiring == w.retiring
    requires w'.tokens.refresh.Keys <= w.tokens.refresh.Keys
    requires forall a :: a in w'.pending && w'.pending[a].presented.Some? ==> w'.pending[a].presented.value in w.family
    ensures RotationInv(w')
  {
    forall x | x in w'.tokens.refresh ensures Leaf(w'.parent, x) || BeingRetired(w', x) {
      assert x in w.tokens.refresh && (BeingRetired(w, x) ==> BeingRetired(w', x));
    }
  }

  lemma {:induction false} RunKeepsRotationInv(ops: seq<Op>)
    ensures RotationInv(Run(ops)) && SectionsInOrder(Run(ops))
  {
    if ops != [] {
      RunKeepsRotationInv(ops[..|ops| - 1]);
      StepKeepsRotationInv(Run(ops[..|ops| - 1]), ops[|ops| - 1]);
      StepKeepsOrder(Run(ops[..|ops| - 1]), ops[|ops| - 1]);
    }
  }

  // ---------------------------------------------------------------------------------------------
  // One live token per family
  // ---------------------------------------------------------------------------------------------

  ghost predicate LiveIn(w: World, f: nat, r: Id) {
    r in w.tokens.refresh && r in w.family && w.family[r] == f
  }

  ghost predicate AtMostOneLive(w: World, f: nat) {
    forall r, r' :: LiveIn(w, f, r) && LiveIn(w, f, r') ==> r == r'
  }

  /** No rotation of the family stands between its second and its third section. */
  ghost predicate Quiet(w: World, f: nat) {
    forall a :: a in w.retiring && w.retiring[a] in w.family ==> w.family[w.retiring[a]] != f
  }

  /** Two rotations presented the same token of the family. */
  ghost predicate PresentedTwice(w: World, f: nat) {
    Siblings(w.parent, w.family, f)
  }

  /** Safety over all runs: a family at rest has at most one live token unless a token was presented twice. */
  lemma {:induction false} FamilyHasOneLiveToken(ops: seq<Op>, f: nat)
    requires Quiet(Run(ops), f) && !PresentedTwice(Run(ops), f)
    ensures AtMostOneLive(Run(ops), f)
  {
    RunKeepsRotationInv(ops);
    var w := Run(ops);
    forall r, r' | LiveIn(w, f, r) && LiveIn(w, f, r') ensures r == r' {
      assert Leaf(w.parent, r) && Leaf(w.parent, r');
      assert LeafOf(w.parent, w.family, r, f) && LeafOf(w.parent, w.family, r', f);
    }
  }

  lemma {:induction false} UntradedTokensLive(ops: seq<Op>)
    requires forall i :: 0 <= i < |ops| ==> !Revokes(ops[i])
    ensures forall r :: Leaf(Run(ops).parent, r) ==> r in Run(ops).tokens.refresh
  {
    if ops != [] {
      var w, op := Run(ops[..|ops| - 1]), ops[|ops| - 1];
      UntradedTokensLive(ops[..|ops| - 1]);
      RunKeepsRotationInv(ops[..|ops| - 1]);
      forall r | Leaf(Step(w, op).parent, r) ensures r in Step(w, op).tokens.refresh {
        UntradedStaysLive(w, op, r);
      }
    }
  }

  lemma {:induction false} UntradedStaysLive(w: World, op: Op, r: Id)
    requires RotationInv(w) && !Revokes(op) && Leaf(Step(w, op).parent, r)
    requires Leaf(w.parent, r) ==> r in w.tokens.refresh
    ensures r in Step(w, op).tokens.refresh
  {
    if op.EndPair? {
      if op.accessId in w.pending && w.Fresh(op.refreshId) && r in w.parent {
        EndKeepsTree(w, op.accessId, op.refreshId, w.now + op.lag);
        assert forall x :: ChildOf(w.parent, x, r) ==> ChildOf(Step(w, op).parent, x, r);
      }
    } else {
      assert Step(w, op).parent == w.parent;
    }
  }

  /**
   Where nothing is revoked a family at rest always has a live token, and it has only one if and only
   if no token of it was presented twice.
   */
  lemma {:induction false} OneLiveTokenExactly(ops: seq<Op>, r: Id)
    requires forall i :: 0 <= i < |ops| ==> !Revokes(ops[i])
    requires r in Run(ops).family && Quiet(Run(ops), Run(ops).family[r])
    ensures var w := Run(ops);
            var f := w.family[r];
            && (exists l :: LiveIn(w, f, l))
            && (AtMostOneLive(w, f) <==> !PresentedTwice(w, f))
  {
    RunKeepsRotationInv(ops);
    UntradedTokensLive(ops);
    var w := Run(ops);
    var f := w.family[r];
    var l :| LeafOf(w.parent, w.family, l, f);
    assert LiveIn(w, f, l);
    if PresentedTwice(w, f) {
      var x, y :| LeafOf(w.parent, w.family, x, f) && LeafOf(w.parent, w.family, y, f) && x != y;
      assert LiveIn(w, f, x) && LiveIn(w, f, y);
    } else {
      FamilyHasOneLiveToken(ops, f);
    }
  }

  // ---------------------------------------------------------------------------------------------
  // Rotations that do not overlap
  // ---------------------------------------------------------------------------------------------

  /** The token is live and no other rotation has presented it and is still under way. */
  ghost predicate Available(w: World, p: Id) {
    p in w.tokens.refresh && !Held(w, p) && !BeingRetired(w, p)
  }

  ghost predicate Held(w: World, p: Id) {
    exists a :: HeldBy(w, a, p)
  }

  ghost predicate HeldBy(w: World, a: Id, p: Id) {
    a in w.pending && w.pending[a].presented == Some(p)
  }

  predicate Presents(op: Op) {
    op.BeginPair? && op.presented.Some?
  }

  /** No token has two children, one that is held has none, and no two pairs hold the same token. */
  ghost predicate OneByOne(w: World) {
    && (forall p, x, y :: ChildOf(w.parent, x, p) && ChildOf(w.parent, y, p) ==> x == y)
    && (forall a, x, p :: HeldBy(w, a, p) ==> !ChildOf(w.parent, x, p))
    && (forall a, b, p :: HeldBy(w, a, p) && HeldBy(w, b, p) ==> a == b)
  }

  lemma {:induction false} BeginKeepsOneByOne(w: World, op: Op)
    requires RotationInv(w) && OneByOne(w) && op.BeginPair?
    requires op.presented.Some? ==> Available(w, op.presented.value)
    ensures OneByOne(Step(w, op))
  {
    var w' := Step(w, op);
    assert forall a, p :: HeldBy(w', a, p) ==> HeldBy(w, a, p) || (a == op.accessId && op.presented == Some(p));
    if op.presented.Some? {
      assert Leaf(w.parent, op.presented.value);
      assert forall a :: !HeldBy(w, a, op.presented.value);
    }
  }

  lemma {:induction false} EndKeepsOneByOne(w: World, a: Id, r: Id, later: Time)
    requires RotationInv(w) && OneByOne(w) && a in w.pending && w.Fresh(r)
    ensures OneByOne(EndStep(w, a, r, later))
  {
    var w' := EndStep(w, a, r, later);
    EndKeepsTree(w, a, r, later);
    assert forall b, p :: HeldBy(w', b, p) <==> HeldBy(w, b, p) && b != a;
    assert forall p :: HeldBy(w, a, p) <==> w.pending[a].presented == Some(p);
  }

  lemma {:induction false} StepKeepsOneByOne(w: World, op: Op)
    requires RotationInv(w) && OneByOne(w) && (Presents(op) ==> Available(w, op.presented.value))
    ensures OneByOne(Step(w, op))
  {
    if op.BeginPair? {
      BeginKeepsOneByOne(w, op);
    } else if op.EndPair? {
      if op.accessId in w.pending && w.Fresh(op.refreshId) {
        EndKeepsOneByOne(w, op.accessId, op.refreshId, w.now + op.lag);
      }
    } else {
      PendingAndTreeStay(w, op);
      assert forall a, p :: HeldBy(Step(w, op), a, p) <==> HeldBy(w, a, p);
    }
  }

  lemma {:induction false} PendingAndTreeStay(w: World, op: Op)
    requires !op.BeginPair? && !op.EndPair?
    ensures Step(w, op).parent == w.parent && Step(w, op).pending == w.pending
  {
    if !op.Retire? {
      OtherStepsLeaveTheTree(w, op);
    }
  }

  /** Every rotation of the run begins with an available token: one that is live and that nobody else is rotating. */
  ghost predicate NoOverlap(ops: seq<Op>) {
    forall i :: 0 <= i < |ops| && Presents(ops[i]) ==> Available(Run(ops[..i]), ops[i].presented.value)
  }

  lemma {:induction false} RunKeepsOneByOne(ops: seq<Op>)
    requires NoOverlap(ops)
    ensures OneByOne(Run(ops))
  {
    if ops != [] {
      var n := |ops| - 1;
      var front := ops[..n];
      forall i | 0 <= i < n && Presents(front[i]) ensures Available(Run(front[..i]), front[i].presented.value) {
        assert front[i] == ops[i] && front[..i] == ops[..i];
      }
      RunKeepsOneByOne(front);
      RunKeepsRotationInv(front);
      StepKeepsOneByOne(Run(front), ops[n]);
    }
  }

  /**
   If every rotation begins with a token that is live and that no other rotation holds, every family at
   rest has at most one live token, whatever is interleaved with the sections and whatever is revoked.
   */
  lemma {:induction false} WithoutOverlapOneLives(ops: seq<Op>, f: nat)
    requires NoOverlap(ops) && Quiet(Run(ops), f)
    ensures AtMostOneLive(Run(ops), f)
  {
    RunKeepsOneByOne(ops);
    FamilyHasOneLiveToken(ops, f);
  }

  // ---------------------------------------------------------------------------------------------
  // One rotation, and two that overlap
  // ---------------------------------------------------------------------------------------------

  /** The second and the third section of a rotation, with nothing in between. */
  function Finished(w: World, a: Id, r: Id): World {
    Step(Step(w, EndPair(a, r, 0)), Retire(a))
  }

  lemma {:induction false} FinishTrades(w: World, current: Id, a: Id, r: Id)
    requires a in w.pending && w.pending[a].presented == Some(current)
    requires current in w.family && w.Fresh(r) && a !in w.retiring && current != r
    ensures var w' := Finished(w, a, r);
            var g := w.pending[a].grant;
            && w'.tokens == DropRefresh(AddRefresh(w.tokens, r, a, g.req, g.cnf, w.now, w.now), current)
            && w'.pending == w.pending - {a} && w'.retiring == w.retiring && w'.accessIds == w.accessIds
            && w'.family == w.family[r := w.family[current]] && w'.history == w.history
  {
    var g := w.pending[a].grant;
    var mid := Step(w, EndPair(a, r, 0));
    assert mid.tokens == AddRefresh(w.tokens, r, a, g.req, g.cnf, w.now, w.now);
    assert mid.retiring == w.retiring[a := current];
    assert w.retiring[a := current] - {a} == w.retiring;
  }

  lemma {:induction false} OneRotation(w: World, current: Id, a: Id, r: Id, g: Grant)
    requires w.Fresh(a) && w.Fresh(r) && a != r && current in w.family && a !in w.pending && a !in w.retiring
    ensures var w' := Finished(Step(w, BeginPair(a, g, Some(current))), a, r);
            && w'.tokens == IssuePair(w.tokens, a, r, g.req, g.cnf, Readings(w.now, w.now, w.now), Some(current))
            && w'.family == w.family[r := w.family[current]] && w'.pending == w.pending && w'.retiring == w.retiring
  {
    var begun := Step(w, BeginPair(a, g, Some(current)));
    Begins(w, current, a, g);
    FinishTrades(begun, current, a, r);
    assert w.pending[a := Pending(g, Some(current))] - {a} == w.pending;
  }

  lemma {:induction false} Begins(w: World, current: Id, a: Id, g: Grant)
    requires w.Fresh(a) && current in w.family
    ensures Step(w, BeginPair(a, g, Some(current))) ==
            w.(tokens := AddAccess(w.tokens, a, g.req, g.cnf, w.now + TOKEN_TTL), accessIds := w.accessIds + {a},
               pending := w.pending[a := Pending(g, Some(current))])
  {
  }

  /** Nothing in between, the sections together are `CreateAccessAndRefreshTokens`, and trade one token for one. */
  lemma {:induction false} RotationConserves(ops: seq<Op>, current: Id, a: Id, r: Id, g: Grant)
    requires var w := Run(ops); w.Fresh(a) && w.Fresh(r) && a != r && current in w.tokens.refresh
    ensures var w := Run(ops);
            var w' := Finished(Step(w, BeginPair(a, g, Some(current))), a, r);
            && w'.tokens == IssuePair(w.tokens, a, r, g.req, g.cnf, Readings(w.now, w.now, w.now), Some(current))
            && w'.tokens.refresh.Keys == w.tokens.refresh.Keys - {current} + {r}
            && |w'.tokens.refresh| == |w.tokens.refresh|
            && current in w.family && w'.family == w.family[r := w.family[current]]
            && w'.pending == w.pending && w'.retiring == w.retiring
  {
    IdsInUse(ops, current, a);
    IdsInUse(ops, current, r);
    var w := Run(ops);
    OneRotation(w, current, a, r, g);
    TokenRuns.PairTradesRefreshTokens(w.tokens, current, a, r, g, Readings(w.now, w.now, w.now));
  }

  /** A live refresh token belongs to a family, and a fresh id is not used by any pair under way. */
  lemma {:induction false} IdsInUse(ops: seq<Op>, current: Id, a: Id)
    requires var w := Run(ops); current in w.tokens.refresh && w.Fresh(a)
    ensures var w := Run(ops); current in w.family && a !in w.pending && a !in w.retiring && a !in w.tokens.refresh
    ensures var w := Run(ops); forall x :: x in w.retiring ==> w.retiring[x] in w.family
  {
    TokenRuns.RunKeepsTokenInv(ops);
    RunKeepsRotationInv(ops);
  }

  /** A token that was rotated away is refused in every continuation. */
  lemma {:induction false} RotatedTokenIsRefused(ops: seq<Op>, a: Id, more: seq<Op>)
    requires a in Run(ops).retiring
    ensures Run(ops).retiring[a] !in RunFrom(Step(Run(ops), Retire(a)), more).tokens.refresh
  {
    RunKeepsRotationInv(ops);
    TokenRuns.RefreshGoneForEver(Step(Run(ops), Retire(a)), more, Run(ops).retiring[a]);
  }

  /**
   Two rotations may both look the token up before either deletes it.  From any reachable state, two
   overlapping rotations of one live token leave two live tokens in its family, which was at rest before
   and is at rest again.
   */
  lemma {:induction false} OverlapLeavesTwo(ops: seq<Op>, current: Id, a: Id, r: Id, b: Id, q: Id, g: Grant)
    requires var w := Run(ops);
             && current in w.tokens.refresh && (current in w.family ==> Quiet(w, w.family[current]))
             && w.Fresh(a) && w.Fresh(r) && w.Fresh(b) && w.Fresh(q)
    requires a != r && a != b && a != q && r != b && r != q && b != q
    ensures var w := Run(ops);
            var begun := Step(Step(w, BeginPair(a, g, Some(current))), BeginPair(b, g, Some(current)));
            var w' := Finished(Finished(begun, a, r), b, q);
            && current in w.family && Quiet(w', w.family[current])
            && LiveIn(w', w.family[current], r) && LiveIn(w', w.family[current], q)
  {
    IdsInUse(ops, current, a);
    IdsInUse(ops, current, b);
    TwoRotations(Run(ops), current, a, r, b, q, g);
  }

  lemma {:induction false} TwoRotations(w: World, current: Id, a: Id, r: Id, b: Id, q: Id, g: Grant)
    requires w.Fresh(a) && w.Fresh(r) && w.Fresh(b) && w.Fresh(q)
    requires a != r && a != b && a != q && r != b && r != q && b != q
    requires current in w.family && Quiet(w, w.family[current])
    requires a !in w.pending && a !in w.retiring && b !in w.pending && b !in w.retiring
    requires forall x :: x in w.retiring ==> w.retiring[x] in w.family
    ensures var begun := Step(Step(w, BeginPair(a, g, Some(current))), BeginPair(b, g, Some(current)));
            var w' := Finished(Finished(begun, a, r), b, q);
            Quiet(w', w.family[current]) && LiveIn(w', w.family[current], r) && LiveIn(w', w.family[current], q)
  {
    var begun := Step(Step(w, BeginPair(a, g, Some(current))), BeginPair(b, g, Some(current)));
    BothBegin(w, current, a, b, g);
    FinishTrades(begun, current, a, r);
    var first := Finished(begun, a, r);
    assert first.Fresh(q) && r in first.tokens.refresh;
    FinishTrades(first, current, b, q);
    var w' := Finished(first, b, q);
    assert w'.family == w.family[r := w.family[current]][q := w.family[current]] && w'.retiring == w.retiring;
    assert r in w'.tokens.refresh && q in w'.tokens.refresh;
  }

  lemma {:induction false} BothBegin(w: World, current: Id, a: Id, b: Id, g: Grant)
    requires current in w.family && w.Fresh(a) && w.Fresh(b) && a != b
    ensures var begun := Step(Step(w, BeginPair(a, g, Some(current))), BeginPair(b, g, Some(current)));
            && begun.pending == w.pending[a := Pending(g, Some(current))][b := Pending(g, Some(current))]
            && begun.accessIds == w.accessIds + {a} + {b} && begun.tokens.refresh == w.tokens.refresh
            && begun.family == w.family && begun.retiring == w.retiring && begun.history == w.history
  {
    var first := Step(w, BeginPair(a, g, Some(current)));
    assert first.accessIds == w.accessIds + {a} && first.Fresh(b);
  }
}
