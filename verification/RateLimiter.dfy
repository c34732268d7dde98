/**
 The sliding-window rate limiter.  A bucket keeps the instants of the requests it let through in a
 buffer that every call compacts in place; a background sweep drops buckets in which nothing is left.

 `Buckets`, `AllowStep` and `SweepStep` say what one critical section does to the whole table.  The
 class below is proved against them, and the lemmas relate any interleaving of requests and sweeps to
 a reference limiter that never forgets an allowed request.
 */
module RateLimiting {
  import opened Basics

  /** The client address a bucket belongs to. */
  type Key(==, !new)

  type Buckets = map<Key, seq<Time>>

  /** The instants strictly after the cutoff, in their original order. */
  function Live(ts: seq<Time>, cutoff: Time): (live: seq<Time>)
    ensures |live| <= |ts|
  {
    if ts == [] then []
    else
      var last := |ts| - 1;
      Live(ts[..last], cutoff) + (if ts[last] > cutoff then [ts[last]] else [])
  }

  lemma {:induction false} LiveOneMore(ts: seq<Time>, n: nat, cutoff: Time)
    requires n < |ts|
    ensures Live(ts[..n + 1], cutoff) == Live(ts[..n], cutoff) + (if ts[n] > cutoff then [ts[n]] else [])
  {
    assert ts[..n + 1][..n] == ts[..n];
  }

  function Get(bs: Buckets, key: Key): seq<Time> {
    if key in bs then bs[key] else []
  }

  /** The new contents of a bucket and whether a request arriving now may pass. */
  function Admit(ts: seq<Time>, now: Time, rate: int, window: int): (seq<Time>, bool) {
    var live := Live(ts, now - window);
    if |live| >= rate then (live, false) else (live + [now], true)
  }

  function AllowStep(bs: Buckets, key: Key, now: Time, rate: int, window: int): (Buckets, bool) {
    var r := Admit(Get(bs, key), now, rate, window);
    (bs[key := r.0], r.1)
  }

  predicate Expired(ts: seq<Time>, cutoff: Time) {
    forall i :: 0 <= i < |ts| ==> ts[i] <= cutoff
  }

  function SweepStep(bs: Buckets, now: Time, window: int): Buckets {
    map key | key in bs && !Expired(bs[key], now - window) :: bs[key]
  }

  /** The table half-way through a sweep: the keys in `todo` have not been visited yet. */
  ghost function Kept(bs: Buckets, todo: set<Key>, cutoff: Time): Buckets {
    map key | key in bs && (key in todo || !Expired(bs[key], cutoff)) :: bs[key]
  }

  lemma KeptStep(bs: Buckets, todo: set<Key>, key: Key, cutoff: Time)
    requires key in todo && key in bs
    ensures Kept(bs, todo - {key}, cutoff) ==
            if Expired(bs[key], cutoff) then Kept(bs, todo, cutoff) - {key} else Kept(bs, todo, cutoff)
  {}

  // ---------------------------------------------------------------------------------------------
  // The implementation
  // ---------------------------------------------------------------------------------------------

  class Bucket {
    ghost const owner: Key
    ghost var timestamps: seq<Time>
    var data: array<Time>
    var len: nat

    ghost predicate Valid()
      reads this, data
    {
      len <= data.Length && timestamps == data[..len]
    }

    constructor (ghost owner: Key)
      ensures this.owner == owner
      ensures Valid() && fresh(data) && timestamps == []
    {
      this.owner := owner;
      data := new Time[0];
      len, timestamps := 0, [];
    }

    /** Keeps the instants after the cutoff, overwriting the front of the same buffer. */
    method Compact(cutoff: Time)
      requires Valid()
      modifies this, data
      ensures Valid() && data == old(data)
      ensures timestamps == Live(old(timestamps), cutoff)
    {
      var kept := 0;
      for i := 0 to len
        invariant kept <= i <= len == old(len) == |timestamps|
        invariant data == old(data) && timestamps == old(timestamps)
        invariant data[..kept] == Live(timestamps[..i], cutoff)
        invariant forall j :: i <= j < len ==> data[j] == timestamps[j]
      {
        LiveOneMore(timestamps, i, cutoff);
        if data[i] > cutoff {
          data[kept] := data[i];
          kept := kept + 1;
          assert data[..kept] == Live(timestamps[..i], cutoff) + [timestamps[i]];
        }
      }
      assert timestamps[..len] == timestamps;
      len, timestamps := kept, data[..kept];
    }

    method Append(t: Time)
      requires Valid()
      modifies this, data
      ensures Valid() && (data == old(data) || fresh(data))
      ensures timestamps == old(timestamps) + [t]
    {
      if len == data.Length {
        var grown := new Time[2 * len + 1];
        for i := 0 to len
          invariant unchanged(this) && unchanged(data)
          invariant forall j :: 0 <= j < i ==> grown[j] == data[j]
        {
          grown[i] := data[i];
        }
        data := grown;
        assert data[..len] == timestamps;
      }
      data[len] := t;
      len, timestamps := len + 1, timestamps + [t];
    }

    /** The part of `Allow` that works on one bucket. */
    method Enter(now: Time, rate: int, window: int) returns (allowed: bool)
      requires Valid()
      modifies this, data
      ensures Valid() && (data == old(data) || fresh(data))
      ensures (timestamps, allowed) == Admit(old(timestamps), now, rate, window)
    {
      Compact(now - window);
      if len >= rate {
        return false;
      }
      Append(now);
      return true;
    }

    method IsExpired(cutoff: Time) returns (expired: bool)
      requires Valid()
      ensures expired == Expired(timestamps, cutoff)
    {
      expired := true;
      for i := 0 to len
        invariant expired && forall j :: 0 <= j < i ==> timestamps[j] <= cutoff
      {
        if data[i] > cutoff {
          return false;
        }
      }
    }
  }

  class RateLimiter {
    const rate: int
    const window: int
    var buckets: map<Key, Bucket>

    ghost var Contents: Buckets
    ghost var Repr: set<object>
    ghost var BufferOwner: map<array<Time>, Key>

    ghost predicate Valid()
      reads this, Repr
    {
      && this in Repr
      && buckets.Keys == Contents.Keys
      && (forall k :: k in buckets ==> Owns(k))
    }

    ghost predicate Owns(k: Key)
      requires k in buckets && k in Contents
      reads this, Repr
    {
      var b := buckets[k];
      && b in Repr && b.data in Repr
      && b.data in BufferOwner && BufferOwner[b.data] == k
      && Holds(b, k, Contents[k])
    }

    static ghost predicate Holds(b: Bucket, k: Key, ts: seq<Time>)
      reads b, b.data
    {
      b.owner == k && b.Valid() && b.timestamps == ts
    }

    constructor (rate: int, window: int)
      ensures this.rate == rate && this.window == window
      ensures Valid() && fresh(Repr) && Contents == map[]
    {
      this.rate := rate;
      this.window := window;
      buckets, Contents, Repr, BufferOwner := map[], map[], {this}, map[];
    }

    method Allow(key: Key, now: Time) returns (allowed: bool)
      requires Valid()
      modifies Repr
      ensures Valid() && fresh(Repr - old(Repr))
      ensures (Contents, allowed) == AllowStep(old(Contents), key, now, rate, window)
    {
      if key !in buckets {
        AddBucket(key);
      }
      assert Contents == old(Contents)[key := Get(old(Contents), key)];
      allowed := EnterBucket(key, now);
      assert Contents == old(Contents)[key := Contents[key]];
    }

    method EnterBucket(key: Key, now: Time) returns (allowed: bool)
      requires Valid() && key in buckets
      modifies Repr
      ensures Valid() && fresh(Repr - old(Repr))
      ensures (Contents, allowed) == AllowStep(old(Contents), key, now, rate, window)
    {
      var b := buckets[key];
      allowed := b.Enter(now, rate, window);
      Record(key);
    }

    /** Brings the ghost state up to date after the bucket of `key` has changed. */
    ghost method Record(key: Key)
      requires this in Repr && key in buckets && buckets.Keys == Contents.Keys
      requires buckets[key] in Repr && buckets[key].owner == key && buckets[key].Valid()
      requires forall k :: k in buckets && k != key ==> Owns(k) && buckets[k].data != buckets[key].data
      modifies `Contents, `Repr, `BufferOwner
      ensures Valid() && Repr == old(Repr) + {buckets[key].data}
      ensures Contents == old(Contents)[key := buckets[key].timestamps]
    {
      var b := buckets[key];
      Contents, Repr, BufferOwner := Contents[key := b.timestamps], Repr + {b.data}, BufferOwner[b.data := key];
      assert Owns(key);
    }

    method AddBucket(key: Key)
      requires Valid() && key !in buckets
      modifies this
      ensures Valid() && fresh(Repr - old(Repr))
      ensures buckets.Keys == old(buckets).Keys + {key} && Contents == old(Contents)[key := []]
    {
      var b := new Bucket(key);
      buckets, Contents := buckets[key := b], Contents[key := []];
      Repr, BufferOwner := Repr + {b, b.data}, BufferOwner[b.data := key];
    }

    /** One pass of the background cleanup over the whole table, in any order. */
    method Sweep(now: Time)
      requires Valid()
      modifies `buckets, `Contents
      ensures Valid()
      ensures Contents == SweepStep(old(Contents), now, window)
    {
      var cutoff := now - window;
      ghost var was := Contents;
      var todo := buckets.Keys;
      while todo != {}
        invariant Valid() && todo <= was.Keys && Contents == Kept(was, todo, cutoff)
        decreases todo
      {
        var key :| key in todo;
        DropIfExpired(key, cutoff);
        KeptStep(was, todo, key, cutoff);
        todo := todo - {key};
      }
    }

    method DropIfExpired(key: Key, cutoff: Time)
      requires Valid() && key in buckets
      modifies `buckets, `Contents
      ensures Valid()
      ensures Contents == if Expired(old(Contents)[key], cutoff) then old(Contents) - {key} else old(Contents)
    {
      var expired := buckets[key].IsExpired(cutoff);
      if expired {
        buckets, Contents := buckets - {key}, Contents - {key};
      }
    }
  }

  // ---------------------------------------------------------------------------------------------
  // Runs
  // ---------------------------------------------------------------------------------------------

  datatype Event = Request(key: Key, now: Time) | Cleanup(now: Time)

  ghost predicate Nondecreasing(es: seq<Event>) {
    forall i, j :: 0 <= i < j < |es| ==> es[i].now <= es[j].now
  }

  /** One critical section; a cleanup has the answer `false`, which nobody reads. */
  function Step(bs: Buckets, e: Event, rate: int, window: int): (Buckets, bool) {
    match e
    case Request(key, now) => AllowStep(bs, key, now, rate, window)
    case Cleanup(now) => (SweepStep(bs, now, window), false)
  }

  /** The table after a run. */
  function Table(es: seq<Event>, rate: int, window: int): Buckets {
    if es == [] then map[]
    else Step(Table(es[..|es| - 1], rate, window), es[|es| - 1], rate, window).0
  }

  /** What the last event of a nonempty run was answered. */
  predicate Answer(es: seq<Event>, rate: int, window: int)
    requires es != []
  {
    Step(Table(es[..|es| - 1], rate, window), es[|es| - 1], rate, window).1
  }

  /** The reference limiter: it keeps every allowed request for ever and counts those in the window. */
  function History(es: seq<Event>, rate: int, window: int, key: Key): seq<Time> {
    if es == [] then []
    else Remember(History(es[..|es| - 1], rate, window, key), es[|es| - 1], rate, window, key)
  }

  function Remember(h: seq<Time>, e: Event, rate: int, window: int, key: Key): seq<Time> {
    if e.Request? && e.key == key && |Live(h, e.now - window)| < rate then h + [e.now] else h
  }

  predicate Grants(es: seq<Event>, rate: int, window: int, key: Key, now: Time) {
    |Live(History(es, rate, window, key), now - window)| < rate
  }

  /** How many of the instants lie in the half-open interval (after, upTo]. */
  function CountIn(ts: seq<Time>, after: Time, upTo: Time): nat {
    if ts == [] then 0
    else
      var last := |ts| - 1;
      CountIn(ts[..last], after, upTo) + (if after < ts[last] <= upTo then 1 else 0)
  }

  lemma {:induction false} LiveOfLive(ts: seq<Time>, c0: Time, c: Time)
    requires c0 <= c
    ensures Live(Live(ts, c0), c) == Live(ts, c)
  {
    if ts != [] {
      var last := |ts| - 1;
      LiveOfLive(ts[..last], c0, c);
      var front := Live(ts[..last], c0);
      if ts[last] > c0 {
        assert (front + [ts[last]])[..|front|] == front;
      } else {
        assert Live(ts, c0) == front;
      }
    }
  }

  lemma {:induction false} LiveNothing(ts: seq<Time>, cutoff: Time)
    requires Expired(ts, cutoff)
    ensures Live(ts, cutoff) == []
  {
    if ts != [] {
      LiveNothing(ts[..|ts| - 1], cutoff);
    }
  }

  lemma {:induction false} LiveSnoc(ts: seq<Time>, t: Time, c: Time)
    ensures Live(ts + [t], c) == Live(ts, c) + (if t > c then [t] else [])
  {
    assert (ts + [t])[..|ts|] == ts;
  }

  /** Compaction keeps an instant on its own exactly if it is after the cutoff. */
  lemma {:induction false} LiveOfOne(t: Time, c: Time)
    ensures Live([], c) == [] && Live([t], c) == if t > c then [t] else []
  {
    assert [t][..0] == [];
  }

  /** And it works piece by piece, so that it neither reorders nor repeats. */
  lemma {:induction false} LiveOfPieces(a: seq<Time>, b: seq<Time>, c: Time)
    ensures Live(a + b, c) == Live(a, c) + Live(b, c)
  {
    if b == [] {
      assert a + b == a;
    } else {
      var front, t := b[..|b| - 1], b[|b| - 1];
      LiveOfPieces(a, front, c);
      assert Live(b, c) == Live(front, c) + Live([t], c) by {
        assert b == front + [t];
        LiveSnoc(front, t, c);
        LiveOfOne(t, c);
      }
      assert Live(a + b, c) == Live(a + front, c) + Live([t], c) by {
        assert a + b == (a + front) + [t];
        LiveSnoc(a + front, t, c);
        LiveOfOne(t, c);
      }
      Associative(Live(a, c), Live(front, c), Live([t], c));
    }
  }

  lemma Associative(a: seq<Time>, b: seq<Time>, c: seq<Time>)
    ensures (a + b) + c == a + (b + c)
  {}

  /** A sweep keeps exactly the buckets in which some instant is after the cutoff, as they are. */
  lemma {:induction false} SweptBuckets(bs: Buckets, now: Time, window: int, key: Key)
    ensures var after := SweepStep(bs, now, window);
            && (key in after <==> key in bs && exists i :: 0 <= i < |bs[key]| && bs[key][i] > now - window)
            && (key in after ==> after[key] == bs[key])
  {
  }

  lemma {:induction false} AdmitAgrees(ts: seq<Time>, h: seq<Time>, now: Time, rate: int, window: int, c: Time)
    requires now - window <= c
    requires Live(ts, c) == Live(h, c) && Live(ts, now - window) == Live(h, now - window)
    ensures Live(Admit(ts, now, rate, window).0, c) ==
            Live(if |Live(h, now - window)| < rate then h + [now] else h, c)
  {
    var live, after := Live(ts, now - window), Admit(ts, now, rate, window).0;
    LiveOfLive(ts, now - window, c);
    if |live| < rate {
      LiveSnoc(live, now, c);
      LiveSnoc(h, now, c);
      assert after == live + [now];
    } else {
      assert after == live;
    }
  }

  lemma {:induction false} SweepKeepsLive(bs: Buckets, key: Key, now: Time, window: int, c: Time)
    requires now - window <= c
    ensures Live(Get(SweepStep(bs, now, window), key), c) == Live(Get(bs, key), c)
  {
    if key in bs && Expired(bs[key], now - window) {
      LiveNothing(bs[key], c);
      assert Get(SweepStep(bs, now, window), key) == [];
    } else {
      assert Get(SweepStep(bs, now, window), key) == Get(bs, key);
    }
  }

  /** What a step does to the bucket of one key. */
  lemma StepOnKey(bs: Buckets, e: Event, rate: int, window: int, key: Key)
    ensures Get(Step(bs, e, rate, window).0, key) ==
            if e.Cleanup? then Get(SweepStep(bs, e.now, window), key)
            else if e.key == key then Admit(Get(bs, key), e.now, rate, window).0
            else Get(bs, key)
  {}

  lemma {:induction false} StepAgrees(bs: Buckets, h: seq<Time>, e: Event, rate: int, window: int, key: Key, c: Time)
    requires e.now - window <= c
    requires Live(Get(bs, key), c) == Live(h, c)
    requires Live(Get(bs, key), e.now - window) == Live(h, e.now - window)
    ensures Live(Get(Step(bs, e, rate, window).0, key), c) == Live(Remember(h, e, rate, window, key), c)
  {
    StepOnKey(bs, e, rate, window, key);
    var after, h' := Get(Step(bs, e, rate, window).0, key), Remember(h, e, rate, window, key);
    if e.Cleanup? {
      SweepKeepsLive(bs, key, e.now, window, c);
      assert after == Get(SweepStep(bs, e.now, window), key) && h' == h;
    } else if e.key == key {
      AdmitAgrees(Get(bs, key), h, e.now, rate, window, c);
      assert after == Admit(Get(bs, key), e.now, rate, window).0;
      assert h' == if |Live(h, e.now - window)| < rate then h + [e.now] else h;
    } else {
      assert after == Get(bs, key) && h' == h;
    }
  }

  /** What compaction and sweeping forget never matters again while the clock does not go back. */
  lemma {:induction false} BucketsAgreeWithHistory(es: seq<Event>, rate: int, window: int, key: Key, c: Time)
    requires Nondecreasing(es)
    requires es != [] ==> es[|es| - 1].now - window <= c
    ensures Live(Get(Table(es, rate, window), key), c) == Live(History(es, rate, window, key), c)
  {
    if es != [] {
      var front, e := es[..|es| - 1], es[|es| - 1];
      BucketsAgreeWithHistory(front, rate, window, key, c);
      BucketsAgreeWithHistory(front, rate, window, key, e.now - window);
      StepAgrees(Table(front, rate, window), History(front, rate, window, key), e, rate, window, key, c);
    }
  }

  /**
   Refinement: the last request of any run, and so (prefixes of runs being runs) every request, is
   answered exactly as the limiter that keeps the full history answers it, however requests for other
   keys and sweeps interleave.
   */
  lemma {:induction false} AnswersMatchFullHistory(es: seq<Event>, rate: int, window: int)
    requires Nondecreasing(es) && es != [] && es[|es| - 1].Request?
    ensures var e := es[|es| - 1];
            Answer(es, rate, window) == Grants(es[..|es| - 1], rate, window, e.key, e.now)
  {
    var e := es[|es| - 1];
    BucketsAgreeWithHistory(es[..|es| - 1], rate, window, e.key, e.now - window);
  }

  lemma {:induction false} HistoryIsPast(es: seq<Event>, rate: int, window: int, key: Key, now: Time)
    requires forall i :: 0 <= i < |es| ==> es[i].now <= now
    ensures Expired(History(es, rate, window, key), now)
  {
    if es != [] {
      var n := |es| - 1;
      HistoryIsPast(es[..n], rate, window, key, now);
      var h := History(es[..n], rate, window, key);
      assert History(es, rate, window, key) == h || History(es, rate, window, key) == h + [es[n].now];
    }
  }

  lemma {:induction false} CountWithinLive(ts: seq<Time>, c: Time, after: Time, upTo: Time)
    requires c <= after
    ensures CountIn(ts, after, upTo) <= |Live(ts, c)|
  {
    if ts != [] {
      CountWithinLive(ts[..|ts| - 1], c, after, upTo);
    }
  }

  lemma {:induction false} LiveIsCounted(ts: seq<Time>, c: Time, upTo: Time)
    requires Expired(ts, upTo)
    ensures |Live(ts, c)| == CountIn(ts, c, upTo)
  {
    if ts != [] {
      LiveIsCounted(ts[..|ts| - 1], c, upTo);
    }
  }

  /**
   Every request is let through if and only if fewer than `rate` requests of its key were let through in the
   window (now - window, now] that ends with it.
   */
  lemma {:induction false} AnswersCountTheWindow(es: seq<Event>, rate: int, window: int)
    requires Nondecreasing(es) && es != [] && es[|es| - 1].Request?
    ensures var n := |es| - 1;
            var now := es[n].now;
            Answer(es, rate, window) <==> CountIn(History(es[..n], rate, window, es[n].key), now - window, now) < rate
  {
    var n := |es| - 1;
    AnswersMatchFullHistory(es, rate, window);
    HistoryIsPast(es[..n], rate, window, es[n].key, es[n].now);
    LiveIsCounted(History(es[..n], rate, window, es[n].key), es[n].now - window, es[n].now);
  }

  /** Safety over all runs: no window of the configured length ever holds more than `rate` allowed requests. */
  lemma {:induction false} AtMostRatePerWindow(es: seq<Event>, rate: int, window: int, key: Key, t: Time)
    requires Nondecreasing(es)
    ensures CountIn(History(es, rate, window, key), t - window, t) <= if rate < 0 then 0 else rate
  {
    if es != [] {
      var n := |es| - 1;
      var h := History(es[..n], rate, window, key);
      AtMostRatePerWindow(es[..n], rate, window, key, t);
      if History(es, rate, window, key) != h {
        var now := es[n].now;
        assert (h + [now])[..|h|] == h;
        if t - window < now <= t {
          CountWithinLive(h, now - window, t - window, t);
        }
      }
    }
  }

  /** The history is the answers: an instant enters it exactly when the running limiter said yes. */
  lemma {:induction false} HistoryRecordsAnswers(es: seq<Event>, rate: int, window: int, key: Key)
    requires Nondecreasing(es) && es != []
    ensures var n := |es| - 1;
            var h := History(es[..n], rate, window, key);
            History(es, rate, window, key) ==
              if es[n].Request? && es[n].key == key && Answer(es, rate, window) then h + [es[n].now] else h
  {
    var n := |es| - 1;
    var h := History(es[..n], rate, window, key);
    assert History(es, rate, window, key) == Remember(h, es[n], rate, window, key);
    if es[n].Request? && es[n].key == key {
      AnswersMatchFullHistory(es, rate, window);
    }
  }

  lemma {:induction false} WithoutOneEvent(es: seq<Event>, more: seq<Event>)
    requires es != [] && Nondecreasing(es + more)
    ensures Nondecreasing(es) && Nondecreasing(es[..|es| - 1] + more)
  {
    var all, n := es + more, |es| - 1;
    var rest := es[..n] + more;
    assert forall i :: 0 <= i < |es| ==> es[i] == all[i];
    assert forall i :: 0 <= i < |rest| ==> rest[i] == all[if i < n then i else i + 1];
  }

  /** A denied request and a sweep never enter the history, whatever comes later. */
  lemma {:induction false} DeniedCallsLeaveNoTrace(es: seq<Event>, more: seq<Event>, rate: int, window: int, key: Key)
    requires Nondecreasing(es + more) && es != [] && !Answer(es, rate, window)
    ensures History(es + more, rate, window, key) == History(es[..|es| - 1] + more, rate, window, key)
    decreases |more|
  {
    WithoutOneEvent(es, more);
    var n := |es| - 1;
    if more == [] {
      HistoryRecordsAnswers(es, rate, window, key);
      assert es + more == es && es[..n] + more == es[..n];
    } else {
      var m := |more| - 1;
      var all, rest := es + more, es[..n] + more;
      assert all[..|all| - 1] == es + more[..m] && all[|all| - 1] == more[m];
      assert rest[..|rest| - 1] == es[..n] + more[..m] && rest[|rest| - 1] == more[m];
      assert forall i :: 0 <= i < |es + more[..m]| ==> (es + more[..m])[i] == all[i];
      DeniedCallsLeaveNoTrace(es, more[..m], rate, window, key);
    }
  }

  /** Every later answer of the running limiter is the one it would have given without the denied request or sweep. */
  lemma {:induction false} DeniedCallsAndSweepsDoNotCount(es: seq<Event>, more: seq<Event>, rate: int, window: int)
    requires Nondecreasing(es + more) && es != [] && more != [] && !Answer(es, rate, window)
    ensures Answer(es + more, rate, window) == Answer(es[..|es| - 1] + more, rate, window)
  {
    WithoutOneEvent(es, more);
    var n, m := |es| - 1, |more| - 1;
    var all, rest := es + more, es[..n] + more;
    assert all[..|all| - 1] == es + more[..m] && all[|all| - 1] == more[m];
    assert rest[..|rest| - 1] == es[..n] + more[..m] && rest[|rest| - 1] == more[m];
    if more[m].Request? {
      assert forall i :: 0 <= i < |es + more[..m]| ==> (es + more[..m])[i] == all[i];
      AnswersMatchFullHistory(all, rate, window);
      AnswersMatchFullHistory(rest, rate, window);
      DeniedCallsLeaveNoTrace(es, more[..m], rate, window, more[m].key);
    }
  }
}
