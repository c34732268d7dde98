/**
 The device-authorization store (RFC 8628): one record per grant, reachable by device code and by user
 code and updated through either.  The reference is a single table indexed by device code.
 */
module Devices {
  import opened Basics

  type DeviceCode(==, !new)
  type UserCode(==, !new)

  datatype Device = Device(
    client: ClientId, deviceCode: DeviceCode, userCode: UserCode, scopes: seq<Text>, expires: Time,
    subject: Option<UserId>, done: bool, denied: bool, lastPoll: Option<Time>, interval: int)

  type Table = map<DeviceCode, Device>

  function NewDevice(client: ClientId, d: DeviceCode, u: UserCode, expires: Time, scopes: seq<Text>): Device {
    Device(client, d, u, scopes, expires, None, false, false, None, 0)
  }

  ghost predicate Known(t: Table, u: UserCode) {
    exists d :: d in t && t[d].userCode == u
  }

  function Approve(t: Table, u: UserCode, subject: UserId): Table {
    map d | d in t :: if t[d].userCode == u then t[d].(done := true, subject := Some(subject)) else t[d]
  }

  function Deny(t: Table, u: UserCode): Table {
    map d | d in t :: if t[d].userCode == u then t[d].(denied := true) else t[d]
  }

  function Cleanup(t: Table, now: Time): Table {
    map d | d in t && now <= t[d].expires :: t[d]
  }

  // ---------------------------------------------------------------------------------------------
  // The store with its two indexes
  // ---------------------------------------------------------------------------------------------

  class DeviceAuth {
    const clientID: ClientId
    const deviceCode: DeviceCode
    const userCode: UserCode
    const scopes: seq<Text>
    const expires: Time
    var subject: Option<UserId>
    var done: bool
    var denied: bool
    var lastPoll: Option<Time>
    var interval: int

    function State(): Device
      reads this
    {
      Device(clientID, deviceCode, userCode, scopes, expires, subject, done, denied, lastPoll, interval)
    }

    constructor (client: ClientId, d: DeviceCode, u: UserCode, expires: Time, scopes: seq<Text>)
      ensures State() == NewDevice(client, d, u, expires, scopes)
    {
      this.clientID, this.deviceCode, this.userCode, this.expires, this.scopes := client, d, u, expires, scopes;
      subject, done, denied, lastPoll, interval := None, false, false, None, 0;
    }
  }

  class DeviceAuthStore {
    var entries: map<DeviceCode, DeviceAuth>
    var byCode: map<UserCode, DeviceAuth>

    /** Both indexes hold the same records, each record under its own two codes. */
    ghost predicate Valid()
      reads this
    {
      && (forall d :: d in entries ==>
            entries[d].deviceCode == d && entries[d].userCode in byCode && byCode[entries[d].userCode] == entries[d])
      && (forall u :: u in byCode ==>
            byCode[u].userCode == u && byCode[u].deviceCode in entries && entries[byCode[u].deviceCode] == byCode[u])
    }

    ghost function View(): Table
      reads this, entries.Values
    {
      map d | d in entries :: entries[d].State()
    }

    constructor ()
      ensures Valid() && View() == map[]
    {
      entries, byCode := map[], map[];
    }

    /**
     Codes are overwritten silently.  The indexes stay consistent exactly when both codes are new, or
     when they replace a record that had the same two codes.
     */
    method StoreDeviceAuthorization(client: ClientId, d: DeviceCode, u: UserCode, expires: Time, scopes: seq<Text>)
      modifies this
      ensures d in entries && u in byCode && fresh(entries[d]) && byCode[u] == entries[d]
      ensures entries == old(entries)[d := entries[d]] && byCode == old(byCode)[u := entries[d]]
      ensures View() == old(View())[d := NewDevice(client, d, u, expires, scopes)]
      ensures var x := View()[d];
              && x.client == client && x.deviceCode == d && x.userCode == u
              && x.scopes == scopes && x.expires == expires
              && x.subject.None? && !x.done && !x.denied && x.lastPoll.None? && x.interval == 0
      ensures old(Valid()) ==>
                (Valid() <==> if d in old(entries) then old(entries)[d].userCode == u else u !in old(byCode))
    {
      var entry := new DeviceAuth(client, d, u, expires, scopes);
      entries := entries[d := entry];
      byCode := byCode[u := entry];
      if old(Valid()) && d !in old(entries) && u in old(byCode) {
        var stale := old(byCode)[u].deviceCode;
        assert entries[stale] == old(byCode)[u] && byCode[entries[stale].userCode] != entries[stale];
      }
      if old(Valid()) && d in old(entries) && old(entries)[d].userCode != u {
        var stale := old(entries)[d].userCode;
        assert byCode[stale].deviceCode == d && entries[d] != byCode[stale];
      }
    }

    method GetDeviceAuthorizationState(d: DeviceCode) returns (r: Option<Device>)
      ensures r == if d in View() then Some(View()[d]) else None
    {
      r := if d in entries then Some(entries[d].State()) else None;
    }

    method GetDeviceAuthorizationByUserCode(u: UserCode) returns (r: Option<Device>)
      requires Valid()
      ensures r.Some? <==> Known(View(), u)
      ensures r.Some? ==> r.value.userCode == u && r.value.deviceCode in View() && View()[r.value.deviceCode] == r.value
    {
      IndexAnswersForTheTable(u);
      r := if u in byCode then Some(byCode[u].State()) else None;
    }

    lemma IndexAnswersForTheTable(u: UserCode)
      requires Valid()
      ensures u in byCode <==> Known(View(), u)
      ensures u in byCode ==> forall d :: d in entries && entries[d].userCode == u ==> entries[d] == byCode[u]
    {
      if u in byCode {
        assert View()[byCode[u].deviceCode].userCode == u;
      }
    }

    method UpdateDeviceAuthorizationPoll(d: DeviceCode, now: Time) returns (ok: bool)
      requires Valid()
      modifies entries.Values
      ensures Valid() && ok == (d in old(View()))
      ensures View() == if ok then old(View())[d := old(View())[d].(lastPoll := Some(now))] else old(View())
    {
      if d !in entries {
        return false;
      }
      entries[d].lastPoll := Some(now);
      return true;
    }

    method UpdateDeviceAuthorizationInterval(d: DeviceCode, increment: int) returns (ok: bool)
      requires Valid()
      modifies entries.Values
      ensures Valid() && ok == (d in old(View()))
      ensures View() ==
              if ok then old(View())[d := old(View())[d].(interval := old(View())[d].interval + increment)]
              else old(View())
    {
      if d !in entries {
        return false;
      }
      entries[d].interval := entries[d].interval + increment;
      return true;
    }

    method ApproveDeviceAuthorization(u: UserCode, subject: UserId) returns (ok: bool)
      requires Valid()
      modifies entries.Values
      ensures Valid() && ok == Known(old(View()), u)
      ensures View() == Approve(old(View()), u, subject)
    {
      IndexAnswersForTheTable(u);
      if u !in byCode {
        return false;
      }
      byCode[u].done := true;
      byCode[u].subject := Some(subject);
      return true;
    }

    method DenyDeviceAuthorization(u: UserCode) returns (ok: bool)
      requires Valid()
      modifies entries.Values
      ensures Valid() && ok == Known(old(View()), u)
      ensures View() == Deny(old(View()), u)
    {
      IndexAnswersForTheTable(u);
      if u !in byCode {
        return false;
      }
      byCode[u].denied := true;
      return true;
    }

    method CleanupExpired(now: Time)
      requires Valid()
      modifies this
      ensures Valid() && View() == Cleanup(old(View()), now)
    {
      var todo := entries.Keys;
      while todo != {}
        invariant Valid() && todo <= entries.Keys
        invariant entries ==
                  map d | d in old(entries) && (d in todo || now <= old(entries)[d].expires) :: old(entries)[d]
        decreases todo
      {
        var d :| d in todo;
        todo := todo - {d};
        var entry := entries[d];
        if now > entry.expires {
          entries := entries - {d};
          byCode := byCode - {entry.userCode};
        }
      }
    }
  }

  // ---------------------------------------------------------------------------------------------
  // Runs of the reference table
  // ---------------------------------------------------------------------------------------------

  datatype Op =
    | Store(d: DeviceCode, device: Device)
    | Poll(d: DeviceCode, now: Time)
    | SlowDown(d: DeviceCode, increment: int)
    | ApproveCode(u: UserCode, subject: UserId)
    | DenyCode(u: UserCode)
    | Expire(now: Time)

  function Step(t: Table, op: Op): Table {
    match op
    case Store(d, device) => t[d := device]
    case Poll(d, now) => if d in t then t[d := t[d].(lastPoll := Some(now))] else t
    case SlowDown(d, n) => if d in t then t[d := t[d].(interval := t[d].interval + n)] else t
    case ApproveCode(u, subject) => Approve(t, u, subject)
    case DenyCode(u) => Deny(t, u)
    case Expire(now) => Cleanup(t, now)
  }

  function RunFrom(t: Table, ops: seq<Op>): Table
    decreases |ops|
  {
    if ops == [] then t else RunFrom(Step(t, ops[0]), ops[1..])
  }

  /** The run neither hands the device code out again nor approves the user code a second time. */
  ghost predicate LeavesAlone(ops: seq<Op>, d: DeviceCode, u: UserCode) {
    forall i :: 0 <= i < |ops| ==>
      && (ops[i].Store? ==> ops[i].d != d)
      && (ops[i].ApproveCode? ==> ops[i].u != u)
  }

  ghost predicate Outlives(expires: Time, ops: seq<Op>) {
    forall i :: 0 <= i < |ops| && ops[i].Expire? ==> ops[i].now <= expires
  }

  lemma {:induction false} ApprovedRecordIsKept(t: Table, ops: seq<Op>, d: DeviceCode, subject: UserId)
    requires d in t && t[d].done && t[d].subject == Some(subject) && LeavesAlone(ops, d, t[d].userCode)
    ensures var t' := RunFrom(t, ops);
            && (d in t' <==> Outlives(t[d].expires, ops))
            && (d in t' ==> t'[d].done && t'[d].subject == Some(subject) && t'[d].userCode == t[d].userCode)
    decreases |ops|
  {
    if ops != [] {
      var t1 := Step(t, ops[0]);
      assert forall i :: 0 <= i < |ops[1..]| ==> ops[1..][i] == ops[i + 1];
      if d in t1 {
        ApprovedRecordIsKept(t1, ops[1..], d, subject);
        assert Outlives(t[d].expires, ops) <==> Outlives(t[d].expires, ops[1..]);
      } else {
        GoneRecordStaysGone(t1, ops[1..], d);
        assert ops[0].Expire? && ops[0].now > t[d].expires;
      }
    }
  }

  /** A poll and a slow-down are recorded for their own grant and no other. */
  lemma PollAndSlowDownAreRecorded(t: Table, d: DeviceCode, now: Time, increment: int, other: DeviceCode)
    requires d in t && other in t
    ensures var p, n := Step(t, Poll(d, now)), Step(t, SlowDown(d, increment));
            && p.Keys == t.Keys == n.Keys && p[d].lastPoll == Some(now) && n[d].interval == t[d].interval + increment
            && p[d].interval == t[d].interval && n[d].lastPoll == t[d].lastPoll
            && (other != d ==> p[other] == t[other] == n[other])
  {}

  lemma {:induction false} GoneRecordStaysGone(t: Table, ops: seq<Op>, d: DeviceCode)
    requires d !in t && forall i :: 0 <= i < |ops| && ops[i].Store? ==> ops[i].d != d
    ensures d !in RunFrom(t, ops)
    decreases |ops|
  {
    if ops != [] {
      GoneRecordStaysGone(Step(t, ops[0]), ops[1..], d);
    }
  }

  /** What an approval and a denial change, and that they leave every record under another user code alone. */
  lemma ApproveAndDenyChangeOneGrant(t: Table, u: UserCode, subject: UserId, d: DeviceCode)
    requires d in t
    ensures var a, n := Approve(t, u, subject), Deny(t, u);
            && a.Keys == t.Keys == n.Keys
            && (t[d].userCode != u ==> a[d] == t[d] == n[d])
            && (t[d].userCode == u ==> a[d].done && a[d].subject == Some(subject) && a[d].denied == t[d].denied)
            && (t[d].userCode == u ==> n[d].denied && n[d].done == t[d].done && n[d].subject == t[d].subject)
            && SameGrant(a[d], t[d]) && SameGrant(n[d], t[d])
  {}

  /** Two records of one grant, which may differ in what was decided about it. */
  ghost predicate SameGrant(x: Device, y: Device) {
    && x.client == y.client && x.deviceCode == y.deviceCode && x.userCode == y.userCode
    && x.scopes == y.scopes && x.expires == y.expires && x.lastPoll == y.lastPoll && x.interval == y.interval
  }

  lemma {:induction false} DeniedRecordIsKept(t: Table, ops: seq<Op>, d: DeviceCode)
    requires d in t && t[d].denied && forall i :: 0 <= i < |ops| && ops[i].Store? ==> ops[i].d != d
    ensures var t' := RunFrom(t, ops);
            && (d in t' <==> Outlives(t[d].expires, ops))
            && (d in t' ==> t'[d].denied)
    decreases |ops|
  {
    if ops != [] {
      var t1 := Step(t, ops[0]);
      assert forall i :: 0 <= i < |ops[1..]| ==> ops[1..][i] == ops[i + 1];
      if d in t1 {
        DeniedRecordIsKept(t1, ops[1..], d);
        assert Outlives(t[d].expires, ops) <==> Outlives(t[d].expires, ops[1..]);
      } else {
        GoneRecordStaysGone(t1, ops[1..], d);
        assert ops[0].Expire? && ops[0].now > t[d].expires;
      }
    }
  }

  /** A denial by user code is seen by every later poll by device code, and no later approval takes it back. */
  lemma {:induction false} PollSeesDenial(t: Table, u: UserCode, d: DeviceCode, ops: seq<Op>)
    requires d in t && t[d].userCode == u
    requires forall i :: 0 <= i < |ops| && ops[i].Store? ==> ops[i].d != d
    ensures var t' := RunFrom(Deny(t, u), ops);
            (d in t' <==> Outlives(t[d].expires, ops)) && (d in t' ==> t'[d].denied)
  {
    DeniedRecordIsKept(Deny(t, u), ops, d);
  }

  /**
   An approval by user code is seen by every later poll by device code, whatever polls, slow-downs,
   denials and other grants come in between, until the record itself is cleaned up after its expiry.
   */
  lemma {:induction false} PollSeesApproval(t: Table, u: UserCode, subject: UserId, d: DeviceCode, ops: seq<Op>)
    requires d in t && t[d].userCode == u && LeavesAlone(ops, d, u)
    ensures var t' := RunFrom(Approve(t, u, subject), ops);
            && (d in t' <==> Outlives(t[d].expires, ops))
            && (d in t' ==> t'[d].done && t'[d].subject == Some(subject))
  {
    ApprovedRecordIsKept(Approve(t, u, subject), ops, d, subject);
  }
}
