/** The leader lease: one entry per lock key, granted to one worker until an instant. */
module Leases {
  import opened Common

  datatype Lease = Lease(workerID: string, leaseUntil: Time)

  type Owners = map<string, Lease>

  /** Nobody has the lease, it has run out, or the asker has it already. */
  predicate Grants(owners: Owners, key: string, workerID: string, now: Time) {
    key !in owners || owners[key].leaseUntil < now || owners[key].workerID == workerID
  }

  function Acquired(owners: Owners, key: string, workerID: string, ttl: int, now: Time): Owners {
    if Grants(owners, key, workerID, now) then owners[key := Lease(workerID, now + ttl)] else owners
  }

  function Released(owners: Owners, key: string, workerID: string): Owners {
    if key in owners && owners[key].workerID == workerID then owners - {key} else owners
  }

  class LeaseStore {
    var owners: Owners

    constructor ()
      ensures owners == map[]
    {
      owners := map[];
    }

    method TryAcquireLeader(key: string, workerID: string, ttl: int, now: Time) returns (granted: bool)
      modifies this
      ensures granted == Grants(old(owners), key, workerID, now)
      ensures owners == Acquired(old(owners), key, workerID, ttl, now)
    {
      if key in owners && owners[key].leaseUntil >= now && owners[key].workerID != workerID {
        return false;
      }
      owners := owners[key := Lease(workerID, now + ttl)];
      return true;
    }

    method ReleaseLeader(key: string, workerID: string)
      modifies this
      ensures owners == Released(old(owners), key, workerID)
    {
      if key !in owners { return; }
      if owners[key].workerID == workerID {
        owners := map k | k in owners && k != key :: owners[k];
      }
    }
  }

  // ---- Runs ----------------------------------------------------------------

  datatype Op =
    | Acquire(key: string, workerID: string, ttl: int, now: Time)
    | Release(key: string, workerID: string)

  function After(ops: seq<Op>): Owners {
    if ops == [] then map[]
    else
      var before := After(ops[..|ops| - 1]);
      match ops[|ops| - 1]
      case Acquire(key, w, ttl, now) => Acquired(before, key, w, ttl, now)
      case Release(key, w) => Released(before, key, w)
  }

  /** The clock that workers pass in does not go backwards. */
  ghost predicate ClockForward(ops: seq<Op>) {
    forall i, j :: 0 <= i < j < |ops| && ops[i].Acquire? && ops[j].Acquire? ==> ops[i].now <= ops[j].now
  }

  /** Step i grants the lease to the worker. */
  predicate GrantAt(ops: seq<Op>, i: nat, key: string, workerID: string) {
    && i < |ops| && ops[i].Acquire? && ops[i].key == key && ops[i].workerID == workerID
    && Grants(After(ops[..i]), key, workerID, ops[i].now)
  }

  /** Step i is the worker's latest grant, and the worker has not released the lease since. */
  ghost predicate Current(ops: seq<Op>, i: nat, key: string, workerID: string) {
    && GrantAt(ops, i, key, workerID)
    && forall k :: i < k < |ops| ==> !GrantAt(ops, k, key, workerID) && ops[k] != Release(key, workerID)
  }

  /** The worker's latest grant is unreleased and runs at the instant. */
  ghost predicate Holds(ops: seq<Op>, key: string, workerID: string, at: Time) {
    exists i: nat :: Current(ops, i, key, workerID) && at <= ops[i].now + ops[i].ttl
  }

  /** A prefix of a run grants what the run grants. */
  lemma GrantInPrefix(ops: seq<Op>, n: nat, i: nat, key: string, workerID: string)
    requires i < n <= |ops|
    ensures GrantAt(ops[..n], i, key, workerID) <==> GrantAt(ops, i, key, workerID)
  {
    assert ops[..n][..i] == ops[..i];
  }

  lemma CurrentInPrefix(ops: seq<Op>, i: nat, key: string, workerID: string)
    requires ops != [] && i < |ops| - 1
    ensures Current(ops, i, key, workerID) <==>
      && Current(ops[..|ops| - 1], i, key, workerID)
      && !GrantAt(ops, |ops| - 1, key, workerID) && ops[|ops| - 1] != Release(key, workerID)
  {
    var n := |ops| - 1;
    forall k | i <= k < n ensures GrantAt(ops[..n], k, key, workerID) <==> GrantAt(ops, k, key, workerID) {
      GrantInPrefix(ops, n, k, key, workerID);
    }
    if Current(ops[..n], i, key, workerID) {
      forall k | i < k < n ensures !GrantAt(ops, k, key, workerID) && ops[k] != Release(key, workerID) {
        assert ops[..n][k] == ops[k];
      }
    }
    if Current(ops, i, key, workerID) {
      forall k | i < k < n ensures !GrantAt(ops[..n], k, key, workerID) && ops[..n][k] != Release(key, workerID) {
        assert ops[..n][k] == ops[k];
      }
    }
  }

  /** The stored entry is somebody's current grant. */
  lemma {:induction false} EntryIsCurrent(ops: seq<Op>, key: string) returns (i: nat)
    requires key in After(ops)
    ensures Current(ops, i, key, After(ops)[key].workerID)
    ensures After(ops)[key].leaseUntil == ops[i].now + ops[i].ttl
  {
    var n := |ops| - 1;
    var last := ops[n];
    var w := After(ops)[key].workerID;
    if GrantAt(ops, n, key, w) {
      i := n;
    } else {
      assert key in After(ops[..n]) && After(ops[..n])[key] == After(ops)[key];
      i := EntryIsCurrent(ops[..n], key);
      CurrentInPrefix(ops, i, key, w);
    }
  }

  /** A current grant is still stored, or the lease has been granted since at an instant at
      which the grant had run out. */
  lemma {:induction false} CurrentOrExpired(ops: seq<Op>, i: nat, key: string, workerID: string)
    requires Current(ops, i, key, workerID)
    ensures Entry(After(ops), key) == Some(Lease(workerID, ops[i].now + ops[i].ttl)) || ExpiredSince(ops, i)
  {
    var n := |ops| - 1;
    if i < n {
      CurrentInPrefix(ops, i, key, workerID);
      CurrentOrExpired(ops[..n], i, key, workerID);
      if ExpiredSince(ops[..n], i) {
        var k :| i < k < n && ops[..n][k].Acquire? && ops[..n][k].now > ops[..n][i].now + ops[..n][i].ttl;
        assert ops[k].now > ops[i].now + ops[i].ttl;
      } else if ops[n].Acquire? && ops[n].key == key && Grants(After(ops[..n]), key, ops[n].workerID, ops[n].now) {
        assert !GrantAt(ops, n, key, workerID);
        assert ops[n].now > ops[i].now + ops[i].ttl;
      }
    }
  }

  function Entry(owners: Owners, key: string): Option<Lease> {
    if key in owners then Some(owners[key]) else None
  }

  ghost predicate ExpiredSince(ops: seq<Op>, i: nat)
    requires i < |ops| && ops[i].Acquire?
  {
    exists k :: i < k < |ops| && ops[k].Acquire? && ops[k].now > ops[i].now + ops[i].ttl
  }

  /** A request is granted exactly when no other worker holds the lease. */
  lemma GrantedExactly(ops: seq<Op>, key: string, workerID: string, ttl: int, now: Time)
    requires ClockForward(ops + [Acquire(key, workerID, ttl, now)])
    ensures Grants(After(ops), key, workerID, now)
      <==> !(exists v :: v != workerID && Holds(ops, key, v, now))
  {
    var longer := ops + [Acquire(key, workerID, ttl, now)];
    if Grants(After(ops), key, workerID, now) {
      forall v | v != workerID ensures !Holds(ops, key, v, now) {
        forall i: nat | Current(ops, i, key, v) ensures ops[i].now + ops[i].ttl < now {
          CurrentOrExpired(ops, i, key, v);
          if ExpiredSince(ops, i) {
            var k :| i < k < |ops| && ops[k].Acquire? && ops[k].now > ops[i].now + ops[i].ttl;
            assert longer[k].Acquire? && longer[|ops|].Acquire? && longer[k].now <= longer[|ops|].now;
          }
        }
      }
    } else {
      var i := EntryIsCurrent(ops, key);
      assert Holds(ops, key, After(ops)[key].workerID, now);
    }
  }

  /** Mutual exclusion: at no instant from the last request on do two workers hold one lease. */
  lemma OneHolder(ops: seq<Op>, key: string, v: string, w: string, at: Time)
    requires ClockForward(ops) && forall i :: 0 <= i < |ops| && ops[i].Acquire? ==> ops[i].now <= at
    requires Holds(ops, key, v, at) && Holds(ops, key, w, at)
    ensures v == w
  {
    var i: nat :| Current(ops, i, key, v) && at <= ops[i].now + ops[i].ttl;
    var j: nat :| Current(ops, j, key, w) && at <= ops[j].now + ops[j].ttl;
    CurrentOrExpired(ops, i, key, v);
    CurrentOrExpired(ops, j, key, w);
    assert !ExpiredSince(ops, i) && !ExpiredSince(ops, j);
  }

  /** A release takes the lease from the releasing worker and leaves every other holder alone. */
  lemma ReleaseSpares(ops: seq<Op>, key: string, workerID: string, k: string, v: string, at: Time)
    ensures Holds(ops + [Release(key, workerID)], k, v, at)
      <==> Holds(ops, k, v, at) && !(k == key && v == workerID)
  {
    var longer := ops + [Release(key, workerID)];
    assert longer[..|longer| - 1] == ops;
    forall i: nat | i < |ops| ensures Current(longer, i, k, v)
      <==> Current(ops, i, k, v) && !(k == key && v == workerID) {
      CurrentInPrefix(longer, i, k, v);
    }
    assert !GrantAt(longer, |ops|, k, v);
    if Holds(longer, k, v, at) {
      var i: nat :| Current(longer, i, k, v) && at <= longer[i].now + longer[i].ttl;
      assert Current(ops, i, k, v) && at <= ops[i].now + ops[i].ttl;
    }
    if Holds(ops, k, v, at) && !(k == key && v == workerID) {
      var i: nat :| Current(ops, i, k, v) && at <= ops[i].now + ops[i].ttl;
      assert Current(longer, i, k, v) && at <= longer[i].now + longer[i].ttl;
    }
  }
}
