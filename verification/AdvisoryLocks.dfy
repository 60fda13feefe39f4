/**
 The mount-local bookkeeping in front of the lock authority: which owners may hold record
 locks, which of them still need their last close cleaned up, and which file handle issued
 the latest attempt.  Each method body runs under the owner's operation stripe; `Others`
 stands for everything that may run between two of them.
 */
module AdvisoryLocks {
  import opened Common

  datatype LockType = Read | Write | Unlock

  datatype Key = Key(ino: nat, owner: nat)

  datatype Handle = Handle(ino: nat, fh: nat)

  /** `PosixOwnerHint`. */
  datatype Hint = Hint(attempt: nat, cleanupPending: bool)

  /** A grant attempt as it was issued: for whom, and through which handle. */
  datatype Attempt = Attempt(key: Key, handle: Option<nat>)

  /** Whether an unlock was sent by the operation under consideration or by another one of the mount. */
  datatype Caller = Here | Elsewhere

  /** A full-range unlock as it was sent: the owner's hinted attempt, the handle of its latest one, the reply. */
  datatype Sent = Sent(caller: Caller, key: Key, attempt: nat, via: Option<nat>, ok: bool)

  /** A grant request as it was sent, under which attempt and through which handle, and its reply. */
  datatype Grant = Grant(key: Key, attempt: nat, via: Option<nat>, reply: Status)

  /** The unlock of a part of what an owner holds, and its reply. */
  datatype Partial = Partial(key: Key, reply: Status)

  type Hints = map<Key, Hint>

  /** Whatever the authority may hold is hinted at, and a hint carries the owner's latest attempt. */
  ghost predicate Hinted(attempts: Hints, latest: map<Key, nat>, mayHold: set<Key>, stale: set<Key>) {
    && (forall k :: k in mayHold ==> k in attempts)
    && (forall k :: k in stale ==> k in attempts && attempts[k].cleanupPending)
    && (forall k :: k in attempts ==> k in latest && attempts[k].attempt == latest[k])
  }

  /** Attempt numbers are never used twice, and every reference to one is to the attempt it was issued for. */
  ghost predicate Numbered(issued: map<nat, Attempt>, latest: map<Key, nat>, handles: map<Handle, map<nat, nat>>,
                           nextAttempt: nat) {
    && (forall n :: n in issued ==> 0 < n <= nextAttempt)
    && (forall k :: k in latest ==> latest[k] in issued && issued[latest[k]].key == k)
    && (forall h, o :: h in handles && o in handles[h] ==>
                         handles[h][o] in issued && issued[handles[h][o]] == Attempt(Key(h.ino, o), Some(h.fh)))
  }

  /** An owner's latest attempt is under the handle it was made through, unless that was closed since. */
  ghost predicate Noted(issued: map<nat, Attempt>, latest: map<Key, nat>, handles: map<Handle, map<nat, nat>>,
                        closed: set<nat>) {
    && (forall n :: n in closed ==> n in issued)
    && forall k :: k in latest && latest[k] in issued && latest[k] !in closed && issued[latest[k]].handle.Some? ==>
                     var h := Handle(k.ino, issued[latest[k]].handle.value);
                     h in handles && k.owner in handles[h] && handles[h][k.owner] == latest[k]
  }

  /** The attempts made through a handle. */
  function Through(issued: map<nat, Attempt>, h: Handle): set<nat> {
    set n | n in issued && issued[n].key.ino == h.ino && issued[n].handle == Some(h.fh)
  }

  ghost predicate Extends(before: map<nat, Attempt>, after: map<nat, Attempt>) {
    forall n :: n in before ==> n in after && after[n] == before[n]
  }

  /** The unlocks sent here since the log was `from` long. */
  ghost predicate SentHere(log: seq<Sent>, from: nat, x: Sent) {
    exists i :: from <= i < |log| && log[i] == x && x.caller == Here
  }

  /** From `from` on the log belongs to other operations. */
  function Relabel(log: seq<Sent>, from: nat): (r: seq<Sent>)
    requires from <= |log|
    ensures |r| == |log| && r[..from] == log[..from] && forall i :: from <= i < |r| ==> r[i].caller == Elsewhere
  {
    log[..from] + seq(|log| - from, i requires 0 <= i < |log| - from => log[from + i].(caller := Elsewhere))
  }

  /** A hint that was left alone. */
  ghost predicate Same(before: Hints, after: Hints, k: Key) {
    (k in after <==> k in before) && (k in before ==> after[k] == before[k])
  }

  /** Only one owner's hint changed. */
  ghost predicate OthersSame(before: Hints, after: Hints, key: Key) { forall k :: k != key ==> Same(before, after, k) }

  ghost predicate SetSame(before: set<Key>, after: set<Key>, key: Key) {
    forall k :: k != key ==> (k in after <==> k in before)
  }

  /** A later hint is the earlier one, pending if that was, or it belongs to an attempt issued since. */
  ghost predicate Onward(before: Hints, after: Hints, issued: map<nat, Attempt>) {
    forall k :: k in after ==>
                  || after[k].attempt !in issued
                  || (k in before && before[k].attempt == after[k].attempt
                      && (before[k].cleanupPending ==> after[k].cleanupPending))
  }

  lemma OnwardTwice(a: Hints, b: Hints, c: Hints, before: map<nat, Attempt>, after: map<nat, Attempt>)
    requires Onward(a, b, before) && Onward(b, c, after) && Extends(before, after)
    ensures Onward(a, c, before)
  {
  }

  /** Nothing is left of attempt `n`, or else its cleanup failed and is pending. */
  ghost predicate Settled(attempts: Hints, k: Key, n: nat, gone: bool) {
    k in attempts && attempts[k].attempt == n ==> !gone && attempts[k].cleanupPending
  }

  lemma StaysSettled(before: Hints, after: Hints, issued: map<nat, Attempt>, k: Key, n: nat, gone: bool)
    requires Onward(before, after, issued) && n in issued && Settled(before, k, n, gone)
    ensures Settled(after, k, n, gone)
  {
  }

  lemma OthersSameTwice(a: Hints, b: Hints, c: Hints, key: Key)
    requires OthersSame(a, b, key) && OthersSame(b, c, key)
    ensures OthersSame(a, c, key)
  {
    forall k | k != key ensures Same(a, c, k) {
      assert Same(a, b, k) && Same(b, c, k);
    }
  }

  lemma Recorded(attempts: Hints, latest: map<Key, nat>, mayHold: set<Key>, stale: set<Key>, k: Key, n: nat)
    requires Hinted(attempts, latest, mayHold, stale) && k !in stale
    ensures Hinted(attempts[k := Hint(n, false)], latest[k := n], mayHold, stale)
  {
  }

  lemma Forgotten(attempts: Hints, latest: map<Key, nat>, mayHold: set<Key>, stale: set<Key>, k: Key)
    requires Hinted(attempts, latest, mayHold, stale) && k !in mayHold && k !in stale
    ensures Hinted(attempts - {k}, latest, mayHold, stale)
  {
  }

  lemma Pending(attempts: Hints, latest: map<Key, nat>, mayHold: set<Key>, stale: set<Key>, k: Key)
    requires Hinted(attempts, latest, mayHold, stale) && k in attempts
    ensures Hinted(attempts[k := attempts[k].(cleanupPending := true)], latest, mayHold, stale + {k})
  {
  }

  function NoteHandle(handles: map<Handle, map<nat, nat>>, ino: nat, handle: Option<nat>, owner: nat,
                      n: nat): map<Handle, map<nat, nat>> {
    if handle.None? then handles
    else
      var h := Handle(ino, handle.value);
      handles[h := (if h in handles then handles[h] else map[])[owner := n]]
  }

  lemma Issued(issued: map<nat, Attempt>, latest: map<Key, nat>, handles: map<Handle, map<nat, nat>>, nextAttempt: nat,
               k: Key, handle: Option<nat>)
    requires Numbered(issued, latest, handles, nextAttempt)
    ensures Numbered(issued[nextAttempt + 1 := Attempt(k, handle)], latest[k := nextAttempt + 1],
                     NoteHandle(handles, k.ino, handle, k.owner, nextAttempt + 1), nextAttempt + 1)
    ensures Extends(issued, issued[nextAttempt + 1 := Attempt(k, handle)]) && nextAttempt + 1 !in issued
  {
    var n := nextAttempt + 1;
    assert n !in issued;
    var more, noted := issued[n := Attempt(k, handle)], NoteHandle(handles, k.ino, handle, k.owner, n);
    forall h, o | h in noted && o in noted[h]
      ensures noted[h][o] in more && more[noted[h][o]] == Attempt(Key(h.ino, o), Some(h.fh))
    {
      if !(handle.Some? && h == Handle(k.ino, handle.value) && o == k.owner) {
        assert h in handles && o in handles[h] && noted[h][o] == handles[h][o];
      }
    }
  }

  lemma IssuedNoted(issued: map<nat, Attempt>, latest: map<Key, nat>, handles: map<Handle, map<nat, nat>>,
                    closed: set<nat>, nextAttempt: nat, k: Key, handle: Option<nat>)
    requires Numbered(issued, latest, handles, nextAttempt) && Noted(issued, latest, handles, closed)
    ensures Noted(issued[nextAttempt + 1 := Attempt(k, handle)], latest[k := nextAttempt + 1],
                  NoteHandle(handles, k.ino, handle, k.owner, nextAttempt + 1), closed)
    ensures nextAttempt + 1 !in closed
  {
    var n := nextAttempt + 1;
    assert n !in issued;
    var more, last, noted := issued[n := Attempt(k, handle)], latest[k := n],
                             NoteHandle(handles, k.ino, handle, k.owner, n);
    forall j | j in last && last[j] in more && last[j] !in closed && more[last[j]].handle.Some?
      ensures var h := Handle(j.ino, more[last[j]].handle.value);
              h in noted && j.owner in noted[h] && noted[h][j.owner] == last[j]
    {
      if j != k {
        var h := Handle(j.ino, issued[latest[j]].handle.value);
        assert h in handles && j.owner in handles[h] && handles[h][j.owner] == latest[j];
      }
    }
  }

  lemma Released(issued: map<nat, Attempt>, latest: map<Key, nat>, handles: map<Handle, map<nat, nat>>,
                 closed: set<nat>, nextAttempt: nat, h: Handle)
    requires Numbered(issued, latest, handles, nextAttempt) && Noted(issued, latest, handles, closed)
    ensures Numbered(issued, latest, handles - {h}, nextAttempt)
    ensures Noted(issued, latest, handles - {h}, closed + Through(issued, h))
  {
  }

  class FuseAdvisoryLocks {
    var attempts: map<Key, Hint>
    var handles: map<Handle, map<nat, nat>>
    var nextAttempt: nat

    /** Owners for whom the authority may hold ranges. */
    ghost var mayHold: set<Key>
    /** Owners whose last close asked for all ranges to go and has not been confirmed. */
    ghost var stale: set<Key>
    /** Every attempt ever issued, by number. */
    ghost var issued: map<nat, Attempt>
    /** The latest attempt of each owner. */
    ghost var latest: map<Key, nat>
    /** The attempts whose handle has been closed since they were made. */
    ghost var closed: set<nat>
    /** Every full-range unlock sent, in order. */
    ghost var log: seq<Sent>
    /** Every grant request sent, in order. */
    ghost var grants: seq<Grant>
    /** Every partial unlock sent, in order. */
    ghost var partials: seq<Partial>

    constructor ()
      ensures Valid() && mayHold == {} && stale == {} && log == [] && grants == [] && closed == {}
    {
      attempts, handles, nextAttempt := map[], map[], 0;
      mayHold, stale, issued, latest, closed, log, grants, partials := {}, {}, map[], map[], {}, [], [], [];
    }

    ghost predicate Valid()
      reads this
    {
      && Hinted(attempts, latest, mayHold, stale) && Numbered(issued, latest, handles, nextAttempt)
      && Noted(issued, latest, handles, closed)
    }

    /** The handle of the owner's latest attempt. */
    ghost function LatestHandle(k: Key): Option<nat>
      reads this
    {
      if k in latest && latest[k] in issued then issued[latest[k]].handle else None
    }

    /** The owner's latest attempt was made through the handle. */
    ghost predicate MadeThrough(o: nat, ino: nat, fh: nat)
      reads this
    {
      Latest(issued, latest, o, Handle(ino, fh))
    }

    // ---- The authority, whose replies may be lost ----

    /** A grant is only sent with the hint in place and nothing left to clean up. */
    method SendGrant(k: Key) returns (status: Status)
      requires Valid() && k in attempts && k !in stale
      modifies `mayHold, `grants
      ensures Valid() && mayHold == old(mayHold) + {k}
      ensures grants == old(grants) + [Grant(k, attempts[k].attempt, LatestHandle(k), status)]
    {
      hide Numbered;
      mayHold := mayHold + {k};
      if {
        case true => status := Ok;
        case true => status := WouldBlock;
        case true => status := OutcomeUnknown;
      }
      grants := grants + [Grant(k, attempts[k].attempt, LatestHandle(k), status)];
    }

    /** Unlocking a range may leave any part of what is held. */
    method SendPartialUnlock(k: Key) returns (status: Status)
      modifies `partials
      ensures partials == old(partials) + [Partial(k, status)]
    {
      if {
        case true => status := Ok;
        case true => status := OutcomeUnknown;
      }
      partials := partials + [Partial(k, status)];
    }

    /** The full-range unlock; without an OK the ranges may still be there. */
    method SendUnlockAll(k: Key) returns (status: Status)
      requires Valid() && k in attempts
      modifies `mayHold, `stale, `log
      ensures Valid()
      ensures status == Ok ==> mayHold == old(mayHold) - {k} && stale == old(stale) - {k}
      ensures status != Ok ==> mayHold == old(mayHold) && stale == old(stale)
      ensures log == old(log) + [Sent(Here, k, attempts[k].attempt, LatestHandle(k), status == Ok)]
    {
      hide Numbered;
      if {
        case true =>
          mayHold, stale := mayHold - {k}, stale - {k};
          status := Ok;
        case true => status := OutcomeUnknown;
        case true => status := Unavailable;
      }
      log := log + [Sent(Here, k, attempts[k].attempt, LatestHandle(k), status == Ok)];
    }

    // ---- SetPosix ----

    /** A last close that failed is finished before anything new is asked for. */
    method FinishCleanup(k: Key) returns (status: Status)
      requires Valid()
      modifies `attempts, `mayHold, `stale, `log
      ensures Valid() && (status == Ok ==> k !in stale)
      ensures if k in old(attempts) && old(attempts)[k].cleanupPending
              then log == old(log) + [Sent(Here, k, old(attempts)[k].attempt, old(LatestHandle(k)), status == Ok)]
              else status == Ok && log == old(log)
      ensures mayHold <= old(mayHold)
      ensures OthersSame(old(attempts), attempts, k) && SetSame(old(stale), stale, k)
      ensures SetSame(old(mayHold), mayHold, k) && Onward(old(attempts), attempts, issued)
    {
      hide Hinted, Numbered, Noted;
      NotStale(attempts, latest, mayHold, stale, k);
      status := Ok;
      if k in attempts && attempts[k].cleanupPending {
        status := SendUnlockAll(k);
        if status == Ok {
          Forgotten(attempts, latest, mayHold, stale, k);
          attempts := attempts - {k};
        }
      }
    }

    /** A timeout is no proof that nothing was committed: the hint comes before the request. */
    method RecordAttempt(k: Key, handle: Option<nat>)
      requires Valid() && k !in stale
      modifies `attempts, `handles, `nextAttempt, `issued, `latest
      ensures Valid() && Extends(old(issued), issued) && k in attempts
      ensures attempts[k] == Hint(old(nextAttempt) + 1, false) && LatestHandle(k) == handle
      ensures nextAttempt == old(nextAttempt) + 1 && latest == old(latest)[k := nextAttempt] && nextAttempt !in closed
      ensures issued == old(issued)[nextAttempt := Attempt(k, handle)]
      ensures OthersSame(old(attempts), attempts, k) && Onward(old(attempts), attempts, old(issued))
    {
      hide Hinted, Numbered, Noted;
      IssuedNoted(issued, latest, handles, closed, nextAttempt, k, handle);
      Recorded(attempts, latest, mayHold, stale, k, nextAttempt + 1);
      Issued(issued, latest, handles, nextAttempt, k, handle);
      nextAttempt := nextAttempt + 1;
      attempts := attempts[k := Hint(nextAttempt, false)];
      issued, latest := issued[nextAttempt := Attempt(k, handle)], latest[k := nextAttempt];
      handles := NoteHandle(handles, k.ino, handle, k.owner, nextAttempt);
    }

    /** The section of `SetPosix` under the stripe; a blocking caller waits and calls again. */
    method SetPosix(ino: nat, owner: nat, kind: LockType, handle: Option<nat>)
      returns (status: Status)
      requires Valid()
      modifies this
      ensures Valid() && Extends(old(issued), issued) && Onward(old(attempts), attempts, old(issued))
      ensures old(log) <= log && closed == old(closed)
      ensures var k, cleaned := Key(ino, owner), |log| == |old(log)| || log[|old(log)|].ok;
              if kind != Unlock && cleaned then
                && grants == old(grants) + [Grant(k, old(nextAttempt) + 1, handle, status)]
                && partials == old(partials)
                && k in attempts && attempts[k] == Hint(old(nextAttempt) + 1, false) && LatestHandle(k) == handle
                && k !in stale && issued == old(issued)[old(nextAttempt) + 1 := Attempt(k, handle)]
                && latest == old(latest)[k := old(nextAttempt) + 1] && old(nextAttempt) + 1 !in closed
              else
                && issued == old(issued) && grants == old(grants) && latest == old(latest) && mayHold <= old(mayHold)
                && partials == old(partials) + (if cleaned then [Partial(k, status)] else [])
      ensures var k := Key(ino, owner);
              if k in old(attempts) && old(attempts)[k].cleanupPending
              then |log| == |old(log)| + 1 && log[|old(log)|].key == k && log[|old(log)|].caller == Here
                   && log[|old(log)|].attempt == old(attempts)[k].attempt
              else log == old(log)
      ensures |old(log)| < |log| && !log[|old(log)|].ok ==> status != Ok
      ensures status == Ok && kind != Unlock ==> |grants| == |old(grants)| + 1
      ensures OthersSame(old(attempts), attempts, Key(ino, owner))
      ensures SetSame(old(stale), stale, Key(ino, owner)) && SetSame(old(mayHold), mayHold, Key(ino, owner))
    {
      hide Hinted, Numbered, Noted;
      var k := Key(ino, owner);
      status := FinishCleanup(k);
      ghost var cleaned := attempts;
      if status != Ok {
        return;
      }
      if kind == Unlock {
        // Unlocking a range creates nothing to remember.
        status := SendPartialUnlock(k);
        return;
      }
      RecordAttempt(k, handle);
      OthersSameTwice(old(attempts), cleaned, attempts, k);
      OnwardTwice(old(attempts), cleaned, attempts, old(issued), old(issued));
      status := SendGrant(k);
    }

    // ---- Unlocking a whole owner ----

    /** The hint is the expected attempt, and pending when only those are meant. */
    predicate Current(k: Key, expected: Option<nat>, pendingOnly: bool)
      reads this
    {
      && k in attempts && (expected.None? || attempts[k].attempt == expected.value)
      && (pendingOnly ==> attempts[k].cleanupPending)
    }

    /** `UnlockPosixOwnerIfCurrent`. */
    method UnlockIfCurrent(ino: nat, owner: nat, expected: Option<nat>, pendingOnly: bool) returns (status: Status)
      requires Valid()
      modifies `attempts, `mayHold, `stale, `log
      ensures Valid()
      ensures !old(Current(Key(ino, owner), expected, pendingOnly)) ==> status == Ok && unchanged(this)
      ensures old(Current(Key(ino, owner), expected, pendingOnly)) ==>
                var k := Key(ino, owner);
                && log == old(log) + [Sent(Here, k, old(attempts)[k].attempt, old(LatestHandle(k)), status == Ok)]
                && if status == Ok then k !in attempts && k !in mayHold && k !in stale
                   else k in stale && k in attempts && attempts[k] == Hint(old(attempts)[k].attempt, true)
      ensures OthersSame(old(attempts), attempts, Key(ino, owner)) && Onward(old(attempts), attempts, issued)
      ensures SetSame(old(stale), stale, Key(ino, owner)) && SetSame(old(mayHold), mayHold, Key(ino, owner))
    {
      hide Hinted, Numbered, Noted;
      var k := Key(ino, owner);
      if !Current(k, expected, pendingOnly) {
        return Ok;
      }
      Pending(attempts, latest, mayHold, stale, k);
      attempts := attempts[k := attempts[k].(cleanupPending := true)];
      stale := stale + {k};
      status := SendUnlockAll(k);
      if status == Ok {
        Forgotten(attempts, latest, mayHold, stale, k);
        attempts := attempts - {k};
      }
    }

    /** Any number of other operations of the mount, the removal of handles included. */
    method Others()
      requires Valid()
      modifies this
      ensures Valid() && Extends(old(issued), issued) && Onward(old(attempts), attempts, old(issued))
      ensures old(closed) <= closed
      ensures old(log) <= log && forall i :: |old(log)| <= i < |log| ==> log[i].caller == Elsewhere
    {
      hide Hinted, Numbered, Noted, OthersSame, SetSame;
      var steps: nat := *;
      while steps > 0
        invariant Valid() && Extends(old(issued), issued) && Onward(old(attempts), attempts, old(issued))
        invariant old(log) <= log && old(closed) <= closed
      {
        hide Onward, Extends;
        ghost var hints, known := attempts, issued;
        steps := steps - 1;
        var ino: nat, owner: nat := *, *;
        if {
          case true =>
            var kind: LockType, handle: Option<nat> := *, *;
            var status := SetPosix(ino, owner, kind, handle);
          case true =>
            var expected: Option<nat>, pendingOnly: bool := *, *;
            var status := UnlockIfCurrent(ino, owner, expected, pendingOnly);
            ExtendsSelf(issued);
          case true =>
            var fh: nat := *;
            Released(issued, latest, handles, closed, nextAttempt, Handle(ino, fh));
            closed := closed + Through(issued, Handle(ino, fh));
            handles := handles - {Handle(ino, fh)};
            ExtendsSelf(issued);
            OnwardSelf(attempts, issued);
        }
        ExtendsTwice(old(issued), known, issued);
        OnwardTwice(old(attempts), hints, attempts, old(issued), known);
      }
      log := Relabel(log, |old(log)|);
    }

    /** One owner of a released handle, or one pending hint, after whatever else happened meanwhile. */
    method UnlockLater(ino: nat, owner: nat, attempt: nat, pendingOnly: bool) returns (status: Status)
      requires Valid() && attempt in issued
      modifies this
      ensures Valid() && Extends(old(issued), issued) && Onward(old(attempts), attempts, old(issued))
      ensures old(log) <= log && old(closed) <= closed
      ensures forall x :: SentHere(log, |old(log)|, x) ==>
                            x == Sent(Here, Key(ino, owner), attempt, issued[attempt].handle, status == Ok)
      ensures status != Ok ==>
                SentHere(log, |old(log)|, Sent(Here, Key(ino, owner), attempt, issued[attempt].handle, false))
      ensures !pendingOnly || Settled(old(attempts), Key(ino, owner), attempt, false) ==>
                Settled(attempts, Key(ino, owner), attempt, status == Ok)
    {
      hide Hinted, Numbered, Noted, OthersSame, SetSame;
      var k := Key(ino, owner);
      Others();
      ghost var hints, known, sent := attempts, issued, log;
      CurrentMeans(attempts, latest, mayHold, stale, k);
      status := UnlockIfCurrent(ino, owner, Some(attempt), pendingOnly);
      OnwardTwice(old(attempts), hints, attempts, old(issued), known);
      assert status != Ok ==> log[|sent|] == Sent(Here, k, attempt, issued[attempt].handle, false);
    }

    /** The loop of `ReleasePosixHandle` over the owners it took from the handle. */
    method UnlockOwners(ino: nat, fh: nat, owners: map<nat, nat>) returns (first: Status)
      requires Valid() && Owed(owners, issued, ino, fh)
      modifies this
      ensures Valid() && old(log) <= log && old(closed) <= closed
      ensures Extends(old(issued), issued) && Onward(old(attempts), attempts, old(issued))
      ensures ReleasesOwners(log, |old(log)|, owners, ino, fh, first == Ok)
      ensures AllSettled(owners, {}, attempts, ino, first == Ok)
    {
      hide Hinted, Numbered, Noted, Owed, Extends, Onward;
      first := Ok;
      var left := owners.Keys;
      ExtendsSelf(issued);
      OnwardSelf(attempts, issued);
      while left != {}
        invariant Valid() && Owed(owners, issued, ino, fh) && left <= owners.Keys && old(log) <= log
        invariant old(closed) <= closed
        invariant Extends(old(issued), issued) && Onward(old(attempts), attempts, old(issued))
        invariant ReleasesOwners(log, |old(log)|, owners, ino, fh, first == Ok)
        invariant AllSettled(owners, left, attempts, ino, first == Ok)
        decreases |left|
      {
        hide AllSettled, Settled, ReleasesOwners, SentHere;
        ghost var hints, known, before, sent := attempts, issued, first, log;
        var owner :| owner in left;
        OwedOne(owners, known, ino, fh, owner);
        var status := UnlockLater(ino, owner, owners[owner], false);
        ExtendsOne(known, issued, owners[owner]);
        if first == Ok && status != Ok {
          first := status;
        }
        StillOwed(owners, known, issued, ino, fh);
        ExtendsTwice(old(issued), known, issued);
        OnwardTwice(old(attempts), hints, attempts, old(issued), known);
        SettleOne(owners, left, hints, attempts, known, ino, fh, owner, before == Ok, status == Ok);
        ReleaseOne(sent, log, |old(log)|, owners, ino, fh, owner, before == Ok, status == Ok);
        left := left - {owner};
      }
    }

    /**
     `ReleasePosixHandle`: whatever else runs meanwhile, the unlocks it sends are for owners whose
     latest attempt at that moment is the one made through the handle.  Of those attempts nothing
     is left afterwards, or, on an error, a refused unlock has marked what is left as pending.
     */
    method ReleaseHandle(ino: nat, fh: nat) returns (first: Status)
      requires Valid()
      modifies this
      ensures Valid() && old(log) <= log && old(closed) <= closed
      ensures Extends(old(issued), issued) && Onward(old(attempts), attempts, old(issued))
      ensures var owners := if Handle(ino, fh) in old(handles) then old(handles)[Handle(ino, fh)] else map[];
              && ReleasesOwners(log, |old(log)|, owners, ino, fh, first == Ok)
              && AllSettled(owners, {}, attempts, ino, first == Ok)
      ensures forall o :: old(MadeThrough(o, ino, fh)) && old(latest)[Key(ino, o)] !in old(closed) ==>
                            Settled(attempts, Key(ino, o), old(latest)[Key(ino, o)], first == Ok)
    {
      hide Hinted, Numbered, Noted, Owed, Extends, Onward;
      ExtendsSelf(issued);
      OnwardSelf(attempts, issued);
      var h := Handle(ino, fh);
      if h !in handles {
        NotedNowhere(issued, latest, handles, closed, h);
        return Ok;
      }
      var owners := handles[h];
      OwedByHandle(issued, latest, handles, nextAttempt, h);
      Released(issued, latest, handles, closed, nextAttempt, h);
      NotedOwners(issued, latest, handles, closed, h);
      closed := closed + Through(issued, h);
      handles := handles - {h};
      first := UnlockOwners(ino, fh, owners);
    }

    /**
     A lock asked for through a handle does not outlive it: unless the handle was closed already,
     closing it unlocks the attempt, or leaves it pending after a refused unlock, however many
     operations run in between.
     */
    method LockThenClose(ino: nat, owner: nat, kind: LockType, fh: nat)
      returns (status: Status, first: Status, ghost early: set<nat>)
      requires Valid() && kind != Unlock
      modifies this
      ensures Valid()
      ensures status == Ok && old(nextAttempt) + 1 !in early ==>
                Settled(attempts, Key(ino, owner), old(nextAttempt) + 1, first == Ok)
    {
      hide Hinted, Numbered, Noted, OthersSame, SetSame, Extends, Onward, Settled;
      ghost var k, n := Key(ino, owner), nextAttempt + 1;
      status := SetPosix(ino, owner, kind, Some(fh));
      ghost var known := issued;
      Others();
      early := closed;
      ghost var hints, since, last := attempts, issued, latest;
      if status == Ok {
        ExtendsOne(known, since, n);
        SupersededSettled(attempts, latest, mayHold, stale, k, n);
      }
      assert status == Ok && k in last && last[k] == n ==> MadeThrough(owner, ino, fh);
      first := ReleaseHandle(ino, fh);
      if status == Ok && !(k in last && last[k] == n) {
        StaysSettled(hints, attempts, since, k, n, true);
        LessSettled(attempts, k, n, true, first == Ok);
      }
    }

    /**
     One pass of `RetryPendingPosixCleanup`: an unlock is sent only for an attempt found pending,
     and of those attempts nothing is left but what an unlock sent here was refused for.
     */
    method RetryPendingCleanup()
      requires Valid()
      modifies this
      ensures Valid() && old(log) <= log
      ensures forall x :: SentHere(log, |old(log)|, x) ==> Awaits(old(attempts), x.key, x.attempt)
      ensures forall k, n :: Awaits(old(attempts), k, n) ==> Settled(attempts, k, n, !Refused(log, |old(log)|, k, n))
    {
      hide Hinted, Numbered, Noted, Extends, Onward, Settled, SentHere, Refused;
      var pending := set k | k in attempts && attempts[k].cleanupPending;
      var seen := attempts;
      HintsIssued(attempts, latest, mayHold, stale, issued, handles, nextAttempt);
      NothingSent(log);
      AwaitedSettled(attempts);
      while pending != {}
        invariant Valid() && HintsKnown(seen, issued) && old(log) <= log
        invariant forall k :: k in pending ==> k in seen && seen[k].cleanupPending
        invariant forall x :: SentHere(log, |old(log)|, x) ==> Awaits(seen, x.key, x.attempt)
        invariant forall k, n :: Awaits(seen, k, n) ==>
                                   Settled(attempts, k, n, k !in pending && !Refused(log, |old(log)|, k, n))
        decreases |pending|
      {
        ghost var hints, known, sent := attempts, issued, log;
        var k :| k in pending;
        assert Awaits(seen, k, seen[k].attempt);
        assert Settled(attempts, k, seen[k].attempt, false);
        var status := UnlockLater(k.ino, k.owner, seen[k].attempt, true);
        HintsStillKnown(seen, known, issued);
        RetryOne(sent, log, |old(log)|, k, seen[k].attempt, issued[seen[k].attempt].handle, status == Ok);
        forall j, n | Awaits(seen, j, n)
          ensures Settled(attempts, j, n, j !in pending - {k} && !Refused(log, |old(log)|, j, n))
        {
          var gone := j !in pending && !Refused(sent, |old(log)|, j, n);
          StaysSettled(hints, attempts, known, j, n, gone);
          LessSettled(attempts, j, n, gone, j !in pending - {k} && !Refused(log, |old(log)|, j, n));
          if j == k {
            LessSettled(attempts, j, n, status == Ok, !Refused(log, |old(log)|, j, n));
          }
        }
        pending := pending - {k};
      }
    }
  }

  // ---- What was sent ----

  /** A hint that waits for its cleanup. */
  ghost predicate Awaits(hints: Hints, k: Key, n: nat) { k in hints && hints[k] == Hint(n, true) }

  ghost predicate Refused(log: seq<Sent>, from: nat, k: Key, n: nat) {
    exists x :: SentHere(log, from, x) && x.key == k && x.attempt == n && !x.ok
  }

  /** Each unlock is for an owner of the handle whose latest attempt is the one made through it. */
  ghost predicate ReleasesOwners(log: seq<Sent>, from: nat, owners: map<nat, nat>, ino: nat, fh: nat, ok: bool) {
    && (forall x :: SentHere(log, from, x) ==>
                      && x.key.ino == ino && x.key.owner in owners
                      && x.attempt == owners[x.key.owner] && x.via == Some(fh))
    && (ok <==> forall x :: SentHere(log, from, x) ==> x.ok)
  }

  lemma NothingSent(log: seq<Sent>)
    ensures forall x :: !SentHere(log, |log|, x)
  {
  }

  lemma SentAppended(before: seq<Sent>, after: seq<Sent>, from: nat, x: Sent)
    requires before <= after && from <= |before|
    ensures SentHere(after, from, x) <==> SentHere(before, from, x) || SentHere(after, |before|, x)
  {
    if SentHere(after, from, x) {
      var i :| from <= i < |after| && after[i] == x && x.caller == Here;
      assert i < |before| ==> before[i] == x;
    }
    if SentHere(before, from, x) {
      var i :| from <= i < |before| && before[i] == x && x.caller == Here;
      assert after[i] == x;
    }
  }

  lemma ReleaseOne(before: seq<Sent>, after: seq<Sent>, from: nat, owners: map<nat, nat>, ino: nat, fh: nat,
                   owner: nat, was: bool, now: bool)
    requires before <= after && from <= |before| && ReleasesOwners(before, from, owners, ino, fh, was)
    requires owner in owners
    requires forall x :: SentHere(after, |before|, x) ==> x == Sent(Here, Key(ino, owner), owners[owner], Some(fh), now)
    requires !now ==> SentHere(after, |before|, Sent(Here, Key(ino, owner), owners[owner], Some(fh), false))
    ensures ReleasesOwners(after, from, owners, ino, fh, was && now)
  {
    hide SentHere;
    forall x ensures SentHere(after, from, x) <==> SentHere(before, from, x) || SentHere(after, |before|, x) {
      SentAppended(before, after, from, x);
    }
  }

  lemma RetryOne(before: seq<Sent>, after: seq<Sent>, from: nat, k: Key, n: nat, via: Option<nat>, ok: bool)
    requires before <= after && from <= |before|
    requires forall x :: SentHere(after, |before|, x) ==> x == Sent(Here, k, n, via, ok)
    requires !ok ==> SentHere(after, |before|, Sent(Here, k, n, via, false))
    ensures forall x :: SentHere(after, from, x) ==> SentHere(before, from, x) || (x.key == k && x.attempt == n)
    ensures forall j, m :: Refused(before, from, j, m) ==> Refused(after, from, j, m)
    ensures !ok ==> Refused(after, from, k, n)
  {
    hide SentHere;
    forall x ensures SentHere(after, from, x) <==> SentHere(before, from, x) || SentHere(after, |before|, x) {
      SentAppended(before, after, from, x);
    }
  }

  lemma AwaitedSettled(hints: Hints)
    ensures forall k, n :: Awaits(hints, k, n) ==> Settled(hints, k, n, false)
  {
  }

  lemma LessSettled(hints: Hints, k: Key, n: nat, gone: bool, less: bool)
    ensures Settled(hints, k, n, gone) && (less ==> gone) ==> Settled(hints, k, n, less)
  {
  }

  /** Everyone whose turn has come is settled. */
  ghost predicate AllSettled(owners: map<nat, nat>, left: set<nat>, attempts: Hints, ino: nat, gone: bool) {
    forall o :: o in owners && o !in left ==> Settled(attempts, Key(ino, o), owners[o], gone)
  }

  lemma SettleOne(owners: map<nat, nat>, left: set<nat>, before: Hints, after: Hints, issued: map<nat, Attempt>,
                  ino: nat, fh: nat, owner: nat, was: bool, now: bool)
    requires Owed(owners, issued, ino, fh) && Onward(before, after, issued)
    requires AllSettled(owners, left, before, ino, was)
    requires owner in owners && Settled(after, Key(ino, owner), owners[owner], now)
    ensures AllSettled(owners, left - {owner}, after, ino, was && now)
  {
    forall o | o in owners && o !in left - {owner} ensures Settled(after, Key(ino, o), owners[o], was && now) {
      if o != owner {
        StaysSettled(before, after, issued, Key(ino, o), owners[o], was);
      }
    }
  }

  ghost predicate HintsKnown(hints: Hints, issued: map<nat, Attempt>) {
    forall k :: k in hints ==> hints[k].attempt in issued
  }

  lemma HintsIssued(attempts: Hints, latest: map<Key, nat>, mayHold: set<Key>, stale: set<Key>,
                    issued: map<nat, Attempt>, handles: map<Handle, map<nat, nat>>, nextAttempt: nat)
    requires Hinted(attempts, latest, mayHold, stale) && Numbered(issued, latest, handles, nextAttempt)
    ensures HintsKnown(attempts, issued)
  {
  }

  lemma HintsStillKnown(hints: Hints, before: map<nat, Attempt>, after: map<nat, Attempt>)
    requires HintsKnown(hints, before) && Extends(before, after)
    ensures HintsKnown(hints, after)
  {
  }

  lemma ExtendsSelf(issued: map<nat, Attempt>)
    ensures Extends(issued, issued)
  {
  }

  lemma OnwardSelf(hints: Hints, issued: map<nat, Attempt>)
    ensures Onward(hints, hints, issued)
  {
  }

  lemma ExtendsTwice(a: map<nat, Attempt>, b: map<nat, Attempt>, c: map<nat, Attempt>)
    requires Extends(a, b) && Extends(b, c)
    ensures Extends(a, c)
  {
  }

  lemma ExtendsOne(a: map<nat, Attempt>, b: map<nat, Attempt>, n: nat)
    requires Extends(a, b) && n in a
    ensures n in b && a[n] == b[n]
  {
  }

  /** The attempts a handle was remembered for. */
  ghost predicate Owed(owners: map<nat, nat>, issued: map<nat, Attempt>, ino: nat, fh: nat) {
    forall o :: o in owners ==> owners[o] in issued && issued[owners[o]] == Attempt(Key(ino, o), Some(fh))
  }

  lemma OwedByHandle(issued: map<nat, Attempt>, latest: map<Key, nat>, handles: map<Handle, map<nat, nat>>,
                     nextAttempt: nat, h: Handle)
    requires Numbered(issued, latest, handles, nextAttempt) && h in handles
    ensures Owed(handles[h], issued, h.ino, h.fh)
  {
  }

  lemma OwedOne(owners: map<nat, nat>, issued: map<nat, Attempt>, ino: nat, fh: nat, o: nat)
    requires Owed(owners, issued, ino, fh) && o in owners
    ensures owners[o] in issued && issued[owners[o]] == Attempt(Key(ino, o), Some(fh))
  {
  }

  lemma StillOwed(owners: map<nat, nat>, before: map<nat, Attempt>, after: map<nat, Attempt>, ino: nat, fh: nat)
    requires Owed(owners, before, ino, fh) && Extends(before, after)
    ensures Owed(owners, after, ino, fh)
  {
  }

  ghost predicate Latest(issued: map<nat, Attempt>, latest: map<Key, nat>, o: nat, h: Handle) {
    var k := Key(h.ino, o);
    k in latest && latest[k] in issued && issued[latest[k]] == Attempt(k, Some(h.fh))
  }

  lemma NotedOwners(issued: map<nat, Attempt>, latest: map<Key, nat>, handles: map<Handle, map<nat, nat>>,
                    closed: set<nat>, h: Handle)
    requires Noted(issued, latest, handles, closed) && h in handles
    ensures forall o :: Latest(issued, latest, o, h) && latest[Key(h.ino, o)] !in closed ==>
                          o in handles[h] && handles[h][o] == latest[Key(h.ino, o)]
  {
    forall o | Latest(issued, latest, o, h) && latest[Key(h.ino, o)] !in closed
      ensures o in handles[h] && handles[h][o] == latest[Key(h.ino, o)]
    {
      assert Key(h.ino, o) in latest;
    }
  }

  lemma NotedNowhere(issued: map<nat, Attempt>, latest: map<Key, nat>, handles: map<Handle, map<nat, nat>>,
                     closed: set<nat>, h: Handle)
    requires Noted(issued, latest, handles, closed) && h !in handles
    ensures forall o :: Latest(issued, latest, o, h) ==> latest[Key(h.ino, o)] in closed
  {
    forall o | Latest(issued, latest, o, h) ensures latest[Key(h.ino, o)] in closed {
      assert Key(h.ino, o) in latest;
    }
  }

  /** An attempt that is no longer the owner's latest is nobody's hint. */
  lemma SupersededSettled(attempts: Hints, latest: map<Key, nat>, mayHold: set<Key>, stale: set<Key>, k: Key, n: nat)
    requires Hinted(attempts, latest, mayHold, stale)
    ensures !(k in latest && latest[k] == n) ==> Settled(attempts, k, n, true)
  {
  }

  lemma CurrentMeans(attempts: Hints, latest: map<Key, nat>, mayHold: set<Key>, stale: set<Key>, k: Key)
    requires Hinted(attempts, latest, mayHold, stale)
    ensures k in attempts ==> k in latest && attempts[k].attempt == latest[k]
  {
  }

  lemma NotStale(attempts: Hints, latest: map<Key, nat>, mayHold: set<Key>, stale: set<Key>, k: Key)
    requires Hinted(attempts, latest, mayHold, stale)
    ensures k in stale ==> k in attempts && attempts[k].cleanupPending
  {
  }
}
