/**
 Waking blocked lock requests: what a read-only snapshot of the authority says about a waiter,
 which waiters of one group are woken together, and which groups a tick visits.
 */
module LockRetryScheduler {
  import opened Common
  import opened Arithmetic
  import opened LockRanges
  import opened LockCodec
  import LA = LockAuthority

  const MAX_GROUPS_PER_TICK := 4
  const MAX_WAKE_PER_GROUP := 8
  const WORD := UINT64_MAX + 1

  /** A range as it crosses the authority's interface; length zero reaches to infinity. */
  datatype PosixRange = PosixRange(start: nat, length: nat, kind: Kind, pid: nat)

  /** One entry of an inspection. */
  datatype LockHolder = LockHolder(kernel: nat, local: bool, ranges: seq<PosixRange>, flock: Flock)

  datatype Want = Record(range: PosixRange) | Whole(flock: Flock)

  datatype Waiter = Waiter(kernel: nat, want: Want, active: bool, notified: bool)

  /** 64-bit addition. */
  function EndOf(r: PosixRange): nat { if r.length == 0 then UINT64_MAX else (r.start + r.length) % WORD }

  predicate RangeConflicts(a: PosixRange, b: PosixRange) {
    a.start < EndOf(b) && b.start < EndOf(a) && (a.kind == Write || b.kind == Write)
  }

  predicate BlockedBy(w: Waiter, h: LockHolder) {
    && !(h.local && h.kernel == w.kernel)
    && match w.want
       case Whole(flock) => flock == Exclusive || h.flock == Exclusive
       case Record(range) => exists k :: 0 <= k < |h.ranges| && RangeConflicts(range, h.ranges[k])
  }

  predicate Eligible(w: Waiter, holders: seq<LockHolder>) {
    forall k :: 0 <= k < |holders| ==> !BlockedBy(w, holders[k])
  }

  // ---- What the authority reports ----

  function Reported(i: Interval): PosixRange
    requires i.start < i.end <= UINT64_MAX
  {
    PosixRange(i.start, if i.end == UINT64_MAX then 0 else i.end - i.start, i.kind, i.pid)
  }

  ghost predicate InRange(ranges: seq<Interval>) {
    forall k :: 0 <= k < |ranges| ==> ranges[k].start < ranges[k].end <= UINT64_MAX
  }

  function Report(ranges: seq<Interval>): (r: seq<PosixRange>)
    requires InRange(ranges)
    ensures |r| == |ranges| && forall k :: 0 <= k < |r| ==> r[k] == Reported(ranges[k])
  {
    seq(|ranges|, k requires 0 <= k < |ranges| => Reported(ranges[k]))
  }

  function Item(generation: nat, owner: LA.Owner, content: LA.Content): LockHolder
    requires content.Ranges? ==> InRange(content.ranges)
  {
    LockHolder(owner.kernel, owner.generation == generation,
               if content.Ranges? then Report(content.ranges) else [], if content.Held? then content.flock
               else Unlocked)
  }

  ghost predicate Decoded(fields: map<LA.Field, LA.Content>) {
    forall f :: f in fields && fields[f].Ranges? ==> InRange(fields[f].ranges)
  }

  /** An inspection lists exactly the live holders of the snapshot, in any order. */
  ghost predicate Inspected(holders: seq<LockHolder>, generation: nat, fields: map<LA.Field, LA.Content>, seen: LA.Seen)
    requires Decoded(fields)
  {
    && (forall f :: f in fields && f.Holder? && LA.LiveIn(seen, f.owner.generation) ==>
                      Item(generation, f.owner, fields[f]) in holders)
    && (forall h :: h in holders ==>
                      exists f :: f in fields && f.Holder? && LA.LiveIn(seen, f.owner.generation)
                                  && h == Item(generation, f.owner, fields[f]))
  }

  /** The request the waiter will make, in the authority's terms. */
  function RequestOf(w: Waiter, interval: Interval): LA.Request {
    match w.want
    case Whole(flock) => LA.Bsd(flock)
    case Record(_) => LA.Posix(interval)
  }

  /** Only valid, non-unlock requests ever wait. */
  predicate Waits(w: Waiter, interval: Interval) {
    match w.want
    case Whole(flock) => flock != Unlocked
    case Record(r) =>
      r.start <= UINT64_MAX && r.length <= UINT64_MAX && r.kind != Unlock
      && ValidateRange(r.start, r.length, r.kind, r.pid) == Success(interval)
  }

  lemma ReportedConflicts(r: PosixRange, interval: Interval, stored: Interval)
    requires r.start <= UINT64_MAX && r.length <= UINT64_MAX
    requires ValidateRange(r.start, r.length, r.kind, r.pid) == Success(interval)
    requires stored.start < stored.end <= UINT64_MAX
    ensures RangeConflicts(r, Reported(stored)) <==>
            Overlaps(interval, stored) && (interval.kind == Write || stored.kind == Write)
  {
    assert r.length != 0 ==> (r.start + r.length) % WORD == r.start + r.length;
    assert stored.end != UINT64_MAX ==> (stored.start + (stored.end - stored.start)) % WORD == stored.end;
  }

  /** One holder blocks the waiter exactly when its stored value blocks the request. */
  lemma BlockedExactly(w: Waiter, interval: Interval, generation: nat, owner: LA.Owner, content: LA.Content)
    requires Waits(w, interval) && (content.Ranges? ==> InRange(content.ranges))
    requires if w.want.Record? then content.Ranges? else content.Held?
    ensures BlockedBy(w, Item(generation, owner, content)) <==>
            owner != LA.Owner(generation, w.kernel) && LA.Blocked(RequestOf(w, interval), content)
  {
    if w.want.Record? {
      forall k | 0 <= k < |content.ranges|
        ensures RangeConflicts(w.want.range, Reported(content.ranges[k])) <==>
                Overlaps(interval, content.ranges[k]) && (interval.kind == Write || content.ranges[k].kind == Write)
      {
        ReportedConflicts(w.want.range, interval, content.ranges[k]);
      }
      var item := Item(generation, owner, content);
      assert forall k :: 0 <= k < |item.ranges| ==> item.ranges[k] == Reported(content.ranges[k]);
      hide Overlaps, RangeConflicts;
      if LA.PosixBlocked(interval, content.ranges) {
        var k :| 0 <= k < |content.ranges| && Overlaps(interval, content.ranges[k])
                 && (interval.kind == Write || content.ranges[k].kind == Write);
        assert RangeConflicts(w.want.range, item.ranges[k]);
      }
    }
  }

  /** A waiter is eligible on a snapshot exactly when the same request would not conflict on it. */
  lemma EligibleExactly(w: Waiter, interval: Interval, generation: nat, holders: seq<LockHolder>,
                        fields: map<LA.Field, LA.Content>, seen: LA.Seen)
    requires Waits(w, interval) && Decoded(fields) && Inspected(holders, generation, fields, seen)
    requires LA.Readable(RequestOf(w, interval), fields, seen)
    ensures Eligible(w, holders) <==> !LA.Conflict(LA.Owner(generation, w.kernel), RequestOf(w, interval), fields, seen)
  {
    hide LA.Blocked, BlockedBy, Item, ValidateRange;
    if LA.Conflict(LA.Owner(generation, w.kernel), RequestOf(w, interval), fields, seen) {
      var f :| f in fields && f.Holder? && f.owner != LA.Owner(generation, w.kernel)
               && LA.LiveIn(seen, f.owner.generation) &&
               LA.Blocked(RequestOf(w, interval), fields[f]);
      BlockedExactly(w, interval, generation, f.owner, fields[f]);
      assert Item(generation, f.owner, fields[f]) in holders;
    } else {
      forall k | 0 <= k < |holders| ensures !BlockedBy(w, holders[k]) {
        assert holders[k] in holders;
        var f :| f in fields && f.Holder? && LA.LiveIn(seen, f.owner.generation)
                 && holders[k] == Item(generation, f.owner, fields[f]);
        BlockedExactly(w, interval, generation, f.owner, fields[f]);
      }
    }
  }

  // ---- Which waiters are woken together ----

  predicate Compatible(a: Waiter, b: Waiter) {
    match a.want
    case Whole(flock) => flock == Shared && b.want.Whole? && b.want.flock == Shared
    case Record(range) => b.want.Record? && !RangeConflicts(range, b.want.range)
  }

  /** What the authority stores when it grants the waiter's request to an owner without locks. */
  ghost predicate Grants(w: Waiter, interval: Interval, content: LA.Content) {
    match w.want
    case Whole(flock) => content == LA.Held(flock)
    case Record(_) => content.Ranges? && LA.Becomes([], interval, content.ranges)
  }

  lemma RequestsConflict(a: PosixRange, i: Interval, b: PosixRange, j: Interval)
    requires a.start <= UINT64_MAX && a.length <= UINT64_MAX && b.start <= UINT64_MAX && b.length <= UINT64_MAX
    requires ValidateRange(a.start, a.length, a.kind, a.pid) == Success(i)
    requires ValidateRange(b.start, b.length, b.kind, b.pid) == Success(j)
    ensures RangeConflicts(a, b) <==> Overlaps(i, j) && (i.kind == Write || j.kind == Write)
    ensures i.start < i.end && j.start < j.end && i.kind == a.kind && j.kind == b.kind
  {
    assert a.length != 0 ==> (a.start + a.length) % WORD == a.start + a.length;
    assert b.length != 0 ==> (b.start + b.length) % WORD == b.start + b.length;
  }

  /** A set that holds one interval blocks what that interval does. */
  lemma GrantedBlocks(i: Interval, j: Interval, ranges: seq<Interval>)
    requires i.start < i.end && j.start < j.end && i.kind != Unlock && j.kind != Unlock && LA.Becomes([], j, ranges)
    ensures LA.PosixBlocked(i, ranges) <==> Overlaps(i, j) && (i.kind == Write || j.kind == Write)
  {
    if LA.PosixBlocked(i, ranges) {
      var k :| 0 <= k < |ranges| && Overlaps(i, ranges[k]) && (i.kind == Write || ranges[k].kind == Write);
      var x := if i.start < ranges[k].start then ranges[k].start else i.start;
      ModeAtMember(ranges, k, x);
      assert ModeAt([], x) == None;
    }
    if Overlaps(i, j) && (i.kind == Write || j.kind == Write) {
      var x := if i.start < j.start then j.start else i.start;
      var k := ModeAtWitness(ranges, x);
      assert Overlaps(i, ranges[k]);
    }
  }

  /** Waiters of one kind are compatible exactly when the lock granted to one does not block the other. */
  lemma CompatibleExactly(a: Waiter, i: Interval, b: Waiter, j: Interval, content: LA.Content)
    requires Waits(a, i) && Waits(b, j) && a.want.Whole? == b.want.Whole? && Grants(b, j, content)
    ensures Compatible(a, b) <==> !LA.Blocked(RequestOf(a, i), content)
  {
    hide LA.PosixBlocked, RangeConflicts, ValidateRange, LA.Becomes;
    if a.want.Record? {
      RequestsConflict(a.want.range, i, b.want.range, j);
      GrantedBlocks(i, j, content.ranges);
    }
  }

  predicate Candidate(w: Waiter, holders: seq<LockHolder>) { w.active && !w.notified && Eligible(w, holders) }

  /** The waiters at these places of the queue. */
  function Chosen(waiters: seq<Waiter>, at: seq<nat>): (r: seq<Waiter>)
    requires forall k :: 0 <= k < |at| ==> at[k] < |waiters|
    ensures |r| == |at| && forall k :: 0 <= k < |r| ==> r[k] == waiters[at[k]]
  {
    seq(|at|, k requires 0 <= k < |at| => waiters[at[k]])
  }

  /** Places in the queue, in its order, of waiters that are compatible with each other. */
  ghost predicate InLine(waiters: seq<Waiter>, at: seq<nat>) {
    && (forall k :: 0 <= k < |at| ==> at[k] < |waiters|)
    && (forall j, k :: 0 <= j < k < |at| ==> at[j] < at[k] && Compatible(waiters[at[k]], waiters[at[j]]))
  }

  /** Someone chosen from further ahead in the queue is in the way. */
  ghost predicate Overtaken(waiters: seq<Waiter>, at: seq<nat>, i: nat)
    requires i < |waiters| && forall k :: 0 <= k < |at| ==> at[k] < |waiters|
  {
    exists k :: 0 <= k < |at| && at[k] < i && !Compatible(waiters[i], waiters[at[k]])
  }

  /**
   One group of a tick: the woken waiters are waiting, not yet notified, eligible and compatible
   with each other.  Whoever could be woken and is not was refused for someone further ahead, or
   came after the group was full.
   */
  method WakeGroup(waiters: seq<Waiter>, holders: seq<LockHolder>) returns (selected: seq<Waiter>, at: seq<nat>)
    ensures InLine(waiters, at) && selected == Chosen(waiters, at) && |at| <= MAX_WAKE_PER_GROUP
    ensures forall k :: 0 <= k < |at| ==>
                          selected[k].active && !selected[k].notified && Eligible(selected[k], holders)
    ensures forall i :: 0 <= i < |waiters| && i !in at && waiters[i].active && !waiters[i].notified
                        && Eligible(waiters[i], holders) ==>
                          || Overtaken(waiters, at, i)
                          || (|at| == MAX_WAKE_PER_GROUP && at[MAX_WAKE_PER_GROUP - 1] < i)
  {
    hide Eligible, Compatible;
    selected, at := [], [];
    for i := 0 to |waiters|
      invariant InLine(waiters, at) && selected == Chosen(waiters, at) && |at| < MAX_WAKE_PER_GROUP
      invariant forall k :: 0 <= k < |at| ==> at[k] < i && Candidate(selected[k], holders)
      invariant forall j :: 0 <= j < i && j !in at && Candidate(waiters[j], holders) ==> Overtaken(waiters, at, j)
    {
      var w := waiters[i];
      if !Candidate(w, holders) {
        continue;
      }
      var fits := FitsWith(w, selected);
      if !fits {
        continue;
      }
      StillOvertaken(waiters, at, i);
      selected, at := selected + [w], at + [i];
      if |selected| >= MAX_WAKE_PER_GROUP {
        return;
      }
    }
  }

  method FitsWith(w: Waiter, selected: seq<Waiter>) returns (fits: bool)
    ensures fits <==> forall k :: 0 <= k < |selected| ==> Compatible(w, selected[k])
  {
    for i := 0 to |selected|
      invariant forall k :: 0 <= k < i ==> Compatible(w, selected[k])
    {
      if !Compatible(w, selected[i]) {
        return false;
      }
    }
    return true;
  }

  lemma StillOvertaken(waiters: seq<Waiter>, at: seq<nat>, i: nat)
    requires i < |waiters| && forall k :: 0 <= k < |at| ==> at[k] < |waiters|
    ensures forall j :: 0 <= j < |waiters| && Overtaken(waiters, at, j) ==> Overtaken(waiters, at + [i], j)
  {
    forall j | 0 <= j < |waiters| && Overtaken(waiters, at, j) ensures Overtaken(waiters, at + [i], j) {
      var k :| 0 <= k < |at| && at[k] < j && !Compatible(waiters[j], waiters[at[k]]);
      assert (at + [i])[k] == at[k];
    }
  }

  // ---- Which groups a tick visits ----

  /** Groups are the entries of an ordered map; the cursor counts visits in 64 bits. */
  function Slot(cursor: nat, i: nat, groups: nat): nat
    requires 0 < groups
  {
    (cursor + i) % groups
  }

  method VisitGroups(groups: nat, nextGroup: nat) returns (visited: seq<nat>, next: nat)
    requires 0 < groups && nextGroup < WORD
    ensures |visited| == Min(MAX_GROUPS_PER_TICK, groups)
    ensures forall i :: 0 <= i < |visited| ==> visited[i] == (nextGroup + i) % groups
    ensures next == (nextGroup + |visited|) % WORD
  {
    hide Slot;
    var it := nextGroup % groups;
    var budget: nat := Min(MAX_GROUPS_PER_TICK, groups);
    next := (nextGroup + budget) % WORD;
    visited := [];
    SlotStart(nextGroup, groups);
    for i := 0 to budget
      invariant |visited| == i && 0 <= it <= groups
      invariant Slot(nextGroup, i, groups) == if it == groups then 0 else it
      invariant forall k :: 0 <= k < i ==> visited[k] == Slot(nextGroup, k, groups)
    {
      if it == groups {
        it := 0;
      }
      visited := visited + [it];
      SlotNext(nextGroup, i, groups);
      it := it + 1;
    }
    SlotsAre(visited, nextGroup, groups);
  }

  lemma SlotsAre(visited: seq<nat>, cursor: nat, groups: nat)
    requires 0 < groups && forall i :: 0 <= i < |visited| ==> visited[i] == Slot(cursor, i, groups)
    ensures forall i :: 0 <= i < |visited| ==> visited[i] == (cursor + i) % groups
  {
  }

  lemma SlotStart(cursor: nat, groups: nat)
    requires 0 < groups
    ensures Slot(cursor, 0, groups) == cursor % groups < groups
  {
  }

  lemma SlotNext(cursor: nat, i: nat, groups: nat)
    requires 0 < groups
    ensures Slot(cursor, i + 1, groups) ==
            if Slot(cursor, i, groups) + 1 == groups then 0 else Slot(cursor, i, groups) + 1
  {
    NextRemainder(cursor + i, groups);
  }

  /** The cursor before tick `t`, counted from `start`, with `groups` fixed. */
  function Cursor(groups: nat, start: nat, t: nat): nat
    requires 0 < groups
  {
    if t == 0 then start else (Cursor(groups, start, t - 1) + Min(MAX_GROUPS_PER_TICK, groups)) % WORD
  }

  ghost predicate Visits(groups: nat, cursor: nat, g: nat)
    requires 0 < groups
  {
    exists i :: 0 <= i < Min(MAX_GROUPS_PER_TICK, groups) && Slot(cursor, i, groups) == g
  }

  function Ticks(groups: nat): nat { (groups + MAX_GROUPS_PER_TICK - 1) / MAX_GROUPS_PER_TICK }

  /** The cursor counts on from `start` and begins again at zero when 64 bits are used up. */
  lemma {:induction false} CursorAt(groups: nat, start: nat, t: nat)
    requires 0 < groups && start < WORD && start + t * Min(MAX_GROUPS_PER_TICK, groups) < 2 * WORD
    ensures var x := start + t * Min(MAX_GROUPS_PER_TICK, groups);
            Cursor(groups, start, t) == if x < WORD then x else x - WORD
  {
    var b: nat := Min(MAX_GROUPS_PER_TICK, groups);
    if t > 0 {
      assert t * b == (t - 1) * b + b;
      CursorAt(groups, start, t - 1);
      var x := Cursor(groups, start, t - 1) + b;
      if x < WORD {
        SmallRemainder(x, WORD);
      } else {
        QuotientUnique(x, WORD, 1, x - WORD);
      }
    }
  }

  /** How far ahead of the cursor a group lies. */
  lemma Distance(start: nat, g: nat, groups: nat) returns (d: nat)
    requires g < groups
    ensures d < groups && (start + d) % groups == g
  {
    var q, r := start / groups, start % groups;
    DivideExactly(start, groups);
    if r <= g {
      d := g - r;
      QuotientUnique(start + d, groups, q, g);
    } else {
      d := g + groups - r;
      assert (q + 1) * groups == q * groups + groups;
      QuotientUnique(start + d, groups, q + 1, g);
    }
  }

  /** Splitting a distance into full ticks and a position within the last one. */
  lemma TickOf(d: nat, groups: nat) returns (t: nat, i: nat)
    requires d < Ticks(groups) * Min(MAX_GROUPS_PER_TICK, groups)
    ensures t < Ticks(groups) && i < Min(MAX_GROUPS_PER_TICK, groups) && d == t * Min(MAX_GROUPS_PER_TICK, groups) + i
  {
    if groups <= MAX_GROUPS_PER_TICK {
      t, i := 0, d;
    } else {
      t, i := d / 4, d % 4;
    }
  }

  /** Enough visits for every group, and no more than the last tick rounds up to. */
  lemma TicksReach(groups: nat)
    requires 0 < groups
    ensures var b := Min(MAX_GROUPS_PER_TICK, groups);
            0 < Ticks(groups) && (Ticks(groups) - 1) * b < groups <= Ticks(groups) * b < groups + b
  {
  }

  /** The cursor does not wrap before the last of the ticks begins. */
  predicate Straight(groups: nat, start: nat)
    requires 0 < groups
  {
    start + (Ticks(groups) - 1) * Min(MAX_GROUPS_PER_TICK, groups) < WORD
  }

  ghost predicate Reached(groups: nat, start: nat, g: nat)
    requires 0 < groups
  {
    exists t: nat :: t < Ticks(groups) && Visits(groups, Cursor(groups, start, t), g)
  }

  ghost predicate AllReached(groups: nat, start: nat)
    requires 0 < groups
  {
    forall g: nat :: g < groups ==> Reached(groups, start, g)
  }

  lemma StraightReaches(groups: nat, start: nat, g: nat)
    requires g < groups <= WORD && start < WORD && Straight(groups, start)
    ensures Reached(groups, start, g)
  {
    hide Ticks;
    TicksReach(groups);
    var d := Distance(start, g, groups);
    var t, i := TickOf(d, groups);
    MultiplyMonotone(t, Ticks(groups) - 1, Min(MAX_GROUPS_PER_TICK, groups));
    CursorAt(groups, start, t);
    assert Slot(Cursor(groups, start, t), i, groups) == g;
  }

  // ---- A cursor that wraps on the way ----

  /** The visits made before the wrap, a multiple of the tick's budget. */
  function BeforeWrap(start: nat): nat
    requires start < WORD
  {
    (WORD - start + 3) / 4 * 4
  }

  /** Visit number `v` of the ticks looks at this position of the circle. */
  function Position(start: nat, v: nat): nat
    requires start < WORD
  {
    if v < BeforeWrap(start) then start + v else start + v - WORD
  }

  /** With more groups than one tick visits, the visits are numbered through. */
  lemma ReachedByVisit(groups: nat, start: nat, g: nat)
    requires 4 < groups <= WORD && start < WORD
    ensures Reached(groups, start, g) <==> exists v: nat :: v < 4 * Ticks(groups) && Position(start, v) % groups == g
  {
    hide Visits;
    if Reached(groups, start, g) {
      var t: nat :| t < Ticks(groups) && Visits(groups, Cursor(groups, start, t), g);
      var i := VisitOf(groups, Cursor(groups, start, t), g);
      VisitAt(groups, start, t, i);
      assert Position(start, 4 * t + i) % groups == g;
    }
    forall v: nat | v < 4 * Ticks(groups) && Position(start, v) % groups == g ensures Reached(groups, start, g) {
      VisitAt(groups, start, v / 4, v % 4);
      VisitsAt(groups, Cursor(groups, start, v / 4), v % 4, g);
    }
  }

  lemma VisitOf(groups: nat, cursor: nat, g: nat) returns (i: nat)
    requires 4 < groups && Visits(groups, cursor, g)
    ensures i < 4 && (cursor + i) % groups == g
  {
    i :| 0 <= i < Min(MAX_GROUPS_PER_TICK, groups) && Slot(cursor, i, groups) == g;
  }

  lemma VisitsAt(groups: nat, cursor: nat, i: nat, g: nat)
    requires 4 < groups && i < 4 && (cursor + i) % groups == g
    ensures Visits(groups, cursor, g)
  {
    assert Slot(cursor, i, groups) == g;
  }

  lemma VisitAt(groups: nat, start: nat, t: nat, i: nat)
    requires 4 < groups <= WORD && start < WORD && t < Ticks(groups) && i < 4
    ensures Cursor(groups, start, t) + i == Position(start, 4 * t + i)
  {
    TicksReach(groups);
    CursorAt(groups, start, t);
  }

  /** The visits after the wrap make up for the ones it displaced. */
  lemma WrapReaches(groups: nat, start: nat, g: nat) returns (v: nat)
    requires g < groups <= WORD && 4 < groups && start < WORD && !Straight(groups, start)
    requires WORD % groups + groups <= 4 * Ticks(groups)
    ensures v < 4 * Ticks(groups) && Position(start, v) % groups == g
  {
    var d := Distance(start, g, groups);
    TicksReach(groups);
    if d < BeforeWrap(start) {
      v := d;
    } else {
      v := d + WORD % groups;
      AddRemainder(WORD, start + d - WORD, groups);
    }
  }

  /** Otherwise the group at this place is seen neither before the wrap nor after it. */
  function Missed(groups: nat, start: nat): nat
    requires 4 < groups && start < WORD && !Straight(groups, start)
  {
    start + BeforeWrap(start) - WORD + Max(WORD % groups, 4 * Ticks(groups) - BeforeWrap(start))
  }

  lemma WrapMisses(groups: nat, start: nat, v: nat)
    requires 4 < groups <= WORD && start < WORD && !Straight(groups, start) && v < 4 * Ticks(groups)
    requires 4 * Ticks(groups) < WORD % groups + groups
    ensures Position(start, v) % groups != Missed(groups, start) % groups
  {
    TicksReach(groups);
    var before := BeforeWrap(start);
    if v < before {
      MissedBefore(WORD, groups, start, before, Max(WORD % groups, 4 * Ticks(groups) - before), v);
    } else if Position(start, v) % groups == Missed(groups, start) % groups {
      WithinTurn(start + v - WORD, Missed(groups, start), groups);
    }
  }

  lemma MissedBefore(word: nat, groups: nat, start: nat, before: nat, ahead: nat, v: nat)
    requires 0 < groups && v < before && word <= start + before
    requires word % groups <= ahead < word % groups + groups - before
    ensures (start + v) % groups != (start + before - word + ahead) % groups
  {
    var turn := word % groups;
    var more := start + before - word + (ahead - turn);
    AddRemainder(word, more, groups);
    if (start + v) % groups == (turn + more) % groups {
      WithinTurn(start + v, word + more, groups);
    }
  }

  /** What a caller can tell beforehand: no wrap on the way, or a wrap that the rounding up absorbs. */
  predicate Fair(groups: nat, start: nat)
    requires 0 < groups
  {
    Straight(groups, start) || WORD % groups + groups <= Ticks(groups) * Min(MAX_GROUPS_PER_TICK, groups)
  }

  /**
   With a fixed set of groups, every group is visited within the rounded-up quarter of their number
   of ticks exactly when the 64-bit cursor does not wrap on the way, or the rounding up absorbs it.
   */
  lemma EveryGroupVisited(groups: nat, start: nat)
    requires 0 < groups <= WORD && start < WORD
    ensures AllReached(groups, start) <==> Fair(groups, start)
  {
    hide Reached, Visits, Cursor;
    if Straight(groups, start) {
      forall g: nat | g < groups ensures Reached(groups, start, g) {
        StraightReaches(groups, start, g);
      }
    } else {
      TicksReach(groups);
      assert 4 < groups;
      if Fair(groups, start) {
        forall g: nat | g < groups ensures Reached(groups, start, g) {
          var v := WrapReaches(groups, start, g);
          ReachedByVisit(groups, start, g);
        }
      } else {
        var g := Missed(groups, start) % groups;
        ReachedByVisit(groups, start, g);
        forall v: nat | v < 4 * Ticks(groups) ensures Position(start, v) % groups != g {
          WrapMisses(groups, start, v);
        }
        assert !Reached(groups, start, g);
      }
    }
  }

  /** Not every start is fair: with six groups and four visits left before the wrap, two ticks miss one. */
  lemma WrapMissesGroup()
    ensures !Fair(6, WORD - 4) && !AllReached(6, WORD - 4)
  {
    EveryGroupVisited(6, WORD - 4);
  }
}
