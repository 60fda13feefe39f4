/**
 The distributed lock authority as a state machine over Redis.

 One inode's lock hash, the owner leases and every transaction in flight are the state;
 the events are the single Redis commands, in any order, from any number of mounts.  A
 transaction watches the hash, reads it, watches and reads the leases, plans its writes
 and runs EXEC at some later time or never.  A client that loses an EXEC reply simply
 starts another transaction while the first is still in flight, so replay and delayed
 execution are among the interleavings.
 */
module LockAuthority {
  import opened Common
  import opened LockRanges
  import opened LockCodec

  const MAX_HOLDERS: nat := 1024

  datatype Owner = Owner(generation: nat, kernel: nat)

  /** A hash field name: an owner's, or the transient write fence. */
  datatype Field = Holder(owner: Owner) | Fence

  datatype Content = Ranges(ranges: seq<Interval>) | Held(flock: Flock) | Mark

  /** `version` is what WATCH compares: it grows with every modification of the key. */
  datatype Hash = Hash(fields: map<Field, Content>, version: nat)

  datatype Command = HSet(field: Field, content: Content) | HDel(field: Field)

  /** A lease key: live until it expires or is revoked, and never created again. */
  datatype Lease = Lease(live: bool, version: nat)

  /** The leases a transaction has looked at; `None` for a key that does not exist. */
  type Seen = map<nat, Option<Lease>>

  datatype Request = Posix(interval: Interval) | Bsd(flock: Flock) | Sweep

  datatype Phase =
    | Watching
    | Fetched(fields: map<Field, Content>)
    | Queued(fields: map<Field, Content>, seen: Seen, commands: seq<Command>)

  datatype Attempt = Attempt(owner: Owner, request: Request, watched: nat, phase: Phase)

  datatype State = State(hash: Hash, leases: map<nat, Lease>, attempts: map<nat, Attempt>)

  // ---- Redis commands ----

  /** HSET always touches the key; HDEL of a missing field does not. */
  function Apply(h: Hash, c: Command): Hash {
    match c
    case HSet(f, v) => Hash(h.fields[f := v], h.version + 1)
    case HDel(f) => if f in h.fields then Hash(h.fields - {f}, h.version + 1) else h
  }

  function Exec(h: Hash, commands: seq<Command>): Hash
    decreases |commands|
  {
    if commands == [] then h else Exec(Apply(h, commands[0]), commands[1..])
  }

  /** The writes that store `content` for `owner`, or erase it; an erase of nothing is fenced. */
  function SetState(owner: Owner, content: Option<Content>, stored: bool): seq<Command> {
    if content.Some? then [HSet(Holder(owner), content.value)]
    else if stored then [HDel(Holder(owner))]
    else [HSet(Fence, Mark), HDel(Holder(owner)), HDel(Fence)]
  }

  // ---- Planning a transaction from its snapshot ----

  predicate LiveIn(seen: Seen, generation: nat) {
    generation in seen && seen[generation].Some? && seen[generation].value.live
  }

  function Generations(owner: Owner, fields: map<Field, Content>): set<nat> {
    {owner.generation} + set f | f in fields && f.Holder? :: f.owner.generation
  }

  /** A grant watches every holder's lease, garbage collection those of its page only. */
  function LeasesWatched(owner: Owner, request: Request, fields: map<Field, Content>, page: seq<Field>): set<nat> {
    if request.Sweep? then set f | f in page && f.Holder? :: f.owner.generation else Generations(owner, fields)
  }

  /** Some stored range of another holder overlaps the request with a write among the two. */
  predicate PosixBlocked(request: Interval, ranges: seq<Interval>) {
    request.kind != Unlock &&
    exists k :: 0 <= k < |ranges| && Overlaps(request, ranges[k]) && (request.kind == Write || ranges[k].kind == Write)
  }

  predicate FlockBlocked(request: Flock, held: Flock) {
    request != Unlocked && (request == Exclusive || held == Exclusive)
  }

  predicate Blocked(request: Request, content: Content) {
    match request
    case Posix(i) => content.Ranges? && PosixBlocked(i, content.ranges)
    case Bsd(t) => content.Held? && FlockBlocked(t, content.flock)
    case Sweep => false
  }

  predicate Conflict(owner: Owner, request: Request, fields: map<Field, Content>, seen: Seen) {
    exists f :: f in fields && f.Holder? && f.owner != owner && LiveIn(seen, f.owner.generation) &&
                Blocked(request, fields[f])
  }

  /** Every live holder's stored value decodes for this kind of lock. */
  predicate Readable(request: Request, fields: map<Field, Content>, seen: Seen) {
    forall f :: f in fields && f.Holder? && LiveIn(seen, f.owner.generation) ==>
                  if request.Posix? then fields[f].Ranges? else fields[f].Held?
  }

  /** The deletions of one garbage-collection page: fields whose lease key is gone. */
  function Deletions(fields: map<Field, Content>, seen: Seen, page: seq<Field>): seq<Command> {
    if page == [] then []
    else
      var rest := Deletions(fields, seen, page[1..]);
      if page[0] in fields && page[0].Holder? && page[0].owner.generation in seen
         && !LiveIn(seen, page[0].owner.generation)
      then [HDel(page[0])] + rest else rest
  }

  function PosixDecision(owner: Owner, i: Interval, fields: map<Field, Content>, seen: Seen): Result<Option<Content>>
    requires Holder(owner) in fields ==> fields[Holder(owner)].Ranges?
  {
    var stored := Holder(owner) in fields;
    var next := Updated(if stored then fields[Holder(owner)].ranges else [], i);
    if Conflict(owner, Posix(i), fields, seen) then Failure(WouldBlock)
    else if !WellSized(next) then Failure(NoLocks)
    else if !stored && next != [] && |fields| >= MAX_HOLDERS then Failure(NoLocks)
    else Success(if next == [] then None else Some(Ranges(next)))
  }

  function FlockDecision(owner: Owner, t: Flock, fields: map<Field, Content>, seen: Seen): Result<Option<Content>>
    requires Holder(owner) in fields ==> fields[Holder(owner)].Held?
  {
    var stored := Holder(owner) in fields;
    if Conflict(owner, Bsd(t), fields, seen) then
      // A conversion is not atomic: the old mode is yielded before waiting.
      if stored && fields[Holder(owner)].flock != t then Success(None) else Failure(WouldBlock)
    else if !stored && t != Unlocked && |fields| >= MAX_HOLDERS then Failure(NoLocks)
    else Success(if t == Unlocked then None else Some(Held(t)))
  }

  /** What the requester's field is to become, `None` for no field at all. */
  function Decision(owner: Owner, request: Request, fields: map<Field, Content>, seen: Seen): Result<Option<Content>>
    requires !request.Sweep?
  {
    if |fields| > MAX_HOLDERS then Failure(NoLocks)
    else if Fence in fields then Failure(Malformed)
    else if !LiveIn(seen, owner.generation) then Failure(Unavailable)
    else if !Readable(request, fields, seen) then Failure(Malformed)
    else match request
         case Posix(i) => PosixDecision(owner, i, fields, seen)
         case Bsd(t) => FlockDecision(owner, t, fields, seen)
  }

  function Plan(owner: Owner, request: Request, fields: map<Field, Content>, seen: Seen,
                page: seq<Field>): Result<seq<Command>> {
    if request.Sweep? then Success(Deletions(fields, seen, page))
    else
      var d := Decision(owner, request, fields, seen);
      if d.Failure? then Failure(d.error) else Success(SetState(owner, d.value, Holder(owner) in fields))
  }

  // ---- Events ----

  datatype Event =
    | Begin(id: nat, owner: Owner, request: Request)   // WATCH hash, HLEN
    | Fetch(id: nat)                                   // HGETALL or HSCAN
    | Probe(id: nat, page: seq<Field>)                 // WATCH leases, PTTL, queue the writes
    | Run(id: nat)                                     // the server executes EXEC
    | Drop(id: nat)                                    // the client gives up before EXEC
    | Issue(generation: nat)
    | Renew(generation: nat)
    | Expire(generation: nat)

  predicate WellFormed(request: Request) {
    request.Posix? ==>
      request.interval.start < request.interval.end <= UINT64_MAX && request.interval.pid <= INT32_MAX
  }

  function See(leases: map<nat, Lease>, generations: set<nat>): Seen {
    map g | g in generations :: if g in leases then Some(leases[g]) else None
  }

  /** EXEC succeeds exactly when no watched key changed since it was watched. */
  predicate Unchanged(s: State, a: Attempt) {
    && a.phase.Queued?
    && a.watched == s.hash.version
    && See(s.leases, a.phase.seen.Keys) == a.phase.seen
  }

  function Step(s: State, e: Event): State {
    match e
    case Begin(id, owner, request) =>
      if id in s.attempts || !WellFormed(request) then s
      else s.(attempts := s.attempts[id := Attempt(owner, request, s.hash.version, Watching)])
    case Fetch(id) =>
      if id in s.attempts && s.attempts[id].phase.Watching?
      then s.(attempts := s.attempts[id := s.attempts[id].(phase := Fetched(s.hash.fields))])
      else s
    case Probe(id, page) =>
      if id in s.attempts && s.attempts[id].phase.Fetched? then
        var a := s.attempts[id];
        var seen := See(s.leases, LeasesWatched(a.owner, a.request, a.phase.fields, page));
        var plan := Plan(a.owner, a.request, a.phase.fields, seen, page);
        if plan.Success?
        then s.(attempts := s.attempts[id := a.(phase := Queued(a.phase.fields, seen, plan.value))])
        else s.(attempts := s.attempts - {id})
      else s
    case Run(id) =>
      if id in s.attempts && s.attempts[id].phase.Queued? then
        var a := s.attempts[id];
        State(if Unchanged(s, a) then Exec(s.hash, a.phase.commands) else s.hash, s.leases, s.attempts - {id})
      else s
    case Drop(id) => s.(attempts := s.attempts - {id})
    case Issue(g) =>
      if g in s.leases then s else s.(leases := s.leases[g := Lease(true, 0)])
    case Renew(g) =>
      if g in s.leases && s.leases[g].live
      then s.(leases := s.leases[g := Lease(true, s.leases[g].version + 1)]) else s
    case Expire(g) =>
      if g in s.leases && s.leases[g].live
      then s.(leases := s.leases[g := Lease(false, s.leases[g].version + 1)]) else s
  }

  function After(s: State, events: seq<Event>): State
    decreases events
  {
    if events == [] then s else After(Step(s, events[0]), events[1..])
  }

  const INITIAL := State(Hash(map[], 0), map[], map[])

  // ---- The safety property ----

  ghost predicate Compatible(a: Content, b: Content) {
    && (a.Ranges? && b.Ranges? ==>
          forall x: nat :: ModeAt(a.ranges, x).Some? && ModeAt(b.ranges, x).Some? ==>
                             ModeAt(a.ranges, x).value.kind == Read && ModeAt(b.ranges, x).value.kind == Read)
    && (a.Held? && b.Held? ==> a.flock != Exclusive && b.flock != Exclusive)
  }

  predicate Live(s: State, o: Owner) {
    o.generation in s.leases && s.leases[o.generation].live
  }

  /** No two owners with live leases hold conflicting locks. */
  ghost predicate Exclusion(s: State) {
    forall a, b :: Holder(a) in s.hash.fields && Holder(b) in s.hash.fields && a != b && Live(s, a) && Live(s, b) ==>
                     Compatible(s.hash.fields[Holder(a)], s.hash.fields[Holder(b)])
  }

  /** No lock reaches past the infinity sentinel. */
  ghost predicate Bounded(ranges: seq<Interval>) {
    forall x: nat :: UINT64_MAX <= x ==> ModeAt(ranges, x) == None
  }

  ghost predicate SoundContent(c: Content) {
    && !c.Mark?
    && (c.Ranges? ==> Canonical(c.ranges) && c.ranges != [] && Bounded(c.ranges) && InRange(c.ranges)
                      && WellSized(c.ranges))
    && (c.Held? ==> c.flock != Unlocked)
  }

  ghost predicate SoundFields(s: State) {
    forall f :: f in s.hash.fields ==> f.Holder? && f.owner.generation in s.leases && SoundContent(s.hash.fields[f])
  }

  /** A snapshot whose watch still holds is the current hash; a queue is the plan of its snapshot. */
  ghost predicate SoundAttempt(s: State, a: Attempt) {
    && a.watched <= s.hash.version
    && WellFormed(a.request)
    && (!a.phase.Watching? && a.watched == s.hash.version ==> a.phase.fields == s.hash.fields)
    && (a.phase.Queued? ==>
          && (!a.request.Sweep? ==> a.phase.seen.Keys == Generations(a.owner, a.phase.fields))
          && exists page :: Plan(a.owner, a.request, a.phase.fields, a.phase.seen, page) == Success(a.phase.commands))
  }

  ghost predicate Inv(s: State) {
    && SoundFields(s)
    && Exclusion(s)
    && (forall id :: id in s.attempts ==> SoundAttempt(s, s.attempts[id]))
  }

  // ---- Effect of a committed plan ----

  function Put(fields: map<Field, Content>, owner: Owner, content: Option<Content>): map<Field, Content> {
    if content.Some? then fields[Holder(owner) := content.value] else fields - {Holder(owner)}
  }

  lemma ExecOne(h: Hash, c: Command)
    ensures Exec(h, [c]) == Apply(h, c)
  {
    assert [c][1..] == [];
  }

  lemma ExecThree(h: Hash, c1: Command, c2: Command, c3: Command)
    ensures Exec(h, [c1, c2, c3]) == Apply(Apply(Apply(h, c1), c2), c3)
  {
    assert [c1, c2, c3][1..] == [c2, c3] && [c2, c3][1..] == [c3];
    ExecOne(Apply(Apply(h, c1), c2), c3);
  }

  /** Storing or erasing one owner's state changes that owner's field only and leaves no fence. */
  lemma SetStateEffect(h: Hash, owner: Owner, content: Option<Content>)
    requires Fence !in h.fields
    ensures var h' := Exec(h, SetState(owner, content, Holder(owner) in h.fields));
            h'.version > h.version && h'.fields == Put(h.fields, owner, content)
  {
    var mine := Holder(owner);
    if content.Some? {
      ExecOne(h, HSet(mine, content.value));
    } else if mine in h.fields {
      ExecOne(h, HDel(mine));
    } else {
      ExecThree(h, HSet(Fence, Mark), HDel(mine), HDel(Fence));
      assert h.fields[Fence := Mark] - {Fence} == h.fields - {mine};
    }
  }

  /** A garbage-collection page only deletes fields whose generation was seen dead. */
  lemma {:induction false} DeletionsEffect(h: Hash, fields: map<Field, Content>, seen: Seen,
                                           page: seq<Field>)
    ensures var h' := Exec(h, Deletions(fields, seen, page));
            && h'.version >= h.version
            && (h'.version == h.version ==> h' == h)
            && (forall f :: f in h'.fields ==> f in h.fields && h'.fields[f] == h.fields[f])
            && (forall f :: f in h.fields && f !in h'.fields ==>
                              f.Holder? && f.owner.generation in seen && !LiveIn(seen, f.owner.generation))
    decreases |page|
  {
    if page != [] {
      var rest := Deletions(fields, seen, page[1..]);
      if Deletions(fields, seen, page) == rest {
        DeletionsEffect(h, fields, seen, page[1..]);
      } else {
        var c := HDel(page[0]);
        assert ([c] + rest)[1..] == rest;
        DeletionsEffect(Apply(h, c), fields, seen, page[1..]);
      }
    }
  }

  // ---- Exclusion is inductive ----

  lemma NotBlockedCompatible(i: Interval, owned: seq<Interval>, other: seq<Interval>)
    requires Canonical(owned) && Canonical(other) && i.start < i.end
    requires Compatible(Ranges(owned), Ranges(other)) && !PosixBlocked(i, other)
    ensures Compatible(Ranges(Updated(owned, i)), Ranges(other))
  {
    hide Updated, Canonical;
    forall x: nat | ModeAt(Updated(owned, i), x).Some? && ModeAt(other, x).Some?
      ensures ModeAt(Updated(owned, i), x).value.kind == Read && ModeAt(other, x).value.kind == Read
    {
      CanonicalOrdered(owned);
      CanonicalOrdered(other);
      UpdatedAt(owned, i, x);
      var k := ModeAtWitness(other, x);
      if Holds(i, x) {
        assert Overlaps(i, other[k]);
      }
    }
  }

  lemma CanonicalOrdered(rs: seq<Interval>)
    requires Canonical(rs)
    ensures Ordered(rs)
  {
  }

  /** The requester's new state is sound and compatible with every other live holder. */
  lemma DecisionSafe(owner: Owner, request: Request, fields: map<Field, Content>, seen: Seen,
                     b: Owner)
    requires !request.Sweep? && WellFormed(request)
    requires Decision(owner, request, fields, seen).Success? && Decision(owner, request, fields, seen).value.Some?
    requires forall f :: f in fields ==> SoundContent(fields[f])
    requires Holder(b) in fields && b != owner && LiveIn(seen, b.generation)
    requires Holder(owner) in fields ==> Compatible(fields[Holder(owner)], fields[Holder(b)])
    ensures Compatible(Decision(owner, request, fields, seen).value.value, fields[Holder(b)])
  {
    hide Updated, Canonical, ModeAt, WellSized;
    var theirs := fields[Holder(b)];
    match request
    case Posix(i) =>
      assert !Blocked(request, theirs);
      var owned := if Holder(owner) in fields then fields[Holder(owner)].ranges else [];
      if Holder(owner) !in fields {
        EmptyCompatible(theirs.ranges);
      }
      NotBlockedCompatible(i, owned, theirs.ranges);
    case Bsd(t) =>
      assert !Blocked(request, theirs);
  }

  lemma EmptyCompatible(other: seq<Interval>)
    ensures Canonical([]) && Compatible(Ranges([]), Ranges(other))
  {
  }

  lemma DecisionSound(owner: Owner, request: Request, fields: map<Field, Content>, seen: Seen)
    requires !request.Sweep? && WellFormed(request)
    requires Decision(owner, request, fields, seen).Success?
    requires forall f :: f in fields ==> SoundContent(fields[f])
    ensures Decision(owner, request, fields, seen).value.Some? ==>
              SoundContent(Decision(owner, request, fields, seen).value.value)
    ensures LiveIn(seen, owner.generation) && Fence !in fields
  {
    hide Updated, WellSized, InRange;
    if request.Posix? {
      var owned := if Holder(owner) in fields then fields[Holder(owner)].ranges else [];
      UpdatedCanonical(owned, request.interval);
      UpdatedBounded(owned, request.interval);
      if Holder(owner) !in fields {
        NothingInRange();
      }
      UpdatedInRange(owned, request.interval);
    }
  }

  lemma NothingInRange()
    ensures InRange([])
  {
  }

  /** A locked byte's process fits its field, so every interval of the new set does. */
  lemma UpdatedInRange(owned: seq<Interval>, i: Interval)
    requires Canonical(owned) && Bounded(owned) && InRange(owned)
    requires i.start < i.end <= UINT64_MAX && i.pid <= INT32_MAX
    ensures InRange(Updated(owned, i))
  {
    hide Updated;
    var next := Updated(owned, i);
    UpdatedCanonical(owned, i);
    UpdatedBounded(owned, i);
    forall r | r in next ensures r.end <= UINT64_MAX && r.pid <= INT32_MAX {
      var k :| 0 <= k < |next| && next[k] == r;
      ModeAtMember(next, k, r.end - 1);
      UpdatedAt(owned, i, r.end - 1);
      if !Holds(i, r.end - 1) {
        var j := ModeAtWitness(owned, r.end - 1);
        assert owned[j] in owned;
      }
    }
  }

  lemma UpdatedBounded(owned: seq<Interval>, i: Interval)
    requires Canonical(owned) && Bounded(owned) && i.start < i.end <= UINT64_MAX
    ensures Bounded(Updated(owned, i))
  {
    forall x: nat | UINT64_MAX <= x ensures ModeAt(Updated(owned, i), x) == None {
      UpdatedAt(owned, i, x);
    }
  }

  /** A queue whose watch holds: its decision, and the hash it leaves behind. */
  lemma Committed(s: State, a: Attempt) returns (content: Option<Content>)
    requires Inv(s) && SoundAttempt(s, a) && Unchanged(s, a) && !a.request.Sweep?
    ensures Decision(a.owner, a.request, s.hash.fields, a.phase.seen) == Success(content)
    ensures Exec(s.hash, a.phase.commands).version > s.hash.version
    ensures Exec(s.hash, a.phase.commands).fields == Put(s.hash.fields, a.owner, content)
    ensures forall o :: Holder(o) in s.hash.fields || o == a.owner ==>
                          (LiveIn(a.phase.seen, o.generation) <==> Live(s, o))
  {
    hide Decision, Exec, SetState;
    var page :| Plan(a.owner, a.request, a.phase.fields, a.phase.seen, page) == Success(a.phase.commands);
    content := Decision(a.owner, a.request, s.hash.fields, a.phase.seen).value;
    SetStateEffect(s.hash, a.owner, content);
    forall o | Holder(o) in s.hash.fields || o == a.owner ensures LiveIn(a.phase.seen, o.generation) <==> Live(s, o) {
      assert o.generation in Generations(a.owner, a.phase.fields);
    }
  }

  lemma CommitKeepsExclusion(s: State, a: Attempt)
    requires Inv(s) && SoundAttempt(s, a) && Unchanged(s, a) && !a.request.Sweep?
    ensures var s' := s.(hash := Exec(s.hash, a.phase.commands)); SoundFields(s') && Exclusion(s')
    ensures Exec(s.hash, a.phase.commands).version > s.hash.version
  {
    hide Decision, Exec, Compatible, SoundContent;
    var content := Committed(s, a);
    DecisionSound(a.owner, a.request, s.hash.fields, a.phase.seen);
    forall b | Holder(b) in s.hash.fields && b != a.owner && Live(s, b) && content.Some?
      ensures Compatible(content.value, s.hash.fields[Holder(b)])
    {
      DecisionSafe(a.owner, a.request, s.hash.fields, a.phase.seen, b);
    }
    CompatibleSymmetric();
  }

  lemma CompatibleSymmetric()
    ensures forall a, b :: Compatible(a, b) ==> Compatible(b, a)
  {
  }

  lemma SweepKeepsExclusion(s: State, a: Attempt)
    requires Inv(s) && SoundAttempt(s, a) && Unchanged(s, a) && a.request.Sweep?
    ensures var s' := s.(hash := Exec(s.hash, a.phase.commands)); SoundFields(s') && Exclusion(s')
    ensures var h := Exec(s.hash, a.phase.commands); h.version >= s.hash.version
                                                     && (h.version == s.hash.version ==> h == s.hash)
  {
    hide Exec, Compatible, SoundContent, Deletions;
    var page :| Plan(a.owner, a.request, a.phase.fields, a.phase.seen, page) == Success(a.phase.commands);
    DeletionsEffect(s.hash, a.phase.fields, a.phase.seen, page);
  }

  lemma RunKeepsInv(s: State, id: nat)
    requires Inv(s)
    ensures Inv(Step(s, Run(id))) && Step(s, Run(id)).hash.version >= s.hash.version
  {
    hide Exec, Compatible, SoundContent, Plan;
    if id in s.attempts && s.attempts[id].phase.Queued? && Unchanged(s, s.attempts[id]) {
      var a := s.attempts[id];
      if a.request.Sweep? {
        SweepKeepsExclusion(s, a);
      } else {
        CommitKeepsExclusion(s, a);
      }
    }
  }

  lemma StepKeepsInv(s: State, e: Event)
    requires Inv(s)
    ensures Inv(Step(s, e))
  {
    hide Exec, Compatible, SoundContent, Plan;
    match e
    case Run(id) => RunKeepsInv(s, id);
    case Probe(id, page) => ProbeKeepsInv(s, id, page);
    case Begin(_, _, _) =>
    case Fetch(_) =>
    case Drop(_) =>
    case Issue(_) =>
    case Renew(_) =>
    case Expire(_) =>
  }

  lemma ProbeKeepsInv(s: State, id: nat, page: seq<Field>)
    requires Inv(s)
    ensures Inv(Step(s, Probe(id, page)))
  {
    hide Plan, Compatible, SoundContent;
  }

  lemma {:induction false} AfterKeepsInv(s: State, events: seq<Event>)
    requires Inv(s)
    ensures Inv(After(s, events))
    decreases events
  {
    if events != [] {
      StepKeepsInv(s, events[0]);
      AfterKeepsInv(Step(s, events[0]), events[1..]);
    }
  }

  // ---- Main results ----

  /** Over every interleaving, live owners never hold conflicting record locks or flocks. */
  lemma LockSafety(events: seq<Event>)
    ensures Exclusion(After(INITIAL, events))
    ensures Fence !in After(INITIAL, events).hash.fields
  {
    AfterKeepsInv(INITIAL, events);
  }

  /** Every set that is ever stored is within the budgets, and its text decodes to that set. */
  lemma StoredDecodes(events: seq<Event>, o: Owner)
    requires Holder(o) in After(INITIAL, events).hash.fields
    ensures var content := After(INITIAL, events).hash.fields[Holder(o)];
            content.Ranges? ==> WellSized(content.ranges) && Decoded(Encoded(content.ranges)) == Some(content.ranges)
  {
    hide Decoded, Encoded, WellSized, After;
    AfterKeepsInv(INITIAL, events);
    var content := After(INITIAL, events).hash.fields[Holder(o)];
    assert SoundContent(content);
    if content.Ranges? {
      DecodeEncode(content.ranges);
    }
  }

  /** A committed lock request, a no-op unlock included, moves the watch version forward. */
  lemma CommitAdvances(s: State, id: nat)
    requires Inv(s) && id in s.attempts && Unchanged(s, s.attempts[id]) && !s.attempts[id].request.Sweep?
    ensures Step(s, Run(id)).hash.version > s.hash.version
  {
    hide Exec, Compatible, SoundContent, Plan, Decision;
    CommitKeepsExclusion(s, s.attempts[id]);
  }

  lemma StepVersion(s: State, e: Event)
    requires Inv(s)
    ensures Step(s, e).hash.version >= s.hash.version
  {
    if e.Run? {
      RunKeepsInv(s, e.id);
    }
  }

  lemma {:induction false} AfterVersion(s: State, events: seq<Event>)
    requires Inv(s)
    ensures After(s, events).hash.version >= s.hash.version
    decreases events
  {
    if events != [] {
      StepKeepsInv(s, events[0]);
      StepVersion(s, events[0]);
      AfterVersion(Step(s, events[0]), events[1..]);
    }
  }

  /**
   No ghost lock: once a lock request has committed, no transaction that started watching
   before it can change the hash, however long its EXEC is delayed.
   */
  lemma NoGhostLock(s: State, committed: nat, events: seq<Event>, late: nat)
    requires Inv(s)
    requires committed in s.attempts && Unchanged(s, s.attempts[committed]) && !s.attempts[committed].request.Sweep?
    requires late in s.attempts
    ensures var later := After(Step(s, Run(committed)), events);
            late in later.attempts && later.attempts[late].watched == s.attempts[late].watched ==>
              Step(later, Run(late)).hash == later.hash
  {
    CommitAdvances(s, committed);
    StepKeepsInv(s, Run(committed));
    AfterVersion(Step(s, Run(committed)), events);
  }

  lemma DecisionLive(owner: Owner, request: Request, fields: map<Field, Content>, seen: Seen)
    requires !request.Sweep? && Decision(owner, request, fields, seen).Success?
    ensures LiveIn(seen, owner.generation)
  {
  }

  lemma PosixDecisionValue(owner: Owner, i: Interval, fields: map<Field, Content>, seen: Seen,
                           content: Option<Content>)
    requires Decision(owner, Posix(i), fields, seen) == Success(content)
    ensures Holder(owner) in fields ==> fields[Holder(owner)].Ranges?
    ensures var next := Updated(if Holder(owner) in fields then fields[Holder(owner)].ranges else [], i);
            content == if next == [] then None else Some(Ranges(next))
  {
    hide Updated, WellSized;
  }

  /** A grant that commits, while the lease is live, gives the owner its mode on exactly the requested bytes. */
  lemma GrantTakesEffect(s: State, id: nat, x: nat)
    requires Inv(s) && id in s.attempts && Unchanged(s, s.attempts[id]) && s.attempts[id].request.Posix?
    ensures var a := s.attempts[id];
            var mine := Holder(a.owner);
            var next := Step(s, Run(id)).hash.fields;
            var old_ := if mine in s.hash.fields then s.hash.fields[mine] else Ranges([]);
            var new_ := if mine in next then next[mine] else Ranges([]);
            && Live(s, a.owner) && old_.Ranges? && new_.Ranges?
            && next - {mine} == s.hash.fields - {mine}
            && ModeAt(new_.ranges, x) ==
               (if !Holds(a.request.interval, x) then ModeAt(old_.ranges, x)
                else if a.request.interval.kind == Unlock then None
                else Some(LockRanges.Mode(a.request.interval.kind, a.request.interval.pid)))
  {
    hide Exec, Updated, Compatible, Decision, Plan;
    var a := s.attempts[id];
    var content := Committed(s, a);
    var mine := Holder(a.owner);
    PosixDecisionValue(a.owner, a.request.interval, s.hash.fields, a.phase.seen, content);
    assert Live(s, a.owner) by { DecisionLive(a.owner, a.request, s.hash.fields, a.phase.seen); }
    assert Put(s.hash.fields, a.owner, content) - {mine} == s.hash.fields - {mine};
    var owned := if mine in s.hash.fields then s.hash.fields[mine].ranges else [];
    UpdatedAt(owned, a.request.interval, x);
  }

  /** Another live owner holds the inode in a mode that the wanted one does not admit. */
  ghost predicate Opposes(s: State, o: Owner, t: Flock, other: Owner) {
    && other != o && Holder(other) in s.hash.fields && Live(s, other)
    && t != Unlocked && (t == Exclusive || s.hash.fields[Holder(other)] == Held(Exclusive))
  }

  /**
   A flock request that commits, for an owner whose lease is live at that moment: unopposed, it
   leaves the owner with exactly the wanted mode; opposed, it gives up the different mode the owner
   had.  Nobody else's field changes.
   */
  lemma FlockTakesEffect(s: State, id: nat)
    requires Inv(s) && id in s.attempts && Unchanged(s, s.attempts[id]) && s.attempts[id].request.Bsd?
    ensures var a := s.attempts[id];
            var mine, t, next := Holder(a.owner), a.request.flock, Step(s, Run(id)).hash.fields;
            && Live(s, a.owner) && next - {mine} == s.hash.fields - {mine}
            && if exists other :: Opposes(s, a.owner, t, other)
               then mine !in next && mine in s.hash.fields && s.hash.fields[mine] != Held(t)
               else if t == Unlocked then mine !in next
                 else mine in next && next[mine] == Held(t)
  {
    hide Exec, Compatible, Plan, Decision, Opposes, SoundContent, Exclusion, Unchanged, SoundFields, SoundAttempt;
    var a := s.attempts[id];
    assert a.phase.Queued? by { QueuedWhole(s, a); }
    var content := Committed(s, a);
    var mine, t := Holder(a.owner), a.request.flock;
    FlockDecided(s, a.owner, t, a.phase.seen);
    assert Put(s.hash.fields, a.owner, content) - {mine} == s.hash.fields - {mine};
  }

  lemma QueuedWhole(s: State, a: Attempt)
    requires Unchanged(s, a)
    ensures a.phase.Queued?
  {
  }

  /** What the transaction saw of the leases is how they are. */
  ghost predicate Faithful(s: State, owner: Owner, seen: Seen) {
    forall o :: Holder(o) in s.hash.fields || o == owner ==> (LiveIn(seen, o.generation) <==> Live(s, o))
  }

  /** The decision on a flock request, from what is stored and who is live. */
  lemma FlockDecided(s: State, owner: Owner, t: Flock, seen: Seen)
    requires Inv(s) && Faithful(s, owner, seen)
    ensures var d, mine := Decision(owner, Bsd(t), s.hash.fields, seen), Holder(owner);
            if |s.hash.fields| > MAX_HOLDERS then d == Failure(NoLocks)
            else if !Live(s, owner) then d == Failure(Unavailable)
            else if exists o :: Holder(o) in s.hash.fields && Live(s, o) && !s.hash.fields[Holder(o)].Held?
            then d == Failure(Malformed)
            else if exists other :: Opposes(s, owner, t, other)
              then d == if mine in s.hash.fields && s.hash.fields[mine] != Held(t) then Success(None)
                        else Failure(WouldBlock)
              else if t == Unlocked then d == Success(None)
                else if mine !in s.hash.fields && |s.hash.fields| == MAX_HOLDERS then d == Failure(NoLocks)
                else d == Success(Some(Held(t)))
  {
    hide Compatible, SoundContent, Exclusion;
    var fields := s.hash.fields;
    assert Fence !in fields;
    if exists o :: Holder(o) in fields && Live(s, o) && !fields[Holder(o)].Held? {
      var o :| Holder(o) in fields && Live(s, o) && !fields[Holder(o)].Held?;
      assert Holder(o) in fields && Holder(o).Holder? && LiveIn(seen, Holder(o).owner.generation);
    } else if Live(s, owner) {
      assert Readable(Bsd(t), fields, seen);
      if other :| Opposes(s, owner, t, other) {
        assert Holder(other) in fields && Holder(other).owner == other && Blocked(Bsd(t), fields[Holder(other)]);
      } else if Conflict(owner, Bsd(t), fields, seen) {
        var f :| f in fields && f.Holder? && f.owner != owner && LiveIn(seen, f.owner.generation) &&
                 Blocked(Bsd(t), fields[f]);
        assert Opposes(s, owner, t, f.owner);
      }
    }
  }

  /** Another live owner has a byte of the request in a mode that the wanted one does not admit. */
  ghost predicate OpposesAt(s: State, o: Owner, i: Interval, other: Owner, x: nat) {
    && other != o && Holder(other) in s.hash.fields && Live(s, other) && s.hash.fields[Holder(other)].Ranges?
    && i.start <= x < i.end && i.kind != Unlock
    && var mode := ModeAt(s.hash.fields[Holder(other)].ranges, x);
    mode.Some? && (i.kind == Write || mode.value.kind == Write)
  }

  lemma OpposedRange(s: State, owner: Owner, i: Interval, other: Owner) returns (x: nat)
    requires Inv(s) && Holder(other) in s.hash.fields && s.hash.fields[Holder(other)].Ranges? && i.start < i.end
    requires Live(s, other) && other != owner
    ensures PosixBlocked(i, s.hash.fields[Holder(other)].ranges) ==> OpposesAt(s, owner, i, other, x)
  {
    hide Compatible, Exclusion, Bounded, InRange, WellSized;
    x := 0;
    var ranges := s.hash.fields[Holder(other)].ranges;
    assert SoundContent(s.hash.fields[Holder(other)]);
    if PosixBlocked(i, ranges) {
      var k :| 0 <= k < |ranges| && Overlaps(i, ranges[k]) && (i.kind == Write || ranges[k].kind == Write);
      x := if i.start < ranges[k].start then ranges[k].start else i.start;
      ModeAtMember(ranges, k, x);
    }
  }

  lemma OpposedBlocked(s: State, owner: Owner, i: Interval, other: Owner, x: nat)
    requires OpposesAt(s, owner, i, other, x)
    ensures PosixBlocked(i, s.hash.fields[Holder(other)].ranges)
  {
    var ranges := s.hash.fields[Holder(other)].ranges;
    var k := ModeAtWitness(ranges, x);
    assert Overlaps(i, ranges[k]);
  }

  lemma ConflictExactly(s: State, owner: Owner, i: Interval, seen: Seen)
    requires Inv(s) && Faithful(s, owner, seen) && i.start < i.end
    requires forall o :: Holder(o) in s.hash.fields && Live(s, o) ==> s.hash.fields[Holder(o)].Ranges?
    ensures Conflict(owner, Posix(i), s.hash.fields, seen) <==> exists other, x :: OpposesAt(s, owner, i, other, x)
  {
    hide Compatible, SoundContent, Exclusion, OpposesAt, PosixBlocked, Inv;
    var fields := s.hash.fields;
    if Conflict(owner, Posix(i), fields, seen) {
      var f :| f in fields && f.Holder? && f.owner != owner && LiveIn(seen, f.owner.generation) &&
               Blocked(Posix(i), fields[f]);
      assert f == Holder(f.owner);
      var x := OpposedRange(s, owner, i, f.owner);
    }
    if exists other, x :: OpposesAt(s, owner, i, other, x) {
      var other, x :| OpposesAt(s, owner, i, other, x);
      OpposedMeans(s, owner, i, other, x);
      OpposedBlocked(s, owner, i, other, x);
      assert Holder(other) in fields && Holder(other).owner == other && Blocked(Posix(i), fields[Holder(other)]);
    }
  }

  lemma OpposedMeans(s: State, o: Owner, i: Interval, other: Owner, x: nat)
    requires OpposesAt(s, o, i, other, x)
    ensures other != o && Holder(other) in s.hash.fields && Live(s, other) && s.hash.fields[Holder(other)].Ranges?
  {
  }

  /** The set the owner would have: the wanted mode on the requested bytes, what it had elsewhere. */
  ghost predicate Becomes(before: seq<Interval>, i: Interval, after: seq<Interval>) {
    && Canonical(after)
    && forall x: nat :: ModeAt(after, x) ==
                        if !(i.start <= x < i.end) then ModeAt(before, x)
                        else if i.kind == Unlock then None
                        else Some(LockRanges.Mode(i.kind, i.pid))
  }

  /** The decision on a record lock request, from the bytes that are locked and who is live. */
  lemma PosixDecided(s: State, owner: Owner, i: Interval, seen: Seen, next: seq<Interval>)
    requires Inv(s) && Faithful(s, owner, seen) && WellFormed(Posix(i))
    requires var mine := Holder(owner);
             Becomes(if mine in s.hash.fields && s.hash.fields[mine].Ranges? then s.hash.fields[mine].ranges else [],
                     i, next)
    ensures var d := Decision(owner, Posix(i), s.hash.fields, seen);
            if |s.hash.fields| > MAX_HOLDERS then d == Failure(NoLocks)
            else if !Live(s, owner) then d == Failure(Unavailable)
            else if exists o :: Holder(o) in s.hash.fields && Live(s, o) && !s.hash.fields[Holder(o)].Ranges?
            then d == Failure(Malformed)
            else if exists other, x :: OpposesAt(s, owner, i, other, x) then d == Failure(WouldBlock)
              else if !WellSized(next)
                      || (Holder(owner) !in s.hash.fields && next != [] && |s.hash.fields| == MAX_HOLDERS)
              then d == Failure(NoLocks)
              else d == Success(if next == [] then None else Some(Ranges(next)))
  {
    hide Compatible, Exclusion, OpposesAt, Updated, WellSized, Bounded, InRange, ModeAt, Canonical, Conflict;
    var fields := s.hash.fields;
    assert Fence !in fields;
    if exists o :: Holder(o) in fields && Live(s, o) && !fields[Holder(o)].Ranges? {
      var o :| Holder(o) in fields && Live(s, o) && !fields[Holder(o)].Ranges?;
      assert Holder(o) in fields && Holder(o).Holder? && LiveIn(seen, Holder(o).owner.generation);
    } else if Live(s, owner) {
      ConflictExactly(s, owner, i, seen);
      assert Readable(Posix(i), fields, seen);
      var owned := if Holder(owner) in fields then fields[Holder(owner)].ranges else [];
      assert Holder(owner) in fields ==> SoundContent(fields[Holder(owner)]);
      BecomesUpdated(owned, i, next);
    }
  }

  lemma BecomesUpdated(owned: seq<Interval>, i: Interval, next: seq<Interval>)
    requires (owned == [] || Canonical(owned)) && i.start < i.end && Becomes(owned, i, next)
    ensures next == Updated(owned, i)
  {
    hide Updated;
    UpdatedCanonical(owned, i);
    forall x: nat ensures ModeAt(next, x) == ModeAt(Updated(owned, i), x) {
      UpdatedAt(owned, i, x);
    }
    CanonicalUnique(next, Updated(owned, i));
  }

  // ---- A request that nothing disturbs ----

  lemma AfterFour(s: State, a: Event, b: Event, c: Event, d: Event)
    ensures After(s, [a, b, c, d]) == Step(Step(Step(Step(s, a), b), c), d)
  {
    hide Step;
    assert [a, b, c, d][1..] == [b, c, d] && [b, c, d][1..] == [c, d] && [c, d][1..] == [d] && [d][1..] == [];
    assert After(s, [a, b, c, d]) == After(Step(s, a), [b, c, d]);
    assert After(Step(s, a), [b, c, d]) == After(Step(Step(s, a), b), [c, d]);
    assert After(Step(Step(s, a), b), [c, d]) == After(Step(Step(Step(s, a), b), c), [d]);
    assert After(Step(Step(Step(s, a), b), c), [d]) == After(Step(Step(Step(Step(s, a), b), c), d), []);
  }

  /**
   A request whose commands run one after the other does what was decided on the present state: the
   owner's field becomes that, or on a failure nothing at all happens.
   */
  lemma UndisturbedRequest(s: State, id: nat, owner: Owner, request: Request) returns (seen: Seen)
    requires Inv(s) && id !in s.attempts && WellFormed(request) && !request.Sweep?
    ensures Faithful(s, owner, seen)
    ensures var t := After(s, [Begin(id, owner, request), Fetch(id), Probe(id, []), Run(id)]);
            var d := Decision(owner, request, s.hash.fields, seen);
            && t.leases == s.leases && t.attempts == s.attempts
            && if d.Failure? then t.hash == s.hash
               else t.hash.version > s.hash.version && t.hash.fields == Put(s.hash.fields, owner, d.value)
  {
    hide Decision, Exec, SetState, Compatible, SoundContent;
    AfterFour(s, Begin(id, owner, request), Fetch(id), Probe(id, []), Run(id));
    var fields := s.hash.fields;
    seen := See(s.leases, Generations(owner, fields));
    forall o | Holder(o) in fields || o == owner ensures LiveIn(seen, o.generation) <==> Live(s, o) {
      assert o.generation in Generations(owner, fields);
    }
    var d := Decision(owner, request, fields, seen);
    if d.Success? {
      SetStateEffect(s.hash, owner, d.value);
      assert See(s.leases, seen.Keys) == seen;
    }
  }

  /** A garbage-collection page that nothing disturbs removes exactly its fields of dead owners. */
  lemma UndisturbedSweep(s: State, id: nat, owner: Owner, page: seq<Field>, f: Field)
    requires Inv(s) && id !in s.attempts
    ensures var next := After(s, [Begin(id, owner, Sweep), Fetch(id), Probe(id, page), Run(id)]).hash.fields;
            && (f in next <==> f in s.hash.fields && !(f in page && !Live(s, f.owner)))
            && (f in next ==> next[f] == s.hash.fields[f])
  {
    hide Exec, Deletions, Compatible, SoundContent, Exclusion;
    AfterFour(s, Begin(id, owner, Sweep), Fetch(id), Probe(id, page), Run(id));
    var seen := See(s.leases, LeasesWatched(owner, Sweep, s.hash.fields, page));
    assert See(s.leases, seen.Keys) == seen;
    DeletionsExactly(s.hash, s.hash.fields, seen, page, f);
    if f in page && f in s.hash.fields {
      assert f.Holder? && f.owner.generation in seen;
    }
  }

  lemma {:induction false} DeletionsExactly(h: Hash, fields: map<Field, Content>, seen: Seen, page: seq<Field>,
                                            f: Field)
    requires forall g :: g in h.fields ==> g in fields
    ensures var next := Exec(h, Deletions(fields, seen, page)).fields;
            && (f in next <==> f in h.fields && !(f in page && f.Holder? && f.owner.generation in seen
                                                  && !LiveIn(seen, f.owner.generation)))
            && (f in next ==> next[f] == h.fields[f])
    decreases |page|
  {
    if page != [] {
      var rest := Deletions(fields, seen, page[1..]);
      assert page == [page[0]] + page[1..];
      if Deletions(fields, seen, page) == rest {
        DeletionsExactly(h, fields, seen, page[1..], f);
      } else {
        assert ([HDel(page[0])] + rest)[1..] == rest;
        DeletionsExactly(Apply(h, HDel(page[0])), fields, seen, page[1..], f);
      }
    }
  }

  /** Garbage collection never removes a field whose owner's lease is live. */
  lemma SweepSparesLive(s: State, id: nat, o: Owner)
    requires Inv(s) && id in s.attempts && Unchanged(s, s.attempts[id]) && s.attempts[id].request.Sweep?
    requires Holder(o) in s.hash.fields && Live(s, o)
    ensures var next := Step(s, Run(id)).hash.fields;
            Holder(o) in next && next[Holder(o)] == s.hash.fields[Holder(o)]
  {
    hide Exec, Compatible, SoundContent, Deletions;
    var a := s.attempts[id];
    var page :| Plan(a.owner, a.request, a.phase.fields, a.phase.seen, page) == Success(a.phase.commands);
    DeletionsEffect(s.hash, a.phase.fields, a.phase.seen, page);
  }

  // ---- A released lock stays released ----

  predicate Releases(request: Request) {
    (request.Posix? && request.interval.kind == Unlock) || (request.Bsd? && request.flock == Unlocked) || request.Sweep?
  }

  /** Everything the owner can have locked is inside the request, and the request unlocks it. */
  predicate ReleasesAll(request: Request) {
    (request.Posix? && request.interval.kind == Unlock && request.interval.start == 0
     && request.interval.end == UINT64_MAX) ||
    (request.Bsd? && request.flock == Unlocked)
  }

  /** The owner holds nothing, and whatever it still has in flight was watching before `version`. */
  ghost predicate Silenced(s: State, o: Owner, version: nat) {
    && Holder(o) !in s.hash.fields
    && version <= s.hash.version
    && forall id :: id in s.attempts && s.attempts[id].owner == o && !Releases(s.attempts[id].request) ==>
                      s.attempts[id].watched < version
  }

  lemma ReleaseKeepsEmpty(o: Owner, request: Request, fields: map<Field, Content>, seen: Seen)
    requires Releases(request) && !request.Sweep? && WellFormed(request) && Holder(o) !in fields
    requires Decision(o, request, fields, seen).Success?
    ensures Decision(o, request, fields, seen).value == None
  {
    hide Updated, WellSized;
    if request.Posix? {
      UpdatedCanonical([], request.interval);
      forall x: nat { UpdatedAt([], request.interval, x); }
      CanonicalUnique(Updated([], request.interval), []);
    }
  }

  lemma ReleaseEmpties(o: Owner, request: Request, fields: map<Field, Content>, seen: Seen)
    requires ReleasesAll(request)
    requires forall f :: f in fields ==> SoundContent(fields[f])
    requires Decision(o, request, fields, seen).Success?
    ensures Decision(o, request, fields, seen).value == None
  {
    hide Updated, WellSized;
    if request.Posix? {
      var owned := if Holder(o) in fields then fields[Holder(o)].ranges else [];
      UnlockAllEmpties(owned, request.interval);
    } else {
      assert !Conflict(o, request, fields, seen);
    }
  }

  lemma CommitKeepsSilence(s: State, a: Attempt, o: Owner)
    requires Inv(s) && SoundAttempt(s, a) && Unchanged(s, a) && Holder(o) !in s.hash.fields
    requires a.owner == o ==> Releases(a.request)
    ensures Holder(o) !in Exec(s.hash, a.phase.commands).fields
  {
    hide Exec, Compatible, SoundContent, Plan, Decision, Releases;
    if a.request.Sweep? {
      SweepRemovesOnly(s, a);
    } else {
      var content := Committed(s, a);
      if a.owner == o {
        ReleaseKeepsEmpty(o, a.request, s.hash.fields, a.phase.seen);
      }
    }
  }

  lemma StepKeepsSilence(s: State, e: Event, o: Owner, version: nat)
    requires Inv(s) && Silenced(s, o, version)
    requires e.Begin? && e.owner == o ==> Releases(e.request)
    ensures Silenced(Step(s, e), o, version)
  {
    hide Exec, Plan, Releases, Exclusion, SoundFields;
    StepVersion(s, e);
    if e.Run? && e.id in s.attempts && Unchanged(s, s.attempts[e.id]) {
      CommitKeepsSilence(s, s.attempts[e.id], o);
    }
  }

  lemma SweepRemovesOnly(s: State, a: Attempt)
    requires Inv(s) && SoundAttempt(s, a) && Unchanged(s, a) && a.request.Sweep?
    ensures forall f :: f in Exec(s.hash, a.phase.commands).fields ==> f in s.hash.fields
  {
    var page :| Plan(a.owner, a.request, a.phase.fields, a.phase.seen, page) == Success(a.phase.commands);
    DeletionsEffect(s.hash, a.phase.fields, a.phase.seen, page);
  }

  lemma {:induction false} AfterKeepsSilence(s: State, events: seq<Event>, o: Owner, version: nat)
    requires Inv(s) && Silenced(s, o, version)
    requires forall e :: e in events && e.Begin? && e.owner == o ==> Releases(e.request)
    ensures Silenced(After(s, events), o, version)
    decreases events
  {
    if events != [] {
      assert events[0] in events;
      StepKeepsSilence(s, events[0], o, version);
      StepKeepsInv(s, events[0]);
      AfterKeepsSilence(Step(s, events[0]), events[1..], o, version);
    }
  }

  /**
   Once an owner's whole-range unlock has committed, the owner stays without locks until it
   begins a new grant, no matter which of its earlier transactions are still in flight.
   */
  lemma UnlockSticks(s: State, id: nat, events: seq<Event>)
    requires Inv(s) && id in s.attempts && Unchanged(s, s.attempts[id]) && ReleasesAll(s.attempts[id].request)
    requires forall e :: e in events && e.Begin? && e.owner == s.attempts[id].owner ==> Releases(e.request)
    ensures Holder(s.attempts[id].owner) !in After(Step(s, Run(id)), events).hash.fields
  {
    hide Exec, Compatible, SoundContent, Plan;
    var a := s.attempts[id];
    var o := a.owner;
    var s' := Step(s, Run(id));
    var content := Committed(s, a);
    ReleaseEmpties(o, a.request, s.hash.fields, a.phase.seen);
    StepKeepsInv(s, Run(id));
    assert Silenced(s', o, s'.hash.version);
    AfterKeepsSilence(s', events, o, s'.hash.version);
  }
}
