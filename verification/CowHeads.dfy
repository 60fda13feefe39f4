/**
 Publication and garbage collection of copy-on-write chunks over every interleaving: flushes,
 boundary clamps, detaching size changes, lost replies whose commands arrive later, and two
 kinds of cleanup that act on what they saw earlier.
 */
module CowHeads {
  import opened Common

  /** `COWChunkHead`: the visible prefix of one immutable object. */
  datatype Head = Head(revision: nat, size: nat)

  predicate ValidHead(h: Head) { 0 < h.revision <= INT64_MAX }

  /** `ValidateHeadTransition`. */
  predicate ValidTransition(expected: Option<Head>, next: Head) {
    && ValidHead(next)
    && (expected.Some? ==>
          && ValidHead(expected.value)
          && expected.value.revision <= next.revision
          && (next.revision == expected.value.revision ==> next.size <= expected.value.size))
  }

  /** What a flush captured when it started: its position and the attachment and head it builds on. */
  datatype Session = Session(pos: nat, id: Option<nat>, head: Option<Head>)

  datatype Phase =
    | Idle
    | Started(session: Session)
    | Proposed(session: Session, id: nat, next: Head)
    | Published(session: Session, id: nat, next: Head)

  /** A compare-and-swap on a head that may still be applied. */
  datatype Cas = Cas(id: nat, expected: Option<Head>, next: Head)

  datatype State = State(
    heads: map<nat, Head>,
    objects: map<(nat, nat), nat>,       // (identity, revision) to object length
    attached: map<nat, nat>,             // file position to identity
    detached: set<nat>,
    nextId: nat,
    revisions: map<nat, nat>,            // last revision allocated per identity
    flights: set<Cas>,
    attaches: set<(nat, nat)>,           // attach transactions whose reply was lost
    phases: map<nat, Phase>,
    published: set<(nat, nat)>,          // every (identity, revision) that was ever a head
    retired: set<(nat, nat)>,            // registered revision cleanups
    doomed: set<(nat, nat)>,             // revision cleanups past their check
    queue: set<(nat, nat)>,              // registered detached cleanups: position and identity
    condemned: set<nat>)                 // detached cleanups past their check

  datatype Event =
    | Open(flush: nat, pos: nat) | Propose(flush: nat, size: nat) | Learn(flush: nat) | Abandon(flush: nat)
    | Attach(flush: nat) | SendAttach(flush: nat) | Finish(flush: nat)
    | Land(cas: Cas) | Lose(cas: Cas) | LandAttach(pos: nat, id: nat)
    | Clamp(id: nat, prefix: nat) | Detach(pos: nat) | Enqueue(pos: nat)
    | CheckRevision(id: nat, revision: nat) | DeleteRevision(id: nat, revision: nat)
    | CheckDetached(pos: nat, id: nat) | DeleteObject(id: nat, revision: nat) | EraseHead(id: nat)

  function HeadOf(s: State, id: nat): Option<Head> { if id in s.heads then Some(s.heads[id]) else None }

  function AttachedAt(s: State, pos: nat): Option<nat> { At(s.attached, pos) }

  function LastRevision(s: State, id: nat): nat { Last(s.revisions, id) }

  function PhaseOf(s: State, f: nat): Phase { if f in s.phases then s.phases[f] else Idle }

  function SetPhase(s: State, f: nat, phase: Phase): State { s.(phases := s.phases[f := phase]) }

  /** The flush checks that its attachment and head are still the authoritative ones. */
  function OpenStep(s: State, f: nat, pos: nat): State {
    var id := AttachedAt(s, pos);
    if PhaseOf(s, f) != Idle then s
    else if id.None? then SetPhase(s, f, Started(Session(pos, None, None)))
    else if id.value !in s.heads then s
    else SetPhase(s, f, Started(Session(pos, id, Some(s.heads[id.value]))))
  }

  /** A fresh revision (and, without an attachment, a fresh identity), its object, and the exchange. */
  function ProposeStep(s: State, f: nat, size: nat): State {
    if !PhaseOf(s, f).Started? then s
    else
      var session := PhaseOf(s, f).session;
      var id := if session.id.Some? then session.id.value else s.nextId;
      var next := Head(LastRevision(s, id) + 1, size);
      if !ValidTransition(session.head, next) then s
      else
        SetPhase(s, f, Proposed(session, id, next)).(
        nextId := if session.id.Some? then s.nextId else s.nextId + 1,
        revisions := s.revisions[id := next.revision],
        objects := s.objects[(id, next.revision) := size],
          flights := s.flights + {Cas(id, session.head, next)})
  }

  /** The exchange is known to have been applied, from its reply or from reading the head back. */
  function LearnStep(s: State, f: nat): State {
    var phase := PhaseOf(s, f);
    if phase.Proposed? && (phase.id, phase.next.revision) in s.published
    then SetPhase(s, f, Published(phase.session, phase.id, phase.next)) else s
  }

  function AttachStep(s: State, f: nat, delayed: bool): State {
    var phase := PhaseOf(s, f);
    if !phase.Published? || phase.session.id.Some? then s
    else if delayed then SetPhase(s, f, Idle).(attaches := s.attaches + {(phase.session.pos, phase.id)})
    else if phase.session.pos in s.attached then s
    else SetPhase(s, f, Idle).(attached := s.attached[phase.session.pos := phase.id])
  }

  /** A finalized rewrite registers the revision it replaced. */
  function FinishStep(s: State, f: nat): State {
    var phase := PhaseOf(s, f);
    if !phase.Published? || phase.session.id.None? || AttachedAt(s, phase.session.pos) != Some(phase.id) then s
    else if phase.session.head.None?
            || phase.session.head.value.revision == phase.next.revision then SetPhase(s, f, Idle)
    else SetPhase(s, f, Idle).(retired := s.retired + {(phase.id, phase.session.head.value.revision)})
  }

  function Step(s: State, e: Event): State {
    match e
    case Open(f, pos) => OpenStep(s, f, pos)
    case Propose(f, size) => ProposeStep(s, f, size)
    case Learn(f) => LearnStep(s, f)
    case Abandon(f) => SetPhase(s, f, Idle)
    case Attach(f) => AttachStep(s, f, false)
    case SendAttach(f) => AttachStep(s, f, true)
    case Finish(f) => FinishStep(s, f)
    case Land(c) =>
      if c in s.flights && HeadOf(s, c.id) == c.expected
      then s.(heads := s.heads[c.id := c.next], published := s.published + {(c.id, c.next.revision)},
              flights := s.flights - {c})
      else s
    case Lose(c) => s.(flights := s.flights - {c})
    case LandAttach(pos, id) =>
      if (pos, id) in s.attaches && pos !in s.attached
      then s.(attached := s.attached[pos := id], attaches := s.attaches - {(pos, id)}) else s
    case Clamp(id, prefix) =>
      if id in s.heads && prefix < s.heads[id].size && ValidHead(s.heads[id])
      then s.(flights := s.flights + {Cas(id, Some(s.heads[id]), Head(s.heads[id].revision, prefix))}) else s
    case Detach(pos) =>
      if pos !in s.attached then s
      else s.(attached := s.attached - {pos}, detached := s.detached + {s.attached[pos]},
           queue := s.queue + {(pos, s.attached[pos])})
    case Enqueue(pos) => if pos in s.attached then s.(queue := s.queue + {(pos, s.attached[pos])}) else s
    case CheckRevision(id, r) =>
      if (id, r) in s.retired && (id !in s.heads || s.heads[id].revision != r) then s.(doomed := s.doomed + {(id, r)})
      else s
    case DeleteRevision(id, r) => if (id, r) in s.doomed then s.(objects := s.objects - {(id, r)}) else s
    case CheckDetached(pos, id) =>
      if (pos, id) in s.queue && AttachedAt(s, pos) != Some(id) then s.(condemned := s.condemned + {id}) else s
    case DeleteObject(id, r) => if id in s.condemned then s.(objects := s.objects - {(id, r)}) else s
    case EraseHead(id) => if id in s.condemned then s.(heads := s.heads - {id}) else s
  }

  function After(events: seq<Event>): State {
    if events == [] then INITIAL else Step(After(events[..|events| - 1]), events[|events| - 1])
  }

  const INITIAL := State(map[], map[], map[], {}, 1, map[], {}, {}, map[], {}, {}, {}, {}, {})

  // ---- The invariant ----

  type Heads = map<nat, Head>
  type Keys = set<(nat, nat)>

  predicate Stored(objects: map<(nat, nat), nat>, id: nat, h: Head) {
    (id, h.revision) in objects && h.size <= objects[(id, h.revision)]
  }

  /** Every head that may still be reached has its object. */
  ghost predicate HeadsStored(heads: Heads, objects: map<(nat, nat), nat>, detached: set<nat>) {
    forall id :: id in heads && id !in detached ==> Stored(objects, id, heads[id])
  }

  /** Attached identities have heads, are live and are attached once. */
  ghost predicate AttachedLive(attached: map<nat, nat>, heads: Heads, detached: set<nat>) {
    && (forall p :: p in attached ==> attached[p] in heads && attached[p] !in detached)
    && (forall p, q :: p in attached && q in attached && attached[p] == attached[q] ==> p == q)
  }

  /** A live identity's head is at least as new as anything it ever was. */
  ghost predicate Forward(heads: Heads, published: Keys, detached: set<nat>) {
    && (forall id :: id in heads ==> (id, heads[id].revision) in published)
    && (forall id, r :: (id, r) in published && id !in detached ==> id in heads && r <= heads[id].revision)
  }

  function Last(revisions: map<nat, nat>, id: nat): nat { if id in revisions then revisions[id] else 0 }

  /** Numbers below the counters are the only ones in use. */
  ghost predicate Counted(published: Keys, flights: set<Cas>, detached: set<nat>, revisions: map<nat, nat>,
                          nextId: nat) {
    && (forall id, r :: (id, r) in published ==> 0 < r <= Last(revisions, id) && id < nextId)
    && (forall c :: c in flights ==> c.next.revision <= Last(revisions, c.id) && c.id < nextId)
    && (forall id :: id in detached ==> id < nextId)
  }

  predicate Rewrites(c: Cas) { c.expected.None? || c.expected.value.revision != c.next.revision }

  predicate Same(c: Cas, d: Cas) { Rewrites(c) && Rewrites(d) && c.id == d.id && c.next.revision == d.next.revision }

  /** A rewriting exchange carries a stored revision that nobody published. */
  ghost predicate FlightOk(c: Cas, published: Keys, objects: map<(nat, nat), nat>, detached: set<nat>) {
    && ValidTransition(c.expected, c.next)
    && (Rewrites(c) ==> (c.id, c.next.revision) !in published && (c.id in detached || Stored(objects, c.id, c.next)))
  }

  ghost predicate FlightsOk(flights: set<Cas>, published: Keys, objects: map<(nat, nat), nat>, detached: set<nat>) {
    && (forall c :: c in flights ==> FlightOk(c, published, objects, detached))
    && (forall c, d :: c in flights && d in flights && Same(c, d) ==> c == d)
  }

  /** A registered revision is behind its head for good. */
  ghost predicate RetiredBehind(doomed: Keys, retired: Keys, published: Keys, detached: set<nat>, heads: Heads) {
    && doomed <= retired
    && forall id, r :: (id, r) in retired ==>
                         (id, r) in published && (id in detached || (id in heads && r < heads[id].revision))
  }

  function At(attached: map<nat, nat>, pos: nat): Option<nat> { if pos in attached then Some(attached[pos]) else None }

  /** A queued identity is where it was queued, or was detached; a condemned one was. */
  ghost predicate QueueOk(condemned: set<nat>, queue: Keys, detached: set<nat>, attached: map<nat, nat>) {
    && condemned <= detached
    && forall p, id :: (p, id) in queue ==> id in detached || At(attached, p) == Some(id)
  }

  /** The identity a flush made for itself and has not attached. */
  function Own(phase: Phase): Option<nat> {
    match phase
    case Proposed(session, id, _) => if session.id.None? then Some(id) else None
    case Published(session, id, _) => if session.id.None? then Some(id) else None
    case _ => None
  }

  ghost predicate Unattached(id: nat, attached: map<nat, nat>, detached: set<nat>, nextId: nat) {
    id !in detached && id < nextId && forall p :: p in attached ==> attached[p] != id
  }

  ghost predicate OwnUnattached(phases: map<nat, Phase>, attached: map<nat, nat>, detached: set<nat>, nextId: nat) {
    forall f :: f in phases && Own(phases[f]).Some? ==> Unattached(Own(phases[f]).value, attached, detached, nextId)
  }

  ghost predicate OwnDistinct(phases: map<nat, Phase>) {
    forall f, g :: f in phases && g in phases && f != g && Own(phases[f]).Some? ==> Own(phases[f]) != Own(phases[g])
  }

  ghost predicate AttachesOk(attaches: Keys, attached: map<nat, nat>, detached: set<nat>, nextId: nat, heads: Heads) {
    && (forall a :: a in attaches ==> Unattached(a.1, attached, detached, nextId) && a.1 in heads)
    && (forall a, b :: a in attaches && b in attaches && a.1 == b.1 ==> a == b)
  }

  ghost predicate AttachesDistinct(attaches: Keys, phases: map<nat, Phase>) {
    forall a, f :: a in attaches && f in phases ==> Own(phases[f]) != Some(a.1)
  }

  ghost predicate SessionOk(session: Session, published: Keys) {
    && session.id.Some? == session.head.Some?
    && (session.id.Some? ==> (session.id.value, session.head.value.revision) in published)
  }

  ghost predicate NextOk(session: Session, id: nat, next: Head) {
    && (session.id.Some? ==> session.id.value == id)
    && (session.head.Some? ==> session.head.value.revision < next.revision)
  }

  ghost predicate PhaseOk(phase: Phase, published: Keys) {
    match phase
    case Idle => true
    case Started(session) => SessionOk(session, published)
    case Proposed(session, id, next) => SessionOk(session, published) && NextOk(session, id, next)
    case Published(session, id, next) => SessionOk(session, published) && NextOk(session, id, next)
                                         && (id, next.revision) in published
  }

  ghost predicate PhasesOk(phases: map<nat, Phase>, published: Keys) {
    forall f :: f in phases ==> PhaseOk(phases[f], published)
  }

  ghost predicate Inv(s: State) {
    && HeadsStored(s.heads, s.objects, s.detached)
    && AttachedLive(s.attached, s.heads, s.detached)
    && Forward(s.heads, s.published, s.detached)
    && Counted(s.published, s.flights, s.detached, s.revisions, s.nextId)
    && FlightsOk(s.flights, s.published, s.objects, s.detached)
    && RetiredBehind(s.doomed, s.retired, s.published, s.detached, s.heads)
    && QueueOk(s.condemned, s.queue, s.detached, s.attached)
    && OwnUnattached(s.phases, s.attached, s.detached, s.nextId) && OwnDistinct(s.phases)
    && AttachesOk(s.attaches, s.attached, s.detached, s.nextId, s.heads) && AttachesDistinct(s.attaches, s.phases)
    && PhasesOk(s.phases, s.published)
  }

  // ---- Every step keeps it ----

  /** A phase that owns nothing new. */
  lemma PhaseKeeps(s: State, f: nat, phase: Phase)
    requires Inv(s) && PhaseOk(phase, s.published) && (Own(phase).None? || Own(phase) == Own(PhaseOf(s, f)))
    ensures Inv(SetPhase(s, f, phase))
  {
    hide HeadsStored, AttachedLive, Forward, Counted, FlightsOk, RetiredBehind, QueueOk, AttachesOk, Unattached,
      PhaseOk;
  }

  lemma OpenKeeps(s: State, f: nat, pos: nat)
    requires Inv(s)
    ensures Inv(OpenStep(s, f, pos))
  {
    var id := AttachedAt(s, pos);
    if PhaseOf(s, f) == Idle && (id.None? || id.value in s.heads) {
      var session := if id.None? then Session(pos, None, None) else Session(pos, id, Some(s.heads[id.value]));
      PhaseKeeps(s, f, Started(session));
    }
  }

  lemma LearnKeeps(s: State, f: nat)
    requires Inv(s)
    ensures Inv(LearnStep(s, f))
  {
    var phase := PhaseOf(s, f);
    if phase.Proposed? && (phase.id, phase.next.revision) in s.published {
      assert PhaseOk(phase, s.published);
      PhaseKeeps(s, f, Published(phase.session, phase.id, phase.next));
    }
  }

  /** The new revision's object is under a key that no head and no exchange uses. */
  lemma ProposeStores(s: State, id: nat, expected: Option<Head>, next: Head)
    requires Inv(s) && next.revision == Last(s.revisions, id) + 1 && ValidTransition(expected, next)
    requires Rewrites(Cas(id, expected, next))
    ensures HeadsStored(s.heads, s.objects[(id, next.revision) := next.size], s.detached)
    ensures FlightsOk(s.flights + {Cas(id, expected, next)}, s.published, s.objects[(id, next.revision) := next.size],
                      s.detached)
  {
    hide AttachedLive, RetiredBehind, QueueOk, OwnUnattached, OwnDistinct, AttachesOk, AttachesDistinct, PhasesOk;
    var objects, c := s.objects[(id, next.revision) := next.size], Cas(id, expected, next);
    forall d | d in s.flights ensures FlightOk(d, s.published, objects, s.detached) && !Same(c, d) {
      assert FlightOk(d, s.published, s.objects, s.detached);
    }
    assert FlightOk(c, s.published, objects, s.detached);
  }

  lemma ProposeCounts(s: State, id: nat, expected: Option<Head>, next: Head, nextId: nat)
    requires Inv(s) && next.revision == Last(s.revisions, id) + 1 && s.nextId <= nextId && id < nextId
    ensures Counted(s.published, s.flights + {Cas(id, expected, next)}, s.detached, s.revisions[id := next.revision],
                    nextId)
    ensures AttachesOk(s.attaches, s.attached, s.detached, nextId, s.heads)
    ensures OwnUnattached(s.phases, s.attached, s.detached, nextId)
  {
    hide HeadsStored, AttachedLive, Forward, FlightsOk, RetiredBehind, QueueOk, OwnDistinct, AttachesDistinct, PhasesOk;
  }

  /** A fresh identity is owned by no other flush and attached nowhere. */
  lemma ProposeOwns(s: State, f: nat, phase: Phase, nextId: nat)
    requires Inv(s) && s.nextId <= nextId && PhaseOk(phase, s.published)
    requires Own(phase).Some? ==> Own(phase) == Some(s.nextId) && s.nextId < nextId
    ensures OwnUnattached(s.phases[f := phase], s.attached, s.detached, nextId) && OwnDistinct(s.phases[f := phase])
    ensures AttachesDistinct(s.attaches, s.phases[f := phase]) && PhasesOk(s.phases[f := phase], s.published)
  {
    hide HeadsStored, FlightsOk, RetiredBehind, QueueOk, PhaseOk;
    assert Unattached(s.nextId, s.attached, s.detached, s.nextId + 1) by {
      forall p | p in s.attached ensures s.attached[p] < s.nextId {
        var id := s.attached[p];
        assert (id, s.heads[id].revision) in s.published;
      }
    }
    assert forall g :: g in s.phases && Own(s.phases[g]).Some? ==> Own(s.phases[g]).value < s.nextId;
  }

  lemma PhaseHolds(s: State, f: nat)
    requires Inv(s)
    ensures PhaseOk(PhaseOf(s, f), s.published)
  {
  }

  lemma ProposeKeeps(s: State, f: nat, size: nat)
    requires Inv(s)
    ensures Inv(ProposeStep(s, f, size))
  {
    hide HeadsStored, AttachedLive, Forward, Counted, FlightsOk, RetiredBehind, QueueOk, OwnUnattached, OwnDistinct,
      AttachesOk, AttachesDistinct, PhasesOk;
    PhaseHolds(s, f);
    if PhaseOf(s, f).Started? {
      var session := PhaseOf(s, f).session;
      var id := if session.id.Some? then session.id.value else s.nextId;
      var next := Head(LastRevision(s, id) + 1, size);
      if ValidTransition(session.head, next) {
        var nextId := if session.id.Some? then s.nextId else s.nextId + 1;
        StartedBehind(s, session, id, next);
        ProposeStores(s, id, session.head, next);
        ProposeCounts(s, id, session.head, next, nextId);
        ProposeOwns(s, f, Proposed(session, id, next), nextId);
      }
    }
  }

  lemma StartedBehind(s: State, session: Session, id: nat, next: Head)
    requires Inv(s) && SessionOk(session, s.published) && next.revision == Last(s.revisions, id) + 1
    requires id == if session.id.Some? then session.id.value else s.nextId
    ensures NextOk(session, id, next) && Rewrites(Cas(id, session.head, next)) && (session.id.Some? ==> id < s.nextId)
  {
    hide HeadsStored, AttachedLive, Forward, FlightsOk, RetiredBehind, QueueOk, OwnUnattached, OwnDistinct, AttachesOk,
      AttachesDistinct, PhasesOk;
  }

  /** An identity attached nowhere is attached at a free position. */
  lemma AttachAt(s: State, pos: nat, id: nat)
    requires Inv(s) && pos !in s.attached && Unattached(id, s.attached, s.detached, s.nextId) && id in s.heads
    ensures AttachedLive(s.attached[pos := id], s.heads, s.detached)
    ensures QueueOk(s.condemned, s.queue, s.detached, s.attached[pos := id])
  {
    hide HeadsStored, Forward, Counted, FlightsOk, RetiredBehind, OwnUnattached, OwnDistinct, AttachesOk,
      AttachesDistinct, PhasesOk;
  }

  /** Its owner gives it up, so what others own or sent stays unattached. */
  lemma AttachOwned(s: State, f: nat, pos: nat, id: nat)
    requires Inv(s) && pos !in s.attached && Own(PhaseOf(s, f)) == Some(id)
    ensures OwnUnattached(s.phases[f := Idle], s.attached[pos := id], s.detached, s.nextId)
    ensures OwnDistinct(s.phases[f := Idle])
    ensures AttachesOk(s.attaches, s.attached[pos := id], s.detached, s.nextId, s.heads)
    ensures AttachesDistinct(s.attaches, s.phases[f := Idle]) && PhasesOk(s.phases[f := Idle], s.published)
  {
    hide HeadsStored, AttachedLive, Forward, Counted, FlightsOk, RetiredBehind, QueueOk;
    assert PhaseOk(Idle, s.published);
    hide PhaseOk;
  }

  lemma SendOwned(s: State, f: nat, pos: nat, id: nat)
    requires Inv(s) && Own(PhaseOf(s, f)) == Some(id) && id in s.heads
    ensures OwnUnattached(s.phases[f := Idle], s.attached, s.detached, s.nextId) && OwnDistinct(s.phases[f := Idle])
    ensures AttachesOk(s.attaches + {(pos, id)}, s.attached, s.detached, s.nextId, s.heads)
    ensures AttachesDistinct(s.attaches + {(pos, id)}, s.phases[f := Idle])
    ensures PhasesOk(s.phases[f := Idle], s.published)
  {
    hide HeadsStored, AttachedLive, Forward, Counted, FlightsOk, RetiredBehind, QueueOk;
    assert PhaseOk(Idle, s.published);
    hide PhaseOk;
  }

  /** What a flush published for itself has a head. */
  lemma OwnHeaded(s: State, f: nat)
    requires Inv(s) && PhaseOf(s, f).Published? && Own(PhaseOf(s, f)).Some?
    ensures PhaseOf(s, f).id in s.heads && Unattached(PhaseOf(s, f).id, s.attached, s.detached, s.nextId)
  {
    hide HeadsStored, AttachedLive, Counted, FlightsOk, RetiredBehind, QueueOk, OwnDistinct, AttachesOk,
      AttachesDistinct;
    assert PhaseOk(PhaseOf(s, f), s.published);
    assert Unattached(Own(PhaseOf(s, f)).value, s.attached, s.detached, s.nextId);
  }

  lemma AttachKeeps(s: State, f: nat, delayed: bool)
    requires Inv(s)
    ensures Inv(AttachStep(s, f, delayed))
  {
    hide HeadsStored, AttachedLive, Forward, Counted, FlightsOk, RetiredBehind, QueueOk, OwnUnattached, OwnDistinct,
      AttachesOk, AttachesDistinct, PhasesOk, Unattached;
    var phase := PhaseOf(s, f);
    if phase.Published? && phase.session.id.None? {
      OwnHeaded(s, f);
      if delayed {
        SendOwned(s, f, phase.session.pos, phase.id);
      } else if phase.session.pos !in s.attached {
        AttachAt(s, phase.session.pos, phase.id);
        AttachOwned(s, f, phase.session.pos, phase.id);
      }
    }
  }

  lemma LandAttachKeeps(s: State, pos: nat, id: nat)
    requires Inv(s) && (pos, id) in s.attaches && pos !in s.attached
    ensures Inv(s.(attached := s.attached[pos := id], attaches := s.attaches - {(pos, id)}))
  {
    assert Unattached(id, s.attached, s.detached, s.nextId) && id in s.heads;
    AttachAt(s, pos, id);
    hide HeadsStored, AttachedLive, Forward, Counted, FlightsOk, RetiredBehind, QueueOk, PhasesOk;
  }

  lemma FinishKeeps(s: State, f: nat)
    requires Inv(s)
    ensures Inv(FinishStep(s, f))
  {
    PhaseHolds(s, f);
    PhaseKeeps(s, f, Idle);
    var phase := PhaseOf(s, f);
    var t := FinishStep(s, f);
    if t.retired != s.retired {
      FinishRetires(s, phase);
      hide HeadsStored, AttachedLive, Forward, Counted, FlightsOk, RetiredBehind, QueueOk, OwnUnattached, OwnDistinct,
        AttachesOk, AttachesDistinct, PhasesOk;
    }
  }

  /** The replaced revision is behind the published one, which is no newer than the head. */
  lemma FinishRetires(s: State, phase: Phase)
    requires Inv(s) && phase.Published? && PhaseOk(phase, s.published) && phase.session.id.Some?
    requires AttachedAt(s, phase.session.pos) == Some(phase.id)
    ensures RetiredBehind(s.doomed, s.retired + {(phase.id, phase.session.head.value.revision)}, s.published,
                          s.detached, s.heads)
  {
    hide HeadsStored, Counted, FlightsOk, QueueOk, OwnUnattached, OwnDistinct, AttachesOk, AttachesDistinct, PhasesOk;
  }

  /** The head moves forward, or its visible prefix shrinks. */
  lemma LandHeads(s: State, c: Cas)
    requires Inv(s) && c in s.flights && HeadOf(s, c.id) == c.expected
    ensures HeadsStored(s.heads[c.id := c.next], s.objects, s.detached)
    ensures AttachedLive(s.attached, s.heads[c.id := c.next], s.detached)
    ensures Forward(s.heads[c.id := c.next], s.published + {(c.id, c.next.revision)}, s.detached)
    ensures RetiredBehind(s.doomed, s.retired, s.published + {(c.id, c.next.revision)}, s.detached,
                          s.heads[c.id := c.next])
  {
    hide Counted, QueueOk, OwnUnattached, OwnDistinct, AttachesOk, AttachesDistinct, PhasesOk;
    assert FlightOk(c, s.published, s.objects, s.detached);
    hide FlightsOk;
  }

  lemma LandFlights(s: State, c: Cas)
    requires Inv(s) && c in s.flights && HeadOf(s, c.id) == c.expected
    ensures Counted(s.published + {(c.id, c.next.revision)}, s.flights - {c}, s.detached, s.revisions, s.nextId)
    ensures FlightsOk(s.flights - {c}, s.published + {(c.id, c.next.revision)}, s.objects, s.detached)
  {
    hide HeadsStored, AttachedLive, RetiredBehind, QueueOk, OwnUnattached, OwnDistinct, AttachesOk, AttachesDistinct,
      PhasesOk;
    assert FlightOk(c, s.published, s.objects, s.detached);
    assert !Rewrites(c) ==> (c.id, c.next.revision) in s.published;
    forall d | d in s.flights - {c}
      ensures FlightOk(d, s.published + {(c.id, c.next.revision)}, s.objects, s.detached)
    {
      assert FlightOk(d, s.published, s.objects, s.detached) && !Same(c, d);
    }
  }

  lemma LandPhases(s: State, key: (nat, nat))
    requires PhasesOk(s.phases, s.published)
    ensures PhasesOk(s.phases, s.published + {key})
  {
    forall f | f in s.phases ensures PhaseOk(s.phases[f], s.published + {key}) {
      assert PhaseOk(s.phases[f], s.published);
    }
  }

  lemma LandKeeps(s: State, c: Cas)
    requires Inv(s) && c in s.flights && HeadOf(s, c.id) == c.expected
    ensures Inv(Step(s, Land(c)))
  {
    LandHeads(s, c);
    LandFlights(s, c);
    LandPhases(s, (c.id, c.next.revision));
    assert AttachesOk(s.attaches, s.attached, s.detached, s.nextId, s.heads[c.id := c.next]);
    hide HeadsStored, AttachedLive, Forward, Counted, FlightsOk, RetiredBehind, QueueOk, OwnUnattached, OwnDistinct,
      AttachesOk, AttachesDistinct, PhasesOk;
  }

  lemma LoseKeeps(s: State, c: Cas)
    requires Inv(s)
    ensures Inv(s.(flights := s.flights - {c}))
  {
    hide HeadsStored, AttachedLive, Forward, RetiredBehind, QueueOk, OwnUnattached, OwnDistinct, AttachesOk,
      AttachesDistinct, PhasesOk, FlightOk;
  }

  lemma ClampKeeps(s: State, id: nat, prefix: nat)
    requires Inv(s) && id in s.heads && prefix < s.heads[id].size && ValidHead(s.heads[id])
    ensures Inv(s.(flights := s.flights + {Cas(id, Some(s.heads[id]), Head(s.heads[id].revision, prefix))}))
  {
    hide HeadsStored, AttachedLive, RetiredBehind, QueueOk, OwnUnattached, OwnDistinct, AttachesOk, AttachesDistinct,
      PhasesOk;
    assert (id, s.heads[id].revision) in s.published;
  }

  lemma DetachLive(s: State, pos: nat)
    requires Inv(s) && pos in s.attached
    ensures AttachedLive(s.attached - {pos}, s.heads, s.detached + {s.attached[pos]})
    ensures QueueOk(s.condemned, s.queue + {(pos, s.attached[pos])}, s.detached + {s.attached[pos]}, s.attached - {pos})
    ensures OwnUnattached(s.phases, s.attached - {pos}, s.detached + {s.attached[pos]}, s.nextId)
    ensures AttachesOk(s.attaches, s.attached - {pos}, s.detached + {s.attached[pos]}, s.nextId, s.heads)
  {
    hide HeadsStored, Forward, Counted, FlightsOk, RetiredBehind, OwnDistinct, AttachesDistinct, PhasesOk;
  }

  /** Fewer identities are reachable, so less is asked. */
  lemma DetachRelaxes(s: State, id: nat)
    requires Inv(s) && id in s.heads
    ensures HeadsStored(s.heads, s.objects, s.detached + {id}) && Forward(s.heads, s.published, s.detached + {id})
    ensures Counted(s.published, s.flights, s.detached + {id}, s.revisions, s.nextId)
    ensures FlightsOk(s.flights, s.published, s.objects, s.detached + {id})
    ensures RetiredBehind(s.doomed, s.retired, s.published, s.detached + {id}, s.heads)
  {
    hide AttachedLive, QueueOk, OwnUnattached, OwnDistinct, AttachesOk, AttachesDistinct, PhasesOk;
    assert (id, s.heads[id].revision) in s.published;
  }

  lemma DetachKeeps(s: State, pos: nat)
    requires Inv(s) && pos in s.attached
    ensures Inv(Step(s, Detach(pos)))
  {
    assert s.attached[pos] in s.heads;
    DetachLive(s, pos);
    DetachRelaxes(s, s.attached[pos]);
    hide HeadsStored, AttachedLive, Forward, Counted, FlightsOk, RetiredBehind, QueueOk, OwnUnattached, OwnDistinct,
      AttachesOk, AttachesDistinct, PhasesOk;
  }

  lemma EnqueueKeeps(s: State, pos: nat)
    requires Inv(s) && pos in s.attached
    ensures Inv(s.(queue := s.queue + {(pos, s.attached[pos])}))
  {
    hide HeadsStored, AttachedLive, Forward, Counted, FlightsOk, RetiredBehind, OwnUnattached, OwnDistinct, AttachesOk,
      AttachesDistinct, PhasesOk;
  }

  /** An object that is neither a live head's nor an exchange's may go. */
  lemma DropKeeps(s: State, id: nat, r: nat)
    requires Inv(s) && (id in s.detached || (id, r) in s.retired)
    ensures Inv(s.(objects := s.objects - {(id, r)}))
  {
    hide AttachedLive, Forward, Counted, QueueOk, OwnUnattached, OwnDistinct, AttachesOk, AttachesDistinct, PhasesOk;
    var objects := s.objects - {(id, r)};
    forall c | c in s.flights ensures FlightOk(c, s.published, objects, s.detached) {
      assert FlightOk(c, s.published, s.objects, s.detached);
    }
  }

  lemma EraseKeeps(s: State, id: nat)
    requires Inv(s) && id in s.detached
    ensures Inv(s.(heads := s.heads - {id}))
  {
    hide Counted, FlightsOk, QueueOk, OwnUnattached, OwnDistinct, AttachesDistinct, PhasesOk;
  }

  lemma CheckKeeps(s: State, e: Event)
    requires Inv(s) && (e.CheckRevision? || e.CheckDetached?)
    ensures Inv(Step(s, e))
  {
    hide HeadsStored, AttachedLive, Forward, Counted, FlightsOk, OwnUnattached, OwnDistinct, AttachesOk,
      AttachesDistinct, PhasesOk;
  }

  lemma StepKeeps(s: State, e: Event)
    requires Inv(s)
    ensures Inv(Step(s, e))
  {
    hide Inv, OpenStep, ProposeStep, LearnStep, AttachStep, FinishStep;
    match e {
      case Open(f, pos) => OpenKeeps(s, f, pos);
      case Propose(f, size) => ProposeKeeps(s, f, size);
      case Learn(f) => LearnKeeps(s, f);
      case Abandon(f) => PhaseKeeps(s, f, Idle);
      case Attach(f) => AttachKeeps(s, f, false);
      case SendAttach(f) => AttachKeeps(s, f, true);
      case Finish(f) => FinishKeeps(s, f);
      case Land(c) => if c in s.flights && HeadOf(s, c.id) == c.expected { LandKeeps(s, c); }
      case Lose(c) => LoseKeeps(s, c);
      case LandAttach(pos, id) => if (pos, id) in s.attaches && pos !in s.attached { LandAttachKeeps(s, pos, id); }
      case Clamp(id, prefix) => if id in s.heads && prefix < s.heads[id].size
                                   && ValidHead(s.heads[id]) { ClampKeeps(s, id, prefix); }
      case Detach(pos) => if pos in s.attached { DetachKeeps(s, pos); }
      case Enqueue(pos) => if pos in s.attached { EnqueueKeeps(s, pos); }
      case CheckRevision(_, _) => CheckKeeps(s, e);
      case DeleteRevision(id, r) => if (id, r) in s.doomed { DoomedRetired(s, id, r); DropKeeps(s, id, r); }
      case CheckDetached(_, _) => CheckKeeps(s, e);
      case DeleteObject(id, r) => if id in s.condemned { CondemnedDetached(s, id); DropKeeps(s, id, r); }
      case EraseHead(id) => if id in s.condemned { CondemnedDetached(s, id); EraseKeeps(s, id); }
    }
  }

  lemma DoomedRetired(s: State, id: nat, r: nat)
    requires Inv(s) && (id, r) in s.doomed
    ensures (id, r) in s.retired
  {
  }

  lemma CondemnedDetached(s: State, id: nat)
    requires Inv(s) && id in s.condemned
    ensures id in s.detached
  {
  }

  // ---- Every run ----

  lemma {:induction false} AfterKeeps(events: seq<Event>)
    ensures Inv(After(events))
    decreases |events|
  {
    if events != [] {
      AfterKeeps(events[..|events| - 1]);
      StepKeeps(After(events[..|events| - 1]), events[|events| - 1]);
    }
  }

  /**
   In every reachable state every attached identity has a head, and the immutable object the
   head names exists and is at least as long as the head says.
   */
  lemma AttachedReadable(events: seq<Event>, pos: nat)
    ensures var s := After(events);
            pos in s.attached ==>
              && s.attached[pos] in s.heads
              && var h := s.heads[s.attached[pos]];
              (s.attached[pos], h.revision) in s.objects && h.size <= s.objects[(s.attached[pos], h.revision)]
  {
    AfterKeeps(events);
    var s := After(events);
    if pos in s.attached {
      assert Stored(s.objects, s.attached[pos], s.heads[s.attached[pos]]);
    }
  }

  /** A head never goes back: its revision never falls, and under one revision its prefix only shrinks. */
  lemma HeadsForward(events: seq<Event>, e: Event, id: nat)
    ensures var s, t := After(events), Step(After(events), e);
            id in s.heads && id in t.heads ==>
              && s.heads[id].revision <= t.heads[id].revision
              && (t.heads[id].revision == s.heads[id].revision ==> t.heads[id].size <= s.heads[id].size)
  {
    AfterKeeps(events);
    var s := After(events);
    hide After;
    if e.Land? {
      if e.cas in s.flights && HeadOf(s, e.cas.id) == e.cas.expected {
        assert FlightOk(e.cas, s.published, s.objects, s.detached);
      }
    } else if id in s.heads && id in Step(s, e).heads {
      OnlyLandMoves(s, e, id);
    }
  }

  lemma OnlyLandMoves(s: State, e: Event, id: nat)
    requires !e.Land? && id in s.heads && id in Step(s, e).heads
    ensures Step(s, e).heads[id] == s.heads[id]
  {
  }

  lemma StepDetached(s: State, e: Event)
    ensures s.detached <= Step(s, e).detached
  {
  }

  lemma {:induction false} DetachedStays(events: seq<Event>, more: seq<Event>, id: nat)
    requires id in After(events).detached
    ensures id in After(events + more).detached
    decreases |more|
  {
    if more == [] {
      assert events + more == events;
    } else {
      var front := more[..|more| - 1];
      DetachedStays(events, front, id);
      assert (events + more)[..|events + more| - 1] == events + front;
      hide Step;
      StepDetached(After(events + front), more[|more| - 1]);
    }
  }

  /** An identity that was detached is attached nowhere ever again, although lost attaches may still arrive. */
  lemma NeverReattached(events: seq<Event>, more: seq<Event>, id: nat, pos: nat)
    requires id in After(events).detached
    ensures pos in After(events + more).attached ==> After(events + more).attached[pos] != id
  {
    DetachedStays(events, more, id);
    AfterKeeps(events + more);
  }
}
