/**
 What copy-on-write heads show, over every run: a published revision had its whole generation
 visible, and only clamps shorten it.
 */
module CowContents {
  import opened Common
  import opened CowHeads

  function StateAt(events: seq<Event>, n: nat): State
    requires n <= |events|
  {
    After(events[..n])
  }

  lemma StateNext(events: seq<Event>, n: nat)
    requires n < |events|
    ensures StateAt(events, n + 1) == Step(StateAt(events, n), events[n])
    ensures Inv(StateAt(events, n)) && Inv(StateAt(events, n + 1))
  {
    hide Step, Inv;
    assert events[..n + 1][..n] == events[..n];
    AfterKeeps(events[..n]);
    AfterKeeps(events[..n + 1]);
  }

  lemma StateZero(events: seq<Event>)
    ensures StateAt(events, 0) == INITIAL
  {
  }

  /** Event `m` proposes a generation of `size` bytes as revision `r` of the identity. */
  ghost predicate Proposes(events: seq<Event>, m: nat, f: nat, id: nat, r: nat, size: nat) {
    && m < |events| && events[m] == Propose(f, size) && PhaseOf(StateAt(events, m), f).Started?
    && var phase := PhaseOf(StateAt(events, m + 1), f);
    phase.Proposed? && phase.id == id && phase.next.revision == r
  }

  ghost predicate Origin(events: seq<Event>, n: nat, id: nat, r: nat, size: nat) {
    exists m: nat, f: nat :: m < n && Proposes(events, m, f, id, r, size)
  }

  /** Event `k` clamps the head it finds, of revision `r`, to a shorter prefix. */
  ghost predicate Clamps(events: seq<Event>, k: nat, id: nat, r: nat, prefix: nat) {
    && k < |events| && events[k] == Clamp(id, prefix)
    && var h := HeadOf(StateAt(events, k), id);
    h.Some? && h.value.revision == r && prefix < h.value.size
  }

  ghost predicate Clamped(events: seq<Event>, n: nat, id: nat, r: nat, prefix: nat) {
    exists k: nat :: k < n && Clamps(events, k, id, r, prefix)
  }

  lemma RevisionsGrow(s: State, e: Event, id: nat)
    ensures Last(s.revisions, id) <= Last(Step(s, e).revisions, id)
  {
  }

  lemma {:induction false} RevisionsForward(events: seq<Event>, m: nat, n: nat, id: nat)
    requires m <= n <= |events|
    ensures Last(StateAt(events, m).revisions, id) <= Last(StateAt(events, n).revisions, id)
    decreases n
  {
    hide Step, StateAt, Inv;
    if m < n {
      RevisionsForward(events, m, n - 1, id);
      StateNext(events, n - 1);
      RevisionsGrow(StateAt(events, n - 1), events[n - 1], id);
    }
  }

  lemma ProposeAllocates(s: State, f: nat, size: nat)
    requires PhaseOf(s, f).Started? && PhaseOf(Step(s, Propose(f, size)), f).Proposed?
    ensures var t := Step(s, Propose(f, size));
            var phase := PhaseOf(t, f);
            Last(s.revisions, phase.id) < phase.next.revision == Last(t.revisions, phase.id)
  {
  }

  lemma ProposesAllocates(events: seq<Event>, m: nat, f: nat, id: nat, r: nat, size: nat)
    requires Proposes(events, m, f, id, r, size)
    ensures m < |events| && events[m] == Propose(f, size)
    ensures Last(StateAt(events, m).revisions, id) < r == Last(StateAt(events, m + 1).revisions, id)
  {
    hide StateAt, Step, Inv;
    StateNext(events, m);
    ProposeAllocates(StateAt(events, m), f, size);
  }

  /** A revision is allocated once, so it is proposed once. */
  lemma ProposedOnce(events: seq<Event>, m: nat, f: nat, k: nat, g: nat, id: nat, r: nat, size: nat, other: nat)
    requires Proposes(events, m, f, id, r, size) && Proposes(events, k, g, id, r, other)
    ensures m == k && f == g && size == other
  {
    hide StateAt, Proposes;
    ProposesAllocates(events, m, f, id, r, size);
    ProposesAllocates(events, k, g, id, r, other);
    if m < k {
      RevisionsForward(events, m + 1, k, id);
    } else if k < m {
      RevisionsForward(events, k + 1, m, id);
    }
  }

  lemma OriginUnique(events: seq<Event>, n: nat, id: nat, r: nat, size: nat, other: nat)
    requires n <= |events| && Origin(events, n, id, r, size) && Origin(events, n, id, r, other)
    ensures size == other
  {
    hide Proposes;
    var m: nat, f: nat :| m < n && Proposes(events, m, f, id, r, size);
    OriginSame(events, m, n, f, id, r, size, other);
  }

  /** Where a new exchange comes from. */
  lemma NewFlight(s: State, e: Event, c: Cas)
    requires Inv(s) && c in Step(s, e).flights && c !in s.flights
    ensures if Rewrites(c)
            then && e.Propose? && c.next.size == e.size && PhaseOf(s, e.flush).Started?
                 && var phase := PhaseOf(Step(s, e), e.flush);
                 phase.Proposed? && phase.id == c.id && phase.next.revision == c.next.revision
            else && e == Clamp(c.id, c.next.size) && c.expected == HeadOf(s, c.id) && c.expected.Some?
                 && c.next.size < c.expected.value.size && c.next.revision == c.expected.value.revision
  {
    hide HeadsStored, AttachedLive, Forward, FlightsOk, RetiredBehind, QueueOk, OwnUnattached, OwnDistinct, AttachesOk,
      AttachesDistinct, Counted;
    if e.Propose? {
      PhaseHolds(s, e.flush);
      var session := PhaseOf(s, e.flush).session;
      var id := if session.id.Some? then session.id.value else s.nextId;
      StartedBehind(s, session, id, Head(LastRevision(s, id) + 1, e.size));
    }
  }

  lemma NewObject(s: State, e: Event, key: (nat, nat))
    requires key in Step(s, e).objects && !(key in s.objects && s.objects[key] == Step(s, e).objects[key])
    ensures && e.Propose? && Step(s, e).objects[key] == e.size && PhaseOf(s, e.flush).Started?
            && var phase := PhaseOf(Step(s, e), e.flush);
            phase.Proposed? && phase.id == key.0 && phase.next.revision == key.1
  {
  }

  /** Every exchange under way is some flush's proposal or some clamp's. */
  ghost predicate FlightsFrom(events: seq<Event>, n: nat)
    requires n <= |events|
  {
    forall c :: c in StateAt(events, n).flights ==>
                  if Rewrites(c) then Origin(events, n, c.id, c.next.revision, c.next.size)
                  else Clamped(events, n, c.id, c.next.revision, c.next.size)
  }

  /** Every object holds the generation it was proposed with. */
  ghost predicate ObjectsFrom(events: seq<Event>, n: nat)
    requires n <= |events|
  {
    forall key :: key in StateAt(events, n).objects ==> Origin(events, n, key.0, key.1, StateAt(events, n).objects[key])
  }

  lemma OriginLater(events: seq<Event>, n: nat, id: nat, r: nat, size: nat)
    requires Origin(events, n, id, r, size)
    ensures Origin(events, n + 1, id, r, size)
  {
    hide Proposes;
  }

  lemma ClampedLater(events: seq<Event>, n: nat, id: nat, r: nat, prefix: nat)
    requires Clamped(events, n, id, r, prefix)
    ensures Clamped(events, n + 1, id, r, prefix)
  {
    hide Clamps;
  }

  lemma FlightsStep(events: seq<Event>, n: nat)
    requires n < |events| && FlightsFrom(events, n)
    ensures FlightsFrom(events, n + 1)
  {
    StateNext(events, n);
    var s, e := StateAt(events, n), events[n];
    hide StateAt, Step, Origin, Clamped, Inv;
    forall c | c in StateAt(events, n + 1).flights
      ensures if Rewrites(c) then Origin(events, n + 1, c.id, c.next.revision, c.next.size)
              else Clamped(events, n + 1, c.id, c.next.revision, c.next.size)
    {
      if c in s.flights {
        if Rewrites(c) {
          OriginLater(events, n, c.id, c.next.revision, c.next.size);
        } else {
          ClampedLater(events, n, c.id, c.next.revision, c.next.size);
        }
      } else {
        NewFlight(s, e, c);
        if Rewrites(c) {
          assert Proposes(events, n, e.flush, c.id, c.next.revision, c.next.size);
          OriginAt(events, n, e.flush, c.id, c.next.revision, c.next.size);
        } else {
          assert Clamps(events, n, c.id, c.next.revision, c.next.size);
          ClampedAt(events, n, c.id, c.next.revision, c.next.size);
        }
      }
    }
  }

  lemma OriginAt(events: seq<Event>, m: nat, f: nat, id: nat, r: nat, size: nat)
    requires Proposes(events, m, f, id, r, size)
    ensures Origin(events, m + 1, id, r, size)
  {
    hide Proposes;
  }

  lemma ClampedAt(events: seq<Event>, k: nat, id: nat, r: nat, prefix: nat)
    requires Clamps(events, k, id, r, prefix)
    ensures Clamped(events, k + 1, id, r, prefix)
  {
    hide Clamps;
  }

  lemma ObjectsStep(events: seq<Event>, n: nat)
    requires n < |events| && ObjectsFrom(events, n)
    ensures ObjectsFrom(events, n + 1)
  {
    StateNext(events, n);
    var s, t, e := StateAt(events, n), StateAt(events, n + 1), events[n];
    hide StateAt, Step, Origin, Inv;
    forall key | key in t.objects ensures Origin(events, n + 1, key.0, key.1, t.objects[key]) {
      if key in s.objects && s.objects[key] == t.objects[key] {
        OriginLater(events, n, key.0, key.1, t.objects[key]);
      } else {
        NewObject(s, e, key);
        assert Proposes(events, n, e.flush, key.0, key.1, t.objects[key]);
        OriginAt(events, n, e.flush, key.0, key.1, t.objects[key]);
      }
    }
  }

  lemma {:induction false} RunFrom(events: seq<Event>, n: nat)
    requires n <= |events|
    ensures FlightsFrom(events, n) && ObjectsFrom(events, n)
    decreases n
  {
    if n > 0 {
      RunFrom(events, n - 1);
      FlightsStep(events, n - 1);
      ObjectsStep(events, n - 1);
    }
  }

  /** In state `i` the revision was the head with the whole generation visible, over the whole object. */
  ghost predicate WholeAt(events: seq<Event>, i: nat, id: nat, r: nat, size: nat)
    requires i <= |events|
  {
    var s := StateAt(events, i);
    && HeadOf(s, id) == Some(Head(r, size))
    && (id in s.detached || ((id, r) in s.objects && s.objects[(id, r)] == size))
  }

  /** Every revision that was ever published had its whole generation visible at first. */
  lemma {:induction false} PublishedWhole(events: seq<Event>, n: nat, id: nat, r: nat) returns (i: nat, size: nat)
    requires n <= |events| && (id, r) in StateAt(events, n).published
    ensures i <= n && Origin(events, i, id, r, size) && WholeAt(events, i, id, r, size)
    decreases n
  {
    hide StateAt, Origin, Step, Inv;
    StateZero(events);
    assert n > 0;
    if (id, r) in StateAt(events, n - 1).published {
      i, size := PublishedWhole(events, n - 1, id, r);
    } else {
      StateNext(events, n - 1);
      RunFrom(events, n - 1);
      var s, e := StateAt(events, n - 1), events[n - 1];
      var c := NewPublished(s, e, id, r);
      i, size := n, c.next.size;
      OriginLater(events, n - 1, id, r, size);
      if id !in s.detached {
        OriginUnique(events, n - 1, id, r, size, s.objects[(id, r)]);
      }
      assert WholeAt(events, n, id, r, size);
    }
  }

  lemma NewPublished(s: State, e: Event, id: nat, r: nat) returns (c: Cas)
    requires Inv(s) && (id, r) in Step(s, e).published && (id, r) !in s.published
    ensures c in s.flights && Rewrites(c) && c.id == id && c.next.revision == r
    ensures var t := Step(s, e);
            HeadOf(t, id) == Some(c.next) && t.detached == s.detached && t.objects == s.objects
    ensures id in s.detached || (id, r) in s.objects
  {
    hide AttachedLive, Counted, RetiredBehind, QueueOk, OwnUnattached, OwnDistinct, AttachesOk, AttachesDistinct,
      PhasesOk, HeadsStored;
    c := e.cas;
    assert FlightOk(c, s.published, s.objects, s.detached);
    hide FlightsOk;
    assert forall j :: j in s.heads ==> (j, s.heads[j].revision) in s.published;
  }

  /** Since event `m` the flush has stood by the proposal it made there. */
  ghost predicate Stands(events: seq<Event>, m: nat, n: nat, f: nat, id: nat, next: Head)
    requires m < n <= |events|
  {
    forall k: nat :: m < k <= n ==> Offers(StateAt(events, k), f, id, next)
  }

  predicate Offers(s: State, f: nat, id: nat, next: Head) {
    var phase := PhaseOf(s, f);
    (phase.Proposed? || phase.Published?) && phase.id == id && phase.next == next
  }

  lemma StepOffers(s: State, e: Event, f: nat, id: nat, next: Head)
    requires Offers(Step(s, e), f, id, next)
    ensures Offers(s, f, id, next) || (e == Propose(f, next.size) && PhaseOf(s, f).Started?
                                       && PhaseOf(Step(s, e), f).Proposed?)
  {
  }

  lemma {:induction false} OfferFrom(events: seq<Event>, n: nat, f: nat, id: nat, next: Head) returns (m: nat)
    requires n <= |events| && Offers(StateAt(events, n), f, id, next)
    ensures m < n && Proposes(events, m, f, id, next.revision, next.size) && Stands(events, m, n, f, id, next)
    decreases n
  {
    hide StateAt, Step, Inv, Proposes;
    StateZero(events);
    assert n > 0;
    StateNext(events, n - 1);
    StepOffers(StateAt(events, n - 1), events[n - 1], f, id, next);
    hide Offers;
    if Offers(StateAt(events, n - 1), f, id, next) {
      m := OfferFrom(events, n - 1, f, id, next);
    } else {
      m := n - 1;
      OfferMade(events, m, f, id, next);
    }
  }

  lemma OfferMade(events: seq<Event>, m: nat, f: nat, id: nat, next: Head)
    requires m < |events| && events[m] == Propose(f, next.size) && PhaseOf(StateAt(events, m), f).Started?
    requires Offers(StateAt(events, m + 1), f, id, next) && PhaseOf(StateAt(events, m + 1), f).Proposed?
    ensures Proposes(events, m, f, id, next.revision, next.size) && Stands(events, m, m + 1, f, id, next)
  {
    hide StateAt;
  }

  /**
   What a flush published is what it flushed.  Since its last proposal, of a generation of some
   size, it has stood by it, and in some state since then the head was that revision with exactly
   that size, over an object of exactly that length unless the chunk was detached.
   */
  lemma FlushPublishes(events: seq<Event>, f: nat) returns (m: nat, i: nat)
    requires PhaseOf(After(events), f).Published?
    ensures var phase := PhaseOf(After(events), f);
            && m < i <= |events| && events[m].Propose? && events[m].flush == f
            && Stands(events, m, |events|, f, phase.id, Head(phase.next.revision, events[m].size))
            && WholeAt(events, i, phase.id, phase.next.revision, events[m].size)
  {
    hide StateAt, WholeAt, Stands, Proposes, Origin;
    var n, phase := |events|, PhaseOf(After(events), f);
    assert events[..n] == events;
    assert StateAt(events, n) == After(events) by { WholeRun(events); }
    AfterKeeps(events);
    PhaseHolds(After(events), f);
    m := OfferFrom(events, n, f, phase.id, phase.next);
    ProposesAllocates(events, m, f, phase.id, phase.next.revision, phase.next.size);
    var size;
    i, size := PublishedWhole(events, n, phase.id, phase.next.revision);
    OriginSame(events, m, i, f, phase.id, phase.next.revision, phase.next.size, size);
  }

  lemma WholeRun(events: seq<Event>)
    ensures StateAt(events, |events|) == After(events)
  {
    assert events[..|events|] == events;
  }

  lemma OriginSame(events: seq<Event>, m: nat, i: nat, f: nat, id: nat, r: nat, size: nat, other: nat)
    requires i <= |events| && Proposes(events, m, f, id, r, size) && Origin(events, i, id, r, other)
    ensures size == other && m < i
  {
    hide Proposes;
    var k: nat, g: nat :| k < i && Proposes(events, k, g, id, r, other);
    ProposedOnce(events, m, f, k, g, id, r, size, other);
  }

  /** Event `j` is the arrival of an exchange that shortens revision `r` of the identity to a prefix. */
  ghost predicate Shortens(events: seq<Event>, j: nat, id: nat, r: nat, prefix: nat) {
    && j < |events| && events[j].Land? && events[j].cas.id == id && events[j].cas.next == Head(r, prefix)
    && events[j].cas in StateAt(events, j).flights && events[j].cas.expected == HeadOf(StateAt(events, j), id)
    && events[j].cas.expected.Some? && events[j].cas.expected.value.revision == r
  }

  lemma {:induction false} HeadFrom(events: seq<Event>, n: nat, id: nat) returns (size: nat, j: nat)
    requires n <= |events| && id in StateAt(events, n).heads
    ensures var h := StateAt(events, n).heads[id];
            && Origin(events, n, id, h.revision, size) && h.size <= size
            && (h.size == size || (j < n && Shortens(events, j, id, h.revision, h.size)))
    decreases n
  {
    hide StateAt, Origin, Shortens, Step, Inv;
    StateZero(events);
    assert n > 0;
    StateNext(events, n - 1);
    RunFrom(events, n - 1);
    var s, e, h := StateAt(events, n - 1), events[n - 1], StateAt(events, n).heads[id];
    if HeadOf(s, id) == Some(h) {
      size, j := HeadFrom(events, n - 1, id);
    } else {
      var c := NewHead(s, e, id);
      size, j := h.size, n - 1;
      if !Rewrites(c) {
        var k;
        size, k := HeadFrom(events, n - 1, id);
        ShortensNow(events, n - 1, id, h);
      }
    }
    OriginLater(events, n - 1, id, h.revision, size);
  }

  lemma ShortensNow(events: seq<Event>, j: nat, id: nat, h: Head)
    requires j < |events| && events[j].Land? && events[j].cas.id == id && events[j].cas.next == h
    requires events[j].cas in StateAt(events, j).flights && !Rewrites(events[j].cas)
    requires events[j].cas.expected == HeadOf(StateAt(events, j), id)
    ensures Shortens(events, j, id, h.revision, h.size)
  {
    hide StateAt;
  }

  /** What arrives to shorten a head was asked for by a clamp that found that revision longer. */
  lemma ShortenedByClamp(events: seq<Event>, j: nat, id: nat, r: nat, prefix: nat)
    requires Shortens(events, j, id, r, prefix)
    ensures Clamped(events, j, id, r, prefix)
    ensures HeadOf(StateAt(events, j + 1), id) == Some(Head(r, prefix))
  {
    hide StateAt, Clamped, Inv;
    StateNext(events, j);
    RunFrom(events, j);
  }

  /**
   A head shows the whole generation its revision was proposed with if no clamp of that revision
   has arrived, and otherwise the shortest of the prefixes those clamps asked for.
   */
  lemma HeadSized(events: seq<Event>, id: nat) returns (size: nat)
    requires id in After(events).heads
    ensures var h := After(events).heads[id];
            && Origin(events, |events|, id, h.revision, size)
            && (h.size == size || exists j: nat :: Shortens(events, j, id, h.revision, h.size))
            && forall j: nat, prefix: nat :: Shortens(events, j, id, h.revision, prefix) ==>
                                               h.size <= prefix && Clamped(events, j, id, h.revision, prefix)
  {
    WholeRun(events);
    hide StateAt, Origin, Shortens, Clamped, After;
    var j, r := 0, After(events).heads[id].revision;
    size, j := HeadFrom(events, |events|, id);
    forall k: nat, prefix: nat | Shortens(events, k, id, r, prefix)
      ensures After(events).heads[id].size <= prefix && Clamped(events, k, id, r, prefix)
    {
      ShortenedByClamp(events, k, id, r, prefix);
      ShortensWithin(events, k, id, r, prefix);
      HeadShrinks(events, k + 1, |events|, id);
    }
  }

  /** The object under an attached head is the whole generation. */
  lemma AttachedWhole(events: seq<Event>, pos: nat) returns (size: nat)
    requires pos in After(events).attached
    ensures var s := After(events);
            && s.attached[pos] in s.heads
            && var id, r := s.attached[pos], s.heads[s.attached[pos]].revision;
            && Origin(events, |events|, id, r, size) && (id, r) in s.objects && s.objects[(id, r)] == size
  {
    WholeRun(events);
    AttachedReadable(events, pos);
    RunFrom(events, |events|);
    var s := After(events);
    size := s.objects[(s.attached[pos], s.heads[s.attached[pos]].revision)];
  }

  lemma ShortensWithin(events: seq<Event>, j: nat, id: nat, r: nat, prefix: nat)
    requires Shortens(events, j, id, r, prefix)
    ensures j < |events|
  {
  }

  lemma NewHead(s: State, e: Event, id: nat) returns (c: Cas)
    requires Inv(s) && id in Step(s, e).heads && HeadOf(s, id) != Some(Step(s, e).heads[id])
    ensures e == Land(c) && c in s.flights && c.id == id && Step(s, e).heads[id] == c.next
    ensures c.expected == HeadOf(s, id)
    ensures !Rewrites(c) ==> c.expected.value.revision == c.next.revision && c.next.size <= c.expected.value.size
  {
    hide HeadsStored, AttachedLive, Forward, Counted, RetiredBehind, QueueOk, OwnUnattached, OwnDistinct, AttachesOk,
      AttachesDistinct, PhasesOk;
    c := e.cas;
    assert FlightOk(c, s.published, s.objects, s.detached);
  }

  /** While a revision is the head its prefix only shrinks, so the smallest clamp that landed decides. */
  lemma {:induction false} HeadShrinks(events: seq<Event>, m: nat, n: nat, id: nat)
    requires m <= n <= |events| && id in StateAt(events, m).heads && id in StateAt(events, n).heads
    requires StateAt(events, m).heads[id].revision == StateAt(events, n).heads[id].revision
    ensures StateAt(events, n).heads[id].size <= StateAt(events, m).heads[id].size
    decreases n
  {
    hide StateAt, Step, Inv;
    if m < n {
      StateNext(events, n - 1);
      StillPublished(events, m, n - 1, id);
      var s, e, h := StateAt(events, n - 1), events[n - 1], StateAt(events, n).heads[id];
      if HeadOf(s, id) == Some(h) {
        HeadShrinks(events, m, n - 1, id);
      } else {
        var c := NewHead(s, e, id);
        PublishedOnce(s, c);
        HeadShrinks(events, m, n - 1, id);
      }
    }
  }

  lemma PublishedOnce(s: State, c: Cas)
    requires Inv(s) && c in s.flights && (c.id, c.next.revision) in s.published
    ensures !Rewrites(c)
  {
    assert FlightOk(c, s.published, s.objects, s.detached);
  }

  lemma StepPublished(s: State, e: Event)
    ensures s.published <= Step(s, e).published
  {
  }

  lemma {:induction false} StillPublished(events: seq<Event>, m: nat, n: nat, id: nat)
    requires m <= n <= |events| && id in StateAt(events, m).heads
    ensures (id, StateAt(events, m).heads[id].revision) in StateAt(events, n).published
    decreases n
  {
    hide StateAt, Step, Inv;
    if m < n {
      StillPublished(events, m, n - 1, id);
      StateNext(events, n - 1);
      StepPublished(StateAt(events, n - 1), events[n - 1]);
    } else {
      HeadsPublished(events, m, id);
    }
  }

  lemma HeadsPublished(events: seq<Event>, n: nat, id: nat)
    requires n <= |events| && id in StateAt(events, n).heads
    ensures (id, StateAt(events, n).heads[id].revision) in StateAt(events, n).published
  {
    hide Step, After;
    AfterKeeps(events[..n]);
  }

  // ---- Operations that nothing disturbs ----

  function Then(s: State, events: seq<Event>): State {
    if events == [] then s else Step(Then(s, events[..|events| - 1]), events[|events| - 1])
  }

  lemma ThenPush(s: State, events: seq<Event>, e: Event)
    ensures Then(s, events + [e]) == Step(Then(s, events), e)
  {
    assert (events + [e])[..|events|] == events;
  }

  lemma ThenTwo(s: State, a: Event, b: Event)
    ensures Then(s, [a, b]) == Step(Step(s, a), b)
  {
    hide Step;
    assert [] + [a] == [a] && [a] + [b] == [a, b];
    ThenPush(s, [], a);
    ThenPush(s, [a], b);
  }

  lemma ThenFive(s: State, a: Event, b: Event, c: Event, d: Event, e: Event)
    ensures Then(s, [a, b, c, d, e]) == Step(Step(Step(Step(Step(s, a), b), c), d), e)
  {
    hide Step;
    ThenTwo(s, a, b);
    assert [a, b] + [c] == [a, b, c] && [a, b, c] + [d] == [a, b, c, d] && [a, b, c, d] + [e] == [a, b, c, d, e];
    ThenPush(s, [a, b], c);
    ThenPush(s, [a, b, c], d);
    ThenPush(s, [a, b, c, d], e);
  }

  lemma FreshUnheaded(s: State)
    requires Inv(s)
    ensures s.nextId !in s.heads
  {
    hide HeadsStored, AttachedLive, FlightsOk, RetiredBehind, QueueOk, OwnUnattached, OwnDistinct, AttachesOk,
      AttachesDistinct, PhasesOk;
    assert forall id :: id in s.heads ==> (id, s.heads[id].revision) in s.published;
  }

  /** Opening a flush on an attachment and its head and proposing a generation. */
  lemma OpenPropose(s: State, f: nat, session: Session, id: nat, next: Head)
    requires PhaseOf(s, f) == Idle && session.id == AttachedAt(s, session.pos)
    requires id == (if session.id.Some? then session.id.value else s.nextId) && next.revision == LastRevision(s, id) + 1
    requires session.head.Some? == session.id.Some? && (session.head.Some? ==> HeadOf(s, id) == session.head)
    requires ValidTransition(session.head, next)
    ensures var t := Step(Step(s, Open(f, session.pos)), Propose(f, next.size));
            && t.phases == s.phases[f := Proposed(session, id, next)] && Cas(id, session.head, next) in t.flights
            && t.objects == s.objects[(id, next.revision) := next.size] && t.heads == s.heads
            && t.attached == s.attached && t.detached == s.detached && t.retired == s.retired
            && t.nextId == if session.id.Some? then s.nextId else s.nextId + 1
  {
    var s1 := Step(s, Open(f, session.pos));
    assert s1 == SetPhase(s, f, Started(session));
    assert s.phases[f := Started(session)][f := Proposed(session, id, next)]
        == s.phases[f := Proposed(session, id, next)];
  }

  /** The exchange is applied and the flush hears of it. */
  lemma LandLearn(s: State, f: nat, session: Session, c: Cas)
    requires PhaseOf(s, f) == Proposed(session, c.id, c.next) && c in s.flights && HeadOf(s, c.id) == c.expected
    ensures var t := Step(Step(s, Land(c)), Learn(f));
            && t.phases == s.phases[f := Published(session, c.id, c.next)] && t.heads == s.heads[c.id := c.next]
            && t.objects == s.objects && t.attached == s.attached && t.detached == s.detached
            && t.retired == s.retired && t.nextId == s.nextId
  {
  }

  /**
   The first flush of a position attaches a new identity whose head shows the whole generation over
   an object of its length, and leaves every other head and object alone.
   */
  lemma FirstFlush(s: State, f: nat, pos: nat, size: nat)
    requires Inv(s) && PhaseOf(s, f) == Idle && pos !in s.attached && LastRevision(s, s.nextId) < INT64_MAX
    ensures var id, r := s.nextId, LastRevision(s, s.nextId) + 1;
            var t := Then(s, [Open(f, pos), Propose(f, size), Land(Cas(id, None, Head(r, size))), Learn(f), Attach(f)]);
            && id !in s.heads && t.attached == s.attached[pos := id] && t.heads == s.heads[id := Head(r, size)]
            && t.objects == s.objects[(id, r) := size] && t.nextId == id + 1 && t.detached == s.detached
            && PhaseOf(t, f) == Idle
  {
    hide Then, Step, Inv;
    FreshUnheaded(s);
    var session, c := Session(pos, None, None), Cas(s.nextId, None, Head(LastRevision(s, s.nextId) + 1, size));
    ThenFive(s, Open(f, pos), Propose(f, size), Land(c), Learn(f), Attach(f));
    OpenPropose(s, f, session, c.id, c.next);
    var s2 := Step(Step(s, Open(f, pos)), Propose(f, size));
    LandLearn(s2, f, session, c);
    AttachIdle(Step(Step(s2, Land(c)), Learn(f)), f, session, c.id, c.next);
  }

  lemma AttachIdle(s: State, f: nat, session: Session, id: nat, next: Head)
    requires PhaseOf(s, f) == Published(session, id, next) && session.id.None? && session.pos !in s.attached
    ensures var t := Step(s, Attach(f));
            && t.attached == s.attached[session.pos := id] && PhaseOf(t, f) == Idle && t.heads == s.heads
            && t.objects == s.objects && t.nextId == s.nextId && t.detached == s.detached
  {
  }

  /** A later flush puts a new revision in place of the old one and registers the old one for cleanup. */
  lemma NextFlush(s: State, f: nat, pos: nat, size: nat)
    requires Inv(s) && PhaseOf(s, f) == Idle && pos in s.attached && LastRevision(s, s.attached[pos]) < INT64_MAX
    ensures s.attached[pos] in s.heads
    ensures var id := s.attached[pos];
            var h, r := s.heads[id], LastRevision(s, id) + 1;
            var t := Then(s, [Open(f, pos), Propose(f, size), Land(Cas(id, Some(h), Head(r, size))), Learn(f),
                              Finish(f)]);
            && h.revision < r && t.attached == s.attached && t.heads == s.heads[id := Head(r, size)]
            && t.objects == s.objects[(id, r) := size] && t.retired == s.retired + {(id, h.revision)}
            && t.nextId == s.nextId && t.detached == s.detached && PhaseOf(t, f) == Idle
  {
    hide Then, Step, Inv;
    var id := s.attached[pos];
    AttachedHead(s, pos);
    var h := s.heads[id];
    var session, c := Session(pos, Some(id), Some(h)), Cas(id, Some(h), Head(LastRevision(s, id) + 1, size));
    ThenFive(s, Open(f, pos), Propose(f, size), Land(c), Learn(f), Finish(f));
    OpenPropose(s, f, session, c.id, c.next);
    var s2 := Step(Step(s, Open(f, pos)), Propose(f, size));
    LandLearn(s2, f, session, c);
    FinishIdle(Step(Step(s2, Land(c)), Learn(f)), f, session, c.id, c.next);
  }

  lemma FinishIdle(s: State, f: nat, session: Session, id: nat, next: Head)
    requires PhaseOf(s, f) == Published(session, id, next) && session.id == Some(id) && session.head.Some?
    requires session.head.value.revision != next.revision && AttachedAt(s, session.pos) == Some(id)
    ensures var t := Step(s, Finish(f));
            && t.attached == s.attached && PhaseOf(t, f) == Idle && t.heads == s.heads && t.objects == s.objects
            && t.nextId == s.nextId && t.detached == s.detached
            && t.retired == s.retired + {(id, session.head.value.revision)}
  {
  }

  lemma AttachedHead(s: State, pos: nat)
    requires Inv(s) && pos in s.attached
    ensures s.attached[pos] in s.heads
    ensures 0 < s.heads[s.attached[pos]].revision <= LastRevision(s, s.attached[pos])
  {
    hide HeadsStored, FlightsOk, RetiredBehind, QueueOk, OwnUnattached, OwnDistinct, AttachesOk, AttachesDistinct,
      PhasesOk;
    assert (s.attached[pos], s.heads[s.attached[pos]].revision) in s.published;
  }

  /** A clamp that nothing disturbs leaves the revision with exactly the prefix. */
  lemma ClampShortens(s: State, id: nat, prefix: nat)
    requires id in s.heads && ValidHead(s.heads[id]) && prefix < s.heads[id].size
    ensures var h := s.heads[id];
            var t := Then(s, [Clamp(id, prefix), Land(Cas(id, Some(h), Head(h.revision, prefix)))]);
            && t.heads == s.heads[id := Head(h.revision, prefix)] && t.objects == s.objects && t.attached == s.attached
            && t.detached == s.detached
  {
    var h := s.heads[id];
    ThenTwo(s, Clamp(id, prefix), Land(Cas(id, Some(h), Head(h.revision, prefix))));
  }

  /** A registered revision that is no longer the head loses its object, and nothing else is lost. */
  lemma CleanupDeletes(s: State, id: nat, r: nat)
    requires (id, r) in s.retired && !(id in s.heads && s.heads[id].revision == r)
    ensures var t := Then(s, [CheckRevision(id, r), DeleteRevision(id, r)]);
            t.objects == s.objects - {(id, r)} && t.heads == s.heads && t.attached == s.attached
  {
    ThenTwo(s, CheckRevision(id, r), DeleteRevision(id, r));
  }

  /** A revision that is the head, or was not registered, is not condemned; nor is an identity still attached. */
  lemma CheckSpares(s: State, id: nat, r: nat, pos: nat)
    ensures (id, r) !in s.retired || HeadRevision(s, id, r) ==> Step(s, CheckRevision(id, r)) == s
    ensures (pos, id) !in s.queue || AttachedAt(s, pos) == Some(id) ==> Step(s, CheckDetached(pos, id)) == s
  {
  }

  predicate HeadRevision(s: State, id: nat, r: nat) { id in s.heads && s.heads[id].revision == r }

  /** An attach whose reply is lost does, when it arrives, what an answered one does. */
  lemma LateAttach(s: State, f: nat)
    requires PhaseOf(s, f).Published? && PhaseOf(s, f).session.id.None?
    requires PhaseOf(s, f).session.pos !in s.attached
    ensures var pos, id := PhaseOf(s, f).session.pos, PhaseOf(s, f).id;
            var t := Then(s, [SendAttach(f), LandAttach(pos, id)]);
            && Step(s, Attach(f)).attached == t.attached == s.attached[pos := id] && t.heads == s.heads
            && t.objects == s.objects && PhaseOf(t, f) == Idle
  {
    var pos, id := PhaseOf(s, f).session.pos, PhaseOf(s, f).id;
    ThenTwo(s, SendAttach(f), LandAttach(pos, id));
  }

  /** A detached identity loses its objects and its head, and nobody else loses anything. */
  lemma DetachDeletes(s: State, pos: nat, r: nat)
    requires pos in s.attached
    ensures var id := s.attached[pos];
            var t := Then(s, [Detach(pos), Enqueue(pos), CheckDetached(pos, id), DeleteObject(id, r), EraseHead(id)]);
            && t.attached == s.attached - {pos} && t.heads == s.heads - {id} && t.objects == s.objects - {(id, r)}
            && t.detached == s.detached + {id}
  {
    var id := s.attached[pos];
    ThenFive(s, Detach(pos), Enqueue(pos), CheckDetached(pos, id), DeleteObject(id, r), EraseHead(id));
    hide Then, Step;
    var s3 := Step(Step(Step(s, Detach(pos)), Enqueue(pos)), CheckDetached(pos, id));
    DetachCondemns(s, pos);
    CondemnedGoes(s3, id, r);
  }

  lemma DetachCondemns(s: State, pos: nat)
    requires pos in s.attached
    ensures var id := s.attached[pos];
            var t := Step(Step(Step(s, Detach(pos)), Enqueue(pos)), CheckDetached(pos, id));
            && t.attached == s.attached - {pos} && t.heads == s.heads && t.objects == s.objects
            && t.detached == s.detached + {id} && id in t.condemned
  {
  }

  lemma CondemnedGoes(s: State, id: nat, r: nat)
    requires id in s.condemned
    ensures var t := Step(Step(s, DeleteObject(id, r)), EraseHead(id));
            && t.attached == s.attached && t.heads == s.heads - {id} && t.objects == s.objects - {(id, r)}
            && t.detached == s.detached
  {
  }
}
