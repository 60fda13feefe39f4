/**
 What a truncation must find so that no later landing does harm: a condition on the records under
 way that is checked before the truncation, and what every run that meets it promises.
 */
module SliceGuards {
  import opened Common
  import opened DirtyRanges
  import opened Layers
  import opened SliceSession
  import opened Windows

  /** Where the record under way has a byte that its candidate lost, the history shows that byte. */
  ghost predicate Settled(history: seq<Piece>, c: FrozenSlice) {
    c.progress.Staged? ==>
      forall p: nat :: VisibleEnd(c) <= p && Holds(Flown(c), p) ==> Flown(c).bytes[p - c.pos] == Shown(0, history, p)
  }

  /** No record outlived its candidate, and none under way can show a byte that was truncated. */
  ghost predicate Tame(s: Session) {
    s.orphans == [] && forall i :: 0 <= i < |s.frozen| ==> Settled(s.history, s.frozen[i])
  }

  ghost predicate ZeroFrom(r: Piece, size: nat) {
    forall p: nat :: size <= p && Holds(r, p) ==> r.bytes[p - r.start] == 0
  }

  /** The truncation finds only zeros past the size in the records under way. */
  ghost predicate ZeroPast(s: Session, size: nat) {
    forall i :: 0 <= i < |s.frozen| && s.frozen[i].progress.Staged? ==> ZeroFrom(Flown(s.frozen[i]), size)
  }

  /** It releases no candidate whose record is under way. */
  ghost predicate KeepsStaged(s: Session, size: nat) {
    forall i :: 0 <= i < |s.frozen| && s.frozen[i].progress.Staged? ==> 0 < ClipSlice(s.frozen[i], size).visibleLen
  }

  /** The guard on a truncation; every other step is free. */
  ghost predicate Spares(s: Session, e: Event) {
    e.Shrink? ==> KeepsStaged(s, e.size) && ZeroPast(s, e.size)
  }

  ghost predicate Guarded(states: seq<Session>, events: seq<Event>, n: nat)
    requires n <= |events| && |states| == |events| + 1
  {
    forall i :: 0 <= i < n ==> Spares(states[i], events[i])
  }

  // ---- One step ----

  /** A session just opened has nothing under way. */
  lemma OpenedTame(s: Session)
    requires s.frozen == [] && s.active == [] && s.dirty == [] && s.flight == Idle && s.orphans == []
    requires forall p: nat :: s.eof <= p ==> Shown(0, s.history, p) == 0
    ensures Inv(s) && Tame(s)
  {
    hide Inv, Shown;
    OpenedInv(s);
  }

  lemma TameSafe(s: Session, e: Event)
    requires Inv(s) && Tame(s)
    ensures LandedCount(s) <= |s.frozen| && Safe(s, e)
  {
    hide Inv, Latest, ByteAt, Waiting, Shown, LandedCount;
    InvLanded(s);
    if e.Land? && Done(s) < |s.frozen| && s.frozen[Done(s)].progress.Staged? {
      assert Settled(s.history, s.frozen[Done(s)]);
    }
  }

  /** A clipped record under way overhangs by settled bytes and zeros only. */
  lemma ClipSettled(history: seq<Piece>, c: FrozenSlice, size: nat)
    requires c.progress.Staged? ==> ZeroFrom(Flown(c), size)
    requires Settled(history, c)
    ensures Settled(ClipAll(history, size), ClipSlice(c, size))
  {
    hide Latest, ClipAll;
    var d := ClipSlice(c, size);
    if c.progress.Staged? {
      forall p: nat | VisibleEnd(d) <= p && Holds(Flown(d), p)
        ensures Flown(d).bytes[p - d.pos] == Shown(0, ClipAll(history, size), p)
      {
        ClipAllAt(history, size, p);
      }
    }
  }

  lemma {:induction false} NoneOrphaned(frozen: seq<FrozenSlice>, n: nat, size: nat)
    requires n <= |frozen|
    requires forall i :: 0 <= i < n && frozen[i].progress.Staged? ==> 0 < ClipSlice(frozen[i], size).visibleLen
    ensures Orphaned(frozen, n, size) == []
  {
    if n > 0 {
      NoneOrphaned(frozen, n - 1, size);
    }
  }

  lemma ShrinkTame(s: Session, size: nat, t: Session)
    requires Tame(s) && NextShrink(s, size, t) && KeepsStaged(s, size) && ZeroPast(s, size)
    ensures Tame(t)
  {
    hide Settled, ClipSlice, ClipUpTo, Canonical, Clipped, PiecesWithin, Flown, ZeroFrom;
    NoneOrphaned(s.frozen, |s.frozen|, size);
    forall j: nat | j < |t.frozen| ensures Settled(t.history, t.frozen[j]) {
      var i := ClipFrozenOrigin(s.frozen, |s.frozen|, size, j);
      ClipSettled(s.history, s.frozen[i], size);
    }
  }

  lemma FreshSettled(history: seq<Piece>, c: FrozenSlice)
    requires !c.progress.Staged? || c.progress.len == c.visibleLen
    ensures Settled(history, c)
  {
  }

  lemma CoalesceTame(s: Session, taken: nat, image: seq<byte>, built: seq<Built>, t: Session)
    requires Shaped(s) && Tame(s) && Installs(s, taken, image, built, t)
    ensures Tame(t)
  {
    hide Settled, Latest, Layer, Reordered, Canonical, PiecesWithin, LastOverlap, Member, Hydrated;
    InstallsFrame(s, taken, image, built, t);
    BuiltUntouched(s, taken, image, built, t);
    forall i: nat | i < |t.frozen| ensures Settled(t.history, t.frozen[i]) {
      var k, placed := CoalesceMembers(s, taken, image, built, t, i);
      if placed {
        FreshSettled(t.history, t.frozen[i]);
      }
    }
  }

  /** After the landing nothing else is under way. */
  lemma LandTame(s: Session, t: Session)
    requires InOrder(s) && Tame(s) && NextLand(s, t)
    ensures Tame(t)
  {
    hide Settled, Flown;
    forall i | 0 <= i < |t.frozen| ensures Settled(t.history, t.frozen[i]) {
      FreshSettled(t.history, t.frozen[i]);
    }
  }

  /** Generations are kept, added fresh, or sent as long as they are. */
  lemma OtherTame(s: Session, e: Event, t: Session)
    requires Tame(s) && Next(s, e, t) && !e.Shrink? && !e.Coalesce? && !e.Land?
    ensures Tame(t)
  {
    hide Settled, Canonical, Latest, ByteAt, PiecesWithin, AllSized, AllWithin, Layered, Overlaid;
    forall i: nat | i < |t.frozen| ensures Settled(t.history, t.frozen[i]) {
      if e.Finish? {
        assert t.frozen[i] == s.frozen[s.flight.done + i];
      } else if i >= |s.frozen| || t.frozen[i] != s.frozen[i] {
        FreshSettled(t.history, t.frozen[i]);
      }
    }
  }

  lemma TameStep(s: Session, e: Event, t: Session)
    requires Inv(s) && Tame(s) && Next(s, e, t) && Spares(s, e)
    ensures Tame(t)
  {
    hide Settled, NextShrink, Backed, Neutral, TailZero, Shows, Tracked, Unhidden, AllCarried, Tame, Installs,
      NextLand, KeepsStaged, ZeroPast;
    match e {
      case Shrink(size) => ShrinkTame(s, size, t);
      case Coalesce(taken, image, built) => CoalesceTame(s, taken, image, built, t);
      case Land => LandTame(s, t);
      case _ => OtherTame(s, e, t);
    }
  }

  // ---- Whole runs ----

  /** A run that starts tame and whose truncations are guarded lands nothing that does harm. */
  lemma {:induction false} GuardedSafe(states: seq<Session>, events: seq<Event>, n: nat)
    requires Run(states, events) && Inv(states[0]) && Tame(states[0]) && n <= |events| && Guarded(states, events, n)
    ensures AllSafe(states, events, n) && Tame(states[n])
  {
    hide Inv, Tame, Next, Safe, Spares, LandedCount;
    if n > 0 {
      GuardedSafe(states, events, n - 1);
      RunPreserves(states, events, n - 1);
      assert RunStep(states, events, n - 1);
      TameSafe(states[n - 1], events[n - 1]);
      TameStep(states[n - 1], events[n - 1], states[n]);
    }
  }

  /**
   In every state of such a run a read returns the bytes of the start, overlaid by the writes and
   cut by the shrinks in between, however far any flush got and whatever lands.
   */
  lemma GuardedRun(states: seq<Session>, events: seq<Event>, n: nat)
    requires Run(states, events) && Inv(states[0]) && Tame(states[0]) && n <= |events| && Guarded(states, events, n)
    ensures Inv(states[n]) && Tame(states[n]) && Right(states, events, n)
  {
    hide Inv, Tame, Next, Right;
    GuardedSafe(states, events, n);
    RunPreserves(states, events, n);
  }

  /**
   The image of the committed bytes a flush read earlier is still current where nothing is
   pending, over every run without a truncation.
   */
  lemma EarlierImage(states: seq<Session>, events: seq<Event>, p: nat)
    requires Run(states, events) && Inv(states[0]) && Tame(states[0])
    requires forall i :: 0 <= i < |events| ==> !events[i].Shrink?
    requires Latest(Writes(events), p).None?
    requires ByteAt(states[0].dirty, p).None? && ByteAt(states[|events|].dirty, p).None?
    ensures Committed(states[|events|], p) == Committed(states[0], p)
  {
    hide Inv, Tame, Next, AllSafe, Latest, ByteAt, Committed;
    GuardedSafe(states, events, |events|);
    EarlierHarmless(states, events, p);
  }

  /**
   Flush preserves the file.  On every exit a reader sees the bytes of the start, overlaid by the
   writes and cut by the shrinks meanwhile.  When it returns OK the committed history alone shows
   that byte wherever nothing was written meanwhile, and the end of the file covers every
   candidate.
   */
  lemma FlushPreserves(states: seq<Session>, events: seq<Event>, p: nat)
    requires Flush(states, events) && Inv(states[0]) && Tame(states[0]) && Guarded(states, events, |events|)
    ensures View(states[|events|], p) == EffectAll(events, View(states[0], p), p)
    ensures Latest(Writes(events[1..|events| - 1]), p).None? ==>
              View(states[|events|], p) == if Cut(events, p) then 0 else View(states[0], p)
    ensures AllPublished(states[|events| - 1]) && Latest(Writes(events[1..|events| - 1]), p).None? ==>
              && Committed(states[|events|], p) == View(states[|events|], p)
              && MaxEof(states[|events| - 1].frozen[..states[|events| - 1].flight.total]) <= states[|events|].eof
  {
    hide Latest, Inv, Tame, Next, View, Committed, EffectAll, Writes, MaxEof, AllSafe, Cut, AllPublished;
    GuardedSafe(states, events, |events|);
    FlushHarmless(states, events, p);
  }

  // ---- The guard is exact ----

  /** A record arrives in the next step. */
  ghost predicate Arrives(t: Session, e: Event, u: Session) { (e.Land? || e.LandOrphan?) && Next(t, e, u) }

  /** Readers cannot tell, nor will a growth or a retirement tell them. */
  ghost predicate Invisible(t: Session, u: Session) { Sound(u) && forall p: nat :: View(u, p) == View(t, p) }

  lemma {:induction false} OnlyOrphan(frozen: seq<FrozenSlice>, n: nat, d: nat, size: nat)
    requires n <= |frozen| && forall i :: 0 <= i < n && i != d ==> !frozen[i].progress.Staged?
    ensures Orphaned(frozen, n, size) ==
            if d < n && frozen[d].progress.Staged? && ClipSlice(frozen[d], size).visibleLen == 0
            then [Flown(frozen[d])] else []
  {
    if n > 0 {
      OnlyOrphan(frozen, n - 1, d, size);
    }
  }

  /** What the flush is publishing when the truncation comes is what it is publishing afterwards, if it survives. */
  lemma SurvivorAt(s: Session, size: nat, t: Session)
    requires Shaped(s) && NextShrink(s, size, t) && Done(s) < |s.frozen|
    requires 0 < ClipSlice(s.frozen[Done(s)], size).visibleLen
    ensures Done(t) < |t.frozen| && t.frozen[Done(t)] == ClipSlice(s.frozen[Done(s)], size)
  {
    hide ClipUpTo, ClipSlice, Canonical, PiecesWithin, Clipped, NextShrink;
    var d := Done(s);
    ShrinkParts(s, size, t);
    ClipSplit(s.frozen[d..], 1, |s.frozen| - d, size);
    ClipNext(s.frozen[d..], 0, size);
    assert s.frozen[d..][0] == s.frozen[d];
  }

  lemma StagedOrigin(s: Session, size: nat, t: Session)
    requires Shaped(s) && InOrder(s) && NextShrink(s, size, t)
    requires Done(t) < |t.frozen| && t.frozen[Done(t)].progress.Staged?
    ensures Done(s) < |s.frozen| && s.frozen[Done(s)].progress.Staged?
    ensures 0 < ClipSlice(s.frozen[Done(s)], size).visibleLen
  {
    hide ClipUpTo, Canonical, PiecesWithin, Clipped;
    var i := ClipFrozenOrigin(s.frozen, |s.frozen|, size, Done(t));
    ClipKept(s.frozen, |s.frozen|, size);
  }

  lemma HarmlessExactly(s: Session, size: nat, t: Session, from: nat)
    requires Shaped(s) && NextShrink(s, size, t) && Done(s) < |s.frozen| && LandedCount(t) <= |t.frozen|
    requires var c := s.frozen[Done(s)];
             && c.progress.Staged? && Settled(s.history, c)
             && from == if ClipSlice(c, size).visibleLen == 0 then 0 else VisibleEnd(ClipSlice(c, size))
    ensures Harmless(t, Flown(s.frozen[Done(s)]), from) <==> ZeroFrom(Flown(s.frozen[Done(s)]), size)
  {
    hide Latest, ByteAt, NextShrink, Shaped, LandedCount, Waiting;
    var c := s.frozen[Done(s)];
    var r := Flown(c);
    assert from <= size && forall p: nat :: from <= p < size && Holds(r, p) ==> VisibleEnd(c) <= p;
    forall p: nat | Holds(r, p) && from <= p
      ensures p < size ==> r.bytes[p - r.start] == Shown(0, t.history, p)
      ensures size <= p ==> ByteAt(t.dirty, p).None? && Shown(0, t.history, p) == 0
    {
      ShrinkAt(s, size, t, p);
    }
  }

  lemma ClipFlown(c: FrozenSlice, size: nat)
    requires c.progress.Staged?
    ensures ClipSlice(c, size).progress == c.progress && Flown(ClipSlice(c, size)) == Flown(c)
  {
  }

  lemma LandingsExactly(s: Session, size: nat, t: Session)
    requires Inv(s) && Tame(s) && NextShrink(s, size, t) && LandedCount(t) <= |t.frozen|
    ensures (Safe(t, Land) && forall k :: 0 <= k < |t.orphans| ==> Safe(t, LandOrphan(k))) <==> ZeroPast(s, size)
  {
    hide Backed, Neutral, TailZero, Shows, Tracked, Unhidden, AllCarried, Harmless, ZeroFrom, Settled, LandedCount,
      ClipSlice, ClipUpTo, Orphaned, Flown, Canonical, Clipped, PiecesWithin;
    var d := Done(s);
    OnlyOrphan(s.frozen, |s.frozen|, d, size);
    if Done(t) < |t.frozen| && t.frozen[Done(t)].progress.Staged? {
      StagedOrigin(s, size, t);
    }
    if d < |s.frozen| && s.frozen[d].progress.Staged? {
      var c := s.frozen[d];
      assert ZeroPast(s, size) <==> ZeroFrom(Flown(c), size);
      if ClipSlice(c, size).visibleLen == 0 {
        HarmlessExactly(s, size, t, 0);
        assert t.orphans == [Flown(c)];
        assert Safe(t, LandOrphan(0)) <==> ZeroFrom(Flown(c), size);
      } else {
        HarmlessExactly(s, size, t, VisibleEnd(ClipSlice(c, size)));
        SurvivorAt(s, size, t);
        ClipFlown(c, size);
      }
    } else {
      assert t.orphans == [] && ZeroPast(s, size);
    }
  }

  /**
   Before a truncation: whatever record arrives right after it is invisible to readers, then and
   later, if and only if every record under way has only zero bytes past the size.
   */
  lemma ShrinkExactly(s: Session, size: nat, t: Session)
    requires Inv(s) && Tame(s) && NextShrink(s, size, t)
    ensures ZeroPast(s, size) <==> forall e, u :: Arrives(t, e, u) ==> Invisible(t, u)
  {
    hide Inv, Tame, NextShrink, Safe, ZeroPast, Sound, View, LandedCount, Next;
    ShrinkStep(s, size, t);
    InvLanded(t);
    LandingsExactly(s, size, t);
    if ZeroPast(s, size) {
      forall e, u | Arrives(t, e, u) ensures Invisible(t, u) {
        ArrivesSafe(t, e, u);
      }
    }
    if forall e, u :: Arrives(t, e, u) ==> Invisible(t, u) {
      InvisibleSafe(t);
    }
  }

  lemma ArrivesSafe(t: Session, e: Event, u: Session)
    requires Inv(t) && Arrives(t, e, u) && LandedCount(t) <= |t.frozen| && Safe(t, Land)
    requires forall k :: 0 <= k < |t.orphans| ==> Safe(t, LandOrphan(k))
    ensures Invisible(t, u)
  {
    hide Inv, Sound, View, LandedCount, Harmless;
    assert Safe(t, e);
    StepPreserves(t, e, u);
    InvSound(u);
  }

  lemma InvisibleSafe(t: Session)
    requires Inv(t) && LandedCount(t) <= |t.frozen| && forall e, u :: Arrives(t, e, u) ==> Invisible(t, u)
    ensures Safe(t, Land) && forall k :: 0 <= k < |t.orphans| ==> Safe(t, LandOrphan(k))
  {
    hide Inv, Sound, View, LandedCount, Harmless, Flown;
    if Done(t) < |t.frozen| && t.frozen[Done(t)].progress.Staged? {
      var c := t.frozen[Done(t)];
      var u := t.(frozen := t.frozen[Done(t) := c.(progress := Landed(c.progress.len))],
      history := t.history + [Flown(c)]);
      assert Arrives(t, Land, u);
      StepSafe(t, Land, u);
    }
    forall k | 0 <= k < |t.orphans| ensures Safe(t, LandOrphan(k)) {
      var u := t.(history := t.history + [t.orphans[k]], orphans := t.orphans[..k] + t.orphans[k + 1..]);
      assert Arrives(t, LandOrphan(k), u);
      StepSafe(t, LandOrphan(k), u);
    }
  }

  // ---- Why a candidate under way must survive ----

  /** One accepted zero whose record has been sent; the truncation releases it. */
  const Z0 := Session(4, [FrozenSlice(0, [0], 1, 1, false, Staged(1))], [], [Piece(0, [0])], [], 0, Idle, [], [])

  const Z1 := Z0.(frozen := [], dirty := [], orphans := [Piece(0, [0])])

  /** A new byte is accepted there, flushed and retired. */
  const Z2 := Z1.(active := [Piece(0, [7])], dirty := [Piece(0, [7])], since := [Piece(0, [7])])

  const SEVEN := FrozenSlice(0, [7], 1, 1, false, Untouched)

  const Z3 := Z2.(frozen := [SEVEN], active := [], flight := Publishing(1, 0), since := [])

  const Z4 := Z3.(frozen := [SEVEN.(progress := Prepared)])

  const Z5 := Z3.(frozen := [SEVEN.(progress := Staged(1))])

  const Z6 := Z3.(frozen := [SEVEN.(progress := Landed(1))], history := [Piece(0, [7])])

  const Z7 := Z6.(eof := 1)

  const Z8 := Z7.(flight := Publishing(1, 1))

  const Z9 := Z8.(frozen := [], dirty := [], flight := Idle)

  const Z10 := Z9.(history := [Piece(0, [7]), Piece(0, [0])], orphans := [])

  const RETURNING := [Z0, Z1, Z2, Z3, Z4, Z5, Z6, Z7, Z8, Z9, Z10]

  const RETURN := [Shrink(0), Write(0, [7]), Begin, Prepare(0), Stage, Land, Grow(1), Acknowledge, Finish,
                   LandOrphan(0)]

  /** The zeros of a released record arrive over a byte that was written and committed since. */
  lemma ReleasedZeroReturns()
    ensures Run(RETURNING, RETURN) && Inv(Z0) && Tame(Z0) && ZeroPast(Z0, 0)
    ensures View(Z9, 0) == 7 && View(Z10, 0) == 0
  {
    ZeroInv();
    ZeroReleased();
    SevenWritten();
    SevenLeaves();
    SevenRetires();
    ZeroArrives();
    SevenLost();
    hide Inv, Tame, ZeroPast, NextShrink, NextWrite, NextBegin, NextPrepare, NextStage, NextLand, NextFinish,
      NextAcknowledge, NextLandOrphan, Latest, ByteAt, View;
    forall i | 0 <= i < |RETURN| ensures RunStep(RETURNING, RETURN, i) {
    }
  }

  lemma ZeroInv()
    ensures Inv(Z0) && Tame(Z0) && ZeroPast(Z0, 0)
  {
    hide Latest, ByteAt;
    assert Layer(Z0.frozen[0]) == Piece(0, [0]) && Unpublished(Z0) == [Piece(0, [0])];
    forall p: nat
      ensures Latest(Unpublished(Z0), p) == ByteAt(Z0.dirty, p)
      ensures ByteAt(Z0.dirty, p).None? ==> NeutralAt(Z0, p)
      ensures Latest(Z0.history, p).None?
    {
      LatestOfCanonical(Z0.dirty, p);
      ByteAtPiece(Piece(0, [0]), p);
      LatestOfNothing(Z0.active, p);
    }
  }

  lemma ZeroReleased()
    ensures NextShrink(Z0, 0, Z1)
  {
    hide Latest, ByteAt;
    assert ClipUpTo(Z0.frozen, 0, 0) == [] && Orphaned(Z0.frozen, 0, 0) == [];
    assert ClipFrozen(Z0.frozen, 0) == Z1.frozen;
    assert Z0.frozen[0].payload[..1] == [0];
    assert Orphaned(Z0.frozen, 1, 0) == Z1.orphans;
    assert ClipAll(Z0.history, 0) == Z1.history;
    forall p: nat ensures ByteAt(Z1.dirty, p) == None && ByteAt(Z1.active, p) == None {
      ByteAtOutside(Z1.dirty, p);
    }
  }

  lemma SevenBytes(p: nat)
    ensures ByteAt([Piece(0, [7])], p) == Latest([Piece(0, [7])], p) == if p == 0 then Some(7) else None
    ensures ByteAt([], p) == Latest([], p) == None
  {
    hide Latest, ByteAt;
    ByteAtPiece(Piece(0, [7]), p);
    ByteAtOutside([], p);
    LatestOfCanonical([Piece(0, [7])], p);
    LatestOfCanonical([], p);
  }

  lemma SevenWritten()
    ensures NextWrite(Z1, 0, [7], Z2) && NextBegin(Z2, Z3)
  {
    hide Latest, ByteAt;
    forall p: nat
      ensures ByteAt(Z2.dirty, p) == Latest(Z2.active, p) == if p == 0 then Some(7) else None
      ensures ByteAt(Z1.dirty, p) == Latest(Z1.active, p) == None
    {
      SevenBytes(p);
    }
    assert LayersOf(Z2.frozen[|Z1.frozen|..]) + Z2.active == [Piece(0, [7])];
    assert Drawn(Z1.active, [Piece(0, [7])], 0, [7]);
    hide Drawn;
    assert Freeze(Z2.active) == [SEVEN] && Z2.frozen + [SEVEN] == [SEVEN];
  }

  lemma SevenLeaves()
    ensures NextPrepare(Z3, 0, Z4) && NextStage(Z4, Z5) && NextLand(Z5, Z6) && NextAcknowledge(Z7, Z8)
  {
    SevenStaged();
    SevenLands();
    SevenConfirmed();
  }

  lemma SevenStaged()
    ensures NextPrepare(Z3, 0, Z4) && NextStage(Z4, Z5)
  {
    hide Latest, ByteAt;
    assert [SEVEN][0 := SEVEN.(progress := Prepared)] == [SEVEN.(progress := Prepared)];
    assert [SEVEN.(progress := Prepared)][0 := SEVEN.(progress := Staged(1))] == [SEVEN.(progress := Staged(1))];
  }

  lemma SevenLands()
    ensures NextLand(Z5, Z6)
  {
    hide Latest, ByteAt;
    assert [7][..1] == [7];
    assert [] + [Piece(0, [7])] == [Piece(0, [7])];
    assert [SEVEN.(progress := Staged(1))][0 := SEVEN.(progress := Landed(1))] == [SEVEN.(progress := Landed(1))];
  }

  lemma SevenConfirmed()
    ensures NextAcknowledge(Z7, Z8)
  {
  }

  lemma SevenRetires()
    ensures NextFinish(Z8, Z9)
  {
    hide Latest, ByteAt;
    assert Z8.frozen[1..] == [] && Unpublished(Z9) == [];
    forall p: nat ensures ByteAt(Z9.dirty, p) == Latest(Unpublished(Z9), p) {
      SevenBytes(p);
    }
  }

  lemma ZeroArrives()
    ensures NextLandOrphan(Z9, 0, Z10)
  {
    assert Z9.orphans[..0] + Z9.orphans[1..] == [] && Z9.history + [Piece(0, [0])] == Z10.history;
  }

  lemma SevenLost()
    ensures View(Z9, 0) == 7 && View(Z10, 0) == 0
  {
    hide Latest, ByteAt;
    SevenBytes(0);
    LatestPush(Z9.history, Piece(0, [0]), 0);
    assert Z10.history == Z9.history + [Piece(0, [0])];
  }
}
