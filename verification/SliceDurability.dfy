/**
 What a flush that returned OK has made durable: at every position, written meanwhile or not, the
 committed byte is the one readers saw when the flush began or one written since.
 */
module SliceDurability {
  import opened Common
  import opened DirtyRanges
  import opened Layers
  import opened SliceGuards
  import opened SliceSession
  import opened Windows

  // ---- What has landed shows, whatever is waiting above it ----

  function LandedAt(s: Session, p: nat): Option<byte>
    requires LandedCount(s) <= |s.frozen|
  {
    Latest(LayersOf(s.frozen[..LandedCount(s)]), p)
  }

  ghost predicate FirmAt(s: Session, p: nat)
    requires LandedCount(s) <= |s.frozen|
  {
    && (LandedAt(s, p).Some? ==> Latest(s.history, p) == LandedAt(s, p))
    && (LandedAt(s, p).None? && s.eof <= p ==> Shown(0, s.history, p) == 0)
  }

  /** A flush starts on nothing but its own candidates. */
  ghost predicate Unstarted(s: Session) {
    s.flight.Publishing? ==> forall i: nat :: s.flight.total <= i < |s.frozen| ==> Fresh(s.frozen[i])
  }

  ghost predicate Firm(s: Session) {
    LandedCount(s) <= |s.frozen| && Unstarted(s) && forall p: nat :: FirmAt(s, p)
  }

  lemma OpenedFirm(s: Session)
    requires s.frozen == [] && s.active == [] && s.dirty == [] && s.flight == Idle && s.orphans == []
    requires forall p: nat :: s.eof <= p ==> Shown(0, s.history, p) == 0
    ensures Inv(s) && Tame(s) && Firm(s)
  {
    hide Inv, Tame, Shown;
    OpenedTame(s);
  }

  /** The landed generations, the history and everything before the end are as they were. */
  lemma SameFirm(s: Session, t: Session)
    requires LandedCount(t) == LandedCount(s) <= |s.frozen| && LandedCount(t) <= |t.frozen|
    requires LayersOf(t.frozen[..LandedCount(t)]) == LayersOf(s.frozen[..LandedCount(s)])
    requires t.history == s.history && s.eof <= t.eof && forall p: nat :: FirmAt(s, p)
    ensures forall p: nat :: FirmAt(t, p)
  {
    hide Latest, LayersOf, LandedCount;
    forall p: nat ensures FirmAt(t, p) {
      assert FirmAt(s, p);
    }
  }

  lemma WriteFirm(s: Session, offset: nat, bytes: seq<byte>, t: Session)
    requires Inv(s) && Firm(s) && NextWrite(s, offset, bytes, t)
    ensures Firm(t)
  {
    WriteShaped(s, offset, bytes, t);
    hide Inv, LandedCount, FirmAt, Canonical, Overlaid, Layered, AllSized, AllWithin, PiecesWithin;
    var extra := t.frozen[|s.frozen|..];
    assert forall i :: |s.frozen| <= i < |t.frozen| ==> t.frozen[i] == extra[i - |s.frozen|];
    assert t.frozen[..LandedCount(t)] == s.frozen[..LandedCount(s)];
    SameFirm(s, t);
  }

  lemma BeginFirm(s: Session, t: Session)
    requires Inv(s) && Firm(s) && NextBegin(s, t)
    ensures Firm(t)
  {
    MoreFrozen(s, Freeze(s.active), t);
    hide Inv, LandedCount, FirmAt, Freeze;
    assert t.frozen[..LandedCount(t)] == s.frozen[..LandedCount(s)];
    SameFirm(s, t);
  }

  lemma CoalesceFirm(s: Session, taken: nat, image: seq<byte>, built: seq<Built>, t: Session)
    requires Inv(s) && Firm(s) && Installs(s, taken, image, built, t)
    ensures Firm(t)
  {
    CoalesceOrder(s, taken, image, built, t);
    CoalesceUnstarted(s, taken, image, built, t);
    InstallsFrame(s, taken, image, built, t);
    hide FirmAt, Unstarted, Installs, Reordered, Backed, Neutral, TailZero, Shows, Tracked, Canonical, PiecesWithin,
      Unhidden, AllCarried, Latest, Layer, AllSized, AllWithin;
    assert t.frozen[..LandedCount(t)] == s.frozen[..LandedCount(s)];
    SameFirm(s, t);
  }

  lemma CoalesceUnstarted(s: Session, taken: nat, image: seq<byte>, built: seq<Built>, t: Session)
    requires AllSized(s.frozen) && Unstarted(s) && Installs(s, taken, image, built, t)
    ensures Unstarted(t)
  {
    CoalesceSplit(s, taken, image, built, t);
    InstallsTotal(s, taken, image, built, t);
    hide Installs, Reordered, AllSized, Layer;
    forall i: nat | t.flight.total <= i < |t.frozen| ensures Fresh(t.frozen[i]) {
      assert t.frozen[i] == s.frozen[taken + (i - t.flight.total)];
    }
  }

  lemma InstallsTotal(s: Session, taken: nat, image: seq<byte>, built: seq<Built>, t: Session)
    requires Installs(s, taken, image, built, t)
    ensures s.flight.Publishing? && s.flight.total <= taken <= |s.frozen| && t.flight.Publishing?
  {
  }

  lemma RelabelledFirm(s: Session, t: Session)
    requires Firm(s) && LandedCount(t) == LandedCount(s) && Unstarted(t) && |t.frozen| == |s.frozen|
    requires forall i :: 0 <= i < |s.frozen| ==> t.frozen[i] == s.frozen[i].(progress := t.frozen[i].progress)
    requires t.history == s.history && s.eof <= t.eof
    ensures Firm(t)
  {
    hide FirmAt, LandedCount, Unstarted, Latest;
    var n := LandedCount(s);
    assert forall i :: 0 <= i < n ==> Layer(t.frozen[..n][i]) == Layer(s.frozen[..n][i]);
    assert LayersOf(t.frozen[..n]) == LayersOf(s.frozen[..n]);
    SameFirm(s, t);
  }

  /** Moving a candidate along, growing, and acknowledging. */
  lemma QuietFirm(s: Session, e: Event, t: Session)
    requires Inv(s) && Firm(s) && Next(s, e, t) && (e.Prepare? || e.Stage? || e.Grow? || e.Acknowledge?)
    ensures Firm(t)
  {
    hide FirmAt, Backed, Neutral, TailZero, Shows, Tracked, Canonical, PiecesWithin, Unhidden, AllCarried, AllSized,
      AllWithin;
    assert LandedCount(t) == LandedCount(s);
    assert Unstarted(t);
    hide Firm;
    RelabelledFirm(s, t);
  }

  lemma LandFirm(s: Session, t: Session)
    requires Inv(s) && Tame(s) && Firm(s) && NextLand(s, t)
    ensures Firm(t)
  {
    hide Backed, Neutral, TailZero, Shows, Tracked, Canonical, PiecesWithin, AllWithin, Latest, LayersOf, Layer,
      FirmAt, Settled, Carried, Unhidden;
    var d := Done(s);
    assert LandedCount(s) == d && LandedCount(t) == d + 1;
    forall p: nat ensures FirmAt(t, p) {
      LandFirmAt(s, t, p);
    }
  }

  lemma LandFirmAt(s: Session, t: Session, p: nat)
    requires Shaped(s) && AllCarried(s.frozen) && Unhidden(s.frozen) && NextLand(s, t)
    requires LandedCount(s) == Done(s) && LandedCount(t) == Done(s) + 1
    requires FirmAt(s, p) && Settled(s.history, s.frozen[Done(s)])
    ensures FirmAt(t, p)
  {
    hide Latest, LayersOf, Layer, Canonical, Carried, LandedCount, Unhidden;
    var d := Done(s);
    var c, landed := s.frozen[d], t.frozen[d];
    assert Sized(c) && Carried(c);
    assert t.frozen[..d + 1] == s.frozen[..d] + [landed];
    LayersOfPush(s.frozen[..d], landed, p);
    LandedLayer(c, landed);
    LatestPush(s.history, Flown(c), p);
    FlownAt(c, p);
    if Overhangs(c, p) {
      OverhangWaits(s, p);
      assert !Holds(Layer(c), p);
    }
  }

  lemma FinishFirm(s: Session, t: Session)
    requires Inv(s) && Firm(s) && NextFinish(s, t)
    ensures Firm(t)
  {
    hide Backed, Neutral, TailZero, Shows, Tracked, Canonical, PiecesWithin, AllWithin, Latest, LayersOf, Layer,
      FirmAt, Unhidden, AllCarried, ByteAt;
    var d := Done(s);
    assert LandedCount(t) + d == LandedCount(s);
    forall p: nat ensures FirmAt(t, p) {
      FinishFirmAt(s, t, p);
    }
  }

  lemma FinishFirmAt(s: Session, t: Session, p: nat)
    requires InOrder(s) && AllSized(s.frozen) && s.flight.Publishing? && s.flight.done <= |s.frozen|
    requires t.frozen == s.frozen[s.flight.done..] && t.history == s.history && t.eof == s.eof
    requires s.flight.done <= LandedCount(s) <= |s.frozen| && LandedCount(t) + s.flight.done == LandedCount(s)
    requires FirmAt(s, p)
    ensures FirmAt(t, p)
  {
    hide Latest, LayersOf, Layer, LandedCount;
    var d, n := s.flight.done, LandedCount(s);
    assert s.frozen[..n] == s.frozen[..d] + s.frozen[d..n] && t.frozen[..n - d] == s.frozen[d..n];
    LayersOfConcat(s.frozen[..d], s.frozen[d..n]);
    LatestConcat(LayersOf(s.frozen[..d]), LayersOf(s.frozen[d..n]), p);
    if s.eof <= p {
      forall i | 0 <= i < d ensures !Holds(Layer(s.frozen[..d][i]), p) {
        assert s.frozen[..d][i] == s.frozen[i] && Sized(s.frozen[i]);
        HoldsBelow(s.frozen[i], p);
      }
      FrozenUnheld(s.frozen[..d], p);
    }
  }

  lemma HoldsBelow(c: FrozenSlice, p: nat)
    ensures Holds(Layer(c), p) ==> c.pos <= p < VisibleEnd(c)
  {
  }

  lemma ShrinkFirm(s: Session, size: nat, t: Session)
    requires Inv(s) && Firm(s) && NextShrink(s, size, t)
    ensures Firm(t)
  {
    ShrinkShaped(s, size, t);
    ShrinkLanded(s, size, t);
    var n := LandedCount(s);
    ClipSplit(s.frozen, n, |s.frozen|, size);
    ShrinkUnstarted(s, size, t);
    hide Inv, FirmAt, Latest, LayersOf, ClipUpTo, LandedCount, Unstarted, Shaped, NextShrink;
    assert t.frozen[..LandedCount(t)] == ClipUpTo(s.frozen, n, size) by { ShrinkFrozen(s, size, t); }
    forall p: nat ensures FirmAt(t, p) {
      ShrinkFirmAt(s, size, t, p);
    }
  }

  lemma ShrinkFrozen(s: Session, size: nat, t: Session)
    requires NextShrink(s, size, t)
    ensures t.frozen == ClipUpTo(s.frozen, |s.frozen|, size)
  {
  }

  lemma ShrinkFirmAt(s: Session, size: nat, t: Session, p: nat)
    requires Inv(s) && NextShrink(s, size, t) && LandedCount(s) <= |s.frozen| && LandedCount(t) <= |t.frozen|
    requires t.frozen[..LandedCount(t)] == ClipUpTo(s.frozen, LandedCount(s), size) && FirmAt(s, p)
    ensures FirmAt(t, p)
  {
    hide Latest, LayersOf, ClipUpTo, LandedCount, ByteAt, NextShrink, InOrder, AllCarried, Unhidden, Backed, Neutral,
      TailZero, Shows, Tracked, Canonical, PiecesWithin;
    ClipFrozenAt(s.frozen, LandedCount(s), size, p);
    ShrinkAt(s, size, t, p);
    ShrinkEof(s, size, t);
  }

  lemma ShrinkUnstarted(s: Session, size: nat, t: Session)
    requires Shaped(s) && Unstarted(s) && NextShrink(s, size, t)
    ensures Unstarted(t)
  {
    hide Canonical, PiecesWithin, Clipped, ClipUpTo, ClipSlice;
    if s.flight.Publishing? {
      var n := s.flight.total;
      ClipSplit(s.frozen, n, |s.frozen|, size);
      forall j: nat | t.flight.total <= j < |t.frozen| ensures Fresh(t.frozen[j]) {
        var i := ClipFrozenOrigin(s.frozen[n..], |s.frozen| - n, size, j - t.flight.total);
        assert s.frozen[n..][i] == s.frozen[n + i];
        ClipFresh(s.frozen[n + i], size);
      }
    }
  }

  lemma ClipFresh(c: FrozenSlice, size: nat)
    ensures Fresh(ClipSlice(c, size)) == Fresh(c)
  {
  }

  lemma FirmStep(s: Session, e: Event, t: Session)
    requires Inv(s) && Tame(s) && Firm(s) && Next(s, e, t)
    ensures Firm(t)
  {
    hide Inv, Firm, Settled, NextWrite, NextBegin, Installs, NextPrepare, NextStage, NextLand, NextGrow,
      NextAcknowledge, NextFinish, NextShrink;
    match e {
      case Write(offset, bytes) => WriteFirm(s, offset, bytes, t);
      case Begin => BeginFirm(s, t);
      case Coalesce(taken, image, built) => CoalesceFirm(s, taken, image, built, t);
      case Land => LandFirm(s, t);
      case LandOrphan(_) =>
      case Finish => FinishFirm(s, t);
      case Shrink(size) => ShrinkFirm(s, size, t);
      case _ => QuietFirm(s, e, t);
    }
  }

  lemma {:induction false} FirmRun(states: seq<Session>, events: seq<Event>, n: nat)
    requires Run(states, events) && Inv(states[0]) && Tame(states[0]) && Firm(states[0])
    requires n <= |events| && Guarded(states, events, n)
    ensures Inv(states[n]) && Tame(states[n]) && Firm(states[n])
  {
    hide Inv, Tame, Firm, Next, Right, Spares;
    GuardedRun(states, events, n);
    if n > 0 {
      FirmRun(states, events, n - 1);
      assert RunStep(states, events, n - 1);
      FirmStep(states[n - 1], events[n - 1], states[n]);
    }
  }

  // ---- The image of the committed bytes ----

  /** What can happen between the reading of the image and its use. */
  predicate WhileReading(e: Event) { !e.Shrink? && !e.Begin? && !e.Finish? && !e.Coalesce? }

  /** The snapshot covers the candidates and holds nothing at the position. */
  ghost predicate Unheld(s: Session, taken: nat, p: nat) {
    && s.flight.Publishing? && s.flight.total <= taken <= |s.frozen|
    && Latest(LayersOf(s.frozen[..taken]), p).None?
  }

  lemma UnheldLanded(s: Session, taken: nat, p: nat)
    requires Inv(s) && Firm(s) && Unheld(s, taken, p)
    ensures FirmAt(s, p) && LandedAt(s, p).None?
  {
    hide FirmAt, Backed, Neutral, TailZero, Shows, Tracked, Canonical, PiecesWithin, AllSized, AllWithin, Unhidden,
      AllCarried, Latest, LayersOf, Layer;
    var n := LandedCount(s);
    assert n <= s.flight.total;
    assert s.frozen[..taken] == s.frozen[..n] + s.frozen[n..taken];
    LayersOfConcat(s.frozen[..n], s.frozen[n..taken]);
    LatestConcat(LayersOf(s.frozen[..n]), LayersOf(s.frozen[n..taken]), p);
  }

  lemma UnheldLand(s: Session, t: Session, taken: nat, p: nat)
    requires Shaped(s) && AllCarried(s.frozen) && Tame(s) && Unstarted(s) && Unheld(s, taken, p) && NextLand(s, t)
    ensures Unheld(t, taken, p) && Shown(0, t.history, p) == Shown(0, s.history, p)
  {
    hide Latest, Layer, Canonical, PiecesWithin, AllWithin, Carried;
    var d := Done(s);
    var c := s.frozen[d];
    assert d < s.flight.total && Sized(c) && Carried(c) && Settled(s.history, c);
    FrozenUnheld(s.frozen[..taken], p);
    assert s.frozen[..taken][d] == c;
    FlownAt(c, p);
    LatestPush(s.history, Flown(c), p);
    LandedLayer(c, t.frozen[d]);
    assert LayersOf(t.frozen[..taken]) == LayersOf(s.frozen[..taken]);
  }

  lemma UnheldOther(s: Session, e: Event, t: Session, taken: nat, p: nat)
    requires Unheld(s, taken, p) && Next(s, e, t) && WhileReading(e) && !e.Land? && s.orphans == []
    ensures Unheld(t, taken, p) && t.history == s.history && s.eof <= t.eof
  {
    hide Latest, ByteAt, Canonical, PiecesWithin, AllWithin, AllSized, Layered, Overlaid;
    assert forall i :: 0 <= i < taken ==> Layer(t.frozen[..taken][i]) == Layer(s.frozen[..taken][i]);
    assert LayersOf(t.frozen[..taken]) == LayersOf(s.frozen[..taken]);
  }

  lemma UnheldStep(s: Session, e: Event, t: Session, taken: nat, p: nat)
    requires Inv(s) && Tame(s) && Firm(s) && Unheld(s, taken, p) && Next(s, e, t) && WhileReading(e)
    ensures Unheld(t, taken, p) && Committed(t, p) == Committed(s, p)
  {
    UnheldLanded(s, taken, p);
    hide Latest, Shown, Unheld, Backed, Neutral, TailZero, Shows, Tracked, InOrder, Unhidden, Settled, FirmAt;
    FirmEnd(s, p);
    if e.Land? {
      UnheldLand(s, t, taken, p);
    } else {
      UnheldOther(s, e, t, taken, p);
    }
  }

  lemma FirmEnd(s: Session, p: nat)
    requires LandedCount(s) <= |s.frozen| && FirmAt(s, p) && LandedAt(s, p).None?
    ensures s.eof <= p ==> Shown(0, s.history, p) == 0
  {
  }

  /**
   The image a flush read earlier is also current wherever the generations it took hold nothing,
   even where bytes have been accepted since.
   */
  lemma {:induction false} EarlierUnheld(states: seq<Session>, events: seq<Event>, taken: nat, p: nat, n: nat)
    requires Run(states, events) && Inv(states[0]) && Tame(states[0]) && Firm(states[0]) && n <= |events|
    requires forall i :: 0 <= i < |events| ==> WhileReading(events[i])
    requires Unheld(states[0], taken, p)
    ensures Unheld(states[n], taken, p) && Committed(states[n], p) == Committed(states[0], p)
  {
    hide Inv, Tame, Firm, Next, Unheld, Committed;
    if n > 0 {
      EarlierUnheld(states, events, taken, p, n - 1);
      FirmRun(states, events, n - 1);
      assert RunStep(states, events, n - 1);
      UnheldStep(states[n - 1], events[n - 1], states[n], taken, p);
    }
  }

  // ---- Where the committed bytes come from ----

  ghost predicate Wrote(writes: seq<Piece>, p: nat, b: byte) {
    exists k :: 0 <= k < |writes| && Holds(writes[k], p) && writes[k].bytes[p - writes[k].start] == b
  }

  /** The byte readers saw at the start, or zero where a truncation cut it off. */
  ghost predicate Kept(o: Session, events: seq<Event>, p: nat, b: byte) {
    b == View(o, p) || (b == 0 && Cut(events, p))
  }

  ghost predicate Known(o: Session, since: seq<Piece>, events: seq<Event>, p: nat, b: byte) {
    Kept(o, events, p, b) || Wrote(since, p, b)
  }

  function ChosenAt(s: Session, p: nat): Option<byte>
    requires s.flight.Publishing? && s.flight.total <= |s.frozen|
  {
    Latest(LayersOf(s.frozen[..s.flight.total]), p)
  }

  /** Every byte of these layers was written. */
  ghost predicate AllWrote(layers: seq<Piece>, since: seq<Piece>, p: nat) {
    forall k :: 0 <= k < |layers| && Holds(layers[k], p) ==> Wrote(since, p, layers[k].bytes[p - layers[k].start])
  }

  function Younger(s: Session): seq<Piece>
    requires s.flight.Publishing? && s.flight.total <= |s.frozen|
  {
    LayersOf(s.frozen[s.flight.total..]) + s.active
  }

  ghost predicate Accounted(o: Session, s: Session, events: seq<Event>, p: nat) {
    && s.flight.Publishing? && s.flight.total <= |s.frozen| && AllWrote(Younger(s), s.since, p)
    && if ChosenAt(s, p).Some? then Known(o, s.since, events, p, ChosenAt(s, p).value)
       else Kept(o, events, p, Shown(0, s.history, p)) && (s.eof <= p ==> Kept(o, events, p, 0))
  }

  lemma CutPush(events: seq<Event>, e: Event, p: nat)
    ensures Cut(events + [e], p) <==> Cut(events, p) || (e.Shrink? && e.size <= p)
  {
    var all := events + [e];
    if Cut(events, p) {
      var i :| 0 <= i < |events| && events[i].Shrink? && events[i].size <= p;
      assert all[i] == events[i];
    }
    if e.Shrink? && e.size <= p {
      assert all[|events|] == e;
    }
  }

  lemma BeginAccounted(s: Session, t: Session, p: nat)
    requires Inv(s) && NextBegin(s, t)
    ensures Accounted(s, t, [Begin], p)
  {
    hide InOrder, AllCarried, Unhidden, Shows, Tracked, Latest, ByteAt, Layer, Canonical, PiecesWithin;
    FreezeLayers(s.active);
    LayersOfConcat(s.frozen, Freeze(s.active));
    assert t.frozen[..|t.frozen|] == t.frozen && LayersOf(t.frozen) == Unpublished(s);
    assert Younger(t) == [];
    UnpublishedAt(s, p);
    if ByteAt(s.dirty, p).None? && ChosenAt(t, p).Some? {
      assert NeutralAt(s, p);
      var i := FrozenHolder(s.frozen, p);
    }
  }

  /** Nothing that matters moved. */
  lemma SameAccounted(o: Session, s: Session, t: Session, events: seq<Event>, e: Event, p: nat)
    requires Accounted(o, s, events, p) && t.flight.Publishing? && t.flight.total <= |t.frozen|
    requires ChosenAt(t, p) == ChosenAt(s, p) && t.since == s.since && Younger(t) == Younger(s)
    requires Shown(0, t.history, p) == Shown(0, s.history, p) && s.eof <= t.eof
    ensures Accounted(o, t, events + [e], p)
  {
    hide Latest, LayersOf, AllWrote, View;
    CutPush(events, e, p);
  }

  lemma RelabelledAccounted(o: Session, s: Session, e: Event, t: Session, events: seq<Event>, p: nat)
    requires Accounted(o, s, events, p) && Next(s, e, t) && (e.Prepare? || e.Stage? || e.Grow? || e.Acknowledge?)
    ensures Accounted(o, t, events + [e], p)
  {
    hide Latest, AllWrote, View, Known, Kept, Shown;
    var n := s.flight.total;
    assert forall i :: 0 <= i < n ==> Layer(t.frozen[..n][i]) == Layer(s.frozen[..n][i]);
    assert LayersOf(t.frozen[..n]) == LayersOf(s.frozen[..n]) && t.frozen[n..] == s.frozen[n..];
    SameAccounted(o, s, t, events, e, p);
  }

  lemma WroteMore(writes: seq<Piece>, w: Piece, p: nat, b: byte)
    ensures Wrote(writes + [w], p, b) <==> Wrote(writes, p, b) || (Holds(w, p) && w.bytes[p - w.start] == b)
  {
    var all := writes + [w];
    if Wrote(writes, p, b) {
      var k :| 0 <= k < |writes| && Holds(writes[k], p) && writes[k].bytes[p - writes[k].start] == b;
      assert all[k] == writes[k];
    }
    if Holds(w, p) && w.bytes[p - w.start] == b {
      assert all[|writes|] == w;
    }
  }

  /** New generations hold what the active set held and what is written now. */
  lemma DrawnWrote(older: seq<Piece>, active: seq<Piece>, newer: seq<Piece>, since: seq<Piece>, offset: nat,
                   bytes: seq<byte>, p: nat)
    requires AllWrote(older + active, since, p) && Drawn(active, newer, offset, bytes)
    ensures AllWrote(older + newer, since + [Piece(offset, bytes)], p)
  {
    hide Latest, Wrote;
    var all := older + newer;
    forall k | 0 <= k < |all| && Holds(all[k], p)
      ensures Wrote(since + [Piece(offset, bytes)], p, all[k].bytes[p - all[k].start])
    {
      var b := all[k].bytes[p - all[k].start];
      WroteMore(since, Piece(offset, bytes), p, b);
      if k < |older| {
        assert (older + active)[k] == all[k];
      } else {
        assert newer[k - |older|] == all[k] && Drawable(active, offset, bytes, p, b);
        if Latest(active, p) == Some(b) {
          var j := LatestHolder(active, p);
          assert (older + active)[|older| + j] == active[j];
        }
      }
    }
  }

  lemma WriteWrote(s: Session, offset: nat, bytes: seq<byte>, t: Session, p: nat)
    requires s.flight.Publishing? && s.flight.total <= |s.frozen| && NextWrite(s, offset, bytes, t)
    requires AllWrote(Younger(s), s.since, p)
    ensures AllWrote(Younger(t), t.since, p)
  {
    hide Latest, LayersOf, AllWrote, Canonical, Overlaid, AllSized, AllWithin, PiecesWithin, Drawn;
    var n, extra := s.flight.total, t.frozen[|s.frozen|..];
    assert t.frozen[n..] == s.frozen[n..] + extra;
    LayersOfConcat(s.frozen[n..], extra);
    DrawnWrote(LayersOf(s.frozen[n..]), s.active, LayersOf(extra) + t.active, s.since, offset, bytes, p);
    assert Younger(t) == LayersOf(s.frozen[n..]) + (LayersOf(extra) + t.active);
  }

  lemma WriteAccounted(o: Session, s: Session, offset: nat, bytes: seq<byte>, t: Session, events: seq<Event>, p: nat)
    requires Accounted(o, s, events, p) && NextWrite(s, offset, bytes, t)
    ensures Accounted(o, t, events + [Write(offset, bytes)], p)
  {
    WriteWrote(s, offset, bytes, t, p);
    hide Latest, LayersOf, AllWrote, View, Canonical, Overlaid, Layered, AllSized, AllWithin, PiecesWithin, Wrote;
    CutPush(events, Write(offset, bytes), p);
    assert t.frozen[..s.flight.total] == s.frozen[..s.flight.total];
    if ChosenAt(s, p).Some? {
      WroteMore(s.since, Piece(offset, bytes), p, ChosenAt(s, p).value);
    }
  }

  lemma LandAccounted(o: Session, s: Session, t: Session, events: seq<Event>, p: nat)
    requires Inv(s) && Tame(s) && Unstarted(s) && Accounted(o, s, events, p) && NextLand(s, t)
    ensures Accounted(o, t, events + [Land], p)
  {
    hide Latest, Layer, Canonical, PiecesWithin, AllWithin, Carried, Backed, Neutral, TailZero, Shows, Tracked, View,
      AllWrote, InOrder, Unhidden, Wrote;
    CutPush(events, Land, p);
    var d, n := Done(s), s.flight.total;
    assert d < n && Sized(s.frozen[d]) && Carried(s.frozen[d]);
    LandedLayer(s.frozen[d], t.frozen[d]);
    assert LayersOf(t.frozen[..n]) == LayersOf(s.frozen[..n]) && t.frozen[n..] == s.frozen[n..];
    if ChosenAt(s, p).None? {
      UnheldLand(s, t, n, p);
    }
  }

  lemma CoalesceAccounted(o: Session, s: Session, taken: nat, image: seq<byte>, built: seq<Built>, t: Session,
                          events: seq<Event>, p: nat)
    requires Shaped(s) && Accounted(o, s, events, p) && NextCoalesce(s, taken, image, built, t)
    ensures Accounted(o, t, events + [Coalesce(taken, image, built)], p)
  {
    hide Latest, Layer, LayersOf, Reordered, Plan, Canonical, PiecesWithin, View, Wrote;
    CutPush(events, Coalesce(taken, image, built), p);
    CoalesceSplit(s, taken, image, built, t);
    var n, pending, extra := s.flight.total, s.frozen[..taken], s.frozen[taken..];
    CoalescingAt(pending, built, image, p);
    assert t.frozen[..t.flight.total] == Reordered(pending, built, |pending|) && t.frozen[t.flight.total..] == extra;
    assert pending == s.frozen[..n] + s.frozen[n..taken] && s.frozen[n..] == s.frozen[n..taken] + extra;
    LayersOfConcat(s.frozen[..n], s.frozen[n..taken]);
    LayersOfConcat(s.frozen[n..taken], extra);
    var middle := LayersOf(s.frozen[n..taken]);
    LatestConcat(LayersOf(s.frozen[..n]), middle, p);
    assert Younger(s) == middle + Younger(t);
    assert forall k :: 0 <= k < |Younger(t)| ==> Younger(t)[k] == Younger(s)[|middle| + k];
    if Latest(middle, p).Some? {
      var j := LatestHolder(middle, p);
      assert Younger(s)[j] == middle[j];
    }
  }

  lemma ShrinkWrote(s: Session, size: nat, t: Session, p: nat)
    requires Shaped(s) && s.flight.Publishing? && NextShrink(s, size, t) && AllWrote(Younger(s), s.since, p)
    requires t.flight.Publishing? && t.flight.total <= |t.frozen|
    ensures AllWrote(Younger(t), t.since, p)
  {
    hide Latest, Layer, Clipped, PiecesWithin, Wrote, ClipUpTo, ClipSlice, ByteAt;
    var n := s.flight.total;
    ClipSplit(s.frozen, n, |s.frozen|, size);
    var older := LayersOf(s.frozen[n..]);
    forall k | 0 <= k < |Younger(t)| && Holds(Younger(t)[k], p)
      ensures Wrote(t.since, p, Younger(t)[k].bytes[p - Younger(t)[k].start])
    {
      if k < |t.frozen| - t.flight.total {
        var i := ClipFrozenOrigin(s.frozen[n..], |s.frozen| - n, size, k);
        assert s.frozen[n..][i] == s.frozen[n + i] && Sized(s.frozen[n + i]);
        ClipSliceLayer(s.frozen[n + i], size);
        assert Younger(s)[i] == Layer(s.frozen[n + i]) && Younger(t)[k] == Clip(Layer(s.frozen[n + i]), size);
      } else {
        var j := ClippedHolder(s.active, t.active, size, k - (|t.frozen| - t.flight.total), p);
        assert Younger(s)[|older| + j] == s.active[j];
      }
    }
  }

  /** A clipped range set holds no other bytes. */
  lemma ClippedHolder(before: seq<Piece>, after: seq<Piece>, size: nat, k: nat, p: nat) returns (j: nat)
    requires Canonical(before) && Canonical(after) && Clipped(before, after, size)
    requires k < |after| && Holds(after[k], p)
    ensures j < |before| && Holds(before[j], p)
    ensures before[j].bytes[p - before[j].start] == after[k].bytes[p - after[k].start]
  {
    hide ByteAt;
    ByteAtOwn(after, k, p);
    j := ByteAtHolder(before, p);
  }

  lemma ShrinkAccounted(o: Session, s: Session, size: nat, t: Session, events: seq<Event>, p: nat)
    requires Inv(s) && Accounted(o, s, events, p) && NextShrink(s, size, t)
    ensures Accounted(o, t, events + [Shrink(size)], p)
  {
    ShrinkShaped(s, size, t);
    CutPush(events, Shrink(size), p);
    assert t.flight.Publishing?;
    ShrinkWrote(s, size, t, p);
    var n := s.flight.total;
    ClipSplit(s.frozen, n, |s.frozen|, size);
    assert t.frozen[..t.flight.total] == ClipUpTo(s.frozen, n, size);
    hide Latest, LayersOf, ClipUpTo, ByteAt, NextShrink, InOrder, AllCarried, Unhidden, Backed, Neutral, TailZero,
      Shows, Tracked, View, AllWrote, Wrote, Canonical, PiecesWithin;
    ClipFrozenAt(s.frozen, n, size, p);
    ShrinkAt(s, size, t, p);
    ShrinkEof(s, size, t);
    ShrinkSince(s, size, t);
  }

  lemma ShrinkSince(s: Session, size: nat, t: Session)
    requires NextShrink(s, size, t)
    ensures t.since == s.since
  {
  }

  lemma AccountedStep(o: Session, s: Session, e: Event, t: Session, events: seq<Event>, p: nat)
    requires Inv(s) && Tame(s) && Firm(s) && Accounted(o, s, events, p) && Next(s, e, t) && DuringFlush(e)
    ensures Accounted(o, t, events + [e], p)
  {
    hide Accounted, FirmAt, Backed, Neutral, TailZero, Shows, Tracked, InOrder, Unhidden, AllCarried, Settled,
      NextWrite, NextCoalesce, NextPrepare, NextStage, NextLand, NextGrow, NextAcknowledge, NextShrink;
    match e {
      case Write(offset, bytes) => WriteAccounted(o, s, offset, bytes, t, events, p);
      case Coalesce(taken, image, built) => CoalesceAccounted(o, s, taken, image, built, t, events, p);
      case Land => LandAccounted(o, s, t, events, p);
      case LandOrphan(_) =>
      case Shrink(size) => ShrinkAccounted(o, s, size, t, events, p);
      case _ => RelabelledAccounted(o, s, e, t, events, p);
    }
  }

  lemma {:induction false} FlushAccounted(states: seq<Session>, events: seq<Event>, n: nat, p: nat)
    requires Flush(states, events) && Inv(states[0]) && Tame(states[0]) && Firm(states[0])
    requires Guarded(states, events, |events|) && 1 <= n < |events|
    ensures Accounted(states[0], states[n], events[..n], p)
  {
    hide Inv, Tame, Firm, Next, Accounted, Spares;
    assert RunStep(states, events, n - 1);
    if n == 1 {
      assert events[..1] == [Begin];
      BeginAccounted(states[0], states[1], p) by { BeginNext(states[0], states[1]); }
    } else {
      FlushAccounted(states, events, n - 1, p);
      FirmRun(states, events, n - 1);
      assert DuringFlush(events[n - 1]) && events[..n - 1] + [events[n - 1]] == events[..n];
      AccountedStep(states[0], states[n - 1], events[n - 1], states[n], events[..n - 1], p);
    }
  }

  lemma BeginNext(s: Session, t: Session)
    requires Next(s, Begin, t)
    ensures NextBegin(s, t)
  {
  }

  /** With every candidate published the committed byte is theirs. */
  lemma FinishAccounted(o: Session, s: Session, t: Session, events: seq<Event>, p: nat)
    requires Inv(s) && Firm(s) && Accounted(o, s, events, p) && AllPublished(s) && NextFinish(s, t)
    ensures Known(o, s.since, events, p, Committed(t, p))
  {
    hide Backed, Neutral, TailZero, Shows, Tracked, Latest, ByteAt, Layer, Canonical, PiecesWithin, AllWrote, View,
      Wrote, LayersOf, Unhidden, AllCarried;
    var n := s.flight.total;
    assert LandedCount(s) == n;
    assert FirmAt(s, p) && LandedAt(s, p) == ChosenAt(s, p);
    if ChosenAt(s, p).Some? {
      var i := FrozenHolder(s.frozen[..n], p);
      assert s.frozen[..n][i] == s.frozen[i];
      HoldsBelow(s.frozen[i], p);
    }
  }

  /**
   A flush that returned OK: at every position the committed history alone shows the byte readers
   saw when it began, a byte written there since, or zero where a truncation cut the file.
   */
  lemma FlushDurable(states: seq<Session>, events: seq<Event>, p: nat)
    requires Flush(states, events) && Inv(states[0]) && Tame(states[0]) && Firm(states[0])
    requires Guarded(states, events, |events|) && AllPublished(states[|events| - 1])
    ensures Known(states[0], Writes(events[1..|events| - 1]), events, p, Committed(states[|events|], p))
  {
    hide Inv, Tame, Firm, Next, Accounted, Spares, Committed, AllPublished, View, Wrote;
    var n := |events|;
    FlushAccounted(states, events, n - 1, p);
    FirmRun(states, events, n - 1);
    FlushSince(states, events, n - 1);
    assert RunStep(states, events, n - 1);
    assert NextFinish(states[n - 1], states[n]) by { FinishNext(states[n - 1], states[n]); }
    FinishAccounted(states[0], states[n - 1], states[n], events[..n - 1], p);
    assert events == events[..n - 1] + [events[n - 1]];
    CutPush(events[..n - 1], events[n - 1], p);
  }

  lemma FinishNext(s: Session, t: Session)
    requires Next(s, Finish, t)
    ensures NextFinish(s, t)
  {
  }

  // ---- A flush that nothing disturbs ----

  predicate Publishes(e: Event) { e.Prepare? || e.Stage? || e.Land? || e.Grow? || e.Acknowledge? }

  /** How far the candidates still are from being acknowledged. */
  function Distance(s: Session): nat
    requires s.flight.Publishing? && s.flight.done <= s.flight.total <= |s.frozen|
  {
    if s.flight.done == s.flight.total then 0
    else
      var c := s.frozen[s.flight.done];
      5 * (s.flight.total - s.flight.done - 1)
      + match c.progress
        case Untouched => 5
        case Prepared => 4
        case Staged(_) => 3
        case Landed(_) => if s.eof < EofEnd(c) then 2 else 1
  }

  ghost predicate UnderWay(s: Session) { s.flight.Publishing? && s.flight.done <= s.flight.total <= |s.frozen| }

  /** The end of the file is the later of the one before and the furthest of the candidates from `first` on. */
  ghost predicate Covered(slices: seq<FrozenSlice>, first: nat, was: nat, eof: nat) {
    && was <= eof && (eof == was || exists k :: first <= k < |slices| && eof == EofEnd(slices[k]))
    && forall k :: first <= k < |slices| ==> EofEnd(slices[k]) <= eof
  }

  /** There is always a next step towards the end of the flush. */
  lemma Advances(s: Session) returns (e: Event, t: Session)
    requires UnderWay(s) && s.flight.done < s.flight.total
    ensures Publishes(e) && Next(s, e, t) && UnderWay(t) && Distance(t) < Distance(s)
    ensures t.active == s.active && t.flight.total == s.flight.total && |t.frozen| == |s.frozen|
    ensures forall k :: 0 <= k < |s.frozen| ==> EofEnd(t.frozen[k]) == EofEnd(s.frozen[k])
    ensures t.eof == s.eof || s.eof < t.eof == EofEnd(s.frozen[s.flight.done])
    ensures t.flight.done == s.flight.done || (t.flight.done == s.flight.done + 1 &&
                                               EofEnd(s.frozen[s.flight.done]) <= t.eof)
  {
    var d := s.flight.done;
    var c := s.frozen[d];
    match c.progress {
      case Untouched =>
        e, t := Prepare(d), s.(frozen := s.frozen[d := c.(progress := Prepared)]);
      case Prepared =>
        e, t := Stage, s.(frozen := s.frozen[d := c.(progress := Staged(c.visibleLen))]);
      case Staged(len) =>
        e, t := Land, s.(frozen := s.frozen[d := c.(progress := Landed(len))], history := s.history + [Flown(c)]);
      case Landed(_) =>
        if s.eof < EofEnd(c) {
          e, t := Grow(EofEnd(c)), s.(eof := EofEnd(c));
        } else {
          e, t := Acknowledge, s.(flight := Publishing(s.flight.total, d + 1));
        }
    }
  }

  lemma {:induction false} PublishesAll(s: Session) returns (states: seq<Session>, events: seq<Event>)
    requires UnderWay(s) && s.flight.total == |s.frozen|
    ensures Run(states, events) && states[0] == s && forall i :: 0 <= i < |events| ==> Publishes(events[i])
    ensures var t := states[|events|];
            && AllPublished(t) && t.active == s.active && t.flight.total == s.flight.total && |t.frozen| == |s.frozen|
            && Covered(s.frozen, s.flight.done, s.eof, t.eof)
    decreases Distance(s)
  {
    hide Next;
    if s.flight.done == s.flight.total {
      states, events := [s], [];
    } else {
      var e, t := Advances(s);
      var later, more := PublishesAll(t);
      states, events := [s] + later, [e] + more;
      forall i | 0 <= i < |events| ensures RunStep(states, events, i) {
        if i > 0 {
          assert RunStep(later, more, i - 1);
        }
      }
    }
  }

  lemma NothingPending(s: Session, t: Session)
    requires AllPublished(s) && s.flight.total == |s.frozen| && s.active == []
    requires t == s.(frozen := [], dirty := [], flight := Idle)
    ensures NextFinish(s, t)
  {
    hide Latest, ByteAt;
    assert s.frozen[s.flight.done..] == [] && Unpublished(t) == [];
    forall p: nat ensures ByteAt(t.dirty, p) == Latest(Unpublished(t), p) {
      ByteAtOutside([], p);
      LatestOfNothing(Unpublished(t), p);
    }
  }

  /** Once it has begun, the rest of the flush can run to its end. */
  lemma Completes(s: Session) returns (states: seq<Session>, events: seq<Event>)
    requires s.flight.Idle?
    ensures Flush(states, events) && states[0] == s && AllPublished(states[|events| - 1])
    ensures forall i :: 0 < i < |events| - 1 ==> Publishes(events[i])
    ensures var t := states[|events|];
            && t.frozen == [] && t.active == [] && t.dirty == [] && t.flight.Idle?
            && Covered(s.frozen + Freeze(s.active), 0, s.eof, t.eof)
  {
    var frozen := s.frozen + Freeze(s.active);
    var begun := s.(frozen := frozen, active := [], flight := Publishing(|frozen|, 0), since := []);
    assert Next(s, Begin, begun);
    var middle, steps := PublishesAll(begun);
    var last := middle[|steps|];
    var done := last.(frozen := [], dirty := [], flight := Idle);
    NothingPending(last, done);
    assert Next(last, Finish, done);
    hide Next, NextFinish;
    states, events := [s] + middle + [done], [Begin] + steps + [Finish];
    forall i | 0 <= i < |events| ensures RunStep(states, events, i) {
      if 0 < i < |events| - 1 {
        assert RunStep(middle, steps, i - 1);
      }
    }
    assert forall i :: 0 < i < |events| - 1 ==> events[i] == steps[i - 1];
  }

  lemma {:induction false} NothingWritten(events: seq<Event>)
    requires forall i :: 0 <= i < |events| ==> Publishes(events[i])
    ensures Writes(events) == []
  {
    if events != [] {
      NothingWritten(events[..|events| - 1]);
    }
  }

  /** The end of the file covers every piece and, unless it is where it was, is the end of one. */
  ghost predicate Reaches(layers: seq<Piece>, was: nat, eof: nat) {
    && was <= eof && (eof == was || exists k :: 0 <= k < |layers| && eof == layers[k].start + |layers[k].bytes|)
    && forall k :: 0 <= k < |layers| ==> layers[k].start + |layers[k].bytes| <= eof
  }

  lemma CoveredReaches(s: Session, eof: nat)
    requires Inv(s) && s.flight.Idle? && Covered(s.frozen + Freeze(s.active), 0, s.eof, eof)
    ensures Reaches(Unpublished(s), s.eof, eof)
  {
    hide Latest, ByteAt, Layer, InOrder, AllCarried, Unhidden, Backed, Neutral, TailZero, Shows, Tracked;
    var frozen := s.frozen + Freeze(s.active);
    FreezeLayers(s.active);
    LayersOfConcat(s.frozen, Freeze(s.active));
    assert Unpublished(s) == LayersOf(frozen);
    forall k | 0 <= k < |frozen| ensures frozen[k].pos + |Layer(frozen[k]).bytes| == EofEnd(frozen[k]) {
      assert Sized(frozen[k]);
      LayerEnds(frozen[k]);
    }
  }

  lemma LayerEnds(c: FrozenSlice)
    requires Sized(c)
    ensures c.pos + |Layer(c).bytes| == EofEnd(c)
  {
  }

  /**
   A flush that nothing disturbs publishes everything: afterwards nothing is pending, the committed
   history alone shows every byte that readers saw before, and the file ends where it did or where
   the furthest accepted byte does.
   */
  lemma UndisturbedFlush(s: Session) returns (states: seq<Session>, events: seq<Event>)
    requires Inv(s) && Tame(s) && s.flight.Idle?
    ensures Flush(states, events) && states[0] == s && AllPublished(states[|events| - 1])
    ensures var t := states[|events|];
            && t.frozen == [] && t.active == [] && t.dirty == [] && t.flight.Idle?
            && Reaches(Unpublished(s), s.eof, t.eof)
            && forall p: nat :: Committed(t, p) == View(s, p)
  {
    hide Inv, Tame, Next, Covered, Reaches, Committed, View, MaxEof, AllPublished, Latest, Spares;
    states, events := Completes(s);
    var n := |events|;
    forall i | 0 <= i < n ensures Spares(states[i], events[i]) {
      assert 0 < i < n - 1 ==> Publishes(events[i]);
      SparesAnyway(states[i], events[i]);
    }
    assert Guarded(states, events, n);
    CoveredReaches(s, states[n].eof);
    var inner := events[1..n - 1];
    assert forall i :: 0 <= i < |inner| ==> inner[i] == events[i + 1];
    NothingWritten(inner);
    forall p: nat ensures Committed(states[n], p) == View(s, p) {
      LatestOfNothing(Writes(inner), p);
      NothingCut(events, p);
      FlushPreserves(states, events, p);
    }
  }

  lemma SparesAnyway(s: Session, e: Event)
    requires !e.Shrink?
    ensures Spares(s, e)
  {
  }

  lemma NothingCut(events: seq<Event>, p: nat)
    requires forall i :: 0 <= i < |events| ==> !events[i].Shrink?
    ensures !Cut(events, p)
  {
  }
}
