/**
 A slice chunk session as a state machine over its critical sections: `Write`, `TruncateLocal`
 and every step of `Flush` and `PublishFrozen`, interleaved freely.
 */
module SliceSession {
  import opened Common
  import opened DirtyRanges
  import opened Layers
  import opened Windows

  /** The flush in progress: its candidates are the first `total` frozen ones, `done` are published. */
  datatype Flight = Idle | Publishing(total: nat, done: nat)

  /**
   `history` holds the attached record list as byte layers, clipped by the captured boundaries;
   `eof` is the file's end relative to this chunk; `since` lists the writes accepted since the
   current flush began; `orphans` are records under way whose candidate has been released.
   */
  datatype Session = Session(
    chunkSize: nat, frozen: seq<FrozenSlice>, active: seq<Piece>, dirty: seq<Piece>,
    history: seq<Piece>, eof: nat, flight: Flight, since: seq<Piece>, orphans: seq<Piece>)

  datatype Event =
    | Write(offset: nat, bytes: seq<byte>)
    | Begin
    | Coalesce(taken: nat, image: seq<byte>, built: seq<Built>)
    | Prepare(index: nat)
    | Stage
    | Land
    | LandOrphan(index: nat)
    | Grow(eof: nat)
    | Acknowledge
    | Finish
    | Shrink(size: nat)

  function Done(s: Session): nat { if s.flight.Publishing? then s.flight.done else 0 }

  /** What the published history alone shows. */
  function Committed(s: Session, p: nat): byte { if p < s.eof then Shown(0, s.history, p) else 0 }

  /** What `Read` returns. */
  function View(s: Session, p: nat): byte {
    if ByteAt(s.dirty, p).Some? then ByteAt(s.dirty, p).value else Committed(s, p)
  }

  /** The unpublished generations, oldest first. */
  function Unpublished(s: Session): seq<Piece> { LayersOf(s.frozen) + s.active }

  ghost predicate PiecesWithin(pieces: seq<Piece>, size: nat) {
    forall k :: 0 <= k < |pieces| ==> End(pieces[k]) <= size
  }

  /** `FreezeActiveLocked`: one untouched generation per active range. */
  function Freeze(active: seq<Piece>): (r: seq<FrozenSlice>)
    ensures |r| == |active|
    ensures forall k :: 0 <= k < |r| ==>
                          r[k] == FrozenSlice(active[k].start, active[k].bytes, |active[k].bytes|, |active[k].bytes|,
                                              false, Untouched)
  {
    seq(|active|, k requires 0 <= k < |active| =>
      FrozenSlice(active[k].start, active[k].bytes, |active[k].bytes|, |active[k].bytes|, false, Untouched))
  }

  /** The record of a candidate under way or arrived; its length was fixed when it left. */
  function Flown(c: FrozenSlice): Piece
    requires c.progress.Staged? || c.progress.Landed?
  {
    Piece(c.pos, c.payload[..Min(c.progress.len, |c.payload|)])
  }

  /** A truncation clips what is here; it clips a record that has landed, and not one under way. */
  function ClipSlice(c: FrozenSlice, size: nat): FrozenSlice {
    var remaining := if size > c.pos then size - c.pos else 0;
    var visible := Min(c.visibleLen, remaining);
    c.(visibleLen := visible, eofLen := Min(c.eofLen, visible),
    progress := if c.progress.Landed? then Landed(Min(c.progress.len, remaining)) else c.progress)
  }

  /** The frozen part of `TruncateLocal`: lengths are clipped and empty generations released. */
  function ClipFrozen(frozen: seq<FrozenSlice>, size: nat): seq<FrozenSlice> { ClipUpTo(frozen, |frozen|, size) }

  function ClipUpTo(frozen: seq<FrozenSlice>, n: nat, size: nat): (r: seq<FrozenSlice>)
    requires n <= |frozen|
    ensures |r| <= n
  {
    if n == 0 then []
    else
      var last := ClipSlice(frozen[n - 1], size);
      if last.visibleLen == 0 then ClipUpTo(frozen, n - 1, size) else ClipUpTo(frozen, n - 1, size) + [last]
  }

  /** The records under way whose candidates the truncation releases. */
  function Orphaned(frozen: seq<FrozenSlice>, n: nat, size: nat): seq<Piece>
    requires n <= |frozen|
  {
    if n == 0 then []
    else if frozen[n - 1].progress.Staged? && ClipSlice(frozen[n - 1], size).visibleLen == 0
    then Orphaned(frozen, n - 1, size) + [Flown(frozen[n - 1])]
    else Orphaned(frozen, n - 1, size)
  }

  /** The flush goes on with the candidates that are left. */
  function ClipFlight(flight: Flight, frozen: seq<FrozenSlice>, size: nat): Flight {
    if flight.Publishing? && flight.done <= |frozen| && flight.total <= |frozen|
    then Publishing(|ClipUpTo(frozen, flight.total, size)|, |ClipUpTo(frozen, flight.done, size)|) else flight
  }

  ghost predicate Clipped(before: seq<Piece>, after: seq<Piece>, size: nat) {
    forall p: nat :: ByteAt(after, p) == if p < size then ByteAt(before, p) else None
  }

  // ---- The steps ----

  /** The byte was in the old active set or is the write's. */
  ghost predicate Drawable(before: seq<Piece>, offset: nat, bytes: seq<byte>, p: nat, b: byte) {
    Latest(before, p) == Some(b) || (offset <= p < offset + |bytes| && b == bytes[p - offset])
  }

  ghost predicate Drawn(before: seq<Piece>, layers: seq<Piece>, offset: nat, bytes: seq<byte>) {
    forall k, p: nat :: 0 <= k < |layers| && Holds(layers[k], p) ==>
                          Drawable(before, offset, bytes, p, layers[k].bytes[p - layers[k].start])
  }

  /** The newest generations are the old active set under the write, and hide nothing else. */
  ghost predicate Layered(before: seq<Piece>, extra: seq<FrozenSlice>, after: seq<Piece>, offset: nat,
                          bytes: seq<byte>) {
    && Drawn(before, LayersOf(extra) + after, offset, bytes)
    && forall p: nat :: Latest(LayersOf(extra) + after, p) ==
                        if offset <= p < offset + |bytes| then Some(bytes[p - offset]) else Latest(before, p)
  }

  /** `SliceChunk::Write` accepted `bytes`, freezing whenever the active set was full. */
  ghost predicate NextWrite(s: Session, offset: nat, bytes: seq<byte>, t: Session) {
    && t == s.(frozen := t.frozen, active := t.active, dirty := t.dirty, since := s.since + [Piece(offset, bytes)])
    && bytes != [] && offset + |bytes| <= s.chunkSize
    && Canonical(t.dirty) && Overlaid(s.dirty, t.dirty, offset, bytes)
    && Canonical(t.active) && PiecesWithin(t.active, s.chunkSize)
    && s.frozen <= t.frozen
    && var extra := t.frozen[|s.frozen|..];
    && AllSized(extra) && AllWithin(extra, s.chunkSize)
    && (forall k :: 0 <= k < |extra| ==> extra[k].progress == Untouched)
    && Layered(s.active, extra, t.active, offset, bytes)
  }

  ghost predicate NextBegin(s: Session, t: Session) {
    && s.flight.Idle?
    && var frozen := s.frozen + Freeze(s.active);
    t == s.(frozen := frozen, active := [], flight := Publishing(|frozen|, 0), since := [])
  }

  /** The candidates assembled from the generations frozen so far replace their sources. */
  ghost predicate Installs(s: Session, taken: nat, image: seq<byte>, built: seq<Built>, t: Session) {
    && s.flight.Publishing? && s.flight.done == 0 && s.flight.total <= taken <= |s.frozen| && |image| == s.chunkSize
    && Plan(built, s.frozen[..taken], image)
    && t == s.(frozen := Reordered(s.frozen, built, taken),
            flight := Publishing(|Reordered(s.frozen[..taken], built, taken)|, 0))
  }

  /**
   The image was read while writes and sibling publications went on; it is current where nothing
   is pending, and where the snapshot of the generations holds nothing.
   */
  ghost predicate NextCoalesce(s: Session, taken: nat, image: seq<byte>, built: seq<Built>, t: Session) {
    && Installs(s, taken, image, built, t)
    && forall p: nat :: p < |image| && (ByteAt(s.dirty, p).None? || Latest(LayersOf(s.frozen[..taken]), p).None?) ==>
                          image[p] == Committed(s, p)
  }

  ghost predicate NextPrepare(s: Session, i: nat, t: Session) {
    && s.flight.Publishing? && s.flight.done <= i < s.flight.total <= |s.frozen| && s.frozen[i].progress == Untouched
    && t == s.(frozen := s.frozen[i := s.frozen[i].(progress := Prepared)])
  }

  /** The record leaves the mount: an append is sent or a private index is created. */
  ghost predicate NextStage(s: Session, t: Session) {
    && s.flight.Publishing? && s.flight.done < s.flight.total <= |s.frozen|
    && s.frozen[s.flight.done].progress == Prepared
    && var c := s.frozen[s.flight.done];
    t == s.(frozen := s.frozen[s.flight.done := c.(progress := Staged(c.visibleLen))])
  }

  /** The record enters the attached history, at once or long after its reply was lost. */
  ghost predicate NextLand(s: Session, t: Session) {
    && Done(s) < |s.frozen| && s.frozen[Done(s)].progress.Staged?
    && var c := s.frozen[Done(s)];
    t == s.(frozen := s.frozen[Done(s) := c.(progress := Landed(c.progress.len))], history := s.history + [Flown(c)])
  }

  /** So may a record whose candidate is gone. */
  ghost predicate NextLandOrphan(s: Session, i: nat, t: Session) {
    && i < |s.orphans|
    && t == s.(history := s.history + [s.orphans[i]], orphans := s.orphans[..i] + s.orphans[i + 1..])
  }

  /** The EOF advances: a finalized write here or in a sibling chunk. */
  ghost predicate NextGrow(s: Session, eof: nat, t: Session) { s.eof <= eof && t == s.(eof := eof) }

  /** `PublishFrozen` returned OK. */
  ghost predicate NextAcknowledge(s: Session, t: Session) {
    && s.flight.Publishing? && s.flight.done < s.flight.total <= |s.frozen|
    && s.frozen[s.flight.done].progress.Landed? && EofEnd(s.frozen[s.flight.done]) <= s.eof
    && t == s.(flight := Publishing(s.flight.total, s.flight.done + 1))
  }

  /** Any exit of `Flush`: the confirmed generations are retired and the view is rebuilt. */
  ghost predicate NextFinish(s: Session, t: Session) {
    && s.flight.Publishing? && s.flight.done <= |s.frozen|
    && t == s.(frozen := s.frozen[s.flight.done..], dirty := t.dirty, flight := Idle)
    && ((s.flight.done == 0 && t.dirty == s.dirty) ||
        (Canonical(t.dirty) && forall p: nat :: ByteAt(t.dirty, p) == Latest(Unpublished(t), p)))
  }

  /** `TruncateLocal` and the boundary it captures, at any time. */
  ghost predicate NextShrink(s: Session, size: nat, t: Session) {
    && t == s.(frozen := ClipFrozen(s.frozen, size), active := t.active, dirty := t.dirty,
            history := ClipAll(s.history, size), eof := Min(s.eof, size),
            flight := ClipFlight(s.flight, s.frozen, size),
            orphans := s.orphans + Orphaned(s.frozen, |s.frozen|, size))
    && Canonical(t.active) && Clipped(s.active, t.active, size)
    && Canonical(t.dirty) && Clipped(s.dirty, t.dirty, size)
    && PiecesWithin(t.active, s.chunkSize)
  }

  ghost predicate Next(s: Session, e: Event, t: Session) {
    match e
    case Write(offset, bytes) => NextWrite(s, offset, bytes, t)
    case Begin => NextBegin(s, t)
    case Coalesce(taken, image, built) => NextCoalesce(s, taken, image, built, t)
    case Prepare(i) => NextPrepare(s, i, t)
    case Stage => NextStage(s, t)
    case Land => NextLand(s, t)
    case LandOrphan(i) => NextLandOrphan(s, i, t)
    case Grow(eof) => NextGrow(s, eof, t)
    case Acknowledge => NextAcknowledge(s, t)
    case Finish => NextFinish(s, t)
    case Shrink(size) => NextShrink(s, size, t)
  }

  // ---- The invariant ----

  ghost predicate Shaped(s: Session) {
    && Canonical(s.dirty) && Canonical(s.active) && PiecesWithin(s.active, s.chunkSize)
    && AllSized(s.frozen) && AllWithin(s.frozen, s.chunkSize)
    && (s.flight.Publishing? ==> s.flight.done <= s.flight.total <= |s.frozen|)
  }

  predicate Fresh(c: FrozenSlice) { c.progress.Untouched? || c.progress.Prepared? }

  /** Publication proceeds in acceptance order, one candidate at a time. */
  ghost predicate InOrder(s: Session) {
    forall i :: 0 <= i < |s.frozen| ==>
                  && (i < Done(s) ==> s.frozen[i].progress.Landed? && VisibleEnd(s.frozen[i]) <= s.eof)
                  && (i > Done(s) ==> Fresh(s.frozen[i]))
  }

  /** A record is at least as long as what is left of its candidate. */
  predicate Carried(c: FrozenSlice) { Fresh(c) || c.visibleLen <= c.progress.len <= |c.payload| }

  ghost predicate AllCarried(frozen: seq<FrozenSlice>) { forall i :: 0 <= i < |frozen| ==> Carried(frozen[i]) }

  /** The record has a byte there that a truncation took from the candidate. */
  predicate Overhangs(c: FrozenSlice, p: nat) { !Fresh(c) && VisibleEnd(c) <= p < c.pos + c.progress.len }

  /** No older generation holds a position that a truncation took from a later one. */
  ghost predicate Unhidden(frozen: seq<FrozenSlice>) {
    forall i, j, p: nat :: 0 <= i < j < |frozen| && Holds(Layer(frozen[i]), p) ==> !Overhangs(frozen[j], p)
  }

  /** The dirty view agrees with frozen-then-active on every byte it covers. */
  ghost predicate Backed(s: Session) {
    forall p: nat :: ByteAt(s.dirty, p).Some? ==> Latest(Unpublished(s), p) == ByteAt(s.dirty, p)
  }

  /** A generation covers a position outside the dirty view only with the committed byte. */
  ghost predicate Neutral(s: Session) {
    forall p: nat :: ByteAt(s.dirty, p).None? ==> NeutralAt(s, p)
  }

  ghost predicate NeutralAt(s: Session, p: nat) {
    && Latest(s.active, p).None?
    && forall i :: 0 <= i < |s.frozen| && Holds(Layer(s.frozen[i]), p) ==>
                     Layer(s.frozen[i]).bytes[p - s.frozen[i].pos] == Committed(s, p)
  }

  /** Nothing hidden beyond the end. */
  ghost predicate TailZero(s: Session) {
    forall p: nat :: s.eof <= p && ByteAt(s.dirty, p).None? ==> Shown(0, s.history, p) == 0
  }

  function LandedCount(s: Session): nat {
    if Done(s) < |s.frozen| && s.frozen[Done(s)].progress.Landed? then Done(s) + 1 else Done(s)
  }

  /** The generations that have not landed yet. */
  function Waiting(s: Session): seq<Piece>
    requires LandedCount(s) <= |s.frozen|
  {
    LayersOf(s.frozen[LandedCount(s)..]) + s.active
  }

  /** Where no other generation is waiting, the history shows what the landed ones hold. */
  ghost predicate ShowsAt(s: Session, p: nat)
    requires LandedCount(s) <= |s.frozen|
  {
    var landed := Latest(LayersOf(s.frozen[..LandedCount(s)]), p);
    Latest(Waiting(s), p).None? && landed.Some? ==> Latest(s.history, p) == landed
  }

  ghost predicate Shows(s: Session) { LandedCount(s) <= |s.frozen| && forall p: nat :: ShowsAt(s, p) }

  /** Generations outside the flush come from writes accepted since it began. */
  ghost predicate Tracked(s: Session) {
    s.flight.Publishing? && s.flight.total <= |s.frozen| ==>
      forall p: nat :: Latest(LayersOf(s.frozen[s.flight.total..]) + s.active, p).Some? ==> Latest(s.since, p).Some?
  }

  ghost predicate Inv(s: Session) {
    && Shaped(s) && InOrder(s) && AllCarried(s.frozen) && Unhidden(s.frozen) && Backed(s) && Neutral(s) && TailZero(s)
    && Shows(s) && Tracked(s)
  }

  /**
   A record may land: where it has a byte that its candidate lost, a generation with a newer byte
   is still waiting, or the history shows that byte already.
   */
  ghost predicate Harmless(s: Session, r: Piece, from: nat)
    requires LandedCount(s) <= |s.frozen|
  {
    forall p: nat :: from <= p && Holds(r, p) && (ByteAt(s.dirty, p).None? || Latest(Waiting(s), p).None?) ==>
                       r.bytes[p - r.start] == Shown(0, s.history, p)
  }

  /** What an event does to the byte a reader sees. */
  function Effect(e: Event, was: byte, p: nat): byte {
    match e
    case Write(offset, bytes) => if offset <= p < offset + |bytes| then bytes[p - offset] else was
    case Shrink(size) => if p < size then was else 0
    case _ => was
  }

  // ---- Looking through the layers ----

  lemma UnpublishedAt(s: Session, p: nat)
    ensures Latest(Unpublished(s), p) ==
            if Latest(s.active, p).Some? then Latest(s.active, p) else Latest(LayersOf(s.frozen), p)
  {
    LatestConcat(LayersOf(s.frozen), s.active, p);
  }

  /** A generation found by `Latest` is one of the frozen ones. */
  lemma FrozenHolder(frozen: seq<FrozenSlice>, p: nat) returns (k: nat)
    requires Latest(LayersOf(frozen), p).Some?
    ensures k < |frozen| && Holds(Layer(frozen[k]), p)
    ensures Latest(LayersOf(frozen), p) == Some(Layer(frozen[k]).bytes[p - frozen[k].pos])
  {
    k := LatestHolder(LayersOf(frozen), p);
  }

  lemma FrozenUnheld(frozen: seq<FrozenSlice>, p: nat)
    ensures Latest(LayersOf(frozen), p).None? <==> forall k :: 0 <= k < |frozen| ==> !Holds(Layer(frozen[k]), p)
  {
    hide Layer;
    LatestNone(LayersOf(frozen), p);
    if Latest(LayersOf(frozen), p).None? {
      forall k | 0 <= k < |frozen| ensures !Holds(Layer(frozen[k]), p) {
        assert LayersOf(frozen)[k] == Layer(frozen[k]);
      }
    }
  }

  // ---- Write ----

  lemma WriteAt(s: Session, offset: nat, bytes: seq<byte>, t: Session, p: nat)
    requires NextWrite(s, offset, bytes, t)
    ensures Latest(Unpublished(t), p) ==
            if offset <= p < offset + |bytes| then Some(bytes[p - offset]) else Latest(Unpublished(s), p)
    ensures Latest(t.active, p).Some? ==> offset <= p < offset + |bytes| || Latest(s.active, p).Some?
    ensures forall i :: |s.frozen| <= i < |t.frozen| && Holds(Layer(t.frozen[i]), p) ==>
                          offset <= p < offset + |bytes| || Latest(s.active, p).Some?
  {
    hide Latest, Layer, Canonical, Overlaid, AllSized, AllWithin;
    var extra := t.frozen[|s.frozen|..];
    assert t.frozen == s.frozen + extra;
    LayersOfConcat(s.frozen, extra);
    assert Unpublished(t) == LayersOf(s.frozen) + (LayersOf(extra) + t.active);
    LatestConcat(LayersOf(s.frozen), LayersOf(extra) + t.active, p);
    LatestConcat(LayersOf(extra), t.active, p);
    UnpublishedAt(s, p);
    FrozenUnheld(extra, p);
    assert forall i :: |s.frozen| <= i < |t.frozen| ==> t.frozen[i] == extra[i - |s.frozen|];
  }

  /** Generations appended at the end disturb neither the order nor the records. */
  lemma MoreFrozen(s: Session, extra: seq<FrozenSlice>, t: Session)
    requires Shaped(s) && InOrder(s) && AllCarried(s.frozen) && Unhidden(s.frozen)
    requires t.frozen == s.frozen + extra && forall k :: 0 <= k < |extra| ==> extra[k].progress == Untouched
    requires Done(t) == Done(s) && t.eof == s.eof
    ensures InOrder(t) && AllCarried(t.frozen) && Unhidden(t.frozen)
    ensures LandedCount(t) == LandedCount(s) <= |s.frozen|
  {
    hide Layer, Canonical, PiecesWithin, AllSized, AllWithin, Holds;
    assert forall i :: |s.frozen| <= i < |t.frozen| ==> t.frozen[i] == extra[i - |s.frozen|];
    assert Done(s) <= |s.frozen|;
  }

  lemma MoreSized(a: seq<FrozenSlice>, b: seq<FrozenSlice>, size: nat)
    requires AllSized(a) && AllWithin(a, size) && AllSized(b) && AllWithin(b, size)
    ensures AllSized(a + b) && AllWithin(a + b, size)
  {
  }

  lemma WriteShaped(s: Session, offset: nat, bytes: seq<byte>, t: Session)
    requires Inv(s) && NextWrite(s, offset, bytes, t)
    ensures Shaped(t) && InOrder(t) && AllCarried(t.frozen) && Unhidden(t.frozen)
    ensures LandedCount(t) == LandedCount(s) <= |s.frozen|
  {
    hide Latest, Layer, Canonical, Overlaid, PiecesWithin, AllSized, AllWithin, InOrder, AllCarried, Unhidden, Shows,
      Backed, Neutral, TailZero, Tracked, LandedCount;
    var extra := t.frozen[|s.frozen|..];
    assert t.frozen == s.frozen + extra;
    MoreSized(s.frozen, extra, s.chunkSize);
    MoreFrozen(s, extra, t);
  }

  lemma WriteShows(s: Session, offset: nat, bytes: seq<byte>, t: Session)
    requires Shows(s) && NextWrite(s, offset, bytes, t) && LandedCount(t) == LandedCount(s)
    ensures Shows(t)
  {
    hide Latest, Layer, LayersOf, Canonical, LandedCount, AllSized, AllWithin;
    var n := LandedCount(s);
    var extra, before := t.frozen[|s.frozen|..], s.frozen[n..];
    assert t.frozen[n..] == before + extra && t.frozen[..n] == s.frozen[..n];
    LayersOfConcat(before, extra);
    assert Waiting(t) == LayersOf(before) + (LayersOf(extra) + t.active);
    forall p: nat ensures ShowsAt(t, p) {
      LatestConcat(LayersOf(before), LayersOf(extra) + t.active, p);
      LatestConcat(LayersOf(before), s.active, p);
      assert ShowsAt(s, p);
    }
  }

  lemma WriteBacked(s: Session, offset: nat, bytes: seq<byte>, t: Session)
    requires Backed(s) && NextWrite(s, offset, bytes, t)
    ensures Backed(t) && (TailZero(s) ==> TailZero(t))
  {
    hide Latest, ByteAt, Unpublished;
    forall p: nat | ByteAt(t.dirty, p).Some? ensures Latest(Unpublished(t), p) == ByteAt(t.dirty, p) {
      WriteAt(s, offset, bytes, t, p);
    }
  }

  lemma WriteNeutral(s: Session, offset: nat, bytes: seq<byte>, t: Session)
    requires Inv(s) && NextWrite(s, offset, bytes, t)
    ensures Neutral(t)
  {
    hide Latest, ByteAt, Layer, Shaped, InOrder, AllCarried, Unhidden, Backed, TailZero, Shows, Tracked;
    forall p: nat | ByteAt(t.dirty, p).None? ensures NeutralAt(t, p) {
      WriteAt(s, offset, bytes, t, p);
      assert NeutralAt(s, p);
      assert forall i :: 0 <= i < |s.frozen| ==> t.frozen[i] == s.frozen[i];
    }
  }

  lemma WriteTracked(s: Session, offset: nat, bytes: seq<byte>, t: Session)
    requires Inv(s) && NextWrite(s, offset, bytes, t)
    ensures Tracked(t)
  {
    hide Latest, ByteAt, Layer, Canonical, InOrder, AllCarried, Unhidden, Backed, Neutral, TailZero, Shows;
    if s.flight.Publishing? {
      var extra, before := t.frozen[|s.frozen|..], s.frozen[s.flight.total..];
      var after := t.frozen[s.flight.total..];
      assert after == before + extra;
      LayersOfConcat(before, extra);
      assert LayersOf(after) + t.active == LayersOf(before) + (LayersOf(extra) + t.active);
      forall p: nat | Latest(LayersOf(after) + t.active, p).Some? ensures Latest(t.since, p).Some? {
        LatestConcat(LayersOf(before), LayersOf(extra) + t.active, p);
        LatestConcat(LayersOf(before), s.active, p);
        LatestPush(s.since, Piece(offset, bytes), p);
      }
    }
  }

  lemma WriteStep(s: Session, offset: nat, bytes: seq<byte>, t: Session)
    requires Inv(s) && NextWrite(s, offset, bytes, t)
    ensures Inv(t)
    ensures forall p: nat :: View(t, p) == Effect(Write(offset, bytes), View(s, p), p)
  {
    WriteShaped(s, offset, bytes, t);
    WriteBacked(s, offset, bytes, t);
    WriteNeutral(s, offset, bytes, t);
    WriteTracked(s, offset, bytes, t);
    WriteShows(s, offset, bytes, t);
    hide Latest, ByteAt, NextWrite, Shaped, InOrder, AllCarried, Unhidden, Backed, Neutral, TailZero, Shows, Tracked;
    WriteView(s, offset, bytes, t);
  }

  lemma WriteView(s: Session, offset: nat, bytes: seq<byte>, t: Session)
    requires NextWrite(s, offset, bytes, t)
    ensures forall p: nat :: View(t, p) == Effect(Write(offset, bytes), View(s, p), p)
  {
    hide Latest, ByteAt, Canonical;
    forall p: nat ensures View(t, p) == Effect(Write(offset, bytes), View(s, p), p) {
      assert ByteAt(t.dirty, p) ==
             if offset <= p < offset + |bytes| then Some(bytes[p - offset]) else ByteAt(s.dirty, p);
    }
  }

  // ---- Begin ----

  lemma FreezeLayers(active: seq<Piece>)
    ensures LayersOf(Freeze(active)) == active
  {
    forall k | 0 <= k < |active| ensures Layer(Freeze(active)[k]) == active[k] {
      assert active[k].bytes[..|active[k].bytes|] == active[k].bytes;
    }
  }

  lemma BeginStep(s: Session, t: Session)
    requires Inv(s) && NextBegin(s, t)
    ensures Inv(t)
    ensures forall p: nat :: View(t, p) == View(s, p)
  {
    hide Latest, ByteAt, Layer, AllCarried, Unhidden, Shows, InOrder;
    FreezeLayers(s.active);
    LayersOfConcat(s.frozen, Freeze(s.active));
    assert Unpublished(t) == Unpublished(s);
    BeginShaped(s, t);
    assert t.frozen[t.flight.total..] == [];
    BeginTracked(t);
    assert Backed(t);
    assert TailZero(t);
    BeginNeutral(s, t);
    BeginShows(s, t);
  }

  lemma BeginShows(s: Session, t: Session)
    requires Shows(s) && NextBegin(s, t) && LandedCount(t) == LandedCount(s)
    ensures Shows(t)
  {
    hide Latest, Layer, LayersOf, LandedCount;
    var n := LandedCount(s);
    FreezeLayers(s.active);
    assert t.frozen[n..] == s.frozen[n..] + Freeze(s.active) && t.frozen[..n] == s.frozen[..n];
    LayersOfConcat(s.frozen[n..], Freeze(s.active));
    assert Waiting(t) == Waiting(s);
    forall p: nat ensures ShowsAt(t, p) {
      assert ShowsAt(s, p);
    }
  }

  lemma BeginTracked(t: Session)
    requires t.flight.Publishing? && t.flight.total == |t.frozen| && t.active == []
    ensures Tracked(t)
  {
    assert LayersOf(t.frozen[t.flight.total..]) + t.active == [];
  }

  lemma BeginShaped(s: Session, t: Session)
    requires Inv(s) && NextBegin(s, t)
    ensures Shaped(t) && InOrder(t) && AllCarried(t.frozen) && Unhidden(t.frozen) && LandedCount(t) == LandedCount(s)
  {
    hide Latest, Layer, InOrder, AllCarried, Unhidden, Shows, Backed, Neutral, TailZero, Tracked, LandedCount;
    assert Canonical(t.active);
    MoreSized(s.frozen, Freeze(s.active), s.chunkSize);
    MoreFrozen(s, Freeze(s.active), t);
  }

  lemma BeginNeutral(s: Session, t: Session)
    requires Inv(s) && NextBegin(s, t)
    ensures Neutral(t)
  {
    hide Latest, ByteAt, Layer, Canonical, Shaped, InOrder, AllCarried, Unhidden, Backed, TailZero, Shows, Tracked;
    forall p: nat | ByteAt(t.dirty, p).None? ensures NeutralAt(t, p) {
      assert NeutralAt(s, p);
      FreezeLayers(s.active);
      FrozenUnheld(Freeze(s.active), p);
      LatestOfNothing(t.active, p);
      assert forall i :: |s.frozen| <= i < |t.frozen| ==> t.frozen[i] == Freeze(s.active)[i - |s.frozen|];
    }
  }

  lemma LatestOfNothing(none: seq<Piece>, p: nat)
    requires none == []
    ensures Latest(none, p) == None
  {
  }

  // ---- Coalesce ----

  ghost predicate AllFresh(slices: seq<FrozenSlice>) { forall k :: 0 <= k < |slices| ==> Fresh(slices[k]) }

  lemma {:induction false} PlacedFresh(built: seq<Built>, n: nat, i: nat)
    requires n <= |built| && forall k :: 0 <= k < |built| ==> built[k].slice.progress == Untouched
    ensures AllFresh(PlacedUpTo(built, n, i))
  {
    if n > 0 {
      PlacedFresh(built, n - 1, i);
    }
  }

  ghost predicate FreshBehind(slices: seq<FrozenSlice>, head: FrozenSlice) {
    slices != [] && slices[0] == head && AllFresh(slices[1..])
  }

  /** A candidate under way is never a source, so it stays at the head. */
  lemma {:induction false} ReorderedHead(items: seq<FrozenSlice>, built: seq<Built>, n: nat, i: nat)
    requires 1 <= i <= |items| && forall k :: 1 <= k < |items| ==> Fresh(items[k])
    requires forall k :: 0 <= k < |built| ==> built[k].slice.progress == Untouched
    ensures var r := ReorderedUpTo(items, built, n, i);
            if Fresh(items[0]) then AllFresh(r) else FreshBehind(r, items[0])
  {
    hide PlacedUpTo, AllFresh, FreshBehind;
    var placed, kept := PlacedAt(built, i - 1), Kept(items, built, n, i - 1);
    PlacedFresh(built, |built|, i - 1);
    if i == 1 {
      assert ReorderedUpTo(items, built, n, 0) == [];
      assert [] + kept + placed == kept + placed;
      FreshFirst(items[0], kept, placed);
    } else {
      ReorderedHead(items, built, n, i - 1);
      FreshMore(ReorderedUpTo(items, built, n, i - 1), items[0], kept, placed);
    }
  }

  lemma FreshFirst(head: FrozenSlice, kept: seq<FrozenSlice>, placed: seq<FrozenSlice>)
    requires AllFresh(placed) && (kept == [head] || (kept == [] && Fresh(head)))
    ensures if Fresh(head) then AllFresh(kept + placed) else FreshBehind(kept + placed, head)
  {
    if !Fresh(head) {
      assert (kept + placed)[1..] == placed;
    }
  }

  lemma FreshMore(r: seq<FrozenSlice>, head: FrozenSlice, kept: seq<FrozenSlice>, placed: seq<FrozenSlice>)
    requires AllFresh(placed) && (kept == [] || (|kept| == 1 && Fresh(kept[0])))
    ensures AllFresh(r) ==> AllFresh(r + kept + placed)
    ensures FreshBehind(r, head) ==> FreshBehind(r + kept + placed, head)
  {
    if r != [] {
      assert (r + kept + placed)[1..] == r[1..] + kept + placed;
    }
  }

  lemma CoalesceSplit(s: Session, taken: nat, image: seq<byte>, built: seq<Built>, t: Session)
    requires AllSized(s.frozen) && Installs(s, taken, image, built, t)
    ensures var pending, extra := s.frozen[..taken], s.frozen[taken..];
            && s.frozen == pending + extra && AllSized(pending)
            && t.frozen == Reordered(pending, built, |pending|) + extra
            && t.flight.total == |Reordered(pending, built, |pending|)|
  {
    hide Latest, Layer, Reordered, Canonical, Hydrated, LastOverlap, Member;
    var pending, extra := s.frozen[..taken], s.frozen[taken..];
    assert s.frozen == pending + extra;
    ReorderedExtra(pending, extra, built);
  }

  lemma CoalesceOrder(s: Session, taken: nat, image: seq<byte>, built: seq<Built>, t: Session)
    requires Shaped(s) && InOrder(s) && AllCarried(s.frozen) && Installs(s, taken, image, built, t)
    ensures InOrder(t) && AllCarried(t.frozen) && Unhidden(t.frozen) && LandedCount(t) == LandedCount(s)
    ensures s.frozen != [] && !Fresh(s.frozen[0]) ==> t.frozen != [] && t.frozen[0] == s.frozen[0]
  {
    hide Layer, Reordered, ReorderedUpTo, Installs, Canonical, PiecesWithin, AllSized, AllWithin, AllCarried, Unhidden;
    CoalesceSplit(s, taken, image, built, t);
    InstallsFrame(s, taken, image, built, t);
    BuiltUntouched(s, taken, image, built, t);
    var pending, extra := s.frozen[..taken], s.frozen[taken..];
    assert forall i :: 0 <= i < |extra| ==> extra[i] == s.frozen[taken + i];
    if pending == [] {
      assert Reordered(pending, built, |pending|) == [] by { ReorderedNothing(pending, built); }
      assert t.frozen == s.frozen;
      AlreadyOrdered(s);
    } else {
      assert forall i :: 0 <= i < |pending| ==> pending[i] == s.frozen[i];
      ReorderedHead(pending, built, |pending|, |pending|);
      ReorderedWhole(pending, built);
      HeadOrder(s, t, Reordered(pending, built, |pending|), extra);
    }
  }

  lemma ReorderedNothing(pending: seq<FrozenSlice>, built: seq<Built>)
    requires pending == []
    ensures Reordered(pending, built, |pending|) == []
  {
  }

  lemma ReorderedWhole(pending: seq<FrozenSlice>, built: seq<Built>)
    ensures Reordered(pending, built, |pending|) == ReorderedUpTo(pending, built, |pending|, |pending|)
  {
  }

  lemma BuiltUntouched(s: Session, taken: nat, image: seq<byte>, built: seq<Built>, t: Session)
    requires Installs(s, taken, image, built, t)
    ensures forall k :: 0 <= k < |built| ==> built[k].slice.progress == Untouched
    ensures taken <= |s.frozen|
  {
    hide Hydrated, LastOverlap, Member, Reordered;
    forall k | 0 <= k < |built| ensures built[k].slice.progress == Untouched {
      assert Assembled(built[k], s.frozen[..taken], image);
    }
  }

  lemma AlreadyOrdered(s: Session)
    requires InOrder(s) && Done(s) == 0
    ensures Unhidden(s.frozen)
  {
    hide Layer, Holds;
  }

  lemma HeadOrder(s: Session, t: Session, r: seq<FrozenSlice>, extra: seq<FrozenSlice>)
    requires s.frozen != [] && Done(s) == 0 && Done(t) == 0 && t.frozen == r + extra
    requires AllFresh(extra) && AllCarried(s.frozen)
    requires if Fresh(s.frozen[0]) then AllFresh(r) else FreshBehind(r, s.frozen[0])
    ensures InOrder(t) && AllCarried(t.frozen) && Unhidden(t.frozen) && LandedCount(t) == LandedCount(s)
    ensures !Fresh(s.frozen[0]) ==> t.frozen != [] && t.frozen[0] == s.frozen[0]
  {
    hide Layer, Holds;
    if Fresh(s.frozen[0]) {
      assert AllFresh(t.frozen);
    } else {
      assert t.frozen == [s.frozen[0]] + (r[1..] + extra);
      assert AllFresh(r[1..] + extra);
    }
  }

  /** Whatever held a position behind a landed head has a successor that holds it. */
  lemma WaitingStays(s: Session, taken: nat, image: seq<byte>, built: seq<Built>, t: Session, p: nat)
    requires AllSized(s.frozen) && Installs(s, taken, image, built, t)
    requires s.frozen != [] && !Fresh(s.frozen[0]) && t.frozen != [] && t.frozen[0] == s.frozen[0]
    requires Latest(LayersOf(s.frozen[1..]), p).Some?
    ensures Latest(LayersOf(t.frozen[1..]), p).Some?
  {
    hide Latest, Layer, ReorderedUpTo, PlacedUpTo, Hydrated, LastOverlap, Member;
    CoalesceSplit(s, taken, image, built, t);
    var pending, extra := s.frozen[..taken], s.frozen[taken..];
    var r := Reordered(pending, built, |pending|);
    var j := FrozenHolder(s.frozen[1..], p);
    var m: nat;
    if j + 1 >= taken {
      m := |r| + (j + 1 - taken);
      if taken > 0 {
        var h := HeadKept(pending, built, |pending|, |pending|);
      }
    } else if Source(pending[j + 1], built) {
      if k: nat :| k < |built| && Holds(Layer(built[k].slice), p) {
        assert Assembled(built[k], pending, image);
        m := PlacedBehind(pending, built, |pending|, |pending|, k);
      } else {
        SourceInside(pending, built, image, j + 1, p);
      }
    } else {
      m := KeptBehind(pending, built, |pending|, |pending|, j + 1);
    }
    assert Holds(Layer(t.frozen[1..][m - 1]), p);
    FrozenUnheld(t.frozen[1..], p);
  }

  lemma CoalesceShows(s: Session, taken: nat, image: seq<byte>, built: seq<Built>, t: Session)
    requires Shaped(s) && Shows(s) && Installs(s, taken, image, built, t) && LandedCount(t) == LandedCount(s)
    requires s.frozen != [] && !Fresh(s.frozen[0]) ==> t.frozen != [] && t.frozen[0] == s.frozen[0]
    ensures Shows(t)
  {
    hide Latest, Layer, LayersOf, Installs, Canonical, PiecesWithin;
    var n := LandedCount(s);
    InstallsFrame(s, taken, image, built, t);
    forall p: nat ensures ShowsAt(t, p) {
      if n == 0 {
        FrozenUnheld(t.frozen[..0], p);
      } else {
        assert n == 1 && t.frozen[..1] == s.frozen[..1];
        LatestConcat(LayersOf(s.frozen[1..]), s.active, p);
        LatestConcat(LayersOf(t.frozen[1..]), t.active, p);
        if Latest(LayersOf(s.frozen[1..]), p).Some? {
          WaitingStays(s, taken, image, built, t, p);
        }
        assert ShowsAt(s, p);
      }
    }
  }

  lemma InstallsFrame(s: Session, taken: nat, image: seq<byte>, built: seq<Built>, t: Session)
    requires Installs(s, taken, image, built, t)
    ensures t == s.(frozen := t.frozen, flight := t.flight) && Done(s) == 0 && Done(t) == 0
  {
  }

  lemma CoalesceMembers(s: Session, taken: nat, image: seq<byte>, built: seq<Built>, t: Session, i: nat)
    returns (k: nat, placed: bool)
    requires AllSized(s.frozen) && Installs(s, taken, image, built, t) && i < |t.frozen|
    ensures if placed then k < |built| && t.frozen[i] == built[k].slice
            else k < |s.frozen| && t.frozen[i] == s.frozen[k]
  {
    hide Layer, ReorderedUpTo, Hydrated, LastOverlap, Member, PlacedUpTo;
    CoalesceSplit(s, taken, image, built, t);
    var pending, extra := s.frozen[..taken], s.frozen[taken..];
    var r := Reordered(pending, built, |pending|);
    if i < |r| {
      assert r[i] in r;
      var at := ReorderedOrigin(pending, built, |pending|, |pending|, r[i]);
      if pending[at] == r[i] {
        k, placed := at, false;
      } else {
        k := PlacedOrigin(built, |built|, at, r[i]);
        placed := true;
      }
    } else {
      k, placed := taken + (i - |r|), false;
    }
  }

  lemma CoalesceShaped(s: Session, taken: nat, image: seq<byte>, built: seq<Built>, t: Session)
    requires Shaped(s) && Installs(s, taken, image, built, t)
    ensures Shaped(t)
  {
    hide Layer, Reordered, LastOverlap, Member, Canonical;
    CoalesceSplit(s, taken, image, built, t);
    forall i: nat | i < |t.frozen| ensures Sized(t.frozen[i]) && VisibleEnd(t.frozen[i]) <= t.chunkSize {
      var k, placed := CoalesceMembers(s, taken, image, built, t, i);
      if placed {
        assert Assembled(built[k], s.frozen[..taken], image);
      }
    }
  }

  lemma CoalesceBacked(s: Session, taken: nat, image: seq<byte>, built: seq<Built>, t: Session)
    requires Shaped(s) && Backed(s) && Installs(s, taken, image, built, t)
    ensures Backed(t)
  {
    hide Layer, Latest, ByteAt, Reordered, Plan, Canonical;
    CoalesceSplit(s, taken, image, built, t);
    var pending, extra := s.frozen[..taken], s.frozen[taken..];
    var r := Reordered(pending, built, |pending|);
    forall p: nat | ByteAt(t.dirty, p).Some? ensures Latest(Unpublished(t), p) == ByteAt(t.dirty, p) {
      CoalescingAt(pending, built, image, p);
      UnpublishedAt(s, p);
      UnpublishedAt(t, p);
      LayersOfConcat(pending, extra);
      LayersOfConcat(r, extra);
      LatestConcat(LayersOf(pending), LayersOf(extra), p);
      LatestConcat(LayersOf(r), LayersOf(extra), p);
    }
  }

  /** The snapshot may take in generations frozen since the flush began; what it leaves out is newer still. */
  lemma CoalesceTracked(s: Session, taken: nat, image: seq<byte>, built: seq<Built>, t: Session)
    requires Shaped(s) && Tracked(s) && Installs(s, taken, image, built, t)
    ensures Tracked(t)
  {
    hide Layer, Latest, Reordered, Plan, Canonical, LayersOf;
    CoalesceSplit(s, taken, image, built, t);
    var total, extra := s.flight.total, s.frozen[taken..];
    assert t.frozen[t.flight.total..] == extra;
    assert s.frozen[total..] == s.frozen[total..taken] + extra;
    LayersOfConcat(s.frozen[total..taken], extra);
    var older := LayersOf(s.frozen[total..taken]);
    assert LayersOf(s.frozen[total..]) + s.active == older + (LayersOf(extra) + s.active);
    forall p: nat | Latest(LayersOf(extra) + t.active, p).Some? ensures Latest(t.since, p).Some? {
      LatestConcat(older, LayersOf(extra) + s.active, p);
    }
  }

  /** A hydrated byte outside the dirty view is the committed one. */
  lemma HydratedNeutral(s: Session, taken: nat, image: seq<byte>, built: seq<Built>, t: Session, k: nat, p: nat)
    requires Shaped(s) && NextCoalesce(s, taken, image, built, t) && k < |built|
    requires ByteAt(s.dirty, p).None? && NeutralAt(s, p) && Holds(Layer(built[k].slice), p)
    ensures Layer(built[k].slice).bytes[p - built[k].slice.pos] == Committed(s, p)
  {
    hide Latest, ByteAt, Reordered, Canonical, LastOverlap, Member;
    var pending := s.frozen[..taken];
    assert Assembled(built[k], pending, image);
    assert built[k].slice.payload[p - built[k].slice.pos] == Shown(image[p], LayersOf(pending), p);
    if Latest(LayersOf(pending), p).Some? {
      var i := FrozenHolder(pending, p);
      assert s.frozen[i] == pending[i];
    }
  }

  lemma CoalesceNeutral(s: Session, taken: nat, image: seq<byte>, built: seq<Built>, t: Session)
    requires Shaped(s) && Neutral(s) && TailZero(s) && NextCoalesce(s, taken, image, built, t)
    ensures Neutral(t) && TailZero(t)
  {
    hide Layer, Latest, ByteAt, Reordered, Plan, Canonical;
    forall p: nat | ByteAt(t.dirty, p).None? ensures NeutralAt(t, p) {
      assert NeutralAt(s, p);
      forall i: nat | i < |t.frozen| && Holds(Layer(t.frozen[i]), p)
        ensures Layer(t.frozen[i]).bytes[p - t.frozen[i].pos] == Committed(t, p)
      {
        var k, placed := CoalesceMembers(s, taken, image, built, t, i);
        if placed {
          HydratedNeutral(s, taken, image, built, t, k, p);
        }
      }
    }
  }

  lemma CoalesceStep(s: Session, taken: nat, image: seq<byte>, built: seq<Built>, t: Session)
    requires Inv(s) && NextCoalesce(s, taken, image, built, t)
    ensures Inv(t)
    ensures forall p: nat :: View(t, p) == View(s, p)
  {
    CoalesceShaped(s, taken, image, built, t);
    CoalesceOrder(s, taken, image, built, t);
    CoalesceBacked(s, taken, image, built, t);
    CoalesceTracked(s, taken, image, built, t);
    CoalesceNeutral(s, taken, image, built, t);
    CoalesceShows(s, taken, image, built, t);
    hide Latest, ByteAt, Plan, Reordered, Shaped, InOrder, AllCarried, Unhidden, Backed, Neutral, TailZero, Shows,
      Tracked;
  }

  // ---- Steps that move a candidate along ----

  /** Only progress marks changed. */
  ghost predicate Relabelled(s: Session, t: Session) {
    && t == s.(frozen := t.frozen) && |t.frozen| == |s.frozen|
    && forall i :: 0 <= i < |s.frozen| ==> t.frozen[i] == s.frozen[i].(progress := t.frozen[i].progress)
  }

  lemma RelabelledLayers(s: Session, t: Session)
    requires Relabelled(s, t)
    ensures LayersOf(t.frozen) == LayersOf(s.frozen)
    ensures forall n: nat :: n <= |s.frozen| ==> LayersOf(t.frozen[..n]) == LayersOf(s.frozen[..n])
    ensures forall n: nat :: n <= |s.frozen| ==> LayersOf(t.frozen[n..]) == LayersOf(s.frozen[n..])
  {
    hide Latest;
    assert forall i :: 0 <= i < |s.frozen| ==> Layer(t.frozen[i]) == Layer(s.frozen[i]);
  }

  lemma RelabelledStep(s: Session, t: Session)
    requires Inv(s) && Relabelled(s, t)
    ensures Shaped(t) && Backed(t) && Neutral(t) && TailZero(t) && Tracked(t)
    ensures LandedCount(t) == LandedCount(s) ==> Shows(t)
    ensures forall p: nat :: View(t, p) == View(s, p)
  {
    RelabelledLayers(s, t);
    RelabelledShaped(s, t);
    hide Latest, ByteAt, Shaped, InOrder, AllCarried, Unhidden, Layer, LayersOf, LandedCount;
    forall p: nat | ByteAt(t.dirty, p).None? ensures NeutralAt(t, p) {
      assert NeutralAt(s, p);
      RelabelledNeutral(s, t, p);
    }
    if LandedCount(t) == LandedCount(s) {
      forall p: nat ensures ShowsAt(t, p) {
        assert ShowsAt(s, p);
      }
    }
  }

  lemma RelabelledUnhidden(s: Session, t: Session)
    requires Unhidden(s.frozen) && Relabelled(s, t)
    requires forall j, p: nat :: 0 <= j < |s.frozen| && Overhangs(t.frozen[j], p) ==> Overhangs(s.frozen[j], p)
    ensures Unhidden(t.frozen)
  {
    hide Overhangs, Holds;
    assert forall i :: 0 <= i < |s.frozen| ==> Layer(t.frozen[i]) == Layer(s.frozen[i]);
  }

  lemma RelabelledShaped(s: Session, t: Session)
    requires Shaped(s) && Relabelled(s, t)
    ensures Shaped(t)
  {
    hide Canonical, PiecesWithin;
  }

  lemma RelabelledNeutral(s: Session, t: Session, p: nat)
    requires NeutralAt(s, p) && Relabelled(s, t)
    ensures NeutralAt(t, p)
  {
    hide Latest, ByteAt;
    assert forall i :: 0 <= i < |s.frozen| ==> Layer(t.frozen[i]) == Layer(s.frozen[i]);
  }

  lemma PrepareStep(s: Session, i: nat, t: Session)
    requires Inv(s) && NextPrepare(s, i, t)
    ensures Inv(t)
    ensures forall p: nat :: View(t, p) == View(s, p)
  {
    hide Latest, ByteAt, Layer, Backed, Neutral, TailZero, Tracked, Shows, Unhidden;
    RelabelledStep(s, t);
    assert forall k :: 0 <= k < |s.frozen| ==> Sized(s.frozen[k]);
    RelabelledUnhidden(s, t);
  }

  lemma StageStep(s: Session, t: Session)
    requires Inv(s) && NextStage(s, t)
    ensures Inv(t)
    ensures forall p: nat :: View(t, p) == View(s, p)
  {
    hide Latest, ByteAt, Layer, Backed, Neutral, TailZero, Tracked, Shows, Unhidden;
    RelabelledStep(s, t);
    assert forall k :: 0 <= k < |s.frozen| ==> Sized(s.frozen[k]);
    RelabelledUnhidden(s, t);
  }

  lemma AcknowledgeStep(s: Session, t: Session)
    requires Inv(s) && NextAcknowledge(s, t)
    ensures Inv(t)
    ensures forall p: nat :: View(t, p) == View(s, p)
  {
    hide Latest, ByteAt, Layer, Canonical, Backed, Neutral, TailZero, AllCarried, Unhidden, LayersOf;
    assert Sized(s.frozen[s.flight.done]);
    assert LandedCount(t) == LandedCount(s);
    forall p: nat ensures ShowsAt(t, p) {
      assert ShowsAt(s, p);
    }
    AcknowledgeKept(s, t);
  }

  lemma AcknowledgeKept(s: Session, t: Session)
    requires Backed(s) && Neutral(s) && TailZero(s) && t == s.(flight := t.flight)
    ensures Backed(t) && Neutral(t) && TailZero(t)
  {
    hide Latest, ByteAt, Layer;
    forall p: nat | ByteAt(t.dirty, p).None? ensures NeutralAt(t, p) {
      assert NeutralAt(s, p);
    }
  }

  // ---- Grow ----

  lemma GrowStep(s: Session, eof: nat, t: Session)
    requires Inv(s) && NextGrow(s, eof, t)
    ensures Inv(t)
    ensures forall p: nat :: View(t, p) == View(s, p)
  {
    hide Latest, ByteAt, Layer, Shaped, Shows, Tracked, AllCarried, Unhidden;
    assert Shaped(t) && Shows(t) && Tracked(t) by { GrowKept(s, eof, t); }
    forall p: nat | ByteAt(s.dirty, p).None? ensures Committed(t, p) == Committed(s, p) && NeutralAt(t, p) {
      assert NeutralAt(s, p);
    }
  }

  lemma GrowKept(s: Session, eof: nat, t: Session)
    requires Shaped(s) && Shows(s) && Tracked(s) && NextGrow(s, eof, t)
    ensures Shaped(t) && Shows(t) && Tracked(t)
  {
    hide Latest, ByteAt, Layer, LayersOf;
    assert LandedCount(t) == LandedCount(s);
    forall p: nat ensures ShowsAt(t, p) {
      assert ShowsAt(s, p);
    }
  }

  // ---- Land ----

  /** The record continues the candidate. */
  lemma FlownAt(c: FrozenSlice, p: nat)
    requires Sized(c) && Carried(c) && !Fresh(c)
    ensures Holds(Flown(c), p) <==> Holds(Layer(c), p) || Overhangs(c, p)
    ensures Holds(Flown(c), p) ==> Flown(c).bytes[p - c.pos] == c.payload[p - c.pos]
    ensures Holds(Layer(c), p) ==> p < VisibleEnd(c) && Layer(c).bytes[p - c.pos] == c.payload[p - c.pos]
  {
  }

  /** An older generation that is pending at a position the record overhangs does not exist. */
  lemma OverhangWaits(s: Session, p: nat)
    requires Shaped(s) && Unhidden(s.frozen) && LandedCount(s) == Done(s) < |s.frozen|
             && Overhangs(s.frozen[Done(s)], p)
    ensures Latest(LayersOf(s.frozen[..Done(s)]), p).None?
    ensures Backed(s) && ByteAt(s.dirty, p).Some? ==> Latest(Waiting(s), p).Some?
  {
    hide Latest, ByteAt, Layer, Canonical, LayersOf, Holds, Overhangs;
    var d := Done(s);
    forall k | 0 <= k < d ensures !Holds(Layer(s.frozen[..d][k]), p) {
      assert s.frozen[..d][k] == s.frozen[k];
    }
    FrozenUnheld(s.frozen[..d], p);
    assert s.frozen == s.frozen[..d] + s.frozen[d..];
    LayersOfConcat(s.frozen[..d], s.frozen[d..]);
    assert Unpublished(s) == LayersOf(s.frozen[..d]) + Waiting(s);
    LatestConcat(LayersOf(s.frozen[..d]), Waiting(s), p);
  }

  /** Where the landing record is harmless it changes no byte outside the dirty view. */
  lemma LandAt(s: Session, t: Session, p: nat)
    requires Shaped(s) && AllCarried(s.frozen) && TailZero(s) && NextLand(s, t) && LandedCount(s) <= |s.frozen|
    requires ByteAt(s.dirty, p).None? && NeutralAt(s, p)
             && Harmless(s, Flown(s.frozen[Done(s)]), VisibleEnd(s.frozen[Done(s)]))
    ensures Committed(t, p) == Committed(s, p)
    ensures s.eof <= p ==> Shown(0, t.history, p) == 0
  {
    hide Latest, ByteAt, Canonical, Layer, Waiting;
    var c := s.frozen[Done(s)];
    assert Sized(c) && Carried(c);
    FlownAt(c, p);
    LatestPush(s.history, Flown(c), p);
  }

  lemma LandOrder(s: Session, t: Session)
    requires Shaped(s) && InOrder(s) && AllCarried(s.frozen) && Unhidden(s.frozen) && NextLand(s, t)
    ensures InOrder(t) && AllCarried(t.frozen) && Unhidden(t.frozen)
    ensures LandedCount(s) == Done(s) && LandedCount(t) == Done(s) + 1 <= |s.frozen|
  {
    hide Layer, Holds, Canonical, PiecesWithin;
    RelabelledUnhidden(s, s.(frozen := t.frozen));
  }

  /** The landed part and the waiting part after the landing, at one position. */
  lemma LandLayers(s: Session, t: Session, p: nat)
    requires NextLand(s, t) && LandedCount(s) == Done(s) && LandedCount(t) == Done(s) + 1
    ensures var c := s.frozen[Done(s)];
            && Latest(LayersOf(t.frozen[..Done(s) + 1]), p) ==
               (if Holds(Layer(c), p) then Some(Layer(c).bytes[p - c.pos])
                else Latest(LayersOf(s.frozen[..Done(s)]), p))
            && (Latest(Waiting(t), p).None? && !Holds(Layer(c), p) ==> Latest(Waiting(s), p).None?)
  {
    hide Latest, Layer, LayersOf, Holds;
    var c, d := s.frozen[Done(s)], Done(s);
    var landed := t.frozen[d];
    assert Layer(landed) == Layer(c) by { LandedLayer(c, landed); }
    assert t.frozen[..d + 1] == s.frozen[..d] + [landed];
    LayersOfPush(s.frozen[..d], landed, p);
    assert s.frozen[d..] == [c] + s.frozen[d + 1..] && t.frozen[d + 1..] == s.frozen[d + 1..];
    LayersOfConcat([c], s.frozen[d + 1..]);
    assert Waiting(s) == LayersOf([c]) + Waiting(t);
    LatestConcat(LayersOf([c]), Waiting(t), p);
    assert [] + [c] == [c];
    LayersOfPush([], c, p);
    FrozenUnheld([], p);
  }

  lemma LandedLayer(c: FrozenSlice, d: FrozenSlice)
    requires d == c.(progress := d.progress)
    ensures Layer(c) == Layer(d)
  {
  }

  /** What has landed is shown, whatever the record overhangs. */
  lemma LandShows(s: Session, t: Session)
    requires Shaped(s) && AllCarried(s.frozen) && Unhidden(s.frozen) && Shows(s) && NextLand(s, t)
    requires LandedCount(s) == Done(s) && LandedCount(t) == Done(s) + 1 <= |s.frozen|
    ensures Shows(t)
  {
    hide Latest, ByteAt, Layer, Canonical, LayersOf, Waiting, Holds, Unhidden;
    var c, d := s.frozen[Done(s)], Done(s);
    assert Sized(c) && Carried(c);
    forall p: nat ensures ShowsAt(t, p) {
      assert ShowsAt(s, p);
      LandLayers(s, t, p);
      FlownAt(c, p);
      LatestPush(s.history, Flown(c), p);
      if Overhangs(c, p) {
        OverhangWaits(s, p);
      }
    }
  }

  lemma LandStep(s: Session, t: Session)
    requires Inv(s) && NextLand(s, t) && Harmless(s, Flown(s.frozen[Done(s)]), VisibleEnd(s.frozen[Done(s)]))
    ensures Inv(t)
    ensures forall p: nat :: View(t, p) == View(s, p)
  {
    LandOrder(s, t);
    LandShows(s, t);
    var relabelled := s.(frozen := t.frozen);
    RelabelledStep(s, relabelled);
    hide Latest, ByteAt, Layer, InOrder, AllCarried, Unhidden, Shows, Harmless;
    forall p: nat | ByteAt(s.dirty, p).None?
      ensures Committed(t, p) == Committed(s, p) && (s.eof <= p ==> Shown(0, t.history, p) == 0) && NeutralAt(t, p)
    {
      assert NeutralAt(s, p) && NeutralAt(relabelled, p);
      LandAt(s, t, p);
    }
    assert Backed(t) by { assert Unpublished(t) == Unpublished(relabelled); }
    assert Tracked(t);
  }

  lemma OrphanAt(s: Session, i: nat, t: Session, p: nat)
    requires NextLandOrphan(s, i, t) && LandedCount(s) <= |s.frozen| && Harmless(s, s.orphans[i], 0)
    ensures LandedCount(t) == LandedCount(s)
    ensures TailZero(s) && ByteAt(s.dirty, p).None? ==>
              Committed(t, p) == Committed(s, p) && (s.eof <= p ==> Shown(0, t.history, p) == 0)
    ensures ShowsAt(s, p) ==> ShowsAt(t, p)
  {
    hide Latest, ByteAt, LayersOf, Holds;
    LatestPush(s.history, s.orphans[i], p);
    assert Waiting(t) == Waiting(s);
  }

  lemma OrphanStep(s: Session, i: nat, t: Session)
    requires Inv(s) && NextLandOrphan(s, i, t) && Harmless(s, s.orphans[i], 0)
    ensures Inv(t)
    ensures forall p: nat :: View(t, p) == View(s, p)
  {
    hide Latest, ByteAt, Layer, AllCarried, Unhidden, Harmless, ShowsAt, Committed;
    forall p: nat
      ensures LandedCount(t) == LandedCount(s) && ShowsAt(t, p)
      ensures ByteAt(s.dirty, p).None? ==>
                Committed(t, p) == Committed(s, p) && (s.eof <= p ==> Shown(0, t.history, p) == 0) && NeutralAt(t, p)
    {
      OrphanAt(s, i, t, p);
      assert ByteAt(s.dirty, p).None? ==> NeutralAt(s, p);
    }
    assert Unpublished(t) == Unpublished(s);
  }

  // ---- Finish ----

  /** Generations that do not hold `p` can be added or dropped at the end. */
  lemma PrefixAt(frozen: seq<FrozenSlice>, d: nat, n: nat, p: nat)
    requires d <= n <= |frozen| && Latest(LayersOf(frozen[d..]), p).None?
    ensures Latest(LayersOf(frozen[..n]), p) == Latest(LayersOf(frozen[..d]), p)
  {
    hide Latest, Layer, LayersOf;
    var middle := frozen[d..n];
    assert frozen[..n] == frozen[..d] + middle;
    LayersOfConcat(frozen[..d], middle);
    LatestConcat(LayersOf(frozen[..d]), LayersOf(middle), p);
    FrozenUnheld(frozen[d..], p);
    assert forall k :: 0 <= k < |middle| ==> middle[k] == frozen[d..][k];
    FrozenUnheld(middle, p);
  }

  /** A position only published generations cover shows their byte in the committed history. */
  lemma PublishedAt(s: Session, p: nat)
    requires Shaped(s) && InOrder(s) && Shows(s) && s.flight.Publishing?
    requires Latest(LayersOf(s.frozen[s.flight.done..]) + s.active, p).None? && Latest(LayersOf(s.frozen), p).Some?
    ensures p < s.eof && Some(Committed(s, p)) == Latest(LayersOf(s.frozen), p)
  {
    hide Latest, ByteAt, Canonical, Layer, PiecesWithin, AllWithin, AllSized, LayersOf, Holds;
    var d, n := s.flight.done, LandedCount(s);
    LatestConcat(LayersOf(s.frozen[d..]), s.active, p);
    PrefixAt(s.frozen, d, |s.frozen|, p);
    assert s.frozen[..|s.frozen|] == s.frozen;
    var published := s.frozen[..d];
    var k := FrozenHolder(published, p);
    assert published[k] == s.frozen[k];
    HolderBelow(published[k], p);
    PrefixAt(s.frozen, d, n, p);
    assert s.frozen[d..] == s.frozen[d..n] + s.frozen[n..];
    LayersOfConcat(s.frozen[d..n], s.frozen[n..]);
    LatestConcat(LayersOf(s.frozen[d..n]), LayersOf(s.frozen[n..]), p);
    LatestConcat(LayersOf(s.frozen[n..]), s.active, p);
    assert ShowsAt(s, p);
  }

  lemma HolderBelow(c: FrozenSlice, p: nat)
    requires Holds(Layer(c), p)
    ensures p < VisibleEnd(c)
  {
  }

  /** The remaining generations hide the retired ones wherever both hold a byte. */
  lemma RetiredAt(s: Session, t: Session, p: nat)
    requires NextFinish(s, t)
    ensures Latest(Unpublished(t), p).Some? ==> Latest(Unpublished(t), p) == Latest(Unpublished(s), p)
    ensures Latest(Unpublished(t), p).None? ==> Latest(Unpublished(s), p) == Latest(LayersOf(s.frozen), p)
    ensures Unpublished(t) == LayersOf(s.frozen[s.flight.done..]) + s.active
  {
    hide Latest, ByteAt, Canonical, Layer, LayersOf;
    var published, rest := s.frozen[..s.flight.done], s.frozen[s.flight.done..];
    assert s.frozen == published + rest;
    LayersOfConcat(published, rest);
    LatestConcat(LayersOf(published), LayersOf(rest), p);
    UnpublishedAt(s, p);
    UnpublishedAt(t, p);
  }

  lemma FinishClean(s: Session, t: Session, p: nat)
    requires NextFinish(s, t) && ByteAt(t.dirty, p) == Latest(Unpublished(t), p) && NeutralAt(s, p)
    ensures ByteAt(t.dirty, p).Some? ==> ByteAt(t.dirty, p).value == Committed(s, p)
  {
    hide Latest, ByteAt, Canonical, Layer, LayersOf;
    UnpublishedAt(t, p);
    if Latest(LayersOf(t.frozen), p).Some? {
      var k := FrozenHolder(t.frozen, p);
      assert t.frozen[k] == s.frozen[s.flight.done + k];
    }
  }

  lemma FinishAt(s: Session, t: Session, p: nat)
    requires Inv(s) && NextFinish(s, t) && ByteAt(t.dirty, p) == Latest(Unpublished(t), p)
    ensures View(t, p) == View(s, p)
    ensures s.eof <= p && ByteAt(t.dirty, p).None? ==> ByteAt(s.dirty, p).None?
  {
    hide Latest, ByteAt, Canonical, Layer, LayersOf, Unpublished, InOrder, Shows, AllCarried, Unhidden, Tracked,
      TailZero,
      Shaped, NeutralAt;
    RetiredAt(s, t, p);
    if ByteAt(s.dirty, p).None? {
      FinishClean(s, t, p);
    } else if ByteAt(t.dirty, p).None? {
      PublishedAt(s, p);
    }
  }

  lemma FinishShows(s: Session, t: Session)
    requires Shows(s) && NextFinish(s, t) && LandedCount(t) == LandedCount(s) - s.flight.done
    ensures Shows(t)
  {
    hide Latest, ByteAt, Canonical, Layer, LandedCount, LayersOf, Unpublished;
    var d, n := s.flight.done, LandedCount(s);
    assert t.frozen[n - d..] == s.frozen[n..];
    assert s.frozen[..n] == s.frozen[..d] + t.frozen[..n - d];
    LayersOfConcat(s.frozen[..d], t.frozen[..n - d]);
    assert Waiting(t) == Waiting(s);
    forall p: nat ensures ShowsAt(t, p) {
      LatestConcat(LayersOf(s.frozen[..d]), LayersOf(t.frozen[..n - d]), p);
      assert ShowsAt(s, p);
    }
  }

  lemma UnhiddenTail(frozen: seq<FrozenSlice>, d: nat)
    requires d <= |frozen| && AllCarried(frozen) && Unhidden(frozen)
    ensures AllCarried(frozen[d..]) && Unhidden(frozen[d..])
  {
    hide Carried, Overhangs, Layer, Holds;
  }

  lemma FinishOrder(s: Session, t: Session)
    requires Shaped(s) && InOrder(s) && NextFinish(s, t)
    ensures InOrder(t) && LandedCount(t) == LandedCount(s) - s.flight.done
  {
    hide Latest, ByteAt, Canonical, PiecesWithin, AllSized, AllWithin, Unpublished;
    assert forall i :: 0 <= i < |t.frozen| ==> t.frozen[i] == s.frozen[s.flight.done + i];
  }

  lemma FinishShaped(s: Session, t: Session)
    requires Shaped(s) && InOrder(s) && AllCarried(s.frozen) && Unhidden(s.frozen) && Shows(s) && NextFinish(s, t)
    ensures Shaped(t) && InOrder(t) && AllCarried(t.frozen) && Unhidden(t.frozen) && Shows(t) && Tracked(t)
  {
    hide Latest, ByteAt, Canonical, Layer, PiecesWithin, Shows, AllCarried, Unhidden, InOrder, LandedCount, Unpublished;
    assert forall i :: 0 <= i < |t.frozen| ==> t.frozen[i] == s.frozen[s.flight.done + i];
    UnhiddenTail(s.frozen, s.flight.done);
    FinishOrder(s, t);
    FinishShows(s, t);
  }

  lemma FinishStep(s: Session, t: Session)
    requires Inv(s) && NextFinish(s, t)
    ensures Inv(t)
    ensures forall p: nat :: View(t, p) == View(s, p)
  {
    FinishShaped(s, t);
    hide Latest, ByteAt, Layer, Shaped, InOrder, AllCarried, Unhidden, Shows, Tracked;
    if s.flight.done == 0 && t.dirty == s.dirty {
      assert t.frozen == s.frozen;
      AcknowledgeKept(s, s.(flight := Idle));
    } else {
      forall p: nat ensures View(t, p) == View(s, p)
        ensures s.eof <= p && ByteAt(t.dirty, p).None? ==> ByteAt(s.dirty, p).None?
      {
        FinishAt(s, t, p);
      }
      forall p: nat | ByteAt(t.dirty, p).None? ensures NeutralAt(t, p) {
        UnpublishedAt(t, p);
        FrozenUnheld(t.frozen, p);
      }
    }
  }

  // ---- Shrink ----

  lemma ClipSliceLayer(c: FrozenSlice, size: nat)
    requires Sized(c)
    ensures Layer(ClipSlice(c, size)) == Clip(Layer(c), size) && Sized(ClipSlice(c, size))
  {
    var remaining := if size > c.pos then size - c.pos else 0;
    assert c.payload[..c.visibleLen][..Min(c.visibleLen, remaining)] == c.payload[..Min(c.visibleLen, remaining)];
  }

  lemma {:induction false} ClipFrozenAt(frozen: seq<FrozenSlice>, n: nat, size: nat, p: nat)
    requires AllSized(frozen) && n <= |frozen|
    ensures Latest(LayersOf(ClipUpTo(frozen, n, size)), p) ==
            if p < size then Latest(LayersOf(frozen[..n]), p) else None
  {
    hide Latest, Layer, LayersOf;
    if n == 0 {
      LatestNone(LayersOf(frozen[..0]), p);
    } else {
      var last := frozen[n - 1];
      var cut := ClipSlice(last, size);
      assert Sized(last) && frozen[..n] == frozen[..n - 1] + [last];
      ClipFrozenAt(frozen, n - 1, size, p);
      ClipSliceLayer(last, size);
      LayersOfPush(frozen[..n - 1], last, p);
      LayersOfPush(ClipUpTo(frozen, n - 1, size), cut, p);
      if cut.visibleLen == 0 {
        NothingHeld(cut, p);
      }
    }
  }

  lemma NothingHeld(c: FrozenSlice, p: nat)
    requires c.visibleLen == 0
    ensures !Holds(Layer(c), p)
  {
  }

  lemma {:induction false} ClipFrozenOrigin(frozen: seq<FrozenSlice>, n: nat, size: nat, j: nat) returns (i: nat)
    requires n <= |frozen| && j < |ClipUpTo(frozen, n, size)|
    ensures j <= i < n && ClipUpTo(frozen, n, size)[j] == ClipSlice(frozen[i], size)
  {
    if j < |ClipUpTo(frozen, n - 1, size)| {
      i := ClipFrozenOrigin(frozen, n - 1, size, j);
    } else {
      i := n - 1;
    }
  }

  /**
   What becomes of the generation at `i`: with a byte before the size it stays, cut there, its record
   cut only if it has landed; without one it is gone.  The places grow with `i`.
   */
  lemma {:induction false} ClippedAt(frozen: seq<FrozenSlice>, n: nat, i: nat, size: nat)
    requires i < n <= |frozen|
    ensures var r, c, at := ClipUpTo(frozen, n, size), frozen[i], |ClipUpTo(frozen, i, size)|;
            if 0 < c.visibleLen && c.pos < size then
              && |ClipUpTo(frozen, i + 1, size)| == at + 1 <= |r|
              && r[at].pos == c.pos && r[at].payload == c.payload && r[at].windowGroup == c.windowGroup
              && r[at].visibleLen == Min(c.visibleLen, size - c.pos)
              && r[at].eofLen == Min(c.eofLen, Min(c.visibleLen, size - c.pos))
              && r[at].progress == if c.progress.Landed? then Landed(Min(c.progress.len, size - c.pos)) else c.progress
            else |ClipUpTo(frozen, i + 1, size)| == at
  {
    if i + 1 < n {
      ClippedAt(frozen, n - 1, i, size);
    }
  }

  /** Clipping goes part by part. */
  lemma {:induction false} ClipSplit(frozen: seq<FrozenSlice>, d: nat, n: nat, size: nat)
    requires d <= n <= |frozen|
    ensures ClipUpTo(frozen, n, size) == ClipUpTo(frozen, d, size) + ClipUpTo(frozen[d..], n - d, size)
  {
    if n > d {
      ClipSplit(frozen, d, n - 1, size);
      assert frozen[d..][n - d - 1] == frozen[n - 1];
    }
  }

  /** Clipped generations keep their order. */
  lemma {:induction false} ClipOrigins(frozen: seq<FrozenSlice>, n: nat, size: nat, j: nat, k: nat)
    returns (i: nat, m: nat)
    requires n <= |frozen| && j < k < |ClipUpTo(frozen, n, size)|
    ensures i < m < n && ClipUpTo(frozen, n, size)[j] == ClipSlice(frozen[i], size)
    ensures ClipUpTo(frozen, n, size)[k] == ClipSlice(frozen[m], size)
  {
    if k < |ClipUpTo(frozen, n - 1, size)| {
      i, m := ClipOrigins(frozen, n - 1, size, j, k);
    } else {
      i := ClipFrozenOrigin(frozen, n - 1, size, j);
      m := n - 1;
    }
  }

  lemma {:induction false} ClipKept(frozen: seq<FrozenSlice>, n: nat, size: nat)
    requires n <= |frozen|
    ensures forall j :: 0 <= j < |ClipUpTo(frozen, n, size)| ==> 0 < ClipUpTo(frozen, n, size)[j].visibleLen
  {
    if n > 0 {
      ClipKept(frozen, n - 1, size);
    }
  }

  lemma ClipSliceKeeps(c: FrozenSlice, size: nat)
    requires Sized(c) && Carried(c)
    ensures Carried(ClipSlice(c, size)) && Fresh(ClipSlice(c, size)) == Fresh(c)
    ensures ClipSlice(c, size).progress.Landed? == c.progress.Landed?
    ensures 0 < ClipSlice(c, size).visibleLen ==> VisibleEnd(ClipSlice(c, size)) <= Min(VisibleEnd(c), size)
    ensures forall p: nat :: p < size && Overhangs(ClipSlice(c, size), p) ==> Overhangs(c, p)
  {
  }

  lemma ShrinkShaped(s: Session, size: nat, t: Session)
    requires Shaped(s) && NextShrink(s, size, t)
    ensures Shaped(t)
  {
    hide Canonical, PiecesWithin, Clipped;
    forall j: nat | j < |t.frozen| ensures Sized(t.frozen[j]) && VisibleEnd(t.frozen[j]) <= t.chunkSize {
      var i := ClipFrozenOrigin(s.frozen, |s.frozen|, size, j);
      assert Sized(s.frozen[i]);
    }
    if s.flight.Publishing? {
      ClipSplit(s.frozen, s.flight.done, s.flight.total, size);
      ClipSplit(s.frozen, s.flight.total, |s.frozen|, size);
    }
  }

  lemma ShrinkUnhidden(s: Session, size: nat, t: Session)
    requires AllSized(s.frozen) && AllCarried(s.frozen) && Unhidden(s.frozen) && t.frozen == ClipFrozen(s.frozen, size)
    ensures AllCarried(t.frozen) && Unhidden(t.frozen)
  {
    hide ClipUpTo, Layer, Holds, Overhangs, ClipSlice, Carried;
    forall j: nat | j < |t.frozen| ensures Carried(t.frozen[j]) {
      var i := ClipFrozenOrigin(s.frozen, |s.frozen|, size, j);
      ClipSliceKeeps(s.frozen[i], size);
    }
    forall j: nat, k: nat, p: nat | j < k < |t.frozen| && Holds(Layer(t.frozen[j]), p)
      ensures !Overhangs(t.frozen[k], p)
    {
      var i, m := ClipOrigins(s.frozen, |s.frozen|, size, j, k);
      assert Sized(s.frozen[i]) && Carried(s.frozen[m]) && Sized(s.frozen[m]);
      ClipSliceLayer(s.frozen[i], size);
      ClipSliceKeeps(s.frozen[m], size);
    }
  }

  /** The parts before and from `Done` on, each clipped. */
  lemma ShrinkParts(s: Session, size: nat, t: Session)
    requires Shaped(s) && NextShrink(s, size, t)
    ensures Done(t) == |ClipUpTo(s.frozen, Done(s), size)|
    ensures t.frozen == ClipUpTo(s.frozen, Done(s), size) + ClipUpTo(s.frozen[Done(s)..], |s.frozen| - Done(s), size)
  {
    hide Canonical, PiecesWithin, Clipped;
    ClipSplit(s.frozen, Done(s), |s.frozen|, size);
  }

  lemma ShrinkOrder(s: Session, size: nat, t: Session)
    requires Shaped(s) && InOrder(s) && AllCarried(s.frozen) && NextShrink(s, size, t)
    ensures InOrder(t)
  {
    hide ClipUpTo, ClipSlice, Canonical, PiecesWithin, Clipped, NextShrink, Carried;
    ShrinkParts(s, size, t);
    ShrinkEof(s, size, t);
    var d := Done(s);
    var before, after := ClipUpTo(s.frozen, d, size), ClipUpTo(s.frozen[d..], |s.frozen| - d, size);
    forall j: nat | j < |t.frozen|
      ensures j < Done(t) ==> t.frozen[j].progress.Landed? && VisibleEnd(t.frozen[j]) <= t.eof
      ensures j > Done(t) ==> Fresh(t.frozen[j])
    {
      if j < Done(t) {
        var i := ClipFrozenOrigin(s.frozen, d, size, j);
        ClipKept(s.frozen, d, size);
        assert Sized(s.frozen[i]) && Carried(s.frozen[i]) && t.frozen[j] == before[j];
        ClipSliceKeeps(s.frozen[i], size);
      } else if j > Done(t) {
        var i := ClipFrozenOrigin(s.frozen[d..], |s.frozen| - d, size, j - Done(t));
        assert s.frozen[d..][i] == s.frozen[d + i] && t.frozen[j] == after[j - Done(t)];
        assert Sized(s.frozen[d + i]) && Carried(s.frozen[d + i]);
        ClipSliceKeeps(s.frozen[d + i], size);
      }
    }
  }

  lemma ClipNext(frozen: seq<FrozenSlice>, n: nat, size: nat)
    requires n < |frozen|
    ensures var last := ClipSlice(frozen[n], size);
            ClipUpTo(frozen, n + 1, size) == ClipUpTo(frozen, n, size) + if last.visibleLen == 0 then [] else [last]
    ensures ClipUpTo(frozen, 0, size) == []
  {
  }

  /** The landed generations that are left are those that had landed. */
  lemma ShrinkLanded(s: Session, size: nat, t: Session)
    requires Shaped(s) && InOrder(s) && AllCarried(s.frozen) && NextShrink(s, size, t)
    ensures LandedCount(s) <= |s.frozen| && LandedCount(t) == |ClipUpTo(s.frozen, LandedCount(s), size)|
  {
    hide ClipUpTo, ClipSlice, Canonical, PiecesWithin, Clipped, NextShrink, Carried, AllWithin, VisibleEnd;
    ShrinkParts(s, size, t);
    var d := Done(s);
    if d < |s.frozen| {
      var c := s.frozen[d];
      assert Sized(c) && Carried(c);
      ClipSliceKeeps(c, size);
      ClipSplit(s.frozen[d..], 1, |s.frozen| - d, size);
      assert s.frozen[d..][0] == c && s.frozen[d..][1..] == s.frozen[d + 1..];
      var first, rest := ClipUpTo(s.frozen[d..], 1, size), ClipUpTo(s.frozen[d + 1..], |s.frozen| - d - 1, size);
      ClipNext(s.frozen[d..], 0, size);
      ClipNext(s.frozen, d, size);
      if first == [] && rest != [] {
        var i := ClipFrozenOrigin(s.frozen[d + 1..], |s.frozen| - d - 1, size, 0);
        assert s.frozen[d + 1..][i] == s.frozen[d + 1 + i];
        assert Sized(s.frozen[d + 1 + i]) && Carried(s.frozen[d + 1 + i]);
        ClipSliceKeeps(s.frozen[d + 1 + i], size);
      }
    }
  }

  lemma ShrinkShows(s: Session, size: nat, t: Session)
    requires Shaped(s) && Shows(s) && NextShrink(s, size, t)
    requires LandedCount(t) == |ClipUpTo(s.frozen, LandedCount(s), size)|
    ensures Shows(t)
  {
    hide Latest, ByteAt, Layer, LayersOf, ClipUpTo, Canonical, PiecesWithin, LandedCount;
    var n := LandedCount(s);
    var landed, waiting := ClipUpTo(s.frozen, n, size), ClipUpTo(s.frozen[n..], |s.frozen| - n, size);
    ClipSplit(s.frozen, n, |s.frozen|, size);
    assert t.frozen[..LandedCount(t)] == landed && t.frozen[LandedCount(t)..] == waiting;
    assert s.frozen[n..][..|s.frozen| - n] == s.frozen[n..];
    forall p: nat ensures ShowsAt(t, p) {
      ClipFrozenAt(s.frozen, n, size, p);
      ClipFrozenAt(s.frozen[n..], |s.frozen| - n, size, p);
      ClipAllAt(s.history, size, p);
      LatestOfCanonical(s.active, p);
      LatestOfCanonical(t.active, p);
      LatestConcat(LayersOf(s.frozen[n..]), s.active, p);
      LatestConcat(LayersOf(waiting), t.active, p);
      assert ShowsAt(s, p);
    }
  }

  lemma ShrinkTracked(s: Session, size: nat, t: Session)
    requires Shaped(s) && Tracked(s) && NextShrink(s, size, t)
    ensures Tracked(t)
  {
    hide Latest, ByteAt, Layer, LayersOf, ClipUpTo, Canonical, PiecesWithin;
    if s.flight.Publishing? {
      var n := s.flight.total;
      var rest := ClipUpTo(s.frozen[n..], |s.frozen| - n, size);
      ClipSplit(s.frozen, n, |s.frozen|, size);
      assert t.frozen[t.flight.total..] == rest;
      assert s.frozen[n..][..|s.frozen| - n] == s.frozen[n..];
      forall p: nat | Latest(LayersOf(rest) + t.active, p).Some? ensures Latest(t.since, p).Some? {
        ClipFrozenAt(s.frozen[n..], |s.frozen| - n, size, p);
        LatestOfCanonical(s.active, p);
        LatestOfCanonical(t.active, p);
        LatestConcat(LayersOf(s.frozen[n..]), s.active, p);
        LatestConcat(LayersOf(rest), t.active, p);
      }
    }
  }

  lemma ShrinkAt(s: Session, size: nat, t: Session, p: nat)
    requires Shaped(s) && NextShrink(s, size, t)
    ensures Latest(Unpublished(t), p) == if p < size then Latest(Unpublished(s), p) else None
    ensures Latest(t.active, p) == if p < size then Latest(s.active, p) else None
    ensures Latest(t.history, p) == if p < size then Latest(s.history, p) else None
    ensures ByteAt(t.dirty, p) == if p < size then ByteAt(s.dirty, p) else None
    ensures Committed(t, p) == if p < size then Committed(s, p) else 0
  {
    hide Latest, ByteAt, Canonical;
    UnpublishedAt(s, p);
    UnpublishedAt(t, p);
    ClipFrozenAt(s.frozen, |s.frozen|, size, p);
    assert s.frozen[..|s.frozen|] == s.frozen;
    ClipAllAt(s.history, size, p);
    LatestOfCanonical(s.active, p);
    LatestOfCanonical(t.active, p);
  }

  lemma ShrinkNeutral(s: Session, size: nat, t: Session, p: nat)
    requires Shaped(s) && NextShrink(s, size, t)
    requires ByteAt(s.dirty, p).None? ==> NeutralAt(s, p)
    ensures ByteAt(t.dirty, p).None? ==> NeutralAt(t, p)
  {
    hide Latest, ByteAt, Canonical;
    ShrinkAt(s, size, t, p);
    if ByteAt(t.dirty, p).None? {
      forall j: nat | j < |t.frozen| && Holds(Layer(t.frozen[j]), p)
        ensures Layer(t.frozen[j]).bytes[p - t.frozen[j].pos] == Committed(t, p)
      {
        var i := ClipFrozenOrigin(s.frozen, |s.frozen|, size, j);
        ClipSliceLayer(s.frozen[i], size);
      }
    }
  }

  /** A truncation at any time, whatever is under way, hides the bytes past the size and nothing else. */
  lemma ShrinkStep(s: Session, size: nat, t: Session)
    requires Inv(s) && NextShrink(s, size, t)
    ensures Inv(t)
    ensures forall p: nat :: View(t, p) == Effect(Shrink(size), View(s, p), p)
  {
    ShrinkShaped(s, size, t);
    ShrinkUnhidden(s, size, t);
    ShrinkOrder(s, size, t);
    ShrinkLanded(s, size, t);
    ShrinkShows(s, size, t);
    ShrinkTracked(s, size, t);
    hide Latest, ByteAt, Layer, Shaped, InOrder, AllCarried, Unhidden, Shows, Tracked, NextShrink, NeutralAt, Committed,
      Unpublished;
    forall p: nat
      ensures ByteAt(t.dirty, p).None? ==> NeutralAt(t, p)
      ensures ByteAt(t.dirty, p).Some? ==> Latest(Unpublished(t), p) == ByteAt(t.dirty, p)
      ensures t.eof <= p && ByteAt(t.dirty, p).None? ==> Shown(0, t.history, p) == 0
      ensures View(t, p) == Effect(Shrink(size), View(s, p), p)
    {
      ShrinkNeutral(s, size, t, p);
      ShrinkAt(s, size, t, p);
      ShrinkEof(s, size, t);
    }
  }

  lemma ShrinkEof(s: Session, size: nat, t: Session)
    requires NextShrink(s, size, t)
    ensures t.eof == Min(s.eof, size)
  {
  }

  // ---- Whole runs ----

  /** A session just opened on a file whose bytes at and beyond the end are zero. */
  lemma OpenedInv(s: Session)
    requires s.frozen == [] && s.active == [] && s.dirty == [] && s.flight == Idle
    requires forall p: nat :: s.eof <= p ==> Shown(0, s.history, p) == 0
    ensures Inv(s)
  {
    hide Shown;
    forall p: nat ensures ByteAt(s.dirty, p).None? && NeutralAt(s, p) {
    }
    assert s.history[|s.history|..] == [];
  }

  /** The landing, if the step is one, is harmless. */
  ghost predicate Safe(s: Session, e: Event)
    requires LandedCount(s) <= |s.frozen|
  {
    && (e.Land? && Done(s) < |s.frozen| && s.frozen[Done(s)].progress.Staged? ==>
          Harmless(s, Flown(s.frozen[Done(s)]), VisibleEnd(s.frozen[Done(s)])))
    && (e.LandOrphan? && e.index < |s.orphans| ==> Harmless(s, s.orphans[e.index], 0))
  }

  /** Every step keeps the invariant, and only writes and shrinks change what a reader sees. */
  lemma StepPreserves(s: Session, e: Event, t: Session)
    requires Inv(s) && Next(s, e, t) && Safe(s, e)
    ensures Inv(t)
    ensures forall p: nat :: View(t, p) == Effect(e, View(s, p), p)
  {
    hide View, Inv, NextWrite, NextBegin, NextCoalesce, NextPrepare, NextStage, NextGrow, NextAcknowledge,
      NextFinish, NextShrink, Harmless;
    match e {
      case Write(offset, bytes) => WriteStep(s, offset, bytes, t);
      case Begin => BeginStep(s, t);
      case Coalesce(taken, image, built) => CoalesceStep(s, taken, image, built, t);
      case Prepare(i) => PrepareStep(s, i, t);
      case Stage => StageStep(s, t);
      case Land => LandStep(s, t);
      case LandOrphan(i) => OrphanStep(s, i, t);
      case Grow(eof) => GrowStep(s, eof, t);
      case Acknowledge => AcknowledgeStep(s, t);
      case Finish => FinishStep(s, t);
      case Shrink(size) => ShrinkStep(s, size, t);
    }
  }

  ghost predicate Run(states: seq<Session>, events: seq<Event>) {
    && |states| == |events| + 1
    && forall i :: 0 <= i < |events| ==> RunStep(states, events, i)
  }

  ghost predicate RunStep(states: seq<Session>, events: seq<Event>, i: nat)
    requires i < |events| && |states| == |events| + 1
  {
    Next(states[i], events[i], states[i + 1])
  }

  /** Every landing before step `n` is harmless. */
  ghost predicate AllSafe(states: seq<Session>, events: seq<Event>, n: nat)
    requires n <= |events| && |states| == |events| + 1
  {
    forall i :: 0 <= i < n ==> LandedCount(states[i]) <= |states[i].frozen| && Safe(states[i], events[i])
  }

  function EffectAll(events: seq<Event>, was: byte, p: nat): byte {
    if events == [] then was else Effect(events[|events| - 1], EffectAll(events[..|events| - 1], was, p), p)
  }

  /** What a reader sees in state `n` of the run. */
  ghost predicate Right(states: seq<Session>, events: seq<Event>, n: nat)
    requires n <= |events| && |states| == |events| + 1
  {
    forall p: nat :: View(states[n], p) == EffectAll(events[..n], View(states[0], p), p)
  }

  /**
   In every state of every run whose landings are harmless a read returns the bytes of the start,
   overlaid by the writes and cut by the shrinks in between, however far any flush got.
   */
  lemma {:induction false} RunPreserves(states: seq<Session>, events: seq<Event>, n: nat)
    requires Run(states, events) && Inv(states[0]) && n <= |events| && AllSafe(states, events, n)
    ensures Inv(states[n]) && Right(states, events, n)
  {
    hide Inv, Next, View, Effect, Safe;
    if n > 0 {
      RunPreserves(states, events, n - 1);
      assert RunStep(states, events, n - 1);
      StepPreserves(states[n - 1], events[n - 1], states[n]);
      assert events[..n][..n - 1] == events[..n - 1];
    }
  }

  /** While landings are harmless, committed bytes read earlier are still current where nothing is pending. */
  lemma EarlierHarmless(states: seq<Session>, events: seq<Event>, p: nat)
    requires Run(states, events) && Inv(states[0]) && AllSafe(states, events, |events|)
    requires forall i :: 0 <= i < |events| ==> !events[i].Shrink?
    requires Latest(Writes(events), p).None?
    requires ByteAt(states[0].dirty, p).None? && ByteAt(states[|events|].dirty, p).None?
    ensures Committed(states[|events|], p) == Committed(states[0], p)
  {
    hide Inv, Next, Safe, Latest, ByteAt, Committed;
    RunPreserves(states, events, |events|);
    assert events[..|events|] == events;
    EffectUnwritten(events, View(states[0], p), p);
  }

  // ---- One flush ----

  function Writes(events: seq<Event>): seq<Piece> {
    if events == [] then []
    else
      var last := events[|events| - 1];
      Writes(events[..|events| - 1]) + if last.Write? then [Piece(last.offset, last.bytes)] else []
  }

  predicate DuringFlush(e: Event) { !e.Begin? && !e.Finish? }

  /** A flush: it begins, any steps follow, and it ends in some way. */
  ghost predicate Flush(states: seq<Session>, events: seq<Event>) {
    && Run(states, events) && 2 <= |events| && events[0].Begin? && events[|events| - 1].Finish?
    && forall i :: 0 < i < |events| - 1 ==> DuringFlush(events[i])
  }

  lemma {:induction false} FlushSince(states: seq<Session>, events: seq<Event>, n: nat)
    requires Flush(states, events) && 1 <= n < |events|
    ensures states[n].since == Writes(events[1..n]) && states[n].flight.Publishing?
  {
    assert RunStep(states, events, n - 1);
    if n == 1 {
      assert events[1..1] == [];
    } else {
      FlushSince(states, events, n - 1);
      assert events[1..n][..n - 2] == events[1..n - 1] && events[1..n][n - 2] == events[n - 1];
      assert DuringFlush(events[n - 1]);
      DuringSince(states[n - 1], events[n - 1], states[n]);
    }
  }

  lemma DuringSince(s: Session, e: Event, t: Session)
    requires Next(s, e, t) && DuringFlush(e) && s.flight.Publishing?
    ensures t.flight.Publishing?
    ensures t.since == s.since + if e.Write? then [Piece(e.offset, e.bytes)] else []
  {
    hide Plan, Reordered, Latest, ByteAt, Canonical;
  }

  /** Some truncation cut the position off. */
  ghost predicate Cut(events: seq<Event>, p: nat) {
    exists i :: 0 <= i < |events| && events[i].Shrink? && events[i].size <= p
  }

  lemma {:induction false} EffectUnwritten(events: seq<Event>, was: byte, p: nat)
    requires Latest(Writes(events), p).None?
    ensures EffectAll(events, was, p) == if Cut(events, p) then 0 else was
    decreases |events|
  {
    if events != [] {
      var front, last := events[..|events| - 1], events[|events| - 1];
      if last.Write? {
        LatestPush(Writes(front), Piece(last.offset, last.bytes), p);
      } else {
        assert Writes(events) == Writes(front);
      }
      EffectUnwritten(front, was, p);
      assert Cut(events, p) <==> Cut(front, p) || (last.Shrink? && last.size <= p) by {
        if Cut(front, p) {
          var i :| 0 <= i < |front| && front[i].Shrink? && front[i].size <= p;
          assert events[i] == front[i];
        }
      }
    }
  }

  /** After a flush that published everything, what was not written meanwhile is committed. */
  lemma FinishedCommits(s: Session, t: Session, p: nat)
    requires Inv(s) && NextFinish(s, t) && s.flight.done == s.flight.total && Latest(s.since, p).None?
    ensures ByteAt(t.dirty, p).None? && View(t, p) == Committed(t, p)
  {
    hide Latest, ByteAt, Layer, Canonical, InOrder, AllCarried, Unhidden, Neutral, TailZero, Shows;
    if s.flight.done == 0 {
      assert s.frozen[0..] == s.frozen;
    }
    assert Unpublished(t) == LayersOf(s.frozen[s.flight.total..]) + s.active;
  }

  /** The last candidate was acknowledged: `Flush` returns OK. */
  predicate AllPublished(s: Session) {
    s.flight.Publishing? && s.flight.done == s.flight.total <= |s.frozen|
  }

  /**
   A flush whose landings are harmless preserves the file.  On every exit a reader sees the bytes
   of the start, overlaid by the writes and cut by the shrinks meanwhile.  When it returns OK the
   committed history alone shows that byte wherever nothing was written meanwhile, and the end of
   the file covers every candidate.
   */
  lemma FlushHarmless(states: seq<Session>, events: seq<Event>, p: nat)
    requires Flush(states, events) && Inv(states[0]) && AllSafe(states, events, |events|)
    ensures View(states[|events|], p) == EffectAll(events, View(states[0], p), p)
    ensures Latest(Writes(events[1..|events| - 1]), p).None? ==>
              View(states[|events|], p) == if Cut(events, p) then 0 else View(states[0], p)
    ensures AllPublished(states[|events| - 1]) && Latest(Writes(events[1..|events| - 1]), p).None? ==>
              && Committed(states[|events|], p) == View(states[|events|], p)
              && MaxEof(states[|events| - 1].frozen[..states[|events| - 1].flight.total]) <= states[|events|].eof
  {
    hide Latest, Inv, View, Committed, NextFinish, EffectAll, Writes, MaxEof, Safe, Cut;
    var n := |events|;
    assert RunStep(states, events, n - 1);
    RunPreserves(states, events, n - 1);
    RunPreserves(states, events, n);
    assert events[..n] == events;
    if Latest(Writes(events[1..n - 1]), p).None? {
      FlushSince(states, events, n - 1);
      EffectMiddle(events, View(states[0], p), p);
      FlushEnd(states[n - 1], states[n], p);
    }
  }

  lemma EffectMiddle(events: seq<Event>, was: byte, p: nat)
    requires 2 <= |events| && events[0].Begin? && events[|events| - 1].Finish?
    requires Latest(Writes(events[1..|events| - 1]), p).None?
    ensures EffectAll(events, was, p) == if Cut(events, p) then 0 else was
  {
    hide Latest;
    var front := events[..|events| - 1];
    WritesTail(front);
    assert front[1..] == events[1..|events| - 1];
    assert Writes(events) == Writes(front);
    EffectUnwritten(events, was, p);
  }

  lemma {:induction false} WritesTail(events: seq<Event>)
    requires events != [] && !events[0].Write?
    ensures Writes(events) == Writes(events[1..])
    decreases |events|
  {
    if |events| > 1 {
      WritesTail(events[..|events| - 1]);
      assert events[1..][..|events| - 2] == events[..|events| - 1][1..];
    } else {
      assert events[..0] == [] && events[1..] == [];
    }
  }

  lemma FlushEnd(s: Session, t: Session, p: nat)
    requires Inv(s) && NextFinish(s, t) && Latest(s.since, p).None?
    ensures AllPublished(s) ==> View(t, p) == Committed(t, p) && MaxEof(s.frozen[..s.flight.total]) <= t.eof
  {
    hide Latest, ByteAt, Layer, Canonical, AllCarried, Unhidden, Neutral, TailZero, Shows, Tracked, Backed, View,
      Committed;
    if AllPublished(s) {
      FinishedCommits(s, t, p);
      var candidates := s.frozen[..s.flight.total];
      forall k | 0 <= k < |candidates| ensures EofEnd(candidates[k]) <= s.eof {
        assert candidates[k] == s.frozen[k];
      }
    }
  }

  // ---- The record that outlives its bytes ----

  /**
   A record staged before a truncation clipped its candidate still carries the old length.
   Landing it is invisible, now and after any growth, exactly when it is harmless.
   */
  lemma LandExactly(s: Session, t: Session)
    requires Inv(s) && NextLand(s, t)
    ensures (TailZero(t) && forall p: nat :: View(t, p) == View(s, p)) <==>
            Harmless(s, Flown(s.frozen[Done(s)]), VisibleEnd(s.frozen[Done(s)]))
  {
    var c := s.frozen[Done(s)];
    if Harmless(s, Flown(c), VisibleEnd(c)) {
      LandStep(s, t);
    }
    if TailZero(t) && forall p: nat :: View(t, p) == View(s, p) {
      LandOrder(s, t);
      assert Sized(c) && Carried(c);
      hide Latest, ByteAt, Layer, InOrder, AllCarried, Unhidden, Shows, Waiting, Carried, Neutral, Tracked;
      forall p: nat | VisibleEnd(c) <= p && Holds(Flown(c), p)
                      && (ByteAt(s.dirty, p).None? || Latest(Waiting(s), p).None?)
        ensures Flown(c).bytes[p - c.pos] == Shown(0, s.history, p)
      {
        FlownAt(c, p);
        LatestPush(s.history, Flown(c), p);
        OverhangWaits(s, p);
        assert View(t, p) == View(s, p);
      }
    }
  }

  /**
   The record of a candidate that a truncation released may arrive at any time.  That is
   invisible, now, after any growth and after every retirement, exactly when it is harmless.
   */
  lemma OrphanExactly(s: Session, i: nat, t: Session)
    requires Inv(s) && NextLandOrphan(s, i, t)
    ensures (TailZero(t) && Shows(t) && forall p: nat :: View(t, p) == View(s, p)) <==> Harmless(s, s.orphans[i], 0)
  {
    var r := s.orphans[i];
    if Harmless(s, r, 0) {
      OrphanStep(s, i, t);
    }
    if TailZero(t) && Shows(t) && forall p: nat :: View(t, p) == View(s, p) {
      hide Inv, TailZero, Shows, View, Waiting, Latest, ByteAt, Shown;
      forall p: nat | Holds(r, p) && (ByteAt(s.dirty, p).None? || Latest(Waiting(s), p).None?)
        ensures r.bytes[p - r.start] == Shown(0, s.history, p)
      {
        OrphanShown(s, i, t, p);
      }
    }
  }

  lemma OrphanShown(s: Session, i: nat, t: Session, p: nat)
    requires Inv(s) && NextLandOrphan(s, i, t) && TailZero(t) && Shows(t) && View(t, p) == View(s, p)
    requires Holds(s.orphans[i], p) && (ByteAt(s.dirty, p).None? || Latest(Waiting(s), p).None?)
    ensures s.orphans[i].bytes[p - s.orphans[i].start] == Shown(0, s.history, p)
  {
    hide Latest, ByteAt, Layer, InOrder, AllCarried, Unhidden, Neutral, Tracked, LayersOf, Canonical;
    LatestPush(s.history, s.orphans[i], p);
    if ByteAt(s.dirty, p).Some? {
      LandedHolds(s, p);
      assert ShowsAt(s, p) && ShowsAt(t, p) && Waiting(t) == Waiting(s);
    }
  }

  /** A pending byte that nothing waiting holds is held by a landed generation. */
  lemma LandedHolds(s: Session, p: nat)
    requires Backed(s) && LandedCount(s) <= |s.frozen| && ByteAt(s.dirty, p).Some? && Latest(Waiting(s), p).None?
    ensures Latest(LayersOf(s.frozen[..LandedCount(s)]), p).Some?
  {
    hide Latest, ByteAt, LayersOf, LandedCount;
    var n := LandedCount(s);
    assert s.frozen == s.frozen[..n] + s.frozen[n..];
    LayersOfConcat(s.frozen[..n], s.frozen[n..]);
    assert Unpublished(s) == LayersOf(s.frozen[..n]) + Waiting(s);
    LatestConcat(LayersOf(s.frozen[..n]), Waiting(s), p);
  }

  /** Nothing is hidden past the end, and what landed is what the history shows. */
  ghost predicate Sound(s: Session) { TailZero(s) && Shows(s) }

  lemma StepSafe(s: Session, e: Event, t: Session)
    requires Inv(s) && Next(s, e, t) && Sound(t) && forall p: nat :: View(t, p) == Effect(e, View(s, p), p)
    ensures Safe(s, e)
  {
    hide Inv, NextWrite, NextBegin, NextCoalesce, NextPrepare, NextStage, NextGrow, NextAcknowledge, NextFinish,
      NextShrink, NextLand, NextLandOrphan, View, TailZero, Harmless, Shows;
    assert LandedCount(s) <= |s.frozen| by { InvLanded(s); }
    if e.Land? {
      assert forall p: nat :: View(t, p) == View(s, p);
      assert NextLand(s, t);
      assert Done(s) < |s.frozen| && s.frozen[Done(s)].progress.Staged? by { LandStaged(s, t); }
      LandExactly(s, t);
    } else if e.LandOrphan? {
      assert forall p: nat :: View(t, p) == View(s, p);
      OrphanExactly(s, e.index, t);
    }
  }

  lemma InvLanded(s: Session)
    requires Inv(s)
    ensures LandedCount(s) <= |s.frozen|
  {
    hide Backed, Neutral, TailZero, Tracked;
  }

  lemma LandStaged(s: Session, t: Session)
    requires NextLand(s, t)
    ensures Done(s) < |s.frozen| && s.frozen[Done(s)].progress.Staged?
  {
  }

  /**
   In a run readers see, in every state, exactly the effect of the writes and shrinks, with nothing
   hidden that a growth or a retirement would bring back, if and only if every landing is harmless.
   */
  lemma RunExactly(states: seq<Session>, events: seq<Event>)
    requires Run(states, events) && Inv(states[0])
    ensures AllSafe(states, events, |events|) <==>
            forall n :: 0 <= n <= |events| ==> Sound(states[n]) && Right(states, events, n)
  {
    hide Inv, Safe, Sound, Right;
    if AllSafe(states, events, |events|) {
      forall n | 0 <= n <= |events| ensures Sound(states[n]) && Right(states, events, n) {
        RunPreserves(states, events, n);
        InvSound(states[n]);
      }
    }
    if forall n :: 0 <= n <= |events| ==> Sound(states[n]) && Right(states, events, n) {
      RightSafe(states, events, |events|);
    }
  }

  lemma InvSound(s: Session)
    requires Inv(s)
    ensures Sound(s)
  {
    hide TailZero, Shows;
  }

  lemma RightStep(states: seq<Session>, events: seq<Event>, n: nat)
    requires 0 < n <= |events| && |states| == |events| + 1 && Right(states, events, n - 1) && Right(states, events, n)
    ensures forall p: nat :: View(states[n], p) == Effect(events[n - 1], View(states[n - 1], p), p)
  {
    hide View, Effect;
    assert events[..n][..n - 1] == events[..n - 1];
  }

  lemma {:induction false} RightSafe(states: seq<Session>, events: seq<Event>, n: nat)
    requires Run(states, events) && Inv(states[0]) && n <= |events|
    requires forall i :: 0 <= i <= n ==> Sound(states[i]) && Right(states, events, i)
    ensures AllSafe(states, events, n)
  {
    hide Inv, Next, Safe, Sound, View, Right, LandedCount;
    if n > 0 {
      RightSafe(states, events, n - 1);
      RightSafeStep(states, events, n - 1);
    }
  }

  lemma RightSafeStep(states: seq<Session>, events: seq<Event>, n: nat)
    requires Run(states, events) && Inv(states[0]) && n < |events| && AllSafe(states, events, n)
    requires Sound(states[n + 1]) && Right(states, events, n) && Right(states, events, n + 1)
    ensures LandedCount(states[n]) <= |states[n].frozen| && Safe(states[n], events[n])
  {
    RunPreserves(states, events, n);
    RightStep(states, events, n + 1);
    hide Inv, Next, Safe, Sound, View, Effect, Right, LandedCount, AllSafe;
    assert RunStep(states, events, n);
    InvLanded(states[n]);
    StepSafe(states[n], events[n], states[n + 1]);
  }

  /** Two accepted bytes whose record has been sent and not yet applied. */
  const STAGED_PAIR := Session(4, [FrozenSlice(0, [1, 2], 2, 2, false, Staged(2))], [], [Piece(0, [1, 2])], [], 0,
                               Idle, [], [])

  const CLIPPED_PAIR := STAGED_PAIR.(frozen := [FrozenSlice(0, [1, 2], 1, 1, false, Staged(2))],
                        dirty := [Piece(0, [1])])

  const LANDED_PAIR :=
    CLIPPED_PAIR.(frozen := [FrozenSlice(0, [1, 2], 1, 1, false, Landed(2))], history := [Piece(0, [1, 2])])

  /** A truncated byte reappears: the record lands after the shrink and the file then grows over it. */
  lemma ClippedRecordReappears()
    ensures Inv(STAGED_PAIR)
    ensures Next(STAGED_PAIR, Shrink(1), CLIPPED_PAIR) && Next(CLIPPED_PAIR, Land, LANDED_PAIR)
    ensures Next(LANDED_PAIR, Grow(2), LANDED_PAIR.(eof := 2))
    ensures View(CLIPPED_PAIR, 1) == 0 && View(LANDED_PAIR.(eof := 2), 1) == 2
  {
    hide Inv, Latest, ByteAt, NextShrink, NextLand;
    StagedPairInv();
    StagedPairClipped();
    ClippedPairLands();
    PairBytes(1);
    LatestPush([], Piece(0, [1, 2]), 1);
    assert LANDED_PAIR.history == [] + [Piece(0, [1, 2])];
  }

  const RELEASED_PAIR := STAGED_PAIR.(frozen := [], dirty := [], orphans := [Piece(0, [1, 2])])

  const ARRIVED_PAIR := RELEASED_PAIR.(history := [Piece(0, [1, 2])], orphans := [])

  /** So it does when the truncation releases the candidate altogether. */
  lemma ReleasedRecordReappears()
    ensures Next(STAGED_PAIR, Shrink(0), RELEASED_PAIR) && Next(RELEASED_PAIR, LandOrphan(0), ARRIVED_PAIR)
    ensures Next(ARRIVED_PAIR, Grow(2), ARRIVED_PAIR.(eof := 2))
    ensures View(RELEASED_PAIR, 1) == 0 && View(ARRIVED_PAIR.(eof := 2), 1) == 2
  {
    hide Latest, ByteAt, NextShrink;
    StagedPairReleased();
    ByteAtOutside([], 1);
    LatestPush([], Piece(0, [1, 2]), 1);
    assert ARRIVED_PAIR.history == [] + [Piece(0, [1, 2])];
    assert RELEASED_PAIR.orphans[..0] + RELEASED_PAIR.orphans[1..] == [];
  }

  lemma StagedPairReleased()
    ensures NextShrink(STAGED_PAIR, 0, RELEASED_PAIR)
  {
    hide Latest, ByteAt;
    var s, t := STAGED_PAIR, RELEASED_PAIR;
    assert ClipUpTo(s.frozen, 0, 0) == [] && Orphaned(s.frozen, 0, 0) == [];
    assert ClipFrozen(s.frozen, 0) == t.frozen;
    assert s.frozen[0].payload[..2] == [1, 2];
    assert Orphaned(s.frozen, 1, 0) == t.orphans;
    assert ClipAll(s.history, 0) == t.history;
    forall p: nat ensures ByteAt(t.dirty, p) == None && ByteAt(t.active, p) == None {
      ByteAtOutside(t.dirty, p);
    }
  }

  lemma ClippedPairLands()
    ensures NextLand(CLIPPED_PAIR, LANDED_PAIR)
  {
    assert CLIPPED_PAIR.frozen[0].payload[..2] == [1, 2];
  }

  lemma PairBytes(p: nat)
    ensures ByteAt([Piece(0, [1, 2])], p) == if p == 0 then Some(1) else if p == 1 then Some(2) else None
    ensures ByteAt([Piece(0, [1])], p) == if p == 0 then Some(1) else None
  {
    ByteAtPiece(Piece(0, [1, 2]), p);
    ByteAtPiece(Piece(0, [1]), p);
  }

  lemma StagedPairInv()
    ensures Inv(STAGED_PAIR)
  {
    hide Latest, ByteAt;
    var s := STAGED_PAIR;
    assert Layer(s.frozen[0]) == Piece(0, [1, 2]);
    forall p: nat
      ensures Latest(Unpublished(s), p) == ByteAt(s.dirty, p)
      ensures ByteAt(s.dirty, p).None? ==> NeutralAt(s, p)
      ensures Latest(s.history, p).None?
    {
      assert Unpublished(s) == [Piece(0, [1, 2])];
      LatestOfCanonical(s.dirty, p);
      FrozenUnheld(s.frozen, p);
      assert LayersOf(s.frozen) == s.dirty;
      LatestOfNothing(s.active, p);
    }
  }

  lemma StagedPairClipped()
    ensures NextShrink(STAGED_PAIR, 1, CLIPPED_PAIR)
  {
    hide Latest, ByteAt;
    var s, t := STAGED_PAIR, CLIPPED_PAIR;
    assert ClipUpTo(s.frozen, 0, 1) == [] && Orphaned(s.frozen, 0, 1) == [];
    assert ClipFrozen(s.frozen, 1) == t.frozen;
    assert ClipAll(s.history, 1) == t.history;
    forall p: nat ensures ByteAt(t.dirty, p) == if p < 1 then ByteAt(s.dirty, p) else None {
      PairBytes(p);
    }
    forall p: nat ensures ByteAt(t.active, p) == if p < 1 then ByteAt(s.active, p) else None {
      ByteAtOutside(s.active, p);
    }
  }
}
