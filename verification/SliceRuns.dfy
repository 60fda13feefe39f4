/**
 A slice chunk session together with the record list it publishes into: along every run the
 sanitized list shows what the session's history does, so what is proved about the session's
 view holds of the bytes `Read` returns.
 */
module SliceRuns {
  import opened Common
  import opened DirtyRanges
  import opened Layers
  import opened SliceRecords
  import Windows
  import Clamps = BoundaryClamps
  import Durability = SliceDurability
  import Guards = SliceGuards
  import Session = SliceSession
  import Reads = SliceReads

  type Objects = map<nat, seq<byte>>

  /** The mapping, the authoritative list, the clamps this mount captured, and the stored objects. */
  datatype Store = Store(chunk: Option<nat>, records: seq<SliceRecord>, clamps: seq<Clamps.Clamp>, objects: Objects)

  function History(b: Store, chunkSize: nat): seq<SliceRecord> {
    Reads.History(b.records, b.clamps, b.chunk, chunkSize)
  }

  /** The byte `Read` returns at `p`. */
  function ReadByte(s: Session.Session, b: Store, p: nat): byte {
    if ByteAt(s.dirty, p).Some? then ByteAt(s.dirty, p).value
    else Reads.PublishedAt(Reads.Snapshot(s.eof, b.chunk), b.records, b.clamps, s.chunkSize, b.objects, p)
  }

  // ---- Steps of the store ----

  /** Objects are immutable. */
  ghost predicate Grown(before: Objects, after: Objects) {
    forall id :: id in before ==> id in after && after[id] == before[id]
  }

  /** `r` stands for the bytes of `piece`. */
  ghost predicate Describes(r: SliceRecord, piece: Piece, objects: Objects, chunkSize: u32) {
    && ValidRecord(r, chunkSize) && r.id != 0 && r.pos == piece.start && r.len == |piece.bytes|
    && r.id in objects && r.off + r.len <= |objects[r.id]|
    && forall k :: 0 <= k < r.len ==> objects[r.id][r.off + k] == piece.bytes[k]
  }

  /** The record is appended to the attached list, or to the list that its arrival attaches. */
  ghost predicate Arrives(b: Store, piece: Piece, r: SliceRecord, k: nat, chunkSize: u32, c: Store) {
    && Describes(r, piece, c.objects, chunkSize) && (b.chunk.Some? ==> b.chunk == Some(k))
    && c == b.(chunk := Some(k), records := b.records + [r], objects := c.objects)
  }

  function Newest(history: seq<Piece>): Piece
    requires history != []
  {
    history[|history| - 1]
  }

  /** What a step of the session does to the store; a flush may put objects at any time. */
  ghost predicate StoreStep(s: Session.Session, e: Session.Event, t: Session.Session, b: Store, chunkSize: u32,
                            c: Store) {
    && Grown(b.objects, c.objects)
    && match e
       case Land =>
         t.history != [] && exists r: SliceRecord, k: nat :: Arrives(b, Newest(t.history), r, k, chunkSize, c)
       case LandOrphan(_) =>
         t.history != [] && exists r: SliceRecord, k: nat :: Arrives(b, Newest(t.history), r, k, chunkSize, c)
       case Shrink(size) =>
         var captured := Clamps.Captured(b.clamps, Min(size, chunkSize), b.chunk, |b.records|);
         captured.Success? && c == b.(clamps := captured.value, objects := c.objects)
       case _ => c == b.(objects := c.objects)
  }

  // ---- The list shows what the history does ----

  /** The clamps were counted under the present mapping, or before there was one. */
  ghost predicate ClampsFine(b: Store) {
    || Clamps.Kept(b.clamps, b.chunk, |b.records|)
    || (b.chunk.Some? && Clamps.Increasing(b.clamps) && Clamps.SameChunk(b.clamps, None))
  }

  ghost predicate AllValid(records: seq<SliceRecord>, chunkSize: u32) {
    forall k :: 0 <= k < |records| ==> ValidRecord(records[k], chunkSize)
  }

  ghost predicate Fine(b: Store, chunkSize: u32) {
    && 0 < chunkSize && AllValid(b.records, chunkSize) && Clamps.Stored(b.records, b.objects)
    && (b.chunk.None? <==> b.records == []) && ClampsFine(b)
  }

  ghost predicate ShowsAt(s: Session.Session, b: Store, chunkSize: u32, p: nat) {
    Windows.Shown(0, s.history, p) == Clamps.SourceByte(Visible(History(b, chunkSize), p), b.objects)
  }

  ghost predicate Mirrors(s: Session.Session, b: Store, chunkSize: u32) {
    s.chunkSize == chunkSize && Fine(b, chunkSize) && forall p: nat :: ShowsAt(s, b, chunkSize, p)
  }

  lemma {:induction false} HistoryVisible(records: seq<SliceRecord>, objects: Objects, more: Objects, p: nat)
    requires Clamps.Stored(records, objects) && Grown(objects, more)
    ensures Clamps.SourceByte(Visible(records, p), more) == Clamps.SourceByte(Visible(records, p), objects)
    decreases |records|
  {
    if records != [] && !Covers(records[|records| - 1], p) {
      HistoryVisible(records[..|records| - 1], objects, more, p);
    }
  }

  lemma {:induction false} ClampedStored(records: seq<SliceRecord>, clamps: seq<Clamps.Clamp>, n: nat, chunkSize: nat,
                                         objects: Objects)
    requires n <= |records| && Clamps.Stored(records, objects)
    ensures Clamps.Stored(Clamps.Clamped(records, clamps, n, chunkSize), objects)
  {
    hide Clamps.Strictest;
    if n > 0 {
      ClampedStored(records, clamps, n - 1, chunkSize, objects);
    }
  }

  lemma HistoryStored(b: Store, chunkSize: u32)
    requires Fine(b, chunkSize)
    ensures Clamps.Stored(History(b, chunkSize), b.objects)
  {
    hide Clamps.Clamped, Clamps.Stored, ClampsFine;
    ClampedStored(b.records, b.clamps, |b.records|, chunkSize, b.objects);
  }

  /** More objects change no byte. */
  lemma GrowShows(s: Session.Session, b: Store, c: Store, chunkSize: u32)
    requires Mirrors(s, b, chunkSize) && Grown(b.objects, c.objects) && c == b.(objects := c.objects)
    ensures Mirrors(s, c, chunkSize)
  {
    hide Visible, Clamps.SourceByte, Clamps.Clamped, Windows.Shown, AllValid;
    HistoryStored(b, chunkSize);
    forall p: nat ensures ShowsAt(s, c, chunkSize, p) {
      assert ShowsAt(s, b, chunkSize, p);
      HistoryVisible(History(b, chunkSize), b.objects, c.objects, p);
    }
  }

  // ---- A record lands ----

  /** The list a reader resolves grows by the record. */
  lemma ArrivedHistory(b: Store, piece: Piece, r: SliceRecord, k: nat, chunkSize: u32, c: Store)
    requires Fine(b, chunkSize) && Arrives(b, piece, r, k, chunkSize, c)
    ensures History(c, chunkSize) == History(b, chunkSize) + [r]
    ensures Fine(c.(objects := c.objects), chunkSize) || !Clamps.Stored(b.records, c.objects)
  {
    hide Clamps.Clamped;
    if b.chunk.Some? && Clamps.Kept(b.clamps, b.chunk, |b.records|) {
      Clamps.ClampedAppend(b.records, r, b.clamps, b.chunk, chunkSize);
    } else if b.chunk.None? {
      ClampedNone(b.clamps, chunkSize);
    }
  }

  lemma ClampedNone(clamps: seq<Clamps.Clamp>, chunkSize: nat)
    ensures Clamps.Clamped([], clamps, 0, chunkSize) == []
  {
  }

  lemma DescribedByte(r: SliceRecord, piece: Piece, objects: Objects, chunkSize: u32, p: nat)
    requires Describes(r, piece, objects, chunkSize)
    ensures Covers(r, p) <==> Holds(piece, p)
    ensures Covers(r, p) ==> Clamps.SourceByte(SourceIn(r, p), objects) == piece.bytes[p - piece.start]
  {
  }

  lemma ArriveShows(s: Session.Session, t: Session.Session, piece: Piece, b: Store, r: SliceRecord, k: nat,
                    chunkSize: u32, c: Store)
    requires Mirrors(s, b, chunkSize) && Grown(b.objects, c.objects) && Arrives(b, piece, r, k, chunkSize, c)
    requires t.chunkSize == s.chunkSize && t.history == s.history + [piece]
    ensures Mirrors(t, c, chunkSize)
  {
    hide Visible, Clamps.SourceByte, Clamps.Clamped, ClampsFine, Windows.Shown, AllValid, Reads.History;
    var grown := b.(objects := c.objects);
    GrowShows(s, b, grown, chunkSize);
    assert Arrives(grown, piece, r, k, chunkSize, c);
    ArrivedHistory(grown, piece, r, k, chunkSize, c);
    forall p: nat ensures ShowsAt(t, c, chunkSize, p) {
      assert ShowsAt(s, grown, chunkSize, p);
      Clamps.VisiblePush(History(grown, chunkSize), r, p);
      DescribedByte(r, piece, c.objects, chunkSize, p);
      ShownPush(s.history, piece, p);
    }
  }

  lemma ShownPush(history: seq<Piece>, piece: Piece, p: nat)
    ensures Windows.Shown(0, history + [piece], p) ==
            if Holds(piece, p) then piece.bytes[p - piece.start] else Windows.Shown(0, history, p)
  {
    LatestPush(history, piece, p);
  }

  // ---- A truncation captures a clamp ----

  lemma {:induction false} ClampedNothing(records: seq<SliceRecord>, n: nat, chunkSize: u32)
    requires n <= |records| && AllValid(records, chunkSize)
    ensures Clamps.Clamped(records, [], n, chunkSize) == records[..n]
  {
    if n > 0 {
      ClampedNothing(records, n - 1, chunkSize);
      assert records[..n] == records[..n - 1] + [records[n - 1]];
    }
  }

  /** The list a reader resolves is cut at the truncation. */
  lemma CapturedHistory(b: Store, size: nat, chunkSize: u32, c: Store)
    requires Fine(b, chunkSize)
    requires var captured := Clamps.Captured(b.clamps, Min(size, chunkSize), b.chunk, |b.records|);
             captured.Success? && c == b.(clamps := captured.value)
    ensures var h := History(b, chunkSize);
            History(c, chunkSize) == Clamps.CutAll(h, |h|, Min(size, chunkSize))
    ensures Fine(c, chunkSize)
  {
    hide Clamps.Clamped, Clamps.CutAll;
    var clamps := if Clamps.Kept(b.clamps, b.chunk, |b.records|) then b.clamps else [];
    var prefix := Min(size, chunkSize);
    assert Clamps.Captured(b.clamps, prefix, b.chunk, |b.records|) ==
           Clamps.Captured(clamps, prefix, b.chunk, |b.records|);
    Clamps.CapturedKept(clamps, prefix, b.chunk, |b.records|);
    Clamps.CapturedCuts(b.records, clamps, prefix, b.chunk, |b.records|, chunkSize);
    if clamps == [] {
      ClampedNothing(b.records, |b.records|, chunkSize);
      assert b.records[..|b.records|] == b.records;
    }
    assert Reads.ClampsApply(c.clamps, c.chunk);
  }

  lemma HistoryValid(b: Store, chunkSize: u32)
    requires Fine(b, chunkSize)
    ensures AllValid(History(b, chunkSize), chunkSize)
  {
    hide Clamps.Clamped, ClampsFine, Clamps.Stored;
    Reads.ClampedValid(b.records, b.clamps, |b.records|, chunkSize);
  }

  lemma ShrinkShows(s: Session.Session, size: nat, t: Session.Session, b: Store, chunkSize: u32, c: Store)
    requires Mirrors(s, b, chunkSize) && Session.NextShrink(s, size, t)
    requires StoreStep(s, Session.Shrink(size), t, b, chunkSize, c)
    ensures Mirrors(t, c, chunkSize)
  {
    hide Visible, Clamps.SourceByte, Clamps.Clamped, ClampsFine, AllValid, Reads.History, Latest, Clamps.CutAll,
      Canonical, Clamps.Captured, Session.PiecesWithin;
    var grown := b.(objects := c.objects);
    GrowShows(s, b, grown, chunkSize);
    CapturedHistory(grown, size, chunkSize, c);
    HistoryValid(grown, chunkSize);
    var h := History(grown, chunkSize);
    ValidBounds(h, chunkSize);
    Clamps.CutAtEnd(h, |h|, size, chunkSize);
    forall p: nat ensures ShowsAt(t, c, chunkSize, p) {
      assert ShowsAt(s, grown, chunkSize, p);
      Clamps.CutAllVisible(h, |h|, size, p);
      assert h[..|h|] == h;
      ClipAllAt(s.history, size, p);
      ZeroByte(c.objects);
    }
  }

  lemma ValidBounds(records: seq<SliceRecord>, chunkSize: u32)
    requires AllValid(records, chunkSize)
    ensures forall k :: 0 <= k < |records| ==> 0 < records[k].len && records[k].pos + records[k].len <= chunkSize
  {
  }

  lemma ZeroByte(objects: Objects)
    ensures Clamps.SourceByte(Zero, objects) == 0
  {
  }

  // ---- Every step, every run ----

  /** A step that is neither a landing nor a truncation leaves the history as it is. */
  lemma HistoryFrame(s: Session.Session, e: Session.Event, t: Session.Session)
    requires Session.Next(s, e, t)
    ensures t.chunkSize == s.chunkSize
    ensures !e.Land? && !e.LandOrphan? && !e.Shrink? ==> t.history == s.history
    ensures e.Land? || e.LandOrphan? ==> t.history != [] && t.history == s.history + [Newest(t.history)]
  {
    hide Canonical, Latest, ByteAt, Session.PiecesWithin;
  }

  lemma StepMirrors(s: Session.Session, e: Session.Event, t: Session.Session, b: Store, chunkSize: u32, c: Store)
    requires Mirrors(s, b, chunkSize) && Session.Next(s, e, t) && StoreStep(s, e, t, b, chunkSize, c)
    ensures Mirrors(t, c, chunkSize)
  {
    HistoryFrame(s, e, t);
    hide Mirrors, Arrives, Session.NextShrink, Session.NextLand, Session.NextLandOrphan, Session.NextWrite,
      Session.NextBegin, Session.NextCoalesce, Session.NextFinish;
    if e.Shrink? {
      ShrinkShows(s, e.size, t, b, chunkSize, c);
    } else if e.Land? || e.LandOrphan? {
      var piece := Newest(t.history);
      var r: SliceRecord, k: nat :| Arrives(b, piece, r, k, chunkSize, c);
      ArriveShows(s, t, piece, b, r, k, chunkSize, c);
    } else {
      GrowShows(s, b, c, chunkSize);
      SameMirrors(s, t, c, chunkSize);
    }
  }

  lemma SameMirrors(s: Session.Session, t: Session.Session, b: Store, chunkSize: u32)
    requires Mirrors(s, b, chunkSize) && t.chunkSize == s.chunkSize && t.history == s.history
    ensures Mirrors(t, b, chunkSize)
  {
    hide Visible, Clamps.SourceByte, Fine, Reads.History, Windows.Shown;
    forall p: nat ensures ShowsAt(t, b, chunkSize, p) {
      assert ShowsAt(s, b, chunkSize, p);
    }
  }

  /** What `Read` returns is what the session shows. */
  lemma ReadIsView(s: Session.Session, b: Store, chunkSize: u32, p: nat)
    requires Mirrors(s, b, chunkSize)
    ensures ReadByte(s, b, p) == Session.View(s, p)
  {
    hide Visible, ByteAt, Fine, Clamps.Clamped;
    assert ShowsAt(s, b, chunkSize, p);
    if b.chunk.None? {
      NothingStored(b, chunkSize, p);
    }
  }

  lemma NothingStored(b: Store, chunkSize: u32, p: nat)
    requires Fine(b, chunkSize) && b.chunk.None?
    ensures Clamps.SourceByte(Visible(History(b, chunkSize), p), b.objects) == 0
  {
    ClampedNone(b.clamps, chunkSize);
  }

  /** A run of the session and of the store behind it. */
  ghost predicate StoreRun(states: seq<Session.Session>, events: seq<Session.Event>, stores: seq<Store>,
                           chunkSize: u32) {
    && Session.Run(states, events) && |stores| == |states|
    && forall i :: 0 <= i < |events| ==> StoreRunStep(states, events, stores, i, chunkSize)
  }

  ghost predicate StoreRunStep(states: seq<Session.Session>, events: seq<Session.Event>, stores: seq<Store>, i: nat,
                               chunkSize: u32)
    requires i < |events| && |states| == |events| + 1 == |stores|
  {
    StoreStep(states[i], events[i], states[i + 1], stores[i], chunkSize, stores[i + 1])
  }

  lemma {:induction false} RunMirrors(states: seq<Session.Session>, events: seq<Session.Event>, stores: seq<Store>,
                                      n: nat, chunkSize: u32)
    requires StoreRun(states, events, stores, chunkSize) && Mirrors(states[0], stores[0], chunkSize) && n <= |events|
    ensures Mirrors(states[n], stores[n], chunkSize)
  {
    hide Mirrors, Session.Next, StoreStep;
    if n > 0 {
      RunMirrors(states, events, stores, n - 1, chunkSize);
      assert Session.RunStep(states, events, n - 1) && StoreRunStep(states, events, stores, n - 1, chunkSize);
      StepMirrors(states[n - 1], events[n - 1], states[n], stores[n - 1], chunkSize, stores[n]);
    }
  }

  /**
   In every state of every run whose landings are harmless, `Read` returns the bytes it returned
   at the start, overlaid by the writes and cut by the shrinks in between.
   */
  lemma HarmlessReads(states: seq<Session.Session>, events: seq<Session.Event>, stores: seq<Store>, n: nat,
                      chunkSize: u32, p: nat)
    requires StoreRun(states, events, stores, chunkSize) && Mirrors(states[0], stores[0], chunkSize) && n <= |events|
    requires Session.Inv(states[0]) && Session.AllSafe(states, events, n)
    ensures ReadByte(states[n], stores[n], p) ==
            Session.EffectAll(events[..n], ReadByte(states[0], stores[0], p), p)
  {
    hide Mirrors, Session.Inv, Session.AllSafe, Session.Next, ReadByte, Session.View, StoreStep, Session.EffectAll;
    RunMirrors(states, events, stores, n, chunkSize);
    ReadIsView(states[0], stores[0], chunkSize, p);
    ReadIsView(states[n], stores[n], chunkSize, p);
    Session.RunPreserves(states, events, n);
    assert Session.View(states[n], p) == Session.EffectAll(events[..n], Session.View(states[0], p), p);
  }

  /** So it does in every state of every run whose truncations are guarded. */
  lemma RunReads(states: seq<Session.Session>, events: seq<Session.Event>, stores: seq<Store>, n: nat, chunkSize: u32,
                 p: nat)
    requires StoreRun(states, events, stores, chunkSize) && Mirrors(states[0], stores[0], chunkSize) && n <= |events|
    requires Session.Inv(states[0]) && Guards.Tame(states[0]) && Guards.Guarded(states, events, n)
    ensures ReadByte(states[n], stores[n], p) ==
            Session.EffectAll(events[..n], ReadByte(states[0], stores[0], p), p)
  {
    hide Mirrors, Session.Inv, Guards.Tame, Guards.Guarded, Session.AllSafe, Session.Next, ReadByte, StoreStep,
      Session.EffectAll;
    Guards.GuardedSafe(states, events, n);
    HarmlessReads(states, events, stores, n, chunkSize, p);
  }

  /**
   After a flush that returned OK the published state alone, without the pending bytes, reads at
   every position as what `Read` returned when it began, as a byte written since, or as zero where
   the file was cut.
   */
  lemma DurableReads(states: seq<Session.Session>, events: seq<Session.Event>, stores: seq<Store>, chunkSize: u32,
                     p: nat)
    requires Session.Flush(states, events) && StoreRun(states, events, stores, chunkSize)
    requires Session.Inv(states[0]) && Guards.Tame(states[0]) && Durability.Firm(states[0])
    requires Guards.Guarded(states, events, |events|) && Mirrors(states[0], stores[0], chunkSize)
    requires Session.AllPublished(states[|events| - 1])
    ensures var b := ReadByte(states[|events|].(dirty := []), stores[|events|], p);
            || b == ReadByte(states[0], stores[0], p)
            || Durability.Wrote(Session.Writes(events[1..|events| - 1]), p, b)
            || (b == 0 && Session.Cut(events, p))
  {
    hide Mirrors, Session.Inv, Guards.Tame, Durability.Firm, Guards.Guarded, Session.Next, StoreStep, Session.Cut,
      ReadByte, Durability.Wrote, Session.AllPublished;
    var t, c := states[|events|], stores[|events|];
    Durability.FlushDurable(states, events, p);
    RunMirrors(states, events, stores, |events|, chunkSize);
    ReadIsView(states[0], stores[0], chunkSize, p);
    SameMirrors(t, t.(dirty := []), c, chunkSize);
    ReadIsView(t.(dirty := []), c, chunkSize, p);
  }

  /** A readable store: everything `Read` needs succeeds. */
  lemma MirrorsReadable(s: Session.Session, b: Store, chunkSize: u32)
    requires Mirrors(s, b, chunkSize)
    ensures Clamps.Increasing(b.clamps)
    ensures b.chunk.Some? ==>
              && Reads.Readable(b.records, b.clamps, b.chunk, chunkSize)
              && Clamps.Stored(History(b, chunkSize), b.objects)
  {
    hide Visible, Clamps.Clamped, Clamps.Stored;
    HistoryStored(b, chunkSize);
  }

  /** A range that a flush leaves alone: nothing was written to it or cut from it meanwhile. */
  ghost predicate LeftAlone(events: seq<Session.Event>, offset: nat, len: nat)
    requires 2 <= |events|
  {
    forall p: nat :: offset <= p < offset + len ==>
                       Latest(Session.Writes(events[1..|events| - 1]), p).None? && !Session.Cut(events, p)
  }

  /** Reading before a flush and after it: same outcome, same bytes. */
  method ReadAroundFlush(s: Session.Session, b: Store, t: Session.Session, c: Store, offset: nat, len: nat,
                         chunkSize: u32, ghost states: seq<Session.Session>, ghost events: seq<Session.Event>,
                         ghost stores: seq<Store>)
    returns (before: Result<seq<byte>>, after: Result<seq<byte>>)
    requires Session.Flush(states, events) && StoreRun(states, events, stores, chunkSize)
    requires Session.Inv(states[0]) && Guards.Tame(states[0]) && Guards.Guarded(states, events, |events|)
             && Mirrors(states[0], stores[0], chunkSize)
    requires s == states[0] && b == stores[0] && t == states[|events|] && c == stores[|events|]
    requires offset + len <= chunkSize && LeftAlone(events, offset, len)
    ensures before.Success? && after == before
  {
    hide Mirrors, Session.AllSafe, Session.Flush, StoreRun, ReadByte, Session.View, Session.Effect, Visible,
      Clamps.Clamped, Latest, Session.EffectAll, Clamps.SourceByte, Clamps.Stored, Session.Writes, Session.Cut,
      ByteAt, Reads.PublishedAt, Reads.Readable, Reads.History, Session.Inv, Canonical, LeftAlone, Clamps.Increasing,
      Guards.Tame, Guards.Guarded;
    FlushSafe(states, events);
    RunMirrors(states, events, stores, |events|, chunkSize) by { FlushRuns(states, events, stores, chunkSize); }
    MirrorsReadable(s, b, chunkSize);
    MirrorsReadable(t, c, chunkSize);
    EndsShaped(states, events, stores, chunkSize);
    before := ReadStore(s, b, offset, len);
    after := ReadStore(t, c, offset, len);
    forall p: nat | offset <= p < offset + len ensures ReadByte(t, c, p) == ReadByte(s, b, p) {
      FlushReads(states, events, stores, chunkSize, offset, len, p);
    }
    forall k | 0 <= k < len ensures before.value[k] == after.value[k] {
      assert ReadByte(t, c, offset + k) == ReadByte(s, b, offset + k);
    }
    assert before.value == after.value;
  }

  lemma FlushSafe(states: seq<Session.Session>, events: seq<Session.Event>)
    requires Session.Flush(states, events) && Session.Inv(states[0]) && Guards.Tame(states[0])
    requires Guards.Guarded(states, events, |events|)
    ensures Session.AllSafe(states, events, |events|)
  {
    hide Session.Next, Session.Inv, Guards.Tame, Session.AllSafe;
    Guards.GuardedSafe(states, events, |events|);
  }

  lemma FlushRuns(states: seq<Session.Session>, events: seq<Session.Event>, stores: seq<Store>, chunkSize: u32)
    requires Session.Flush(states, events) && StoreRun(states, events, stores, chunkSize)
    ensures 2 <= |events| && |states| == |events| + 1 == |stores|
  {
    hide Session.Next, StoreStep;
  }

  lemma EndsShaped(states: seq<Session.Session>, events: seq<Session.Event>, stores: seq<Store>, chunkSize: u32)
    requires StoreRun(states, events, stores, chunkSize) && Session.Inv(states[0])
    requires Session.AllSafe(states, events, |events|) && Mirrors(states[0], stores[0], chunkSize)
    ensures Canonical(states[0].dirty) && Canonical(states[|events|].dirty)
    ensures states[0].chunkSize == states[|events|].chunkSize == chunkSize
  {
    hide Session.Next, StoreStep, Canonical, Session.AllSafe, Session.Backed, Session.Neutral, Session.TailZero,
      Session.Shows, Session.Tracked, Fine, ShowsAt;
    Session.RunPreserves(states, events, |events|);
    RunMirrors(states, events, stores, |events|, chunkSize);
  }

  lemma FlushReads(states: seq<Session.Session>, events: seq<Session.Event>, stores: seq<Store>, chunkSize: u32,
                   offset: nat, len: nat, p: nat)
    requires Session.Flush(states, events) && StoreRun(states, events, stores, chunkSize)
    requires Session.Inv(states[0]) && Session.AllSafe(states, events, |events|)
             && Mirrors(states[0], stores[0], chunkSize)
    requires LeftAlone(events, offset, len) && offset <= p < offset + len
    ensures ReadByte(states[|events|], stores[|events|], p) == ReadByte(states[0], stores[0], p)
  {
    hide Mirrors, Session.Inv, Session.AllSafe, ReadByte, Session.View, StoreStep, Latest, Session.Next, Session.Cut,
      Session.Writes;
    HarmlessReads(states, events, stores, |events|, chunkSize, p);
    assert events[..|events|] == events;
    assert Latest(Session.Writes(events[1..|events| - 1]), p).None? && !Session.Cut(events, p);
    Session.EffectMiddle(events, ReadByte(states[0], stores[0], p), p);
  }

  method ReadStore(s: Session.Session, b: Store, offset: nat, len: nat) returns (r: Result<seq<byte>>)
    requires Canonical(s.dirty) && Clamps.Increasing(b.clamps) && offset + len <= s.chunkSize
    requires b.chunk.Some? ==>
               && Reads.Readable(b.records, b.clamps, b.chunk, s.chunkSize)
               && Clamps.Stored(History(b, s.chunkSize), b.objects)
    ensures r.Success? && |r.value| == len
    ensures forall p: nat :: offset <= p < offset + len ==> r.value[p - offset] == ReadByte(s, b, p)
  {
    hide ByteAt, Canonical, Clamps.Stored, Reads.PublishedAt, Reads.Readable, Clamps.Increasing;
    r := Reads.Read(s.chunkSize, s.dirty, b.clamps, None, offset, len, Success(Reads.Snapshot(s.eof, b.chunk)),
                    Success(b.records), b.objects);
  }
}
