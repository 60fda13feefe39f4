/**
 The mount-local part of a slice chunk: its fields and the critical sections that update them.
 Each method is tied to a step of the session state machine.
 */
module SliceChunks {
  import opened Common
  import opened DirtyRanges
  import opened Layers
  import opened Windows
  import opened SliceSession
  import Clamps = BoundaryClamps

  const MAX_ACTIVE := 4 * 1024 * 1024

  // ---- Facts about one part of a write ----

  lemma {:induction false} ByteAtIn(ranges: seq<Piece>, k: nat, p: nat)
    requires Canonical(ranges) && k < |ranges| && Holds(ranges[k], p)
    ensures ByteAt(ranges, p).Some?
  {
    if k > 0 {
      assert ranges[1..][k - 1] == ranges[k];
      ByteAtIn(ranges[1..], k - 1, p);
    }
  }

  lemma ByteAtWithin(ranges: seq<Piece>, size: nat, p: nat)
    requires PiecesWithin(ranges, size) && size <= p
    ensures ByteAt(ranges, p).None?
  {
    ByteAtOutside(ranges, p);
  }

  /** Pieces reach no further than the positions they cover. */
  lemma CoverageWithin(ranges: seq<Piece>, size: nat)
    requires Canonical(ranges) && forall p: nat :: size <= p ==> ByteAt(ranges, p).None?
    ensures PiecesWithin(ranges, size)
  {
    hide ByteAt;
    forall k: nat | k < |ranges| ensures End(ranges[k]) <= size {
      if size < End(ranges[k]) {
        ByteAtIn(ranges, k, End(ranges[k]) - 1);
      }
    }
  }

  lemma OverlaidWithin(before: seq<Piece>, after: seq<Piece>, offset: nat, bytes: seq<byte>, size: nat)
    requires Canonical(after) && Overlaid(before, after, offset, bytes) && PiecesWithin(before, size)
    requires offset + |bytes| <= size
    ensures PiecesWithin(after, size)
  {
    hide ByteAt;
    forall p: nat | size <= p ensures ByteAt(after, p).None? {
      ByteAtWithin(before, size, p);
    }
    CoverageWithin(after, size);
  }

  lemma CountPush(front: seq<Piece>, piece: Piece, lo: nat, hi: nat)
    requires Canonical(front + [piece]) && lo <= hi
    ensures var first, last := Max(piece.start, lo), Min(End(piece), hi);
            CoveredCount(front + [piece], lo, hi) ==
            CoveredCount(front, lo, hi) + if first < last then last - first else 0
  {
    hide ByteAt, CoveredCount;
    var ranges := front + [piece];
    forall p: nat
      ensures Covered(ranges, p) <==> Covered(front, p) || Holds(piece, p)
      ensures Holds(piece, p) ==> !Covered(front, p)
    {
      ByteAtConcat(front, [piece], p);
      ByteAtPiece(piece, p);
      if Holds(piece, p) {
        assert forall k :: 0 <= k < |front| ==> End(ranges[k]) < ranges[|front|].start;
        assert forall k :: 0 <= k < |front| ==> front[k] == ranges[k];
        ByteAtOutside(front, p);
      }
    }
    var first, last := Max(piece.start, lo), Min(End(piece), hi);
    if first < last {
      CountAround(ranges, lo, first, last, hi);
      CountAround(front, lo, first, last, hi);
      CountSame(ranges, front, lo, first);
      CountSame(ranges, front, last, hi);
      CountFull(ranges, first, last);
      CountNone(front, first, last);
    } else {
      CountSame(ranges, front, lo, hi);
    }
  }

  lemma CountAround(ranges: seq<Piece>, lo: nat, first: nat, last: nat, hi: nat)
    requires lo <= first <= last <= hi
    ensures CoveredCount(ranges, lo, hi) ==
            CoveredCount(ranges, lo, first) + CoveredCount(ranges, first, last) + CoveredCount(ranges, last, hi)
  {
    CountSplit(ranges, lo, first, hi);
    CountSplit(ranges, first, last, hi);
  }

  /** `std::map::upper_bound`. */
  function UpperBound(ranges: seq<Piece>, x: nat): (i: nat)
    requires Canonical(ranges)
    ensures i <= |ranges|
    ensures forall k :: 0 <= k < i ==> ranges[k].start <= x
    ensures forall k :: i <= k < |ranges| ==> x < ranges[k].start
  {
    if ranges == [] || x < ranges[0].start then 0 else 1 + UpperBound(ranges[1..], x)
  }

  /** How much of `[lo, hi)` the active set already holds. */
  method CoveredBytes(active: seq<Piece>, lo: nat, hi: nat) returns (covered: nat)
    requires Canonical(active) && lo <= hi
    ensures covered == CoveredCount(active, lo, hi)
  {
    hide ByteAt, CoveredCount;
    covered := 0;
    var it: nat := UpperBound(active, lo);
    if it != 0 {
      it := it - 1;
    }
    EarlierUncovered(active, it, lo, hi);
    while it < |active| && active[it].start < hi
      invariant it <= |active|
      invariant covered == CoveredCount(active[..it], lo, hi)
    {
      var first, last := Max(active[it].start, lo), Min(End(active[it]), hi);
      PushAt(active, it, lo, hi);
      if first < last {
        covered := covered + (last - first);
      }
      it := it + 1;
    }
    LaterUncovered(active, it, lo, hi);
  }

  lemma PushAt(active: seq<Piece>, i: nat, lo: nat, hi: nat)
    requires Canonical(active) && i < |active| && lo <= hi
    ensures var first, last := Max(active[i].start, lo), Min(End(active[i]), hi);
            CoveredCount(active[..i + 1], lo, hi) ==
            CoveredCount(active[..i], lo, hi) + if first < last then last - first else 0
  {
    hide CoveredCount;
    assert active[..i + 1] == active[..i] + [active[i]];
    CountPush(active[..i], active[i], lo, hi);
  }

  lemma EarlierUncovered(active: seq<Piece>, i: nat, lo: nat, hi: nat)
    requires Canonical(active) && i <= |active| && (i == 0 || (i < |active| && active[i].start <= lo))
    ensures CoveredCount(active[..i], lo, hi) == 0
  {
    hide CoveredCount;
    var front := active[..i];
    forall p: nat | lo <= p < hi ensures !Covered(front, p) {
      assert forall k :: 0 <= k < i ==> End(active[k]) < active[i].start;
      ByteAtOutside(front, p);
    }
    CountNone(front, lo, hi);
  }

  lemma LaterUncovered(active: seq<Piece>, i: nat, lo: nat, hi: nat)
    requires Canonical(active) && i <= |active| && (i < |active| ==> hi <= active[i].start)
    ensures CoveredCount(active, lo, hi) == CoveredCount(active[..i], lo, hi)
  {
    hide CoveredCount;
    var front, rest := active[..i], active[i..];
    assert active == front + rest;
    forall p: nat | lo <= p < hi ensures Covered(active, p) == Covered(front, p) {
      ByteAtConcat(front, rest, p);
      assert forall k :: 0 <= k < |rest| ==> rest[k] == active[i + k] && hi <= rest[k].start;
      ByteAtOutside(rest, p);
    }
    CountSame(active, front, lo, hi);
  }

  lemma DrawnPart(before: seq<Piece>, older: seq<Piece>, active: seq<Piece>, next: seq<Piece>, offset: nat,
                  done: seq<byte>, part: seq<byte>)
    requires Drawn(before, older + active, offset, done) && Canonical(active) && Canonical(next)
    requires Overlaid(active, next, offset + |done|, part)
    ensures Drawn(before, older + next, offset, done + part)
  {
    hide Latest, ByteAt, Canonical;
    var layers := older + next;
    forall k, p: nat | 0 <= k < |layers| && Holds(layers[k], p)
      ensures Drawable(before, offset, done + part, p, layers[k].bytes[p - layers[k].start])
    {
      if k < |older| {
        assert (older + active)[k] == layers[k];
      } else {
        assert layers[k] == next[k - |older|];
        ByteAtOwn(next, k - |older|, p);
        if !(offset + |done| <= p < offset + |done| + |part|) {
          var j := ByteAtHolder(active, p);
          assert (older + active)[|older| + j] == active[j];
        }
      }
    }
  }

  /** One more part, accepted after the earlier ones. */
  lemma LayeredPart(before: seq<Piece>, extra: seq<FrozenSlice>, active: seq<Piece>, next: seq<Piece>, offset: nat,
                    done: seq<byte>, part: seq<byte>)
    requires Layered(before, extra, active, offset, done) && Canonical(active) && Canonical(next)
    requires Overlaid(active, next, offset + |done|, part)
    ensures Layered(before, extra, next, offset, done + part)
  {
    hide Latest, ByteAt;
    DrawnPart(before, LayersOf(extra), active, next, offset, done, part);
    hide Drawn;
    forall p: nat
      ensures Latest(LayersOf(extra) + next, p) ==
              if offset <= p < offset + |done + part| then Some((done + part)[p - offset]) else Latest(before, p)
    {
      LatestConcat(LayersOf(extra), active, p);
      LatestConcat(LayersOf(extra), next, p);
      LatestOfCanonical(active, p);
      LatestOfCanonical(next, p);
    }
  }

  lemma LayeredFreeze(before: seq<Piece>, extra: seq<FrozenSlice>, active: seq<Piece>, offset: nat, done: seq<byte>)
    requires Layered(before, extra, active, offset, done)
    ensures Layered(before, extra + Freeze(active), [], offset, done)
  {
    FreezeLayers(active);
    LayersOfConcat(extra, Freeze(active));
    assert LayersOf(extra + Freeze(active)) + [] == LayersOf(extra) + active;
  }

  method ByteCount(pieces: seq<Piece>) returns (bytes: nat)
    ensures bytes == Total(pieces)
  {
    hide Total;
    bytes := 0;
    EmptyTotal();
    assert pieces[..0] == [];
    for i := 0 to |pieces|
      invariant bytes == Total(pieces[..i])
    {
      bytes := bytes + |pieces[i].bytes|;
      TotalPush(pieces, i);
    }
    assert pieces[..|pieces|] == pieces;
  }

  /** Clips every generation, drops the empty ones, and counts what is left of the first `held`. */
  method ClipGenerations(slices: seq<FrozenSlice>, held: nat, size: nat) returns (kept: seq<FrozenSlice>, left: nat)
    requires held <= |slices|
    ensures kept == ClipFrozen(slices, size) && left == |ClipUpTo(slices, held, size)| <= |kept|
  {
    hide ClipUpTo, ClipSlice;
    kept, left := [], 0;
    ClipNone(slices, size);
    for i := 0 to |slices|
      invariant kept == ClipUpTo(slices, i, size)
      invariant held <= i ==> left == |ClipUpTo(slices, held, size)|
    {
      ClipOne(slices, i, size);
      var c := ClipSlice(slices[i], size);
      if c.visibleLen != 0 {
        kept := kept + [c];
      }
      if i + 1 == held {
        left := |kept|;
      }
    }
    ClipSplit(slices, held, |slices|, size);
  }

  // ---- The chunk ----

  class SliceChunk {
    const chunkSize: nat
    var dirty: seq<Piece>
    var active: seq<Piece>
    var activeBytes: nat
    var frozen: seq<FrozenSlice>
    var flushing: bool
    /** How many of the oldest generations the flush in progress holds as its candidates. */
    var held: nat
    var truncateEpoch: nat
    var boundaries: seq<Clamps.Clamp>
    var boundaryError: Option<Status>

    constructor (chunkSize: nat)
      ensures Valid() && this.chunkSize == chunkSize
      ensures dirty == [] && active == [] && frozen == [] && boundaries == [] && boundaryError == None
    {
      this.chunkSize := chunkSize;
      dirty, active, activeBytes, frozen, flushing, held, truncateEpoch := [], [], 0, [], false, 0, 0;
      boundaries, boundaryError := [], None;
    }

    /** The active byte count is exact and under budget, and the dirty view is backed by the generations. */
    ghost predicate Valid()
      reads this
    {
      && Canonical(dirty) && Canonical(active) && PiecesWithin(active, chunkSize)
      && activeBytes == Total(active) < MAX_ACTIVE
      && AllSized(frozen) && AllWithin(frozen, chunkSize)
      && Backed(Place(EMPTY)) && held <= |frozen|
      && Clamps.Increasing(boundaries) && Clamps.OneMapping(boundaries)
    }

    /** The session this chunk is in, given everything outside it. */
    ghost function Place(world: Session): Session
      reads this
    {
      world.(chunkSize := chunkSize, frozen := frozen, active := active, dirty := dirty,
      flight := if world.flight.Publishing? then Publishing(held, world.flight.done) else Idle)
    }

    method FreezeActive()
      modifies `frozen, `active, `activeBytes
      ensures frozen == old(frozen) + Freeze(old(active)) && active == [] && activeBytes == 0
    {
      var i := 0;
      while i < |active|
        modifies `frozen
        invariant 0 <= i <= |active|
        invariant frozen == old(frozen) + Freeze(old(active))[..i]
      {
        var len := |active[i].bytes|;
        frozen := frozen + [FrozenSlice(active[i].start, active[i].bytes, len, len, false, Untouched)];
        i := i + 1;
      }
      assert Freeze(old(active))[..i] == Freeze(old(active));
      active, activeBytes := [], 0;
    }

    /** Makes room for one part, accepts it, and freezes when the budget is reached. */
    method AcceptPart(start: nat, part: seq<byte>)
      requires Canonical(active) && activeBytes == Total(active) < MAX_ACTIVE && 0 < |part| <= MAX_ACTIVE
      modifies `frozen, `active, `activeBytes
      ensures Canonical(active) && activeBytes == Total(active) < MAX_ACTIVE
      ensures exists first: bool, middle: seq<Piece>, last: bool ::
                && Parted(old(frozen), old(active), start, part, first, middle, last, frozen, active)
                && Budgeted(old(active), start, part, first, middle, last)
    {
      hide ByteAt, Total, CoveredCount, Canonical;
      ghost var first := false;
      if activeBytes + |part| > MAX_ACTIVE {
        var covered := CoveredBytes(active, start, start + |part|);
        CountBound(active, start, start + |part|);
        if activeBytes + |part| - covered > MAX_ACTIVE {
          FreezeActive();
          first := true;
        }
      }
      EmptyTotal();
      EmptyCount(start, start + |part|);
      CountBound(active, start, start + |part|);
      var newly;
      active, newly := AcceptWrite(active, start, part);
      ghost var middle := active;
      activeBytes := activeBytes + newly;
      ghost var last := false;
      if activeBytes >= MAX_ACTIVE {
        FreezeActive();
        last := true;
      }
      assert Parted(old(frozen), old(active), start, part, first, middle, last, frozen, active);
      assert Budgeted(old(active), start, part, first, middle, last);
    }

    method Write(offset: nat, bytes: seq<byte>, ghost world: Session) returns (status: Status)
      requires Valid()
      modifies `dirty, `active, `activeBytes, `frozen
      ensures Valid() && old(frozen) <= frozen
      ensures status == if offset + |bytes| <= chunkSize then Ok else InvalidArgument
      ensures status != Ok || bytes == [] ==> unchanged(this)
      ensures status == Ok && Total(old(active)) + |bytes| - CoveredCount(old(active), offset, offset + |bytes|)
                            < MAX_ACTIVE && |bytes| <= MAX_ACTIVE ==>
                frozen == old(frozen)
      ensures status == Ok && bytes != [] ==>
                NextWrite(old(Place(world)), offset, bytes,
                          Place(world.(since := world.since + [Piece(offset, bytes)])))
    {
      hide ByteAt, Latest, Total, Canonical, Layered, AllSized, AllWithin, PiecesWithin, Parted, Backed, Budgeted,
        CoveredCount;
      if offset > chunkSize || |bytes| > chunkSize - offset {
        return InvalidArgument;
      }
      if |bytes| == 0 {
        return Ok;
      }
      var newly;
      dirty, newly := AcceptWrite(dirty, offset, bytes);
      ghost var base, before := frozen, active;
      NothingAccepted(frozen, active, offset, bytes, chunkSize);
      var cursor: nat := 0;
      while cursor < |bytes|
        modifies `active, `activeBytes, `frozen
        invariant cursor <= |bytes| && base <= frozen
        invariant Canonical(active) && activeBytes == Total(active) < MAX_ACTIVE
        invariant ExtraFine(frozen[|base|..], active, chunkSize)
        invariant Layered(before, frozen[|base|..], active, offset, bytes[..cursor])
        invariant cursor == 0 ==> frozen == base && active == before
        invariant cursor == 0 || cursor == |bytes| || MAX_ACTIVE < |bytes|
        invariant 0 < cursor ==>
                    || frozen == base || MAX_ACTIVE < |bytes|
                    || MAX_ACTIVE <= Total(before) + |bytes| - CoveredCount(before, offset, offset + |bytes|)
      {
        var partSize := Min(MAX_ACTIVE, |bytes| - cursor);
        var part := bytes[cursor..cursor + partSize];
        label L:
        AcceptPart(offset + cursor, part);
        ghost var first, middle, last :|
          && Parted(old@L(frozen), old@L(active), offset + cursor, part, first, middle, last, frozen, active)
          && Budgeted(old@L(active), offset + cursor, part, first, middle, last);
        PartLayered(before, base, old@L(frozen), old@L(active), offset, bytes[..cursor], part, first, middle, last,
                    frozen, active, chunkSize);
        PartKept(old@L(frozen), old@L(active), offset + cursor, part, first, middle, last, frozen, active);
        assert cursor == 0 && partSize == |bytes| ==> part == bytes;
        assert bytes[..cursor] + part == bytes[..cursor + partSize];
        cursor := cursor + partSize;
      }
      assert bytes[..|bytes|] == bytes;
      BackedAnyway(old(Place(EMPTY)), old(Place(world)));
      WriteDone(old(Place(world)), offset, bytes, Place(world.(since := world.since + [Piece(offset, bytes)])));
      BackedAnyway(Place(world.(since := world.since + [Piece(offset, bytes)])), Place(EMPTY));
      return Ok;
    }

    /** The part of `TruncateLocal` under the lock. */
    method ClipLocal(size: nat, ghost world: Session)
      requires Valid() && (world.flight.Publishing? ==> world.flight.done <= held)
      modifies `dirty, `active, `activeBytes, `frozen, `held, `truncateEpoch
      ensures Valid() && truncateEpoch == old(truncateEpoch) + 1
      ensures NextShrink(old(Place(world)), size, Place(Shrunk(old(Place(world)), size)))
    {
      hide ByteAt, Latest, Total, CoveredCount, Canonical, AllSized, AllWithin, Backed, ClipUpTo, ClipSlice, Orphaned;
      truncateEpoch := truncateEpoch + 1;
      dirty := ClipRanges(dirty, size);
      active := ClipRanges(active, size);
      activeBytes := ByteCount(active);
      ClippedTotal(old(active), active, size, chunkSize);
      frozen, held := ClipGenerations(frozen, held, size);
      BackedAnyway(old(Place(EMPTY)), old(Place(world)));
      ClipDone(old(Place(world)), size, Place(Shrunk(old(Place(world)), size)));
      BackedAnyway(Place(Shrunk(old(Place(world)), size)), Place(EMPTY));
    }

    /** The first critical section of `Flush`: one flush at a time, starting from everything accepted so far. */
    method BeginFlush(ghost world: Session) returns (status: Status, candidates: seq<FrozenSlice>)
      requires Valid()
      modifies `frozen, `active, `activeBytes, `flushing, `held
      ensures Valid() && flushing
      ensures status == if old(flushing) then Busy else Ok
      ensures status == Busy ==> frozen == old(frozen) && active == old(active) && held == old(held)
      ensures status == Ok ==> candidates == frozen && held == |frozen|
      ensures status == Ok && world.flight.Idle? ==>
                NextBegin(old(Place(world)), Place(world.(flight := Publishing(0, 0), since := [])))
    {
      hide ByteAt, Latest, Total, Canonical, AllSized, AllWithin;
      if flushing {
        return Busy, [];
      }
      flushing := true;
      ghost var s := Place(EMPTY);
      FreezeActive();
      held := |frozen|;
      EmptyTotal();
      BeginDone(s, Place(EMPTY.(flight := Publishing(0, 0))));
      return Ok, frozen;
    }

    /** `retire_committed` and `finish`: the first `done` generations are confirmed, and the next flush may begin. */
    method Retire(done: nat, ghost world: Session)
      requires Valid() && done <= held
      modifies `dirty, `frozen, `held, `flushing
      ensures Valid() && !flushing
      ensures world.flight.Publishing? && world.flight.done == done ==>
                NextFinish(old(Place(world)), Place(world.(flight := Idle)))
    {
      hide ByteAt, Latest, Total, Canonical, AllSized, AllWithin, LayersOf;
      flushing, held := false, 0;
      if done == 0 {
        assert frozen[0..] == frozen;
        return;
      }
      frozen := frozen[done..];
      dirty := Rebuild(LayersOf(frozen) + active);
      TailSized(old(frozen), done, chunkSize);
    }

    /** Other fibers of the mount run while the lock is not held; `script` is what they do. */
    method Race(script: seq<Event>, ghost world: Session) returns (ghost after: Session)
      requires Valid() && LocalScript(script, chunkSize) && (world.flight.Publishing? ==> world.flight.done == 0)
      modifies `dirty, `active, `activeBytes, `frozen, `held, `truncateEpoch
      ensures Valid() && Raced(old(Place(world)), script, Place(after))
      ensures (after.flight.Publishing? <==> world.flight.Publishing?)
              && (after.flight.Publishing? ==> after.flight.done == 0)
      ensures if Truncates(script) then old(truncateEpoch) < truncateEpoch
              else truncateEpoch == old(truncateEpoch) && old(frozen) <= frozen && held == old(held)
    {
      hide Backed, Canonical, AllSized, AllWithin, PiecesWithin, Total, Raced, NextWrite, NextShrink, Truncates;
      after := world;
      RacedNothing(Place(world));
      TruncatesNothing(script);
      for i := 0 to |script|
        invariant Valid() && Raced(old(Place(world)), script[..i], Place(after))
        invariant (after.flight.Publishing? <==> world.flight.Publishing?)
                  && (after.flight.Publishing? ==> after.flight.done == 0)
        invariant if Truncates(script[..i]) then old(truncateEpoch) < truncateEpoch
          else truncateEpoch == old(truncateEpoch) && old(frozen) <= frozen && held == old(held)
      {
        TruncatesPush(script, i);
        ghost var s := Place(after);
        if script[i].Write? {
          var status := Write(script[i].offset, script[i].bytes, after);
          after := after.(since := after.since + [Piece(script[i].offset, script[i].bytes)]);
        } else {
          ClipLocal(script[i].size, after);
          after := Shrunk(s, script[i].size);
          ShrunkFlight(s, script[i].size);
        }
        assert script[..i + 1] == script[..i] + [script[i]];
        RacedPush(old(Place(world)), script[..i], s, script[i], Place(after));
      }
      assert script[..|script|] == script;
    }

    /** The critical section that puts the built candidates in place. */
    method InstallBuilt(pending: seq<FrozenSlice>, image: seq<byte>, built: seq<Built>, ghost world: Session)
      returns (candidates: seq<FrozenSlice>)
      requires Valid() && world.flight.Publishing? && world.flight.done == 0
      requires held <= |pending| && pending <= frozen && |image| == chunkSize && Plan(built, pending, image)
      modifies `frozen, `held
      ensures Valid() && held == |candidates| && candidates == frozen[..held]
      ensures Installs(old(Place(world)), |pending|, image, built, Place(world))
    {
      hide Backed, Canonical, AllSized, AllWithin, PiecesWithin, Total, Plan, Reordered;
      ghost var s := Place(world);
      assert s.frozen[..|pending|] == pending;
      BackedAnyway(Place(EMPTY), s);
      var rebuilt := Install(frozen, built, |pending|);
      candidates := Install(pending, built, |pending|);
      frozen, held := rebuilt, |candidates|;
      InstallDone(s, |pending|, image, built, Place(world));
      BackedAnyway(Place(world), Place(EMPTY));
    }

    /**
     `PrepareWindowCandidates`: up to four attempts to assemble from a snapshot and install, each
     given up when a truncation came in between.  `images` are the committed bytes each attempt
     reads, or why it cannot, and `races` what other fibers do during each.  `base` is the session
     at the last snapshot and `raced` after the race that followed it.
     */
    method PrepareWindowCandidates(images: seq<Result<seq<byte>>>, races: seq<seq<Event>>, ghost world: Session)
      returns (status: Status, candidates: seq<FrozenSlice>, attempt: nat, built: seq<Built>,
               ghost base: Session, ghost raced: Session, ghost after: Session)
      requires Valid() && world.flight.Publishing? && world.flight.done == 0
      requires |images| == 4 && forall k :: 0 <= k < 4 ==> Hydrates(images[k])
      requires |races| == 4 && forall k :: 0 <= k < 4 ==> LocalScript(races[k], chunkSize)
      modifies `dirty, `active, `activeBytes, `frozen, `held, `truncateEpoch
      ensures Valid() && after.flight.Publishing? && attempt <= 4
      ensures forall k :: 0 <= k < attempt ==> Truncates(races[k])
      ensures Raced(old(Place(world)), Joined(races, attempt), base)
      ensures status == Ok ==> attempt < 4 && held == |candidates| && candidates == frozen[..held]
      ensures status == Ok ==> Coalesces(built, base.frozen)
      ensures status == Ok && built == [] ==> Place(after) == base
      ensures status == Ok && built != [] ==>
                && images[attempt].Success? && !Truncates(races[attempt]) && Raced(base, races[attempt], raced)
                && Installs(raced, |base.frozen|, images[attempt].value, built, Place(after))
      ensures attempt == 4 ==> status == Busy && Place(after) == base
      ensures attempt < 4 && status != Ok ==>
                images[attempt] == Failure(status) && Raced(base, races[attempt], Place(after))
    {
      hide Backed, Canonical, AllSized, AllWithin, PiecesWithin, Total, Plan, Reordered, Raced, Coalesces, Truncates,
        Installs, Joined, LocalScript, Source;
      attempt, after := 0, world;
      RacedNothing(Place(world));
      JoinedNothing(races);
      while attempt < 4
        invariant attempt <= 4 && Valid() && after.flight.Publishing? && after.flight.done == 0
        invariant Raced(old(Place(world)), Joined(races, attempt), Place(after))
        invariant forall k :: 0 <= k < attempt ==> Truncates(races[k])
      {
        var pending, epoch := frozen, truncateEpoch;
        base := Place(after);
        var image := if images[attempt].Success? then images[attempt].value else seq(chunkSize, _ => 0);
        built := PrepareWindows(pending, image);
        CoalescesAll(built, pending, image);
        if built == [] {
          return Ok, frozen[..held], attempt, built, base, base, after;
        }
        after := Race(races[attempt], after);
        raced := Place(after);
        if images[attempt].Failure? {
          return images[attempt].error, [], attempt, [], base, raced, after;
        }
        if epoch != truncateEpoch {
          RacedJoin(old(Place(world)), races, attempt, base, raced);
          attempt := attempt + 1;
          continue;
        }
        candidates := InstallBuilt(pending, image, built, after);
        return Ok, candidates, attempt, built, base, raced, after;
      }
      return Busy, [], 4, [], Place(after), Place(after), after;
    }

    ghost predicate Hydrates(image: Result<seq<byte>>) {
      if image.Success? then |image.value| == chunkSize else image.error != Ok
    }

    /** `CaptureBoundary` after its reads: their status, the mapping and the record count. */
    method CaptureBoundary(prefix: nat, read: Status, chunk: Option<nat>, count: nat)
      requires Valid()
      modifies `boundaries, `boundaryError
      ensures Valid()
      ensures read == Ok && boundaryError == None ==> boundaries != [] && boundaries[|boundaries| - 1].chunk == chunk
      ensures var captured := Clamps.Captured(old(boundaries), Min(prefix, chunkSize), chunk, count);
              if read != Ok then boundaries == old(boundaries) && boundaryError == Some(read)
              else if captured.Success? then boundaries == captured.value && boundaryError == None
              else boundaryError == Some(Malformed) && boundaries == old(boundaries)
    {
      hide Canonical, PiecesWithin, AllSized, AllWithin, Backed, Total, Clamps.OneMapping;
      if read != Ok {
        boundaryError := Some(read);
        return;
      }
      ghost var captured := Clamps.Captured(boundaries, Min(prefix, chunkSize), chunk, count);
      if captured.Success? {
        Clamps.CapturedOneMapping(boundaries, Min(prefix, chunkSize), chunk, count);
      }
      boundaryError := None;
      if boundaries != [] && boundaries[|boundaries| - 1].chunk != chunk {
        boundaries := [];
      }
      var visible := Min(prefix, chunkSize);
      if boundaries != [] && count < boundaries[|boundaries| - 1].recordCount {
        boundaryError := Some(Malformed);
        return;
      }
      if boundaries != [] && count == boundaries[|boundaries| - 1].recordCount {
        var last := boundaries[|boundaries| - 1];
        boundaries := boundaries[..|boundaries| - 1] + [last.(visiblePrefix := Min(visible, last.visiblePrefix))];
      } else {
        boundaries := boundaries + [Clamps.Clamp(visible, chunk, count)];
      }
    }
  }

  lemma TotalPush(ranges: seq<Piece>, i: nat)
    requires i < |ranges|
    ensures Total(ranges[..i + 1]) == Total(ranges[..i]) + |ranges[i].bytes|
  {
    assert ranges[..i + 1] == ranges[..i] + [ranges[i]];
    TotalConcat(ranges[..i], [ranges[i]]);
    ByteAtPiece(ranges[i], 0);
  }

  /** Clipping never adds bytes. */
  lemma ClippedTotal(before: seq<Piece>, after: seq<Piece>, size: nat, chunkSize: nat)
    requires Canonical(before) && Canonical(after) && Clipped(before, after, size) && PiecesWithin(before, chunkSize)
    ensures Total(after) <= Total(before) && PiecesWithin(after, chunkSize)
  {
    hide ByteAt, CoveredCount, Total;
    forall p: nat | chunkSize <= p ensures ByteAt(after, p).None? {
      ByteAtWithin(before, chunkSize, p);
    }
    CoverageWithin(after, chunkSize);
    CountTotal(before, 0, chunkSize);
    CountTotal(after, 0, chunkSize);
    CountFewer(after, before, 0, chunkSize);
  }

  lemma {:induction false} CountFewer(a: seq<Piece>, b: seq<Piece>, lo: nat, hi: nat)
    requires forall p: nat :: lo <= p < hi && Covered(a, p) ==> Covered(b, p)
    ensures CoveredCount(a, lo, hi) <= CoveredCount(b, lo, hi)
  {
    hide ByteAt;
    if lo < hi {
      CountFewer(a, b, lo, hi - 1);
    }
  }

  lemma ClipNone(frozen: seq<FrozenSlice>, size: nat)
    ensures ClipUpTo(frozen, 0, size) == []
  {
  }

  lemma ClipOne(frozen: seq<FrozenSlice>, i: nat, size: nat)
    requires i < |frozen|
    ensures var last := ClipSlice(frozen[i], size);
            ClipUpTo(frozen, i + 1, size) == if last.visibleLen ==
                                                0 then ClipUpTo(frozen, i, size) else ClipUpTo(frozen, i, size) + [last]
  {
  }

  /** Everything outside the chunk after a truncation. */
  function Shrunk(s: Session, size: nat): Session {
    s.(history := ClipAll(s.history, size), eof := Min(s.eof, size), flight := ClipFlight(s.flight, s.frozen, size),
    orphans := s.orphans + Orphaned(s.frozen, |s.frozen|, size))
  }

  lemma ShrunkFlight(s: Session, size: nat)
    ensures Shrunk(s, size).flight.Publishing? <==> s.flight.Publishing?
    ensures s.flight.Publishing? && s.flight.done == 0 ==> Shrunk(s, size).flight.done == 0
  {
  }

  lemma ClipDone(s: Session, size: nat, t: Session)
    requires AllSized(s.frozen) && AllWithin(s.frozen, s.chunkSize) && Canonical(s.active) && Canonical(s.dirty)
    requires Backed(s) && (s.flight.Publishing? ==> s.flight.done <= s.flight.total <= |s.frozen|)
    requires PiecesWithin(s.active, s.chunkSize) && NextShrink(s, size, t)
    ensures AllSized(t.frozen) && AllWithin(t.frozen, t.chunkSize) && Backed(t)
  {
    hide ByteAt, Latest, Canonical, NextShrink, Unpublished;
    ShrinkShaped(s, size, t);
    forall p: nat | ByteAt(t.dirty, p).Some? ensures Latest(Unpublished(t), p) == ByteAt(t.dirty, p) {
      ShrinkAt(s, size, t, p);
    }
  }

  /** Only the generations and the dirty view matter to their agreement. */
  lemma BackedAnyway(s: Session, t: Session)
    requires s.frozen == t.frozen && s.active == t.active && s.dirty == t.dirty
    ensures Backed(s) <==> Backed(t)
  {
    hide ByteAt, Latest;
    assert Unpublished(s) == Unpublished(t);
  }

  lemma BeginDone(s: Session, t: Session)
    requires NextBegin(s, t) && Backed(s) && PiecesWithin(s.active, s.chunkSize)
    requires AllSized(s.frozen) && AllWithin(s.frozen, s.chunkSize)
    ensures Backed(t.(flight := Idle)) && AllSized(t.frozen) && AllWithin(t.frozen, t.chunkSize)
  {
    hide ByteAt, Latest;
    FreezeLayers(s.active);
    LayersOfConcat(s.frozen, Freeze(s.active));
    assert Unpublished(t.(flight := Idle)) == Unpublished(s);
    MoreSized(s.frozen, Freeze(s.active), s.chunkSize);
  }

  lemma InstallDone(s: Session, taken: nat, image: seq<byte>, built: seq<Built>, t: Session)
    requires Shaped(s) && Backed(s) && Installs(s, taken, image, built, t)
    ensures Shaped(t) && Backed(t)
    ensures Reordered(s.frozen[..taken], built, taken) <= t.frozen
  {
    hide Canonical, Plan, Reordered, ByteAt, Latest;
    CoalesceShaped(s, taken, image, built, t);
    CoalesceBacked(s, taken, image, built, t);
    CoalesceSplit(s, taken, image, built, t);
  }

  // ---- What happens between two critical sections ----

  ghost predicate LocalScript(script: seq<Event>, chunkSize: nat) {
    forall e :: e in script ==> e.Shrink? || (e.Write? && e.bytes != [] && e.offset + |e.bytes| <= chunkSize)
  }

  ghost predicate Truncates(script: seq<Event>) { exists e :: e in script && e.Shrink? }

  lemma TruncatesNothing(script: seq<Event>)
    ensures !Truncates(script[..0])
  {
  }

  lemma TruncatesPush(script: seq<Event>, i: nat)
    requires i < |script|
    ensures Truncates(script[..i + 1]) <==> Truncates(script[..i]) || script[i].Shrink?
  {
    assert script[..i + 1] == script[..i] + [script[i]];
    assert script[i] in script[..i + 1];
    assert forall e :: e in script[..i] ==> e in script[..i + 1];
  }

  lemma JoinedNothing(races: seq<seq<Event>>)
    ensures Joined(races, 0) == []
  {
  }

  /** `t` is reached from `s` by these steps. */
  ghost predicate Raced(s: Session, events: seq<Event>, t: Session)
    decreases |events|
  {
    if events == [] then s == t
    else exists m :: Raced(s, Front(events), m) && Next(m, Last(events), t)
  }

  function Front(events: seq<Event>): seq<Event>
    requires events != []
  {
    events[..|events| - 1]
  }

  function Last(events: seq<Event>): Event
    requires events != []
  {
    events[|events| - 1]
  }

  function Joined(races: seq<seq<Event>>, n: nat): seq<Event>
    requires n <= |races|
  {
    if n == 0 then [] else Joined(races, n - 1) + races[n - 1]
  }

  lemma RacedNothing(s: Session)
    ensures Raced(s, [], s)
  {
  }

  lemma RacedPush(s: Session, events: seq<Event>, m: Session, e: Event, t: Session)
    requires Raced(s, events, m) && Next(m, e, t)
    ensures Raced(s, events + [e], t)
  {
    hide Next;
    assert Front(events + [e]) == events && Last(events + [e]) == e;
  }

  lemma {:induction false} RacedTwice(s: Session, a: seq<Event>, m: Session, b: seq<Event>, t: Session)
    requires Raced(s, a, m) && Raced(m, b, t)
    ensures Raced(s, a + b, t)
    decreases |b|
  {
    hide Next;
    if b == [] {
      assert a + b == a;
    } else {
      var k :| Raced(m, Front(b), k) && Next(k, Last(b), t);
      RacedTwice(s, a, m, Front(b), k);
      RacedPush(s, a + Front(b), k, Last(b), t);
      assert a + b == a + Front(b) + [Last(b)];
    }
  }

  lemma RacedJoin(s: Session, races: seq<seq<Event>>, n: nat, m: Session, t: Session)
    requires n < |races| && Raced(s, Joined(races, n), m) && Raced(m, races[n], t)
    ensures Raced(s, Joined(races, n + 1), t)
  {
    RacedTwice(s, Joined(races, n), m, races[n], t);
  }

  /** Exactly the windows with at least two small ranges are coalesced. */
  ghost predicate Coalesces(built: seq<Built>, pending: seq<FrozenSlice>) {
    forall i :: 0 <= i < |pending| ==> (Source(pending[i], built) <==> Crowded(pending, i))
  }

  lemma CoalescesAll(built: seq<Built>, pending: seq<FrozenSlice>, image: seq<byte>)
    requires forall i :: 0 <= i < |pending| ==> (Source(pending[i], built) <==> Crowded(pending, i))
    ensures Coalesces(built, pending)
  {
  }

  lemma TailSized(frozen: seq<FrozenSlice>, n: nat, size: nat)
    requires n <= |frozen| && AllSized(frozen) && AllWithin(frozen, size)
    ensures AllSized(frozen[n..]) && AllWithin(frozen[n..], size)
  {
  }

  /** Generations frozen during a write are untouched and inside the chunk, as is the active set. */
  ghost predicate ExtraFine(extra: seq<FrozenSlice>, active: seq<Piece>, size: nat) {
    && AllSized(extra) && AllWithin(extra, size) && PiecesWithin(active, size)
    && forall k :: 0 <= k < |extra| ==> extra[k].progress == Untouched
  }

  lemma NothingAccepted(frozen: seq<FrozenSlice>, active: seq<Piece>, offset: nat, bytes: seq<byte>, size: nat)
    requires PiecesWithin(active, size) && Canonical(active)
    ensures ExtraFine(frozen[|frozen|..], active, size)
    ensures Layered(active, frozen[|frozen|..], active, offset, bytes[..0])
  {
    assert LayersOf(frozen[|frozen|..]) + active == active;
    hide Latest;
    forall k, p: nat | 0 <= k < |active| && Holds(active[k], p)
      ensures Latest(active, p) == Some(active[k].bytes[p - active[k].start])
    {
      ByteAtOwn(active, k, p);
      LatestOfCanonical(active, p);
    }
  }

  lemma FreezeFine(extra: seq<FrozenSlice>, active: seq<Piece>, size: nat)
    requires ExtraFine(extra, active, size)
    ensures ExtraFine(extra + Freeze(active), [], size)
  {
  }

  lemma PartLayered(before: seq<Piece>, base: seq<FrozenSlice>, frozen: seq<FrozenSlice>, active: seq<Piece>,
                    offset: nat,
                    done: seq<byte>, part: seq<byte>, first: bool, middle: seq<Piece>, last: bool,
                    frozen': seq<FrozenSlice>, active': seq<Piece>, size: nat)
    requires base <= frozen && Parted(frozen, active, offset + |done|, part, first, middle, last, frozen', active')
    requires Canonical(active) && ExtraFine(frozen[|base|..], active, size) && offset + |done| + |part| <= size
    requires Layered(before, frozen[|base|..], active, offset, done)
    ensures base <= frozen' && ExtraFine(frozen'[|base|..], active', size)
    ensures Layered(before, frozen'[|base|..], active', offset, done + part)
  {
    hide Canonical, Overlaid, ExtraFine, Layered;
    var extra := frozen[|base|..];
    var emptied := if first then [] else active;
    var extra1 := if first then extra + Freeze(active) else extra;
    var extra2 := if last then extra1 + Freeze(middle) else extra1;
    assert frozen'[|base|..] == extra2;
    assert base <= frozen';
    if first {
      FreezeFine(extra, active, size);
      LayeredFreeze(before, extra, active, offset, done);
    }
    EmptyTotal();
    LayeredPart(before, extra1, emptied, middle, offset, done, part);
    assert ExtraFine(extra1, middle, size) by { MiddleFine(extra1, emptied, middle, offset + |done|, part, size); }
    if last {
      FreezeFine(extra1, middle, size);
      LayeredFreeze(before, extra1, middle, offset, done + part);
    }
  }

  lemma MiddleFine(extra: seq<FrozenSlice>, active: seq<Piece>, next: seq<Piece>, offset: nat, part: seq<byte>,
                   size: nat)
    requires ExtraFine(extra, active, size) && Canonical(next) && Overlaid(active, next, offset, part)
    requires offset + |part| <= size
    ensures ExtraFine(extra, next, size)
  {
    OverlaidWithin(active, next, offset, part, size);
  }

  lemma WriteDone(s: Session, offset: nat, bytes: seq<byte>, t: Session)
    requires t == s.(frozen := t.frozen, active := t.active, dirty := t.dirty,
                  since := s.since + [Piece(offset, bytes)])
    requires bytes != [] && offset + |bytes| <= s.chunkSize && Canonical(t.dirty)
    requires Overlaid(s.dirty, t.dirty, offset, bytes)
    requires Canonical(t.active) && s.frozen <= t.frozen && ExtraFine(t.frozen[|s.frozen|..], t.active, s.chunkSize)
    requires Layered(s.active, t.frozen[|s.frozen|..], t.active, offset, bytes)
    requires AllSized(s.frozen) && AllWithin(s.frozen, s.chunkSize) && Backed(s)
    ensures NextWrite(s, offset, bytes, t) && AllSized(t.frozen) && AllWithin(t.frozen, t.chunkSize)
    ensures PiecesWithin(t.active, t.chunkSize) && Backed(t)
  {
    hide Canonical, Overlaid, Latest, ByteAt, Layered, AllSized, AllWithin, PiecesWithin;
    var extra := t.frozen[|s.frozen|..];
    assert t.frozen == s.frozen + extra;
    MoreSized(s.frozen, extra, s.chunkSize);
    WriteBacked(s, offset, bytes, t);
  }

  lemma EmptyCount(lo: nat, hi: nat)
    ensures CoveredCount([], lo, hi) == 0
  {
    CountNone([], lo, hi);
  }

  /** A part that neither overfills nor fills the active set freezes nothing. */
  lemma PartKept(frozen: seq<FrozenSlice>, active: seq<Piece>, start: nat, part: seq<byte>, first: bool,
                 middle: seq<Piece>, last: bool, frozen': seq<FrozenSlice>, active': seq<Piece>)
    requires Parted(frozen, active, start, part, first, middle, last, frozen', active')
    requires Budgeted(active, start, part, first, middle, last)
    ensures frozen' == frozen || MAX_ACTIVE <= Total(active) + |part| - CoveredCount(active, start, start + |part|)
  {
    hide Total, CoveredCount, Canonical, Overlaid;
  }

  const EMPTY := Session(0, [], [], [], [], 0, Idle, [], [])

  lemma EmptyTotal()
    ensures Total([]) == 0 && Canonical([])
  {
  }

  /** The active set is frozen first exactly when the part would overfill it, and afterwards exactly when it is full. */
  ghost predicate Budgeted(active: seq<Piece>, start: nat, part: seq<byte>, first: bool, middle: seq<Piece>,
                           last: bool) {
    && (first <==> MAX_ACTIVE < Total(active) + |part| - CoveredCount(active, start, start + |part|))
    && (last <==> MAX_ACTIVE <= Total(middle))
    && Total(middle) == if first then |part| else Total(active) + |part| - CoveredCount(active, start, start + |part|)
  }

  /** The course of one part: an optional freeze, the overlay, an optional freeze. */
  ghost predicate Parted(frozen: seq<FrozenSlice>, active: seq<Piece>, start: nat, part: seq<byte>,
                         first: bool, middle: seq<Piece>, last: bool, frozen': seq<FrozenSlice>, active': seq<Piece>) {
    var emptied := if first then [] else active;
    && Canonical(middle) && Overlaid(emptied, middle, start, part)
    && active' == (if last then [] else middle)
    && frozen' == frozen + (if first then Freeze(active) else []) + (if last then Freeze(middle) else [])
  }
}
