/**
 Retained boundary sanitation: each truncation clips only the records already committed when
 it was captured.  `CaptureBoundary` keeps the list of clamps, one reverse pass over the
 history applies it, and both together amount to replaying appends and truncations in order.
 */
module BoundaryClamps {
  import opened Common
  import opened SliceRecords
  import DirtyRanges
  import Layers

  /** `BoundaryClamp`; `chunk` is the mapping the records were counted under. */
  datatype Clamp = Clamp(visiblePrefix: nat, chunk: Option<nat>, recordCount: nat)

  // ---- Reference: events in time order ----

  datatype Event = Append(record: SliceRecord) | Truncate(prefix: nat)

  /** A record cut to the positions below `size`, or dropped. */
  function CutRecord(r: SliceRecord, size: nat): seq<SliceRecord> {
    if r.pos >= size then [] else [r.(len := Min(r.len, size - r.pos))]
  }

  function CutAll(records: seq<SliceRecord>, n: nat, size: nat): seq<SliceRecord>
    requires n <= |records|
  {
    if n == 0 then [] else CutAll(records, n - 1, size) + CutRecord(records[n - 1], size)
  }

  /** Every truncation cuts the whole history there is at that moment. */
  function Replay(events: seq<Event>, n: nat): seq<SliceRecord>
    requires n <= |events|
  {
    if n == 0 then []
    else
      var before := Replay(events, n - 1);
      match events[n - 1]
      case Append(record) => before + [record]
      case Truncate(prefix) => CutAll(before, |before|, prefix)
  }

  /** The authoritative list: appends only. */
  function Appended(events: seq<Event>, n: nat): seq<SliceRecord>
    requires n <= |events|
  {
    if n == 0 then []
    else if events[n - 1].Append? then Appended(events, n - 1) + [events[n - 1].record]
    else Appended(events, n - 1)
  }

  // ---- CaptureBoundary ----

  ghost predicate Increasing(clamps: seq<Clamp>) {
    forall j, k :: 0 <= j < k < |clamps| ==> clamps[j].recordCount < clamps[k].recordCount
  }

  ghost predicate SameChunk(clamps: seq<Clamp>, chunk: Option<nat>) {
    forall k :: 0 <= k < |clamps| ==> clamps[k].chunk == chunk
  }

  /** The list update under the lock; a shrunk history is refused. */
  function Captured(clamps: seq<Clamp>, prefix: nat, chunk: Option<nat>, count: nat): Result<seq<Clamp>> {
    var kept := if clamps != [] && clamps[|clamps| - 1].chunk != chunk then [] else clamps;
    if kept != [] && count < kept[|kept| - 1].recordCount then Failure(Malformed)
    else if kept != [] && count == kept[|kept| - 1].recordCount then
      var last := kept[|kept| - 1];
      Success(kept[..|kept| - 1] + [last.(visiblePrefix := Min(prefix, last.visiblePrefix))])
    else Success(kept + [Clamp(prefix, chunk, count)])
  }

  /** All clamps belong to one mapping. */
  ghost predicate OneMapping(clamps: seq<Clamp>) {
    forall j, k :: 0 <= j < |clamps| && 0 <= k < |clamps| ==> clamps[j].chunk == clamps[k].chunk
  }

  /** Capturing keeps to one mapping, the present one, and what belonged to another is forgotten. */
  lemma CapturedOneMapping(clamps: seq<Clamp>, prefix: nat, chunk: Option<nat>, count: nat)
    requires OneMapping(clamps) && Captured(clamps, prefix, chunk, count).Success?
    ensures var next := Captured(clamps, prefix, chunk, count).value;
            next != [] && OneMapping(next) && next[|next| - 1].chunk == chunk && next[|next| - 1].recordCount == count
  {
  }

  /** The clamps captured while one mapping stays attached. */
  function Clamps(events: seq<Event>, n: nat, chunkSize: nat, chunk: Option<nat>): seq<Clamp>
    requires n <= |events|
  {
    if n == 0 then []
    else if events[n - 1].Append? then Clamps(events, n - 1, chunkSize, chunk)
    else
      var next := Captured(Clamps(events, n - 1, chunkSize, chunk), Min(events[n - 1].prefix, chunkSize), chunk,
                           |Appended(events, n - 1)|);
      if next.Success? then next.value else []
  }

  // ---- The reverse pass ----

  /** The strictest clamp captured after record `i` was appended. */
  function Strictest(clamps: seq<Clamp>, n: nat, i: nat, chunkSize: nat): nat
    requires n <= |clamps|
  {
    if n == 0 then chunkSize
    else
      var rest := Strictest(clamps, n - 1, i, chunkSize);
      if clamps[n - 1].recordCount > i then Min(rest, clamps[n - 1].visiblePrefix) else rest
  }

  function Clamped(records: seq<SliceRecord>, clamps: seq<Clamp>, n: nat, chunkSize: nat): seq<SliceRecord>
    requires n <= |records|
  {
    if n == 0 then []
    else
      var strictest := Strictest(clamps, |clamps|, n - 1, chunkSize);
      Clamped(records, clamps, n - 1, chunkSize) + CutRecord(records[n - 1], strictest)
  }

  lemma {:induction false} StrictestSplit(clamps: seq<Clamp>, n: nat, i: nat, chunkSize: nat, prefix: nat)
    requires n <= |clamps|
    ensures Strictest(clamps, n, i, Min(chunkSize, prefix)) == Min(Strictest(clamps, n, i, chunkSize), prefix)
  {
    if n > 0 {
      StrictestSplit(clamps, n - 1, i, chunkSize, prefix);
    }
  }

  lemma {:induction false} StrictestNone(clamps: seq<Clamp>, n: nat, i: nat, chunkSize: nat)
    requires n <= |clamps| && forall k :: 0 <= k < n ==> clamps[k].recordCount <= i
    ensures Strictest(clamps, n, i, chunkSize) == chunkSize
  {
    if n > 0 {
      StrictestNone(clamps, n - 1, i, chunkSize);
    }
  }

  /** Newest to oldest, taking boundaries off the end as they start to apply. */
  method Sanitize(records: seq<SliceRecord>, clamps: seq<Clamp>, chunkSize: u32) returns (r: Result<seq<SliceRecord>>)
    requires Increasing(clamps) && clamps != []
    ensures |records| < clamps[|clamps| - 1].recordCount ==> r == Failure(Malformed)
    ensures clamps[|clamps| - 1].recordCount <= |records| ==>
              if forall k :: 0 <= k < |records| ==> ValidRecord(records[k], chunkSize)
              then r == Success(Clamped(records, clamps, |records|, chunkSize))
              else r == Failure(Malformed)
  {
    hide Clamped, Strictest, StrictestFrom;
    if |records| < clamps[|clamps| - 1].recordCount {
      return Failure(Malformed);
    }
    ghost var target := Clamped(records, clamps, |records|, chunkSize);
    FromEnd(clamps, chunkSize);
    // The pass pushes to a vector that is reversed afterwards; here it grows at the front.
    var sanitized: seq<SliceRecord> := [];
    var boundary: nat := |clamps|;
    var prefix: nat := chunkSize;
    var i := |records|;
    while i > 0
      invariant 0 <= i <= |records| && boundary <= |clamps|
      invariant forall k :: i <= k < |records| ==> ValidRecord(records[k], chunkSize)
      invariant forall k :: boundary <= k < |clamps| ==> clamps[k].recordCount > i
      invariant prefix == StrictestFrom(clamps, boundary, chunkSize)
      invariant target == Clamped(records, clamps, i, chunkSize) + sanitized
    {
      while boundary > 0 && clamps[boundary - 1].recordCount >= i
        invariant boundary <= |clamps|
        invariant forall k :: boundary <= k < |clamps| ==> clamps[k].recordCount >= i
        invariant prefix == StrictestFrom(clamps, boundary, chunkSize)
      {
        FromPrevious(clamps, boundary, chunkSize);
        boundary := boundary - 1;
        prefix := Min(prefix, clamps[boundary].visiblePrefix);
      }
      assert forall k :: 0 <= k < boundary ==> clamps[k].recordCount < i;
      StrictestFound(clamps, boundary, i - 1, chunkSize);
      var record := records[i - 1];
      if !ValidRecord(record, chunkSize) {
        return Failure(Malformed);
      }
      i := i - 1;
      ClampedLast(records, clamps, i, chunkSize);
      if record.pos >= prefix {
        continue;
      }
      sanitized := [record.(len := Min(record.len, prefix - record.pos))] + sanitized;
    }
    ClampedNone(records, clamps, chunkSize);
    assert target == [] + sanitized == sanitized;
    r := Success(sanitized);
  }

  lemma ClampedLast(records: seq<SliceRecord>, clamps: seq<Clamp>, i: nat, chunkSize: nat)
    requires i < |records|
    ensures Clamped(records, clamps, i + 1, chunkSize) ==
            Clamped(records, clamps, i, chunkSize) + CutRecord(records[i], Strictest(clamps, |clamps|, i, chunkSize))
  {
  }

  lemma ClampedNone(records: seq<SliceRecord>, clamps: seq<Clamp>, chunkSize: nat)
    ensures Clamped(records, clamps, 0, chunkSize) == []
  {
  }

  lemma FromEnd(clamps: seq<Clamp>, chunkSize: nat)
    ensures StrictestFrom(clamps, |clamps|, chunkSize) == chunkSize
  {
  }

  lemma FromPrevious(clamps: seq<Clamp>, boundary: nat, chunkSize: nat)
    requires 0 < boundary <= |clamps|
    ensures StrictestFrom(clamps, boundary - 1, chunkSize) ==
            Min(StrictestFrom(clamps, boundary, chunkSize), clamps[boundary - 1].visiblePrefix)
  {
  }

  /** The minimum over the clamps from `boundary` on. */
  function StrictestFrom(clamps: seq<Clamp>, boundary: nat, chunkSize: nat): nat
    requires boundary <= |clamps|
    decreases |clamps| - boundary
  {
    if boundary == |clamps| then chunkSize
    else Min(StrictestFrom(clamps, boundary + 1, chunkSize), clamps[boundary].visiblePrefix)
  }

  lemma {:induction false} StrictestUpTo(clamps: seq<Clamp>, boundary: nat, n: nat, i: nat, chunkSize: nat)
    requires boundary <= n <= |clamps|
    requires forall k :: 0 <= k < boundary ==> clamps[k].recordCount <= i
    requires forall k :: boundary <= k < |clamps| ==> clamps[k].recordCount > i
    ensures Min(Strictest(clamps, n, i, chunkSize), StrictestFrom(clamps, n, chunkSize)) ==
            StrictestFrom(clamps, boundary, chunkSize)
    decreases n - boundary
  {
    if n == boundary {
      StrictestNone(clamps, n, i, chunkSize);
      StrictestBelow(clamps, n, chunkSize);
    } else {
      StrictestUpTo(clamps, boundary, n - 1, i, chunkSize);
    }
  }

  lemma {:induction false} StrictestBelow(clamps: seq<Clamp>, boundary: nat, chunkSize: nat)
    requires boundary <= |clamps|
    ensures StrictestFrom(clamps, boundary, chunkSize) <= chunkSize
    decreases |clamps| - boundary
  {
    if boundary < |clamps| {
      StrictestBelow(clamps, boundary + 1, chunkSize);
    }
  }

  lemma {:induction false} StrictestAtMost(clamps: seq<Clamp>, n: nat, i: nat, chunkSize: nat)
    requires n <= |clamps|
    ensures Strictest(clamps, n, i, chunkSize) <= chunkSize
  {
    if n > 0 {
      StrictestAtMost(clamps, n - 1, i, chunkSize);
    }
  }

  lemma StrictestFound(clamps: seq<Clamp>, boundary: nat, i: nat, chunkSize: nat)
    requires boundary <= |clamps|
    requires forall k :: 0 <= k < boundary ==> clamps[k].recordCount <= i
    requires forall k :: boundary <= k < |clamps| ==> clamps[k].recordCount > i
    ensures Strictest(clamps, |clamps|, i, chunkSize) == StrictestFrom(clamps, boundary, chunkSize)
  {
    StrictestUpTo(clamps, boundary, |clamps|, i, chunkSize);
    StrictestAtMost(clamps, |clamps|, i, chunkSize);
  }

  // ---- The pass equals the replay ----

  ghost predicate Kept(clamps: seq<Clamp>, chunk: Option<nat>, count: nat) {
    && Increasing(clamps) && SameChunk(clamps, chunk)
    && forall k :: 0 <= k < |clamps| ==> clamps[k].recordCount <= count
  }

  lemma CapturedKept(clamps: seq<Clamp>, prefix: nat, chunk: Option<nat>, count: nat)
    requires Kept(clamps, chunk, count)
    ensures Captured(clamps, prefix, chunk, count).Success?
    ensures Kept(Captured(clamps, prefix, chunk, count).value, chunk, count)
  {
  }

  /** One more captured clamp cuts every record there is once more, and no later one. */
  lemma CapturedStrictest(clamps: seq<Clamp>, prefix: nat, chunk: Option<nat>, count: nat, i: nat, chunkSize: nat)
    requires Kept(clamps, chunk, count) && i < count
    ensures var next := Captured(clamps, prefix, chunk, count);
            next.Success? && Strictest(next.value, |next.value|, i, chunkSize) ==
                             Min(Strictest(clamps, |clamps|, i, chunkSize), prefix)
  {
    var next := Captured(clamps, prefix, chunk, count).value;
    if clamps != [] && count == clamps[|clamps| - 1].recordCount {
      StrictestPrefix(clamps, next, |clamps| - 1, i, chunkSize);
    } else {
      StrictestPrefix(clamps, next, |clamps|, i, chunkSize);
    }
  }

  lemma {:induction false} StrictestPrefix(a: seq<Clamp>, b: seq<Clamp>, n: nat, i: nat, chunkSize: nat)
    requires n <= |a| && n <= |b| && forall k :: 0 <= k < n ==> a[k] == b[k]
    ensures Strictest(a, n, i, chunkSize) == Strictest(b, n, i, chunkSize)
  {
    if n > 0 {
      StrictestPrefix(a, b, n - 1, i, chunkSize);
    }
  }

  lemma CutTwice(r: SliceRecord, a: nat, b: nat)
    requires 0 < r.len
    ensures CutRecord(r, Min(a, b)) == CutAll(CutRecord(r, a), |CutRecord(r, a)|, b)
  {
    if r.pos < a {
      var cut := CutRecord(r, a);
      assert CutAll(cut, 0, b) == [];
      assert CutAll(cut, 1, b) == CutRecord(cut[0], b);
    }
  }

  lemma {:induction false} CutAllConcat(a: seq<SliceRecord>, b: seq<SliceRecord>, n: nat, size: nat)
    requires n <= |b|
    ensures CutAll(a + b, |a| + n, size) == CutAll(a, |a|, size) + CutAll(b, n, size)
  {
    hide CutRecord;
    if n == 0 {
      CutAllPrefix(a, b, |a|, size);
    } else {
      CutAllConcat(a, b, n - 1, size);
      assert (a + b)[|a| + n - 1] == b[n - 1];
    }
  }

  lemma {:induction false} CutAllPrefix(a: seq<SliceRecord>, b: seq<SliceRecord>, n: nat, size: nat)
    requires n <= |a|
    ensures CutAll(a + b, n, size) == CutAll(a, n, size)
  {
    if n > 0 {
      CutAllPrefix(a, b, n - 1, size);
    }
  }

  lemma {:induction false} CapturedCuts(records: seq<SliceRecord>, clamps: seq<Clamp>, prefix: nat, chunk: Option<nat>,
                                        n: nat, chunkSize: nat)
    requires Kept(clamps, chunk, |records|) && n <= |records| && forall k :: 0 <= k < |records| ==> 0 < records[k].len
    ensures var next := Captured(clamps, prefix, chunk, |records|);
            var before := Clamped(records, clamps, n, chunkSize);
            next.Success? && Clamped(records, next.value, n, chunkSize) == CutAll(before, |before|, prefix)
  {
    hide Kept, CutRecord;
    var next := Captured(clamps, prefix, chunk, |records|);
    CapturedKept(clamps, prefix, chunk, |records|);
    if n > 0 {
      CapturedCuts(records, clamps, prefix, chunk, n - 1, chunkSize);
      CapturedStrictest(clamps, prefix, chunk, |records|, n - 1, chunkSize);
      var a := Strictest(clamps, |clamps|, n - 1, chunkSize);
      CutTwice(records[n - 1], a, prefix);
      var front, last := Clamped(records, clamps, n - 1, chunkSize), CutRecord(records[n - 1], a);
      CutAllConcat(front, last, |last|, prefix);
    }
  }

  lemma {:induction false} ClampedPrefix(records: seq<SliceRecord>, r: SliceRecord, clamps: seq<Clamp>, n: nat,
                                         chunkSize: nat)
    requires n <= |records|
    ensures Clamped(records + [r], clamps, n, chunkSize) == Clamped(records, clamps, n, chunkSize)
  {
    if n > 0 {
      ClampedPrefix(records, r, clamps, n - 1, chunkSize);
    }
  }

  lemma {:induction false} ClampsKept(events: seq<Event>, n: nat, chunkSize: nat, chunk: Option<nat>)
    requires n <= |events|
    ensures Kept(Clamps(events, n, chunkSize, chunk), chunk, |Appended(events, n)|)
  {
    if n > 0 {
      ClampsKept(events, n - 1, chunkSize, chunk);
      if events[n - 1].Truncate? {
        CapturedKept(Clamps(events, n - 1, chunkSize, chunk), Min(events[n - 1].prefix, chunkSize), chunk,
                     |Appended(events, n - 1)|);
      }
    }
  }

  ghost predicate ValidEvents(events: seq<Event>, chunkSize: u32) {
    forall k :: 0 <= k < |events| && events[k].Append? ==> ValidRecord(events[k].record, chunkSize)
  }

  lemma {:induction false} AppendedValid(events: seq<Event>, n: nat, chunkSize: u32)
    requires n <= |events| && ValidEvents(events, chunkSize)
    ensures forall k :: 0 <= k < |Appended(events, n)| ==> ValidRecord(Appended(events, n)[k], chunkSize)
  {
    if n > 0 {
      AppendedValid(events, n - 1, chunkSize);
    }
  }

  lemma {:induction false} ReplayBounds(events: seq<Event>, n: nat, chunkSize: u32)
    requires n <= |events| && ValidEvents(events, chunkSize)
    ensures forall k :: 0 <= k < |Replay(events, n)| ==>
                          0 < Replay(events, n)[k].len
                          && Replay(events, n)[k].pos + Replay(events, n)[k].len <= chunkSize
  {
    if n > 0 {
      ReplayBounds(events, n - 1, chunkSize);
      if events[n - 1].Truncate? {
        CutBounds(Replay(events, n - 1), |Replay(events, n - 1)|, events[n - 1].prefix, chunkSize);
      }
    }
  }

  lemma {:induction false} CutBounds(records: seq<SliceRecord>, n: nat, size: nat, chunkSize: u32)
    requires n <= |records| && forall k :: 0 <= k < |records| ==>
                                             0 < records[k].len && records[k].pos + records[k].len <= chunkSize
    ensures forall k :: 0 <= k < |CutAll(records, n, size)| ==>
                          0 < CutAll(records, n, size)[k].len
                          && CutAll(records, n, size)[k].pos + CutAll(records, n, size)[k].len <= chunkSize
  {
    if n > 0 {
      CutBounds(records, n - 1, size, chunkSize);
    }
  }

  /** A boundary at or past the end of the chunk cuts nothing more than the end does. */
  lemma {:induction false} CutAtEnd(records: seq<SliceRecord>, n: nat, size: nat, chunkSize: u32)
    requires n <= |records| && forall k :: 0 <= k < |records| ==>
                                             0 < records[k].len && records[k].pos + records[k].len <= chunkSize
    ensures CutAll(records, n, Min(size, chunkSize)) == CutAll(records, n, size)
  {
    if n > 0 {
      CutAtEnd(records, n - 1, size, chunkSize);
    }
  }

  lemma ClampedAppend(records: seq<SliceRecord>, r: SliceRecord, clamps: seq<Clamp>, chunk: Option<nat>, chunkSize: u32)
    requires Kept(clamps, chunk, |records|) && ValidRecord(r, chunkSize)
    ensures Clamped(records + [r], clamps, |records| + 1, chunkSize) ==
            Clamped(records, clamps, |records|, chunkSize) + [r]
  {
    ClampedPrefix(records, r, clamps, |records|, chunkSize);
    StrictestNone(clamps, |clamps|, |records|, chunkSize);
    assert CutRecord(r, chunkSize) == [r];
  }

  /** For every sequence of appends and truncations, one reverse pass over the list equals the replay. */
  lemma {:induction false} PassEqualsReplay(events: seq<Event>, n: nat, chunkSize: u32, chunk: Option<nat>)
    requires n <= |events| && ValidEvents(events, chunkSize)
    ensures var records := Appended(events, n);
            Clamped(records, Clamps(events, n, chunkSize, chunk), |records|, chunkSize) == Replay(events, n)
  {
    hide Clamped, CutAll, Strictest, Captured, Kept;
    if n == 0 {
      ClampedNone([], Clamps(events, 0, chunkSize, chunk), chunkSize);
    } else {
      PassEqualsReplay(events, n - 1, chunkSize, chunk);
      ClampsKept(events, n - 1, chunkSize, chunk);
      AppendedValid(events, n - 1, chunkSize);
      var records, clamps := Appended(events, n - 1), Clamps(events, n - 1, chunkSize, chunk);
      match events[n - 1] {
        case Append(r) =>
          ClampedAppend(records, r, clamps, chunk, chunkSize);
        case Truncate(prefix) =>
          CapturedCuts(records, clamps, Min(prefix, chunkSize), chunk, |records|, chunkSize);
          ReplayBounds(events, n - 1, chunkSize);
          CutAtEnd(Replay(events, n - 1), |Replay(events, n - 1)|, prefix, chunkSize);
      }
    }
  }

  // ---- Bytes ----

  ghost predicate Stored(records: seq<SliceRecord>, objects: map<nat, seq<byte>>) {
    forall k :: 0 <= k < |records| && records[k].id != 0 ==>
                  records[k].id in objects && records[k].off + records[k].len <= |objects[records[k].id]|
  }

  /** The byte a source stands for. */
  function SourceByte(source: Source, objects: map<nat, seq<byte>>): byte {
    match source
    case Zero => 0
    case Object(id, at) => if id in objects && at < |objects[id]| then objects[id][at] else 0
  }

  function RecordByte(r: SliceRecord, objects: map<nat, seq<byte>>, k: nat): byte
    requires k < r.len
  {
    SourceByte(SourceIn(r, r.pos + k), objects)
  }

  /** A record as the bytes it lays over the chunk. */
  function LayerOf(r: SliceRecord, objects: map<nat, seq<byte>>): (piece: DirtyRanges.Piece)
    ensures |piece.bytes| == r.len && piece.start == r.pos
    ensures forall k :: 0 <= k < r.len ==> piece.bytes[k] == RecordByte(r, objects, k)
  {
    DirtyRanges.Piece(r.pos, seq(r.len, k requires 0 <= k < r.len => RecordByte(r, objects, k)))
  }

  function LayersOf(records: seq<SliceRecord>, n: nat, objects: map<nat, seq<byte>>): seq<DirtyRanges.Piece>
    requires n <= |records|
  {
    if n == 0 then [] else LayersOf(records, n - 1, objects) + [LayerOf(records[n - 1], objects)]
  }

  /** Last writer wins over records is the newest layer over bytes. */
  lemma VisiblePush(records: seq<SliceRecord>, r: SliceRecord, p: nat)
    ensures Visible(records + [r], p) == if Covers(r, p) then SourceIn(r, p) else Visible(records, p)
  {
    assert (records + [r])[..|records|] == records;
  }

  lemma {:induction false} VisibleIsLatest(records: seq<SliceRecord>, n: nat, objects: map<nat, seq<byte>>, p: nat)
    requires n <= |records|
    ensures SourceByte(Visible(records[..n], p), objects) ==
            if Layers.Latest(LayersOf(records, n, objects), p).Some?
            then Layers.Latest(LayersOf(records, n, objects), p).value else 0
  {
    if n > 0 {
      VisibleIsLatest(records, n - 1, objects, p);
      assert records[..n] == records[..n - 1] + [records[n - 1]];
      VisiblePush(records[..n - 1], records[n - 1], p);
      var layer := LayerOf(records[n - 1], objects);
      Layers.LatestPush(LayersOf(records, n - 1, objects), layer, p);
      if Covers(records[n - 1], p) {
        assert layer.bytes[p - records[n - 1].pos] == RecordByte(records[n - 1], objects, p - records[n - 1].pos);
      }
    }
  }

  /** Cutting the records cuts the bytes, and nothing else. */
  lemma {:induction false} CutAllVisible(records: seq<SliceRecord>, n: nat, size: nat, p: nat)
    requires n <= |records|
    ensures Visible(CutAll(records, n, size), p) == if p < size then Visible(records[..n], p) else Zero
  {
    hide Visible;
    if n == 0 {
      NothingVisible(p);
      assert records[..0] == [];
    } else {
      var front, last := records[..n - 1], records[n - 1];
      CutAllVisible(records, n - 1, size, p);
      assert records[..n] == front + [last];
      VisiblePush(front, last, p);
      if last.pos < size {
        VisiblePush(CutAll(records, n - 1, size), last.(len := Min(last.len, size - last.pos)), p);
      } else {
        assert CutAll(records, n, size) == CutAll(records, n - 1, size);
      }
    }
  }

  lemma NothingVisible(p: nat)
    ensures Visible([], p) == Zero
  {
  }
}
