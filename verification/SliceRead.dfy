/**
 `SliceChunk::Read`: the published spans are fetched only where no accepted write overrides
 them, and the dirty bytes are copied on top.
 */
module SliceReads {
  import opened Common
  import opened DirtyRanges
  import opened SR = SliceRecords
  import Layers
  import Clamps = BoundaryClamps

  /** The dirty bytes of the requested range. */
  method Overlays(dirty: seq<Piece>, lo: nat, hi: nat) returns (overlays: seq<Piece>)
    requires Canonical(dirty) && lo <= hi
    ensures Canonical(overlays)
    ensures forall p: nat :: ByteAt(overlays, p) == if lo <= p < hi then ByteAt(dirty, p) else None
  {
    hide ByteAt, Canonical, Taken;
    var it: nat := DirtyRanges.LowerBound(dirty, lo);
    if it != 0 {
      it := it - 1;
    }
    overlays := [];
    StartOverlays(dirty, it, lo, hi);
    while it < |dirty| && dirty[it].start < hi
      invariant it <= |dirty|
      invariant Taken(dirty, it, lo, hi, overlays)
    {
      var start, end := Max(lo, dirty[it].start), Min(hi, DirtyRanges.End(dirty[it]));
      TakeOne(dirty, it, lo, hi, overlays);
      if start < end {
        overlays := overlays + [Piece(start, dirty[it].bytes[start - dirty[it].start..end - dirty[it].start])];
      }
      it := it + 1;
    }
    TakenAll(dirty, it, lo, hi, overlays);
  }

  ghost predicate Taken(dirty: seq<Piece>, n: nat, lo: nat, hi: nat, overlays: seq<Piece>)
    requires n <= |dirty|
  {
    && Canonical(overlays)
    && (forall k, j :: 0 <= k < |overlays| && n <= j < |dirty| ==> DirtyRanges.End(overlays[k]) < dirty[j].start)
    && (forall p: nat :: ByteAt(overlays, p) == if lo <= p < hi then ByteAt(dirty[..n], p) else None)
  }

  lemma StartOverlays(dirty: seq<Piece>, n: nat, lo: nat, hi: nat)
    requires Canonical(dirty) && n <= |dirty|
    requires (n == 0 || (n < |dirty| && dirty[n].start < lo) || (n == |dirty| - 1 && dirty[n].start < lo))
    ensures Taken(dirty, n, lo, hi, [])
  {
    var front := dirty[..n];
    forall p: nat ensures ByteAt([], p) == if lo <= p < hi then ByteAt(front, p) else None {
      if lo <= p < hi {
        assert forall k :: 0 <= k < n ==> DirtyRanges.End(dirty[k]) < dirty[n].start;
        ByteAtOutside(front, p);
      }
    }
  }

  /** The part of a piece inside the range; empty when they do not meet. */
  function Portion(piece: Piece, lo: nat, hi: nat): Piece {
    var start, end := Max(lo, piece.start), Min(hi, DirtyRanges.End(piece));
    Piece(start, if start < end then piece.bytes[start - piece.start..end - piece.start] else [])
  }

  lemma PortionAt(piece: Piece, lo: nat, hi: nat, p: nat)
    ensures var part := Portion(piece, lo, hi);
            ByteAt([part], p) == (if lo <= p < hi then ByteAt([piece], p) else None)
  {
    hide ByteAt;
    ByteAtPiece(piece, p);
    ByteAtPiece(Portion(piece, lo, hi), p);
  }

  lemma PortionInside(piece: Piece, lo: nat, hi: nat)
    requires Portion(piece, lo, hi).bytes != []
    ensures piece.start <= Portion(piece, lo, hi).start
    ensures DirtyRanges.End(Portion(piece, lo, hi)) <= DirtyRanges.End(piece)
  {
  }

  lemma TakeOne(dirty: seq<Piece>, n: nat, lo: nat, hi: nat, overlays: seq<Piece>)
    requires Canonical(dirty) && n < |dirty| && Taken(dirty, n, lo, hi, overlays)
    ensures var piece := Portion(dirty[n], lo, hi);
            Taken(dirty, n + 1, lo, hi, if piece.bytes != [] then overlays + [piece] else overlays)
  {
    hide ByteAt, Portion;
    var piece := Portion(dirty[n], lo, hi);
    var next := if piece.bytes != [] then overlays + [piece] else overlays;
    if piece.bytes != [] {
      PortionInside(dirty[n], lo, hi);
    }
    assert Canonical(next);
    forall k, j | 0 <= k < |next| && n + 1 <= j < |dirty| ensures DirtyRanges.End(next[k]) < dirty[j].start {
      assert DirtyRanges.End(dirty[n]) < dirty[j].start;
    }
    forall p: nat ensures ByteAt(next, p) == if lo <= p < hi then ByteAt(dirty[..n + 1], p) else None {
      TakeOneAt(dirty, n, lo, hi, overlays, p);
    }
  }

  lemma TakeOneAt(dirty: seq<Piece>, n: nat, lo: nat, hi: nat, overlays: seq<Piece>, p: nat)
    requires n < |dirty| && ByteAt(overlays, p) == (if lo <= p < hi then ByteAt(dirty[..n], p) else None)
    ensures var piece := Portion(dirty[n], lo, hi);
            ByteAt(if piece.bytes != [] then overlays + [piece] else overlays, p) ==
            if lo <= p < hi then ByteAt(dirty[..n + 1], p) else None
  {
    hide ByteAt, Portion;
    var piece := Portion(dirty[n], lo, hi);
    assert dirty[..n + 1] == dirty[..n] + [dirty[n]];
    ByteAtConcat(dirty[..n], [dirty[n]], p);
    ByteAtConcat(overlays, [piece], p);
    PortionAt(dirty[n], lo, hi, p);
    ByteAtPiece(piece, p);
  }

  lemma TakenAll(dirty: seq<Piece>, n: nat, lo: nat, hi: nat, overlays: seq<Piece>)
    requires Canonical(dirty) && n <= |dirty| && Taken(dirty, n, lo, hi, overlays)
    requires (n < |dirty| ==> hi <= dirty[n].start)
    ensures Canonical(overlays)
    ensures forall p: nat :: ByteAt(overlays, p) == if lo <= p < hi then ByteAt(dirty, p) else None
  {
    hide ByteAt;
    var front, rest := dirty[..n], dirty[n..];
    forall p: nat ensures ByteAt(overlays, p) == if lo <= p < hi then ByteAt(dirty, p) else None {
      if lo <= p < hi {
        assert dirty == front + rest;
        ByteAtConcat(front, rest, p);
        assert forall k :: 0 <= k < |rest| ==> rest[k] == dirty[n + k] && hi <= rest[k].start;
        ByteAtOutside(rest, p);
      }
    }
  }

  // ---- One span ----

  type Objects = map<nat, seq<byte>>

  predicate StoredSpan(span: ResolvedSlice, objects: Objects) {
    span.id in objects && span.off + span.len <= |objects[span.id]|
  }

  /** The byte needs no object, or its object is stored and long enough. */
  predicate Available(source: Source, objects: Objects) {
    source.Object? ==> source.id in objects && source.at < |objects[source.id]|
  }

  /** A byte once the uncovered part of the span before `cursor` has been copied. */
  function Wanted(before: seq<byte>, offset: nat, span: ResolvedSlice, cursor: nat, overlays: seq<Piece>,
                  objects: Objects, p: nat): byte
    requires offset <= p < offset + |before|
  {
    if span.pos <= p < cursor
       && ByteAt(overlays, p).None? then Clamps.SourceByte(Object(span.id, span.off + (p - span.pos)), objects)
    else before[p - offset]
  }

  ghost predicate Copied(before: seq<byte>, after: seq<byte>, offset: nat, span: ResolvedSlice, cursor: nat,
                         overlays: seq<Piece>, objects: Objects) {
    && |after| == |before|
    && (forall p: nat :: offset <= p < offset + |after| ==>
                           after[p - offset] == Wanted(before, offset, span, cursor, overlays, objects, p))
    && (forall p: nat :: span.pos <= p < cursor && ByteAt(overlays, p).None? ==> Fetched(span, objects, p))
  }

  predicate Fetched(span: ResolvedSlice, objects: Objects, p: nat)
    requires span.pos <= p
  {
    Available(Object(span.id, span.off + (p - span.pos)), objects)
  }

  /** `fetch`: the object range `[from, to)` of the span, or an error for a missing or short object. */
  method Fetch(result: seq<byte>, offset: nat, span: ResolvedSlice, from: nat, to: nat, ghost before: seq<byte>,
               overlays: seq<Piece>, objects: Objects)
    returns (r: Result<seq<byte>>)
    requires span.pos <= from <= to <= SR.End(span) && offset <= span.pos && SR.End(span) <= offset + |result|
    requires Copied(before, result, offset, span, from, overlays, objects)
    requires forall p: nat :: from <= p < to ==> ByteAt(overlays, p).None?
    ensures r.Success? ==> Copied(before, r.value, offset, span, to, overlays, objects)
    ensures StoredSpan(span, objects) ==> r.Success?
  {
    hide ByteAt;
    if from == to {
      return Success(result);
    }
    if span.id !in objects || |objects[span.id]| < span.off + (to - span.pos) {
      return Failure(IOError);
    }
    var at := span.off + (from - span.pos);
    var next := Overwrite(result, from - offset, objects[span.id][at..at + (to - from)]);
    forall p: nat | offset <= p < offset + |next|
      ensures next[p - offset] == Wanted(before, offset, span, to, overlays, objects, p)
    {
      if from <= p < to {
        assert ByteAt(overlays, p).None? && next[p - offset] == objects[span.id][at..at + (to - from)][p - from];
      } else {
        assert next[p - offset] == result[p - offset] == Wanted(before, offset, span, from, overlays, objects, p);
      }
    }
    return Success(next);
  }

  /** The pieces between the overlays, left to right. */
  method FetchSpan(result: seq<byte>, offset: nat, span: ResolvedSlice, overlays: seq<Piece>, skip: nat,
                   objects: Objects)
    returns (r: Result<seq<byte>>)
    requires Canonical(overlays) && skip <= |overlays| && offset <= span.pos && SR.End(span) <= offset + |result|
    requires forall k :: 0 <= k < skip ==> DirtyRanges.End(overlays[k]) <= span.pos
    ensures r.Success? ==> Copied(result, r.value, offset, span, SR.End(span), overlays, objects)
    ensures StoredSpan(span, objects) ==> r.Success?
  {
    hide ByteAt, Canonical, Copied;
    var end := SR.End(span);
    var cursor: nat := span.pos;
    var next := result;
    CopiedNothingYet(result, offset, span, overlays, objects);
    var i := skip;
    while i < |overlays| && cursor < end
      invariant skip <= i <= |overlays| && span.pos <= cursor <= end && |next| == |result|
      invariant forall k :: 0 <= k < i ==> Min(DirtyRanges.End(overlays[k]), end) <= cursor
      invariant Copied(result, next, offset, span, cursor, overlays, objects)
    {
      var dirtyStart, dirtyEnd := overlays[i].start, DirtyRanges.End(overlays[i]);
      if dirtyStart >= end {
        break;
      }
      if dirtyEnd <= cursor {
        i := i + 1;
        continue;
      }
      if dirtyStart > cursor {
        GapUncovered(overlays, i, cursor, dirtyStart);
        var fetched := Fetch(next, offset, span, cursor, dirtyStart, result, overlays, objects);
        if fetched.Failure? {
          return fetched;
        }
        next := fetched.value;
        CopiedLength(result, next, offset, span, dirtyStart, overlays, objects);
        cursor := dirtyStart;
      }
      CoveredSkipped(result, next, offset, span, cursor, Min(end, dirtyEnd), overlays, i, objects);
      cursor := Min(end, dirtyEnd);
      i := i + 1;
    }
    if cursor < end {
      GapUncovered(overlays, i, cursor, end);
    }
    r := Fetch(next, offset, span, cursor, end, result, overlays, objects);
  }

  lemma CopiedNothingYet(result: seq<byte>, offset: nat, span: ResolvedSlice, overlays: seq<Piece>, objects: Objects)
    ensures Copied(result, result, offset, span, span.pos, overlays, objects)
  {
  }

  lemma CopiedLength(before: seq<byte>, after: seq<byte>, offset: nat, span: ResolvedSlice, cursor: nat,
                     overlays: seq<Piece>, objects: Objects)
    requires Copied(before, after, offset, span, cursor, overlays, objects)
    ensures |after| == |before|
  {
  }

  lemma GapUncovered(overlays: seq<Piece>, i: nat, from: nat, to: nat)
    requires Canonical(overlays) && i <= |overlays|
    requires forall k :: 0 <= k < i ==> DirtyRanges.End(overlays[k]) <= from
    requires i < |overlays| ==> to <= overlays[i].start
    ensures forall p: nat :: from <= p < to ==> ByteAt(overlays, p).None?
  {
    forall p: nat | from <= p < to ensures ByteAt(overlays, p).None? {
      ByteAtOutside(overlays, p);
    }
  }

  lemma {:induction false} ByteAtInside(ranges: seq<Piece>, k: nat, p: nat)
    requires Canonical(ranges) && k < |ranges| && ranges[k].start <= p < DirtyRanges.End(ranges[k])
    ensures ByteAt(ranges, p).Some?
  {
    if k > 0 {
      assert ranges[1..][k - 1] == ranges[k];
      ByteAtInside(ranges[1..], k - 1, p);
    }
  }

  lemma CoveredSkipped(before: seq<byte>, after: seq<byte>, offset: nat, span: ResolvedSlice, from: nat, to: nat,
                       overlays: seq<Piece>, i: nat, objects: Objects)
    requires Canonical(overlays) && i < |overlays| && Copied(before, after, offset, span, from, overlays, objects)
    requires overlays[i].start <= from <= to <= DirtyRanges.End(overlays[i])
    ensures Copied(before, after, offset, span, to, overlays, objects)
  {
    hide ByteAt, Canonical;
    forall p: nat | offset <= p < offset + |after|
      ensures after[p - offset] == Wanted(before, offset, span, to, overlays, objects, p)
    {
      if from <= p < to {
        ByteAtInside(overlays, i, p);
      }
      assert after[p - offset] == Wanted(before, offset, span, from, overlays, objects, p);
    }
    forall p: nat | span.pos <= p < to && ByteAt(overlays, p).None? ensures Fetched(span, objects, p) {
      if from <= p {
        ByteAtInside(overlays, i, p);
      }
    }
  }

  // ---- The whole read ----

  /** `FileChunkSnapshot`: the end of the file as seen from this chunk, and the attached mapping. */
  datatype Snapshot = Snapshot(eof: nat, chunk: Option<nat>)

  predicate ClampsApply(boundaries: seq<Clamps.Clamp>, chunk: Option<nat>) {
    boundaries != [] && boundaries[|boundaries| - 1].chunk == chunk
  }

  /** The history a reader resolves: clipped by the retained boundaries when they belong to it. */
  function History(records: seq<SliceRecord>, boundaries: seq<Clamps.Clamp>, chunk: Option<nat>,
                   chunkSize: nat): seq<SliceRecord> {
    if ClampsApply(boundaries, chunk) then Clamps.Clamped(records, boundaries, |records|, chunkSize) else records
  }

  ghost predicate Readable(records: seq<SliceRecord>, boundaries: seq<Clamps.Clamp>, chunk: Option<nat>,
                           chunkSize: nat) {
    && 0 < chunkSize <= UINT32_MAX && records != []
    && (forall k :: 0 <= k < |records| ==> ValidRecord(records[k], chunkSize))
    && (ClampsApply(boundaries, chunk) ==> boundaries[|boundaries| - 1].recordCount <= |records|)
  }

  /** What the published side shows at a position. */
  function PublishedByte(history: seq<SliceRecord>, eof: nat, objects: Objects, p: nat): byte {
    if p < eof then Clamps.SourceByte(Visible(history, p), objects) else 0
  }

  /** Published bytes from `offset` up to `cursor`, except where an overlay will go; zeros beyond. */
  ghost predicate FilledTo(result: seq<byte>, offset: nat, cursor: nat, history: seq<SliceRecord>, overlays: seq<Piece>,
                           objects: Objects) {
    forall p: nat :: offset <= p < offset + |result| && ByteAt(overlays, p).None? ==>
                       && (p < cursor ==> Available(Visible(history, p), objects))
                       && result[p - offset] ==
                          if p < cursor then Clamps.SourceByte(Visible(history, p), objects) else 0
  }

  lemma SpanFilled(before: seq<byte>, after: seq<byte>, offset: nat, span: ResolvedSlice, history: seq<SliceRecord>,
                   overlays: seq<Piece>, objects: Objects)
    requires FilledTo(before, offset, span.pos, history, overlays, objects)
    requires forall p: nat :: Within(span, p) ==> SpanSource(span, p) == Visible(history, p)
    requires if span.id == 0 then after ==
                                  before else Copied(before, after, offset, span, SR.End(span), overlays, objects)
    ensures FilledTo(after, offset, SR.End(span), history, overlays, objects)
  {
    hide ByteAt, Visible;
    forall p: nat | offset <= p < offset + |after| && ByteAt(overlays, p).None?
      ensures p < SR.End(span) ==> Available(Visible(history, p), objects)
      ensures after[p - offset] == if p < SR.End(span) then Clamps.SourceByte(Visible(history, p), objects) else 0
    {
      if span.id != 0 {
        assert after[p - offset] == Wanted(before, offset, span, SR.End(span), overlays, objects, p);
      }
      if Within(span, p) {
        assert SpanSource(span, p) == Visible(history, p);
        assert span.id != 0 ==> Fetched(span, objects, p);
      }
    }
  }

  /** Both collections are sorted, so one cursor passes the overlays already behind. */
  method FetchSpans(offset: nat, len: nat, published: nat, spans: seq<ResolvedSlice>, overlays: seq<Piece>,
                    ghost history: seq<SliceRecord>, objects: Objects)
    returns (r: Result<seq<byte>>)
    requires Canonical(overlays) && published <= len && Tiles(spans, offset, offset + published)
    requires Presents(spans, history)
    ensures r.Success? ==> |r.value| == len && FilledTo(r.value, offset, offset + published, history, overlays, objects)
    ensures (forall k :: 0 <= k < |spans| && spans[k].id != 0 ==> StoredSpan(spans[k], objects)) ==> r.Success?
  {
    hide ByteAt, Canonical, Visible, Copied, FilledTo;
    var result: seq<byte> := seq(len, _ => 0);
    ZerosFilled(result, offset, history, overlays, objects);
    var skip: nat := 0;
    TilesInside(spans, offset, offset + published, 0);
    for i := 0 to |spans|
      invariant |result| == len && skip <= |overlays|
      invariant i < |spans| ==> forall k :: 0 <= k < skip ==> DirtyRanges.End(overlays[k]) <= spans[i].pos
      invariant FilledTo(result, offset, if i < |spans| then spans[i].pos else offset + published, history, overlays,
                         objects)
    {
      var span := spans[i];
      TilesInside(spans, offset, offset + published, i);
      SpanPresents(spans, history, i);
      ghost var before := result;
      if span.id != 0 {
        while skip < |overlays| && DirtyRanges.End(overlays[skip]) <= span.pos
          invariant skip <= |overlays|
          invariant forall k :: 0 <= k < skip ==> DirtyRanges.End(overlays[k]) <= span.pos
        {
          skip := skip + 1;
        }
        var fetched := FetchSpan(result, offset, span, overlays, skip, objects);
        if fetched.Failure? {
          return fetched;
        }
        result := fetched.value;
        CopiedLength(before, result, offset, span, SR.End(span), overlays, objects);
      }
      SpanFilled(before, result, offset, span, history, overlays, objects);
    }
    r := Success(result);
  }

  lemma SpanPresents(spans: seq<ResolvedSlice>, history: seq<SliceRecord>, i: nat)
    requires Presents(spans, history) && i < |spans|
    ensures forall p: nat :: Within(spans[i], p) ==> SpanSource(spans[i], p) == Visible(history, p)
  {
  }

  lemma ZerosFilled(zeros: seq<byte>, offset: nat, history: seq<SliceRecord>, overlays: seq<Piece>, objects: Objects)
    requires forall k :: 0 <= k < |zeros| ==> zeros[k] == 0
    ensures FilledTo(zeros, offset, offset, history, overlays, objects)
  {
  }

  /** Where a span of a tiling lies. */
  lemma {:induction false} TilesInside(spans: seq<ResolvedSlice>, lo: nat, hi: nat, i: nat)
    requires Tiles(spans, lo, hi) && i <= |spans|
    ensures i < |spans| ==> lo <= spans[i].pos && SR.End(spans[i]) <= hi
    ensures i + 1 < |spans| ==> SR.End(spans[i]) == spans[i + 1].pos
    ensures i == |spans| - 1 ==> SR.End(spans[i]) == hi
    ensures spans == [] ==> lo == hi
    ensures spans != [] ==> spans[0].pos == lo
    decreases |spans|
  {
    if |spans| > 0 {
      TilesBounds(spans, lo, hi);
      TailTiles(spans, lo, hi);
      if i > 0 {
        TilesInside(spans[1..], SR.End(spans[0]), hi, i - 1);
      }
    }
  }

  /** The accepted bytes go on top. */
  method Lay(result: seq<byte>, offset: nat, overlays: seq<Piece>) returns (laid: seq<byte>)
    requires Canonical(overlays)
    requires forall k :: 0 <= k < |overlays| ==>
                           offset <= overlays[k].start && DirtyRanges.End(overlays[k]) <= offset + |result|
    ensures |laid| == |result|
    ensures forall p: nat :: offset <= p < offset + |result| ==> laid[p - offset] == Laid(result, offset, overlays, p)
  {
    hide ByteAt, Canonical;
    laid := result;
    NothingLaid(result, offset, overlays[..0]);
    for i := 0 to |overlays|
      invariant |laid| == |result|
      invariant forall p: nat :: offset <= p < offset + |result| ==>
                                   laid[p - offset] == Laid(result, offset, overlays[..i], p)
    {
      ghost var before, more := laid, overlays[..i + 1];
      laid := Overwrite(laid, overlays[i].start - offset, overlays[i].bytes);
      forall p: nat | offset <= p < offset + |result| ensures laid[p - offset] == Laid(result, offset, more, p) {
        LayOne(result, offset, overlays, i, p);
        assert before[p - offset] == Laid(result, offset, overlays[..i], p);
      }
    }
    assert overlays[..|overlays|] == overlays;
  }

  function Laid(result: seq<byte>, offset: nat, overlays: seq<Piece>, p: nat): byte
    requires offset <= p < offset + |result|
  {
    if ByteAt(overlays, p).Some? then ByteAt(overlays, p).value else result[p - offset]
  }

  lemma NothingLaid(result: seq<byte>, offset: nat, none: seq<Piece>)
    requires none == []
    ensures forall p: nat :: offset <= p < offset + |result| ==> Laid(result, offset, none, p) == result[p - offset]
  {
  }

  lemma LayOne(result: seq<byte>, offset: nat, overlays: seq<Piece>, i: nat, p: nat)
    requires Canonical(overlays) && i < |overlays| && offset <= p < offset + |result|
    ensures Laid(result, offset, overlays[..i + 1], p) ==
            if overlays[i].start <= p < DirtyRanges.End(overlays[i]) then overlays[i].bytes[p - overlays[i].start]
            else Laid(result, offset, overlays[..i], p)
  {
    hide ByteAt;
    assert overlays[..i + 1] == overlays[..i] + [overlays[i]];
    ByteAtConcat(overlays[..i], [overlays[i]], p);
    ByteAtPiece(overlays[i], p);
    if overlays[i].start <= p < DirtyRanges.End(overlays[i]) {
      ByteAtOutside(overlays[..i], p);
    }
  }

  /** Overlays cut to a range lie inside it. */
  lemma OverlaysInside(overlays: seq<Piece>, lo: nat, hi: nat)
    requires Canonical(overlays) && forall p: nat :: ByteAt(overlays, p).Some? ==> lo <= p < hi
    ensures forall k :: 0 <= k < |overlays| ==> lo <= overlays[k].start && DirtyRanges.End(overlays[k]) <= hi
  {
    hide ByteAt;
    forall k: nat | k < |overlays| ensures lo <= overlays[k].start && DirtyRanges.End(overlays[k]) <= hi {
      assert overlays[k].bytes != [];
      ByteAtInside(overlays, k, overlays[k].start);
      ByteAtInside(overlays, k, DirtyRanges.End(overlays[k]) - 1);
    }
  }

  lemma {:induction false} VisibleRecord(history: seq<SliceRecord>, p: nat) returns (k: nat)
    requires Visible(history, p).Object?
    ensures k < |history| && Covers(history[k], p) && Visible(history, p) == SourceIn(history[k], p)
    decreases |history|
  {
    k := |history| - 1;
    if !Covers(history[k], p) {
      k := VisibleRecord(history[..k], p);
    }
  }

  /** A history whose objects are stored resolves to spans that can be fetched. */
  lemma SpanStored(spans: seq<ResolvedSlice>, history: seq<SliceRecord>, objects: Objects, i: nat)
    requires Presents(spans, history) && Clamps.Stored(history, objects) && i < |spans| && spans[i].id != 0
    requires 0 < spans[i].len
    ensures StoredSpan(spans[i], objects)
  {
    hide Visible;
    var p := SR.End(spans[i]) - 1;
    assert Within(spans[i], p);
    assert SpanSource(spans[i], p) == Visible(history, p);
    var k := VisibleRecord(history, p);
  }

  /** The bytes the committed side contributes, by the outcome of the snapshot. */
  function PublishedAt(snapshot: Snapshot, records: seq<SliceRecord>, boundaries: seq<Clamps.Clamp>, chunkSize: nat,
                       objects: Objects, p: nat): byte {
    if snapshot.chunk.None? then 0
    else PublishedByte(History(records, boundaries, snapshot.chunk, chunkSize), snapshot.eof, objects, p)
  }

  method ReadPublished(chunkSize: nat, boundaries: seq<Clamps.Clamp>, offset: nat, len: nat, snapshot: Snapshot,
                       records: seq<SliceRecord>, overlays: seq<Piece>, objects: Objects)
    returns (r: Result<seq<byte>>)
    requires Canonical(overlays) && Clamps.Increasing(boundaries) && offset + len <= chunkSize && 0 < len
    requires chunkSize <= UINT32_MAX && records != []
    ensures r.Success? ==> |r.value| == len
    ensures r.Success? ==>
              var history := History(records, boundaries, snapshot.chunk, chunkSize);
              forall p: nat :: offset <= p < offset + len && ByteAt(overlays, p).None? ==>
                                 && (p < snapshot.eof ==> Available(Visible(history, p), objects))
                                 && r.value[p - offset] == PublishedByte(history, snapshot.eof, objects, p)
    ensures (&& Readable(records, boundaries, snapshot.chunk, chunkSize)
             && Clamps.Stored(History(records, boundaries, snapshot.chunk, chunkSize), objects)) ==> r.Success?
    ensures !Readable(records, boundaries, snapshot.chunk, chunkSize) ==> r == Failure(Malformed)
  {
    hide ByteAt, Canonical, Visible, Clamps.Clamped, Clamps.SourceByte;
    var published := if offset < snapshot.eof then Min(len, snapshot.eof - offset) else 0;
    var history := records;
    if ClampsApply(boundaries, snapshot.chunk) {
      var sanitized := Clamps.Sanitize(records, boundaries, chunkSize);
      if sanitized.Failure? {
        return Failure(sanitized.error);
      }
      history := sanitized.value;
      ClampedValid(records, boundaries, |records|, chunkSize);
    }
    var resolved := ResolveRange(history, chunkSize, offset, published);
    if resolved.Failure? {
      return Failure(resolved.error);
    }
    r := FetchSpans(offset, len, published, resolved.value, overlays, history, objects);
    if Clamps.Stored(history, objects) {
      forall k: nat | k < |resolved.value| && resolved.value[k].id != 0 ensures StoredSpan(resolved.value[k], objects) {
        SpanStored(resolved.value, history, objects, k);
      }
    }
    if r.Success? {
      forall p: nat | offset <= p < offset + len && ByteAt(overlays, p).None?
        ensures r.value[p - offset] == PublishedByte(history, snapshot.eof, objects, p)
      {
      }
    }
  }

  lemma {:induction false} ClampedValid(records: seq<SliceRecord>, boundaries: seq<Clamps.Clamp>, n: nat,
                                        chunkSize: u32)
    requires n <= |records| && forall k :: 0 <= k < |records| ==> ValidRecord(records[k], chunkSize)
    ensures forall k :: 0 <= k < |Clamps.Clamped(records, boundaries, n, chunkSize)| ==>
                          ValidRecord(Clamps.Clamped(records, boundaries, n, chunkSize)[k], chunkSize)
  {
    if n > 0 {
      ClampedValid(records, boundaries, n - 1, chunkSize);
    }
  }

  /** `SliceChunk::Read`; the metadata and list reads are given by their outcomes. */
  method Read(chunkSize: nat, dirty: seq<Piece>, boundaries: seq<Clamps.Clamp>, boundaryError: Option<Status>,
              offset: nat, len: nat,
              snapshot: Result<Snapshot>, listing: Result<seq<SliceRecord>>, objects: Objects)
    returns (r: Result<seq<byte>>)
    requires Canonical(dirty) && Clamps.Increasing(boundaries)
    ensures chunkSize < offset + len ==> r == Failure(InvalidArgument)
    ensures offset + len <= chunkSize && len == 0 ==> r == Success([])
    ensures offset + len <= chunkSize && 0 < len && boundaryError.Some? ==> r == Failure(boundaryError.value)
    ensures offset + len <= chunkSize && 0 < len && boundaryError.None? && snapshot.Failure? ==>
              r == Failure(snapshot.error)
    ensures offset + len <= chunkSize <= UINT32_MAX && 0 < len && boundaryError.None? && snapshot.Success? &&
            snapshot.value.chunk.Some? && (listing.Failure? || listing.value == []) ==>
              r == Failure(if listing.Success? || listing.error == NotFound then Malformed else listing.error)
    ensures r.Success? ==> |r.value| == len
    ensures r.Success? && 0 < len ==>
              && snapshot.Success? && (snapshot.value.chunk.Some? ==> listing.Success?)
              && forall p: nat :: offset <= p < offset + len ==>
                                    r.value[p - offset] == if ByteAt(dirty, p).Some? then ByteAt(dirty, p).value
                                    else PublishedAt(snapshot.value, if listing.Success? then listing.value else [],
                                                     boundaries, chunkSize, objects, p)
    ensures r.Success? && 0 < len && snapshot.value.chunk.Some? ==>
              forall p: nat :: offset <= p < offset + len && p < snapshot.value.eof && ByteAt(dirty, p).None? ==>
                                 Available(Visible(History(listing.value, boundaries, snapshot.value.chunk, chunkSize),
                                                   p), objects)
    ensures (&& offset + len <= chunkSize && boundaryError.None? && snapshot.Success? && listing.Success?
             && (snapshot.value.chunk.Some? ==>
                   && Readable(listing.value, boundaries, snapshot.value.chunk, chunkSize)
                   && Clamps.Stored(History(listing.value, boundaries, snapshot.value.chunk, chunkSize), objects))) ==>
              r.Success?
  {
    hide ByteAt, Canonical, PublishedByte, History;
    if offset > chunkSize || len > chunkSize - offset {
      return Failure(InvalidArgument);
    }
    if len == 0 {
      return Success([]);
    }
    var overlays := Overlays(dirty, offset, offset + len);
    if boundaryError.Some? {
      return Failure(boundaryError.value);
    }
    if snapshot.Failure? {
      return Failure(snapshot.error);
    }
    var result: seq<byte> := seq(len, _ => 0);
    if snapshot.value.chunk.Some? {
      if chunkSize > UINT32_MAX {
        return Failure(InvalidArgument);
      }
      if listing == Failure(NotFound) || (listing.Success? && listing.value == []) {
        return Failure(Malformed);
      }
      if listing.Failure? {
        return Failure(listing.error);
      }
      var fetched := ReadPublished(chunkSize, boundaries, offset, len, snapshot.value, listing.value, overlays,
                                   objects);
      if fetched.Failure? {
        return fetched;
      }
      result := fetched.value;
    }
    OverlaysInside(overlays, offset, offset + len);
    var laid := Lay(result, offset, overlays);
    forall p: nat | offset <= p < offset + len
      ensures laid[p - offset] == if ByteAt(dirty, p).Some? then ByteAt(dirty, p).value
                                  else PublishedAt(snapshot.value, if listing.Success? then listing.value else [],
                                                   boundaries, chunkSize, objects, p)
    {
      assert laid[p - offset] == Laid(result, offset, overlays, p);
      assert ByteAt(overlays, p) == ByteAt(dirty, p);
    }
    return Success(laid);
  }
}
