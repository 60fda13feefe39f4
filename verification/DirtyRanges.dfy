/**
 The ordered map of accepted, unpublished bytes (`std::map<size_t, std::string>`):
 `AcceptWrite` and `ClipRanges`.  A map is a sequence of pieces in address order, kept
 canonical: no piece is empty and no two pieces touch.
 */
module DirtyRanges {
  import opened Common

  datatype Piece = Piece(start: nat, bytes: seq<byte>)

  function End(piece: Piece): nat { piece.start + |piece.bytes| }

  ghost predicate Canonical(ranges: seq<Piece>) {
    && (forall k :: 0 <= k < |ranges| ==> ranges[k].bytes != [])
    && (forall j, k :: 0 <= j < k < |ranges| ==> End(ranges[j]) < ranges[k].start)
  }

  /** The reference meaning: a partial map from positions to bytes. */
  function ByteAt(ranges: seq<Piece>, p: nat): Option<byte> {
    if ranges == [] then None
    else if ranges[0].start <= p < End(ranges[0]) then Some(ranges[0].bytes[p - ranges[0].start])
    else ByteAt(ranges[1..], p)
  }

  function Total(ranges: seq<Piece>): nat {
    if ranges == [] then 0 else |ranges[0].bytes| + Total(ranges[1..])
  }

  ghost predicate Covered(ranges: seq<Piece>, p: nat) { ByteAt(ranges, p).Some? }

  /** How many positions of `[lo, hi)` are covered. */
  ghost function CoveredCount(ranges: seq<Piece>, lo: nat, hi: nat): nat {
    if hi <= lo then 0 else (if Covered(ranges, hi - 1) then 1 else 0) + CoveredCount(ranges, lo, hi - 1)
  }

  /** `std::map::lower_bound`. */
  function LowerBound(ranges: seq<Piece>, x: nat): (i: nat)
    requires Canonical(ranges)
    ensures i <= |ranges|
    ensures forall k :: 0 <= k < i ==> ranges[k].start < x
    ensures forall k :: i <= k < |ranges| ==> x <= ranges[k].start
  {
    if ranges == [] || x <= ranges[0].start then 0 else 1 + LowerBound(ranges[1..], x)
  }

  /** Bytes written over part of a string that may grow at its end. */
  function Overwrite(base: seq<byte>, at: nat, bytes: seq<byte>): (r: seq<byte>)
    requires at <= |base|
    ensures |r| == Max(|base|, at + |bytes|)
    ensures forall k :: 0 <= k < |r| ==> r[k] == if at <= k < at + |bytes| then bytes[k - at] else base[k]
  {
    base[..at] + bytes + (if at + |bytes| < |base| then base[at + |bytes|..] else [])
  }

  /** The overlay every branch must produce. */
  ghost predicate Overlaid(before: seq<Piece>, after: seq<Piece>, offset: nat, bytes: seq<byte>) {
    forall p: nat :: ByteAt(after, p) ==
                     if offset <= p < offset + |bytes| then Some(bytes[p - offset]) else ByteAt(before, p)
  }

  // ---- Facts about pieces ----

  lemma {:induction false} ByteAtConcat(a: seq<Piece>, b: seq<Piece>, p: nat)
    ensures ByteAt(a + b, p) == if ByteAt(a, p).Some? then ByteAt(a, p) else ByteAt(b, p)
  {
    if a == [] {
      assert a + b == b;
    } else {
      assert (a + b)[1..] == a[1..] + b;
      ByteAtConcat(a[1..], b, p);
    }
  }

  lemma {:induction false} TotalConcat(a: seq<Piece>, b: seq<Piece>)
    ensures Total(a + b) == Total(a) + Total(b)
  {
    if a == [] {
      assert a + b == b;
    } else {
      assert (a + b)[1..] == a[1..] + b;
      TotalConcat(a[1..], b);
    }
  }

  /** Pieces wholly before or wholly after a point say nothing there. */
  lemma {:induction false} ByteAtOutside(ranges: seq<Piece>, p: nat)
    requires forall k :: 0 <= k < |ranges| ==> p < ranges[k].start || End(ranges[k]) <= p
    ensures ByteAt(ranges, p) == None
  {
    if ranges != [] {
      ByteAtOutside(ranges[1..], p);
    }
  }

  /** A single piece followed by pieces that start after it, point by point. */
  lemma ByteAtPiece(piece: Piece, p: nat)
    ensures ByteAt([piece], p) == if piece.start <= p < End(piece) then Some(piece.bytes[p - piece.start]) else None
    ensures Total([piece]) == |piece.bytes|
  {
    assert [piece][1..] == [];
  }

  // ---- Counting covered positions ----

  lemma {:induction false} CountSplit(ranges: seq<Piece>, lo: nat, mid: nat, hi: nat)
    requires lo <= mid <= hi
    ensures CoveredCount(ranges, lo, hi) == CoveredCount(ranges, lo, mid) + CoveredCount(ranges, mid, hi)
  {
    hide ByteAt;
    if mid < hi {
      CountSplit(ranges, lo, mid, hi - 1);
    }
  }

  lemma {:induction false} CountFull(ranges: seq<Piece>, lo: nat, hi: nat)
    requires lo <= hi && forall p: nat :: lo <= p < hi ==> Covered(ranges, p)
    ensures CoveredCount(ranges, lo, hi) == hi - lo
  {
    hide ByteAt;
    if lo < hi {
      CountFull(ranges, lo, hi - 1);
    }
  }

  lemma {:induction false} CountNone(ranges: seq<Piece>, lo: nat, hi: nat)
    requires forall p: nat :: lo <= p < hi ==> !Covered(ranges, p)
    ensures CoveredCount(ranges, lo, hi) == 0
  {
    hide ByteAt;
    if lo < hi {
      CountNone(ranges, lo, hi - 1);
    }
  }

  lemma {:induction false} CountSame(a: seq<Piece>, b: seq<Piece>, lo: nat, hi: nat)
    requires forall p: nat :: lo <= p < hi ==> Covered(a, p) == Covered(b, p)
    ensures CoveredCount(a, lo, hi) == CoveredCount(b, lo, hi)
  {
    hide ByteAt;
    if lo < hi {
      CountSame(a, b, lo, hi - 1);
    }
  }

  /** The head piece covers its own positions and the rest cover none of them. */
  lemma HeadCoverage(ranges: seq<Piece>, p: nat)
    requires Canonical(ranges) && ranges != []
    ensures p < ranges[0].start ==> !Covered(ranges, p)
    ensures ranges[0].start <= p < End(ranges[0]) ==> Covered(ranges, p)
    ensures End(ranges[0]) <= p ==> Covered(ranges, p) == Covered(ranges[1..], p)
  {
    if p < ranges[0].start {
      ByteAtOutside(ranges, p);
    }
  }

  /** Counted over an interval that holds every piece, coverage is the total of the lengths. */
  lemma {:induction false} CountTotal(ranges: seq<Piece>, lo: nat, hi: nat)
    requires Canonical(ranges) && lo <= hi
    requires forall k :: 0 <= k < |ranges| ==> lo <= ranges[k].start && End(ranges[k]) <= hi
    ensures CoveredCount(ranges, lo, hi) == Total(ranges)
  {
    hide ByteAt, CoveredCount;
    if ranges == [] {
      forall p: nat | lo <= p < hi ensures !Covered(ranges, p) {
        ByteAtOutside(ranges, p);
      }
      CountNone(ranges, lo, hi);
    } else {
      var start, end, rest := ranges[0].start, End(ranges[0]), ranges[1..];
      forall p: nat | lo <= p < hi
        ensures p < start ==> !Covered(ranges, p)
        ensures start <= p < end ==> Covered(ranges, p)
        ensures end <= p ==> Covered(ranges, p) == Covered(rest, p)
      {
        HeadCoverage(ranges, p);
      }
      assert forall k :: 0 <= k < |rest| ==> rest[k] == ranges[k + 1];
      CountTotal(rest, end, hi);
      CountNone(ranges, lo, start);
      CountFull(ranges, start, end);
      CountSame(ranges, rest, end, hi);
      CountSplit(ranges, lo, start, hi);
      CountSplit(ranges, start, end, hi);
    }
  }

  // ---- Replacing a run of pieces by one ----

  /** `piece` is the write on top of `mid`, and it covers nothing else. */
  ghost predicate Absorbs(piece: Piece, mid: seq<Piece>, offset: nat, bytes: seq<byte>) {
    && piece.start <= offset && offset + |bytes| <= End(piece)
    && (forall k :: 0 <= k < |mid| ==> piece.start <= mid[k].start && End(mid[k]) <= End(piece))
    && (forall p: nat :: piece.start <= p < End(piece) ==>
                           Some(piece.bytes[p - piece.start]) ==
                           if offset <= p < offset + |bytes| then Some(bytes[p - offset]) else ByteAt(mid, p))
  }

  /** The piece is longer than what it absorbs by exactly the positions the write newly covers. */
  lemma AbsorbsCount(piece: Piece, mid: seq<Piece>, offset: nat, bytes: seq<byte>)
    requires Canonical(mid) && Absorbs(piece, mid, offset, bytes)
    ensures |piece.bytes| - Total(mid) == |bytes| - CoveredCount(mid, offset, offset + |bytes|)
  {
    hide ByteAt, CoveredCount, Total;
    var lo, hi, end := piece.start, End(piece), offset + |bytes|;
    CountTotal(mid, lo, hi);
    CountSplit(mid, lo, offset, hi);
    CountSplit(mid, offset, end, hi);
    CountFull(mid, lo, offset);
    CountFull(mid, end, hi);
  }

  ghost predicate Before(ranges: seq<Piece>, x: nat) {
    forall k :: 0 <= k < |ranges| ==> End(ranges[k]) < x
  }

  ghost predicate After(ranges: seq<Piece>, x: nat) {
    forall k :: 0 <= k < |ranges| ==> x < ranges[k].start
  }

  lemma ReplaceCanonical(a: seq<Piece>, piece: Piece, b: seq<Piece>)
    requires Canonical(a) && Canonical(b) && piece.bytes != []
    requires Before(a, piece.start) && After(b, End(piece))
    ensures Canonical(a + [piece] + b)
  {
    var next := a + [piece] + b;
    forall j, k | 0 <= j < k < |next| ensures End(next[j]) < next[k].start {
      if j < |a| && k > |a| {
        assert End(a[j]) < piece.start < b[k - |a| - 1].start;
      }
    }
  }

  lemma ReplaceAt(a: seq<Piece>, mid: seq<Piece>, b: seq<Piece>, piece: Piece, offset: nat, bytes: seq<byte>, p: nat)
    requires Before(a, piece.start) && After(b, End(piece)) && Absorbs(piece, mid, offset, bytes)
    ensures ByteAt(a + [piece] + b, p) ==
            if offset <= p < offset + |bytes| then Some(bytes[p - offset]) else ByteAt(a + mid + b, p)
  {
    ByteAtConcat(a + [piece], b, p);
    ByteAtConcat(a, [piece], p);
    ByteAtConcat(a + mid, b, p);
    ByteAtConcat(a, mid, p);
    ByteAtPiece(piece, p);
    if piece.start <= p < End(piece) {
      ByteAtOutside(a, p);
      ByteAtOutside(b, p);
    } else {
      ByteAtOutside(mid, p);
    }
  }

  lemma SliceCanonical(ranges: seq<Piece>, lo: nat, hi: nat)
    requires Canonical(ranges) && lo <= hi <= |ranges|
    ensures Canonical(ranges[lo..hi])
  {
  }

  lemma ReplaceCount(a: seq<Piece>, mid: seq<Piece>, b: seq<Piece>, lo: nat, hi: nat)
    requires Before(a, lo + 1) && After(b, hi)
    ensures CoveredCount(a + mid + b, lo, hi) == CoveredCount(mid, lo, hi)
  {
    hide CoveredCount;
    forall p: nat | lo <= p < hi ensures Covered(a + mid + b, p) == Covered(mid, p) {
      ByteAtConcat(a + mid, b, p);
      ByteAtConcat(a, mid, p);
      ByteAtOutside(a, p);
      ByteAtOutside(b, p);
    }
    CountSame(a + mid + b, mid, lo, hi);
  }

  lemma ReplaceTotals(ranges: seq<Piece>, a: seq<Piece>, mid: seq<Piece>, b: seq<Piece>, piece: Piece, offset: nat,
                      bytes: seq<byte>)
    requires Before(a, piece.start) && After(b, End(piece)) && Absorbs(piece, mid, offset, bytes)
    requires ranges == a + mid + b && Canonical(mid)
    ensures Total(a + [piece] + b) - Total(ranges) == |piece.bytes| - Total(mid)
    ensures |piece.bytes| - Total(mid) == |bytes| - CoveredCount(ranges, offset, offset + |bytes|)
  {
    hide CoveredCount, Total, ByteAt;
    TotalConcat(a + [piece], b);
    TotalConcat(a, [piece]);
    TotalConcat(a + mid, b);
    TotalConcat(a, mid);
    ByteAtPiece(piece, 0);
    AbsorbsCount(piece, mid, offset, bytes);
    ReplaceCount(a, mid, b, offset, offset + |bytes|);
  }

  /** Putting `piece` in place of `ranges[lo..hi]` is the overlay. */
  lemma Replace(ranges: seq<Piece>, lo: nat, hi: nat, piece: Piece, offset: nat, bytes: seq<byte>)
    requires Canonical(ranges) && lo <= hi <= |ranges| && bytes != []
    requires Before(ranges[..lo], piece.start) && After(ranges[hi..], End(piece))
    requires Absorbs(piece, ranges[lo..hi], offset, bytes)
    ensures var next := ranges[..lo] + [piece] + ranges[hi..];
            && Canonical(next)
            && Overlaid(ranges, next, offset, bytes)
            && Total(next) - Total(ranges) == |piece.bytes| - Total(ranges[lo..hi]) ==
               |bytes| - CoveredCount(ranges, offset, offset + |bytes|)
  {
    hide Canonical, CoveredCount, Total, ByteAt, Before, After, Absorbs;
    var a, mid, b := ranges[..lo], ranges[lo..hi], ranges[hi..];
    SliceCanonical(ranges, 0, lo);
    SliceCanonical(ranges, lo, hi);
    SliceCanonical(ranges, hi, |ranges|);
    assert ranges[0..lo] == a && ranges[hi..|ranges|] == b;
    assert ranges == a + mid + b;
    assert piece.bytes != [] by { AbsorbsSome(piece, mid, offset, bytes); }
    ReplaceCanonical(a, piece, b);
    ReplaceTotals(ranges, a, mid, b, piece, offset, bytes);
    forall p: nat ensures ByteAt(a + [piece] + b, p) ==
                          if offset <= p < offset + |bytes| then Some(bytes[p - offset]) else ByteAt(ranges, p)
    {
      ReplaceAt(a, mid, b, piece, offset, bytes, p);
    }
  }

  lemma AbsorbsSome(piece: Piece, mid: seq<Piece>, offset: nat, bytes: seq<byte>)
    requires Absorbs(piece, mid, offset, bytes) && bytes != []
    ensures piece.bytes != []
  {
  }

  // ---- AcceptWrite ----

  /** Every position of `[start, end)` is written or already held by `mid`. */
  ghost predicate Spans(mid: seq<Piece>, start: nat, end: nat, offset: nat, size: nat) {
    forall p: nat :: start <= p < end ==> offset <= p < offset + size || Covered(mid, p)
  }

  lemma SpansMore(mid: seq<Piece>, piece: Piece, start: nat, end: nat, offset: nat, size: nat)
    requires Spans(mid, start, end, offset, size) && piece.start <= end && start <= End(piece) && start <= end
    ensures Spans(mid + [piece], Min(start, piece.start), Max(end, End(piece)), offset, size)
  {
    var more := mid + [piece];
    forall p: nat | Min(start, piece.start) <= p < Max(end, End(piece))
      ensures offset <= p < offset + size || Covered(more, p)
    {
      ByteAtConcat(mid, [piece], p);
      ByteAtPiece(piece, p);
      assert start <= p < end ==> offset <= p < offset + size || Covered(mid, p);
    }
  }

  ghost predicate Held(mid: seq<Piece>, start: nat, end: nat) {
    forall k :: 0 <= k < |mid| ==> start <= mid[k].start && End(mid[k]) <= end
  }

  /** The pieces the write overlaps or touches, and the hull they form with it. */
  method Gather(ranges: seq<Piece>, from: nat, offset: nat, size: nat) returns (lo: nat, hi: nat, start: nat, end: nat)
    requires Canonical(ranges) && from <= |ranges| && 0 < size && Before(ranges[..from], offset)
    ensures lo <= hi <= |ranges| && start <= offset && offset + size <= end
    ensures Before(ranges[..lo], start) && After(ranges[hi..], end)
    ensures Held(ranges[lo..hi], start, end) && Spans(ranges[lo..hi], start, end, offset, size)
  {
    hide Spans, Canonical, Held, Before, After;
    start, end := offset, offset + size;
    lo, hi := from, from;
    SpansNothing(ranges[lo..hi], offset, size);
    while hi < |ranges|
      invariant lo <= hi <= |ranges| && start <= offset && offset + size <= end
      invariant Before(ranges[..lo], start)
      invariant lo < hi ==> start <= ranges[lo].start
      invariant lo == hi ==> start == offset && end == offset + size
      invariant Held(ranges[lo..hi], start, end) && Spans(ranges[lo..hi], start, end, offset, size)
    {
      var piece := ranges[hi];
      if End(piece) < start {
        // Only the piece before the write can end before it.
        assert lo == hi by { if lo < hi { Increasing(ranges, lo, hi); } }
        BeforeMore(ranges, hi, start);
        hi := hi + 1;
        lo := hi;
        SpansNothing(ranges[lo..hi], offset, size);
        continue;
      }
      if piece.start > end {
        break;
      }
      SpansMore(ranges[lo..hi], piece, start, end, offset, size);
      HeldMore(ranges[lo..hi], piece, start, end);
      assert ranges[lo..hi + 1] == ranges[lo..hi] + [piece];
      if lo < hi {
        Increasing(ranges, lo, hi);
      } else {
        BeforePiece(ranges, hi);
      }
      start := Min(start, piece.start);
      end := Max(end, End(piece));
      hi := hi + 1;
    }
    AfterIndex(ranges, hi, end);
  }

  lemma SpansNothing(none: seq<Piece>, offset: nat, size: nat)
    ensures Spans(none, offset, offset + size, offset, size)
    ensures none == [] ==> Held(none, offset, offset + size)
  {
  }

  lemma HeldMore(mid: seq<Piece>, piece: Piece, start: nat, end: nat)
    requires Held(mid, start, end)
    ensures Held(mid + [piece], Min(start, piece.start), Max(end, End(piece)))
  {
  }

  lemma BeforeMore(ranges: seq<Piece>, i: nat, x: nat)
    requires i < |ranges| && Before(ranges[..i], x) && End(ranges[i]) < x
    ensures Before(ranges[..i + 1], x)
  {
  }

  lemma Increasing(ranges: seq<Piece>, i: nat, j: nat)
    requires Canonical(ranges) && i < j < |ranges|
    ensures ranges[i].start < End(ranges[i]) < ranges[j].start < End(ranges[j])
  {
  }

  lemma BeforePiece(ranges: seq<Piece>, i: nat)
    requires Canonical(ranges) && i < |ranges|
    ensures Before(ranges[..i], ranges[i].start)
  {
  }

  /** The absorbed bytes and then the write, copied into one zeroed string. */
  method Splice(mid: seq<Piece>, start: nat, end: nat, offset: nat, bytes: seq<byte>) returns (merged: seq<byte>)
    requires Canonical(mid) && start <= offset && offset + |bytes| <= end
    requires Held(mid, start, end) && Spans(mid, start, end, offset, |bytes|)
    ensures |merged| == end - start && Absorbs(Piece(start, merged), mid, offset, bytes)
  {
    hide ByteAt, Canonical, CopiedAll, Absorbs, Spans;
    merged := seq(end - start, _ => 0);
    assert CopiedAll(mid[..0], start, merged) by { assert mid[..0] == []; CopiedNothing(start, merged); }
    for i := 0 to |mid|
      invariant |merged| == end - start
      invariant CopiedAll(mid[..i], start, merged)
    {
      assert mid[i] in mid;
      CopiedOne(mid, i, start, merged);
      merged := Overwrite(merged, mid[i].start - start, mid[i].bytes);
    }
    assert mid[..|mid|] == mid;
    CopiedWrite(mid, start, end, offset, bytes, merged);
    merged := Overwrite(merged, offset - start, bytes);
  }

  lemma CopiedWrite(mid: seq<Piece>, start: nat, end: nat, offset: nat, bytes: seq<byte>, merged: seq<byte>)
    requires start <= offset && offset + |bytes| <= end && |merged| == end - start
    requires Held(mid, start, end) && Spans(mid, start, end, offset, |bytes|) && CopiedAll(mid, start, merged)
    ensures Absorbs(Piece(start, Overwrite(merged, offset - start, bytes)), mid, offset, bytes)
  {
    hide ByteAt;
    var piece := Piece(start, Overwrite(merged, offset - start, bytes));
    forall p: nat | piece.start <= p < End(piece)
      ensures Some(piece.bytes[p - piece.start]) ==
              if offset <= p < offset + |bytes| then Some(bytes[p - offset]) else ByteAt(mid, p)
    {
      assert offset <= p < offset + |bytes| || Covered(mid, p);
    }
  }

  /** Every byte the pieces hold has been copied to its place. */
  ghost predicate CopiedAll(pieces: seq<Piece>, start: nat, merged: seq<byte>) {
    forall p: nat :: Covered(pieces, p) && start <= p < start + |merged| ==>
                       ByteAt(pieces, p) == Some(merged[p - start])
  }

  lemma CopiedNothing(start: nat, merged: seq<byte>)
    ensures CopiedAll([], start, merged)
  {
  }

  lemma CopiedOne(mid: seq<Piece>, i: nat, start: nat, merged: seq<byte>)
    requires Canonical(mid) && i < |mid| && start <= mid[i].start && End(mid[i]) <= start + |merged|
    requires CopiedAll(mid[..i], start, merged)
    ensures CopiedAll(mid[..i + 1], start, Overwrite(merged, mid[i].start - start, mid[i].bytes))
  {
    hide ByteAt;
    var before, more, next := mid[..i], mid[..i + 1], Overwrite(merged, mid[i].start - start, mid[i].bytes);
    forall p: nat | Covered(more, p) && start <= p < start + |next| ensures ByteAt(more, p) == Some(next[p - start]) {
      assert more == before + [mid[i]];
      ByteAtConcat(before, [mid[i]], p);
      ByteAtPiece(mid[i], p);
      if mid[i].start <= p < End(mid[i]) {
        ByteAtOutside(before, p);
      }
    }
  }

  method AcceptWrite(ranges: seq<Piece>, offset: nat, bytes: seq<byte>) returns (next: seq<Piece>, newly: nat)
    requires Canonical(ranges) && bytes != []
    ensures Canonical(next)
    ensures Overlaid(ranges, next, offset, bytes)
    ensures newly == |bytes| - CoveredCount(ranges, offset, offset + |bytes|)
    ensures Total(next) == Total(ranges) + newly
  {
    hide ByteAt, Total, CoveredCount, Overlaid, Absorbs, Canonical;
    var end := offset + |bytes|;
    var it := LowerBound(ranges, offset);
    if it == |ranges| || ranges[it].start > end {
      if it == 0 || End(ranges[it - 1]) < offset {
        var piece := Piece(offset, bytes);
        AbsorbsNothing(piece, ranges[it..it]);
        BeforeIndex(ranges, it, offset);
        AfterIndex(ranges, it, end);
        Replace(ranges, it, it, piece, offset, bytes);
        TotalNothing(ranges[it..it]);
        return ranges[..it] + [piece] + ranges[it..], |bytes|;
      }
    }
    var from: nat := it;
    if it != 0 {
      var previous := ranges[it - 1];
      if End(previous) >= offset && (it == |ranges| || ranges[it].start > Max(end, End(previous))) {
        // Overwrite in place, or cut at the offset and append.
        var piece := Piece(previous.start, Overwrite(previous.bytes, offset - previous.start, bytes));
        AbsorbsOne(piece, previous, offset, bytes);
        assert ranges[it - 1..it] == [previous];
        BeforeIndex(ranges, it - 1, previous.start);
        AfterIndex(ranges, it, End(piece));
        Replace(ranges, it - 1, it, piece, offset, bytes);
        ByteAtPiece(previous, 0);
        return ranges[..it - 1] + [piece] + ranges[it..], if end <= End(previous) then 0 else end - End(previous);
      }
      from := it - 1;
    }
    BeforeIndex(ranges, from, offset);
    var lo, hi, start, last := Gather(ranges, from, offset, |bytes|);
    SliceCanonical(ranges, lo, hi);
    var merged := Splice(ranges[lo..hi], start, last, offset, bytes);
    Replace(ranges, lo, hi, Piece(start, merged), offset, bytes);
    next := ranges[..lo] + [Piece(start, merged)] + ranges[hi..];
    CountBound(ranges, offset, offset + |bytes|);
    newly := |merged| - Total(ranges[lo..hi]);
  }

  lemma {:induction false} CountBound(ranges: seq<Piece>, lo: nat, hi: nat)
    requires lo <= hi
    ensures CoveredCount(ranges, lo, hi) <= hi - lo
  {
    hide ByteAt;
    if lo < hi {
      CountBound(ranges, lo, hi - 1);
    }
  }

  lemma AbsorbsNothing(piece: Piece, none: seq<Piece>)
    requires none == []
    ensures Absorbs(piece, none, piece.start, piece.bytes)
  {
  }

  lemma TotalNothing(none: seq<Piece>)
    requires none == []
    ensures Total(none) == 0
  {
  }

  lemma AbsorbsOne(piece: Piece, previous: Piece, offset: nat, bytes: seq<byte>)
    requires previous.start <= offset <= End(previous)
    requires piece == Piece(previous.start, Overwrite(previous.bytes, offset - previous.start, bytes))
    ensures Absorbs(piece, [previous], offset, bytes)
  {
    forall p: nat | piece.start <= p < End(piece)
      ensures Some(piece.bytes[p - piece.start]) ==
              if offset <= p < offset + |bytes| then Some(bytes[p - offset]) else ByteAt([previous], p)
    {
      ByteAtPiece(previous, p);
    }
  }

  lemma BeforeIndex(ranges: seq<Piece>, i: nat, x: nat)
    requires Canonical(ranges) && i <= |ranges|
    requires i == 0 || End(ranges[i - 1]) < x || (i < |ranges| && ranges[i].start <= x)
    ensures Before(ranges[..i], x)
  {
  }

  lemma AfterIndex(ranges: seq<Piece>, i: nat, x: nat)
    requires Canonical(ranges) && i <= |ranges| && (i == |ranges| || x < ranges[i].start)
    ensures After(ranges[i..], x)
  {
  }

  // ---- ClipRanges ----

  method ClipRanges(ranges: seq<Piece>, size: nat) returns (next: seq<Piece>)
    requires Canonical(ranges)
    ensures Canonical(next)
    ensures forall p: nat :: ByteAt(next, p) == if p < size then ByteAt(ranges, p) else None
  {
    hide ByteAt, Canonical;
    var it := LowerBound(ranges, size);
    next := ranges[..it];
    KeepBelow(ranges, it, size);
    if it != 0 && End(ranges[it - 1]) > size {
      CutLast(ranges, it, size);
      var last := ranges[it - 1];
      next := ranges[..it - 1] + [Piece(last.start, last.bytes[..size - last.start])];
    } else {
      EndsBelow(ranges, it, size);
    }
  }

  lemma KeepBelow(ranges: seq<Piece>, it: nat, size: nat)
    requires Canonical(ranges) && it <= |ranges|
    requires forall k :: it <= k < |ranges| ==> size <= ranges[k].start
    ensures Canonical(ranges[..it])
    ensures forall p: nat :: p < size ==> ByteAt(ranges[..it], p) == ByteAt(ranges, p)
  {
    hide ByteAt;
    var kept := ranges[..it];
    forall p: nat | p < size ensures ByteAt(kept, p) == ByteAt(ranges, p) {
      assert ranges == kept + ranges[it..];
      ByteAtConcat(kept, ranges[it..], p);
      ByteAtOutside(ranges[it..], p);
    }
  }

  lemma EndsBelow(ranges: seq<Piece>, it: nat, size: nat)
    requires Canonical(ranges) && it <= |ranges| && (it == 0 || End(ranges[it - 1]) <= size)
    ensures forall p: nat :: size <= p ==> ByteAt(ranges[..it], p) == None
  {
    hide ByteAt;
    var kept := ranges[..it];
    forall p: nat | size <= p ensures ByteAt(kept, p) == None {
      ByteAtOutside(kept, p);
    }
  }

  lemma CutLast(ranges: seq<Piece>, it: nat, size: nat)
    requires Canonical(ranges) && 0 < it <= |ranges| && ranges[it - 1].start < size < End(ranges[it - 1])
    ensures var last := ranges[it - 1];
            var next := ranges[..it - 1] + [Piece(last.start, last.bytes[..size - last.start])];
            && Canonical(next)
            && forall p: nat :: ByteAt(next, p) == if p < size then ByteAt(ranges[..it], p) else None
  {
    hide ByteAt;
    var front, last, kept := ranges[..it - 1], ranges[it - 1], ranges[..it];
    var cut := Piece(last.start, last.bytes[..size - last.start]);
    var next := front + [cut];
    forall p: nat ensures ByteAt(next, p) == if p < size then ByteAt(kept, p) else None {
      assert kept == front + [last];
      ByteAtConcat(front, [last], p);
      ByteAtConcat(front, [cut], p);
      ByteAtPiece(last, p);
      ByteAtPiece(cut, p);
      if size <= p {
        ByteAtOutside(front, p);
      }
    }
  }
}
