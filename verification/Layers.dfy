/**
 Byte layers in acceptance order, newest last: the reference meaning of a published
 history, of the frozen generations and of the dirty view rebuilt from them.
 */
module Layers {
  import opened Common
  import opened DirtyRanges

  predicate Holds(piece: Piece, p: nat) { piece.start <= p < End(piece) }

  /** The byte the newest layer holding `p` gives it. */
  function Latest(layers: seq<Piece>, p: nat): Option<byte> {
    if layers == [] then None
    else
      var last := layers[|layers| - 1];
      if Holds(last, p) then Some(last.bytes[p - last.start]) else Latest(layers[..|layers| - 1], p)
  }

  lemma LatestPush(layers: seq<Piece>, piece: Piece, p: nat)
    ensures Latest(layers + [piece], p) ==
            if Holds(piece, p) then Some(piece.bytes[p - piece.start]) else Latest(layers, p)
  {
    assert (layers + [piece])[..|layers|] == layers;
  }

  lemma {:induction false} LatestConcat(a: seq<Piece>, b: seq<Piece>, p: nat)
    ensures Latest(a + b, p) == if Latest(b, p).Some? then Latest(b, p) else Latest(a, p)
    decreases |b|
  {
    if b == [] {
      assert a + b == a;
    } else {
      var front, last := b[..|b| - 1], b[|b| - 1];
      assert a + b == (a + front) + [last] && b == front + [last];
      LatestPush(a + front, last, p);
      LatestPush(front, last, p);
      LatestConcat(a, front, p);
    }
  }

  lemma {:induction false} LatestHolder(layers: seq<Piece>, p: nat) returns (k: nat)
    requires Latest(layers, p).Some?
    ensures k < |layers| && Holds(layers[k], p) && Latest(layers, p) == Some(layers[k].bytes[p - layers[k].start])
    ensures forall j :: k < j < |layers| ==> !Holds(layers[j], p)
    decreases |layers|
  {
    k := |layers| - 1;
    if !Holds(layers[k], p) {
      var front := layers[..k];
      k := LatestHolder(front, p);
      assert layers[k] == front[k];
      assert forall j :: k < j < |layers| - 1 ==> layers[j] == front[j];
    }
  }

  lemma {:induction false} LatestNone(layers: seq<Piece>, p: nat)
    ensures Latest(layers, p) == None <==> forall k :: 0 <= k < |layers| ==> !Holds(layers[k], p)
    decreases |layers|
  {
    if layers != [] {
      var front := layers[..|layers| - 1];
      LatestNone(front, p);
      assert forall k :: 0 <= k < |front| ==> front[k] == layers[k];
    }
  }

  /** Disjoint pieces have no order to speak of. */
  lemma {:induction false} LatestOfCanonical(ranges: seq<Piece>, p: nat)
    requires Canonical(ranges)
    ensures Latest(ranges, p) == ByteAt(ranges, p)
    decreases |ranges|
  {
    if ranges != [] {
      var front, last := ranges[..|ranges| - 1], ranges[|ranges| - 1];
      LatestOfCanonical(front, p);
      assert ranges == front + [last];
      ByteAtConcat(front, [last], p);
      ByteAtPiece(last, p);
      if Holds(last, p) {
        ByteAtOutside(front, p);
      }
    }
  }

  /** In a canonical set the piece that holds a position gives it its byte. */
  lemma ByteAtOwn(ranges: seq<Piece>, k: nat, p: nat)
    requires Canonical(ranges) && k < |ranges| && Holds(ranges[k], p)
    ensures ByteAt(ranges, p) == Some(ranges[k].bytes[p - ranges[k].start])
  {
    hide ByteAt;
    assert ranges == ranges[..k] + [ranges[k]] + ranges[k + 1..];
    ByteAtOutside(ranges[..k], p);
    ByteAtPiece(ranges[k], p);
    ByteAtConcat(ranges[..k], [ranges[k]], p);
    ByteAtConcat(ranges[..k] + [ranges[k]], ranges[k + 1..], p);
  }

  lemma ByteAtHolder(ranges: seq<Piece>, p: nat) returns (k: nat)
    requires Canonical(ranges) && ByteAt(ranges, p).Some?
    ensures k < |ranges| && Holds(ranges[k], p) && ByteAt(ranges, p) == Some(ranges[k].bytes[p - ranges[k].start])
  {
    LatestOfCanonical(ranges, p);
    k := LatestHolder(ranges, p);
  }

  // ---- Truncation to a prefix ----

  function Clip(piece: Piece, size: nat): (r: Piece)
    ensures r.start == piece.start
    ensures forall p: nat :: Holds(r, p) <==> Holds(piece, p) && p < size
    ensures r.bytes <= piece.bytes
  {
    var remaining := if size > piece.start then size - piece.start else 0;
    Piece(piece.start, piece.bytes[..Min(|piece.bytes|, remaining)])
  }

  function ClipAll(layers: seq<Piece>, size: nat): (r: seq<Piece>)
    ensures |r| == |layers|
    ensures forall k :: 0 <= k < |r| ==> r[k] == Clip(layers[k], size)
  {
    seq(|layers|, k requires 0 <= k < |layers| => Clip(layers[k], size))
  }

  lemma {:induction false} ClipAllAt(layers: seq<Piece>, size: nat, p: nat)
    ensures Latest(ClipAll(layers, size), p) == if p < size then Latest(layers, p) else None
    decreases |layers|
  {
    if layers != [] {
      var front, last := layers[..|layers| - 1], layers[|layers| - 1];
      assert ClipAll(layers, size) == ClipAll(front, size) + [Clip(last, size)];
      LatestPush(ClipAll(front, size), Clip(last, size), p);
      ClipAllAt(front, size, p);
    }
  }

  // ---- Rebuilding the dirty view ----

  /** `RebuildDirtyLocked`: accept every layer again, oldest first. */
  method Rebuild(layers: seq<Piece>) returns (dirty: seq<Piece>)
    ensures Canonical(dirty)
    ensures forall p: nat :: ByteAt(dirty, p) == Latest(layers, p)
  {
    hide ByteAt, Latest, Total, CoveredCount;
    dirty := [];
    assert forall p: nat :: ByteAt(dirty, p) == Latest(layers[..0], p) by { RebuildNothing(layers); }
    for i := 0 to |layers|
      invariant Canonical(dirty)
      invariant forall p: nat :: ByteAt(dirty, p) == Latest(layers[..i], p)
    {
      ghost var before := dirty;
      if layers[i].bytes != [] {
        var newly;
        dirty, newly := AcceptWrite(dirty, layers[i].start, layers[i].bytes);
      }
      RebuildOne(layers, i, before, dirty);
    }
    assert layers[..|layers|] == layers;
  }

  lemma RebuildNothing(layers: seq<Piece>)
    ensures forall p: nat :: ByteAt([], p) == Latest(layers[..0], p)
  {
  }

  lemma RebuildOne(layers: seq<Piece>, i: nat, before: seq<Piece>, after: seq<Piece>)
    requires i < |layers| && forall p: nat :: ByteAt(before, p) == Latest(layers[..i], p)
    requires if layers[i].bytes == [] then after == before
             else Overlaid(before, after, layers[i].start, layers[i].bytes)
    ensures forall p: nat :: ByteAt(after, p) == Latest(layers[..i + 1], p)
  {
    hide ByteAt, Latest;
    var more := layers[..i + 1];
    forall p: nat ensures ByteAt(after, p) == Latest(more, p) {
      assert more == layers[..i] + [layers[i]];
      LatestPush(layers[..i], layers[i], p);
    }
  }
}
