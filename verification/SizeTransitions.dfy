/**
 Explicit size changes: boundary sanitation, the watched EOF/detach commit, and what both
 leave readable.  A file is its EOF, its mappings and the private state of each identity.
 */
module SizeTransitions {
  import opened Common
  import opened Arithmetic
  import opened ChunkSizePlan
  import SR = SliceRecords
  import Clamps = BoundaryClamps

  type Objects = map<nat, seq<byte>>

  /** The private state of one identity: a slice history, or a COW head over an immutable object. */
  datatype Content = SliceList(records: seq<SR.SliceRecord>) | CowHead(size: nat, payload: seq<byte>)

  datatype File = File(eof: nat, mappings: seq<Mapping>, contents: map<nat, Content>)

  /** What the private state shows at a position, without regard to the EOF. */
  function Raw(c: Content, objects: Objects, p: nat): byte {
    match c
    case SliceList(records) => Clamps.SourceByte(SR.Visible(records, p), objects)
    case CowHead(size, payload) => if p < size && p < |payload| then payload[p] else 0
  }

  function ChunkByte(f: File, objects: Objects, index: nat, p: nat): byte {
    var chunk := ChunkAt(f.mappings, index);
    if chunk.None? || chunk.value !in f.contents then 0 else Raw(f.contents[chunk.value], objects, p)
  }

  /** What a reader of the file gets. */
  function FileByte(f: File, objects: Objects, chunkSize: nat, x: nat): byte
    requires 0 < chunkSize
  {
    if x < f.eof then ChunkByte(f, objects, x / chunkSize, x % chunkSize) else 0
  }

  // ---- Sanitation of one boundary ----

  function ZeroCover(prefix: nat, chunkSize: u32): SR.SliceRecord
    requires prefix < chunkSize
  {
    SR.SliceRecord(prefix, 0, 0, 0, chunkSize - prefix)
  }

  /** The state sanitation aims for: a durable cover of zeros, or a clamped head. */
  function Sanitized(c: Content, prefix: nat, chunkSize: u32): Content
    requires prefix < chunkSize
  {
    match c
    case SliceList(records) => SliceList(records + [ZeroCover(prefix, chunkSize)])
    case CowHead(size, payload) => CowHead(Min(size, prefix), payload)
  }

  /** Sanitation hides the suffix and touches nothing before it. */
  lemma SanitizedRaw(c: Content, objects: Objects, prefix: nat, chunkSize: u32, p: nat)
    requires prefix < chunkSize && p < chunkSize
    ensures Raw(Sanitized(c, prefix, chunkSize), objects, p) == if p < prefix then Raw(c, objects, p) else 0
  {
    if c.SliceList? {
      Clamps.VisiblePush(c.records, ZeroCover(prefix, chunkSize), p);
    }
  }

  // ---- Files ----

  ghost predicate ValidFile(f: File, chunkSize: nat) {
    && Increasing(f.mappings) && f.eof <= MAX_FILE_SIZE
    && (forall m :: m in f.mappings ==> ValidId(m.chunk) && m.index * chunkSize <= MAX_FILE_SIZE)
    && (forall a, b :: a in f.mappings && b in f.mappings && a.chunk == b.chunk ==> a == b)
  }

  function Clamp(f: File, b: Retained, chunkSize: u32): File
    requires b.visiblePrefix < chunkSize
  {
    if b.chunk !in f.contents then f
    else f.(contents := f.contents[b.chunk := Sanitized(f.contents[b.chunk], b.visiblePrefix, chunkSize)])
  }

  lemma {:induction false} KeepBelowIncreasing(mappings: seq<Mapping>, n: nat, eof: nat, chunkSize: nat)
    requires n <= |mappings| && Increasing(mappings)
    ensures Increasing(KeepBelow(mappings, n, eof, chunkSize))
  {
    if n > 0 {
      KeepBelowIncreasing(mappings, n - 1, eof, chunkSize);
      var front := KeepBelow(mappings, n - 1, eof, chunkSize);
      forall k | 0 <= k < |front| ensures front[k].index < mappings[n - 1].index {
        KeepBelowMembers(mappings, n - 1, eof, chunkSize, front[k]);
        assert front[k] in mappings[..n - 1];
      }
    }
  }

  /** Detaching beyond `eof` leaves the chunks before it and makes holes of the rest. */
  lemma KeptChunk(mappings: seq<Mapping>, eof: nat, chunkSize: nat, index: nat)
    requires Increasing(mappings)
    ensures ChunkAt(KeepBelow(mappings, |mappings|, eof, chunkSize), index) ==
            if index * chunkSize < eof then ChunkAt(mappings, index) else None
  {
    hide ChunkAt, KeepBelow;
    var kept := KeepBelow(mappings, |mappings|, eof, chunkSize);
    KeepBelowIncreasing(mappings, |mappings|, eof, chunkSize);
    assert mappings[..|mappings|] == mappings;
    var before, after := ChunkAt(mappings, index), ChunkAt(kept, index);
    if before.Some? {
      ChunkAtExactly(mappings, index, before.value);
      ChunkAtExactly(kept, index, before.value);
      KeepBelowMembers(mappings, |mappings|, eof, chunkSize, Mapping(index, before.value));
    }
    if after.Some? {
      ChunkAtExactly(mappings, index, after.value);
      ChunkAtExactly(kept, index, after.value);
      KeepBelowMembers(mappings, |mappings|, eof, chunkSize, Mapping(index, after.value));
    }
  }

  /** The committed transaction: a shrink detaches beyond the target, a grow beyond the old EOF. */
  function Resized(f: File, target: nat, chunkSize: nat): File {
    f.(eof := target, mappings := KeepBelow(f.mappings, |f.mappings|, Min(f.eof, target), chunkSize))
  }

  lemma SplitOffset(x: nat, chunkSize: nat)
    requires 0 < chunkSize
    ensures x / chunkSize * chunkSize <= x && x == x / chunkSize * chunkSize + x % chunkSize
    ensures x % chunkSize < chunkSize
  {
    DivideExactly(x, chunkSize);
  }

  /** Bytes before both ends are untouched. */
  lemma ResizedBelow(f: File, objects: Objects, target: nat, chunkSize: nat, x: nat)
    requires 0 < chunkSize && Increasing(f.mappings) && x < f.eof && x < target
    ensures FileByte(Resized(f, target, chunkSize), objects, chunkSize, x) == FileByte(f, objects, chunkSize, x)
  {
    hide ChunkAt, KeepBelow, Raw;
    SplitOffset(x, chunkSize);
    KeptChunk(f.mappings, Min(f.eof, target), chunkSize, x / chunkSize);
  }

  /** Where a grow exposes bytes: in the chunk under the old EOF, everything else is a hole. */
  lemma ResizedAbove(f: File, objects: Objects, target: nat, chunkSize: nat, x: nat)
    requires 0 < chunkSize && Increasing(f.mappings) && f.eof <= x < target
    ensures FileByte(Resized(f, target, chunkSize), objects, chunkSize, x) ==
            if f.eof % chunkSize != 0 && x / chunkSize == f.eof / chunkSize
            then ChunkByte(f, objects, x / chunkSize, x % chunkSize) else 0
  {
    hide ChunkAt, KeepBelow, Raw;
    SplitOffset(x, chunkSize);
    SplitOffset(f.eof, chunkSize);
    KeptChunk(f.mappings, f.eof, chunkSize, x / chunkSize);
    SameChunk(f.eof, x, chunkSize);
  }

  /** The chunk of `x` starts before `e` exactly when it is the chunk `e` is inside of. */
  lemma SameChunk(e: nat, x: nat, chunkSize: nat)
    requires 0 < chunkSize && e <= x
    ensures x / chunkSize * chunkSize < e <==> e % chunkSize != 0 && x / chunkSize == e / chunkSize
  {
    SplitOffset(x, chunkSize);
    SplitOffset(e, chunkSize);
    MultiplyOrder(x / chunkSize, e / chunkSize, chunkSize);
    MultiplyOrder(e / chunkSize, x / chunkSize, chunkSize);
  }

  /** The chunk under the old EOF shows zeros from there up to the new one. */
  ghost predicate ZeroUpTo(f: File, objects: Objects, target: nat, chunkSize: nat)
    requires 0 < chunkSize
  {
    f.eof % chunkSize != 0 ==>
      forall p: nat :: f.eof % chunkSize <= p < chunkSize && f.eof / chunkSize * chunkSize + p < target ==>
                         ChunkByte(f, objects, f.eof / chunkSize, p) == 0
  }

  lemma GrowShows(f: File, objects: Objects, target: nat, chunkSize: nat, p: nat)
    requires 0 < chunkSize && Increasing(f.mappings) && 0 < f.eof % chunkSize <= p < chunkSize
    requires f.eof / chunkSize * chunkSize + p < target
    ensures f.eof <= f.eof / chunkSize * chunkSize + p
    ensures FileByte(Resized(f, target, chunkSize), objects, chunkSize, f.eof / chunkSize * chunkSize + p) ==
            ChunkByte(f, objects, f.eof / chunkSize, p)
  {
    hide ChunkByte, Resized, FileByte;
    SplitOffset(f.eof, chunkSize);
    InsideChunk(f.eof / chunkSize, p, chunkSize);
    ResizedAbove(f, objects, target, chunkSize, f.eof / chunkSize * chunkSize + p);
  }

  lemma GrowHides(f: File, objects: Objects, target: nat, chunkSize: nat, x: nat)
    requires 0 < chunkSize && Increasing(f.mappings) && f.eof <= x < target && ZeroUpTo(f, objects, target, chunkSize)
    ensures FileByte(Resized(f, target, chunkSize), objects, chunkSize, x) == 0
  {
    hide ChunkByte, Resized, FileByte;
    ResizedAbove(f, objects, target, chunkSize, x);
    SplitOffset(x, chunkSize);
    SplitOffset(f.eof, chunkSize);
  }

  /**
   A grow exposes only zeros exactly when the chunk under the old EOF shows zeros up to the new
   one; nothing is asked of earlier shrinks or of mappings past the old EOF.
   */
  lemma GrowExposesZeros(f: File, objects: Objects, target: nat, chunkSize: nat)
    requires 0 < chunkSize && Increasing(f.mappings) && f.eof < target
    ensures (forall x: nat :: f.eof <= x < target ==>
                                FileByte(Resized(f, target, chunkSize), objects, chunkSize, x) == 0) <==>
            ZeroUpTo(f, objects, target, chunkSize)
  {
    hide ChunkByte, Resized, FileByte;
    if forall x: nat :: f.eof <= x < target ==> FileByte(Resized(f, target, chunkSize), objects, chunkSize, x) == 0 {
      forall p: nat | f.eof % chunkSize != 0 && f.eof % chunkSize <= p < chunkSize
                      && f.eof / chunkSize * chunkSize + p < target
        ensures ChunkByte(f, objects, f.eof / chunkSize, p) == 0
      {
        GrowShows(f, objects, target, chunkSize, p);
      }
    }
    if ZeroUpTo(f, objects, target, chunkSize) {
      forall x: nat | f.eof <= x < target ensures FileByte(Resized(f, target, chunkSize), objects, chunkSize, x) == 0 {
        GrowHides(f, objects, target, chunkSize, x);
      }
    }
  }

  lemma InsideChunk(index: nat, p: nat, chunkSize: nat)
    requires p < chunkSize
    ensures (index * chunkSize + p) / chunkSize == index && (index * chunkSize + p) % chunkSize == p
  {
    var x := index * chunkSize + p;
    SplitOffset(x, chunkSize);
    MultiplyOrder(index, x / chunkSize, chunkSize);
    MultiplyOrder(x / chunkSize, index, chunkSize);
  }

  // ---- What other mounts do meanwhile ----

  /** A record another mount appended to a list, or a head it put in place of another. */
  datatype Foreign = Appended(chunk: nat, record: SR.SliceRecord) | Exchanged(chunk: nat, size: nat, payload: seq<byte>)

  /** The stored objects, and the foreign steps made so far; `from` of them before the call began. */
  datatype World = World(objects: Objects, foreign: seq<Foreign>, from: nat)

  ghost predicate Later(w: World, v: World) { w.objects == v.objects && w.from == v.from && w.foreign <= v.foreign }

  function Installed(f: File, x: Foreign): File {
    if x.chunk !in f.contents then f
    else
      match (x, f.contents[x.chunk])
      case (Appended(k, r), SliceList(records)) => f.(contents := f.contents[k := SliceList(records + [r])])
      case (Exchanged(k, size, payload), CowHead(_, _)) => f.(contents := f.contents[k := CowHead(size, payload)])
      case _ => f
  }

  ghost predicate Shows(x: Foreign, objects: Objects, p: nat, b: byte) {
    match x
    case Appended(_, r) => SR.Covers(r, p) && b == Clamps.SourceByte(SR.SourceIn(r, p), objects)
    case Exchanged(_, size, payload) => b == Raw(CowHead(size, payload), objects, p)
  }

  /** The byte comes from something another mount installed during the call. */
  ghost predicate Alien(f: File, w: World, index: nat, p: nat) {
    exists i :: w.from <= i < |w.foreign| && ChunkAt(f.mappings, index) == Some(w.foreign[i].chunk) &&
                Shows(w.foreign[i], w.objects, p, ChunkByte(f, w.objects, index, p))
  }

  ghost predicate Descends(f: File, g: File, w: World, index: nat, p: nat) {
    ChunkByte(g, w.objects, index, p) == ChunkByte(f, w.objects, index, p) || Alien(g, w, index, p)
  }

  ghost predicate Blank(f: File, w: World, index: nat, p: nat) {
    ChunkByte(f, w.objects, index, p) == 0 || Alien(f, w, index, p)
  }

  lemma AlienStays(f: File, g: File, w: World, v: World, index: nat, p: nat)
    requires Alien(f, w, index, p) && Later(w, v) && ChunkAt(f.mappings, index) == ChunkAt(g.mappings, index)
    requires ChunkByte(f, w.objects, index, p) == ChunkByte(g, w.objects, index, p)
    ensures Alien(g, v, index, p)
  {
    hide ChunkAt, ChunkByte, Shows;
    var i :| w.from <= i < |w.foreign| && ChunkAt(f.mappings, index) == Some(w.foreign[i].chunk) &&
             Shows(w.foreign[i], w.objects, p, ChunkByte(f, w.objects, index, p));
    assert v.foreign[i] == w.foreign[i];
  }

  lemma DescendsTwice(f: File, g: File, h: File, w: World, v: World, index: nat, p: nat)
    requires Descends(f, g, w, index, p) && Descends(g, h, v, index, p) && Later(w, v)
    requires ChunkAt(g.mappings, index) == ChunkAt(h.mappings, index)
    ensures Descends(f, h, v, index, p)
  {
    hide ChunkAt, ChunkByte, Alien;
    if Alien(g, w, index, p) && !Alien(h, v, index, p) {
      AlienStays(g, h, w, v, index, p);
    }
  }

  lemma BlankThen(g: File, h: File, w: World, v: World, index: nat, p: nat)
    requires Blank(g, w, index, p) && Descends(g, h, v, index, p) && Later(w, v)
    requires ChunkAt(g.mappings, index) == ChunkAt(h.mappings, index)
    ensures Blank(h, v, index, p)
  {
    hide ChunkAt, ChunkByte, Alien;
    if Alien(g, w, index, p) && !Alien(h, v, index, p) {
      AlienStays(g, h, w, v, index, p);
    }
  }

  lemma InstalledDescends(f: File, w: World, x: Foreign, index: nat, p: nat)
    requires w.from <= |w.foreign|
    ensures Descends(f, Installed(f, x), w.(foreign := w.foreign + [x]), index, p)
  {
    hide ChunkAt;
    var g, v := Installed(f, x), w.(foreign := w.foreign + [x]);
    if ChunkAt(f.mappings, index) == Some(x.chunk) && g != f {
      assert v.foreign[|w.foreign|] == x;
      if x.Appended? {
        Clamps.VisiblePush(f.contents[x.chunk].records, x.record, p);
        if SR.Covers(x.record, p) {
          assert Shows(x, w.objects, p, ChunkByte(g, w.objects, index, p));
        }
      } else {
        assert Shows(x, w.objects, p, ChunkByte(g, w.objects, index, p));
      }
    }
  }

  /** Every byte before `limit` is the one it was, or came from another mount. */
  ghost predicate Lineage(f: File, g: File, w: World, chunkSize: nat, limit: nat)
    requires 0 < chunkSize
  {
    forall x: nat :: x < limit ==> Descends(f, g, w, x / chunkSize, x % chunkSize) && SameChunkAt(f, g, x / chunkSize)
  }

  ghost predicate SameChunkAt(f: File, g: File, index: nat) { ChunkAt(f.mappings, index) == ChunkAt(g.mappings, index) }

  lemma LineageTwice(f: File, g: File, h: File, w: World, v: World, chunkSize: nat, limit: nat)
    requires 0 < chunkSize && Lineage(f, g, w, chunkSize, limit) && Lineage(g, h, v, chunkSize, limit) && Later(w, v)
    ensures Lineage(f, h, v, chunkSize, limit)
  {
    hide Descends, ChunkAt;
    forall x: nat | x < limit
      ensures Descends(f, h, v, x / chunkSize, x % chunkSize) && SameChunkAt(f, h, x / chunkSize)
    {
      assert SameChunkAt(f, g, x / chunkSize) && SameChunkAt(g, h, x / chunkSize);
      DescendsTwice(f, g, h, w, v, x / chunkSize, x % chunkSize);
    }
  }

  // ---- Sanitation inside a file ----

  ghost predicate Attached(f: File, b: Retained) { ChunkAt(f.mappings, b.index) == Some(b.chunk) }

  /** Clamping an attached boundary hides its suffix and changes no other byte of any chunk. */
  lemma ClampBytes(f: File, objects: Objects, b: Retained, chunkSize: u32, index: nat, p: nat)
    requires ValidFile(f, chunkSize) && b.visiblePrefix < chunkSize && p < chunkSize && Attached(f, b)
    ensures ChunkByte(Clamp(f, b, chunkSize), objects, index, p) ==
            if index == b.index && b.visiblePrefix <= p then 0 else ChunkByte(f, objects, index, p)
  {
    hide Raw, Sanitized, ChunkAt;
    var chunk := ChunkAt(f.mappings, index);
    if b.chunk in f.contents {
      SanitizedRaw(f.contents[b.chunk], objects, b.visiblePrefix, chunkSize, p);
    }
    ChunkAtExactly(f.mappings, b.index, b.chunk);
    if chunk.Some? {
      ChunkAtExactly(f.mappings, index, chunk.value);
    }
  }

  /** Sanitation of `b` under interference: bytes descend, or were hidden by it. */
  ghost predicate Sanitizes(f: File, g: File, w: World, b: Retained, index: nat, p: nat) {
    || Descends(f, g, w, index, p)
    || (Attached(f, b) && index == b.index && b.visiblePrefix <= p && ChunkByte(g, w.objects, index, p) == 0)
  }

  ghost predicate AllSanitizes(f: File, g: File, w: World, b: Retained, chunkSize: nat) {
    forall index: nat, p: nat :: p < chunkSize ==> Sanitizes(f, g, w, b, index, p)
  }

  /** The own step of sanitation. */
  lemma ClampSanitizes(f: File, g: File, w: World, b: Retained, chunkSize: u32)
    requires ValidFile(g, chunkSize) && b.visiblePrefix < chunkSize && f.mappings == g.mappings && Attached(f, b)
    requires AllSanitizes(f, g, w, b, chunkSize)
    ensures AllSanitizes(f, Clamp(g, b, chunkSize), w, b, chunkSize)
    ensures b.chunk in g.contents ==>
              forall p: nat :: b.visiblePrefix <= p < chunkSize ==>
                                 ChunkByte(Clamp(g, b, chunkSize), w.objects, b.index, p) == 0
  {
    hide ChunkByte, Alien, Clamp, ValidFile, ChunkAt;
    var h := Clamp(g, b, chunkSize);
    ClampFrame(g, b, chunkSize);
    forall index: nat, p: nat | p < chunkSize ensures Sanitizes(f, h, w, b, index, p) {
      assert Sanitizes(f, g, w, b, index, p);
      ClampBytes(g, w.objects, b, chunkSize, index, p);
      if !(index == b.index && b.visiblePrefix <= p) && Alien(g, w, index, p) {
        AlienStays(g, h, w, w, index, p);
      }
    }
    forall p: nat | b.visiblePrefix <= p < chunkSize ensures ChunkByte(h, w.objects, b.index, p) == 0 {
      ClampBytes(g, w.objects, b, chunkSize, b.index, p);
    }
  }

  lemma RaceSanitizes(f: File, g: File, h: File, w: World, v: World, b: Retained, chunkSize: nat)
    requires f.mappings == g.mappings == h.mappings && Later(w, v) && AllSanitizes(f, g, w, b, chunkSize)
    requires AllDescends(g, h, v)
    ensures AllSanitizes(f, h, v, b, chunkSize)
  {
    hide ChunkByte, Alien, ChunkAt;
    forall index: nat, p: nat | p < chunkSize ensures Sanitizes(f, h, v, b, index, p) {
      assert Sanitizes(f, g, w, b, index, p) && Descends(g, h, v, index, p);
      if Descends(f, g, w, index, p) {
        DescendsTwice(f, g, h, w, v, index, p);
      }
    }
  }

  ghost predicate AllDescends(f: File, g: File, w: World) { forall index: nat, p: nat :: Descends(f, g, w, index, p) }

  lemma DescendsSanitizes(f: File, g: File, w: World, b: Retained, chunkSize: nat)
    requires AllDescends(f, g, w)
    ensures AllSanitizes(f, g, w, b, chunkSize)
  {
    hide Descends;
  }

  lemma NothingDescends(f: File, w: World)
    ensures AllDescends(f, f, w)
  {
  }

  lemma AllDescendsTwice(f: File, g: File, h: File, w: World, v: World)
    requires AllDescends(f, g, w) && AllDescends(g, h, v) && Later(w, v) && g.mappings == h.mappings
    ensures AllDescends(f, h, v)
  {
    hide Descends;
    forall index: nat, p: nat ensures Descends(f, h, v, index, p) {
      DescendsTwice(f, g, h, w, v, index, p);
    }
  }

  lemma DescendsLineage(f: File, g: File, w: World, chunkSize: nat, limit: nat)
    requires 0 < chunkSize && AllDescends(f, g, w) && f.mappings == g.mappings
    ensures Lineage(f, g, w, chunkSize, limit)
  {
    hide Descends, ChunkAt;
  }

  /** Before the boundary sanitation changes nothing. */
  lemma SanitizeLineage(f: File, g: File, w: World, b: Retained, chunkSize: nat, limit: nat)
    requires 0 < chunkSize && BoundaryAt(b, limit, chunkSize) && f.mappings == g.mappings
             && AllSanitizes(f, g, w, b, chunkSize)
    ensures Lineage(f, g, w, chunkSize, limit)
  {
    hide Descends, ChunkAt, ChunkByte;
    forall x: nat | x < limit
      ensures Descends(f, g, w, x / chunkSize, x % chunkSize) && SameChunkAt(f, g, x / chunkSize)
    {
      BeforeBoundary(x, limit, chunkSize);
      assert Sanitizes(f, g, w, b, x / chunkSize, x % chunkSize);
    }
  }

  /** `b` is the chunk that `eof` falls inside of. */
  predicate BoundaryAt(b: Retained, eof: nat, chunkSize: nat)
    requires 0 < chunkSize
  {
    b.index == eof / chunkSize && b.visiblePrefix == eof % chunkSize && 0 < b.visiblePrefix
  }

  lemma BeforeBoundary(x: nat, limit: nat, chunkSize: nat)
    requires 0 < chunkSize && x < limit
    ensures x % chunkSize < chunkSize && (x / chunkSize != limit / chunkSize || x % chunkSize < limit % chunkSize)
  {
    SplitOffset(x, chunkSize);
    SplitOffset(limit, chunkSize);
  }

  lemma ClampFrame(f: File, b: Retained, chunkSize: u32)
    requires b.visiblePrefix < chunkSize
    ensures Clamp(f, b, chunkSize).eof == f.eof && Clamp(f, b, chunkSize).mappings == f.mappings
  {
  }

  lemma ClampValid(f: File, b: Retained, chunkSize: u32)
    requires b.visiblePrefix < chunkSize && ValidFile(f, chunkSize)
    ensures ValidFile(Clamp(f, b, chunkSize), chunkSize) && SameKinds(f, Clamp(f, b, chunkSize))
  {
  }

  // ---- The transaction ----

  /** The mappings left once those at `gone` are detached; what has a byte before `below` stays. */
  function Spared(mappings: seq<Mapping>, n: nat, below: nat, chunkSize: nat, gone: set<nat>): seq<Mapping>
    requires n <= |mappings|
  {
    if n == 0 then []
    else if StartsBefore(mappings[n - 1], below, chunkSize) || mappings[n - 1].index !in gone
    then Spared(mappings, n - 1, below, chunkSize, gone) + [mappings[n - 1]]
    else Spared(mappings, n - 1, below, chunkSize, gone)
  }

  lemma {:induction false} SparedMembers(mappings: seq<Mapping>, n: nat, below: nat, chunkSize: nat, gone: set<nat>)
    requires n <= |mappings|
    ensures forall m :: m in Spared(mappings, n, below, chunkSize, gone) <==>
                        m in mappings[..n] && (StartsBefore(m, below, chunkSize) || m.index !in gone)
  {
    hide StartsBefore;
    if n > 0 {
      SparedMembers(mappings, n - 1, below, chunkSize, gone);
      assert mappings[..n] == mappings[..n - 1] + [mappings[n - 1]];
    }
  }

  lemma {:induction false} SparedIncreasing(mappings: seq<Mapping>, n: nat, below: nat, chunkSize: nat, gone: set<nat>)
    requires n <= |mappings| && Increasing(mappings)
    ensures Increasing(Spared(mappings, n, below, chunkSize, gone))
  {
    if n > 0 {
      SparedIncreasing(mappings, n - 1, below, chunkSize, gone);
      SparedMembers(mappings, n - 1, below, chunkSize, gone);
      var front := Spared(mappings, n - 1, below, chunkSize, gone);
      forall k | 0 <= k < |front| ensures front[k].index < mappings[n - 1].index {
        assert front[k] in mappings[..n - 1];
      }
    }
  }

  /** Detaching nothing keeps everything; detaching everything keeps what starts before `below`. */
  lemma {:induction false} SparedEnds(mappings: seq<Mapping>, n: nat, below: nat, chunkSize: nat, gone: set<nat>)
    requires n <= |mappings|
    ensures gone == {} ==> Spared(mappings, n, below, chunkSize, gone) == mappings[..n]
    ensures (forall m :: m in mappings && !StartsBefore(m, below, chunkSize) ==> m.index in gone) ==>
              Spared(mappings, n, below, chunkSize, gone) == KeepBelow(mappings, n, below, chunkSize)
  {
    hide StartsBefore;
    if n > 0 {
      SparedEnds(mappings, n - 1, below, chunkSize, gone);
      assert mappings[..n] == mappings[..n - 1] + [mappings[n - 1]];
    }
  }

  /** The interrupted transaction: the mappings at `gone` are detached, and the EOF may or may not have moved. */
  function Partial(f: File, eof: nat, gone: set<nat>, below: nat, chunkSize: nat): File {
    f.(eof := eof, mappings := Spared(f.mappings, |f.mappings|, below, chunkSize, gone))
  }

  lemma PartialMembers(f: File, gone: set<nat>, below: nat, chunkSize: nat, m: Mapping)
    requires m.index * chunkSize < below
    ensures m in Partial(f, f.eof, gone, below, chunkSize).mappings <==> m in f.mappings
  {
    SparedMembers(f.mappings, |f.mappings|, below, chunkSize, gone);
    assert f.mappings[..|f.mappings|] == f.mappings;
  }

  lemma PartialOrdered(f: File, gone: set<nat>, below: nat, chunkSize: nat)
    requires Increasing(f.mappings)
    ensures Increasing(Partial(f, f.eof, gone, below, chunkSize).mappings)
    ensures forall m :: m in Partial(f, f.eof, gone, below, chunkSize).mappings ==> m in f.mappings
  {
    SparedIncreasing(f.mappings, |f.mappings|, below, chunkSize, gone);
    SparedMembers(f.mappings, |f.mappings|, below, chunkSize, gone);
  }

  lemma PartialValid(f: File, eof: nat, gone: set<nat>, below: nat, chunkSize: nat)
    requires ValidFile(f, chunkSize) && eof <= MAX_FILE_SIZE
    ensures ValidFile(Partial(f, eof, gone, below, chunkSize), chunkSize)
  {
    hide Spared;
    PartialOrdered(f, gone, below, chunkSize);
  }

  /** No stage of the transaction disturbs a chunk that starts before both ends. */
  lemma PartialChunk(f: File, eof: nat, gone: set<nat>, below: nat, chunkSize: nat, index: nat)
    requires Increasing(f.mappings) && index * chunkSize < below
    ensures SameChunkAt(f, Partial(f, eof, gone, below, chunkSize), index)
  {
    hide ChunkAt, Spared;
    var g := Partial(f, f.eof, gone, below, chunkSize);
    PartialOrdered(f, gone, below, chunkSize);
    var before, after := ChunkAt(f.mappings, index), ChunkAt(g.mappings, index);
    if before.Some? {
      ChunkAtExactly(f.mappings, index, before.value);
      ChunkAtExactly(g.mappings, index, before.value);
      PartialMembers(f, gone, below, chunkSize, Mapping(index, before.value));
    }
    if after.Some? {
      ChunkAtExactly(f.mappings, index, after.value);
      ChunkAtExactly(g.mappings, index, after.value);
    }
  }

  function Indices(mappings: seq<Mapping>): set<nat> { set m | m in mappings :: m.index }

  lemma ResizedIsPartial(f: File, target: nat, chunkSize: nat)
    ensures Resized(f, target, chunkSize) == Partial(f, target, Indices(f.mappings), Min(f.eof, target), chunkSize)
  {
    SparedEnds(f.mappings, |f.mappings|, Min(f.eof, target), chunkSize, Indices(f.mappings));
  }

  /** Any of the commands were applied. */
  ghost predicate Interrupted(f: File, target: nat, chunkSize: nat, gone: set<nat>, eof: nat, g: File) {
    (eof == f.eof || eof == target) && g == Partial(f, eof, gone, Min(f.eof, target), chunkSize)
  }

  /** The commands stopped midway: a shrink moves the EOF first, a grow last, and detaches go in index order. */
  ghost predicate Stopped(f: File, target: nat, chunkSize: nat, gone: set<nat>, eof: nat, g: File) {
    && Interrupted(f, target, chunkSize, gone, eof, g)
    && (exists cut :: 0 <= cut <= |f.mappings| && gone == Indices(f.mappings[..cut]))
    && if target < f.eof then eof == f.eof ==> gone == {} else eof == target ==> gone == Indices(f.mappings)
  }

  /** A shrink that stopped midway never shows the old EOF over a missing mapping. */
  lemma StoppedShrink(f: File, target: nat, chunkSize: nat, gone: set<nat>, eof: nat, g: File)
    requires target < f.eof && Stopped(f, target, chunkSize, gone, eof, g)
    ensures g == f || g.eof == target
    ensures forall m :: m in f.mappings && m.index * chunkSize < g.eof ==> m in g.mappings
  {
    if eof == f.eof {
      SparedEnds(f.mappings, |f.mappings|, target, chunkSize, gone);
      assert f.mappings[..|f.mappings|] == f.mappings;
    } else {
      forall m | m in f.mappings && m.index * chunkSize < g.eof ensures m in g.mappings {
        PartialMembers(f, gone, target, chunkSize, m);
      }
    }
  }

  /** A grow that stopped midway never shows the new EOF over a mapping from before. */
  lemma StoppedGrow(f: File, target: nat, chunkSize: nat, gone: set<nat>, eof: nat, g: File)
    requires f.eof < target && Stopped(f, target, chunkSize, gone, eof, g)
    ensures g.eof == f.eof || g == Resized(f, target, chunkSize)
  {
    ResizedIsPartial(f, target, chunkSize);
  }

  lemma InterruptedLineage(f: File, g: File, w: World, target: nat, chunkSize: nat, gone: set<nat>, eof: nat)
    requires 0 < chunkSize && Increasing(f.mappings) && Interrupted(f, target, chunkSize, gone, eof, g)
    ensures Lineage(f, g, w, chunkSize, Min(f.eof, target)) && g.eof == eof
  {
    hide ChunkAt, Spared, Alien, Raw;
    forall x: nat | x < Min(f.eof, target)
      ensures Descends(f, g, w, x / chunkSize, x % chunkSize) && SameChunkAt(f, g, x / chunkSize)
    {
      SplitOffset(x, chunkSize);
      PartialChunk(f, eof, gone, Min(f.eof, target), chunkSize, x / chunkSize);
    }
  }

  // ---- What each stage leaves readable ----

  /** The byte a reader gets is the one from before, or another mount installed it during the call. */
  ghost predicate KeepsAt(f: File, g: File, w: World, chunkSize: nat, x: nat)
    requires 0 < chunkSize
  {
    || FileByte(g, w.objects, chunkSize, x) == FileByte(f, w.objects, chunkSize, x)
    || (x < g.eof && Alien(g, w, x / chunkSize, x % chunkSize))
  }

  ghost predicate Keeps(f: File, g: File, w: World, chunkSize: nat, limit: nat)
    requires 0 < chunkSize
  {
    forall x: nat :: x < limit ==> KeepsAt(f, g, w, chunkSize, x)
  }

  /** The byte a reader gets is zero, or another mount installed it during the call. */
  ghost predicate ZeroAt(g: File, w: World, chunkSize: nat, x: nat)
    requires 0 < chunkSize
  {
    FileByte(g, w.objects, chunkSize, x) == 0 || (x < g.eof && Alien(g, w, x / chunkSize, x % chunkSize))
  }

  /** The whole effect of a size change on the bytes of the file. */
  ghost predicate Becomes(f: File, g: File, w: World, chunkSize: nat, target: nat)
    requires 0 < chunkSize
  {
    && g.eof == target
    && Keeps(f, g, w, chunkSize, Min(f.eof, target))
    && forall x: nat :: f.eof <= x ==> ZeroAt(g, w, chunkSize, x)
  }

  lemma LineageKeeps(f: File, g: File, w: World, chunkSize: nat, limit: nat)
    requires 0 < chunkSize && Lineage(f, g, w, chunkSize, limit) && limit <= f.eof && limit <= g.eof
    ensures Keeps(f, g, w, chunkSize, limit)
  {
    hide Alien, ChunkByte;
    forall x: nat | x < limit ensures KeepsAt(f, g, w, chunkSize, x) {
      assert Descends(f, g, w, x / chunkSize, x % chunkSize);
    }
  }

  /** The EOF is at a chunk edge, over a hole, or its tail was just sanitized. */
  ghost predicate Ready(f: File, w: World, eof: nat, chunkSize: nat)
    requires 0 < chunkSize
  {
    eof % chunkSize != 0 ==> forall p: nat :: eof % chunkSize <= p < chunkSize ==> Blank(f, w, eof / chunkSize, p)
  }

  lemma NoBoundaryReady(f: File, w: World, eof: nat, chunkSize: nat)
    requires 0 < chunkSize && RetainedOf(eof, chunkSize, f.mappings).None?
    ensures Ready(f, w, eof, chunkSize)
  {
  }

  lemma ReadyThen(f: File, g: File, w: World, v: World, eof: nat, chunkSize: nat)
    requires 0 < chunkSize && Ready(f, w, eof, chunkSize) && AllDescends(f, g, v) && Later(w, v)
             && f.mappings == g.mappings
    ensures Ready(g, v, eof, chunkSize)
  {
    hide Blank, Descends, ChunkAt;
    if eof % chunkSize != 0 {
      forall p: nat | eof % chunkSize <= p < chunkSize ensures Blank(g, v, eof / chunkSize, p) {
        BlankThen(f, g, w, v, eof / chunkSize, p);
      }
    }
  }

  /** The commit leaves the chunks before both ends as they are and makes holes of the rest. */
  lemma ResizedChunk(g: File, w: World, target: nat, chunkSize: nat, index: nat, p: nat)
    requires 0 < chunkSize && Increasing(g.mappings)
    ensures var h := Resized(g, target, chunkSize);
            if index * chunkSize < Min(g.eof, target)
            then ChunkByte(h, w.objects, index, p) == ChunkByte(g, w.objects, index, p) && SameChunkAt(g, h, index)
            else ChunkByte(h, w.objects, index, p) == 0
  {
    hide ChunkAt, KeepBelow, Raw;
    KeptChunk(g.mappings, Min(g.eof, target), chunkSize, index);
  }

  lemma ResizedBlank(g: File, w: World, target: nat, chunkSize: nat, index: nat, p: nat)
    requires 0 < chunkSize && Increasing(g.mappings)
    requires index * chunkSize < Min(g.eof, target) ==> Blank(g, w, index, p)
    ensures Blank(Resized(g, target, chunkSize), w, index, p)
  {
    hide ChunkAt, ChunkByte, Alien, Resized;
    ResizedChunk(g, w, target, chunkSize, index, p);
    if index * chunkSize < Min(g.eof, target) && Alien(g, w, index, p) {
      AlienStays(g, Resized(g, target, chunkSize), w, w, index, p);
    }
  }

  lemma ResizedLineage(g: File, w: World, target: nat, chunkSize: nat)
    requires 0 < chunkSize && Increasing(g.mappings)
    ensures Lineage(g, Resized(g, target, chunkSize), w, chunkSize, Min(g.eof, target))
  {
    ResizedIsPartial(g, target, chunkSize);
    InterruptedLineage(g, Resized(g, target, chunkSize), w, target, chunkSize, Indices(g.mappings), target);
  }

  lemma GrownBecomes(f: File, g: File, w: World, target: nat, chunkSize: nat)
    requires 0 < chunkSize && Increasing(g.mappings) && f.eof == g.eof < target
    requires Lineage(f, g, w, chunkSize, f.eof) && Ready(g, w, g.eof, chunkSize)
    ensures Becomes(f, Resized(g, target, chunkSize), w, chunkSize, target)
    ensures Ready(Resized(g, target, chunkSize), w, target, chunkSize)
  {
    hide ChunkByte, Alien, KeepBelow, Lineage;
    var h := Resized(g, target, chunkSize);
    ResizedLineage(g, w, target, chunkSize);
    LineageTwice(f, g, h, w, w, chunkSize, f.eof);
    LineageKeeps(f, h, w, chunkSize, f.eof);
    forall x: nat | f.eof <= x ensures ZeroAt(h, w, chunkSize, x) {
      if x < target {
        GrownBlank(g, w, target, chunkSize, x / chunkSize, x % chunkSize, x);
      }
    }
    if target % chunkSize != 0 {
      forall p: nat | target % chunkSize <= p < chunkSize ensures Blank(h, w, target / chunkSize, p) {
        SplitOffset(target, chunkSize);
        InsideChunk(target / chunkSize, p, chunkSize);
        GrownBlank(g, w, target, chunkSize, target / chunkSize, p, target / chunkSize * chunkSize + p);
      }
    }
  }

  /** Everything at or past the old end is blank after the commit. */
  lemma GrownBlank(g: File, w: World, target: nat, chunkSize: nat, index: nat, p: nat, x: nat)
    requires 0 < chunkSize && Increasing(g.mappings) && g.eof < target && Ready(g, w, g.eof, chunkSize)
    requires g.eof <= x && index == x / chunkSize && p == x % chunkSize
    ensures Blank(Resized(g, target, chunkSize), w, index, p)
  {
    hide Resized, Blank;
    SplitOffset(x, chunkSize);
    SplitOffset(g.eof, chunkSize);
    SameChunk(g.eof, x, chunkSize);
    ResizedBlank(g, w, target, chunkSize, index, p);
  }

  lemma ShrunkBecomes(f: File, g: File, w: World, target: nat, chunkSize: nat)
    requires 0 < chunkSize && g.eof == target <= f.eof && Keeps(f, g, w, chunkSize, target)
    ensures Becomes(f, g, w, chunkSize, target)
  {
    hide ChunkByte, Alien;
  }

  /** Kinds and identities of private state do not change. */
  ghost predicate SameKinds(f: File, g: File) {
    f.contents.Keys == g.contents.Keys && forall k :: k in f.contents ==>
                                                        f.contents[k].SliceList? == g.contents[k].SliceList?
  }

  /** Each step that is left applies: the identity exists and is of the right kind. */
  ghost predicate Fits(contents: map<nat, Content>, script: seq<Foreign>, n: nat) {
    forall k :: n <= k < |script| ==>
                  script[k].chunk in contents && (script[k].Appended? <==> contents[script[k].chunk].SliceList?)
  }

  function InstalledAll(f: File, steps: seq<Foreign>): File {
    if steps == [] then f else Installed(InstalledAll(f, steps[..|steps| - 1]), steps[|steps| - 1])
  }

  lemma NothingInstalled(f: File, steps: seq<Foreign>)
    requires steps == []
    ensures InstalledAll(f, steps) == f
  {
  }

  lemma InstalledPush(f: File, script: seq<Foreign>, from: nat, n: nat)
    requires from < n <= |script|
    ensures InstalledAll(f, script[from..n]) == Installed(InstalledAll(f, script[from..n - 1]), script[n - 1])
  {
    assert script[from..n][..n - from - 1] == script[from..n - 1];
  }

  lemma FitsNext(f: File, g: File, script: seq<Foreign>, n: nat)
    requires 0 < n && Fits(f.contents, script, n - 1) && SameKinds(f, g)
    ensures Fits(g.contents, script, n)
  {
  }

  /** How a remote command or transaction goes, and what its caller hears. */
  datatype Reply =
    | Done                                       // applied, and the caller knows
    | Refused                                    // not applied, and the caller knows
    | Unheard(applied: bool)                     // the reply is lost
    | Midway(cut: nat, moved: bool)              // lost, with the commands of a transaction stopped in their order
    | Broken(gone: set<nat>, moved: bool)        // a command error, with any of the commands applied

  /** Some command since reply `from` did not simply succeed. */
  ghost predicate Faulty(replies: seq<Reply>, from: nat, heard: nat) {
    exists i :: from <= i < heard && i < |replies| && replies[i] != Done
  }

  lemma FaultyStays(replies: seq<Reply>, from: nat, mid: nat, heard: nat, later: nat)
    requires from <= mid && heard <= later && Faulty(replies, mid, heard)
    ensures Faulty(replies, from, later)
  {
  }

  /** Some command since reply `from` may have been applied in part. */
  ghost predicate Doubtful(replies: seq<Reply>, from: nat, heard: nat) {
    exists i :: from <= i < heard && i < |replies| && replies[i] != Done && replies[i] != Refused
  }

  lemma DoubtfulStays(replies: seq<Reply>, from: nat, mid: nat, heard: nat, later: nat)
    requires from <= mid && heard <= later && Doubtful(replies, mid, heard)
    ensures Doubtful(replies, from, later)
  {
  }

  /** Every mapped identity has its private state. */
  ghost predicate Backed(f: File) { forall m :: m in f.mappings ==> m.chunk in f.contents }

  // ---- The size change ----

  class FileReadWriter {
    const chunkSize: nat
    const objects: Objects
    /** The authoritative state, which every metadata call reads or changes. */
    var file: File
    var authoritativeSize: nat
    var failedClosed: bool
    /** Everything other mounts will ever install, of which the first `arrived` steps have been made. */
    const script: seq<Foreign>
    var arrived: nat
    /** How this mount's commands will go, the first `heard` of which have been sent; later ones succeed. */
    const replies: seq<Reply>
    var heard: nat

    ghost predicate Valid()
      reads this
    {
      && 0 < chunkSize <= UINT32_MAX && ValidFile(file, chunkSize)
      && arrived <= |script| && Fits(file.contents, script, arrived) && heard <= |replies|
    }

    ghost function Seen(from: nat): World
      requires arrived <= |script|
      reads this
    {
      World(objects, script[..arrived], from)
    }

    method Hear() returns (reply: Reply)
      requires Valid()
      modifies `heard
      ensures Valid() && old(heard) <= heard
      ensures if old(heard) < |replies| then reply == replies[old(heard)] && heard == old(heard) + 1
              else reply == Done && heard == old(heard)
    {
      hide ValidFile, Fits;
      if heard == |replies| {
        return Done;
      }
      reply := replies[heard];
      heard := heard + 1;
    }

    /** Other mounts go on with their script, any number of steps. */
    method Race(ghost from: nat)
      requires Valid() && from <= arrived
      modifies `file, `arrived
      ensures Valid() && old(arrived) <= arrived && file == InstalledAll(old(file), script[old(arrived)..arrived])
      ensures file.eof == old(file).eof && file.mappings == old(file).mappings && SameKinds(old(file), file)
      ensures AllDescends(old(file), file, Seen(from))
    {
      hide AllDescends, ValidFile, Installed, Fits, InstalledAll;
      var stop: nat := *;
      NothingDescends(file, Seen(from));
      NothingInstalled(file, script[arrived..arrived]);
      while arrived < stop && arrived < |script|
        invariant Valid() && old(arrived) <= arrived && file == InstalledAll(old(file), script[old(arrived)..arrived])
        invariant file.eof == old(file).eof && file.mappings == old(file).mappings && SameKinds(old(file), file)
        invariant AllDescends(old(file), file, Seen(from))
      {
        ghost var before, world := file, Seen(from);
        var x := script[arrived];
        file := Installed(file, x);
        arrived := arrived + 1;
        assert script[..arrived] == world.foreign + [x];
        InstalledPush(old(file), script, old(arrived), arrived);
        InstalledValid(before, x, chunkSize);
        FitsNext(before, file, script, arrived);
        InstalledDescendsAll(before, world, x);
        AllDescendsTwice(old(file), before, file, world, Seen(from));
      }
    }

    /** The compare-and-swap loop on a COW head that flushes of other mounts keep replacing. */
    method SanitizeCow(b: Retained, ghost from: nat) returns (status: Status)
      requires Valid() && 0 < b.visiblePrefix < chunkSize && from <= arrived && Attached(file, b)
      requires b.chunk in file.contents && file.contents[b.chunk].CowHead?
      modifies `file, `arrived, `heard
      ensures Valid() && old(arrived) <= arrived && file.eof == old(file).eof && file.mappings == old(file).mappings
      ensures SameKinds(old(file), file) && old(heard) <= heard
      ensures AllSanitizes(old(file), file, Seen(from), b, chunkSize)
      ensures status == Ok ==> forall p: nat :: b.visiblePrefix <= p < chunkSize ==> Blank(file, Seen(from), b.index, p)
      ensures status != Ok ==> Faulty(replies, old(heard), heard)
    {
      hide AllSanitizes, AllDescends, ValidFile, ChunkAt, Clamp, Fits, SameKinds, InstalledAll;
      NothingDescends(file, Seen(from));
      DescendsSanitizes(file, file, Seen(from), b, chunkSize);
      SameKindsSelf(file);
      while true
        invariant Valid() && old(arrived) <= arrived && file.eof == old(file).eof && file.mappings == old(file).mappings
        invariant SameKinds(old(file), file) && old(heard) <= heard
        invariant b.chunk in file.contents && file.contents[b.chunk].CowHead?
        invariant AllSanitizes(old(file), file, Seen(from), b, chunkSize)
        decreases |script| - arrived + |replies| - heard
      {
        var head := file.contents[b.chunk];
        if head.size <= b.visiblePrefix {
          ShortHead(file, Seen(from), b, chunkSize);
          return Ok;
        }
        ghost var before, world, came := file, Seen(from), arrived;
        Race(from);
        KindsTwice(old(file), before, file, b.chunk);
        RaceSanitizes(old(file), before, file, world, Seen(from), b, chunkSize);
        if file.contents[b.chunk] == head {
          ClampSanitizes(old(file), file, Seen(from), b, chunkSize);
          ClampValid(file, b, chunkSize);
          ClampFrame(file, b, chunkSize);
          ClampKind(file, b, chunkSize);
          ClampFits(file, b, chunkSize, script, arrived);
          KindsTwice(old(file), file, Clamp(file, b, chunkSize), b.chunk);
          var reply := Hear();
          if reply.Done? {
            file := Clamp(file, b, chunkSize);
            return Ok;
          } else if reply.Unheard? {
            // The next round sees whether it was applied.
            if reply.applied {
              file := Clamp(file, b, chunkSize);
            }
          } else {
            return IOError;
          }
        } else {
          NothingInstalled(before, script[came..came]);
          assert came < arrived;
        }
      }
    }

    /** `ChunkFactory::SanitizeBoundary` for both mechanisms. */
    method SanitizeBoundary(b: Retained, ghost from: nat) returns (status: Status)
      requires Valid() && 0 < b.visiblePrefix < chunkSize && from <= arrived
      modifies `file, `arrived, `heard
      ensures Valid() && old(arrived) <= arrived && file.eof == old(file).eof && file.mappings == old(file).mappings
      ensures SameKinds(old(file), file) && old(heard) <= heard
      ensures AllSanitizes(old(file), file, Seen(from), b, chunkSize)
      ensures status == Ok && Attached(old(file), b) ==>
                forall p: nat :: b.visiblePrefix <= p < chunkSize ==> Blank(file, Seen(from), b.index, p)
      ensures status != Ok ==> Faulty(replies, old(heard), heard) || !Backed(old(file))
    {
      hide AllSanitizes, AllDescends, ValidFile, ChunkAt, Clamp, Fits, SameKinds;
      NothingDescends(file, Seen(from));
      DescendsSanitizes(file, file, Seen(from), b, chunkSize);
      KeepsIncreasing(file, chunkSize);
      SameKindsSelf(file);
      if FindChunk(file.mappings, b.index) != Some(b.chunk) {
        return Ok;
      }
      if b.chunk !in file.contents {
        ChunkAtExactly(file.mappings, b.index, b.chunk);
        return Malformed;
      }
      if file.contents[b.chunk].CowHead? {
        status := SanitizeCow(b, from);
        return;
      }
      // One RPUSHX: it succeeds, fails, or its outcome is unknown.
      ClampSanitizes(old(file), file, Seen(from), b, chunkSize);
      ClampValid(file, b, chunkSize);
      ClampFrame(file, b, chunkSize);
      ClampFits(file, b, chunkSize, script, arrived);
      var reply := Hear();
      if reply.Done? || (reply.Unheard? && reply.applied) {
        file := Clamp(file, b, chunkSize);
      }
      status := if reply.Done? then Ok else if reply.Unheard? then OutcomeUnknown else IOError;
    }

    /**
     One EOF/detach transaction.  Redis does not roll back: a lost reply may mean that the commands
     stopped midway, a command error that any of them were applied.
     */
    method CommitResize(plan: Plan, shrink: bool) returns (status: Status)
      requires Valid()
      modifies `file, `heard
      ensures Valid() && old(heard) <= heard && file.contents == old(file).contents
      ensures status == Ok ==> (if shrink then plan.target < plan.expected.eof else plan.expected.eof < plan.target)
      ensures status == Ok ==>
                && plan.expected == Precondition(old(file).eof,
                                                 SnapshotOf(old(file).eof, chunkSize, old(file).mappings))
                && file == Resized(old(file), plan.target, chunkSize)
      ensures status == OutcomeUnknown ==>
                exists gone: set<nat>, eof: nat :: Stopped(old(file), plan.target, chunkSize, gone, eof, file)
      ensures status == OutcomeUnknown || status == IOError ==>
                exists gone: set<nat>, eof: nat :: Interrupted(old(file), plan.target, chunkSize, gone, eof, file)
      ensures status != Ok && status != OutcomeUnknown && status != IOError ==> file == old(file)
      ensures status != Ok ==> file.eof == old(file).eof || file.eof == plan.target <= MAX_FILE_SIZE
      ensures status == OutcomeUnknown || status == IOError ==> Doubtful(replies, old(heard), heard)
      ensures status != Ok ==>
                || Faulty(replies, old(heard), heard)
                || !Acceptable(plan, old(file).eof, chunkSize, old(file).mappings, shrink)
    {
      hide ChunkAt, KeepBelow, Spared, ValidFile, SortByIndex, Beyond, ChunkSizePlan.Valid, Fits, Acceptable;
      SortedAlready(file, chunkSize);
      var current := ValidateCommit(plan, file.eof, chunkSize, file.mappings, shrink);
      if current.Failure? {
        return current.error;
      }
      AcceptableMeans(plan, file.eof, chunkSize, file.mappings, shrink);
      KeepsIncreasing(file, chunkSize);
      ghost var f := file;
      ResizedIsPartial(f, plan.target, chunkSize);
      PartialValid(f, plan.target, Indices(f.mappings), Min(f.eof, plan.target), chunkSize);
      var reply := Hear();
      if reply.Done? {
        file := Resized(file, plan.target, chunkSize);
        return Ok;
      }
      if reply.Refused? {
        return AlreadyExists;
      }
      // What a lost reply hides is a prefix: in a shrink the EOF moves first, in a grow last.
      var moved := if reply.Unheard? then reply.applied else reply.moved;
      var cut := if shrink && !moved then 0 else if !shrink && moved then |file.mappings|
      else if reply.Midway? then Min(reply.cut, |file.mappings|)
      else if moved then |file.mappings| else 0;
      var gone := if reply.Broken? then reply.gone else Indices(file.mappings[..cut]);
      assert file.mappings[..|file.mappings|] == file.mappings;
      var eof := if moved then plan.target else file.eof;
      PartialValid(file, eof, gone, Min(file.eof, plan.target), chunkSize);
      file := Partial(file, eof, gone, Min(file.eof, plan.target), chunkSize);
      assert Interrupted(f, plan.target, chunkSize, gone, eof, file);
      assert !reply.Broken? ==> Stopped(f, plan.target, chunkSize, gone, eof, file);
      status := if reply.Broken? then IOError else OutcomeUnknown;
    }

    /** The mappings a completed transition leaves: a copy with the detached ones removed. */
    method Remaining(mappings: seq<Mapping>, eof: nat) returns (kept: seq<Mapping>)
      requires 0 < chunkSize && eof <= MAX_FILE_SIZE
      ensures kept == KeepBelow(mappings, |mappings|, eof, chunkSize)
    {
      var layout := PlanLayout(eof, chunkSize).value;
      kept := [];
      for i := 0 to |mappings|
        invariant kept == KeepBelow(mappings, i, eof, chunkSize)
      {
        DetachedExactly(eof, chunkSize, mappings[i].index);
        if !ShouldDetach(layout, mappings[i].index) {
          kept := kept + [mappings[i]];
        }
      }
    }

    /** The chunk under the present EOF, if mapped, is sanitized; a truncate to the same size does this again. */
    method SanitizeEnd(boundary: Option<Retained>, ghost from: nat) returns (status: Status)
      requires Valid() && boundary == RetainedOf(file.eof, chunkSize, file.mappings) && from <= arrived
      modifies `file, `arrived, `heard
      ensures Valid() && file.eof == old(file).eof && file.mappings == old(file).mappings && old(arrived) <= arrived
      ensures SameKinds(old(file), file) && old(heard) <= heard
      ensures Lineage(old(file), file, Seen(from), chunkSize, old(file).eof)
      ensures status == Ok ==> Ready(file, Seen(from), file.eof, chunkSize)
      ensures status != Ok ==> Faulty(replies, old(heard), heard) || !Backed(old(file))
    {
      hide ChunkAt, ValidFile, ChunkByte, FileByte, Attached, Ready, Lineage, AllSanitizes, AllDescends, Blank;
      if boundary.None? {
        NoBoundaryReady(file, Seen(from), file.eof, chunkSize);
        NothingDescends(file, Seen(from));
        DescendsLineage(file, file, Seen(from), chunkSize, file.eof);
        return Ok;
      }
      ghost var before := file;
      SplitOffset(file.eof, chunkSize);
      RetainedAttached(file, file.eof, chunkSize);
      status := SanitizeBoundary(boundary.value, from);
      SanitizeLineage(before, file, Seen(from), boundary.value, chunkSize, before.eof);
      if status == Ok {
        HiddenReady(file, Seen(from), before.eof, boundary.value, chunkSize);
      }
    }

    /** After a lost reply or a command error: reuse only a complete transition or the untouched state. */
    method Recover(ghost before: File, mappings: seq<Mapping>, eof: nat, plan: Plan, target: nat, error: Status,
                   ghost from: nat)
      returns (status: Status)
      requires Valid() && error != Ok && target <= MAX_FILE_SIZE && eof <= MAX_FILE_SIZE && eof != target
               && from <= arrived
      requires ValidFile(before, chunkSize) && before.eof == eof && before.mappings == mappings
      requires target < eof ==> plan.boundary == RetainedOf(target, chunkSize, mappings)
      requires Lineage(before, file, Seen(from), chunkSize, Min(eof, target))
      requires file.eof == eof || file.eof == target
      requires error != OutcomeUnknown && error != IOError ==> file.eof == eof && file.mappings == mappings
      modifies `file, `arrived, `heard, `authoritativeSize, `failedClosed
      ensures Valid() && status != Ok && old(arrived) <= arrived && old(heard) <= heard
      ensures failedClosed ==> old(failedClosed) || error == OutcomeUnknown || error == IOError
      ensures failedClosed ==>
                || old(failedClosed) || Faulty(replies, old(heard), heard) || !Backed(old(file))
                || !(|| (old(file).eof == eof && old(file).mappings == mappings)
                     || (old(file).eof == target
                         && old(file).mappings == KeepBelow(mappings, |mappings|, Min(eof, target), chunkSize)))
      ensures Lineage(before, file, Seen(from), chunkSize, Min(eof, target)) && (file.eof == eof || file.eof == target)
      ensures old(authoritativeSize) == eof && !failedClosed ==> authoritativeSize == file.eof
      ensures !failedClosed ==>
                || (file.eof == eof && file.mappings == mappings)
                || (file.eof == target && file.mappings == KeepBelow(mappings, |mappings|, Min(eof, target), chunkSize))
    {
      hide ChunkAt, ValidFile, ChunkByte, FileByte, KeepBelow, Lineage, AllSanitizes;
      status := error;
      if error != OutcomeUnknown && error != IOError {
        return;
      }
      var reply := Hear();
      if !reply.Done? {
        failedClosed := true;
        return;
      }
      var expected := Remaining(mappings, Min(eof, target));
      var unchanged' := file.eof == eof && file.mappings == mappings;
      var committed := file.eof == target && file.mappings == expected;
      if !unchanged' && !committed {
        failedClosed := true;
        return;
      }
      if !committed {
        return;
      }
      authoritativeSize := file.eof;
      KeepsIncreasing(file, chunkSize);
      if target < eof && plan.boundary.Some? && FindAttached(plan.boundary.value) {
        ghost var g, world := file, Seen(from);
        SplitOffset(target, chunkSize);
        var sanitized := SanitizeBoundary(plan.boundary.value, from);
        SanitizeLineage(g, file, Seen(from), plan.boundary.value, chunkSize, target);
        LineageTwice(before, g, file, world, Seen(from), chunkSize, target);
        if sanitized != Ok {
          failedClosed := true;
          return sanitized;
        }
      }
    }

    predicate FindAttached(b: Retained)
      requires Increasing(file.mappings)
      reads this
    {
      FindChunk(file.mappings, b.index) == Some(b.chunk)
    }

    method Grow(plan: Plan, target: nat) returns (status: Status)
      requires Valid() && !failedClosed && file.eof < target <= MAX_FILE_SIZE
      requires plan == Planned(file.eof, target, chunkSize, file.mappings)
      modifies `file, `arrived, `heard, `authoritativeSize, `failedClosed
      ensures Valid() && old(arrived) <= arrived && old(heard) <= heard
      ensures status != Ok ==> Faulty(replies, old(heard), heard) || !Backed(old(file))
      ensures failedClosed ==> Doubtful(replies, old(heard), heard)
      ensures Keeps(old(file), file, Seen(old(arrived)), chunkSize, old(file).eof)
      ensures status == Ok ==>
                && Becomes(old(file), file, Seen(old(arrived)), chunkSize, target)
                && Ready(file, Seen(old(arrived)), target, chunkSize)
                && authoritativeSize == target && !failedClosed
      ensures old(authoritativeSize) == old(file).eof && !failedClosed ==> authoritativeSize == file.eof
      ensures !failedClosed ==>
                || (file.eof == old(file).eof && file.mappings == old(file).mappings)
                || (file.eof == target && file.mappings == Resized(old(file), target, chunkSize).mappings)
    {
      hide ChunkAt, ValidFile, ChunkByte, FileByte, Attached, Beyond, KeepBelow, Ready, Keeps, Becomes, Lineage,
        AllDescends, Acceptable, Faulty, Doubtful, Backed, SameKinds, Fits, InstalledAll, Stopped, Interrupted;
      ghost var from := arrived;
      var f := file;
      KeepsIncreasing(f, chunkSize);
      PlanStands(f, target, chunkSize);
      Race(from);
      ghost var f1, w1 := file, Seen(from);
      StillBacked(f, f1);
      DescendsLineage(f, f1, w1, chunkSize, f.eof);
      status := SanitizeEnd(plan.boundary, from);
      ghost var g, w2 := file, Seen(from);
      LineageTwice(f, f1, g, w1, w2, chunkSize, f.eof);
      if status != Ok {
        LineageKeeps(f, g, w2, chunkSize, f.eof);
        return;
      }
      Race(from);
      ghost var h, w3 := file, Seen(from);
      ReadyThen(g, h, w2, w3, g.eof, chunkSize);
      DescendsLineage(g, h, w3, chunkSize, f.eof);
      LineageTwice(f, g, h, w2, w3, chunkSize, f.eof);
      KeepsIncreasing(h, chunkSize);
      ghost var sent := heard;
      status := CommitResize(plan, false);
      if status != Ok {
        if file != h {
          InterruptedAnyway(h, file, w3, target, chunkSize);
          LineageTwice(f, h, file, w3, w3, chunkSize, f.eof);
        }
        ghost var known := heard;
        status := Recover(f, f.mappings, plan.expected.eof, plan, target, status, from);
        FaultyStays(replies, old(heard), sent, known, heard);
        if Doubtful(replies, sent, known) {
          DoubtfulStays(replies, old(heard), sent, known, heard);
        }
        LineageKeeps(f, file, Seen(from), chunkSize, f.eof);
        return;
      }
      GrownBecomes(f, h, w3, target, chunkSize);
      BecomesKeeps(f, file, w3, chunkSize, target);
      authoritativeSize := target;
    }

    method Shrink(plan: Plan, target: nat) returns (status: Status)
      requires Valid() && !failedClosed && target < file.eof
      requires plan == Planned(file.eof, target, chunkSize, file.mappings)
      modifies `file, `arrived, `heard, `authoritativeSize, `failedClosed
      ensures Valid() && old(arrived) <= arrived && old(heard) <= heard
      ensures status != Ok ==> Faulty(replies, old(heard), heard) || !Backed(old(file))
      ensures failedClosed ==> Doubtful(replies, old(heard), heard)
      ensures Keeps(old(file), file, Seen(old(arrived)), chunkSize, target)
      ensures status == Ok ==>
                && Becomes(old(file), file, Seen(old(arrived)), chunkSize, target)
                && Ready(file, Seen(old(arrived)), target, chunkSize)
                && authoritativeSize == target && !failedClosed
      ensures old(authoritativeSize) == old(file).eof && !failedClosed ==> authoritativeSize == file.eof
      ensures !failedClosed ==>
                || (file.eof == old(file).eof && file.mappings == old(file).mappings)
                || (file.eof == target && file.mappings == Resized(old(file), target, chunkSize).mappings)
    {
      hide ChunkAt, ValidFile, ChunkByte, FileByte, Attached, Beyond, KeepBelow, Ready, Keeps, Becomes, Lineage,
        AllDescends, AllSanitizes, Blank, Acceptable, Faulty, Doubtful, Backed, SameKinds, Fits, InstalledAll, Stopped,
        Interrupted;
      ghost var from := arrived;
      var f := file;
      KeepsIncreasing(f, chunkSize);
      PlanStands(f, target, chunkSize);
      Race(from);
      ghost var h, w1 := file, Seen(from);
      DescendsLineage(f, h, w1, chunkSize, target);
      KeepsIncreasing(h, chunkSize);
      ghost var sent := heard;
      status := CommitResize(plan, true);
      if status != Ok {
        if file != h {
          InterruptedAnyway(h, file, w1, target, chunkSize);
          LineageTwice(f, h, file, w1, w1, chunkSize, target);
        }
        ghost var known := heard;
        status := Recover(f, f.mappings, plan.expected.eof, plan, target, status, from);
        FaultyStays(replies, old(heard), sent, known, heard);
        if Doubtful(replies, sent, known) {
          DoubtfulStays(replies, old(heard), sent, known, heard);
        }
        LineageKeeps(f, file, Seen(from), chunkSize, target);
        return;
      }
      ResizedLineage(h, w1, target, chunkSize);
      LineageTwice(f, h, file, w1, w1, chunkSize, target);
      authoritativeSize := file.eof;
      StillBacked(f, h);
      if Backed(h) {
        ResizedBacked(h, target, chunkSize);
      }
      ghost var known := heard;
      status := SanitizeShrunk(f, h, plan.boundary, target, from);
      if status != Ok {
        if Faulty(replies, known, heard) {
          FaultyStays(replies, old(heard), known, heard, heard);
        }
        return;
      }
      ShrunkBecomes(f, file, Seen(from), target, chunkSize);
      authoritativeSize := target;
    }

    /** The boundary of a committed shrink, after whatever other mounts did meanwhile. */
    method SanitizeShrunk(ghost f: File, ghost h: File, boundary: Option<Retained>, target: nat, ghost from: nat)
      returns (status: Status)
      requires Valid() && from <= arrived && Increasing(h.mappings) && target < h.eof && target <= f.eof
      requires file == Resized(h, target, chunkSize) && boundary == RetainedOf(target, chunkSize, h.mappings)
      requires Lineage(f, file, Seen(from), chunkSize, target)
      modifies `file, `arrived, `heard
      ensures Valid() && old(arrived) <= arrived && old(heard) <= heard
      ensures file.eof == target && file.mappings == old(file).mappings
      ensures Keeps(f, file, Seen(from), chunkSize, target)
      ensures status == Ok ==> Ready(file, Seen(from), target, chunkSize)
      ensures status != Ok ==> Faulty(replies, old(heard), heard) || !Backed(old(file))
    {
      hide ChunkAt, ValidFile, ChunkByte, FileByte, Attached, KeepBelow, Ready, Keeps, Lineage, AllDescends,
        AllSanitizes, Blank, Faulty, Backed, SameKinds, Fits, InstalledAll;
      ghost var r, w1 := file, Seen(from);
      Race(from);
      ghost var k, w2 := file, Seen(from);
      StillBacked(r, k);
      DescendsLineage(r, k, w2, chunkSize, target);
      LineageTwice(f, r, k, w1, w2, chunkSize, target);
      if boundary.Some? {
        SplitOffset(target, chunkSize);
        ShrunkAttached(h, r, k, target, chunkSize);
        status := SanitizeBoundary(boundary.value, from);
        SanitizeLineage(k, file, Seen(from), boundary.value, chunkSize, target);
        LineageTwice(f, k, file, w2, Seen(from), chunkSize, target);
        LineageKeeps(f, file, Seen(from), chunkSize, target);
        if status == Ok {
          HiddenReady(file, Seen(from), target, boundary.value, chunkSize);
        }
      } else {
        ShrunkNoBoundary(h, k, w2, target, chunkSize);
        LineageKeeps(f, file, Seen(from), chunkSize, target);
        status := Ok;
      }
    }

    /** `CommitSizeChangeLocked`; `allowed` is the verdict of the policy checks. */
    method CommitSizeChange(target: nat, allowed: bool) returns (status: Status)
      requires Valid() && target <= MAX_FILE_SIZE
      modifies `file, `arrived, `heard, `authoritativeSize, `failedClosed
      ensures Valid() && old(arrived) <= arrived
      ensures failedClosed ==> old(failedClosed) || Doubtful(replies, old(heard), heard)
      ensures status != Ok ==> old(failedClosed) || !allowed || Faulty(replies, old(heard), heard) || !Backed(old(file))
      ensures old(failedClosed) ==> status != Ok && file == old(file)
      ensures Keeps(old(file), file, Seen(old(arrived)), chunkSize, Min(old(file).eof, target))
      ensures status == Ok ==>
                && Becomes(old(file), file, Seen(old(arrived)), chunkSize, target)
                && Ready(file, Seen(old(arrived)), target, chunkSize)
                && authoritativeSize == target
      ensures old(authoritativeSize) == old(file).eof && !failedClosed ==> authoritativeSize == file.eof
      ensures !failedClosed ==>
                || (file.eof == old(file).eof && file.mappings == old(file).mappings)
                || (file.eof == target && file.mappings == Resized(old(file), target, chunkSize).mappings)
    {
      hide ChunkAt, ValidFile, ChunkByte, FileByte, Attached, Beyond, SortByIndex, ChunkSizePlan.Valid, KeepBelow,
        Ready, Lineage, Keeps, Becomes;
      ghost var from := arrived;
      ghost var f := file;
      KeepsSelf(f, Seen(from), chunkSize, Min(f.eof, target));
      if failedClosed {
        return IOError;
      }
      if !allowed {
        return IOError;
      }
      if target == file.eof {
        // The update of the times.
        var reply := Hear();
        if !reply.Done? {
          return IOError;
        }
        status := SanitizeEnd(RetainedOf(file.eof, chunkSize, file.mappings), from);
        LineageKeeps(f, file, Seen(from), chunkSize, target);
        if status != Ok {
          return status;
        }
        ShrunkBecomes(f, file, Seen(from), target, chunkSize);
        authoritativeSize := target;
        return Ok;
      }
      SortedAlready(file, chunkSize);
      KeepsIncreasing(file, chunkSize);
      var planned := PlanSizeChange(file.eof, target, chunkSize, file.mappings);
      if planned.Failure? {
        return planned.error;
      }
      var plan := planned.value;
      if target < file.eof {
        status := Shrink(plan, target);
      } else {
        status := Grow(plan, target);
      }
    }
  }

  lemma AcceptableMeans(plan: Plan, eof: nat, chunkSize: nat, mappings: seq<Mapping>, shrink: bool)
    requires Acceptable(plan, eof, chunkSize, mappings, shrink)
    ensures if shrink then plan.target < plan.expected.eof else plan.expected.eof < plan.target
    ensures 0 < chunkSize && plan.target <= MAX_FILE_SIZE
    ensures plan.expected == Precondition(eof, SnapshotOf(eof, chunkSize, SortByIndex(mappings)))
  {
  }

  lemma SameKindsSelf(f: File)
    ensures SameKinds(f, f)
  {
  }

  lemma KindsTwice(f: File, g: File, h: File, chunk: nat)
    requires SameKinds(f, g) && SameKinds(g, h)
    ensures SameKinds(f, h)
    ensures chunk in g.contents && g.contents[chunk].CowHead? ==> chunk in h.contents && h.contents[chunk].CowHead?
  {
  }

  lemma ClampFits(f: File, b: Retained, chunkSize: u32, script: seq<Foreign>, n: nat)
    requires b.visiblePrefix < chunkSize && Fits(f.contents, script, n)
    ensures Fits(Clamp(f, b, chunkSize).contents, script, n)
  {
  }

  lemma InstalledValid(f: File, x: Foreign, chunkSize: nat)
    requires ValidFile(f, chunkSize)
    ensures ValidFile(Installed(f, x), chunkSize) && SameKinds(f, Installed(f, x))
    ensures Installed(f, x).eof == f.eof && Installed(f, x).mappings == f.mappings
  {
  }

  lemma InstalledDescendsAll(f: File, w: World, x: Foreign)
    requires w.from <= |w.foreign|
    ensures AllDescends(f, Installed(f, x), w.(foreign := w.foreign + [x]))
  {
    hide Descends;
    forall index: nat, p: nat ensures Descends(f, Installed(f, x), w.(foreign := w.foreign + [x]), index, p) {
      InstalledDescends(f, w, x, index, p);
    }
  }

  lemma ClampKind(f: File, b: Retained, chunkSize: u32)
    requires b.visiblePrefix < chunkSize && b.chunk in f.contents && f.contents[b.chunk].CowHead?
    ensures b.chunk in Clamp(f, b, chunkSize).contents && Clamp(f, b, chunkSize).contents[b.chunk].CowHead?
  {
  }

  /** A head that ends before the boundary hides everything past it. */
  lemma ShortHead(f: File, w: World, b: Retained, chunkSize: nat)
    requires Attached(f, b) && b.chunk in f.contents && f.contents[b.chunk].CowHead?
    requires f.contents[b.chunk].size <= b.visiblePrefix
    ensures forall p: nat :: b.visiblePrefix <= p < chunkSize ==> Blank(f, w, b.index, p)
  {
    hide ChunkAt, Alien;
  }

  lemma InterruptedAnyway(f: File, g: File, w: World, target: nat, chunkSize: nat)
    requires 0 < chunkSize && Increasing(f.mappings)
    requires exists gone: set<nat>, eof: nat :: Interrupted(f, target, chunkSize, gone, eof, g)
    ensures Lineage(f, g, w, chunkSize, Min(f.eof, target))
  {
    hide Lineage, Partial;
    var gone: set<nat>, eof: nat :| Interrupted(f, target, chunkSize, gone, eof, g);
    InterruptedLineage(f, g, w, target, chunkSize, gone, eof);
  }

  lemma KeepsSelf(f: File, w: World, chunkSize: nat, limit: nat)
    requires 0 < chunkSize
    ensures Keeps(f, f, w, chunkSize, limit)
  {
  }

  lemma KeepsIncreasing(f: File, chunkSize: nat)
    requires ValidFile(f, chunkSize)
    ensures Increasing(f.mappings) && f.eof <= MAX_FILE_SIZE
  {
  }

  lemma BecomesKeeps(f: File, g: File, w: World, chunkSize: nat, target: nat)
    requires 0 < chunkSize && Becomes(f, g, w, chunkSize, target)
    ensures Keeps(f, g, w, chunkSize, Min(f.eof, target))
  {
  }

  lemma HiddenReady(f: File, w: World, eof: nat, b: Retained, chunkSize: nat)
    requires 0 < chunkSize && BoundaryAt(b, eof, chunkSize)
    requires forall p: nat :: b.visiblePrefix <= p < chunkSize ==> Blank(f, w, b.index, p)
    ensures Ready(f, w, eof, chunkSize)
  {
  }

  lemma RetainedAttached(f: File, eof: nat, chunkSize: nat)
    requires 0 < chunkSize
    ensures var b := RetainedOf(eof, chunkSize, f.mappings);
            b.Some? ==> Attached(f, b.value) && BoundaryAt(b.value, eof, chunkSize)
  {
  }

  /** The retained boundary is still mapped after the shrink. */
  lemma ShrunkAttached(f: File, g: File, h: File, target: nat, chunkSize: nat)
    requires 0 < chunkSize && Increasing(f.mappings) && target < f.eof
    requires g == Resized(f, target, chunkSize) && h.mappings == g.mappings
    ensures var b := RetainedOf(target, chunkSize, f.mappings);
            b.Some? ==> Attached(h, b.value) && BoundaryAt(b.value, target, chunkSize)
  {
    SplitOffset(target, chunkSize);
    KeptChunk(f.mappings, target, chunkSize, target / chunkSize);
  }

  lemma ShrunkNoBoundary(f: File, h: File, w: World, target: nat, chunkSize: nat)
    requires 0 < chunkSize && Increasing(f.mappings) && target < f.eof
    requires RetainedOf(target, chunkSize, f.mappings).None? && h.mappings == Resized(f, target, chunkSize).mappings
    ensures Ready(h, w, target, chunkSize)
  {
    hide KeepBelow, ChunkAt, Raw, Alien;
    SplitOffset(target, chunkSize);
    KeptChunk(f.mappings, target, chunkSize, target / chunkSize);
  }

  /**
   A record that another mount appends between the cover of zeros and the commit, and has not
   yet finalized, is exposed by the grow, whose plan is still accepted.
   */
  lemma GrowExposesRacingRecord()
    ensures var objects: Objects, mappings := map[9 := [5]], [Mapping(0, 7)];
            var covered := File(1, mappings, map[7 := Sanitized(SliceList([]), 1, 4)]);
            var raced := Installed(covered, Appended(7, SR.SliceRecord(2, 9, 1, 0, 1)));
            && Ready(covered, World(objects, [], 0), 1, 4)
            && Acceptable(Planned(1, 4, 4, mappings), raced.eof, 4, raced.mappings, false)
            && FileByte(Resized(raced, 4, 4), objects, 4, 2) == 5
  {
    var objects: Objects, mappings := map[9 := [5]], [Mapping(0, 7)];
    var cover, record := ZeroCover(1, 4), SR.SliceRecord(2, 9, 1, 0, 1);
    var covered := File(1, mappings, map[7 := Sanitized(SliceList([]), 1, 4)]);
    var raced := Installed(covered, Appended(7, record));
    assert covered.contents[7].records == [cover] && raced.contents[7].records == [cover] + [record];
    assert ChunkAt(mappings, 0) == Some(7);
    forall p: nat | 1 <= p < 4 ensures Blank(covered, World(objects, [], 0), 0, p) {
      Clamps.VisiblePush([], cover, p);
      assert [] + [cover] == [cover];
    }
    Clamps.VisiblePush([cover], record, 2);
    ResizedAbove(raced, objects, 4, 4, 2);
    RacingAccepted(mappings);
  }

  lemma ResizedBacked(f: File, target: nat, chunkSize: nat)
    requires Backed(f)
    ensures Backed(Resized(f, target, chunkSize))
  {
    hide KeepBelow;
    var below := Min(f.eof, target);
    forall m | m in Resized(f, target, chunkSize).mappings ensures m.chunk in f.contents {
      KeepBelowMembers(f.mappings, |f.mappings|, below, chunkSize, m);
      assert f.mappings[..|f.mappings|] == f.mappings;
    }
  }

  lemma RacingAccepted(mappings: seq<Mapping>)
    requires mappings == [Mapping(0, 7)]
    ensures Acceptable(Planned(1, 4, 4, mappings), 1, 4, mappings, false)
  {
    PlanStands(File(1, mappings, map[]), 4, 4);
  }

  /** A plan made for a file is accepted while its end and mappings stay. */
  lemma PlanStands(f: File, target: nat, chunkSize: nat)
    requires 0 < chunkSize && ValidFile(f, chunkSize) && target <= MAX_FILE_SIZE && target != f.eof
    ensures Acceptable(Planned(f.eof, target, chunkSize, f.mappings), f.eof, chunkSize, f.mappings, target < f.eof)
  {
    SortedAlready(f, chunkSize);
    PlanAccepted(f.eof, target, chunkSize, f.mappings);
  }

  /** A chunk that is mapped and has its state keeps both through foreign steps and sanitation. */
  lemma StillBacked(f: File, g: File)
    requires SameKinds(f, g) && f.mappings == g.mappings
    ensures Backed(f) <==> Backed(g)
  {
  }

  /** The mappings of a file are kept sorted, so sorting them again changes nothing. */
  lemma SortedAlready(f: File, chunkSize: nat)
    requires ValidFile(f, chunkSize)
    ensures SortByIndex(f.mappings) == f.mappings && ChunkSizePlan.Valid(multiset(f.mappings), chunkSize)
  {
    SortOfIncreasing(f.mappings);
    IncreasingDistinct(f.mappings);
    forall m: Mapping | m in multiset(f.mappings) ensures ValidId(m.chunk) && m.index * chunkSize <= MAX_FILE_SIZE {
      assert m in f.mappings;
    }
  }

  lemma {:induction false} SortOfIncreasing(mappings: seq<Mapping>)
    requires Increasing(mappings)
    ensures SortByIndex(mappings) == mappings
  {
    hide Insert;
    if mappings != [] {
      var front, last := mappings[..|mappings| - 1], mappings[|mappings| - 1];
      SortOfIncreasing(front);
      InsertLast(front, last);
      assert SortByIndex(mappings) == Insert(front, last) == front + [last] == mappings;
    }
  }

  lemma {:induction false} InsertLast(sorted: seq<Mapping>, m: Mapping)
    requires forall k :: 0 <= k < |sorted| ==> sorted[k].index <= m.index
    ensures Insert(sorted, m) == sorted + [m]
  {
    if sorted != [] {
      InsertLast(sorted[1..], m);
    }
  }
}
