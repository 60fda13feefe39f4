/**
 Reading a Slice chunk: the ordered record history of one ChunkID and `ResolveRange`,
 which turns it into read spans.  The specification is last writer wins, byte by byte;
 the code walks the history from newest to oldest over an ordered map of uncovered gaps.
 */
module SliceRecords {
  import opened Common

  /** One entry of the history; identity zero is a cover of zeros without an object. */
  datatype SliceRecord = SliceRecord(pos: u32, id: nat, size: u32, off: u32, len: u32)

  datatype ResolvedSlice = ResolvedSlice(pos: u32, id: nat, off: u32, len: u32)

  datatype Gap = Gap(start: u32, end: u32)

  predicate ValidRecord(r: SliceRecord, chunkSize: u32) {
    && 0 < r.len && r.pos < chunkSize && r.len <= chunkSize - r.pos
    && if r.id == 0 then r.size == 0 && r.off == 0
       else r.id <= INT64_MAX && r.size != 0 && r.off <= r.size && r.len <= r.size - r.off
  }

  /** The record covers bytes of the chunk, and an object, if it names one, has all of them. */
  ghost predicate Sensible(r: SliceRecord, chunkSize: nat) {
    && r.pos < r.pos + r.len <= chunkSize
    && (r.id == 0 ==> r.size == 0 && r.off == 0)
    && (r.id != 0 ==> r.id <= INT64_MAX && r.off + r.len <= r.size)
  }

  lemma ValidExactly(r: SliceRecord, chunkSize: u32)
    ensures ValidRecord(r, chunkSize) <==> Sensible(r, chunkSize)
  {
  }

  // ---- Specification: last writer wins ----

  /** Where a byte of the chunk comes from. */
  datatype Source = Zero | Object(id: nat, at: nat)

  predicate Covers(r: SliceRecord, p: nat) {
    r.pos <= p < r.pos + r.len
  }

  function SourceIn(r: SliceRecord, p: nat): Source
    requires Covers(r, p)
  {
    if r.id == 0 then Zero else Object(r.id, r.off + (p - r.pos))
  }

  function Visible(records: seq<SliceRecord>, p: nat): Source {
    if records == [] then Zero
    else if Covers(records[|records| - 1], p) then SourceIn(records[|records| - 1], p)
    else Visible(records[..|records| - 1], p)
  }

  predicate Within(s: ResolvedSlice, p: nat) {
    s.pos <= p < s.pos + s.len
  }

  function SpanSource(s: ResolvedSlice, p: nat): Source
    requires Within(s, p)
  {
    if s.id == 0 then Zero else Object(s.id, s.off + (p - s.pos))
  }

  function End(s: ResolvedSlice): nat { s.pos + s.len }

  /** Nonempty spans laid end to end from `lo` to `hi`. */
  ghost predicate Tiles(spans: seq<ResolvedSlice>, lo: nat, hi: nat) {
    && (forall k :: 0 <= k < |spans| ==> 0 < spans[k].len)
    && (forall j, k :: 0 <= j < |spans| && 0 <= k < |spans| && k == j + 1 ==> End(spans[j]) == spans[k].pos)
    && (if spans == [] then lo == hi else spans[0].pos == lo && End(spans[|spans| - 1]) == hi)
  }

  /** Two touching spans that one object range, or one run of zeros, would describe. */
  predicate Mergeable(a: ResolvedSlice, b: ResolvedSlice) {
    End(a) == b.pos && a.id == b.id && (b.id == 0 || a.off + a.len == b.off)
  }

  ghost predicate Coalesced(spans: seq<ResolvedSlice>) {
    && (forall k :: 0 <= k < |spans| && spans[k].id == 0 ==> spans[k].off == 0)
    && (forall j, k :: 0 <= j < |spans| && 0 <= k < |spans| && k == j + 1 ==> !Mergeable(spans[j], spans[k]))
  }

  /** Every byte of every span is the byte the history makes visible there. */
  ghost predicate Presents(spans: seq<ResolvedSlice>, records: seq<SliceRecord>) {
    forall k, p :: 0 <= k < |spans| && Within(spans[k], p) ==> SpanSource(spans[k], p) == Visible(records, p)
  }

  // ---- The gap map ----

  ghost predicate GapsOk(gaps: seq<Gap>, lo: nat, hi: nat) {
    && (forall k :: 0 <= k < |gaps| ==> lo <= gaps[k].start < gaps[k].end <= hi)
    && (forall j, k :: 0 <= j < k < |gaps| ==> gaps[j].end <= gaps[k].start)
  }

  predicate InGap(g: Gap, p: nat) { g.start <= p < g.end }

  ghost predicate InGaps(gaps: seq<Gap>, p: nat) {
    exists k :: 0 <= k < |gaps| && InGap(gaps[k], p)
  }

  ghost predicate InSpans(spans: seq<ResolvedSlice>, p: nat) {
    exists k :: 0 <= k < |spans| && Within(spans[k], p)
  }

  /** `std::map::lower_bound`. */
  function LowerBound(gaps: seq<Gap>, x: nat): (i: nat)
    requires forall j, k :: 0 <= j < k < |gaps| ==> gaps[j].start < gaps[k].start
    ensures i <= |gaps|
    ensures forall k :: 0 <= k < i ==> gaps[k].start < x
    ensures forall k :: i <= k < |gaps| ==> x <= gaps[k].start
  {
    if gaps == [] || x <= gaps[0].start then 0 else 1 + LowerBound(gaps[1..], x)
  }

  /** Where the walk over the gaps starts: the gap before `upper_bound` if it reaches past `x`. */
  function FirstReaching(gaps: seq<Gap>, x: nat): (i: nat)
    requires forall j, k :: 0 <= j < k < |gaps| ==> gaps[j].start < gaps[k].start && gaps[j].end <= gaps[k].start
    ensures i <= |gaps|
    ensures forall k :: 0 <= k < i ==> gaps[k].end <= x
    ensures i < |gaps| ==> x < gaps[i].end || x < gaps[i].start
  {
    var upper := LowerBound(gaps, x + 1);
    if upper != 0 && x < gaps[upper - 1].end then upper - 1 else upper
  }

  /** Between two records of the walk: what is resolved is right, what is uncovered is still to be read. */
  ghost predicate Progress(gaps: seq<Gap>, spans: seq<ResolvedSlice>, lo: nat, hi: nat, records: seq<SliceRecord>,
                           n: nat)
    requires n <= |records|
  {
    && GapsOk(gaps, lo, hi)
    && Apart(spans, lo, hi)
    && Clear(gaps, spans)
    && (forall p: nat :: lo <= p < hi ==> InGaps(gaps, p) || InSpans(spans, p))
    && Presents(spans, records)
    && Pending(gaps, records, n)
  }

  ghost predicate Apart(spans: seq<ResolvedSlice>, lo: nat, hi: nat) {
    && (forall k :: 0 <= k < |spans| ==> lo <= spans[k].pos && 0 < spans[k].len && End(spans[k]) <= hi)
    && (forall k :: 0 <= k < |spans| && spans[k].id == 0 ==> spans[k].off == 0)
    && (forall j, k :: 0 <= j < k < |spans| ==> End(spans[j]) <= spans[k].pos || End(spans[k]) <= spans[j].pos)
  }

  ghost predicate Clear(gaps: seq<Gap>, spans: seq<ResolvedSlice>) {
    forall j, k :: 0 <= j < |gaps| && 0 <= k < |spans| ==> gaps[j].end <= spans[k].pos || End(spans[k]) <= gaps[j].start
  }

  ghost predicate Pending(gaps: seq<Gap>, records: seq<SliceRecord>, n: nat)
    requires n <= |records|
  {
    forall k, p :: 0 <= k < |gaps| && InGap(gaps[k], p) ==> Visible(records, p) == Visible(records[..n], p)
  }

  ghost predicate Misses(gaps: seq<Gap>, i: nat, r: SliceRecord) {
    forall k :: 0 <= k < i && k < |gaps| ==> gaps[k].end <= r.pos || r.pos + r.len <= gaps[k].start
  }

  // ---- One gap consumed by one record ----

  function Left(g: Gap, r: SliceRecord): seq<Gap> {
    if g.start < r.pos then [Gap(g.start, r.pos)] else []
  }

  function Right(g: Gap, r: SliceRecord): seq<Gap> {
    if r.pos + r.len < g.end then [Gap(r.pos + r.len, g.end)] else []
  }

  predicate Meets(g: Gap, r: SliceRecord) {
    g.start < g.end && g.start < r.pos + r.len && r.pos < g.end && 0 < r.len
  }

  function Split(gaps: seq<Gap>, i: nat, r: SliceRecord): seq<Gap>
    requires i < |gaps|
  {
    gaps[..i] + Left(gaps[i], r) + Right(gaps[i], r) + gaps[i + 1..]
  }

  function Taken(g: Gap, r: SliceRecord): ResolvedSlice
    requires Meets(g, r) && r.off + r.len <= UINT32_MAX
  {
    var start := Max(r.pos, g.start);
    ResolvedSlice(start, r.id, if r.id == 0 then 0 else r.off + (start - r.pos), Min(r.pos + r.len, g.end) - start)
  }

  lemma InGapsConcat(a: seq<Gap>, b: seq<Gap>, p: nat)
    ensures InGaps(a + b, p) <==> InGaps(a, p) || InGaps(b, p)
  {
    if InGaps(a, p) {
      var k :| 0 <= k < |a| && InGap(a[k], p);
      assert (a + b)[k] == a[k];
    }
    if InGaps(b, p) {
      var k :| 0 <= k < |b| && InGap(b[k], p);
      assert (a + b)[|a| + k] == b[k];
    }
  }

  lemma InSpansAppend(a: seq<ResolvedSlice>, s: ResolvedSlice, p: nat)
    ensures InSpans(a + [s], p) <==> InSpans(a, p) || Within(s, p)
  {
    if InSpans(a, p) {
      var k :| 0 <= k < |a| && Within(a[k], p);
      assert (a + [s])[k] == a[k];
    }
    if Within(s, p) {
      assert (a + [s])[|a|] == s;
    }
  }

  /** Each gap after the split lies inside a gap before it and outside the consumed part. */
  lemma SplitInside(gaps: seq<Gap>, i: nat, r: SliceRecord, j: nat) returns (k: nat)
    requires i < |gaps| && Meets(gaps[i], r) && j < |Split(gaps, i, r)|
    ensures k < |gaps|
    ensures gaps[k].start <= Split(gaps, i, r)[j].start && Split(gaps, i, r)[j].end <= gaps[k].end
    ensures k == i ==> Split(gaps, i, r)[j].end <= r.pos || r.pos + r.len <= Split(gaps, i, r)[j].start
    ensures k != i ==> Split(gaps, i, r)[j] == gaps[k]
  {
    var left, right := |Left(gaps[i], r)|, |Right(gaps[i], r)|;
    k := if j < i then j else if j < i + left + right then i else j - left - right + 1;
  }

  lemma SplitGapsOk(gaps: seq<Gap>, i: nat, r: SliceRecord, lo: nat, hi: nat)
    requires GapsOk(gaps, lo, hi) && i < |gaps| && Meets(gaps[i], r)
    ensures GapsOk(Split(gaps, i, r), lo, hi)
  {
    var next := Split(gaps, i, r);
    var left, right := |Left(gaps[i], r)|, |Right(gaps[i], r)|;
    forall k | 0 <= k < |next| ensures lo <= next[k].start < next[k].end <= hi {
      var m := SplitInside(gaps, i, r, k);
    }
    forall j, k | 0 <= j < k < |next| ensures next[j].end <= next[k].start {
      if j < i {
        if k >= i { var m := SplitInside(gaps, i, r, k); }
      } else if k >= i + left + right {
        if j < i + left + right { var m := SplitInside(gaps, i, r, j); }
      }
    }
  }

  lemma SplitInGaps(gaps: seq<Gap>, i: nat, r: SliceRecord, p: nat)
    requires i < |gaps| && Meets(gaps[i], r) && InGaps(gaps, p)
    ensures InGaps(Split(gaps, i, r), p) || (InGap(gaps[i], p) && Covers(r, p))
  {
    var k :| 0 <= k < |gaps| && InGap(gaps[k], p);
    var a, b, c, d := gaps[..i], Left(gaps[i], r), Right(gaps[i], r), gaps[i + 1..];
    InGapsConcat(a + b + c, d, p);
    InGapsConcat(a + b, c, p);
    InGapsConcat(a, b, p);
    if k < i {
      assert InGap(a[k], p);
    } else if k > i {
      assert InGap(d[k - i - 1], p);
    } else if p < r.pos {
      assert InGap(b[0], p);
    } else if r.pos + r.len <= p {
      assert InGap(c[0], p);
    }
  }

  lemma VisibleLast(records: seq<SliceRecord>, n: nat, p: nat)
    requires n < |records|
    ensures Visible(records[..n + 1], p) ==
            if Covers(records[n], p) then SourceIn(records[n], p) else Visible(records[..n], p)
  {
    assert records[..n + 1][..n] == records[..n];
  }

  /** The inner loop's step keeps the walk's invariant. */
  lemma SplitProgress(gaps: seq<Gap>, spans: seq<ResolvedSlice>, i: nat, lo: nat, hi: nat, records: seq<SliceRecord>,
                      n: nat)
    requires n < |records| && i < |gaps| && records[n].off + records[n].len <= UINT32_MAX
    requires Progress(gaps, spans, lo, hi, records, n + 1) && Meets(gaps[i], records[n])
    ensures Progress(Split(gaps, i, records[n]), spans + [Taken(gaps[i], records[n])], lo, hi, records, n + 1)
  {
    hide Visible, InGaps, InSpans, Split;
    var r := records[n];
    var next, s := Split(gaps, i, r), Taken(gaps[i], r);
    SplitGapsOk(gaps, i, r, lo, hi);
    assert Clear(next, spans + [s]) && Pending(next, records, n + 1) by {
      forall j | 0 <= j < |next|
        ensures next[j].end <= s.pos || End(s) <= next[j].start
        ensures forall k :: 0 <= k < |spans| ==> next[j].end <= spans[k].pos || End(spans[k]) <= next[j].start
        ensures forall p :: InGap(next[j], p) ==> Visible(records, p) == Visible(records[..n + 1], p)
      {
        var m := SplitInside(gaps, i, r, j);
        assert m < i ==> gaps[m].end <= gaps[i].start;
        assert i < m ==> gaps[i].end <= gaps[m].start;
        forall p | InGap(next[j], p) ensures Visible(records, p) == Visible(records[..n + 1], p) {
          assert InGap(gaps[m], p);
        }
      }
    }
    forall p: nat | lo <= p < hi ensures InGaps(next, p) || InSpans(spans + [s], p) {
      InSpansAppend(spans, s, p);
      if InGaps(gaps, p) {
        SplitInGaps(gaps, i, r, p);
      }
    }
    forall p | Within(s, p) ensures SpanSource(s, p) == Visible(records, p) {
      assert InGap(gaps[i], p);
      VisibleLast(records, n, p);
    }
  }

  /** The walk continues at the first gap past the consumed part. */
  lemma SplitMisses(gaps: seq<Gap>, i: nat, r: SliceRecord, lo: nat, hi: nat) returns (at: nat)
    requires GapsOk(gaps, lo, hi) && i < |gaps| && Meets(gaps[i], r) && Misses(gaps, i, r)
    ensures GapsOk(Split(gaps, i, r), lo, hi)
    ensures at == LowerBound(Split(gaps, i, r), Min(r.pos + r.len, gaps[i].end)) <= |Split(gaps, i, r)|
    ensures Misses(Split(gaps, i, r), at, r)
    ensures at < |Split(gaps, i, r)| ==> r.pos < Split(gaps, i, r)[at].end
    ensures |Split(gaps, i, r)| - at <= |gaps| - i
    ensures r.pos + r.len >= gaps[i].end ==> |Split(gaps, i, r)| - at < |gaps| - i
  {
    SplitGapsOk(gaps, i, r, lo, hi);
    var next := Split(gaps, i, r);
    at := i + |Left(gaps[i], r)|;
    BoundAt(next, at, Min(r.pos + r.len, gaps[i].end), gaps, i, r);
    assert Misses(next, at, r) by {
      forall k | 0 <= k < at ensures next[k].end <= r.pos || r.pos + r.len <= next[k].start {
        if k < i { assert next[k] == gaps[k]; }
      }
    }
  }

  lemma BoundAt(next: seq<Gap>, at: nat, cut: nat, gaps: seq<Gap>, i: nat, r: SliceRecord)
    requires i < |gaps| && Meets(gaps[i], r) && next == Split(gaps, i, r) && at == i + |Left(gaps[i], r)|
    requires cut == Min(r.pos + r.len, gaps[i].end)
    requires exists lo, hi :: GapsOk(gaps, lo, hi)
    requires forall j, k :: 0 <= j < k < |next| ==> next[j].start < next[k].start
    ensures LowerBound(next, cut) == at
  {
    var bound := LowerBound(next, cut);
    assert at < |next| ==> cut <= next[at].start;
    assert at > 0 ==> next[at - 1].start < cut by {
      if at == i && i > 0 {
        assert next[at - 1] == gaps[i - 1] && gaps[i - 1].end <= gaps[i].start;
      }
    }
  }

  /** One record laid over the gaps it meets. */
  method Overlay(gaps: seq<Gap>, spans: seq<ResolvedSlice>, lo: nat, hi: nat, records: seq<SliceRecord>, n: nat)
    returns (gaps': seq<Gap>, spans': seq<ResolvedSlice>)
    requires n < |records| && 0 < records[n].len && records[n].off + records[n].len <= UINT32_MAX
    requires Progress(gaps, spans, lo, hi, records, n + 1)
    ensures Progress(gaps', spans', lo, hi, records, n)
  {
    hide Visible, InGaps, InSpans, Split;
    var r := records[n];
    gaps', spans' := gaps, spans;
    var i: nat := FirstReaching(gaps', r.pos);
    while i < |gaps'| && gaps'[i].start < r.pos + r.len
      invariant i <= |gaps'|
      invariant Progress(gaps', spans', lo, hi, records, n + 1)
      invariant Misses(gaps', i, r)
      invariant i < |gaps'| ==> r.pos < gaps'[i].end
      decreases |gaps'| - i, i < |gaps'| && gaps'[i].start < r.pos + r.len
    {
      var g := gaps'[i];
      SplitProgress(gaps', spans', i, lo, hi, records, n);
      ghost var at := SplitMisses(gaps', i, r, lo, hi);
      spans' := spans' + [Taken(g, r)];
      gaps' := Split(gaps', i, r);
      i := LowerBound(gaps', Min(r.pos + r.len, g.end));
    }
    forall k, p | 0 <= k < |gaps'| && InGap(gaps'[k], p) ensures Visible(records, p) == Visible(records[..n], p) {
      assert !Covers(r, p);
      VisibleLast(records, n, p);
    }
  }

  // ---- Address order ----

  function Insert(spans: seq<ResolvedSlice>, s: ResolvedSlice): seq<ResolvedSlice> {
    if spans == [] || spans[|spans| - 1].pos <= s.pos then spans + [s]
    else Insert(spans[..|spans| - 1], s) + [spans[|spans| - 1]]
  }

  /** `std::sort` by position; the spans it is applied to are disjoint. */
  function SortByPos(spans: seq<ResolvedSlice>): seq<ResolvedSlice> {
    if spans == [] then [] else Insert(SortByPos(spans[..|spans| - 1]), spans[|spans| - 1])
  }

  ghost predicate InOrder(spans: seq<ResolvedSlice>) {
    forall j, k :: 0 <= j < k < |spans| ==> End(spans[j]) <= spans[k].pos
  }

  ghost predicate SameSpans(a: seq<ResolvedSlice>, b: seq<ResolvedSlice>) {
    forall s :: s in a <==> s in b
  }

  ghost predicate Avoids(spans: seq<ResolvedSlice>, s: ResolvedSlice) {
    forall k :: 0 <= k < |spans| ==> 0 < spans[k].len && (End(spans[k]) <= s.pos || End(s) <= spans[k].pos)
  }

  lemma {:induction false} InsertInOrder(spans: seq<ResolvedSlice>, s: ResolvedSlice)
    requires InOrder(spans) && Avoids(spans, s) && 0 < s.len
    ensures InOrder(Insert(spans, s))
    ensures SameSpans(Insert(spans, s), spans + [s])
  {
    if spans != [] && s.pos < spans[|spans| - 1].pos {
      var front, last := spans[..|spans| - 1], spans[|spans| - 1];
      InsertInOrder(front, s);
      assert spans == front + [last];
      var head := Insert(front, s);
      forall k | 0 <= k < |head| ensures End(head[k]) <= last.pos {
        assert head[k] in front + [s];
      }
    }
  }

  lemma {:induction false} SortInOrder(spans: seq<ResolvedSlice>, lo: nat, hi: nat)
    requires Apart(spans, lo, hi)
    ensures InOrder(SortByPos(spans))
    ensures SameSpans(SortByPos(spans), spans)
  {
    if spans != [] {
      var front, last := spans[..|spans| - 1], spans[|spans| - 1];
      SortInOrder(front, lo, hi);
      var sorted := SortByPos(front);
      forall k | 0 <= k < |sorted|
        ensures 0 < sorted[k].len && (End(sorted[k]) <= last.pos || End(last) <= sorted[k].pos)
      {
        assert sorted[k] in front;
      }
      InsertInOrder(sorted, last);
      assert spans == front + [last];
    }
  }

  /** Disjoint spans in address order that leave no byte out lie end to end. */
  lemma OrderedTiles(spans: seq<ResolvedSlice>, lo: nat, hi: nat)
    requires InOrder(spans) && lo <= hi
    requires forall k :: 0 <= k < |spans| ==> lo <= spans[k].pos && 0 < spans[k].len && End(spans[k]) <= hi
    requires forall p: nat :: lo <= p < hi ==> InSpans(spans, p)
    ensures Tiles(spans, lo, hi)
  {
    if spans == [] {
      assert lo < hi ==> InSpans(spans, lo);
    } else {
      assert InSpans(spans, lo) by { assert lo < hi; }
      var last := spans[|spans| - 1];
      assert End(last) < hi ==> InSpans(spans, End(last));
      forall j, k | 0 <= j < |spans| && 0 <= k < |spans| && k == j + 1 ensures End(spans[j]) == spans[k].pos {
        assert End(spans[j]) < spans[k].pos ==> InSpans(spans, End(spans[j]));
      }
    }
  }

  // ---- Coalescing ----

  function Append(spans: seq<ResolvedSlice>, s: ResolvedSlice): seq<ResolvedSlice>
    requires End(s) <= UINT32_MAX
  {
    if spans != [] && Mergeable(spans[|spans| - 1], s)
    then spans[..|spans| - 1] + [spans[|spans| - 1].(len := End(s) - spans[|spans| - 1].pos)]
    else spans + [s]
  }

  lemma AppendKeeps(spans: seq<ResolvedSlice>, s: ResolvedSlice, lo: nat, hi: nat, records: seq<SliceRecord>)
    requires 0 < s.len && End(s) <= UINT32_MAX && (s.id == 0 ==> s.off == 0)
    requires Tiles(spans, lo, s.pos) && Coalesced(spans) && Presents(spans, records)
    requires forall p :: Within(s, p) ==> SpanSource(s, p) == Visible(records, p)
    ensures Tiles(Append(spans, s), lo, End(s)) && Coalesced(Append(spans, s)) && Presents(Append(spans, s), records)
  {
    hide Visible;
    var next := Append(spans, s);
    if spans != [] && Mergeable(spans[|spans| - 1], s) {
      var last := next[|next| - 1];
      forall p: nat | Within(last, p) ensures SpanSource(last, p) == Visible(records, p) {
        if p < s.pos {
          assert Within(spans[|spans| - 1], p);
        } else {
          assert Within(s, p);
        }
      }
    }
  }

  /** `AppendCoalesced` over the sorted spans. */
  method Coalesce(sorted: seq<ResolvedSlice>, lo: nat, hi: nat, ghost records: seq<SliceRecord>)
    returns (merged: seq<ResolvedSlice>)
    requires Tiles(sorted, lo, hi) && Presents(sorted, records)
    requires forall k :: 0 <= k < |sorted| ==>
                           End(sorted[k]) <= UINT32_MAX && (sorted[k].id == 0 ==> sorted[k].off == 0)
    ensures Tiles(merged, lo, hi) && Coalesced(merged) && Presents(merged, records)
  {
    hide Visible;
    merged := [];
    for i := 0 to |sorted|
      invariant Tiles(merged, lo, if i == 0 then lo else End(sorted[i - 1]))
      invariant Coalesced(merged) && Presents(merged, records)
    {
      AppendKeeps(merged, sorted[i], lo, hi, records);
      merged := Append(merged, sorted[i]);
    }
  }

  // ---- ResolveRange ----

  /** What is left uncovered reads as zeros. */
  method FillGaps(gaps: seq<Gap>, spans: seq<ResolvedSlice>, lo: nat, hi: nat, ghost records: seq<SliceRecord>,
                  ghost n: nat)
    returns (filled: seq<ResolvedSlice>)
    requires n <= |records| && (n == 0 || gaps == []) && Progress(gaps, spans, lo, hi, records, n)
    ensures Apart(filled, lo, hi) && Presents(filled, records)
    ensures forall p: nat :: lo <= p < hi ==> InSpans(filled, p)
  {
    hide InSpans, InGaps;
    filled := spans;
    for i := 0 to |gaps|
      invariant Apart(filled, lo, hi) && Presents(filled, records) && Clear(gaps[i..], filled)
      invariant forall p: nat :: lo <= p < hi ==> InGaps(gaps[i..], p) || InSpans(filled, p)
    {
      var g := gaps[i];
      var s := ResolvedSlice(g.start, 0, 0, g.end - g.start);
      forall p: nat | lo <= p < hi ensures InGaps(gaps[i + 1..], p) || InSpans(filled + [s], p) {
        InSpansAppend(filled, s, p);
        InGapsConcat([g], gaps[i + 1..], p);
        assert gaps[i..] == [g] + gaps[i + 1..];
        OneGap(g, p);
      }
      forall p | Within(s, p) ensures SpanSource(s, p) == Visible(records, p) {
        assert InGap(gaps[i], p);
      }
      assert gaps[i..][0] == g;
      filled := filled + [s];
    }
    forall p: nat | lo <= p < hi ensures InSpans(filled, p) {
      NoGaps(p);
    }
  }

  lemma OneGap(g: Gap, p: nat)
    ensures InGaps([g], p) <==> InGap(g, p)
  {
    if InGap(g, p) { assert [g][0] == g; }
  }

  lemma NoGaps(p: nat)
    ensures !InGaps([], p)
  {
  }

  lemma StartsUncovered(lo: nat, hi: nat, records: seq<SliceRecord>)
    requires lo < hi <= UINT32_MAX
    ensures Progress([Gap(lo, hi)], [], lo, hi, records, |records|)
  {
    assert records[..|records|] == records;
    forall p: nat | lo <= p < hi ensures InGaps([Gap(lo, hi)], p) {
      OneGap(Gap(lo, hi), p);
    }
  }

  method ResolveRange(records: seq<SliceRecord>, chunkSize: u32, pos: u32, len: u32)
    returns (r: Result<seq<ResolvedSlice>>)
    ensures chunkSize == 0 || chunkSize < pos + len ==> r == Failure(InvalidArgument)
    ensures 0 < chunkSize && pos + len <= chunkSize ==>
              if forall k :: 0 <= k < |records| ==> Sensible(records[k], chunkSize)
              then r.Success? && Tiles(r.value, pos, pos + len) && Coalesced(r.value) && Presents(r.value, records)
              else r == Failure(Malformed)
  {
    if chunkSize == 0 || pos > chunkSize || len > chunkSize - pos {
      return Failure(InvalidArgument);
    }
    forall k | 0 <= k < |records| ensures ValidRecord(records[k], chunkSize) <==> Sensible(records[k], chunkSize) {
      ValidExactly(records[k], chunkSize);
    }
    for i := 0 to |records|
      invariant forall k :: 0 <= k < i ==> ValidRecord(records[k], chunkSize)
    {
      if !ValidRecord(records[i], chunkSize) {
        return Failure(Malformed);
      }
    }
    if len == 0 {
      return Success([]);
    }
    var lo, hi := pos, pos + len;
    var gaps, spans := [Gap(lo, hi)], [];
    StartsUncovered(lo, hi, records);
    var n := |records|;
    while n > 0 && gaps != []
      invariant 0 <= n <= |records|
      invariant Progress(gaps, spans, lo, hi, records, n)
    {
      n := n - 1;
      gaps, spans := Overlay(gaps, spans, lo, hi, records, n);
    }
    var filled := FillGaps(gaps, spans, lo, hi, records, n);
    var sorted := SortByPos(filled);
    SortedReady(filled, sorted, lo, hi, records);
    var merged := Coalesce(sorted, lo, hi, records);
    return Success(merged);
  }

  lemma SortedReady(filled: seq<ResolvedSlice>, sorted: seq<ResolvedSlice>, lo: nat, hi: nat, records: seq<SliceRecord>)
    requires Apart(filled, lo, hi) && Presents(filled, records) && lo <= hi && sorted == SortByPos(filled)
    requires forall p: nat :: lo <= p < hi ==> InSpans(filled, p)
    ensures Tiles(sorted, lo, hi) && Presents(sorted, records)
    ensures forall k :: 0 <= k < |sorted| ==> End(sorted[k]) <= hi && (sorted[k].id == 0 ==> sorted[k].off == 0)
  {
    hide Visible, SortByPos;
    SortInOrder(filled, lo, hi);
    forall k | 0 <= k < |sorted|
      ensures lo <= sorted[k].pos && 0 < sorted[k].len && End(sorted[k]) <= hi
      ensures (sorted[k].id == 0 ==> sorted[k].off == 0)
      ensures forall p :: Within(sorted[k], p) ==> SpanSource(sorted[k], p) == Visible(records, p)
    {
      assert sorted[k] in filled;
    }
    forall p: nat | lo <= p < hi ensures InSpans(sorted, p) {
      assert InSpans(filled, p);
      var k :| 0 <= k < |filled| && Within(filled[k], p);
      assert filled[k] in sorted;
    }
    OrderedTiles(sorted, lo, hi);
  }

  // ---- The result is determined by the bytes it presents ----

  lemma {:induction false} ResolvedUnique(a: seq<ResolvedSlice>, b: seq<ResolvedSlice>, lo: nat, hi: nat,
                                          records: seq<SliceRecord>)
    requires Tiles(a, lo, hi) && Coalesced(a) && Presents(a, records)
    requires Tiles(b, lo, hi) && Coalesced(b) && Presents(b, records)
    ensures a == b
    decreases |a|
  {
    hide Visible;
    TilesBounds(a, lo, hi);
    TilesBounds(b, lo, hi);
    if a != [] && b != [] {
      assert Within(a[0], lo) && Within(b[0], lo);
      assert SpanSource(a[0], lo) == Visible(records, lo) && SpanSource(b[0], lo) == Visible(records, lo);
      assert a[0].id == b[0].id && a[0].off == b[0].off;
      NotShorter(a, b, lo, hi, records);
      NotShorter(b, a, lo, hi, records);
      assert a[0] == b[0];
      TailPresents(a, lo, hi, records);
      TailPresents(b, lo, hi, records);
      ResolvedUnique(a[1..], b[1..], End(a[0]), hi, records);
      assert a == [a[0]] + a[1..] && b == [b[0]] + b[1..];
    }
  }

  lemma {:induction false} TilesBounds(spans: seq<ResolvedSlice>, lo: nat, hi: nat)
    requires Tiles(spans, lo, hi)
    ensures spans != [] ==> lo < End(spans[0]) <= hi
    ensures spans == [] <==> lo == hi
    decreases |spans|
  {
    if |spans| > 1 {
      TailTiles(spans, lo, hi);
      TilesBounds(spans[1..], End(spans[0]), hi);
    }
  }

  lemma TailTiles(spans: seq<ResolvedSlice>, lo: nat, hi: nat)
    requires Tiles(spans, lo, hi) && spans != []
    ensures Tiles(spans[1..], End(spans[0]), hi)
  {
  }

  lemma TailPresents(spans: seq<ResolvedSlice>, lo: nat, hi: nat, records: seq<SliceRecord>)
    requires Tiles(spans, lo, hi) && spans != [] && Coalesced(spans) && Presents(spans, records)
    ensures Tiles(spans[1..], End(spans[0]), hi) && Coalesced(spans[1..]) && Presents(spans[1..], records)
  {
    hide Visible;
  }

  /** A first span cannot stop where the other result's first span still runs on. */
  lemma NotShorter(a: seq<ResolvedSlice>, b: seq<ResolvedSlice>, lo: nat, hi: nat, records: seq<SliceRecord>)
    requires Tiles(a, lo, hi) && Coalesced(a) && Presents(a, records) && a != []
    requires Tiles(b, lo, hi) && Coalesced(b) && Presents(b, records) && b != []
    requires a[0].id == b[0].id && a[0].off == b[0].off
    ensures End(b[0]) <= End(a[0])
  {
    hide Visible;
    if End(a[0]) < End(b[0]) {
      TilesBounds(b, lo, hi);
      var p := End(a[0]);
      assert |a| > 1 && Within(a[1], p);
      assert SpanSource(a[1], p) == Visible(records, p);
      SourceAtEnd(a[0], a[1], b[0]);
      assert false;
    }
  }

  /** A span that continues a longer one with the same source merges with what it continues. */
  lemma SourceAtEnd(first: ResolvedSlice, next: ResolvedSlice, longer: ResolvedSlice)
    requires End(first) == next.pos && next.len > 0 && first.len > 0
    requires longer.pos == first.pos && longer.id == first.id && longer.off == first.off && End(first) < End(longer)
    ensures SpanSource(next, next.pos) == SpanSource(longer, next.pos) <==> Mergeable(first, next)
  {
  }
}
