/**
 Classification of a size transition: which mappings are detached, which chunk is retained
 across an interior EOF, and whether a plan made earlier may still be committed.
 */
module ChunkSizePlan {
  import opened Common
  import opened Arithmetic

  const MAX_FILE_SIZE := INT64_MAX
  const MAX_CHUNK_ID := INT64_MAX

  datatype Mapping = Mapping(index: nat, chunk: nat)

  datatype Boundary = Boundary(index: nat, visiblePrefix: nat)

  datatype Layout = Layout(firstDetached: nat, boundary: Option<Boundary>)

  /** The chunk under an interior EOF; a missing identity is a hole. */
  datatype BoundarySnapshot = BoundarySnapshot(index: nat, chunk: Option<nat>, visiblePrefix: nat)

  datatype Retained = Retained(index: nat, chunk: nat, visiblePrefix: nat)

  datatype Precondition = Precondition(eof: nat, boundary: Option<BoundarySnapshot>)

  datatype Plan = Plan(target: nat, expected: Precondition, boundary: Option<Retained>, detached: seq<nat>)

  // ---- Layout arithmetic ----

  function PlanLayout(target: nat, chunkSize: nat): Result<Layout> {
    if chunkSize == 0 || target > MAX_FILE_SIZE then Failure(InvalidArgument)
    else
      var prefix, index := target % chunkSize, target / chunkSize;
      Success(Layout(index + if prefix == 0 then 0 else 1, if prefix == 0 then None else Some(Boundary(index, prefix))))
  }

  predicate ShouldDetach(layout: Layout, index: nat) { index >= layout.firstDetached }

  /** A mapping is detached exactly when no byte of it lies before the target. */
  lemma DetachedExactly(target: nat, chunkSize: nat, index: nat)
    requires PlanLayout(target, chunkSize).Success?
    ensures ShouldDetach(PlanLayout(target, chunkSize).value, index) <==> target <= index * chunkSize
  {
    DivideExactly(target, chunkSize);
    MultiplyOrder(index, target / chunkSize, chunkSize);
    MultiplyOrder(target / chunkSize, index, chunkSize);
    MultiplyOrder(index, target / chunkSize + 1, chunkSize);
    assert (target / chunkSize + 1) * chunkSize == target / chunkSize * chunkSize + chunkSize;
  }

  /** The retained chunk is the one whose interior the target falls into. */
  lemma BoundaryExactly(target: nat, chunkSize: nat, index: nat, prefix: nat)
    requires PlanLayout(target, chunkSize).Success?
    ensures PlanLayout(target, chunkSize).value.boundary == Some(Boundary(index, prefix)) <==>
            target == index * chunkSize + prefix && 0 < prefix < chunkSize
  {
    DivideExactly(target, chunkSize);
    if target == index * chunkSize + prefix && 0 < prefix < chunkSize {
      MultiplyOrder(index, target / chunkSize, chunkSize);
      MultiplyOrder(target / chunkSize, index, chunkSize);
    }
  }

  /** `CalculateChunkStartOffset`, with the product guarded by a division. */
  function StartOffset(index: nat, chunkSize: nat): Result<nat> {
    if chunkSize == 0 then Failure(InvalidArgument)
    else if index != 0 && chunkSize > MAX_FILE_SIZE / index then Failure(InvalidArgument)
    else Success(index * chunkSize)
  }

  /** The guard rejects exactly the products past the supported range, so nothing wraps around. */
  lemma StartOffsetExactly(index: nat, chunkSize: nat)
    requires 0 < chunkSize
    ensures StartOffset(index, chunkSize) ==
            if index * chunkSize <= MAX_FILE_SIZE then Success(index * chunkSize) else Failure(InvalidArgument)
  {
    if index != 0 {
      var q := MAX_FILE_SIZE / index;
      DivideExactly(MAX_FILE_SIZE, index);
      if chunkSize <= q {
        MultiplyOrder(q, chunkSize, index);
        assert chunkSize * index <= q * index;
        assert index * chunkSize == chunkSize * index;
      } else {
        MultiplyOrder(q, chunkSize, index);
        assert index * chunkSize == chunkSize * index;
      }
    }
  }

  // ---- Mappings ----

  predicate ValidId(chunk: nat) { 0 < chunk <= MAX_CHUNK_ID }

  ghost predicate Ordered(mappings: seq<Mapping>) {
    forall j, k :: 0 <= j < k < |mappings| ==> mappings[j].index <= mappings[k].index
  }

  /** No two mappings share an index. */
  ghost predicate Distinct(mappings: multiset<Mapping>) {
    && (forall m :: m in mappings ==> mappings[m] == 1)
    && (forall a, b :: a in mappings && b in mappings && a.index == b.index ==> a == b)
  }

  ghost predicate Valid(mappings: multiset<Mapping>, chunkSize: nat) {
    && Distinct(mappings)
    && forall m :: m in mappings ==> ValidId(m.chunk) && m.index * chunkSize <= MAX_FILE_SIZE
  }

  function Insert(sorted: seq<Mapping>, m: Mapping): (r: seq<Mapping>)
    ensures multiset(r) == multiset(sorted) + multiset{m}
  {
    if sorted == [] then [m]
    else if m.index < sorted[0].index then [m] + sorted
    else
      assert sorted == [sorted[0]] + sorted[1..];
      [sorted[0]] + Insert(sorted[1..], m)
  }

  /** `std::sort` by index. */
  function SortByIndex(mappings: seq<Mapping>): (r: seq<Mapping>)
    ensures multiset(r) == multiset(mappings)
  {
    if mappings == [] then []
    else
      assert mappings == mappings[..|mappings| - 1] + [mappings[|mappings| - 1]];
      Insert(SortByIndex(mappings[..|mappings| - 1]), mappings[|mappings| - 1])
  }

  lemma {:induction false} InsertOrdered(sorted: seq<Mapping>, m: Mapping)
    requires Ordered(sorted)
    ensures Ordered(Insert(sorted, m))
  {
    if sorted != [] && sorted[0].index <= m.index {
      var rest := Insert(sorted[1..], m);
      InsertOrdered(sorted[1..], m);
      forall k | 0 <= k < |rest| ensures sorted[0].index <= rest[k].index {
        assert rest[k] in multiset(rest);
        assert rest[k] in multiset(sorted[1..]) || rest[k] == m;
      }
    }
  }

  lemma {:induction false} SortOrdered(mappings: seq<Mapping>)
    ensures Ordered(SortByIndex(mappings))
  {
    if mappings != [] {
      SortOrdered(mappings[..|mappings| - 1]);
      InsertOrdered(SortByIndex(mappings[..|mappings| - 1]), mappings[|mappings| - 1]);
    }
  }

  ghost predicate Increasing(mappings: seq<Mapping>) {
    forall j, k :: 0 <= j < k < |mappings| ==> mappings[j].index < mappings[k].index
  }

  lemma IncreasingDistinct(sorted: seq<Mapping>)
    requires Increasing(sorted)
    ensures Distinct(multiset(sorted))
  {
    forall m: Mapping | m in multiset(sorted) ensures multiset(sorted)[m] == 1 {
      OnceIn(sorted, m);
    }
    forall a: Mapping, b: Mapping | a in multiset(sorted) && b in multiset(sorted) && a.index == b.index
      ensures a == b
    {
      assert a in sorted && b in sorted;
    }
  }

  lemma {:induction false} OnceIn(sorted: seq<Mapping>, m: Mapping)
    requires Increasing(sorted)
    ensures multiset(sorted)[m] <= 1
  {
    if sorted != [] {
      var front, last := sorted[..|sorted| - 1], sorted[|sorted| - 1];
      assert sorted == front + [last];
      OnceIn(front, m);
      assert last !in front;
      assert last !in multiset(front);
    }
  }

  lemma TwiceIn(s: seq<Mapping>, j: nat, k: nat)
    requires j < k < |s| && s[j] == s[k]
    ensures multiset(s)[s[j]] >= 2
  {
    assert s == s[..k] + s[k..];
    assert s[j] in s[..k] && s[k] in s[k..] by { assert s[..k][j] == s[j] && s[k..][0] == s[k]; }
  }

  /** The sort, then one scan for invalid identities, overflowing offsets and equal neighbours. */
  method NormalizeMappings(chunkSize: nat, mappings: seq<Mapping>) returns (r: Result<seq<Mapping>>)
    requires 0 < chunkSize
    ensures r.Success? <==> Valid(multiset(mappings), chunkSize)
    ensures r.Success? ==> r.value == SortByIndex(mappings) && Increasing(r.value)
    ensures r.Failure? ==> r.error == InvalidArgument || r.error == Malformed
  {
    hide Distinct, SortByIndex, Valid, Ordered, Increasing, StartOffset;
    var sorted := SortByIndex(mappings);
    SortOrdered(mappings);
    for i := 0 to |sorted|
      invariant FineUpTo(sorted, i, chunkSize)
    {
      var m := sorted[i];
      StartOffsetExactly(m.index, chunkSize);
      if !ValidId(m.chunk) || StartOffset(m.index, chunkSize).Failure? {
        InvalidMember(sorted, i, chunkSize);
        return Failure(InvalidArgument);
      }
      if i > 0 && sorted[i - 1].index == m.index {
        NeighboursShare(sorted, i, chunkSize);
        return Failure(Malformed);
      }
      FineNext(sorted, i, chunkSize);
    }
    FineAll(sorted, chunkSize);
    return Success(sorted);
  }

  /** The scan has accepted the first `i` entries. */
  ghost predicate FineUpTo(sorted: seq<Mapping>, i: nat, chunkSize: nat)
    requires i <= |sorted|
  {
    && (forall j, k :: 0 <= j < k < i ==> sorted[j].index < sorted[k].index)
    && (forall k :: 0 <= k < i ==> ValidId(sorted[k].chunk) && sorted[k].index * chunkSize <= MAX_FILE_SIZE)
  }

  lemma FineNext(sorted: seq<Mapping>, i: nat, chunkSize: nat)
    requires i < |sorted| && Ordered(sorted) && FineUpTo(sorted, i, chunkSize)
    requires ValidId(sorted[i].chunk) && sorted[i].index * chunkSize <= MAX_FILE_SIZE
    requires i == 0 || sorted[i - 1].index != sorted[i].index
    ensures FineUpTo(sorted, i + 1, chunkSize)
  {
  }

  lemma FineAll(sorted: seq<Mapping>, chunkSize: nat)
    requires FineUpTo(sorted, |sorted|, chunkSize)
    ensures Increasing(sorted) && Valid(multiset(sorted), chunkSize)
  {
    IncreasingDistinct(sorted);
    hide Distinct;
    forall m: Mapping | m in multiset(sorted) ensures ValidId(m.chunk) && m.index * chunkSize <= MAX_FILE_SIZE {
      assert m in sorted;
    }
  }

  lemma InvalidMember(sorted: seq<Mapping>, i: nat, chunkSize: nat)
    requires i < |sorted| && !(ValidId(sorted[i].chunk) && sorted[i].index * chunkSize <= MAX_FILE_SIZE)
    ensures !Valid(multiset(sorted), chunkSize)
  {
    assert sorted[i] in multiset(sorted);
  }

  lemma NeighboursShare(sorted: seq<Mapping>, i: nat, chunkSize: nat)
    requires 0 < i < |sorted| && sorted[i - 1].index == sorted[i].index
    ensures !Valid(multiset(sorted), chunkSize)
  {
    assert sorted[i] in multiset(sorted) && sorted[i - 1] in multiset(sorted);
    if sorted[i - 1] == sorted[i] {
      TwiceIn(sorted, i - 1, i);
    }
  }

  // ---- Reference meaning of a snapshot of mappings ----

  /** The identity mapped at an index. */
  function ChunkAt(sorted: seq<Mapping>, index: nat): Option<nat> {
    if sorted == [] then None
    else if sorted[0].index == index then Some(sorted[0].chunk)
    else ChunkAt(sorted[1..], index)
  }

  lemma {:induction false} ChunkAtExactly(sorted: seq<Mapping>, index: nat, chunk: nat)
    requires Increasing(sorted)
    ensures ChunkAt(sorted, index) == Some(chunk) <==> Mapping(index, chunk) in sorted
  {
    if sorted != [] {
      ChunkAtExactly(sorted[1..], index, chunk);
      assert sorted == [sorted[0]] + sorted[1..];
      if sorted[0].index == index {
        assert Mapping(index, chunk) !in sorted[1..];
      }
    }
  }

  /** `std::lower_bound` and the comparison after it. */
  function FindChunk(sorted: seq<Mapping>, index: nat): (r: Option<nat>)
    requires Increasing(sorted)
    ensures r == ChunkAt(sorted, index)
  {
    var at := LowerBound(sorted, index);
    FoundAt(sorted, index, at);
    if at == |sorted| || sorted[at].index != index then None else Some(sorted[at].chunk)
  }

  function LowerBound(sorted: seq<Mapping>, index: nat): (i: nat)
    requires Increasing(sorted)
    ensures i <= |sorted|
    ensures forall k :: 0 <= k < i ==> sorted[k].index < index
    ensures forall k :: i <= k < |sorted| ==> index <= sorted[k].index
  {
    if sorted == [] || index <= sorted[0].index then 0 else 1 + LowerBound(sorted[1..], index)
  }

  lemma {:induction false} FoundAt(sorted: seq<Mapping>, index: nat, at: nat)
    requires Increasing(sorted) && at <= |sorted|
    requires forall k :: 0 <= k < at ==> sorted[k].index < index
    requires forall k :: at <= k < |sorted| ==> index <= sorted[k].index
    ensures ChunkAt(sorted, index) ==
            if at == |sorted| || sorted[at].index != index then None else Some(sorted[at].chunk)
  {
    if sorted != [] {
      if at > 0 {
        FoundAt(sorted[1..], index, at - 1);
      } else if sorted[0].index != index {
        FoundAt(sorted[1..], index, 0);
      }
    }
  }

  /** The chunk an interior EOF falls into, mapped or not. */
  function SnapshotOf(eof: nat, chunkSize: nat, sorted: seq<Mapping>): Option<BoundarySnapshot>
    requires 0 < chunkSize
  {
    if eof % chunkSize == 0 then None
    else Some(BoundarySnapshot(eof / chunkSize, ChunkAt(sorted, eof / chunkSize), eof % chunkSize))
  }

  function RetainedOf(eof: nat, chunkSize: nat, sorted: seq<Mapping>): Option<Retained>
    requires 0 < chunkSize
  {
    var snapshot := SnapshotOf(eof, chunkSize, sorted);
    if snapshot.None? || snapshot.value.chunk.None? then None
    else Some(Retained(snapshot.value.index, snapshot.value.chunk.value, snapshot.value.visiblePrefix))
  }

  /** The identities wholly beyond an EOF, in index order. */
  function Beyond(sorted: seq<Mapping>, n: nat, eof: nat, chunkSize: nat): seq<nat>
    requires n <= |sorted|
  {
    if n == 0 then []
    else if eof <= sorted[n - 1].index * chunkSize then Beyond(sorted, n - 1, eof, chunkSize) + [sorted[n - 1].chunk]
    else Beyond(sorted, n - 1, eof, chunkSize)
  }

  predicate StartsBefore(m: Mapping, eof: nat, chunkSize: nat) { m.index * chunkSize < eof }

  /** The mappings those identities come from. */
  function Detaching(sorted: seq<Mapping>, n: nat, eof: nat, chunkSize: nat): seq<Mapping>
    requires n <= |sorted|
  {
    if n == 0 then []
    else if StartsBefore(sorted[n - 1], eof, chunkSize) then Detaching(sorted, n - 1, eof, chunkSize)
    else Detaching(sorted, n - 1, eof, chunkSize) + [sorted[n - 1]]
  }

  /** Mappings with a byte before `eof`. */
  function KeepBelow(mappings: seq<Mapping>, n: nat, eof: nat, chunkSize: nat): (r: seq<Mapping>)
    requires n <= |mappings|
  {
    if n == 0 then []
    else if StartsBefore(mappings[n - 1], eof, chunkSize)
    then KeepBelow(mappings, n - 1, eof, chunkSize) + [mappings[n - 1]]
    else KeepBelow(mappings, n - 1, eof, chunkSize)
  }

  lemma {:induction false} KeepBelowMembers(mappings: seq<Mapping>, n: nat, eof: nat, chunkSize: nat, m: Mapping)
    requires n <= |mappings|
    ensures m in KeepBelow(mappings, n, eof, chunkSize) <==> m in mappings[..n] && m.index * chunkSize < eof
  {
    if n > 0 {
      KeepBelowMembers(mappings, n - 1, eof, chunkSize, m);
      assert mappings[..n] == mappings[..n - 1] + [mappings[n - 1]];
    }
  }

  function Planned(eof: nat, target: nat, chunkSize: nat, sorted: seq<Mapping>): Plan
    requires 0 < chunkSize
  {
    Plan(target, Precondition(eof, SnapshotOf(eof, chunkSize, sorted)),
         if target < eof then RetainedOf(target, chunkSize, sorted)
         else if eof < target then RetainedOf(eof, chunkSize, sorted)
         else None,
         if target < eof then Beyond(sorted, |sorted|, target, chunkSize) else [])
  }

  /** `PlanChunkSizeChangeImpl`. */
  method PlanSizeChange(eof: nat, target: nat, chunkSize: nat, mappings: seq<Mapping>) returns (r: Result<Plan>)
    ensures r.Success? <==>
            0 < chunkSize && eof <= MAX_FILE_SIZE && target <= MAX_FILE_SIZE && Valid(multiset(mappings), chunkSize)
    ensures r.Success? ==> r.value == Planned(eof, target, chunkSize, SortByIndex(mappings))
    ensures r.Failure? ==> r.error == InvalidArgument || r.error == Malformed
  {
    hide Valid, ChunkAt, Beyond;
    if chunkSize == 0 || eof > MAX_FILE_SIZE || target > MAX_FILE_SIZE {
      return Failure(InvalidArgument);
    }
    var normalized := NormalizeMappings(chunkSize, mappings);
    if normalized.Failure? {
      return Failure(normalized.error);
    }
    var sorted := normalized.value;
    var oldLayout := PlanLayout(eof, chunkSize).value;
    var expected := Precondition(eof, MakeSnapshot(oldLayout.boundary, sorted));
    var plan := Plan(target, expected, None, []);
    if target < eof {
      var newLayout := PlanLayout(target, chunkSize).value;
      var detached := [];
      assert detached == Beyond(sorted, 0, target, chunkSize) by { NothingBeyond(sorted, target, chunkSize); }
      for i := 0 to |sorted|
        invariant detached == Beyond(sorted, i, target, chunkSize)
      {
        DetachedExactly(target, chunkSize, sorted[i].index);
        BeyondNext(sorted, i, target, chunkSize);
        if ShouldDetach(newLayout, sorted[i].index) {
          detached := detached + [sorted[i].chunk];
        }
      }
      plan := plan.(boundary := MakeRetained(newLayout.boundary, sorted), detached := detached);
    } else if target > eof {
      plan := plan.(boundary := MakeRetained(oldLayout.boundary, sorted));
    }
    return Success(plan);
  }

  lemma NothingBeyond(sorted: seq<Mapping>, eof: nat, chunkSize: nat)
    ensures Beyond(sorted, 0, eof, chunkSize) == []
  {
  }

  lemma BeyondNext(sorted: seq<Mapping>, i: nat, eof: nat, chunkSize: nat)
    requires i < |sorted|
    ensures Beyond(sorted, i + 1, eof, chunkSize) ==
            if eof <= sorted[i].index * chunkSize then Beyond(sorted, i, eof, chunkSize) + [sorted[i].chunk]
            else Beyond(sorted, i, eof, chunkSize)
  {
  }

  function MakeSnapshot(boundary: Option<Boundary>, sorted: seq<Mapping>): Option<BoundarySnapshot>
    requires Increasing(sorted)
  {
    if boundary.None? then None
    else Some(BoundarySnapshot(boundary.value.index, FindChunk(sorted, boundary.value.index),
                               boundary.value.visiblePrefix))
  }

  function MakeRetained(boundary: Option<Boundary>, sorted: seq<Mapping>): Option<Retained>
    requires Increasing(sorted)
  {
    var snapshot := MakeSnapshot(boundary, sorted);
    if snapshot.None? || snapshot.value.chunk.None? then None
    else Some(Retained(snapshot.value.index, snapshot.value.chunk.value, snapshot.value.visiblePrefix))
  }

  // ---- Revalidation at commit ----

  /** The claimed old boundary has the geometry of the claimed old EOF. */
  function ValidatePrecondition(expected: Precondition, chunkSize: nat): Status {
    var layout := PlanLayout(expected.eof, chunkSize);
    if layout.Failure? then layout.error
    else if layout.value.boundary.Some? != expected.boundary.Some? then InvalidArgument
    else if layout.value.boundary.None? then Ok
    else
      var boundary := expected.boundary.value;
      if boundary.index != layout.value.boundary.value.index
         || boundary.visiblePrefix != layout.value.boundary.value.visiblePrefix ||
         (boundary.chunk.Some? && !ValidId(boundary.chunk.value)) then InvalidArgument
      else Ok
  }

  /** The plan goes in the direction asked for, and its boundary fits the end it was made for. */
  ghost predicate WellPosed(requested: Plan, chunkSize: nat, shrink: bool) {
    && (if shrink then requested.target < requested.expected.eof else requested.target > requested.expected.eof)
    && 0 < chunkSize && requested.expected.eof <= MAX_FILE_SIZE
    && (requested.expected.boundary.None? <==> requested.expected.eof % chunkSize == 0)
    && (requested.expected.boundary.Some? ==>
          var b := requested.expected.boundary.value;
          && b.index == requested.expected.eof / chunkSize && b.visiblePrefix == requested.expected.eof % chunkSize
          && (b.chunk.Some? ==> ValidId(b.chunk.value)))
  }

  /** The plan's EOF and boundary are those of the file as the transaction reads it. */
  ghost predicate Acceptable(requested: Plan, actualEof: nat, chunkSize: nat, mappings: seq<Mapping>, shrink: bool) {
    && WellPosed(requested, chunkSize, shrink) && actualEof == requested.expected.eof
    && requested.target <= MAX_FILE_SIZE && Valid(multiset(mappings), chunkSize)
    && requested.expected.boundary == SnapshotOf(actualEof, chunkSize, SortByIndex(mappings))
  }

  /**
   `ValidateSizeCommitPlan`: the plan to commit is recomputed from the mappings of the transaction.
   A plan that was never good is invalid; one that was overtaken is a conflict.
   */
  method ValidateCommit(requested: Plan, actualEof: nat, chunkSize: nat, mappings: seq<Mapping>, shrink: bool)
    returns (r: Result<Plan>)
    ensures r.Success? <==> Acceptable(requested, actualEof, chunkSize, mappings, shrink)
    ensures r.Success? ==>
              0 < chunkSize && r.value == Planned(actualEof, requested.target, chunkSize, SortByIndex(mappings))
    ensures r.Failure? ==> r.error == InvalidArgument || r.error == Malformed || r.error == AlreadyExists
    ensures !WellPosed(requested, chunkSize, shrink) ==> r == Failure(InvalidArgument)
    ensures WellPosed(requested, chunkSize, shrink) && requested.target <= MAX_FILE_SIZE &&
            Valid(multiset(mappings), chunkSize) && r.Failure? ==>
              r.error == AlreadyExists
  {
    hide Valid, ChunkAt, Beyond, SortByIndex;
    if (if shrink then requested.target >= requested.expected.eof else requested.target <= requested.expected.eof) {
      return Failure(InvalidArgument);
    }
    var status := ValidatePrecondition(requested.expected, chunkSize);
    if status != Ok {
      return Failure(status);
    }
    if actualEof != requested.expected.eof {
      return Failure(AlreadyExists);
    }
    var current := PlanSizeChange(actualEof, requested.target, chunkSize, mappings);
    if current.Failure? {
      return current;
    }
    var expected, actual := requested.expected.boundary, current.value.expected.boundary;
    if expected.Some? != actual.Some? ||
       (expected.Some? && (expected.value.index != actual.value.index || expected.value.chunk != actual.value.chunk ||
                           expected.value.visiblePrefix != actual.value.visiblePrefix)) {
      return Failure(AlreadyExists);
    }
    return current;
  }

  // ---- What an accepted shrink means ----

  function Ids(mappings: seq<Mapping>): seq<nat> {
    seq(|mappings|, k requires 0 <= k < |mappings| => mappings[k].chunk)
  }

  lemma {:induction false} DetachingIds(sorted: seq<Mapping>, n: nat, eof: nat, chunkSize: nat)
    requires n <= |sorted|
    ensures Beyond(sorted, n, eof, chunkSize) == Ids(Detaching(sorted, n, eof, chunkSize))
  {
    if n > 0 {
      DetachingIds(sorted, n - 1, eof, chunkSize);
    }
  }

  /** Every mapping is either detached or kept, by the side of the end it starts on. */
  lemma {:induction false} DetachingMembers(sorted: seq<Mapping>, n: nat, eof: nat, chunkSize: nat, m: Mapping)
    requires n <= |sorted|
    ensures m in Detaching(sorted, n, eof, chunkSize) <==> m in sorted[..n] && !StartsBefore(m, eof, chunkSize)
    ensures |Detaching(sorted, n, eof, chunkSize)| + |KeepBelow(sorted, n, eof, chunkSize)| == n
  {
    hide StartsBefore;
    if n > 0 {
      DetachingMembers(sorted, n - 1, eof, chunkSize, m);
      assert sorted[..n] == sorted[..n - 1] + [sorted[n - 1]];
    }
  }

  /**
   Whatever the requested plan says, an accepted shrink splits the current mappings: those
   detached, whose identities the plan lists, have no byte before the target, and every other
   one intersects the shrunk file.  The retained boundary is the mapping, if any, that holds
   the interior end.
   */
  lemma AcceptedShrink(eof: nat, target: nat, chunkSize: nat, mappings: seq<Mapping>, plan: Plan)
    requires 0 < chunkSize && target < eof <= MAX_FILE_SIZE && Valid(multiset(mappings), chunkSize)
    requires plan == Planned(eof, target, chunkSize, SortByIndex(mappings))
    ensures var sorted := SortByIndex(mappings);
            var gone := Detaching(sorted, |sorted|, target, chunkSize);
            var kept := KeepBelow(sorted, |sorted|, target, chunkSize);
            && (forall m :: m in gone <==> m in mappings && target <= m.index * chunkSize)
            && (forall m :: m in kept <==> m in mappings && m.index * chunkSize < target)
            && |gone| + |kept| == |mappings| && plan.detached == Ids(gone)
    ensures forall b :: plan.boundary == Some(b) <==>
                        && Mapping(b.index, b.chunk) in mappings
                        && target == b.index * chunkSize + b.visiblePrefix && 0 < b.visiblePrefix < chunkSize
  {
    hide SortByIndex, Beyond, ChunkAt, Detaching, KeepBelow;
    var sorted := SortByIndex(mappings);
    SortIncreasing(mappings, chunkSize);
    SameMembers(sorted, mappings);
    assert |sorted| == |mappings| by { assert |multiset(sorted)| == |multiset(mappings)|; }
    assert sorted[..|sorted|] == sorted;
    forall m
      ensures m in Detaching(sorted, |sorted|, target, chunkSize) <==> m in mappings && target <= m.index * chunkSize
      ensures m in KeepBelow(sorted, |sorted|, target, chunkSize) <==> m in mappings && m.index * chunkSize < target
    {
      DetachingMembers(sorted, |sorted|, target, chunkSize, m);
      KeepBelowMembers(sorted, |sorted|, target, chunkSize, m);
    }
    DetachingMembers(sorted, |sorted|, target, chunkSize, Mapping(0, 0));
    DetachingIds(sorted, |sorted|, target, chunkSize);
    RetainedExactly(target, chunkSize, mappings);
  }

  /** The retained chunk is the mapping, if any, that holds the interior end. */
  lemma RetainedExactly(end: nat, chunkSize: nat, mappings: seq<Mapping>)
    requires 0 < chunkSize && end <= MAX_FILE_SIZE && Valid(multiset(mappings), chunkSize)
    ensures forall b :: RetainedOf(end, chunkSize, SortByIndex(mappings)) == Some(b) <==>
                        && Mapping(b.index, b.chunk) in mappings
                        && end == b.index * chunkSize + b.visiblePrefix && 0 < b.visiblePrefix < chunkSize
  {
    hide SortByIndex, ChunkAt;
    var sorted := SortByIndex(mappings);
    SortIncreasing(mappings, chunkSize);
    SameMembers(sorted, mappings);
    forall b: Retained
      ensures RetainedOf(end, chunkSize, sorted) == Some(b) <==>
              && Mapping(b.index, b.chunk) in mappings
              && end == b.index * chunkSize + b.visiblePrefix && 0 < b.visiblePrefix < chunkSize
    {
      BoundaryExactly(end, chunkSize, b.index, b.visiblePrefix);
      ChunkAtExactly(sorted, b.index, b.chunk);
    }
  }

  /** An accepted grow detaches nothing by name and retains the mapping, if any, that holds the old interior end. */
  lemma AcceptedGrow(eof: nat, target: nat, chunkSize: nat, mappings: seq<Mapping>, plan: Plan)
    requires 0 < chunkSize && eof < target <= MAX_FILE_SIZE && Valid(multiset(mappings), chunkSize)
    requires plan == Planned(eof, target, chunkSize, SortByIndex(mappings))
    ensures plan.target == target && plan.expected.eof == eof && plan.detached == []
    ensures forall b :: plan.boundary == Some(b) <==>
                        && Mapping(b.index, b.chunk) in mappings
                        && eof == b.index * chunkSize + b.visiblePrefix && 0 < b.visiblePrefix < chunkSize
  {
    RetainedExactly(eof, chunkSize, mappings);
  }

  /** A plan made for the present state is accepted as long as that state lasts. */
  lemma PlanAccepted(eof: nat, target: nat, chunkSize: nat, mappings: seq<Mapping>)
    requires 0 < chunkSize && eof <= MAX_FILE_SIZE && target <= MAX_FILE_SIZE && eof != target
    requires Valid(multiset(mappings), chunkSize)
    ensures Acceptable(Planned(eof, target, chunkSize, SortByIndex(mappings)), eof, chunkSize, mappings, target < eof)
  {
    hide SortByIndex, Beyond, ChunkAt, Valid, RetainedOf, SnapshotOf, ValidId;
    SnapshotFits(eof, chunkSize, mappings);
  }

  lemma SnapshotFits(eof: nat, chunkSize: nat, mappings: seq<Mapping>)
    requires 0 < chunkSize && Valid(multiset(mappings), chunkSize)
    ensures var snapshot := SnapshotOf(eof, chunkSize, SortByIndex(mappings));
            && (snapshot.None? <==> eof % chunkSize == 0)
            && (snapshot.Some? ==>
                  && snapshot.value.index == eof / chunkSize && snapshot.value.visiblePrefix == eof % chunkSize
                  && (snapshot.value.chunk.Some? ==> ValidId(snapshot.value.chunk.value)))
  {
    hide SortByIndex, ChunkAt, Valid, ValidId;
    if eof % chunkSize != 0 {
      FoundValid(mappings, chunkSize, SnapshotOf(eof, chunkSize, SortByIndex(mappings)).value.index);
    }
  }

  lemma FoundValid(mappings: seq<Mapping>, chunkSize: nat, index: nat)
    requires Valid(multiset(mappings), chunkSize)
    ensures var chunk := ChunkAt(SortByIndex(mappings), index);
            chunk.Some? ==> ValidId(chunk.value)
  {
    hide SortByIndex, ChunkAt;
    var sorted := SortByIndex(mappings);
    SortIncreasing(mappings, chunkSize);
    SameMembers(sorted, mappings);
    var chunk := ChunkAt(sorted, index);
    if chunk.Some? {
      ChunkAtExactly(sorted, index, chunk.value);
      assert Mapping(index, chunk.value) in multiset(mappings);
    }
  }

  lemma SameMembers(a: seq<Mapping>, b: seq<Mapping>)
    requires multiset(a) == multiset(b)
    ensures forall m :: m in a <==> m in b
  {
    forall m ensures m in a <==> m in b {
      assert m in a <==> m in multiset(a);
      assert m in b <==> m in multiset(b);
    }
  }

  lemma SortIncreasing(mappings: seq<Mapping>, chunkSize: nat)
    requires Valid(multiset(mappings), chunkSize)
    ensures Increasing(SortByIndex(mappings))
  {
    var sorted := SortByIndex(mappings);
    SortOrdered(mappings);
    forall j, k | 0 <= j < k < |sorted| ensures sorted[j].index < sorted[k].index {
      assert sorted[j] in multiset(sorted) && sorted[k] in multiset(sorted);
      if sorted[j].index == sorted[k].index {
        TwiceIn(sorted, j, k);
      }
    }
  }
}
