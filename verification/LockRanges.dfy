/**
 The per-owner record-lock set of the Redis lock authority: `UpdateRanges` and the
 algebra that makes it safe to replay.  A stored set is canonical, and a canonical set
 is determined by what it locks, point by point.
 */
module LockRanges {
  import opened Common

  datatype Kind = Read | Write | Unlock

  /** `[start, end)`; `end == UINT64_MAX` is the source's infinity sentinel. */
  datatype Interval = Interval(start: nat, end: nat, kind: Kind, pid: nat)

  datatype Mode = Mode(kind: Kind, pid: nat)

  predicate Overlaps(a: Interval, b: Interval) {
    a.start < b.end && b.start < a.end
  }

  predicate Holds(i: Interval, x: nat) {
    i.start <= x < i.end
  }

  /** `b` continues `a` in the same mode for the same process. */
  predicate Joins(a: Interval, b: Interval) {
    a.end == b.start && a.kind == b.kind && a.pid == b.pid
  }

  ghost predicate Ordered(rs: seq<Interval>) {
    && (forall i :: 0 <= i < |rs| ==> rs[i].start < rs[i].end && rs[i].kind != Unlock)
    && (forall i, j :: 0 <= i < j < |rs| ==> rs[i].end <= rs[j].start)
  }

  ghost predicate Canonical(rs: seq<Interval>) {
    && Ordered(rs)
    && (forall i, j :: 0 <= i < |rs| && 0 <= j < |rs| && j == i + 1 ==> !Joins(rs[i], rs[j]))
  }

  /** The reference meaning of a range set: the mode, if any, in which byte `x` is locked. */
  function ModeAt(rs: seq<Interval>, x: nat): Option<Mode> {
    if rs == [] then None
    else if Holds(rs[0], x) then Some(Mode(rs[0].kind, rs[0].pid))
    else ModeAt(rs[1..], x)
  }

  // ---- UpdateRanges as a function, and as the loops of the source ----

  /** What is left of `part` outside the requested interval. */
  function CutOne(part: Interval, request: Interval): seq<Interval> {
    if !Overlaps(part, request) then [part]
    else
      (if part.start < request.start then [part.(end := request.start)] else []) +
      (if request.end < part.end then [part.(start := request.end)] else [])
  }

  function Cut(rs: seq<Interval>, request: Interval): seq<Interval> {
    if rs == [] then [] else Cut(rs[..|rs| - 1], request) + CutOne(rs[|rs| - 1], request)
  }

  /** Insert into a sequence sorted by start. */
  function Insert(rs: seq<Interval>, x: Interval): seq<Interval> {
    if rs == [] || rs[|rs| - 1].start <= x.start then rs + [x]
    else Insert(rs[..|rs| - 1], x) + [rs[|rs| - 1]]
  }

  /** `std::sort` by start; the sets it is applied to have distinct starts. */
  function SortByStart(rs: seq<Interval>): seq<Interval> {
    if rs == [] then [] else Insert(SortByStart(rs[..|rs| - 1]), rs[|rs| - 1])
  }

  function Extend(rs: seq<Interval>, part: Interval): seq<Interval> {
    if rs != [] && Joins(rs[|rs| - 1], part)
    then rs[..|rs| - 1] + [rs[|rs| - 1].(end := part.end)]
    else rs + [part]
  }

  function Merged(parts: seq<Interval>): seq<Interval> {
    if parts == [] then [] else Extend(Merged(parts[..|parts| - 1]), parts[|parts| - 1])
  }

  function Updated(rs: seq<Interval>, request: Interval): seq<Interval> {
    var kept := Cut(rs, request);
    Merged(SortByStart(if request.kind == Unlock then kept else kept + [request]))
  }

  /** First pass: drop the requested bytes from every old interval. */
  method CutRanges(rs: seq<Interval>, request: Interval) returns (parts: seq<Interval>)
    ensures parts == Cut(rs, request)
  {
    parts := [];
    for i := 0 to |rs|
      invariant parts == Cut(rs[..i], request)
    {
      assert rs[..i + 1][..i] == rs[..i];
      if !Overlaps(rs[i], request) {
        parts := parts + [rs[i]];
      } else {
        if rs[i].start < request.start {
          parts := parts + [rs[i].(end := request.start)];
        }
        if request.end < rs[i].end {
          parts := parts + [rs[i].(start := request.end)];
        }
      }
    }
    assert rs[..|rs|] == rs;
  }

  /** Last pass: join touching intervals of one mode and process. */
  method MergeRanges(sorted: seq<Interval>) returns (next: seq<Interval>)
    ensures next == Merged(sorted)
  {
    next := [];
    for i := 0 to |sorted|
      invariant next == Merged(sorted[..i])
    {
      assert sorted[..i + 1][..i] == sorted[..i];
      if next != [] && Joins(next[|next| - 1], sorted[i]) {
        next := next[..|next| - 1] + [next[|next| - 1].(end := sorted[i].end)];
      } else {
        next := next + [sorted[i]];
      }
    }
    assert sorted[..|sorted|] == sorted;
  }

  /** Cut, sort, merge: the requested mode exactly on the requested interval, in canonical form. */
  method UpdateRanges(rs: seq<Interval>, request: Interval) returns (next: seq<Interval>)
    requires Canonical(rs) && request.start < request.end
    ensures next == Updated(rs, request)
    ensures Canonical(next)
    ensures forall x: nat ::
              ModeAt(next, x) ==
              if !Holds(request, x) then ModeAt(rs, x)
              else if request.kind == Unlock then None
              else Some(Mode(request.kind, request.pid))
  {
    hide Canonical, ModeAt, Cut, Merged, SortByStart;
    var parts := CutRanges(rs, request);
    if request.kind != Unlock {
      parts := parts + [request];
    }
    next := MergeRanges(SortByStart(parts));
    UpdatedMeaning(rs, request);
  }

  // ---- Lemmas ----

  lemma {:induction false} ModeAtConcat(a: seq<Interval>, b: seq<Interval>, x: nat)
    ensures ModeAt(a + b, x) == if ModeAt(a, x).Some? then ModeAt(a, x) else ModeAt(b, x)
  {
    if a == [] {
      assert a + b == b;
    } else {
      assert (a + b)[1..] == a[1..] + b;
      ModeAtConcat(a[1..], b, x);
    }
  }

  lemma ModeAtLast(rs: seq<Interval>, x: nat)
    requires rs != []
    ensures ModeAt(rs, x) ==
            if ModeAt(rs[..|rs| - 1], x).Some? then ModeAt(rs[..|rs| - 1], x)
            else if Holds(rs[|rs| - 1], x) then Some(Mode(rs[|rs| - 1].kind, rs[|rs| - 1].pid))
            else None
  {
    assert rs == rs[..|rs| - 1] + [rs[|rs| - 1]];
    ModeAtConcat(rs[..|rs| - 1], [rs[|rs| - 1]], x);
  }

  /** A locked byte lies in some interval of the set, in that interval's mode. */
  lemma {:induction false} ModeAtWitness(rs: seq<Interval>, x: nat) returns (k: nat)
    requires ModeAt(rs, x).Some?
    ensures k < |rs| && Holds(rs[k], x) && ModeAt(rs, x) == Some(Mode(rs[k].kind, rs[k].pid))
  {
    if Holds(rs[0], x) {
      k := 0;
    } else {
      k := ModeAtWitness(rs[1..], x);
      k := k + 1;
    }
  }

  lemma {:induction false} ModeAtMember(rs: seq<Interval>, k: nat, x: nat)
    requires Ordered(rs) && k < |rs| && Holds(rs[k], x)
    ensures ModeAt(rs, x) == Some(Mode(rs[k].kind, rs[k].pid))
  {
    if k > 0 {
      assert rs[0].end <= rs[k].start;
      ModeAtMember(rs[1..], k - 1, x);
    }
  }

  ghost predicate Below(rs: seq<Interval>, m: nat) {
    forall i :: 0 <= i < |rs| ==> rs[i].end <= m
  }

  ghost predicate Above(rs: seq<Interval>, m: nat) {
    forall i :: 0 <= i < |rs| ==> m <= rs[i].start
  }

  lemma OrderedConcat(a: seq<Interval>, b: seq<Interval>, m: nat)
    requires Ordered(a) && Ordered(b) && Below(a, m) && Above(b, m)
    ensures Ordered(a + b)
  {
    var c := a + b;
    forall i, j | 0 <= i < j < |c| ensures c[i].end <= c[j].start {
      if j < |a| {
        assert c[i] == a[i] && c[j] == a[j];
      } else if i >= |a| {
        assert c[i] == b[i - |a|] && c[j] == b[j - |a|];
      } else {
        assert c[i] == a[i] && c[j] == b[j - |a|];
      }
    }
  }

  lemma OrderedFront(rs: seq<Interval>)
    requires Ordered(rs) && rs != []
    ensures Ordered(rs[..|rs| - 1]) && Below(rs[..|rs| - 1], rs[|rs| - 1].start)
    ensures rs[|rs| - 1].start < rs[|rs| - 1].end && rs[|rs| - 1].kind != Unlock
  {
  }

  /** Cutting keeps order, frees exactly the requested bytes and moves nothing outside the old bounds. */
  lemma {:induction false} CutOrdered(rs: seq<Interval>, request: Interval)
    requires Ordered(rs) && request.start < request.end
    ensures Ordered(Cut(rs, request))
    ensures forall c :: c in Cut(rs, request) ==> !Overlaps(c, request)
    ensures rs != [] ==> Below(Cut(rs, request), rs[|rs| - 1].end)
  {
    if rs != [] {
      hide Ordered;
      var front, last := rs[..|rs| - 1], rs[|rs| - 1];
      OrderedFront(rs);
      CutOrdered(front, request);
      var a, b := Cut(front, request), CutOne(last, request);
      CutOneOrdered(last, request);
      assert Below(a, last.start) by {
        if front != [] { assert front[|front| - 1].end <= last.start; }
      }
      OrderedConcat(a, b, last.start);
    }
  }

  lemma CutOneOrdered(part: Interval, request: Interval)
    requires part.start < part.end && request.start < request.end && part.kind != Unlock
    ensures Ordered(CutOne(part, request))
    ensures Above(CutOne(part, request), part.start) && Below(CutOne(part, request), part.end)
    ensures forall c :: c in CutOne(part, request) ==> !Overlaps(c, request)
  {
  }

  lemma CutOneAt(part: Interval, request: Interval, x: nat)
    requires part.start < part.end && request.start < request.end
    ensures ModeAt(CutOne(part, request), x) ==
            if Holds(part, x) && !Holds(request, x) then Some(Mode(part.kind, part.pid)) else None
  {
    var left := if part.start < request.start then [part.(end := request.start)] else [];
    var right := if request.end < part.end then [part.(start := request.end)] else [];
    ModeAtConcat(left, right, x);
  }

  lemma {:induction false} CutAt(rs: seq<Interval>, request: Interval, x: nat)
    requires Ordered(rs) && request.start < request.end
    ensures ModeAt(Cut(rs, request), x) == if Holds(request, x) then None else ModeAt(rs, x)
  {
    if rs != [] {
      var front, last := rs[..|rs| - 1], rs[|rs| - 1];
      CutAt(front, request, x);
      ModeAtLast(rs, x);
      CutOneAt(last, request, x);
      ModeAtConcat(Cut(front, request), CutOne(last, request), x);
    }
  }

  ghost predicate Avoids(rs: seq<Interval>, q: Interval) {
    forall i :: 0 <= i < |rs| ==> !Overlaps(rs[i], q)
  }

  lemma {:induction false} InsertOrdered(rs: seq<Interval>, q: Interval, m: nat)
    requires Ordered(rs) && q.start < q.end <= m && q.kind != Unlock && Avoids(rs, q) && Below(rs, m)
    ensures Ordered(Insert(rs, q)) && Below(Insert(rs, q), m)
  {
    if rs == [] {
    } else {
      hide Ordered;
      OrderedFront(rs);
      var front, last := rs[..|rs| - 1], rs[|rs| - 1];
      assert !Overlaps(last, q);
      if last.start <= q.start {
        assert Below(rs, q.start);
        OrderedOne(q);
        OrderedConcat(rs, [q], q.start);
      } else {
        InsertOrdered(front, q, last.start);
        OrderedOne(last);
        OrderedConcat(Insert(front, q), [last], last.start);
      }
    }
  }

  lemma OrderedOne(q: Interval)
    requires q.start < q.end && q.kind != Unlock
    ensures Ordered([q])
  {
  }

  lemma {:induction false} InsertAt(rs: seq<Interval>, q: Interval, x: nat)
    requires Avoids(rs, q)
    ensures ModeAt(Insert(rs, q), x) == if Holds(q, x) then Some(Mode(q.kind, q.pid)) else ModeAt(rs, x)
  {
    if rs == [] || rs[|rs| - 1].start <= q.start {
      ModeAtConcat(rs, [q], x);
      AvoidsAt(rs, q, x);
    } else {
      var front, last := rs[..|rs| - 1], rs[|rs| - 1];
      InsertAt(front, q, x);
      ModeAtLast(rs, x);
      ModeAtConcat(Insert(front, q), [last], x);
      AvoidsAt(front, q, x);
      assert !Overlaps(last, q);
    }
  }

  lemma {:induction false} AvoidsAt(rs: seq<Interval>, q: Interval, x: nat)
    requires Avoids(rs, q)
    ensures Holds(q, x) ==> ModeAt(rs, x) == None
  {
    if rs != [] {
      assert !Overlaps(rs[0], q);
      AvoidsAt(rs[1..], q, x);
    }
  }

  lemma InsertAtEnd(rs: seq<Interval>, q: Interval)
    requires rs == [] || rs[|rs| - 1].start <= q.start
    ensures Insert(rs, q) == rs + [q]
  {
  }

  lemma {:induction false} SortOfOrdered(rs: seq<Interval>)
    requires Ordered(rs)
    ensures SortByStart(rs) == rs
  {
    if rs != [] {
      hide Ordered, Insert;
      var front, last := rs[..|rs| - 1], rs[|rs| - 1];
      OrderedFront(rs);
      SortOfOrdered(front);
      assert SortByStart(rs) == Insert(front, last);
      assert front != [] ==> front[|front| - 1].start <= last.start by {
        if front != [] { OrderedFront(front); }
      }
      InsertAtEnd(front, last);
      assert rs == front + [last];
    }
  }

  lemma ExtendCanonical(rs: seq<Interval>, part: Interval)
    requires Canonical(rs) && part.start < part.end && part.kind != Unlock
    requires rs != [] ==> rs[|rs| - 1].end <= part.start
    ensures Canonical(Extend(rs, part))
    ensures Extend(rs, part) != [] && Extend(rs, part)[|Extend(rs, part)| - 1].end == part.end
  {
    var next := Extend(rs, part);
    var n := |next| - 1;
    forall i | 0 <= i < n ensures next[i] == rs[i] && next[i].end <= next[n].start {
      assert rs[i].end <= rs[|rs| - 1].end;
    }
  }

  lemma ExtendAt(rs: seq<Interval>, part: Interval, x: nat)
    requires Ordered(rs) && part.start < part.end
    requires rs != [] ==> rs[|rs| - 1].end <= part.start
    ensures ModeAt(Extend(rs, part), x) ==
            if ModeAt(rs, x).Some? then ModeAt(rs, x)
            else if Holds(part, x) then Some(Mode(part.kind, part.pid))
            else None
  {
    if rs != [] && Joins(rs[|rs| - 1], part) {
      ModeAtLast(rs, x);
      ModeAtConcat(rs[..|rs| - 1], [rs[|rs| - 1].(end := part.end)], x);
    } else {
      ModeAtConcat(rs, [part], x);
    }
  }

  lemma {:induction false} MergedCanonical(parts: seq<Interval>)
    requires Ordered(parts)
    ensures Canonical(Merged(parts))
    ensures parts != [] ==> Merged(parts) != [] && Merged(parts)[|Merged(parts)| - 1].end == parts[|parts| - 1].end
    ensures parts == [] ==> Merged(parts) == []
  {
    if parts != [] {
      MergedCanonical(parts[..|parts| - 1]);
      ExtendCanonical(Merged(parts[..|parts| - 1]), parts[|parts| - 1]);
    }
  }

  lemma {:induction false} MergedAt(parts: seq<Interval>, x: nat)
    requires Ordered(parts)
    ensures ModeAt(Merged(parts), x) == ModeAt(parts, x)
  {
    if parts != [] {
      var front, last := parts[..|parts| - 1], parts[|parts| - 1];
      MergedAt(front, x);
      MergedCanonical(front);
      ModeAtLast(parts, x);
      ExtendAt(Merged(front), last, x);
    }
  }

  /** What the sort pass sees is ordered, and it is the cut set with the request put in place. */
  lemma SortedParts(rs: seq<Interval>, request: Interval)
    requires Ordered(rs) && request.start < request.end
    ensures Avoids(Cut(rs, request), request)
    ensures var kept := Cut(rs, request);
            var sorted := SortByStart(if request.kind == Unlock then kept else kept + [request]);
            Ordered(sorted) && sorted == if request.kind == Unlock then kept else Insert(kept, request)
  {
    var kept := Cut(rs, request);
    CutOrdered(rs, request);
    SortOfOrdered(kept);
    if request.kind != Unlock {
      assert (kept + [request])[..|kept|] == kept;
      var m := if rs == [] then request.end else Max(rs[|rs| - 1].end, request.end);
      InsertOrdered(kept, request, m);
    }
  }

  lemma UpdatedCanonical(rs: seq<Interval>, request: Interval)
    requires Ordered(rs) && request.start < request.end
    ensures Canonical(Updated(rs, request))
  {
    SortedParts(rs, request);
    var kept := Cut(rs, request);
    MergedCanonical(SortByStart(if request.kind == Unlock then kept else kept + [request]));
  }

  /** The requested mode holds exactly on the requested interval; every other byte keeps its mode. */
  lemma UpdatedAt(rs: seq<Interval>, request: Interval, x: nat)
    requires Ordered(rs) && request.start < request.end
    ensures ModeAt(Updated(rs, request), x) ==
            if !Holds(request, x) then ModeAt(rs, x)
            else if request.kind == Unlock then None
            else Some(Mode(request.kind, request.pid))
  {
    var kept := Cut(rs, request);
    SortedParts(rs, request);
    CutAt(rs, request, x);
    MergedAt(SortByStart(if request.kind == Unlock then kept else kept + [request]), x);
    if request.kind != Unlock {
      InsertAt(kept, request, x);
    }
  }

  lemma UpdatedMeaning(rs: seq<Interval>, request: Interval)
    requires Canonical(rs) && request.start < request.end
    ensures Canonical(Updated(rs, request))
    ensures forall x: nat ::
              ModeAt(Updated(rs, request), x) ==
              if !Holds(request, x) then ModeAt(rs, x)
              else if request.kind == Unlock then None
              else Some(Mode(request.kind, request.pid))
  {
    UpdatedCanonical(rs, request);
    forall x: nat {
      UpdatedAt(rs, request, x);
    }
  }

  lemma FirstPoint(rs: seq<Interval>)
    requires Ordered(rs) && rs != []
    ensures ModeAt(rs, rs[0].start) == Some(Mode(rs[0].kind, rs[0].pid))
    ensures forall x: nat :: x < rs[0].start ==> ModeAt(rs, x) == None
    ensures forall x: nat :: x < rs[0].end ==> ModeAt(rs[1..], x) == None
  {
    forall x: nat | x < rs[0].start ensures ModeAt(rs, x) == None {
      if ModeAt(rs, x).Some? {
        var k := ModeAtWitness(rs, x);
      }
    }
    forall x: nat | x < rs[0].end ensures ModeAt(rs[1..], x) == None {
      if ModeAt(rs[1..], x).Some? {
        var k := ModeAtWitness(rs[1..], x);
      }
    }
  }

  /** In a canonical set the byte after the first interval is free or differently locked. */
  lemma FirstEnd(rs: seq<Interval>)
    requires Canonical(rs) && rs != []
    ensures ModeAt(rs, rs[0].end) != Some(Mode(rs[0].kind, rs[0].pid))
  {
    if ModeAt(rs, rs[0].end).Some? {
      var k := ModeAtWitness(rs, rs[0].end);
      assert k > 0;
      assert rs[1].start == rs[0].end;
      assert !Joins(rs[0], rs[1]);
    }
  }

  /** Canonical form is unique: two canonical sets that lock the same bytes alike are equal. */
  lemma {:induction false} CanonicalUnique(a: seq<Interval>, b: seq<Interval>)
    requires Canonical(a) && Canonical(b)
    requires forall x: nat :: ModeAt(a, x) == ModeAt(b, x)
    ensures a == b
  {
    if a == [] || b == [] {
      if a != [] { FirstPoint(a); }
      if b != [] { FirstPoint(b); }
    } else {
      FirstPoint(a);
      FirstPoint(b);
      FirstEnd(a);
      FirstEnd(b);
      assert a[0].start == b[0].start;
      ModeAtMember(a, 0, a[0].start);
      assert a[0] == b[0];
      forall x: nat ensures ModeAt(a[1..], x) == ModeAt(b[1..], x) {
        assert ModeAt(a, x) == ModeAt(b, x);
        if x < a[0].end {
          assert ModeAt(a[1..], x) == None && ModeAt(b[1..], x) == None;
        }
      }
      CanonicalUnique(a[1..], b[1..]);
      assert a == [a[0]] + a[1..];
      assert b == [b[0]] + b[1..];
    }
  }

  /** Replaying a request whose outcome was lost leaves the stored set exactly as it was. */
  lemma UpdatedIdempotent(rs: seq<Interval>, request: Interval)
    requires Canonical(rs) && request.start < request.end
    ensures Updated(Updated(rs, request), request) == Updated(rs, request)
  {
    var once := Updated(rs, request);
    UpdatedCanonical(rs, request);
    UpdatedCanonical(once, request);
    forall x: nat ensures ModeAt(Updated(once, request), x) == ModeAt(once, x) {
      UpdatedAt(rs, request, x);
      UpdatedAt(once, request, x);
    }
    CanonicalUnique(Updated(once, request), once);
  }

  /** A later unlock of the whole range erases every trace of an earlier request. */
  lemma UnlockAllEmpties(rs: seq<Interval>, request: Interval)
    requires Canonical(rs) && request.kind == Unlock && request.start == 0 && 0 < request.end
    requires forall x: nat :: request.end <= x ==> ModeAt(rs, x) == None
    ensures Updated(rs, request) == []
  {
    var next := Updated(rs, request);
    UpdatedCanonical(rs, request);
    if next != [] {
      FirstPoint(next);
      UpdatedAt(rs, request, next[0].start);
    }
  }
}
