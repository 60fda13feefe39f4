/**
 Frozen generations and their coalescing into one read-modify-write candidate per 1 MiB
 window (`PrepareWindowCandidates`).
 */
module Windows {
  import opened Common
  import opened DirtyRanges
  import opened Layers

  const WINDOW := 1024 * 1024

  /**
   How far a candidate got.  A staged record has left the mount: it sits in a private index or
   is an append whose reply is unknown.  A landed one is in the attached history.
   */
  datatype Progress = Untouched | Prepared | Staged(len: nat) | Landed(len: nat)

  /** `FrozenSlice`. */
  datatype FrozenSlice = FrozenSlice(pos: nat, payload: seq<byte>, visibleLen: nat, eofLen: nat, windowGroup: bool,
                                     progress: Progress)

  ghost predicate Sized(c: FrozenSlice) { c.visibleLen <= |c.payload| && c.eofLen == c.visibleLen }

  ghost predicate AllSized(slices: seq<FrozenSlice>) { forall k :: 0 <= k < |slices| ==> Sized(slices[k]) }

  function VisibleEnd(c: FrozenSlice): nat { c.pos + c.visibleLen }

  function EofEnd(c: FrozenSlice): nat { c.pos + Min(c.eofLen, c.visibleLen) }

  /** The bytes a candidate contributes to every overlay. */
  function Layer(c: FrozenSlice): (r: Piece)
    ensures r.start == c.pos
  {
    Piece(c.pos, c.payload[..Min(c.visibleLen, |c.payload|)])
  }

  function LayersOf(slices: seq<FrozenSlice>): (r: seq<Piece>)
    ensures |r| == |slices| && forall k :: 0 <= k < |r| ==> r[k] == Layer(slices[k])
  {
    seq(|slices|, k requires 0 <= k < |slices| => Layer(slices[k]))
  }

  lemma LayersOfPush(slices: seq<FrozenSlice>, c: FrozenSlice, p: nat)
    ensures LayersOf(slices + [c]) == LayersOf(slices) + [Layer(c)]
    ensures Latest(LayersOf(slices + [c]), p) ==
            if Holds(Layer(c), p) then Some(Layer(c).bytes[p - c.pos]) else Latest(LayersOf(slices), p)
  {
    LatestPush(LayersOf(slices), Layer(c), p);
  }

  lemma LayersOfConcat(a: seq<FrozenSlice>, b: seq<FrozenSlice>)
    ensures LayersOf(a + b) == LayersOf(a) + LayersOf(b)
  {
  }

  // ---- Which candidates are coalesced ----

  function Base(c: FrozenSlice): nat { c.pos / WINDOW * WINDOW }

  /** A small range inside one window whose publication has not begun. */
  predicate Eligible(c: FrozenSlice) {
    && c.visibleLen != 0 && !c.windowGroup && c.progress.Untouched?
    && c.visibleLen < WINDOW && c.visibleLen <= Base(c) + WINDOW - c.pos
  }

  /** Shorter than a window, in one window from its first byte to its last, new, and not a window's candidate. */
  ghost predicate Small(c: FrozenSlice) {
    && 0 < c.visibleLen < WINDOW && c.pos / WINDOW == (VisibleEnd(c) - 1) / WINDOW
    && c.progress == Untouched && !c.windowGroup
  }

  /** Another small range lies in the same window. */
  ghost predicate Crowded(pending: seq<FrozenSlice>, i: nat)
    requires i < |pending|
  {
    && Small(pending[i])
    && exists j :: 0 <= j < |pending| && j != i && Small(pending[j]) && SameWindow(pending[i], pending[j])
  }

  predicate SameWindow(a: FrozenSlice, b: FrozenSlice) { a.pos / WINDOW == b.pos / WINDOW }

  lemma EligibleExactly(c: FrozenSlice)
    ensures Eligible(c) <==> Small(c)
  {
  }

  predicate Member(c: FrozenSlice, base: nat) { Eligible(c) && Base(c) == base }

  function MemberCount(pending: seq<FrozenSlice>, base: nat): nat {
    if pending == [] then 0
    else MemberCount(pending[..|pending| - 1], base) + if Member(pending[|pending| - 1], base) then 1 else 0
  }

  lemma {:induction false} CountedOne(pending: seq<FrozenSlice>, base: nat)
    ensures MemberCount(pending, base) > 0 <==> exists i :: 0 <= i < |pending| && Member(pending[i], base)
  {
    hide Member;
    if pending != [] {
      var front := pending[..|pending| - 1];
      CountedOne(front, base);
      if i :| 0 <= i < |front| && Member(front[i], base) {
        assert pending[i] == front[i];
      }
    }
  }

  /** A window counts at least two members exactly when one of them has another beside it. */
  lemma {:induction false} CountedTwo(pending: seq<FrozenSlice>, base: nat, i: nat)
    requires i < |pending| && Member(pending[i], base)
    ensures MemberCount(pending, base) >= 2 <==>
            exists j :: 0 <= j < |pending| && j != i && Member(pending[j], base)
  {
    hide Member;
    var n := |pending| - 1;
    var front := pending[..n];
    assert forall j :: 0 <= j < n ==> front[j] == pending[j];
    CountedOne(front, base);
    if i < n {
      CountedTwo(front, base, i);
    }
  }

  lemma CrowdedExactly(pending: seq<FrozenSlice>, i: nat)
    requires i < |pending|
    ensures Eligible(pending[i]) && MemberCount(pending, Base(pending[i])) >= 2 <==> Crowded(pending, i)
  {
    hide MemberCount, Small, Eligible;
    forall j | 0 <= j < |pending|
      ensures Eligible(pending[j]) <==> Small(pending[j])
      ensures Base(pending[i]) == Base(pending[j]) <==> SameWindow(pending[i], pending[j])
    {
      EligibleExactly(pending[j]);
    }
    if Eligible(pending[i]) {
      CountedTwo(pending, Base(pending[i]), i);
    }
  }

  /** `GroupBuild`. */
  datatype Group = Group(base: nat, pos: nat, recordEnd: nat, dirtyEnd: nat, insertAfter: nat, intervalCount: nat)

  /** A group covers its members tightly. */
  ghost predicate Groups(g: Group, pending: seq<FrozenSlice>) {
    && g.intervalCount == MemberCount(pending, g.base) && g.insertAfter < |pending|
    && g.dirtyEnd == g.recordEnd
    && (forall i :: 0 <= i < |pending| && Member(pending[i], g.base) ==>
                      g.pos <= pending[i].pos && VisibleEnd(pending[i]) <= g.recordEnd && i <= g.insertAfter)
    && (exists i :: 0 <= i < |pending| && Member(pending[i], g.base) && pending[i].pos == g.pos)
    && (exists i :: 0 <= i < |pending| && Member(pending[i], g.base) && VisibleEnd(pending[i]) == g.recordEnd)
  }

  ghost predicate Ascending(groups: seq<Group>) {
    forall j, k :: 0 <= j < k < |groups| ==> groups[j].base < groups[k].base
  }

  /** `groups.find(base)` on the ordered map. */
  function Find(groups: seq<Group>, base: nat): (i: nat)
    requires Ascending(groups)
    ensures i <= |groups|
    ensures forall k :: 0 <= k < i ==> groups[k].base < base
    ensures forall k :: i <= k < |groups| ==> base <= groups[k].base
  {
    if groups == [] || base <= groups[0].base then 0 else 1 + Find(groups[1..], base)
  }

  predicate HasBase(groups: seq<Group>, base: nat) { exists k :: 0 <= k < |groups| && groups[k].base == base }

  ghost predicate Grouped(groups: seq<Group>, pending: seq<FrozenSlice>) {
    && Ascending(groups)
    && (forall k :: 0 <= k < |groups| ==> Groups(groups[k], pending))
    && (forall i :: 0 <= i < |pending| && Eligible(pending[i]) ==> HasBase(groups, Base(pending[i])))
  }

  function Widen(g: Group, c: FrozenSlice, i: nat): Group {
    g.(pos := Min(g.pos, c.pos), recordEnd := Max(g.recordEnd, VisibleEnd(c)),
    dirtyEnd := Max(g.dirtyEnd, VisibleEnd(c)),
    insertAfter := Max(g.insertAfter, i), intervalCount := g.intervalCount + 1)
  }

  lemma GroupsUnrelated(g: Group, pending: seq<FrozenSlice>, c: FrozenSlice)
    requires Groups(g, pending) && !Member(c, g.base)
    ensures Groups(g, pending + [c])
  {
    var more := pending + [c];
    assert more[..|pending|] == pending;
    var i :| 0 <= i < |pending| && Member(pending[i], g.base) && pending[i].pos == g.pos;
    var j :| 0 <= j < |pending| && Member(pending[j], g.base) && VisibleEnd(pending[j]) == g.recordEnd;
    assert more[i] == pending[i] && more[j] == pending[j];
  }

  lemma GroupsWidened(g: Group, pending: seq<FrozenSlice>, c: FrozenSlice)
    requires Groups(g, pending) && Member(c, g.base)
    ensures Groups(Widen(g, c, |pending|), pending + [c])
  {
    var more := pending + [c];
    assert more[..|pending|] == pending && more[|pending|] == c;
    var i :| 0 <= i < |pending| && Member(pending[i], g.base) && pending[i].pos == g.pos;
    var j :| 0 <= j < |pending| && Member(pending[j], g.base) && VisibleEnd(pending[j]) == g.recordEnd;
    assert more[i] == pending[i] && more[j] == pending[j];
  }

  lemma {:induction false} NoMembers(pending: seq<FrozenSlice>, base: nat)
    ensures MemberCount(pending, base) == 0 <==> forall i :: 0 <= i < |pending| ==> !Member(pending[i], base)
    decreases |pending|
  {
    if pending != [] {
      var front := pending[..|pending| - 1];
      NoMembers(front, base);
      assert forall i :: 0 <= i < |front| ==> front[i] == pending[i];
    }
  }

  lemma GroupsFirst(pending: seq<FrozenSlice>, c: FrozenSlice)
    requires Eligible(c) && forall i :: 0 <= i < |pending| ==> !Member(pending[i], Base(c))
    ensures Groups(Group(Base(c), c.pos, VisibleEnd(c), VisibleEnd(c), |pending|, 1), pending + [c])
  {
    var more := pending + [c];
    NoMembers(pending, Base(c));
    assert more[..|pending|] == pending && more[|pending|] == c;
  }

  /** One pending candidate enters the group map. */
  method Enter(groups: seq<Group>, pending: seq<FrozenSlice>, c: FrozenSlice) returns (next: seq<Group>)
    requires Grouped(groups, pending)
    ensures Grouped(next, pending + [c])
  {
    hide Groups, MemberCount, Member;
    var base := Base(c);
    var at := Find(groups, base);
    if !Eligible(c) {
      next := groups;
      EnterNothing(groups, pending, c);
    } else if at < |groups| && groups[at].base == base {
      next := groups[at := Widen(groups[at], c, |pending|)];
      EnterWidened(groups, pending, c, at);
    } else {
      var first := Group(base, c.pos, VisibleEnd(c), VisibleEnd(c), |pending|, 1);
      next := Inserted(groups, at, first);
      EnterFirst(groups, pending, c, at);
    }
  }

  lemma EnterNothing(groups: seq<Group>, pending: seq<FrozenSlice>, c: FrozenSlice)
    requires Grouped(groups, pending) && !Eligible(c)
    ensures Grouped(groups, pending + [c])
  {
    hide Groups, HasBase;
    forall k | 0 <= k < |groups| ensures Groups(groups[k], pending + [c]) {
      GroupsUnrelated(groups[k], pending, c);
    }
  }

  lemma EnterWidened(groups: seq<Group>, pending: seq<FrozenSlice>, c: FrozenSlice, at: nat)
    requires Grouped(groups, pending) && Eligible(c) && at < |groups| && groups[at].base == Base(c)
    ensures Grouped(groups[at := Widen(groups[at], c, |pending|)], pending + [c])
  {
    hide Groups;
    var next := groups[at := Widen(groups[at], c, |pending|)];
    forall k | 0 <= k < |next| ensures Groups(next[k], pending + [c]) {
      if k == at {
        GroupsWidened(groups[at], pending, c);
      } else {
        GroupsUnrelated(groups[k], pending, c);
      }
    }
    forall i | 0 <= i < |pending| + 1 && Eligible((pending + [c])[i]) ensures HasBase(next, Base((pending + [c])[i])) {
      if i < |pending| {
        var k :| 0 <= k < |groups| && groups[k].base == Base(pending[i]);
        assert next[k].base == Base(pending[i]);
      } else {
        assert next[at].base == Base(c);
      }
    }
  }

  ghost predicate Around(groups: seq<Group>, at: nat, base: nat) {
    && at <= |groups|
    && (forall k :: 0 <= k < at ==> groups[k].base < base)
    && (forall k :: at <= k < |groups| ==> base < groups[k].base)
  }

  function Inserted(groups: seq<Group>, at: nat, g: Group): seq<Group>
    requires at <= |groups|
  {
    groups[..at] + [g] + groups[at..]
  }

  lemma InsertedAscending(groups: seq<Group>, at: nat, g: Group)
    requires Ascending(groups) && Around(groups, at, g.base)
    ensures Ascending(Inserted(groups, at, g))
  {
  }

  lemma InsertedBase(groups: seq<Group>, at: nat, g: Group, base: nat)
    requires at <= |groups|
    ensures HasBase(Inserted(groups, at, g), base) <==> HasBase(groups, base) || g.base == base
  {
    var next := Inserted(groups, at, g);
    assert next[at] == g;
    assert forall k :: 0 <= k < at ==> next[k] == groups[k];
    assert forall k :: at <= k < |groups| ==> next[k + 1] == groups[k];
    if HasBase(groups, base) {
      var k :| 0 <= k < |groups| && groups[k].base == base;
      assert next[if k < at then k else k + 1].base == base;
    }
  }

  lemma NotYet(groups: seq<Group>, pending: seq<FrozenSlice>, at: nat, base: nat)
    requires Grouped(groups, pending) && Around(groups, at, base)
    ensures forall i :: 0 <= i < |pending| ==> !Member(pending[i], base)
  {
    hide Groups;
    assert !HasBase(groups, base);
  }

  lemma EnterFirst(groups: seq<Group>, pending: seq<FrozenSlice>, c: FrozenSlice, at: nat)
    requires Grouped(groups, pending) && Eligible(c) && Around(groups, at, Base(c))
    ensures Grouped(Inserted(groups, at, Group(Base(c), c.pos, VisibleEnd(c), VisibleEnd(c), |pending|, 1)),
                    pending + [c])
  {
    hide Groups, HasBase;
    var first := Group(Base(c), c.pos, VisibleEnd(c), VisibleEnd(c), |pending|, 1);
    var next, more := Inserted(groups, at, first), pending + [c];
    InsertedAscending(groups, at, first);
    forall k | 0 <= k < |next| ensures Groups(next[k], more) {
      if k == at {
        NotYet(groups, pending, at, Base(c));
        GroupsFirst(pending, c);
      } else {
        var j := if k < at then k else k - 1;
        assert next[k] == groups[j];
        GroupsUnrelated(groups[j], pending, c);
      }
    }
    forall i | 0 <= i < |more| && Eligible(more[i]) ensures HasBase(next, Base(more[i])) {
      InsertedBase(groups, at, first, Base(more[i]));
    }
  }

  /** The first loop: every eligible candidate joins the group of its window. */
  method GroupWindows(pending: seq<FrozenSlice>) returns (groups: seq<Group>)
    ensures Grouped(groups, pending)
  {
    hide Groups;
    groups := [];
    for i := 0 to |pending|
      invariant Grouped(groups, pending[..i])
    {
      groups := Enter(groups, pending[..i], pending[i]);
      assert pending[..i + 1] == pending[..i] + [pending[i]];
    }
    assert pending[..|pending|] == pending;
  }

  /** `std::erase_if`: a lone interval is already a valid slice. */
  function Fragmented(groups: seq<Group>): (r: seq<Group>)
    ensures forall g :: g in r ==> g in groups && g.intervalCount >= 2
    ensures forall g :: g in groups && g.intervalCount >= 2 ==> g in r
  {
    if groups == [] then []
    else (if groups[|groups| - 1].intervalCount >= 2 then Fragmented(groups[..|groups| - 1]) + [groups[|groups| - 1]]
          else Fragmented(groups[..|groups| - 1]))
  }

  lemma {:induction false} FragmentedAscending(groups: seq<Group>)
    requires Ascending(groups)
    ensures Ascending(Fragmented(groups))
    decreases |groups|
  {
    if groups != [] {
      var front, last := groups[..|groups| - 1], groups[|groups| - 1];
      FragmentedAscending(front);
      forall k | 0 <= k < |Fragmented(front)| ensures Fragmented(front)[k].base < last.base {
        assert Fragmented(front)[k] in front;
      }
    }
  }

  // ---- One hydrated candidate per group ----

  datatype Built = Built(base: nat, slice: FrozenSlice, insertAfter: nat)

  /** The byte an overlay shows: the newest layer's, or the committed one underneath. */
  function Shown(below: byte, layers: seq<Piece>, p: nat): byte {
    if Latest(layers, p).Some? then Latest(layers, p).value else below
  }

  ghost predicate Hydrated(payload: seq<byte>, pos: nat, pending: seq<FrozenSlice>, image: seq<byte>) {
    && pos + |payload| <= |image|
    && forall p: nat :: pos <= p < pos + |payload| ==> payload[p - pos] == Shown(image[p], LayersOf(pending), p)
  }

  /** No pending candidate after index `last` reaches into `[pos, end)`. */
  ghost predicate LastOverlap(pending: seq<FrozenSlice>, pos: nat, end: nat, last: nat) {
    forall i :: last < i < |pending| ==>
                  end <= pending[i].pos || VisibleEnd(pending[i]) <= pos || pending[i].visibleLen == 0
  }

  ghost predicate Assembled(b: Built, pending: seq<FrozenSlice>, image: seq<byte>) {
    && b.slice.windowGroup && b.slice.progress == Untouched && Sized(b.slice)
    && b.slice.visibleLen == |b.slice.payload| > 0
    && b.base <= b.slice.pos && VisibleEnd(b.slice) <= b.base + WINDOW && b.base % WINDOW == 0
    && Hydrated(b.slice.payload, b.slice.pos, pending, image)
    && b.insertAfter < |pending| && LastOverlap(pending, b.slice.pos, VisibleEnd(b.slice), b.insertAfter)
    && (forall i :: 0 <= i < |pending| && Member(pending[i], b.base) ==>
                      b.slice.pos <= pending[i].pos && VisibleEnd(pending[i]) <= VisibleEnd(b.slice))
    && (exists i :: 0 <= i < |pending| && Member(pending[i], b.base) && pending[i].pos == b.slice.pos)
    && (exists i :: 0 <= i < |pending| && Member(pending[i], b.base) && VisibleEnd(pending[i]) == VisibleEnd(b.slice))
  }

  lemma GroupBounds(g: Group, pending: seq<FrozenSlice>)
    requires Groups(g, pending)
    ensures g.base <= g.pos < g.recordEnd <= g.base + WINDOW && g.base % WINDOW == 0
  {
    hide MemberCount;
    var i :| 0 <= i < |pending| && Member(pending[i], g.base) && pending[i].pos == g.pos;
    var j :| 0 <= j < |pending| && Member(pending[j], g.base) && VisibleEnd(pending[j]) == g.recordEnd;
    MemberBounds(pending[i], g.base);
    MemberBounds(pending[j], g.base);
  }

  lemma MemberBounds(c: FrozenSlice, base: nat)
    requires Member(c, base)
    ensures base <= c.pos < VisibleEnd(c) <= base + WINDOW && base % WINDOW == 0
  {
    WindowFloor(c.pos);
  }

  lemma WindowFloor(x: nat)
    ensures x / WINDOW * WINDOW <= x && (x / WINDOW * WINDOW) % WINDOW == 0
  {
  }

  lemma HydrateOne(payload: seq<byte>, next: seq<byte>, pos: nat, pending: seq<FrozenSlice>, c: FrozenSlice,
                   image: seq<byte>)
    requires Hydrated(payload, pos, pending, image) && |next| == |payload| && c.visibleLen <= |c.payload|
    requires forall k :: 0 <= k < |payload| ==>
                           next[k] ==
                           if c.pos <= pos + k < VisibleEnd(c) then c.payload[pos + k - c.pos] else payload[k]
    ensures Hydrated(next, pos, pending + [c], image)
  {
    hide Latest;
    forall p: nat | pos <= p < pos + |next| ensures next[p - pos] == Shown(image[p], LayersOf(pending + [c]), p) {
      LayersOfPush(pending, c, p);
      assert next[p - pos] == if c.pos <= p < VisibleEnd(c) then c.payload[p - c.pos] else payload[p - pos];
    }
  }

  /** The overlay loop over every pending generation, in acceptance order. */
  method BuildCandidate(g: Group, pending: seq<FrozenSlice>, image: seq<byte>) returns (b: Built)
    requires Groups(g, pending) && AllSized(pending) && g.recordEnd <= |image|
    ensures b.base == g.base && Assembled(b, pending, image)
  {
    hide Groups, Latest, Hydrated, Member;
    GroupBounds(g, pending);
    var payload, dirtyEnd, insertAfter: nat := image[g.pos..g.recordEnd], g.dirtyEnd, g.insertAfter;
    HydrateNothing(g.pos, g.recordEnd, pending[..0], image);
    GroupEnds(g, pending);
    for i := 0 to |pending|
      invariant |payload| == g.recordEnd - g.pos && dirtyEnd == g.recordEnd
      invariant g.insertAfter <= insertAfter < |pending|
      invariant Hydrated(payload, g.pos, pending[..i], image)
      invariant LastOverlap(pending[..i], g.pos, g.recordEnd, insertAfter)
    {
      var c := pending[i];
      assert pending[..i + 1] == pending[..i] + [c];
      var start, end := Max(g.pos, c.pos), Min(g.recordEnd, VisibleEnd(c));
      if c.visibleLen == 0 || start >= end {
        HydrateOne(payload, payload, g.pos, pending[..i], c, image);
        continue;
      }
      var next := Overwrite(payload, start - g.pos, c.payload[start - c.pos..end - c.pos]);
      HydrateOne(payload, next, g.pos, pending[..i], c, image);
      payload := next;
      var candidateDirtyEnd := EofEnd(c);
      if candidateDirtyEnd > g.pos {
        dirtyEnd := Max(dirtyEnd, Min(candidateDirtyEnd, g.recordEnd));
      }
      insertAfter := Max(insertAfter, i);
    }
    assert pending[..|pending|] == pending;
    dirtyEnd := Max(g.pos, Min(dirtyEnd, g.recordEnd));
    b := Built(g.base, FrozenSlice(g.pos, payload, |payload|, dirtyEnd - g.pos, true, Untouched), insertAfter);
  }

  lemma HydrateNothing(pos: nat, end: nat, none: seq<FrozenSlice>, image: seq<byte>)
    requires none == [] && pos <= end <= |image|
    ensures Hydrated(image[pos..end], pos, none, image)
  {
  }

  lemma GroupEnds(g: Group, pending: seq<FrozenSlice>)
    requires Groups(g, pending)
    ensures g.dirtyEnd == g.recordEnd && g.insertAfter < |pending|
    ensures forall i :: 0 <= i < |pending| && Member(pending[i], g.base) ==>
                          g.pos <= pending[i].pos && VisibleEnd(pending[i]) <= g.recordEnd
    ensures exists i :: 0 <= i < |pending| && Member(pending[i], g.base) && pending[i].pos == g.pos
    ensures exists i :: 0 <= i < |pending| && Member(pending[i], g.base) && VisibleEnd(pending[i]) == g.recordEnd
  {
  }

  ghost predicate Plan(built: seq<Built>, pending: seq<FrozenSlice>, image: seq<byte>) {
    && (forall k :: 0 <= k < |built| ==> Assembled(built[k], pending, image))
    && (forall j, k :: 0 <= j < k < |built| ==> built[j].base < built[k].base)
  }

  ghost predicate AllWithin(pending: seq<FrozenSlice>, size: nat) {
    forall k :: 0 <= k < |pending| ==> VisibleEnd(pending[k]) <= size
  }

  /** Every kept group becomes a candidate, in window order. */
  method BuildAll(groups: seq<Group>, pending: seq<FrozenSlice>, image: seq<byte>) returns (built: seq<Built>)
    requires Ascending(groups) && (forall k :: 0 <= k < |groups| ==> Groups(groups[k], pending))
    requires AllSized(pending) && AllWithin(pending, |image|)
    ensures Plan(built, pending, image) && |built| == |groups|
    ensures forall k :: 0 <= k < |built| ==> built[k].base == groups[k].base
  {
    hide Groups, Assembled;
    built := [];
    for i := 0 to |groups|
      invariant |built| == i && Plan(built, pending, image)
      invariant forall k :: 0 <= k < i ==> built[k].base == groups[k].base
    {
      GroupWithin(groups[i], pending, |image|);
      var b := BuildCandidate(groups[i], pending, image);
      built := built + [b];
    }
  }

  lemma GroupWithin(g: Group, pending: seq<FrozenSlice>, size: nat)
    requires Groups(g, pending) && AllWithin(pending, size)
    ensures g.recordEnd <= size
  {
  }

  // ---- Installing the candidates ----

  predicate Source(c: FrozenSlice, built: seq<Built>) {
    Eligible(c) && exists k :: 0 <= k < |built| && built[k].base == Base(c)
  }

  /** The candidates inserted after index `i`, in window order. */
  function PlacedAt(built: seq<Built>, i: nat): seq<FrozenSlice> { PlacedUpTo(built, |built|, i) }

  function PlacedUpTo(built: seq<Built>, n: nat, i: nat): seq<FrozenSlice>
    requires n <= |built|
  {
    if n == 0 then []
    else if built[n - 1].insertAfter == i then PlacedUpTo(built, n - 1, i) + [built[n - 1].slice]
    else PlacedUpTo(built, n - 1, i)
  }

  /** The first `n` entries lose their sources and gain the groups; later entries stay. */
  function Reordered(items: seq<FrozenSlice>, built: seq<Built>, n: nat): seq<FrozenSlice> {
    ReorderedUpTo(items, built, n, |items|)
  }

  function ReorderedUpTo(items: seq<FrozenSlice>, built: seq<Built>, n: nat, i: nat): seq<FrozenSlice>
    requires i <= |items|
  {
    if i == 0 then []
    else ReorderedUpTo(items, built, n, i - 1) + Kept(items, built, n, i - 1) + PlacedAt(built, i - 1)
  }

  function Kept(items: seq<FrozenSlice>, built: seq<Built>, n: nat, i: nat): seq<FrozenSlice>
    requires i < |items|
  {
    if i < n && Source(items[i], built) then [] else [items[i]]
  }

  /** The loop that rebuilds `frozen_` and, run on the pending views, the publication order. */
  method Install(items: seq<FrozenSlice>, built: seq<Built>, n: nat) returns (rebuilt: seq<FrozenSlice>)
    ensures rebuilt == Reordered(items, built, n)
  {
    hide Source, PlacedAt;
    rebuilt := [];
    for i := 0 to |items|
      invariant rebuilt == ReorderedUpTo(items, built, n, i)
    {
      if !(i < n && Source(items[i], built)) {
        rebuilt := rebuilt + [items[i]];
      }
      rebuilt := rebuilt + PlacedAt(built, i);
    }
  }

  lemma {:induction false} PlacedNone(built: seq<Built>, n: nat, i: nat)
    requires n <= |built| && forall k :: 0 <= k < |built| ==> built[k].insertAfter < i
    ensures PlacedUpTo(built, n, i) == []
  {
    if n > 0 {
      PlacedNone(built, n - 1, i);
    }
  }

  /** The groups that belong after index `i`. */
  function InsertedAfter(built: seq<Built>, n: nat, i: nat): set<nat>
    requires n <= |built|
  {
    set k: nat | k < n && built[k].insertAfter == i
  }

  /** Those groups and nothing else, each once. */
  ghost predicate Holding(run: seq<FrozenSlice>, built: seq<Built>, n: nat, i: nat)
    requires n <= |built|
  {
    && |run| == |InsertedAfter(built, n, i)|
    && (forall k :: k in InsertedAfter(built, n, i) ==> built[k].slice in run)
    && (forall c :: c in run ==> exists k :: k in InsertedAfter(built, n, i) && built[k].slice == c)
  }

  lemma {:induction false} PlacedExactly(built: seq<Built>, n: nat, i: nat)
    requires n <= |built|
    ensures Holding(PlacedUpTo(built, n, i), built, n, i)
  {
    if n > 0 {
      PlacedExactly(built, n - 1, i);
      var front := InsertedAfter(built, n - 1, i);
      if built[n - 1].insertAfter == i {
        assert InsertedAfter(built, n, i) == front + {n - 1};
        HoldingPush(PlacedUpTo(built, n - 1, i), built, n - 1, i);
      } else {
        assert InsertedAfter(built, n, i) == front;
      }
    }
  }

  lemma HoldingPush(run: seq<FrozenSlice>, built: seq<Built>, n: nat, i: nat)
    requires n < |built| && built[n].insertAfter == i && Holding(run, built, n, i)
    requires InsertedAfter(built, n + 1, i) == InsertedAfter(built, n, i) + {n}
    ensures Holding(run + [built[n].slice], built, n + 1, i)
  {
    var next := run + [built[n].slice];
    forall c | c in next ensures exists k :: k in InsertedAfter(built, n + 1, i) && built[k].slice == c {
      if c !in run {
        assert n in InsertedAfter(built, n + 1, i) && built[n].slice == c;
      }
    }
  }

  lemma {:induction false} ReorderedGrows(items: seq<FrozenSlice>, built: seq<Built>, n: nat, i: nat, m: nat)
    requires i <= m <= |items|
    ensures ReorderedUpTo(items, built, n, i) <= ReorderedUpTo(items, built, n, m)
  {
    hide Kept, PlacedAt;
    if i < m {
      ReorderedGrows(items, built, n, i, m - 1);
    }
  }

  /**
   What becomes of the entry at `i`: a small candidate of a built window is gone, any other one is
   still there, and directly after it come the groups that belong there, each once.  The places
   grow with `i`, so everything else keeps its order.
   */
  lemma InstalledAt(items: seq<FrozenSlice>, built: seq<Built>, n: nat, i: nat)
    requires i < |items|
    ensures var r, at, next := Reordered(items, built, n), |ReorderedUpTo(items, built, n, i)|,
                               |ReorderedUpTo(items, built, n, i + 1)|;
            var gone := i < n && Eligible(items[i]) && exists k :: 0 <= k < |built| && built[k].base == Base(items[i]);
            var first := if gone then at else at + 1;
            && first <= next <= |r| && (gone || r[at] == items[i]) && Holding(r[first..next], built, |built|, i)
  {
    hide Eligible, Holding, PlacedUpTo;
    PlacedExactly(built, |built|, i);
    ReorderedGrows(items, built, n, i + 1, |items|);
    var upTo := ReorderedUpTo(items, built, n, i + 1);
    ReorderedLast(items, built, n, i);
    assert Reordered(items, built, n)[..|upTo|] == upTo;
    hide ReorderedUpTo, PlacedAt;
  }

  lemma ReorderedLast(items: seq<FrozenSlice>, built: seq<Built>, n: nat, i: nat)
    requires i < |items|
    ensures var before, upTo := ReorderedUpTo(items, built, n, i), ReorderedUpTo(items, built, n, i + 1);
            var first := |before| + |Kept(items, built, n, i)|;
            && first <= |upTo| && upTo[first..] == PlacedAt(built, i)
            && (Kept(items, built, n, i) != [] ==> upTo[|before|] == items[i])
  {
    hide PlacedAt, Source;
  }

  /** Entries past the pending ones do not matter to what the pending ones become. */
  lemma {:induction false} ReorderedPrefix(pending: seq<FrozenSlice>, extra: seq<FrozenSlice>, built: seq<Built>,
                                           n: nat, i: nat)
    requires i <= |pending|
    ensures ReorderedUpTo(pending + extra, built, n, i) == ReorderedUpTo(pending, built, n, i)
  {
    hide Source, PlacedAt;
    if i > 0 {
      ReorderedPrefix(pending, extra, built, n, i - 1);
    }
  }

  /** Generations frozen while the groups were being assembled keep their place at the end. */
  lemma {:induction false} ReorderedAppended(pending: seq<FrozenSlice>, extra: seq<FrozenSlice>, built: seq<Built>,
                                             i: nat)
    requires i <= |extra| && forall k :: 0 <= k < |built| ==> built[k].insertAfter < |pending|
    ensures ReorderedUpTo(pending + extra, built, |pending|, |pending| + i) ==
            Reordered(pending, built, |pending|) + extra[..i]
  {
    hide Source;
    if i == 0 {
      ReorderedPrefix(pending, extra, built, |pending|, |pending|);
    } else {
      ReorderedAppended(pending, extra, built, i - 1);
      PlacedNone(built, |built|, |pending| + i - 1);
      assert extra[..i] == extra[..i - 1] + [extra[i - 1]];
    }
  }

  lemma ReorderedExtra(pending: seq<FrozenSlice>, extra: seq<FrozenSlice>, built: seq<Built>)
    requires forall k :: 0 <= k < |built| ==> built[k].insertAfter < |pending|
    ensures Reordered(pending + extra, built, |pending|) == Reordered(pending, built, |pending|) + extra
  {
    ReorderedAppended(pending, extra, built, |extra|);
    assert extra[..|extra|] == extra;
  }

  lemma WindowsDisjoint(built: seq<Built>, pending: seq<FrozenSlice>, image: seq<byte>, j: nat, k: nat, p: nat)
    requires Plan(built, pending, image) && j < |built| && k < |built| && j != k && Holds(Layer(built[j].slice), p)
    ensures !Holds(Layer(built[k].slice), p)
  {
    hide Hydrated, LastOverlap, Member;
    assert Assembled(built[j], pending, image) && Assembled(built[k], pending, image);
    MultiplesApart(built[j].base, built[k].base);
  }

  lemma MultiplesApart(a: nat, b: nat)
    requires a % WINDOW == 0 && b % WINDOW == 0 && a != b
    ensures a + WINDOW <= b || b + WINDOW <= a
  {
  }

  lemma {:induction false} PlacedLatest(built: seq<Built>, n: nat, i: nat, p: nat, k: nat)
    requires k < n <= |built| && Holds(Layer(built[k].slice), p)
    requires forall j :: 0 <= j < |built| && j != k ==> !Holds(Layer(built[j].slice), p)
    ensures Latest(LayersOf(PlacedUpTo(built, n, i)), p) ==
            if built[k].insertAfter == i then Some(Layer(built[k].slice).bytes[p - built[k].slice.pos]) else None
  {
    hide Layer, Latest, LayersOf, Holds;
    LayersOfPush(PlacedUpTo(built, n - 1, i), built[n - 1].slice, p);
    if k < n - 1 {
      PlacedLatest(built, n - 1, i, p, k);
    } else {
      PlacedUnheld(built, n - 1, i, p);
    }
  }

  lemma {:induction false} PlacedUnheld(built: seq<Built>, n: nat, i: nat, p: nat)
    requires n <= |built| && forall j :: 0 <= j < n ==> !Holds(Layer(built[j].slice), p)
    ensures Latest(LayersOf(PlacedUpTo(built, n, i)), p) == None
  {
    hide Layer, Holds;
    if n > 0 {
      LayersOfPush(PlacedUpTo(built, n - 1, i), built[n - 1].slice, p);
      PlacedUnheld(built, n - 1, i, p);
    }
  }

  /** One entry of the rebuilt sequence, seen at one position. */
  lemma ReorderedStep(pending: seq<FrozenSlice>, built: seq<Built>, i: nat, p: nat)
    requires i < |pending|
    ensures var before := Latest(LayersOf(ReorderedUpTo(pending, built, |pending|, i)), p);
            var placed := Latest(LayersOf(PlacedAt(built, i)), p);
            Latest(LayersOf(ReorderedUpTo(pending, built, |pending|, i + 1)), p) ==
            if placed.Some? then placed
            else if !Source(pending[i], built) && Holds(Layer(pending[i]), p)
            then Some(Layer(pending[i]).bytes[p - pending[i].pos]) else before
  {
    hide Latest, Source, PlacedAt, Layer;
    var before, placed := ReorderedUpTo(pending, built, |pending|, i), PlacedAt(built, i);
    var kept := before + Kept(pending, built, |pending|, i);
    LayersOfConcat(kept, placed);
    LatestConcat(LayersOf(kept), LayersOf(placed), p);
    LayersOfPush(before, pending[i], p);
    assert before + [] == before;
  }

  /** Outside every group nothing was removed. */
  lemma {:induction false} ReorderedOutside(pending: seq<FrozenSlice>, built: seq<Built>, image: seq<byte>, i: nat,
                                            p: nat)
    requires Plan(built, pending, image) && AllSized(pending) && i <= |pending|
    requires forall k :: 0 <= k < |built| ==> !Holds(Layer(built[k].slice), p)
    ensures Latest(LayersOf(ReorderedUpTo(pending, built, |pending|, i)), p) == Latest(LayersOf(pending[..i]), p)
  {
    hide Latest, PlacedUpTo, Plan, Source, Layer, LayersOf, ReorderedUpTo, Holds, AllSized;
    if i == 0 {
      ReorderedStart(pending, built);
      assert pending[..0] == [];
    } else {
      ReorderedOutside(pending, built, image, i - 1, p);
      ReorderedStep(pending, built, i - 1, p);
      PlacedUnheld(built, |built|, i - 1, p);
      assert pending[..i] == pending[..i - 1] + [pending[i - 1]];
      LayersOfPush(pending[..i - 1], pending[i - 1], p);
      SourceInside(pending, built, image, i - 1, p);
    }
  }

  lemma ReorderedStart(pending: seq<FrozenSlice>, built: seq<Built>)
    ensures ReorderedUpTo(pending, built, |pending|, 0) == []
  {
  }

  lemma SourceInside(pending: seq<FrozenSlice>, built: seq<Built>, image: seq<byte>, i: nat, p: nat)
    requires Plan(built, pending, image) && i < |pending|
    requires forall k :: 0 <= k < |built| ==> !Holds(Layer(built[k].slice), p)
    ensures Source(pending[i], built) ==> !Holds(Layer(pending[i]), p)
  {
    hide Hydrated, LastOverlap;
    if Source(pending[i], built) {
      var k :| 0 <= k < |built| && built[k].base == Base(pending[i]);
      assert Assembled(built[k], pending, image);
      assert !Holds(Layer(built[k].slice), p);
    }
  }

  /** Inside a group, once it is placed, its byte is the one shown. */
  lemma {:induction false} ReorderedInside(pending: seq<FrozenSlice>, built: seq<Built>, image: seq<byte>, i: nat,
                                           p: nat, k: nat)
    requires Plan(built, pending, image) && AllSized(pending) && i <= |pending|
    requires k < |built| && Holds(Layer(built[k].slice), p) && built[k].insertAfter < i
    ensures Latest(LayersOf(ReorderedUpTo(pending, built, |pending|, i)), p) ==
            Some(built[k].slice.payload[p - built[k].slice.pos])
  {
    hide Latest, ReorderedUpTo, PlacedUpTo, Hydrated, Source, Member;
    assert Assembled(built[k], pending, image);
    forall j: nat | j < |built| && j != k ensures !Holds(Layer(built[j].slice), p) {
      WindowsDisjoint(built, pending, image, k, j, p);
    }
    PlacedLatest(built, |built|, i - 1, p, k);
    ReorderedStep(pending, built, i - 1, p);
    if built[k].insertAfter < i - 1 {
      ReorderedInside(pending, built, image, i - 1, p, k);
      assert !Holds(Layer(pending[i - 1]), p);
    }
  }

  // ---- What stays behind a head that is no source ----

  lemma {:induction false} HeadKept(items: seq<FrozenSlice>, built: seq<Built>, n: nat, i: nat) returns (m: nat)
    requires 1 <= i <= |items| && !Eligible(items[0])
    ensures m == 0 < |ReorderedUpTo(items, built, n, i)| && ReorderedUpTo(items, built, n, i)[0] == items[0]
  {
    hide PlacedAt;
    m := 0;
    if i == 1 {
      assert ReorderedUpTo(items, built, n, 0) == [];
    } else {
      m := HeadKept(items, built, n, i - 1);
    }
  }

  lemma {:induction false} KeptBehind(items: seq<FrozenSlice>, built: seq<Built>, n: nat, i: nat, j: nat)
    returns (m: nat)
    requires 1 <= j < i <= |items| && !Eligible(items[0]) && !Source(items[j], built)
    ensures 1 <= m < |ReorderedUpTo(items, built, n, i)| && ReorderedUpTo(items, built, n, i)[m] == items[j]
  {
    hide PlacedAt, Source;
    if j == i - 1 {
      var h := HeadKept(items, built, n, i - 1);
      m := |ReorderedUpTo(items, built, n, i - 1)|;
    } else {
      m := KeptBehind(items, built, n, i - 1, j);
    }
  }

  lemma {:induction false} PlacedMember(built: seq<Built>, n: nat, k: nat) returns (m: nat)
    requires k < n <= |built|
    ensures m < |PlacedUpTo(built, n, built[k].insertAfter)|
    ensures PlacedUpTo(built, n, built[k].insertAfter)[m] == built[k].slice
  {
    if k == n - 1 {
      m := |PlacedUpTo(built, n - 1, built[k].insertAfter)|;
    } else {
      m := PlacedMember(built, n - 1, k);
    }
  }

  lemma {:induction false} PlacedBehind(items: seq<FrozenSlice>, built: seq<Built>, n: nat, i: nat, k: nat)
    returns (m: nat)
    requires k < |built| && built[k].insertAfter < i <= |items| && !Eligible(items[0])
    ensures 1 <= m < |ReorderedUpTo(items, built, n, i)| && ReorderedUpTo(items, built, n, i)[m] == built[k].slice
  {
    hide Source, PlacedUpTo;
    var before := ReorderedUpTo(items, built, n, i - 1) + Kept(items, built, n, i - 1);
    if built[k].insertAfter == i - 1 {
      var at := PlacedMember(built, |built|, k);
      m := |before| + at;
      if i == 1 {
        NotSource(items[0], built);
      } else {
        var h := HeadKept(items, built, n, i - 1);
      }
    } else {
      m := PlacedBehind(items, built, n, i - 1, k);
    }
  }

  lemma NotSource(c: FrozenSlice, built: seq<Built>)
    requires !Eligible(c)
    ensures !Source(c, built)
  {
  }

  /**
   Coalescing preserves meaning: covered positions keep their byte, and a position that only
   hydration covers shows the committed byte it was read from.
   */
  lemma CoalescingAt(pending: seq<FrozenSlice>, built: seq<Built>, image: seq<byte>, p: nat)
    requires Plan(built, pending, image) && AllSized(pending)
    ensures var before, after := Latest(LayersOf(pending), p),
                                 Latest(LayersOf(Reordered(pending, built, |pending|)), p);
            && (before.Some? ==> after == before)
            && (after.Some? && before.None? ==> p < |image| && after == Some(image[p]))
  {
    hide Latest, ReorderedUpTo, Source, Member, LastOverlap;
    assert pending[..|pending|] == pending;
    if k: nat :| k < |built| && Holds(Layer(built[k].slice), p) {
      ReorderedInside(pending, built, image, |pending|, p, k);
      assert Assembled(built[k], pending, image);
      assert built[k].slice.payload[p - built[k].slice.pos] == Shown(image[p], LayersOf(pending), p);
    } else {
      ReorderedOutside(pending, built, image, |pending|, p);
    }
  }

  lemma CoalescingPreserves(pending: seq<FrozenSlice>, extra: seq<FrozenSlice>, built: seq<Built>, image: seq<byte>,
                            p: nat)
    requires Plan(built, pending, image) && AllSized(pending) && p < |image|
    ensures Shown(image[p], LayersOf(Reordered(pending + extra, built, |pending|)), p) ==
            Shown(image[p], LayersOf(pending + extra), p)
  {
    hide Latest, Reordered, Source, Member, LastOverlap, Hydrated;
    var after := Reordered(pending, built, |pending|);
    ReorderedExtra(pending, extra, built);
    CoalescingAt(pending, built, image, p);
    LayersOfConcat(pending, extra);
    LayersOfConcat(after, extra);
    LatestConcat(LayersOf(pending), LayersOf(extra), p);
    LatestConcat(LayersOf(after), LayersOf(extra), p);
  }

  // ---- The EOF advance ----

  function MaxEof(slices: seq<FrozenSlice>): (m: nat)
    ensures forall k :: 0 <= k < |slices| ==> EofEnd(slices[k]) <= m
    ensures m == 0 || exists k :: 0 <= k < |slices| && EofEnd(slices[k]) == m
  {
    if slices == [] then 0
    else
      var front := MaxEof(slices[..|slices| - 1]);
      var last := EofEnd(slices[|slices| - 1]);
      if last >= front then last else front
  }

  lemma {:induction false} PlacedOrigin(built: seq<Built>, n: nat, i: nat, c: FrozenSlice) returns (k: nat)
    requires n <= |built| && c in PlacedUpTo(built, n, i)
    ensures k < n && built[k].slice == c
  {
    k := n - 1;
    if built[k].slice != c {
      k := PlacedOrigin(built, n - 1, i, c);
    }
  }

  lemma {:induction false} PlacedKeeps(built: seq<Built>, n: nat, k: nat)
    requires k < n <= |built|
    ensures built[k].slice in PlacedUpTo(built, n, built[k].insertAfter)
  {
    if k < n - 1 {
      PlacedKeeps(built, n - 1, k);
    }
  }

  lemma {:induction false} ReorderedOrigin(items: seq<FrozenSlice>, built: seq<Built>, n: nat, i: nat, c: FrozenSlice)
    returns (k: nat)
    requires i <= |items| && c in ReorderedUpTo(items, built, n, i)
    ensures k < i && (items[k] == c || c in PlacedAt(built, k))
  {
    hide Source, PlacedAt;
    k := i - 1;
    if items[k] != c && c !in PlacedAt(built, k) {
      k := ReorderedOrigin(items, built, n, i - 1, c);
    }
  }

  lemma {:induction false} ReorderedKeeps(items: seq<FrozenSlice>, built: seq<Built>, n: nat, i: nat, k: nat,
                                          c: FrozenSlice)
    requires k < i <= |items| && (c in Kept(items, built, n, k) || c in PlacedAt(built, k))
    ensures c in ReorderedUpTo(items, built, n, i)
  {
    hide Kept, PlacedAt;
    if k < i - 1 {
      ReorderedKeeps(items, built, n, i - 1, k, c);
    }
  }

  /** Coalescing leaves the furthest EOF any candidate advances to where it was. */
  lemma CoalescingKeepsEof(pending: seq<FrozenSlice>, built: seq<Built>, image: seq<byte>)
    requires Plan(built, pending, image) && AllSized(pending)
    ensures MaxEof(Reordered(pending, built, |pending|)) == MaxEof(pending)
  {
    hide ReorderedUpTo, PlacedUpTo, Hydrated, LastOverlap;
    var after := Reordered(pending, built, |pending|);
    forall k | 0 <= k < |pending| ensures EofEnd(pending[k]) <= MaxEof(after) {
      SourceKeepsEof(pending, built, image, k);
    }
    forall k | 0 <= k < |after| ensures EofEnd(after[k]) <= MaxEof(pending) {
      var i := ReorderedOrigin(pending, built, |pending|, |pending|, after[k]);
      if pending[i] != after[k] {
        var b := PlacedOrigin(built, |built|, i, after[k]);
        assert Assembled(built[b], pending, image);
      }
    }
  }

  lemma SourceKeepsEof(pending: seq<FrozenSlice>, built: seq<Built>, image: seq<byte>, k: nat)
    requires Plan(built, pending, image) && AllSized(pending) && k < |pending|
    ensures EofEnd(pending[k]) <= MaxEof(Reordered(pending, built, |pending|))
  {
    hide ReorderedUpTo, PlacedUpTo, Hydrated, LastOverlap;
    var after := Reordered(pending, built, |pending|);
    if Source(pending[k], built) {
      var b: nat :| b < |built| && built[b].base == Base(pending[k]);
      assert Assembled(built[b], pending, image);
      PlacedKeeps(built, |built|, b);
      ReorderedKeeps(pending, built, |pending|, |pending|, built[b].insertAfter, built[b].slice);
      assert built[b].slice in after;
    } else {
      ReorderedKeeps(pending, built, |pending|, |pending|, k, pending[k]);
      assert pending[k] in after;
    }
  }

  // ---- PrepareWindowCandidates ----

  /** Assembly from one snapshot: exactly the windows with at least two small ranges are coalesced. */
  method PrepareWindows(pending: seq<FrozenSlice>, image: seq<byte>) returns (built: seq<Built>)
    requires AllSized(pending) && AllWithin(pending, |image|)
    ensures Plan(built, pending, image)
    ensures forall i :: 0 <= i < |pending| ==> (Source(pending[i], built) <==> Crowded(pending, i))
  {
    hide Groups, Assembled, Eligible, MemberCount, Crowded;
    var groups := GroupWindows(pending);
    var kept := Fragmented(groups);
    FragmentedAscending(groups);
    forall k: nat | k < |kept| ensures Groups(kept[k], pending) {
      assert kept[k] in groups;
    }
    built := BuildAll(kept, pending, image);
    forall i: nat | i < |pending| ensures Source(pending[i], built) <==> Crowded(pending, i) {
      SourceExactly(groups, kept, built, pending, i);
      CrowdedExactly(pending, i);
    }
  }

  lemma GroupCount(g: Group, pending: seq<FrozenSlice>)
    requires Groups(g, pending)
    ensures g.intervalCount == MemberCount(pending, g.base)
  {
  }

  lemma SourceExactly(groups: seq<Group>, kept: seq<Group>, built: seq<Built>, pending: seq<FrozenSlice>, i: nat)
    requires Grouped(groups, pending) && kept == Fragmented(groups) && i < |pending| && |built| == |kept|
    requires forall k :: 0 <= k < |built| ==> built[k].base == kept[k].base
    ensures Source(pending[i], built) <==> Eligible(pending[i]) && MemberCount(pending, Base(pending[i])) >= 2
  {
    hide Eligible, MemberCount, Fragmented, Ascending, Groups, Base;
    var base := Base(pending[i]);
    if Source(pending[i], built) {
      var k :| 0 <= k < |built| && built[k].base == base;
      assert kept[k] in groups;
      GroupCount(kept[k], pending);
    }
    if Eligible(pending[i]) && MemberCount(pending, base) >= 2 {
      var k :| 0 <= k < |groups| && groups[k].base == base;
      GroupCount(groups[k], pending);
      assert groups[k] in kept;
      var j :| 0 <= j < |kept| && kept[j] == groups[k];
      assert built[j].base == base;
    }
  }
}
