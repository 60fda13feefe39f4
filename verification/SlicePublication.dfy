/**
 `PublishFrozen` for one candidate, against everything the rest of the system may do: other
 mounts append, attach, detach and resize, replies are lost, and commands whose reply was lost
 may still be applied later.  The candidate remembers which list it recorded itself in, which
 list it created, and which append is in doubt.
 */
module SlicePublication {
  import opened Common

  const MAX_ATTEMPTS := 8

  /** Where one call of `PublishFrozen` stands. */
  datatype Phase =
    | Idle
    | Start(attempt: nat)
    | Chosen(attempt: nat, already: bool, chunk: nat, eof: nat)
    | Finalizing(attempt: nat, already: bool, chunk: nat, eof: nat)
    | Returned(status: Status)

  /** A lost reply hides whether the command was applied, dropped or is still on its way. */
  datatype Fate = Applied | Lost | Delayed

  datatype Reply = Accepted | Refused | Unheard(fate: Fate, confirmed: bool)

  /** The candidate's slice identity and the end of its accepted extent. */
  datatype Record = Record(id: nat, end: nat)

  /**
   Record lists hold slice identities.  `version` counts the changes to the inode and its
   mappings that invalidate a watched transaction; `detached` are the identities that were
   attached once and no longer are.
   */
  datatype State = State(
    lists: Lists, attached: Option<nat>, detached: set<nat>, eof: nat, version: nat, nextChunk: nat,
    pushes: multiset<nat>, creates: set<nat>, attaches: set<(nat, nat)>,
    recorded: Option<nat>, created: Option<nat>, uncertain: Option<nat>, phase: Phase)

  datatype Event =
    | Begin | Snapshot | Append(reply: Reply) | Finalize(reply: Reply) | Fail(error: Status)
    | LandPush(chunk: nat) | LandCreate(chunk: nat) | LandAttach(chunk: nat, version: nat)
    | OtherResize(eof: nat) | OtherDetach | OtherAttach(chunk: nat) | OtherAppend(chunk: nat, id: nat)
    | OtherCreate(chunk: nat, id: nat) | OtherAllocate | Drop(chunk: nat)

  type Lists = map<nat, seq<nat>>

  predicate Present(lists: Lists, r: Record, k: nat) { k in lists && r.id in lists[k] }

  /** RPUSHX: only an existing list is appended to. */
  function Push(lists: Lists, r: Record, k: nat): Lists {
    if k in lists then lists[k := lists[k] + [r.id]] else lists
  }

  /** The watched creation: only a missing list is created. */
  function Create(lists: Lists, r: Record, k: nat): Lists {
    if k in lists then lists else lists[k := [r.id]]
  }

  function Resize(s: State, eof: nat): State { s.(eof := eof, version := s.version + 1) }

  function Attach(s: State, r: Record, k: nat): State {
    s.(attached := Some(k), eof := Max(s.eof, r.end), version := s.version + 1)
  }

  // ---- The call ----

  function TakeSnapshot(s: State, attempt: nat): State {
    if s.attached.Some? then s.(phase := Chosen(attempt, true, s.attached.value, s.eof))
    else if s.created.Some? then s.(phase := Chosen(attempt, false, s.created.value, s.eof))
    else s.(created := Some(s.nextChunk), nextChunk := s.nextChunk + 1,
         phase := Chosen(attempt, false, s.nextChunk, s.eof))
  }

  function MarkRecorded(s: State, attempt: nat, already: bool, k: nat, eof: nat): State {
    s.(recorded := Some(k), uncertain := None, phase := Finalizing(attempt, already, k, eof))
  }

  /** The append or creation, its reply, and the read-back after a lost one. */
  function Issue(s: State, r: Record, attempt: nat, already: bool, k: nat, eof: nat, reply: Reply): State {
    var possible := already <==> k in s.lists;
    match reply
    case Accepted =>
      if !possible then s
      else MarkRecorded(s.(lists := if already then Push(s.lists, r, k) else Create(s.lists, r, k)), attempt, already,
                        k, eof)
    case Refused => s.(phase := Returned(IOError))
    case Unheard(fate, confirmed) =>
      var sent := match fate
        case Applied => s.(lists := if already then Push(s.lists, r, k) else Create(s.lists, r, k))
        case Lost => s
        case Delayed => if already then s.(pushes := s.pushes + multiset{k}) else s.(creates := s.creates + {k});
      if confirmed && Present(sent.lists, r, k) then MarkRecorded(sent, attempt, already, k, eof)
      else sent.(uncertain := Some(k), phase := Returned(OutcomeUnknown))
  }

  function RecordStep(s: State, r: Record, attempt: nat, already: bool, k: nat, eof: nat, reply: Reply): State {
    if s.recorded == Some(k) then s.(phase := Finalizing(attempt, already, k, eof))
    else if s.uncertain == Some(k) then
      if reply == Accepted && Present(s.lists, r, k) then MarkRecorded(s, attempt, already, k, eof)
      else s.(phase := Returned(OutcomeUnknown))
    else Issue(s, r, attempt, already, k, eof, reply)
  }

  /** The precondition both metadata transactions check under WATCH. */
  predicate MayCommit(s: State, already: bool, k: nat, eof: nat) {
    s.eof == eof && if already then s.attached == Some(k) else s.attached.None?
  }

  function Commit(s: State, r: Record, already: bool, k: nat): State {
    if already then Resize(s, Max(s.eof, r.end)) else Attach(s, r, k)
  }

  function FinalizeStep(s: State, r: Record, attempt: nat, already: bool, k: nat, eof: nat, reply: Reply): State {
    match reply
    case Accepted => if MayCommit(s, already, k, eof) then Commit(s, r, already, k).(phase := Returned(Ok)) else s
    case Refused =>
      if attempt + 1 < MAX_ATTEMPTS then s.(phase := Start(attempt + 1)) else s.(phase := Returned(AlreadyExists))
    case Unheard(fate, confirmed) =>
      var sent := if fate == Lost || !MayCommit(s, already, k, eof) then s
                  else if fate == Applied then Commit(s, r, already, k)
                  else if already then s else s.(attaches := s.attaches + {(k, s.version)});
      if !already && confirmed && sent.attached == Some(k) && r.end <= sent.eof then sent.(phase := Returned(Ok))
      else sent.(phase := Returned(OutcomeUnknown))
  }

  function Step(s: State, r: Record, e: Event): State {
    match e
    case Begin => if s.phase.Idle? || s.phase.Returned? then s.(phase := Start(0)) else s
    case Snapshot => if s.phase.Start? then TakeSnapshot(s, s.phase.attempt) else s
    case Append(reply) =>
      if s.phase.Chosen? then RecordStep(s, r, s.phase.attempt, s.phase.already, s.phase.chunk, s.phase.eof, reply)
      else s
    case Finalize(reply) =>
      if s.phase.Finalizing? then FinalizeStep(s, r, s.phase.attempt, s.phase.already, s.phase.chunk, s.phase.eof,
                                               reply)
      else s
    case Fail(error) => if error == Ok then s else s.(phase := Returned(error))
    case LandPush(k) => if k in s.pushes then s.(lists := Push(s.lists, r, k), pushes := s.pushes - multiset{k}) else s
    case LandCreate(k) => if k in s.creates then s.(lists := Create(s.lists, r, k), creates := s.creates - {k}) else s
    case LandAttach(k, version) =>
      if (k, version) in s.attaches && version == s.version && s.attached.None? then Attach(s, r, k) else s
    case OtherResize(eof) => Resize(s, eof)
    case OtherDetach =>
      if s.attached.None? then s
      else s.(attached := None, detached := s.detached + {s.attached.value}, version := s.version + 1)
    case OtherAttach(k) =>
      // Others attach identities of their own, with a list behind them at least the first time.
      if s.attached.Some? || s.created == Some(k) || k >= s.nextChunk || (k !in s.lists && k !in s.detached) then s
      else s.(attached := Some(k), version := s.version + 1)
    case OtherAppend(k, id) => if k in s.lists && id != r.id then s.(lists := s.lists[k := s.lists[k] + [id]]) else s
    case OtherCreate(k, id) =>
      if k !in s.lists && k < s.nextChunk && s.created != Some(k) && id != r.id
      then s.(lists := s.lists[k := [id]]) else s
    case OtherAllocate => s.(nextChunk := s.nextChunk + 1)
    case Drop(k) => if k in s.detached && k in s.lists then s.(lists := s.lists - {k}) else s
  }

  function After(s: State, r: Record, events: seq<Event>): State {
    if events == [] then s else Step(After(s, r, events[..|events| - 1]), r, events[|events| - 1])
  }

  /** The step attaches an identity that was detached before. */
  predicate Reattaches(s: State, r: Record, e: Event) {
    var t := Step(s, r, e);
    t.attached.Some? && t.attached != s.attached && t.attached.value in s.detached
  }

  ghost predicate NoReattach(s: State, r: Record, events: seq<Event>) {
    forall n :: 0 <= n < |events| ==> !Reattaches(After(s, r, events[..n]), r, events[n])
  }

  // ---- The invariant ----

  function Count(lists: Lists, r: Record, k: nat): nat { if k in lists then multiset(lists[k])[r.id] else 0 }

  /** The record is in the list, or an append of it may still arrive. */
  predicate Touched(lists: Lists, pushes: multiset<nat>, r: Record, k: nat) { Present(lists, r, k) || k in pushes }

  ghost predicate Once(lists: Lists, pushes: multiset<nat>, r: Record) {
    forall k: nat :: Count(lists, r, k) + pushes[k] <= 1
  }

  /** Identities below the counter are the only ones anything refers to. */
  ghost predicate Allocated(s: State) {
    && (forall k :: k in s.lists ==> k < s.nextChunk)
    && (forall k :: k in s.detached ==> k < s.nextChunk)
    && (forall k :: k in s.pushes ==> k < s.nextChunk)
    && (s.attached.Some? ==>
          s.attached.value < s.nextChunk && s.attached.value in s.lists && s.attached.value !in s.detached)
    && (s.created.Some? ==> s.created.value < s.nextChunk)
    && (forall k :: k in s.creates ==> s.created == Some(k))
    && (forall a :: a in s.attaches ==> s.created == Some(a.0))
  }

  function Busy(s: State): Option<nat> {
    match s.phase
    case Chosen(_, _, k, _) => Some(k)
    case Finalizing(_, _, k, _) => Some(k)
    case _ => None
  }

  /** Lists this candidate touched were attached, or it created them. */
  ghost predicate TouchedKnown(s: State, r: Record) {
    && (forall k: nat :: Touched(s.lists, s.pushes, r, k) ==>
                           s.created == Some(k) || s.attached == Some(k) || k in s.detached)
    && (s.created.Some? ==> s.created.value !in s.pushes)
  }

  /** The list in use is remembered, unless the candidate has not touched it yet. */
  ghost predicate Remembered(s: State, r: Record) {
    s.attached.Some? && Touched(s.lists, s.pushes, r, s.attached.value) ==>
      && (s.recorded == s.attached || s.uncertain == s.attached)
      && (Busy(s).Some? ==> Busy(s) == s.attached)
  }

  ghost predicate CreatedAttached(s: State) {
    s.attached.Some? && s.attached == s.created ==>
      s.recorded == s.attached && (Busy(s).Some? ==> Busy(s) == s.attached)
  }

  /** What the phase has established. */
  ghost predicate PhaseOk(s: State, r: Record) {
    && (Busy(s).Some? ==> Busy(s).value < s.nextChunk)
    && (s.phase.Chosen? || s.phase.Finalizing? ==>
          if s.phase.already then s.attached == Some(s.phase.chunk) || s.phase.chunk in s.detached
          else s.created == Some(s.phase.chunk))
    && (s.phase.Chosen? && s.phase.already && Touched(s.lists, s.pushes, r, s.phase.chunk) ==>
          s.recorded == Some(s.phase.chunk) || s.uncertain == Some(s.phase.chunk))
    && (s.phase.Chosen? && s.phase.already && s.created == Some(s.phase.chunk) ==> s.recorded == Some(s.phase.chunk))
    && (s.phase.Finalizing? ==> s.recorded == Some(s.phase.chunk))
    && (s.recorded.Some? && s.recorded.value !in s.detached ==> Present(s.lists, r, s.recorded.value))
  }

  /** An attach still under way can only take effect while nothing else changed. */
  ghost predicate AttachesOk(s: State) {
    forall a :: a in s.attaches ==>
                  && a.1 <= s.version
                  && (a.1 == s.version ==>
                        s.attached.None? && s.recorded == Some(a.0) && (Busy(s).Some? ==> Busy(s) == Some(a.0)))
  }

  ghost predicate Inv(s: State, r: Record) {
    Once(s.lists, s.pushes, r) && Allocated(s) && TouchedKnown(s, r) && Remembered(s, r) && CreatedAttached(s)
    && PhaseOk(s, r) && AttachesOk(s)
  }

  // ---- Every step keeps it ----

  lemma CountPush(lists: Lists, r: Record, k: nat, j: nat)
    ensures Count(Push(lists, r, k), r, j) == Count(lists, r, j) + if j == k && k in lists then 1 else 0
    ensures Present(Push(lists, r, k), r, j) <==> Present(lists, r, j) || (j == k && k in lists)
  {
  }

  lemma CountCreate(lists: Lists, r: Record, k: nat, j: nat)
    ensures Count(Create(lists, r, k), r, j) == Count(lists, r, j) + if j == k && k !in lists then 1 else 0
    ensures Present(Create(lists, r, k), r, j) <==> Present(lists, r, j) || (j == k && k !in lists)
  {
  }

  lemma CountPresent(lists: Lists, r: Record, k: nat)
    ensures Count(lists, r, k) == 0 <==> !Present(lists, r, k)
  {
  }

  lemma SnapshotKeeps(s: State, r: Record)
    requires Inv(s, r) && s.phase.Start?
    ensures Inv(TakeSnapshot(s, s.phase.attempt), r)
  {
    hide Count, Once;
  }

  /** Only list `k` is affected, and no record disappears. */
  ghost predicate Extends(s: State, t: State, r: Record, k: nat) {
    && t == s.(lists := t.lists, pushes := t.pushes, creates := t.creates)
    && (forall j: nat :: j != k ==> (Touched(t.lists, t.pushes, r, j) <==> Touched(s.lists, s.pushes, r, j)))
    && (forall j: nat :: Present(s.lists, r, j) ==> Present(t.lists, r, j))
  }

  lemma PushKeeps(s: State, r: Record, t: State, k: nat)
    requires Inv(s, r) && s.phase.Chosen? && s.phase.already && k == s.phase.chunk && s.recorded != Some(k)
    requires s.uncertain != Some(k)
    requires t == s.(lists := Push(s.lists, r, k)) || t == s || t == s.(pushes := s.pushes + multiset{k})
    ensures Once(t.lists, t.pushes, r) && Allocated(t) && TouchedKnown(t, r) && AttachesOk(t) && Extends(s, t, r, k)
  {
    hide Count, Remembered, CreatedAttached;
    forall j: nat
      ensures Count(Push(s.lists, r, k), r, j) == Count(s.lists, r, j) + if j == k && k in s.lists then 1 else 0
      ensures Present(Push(s.lists, r, k), r, j) <==> Present(s.lists, r, j) || (j == k && k in s.lists)
      ensures Count(s.lists, r, j) == 0 <==> !Present(s.lists, r, j)
    {
      CountPush(s.lists, r, k, j);
      CountPresent(s.lists, r, j);
    }
    hide Present;
  }

  lemma CreateKeeps(s: State, r: Record, t: State, k: nat)
    requires Inv(s, r) && s.phase.Chosen? && !s.phase.already && k == s.phase.chunk && s.recorded != Some(k)
    requires s.uncertain != Some(k)
    requires t == s.(lists := Create(s.lists, r, k)) || t == s || t == s.(creates := s.creates + {k})
    ensures Once(t.lists, t.pushes, r) && Allocated(t) && TouchedKnown(t, r) && AttachesOk(t) && Extends(s, t, r, k)
  {
    hide Count, Remembered, CreatedAttached;
    forall j: nat
      ensures Count(Create(s.lists, r, k), r, j) == Count(s.lists, r, j) + if j == k && k !in s.lists then 1 else 0
      ensures Present(Create(s.lists, r, k), r, j) <==> Present(s.lists, r, j) || (j == k && k !in s.lists)
      ensures Count(s.lists, r, j) == 0 <==> !Present(s.lists, r, j)
    {
      CountCreate(s.lists, r, k, j);
      CountPresent(s.lists, r, j);
    }
    assert k !in s.lists ==> Count(s.lists, r, k) == 0 by { CountPresent(s.lists, r, k); }
    hide Present;
  }

  /** After the command, the candidate remembers the list it was sent to. */
  lemma IssueEnds(s: State, r: Record, sent: State, t: State)
    requires Inv(s, r) && s.phase.Chosen? && s.recorded != Some(s.phase.chunk) && s.uncertain != Some(s.phase.chunk)
    requires Once(sent.lists, sent.pushes, r) && Allocated(sent) && TouchedKnown(sent, r) && AttachesOk(sent)
    requires Extends(s, sent, r, s.phase.chunk)
    requires || (Present(sent.lists, r, s.phase.chunk)
                 && t == MarkRecorded(sent, s.phase.attempt, s.phase.already, s.phase.chunk, s.phase.eof))
             || t == sent.(uncertain := Some(s.phase.chunk), phase := Returned(OutcomeUnknown))
    ensures Inv(t, r)
  {
    hide Count, Once, Present;
  }

  lemma IssueKeeps(s: State, r: Record, reply: Reply)
    requires Inv(s, r) && s.phase.Chosen? && s.recorded != Some(s.phase.chunk) && s.uncertain != Some(s.phase.chunk)
    ensures Inv(Issue(s, r, s.phase.attempt, s.phase.already, s.phase.chunk, s.phase.eof, reply), r)
  {
    hide Inv, Once, Allocated, TouchedKnown, AttachesOk, Extends;
    var k := s.phase.chunk;
    var t := Issue(s, r, s.phase.attempt, s.phase.already, k, s.phase.eof, reply);
    if reply.Refused? {
      RefusedKeeps(s, r, IOError);
    } else {
      var sent := s.(lists := if s.phase.already then Push(s.lists, r, k) else Create(s.lists, r, k));
      if reply.Unheard? && reply.fate == Lost {
        sent := s;
      } else if reply.Unheard? && reply.fate == Delayed {
        sent := if s.phase.already then s.(pushes := s.pushes + multiset{k}) else s.(creates := s.creates + {k});
      }
      if s.phase.already {
        PushKeeps(s, r, sent, k);
        CountPush(s.lists, r, k, k);
      } else {
        CreateKeeps(s, r, sent, k);
        CountCreate(s.lists, r, k, k);
      }
      if t != s {
        IssueEnds(s, r, sent, t);
      }
    }
  }

  lemma RefusedKeeps(s: State, r: Record, status: Status)
    requires Inv(s, r)
    ensures Inv(s.(phase := Returned(status)), r)
  {
    hide Count, Once, Present;
  }

  lemma AppendKeeps(s: State, r: Record, reply: Reply)
    requires Inv(s, r) && s.phase.Chosen?
    ensures Inv(RecordStep(s, r, s.phase.attempt, s.phase.already, s.phase.chunk, s.phase.eof, reply), r)
  {
    if s.recorded == Some(s.phase.chunk) {
      FinalizingKeeps(s, r);
    } else if s.uncertain == Some(s.phase.chunk) {
      if reply == Accepted && Present(s.lists, r, s.phase.chunk) {
        ConfirmedKeeps(s, r);
      } else {
        RefusedKeeps(s, r, OutcomeUnknown);
      }
    } else {
      IssueKeeps(s, r, reply);
    }
  }

  lemma FinalizingKeeps(s: State, r: Record)
    requires Inv(s, r) && s.phase.Chosen? && s.recorded == Some(s.phase.chunk)
    ensures Inv(s.(phase := Finalizing(s.phase.attempt, s.phase.already, s.phase.chunk, s.phase.eof)), r)
  {
    hide Count, Once, Present;
  }

  lemma ConfirmedKeeps(s: State, r: Record)
    requires Inv(s, r) && s.phase.Chosen? && s.recorded != Some(s.phase.chunk) && Present(s.lists, r, s.phase.chunk)
    ensures Inv(MarkRecorded(s, s.phase.attempt, s.phase.already, s.phase.chunk, s.phase.eof), r)
  {
    hide Count, Once, Present;
  }

  lemma CommitKeeps(s: State, r: Record, already: bool, k: nat, eof: nat, status: Status)
    requires Inv(s, r) && s.phase.Finalizing? && s.phase.already == already && s.phase.chunk == k
    requires MayCommit(s, already, k, eof) && (already || k !in s.detached)
    ensures Inv(Commit(s, r, already, k).(phase := Returned(status)), r)
  {
    hide Count, Once;
  }

  lemma DelayedKeeps(s: State, r: Record, k: nat, status: Status)
    requires Inv(s, r) && s.phase.Finalizing? && s.phase.chunk == k && !s.phase.already && s.attached.None?
    ensures Inv(s.(attaches := s.attaches + {(k, s.version)}, phase := Returned(status)), r)
  {
    hide Count, Once, Present;
  }

  lemma FinalizeKeeps(s: State, r: Record, reply: Reply)
    requires Inv(s, r) && s.phase.Finalizing? && !Reattaches(s, r, Finalize(reply))
    ensures Inv(FinalizeStep(s, r, s.phase.attempt, s.phase.already, s.phase.chunk, s.phase.eof, reply), r)
  {
    hide Inv, Commit;
    var already, k, eof := s.phase.already, s.phase.chunk, s.phase.eof;
    RefusedKeeps(s, r, OutcomeUnknown);
    RefusedKeeps(s, r, AlreadyExists);
    RefusedKeeps(s, r, Ok);
    RetryKeeps(s, r);
    if MayCommit(s, already, k, eof) {
      if already || k !in s.detached {
        CommitKeeps(s, r, already, k, eof, Ok);
        CommitKeeps(s, r, already, k, eof, OutcomeUnknown);
      } else {
        AttachSets(s, r, k);
      }
      if !already {
        DelayedKeeps(s, r, k, OutcomeUnknown);
        DelayedKeeps(s, r, k, Ok);
      }
    }
  }

  lemma AttachSets(s: State, r: Record, k: nat)
    ensures Commit(s, r, false, k).attached == Some(k)
  {
  }

  lemma RetryKeeps(s: State, r: Record)
    requires Inv(s, r)
    ensures forall attempt :: Inv(s.(phase := Start(attempt)), r)
  {
    hide Count, Once, Present;
  }

  lemma LandPushKeeps(s: State, r: Record, k: nat)
    requires Inv(s, r) && k in s.pushes
    ensures Inv(s.(lists := Push(s.lists, r, k), pushes := s.pushes - multiset{k}), r)
  {
    hide Count;
    forall j: nat
      ensures Count(Push(s.lists, r, k), r, j) == Count(s.lists, r, j) + if j == k && k in s.lists then 1 else 0
      ensures Present(Push(s.lists, r, k), r, j) <==> Present(s.lists, r, j) || (j == k && k in s.lists)
    {
      CountPush(s.lists, r, k, j);
    }
    hide Present;
  }

  lemma LandCreateKeeps(s: State, r: Record, k: nat)
    requires Inv(s, r) && k in s.creates
    ensures Inv(s.(lists := Create(s.lists, r, k), creates := s.creates - {k}), r)
  {
    hide Count;
    forall j: nat
      ensures Count(Create(s.lists, r, k), r, j) == Count(s.lists, r, j) + if j == k && k !in s.lists then 1 else 0
      ensures Present(Create(s.lists, r, k), r, j) <==> Present(s.lists, r, j) || (j == k && k !in s.lists)
    {
      CountCreate(s.lists, r, k, j);
    }
    CountPresent(s.lists, r, k);
    assert k !in s.lists ==> !Present(s.lists, r, k);
    hide Present;
  }

  lemma LandAttachKeeps(s: State, r: Record, k: nat)
    requires Inv(s, r) && (k, s.version) in s.attaches && s.attached.None? && k !in s.detached
    ensures Inv(Attach(s, r, k), r)
  {
    hide Count, Once;
  }

  lemma ResizeKeeps(s: State, r: Record, eof: nat)
    requires Inv(s, r)
    ensures Inv(Resize(s, eof), r)
  {
    hide Count, Once, Present;
  }

  lemma DetachKeeps(s: State, r: Record)
    requires Inv(s, r) && s.attached.Some?
    ensures Inv(s.(attached := None, detached := s.detached + {s.attached.value}, version := s.version + 1), r)
  {
    hide Count, Once, Present;
  }

  lemma OtherAttachKeeps(s: State, r: Record, k: nat)
    requires Inv(s, r) && s.attached.None? && k !in s.detached && k in s.lists && s.created != Some(k)
    ensures Inv(s.(attached := Some(k), version := s.version + 1), r)
  {
    hide Count, Once, Present;
  }

  /** A list changed by others holds this record as often as before. */
  lemma OtherListKeeps(s: State, r: Record, lists: Lists)
    requires Inv(s, r) && (forall k: nat :: Count(lists, r, k) == Count(s.lists, r, k))
    requires forall k :: k in lists ==> k < s.nextChunk
    requires s.attached.Some? ==> s.attached.value in lists
    ensures Inv(s.(lists := lists), r)
  {
    forall k: nat ensures Present(lists, r, k) == Present(s.lists, r, k) {
      CountPresent(lists, r, k);
      CountPresent(s.lists, r, k);
    }
    hide Count, Present;
  }

  lemma DropKeeps(s: State, r: Record, k: nat)
    requires Inv(s, r) && k in s.detached && k in s.lists
    ensures Inv(s.(lists := s.lists - {k}), r)
  {
    var lists := s.lists - {k};
    forall j: nat
      ensures Count(lists, r, j) == if j == k then 0 else Count(s.lists, r, j)
      ensures Present(lists, r, j) <==> j != k && Present(s.lists, r, j)
    {
    }
    hide Count, Present;
  }

  lemma AllocateKeeps(s: State, r: Record)
    requires Inv(s, r)
    ensures Inv(s.(nextChunk := s.nextChunk + 1), r)
  {
    hide Count, Once, Present;
  }

  lemma OtherAppendKeeps(s: State, r: Record, k: nat, list: seq<nat>)
    requires Inv(s, r) && k < s.nextChunk && multiset(list)[r.id] == Count(s.lists, r, k)
    ensures Inv(s.(lists := s.lists[k := list]), r)
  {
    hide Once, TouchedKnown, Remembered, CreatedAttached, PhaseOk, AttachesOk;
    OtherListKeeps(s, r, s.lists[k := list]);
  }

  lemma StepKeeps(s: State, r: Record, e: Event)
    requires Inv(s, r) && !Reattaches(s, r, e)
    ensures Inv(Step(s, r, e), r)
  {
    match e {
      case OtherAppend(k, id) =>
        if k in s.lists && id != r.id {
          OtherAppendKeeps(s, r, k, s.lists[k] + [id]);
        }
      case OtherCreate(k, id) =>
        if k !in s.lists && k < s.nextChunk && id != r.id {
          OtherAppendKeeps(s, r, k, [id]);
        }
      case _ => StepKeepsRest(s, r, e);
    }
  }

  lemma StepKeepsRest(s: State, r: Record, e: Event)
    requires Inv(s, r) && !e.OtherAppend? && !e.OtherCreate? && !Reattaches(s, r, e)
    ensures Inv(Step(s, r, e), r)
  {
    hide Inv, TakeSnapshot, RecordStep, FinalizeStep, Push, Create, Resize;
    match e {
      case Begin => RetryKeeps(s, r);
      case Snapshot => if s.phase.Start? { SnapshotKeeps(s, r); }
      case Append(reply) => if s.phase.Chosen? { AppendKeeps(s, r, reply); }
      case Finalize(reply) => if s.phase.Finalizing? { FinalizeKeeps(s, r, reply); }
      case Fail(error) => RefusedKeeps(s, r, error);
      case LandPush(k) => if k in s.pushes { LandPushKeeps(s, r, k); }
      case LandCreate(k) => if k in s.creates { LandCreateKeeps(s, r, k); }
      case LandAttach(k, version) =>
        if (k, version) in s.attaches && version == s.version && s.attached.None? { LandAttachKeeps(s, r, k); }
      case OtherResize(eof) => ResizeKeeps(s, r, eof);
      case OtherDetach => if s.attached.Some? { DetachKeeps(s, r); }
      case OtherAttach(k) =>
        if Step(s, r, e) != s { OtherAttachKeeps(s, r, k); }
      case OtherAllocate => AllocateKeeps(s, r);
      case Drop(k) => if k in s.detached && k in s.lists { DropKeeps(s, r, k); }
    }
  }

  // ---- Every run ----

  /** Any state of the lists and mappings, before the candidate is published for the first time. */
  ghost predicate Fresh(s: State, r: Record) {
    && (forall k: nat :: !Present(s.lists, r, k))
    && s.pushes == multiset{} && s.creates == {} && s.attaches == {}
    && s.recorded.None? && s.created.None? && s.uncertain.None? && s.phase.Idle?
    && Allocated(s)
  }

  lemma FreshInv(s: State, r: Record)
    requires Fresh(s, r)
    ensures Inv(s, r)
  {
    forall k: nat ensures Count(s.lists, r, k) == 0 {
      CountPresent(s.lists, r, k);
    }
    hide Count, Present;
  }

  lemma {:induction false} AfterKeeps(s: State, r: Record, events: seq<Event>)
    requires Fresh(s, r) && NoReattach(s, r, events)
    ensures Inv(After(s, r, events), r)
    decreases |events|
  {
    if events == [] {
      FreshInv(s, r);
    } else {
      var front := events[..|events| - 1];
      assert NoReattach(s, r, front) by {
        assert forall n :: 0 <= n < |front| ==> front[..n] == events[..n];
      }
      AfterKeeps(s, r, front);
      StepKeeps(After(s, r, front), r, events[|events| - 1]);
    }
  }

  /**
   However often publication is retried and whatever replies are lost, no list ever holds the
   record twice, as long as no detached identity is attached again.
   */
  lemma AtMostOnce(s: State, r: Record, events: seq<Event>, k: nat)
    requires Fresh(s, r) && NoReattach(s, r, events)
    ensures Count(After(s, r, events).lists, r, k) <= 1
  {
    AfterKeeps(s, r, events);
  }

  // ---- The end of the file ----

  /** The steps of the candidate and of its commands, against those of other mounts. */
  predicate OwnStep(e: Event) {
    e.Begin? || e.Snapshot? || e.Append? || e.Finalize? || e.Fail? || e.LandPush? || e.LandCreate? || e.LandAttach?
  }

  lemma OnlyFinalize(s: State, r: Record, e: Event)
    requires s.phase != Returned(Ok) && Step(s, r, e).phase == Returned(Ok)
    ensures e.Finalize? && s.phase.Finalizing?
  {
    hide Present, Push, Create, FinalizeStep;
  }

  /**
   No step of the candidate ever shortens the file, and none moves its end anywhere but to the
   record's.  The step that returns OK leaves the later of the two ends.
   */
  lemma StepEnd(s: State, r: Record, e: Event)
    ensures var t := Step(s, r, e);
            && (OwnStep(e) ==> s.eof <= t.eof && (t.eof == s.eof || t.eof == r.end))
            && (e.Begin? || e.Snapshot? || e.Append? || e.Fail? || e.LandPush? || e.LandCreate? ==> t.eof == s.eof)
            && (t.phase == Returned(Ok) && s.phase != Returned(Ok) ==>
                  s.eof <= t.eof && r.end <= t.eof && (t.eof == s.eof || t.eof == r.end))
  {
    hide Present, Push, Create;
    if Step(s, r, e).phase == Returned(Ok) && s.phase != Returned(Ok) {
      OnlyFinalize(s, r, e);
    }
  }

  /** The step that makes the call return OK leaves the record attached, once, and the later of the two ends. */
  lemma PublishedMeans(s: State, r: Record, events: seq<Event>, e: Event)
    requires Fresh(s, r) && NoReattach(s, r, events) && !Reattaches(After(s, r, events), r, e)
    ensures var before, after := After(s, r, events), Step(After(s, r, events), r, e);
            after.phase == Returned(Ok) && before.phase != Returned(Ok) ==>
              && after.attached.Some? && Present(after.lists, r, after.attached.value)
              && Count(after.lists, r, after.attached.value) == 1
              && before.eof <= after.eof && r.end <= after.eof && (after.eof == before.eof || after.eof == r.end)
  {
    AfterKeeps(s, r, events);
    var before := After(s, r, events);
    var after := Step(before, r, e);
    StepKeeps(before, r, e);
    StepEnd(before, r, e);
    if after.phase == Returned(Ok) && before.phase != Returned(Ok) {
      OkStep(before, r, e);
      CountPresent(after.lists, r, after.attached.value);
    }
  }

  lemma OkStep(s: State, r: Record, e: Event)
    requires Inv(s, r) && s.phase != Returned(Ok) && Step(s, r, e).phase == Returned(Ok) && !Reattaches(s, r, e)
    ensures var t := Step(s, r, e);
            t.attached.Some? && Present(t.lists, r, t.attached.value) && r.end <= t.eof
  {
    OnlyFinalize(s, r, e);
    hide Inv, Present, RecordStep, TakeSnapshot, Push, Create;
    FinalizingRecorded(s, r);
  }

  lemma FinalizingRecorded(s: State, r: Record)
    requires Inv(s, r) && s.phase.Finalizing?
    ensures s.phase.chunk !in s.detached ==> Present(s.lists, r, s.phase.chunk)
    ensures s.attached.Some? ==> s.attached.value !in s.detached
  {
  }

  /**
   The candidate moves the end or the mapping only over the state it saw: a commit over the end and
   mapping of its snapshot, an attach that arrives late over the version it was sent at.
   */
  lemma CommitsOverSnapshot(s: State, r: Record, e: Event)
    requires OwnStep(e) && (Step(s, r, e).eof != s.eof || Step(s, r, e).attached != s.attached)
    ensures if e.LandAttach? then s.version == e.version && s.attached.None? && (e.chunk, e.version) in s.attaches
            else && e.Finalize? && s.phase.Finalizing? && s.eof == s.phase.eof
                 && s.attached == if s.phase.already then Some(s.phase.chunk) else None
  {
    hide Present, Push, Create;
  }

  /** Every change of the end or the mapping, by anyone, moves the version on, so an attach sent before is void. */
  lemma VersionMoves(s: State, r: Record, e: Event)
    ensures var t := Step(s, r, e);
            && s.version <= t.version && (t.eof != s.eof || t.attached != s.attached ==> s.version < t.version)
            && (forall a :: a in t.attaches && a !in s.attaches ==> a.1 == s.version == t.version)
  {
    hide Present, Push, Create, RecordStep, TakeSnapshot;
    if e.Append? && s.phase.Chosen? {
      AppendFrame(s, r, e.reply);
    }
    if e.Snapshot? && s.phase.Start? {
      SnapshotFrame(s, s.phase.attempt);
    }
  }

  lemma SnapshotFrame(s: State, attempt: nat)
    ensures var t := TakeSnapshot(s, attempt);
            t.eof == s.eof && t.attached == s.attached && t.version == s.version && t.attaches == s.attaches
  {
  }

  lemma AppendFrame(s: State, r: Record, reply: Reply)
    requires s.phase.Chosen?
    ensures var t := RecordStep(s, r, s.phase.attempt, s.phase.already, s.phase.chunk, s.phase.eof, reply);
            t.eof == s.eof && t.attached == s.attached && t.version == s.version && t.attaches == s.attaches
  {
    hide Present, Push, Create;
  }

  lemma StaleAttachVoid(s: State, r: Record, events: seq<Event>, k: nat, version: nat)
    requires version < s.version
    ensures Step(After(s, r, events), r, LandAttach(k, version)) == After(s, r, events)
  {
    StaleVersion(s, r, events);
  }

  lemma {:induction false} StaleVersion(s: State, r: Record, events: seq<Event>)
    ensures s.version <= After(s, r, events).version
    decreases |events|
  {
    hide Step;
    if events != [] {
      StaleVersion(s, r, events[..|events| - 1]);
      VersionMoves(After(s, r, events[..|events| - 1]), r, events[|events| - 1]);
    }
  }

  // ---- What a step does to the lists ----

  /** The list is as it was, or has the record behind what it held. */
  ghost predicate Kept(before: Lists, after: Lists, r: Record, k: nat) {
    if k in before then k in after && (after[k] == before[k] || after[k] == before[k] + [r.id])
    else k in after ==> after[k] == [r.id]
  }

  ghost predicate SameBut(before: Lists, after: Lists, k: nat) {
    forall j: nat :: j != k ==> (j in after <==> j in before) && (j in before ==> after[j] == before[j])
  }

  /** Steps of the candidate lose and reorder nothing, touch one list at most, and add only the record. */
  lemma StepLists(s: State, r: Record, e: Event)
    requires OwnStep(e)
    ensures forall k: nat :: Kept(s.lists, Step(s, r, e).lists, r, k)
    ensures exists k: nat :: SameBut(s.lists, Step(s, r, e).lists, k)
  {
    var k := StepGrows(s, r, e);
    hide Step;
    assert SameBut(s.lists, Step(s, r, e).lists, k);
  }

  lemma StepGrows(s: State, r: Record, e: Event) returns (k: nat)
    requires OwnStep(e)
    ensures var after := Step(s, r, e).lists;
            after == s.lists || after == Push(s.lists, r, k) || after == Create(s.lists, r, k)
  {
    hide Push, Create, RecordStep, FinalizeStep, TakeSnapshot;
    k := 0;
    match e {
      case Snapshot =>
        if s.phase.Start? {
          SnapshotLists(s, s.phase.attempt);
        }
      case Append(reply) =>
        if s.phase.Chosen? {
          k := s.phase.chunk;
          AppendGrows(s, r, reply);
        }
      case Finalize(reply) =>
        if s.phase.Finalizing? {
          FinalizeLists(s, r, reply);
        }
      case LandPush(j) => k := j;
      case LandCreate(j) => k := j;
      case _ =>
    }
  }

  lemma AppendGrows(s: State, r: Record, reply: Reply)
    requires s.phase.Chosen?
    ensures var k := s.phase.chunk;
            var after := RecordStep(s, r, s.phase.attempt, s.phase.already, k, s.phase.eof, reply).lists;
            after == s.lists || after == Push(s.lists, r, k) || after == Create(s.lists, r, k)
  {
    hide Push, Create, Present;
  }

  // ---- A call that nothing disturbs ----

  /** The reply says that the command was applied, or reading back does. */
  predicate Confirmed(reply: Reply) { reply == Accepted || reply == Unheard(Applied, true) }

  /**
   From any state before the first call, a call whose commands are applied publishes, also when a
   lost reply has to be made up for by reading back: the record is the newest of the attached list,
   or of a new list attached for it, the end of the file covers it, and nothing else is different.
   Only an append to a list already attached cannot be finalized by reading back.
   */
  lemma UndisturbedPublish(s: State, r: Record, append: Reply, finalize: Reply)
    requires Fresh(s, r) && Confirmed(append) && Confirmed(finalize)
    ensures var t := After(s, r, [Begin, Snapshot, Append(append), Finalize(finalize)]);
            && t.phase == Returned(if finalize == Accepted || s.attached.None? then Ok else OutcomeUnknown)
            && s.eof <= t.eof && r.end <= t.eof && (t.eof == s.eof || t.eof == r.end)
            && t.detached == s.detached && t.pushes == s.pushes && t.creates == s.creates && t.attaches == s.attaches
            && if s.attached.Some?
               then t.attached == s.attached && t.nextChunk == s.nextChunk
                    && t.lists == s.lists[s.attached.value := s.lists[s.attached.value] + [r.id]]
               else t.attached == Some(s.nextChunk) && t.nextChunk == s.nextChunk + 1
                    && t.lists == s.lists[s.nextChunk := [r.id]]
  {
    hide Step, After, Present;
    AfterFour(s, r, Begin, Snapshot, Append(append), Finalize(finalize));
    var k := FirstSnapshot(s, r);
    var chosen := Step(Step(s, r, Begin), r, Snapshot);
    AppendConfirmed(chosen, r, append);
    assert [] + [r.id] == [r.id];
    FinalizeConfirmed(Step(chosen, r, Append(append)), r, finalize);
  }

  lemma FirstSnapshot(s: State, r: Record) returns (k: nat)
    requires Fresh(s, r)
    ensures var t := Step(Step(s, r, Begin), r, Snapshot);
            && t == s.(created := t.created, nextChunk := t.nextChunk, phase := Chosen(0, s.attached.Some?, k, s.eof))
            && (s.attached.Some? <==> k in s.lists)
            && if s.attached.Some? then s.attached == Some(k) && t.nextChunk == s.nextChunk
               else k == s.nextChunk && t.nextChunk == s.nextChunk + 1
  {
    k := if s.attached.Some? then s.attached.value else s.nextChunk;
    var t := Step(Step(s, r, Begin), r, Snapshot);
    assert t.phase == Chosen(0, s.attached.Some?, k, s.eof);
  }

  lemma AppendConfirmed(s: State, r: Record, reply: Reply)
    requires s.phase.Chosen? && s.recorded.None? && s.uncertain.None? && Confirmed(reply)
    requires s.phase.already <==> s.phase.chunk in s.lists
    ensures var k := s.phase.chunk;
            Step(s, r, Append(reply)) ==
            s.(recorded := Some(k), phase := Finalizing(s.phase.attempt, s.phase.already, k, s.phase.eof),
            lists := s.lists[k := (if k in s.lists then s.lists[k] else []) + [r.id]])
  {
    assert [] + [r.id] == [r.id];
  }

  lemma FinalizeConfirmed(s: State, r: Record, reply: Reply)
    requires s.phase.Finalizing? && Confirmed(reply) && s.eof == s.phase.eof
    requires s.attached == if s.phase.already then Some(s.phase.chunk) else None
    ensures var t := Step(s, r, Finalize(reply));
            && t == s.(attached := Some(s.phase.chunk), eof := t.eof, version := t.version, phase := t.phase)
            && t.phase == Returned(if reply == Accepted || !s.phase.already then Ok else OutcomeUnknown)
            && s.eof <= t.eof && r.end <= t.eof && (t.eof == s.eof || t.eof == r.end)
  {
  }

  lemma AfterFour(s: State, r: Record, a: Event, b: Event, c: Event, d: Event)
    ensures After(s, r, [a, b, c, d]) == Step(Step(Step(Step(s, r, a), r, b), r, c), r, d)
  {
    hide Step;
    var events := [a, b, c, d];
    AfterNothing(s, r, events);
    AfterNext(s, r, events, 0);
    AfterNext(s, r, events, 1);
    AfterNext(s, r, events, 2);
    AfterNext(s, r, events, 3);
    assert events[..4] == events;
  }

  /** The list the candidate would use now is the one its record is in, and it knows or can find out. */
  ghost predicate Resumable(s: State, r: Record, k: nat) {
    && (s.phase.Idle? || s.phase.Returned?) && Present(s.lists, r, k)
    && (s.attached == Some(k) || (s.attached.None? && s.created == Some(k)))
    && (s.recorded == Some(k) || s.uncertain == Some(k))
  }

  /** Calling again after a lost reply attaches what is there without sending the record a second time. */
  lemma RetryPublishes(s: State, r: Record, k: nat)
    requires Resumable(s, r, k)
    ensures var t := After(s, r, [Begin, Snapshot, Append(Accepted), Finalize(Accepted)]);
            && t.phase == Returned(Ok) && t.attached == Some(k) && t.lists == s.lists
            && s.eof <= t.eof && r.end <= t.eof && (t.eof == s.eof || t.eof == r.end)
  {
    AfterFour(s, r, Begin, Snapshot, Append(Accepted), Finalize(Accepted));
  }

  /** An append whose reply is lost leaves a resumable call behind if it was applied. */
  lemma UnheardResumes(s: State, r: Record, confirmed: bool)
    requires Fresh(s, r)
    ensures var t := After(s, r, [Begin, Snapshot, Append(Unheard(Applied, confirmed)), Fail(Unavailable)]);
            exists k: nat :: Resumable(t, r, k)
  {
    AfterFour(s, r, Begin, Snapshot, Append(Unheard(Applied, confirmed)), Fail(Unavailable));
    var k := if s.attached.Some? then s.attached.value else s.nextChunk;
    var t := Step(Step(Step(Step(s, r, Begin), r, Snapshot), r, Append(Unheard(Applied, confirmed))), r,
                  Fail(Unavailable));
    assert Resumable(t, r, k);
  }

  // ---- How often a call tries ----

  function TriedIn(phase: Phase): nat {
    match phase
    case Start(attempt) => attempt
    case Chosen(attempt, _, _, _) => attempt
    case Finalizing(attempt, _, _, _) => attempt
    case _ => 0
  }

  /** The refused finalizations since the call began. */
  function Refusals(s: State, r: Record, events: seq<Event>): nat {
    if events == [] then 0
    else
      var front, e := events[..|events| - 1], events[|events| - 1];
      var phase := After(s, r, front).phase;
      if e.Begin? && (phase.Idle? || phase.Returned?) then 0
      else if e == Finalize(Refused) && phase.Finalizing? then Refusals(s, r, front) + 1
      else Refusals(s, r, front)
  }

  /** While a call is at work its attempt number counts the refusals, which stay below eight; then it gives up. */
  lemma {:induction false} RefusalsCounted(s: State, r: Record, events: seq<Event>)
    requires Fresh(s, r)
    ensures var t := After(s, r, events);
            && (t.phase.Start? || Busy(t).Some? ==>
                  TriedIn(t.phase) == Refusals(s, r, events) < MAX_ATTEMPTS)
            && (Refusals(s, r, events) <= MAX_ATTEMPTS)
            && (Refusals(s, r, events) == MAX_ATTEMPTS ==> t.phase.Returned?)
    decreases |events|
  {
    if events != [] {
      var front, e := events[..|events| - 1], events[|events| - 1];
      RefusalsCounted(s, r, front);
      StepTries(After(s, r, front), r, e);
      hide Step;
    }
  }

  lemma StepTries(s: State, r: Record, e: Event)
    requires TriedIn(s.phase) < MAX_ATTEMPTS
    ensures var t := Step(s, r, e);
            if e.Begin? && (s.phase.Idle? || s.phase.Returned?) then t.phase == Start(0)
            else if s.phase.Idle? || s.phase.Returned? then t.phase == s.phase || t.phase.Returned?
            else if e == Finalize(Refused) && s.phase.Finalizing?
            then t.phase.Returned? || (t.phase.Start? && TriedIn(t.phase) == TriedIn(s.phase) + 1 < MAX_ATTEMPTS)
            else t.phase.Returned? || (!t.phase.Idle? && TriedIn(t.phase) == TriedIn(s.phase))
    ensures e == Finalize(Refused) && s.phase.Finalizing? && TriedIn(s.phase) + 1 < MAX_ATTEMPTS ==>
              Step(s, r, e).phase.Start?
  {
    hide Present, Push, Create, MayCommit, Commit;
  }

  // ---- Without the hypothesis ----

  /** An accepted append keeps every list at one copy exactly when the chosen one is untouched so far. */
  lemma AppendExactly(s: State, r: Record)
    requires Once(s.lists, s.pushes, r) && s.phase.Chosen? && (s.phase.already <==> s.phase.chunk in s.lists)
    requires s.recorded != Some(s.phase.chunk) && s.uncertain != Some(s.phase.chunk)
    ensures var t := Step(s, r, Append(Accepted));
            Once(t.lists, t.pushes, r) <==> !Touched(s.lists, s.pushes, r, s.phase.chunk)
  {
    var k := s.phase.chunk;
    forall j: nat
      ensures Count(Push(s.lists, r, k), r, j) == Count(s.lists, r, j) + if j == k && k in s.lists then 1 else 0
      ensures Count(Create(s.lists, r, k), r, j) == Count(s.lists, r, j) + if j == k && k !in s.lists then 1 else 0
      ensures Count(s.lists, r, j) == 0 <==> !Present(s.lists, r, j)
    {
      CountPush(s.lists, r, k, j);
      CountCreate(s.lists, r, k, j);
      CountPresent(s.lists, r, j);
    }
    hide Count, Present, Push, Create;
  }

  /** The list was dropped with the record in it, and the record never came back. */
  ghost predicate DroppedSince(s: State, r: Record, events: seq<Event>, k: nat) {
    exists n :: 0 <= n < |events| && events[n] == Drop(k) && HeldAfter(s, r, events, k, n) &&
                forall m :: n < m <= |events| ==> !HeldAfter(s, r, events, k, m)
  }

  ghost predicate HeldAfter(s: State, r: Record, events: seq<Event>, k: nat, n: nat)
    requires n <= |events|
  {
    Present(After(s, r, events[..n]).lists, r, k)
  }

  /** Nothing but a drop of its list takes the record out of it. */
  lemma OnlyDropLoses(s: State, r: Record, e: Event, k: nat)
    requires Present(s.lists, r, k) && !Present(Step(s, r, e).lists, r, k)
    ensures e == Drop(k)
  {
    hide RecordStep, FinalizeStep, Push, Create, TakeSnapshot;
    match e {
      case Snapshot =>
        if s.phase.Start? {
          SnapshotLists(s, s.phase.attempt);
        }
      case Append(reply) =>
        if s.phase.Chosen? {
          AppendHolds(s, r, reply, k);
        }
      case Finalize(reply) =>
        if s.phase.Finalizing? {
          FinalizeLists(s, r, reply);
        }
      case LandPush(j) => GrowingHolds(s.lists, r, j, k);
      case LandCreate(j) => GrowingHolds(s.lists, r, j, k);
      case _ =>
    }
  }

  lemma SnapshotLists(s: State, attempt: nat)
    ensures TakeSnapshot(s, attempt).lists == s.lists
  {
  }

  lemma AppendHolds(s: State, r: Record, reply: Reply, k: nat)
    requires s.phase.Chosen? && Present(s.lists, r, k)
    ensures Present(RecordStep(s, r, s.phase.attempt, s.phase.already, s.phase.chunk, s.phase.eof, reply).lists, r, k)
  {
    GrowingHolds(s.lists, r, s.phase.chunk, k);
    hide Push, Create, Present;
  }

  lemma FinalizeLists(s: State, r: Record, reply: Reply)
    requires s.phase.Finalizing?
    ensures FinalizeStep(s, r, s.phase.attempt, s.phase.already, s.phase.chunk, s.phase.eof, reply).lists == s.lists
  {
  }

  lemma GrowingHolds(lists: Lists, r: Record, j: nat, k: nat)
    requires Present(lists, r, k)
    ensures Present(Push(lists, r, j), r, k) && Present(Create(lists, r, j), r, k)
  {
  }

  lemma AddedHeld(lists: Lists, r: Record, k: nat)
    ensures k in lists ==> Present(Push(lists, r, k), r, k)
    ensures k !in lists ==> Present(Create(lists, r, k), r, k)
  {
  }

  /** What the candidate believes recorded was there at that moment. */
  lemma StepRecorded(s: State, r: Record, e: Event)
    requires s.phase.Finalizing? ==> s.recorded == Some(s.phase.chunk)
    ensures var t := Step(s, r, e);
            && (t.phase.Finalizing? ==> t.recorded == Some(t.phase.chunk))
            && (t.recorded != s.recorded ==> t.recorded.Some? && Present(t.lists, r, t.recorded.value))
  {
    if s.phase.Chosen? {
      AddedHeld(s.lists, r, s.phase.chunk);
    }
    hide Push, Create, Present;
  }

  lemma AfterNext(s: State, r: Record, events: seq<Event>, n: nat)
    requires n < |events|
    ensures After(s, r, events[..n + 1]) == Step(After(s, r, events[..n]), r, events[n])
  {
    assert events[..n + 1][..n] == events[..n];
  }

  /** In every run, what is believed recorded did arrive once. */
  lemma {:induction false} RecordedArrived(s: State, r: Record, events: seq<Event>, n: nat)
    requires Fresh(s, r) && n <= |events|
    ensures var x := After(s, r, events[..n]);
            && (x.phase.Finalizing? ==> x.recorded == Some(x.phase.chunk))
            && (x.recorded.Some? ==> exists i :: 0 <= i <= n && HeldAfter(s, r, events, x.recorded.value, i))
  {
    hide Step, After, Present;
    if n == 0 {
      assert After(s, r, events[..0]) == s by { AfterNothing(s, r, events); }
    } else {
      RecordedArrived(s, r, events, n - 1);
      AfterNext(s, r, events, n - 1);
      var x := After(s, r, events[..n - 1]);
      var y := After(s, r, events[..n]);
      StepRecorded(x, r, events[n - 1]);
      if y.recorded != x.recorded {
        assert HeldAfter(s, r, events, y.recorded.value, n);
      }
    }
  }

  lemma AfterNothing(s: State, r: Record, events: seq<Event>)
    ensures After(s, r, events[..0]) == s
  {
  }

  lemma {:induction false} GoneIsDropped(s: State, r: Record, events: seq<Event>, k: nat, i: nat)
    requires i <= |events| && HeldAfter(s, r, events, k, i) && !HeldAfter(s, r, events, k, |events|)
    ensures DroppedSince(s, r, events, k)
    decreases |events| - i
  {
    hide HeldAfter;
    if m :| i < m <= |events| && HeldAfter(s, r, events, k, m) {
      GoneIsDropped(s, r, events, k, m);
    } else {
      assert events[i] == Drop(k) by { LosesNext(s, r, events, k, i); }
    }
  }

  lemma LosesNext(s: State, r: Record, events: seq<Event>, k: nat, i: nat)
    requires i < |events| && HeldAfter(s, r, events, k, i) && !HeldAfter(s, r, events, k, i + 1)
    ensures events[i] == Drop(k)
  {
    hide Step, After, Present;
    AfterNext(s, r, events, i);
    OnlyDropLoses(After(s, r, events[..i]), r, events[i], k);
  }

  /** The step that returns OK commits the list it finalizes and leaves every list alone. */
  lemma OkCommits(s: State, r: Record, e: Event)
    requires s.phase != Returned(Ok) && Step(s, r, e).phase == Returned(Ok)
    ensures var t := Step(s, r, e);
            s.phase.Finalizing? && t.attached == Some(s.phase.chunk) && t.lists == s.lists && r.end <= t.eof
  {
    OnlyFinalize(s, r, e);
  }

  /**
   In every run at all, the step that returns OK leaves the record in the attached list exactly
   when that list was not dropped with the record in it since the append.
   */
  lemma PublishedExactly(s: State, r: Record, events: seq<Event>, e: Event)
    requires Fresh(s, r)
    ensures var before, after := After(s, r, events), Step(After(s, r, events), r, e);
            after.phase == Returned(Ok) && before.phase != Returned(Ok) ==>
              && after.attached.Some? && r.end <= after.eof
              && (Present(after.lists, r, after.attached.value) <==> !DroppedSince(s, r, events, after.attached.value))
  {
    hide Step, After, Present, DroppedSince, Fresh;
    var before, after := After(s, r, events), Step(After(s, r, events), r, e);
    if after.phase == Returned(Ok) && before.phase != Returned(Ok) {
      OkCommits(before, r, e);
      var k := before.phase.chunk;
      assert events[..|events|] == events;
      RecordedArrived(s, r, events, |events|);
      if HeldAfter(s, r, events, k, |events|) {
        HeldNotDropped(s, r, events, k);
      } else {
        var i :| 0 <= i <= |events| && HeldAfter(s, r, events, k, i);
        GoneIsDropped(s, r, events, k, i);
      }
    }
  }

  lemma HeldNotDropped(s: State, r: Record, events: seq<Event>, k: nat)
    requires HeldAfter(s, r, events, k, |events|)
    ensures !DroppedSince(s, r, events, k)
  {
    hide HeldAfter;
  }

  /** A run written out state by state. */
  ghost predicate Trace(states: seq<State>, r: Record, events: seq<Event>) {
    |states| == |events| + 1 && forall n :: 0 <= n < |events| ==> Step(states[n], r, events[n]) == states[n + 1]
  }

  lemma {:induction false} TraceAfter(states: seq<State>, r: Record, events: seq<Event>, n: nat)
    requires Trace(states, r, events) && n <= |events|
    ensures After(states[0], r, events[..n]) == states[n]
  {
    if n > 0 {
      TraceAfter(states, r, events, n - 1);
      assert events[..n][..n - 1] == events[..n - 1];
    }
  }

  const RECORD := Record(5, 1)

  function View(lists: Lists, attached: Option<nat>, detached: set<nat>, eof: nat, version: nat, nextChunk: nat,
                recorded: Option<nat>, created: Option<nat>, phase: Phase): State {
    State(lists, attached, detached, eof, version, nextChunk, multiset{}, {}, {}, recorded, created, None, phase)
  }

  /** The list of another mount is attached, detached, and attached again by the mount that created it. */
  const MOVED := [Begin, Snapshot, Append(Accepted), OtherDetach, Finalize(Refused), Snapshot, Append(Accepted),
                  OtherAttach(1), Finalize(Refused), Snapshot, Append(Accepted)]

  const M0 := View(map[1 := [9]], Some(1), {}, 0, 0, 2, None, None, Idle)
  const M1 := View(map[1 := [9]], Some(1), {}, 0, 0, 2, None, None, Start(0))
  const M2 := View(map[1 := [9]], Some(1), {}, 0, 0, 2, None, None, Chosen(0, true, 1, 0))
  const M3 := View(map[1 := [9, 5]], Some(1), {}, 0, 0, 2, Some(1), None, Finalizing(0, true, 1, 0))
  const M4 := View(map[1 := [9, 5]], None, {1}, 0, 1, 2, Some(1), None, Finalizing(0, true, 1, 0))
  const M5 := View(map[1 := [9, 5]], None, {1}, 0, 1, 2, Some(1), None, Start(1))
  const M6 := View(map[1 := [9, 5]], None, {1}, 0, 1, 3, Some(1), Some(2), Chosen(1, false, 2, 0))
  const M7 := View(map[1 := [9, 5], 2 := [5]], None, {1}, 0, 1, 3, Some(2), Some(2), Finalizing(1, false, 2, 0))
  const M8 := View(map[1 := [9, 5], 2 := [5]], Some(1), {1}, 0, 2, 3, Some(2), Some(2), Finalizing(1, false, 2, 0))
  const M9 := View(map[1 := [9, 5], 2 := [5]], Some(1), {1}, 0, 2, 3, Some(2), Some(2), Start(2))
  const M10 := View(map[1 := [9, 5], 2 := [5]], Some(1), {1}, 0, 2, 3, Some(2), Some(2), Chosen(2, true, 1, 0))
  const M11 := View(map[1 := [9, 5, 5], 2 := [5]], Some(1), {1}, 0, 2, 3, Some(1), Some(2), Finalizing(2, true, 1, 0))

  lemma MovedFirst()
    ensures Step(M0, RECORD, Begin) == M1 && Step(M1, RECORD, Snapshot) == M2
            && Step(M2, RECORD, Append(Accepted)) == M3
    ensures Step(M3, RECORD, OtherDetach) == M4 && Step(M4, RECORD, Finalize(Refused)) == M5
  {
    assert M2.lists[1] + [5] == [9, 5];
    assert Push(M2.lists, RECORD, 1) == M3.lists;
  }

  lemma MovedThen()
    ensures Step(M5, RECORD, Snapshot) == M6 && Step(M6, RECORD, Append(Accepted)) == M7
    ensures Step(M7, RECORD, OtherAttach(1)) == M8 && Step(M8, RECORD, Finalize(Refused)) == M9
    ensures Step(M9, RECORD, Snapshot) == M10 && Step(M10, RECORD, Append(Accepted)) == M11
  {
    assert Create(M6.lists, RECORD, 2) == M7.lists;
    assert M10.lists[1] + [5] == [9, 5, 5];
    assert Push(M10.lists, RECORD, 1) == M11.lists;
  }

  /** The candidate moved on to a list of its own; the other list is attached again and gets a second copy. */
  lemma ReattachedListRepeats()
    ensures Fresh(M0, RECORD) && Reattaches(After(M0, RECORD, MOVED[..7]), RECORD, MOVED[7])
    ensures Count(After(M0, RECORD, MOVED).lists, RECORD, 1) == 2
  {
    hide Step, After;
    MovedFirst();
    MovedThen();
    var states := [M0, M1, M2, M3, M4, M5, M6, M7, M8, M9, M10, M11];
    assert Trace(states, RECORD, MOVED);
    TraceAfter(states, RECORD, MOVED, 7);
    TraceAfter(states, RECORD, MOVED, 11);
    assert MOVED[..11] == MOVED;
    assert multiset(M11.lists[1])[5] == 2;
  }

  /** The candidate's own attach is applied without its reply, then undone by another mount, and the list dropped. */
  const UNDONE := [Begin, Snapshot, Append(Accepted), Finalize(Unheard(Applied, false)), OtherDetach, Drop(1),
                   Begin, Snapshot, Append(Accepted), Finalize(Accepted)]

  const U0 := View(map[], None, {}, 0, 0, 1, None, None, Idle)
  const U1 := View(map[], None, {}, 0, 0, 1, None, None, Start(0))
  const U2 := View(map[], None, {}, 0, 0, 2, None, Some(1), Chosen(0, false, 1, 0))
  const U3 := View(map[1 := [5]], None, {}, 0, 0, 2, Some(1), Some(1), Finalizing(0, false, 1, 0))
  const U4 := View(map[1 := [5]], Some(1), {}, 1, 1, 2, Some(1), Some(1), Returned(OutcomeUnknown))
  const U5 := View(map[1 := [5]], None, {1}, 1, 2, 2, Some(1), Some(1), Returned(OutcomeUnknown))
  const U6 := View(map[], None, {1}, 1, 2, 2, Some(1), Some(1), Returned(OutcomeUnknown))
  const U7 := View(map[], None, {1}, 1, 2, 2, Some(1), Some(1), Start(0))
  const U8 := View(map[], None, {1}, 1, 2, 2, Some(1), Some(1), Chosen(0, false, 1, 1))
  const U9 := View(map[], None, {1}, 1, 2, 2, Some(1), Some(1), Finalizing(0, false, 1, 1))
  const U10 := View(map[], Some(1), {1}, 1, 3, 2, Some(1), Some(1), Returned(Ok))

  lemma UndoneFirst()
    ensures Step(U0, RECORD, Begin) == U1 && Step(U1, RECORD, Snapshot) == U2
            && Step(U2, RECORD, Append(Accepted)) == U3
    ensures Step(U3, RECORD, Finalize(Unheard(Applied, false))) == U4
    ensures Step(U4, RECORD, OtherDetach) == U5 && Step(U5, RECORD, Drop(1)) == U6
  {
    assert Create(U2.lists, RECORD, 1) == U3.lists;
    assert U5.lists - {1} == map[];
  }

  lemma UndoneThen()
    ensures Step(U6, RECORD, Begin) == U7 && Step(U7, RECORD, Snapshot) == U8
    ensures Step(U8, RECORD, Append(Accepted)) == U9 && Step(U9, RECORD, Finalize(Accepted)) == U10
  {
  }

  /** The next call attaches the identity it created again and returns OK, although the record is gone. */
  lemma ReattachedListMissing()
    ensures Fresh(U0, RECORD) && Reattaches(After(U0, RECORD, UNDONE[..9]), RECORD, UNDONE[9])
    ensures var t := After(U0, RECORD, UNDONE);
            t.phase == Returned(Ok) && t.attached == Some(1) && !Present(t.lists, RECORD, 1)
  {
    hide Step, After;
    UndoneFirst();
    UndoneThen();
    var states := [U0, U1, U2, U3, U4, U5, U6, U7, U8, U9, U10];
    assert Trace(states, RECORD, UNDONE);
    TraceAfter(states, RECORD, UNDONE, 9);
    TraceAfter(states, RECORD, UNDONE, 10);
    assert UNDONE[..10] == UNDONE;
  }
}
