/**
 Admission and drain of a fiber runtime, one atomic operation at a time.  The state word holds
 the accepting bit above a count of references; `drained_` is the baton shutdown waits on.
 */
module FiberRuntime {
  import opened Common

  const ACCEPTING: nat := 0x8000_0000_0000_0000
  const MASK := ACCEPTING - 1

  /**
   `held` counts the references out: one per admitted notification and one per fiber it
   installed.  `loaded` are the words that admissions in progress have read.  `returned` are the
   callers whose `Shutdown` is over, `early` those of them that called it on the driver thread.
   */
  datatype State = State(word: nat, posts: nat, held: nat, loaded: map<nat, nat>,
                         owner: Option<nat>, waiting: set<nat>, returned: set<nat>, early: set<nat>, complete: bool)

  datatype Event =
    | Load(thread: nat)        // TryAdmit reads the word
    | Exchange(thread: nat)    // and tries to count itself in
    | Transfer                 // a running notification takes a reference for its fiber
    | Complete                 // a notification or fiber is finished
    | BeginShutdown
    | Shutdown(caller: nat)    // claims the shutdown or queues behind the claimant
    | ShutdownOnDriver(caller: nat)    // only closes admission, except in debug builds
    | Join                     // the claimant, once drained, stops the driver

  predicate Accepting(word: nat) { word >= ACCEPTING }

  function Pending(word: nat): nat { if word >= ACCEPTING then word - ACCEPTING else word }

  const INITIAL := State(ACCEPTING, 0, 0, map[], None, {}, {}, {}, false)

  function CompleteStep(s: State): State
    requires 0 < s.word && 0 < s.held
  {
    var next := s.(word := s.word - 1, held := s.held - 1);
    if !Accepting(s.word) && Pending(s.word) == 1 then next.(posts := s.posts + 1) else next
  }

  function BeginStep(s: State): State {
    var next := s.(word := Pending(s.word));
    if Accepting(s.word) && Pending(s.word) == 0 then next.(posts := s.posts + 1) else next
  }

  function Step(s: State, e: Event): State {
    match e
    case Load(t) => s.(loaded := s.loaded[t := s.word])
    case Exchange(t) =>
      if t !in s.loaded then s
      else if !Accepting(s.loaded[t]) then s.(loaded := s.loaded - {t})
      else if Pending(s.loaded[t]) >= MASK then s
      else if s.loaded[t] != s.word then s.(loaded := s.loaded[t := s.word])
      else s.(word := s.word + 1, held := s.held + 1, loaded := s.loaded - {t})
    case Transfer => if s.held == 0 || Pending(s.word) >= MASK then s else s.(word := s.word + 1, held := s.held + 1)
    case Complete => if s.held == 0 || s.word == 0 then s else CompleteStep(s)
    case BeginShutdown => BeginStep(s)
    case Shutdown(c) =>
      var begun := BeginStep(s);
      if s.complete then begun.(returned := s.returned + {c})
      else if s.owner.Some? then (if s.owner == Some(c) then begun else begun.(waiting := s.waiting + {c}))
      else begun.(owner := Some(c))
    case ShutdownOnDriver(c) => BeginStep(s).(returned := s.returned + {c}, early := s.early + {c})
    case Join =>
      if s.owner.None? || s.complete || s.posts == 0 then s
      else s.(complete := true, returned := s.returned + s.waiting + {s.owner.value}, waiting := {})
  }

  function After(events: seq<Event>): State {
    if events == [] then INITIAL else Step(After(events[..|events| - 1]), events[|events| - 1])
  }

  /** The count is exact, and the baton has been posted exactly when nothing is left and nothing can come. */
  ghost predicate Inv(s: State) {
    && Pending(s.word) == s.held <= MASK
    && s.posts == (if !Accepting(s.word) && s.held == 0 then 1 else 0)
    && (s.complete ==> s.posts == 1 && s.owner.Some? && s.waiting == {})
    && (s.returned - s.early != {} ==> s.complete)
    && (s.returned != {} ==> !Accepting(s.word))
  }

  lemma StepKeeps(s: State, e: Event)
    requires Inv(s)
    ensures Inv(Step(s, e))
  {
  }

  lemma {:induction false} AfterKeeps(events: seq<Event>)
    ensures Inv(After(events))
    decreases |events|
  {
    if events != [] {
      AfterKeeps(events[..|events| - 1]);
      StepKeeps(After(events[..|events| - 1]), events[|events| - 1]);
    }
  }

  /**
   Over every interleaving the drain is signalled at most once, and exactly in the states that
   accept nothing and hold nothing.
   */
  lemma DrainedExactly(events: seq<Event>)
    ensures var s := After(events);
            s.posts <= 1 && (s.posts == 1 <==> !Accepting(s.word) && s.held == 0)
  {
    AfterKeeps(events);
  }

  lemma DrainedStep(s: State, e: Event)
    requires Inv(s) && s.posts == 1
    ensures Step(s, e).posts == 1 && Step(s, e).held == 0 && Step(s, e).word == s.word
  {
  }

  /** Once signalled, nothing is held or admitted again, although admissions may still be at their exchange. */
  lemma {:induction false} DrainedForever(events: seq<Event>, more: seq<Event>)
    requires After(events).posts == 1
    ensures var s := After(events + more);
            s.posts == 1 && s.held == 0 && !Accepting(s.word)
    decreases |more|
  {
    hide Step;
    AfterKeeps(events + more);
    if more == [] {
      assert events + more == events;
    } else {
      var front := more[..|more| - 1];
      DrainedForever(events, front);
      AfterKeeps(events + front);
      assert (events + more)[..|events + more| - 1] == events + front;
      DrainedStep(After(events + front), more[|more| - 1]);
    }
  }

  /**
   A `Shutdown` call off the driver thread returns only after the drain and the join; on any
   thread it returns with admission closed.
   */
  lemma ReturnsDrained(events: seq<Event>, caller: nat)
    ensures var s := After(events);
            && (caller in s.returned && caller !in s.early ==>
                  s.complete && s.posts == 1 && s.held == 0 && s.waiting == {})
            && (caller in s.returned ==> !Accepting(s.word))
  {
    AfterKeeps(events);
    assert caller in After(events).returned && caller !in After(events).early ==>
        caller in After(events).returned - After(events).early;
  }

  /** On the driver thread it does return before the drain. */
  lemma ReturnsEarly()
    ensures var s := After([Load(1), Exchange(1), ShutdownOnDriver(2)]);
            2 in s.returned && s.held == 1 && s.posts == 0 && !s.complete
  {
    var s1 := After([Load(1)]);
    assert [Load(1), Exchange(1)][..1] == [Load(1)];
    assert [Load(1), Exchange(1), ShutdownOnDriver(2)][..2] == [Load(1), Exchange(1)];
  }

  /** No admitted reference is lost: while any is out the driver has not been joined. */
  lemma HeldNotJoined(events: seq<Event>)
    ensures After(events).held > 0 ==> !After(events).complete
  {
    AfterKeeps(events);
  }

  // ---- Where references come from and go ----

  /** The thread's exchange succeeds: the word is still the accepting one it loaded. */
  predicate Admits(s: State, e: Event) {
    && e.Exchange? && e.thread in s.loaded && s.loaded[e.thread] == s.word && Accepting(s.word)
    && s.word - ACCEPTING < MASK
  }

  /** A running notification counts its fiber in. */
  predicate Takes(s: State, e: Event) { e.Transfer? && 0 < s.held < MASK }

  predicate Releases(s: State, e: Event) { e.Complete? && 0 < s.held }

  /** How many events of the run admitted, took or released a reference. */
  function Admitted(events: seq<Event>): nat {
    if events == [] then 0
    else
      var front := events[..|events| - 1];
      Admitted(front) + if Admits(After(front), events[|events| - 1]) then 1 else 0
  }

  function Taken(events: seq<Event>): nat {
    if events == [] then 0
    else
      var front := events[..|events| - 1];
      Taken(front) + if Takes(After(front), events[|events| - 1]) then 1 else 0
  }

  function Released(events: seq<Event>): nat {
    if events == [] then 0
    else
      var front := events[..|events| - 1];
      Released(front) + if Releases(After(front), events[|events| - 1]) then 1 else 0
  }

  lemma StepHeld(s: State, e: Event)
    requires Inv(s)
    ensures Step(s, e).held ==
            s.held + (if Admits(s, e) || Takes(s, e) then 1 else 0) - (if Releases(s, e) then 1 else 0)
  {
  }

  /** References are conserved: what is out is what was admitted and taken, less what was released. */
  lemma {:induction false} ReferencesCounted(events: seq<Event>)
    ensures After(events).held == Admitted(events) + Taken(events) - Released(events)
    decreases |events|
  {
    if events != [] {
      var front := events[..|events| - 1];
      ReferencesCounted(front);
      AfterKeeps(front);
      hide Step;
      StepHeld(After(front), events[|events| - 1]);
    }
  }

  /** A thread that has seen admission closed is right. */
  ghost predicate SeenClosed(s: State) {
    forall t :: t in s.loaded && !Accepting(s.loaded[t]) ==> !Accepting(s.word)
  }

  lemma StepSeenClosed(s: State, e: Event)
    requires Inv(s) && SeenClosed(s)
    ensures SeenClosed(Step(s, e))
  {
  }

  lemma {:induction false} AfterSeenClosed(events: seq<Event>)
    ensures SeenClosed(After(events))
    decreases |events|
  {
    if events != [] {
      var front := events[..|events| - 1];
      AfterSeenClosed(front);
      AfterKeeps(front);
      hide Step;
      StepSeenClosed(After(front), events[|events| - 1]);
    }
  }

  /** An attempt to be admitted ends in admission, or because admission is closed; a lost race only tries again. */
  lemma RefusedWhenClosed(events: seq<Event>, thread: nat)
    ensures var s, e := After(events), Exchange(thread);
            thread in s.loaded && thread !in Step(s, e).loaded ==> Admits(s, e) || !Accepting(s.word)
  {
    AfterKeeps(events);
    AfterSeenClosed(events);
  }

  // ---- Callers of Shutdown ----

  /** The caller has returned or will, once the shutdown is complete. */
  ghost predicate Served(s: State, caller: nat) {
    if s.complete then caller in s.returned else caller in s.waiting || s.owner == Some(caller)
  }

  lemma StepServes(s: State, e: Event, caller: nat)
    requires Inv(s) && (Served(s, caller) || e == Shutdown(caller))
    ensures Served(Step(s, e), caller)
  {
  }

  /** No caller is forgotten: from its call on it owns the shutdown or waits for it, and completion returns to it. */
  lemma {:induction false} CallersServed(events: seq<Event>, k: nat)
    requires k < |events| && events[k].Shutdown?
    ensures Served(After(events), events[k].caller)
    decreases |events|
  {
    var front := events[..|events| - 1];
    AfterKeeps(front);
    hide Step, Served;
    if k < |front| {
      CallersServed(front, k);
    }
    StepServes(After(front), events[|events| - 1], events[k].caller);
  }

  // ---- A shutdown that nothing disturbs ----

  function Then(s: State, events: seq<Event>): State {
    if events == [] then s else Step(Then(s, events[..|events| - 1]), events[|events| - 1])
  }

  /** Once everything that is out has been released, the drain is signalled. */
  lemma {:induction false} ReleasedDrains(s: State, n: nat)
    requires Inv(s) && !Accepting(s.word) && n <= s.held
    ensures var t := Then(s, seq(n, _ => Complete));
            && Inv(t) && t.held == s.held - n && !Accepting(t.word) && t.owner == s.owner && t.complete == s.complete
            && t.waiting == s.waiting && t.returned == s.returned
  {
    if n > 0 {
      ReleasedDrains(s, n - 1);
      assert seq(n, _ => Complete)[..n - 1] == seq(n - 1, _ => Complete);
      StepKeeps(Then(s, seq(n - 1, _ => Complete)), Complete);
    } else {
      assert seq(n, _ => Complete) == [];
    }
  }

  /** The claimant and everyone queued behind it return once what is out has been released. */
  lemma ShutdownReturns(s: State, caller: nat)
    requires Inv(s) && s.owner.None?
    ensures var t := Step(Then(Step(s, Shutdown(caller)), seq(s.held, _ => Complete)), Join);
            && t.complete && t.held == 0 && t.posts == 1 && t.waiting == {}
            && caller in t.returned && s.waiting <= t.returned
  {
    var s1 := Step(s, Shutdown(caller));
    StepKeeps(s, Shutdown(caller));
    ReleasedDrains(s1, s.held);
  }

  /** While the runtime accepts, a notification is admitted by loading the word and exchanging it. */
  lemma PostAdmits(s: State, thread: nat)
    requires Inv(s) && Accepting(s.word) && s.held < MASK
    ensures var t := Step(Step(s, Load(thread)), Exchange(thread));
            t.held == s.held + 1 && Accepting(t.word) && t.posts == s.posts
  {
  }
}
