/** Polls and wake-ups as the code runs them: the blocked check, the attempt, the load of the flag, the
    push of the waiter and the store of the flag are steps of their own, and so are the pop, the clearing
    of the flag and the wake of a drain, all interleaved. What `Waiters` keeps is then kept by some steps
    only, and exactly by those of `SafeChoice`: a push must not come after the last drain, and a store
    of the flag must not come after the wake that clears it. */
module SplitPolls {
  import opened RefWord
  import opened Waiters

  /** Where the poll of a future stands. */
  datatype Stage =
    | Resting        // not being polled
    | Checking       // FutureRef: is_blocked()
    | Trying         // try_get_ref(), try_block_refs()
    | Rechecking     // FutureBlockedRefs: is_blocked() after a failed attempt
    | Counting       // FutureExclusiveRef: no_standard_refs()
    | Loading        // registered.load()
    | Pushing        // queue.push(waiter)
    | Flagging       // the push was accepted: registered.store(true)
    | Rejected       // the queue was full: waiter.wake()
    | Requesting     // cx.waker().wake_by_ref()

  /** `clearing` and `waking` count the drains that have popped a waiter of the future and are about to
      clear its flag, or have cleared it and are about to wake it. */
  datatype Progress = Progress(stage: Stage, clearing: nat, waking: nat)

  /** `busy`: the drains that are at work on a waiter. The first pop of an unblock changes nothing when it
      finds the queue empty, for the loop pops again: it is no step here. */
  datatype Split<F> = Split(world: World<F>, progress: map<F, Progress>, busy: nat)

  datatype Choice<F> =
    | Arrive(f: F, kind: Kind, owns: bool)
    | Begin(f: F)                // the executor takes `f` off its run queue and calls poll
    | Step(f: F, weak: bool)     // one step of the poll of `f`; weak: its attempt fails
    | Move(next: nat)            // any other operation on the word
    | Release                    // the store of unblock_refs
    | Pop                        // queue.pop() of some unblock_refs; it leaves when there is none
    | Clear(f: F)                // set_registered(false) of some Waiter::wake
    | WakeUp(f: F)               // and its waker.wake()

  const AT_REST := Progress(Resting, 0, 0)

  function ProgressOf<F>(s: Split<F>, f: F): Progress {
    if f in s.progress then s.progress[f] else AT_REST
  }

  function StageOf<F>(s: Split<F>, f: F): Stage {
    ProgressOf(s, f).stage
  }

  /** `f` moves on in a world that may have changed. */
  function Progressed<F>(s: Split<F>, w: World<F>, f: F, p: Progress): Split<F> {
    s.(world := w, progress := s.progress[f := p])
  }

  function FirstStage(future: Future): Stage {
    match future.kind
    case RefFuture => Checking
    case BlockedFuture => Trying
    case ExclusiveFuture => if future.owns then Counting else Trying
  }

  /** A successful attempt. */
  function Attained<F>(w: World<F>, f: F): (a: (World<F>, Stage))
    requires Runnable(w) && f in w.futures
    ensures Runnable(a.0)
  {
    match w.futures[f].kind
    case RefFuture => (Finish(w.(word := NextRef(w.word)), f), Resting)
    case BlockedFuture => (Finish(w.(word := NextBlocked(w.word)), f), Resting)
    case ExclusiveFuture => (Set(w.(word := NextBlocked(w.word)), f, w.futures[f].(owns := true)), Counting)
  }

  /** One atomic step of a poll. */
  function Advance<F>(w: World<F>, f: F, stage: Stage, weak: bool): (a: (World<F>, Stage))
    requires Runnable(w) && f in w.futures
    ensures Runnable(a.0)
  {
    match stage
    case Resting => (w, Resting)
    case Checking => (w, if IsBlocked(w.word) then Loading else Trying)
    case Trying =>
      if Succeeds(w.word, weak) then Attained(w, f)
      else (w, if w.futures[f].kind.RefFuture? then Requesting else Rechecking)
    case Rechecking => (w, if IsBlocked(w.word) then Loading else Requesting)
    case Counting => if StandardCount(w.word) == 0 then (Finish(w, f), Resting) else (w, Requesting)
    case Loading => (w, if w.futures[f].registered then Resting else Pushing)
    case Pushing =>
      var (w', accepted) := Enqueue(w, f);
      (w', if accepted then Flagging else Rejected)
    case Flagging => (MarkRegistered(w, f), Resting)
    case Rejected => (Wake(w, f), Resting)
    case Requesting => (WakeByRef(w, f), Resting)
  }

  function PopOne<F>(s: Split<F>): (s': Split<F>)
    requires Runnable(s.world) && s.world.drains > 0
    ensures Runnable(s'.world) && s'.world.cap == s.world.cap
  {
    var w := s.world;
    if w.queue == [] then s.(world := w.(drains := w.drains - 1))
    else
      var f, p := w.queue[0], ProgressOf(s, w.queue[0]);
      Progressed(s, w.(queue := w.queue[1..]), f, p.(clearing := p.clearing + 1)).(busy := s.busy + 1)
  }

  function Perform<F>(s: Split<F>, c: Choice<F>): (s': Split<F>)
    requires Runnable(s.world)
    ensures Runnable(s'.world) && s'.world.cap == s.world.cap
  {
    var w := s.world;
    match c
    case Arrive(f, kind, owns) => s.(world := Waiters.Perform(w, Create(f, kind, owns)))
    case Begin(f) =>
      if f in w.futures && !w.futures[f].done && StageOf(s, f).Resting? then
        var future := w.futures[f];
        Progressed(s, Set(w, f, future.(woken := false)), f, ProgressOf(s, f).(stage := FirstStage(future)))
      else s
    case Step(f, weak) =>
      if f in w.futures then
        var (w', stage) := Advance(w, f, StageOf(s, f), weak);
        Progressed(s, w', f, ProgressOf(s, f).(stage := stage))
      else s
    case Move(next) => s.(world := Waiters.Perform(w, Others(next)))
    case Release => s.(world := Waiters.Perform(w, Unblock))
    case Pop => if s.busy < w.drains then PopOne(s) else s
    case Clear(f) =>
      var p := ProgressOf(s, f);
      if f in w.futures && p.clearing > 0 then
        Progressed(s, Set(w, f, w.futures[f].(registered := false)), f,
                   p.(clearing := p.clearing - 1, waking := p.waking + 1))
      else s
    case WakeUp(f) =>
      var p := ProgressOf(s, f);
      if f in w.futures && p.waking > 0 then
        Progressed(s, WakeByRef(w, f), f, p.(waking := p.waking - 1)).(busy := if s.busy > 0 then s.busy - 1 else 0)
      else s
  }

  // ---- a poll without interruption is the step of `Waiters` ----

  /** A bound on the steps that a poll still takes. */
  function Left(stage: Stage): nat {
    match stage
    case Resting => 0
    case Checking => 6
    case Trying => 5
    case Rechecking => 4
    case Counting => 4
    case Loading => 3
    case Pushing => 2
    case _ => 1
  }

  /** The poll of `f` runs to its end. */
  function FinishPoll<F>(s: Split<F>, f: F, weak: bool): (s': Split<F>)
    requires Runnable(s.world) && f in s.world.futures
    decreases Left(StageOf(s, f))
  {
    if StageOf(s, f).Resting? then s else FinishPoll(Perform(s, Step(f, weak)), f, weak)
  }

  ghost predicate Finishes<F>(s: Split<F>, f: F, weak: bool, w: World<F>)
    requires Runnable(s.world) && f in s.world.futures
  {
    FinishPoll(s, f, weak).world == w && StageOf(FinishPoll(s, f, weak), f).Resting?
  }

  lemma FinishRegistering<F>(s: Split<F>, f: F, weak: bool)
    requires Runnable(s.world) && f in s.world.futures && StageOf(s, f).Loading?
    ensures Finishes(s, f, weak, TryRegister(s.world, f))
  {
    var loaded := Perform(s, Step(f, weak));
    if !s.world.futures[f].registered {
      var pushed := Perform(loaded, Step(f, weak));
      assert FinishPoll(loaded, f, weak) == FinishPoll(pushed, f, weak) == Perform(pushed, Step(f, weak));
    }
  }

  lemma FinishRechecking<F>(s: Split<F>, f: F, weak: bool)
    requires Runnable(s.world) && f in s.world.futures && StageOf(s, f).Rechecking?
    ensures Finishes(s, f, weak, NotBlockedYet(s.world, f))
  {
    var checked := Perform(s, Step(f, weak));
    if IsBlocked(s.world.word) {
      FinishRegistering(checked, f, weak);
    } else {
      assert FinishPoll(checked, f, weak) == Perform(checked, Step(f, weak));
    }
  }

  lemma FinishCounting<F>(s: Split<F>, f: F, weak: bool)
    requires Runnable(s.world) && f in s.world.futures && StageOf(s, f).Counting?
    ensures Finishes(s, f, weak, CheckDrained(s.world, f))
  {
    var counted := Perform(s, Step(f, weak));
    if StandardCount(s.world.word) > 0 {
      assert FinishPoll(counted, f, weak) == Perform(counted, Step(f, weak));
    }
  }

  lemma FinishTrying<F>(s: Split<F>, f: F, weak: bool)
    requires Runnable(s.world) && f in s.world.futures && StageOf(s, f).Trying?
    ensures var future := s.world.futures[f];
      && (future.kind.RefFuture? ==> Finishes(s, f, weak,
            if Succeeds(s.world.word, weak) then Finish(s.world.(word := NextRef(s.world.word)), f)
            else WakeByRef(s.world, f)))
      && (future.kind.BlockedFuture? ==> Finishes(s, f, weak, PollBlocked(s.world, f, weak)))
      && (future.kind.ExclusiveFuture? && !future.owns ==> Finishes(s, f, weak, PollExclusive(s.world, f, weak)))
  {
    var tried, future := Perform(s, Step(f, weak)), s.world.futures[f];
    if future.kind.RefFuture? {
      if !Succeeds(s.world.word, weak) {
        assert FinishPoll(tried, f, weak) == Perform(tried, Step(f, weak));
      }
    } else if !Succeeds(s.world.word, weak) {
      FinishRechecking(tried, f, weak);
    } else if future.kind.ExclusiveFuture? {
      FinishCounting(tried, f, weak);
    }
  }

  /** With nothing in between, the steps of a poll are the one step of `Waiters`, for every kind. */
  lemma Uninterrupted<F>(s: Split<F>, f: F, weak: bool)
    requires Runnable(s.world) && f in s.world.futures && !s.world.futures[f].done && StageOf(s, f).Resting?
    ensures Finishes(Perform(s, Begin(f)), f, weak, PollOnce(s.world, f, weak))
  {
    var first := Perform(s, Begin(f));
    match StageOf(first, f)
    case Checking =>
      var checked := Perform(first, Step(f, weak));
      if IsBlocked(s.world.word) { FinishRegistering(checked, f, weak); } else { FinishTrying(checked, f, weak); }
    case Trying => FinishTrying(first, f, weak);
    case Counting => FinishCounting(first, f, weak);
  }

  /** And so are the pop, the clearing and the wake of a drain. */
  lemma UninterruptedWake<F>(s: Split<F>)
    requires Runnable(s.world) && s.busy < s.world.drains
    ensures var popped := Perform(s, Pop);
      if s.world.queue == [] then popped == s.(world := DrainOne(s.world))
      else
        var f := s.world.queue[0];
        var woken := Perform(Perform(popped, Clear(f)), WakeUp(f));
        woken.world == DrainOne(s.world) && woken.busy == s.busy && ProgressOf(woken, f) == ProgressOf(s, f)
  {
    var w := s.world;
    if w.queue != [] {
      var f := w.queue[0];
      var woken := Perform(Perform(Perform(s, Pop), Clear(f)), WakeUp(f));
      assert woken.world.futures == DrainOne(w).futures;
    }
  }

  // ---- what a run keeps, step by step ----

  /** A queued waiter will be popped. */
  predicate Attended<F>(w: World<F>) {
    IsBlocked(w.word) || w.drains > 0
  }

  /** All that concerns one future: its poll, its flags, and where its waiters are. */
  datatype Standing = Standing(progress: Progress, future: Future, queued: bool) {

    /** Its waiter is queued, or popped and about to clear the flag. */
    predicate WaiterOut() {
      queued || progress.clearing > 0
    }

    /** Never two waiters out. */
    predicate Once() {
      progress.clearing <= if queued then 0 else 1
    }

    /** A future that is done is not polled. */
    predicate PolledUntilDone() {
      progress.stage.Resting? || !future.done
    }

    /** It will be polled again without any further unblock. */
    predicate Due() {
      future.woken || progress.clearing > 0 || progress.waking > 0
    }

    /** The flag is set exactly while the waiter is out, but for the registration itself. */
    predicate FlagRight() {
      match progress.stage
      case Flagging => !future.registered
      case Pushing => !future.registered && !WaiterOut()
      case Rejected => !future.registered && !WaiterOut()
      case _ => future.registered <==> WaiterOut()
    }

    /** No wake-up is lost: at rest, the future is done, due, or in a queue that is attended; and a poll
        that is about to end without a request of its own leaves it so. */
    predicate Covered(attended: bool) {
      match progress.stage
      case Resting => future.done || Due() || (queued && attended)
      case Loading => future.registered ==> Due() || attended
      case Flagging => Due() || (queued && attended)
      case _ => true
    }
  }

  function StandingOf<F(==)>(s: Split<F>, f: F): Standing
    requires f in s.world.futures
  {
    Standing(ProgressOf(s, f), s.world.futures[f], f in s.world.queue)
  }

  predicate Right<F(==)>(s: Split<F>, f: F)
    requires f in s.world.futures
  {
    var st := StandingOf(s, f);
    st.Once() && st.PolledUntilDone() && st.FlagRight() && st.Covered(Attended(s.world))
  }

  ghost predicate Queued<F>(s: Split<F>) {
    && s.world.cap > 0 && |s.world.queue| <= s.world.cap && NoDuplicates(s.world.queue)
    && (forall f | f in s.world.queue :: f in s.world.futures)
    && s.progress.Keys <= s.world.futures.Keys
  }

  ghost predicate AllRight<F>(s: Split<F>) {
    forall f | f in s.world.futures :: Right(s, f)
  }

  ghost predicate Inv<F>(s: Split<F>) {
    Queued(s) && AllRight(s)
  }

  /** A poll between its blocked check and the store of its flag. */
  predicate Registering(stage: Stage) {
    stage.Loading? || stage.Pushing? || stage.Flagging?
  }

  /** The steps that may be trusted. A waiter may be accepted while references are blocked, a drain is
      under way, or its future is due anyway; the flag may be set while no wake has cleared it yet. */
  predicate SafeChoice<F(==)>(s: Split<F>, c: Choice<F>) {
    c.Step? && c.f in s.world.futures ==>
      match StageOf(s, c.f)
      case Pushing => |s.world.queue| < s.world.cap ==> Attended(s.world) || StandingOf(s, c.f).Due()
      case Flagging => StandingOf(s, c.f).WaiterOut()
      case _ => true
  }

  /** With no poll and no wake under way, this is the invariant of `Waiters`. */
  lemma AtRest<F>(s: Split<F>)
    requires s.progress.Keys <= s.world.futures.Keys && forall f | f in s.progress :: s.progress[f] == AT_REST
    ensures Inv(s) <==> Waiters.Inv(s.world)
  {
    if Inv(s) {
      forall f | f in s.world.futures
        ensures Covered(s.world, f) && (s.world.futures[f].registered <==> f in s.world.queue)
      {
        assert Right(s, f);
      }
    }
    if Waiters.Inv(s.world) {
      forall f | f in s.world.futures ensures Right(s, f) {
        assert Covered(s.world, f);
      }
    }
  }

  /** The set of waiters does not change. */
  lemma SameQueues<F>(s: Split<F>, s': Split<F>)
    requires Queued(s) && s'.world.cap == s.world.cap && s'.world.queue == s.world.queue
    requires s.world.futures.Keys <= s'.world.futures.Keys && s'.progress.Keys <= s'.world.futures.Keys
    ensures Queued(s')
  {
  }

  /** A step changes the standing of at most one future, and leaves queued waiters attended. */
  lemma OneStandingChanges<F>(s: Split<F>, s': Split<F>, f: F)
    requires AllRight(s) && s'.world.futures.Keys == s.world.futures.Keys
    requires forall g | g in s.world.futures && g != f :: StandingOf(s', g) == StandingOf(s, g)
    requires Attended(s.world) ==> Attended(s'.world)
    ensures AllRight(s') <==> (f in s'.world.futures ==> Right(s', f))
  {
    forall g | g in s.world.futures && g != f ensures Right(s', g) {
      assert Right(s, g);
    }
  }

  /** What a step of the poll of `f` leaves alone. */
  ghost predicate Framed<F>(w: World<F>, w': World<F>, f: F) {
    && w'.cap == w.cap && w'.drains == w.drains && w'.futures.Keys == w.futures.Keys
    && (IsBlocked(w.word) ==> IsBlocked(w'.word))
    && forall g | g in w.futures && g != f :: w'.futures[g] == w.futures[g]
  }

  lemma AdvanceFramed<F>(w: World<F>, f: F, stage: Stage, weak: bool)
    requires Runnable(w) && f in w.futures
    ensures var w' := Advance(w, f, stage, weak).0;
      Framed(w, w', f) && (!stage.Pushing? ==> w'.queue == w.queue)
  {
  }

  lemma ProgressedStep<F>(s: Split<F>, w': World<F>, f: F, p: Progress)
    requires Inv(s) && f in s.world.futures && Framed(s.world, w', f) && w'.queue == s.world.queue
    ensures var s' := Progressed(s, w', f, p);
      Queued(s') && (AllRight(s') <==> Right(s', f))
  {
    var s' := Progressed(s, w', f, p);
    SameQueues(s, s');
    OneStandingChanges(s, s', f);
  }

  /** Every step of a poll but the push. */
  lemma StageStep<F>(s: Split<F>, f: F, weak: bool)
    requires Inv(s) && f in s.world.futures && !StageOf(s, f).Pushing?
    ensures var s' := Perform(s, Step(f, weak));
      Queued(s') && (AllRight(s') <==> Right(s', f))
  {
    var (w', stage) := Advance(s.world, f, StageOf(s, f), weak);
    AdvanceFramed(s.world, f, StageOf(s, f), weak);
    ProgressedStep(s, w', f, ProgressOf(s, f).(stage := stage));
  }

  lemma PushStep<F>(s: Split<F>, f: F, weak: bool)
    requires Inv(s) && f in s.world.futures && StageOf(s, f).Pushing?
    ensures var s' := Perform(s, Step(f, weak));
      Queued(s') && (AllRight(s') <==> Right(s', f))
  {
    assert Right(s, f);
    var s' := Perform(s, Step(f, weak));
    OneStandingChanges(s, s', f);
  }

  lemma PushExact<F>(s: Split<F>, f: F, weak: bool)
    requires Inv(s) && f in s.world.futures && StageOf(s, f).Pushing?
    ensures Right(Perform(s, Step(f, weak)), f) <==> SafeChoice(s, Step(f, weak))
  {
    assert Right(s, f);
  }

  lemma RegisteringExact<F>(s: Split<F>, f: F, weak: bool)
    requires Inv(s) && f in s.world.futures && (StageOf(s, f).Loading? || StageOf(s, f).Flagging?)
    ensures Right(Perform(s, Step(f, weak)), f) <==> SafeChoice(s, Step(f, weak))
  {
    assert Right(s, f);
  }

  lemma AttemptRight<F>(s: Split<F>, f: F, weak: bool)
    requires Inv(s) && f in s.world.futures && (StageOf(s, f).Trying? || StageOf(s, f).Counting?)
    ensures Right(Perform(s, Step(f, weak)), f)
  {
    assert Right(s, f);
  }

  lemma OtherStageRight<F>(s: Split<F>, f: F, weak: bool)
    requires Inv(s) && f in s.world.futures && !Registering(StageOf(s, f))
    requires !StageOf(s, f).Trying? && !StageOf(s, f).Counting?
    ensures Right(Perform(s, Step(f, weak)), f)
  {
    assert Right(s, f);
  }

  lemma StageExact<F>(s: Split<F>, f: F, weak: bool)
    requires Inv(s) && f in s.world.futures && !StageOf(s, f).Pushing?
    ensures Right(Perform(s, Step(f, weak)), f) <==> SafeChoice(s, Step(f, weak))
  {
    if Registering(StageOf(s, f)) {
      RegisteringExact(s, f, weak);
    } else if StageOf(s, f).Trying? || StageOf(s, f).Counting? {
      AttemptRight(s, f, weak);
    } else {
      OtherStageRight(s, f, weak);
    }
  }

  lemma PopQueued<F>(s: Split<F>)
    requires Queued(s) && s.world.drains > 0 && s.world.queue != []
    ensures Queued(PopOne(s))
    ensures forall g :: g in PopOne(s).world.queue <==> g in s.world.queue && g != s.world.queue[0]
  {
    var queue := s.world.queue;
    assert queue == [queue[0]] + queue[1..];
    assert forall g :: g in queue <==> g == queue[0] || g in queue[1..];
    assert queue[0] !in queue[1..];
  }

  lemma PopKeeps<F>(s: Split<F>)
    requires Inv(s)
    ensures Inv(Perform(s, Pop))
  {
    if s.busy < s.world.drains {
      var s' := PopOne(s);
      if s.world.queue == [] {
        SameQueues(s, s');
        forall g | g in s.world.futures ensures Right(s', g) { assert Right(s, g); }
      } else {
        var f := s.world.queue[0];
        PopQueued(s);
        assert Right(s, f);
        OneStandingChanges(s, s', f);
      }
    }
  }

  lemma ClearKeeps<F>(s: Split<F>, f: F)
    requires Inv(s)
    ensures Inv(Perform(s, Clear(f)))
  {
    var s' := Perform(s, Clear(f));
    if s' != s {
      assert Right(s, f);
      SameQueues(s, s');
      OneStandingChanges(s, s', f);
    }
  }

  lemma WakeUpKeeps<F>(s: Split<F>, f: F)
    requires Inv(s)
    ensures Inv(Perform(s, WakeUp(f)))
  {
    var s' := Perform(s, WakeUp(f));
    if s' != s {
      assert Right(s, f);
      SameQueues(s, s');
      OneStandingChanges(s, s', f);
    }
  }

  lemma BeginKeeps<F>(s: Split<F>, f: F)
    requires Inv(s)
    ensures Inv(Perform(s, Begin(f)))
  {
    var s' := Perform(s, Begin(f));
    if s' != s {
      assert Right(s, f);
      SameQueues(s, s');
      OneStandingChanges(s, s', f);
    }
  }

  /** The word, or the set of futures, changes. */
  lemma WorldKeeps<F>(s: Split<F>, c: Choice<F>)
    requires Inv(s) && (c.Arrive? || c.Move? || c.Release?)
    ensures Inv(Perform(s, c))
  {
    var s' := Perform(s, c);
    SameQueues(s, s');
    forall g | g in s'.world.futures ensures Right(s', g) {
      assert g in s.world.futures ==> Right(s, g);
    }
  }

  /** A step keeps exact registration and every wake-up if and only if it is safe. */
  lemma StepExact<F>(s: Split<F>, c: Choice<F>)
    requires Inv(s)
    ensures Inv(Perform(s, c)) <==> SafeChoice(s, c)
  {
    match c
    case Step(f, weak) =>
      if f in s.world.futures {
        if StageOf(s, f).Pushing? {
          PushStep(s, f, weak);
          PushExact(s, f, weak);
        } else {
          StageStep(s, f, weak);
          StageExact(s, f, weak);
        }
      }
    case Begin(f) => BeginKeeps(s, f);
    case Pop => PopKeeps(s);
    case Clear(f) => ClearKeeps(s, f);
    case WakeUp(f) => WakeUpKeeps(s, f);
    case _ => WorldKeeps(s, c);
  }

  // ---- whole runs ----

  function Init<F>(cap: nat): Split<F> {
    Split(Waiters.Init(cap), map[], 0)
  }

  function Run<F>(s: Split<F>, choices: seq<Choice<F>>): (s': Split<F>)
    requires Runnable(s.world)
    ensures Runnable(s'.world)
    decreases |choices|
  {
    if choices == [] then s
    else Perform(Run(s, choices[..|choices| - 1]), choices[|choices| - 1])
  }

  ghost predicate InvThroughout<F>(s: Split<F>, choices: seq<Choice<F>>)
    requires Runnable(s.world)
    decreases |choices|
  {
    Inv(Run(s, choices)) && (choices != [] ==> InvThroughout(s, choices[..|choices| - 1]))
  }

  predicate SafeThroughout<F(==)>(s: Split<F>, choices: seq<Choice<F>>)
    requires Runnable(s.world)
    decreases |choices|
  {
    choices == [] ||
    var before := choices[..|choices| - 1];
    SafeThroughout(s, before) && SafeChoice(Run(s, before), choices[|choices| - 1])
  }

  /** Registration is exact and no wake-up is lost in every state of a run exactly when every step of the
      run is safe. */
  lemma {:induction false} RunExact<F>(cap: nat, choices: seq<Choice<F>>)
    requires cap > 0
    ensures InvThroughout(Init(cap), choices) <==> SafeThroughout(Init(cap), choices)
    decreases |choices|
  {
    if choices != [] {
      var before := choices[..|choices| - 1];
      RunExact(cap, before);
      if Inv(Run(Init(cap), before)) {
        StepExact(Run(Init(cap), before), choices[|choices| - 1]);
      }
    }
  }

  /** A pending future that nobody is about to wake. */
  predicate Asleep<F(==)>(s: Split<F>, f: F) {
    && f in s.world.futures && ProgressOf(s, f) == AT_REST
    && !s.world.futures[f].done && !s.world.futures[f].woken
  }

  /** So in a safe run, a pending future that nobody is about to wake waits in the queue, under a block or
      with a drain under way. */
  lemma NobodyStranded<F>(cap: nat, choices: seq<Choice<F>>, f: F)
    requires cap > 0 && SafeThroughout(Init<F>(cap), choices) && Asleep(Run(Init<F>(cap), choices), f)
    ensures var w := Run(Init<F>(cap), choices).world; f in w.queue && Attended(w)
  {
    RunExact(cap, choices);
    assert Inv(Run(Init<F>(cap), choices));
    assert Right(Run(Init<F>(cap), choices), f);
  }

  /** Neither the store nor a pop of an unblock falls into a registration. */
  predicate Apart<F(!new)>(s: Split<F>, c: Choice<F>) {
    c.Release? || c.Pop? ==> forall f | f in s.world.futures :: !Registering(StageOf(s, f))
  }

  predicate ApartThroughout<F(!new)>(s: Split<F>, choices: seq<Choice<F>>)
    requires Runnable(s.world)
    decreases |choices|
  {
    choices == [] ||
    var before := choices[..|choices| - 1];
    ApartThroughout(s, before) && Apart(Run(s, before), choices[|choices| - 1])
  }

  /** What a registration relies on. */
  predicate Relied<F(==)>(w: World<F>, f: F, stage: Stage) {
    match stage
    case Loading => IsBlocked(w.word)
    case Pushing => IsBlocked(w.word)
    case Flagging => f in w.queue
    case _ => true
  }

  ghost predicate Undisturbed<F>(s: Split<F>) {
    forall f | f in s.world.futures :: Relied(s.world, f, StageOf(s, f))
  }

  lemma ApartPoll<F>(s: Split<F>, f: F, weak: bool)
    requires Inv(s) && Undisturbed(s) && f in s.world.futures
    ensures Undisturbed(Perform(s, Step(f, weak)))
  {
    var s' := Perform(s, Step(f, weak));
    AdvanceFramed(s.world, f, StageOf(s, f), weak);
    assert Relied(s.world, f, StageOf(s, f));
    assert Relied(s'.world, f, StageOf(s', f));
    forall g | g in s.world.futures && g != f ensures Relied(s'.world, g, StageOf(s', g)) {
      assert Relied(s.world, g, StageOf(s, g));
    }
  }

  lemma ApartOthers<F(!new)>(s: Split<F>, c: Choice<F>)
    requires Inv(s) && Undisturbed(s) && Apart(s, c) && !c.Step?
    ensures Undisturbed(Perform(s, c))
  {
    var s' := Perform(s, c);
    forall g | g in s'.world.futures ensures Relied(s'.world, g, StageOf(s', g)) {
      assert g in s.world.futures ==> Relied(s.world, g, StageOf(s, g));
    }
  }

  lemma ApartStep<F(!new)>(s: Split<F>, c: Choice<F>)
    requires Inv(s) && Undisturbed(s) && Apart(s, c)
    ensures SafeChoice(s, c) && Undisturbed(Perform(s, c))
  {
    if c.Step? && c.f in s.world.futures {
      assert Relied(s.world, c.f, StageOf(s, c.f));
      ApartPoll(s, c.f, c.weak);
    } else if !c.Step? {
      ApartOthers(s, c);
    }
  }

  /** Unblocks that keep apart from registrations are enough: then every step is safe, however else polls,
      drains and wakes overlap. */
  lemma {:induction false} ApartIsSafe<F(!new)>(cap: nat, choices: seq<Choice<F>>)
    requires cap > 0 && ApartThroughout(Init<F>(cap), choices)
    ensures InvThroughout(Init(cap), choices) && Undisturbed(Run(Init(cap), choices))
    decreases |choices|
  {
    if choices != [] {
      var before := choices[..|choices| - 1];
      ApartIsSafe(cap, before);
      assert Inv(Run(Init<F>(cap), before));
      ApartStep(Run(Init(cap), before), choices[|choices| - 1]);
      StepExact(Run(Init(cap), before), choices[|choices| - 1]);
    }
  }
  // ---- a future that owns the block ----

  /** It counts, or asks to be polled again, or is due: it never waits in the queue. */
  predicate OwnerCounts(future: Future, stage: Stage) {
    future.kind.ExclusiveFuture? && future.owns && !future.done ==>
      stage.Counting? || stage.Requesting? || (stage.Resting? && future.woken)
  }

  ghost predicate OwnersCount<F>(s: Split<F>) {
    forall f | f in s.world.futures :: OwnerCounts(s.world.futures[f], StageOf(s, f))
  }

  lemma OwnerStep<F>(s: Split<F>, f: F, weak: bool)
    requires Runnable(s.world) && OwnersCount(s) && f in s.world.futures
    ensures OwnersCount(Perform(s, Step(f, weak)))
  {
    var s' := Perform(s, Step(f, weak));
    AdvanceFramed(s.world, f, StageOf(s, f), weak);
    assert OwnerCounts(s'.world.futures[f], StageOf(s', f));
    forall g | g in s.world.futures && g != f ensures OwnerCounts(s'.world.futures[g], StageOf(s', g)) {
      assert OwnerCounts(s.world.futures[g], StageOf(s, g));
    }
  }

  lemma OwnerOtherwise<F>(s: Split<F>, c: Choice<F>)
    requires Runnable(s.world) && OwnersCount(s) && !c.Step? && s.progress.Keys <= s.world.futures.Keys
    ensures OwnersCount(Perform(s, c))
  {
    var s' := Perform(s, c);
    forall g | g in s'.world.futures ensures OwnerCounts(s'.world.futures[g], StageOf(s', g)) {
      assert g in s.world.futures ==> OwnerCounts(s.world.futures[g], StageOf(s, g));
    }
  }

  lemma ProgressStays<F>(s: Split<F>, c: Choice<F>)
    requires Runnable(s.world) && s.progress.Keys <= s.world.futures.Keys
    ensures Perform(s, c).progress.Keys <= Perform(s, c).world.futures.Keys
  {
    if c.Step? && c.f in s.world.futures {
      AdvanceFramed(s.world, c.f, StageOf(s, c.f), c.weak);
    }
  }

  lemma OwnersKeepCounting<F>(s: Split<F>, c: Choice<F>)
    requires Runnable(s.world) && OwnersCount(s) && s.progress.Keys <= s.world.futures.Keys
    ensures OwnersCount(Perform(s, c)) && Perform(s, c).progress.Keys <= Perform(s, c).world.futures.Keys
  {
    ProgressStays(s, c);
    if !c.Step? {
      OwnerOtherwise(s, c);
    } else if c.f in s.world.futures {
      OwnerStep(s, c.f, c.weak);
    }
  }

  /** In every state of every run, safe or not. */
  lemma {:induction false} OwnersAlwaysCount<F>(cap: nat, choices: seq<Choice<F>>)
    requires cap > 0
    ensures OwnersCount(Run(Init<F>(cap), choices))
    ensures Run(Init<F>(cap), choices).progress.Keys <= Run(Init<F>(cap), choices).world.futures.Keys
    decreases |choices|
  {
    if choices != [] {
      OwnersAlwaysCount(cap, choices[..|choices| - 1]);
      hide OwnersCount, Perform;
      OwnersKeepCounting(Run(Init<F>(cap), choices[..|choices| - 1]), choices[|choices| - 1]);
    }
  }

  /** So at rest it is due for another poll, which ends in two steps and is ready exactly when the last
      reference has gone. */
  lemma OwnerGetsReference<F>(cap: nat, choices: seq<Choice<F>>, f: F, weak: bool)
    requires cap > 0
    requires var s := Run(Init<F>(cap), choices);
      f in s.world.futures && StageOf(s, f).Resting? && s.world.futures[f].kind.ExclusiveFuture?
      && s.world.futures[f].owns && !s.world.futures[f].done
    ensures var s := Run(Init<F>(cap), choices);
      var counted := Perform(Perform(s, Begin(f)), Step(f, weak));
      && s.world.futures[f].woken && f in counted.world.futures
      && (counted.world.futures[f].done <==> StandardCount(s.world.word) == 0)
      && (!counted.world.futures[f].done ==> StageOf(counted, f).Requesting?)
  {
    OwnersAlwaysCount(cap, choices);
    var s := Run(Init<F>(cap), choices);
    assert OwnerCounts(s.world.futures[f], StageOf(s, f));
  }

  // ---- what an unsafe step does ----

  /** An executor polls only futures that have been woken. */
  predicate ByExecutor<F(==)>(s: Split<F>, c: Choice<F>) {
    c.Begin? && c.f in s.world.futures ==> s.world.futures[c.f].woken
  }

  predicate ExecutorRun<F(==)>(s: Split<F>, choices: seq<Choice<F>>)
    requires Runnable(s.world)
    decreases |choices|
  {
    choices == [] ||
    var before := choices[..|choices| - 1];
    ExecutorRun(s, before) && ByExecutor(Run(s, before), choices[|choices| - 1])
  }

  /** Asleep with no drain under way, queued or not. */
  predicate Stuck<F(==)>(s: Split<F>, f: F) {
    Asleep(s, f) && s.world.drains == 0
  }

  /** Asleep and not in the queue. */
  predicate Lost<F(==)>(s: Split<F>, f: F) {
    Asleep(s, f) && f !in s.world.queue
  }

  /** An unsafe push leaves its future stuck when its poll ends. */
  lemma UnsafePushSticks<F>(s: Split<F>, f: F, weak: bool)
    requires Inv(s) && f in s.world.futures && StageOf(s, f).Pushing? && !SafeChoice(s, Step(f, weak))
    ensures Stuck(Perform(Perform(s, Step(f, weak)), Step(f, weak)), f)
  {
    assert Right(s, f);
  }

  lemma StuckStep<F>(s: Split<F>, f: F, c: Choice<F>)
    requires Runnable(s.world) && Stuck(s, f) && ByExecutor(s, c) && !c.Release?
    ensures Stuck(Perform(s, c), f)
  {
    if c.Step? && c.f in s.world.futures {
      AdvanceFramed(s.world, c.f, StageOf(s, c.f), c.weak);
    }
  }

  /** And it stays stuck until somebody blocks and unblocks again. */
  lemma {:induction false} StuckUntilUnblock<F>(s: Split<F>, f: F, choices: seq<Choice<F>>)
    requires Runnable(s.world) && Stuck(s, f) && ExecutorRun(s, choices)
    requires forall i :: 0 <= i < |choices| ==> !choices[i].Release?
    ensures Stuck(Run(s, choices), f)
    decreases |choices|
  {
    if choices != [] {
      var before := choices[..|choices| - 1];
      StuckUntilUnblock(s, f, before);
      StuckStep(Run(s, before), f, choices[|choices| - 1]);
    }
  }

  lemma LostStep<F>(s: Split<F>, f: F, c: Choice<F>)
    requires Runnable(s.world) && Lost(s, f) && ByExecutor(s, c)
    ensures Lost(Perform(s, c), f)
  {
    if c.Step? && c.f in s.world.futures {
      AdvanceFramed(s.world, c.f, StageOf(s, c.f), c.weak);
      OnlyOwnPush(s.world, c.f, StageOf(s, c.f), c.weak, f);
    }
  }

  /** A poll queues no future but its own. */
  lemma OnlyOwnPush<F>(w: World<F>, f: F, stage: Stage, weak: bool, g: F)
    requires Runnable(w) && f in w.futures && g !in w.queue && (g == f ==> stage != Pushing)
    ensures g !in Advance(w, f, stage, weak).0.queue
  {
  }

  /** A lost future is never polled again, whatever is blocked and unblocked later. */
  lemma {:induction false} LostForever<F>(s: Split<F>, f: F, choices: seq<Choice<F>>)
    requires Runnable(s.world) && Lost(s, f) && ExecutorRun(s, choices)
    ensures Lost(Run(s, choices), f)
    decreases |choices|
  {
    if choices != [] {
      var before := choices[..|choices| - 1];
      LostForever(s, f, before);
      LostStep(Run(s, before), f, choices[|choices| - 1]);
    }
  }

  /** The flag says registered, and no waiter is out. */
  predicate Stale<F(==)>(s: Split<F>, f: F) {
    && f in s.world.futures && s.world.futures[f].registered && !StandingOf(s, f).WaiterOut()
    && !StageOf(s, f).Pushing? && !StageOf(s, f).Flagging? && !StageOf(s, f).Rejected?
  }

  /** An unsafe store of the flag leaves it stale. */
  lemma UnsafeFlagIsStale<F>(s: Split<F>, f: F, weak: bool)
    requires Inv(s) && f in s.world.futures && StageOf(s, f).Flagging? && !SafeChoice(s, Step(f, weak))
    ensures Stale(Perform(s, Step(f, weak)), f)
  {
  }

  lemma StaleStep<F>(s: Split<F>, f: F, c: Choice<F>)
    requires Runnable(s.world) && Stale(s, f)
    ensures Stale(Perform(s, c), f)
  {
    if c.Step? && c.f in s.world.futures {
      AdvanceFramed(s.world, c.f, StageOf(s, c.f), c.weak);
      OnlyOwnPush(s.world, c.f, StageOf(s, c.f), c.weak, f);
    }
  }

  /** And a stale flag is stale for ever: whatever runs, the future is never queued again. */
  lemma {:induction false} StaleForever<F>(s: Split<F>, f: F, choices: seq<Choice<F>>)
    requires Runnable(s.world) && Stale(s, f)
    ensures Stale(Run(s, choices), f)
    decreases |choices|
  {
    if choices != [] {
      var before := choices[..|choices| - 1];
      StaleForever(s, f, before);
      StaleStep(Run(s, before), f, choices[|choices| - 1]);
    }
  }

  // ---- both unsafe steps can be reached ----

  /** A counter with one pending future. */
  function One<F>(cap: nat, word: nat, queue: seq<F>, drains: nat, f: F, future: Future, p: Progress): Split<F> {
    Split(World(cap, word, queue, map[f := future], drains), map[f := p], p.clearing + p.waking)
  }

  function Pending(kind: Kind, registered: bool, woken: bool): Future {
    Future(kind, registered, woken, false, false)
  }

  function In(stage: Stage): Progress {
    Progress(stage, 0, 0)
  }

  lemma Continue<F>(s0: Split<F>, choices: seq<Choice<F>>, c: Choice<F>) returns (more: seq<Choice<F>>)
    requires Runnable(s0.world) && ExecutorRun(s0, choices) && ByExecutor(Run(s0, choices), c)
    ensures Run(s0, more) == Perform(Run(s0, choices), c) && ExecutorRun(s0, more)
  {
    more := choices + [c];
    assert more[..|choices|] == choices;
  }

  lemma OneStep<F>(cap: nat, word: nat, queue: seq<F>, drains: nat, f: F, future: Future, p: Progress,
                   word': nat, queue': seq<F>, future': Future, stage': Stage)
    requires var w := World(cap, word, queue, map[f := future], drains);
      Runnable(w) && var (w', stage) := Advance(w, f, p.stage, false);
      w'.word == word' && w'.queue == queue' && w'.futures[f] == future' && stage == stage'
    ensures Perform(One(cap, word, queue, drains, f, future, p), Step(f, false))
         == One(cap, word', queue', drains, f, future', p.(stage := stage'))
  {
    var w := World(cap, word, queue, map[f := future], drains);
    AdvanceFramed(w, f, p.stage, false);
    assert Advance(w, f, p.stage, false).0.futures == map[f := future'];
    assert map[f := p][f := p.(stage := stage')] == map[f := p.(stage := stage')];
  }

  /** A woken future of any kind is polled, and finds references blocked. */
  lemma FindsBlocked<F>(cap: nat, f: F, kind: Kind, registered: bool, choices: seq<Choice<F>>)
    returns (more: seq<Choice<F>>)
    requires cap > 0 && ExecutorRun(Init<F>(cap), choices)
    requires var s := Run(Init<F>(cap), choices);
      && s.world == World(cap, REF_BLOCKED, [], map[f := Pending(kind, registered, true)], 0)
      && s.progress.Keys <= {f} && ProgressOf(s, f) == AT_REST && s.busy == 0
    ensures ExecutorRun(Init<F>(cap), more)
    ensures Run(Init<F>(cap), more) == One(cap, REF_BLOCKED, [], 0, f, Pending(kind, registered, false), In(Loading))
  {
    hide Run, ExecutorRun;
    var s0, future := Init<F>(cap), Pending(kind, registered, false);
    more := Continue(s0, choices, Begin(f));
    assert map[f := Pending(kind, registered, true)][f := future] == map[f := future];
    assert Run(s0, choices).progress[f := In(FirstStage(future))] == map[f := In(FirstStage(future))];
    if kind.RefFuture? {
      OneStep(cap, REF_BLOCKED, [], 0, f, future, In(Checking), REF_BLOCKED, [], future, Loading);
      more := Continue(s0, more, Step(f, false));
    } else {
      OneStep(cap, REF_BLOCKED, [], 0, f, future, In(Trying), REF_BLOCKED, [], future, Rechecking);
      more := Continue(s0, more, Step(f, false));
      OneStep(cap, REF_BLOCKED, [], 0, f, future, In(Rechecking), REF_BLOCKED, [], future, Loading);
      more := Continue(s0, more, Step(f, false));
    }
  }

  /** The first poll of a future is about to push its waiter. */
  lemma AboutToPush<F>(cap: nat, f: F, kind: Kind) returns (choices: seq<Choice<F>>)
    requires cap > 0
    ensures ExecutorRun(Init<F>(cap), choices)
    ensures Run(Init<F>(cap), choices) == One(cap, REF_BLOCKED, [], 0, f, Pending(kind, false, false), In(Pushing))
  {
    var s0 := Init<F>(cap);
    choices := Continue(s0, [], Arrive(f, kind, false));
    choices := Continue(s0, choices, Move(REF_BLOCKED));
    choices := FindsBlocked(cap, f, kind, false, choices);
    OneStep(cap, REF_BLOCKED, [], 0, f, Pending(kind, false, false), In(Loading), REF_BLOCKED, [],
            Pending(kind, false, false), Pushing);
    choices := Continue(s0, choices, Step(f, false));
  }

  /** A drain that leaves. */
  lemma DrainLeaves<F>(cap: nat, f: F, future: Future, p: Progress)
    requires cap > 0 && p.clearing == p.waking == 0
    ensures Perform(One(cap, REF_ALLOWED, [], 1, f, future, p), Pop) == One(cap, REF_ALLOWED, [], 0, f, future, p)
  {
  }

  lemma DrainPops<F>(cap: nat, f: F, future: Future, stage: Stage)
    requires cap > 0
    ensures Perform(One(cap, REF_ALLOWED, [f], 1, f, future, In(stage)), Pop)
         == One(cap, REF_ALLOWED, [], 1, f, future, Progress(stage, 1, 0))
  {
    var s' := PopOne(One(cap, REF_ALLOWED, [f], 1, f, future, In(stage)));
    assert s'.progress == map[f := Progress(stage, 1, 0)];
  }

  lemma DrainClears<F>(cap: nat, f: F, future: Future, stage: Stage)
    requires cap > 0
    ensures Perform(One(cap, REF_ALLOWED, [], 1, f, future, Progress(stage, 1, 0)), Clear(f))
         == One(cap, REF_ALLOWED, [], 1, f, future.(registered := false), Progress(stage, 0, 1))
  {
    var s' := Perform(One(cap, REF_ALLOWED, [], 1, f, future, Progress(stage, 1, 0)), Clear(f));
    assert s'.progress == map[f := Progress(stage, 0, 1)];
    assert s'.world.futures == map[f := future.(registered := false)];
  }

  lemma DrainWakes<F>(cap: nat, f: F, future: Future, stage: Stage)
    requires cap > 0
    ensures Perform(One(cap, REF_ALLOWED, [], 1, f, future, Progress(stage, 0, 1)), WakeUp(f))
         == One(cap, REF_ALLOWED, [], 1, f, future.(woken := true), In(stage))
  {
    var s' := Perform(One(cap, REF_ALLOWED, [], 1, f, future, Progress(stage, 0, 1)), WakeUp(f));
    assert s'.progress == map[f := In(stage)];
    assert s'.world.futures == map[f := future.(woken := true)];
  }

  /** An unblock that runs whole between the blocked check and the push: the future is queued, references
      are allowed, and nobody is going to wake it. For every kind of future and every capacity. */
  lemma StrandedByUnblock<F>(cap: nat, f: F, kind: Kind) returns (choices: seq<Choice<F>>)
    requires cap > 0
    ensures ExecutorRun(Init<F>(cap), choices) && !SafeThroughout(Init<F>(cap), choices)
    ensures var s := Run(Init<F>(cap), choices);
      Stuck(s, f) && s.world.futures[f].kind == kind && f in s.world.queue && !IsBlocked(s.world.word)
  {
    hide Run, ExecutorRun, SafeThroughout;
    var s0, future := Init<F>(cap), Pending(kind, false, false);
    choices := AboutToPush(cap, f, kind);
    choices := Continue(s0, choices, Release);
    assert Run(s0, choices) == One(cap, REF_ALLOWED, [], 1, f, future, In(Pushing));
    DrainLeaves(cap, f, future, In(Pushing));
    choices := Continue(s0, choices, Pop);
    OneStep(cap, REF_ALLOWED, [], 0, f, future, In(Pushing), REF_ALLOWED, [f], future, Flagging);
    choices := Continue(s0, choices, Step(f, false));
    OneStep(cap, REF_ALLOWED, [f], 0, f, future, In(Flagging), REF_ALLOWED, [f], Pending(kind, true, false), Resting);
    choices := Continue(s0, choices, Step(f, false));
    RunExact(cap, choices);
  }

  /** A drain has popped the waiter, cleared the flag and woken the future before its poll sets the flag. */
  lemma WokenEarly<F>(cap: nat, f: F, kind: Kind) returns (choices: seq<Choice<F>>)
    requires cap > 0
    ensures ExecutorRun(Init<F>(cap), choices)
    ensures Run(Init<F>(cap), choices) == One(cap, REF_ALLOWED, [], 1, f, Pending(kind, false, true), In(Flagging))
  {
    hide Run, ExecutorRun;
    var s0, future := Init<F>(cap), Pending(kind, false, false);
    choices := AboutToPush(cap, f, kind);
    OneStep(cap, REF_BLOCKED, [], 0, f, future, In(Pushing), REF_BLOCKED, [f], future, Flagging);
    choices := Continue(s0, choices, Step(f, false));
    choices := Continue(s0, choices, Release);
    assert Run(s0, choices) == One(cap, REF_ALLOWED, [f], 1, f, future, In(Flagging));
    DrainPops(cap, f, future, Flagging);
    choices := Continue(s0, choices, Pop);
    DrainClears(cap, f, future, Flagging);
    choices := Continue(s0, choices, Clear(f));
    DrainWakes(cap, f, future, Flagging);
    choices := Continue(s0, choices, WakeUp(f));
  }

  lemma FlaggedLate<F>(cap: nat, f: F, kind: Kind) returns (choices: seq<Choice<F>>)
    requires cap > 0
    ensures ExecutorRun(Init<F>(cap), choices)
    ensures Run(Init<F>(cap), choices) == One(cap, REF_BLOCKED, [], 0, f, Pending(kind, true, true), In(Resting))
  {
    hide Run, ExecutorRun;
    var s0, future := Init<F>(cap), Pending(kind, false, true);
    choices := WokenEarly(cap, f, kind);
    DrainLeaves(cap, f, future, In(Flagging));
    choices := Continue(s0, choices, Pop);
    OneStep(cap, REF_ALLOWED, [], 0, f, future, In(Flagging), REF_ALLOWED, [], Pending(kind, true, true), Resting);
    choices := Continue(s0, choices, Step(f, false));
    choices := Continue(s0, choices, Move(REF_BLOCKED));
  }

  /** A wake between the push and the store of the flag: the flag is stale, the next poll under a block
      trusts it, and the future is lost. For every kind of future and every capacity. */
  lemma LostByWake<F>(cap: nat, f: F, kind: Kind) returns (choices: seq<Choice<F>>)
    requires cap > 0
    ensures ExecutorRun(Init<F>(cap), choices) && !SafeThroughout(Init<F>(cap), choices)
    ensures var s := Run(Init<F>(cap), choices); Lost(s, f) && s.world.futures[f].kind == kind && Stale(s, f)
  {
    hide Run, ExecutorRun, SafeThroughout;
    var s0, future := Init<F>(cap), Pending(kind, true, false);
    choices := FlaggedLate(cap, f, kind);
    choices := FindsBlocked(cap, f, kind, true, choices);
    OneStep(cap, REF_BLOCKED, [], 0, f, future, In(Loading), REF_BLOCKED, [], future, Resting);
    choices := Continue(s0, choices, Step(f, false));
    assert !Right(Run(s0, choices), f);
    RunExact(cap, choices);
  }
}
