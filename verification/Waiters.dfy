/** Futures, their registration in the waiter queue, and the wake-ups of `unblock_refs`. A poll is one
    step; an unblock is the store followed by one pop and wake per step, so drains may overlap with
    polls and with each other. */
module Waiters {
  import opened BoundedFifo
  import opened RefWord

  /** `FutureRef`, `FutureBlockedRefs`, `FutureExclusiveRef`. */
  datatype Kind = RefFuture | BlockedFuture | ExclusiveFuture

  /** `registered` is the flag shared with the queue; `woken`: the executor will poll the future again;
      `done`: it has returned `Ready`; `owns`: an exclusive future whose `blocked_fut` is `None`. */
  datatype Future = Future(kind: Kind, registered: bool, woken: bool, done: bool, owns: bool)

  /** `drains` counts the calls of `unblock_refs` that have stored the word and still pop. */
  datatype World<F> = World(cap: nat, word: nat, queue: seq<F>, futures: map<F, Future>, drains: nat)

  datatype Choice<F> =
    | Create(f: F, kind: Kind, owns: bool)
    | Poll(f: F, weak: bool)                // weak: every compare-exchange of the poll fails spuriously
    | Others(next: nat)                     // any other operation on the word; only unblocking clears the bit
    | Unblock                               // the store of unblock_refs
    | Drain                                 // one pop of some unblock_refs

  // ---- one operation ----

  /** Every waiter in the queue belongs to a future. */
  predicate Runnable<F>(w: World<F>) {
    w.cap > 0 && forall f :: f in w.queue ==> f in w.futures
  }

  function Set<F>(w: World<F>, f: F, future: Future): World<F> {
    w.(futures := w.futures[f := future])
  }

  /** `Waiter::wake` */
  function Wake<F>(w: World<F>, f: F): World<F>
    requires f in w.futures
  {
    Set(w, f, w.futures[f].(registered := false, woken := true))
  }

  /** `cx.waker().wake_by_ref()` */
  function WakeByRef<F>(w: World<F>, f: F): World<F>
    requires f in w.futures
  {
    Set(w, f, w.futures[f].(woken := true))
  }

  function Enqueue<F>(w: World<F>, f: F): (World<F>, bool)
    requires w.cap > 0
  {
    var (queue, answer) := Apply(w.queue, w.cap, Push(f));
    (w.(queue := queue), answer.Accepted?)
  }

  function MarkRegistered<F>(w: World<F>, f: F): World<F>
    requires f in w.futures
  {
    Set(w, f, w.futures[f].(registered := true))
  }

  /** `try_register_future!` */
  function TryRegister<F>(w: World<F>, f: F): (w': World<F>)
    requires w.cap > 0 && f in w.futures
    ensures Runnable(w) ==> Runnable(w')
  {
    if w.futures[f].registered then w
    else
      var (w', accepted) := Enqueue(w, f);
      if accepted then MarkRegistered(w', f) else Wake(w', f)
  }

  /** `try_get_ref` and `try_block_refs`, with nobody else moving the word meanwhile. */
  predicate Succeeds(word: nat, weak: bool) {
    !IsBlocked(word) && !weak
  }

  function Finish<F>(w: World<F>, f: F): World<F>
    requires f in w.futures
  {
    Set(w, f, w.futures[f].(done := true))
  }

  function PollRef<F>(w: World<F>, f: F, weak: bool): (w': World<F>)
    requires w.cap > 0 && f in w.futures
    ensures Runnable(w) ==> Runnable(w')
  {
    if IsBlocked(w.word) then TryRegister(w, f)
    else if Succeeds(w.word, weak) then Finish(w.(word := NextRef(w.word)), f)
    else WakeByRef(w, f)
  }

  /** The pending half of `FutureBlockedRefs::poll`. */
  function NotBlockedYet<F>(w: World<F>, f: F): (w': World<F>)
    requires w.cap > 0 && f in w.futures
    ensures Runnable(w) ==> Runnable(w')
  {
    if IsBlocked(w.word) then TryRegister(w, f) else WakeByRef(w, f)
  }

  function PollBlocked<F>(w: World<F>, f: F, weak: bool): (w': World<F>)
    requires w.cap > 0 && f in w.futures
    ensures Runnable(w) ==> Runnable(w')
  {
    if Succeeds(w.word, weak) then Finish(w.(word := NextBlocked(w.word)), f) else NotBlockedYet(w, f)
  }

  /** The count check of `FutureExclusiveRef::poll`. */
  function CheckDrained<F>(w: World<F>, f: F): World<F>
    requires f in w.futures
  {
    if StandardCount(w.word) == 0 then Finish(w, f) else WakeByRef(w, f)
  }

  function PollExclusive<F>(w: World<F>, f: F, weak: bool): (w': World<F>)
    requires w.cap > 0 && f in w.futures
    ensures Runnable(w) ==> Runnable(w')
  {
    if w.futures[f].owns then CheckDrained(w, f)
    else if Succeeds(w.word, weak) then
      CheckDrained(Set(w.(word := NextBlocked(w.word)), f, w.futures[f].(owns := true)), f)
    else NotBlockedYet(w, f)
  }

  /** The executor takes the future off its run queue and polls it. */
  function PollOnce<F>(w: World<F>, f: F, weak: bool): (w': World<F>)
    requires w.cap > 0 && f in w.futures
    ensures Runnable(w) ==> Runnable(w')
  {
    var w0 := Set(w, f, w.futures[f].(woken := false));
    match w.futures[f].kind
    case RefFuture => PollRef(w0, f, weak)
    case BlockedFuture => PollBlocked(w0, f, weak)
    case ExclusiveFuture => PollExclusive(w0, f, weak)
  }

  /** `self.count.store(REF_ALLOWED)` */
  function StoreAllowed<F>(w: World<F>): World<F> {
    w.(word := REF_ALLOWED, drains := w.drains + 1)
  }

  /** One turn of the drain loop: wake the oldest waiter, or leave when there is none. */
  function DrainOne<F>(w: World<F>): (w': World<F>)
    requires w.drains > 0 && Runnable(w)
    ensures Runnable(w')
  {
    var (queue, answer) := Apply(w.queue, w.cap, Pop);
    if answer.Taken? then Wake(w.(queue := queue), answer.item)
    else w.(drains := w.drains - 1)
  }

  function Perform<F>(w: World<F>, c: Choice<F>): (w': World<F>)
    requires Runnable(w)
    ensures Runnable(w')
  {
    match c
    case Create(f, kind, owns) =>
      if f in w.futures then w else Set(w, f, Future(kind, false, true, false, owns))
    case Poll(f, weak) =>
      if f in w.futures && !w.futures[f].done then PollOnce(w, f, weak) else w
    case Others(next) =>
      if IsBlocked(w.word) ==> IsBlocked(next) then w.(word := next) else w
    case Unblock => StoreAllowed(w)
    case Drain => if w.drains > 0 then DrainOne(w) else w
  }

  // ---- registration ----

  ghost predicate NoDuplicates<F>(queue: seq<F>) {
    forall i, j :: 0 <= i < j < |queue| ==> queue[i] != queue[j]
  }

  /** The queue holds one waiter for every registered future, and for no other; never two. */
  ghost predicate Registered<F>(w: World<F>) {
    && w.cap > 0 && |w.queue| <= w.cap
    && NoDuplicates(w.queue)
    && (forall f | f in w.queue :: f in w.futures)
    && (forall f | f in w.futures :: w.futures[f].registered <==> f in w.queue)
  }

  /** No wake-up is lost: a pending future will be polled again, or waits in the queue while the block
      bit is set or a drain is under way. */
  ghost predicate Covered<F>(w: World<F>, f: F)
    requires f in w.futures
  {
    w.futures[f].done || w.futures[f].woken || (f in w.queue && (IsBlocked(w.word) || w.drains > 0))
  }

  ghost predicate NoLostWakeup<F>(w: World<F>) {
    forall f | f in w.futures :: Covered(w, f)
  }

  ghost predicate Inv<F>(w: World<F>) {
    Registered(w) && NoLostWakeup(w)
  }

  /** A future changes without its registration changing. */
  lemma SetKeepsRegistered<F>(w: World<F>, f: F, future: Future)
    requires Registered(w)
    requires if f in w.futures then future.registered == w.futures[f].registered else !future.registered
    ensures Registered(Set(w, f, future))
  {
  }

  /** What a poll of `f` leaves: exact registration, `f` covered, and nobody else touched. */
  ghost predicate Kept<F>(w: World<F>, w': World<F>, f: F) {
    && Registered(w') && w'.drains == w.drains && w'.futures.Keys == w.futures.Keys
    && (IsBlocked(w.word) ==> IsBlocked(w'.word))
    && f in w'.futures && Covered(w', f)
    && (forall g | g in w.futures && g != f :: w'.futures[g] == w.futures[g] && (g in w.queue ==> g in w'.queue))
  }

  lemma TryRegisterKeeps<F>(w: World<F>, f: F)
    requires Registered(w) && f in w.futures && IsBlocked(w.word)
    ensures Kept(w, TryRegister(w, f), f)
  {
  }

  lemma PollRefKeeps<F>(w: World<F>, f: F, weak: bool)
    requires Registered(w) && f in w.futures
    ensures Kept(w, PollRef(w, f, weak), f)
  {
  }

  lemma PollBlockedKeeps<F>(w: World<F>, f: F, weak: bool)
    requires Registered(w) && f in w.futures
    ensures Kept(w, PollBlocked(w, f, weak), f)
  {
  }

  lemma CheckDrainedKeeps<F>(w: World<F>, f: F)
    requires Registered(w) && f in w.futures
    ensures Kept(w, CheckDrained(w, f), f)
  {
  }

  lemma PollExclusiveKeeps<F>(w: World<F>, f: F, weak: bool)
    requires Registered(w) && f in w.futures
    ensures Kept(w, PollExclusive(w, f, weak), f)
  {
    if w.futures[f].owns {
      CheckDrainedKeeps(w, f);
    } else if Succeeds(w.word, weak) {
      CheckDrainedKeeps(Set(w.(word := NextBlocked(w.word)), f, w.futures[f].(owns := true)), f);
    } else {
      PollBlockedKeeps(w, f, weak);
    }
  }

  lemma PollKeeps<F>(w: World<F>, f: F, weak: bool)
    requires Registered(w) && f in w.futures
    ensures Kept(w, PollOnce(w, f, weak), f)
  {
    var w0 := Set(w, f, w.futures[f].(woken := false));
    SetKeepsRegistered(w, f, w.futures[f].(woken := false));
    match w.futures[f].kind
    case RefFuture => PollRefKeeps(w0, f, weak);
    case BlockedFuture => PollBlockedKeeps(w0, f, weak);
    case ExclusiveFuture => PollExclusiveKeeps(w0, f, weak);
  }

  /** What a pending future is left with: `owned` is the block bit that it holds itself. Under a block that
      is not its own it waits in the queue, or asks to be polled again when the queue is full; otherwise
      it asks to be polled again. */
  predicate LeftPending<F(==)>(w: World<F>, w': World<F>, f: F, owned: bool)
    requires f in w.futures && f in w'.futures
  {
    var before, after := w.futures[f], w'.futures[f];
    if !IsBlocked(w.word) || owned then w'.queue == w.queue && after.registered == before.registered && after.woken
    else if before.registered then w'.queue == w.queue && after.registered && !after.woken
    else if |w.queue| < w.cap then w'.queue == w.queue + [f] && after.registered && !after.woken
    else w'.queue == w.queue && !after.registered && after.woken
  }

  /** What a poll of a pending future gains, and exactly when: a reference, the block bit, or both the bit
      and an empty count. Only a block or `weak` keeps it from the first two, and only references from
      the last. */
  lemma PollGains<F>(w: World<F>, f: F, weak: bool)
    requires Runnable(w) && f in w.futures && !w.futures[f].done
    ensures var w', before := Perform(w, Poll(f, weak)), w.futures[f];
      var free := w.word % 2 == 0 && !weak;
      && f in w'.futures && w'.futures[f].kind == before.kind
      && match before.kind
         case RefFuture => (w'.futures[f].done <==> free) && w'.word == if free then NextRef(w.word) else w.word
         case BlockedFuture => (w'.futures[f].done <==> free) && w'.word == if free then w.word + 1 else w.word
         case ExclusiveFuture =>
           && (w'.futures[f].owns <==> before.owns || free)
           && (w'.futures[f].done <==> w'.futures[f].owns && w.word / 2 == 0)
           && w'.word == if free && !before.owns then w.word + 1 else w.word
  {
  }

  /** The poll of `f` leaves everybody else as before, and `f` ready or waiting as it should. */
  ghost predicate Leaves<F>(w: World<F>, w': World<F>, f: F)
    requires f in w.futures
  {
    && w'.cap == w.cap && w'.drains == w.drains && w'.futures.Keys == w.futures.Keys
    && (forall g | g in w.futures && g != f :: w'.futures[g] == w.futures[g])
    && w'.futures[f].kind == w.futures[f].kind
    && (!w.futures[f].kind.ExclusiveFuture? ==> w'.futures[f].owns == w.futures[f].owns)
    && if w'.futures[f].done
       then w'.queue == w.queue && w'.futures[f].registered == w.futures[f].registered && !w'.futures[f].woken
       else LeftPending(w, w', f, w.futures[f].kind.ExclusiveFuture? && w'.futures[f].owns)
  }

  lemma PollRefLeaves<F>(w: World<F>, f: F, weak: bool)
    requires w.cap > 0 && |w.queue| <= w.cap && f in w.futures && w.futures[f].kind.RefFuture?
    requires !w.futures[f].done && !w.futures[f].woken
    ensures Leaves(w, PollRef(w, f, weak), f)
  {
  }

  lemma NotBlockedYetLeaves<F>(w: World<F>, f: F)
    requires w.cap > 0 && |w.queue| <= w.cap && f in w.futures && !w.futures[f].done && !w.futures[f].woken
    requires w.futures[f].kind.RefFuture? || w.futures[f].kind.BlockedFuture? || !w.futures[f].owns
    ensures Leaves(w, NotBlockedYet(w, f), f)
  {
  }

  lemma PollBlockedLeaves<F>(w: World<F>, f: F, weak: bool)
    requires w.cap > 0 && |w.queue| <= w.cap && f in w.futures && w.futures[f].kind.BlockedFuture?
    requires !w.futures[f].done && !w.futures[f].woken
    ensures Leaves(w, PollBlocked(w, f, weak), f)
  {
    if !Succeeds(w.word, weak) { NotBlockedYetLeaves(w, f); }
  }

  lemma PollExclusiveLeaves<F>(w: World<F>, f: F, weak: bool)
    requires w.cap > 0 && |w.queue| <= w.cap && f in w.futures && w.futures[f].kind.ExclusiveFuture?
    requires !w.futures[f].done && !w.futures[f].woken
    ensures Leaves(w, PollExclusive(w, f, weak), f)
  {
    if !w.futures[f].owns && !Succeeds(w.word, weak) { NotBlockedYetLeaves(w, f); }
  }

  lemma PollLeaves<F>(w: World<F>, f: F, weak: bool)
    requires Runnable(w) && |w.queue| <= w.cap && f in w.futures && !w.futures[f].done
    ensures Leaves(w, Perform(w, Poll(f, weak)), f)
  {
    var w0 := Set(w, f, w.futures[f].(woken := false));
    match w.futures[f].kind
    case RefFuture => PollRefLeaves(w0, f, weak);
    case BlockedFuture => PollBlockedLeaves(w0, f, weak);
    case ExclusiveFuture => PollExclusiveLeaves(w0, f, weak);
  }

  /** A new future is due for its first poll, and owns the block exactly if it was handed over to it. */
  lemma CreateLeaves<F>(w: World<F>, f: F, kind: Kind, owns: bool)
    requires Runnable(w) && f !in w.futures
    ensures var w' := Perform(w, Create(f, kind, owns)); var future := w'.futures[f];
      && w' == w.(futures := w'.futures) && w'.futures.Keys == w.futures.Keys + {f}
      && (forall g | g in w.futures :: w'.futures[g] == w.futures[g])
      && future.kind == kind && future.woken && !future.registered && !future.done && (future.owns <==> owns)
  {
  }

  lemma DrainKeeps<F>(w: World<F>)
    requires Inv(w) && w.drains > 0
    ensures Inv(DrainOne(w))
  {
    if w.queue != [] {
      var w', f := DrainOne(w), w.queue[0];
      assert w.queue == [f] + w.queue[1..];
      assert forall g :: g in w.queue <==> g == f || g in w.queue[1..];
      assert f !in w.queue[1..];
    }
  }

  /** Every step keeps both: registration is exact, and no wake-up is lost. */
  lemma StepKeeps<F>(w: World<F>, c: Choice<F>)
    requires Inv(w)
    ensures Inv(Perform(w, c))
  {
    match c
    case Poll(f, weak) =>
      if f in w.futures && !w.futures[f].done {
        PollKeeps(w, f, weak);
        var w' := PollOnce(w, f, weak);
        forall g | g in w'.futures ensures Covered(w', g) {
          if g != f { assert Covered(w, g); }
        }
      }
    case Drain => if w.drains > 0 { DrainKeeps(w); }
    case _ =>
  }

  // ---- whole runs ----

  function Init<F>(cap: nat): World<F> {
    World(cap, 0, [], map[], 0)
  }

  function Run<F>(w: World<F>, choices: seq<Choice<F>>): (w': World<F>)
    requires Runnable(w)
    ensures Runnable(w')
    decreases |choices|
  {
    if choices == [] then w
    else Perform(Run(w, choices[..|choices| - 1]), choices[|choices| - 1])
  }

  /** In every reachable state. */
  lemma {:induction false} RunKeeps<F>(cap: nat, choices: seq<Choice<F>>)
    requires cap > 0
    ensures Inv(Run(Init(cap), choices))
    decreases |choices|
  {
    if choices != [] {
      RunKeeps(cap, choices[..|choices| - 1]);
      StepKeeps(Run(Init(cap), choices[..|choices| - 1]), choices[|choices| - 1]);
    }
  }

  /** A future that owns the block waits for the count alone, and nobody but itself asks for its polls. */
  predicate OwnerAwake(future: Future) {
    future.kind.ExclusiveFuture? && future.owns && !future.done ==> future.woken
  }

  ghost predicate AllAwake<F>(w: World<F>) {
    forall f | f in w.futures :: OwnerAwake(w.futures[f])
  }

  lemma OwnersStayAwake<F>(w: World<F>, c: Choice<F>)
    requires Runnable(w) && |w.queue| <= w.cap && AllAwake(w)
    ensures |Perform(w, c).queue| <= w.cap && Perform(w, c).cap == w.cap && AllAwake(Perform(w, c))
  {
    if c.Poll? && c.f in w.futures && !w.futures[c.f].done {
      PollLeaves(w, c.f, c.weak);
    }
  }

  /** In every reachable state, a pending future that owns the block is due for another poll, and once the
      last reference is gone that poll is ready. */
  lemma OwnersAwake<F>(cap: nat, choices: seq<Choice<F>>, f: F)
    requires cap > 0 && f in Run(Init(cap), choices).futures
    ensures var w := Run(Init(cap), choices); var future := w.futures[f];
      future.kind.ExclusiveFuture? && future.owns && !future.done ==>
        && future.woken
        && forall weak :: f in Perform(w, Poll(f, weak)).futures
             && (Perform(w, Poll(f, weak)).futures[f].done <==> StandardCount(w.word) == 0)
  {
    AllOwnersAwake(cap, choices);
    var w := Run(Init(cap), choices);
    if !w.futures[f].done {
      forall weak ensures f in Perform(w, Poll(f, weak)).futures &&
        (w.futures[f].kind.ExclusiveFuture? && w.futures[f].owns ==>
          (Perform(w, Poll(f, weak)).futures[f].done <==> StandardCount(w.word) == 0))
      {
        PollGains(w, f, weak);
      }
    }
  }

  lemma {:induction false} AllOwnersAwake<F>(cap: nat, choices: seq<Choice<F>>)
    requires cap > 0
    ensures AllAwake(Run(Init(cap), choices)) && |Run(Init<F>(cap), choices).queue| <= cap
    ensures Run(Init<F>(cap), choices).cap == cap
    decreases |choices|
  {
    if choices != [] {
      AllOwnersAwake(cap, choices[..|choices| - 1]);
      OwnersStayAwake(Run(Init(cap), choices[..|choices| - 1]), choices[|choices| - 1]);
    }
  }

  /** Once nobody blocks and no drain is under way, every pending future is due for another poll. */
  lemma NobodyStranded<F>(w: World<F>, f: F)
    requires Inv(w) && f in w.futures && !w.futures[f].done && !IsBlocked(w.word) && w.drains == 0
    ensures w.futures[f].woken
  {
    assert Covered(w, f);
  }

  /** `k` turns of a drain loop with nothing in between. */
  function DrainTimes<F>(w: World<F>, k: nat): (w': World<F>)
    requires w.drains > 0 && Runnable(w) && k <= |w.queue|
    ensures Runnable(w') && w'.drains == w.drains && w'.queue == w.queue[k..]
  {
    if k == 0 then w else DrainOne(DrainTimes(w, k - 1))
  }

  /** `w'` is `w` with the futures in `woken`, and no others, woken and unregistered. */
  ghost predicate WokeExactly<F>(w: World<F>, w': World<F>, woken: seq<F>) {
    && w'.word == w.word && w'.futures.Keys == w.futures.Keys
    && (forall f | f in w.futures :: w'.futures[f] ==
          if f in woken then w.futures[f].(registered := false, woken := true) else w.futures[f])
  }

  lemma WakeOneMore<F>(w: World<F>, before: World<F>, woken: seq<F>)
    requires WokeExactly(w, before, woken) && Inv(before) && before.drains > 0 && before.queue != []
    requires before.queue[0] !in woken
    ensures WokeExactly(w, DrainOne(before), woken + [before.queue[0]])
  {
  }

  /** The waiters are woken in the order in which they registered: after `k` turns exactly the first
      `k` are woken and unregistered. */
  lemma {:induction false} DrainInOrder<F>(w: World<F>, k: nat)
    requires Inv(w) && w.drains > 0 && k <= |w.queue|
    ensures Inv(DrainTimes(w, k)) && WokeExactly(w, DrainTimes(w, k), w.queue[..k])
    decreases k
  {
    if k > 0 {
      DrainInOrder(w, k - 1);
      var before := DrainTimes(w, k - 1);
      DrainKeeps(before);
      WakeOneMore(w, before, w.queue[..k - 1]);
      assert w.queue[..k] == w.queue[..k - 1] + [before.queue[0]];
    }
  }

  /** A drain that runs to its end. */
  function DrainAll<F>(w: World<F>): (w': World<F>)
    requires w.drains > 0 && Runnable(w)
    ensures w'.cap == w.cap && w'.futures.Keys == w.futures.Keys
    decreases |w.queue|
  {
    if w.queue == [] then DrainOne(w) else DrainAll(DrainOne(w))
  }

  /** It empties the queue and wakes exactly the futures that were waiting. */
  lemma {:induction false} DrainWakesAll<F>(w: World<F>)
    requires Inv(w) && w.drains > 0
    ensures var w' := DrainAll(w);
      Inv(w') && w'.queue == [] && w'.drains == w.drains - 1 && WokeExactly(w, w', w.queue)
    decreases |w.queue|
  {
    DrainKeeps(w);
    if w.queue != [] {
      DrainWakesAll(DrainOne(w));
      assert w.queue == [w.queue[0]] + w.queue[1..];
      assert forall g :: g in w.queue <==> g == w.queue[0] || g in w.queue[1..];
    }
  }

  /** An unblock that has run to its end: the word is clear, the queue is empty, and exactly the futures
      that waited in it are woken and unregistered. */
  ghost predicate Unblocked<F>(w: World<F>, w': World<F>) {
    && w'.word == 0 && w'.queue == [] && w'.drains == w.drains && w'.futures.Keys == w.futures.Keys
    && (forall f | f in w.futures :: w'.futures[f] ==
          if f in w.queue then w.futures[f].(registered := false, woken := true) else w.futures[f])
  }

  /** Unblocking and draining to the end leaves every pending future due for another poll, also when other
      drains are under way. */
  lemma UnblockFreesAll<F>(w: World<F>)
    requires Inv(w)
    ensures var w' := DrainAll(StoreAllowed(w));
      Unblocked(w, w') && Inv(w') && forall f | f in w'.futures && !w'.futures[f].done :: w'.futures[f].woken
  {
    StepKeeps(w, Unblock);
    DrainWakesAll(StoreAllowed(w));
    var w' := DrainAll(StoreAllowed(w));
    forall f | f in w'.futures && !w'.futures[f].done ensures w'.futures[f].woken {
      assert Covered(w', f);
    }
  }
}
