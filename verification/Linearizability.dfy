/** The concurrent queue is an atomic bounded FIFO: `push` takes effect at its compare-exchange of
    the tail, `pop` at its compare-exchange of the head, `force_push` on a full queue at its
    compare-exchange of the head, and a refusal at the load that shows the queue full or empty. */
module Linearizability {
  import opened BoundedFifo
  import opened TicketQueue
  import opened TicketInvariant

  /** The elements in the queue, a pending overwrite included. */
  function Contents<T>(r: Ring<T>): seq<T>
    requires r.head <= |r.history|
  {
    r.history[r.head..]
  }

  /** Where the caller of `p` stands in the atomic queue. */
  ghost function CallerOf<T>(r: Ring<T>, p: Tid, pc: Pc<T>): Caller<T>
    requires Shaped(r) && pc.Typed() && Local(r, p, pc)
  {
    match pc
    case Idle => Resting
    case PushLoadTail(op) => Waiting(op)
    case PushLoadStamp(op, _) => Waiting(op)
    case PushCasTail(op, _) => Waiting(op)
    case PushLoadHead(op, _) => Waiting(op)
    case ForceCasHead(op, _) => Waiting(op)
    case PopLoadHead => Waiting(Pop)
    case PopLoadStamp(_) => Waiting(Pop)
    case PopCasHead(_) => Waiting(Pop)
    case PopLoadTail(_) => Waiting(Pop)
    case PushWriteValue(op, _) => Decided(op, Accepted)
    case PushStoreStamp(op, _) => Decided(op, Accepted)
    case ForceStoreTail(op, n) => Decided(op, Displaced(r.history[n - r.cap]))
    case ForceSwapValue(op, n) => Decided(op, Displaced(r.history[n - r.cap]))
    case ForceStoreStamp(op, n, _) => Decided(op, Displaced(r.history[n - r.cap]))
    case PopReadValue(n) => Decided(Pop, Taken(r.history[n]))
    case PopStoreStamp(n, _) => Decided(Pop, Taken(r.history[n]))
    case Returning(op, answer) => Decided(op, answer)
  }

  ghost function View<T>(s: State<T>): Object<T>
    requires Inv(s)
  {
    Object(Contents(s.ring), map p | p in s.threads :: CallerOf(s.ring, p, s.threads[p]))
  }

  /** The step of `pc` at which its operation takes effect. */
  predicate TakesEffect<T>(r: Ring<T>, pc: Pc<T>, weak: bool) {
    || (pc.PushCasTail? && r.tail == pc.n && !weak)
    || (pc.ForceCasHead? && r.head + r.cap == pc.n && !weak)
    || (pc.PopCasHead? && r.head == pc.n && !weak)
    || (pc.PushLoadHead? && r.head + r.cap == pc.n)
    || (pc.PopLoadTail? && r.tail == pc.n)
  }

  function EventOf<T>(s: State<T>, c: Choice<T>): Event<T> {
    match c
    case Start(p, op) =>
      if p in s.threads && s.threads[p].Idle? then Invoke(p, op) else Internal
    case Step(p, weak) =>
      if p !in s.threads then Internal
      else if s.threads[p].Returning? then Return(p, s.threads[p].answer)
      else if TakesEffect(s.ring, s.threads[p], weak) then Decide(p)
      else Internal
  }

  function EventsOf<T>(s: State<T>, choices: seq<Choice<T>>): seq<Event<T>>
    requires WellFormed(s)
    decreases |choices|
  {
    if choices == [] then []
    else
      var before := choices[..|choices| - 1];
      EventsOf(s, before) + [EventOf(Run(s, before), choices[|choices| - 1])]
  }

  /** `push` is refused only when the queue is full as it loads the head. */
  lemma RefusedWhenFull<T>(r: Ring<T>, p: Tid, pc: Pc<T>)
    requires Agreed(r) && pc.Typed() && Local(r, p, pc) && pc.PushLoadHead? && r.head + r.cap == pc.n
    ensures r.tail == |r.history| == r.head + r.cap
  {
  }

  /** `pop` finds nothing only when the queue is empty, with no overwrite pending, as it loads the tail. */
  lemma NothingWhenEmpty<T>(r: Ring<T>, p: Tid, pc: Pc<T>)
    requires Agreed(r) && pc.Typed() && Local(r, p, pc) && pc.PopLoadTail? && r.tail == pc.n
    ensures r.head == r.tail == |r.history|
  {
    assert SlotKnown(r, r.head);
  }

  /** A step changes the contents exactly as `Apply` says and fixes the answer `Apply` gives. */
  ghost predicate ActsAtomically<T>(r: Ring<T>, p: Tid, pc: Pc<T>, r': Ring<T>, pc': Pc<T>)
    requires Agreed(r) && pc.Typed() && Local(r, p, pc) && Shaped(r')
  {
    && r'.head <= |r'.history| && pc'.Typed() && Local(r', p, pc')
    && CallerOf(r, p, pc).Waiting?
    && var (queue, answer) := Apply(Contents(r), r.cap, CallerOf(r, p, pc).op);
       Contents(r') == queue && CallerOf(r', p, pc') == Decided(CallerOf(r, p, pc).op, answer)
  }

  lemma PushTakesEffect<T>(r: Ring<T>, p: Tid, pc: Pc<T>, weak: bool)
    requires Agreed(r) && pc.Typed() && Local(r, p, pc) && TakesEffect(r, pc, weak)
    requires pc.PushCasTail? || pc.PushLoadHead?
    ensures var (r', pc') := Act(r, p, pc, weak); Shaped(r') && ActsAtomically(r, p, pc, r', pc')
  {
    if pc.PushCasTail? { TailCasFresh(r, pc.n); } else { RefusedWhenFull(r, p, pc); }
  }

  lemma ForceTakesEffect<T>(r: Ring<T>, p: Tid, pc: Pc<T>, weak: bool)
    requires Agreed(r) && pc.Typed() && Local(r, p, pc) && TakesEffect(r, pc, weak) && pc.ForceCasHead?
    ensures var (r', pc') := Act(r, p, pc, weak); Shaped(r') && ActsAtomically(r, p, pc, r', pc')
  {
    ForceCasFresh(r, pc.n);
  }

  lemma PopTakesEffect<T>(r: Ring<T>, p: Tid, pc: Pc<T>, weak: bool)
    requires Agreed(r) && pc.Typed() && Local(r, p, pc) && TakesEffect(r, pc, weak)
    requires pc.PopCasHead? || pc.PopLoadTail?
    ensures var (r', pc') := Act(r, p, pc, weak); Shaped(r') && ActsAtomically(r, p, pc, r', pc')
  {
    if pc.PopCasHead? { HeadCasFresh(r, pc.n); } else { NothingWhenEmpty(r, p, pc); }
  }

  lemma EffectIsApply<T>(r: Ring<T>, p: Tid, pc: Pc<T>, weak: bool)
    requires Agreed(r) && pc.Typed() && Local(r, p, pc) && TakesEffect(r, pc, weak)
    ensures var (r', pc') := Act(r, p, pc, weak); Shaped(r') && ActsAtomically(r, p, pc, r', pc')
  {
    if pc.PushCasTail? || pc.PushLoadHead? {
      PushTakesEffect(r, p, pc, weak);
    } else if pc.ForceCasHead? {
      ForceTakesEffect(r, p, pc, weak);
    } else {
      PopTakesEffect(r, p, pc, weak);
    }
  }

  /** A step that changes neither the contents nor where its caller stands. */
  ghost predicate ActsInternally<T>(r: Ring<T>, p: Tid, pc: Pc<T>, r': Ring<T>, pc': Pc<T>)
    requires Shaped(r) && pc.Typed() && Local(r, p, pc) && Shaped(r')
  {
    && r'.head == r.head && r'.history == r.history
    && pc'.Typed() && Local(r', p, pc') && CallerOf(r', p, pc') == CallerOf(r, p, pc)
  }

  lemma ForceWorkIsInternal<T>(r: Ring<T>, p: Tid, pc: Pc<T>, weak: bool)
    requires Agreed(r) && pc.Typed() && Local(r, p, pc)
    requires pc.ForceStoreTail? || pc.ForceSwapValue? || pc.ForceStoreStamp?
    ensures var (r', pc') := Act(r, p, pc, weak); ActsInternally(r, p, pc, r', pc')
  {
    WorkLocal(r, p, pc, weak);
  }

  lemma WorkIsInternal<T>(r: Ring<T>, p: Tid, pc: Pc<T>, weak: bool)
    requires Agreed(r) && pc.Typed() && Local(r, p, pc) && pc.Claims()
    ensures var (r', pc') := Act(r, p, pc, weak); ActsInternally(r, p, pc, r', pc')
  {
    if pc.ForceStoreTail? || pc.ForceSwapValue? || pc.ForceStoreStamp? {
      ForceWorkIsInternal(r, p, pc, weak);
    } else {
      WorkLocal(r, p, pc, weak);
    }
  }

  lemma PushLoadIsInternal<T>(r: Ring<T>, p: Tid, pc: Pc<T>, weak: bool)
    requires Agreed(r) && pc.Typed() && Local(r, p, pc) && !TakesEffect(r, pc, weak) && !pc.Claims()
    requires pc.Pushing() || pc.FacingFull()
    ensures var (r', pc') := Act(r, p, pc, weak); ActsInternally(r, p, pc, r', pc')
  {
  }

  lemma PopLoadIsInternal<T>(r: Ring<T>, p: Tid, pc: Pc<T>, weak: bool)
    requires Agreed(r) && pc.Typed() && Local(r, p, pc) && !TakesEffect(r, pc, weak)
    requires pc.PopLoadHead? || pc.PopLoadStamp? || pc.PopLoadTail?
    ensures var (r', pc') := Act(r, p, pc, weak); ActsInternally(r, p, pc, r', pc')
  {
    PopLoadLocal(r, p, pc, weak);
  }

  lemma PopMissIsInternal<T>(r: Ring<T>, p: Tid, pc: Pc<T>, weak: bool)
    requires Agreed(r) && pc.Typed() && Local(r, p, pc) && !TakesEffect(r, pc, weak)
    requires pc.PopCasHead? || pc.Idle?
    ensures var (r', pc') := Act(r, p, pc, weak); ActsInternally(r, p, pc, r', pc')
  {
  }

  lemma OtherwiseInternal<T>(r: Ring<T>, p: Tid, pc: Pc<T>, weak: bool)
    requires Agreed(r) && pc.Typed() && Local(r, p, pc) && !TakesEffect(r, pc, weak) && !pc.Returning?
    ensures var (r', pc') := Act(r, p, pc, weak); ActsInternally(r, p, pc, r', pc')
  {
    if pc.Claims() {
      WorkIsInternal(r, p, pc, weak);
    } else if pc.Pushing() || pc.FacingFull() {
      PushLoadIsInternal(r, p, pc, weak);
    } else if pc.PopCasHead? || pc.Idle? {
      PopMissIsInternal(r, p, pc, weak);
    } else {
      PopLoadIsInternal(r, p, pc, weak);
    }
  }

  /** The step of one thread leaves the standing of every other caller alone. */
  lemma OthersUnaffected<T>(r: Ring<T>, p: Tid, pc: Pc<T>, weak: bool, q: Tid, other: Pc<T>)
    requires Agreed(r) && pc.Typed() && Local(r, p, pc) && p != q && other.Typed() && Local(r, q, other)
    ensures var r' := Act(r, p, pc, weak).0;
      Shaped(r') && Local(r', q, other) && CallerOf(r', q, other) == CallerOf(r, q, other)
  {
    ActAgreed(r, p, pc, weak);
    ActRely(r, p, pc, weak, q);
    LocalStable(r, Act(r, p, pc, weak).0, q, other);
  }

  /** A step of one thread changes the view of that thread's caller, and maybe the contents. */
  lemma ViewAfterStep<T>(s: State<T>, p: Tid, weak: bool)
    requires Inv(s) && p in s.threads
    ensures var s' := Perform(s, Step(p, weak));
      && Inv(s')
      && View(s') == Object(Contents(s'.ring), View(s).callers[p := CallerOf(s'.ring, p, s'.threads[p])])
  {
    InvPerform(s, Step(p, weak));
    var s' := Perform(s, Step(p, weak));
    forall q | q in s.threads && q != p
      ensures CallerOf(s'.ring, q, s.threads[q]) == CallerOf(s.ring, q, s.threads[q])
    {
      OthersUnaffected(s.ring, p, s.threads[p], weak, q, s.threads[q]);
    }
  }

  ghost predicate Refines<T>(s: State<T>, c: Choice<T>)
    requires Inv(s)
  {
    && Inv(Perform(s, c))
    && Allowed(View(s), EventOf(s, c))
    && View(Perform(s, c)) == Next(s.ring.cap, View(s), EventOf(s, c))
  }

  lemma EffectRefines<T>(s: State<T>, p: Tid, weak: bool)
    requires Inv(s) && p in s.threads && TakesEffect(s.ring, s.threads[p], weak)
    ensures Refines(s, Step(p, weak))
  {
    ViewAfterStep(s, p, weak);
    EffectIsApply(s.ring, p, s.threads[p], weak);
  }

  lemma InternalRefines<T>(s: State<T>, p: Tid, weak: bool)
    requires Inv(s) && p in s.threads && !TakesEffect(s.ring, s.threads[p], weak) && !s.threads[p].Returning?
    ensures Refines(s, Step(p, weak))
  {
    ViewAfterStep(s, p, weak);
    OtherwiseInternal(s.ring, p, s.threads[p], weak);
    assert View(s).callers[p := CallerOf(s.ring, p, s.threads[p])] == View(s).callers;
  }

  lemma ReturnRefines<T>(s: State<T>, p: Tid, weak: bool)
    requires Inv(s) && p in s.threads && s.threads[p].Returning?
    ensures Refines(s, Step(p, weak))
  {
    ViewAfterStep(s, p, weak);
  }

  lemma StartRefines<T>(s: State<T>, p: Tid, op: Op<T>)
    requires Inv(s)
    ensures Refines(s, Start(p, op))
  {
    InvPerform(s, Start(p, op));
  }

  /** Every step of the machine is a step of the atomic queue. */
  lemma StepRefines<T>(s: State<T>, c: Choice<T>)
    requires Inv(s)
    ensures Refines(s, c)
  {
    match c
    case Start(p, op) => StartRefines(s, p, op);
    case Step(p, weak) =>
      if p !in s.threads {
      } else if TakesEffect(s.ring, s.threads[p], weak) {
        EffectRefines(s, p, weak);
      } else if s.threads[p].Returning? {
        ReturnRefines(s, p, weak);
      } else {
        InternalRefines(s, p, weak);
      }
  }

  /** Every run of any number of threads is a history of the atomic bounded FIFO: same invocations,
      same answers, each operation decided once between the two. */
  lemma {:induction false} Linearizable<T(!new)>(cap: nat, tids: set<Tid>, choices: seq<Choice<T>>)
    requires cap > 0
    ensures var s0 := Init<T>(cap, tids);
      Inv(Run(s0, choices)) && History(cap, tids, EventsOf(s0, choices), View(Run(s0, choices)))
    decreases |choices|
  {
    var s0 := Init<T>(cap, tids);
    InvInit<T>(cap, tids);
    if choices == [] {
    } else {
      var before := choices[..|choices| - 1];
      Linearizable(cap, tids, before);
      StepRefines(Run(s0, before), choices[|choices| - 1]);
      var events := EventsOf(s0, choices);
      assert events[..|events| - 1] == EventsOf(s0, before);
      var o, last := View(Run(s0, before)), events[|events| - 1];
      assert History(cap, tids, events[..|events| - 1], o) && Allowed(o, last);
      assert View(Run(s0, choices)) == Next(cap, o, last);
    }
  }

  /** Over every interleaved run, in the order in which the operations take effect: the values let in are
      the values let out followed by the contents, and the answers are those of a bounded FIFO. */
  lemma ConcurrentFifo<T(!new)>(cap: nat, tids: set<Tid>, choices: seq<Choice<T>>)
    requires cap > 0
    ensures var s, events := Run(Init<T>(cap, tids), choices), EventsOf(Init<T>(cap, tids), choices);
      var ops, answers := Linearization(events), SequentialAnswers(cap, events);
      && Inv(s) && |ops| == Decisions(events)
      && ApplyAll([], cap, ops) == (Contents(s.ring), answers)
      && Entered(ops, answers) == Departed(answers) + Contents(s.ring)
      && IsFifo(cap, [], ops, answers)
  {
    var s0 := Init<T>(cap, tids);
    Linearizable(cap, tids, choices);
    DecidedInOrder(cap, tids, EventsOf(s0, choices), View(Run(s0, choices)));
    var ops, answers := Linearization(EventsOf(s0, choices)), SequentialAnswers(cap, EventsOf(s0, choices));
    FifoOrder(cap, [], ops, answers);
    assert [] + Entered(ops, answers) == Entered(ops, answers);
  }

  /** What a thread returns at step `i` of any run is the answer of the sequential queue to the operation
      that it invoked last, in the place of the step at which that operation took effect in between. */
  lemma ConcurrentAnswers<T(!new)>(cap: nat, tids: set<Tid>, choices: seq<Choice<T>>, i: nat) returns (j: nat, k: nat)
    requires cap > 0
    requires var events := EventsOf(Init<T>(cap, tids), choices); i < |events| && events[i].Return?
    ensures var events := EventsOf(Init<T>(cap, tids), choices);
      && Matched(cap, events, i, j, k) && AnsweredFifo(cap, events, i, j, k)
      && (events[i].answer.Rejected? ==> events[j].op == Push(events[i].answer.back))
  {
    var s0 := Init<T>(cap, tids);
    Linearizable(cap, tids, choices);
    j, k := ReturnsMatch(cap, tids, EventsOf(s0, choices), View(Run(s0, choices)), i);
  }
}
