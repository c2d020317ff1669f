/** `push`, `force_push` and `pop` of the array queue as a step machine: any number of threads,
    one atomic load, store, swap or compare-exchange per step, in any interleaving.
    Words are replaced by tickets here; `WordQueue` puts the machine words back. */
module TicketQueue {
  import opened Arithmetic
  import opened BoundedFifo

  /** Stamp of a slot: free for the pusher of a ticket, or filled with the element of a ticket. */
  datatype Phase = Free(n: nat) | Filled(n: nat)

  datatype Slot<T> = Slot(phase: Phase, value: Option<T>)

  /** `history` and `owner` are bookkeeping for the proofs: the element of every ticket claimed so
      far, and the thread between the claim of a slot and its stamp store. No step reads them. */
  datatype Ring<T> = Ring(
    cap: nat,
    head: nat,
    tail: nat,
    slots: seq<Slot<T>>,
    history: seq<T>,
    owner: seq<Option<Tid>>
  )

  /** Program counter and locals of a thread. `n` is the `tail` or `head` local, possibly stale. */
  datatype Pc<T> =
    | Idle
    | PushLoadTail(op: Op<T>)
    | PushLoadStamp(op: Op<T>, n: nat)
    | PushCasTail(op: Op<T>, n: nat)
    | PushWriteValue(op: Op<T>, n: nat)
    | PushStoreStamp(op: Op<T>, n: nat)
    | PushLoadHead(op: Op<T>, n: nat)
    | ForceCasHead(op: Op<T>, n: nat)
    | ForceStoreTail(op: Op<T>, n: nat)
    | ForceSwapValue(op: Op<T>, n: nat)
    | ForceStoreStamp(op: Op<T>, n: nat, former: Option<T>)
    | PopLoadHead
    | PopLoadStamp(n: nat)
    | PopCasHead(n: nat)
    | PopReadValue(n: nat)
    | PopStoreStamp(n: nat, msg: Option<T>)
    | PopLoadTail(n: nat)
    | Returning(op: Op<T>, answer: Answer<T>)
  {
    /** Locals are well typed: the operation of a pushing thread carries a value. */
    predicate Typed() {
      && (Pushing() ==> !op.Pop?)
      && (PushLoadHead? ==> op.Push?)
      && (ForceCasHead? || ForceStoreTail? || ForceSwapValue? || ForceStoreStamp? ==> op.ForcePush?)
    }

    predicate Pushing() {
      PushLoadTail? || PushLoadStamp? || PushCasTail? || PushWriteValue? || PushStoreStamp?
    }

    predicate FacingFull() {
      PushLoadHead? || ForceCasHead? || ForceStoreTail? || ForceSwapValue? || ForceStoreStamp?
    }

    predicate Popping() {
      PopLoadHead? || PopLoadStamp? || PopCasHead? || PopReadValue? || PopStoreStamp? || PopLoadTail?
    }

    /** Between the claim of a slot and the store of its stamp. */
    predicate Claims() {
      PushWriteValue? || PushStoreStamp? || ForceStoreTail? || ForceSwapValue? || ForceStoreStamp?
      || PopReadValue? || PopStoreStamp?
    }
  }

  datatype State<T> = State(ring: Ring<T>, threads: map<Tid, Pc<T>>)

  /** A scheduler's choice: an idle thread starts an operation, or a thread takes its next step.
      `weak` makes a `compare_exchange_weak` of that step fail spuriously. */
  datatype Choice<T> = Start(p: Tid, op: Op<T>) | Step(p: Tid, weak: bool)

  predicate Shaped<T>(r: Ring<T>) {
    r.cap > 0 && |r.slots| == r.cap && |r.owner| == r.cap
  }

  function FirstPc<T>(op: Op<T>): Pc<T> {
    if op.Pop? then PopLoadHead else PushLoadTail(op)
  }

  function Swapped<T>(former: Option<T>): Answer<T> {
    match former case Some(x) => Displaced(x) case None => Uninitialised
  }

  function Popped<T>(msg: Option<T>): Answer<T> {
    match msg case Some(x) => Taken(x) case None => Uninitialised
  }

  function Claim<T>(r: Ring<T>, i: nat, p: Tid): Ring<T>
    requires i < |r.owner|
  {
    r.(owner := r.owner[i := Some(p)])
  }

  /** The stamp store that ends a claim. */
  function Publish<T>(r: Ring<T>, i: nat, phase: Phase): Ring<T>
    requires i < |r.owner| && i < |r.slots|
  {
    r.(slots := r.slots[i := r.slots[i].(phase := phase)], owner := r.owner[i := None])
  }

  function SetValue<T>(r: Ring<T>, i: nat, value: Option<T>): Ring<T>
    requires i < |r.slots|
  {
    r.(slots := r.slots[i := r.slots[i].(value := value)])
  }

  /** A step of `push_or_else`. */
  function ActPush<T>(r: Ring<T>, p: Tid, pc: Pc<T>, weak: bool): (a: (Ring<T>, Pc<T>))
    requires Shaped(r) && pc.Typed() && pc.Pushing()
    ensures Shaped(a.0) && a.0.cap == r.cap && a.1.Typed()
  {
    match pc
    case PushLoadTail(op) => (r, PushLoadStamp(op, r.tail))
    case PushLoadStamp(op, n) =>
      var stamp := r.slots[Index(n, r.cap)].phase;
      if stamp == Free(n) then (r, PushCasTail(op, n))
      else if stamp.Filled? && stamp.n + r.cap == n then
        (r, if op.Push? then PushLoadHead(op, n) else ForceCasHead(op, n))
      else (r, PushLoadTail(op))
    case PushCasTail(op, n) =>
      if r.tail == n && !weak then
        (Claim(r, Index(n, r.cap), p).(tail := n + 1, history := r.history + [op.v]), PushWriteValue(op, n))
      else (r, PushLoadStamp(op, r.tail))
    case PushWriteValue(op, n) =>
      (SetValue(r, Index(n, r.cap), Some(op.v)), PushStoreStamp(op, n))
    case PushStoreStamp(op, n) =>
      (Publish(r, Index(n, r.cap), Filled(n)), Returning(op, Accepted))
  }

  /** A step of the closures that `push` and `force_push` pass: what to do when the slot is still filled. */
  function ActFull<T>(r: Ring<T>, p: Tid, pc: Pc<T>, weak: bool): (a: (Ring<T>, Pc<T>))
    requires Shaped(r) && pc.Typed() && pc.FacingFull()
    ensures Shaped(a.0) && a.0.cap == r.cap && a.1.Typed()
  {
    match pc
    case PushLoadHead(op, n) =>
      if r.head + r.cap == n then (r, Returning(op, Rejected(op.v))) else (r, PushLoadTail(op))
    case ForceCasHead(op, n) =>
      if r.head + r.cap == n && !weak then
        (Claim(r, Index(n, r.cap), p).(head := r.head + 1, history := r.history + [op.v]), ForceStoreTail(op, n))
      else (r, PushLoadTail(op))
    case ForceStoreTail(op, n) => (r.(tail := n + 1), ForceSwapValue(op, n))
    case ForceSwapValue(op, n) =>
      var i := Index(n, r.cap);
      (SetValue(r, i, Some(op.v)), ForceStoreStamp(op, n, r.slots[i].value))
    case ForceStoreStamp(op, n, former) =>
      (Publish(r, Index(n, r.cap), Filled(n)), Returning(op, Swapped(former)))
  }

  /** A step of `pop`. */
  function ActPop<T>(r: Ring<T>, p: Tid, pc: Pc<T>, weak: bool): (a: (Ring<T>, Pc<T>))
    requires Shaped(r) && pc.Typed() && pc.Popping()
    ensures Shaped(a.0) && a.0.cap == r.cap && a.1.Typed()
  {
    match pc
    case PopLoadHead => (r, PopLoadStamp(r.head))
    case PopLoadStamp(n) =>
      var stamp := r.slots[Index(n, r.cap)].phase;
      if stamp == Filled(n) then (r, PopCasHead(n))
      else if stamp == Free(n) then (r, PopLoadTail(n))
      else (r, PopLoadHead)
    case PopCasHead(n) =>
      if r.head == n && !weak then
        (Claim(r, Index(n, r.cap), p).(head := n + 1), PopReadValue(n))
      else (r, PopLoadStamp(r.head))
    case PopReadValue(n) =>
      var i := Index(n, r.cap);
      (SetValue(r, i, None), PopStoreStamp(n, r.slots[i].value))
    case PopStoreStamp(n, msg) =>
      (Publish(r, Index(n, r.cap), Free(n + r.cap)), Returning(Pop, Popped(msg)))
    case PopLoadTail(n) =>
      if r.tail == n then (r, Returning(Pop, Nothing)) else (r, PopLoadHead)
  }

  /** One atomic step of thread `p` at `pc`. */
  function Act<T>(r: Ring<T>, p: Tid, pc: Pc<T>, weak: bool): (a: (Ring<T>, Pc<T>))
    requires Shaped(r) && pc.Typed()
    ensures Shaped(a.0) && a.0.cap == r.cap && a.1.Typed()
  {
    if pc.Pushing() then ActPush(r, p, pc, weak)
    else if pc.FacingFull() then ActFull(r, p, pc, weak)
    else if pc.Popping() then ActPop(r, p, pc, weak)
    else (r, Idle)
  }

  predicate WellFormed<T>(s: State<T>) {
    Shaped(s.ring) && forall p :: p in s.threads ==> s.threads[p].Typed()
  }

  function Perform<T>(s: State<T>, c: Choice<T>): (s': State<T>)
    requires WellFormed(s)
    ensures WellFormed(s')
    ensures s'.threads.Keys == s.threads.Keys && s'.ring.cap == s.ring.cap
  {
    match c
    case Start(p, op) =>
      if p in s.threads && s.threads[p].Idle? then s.(threads := s.threads[p := FirstPc(op)]) else s
    case Step(p, weak) =>
      if p in s.threads then
        var (ring, pc) := Act(s.ring, p, s.threads[p], weak);
        State(ring, s.threads[p := pc])
      else s
  }

  /** The queue that `new` returns, with every thread idle. */
  function Init<T>(cap: nat, tids: set<Tid>): (s: State<T>)
    requires cap > 0
    ensures WellFormed(s) && s.ring.cap == cap
  {
    State(
      Ring(cap, 0, 0, seq(cap, (i: nat) => Slot(Free(i), None)), [], seq(cap, _ => None)),
      map p | p in tids :: Idle)
  }

  /** The state after a finite run. */
  function Run<T>(s: State<T>, choices: seq<Choice<T>>): (s': State<T>)
    requires WellFormed(s)
    ensures WellFormed(s')
    ensures s'.threads.Keys == s.threads.Keys && s'.ring.cap == s.ring.cap
    decreases |choices|
  {
    if choices == [] then s
    else Perform(Run(s, choices[..|choices| - 1]), choices[|choices| - 1])
  }
}
