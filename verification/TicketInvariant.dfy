/** What every step of the concurrent queue keeps, by rely and guarantee: a thread's own knowledge
    (`Local`), what all threads agree on (`Agreed`), and what a thread may do to the others (`Rely`). */
module TicketInvariant {
  import opened Arithmetic
  import opened BoundedFifo
  import opened TicketQueue

  /** Stamps of one slot only grow in this order. */
  function Key(phase: Phase): nat {
    match phase case Free(n) => 2 * n case Filled(n) => 2 * n + 1
  }

  function SlotOf<T>(r: Ring<T>, n: nat): Slot<T>
    requires Shaped(r)
  {
    r.slots[Index(n, r.cap)]
  }

  function OwnerOf<T>(r: Ring<T>, n: nat): Option<Tid>
    requires Shaped(r)
  {
    r.owner[Index(n, r.cap)]
  }

  /** The slot of ticket `n`, when nobody is in the middle of an operation on it. */
  ghost predicate Settled<T>(r: Ring<T>, n: nat)
    requires Shaped(r) && r.tail <= |r.history|
  {
    SlotOf(r, n) == if n < r.tail then Slot(Filled(n), Some(r.history[n])) else Slot(Free(n), None)
  }

  /** The slot of ticket `n`, as far as every thread knows, while somebody is. */
  ghost predicate Busy<T>(r: Ring<T>, n: nat)
    requires Shaped(r)
  {
    if n < r.tail then Key(SlotOf(r, n).phase) <= 2 * n else Key(SlotOf(r, n).phase) < 2 * n
  }

  ghost predicate SlotKnown<T>(r: Ring<T>, n: nat)
    requires Shaped(r) && r.tail <= |r.history|
  {
    if OwnerOf(r, n) == None then Settled(r, n) else Busy(r, n)
  }

  /** A stamp belongs to its slot and is at most one lap away from the head. */
  predicate StampInRange<T>(r: Ring<T>, i: nat)
    requires Shaped(r) && i < r.cap
  {
    && Index(r.slots[i].phase.n, r.cap) == i
    && match r.slots[i].phase
       case Free(m) => r.head <= m < r.head + r.cap
       case Filled(m) => r.head <= m + r.cap && m < r.tail
  }

  ghost predicate Agreed<T>(r: Ring<T>) {
    && Shaped(r)
    && r.head <= r.tail <= |r.history| <= r.head + r.cap
    && |r.history| <= r.tail + 1
    && (|r.history| == r.tail + 1 ==> OwnerOf(r, r.tail).Some?)
    && (forall n: nat | r.head <= n < r.head + r.cap :: SlotKnown(r, n))
    && (forall i: nat | i < r.cap :: StampInRange(r, i))
  }

  /** A pending overwrite: `force_push` has moved the head and not yet the tail. */
  predicate OverwritePending<T>(r: Ring<T>) {
    |r.history| == r.tail + 1
  }

  /** What thread `p` knows at `pc`. */
  ghost predicate Local<T>(r: Ring<T>, p: Tid, pc: Pc<T>)
    requires Shaped(r) && pc.Typed()
  {
    match pc
    case PushLoadStamp(_, n) => n <= r.tail
    case PushCasTail(_, n) => n <= r.tail && Key(SlotOf(r, n).phase) >= 2 * n
    case PushLoadHead(_, n) => n <= r.tail
    case ForceCasHead(_, n) => r.cap <= n <= r.tail && Key(SlotOf(r, n).phase) > 2 * (n - r.cap)
    case PopLoadStamp(n) => n <= r.head
    case PopCasHead(n) => n <= r.head && Key(SlotOf(r, n).phase) > 2 * n
    case PopLoadTail(n) => n <= r.head && Key(SlotOf(r, n).phase) >= 2 * n
    case PushWriteValue(op, n) =>
      && OwnerOf(r, n) == Some(p) && r.head <= n < r.tail <= |r.history|
      && SlotOf(r, n) == Slot(Free(n), None) && r.history[n] == op.v
    case PushStoreStamp(op, n) =>
      && OwnerOf(r, n) == Some(p) && r.head <= n < r.tail <= |r.history|
      && SlotOf(r, n) == Slot(Free(n), Some(r.history[n]))
    case ForceStoreTail(op, n) =>
      && OwnerOf(r, n) == Some(p) && r.cap <= n == r.tail && |r.history| == n + 1
      && SlotOf(r, n) == Slot(Filled(n - r.cap), Some(r.history[n - r.cap])) && r.history[n] == op.v
    case ForceSwapValue(op, n) =>
      && OwnerOf(r, n) == Some(p) && r.cap <= n && r.head <= n < r.tail <= |r.history|
      && SlotOf(r, n) == Slot(Filled(n - r.cap), Some(r.history[n - r.cap])) && r.history[n] == op.v
    case ForceStoreStamp(op, n, former) =>
      && OwnerOf(r, n) == Some(p) && r.cap <= n && r.head <= n < r.tail <= |r.history|
      && SlotOf(r, n) == Slot(Filled(n - r.cap), Some(r.history[n])) && former == Some(r.history[n - r.cap])
    case PopReadValue(n) =>
      && OwnerOf(r, n) == Some(p) && n < r.head && n < |r.history| <= n + r.cap
      && SlotOf(r, n) == Slot(Filled(n), Some(r.history[n]))
    case PopStoreStamp(n, msg) =>
      && OwnerOf(r, n) == Some(p) && n < r.head && n < |r.history| <= n + r.cap
      && SlotOf(r, n) == Slot(Filled(n), None) && msg == Some(r.history[n])
    case _ => true
  }

  /** A claimed slot names the thread that works on it. */
  ghost predicate OwnersWork<T>(s: State<T>)
    requires WellFormed(s)
  {
    forall i: nat | i < s.ring.cap && s.ring.owner[i].Some? ::
      var p := s.ring.owner[i].value;
      p in s.threads && s.threads[p].Claims() && Index(s.threads[p].n, s.ring.cap) == i
  }

  ghost predicate Inv<T>(s: State<T>) {
    && WellFormed(s)
    && Agreed(s.ring)
    && (forall p | p in s.threads :: Local(s.ring, p, s.threads[p]))
    && OwnersWork(s)
  }

  /** What thread `q` may rely on while another thread takes one step. */
  ghost predicate Rely<T>(r: Ring<T>, r': Ring<T>, q: Tid)
    requires Shaped(r)
  {
    && Shaped(r') && r'.cap == r.cap
    && (r'.head == r.head || (r'.head == r.head + 1 && OwnerOf(r, r.head) != Some(q)))
    && (r'.tail == r.tail || (r'.tail == r.tail + 1 && OwnerOf(r, r.tail) != Some(q)))
    && r.history <= r'.history
    && (|r'.history| == |r.history|
        || (|r'.history| == |r.history| + 1 && |r.history| == r.tail && OwnerOf(r, r.tail) != Some(q)))
    && (forall i: nat | i < r.cap ::
          && Key(r.slots[i].phase) <= Key(r'.slots[i].phase)
          && (r.owner[i] == Some(q) ==> r'.slots[i] == r.slots[i])
          && (r.owner[i] == Some(q) <==> r'.owner[i] == Some(q)))
  }

  // ---- a successful compare-exchange means the stamp read before is still current ----

  /** The tail has not moved: its slot is free, nobody works on it and no overwrite is pending. */
  lemma TailCasFresh<T>(r: Ring<T>, n: nat)
    requires Agreed(r) && n == r.tail && Key(SlotOf(r, n).phase) >= 2 * n
    ensures r.tail < r.head + r.cap && |r.history| == r.tail
    ensures OwnerOf(r, n) == None && SlotOf(r, n) == Slot(Free(n), None)
  {
    assert SlotKnown(r, r.head);
    IndexPeriodic(r.head, r.cap);
    assert r.tail < r.head + r.cap ==> SlotKnown(r, r.tail);
  }

  /** The head has not moved: its slot is filled with its element and nobody works on it. */
  lemma HeadCasFresh<T>(r: Ring<T>, n: nat)
    requires Agreed(r) && n == r.head && Key(SlotOf(r, n).phase) > 2 * n
    ensures r.head < r.tail
    ensures OwnerOf(r, n) == None && SlotOf(r, n) == Slot(Filled(n), Some(r.history[n]))
  {
    assert SlotKnown(r, r.head);
  }

  /** The head is one lap behind the tail that `force_push` read: that tail is current, the queue
      is full, and the slot holds the oldest element. */
  lemma ForceCasFresh<T>(r: Ring<T>, n: nat)
    requires Agreed(r) && r.head + r.cap == n <= r.tail && Key(SlotOf(r, n).phase) > 2 * (n - r.cap)
    ensures r.tail == n && |r.history| == n
    ensures OwnerOf(r, n) == None && SlotOf(r, n) == Slot(Filled(r.head), Some(r.history[r.head]))
  {
    IndexPeriodic(r.head, r.cap);
    HeadCasFresh(r, r.head);
  }

  // ---- one thread's step ----

  /** The thread's own knowledge after a compare-exchange. */
  lemma CasLocal<T>(r: Ring<T>, p: Tid, pc: Pc<T>, weak: bool)
    requires Agreed(r) && pc.Typed() && Local(r, p, pc)
    requires pc.PushCasTail? || pc.PopCasHead? || pc.ForceCasHead?
    ensures var (r', pc') := Act(r, p, pc, weak); Local(r', p, pc')
  {
    match pc
    case PushCasTail(op, n) => if r.tail == n { TailCasFresh(r, n); }
    case PopCasHead(n) => if r.head == n { HeadCasFresh(r, n); }
    case ForceCasHead(op, n) => if r.head + r.cap == n { ForceCasFresh(r, n); }
  }

  /** The thread's own knowledge after a step on the slot it claimed. */
  lemma WorkLocal<T>(r: Ring<T>, p: Tid, pc: Pc<T>, weak: bool)
    requires Agreed(r) && pc.Typed() && Local(r, p, pc) && pc.Claims()
    ensures var (r', pc') := Act(r, p, pc, weak); Local(r', p, pc')
  {
  }

  /** Loads leave the ring alone. */
  lemma PushLoadLocal<T>(r: Ring<T>, p: Tid, pc: Pc<T>, weak: bool)
    requires Agreed(r) && pc.Typed() && Local(r, p, pc)
    requires pc.PushLoadTail? || pc.PushLoadStamp? || pc.PushLoadHead?
    ensures var (r', pc') := Act(r, p, pc, weak); r' == r && Local(r, p, pc')
  {
  }

  lemma PopLoadLocal<T>(r: Ring<T>, p: Tid, pc: Pc<T>, weak: bool)
    requires Agreed(r) && pc.Typed() && Local(r, p, pc)
    requires pc.PopLoadHead? || pc.PopLoadStamp? || pc.PopLoadTail?
    ensures var (r', pc') := Act(r, p, pc, weak); r' == r && Local(r, p, pc')
  {
  }

  /** The thread's own knowledge after its step. */
  lemma ActLocal<T>(r: Ring<T>, p: Tid, pc: Pc<T>, weak: bool)
    requires Agreed(r) && pc.Typed() && Local(r, p, pc)
    ensures var (r', pc') := Act(r, p, pc, weak); Local(r', p, pc')
  {
    if pc.PushCasTail? || pc.PopCasHead? || pc.ForceCasHead? {
      CasLocal(r, p, pc, weak);
    } else if pc.Claims() {
      WorkLocal(r, p, pc, weak);
    } else if pc.PushLoadTail? || pc.PushLoadStamp? || pc.PushLoadHead? {
      PushLoadLocal(r, p, pc, weak);
    } else if pc.PopLoadHead? || pc.PopLoadStamp? || pc.PopLoadTail? {
      PopLoadLocal(r, p, pc, weak);
    }
  }

  // ---- what all threads agree on, kept by each change of the ring ----

  /** A slot somebody works on may change its value. */
  lemma SetValueAgreed<T>(r: Ring<T>, i: nat, value: Option<T>)
    requires Agreed(r) && i < r.cap && r.owner[i].Some?
    ensures Agreed(SetValue(r, i, value))
  {
    var r' := SetValue(r, i, value);
    forall j: nat | j < r.cap ensures StampInRange(r', j) { assert StampInRange(r, j); }
    forall n: nat | r.head <= n < r.head + r.cap ensures SlotKnown(r', n) {
      assert SlotKnown(r, n);
    }
  }

  /** The work on the slot of ticket `m` ends with the stamp that everybody expects. */
  lemma PublishAgreed<T>(r: Ring<T>, m: nat, phase: Phase)
    requires Agreed(r) && r.head <= m < r.head + r.cap && (m == r.tail ==> |r.history| == r.tail)
    requires phase == if m < r.tail then Filled(m) else Free(m)
    requires SlotOf(r, m).value == if m < r.tail then Some(r.history[m]) else None
    ensures Agreed(Publish(r, Index(m, r.cap), phase))
  {
    var r' := Publish(r, Index(m, r.cap), phase);
    forall i: nat | i < r.cap ensures StampInRange(r', i) { assert StampInRange(r, i); }
    forall n: nat | r.head <= n < r.head + r.cap ensures SlotKnown(r', n) {
      assert SlotKnown(r, n);
      if Index(n, r.cap) == Index(m, r.cap) { IndexDistinct(n, m, r.cap); }
    }
    if |r.history| == r.tail + 1 && Index(m, r.cap) == Index(r.tail, r.cap) {
      IndexDistinct(m, r.tail, r.cap);
    }
  }

  /** A push claims the ticket at the tail. */
  lemma TailClaimAgreed<T>(r: Ring<T>, p: Tid, v: T)
    requires Agreed(r) && r.tail < r.head + r.cap && |r.history| == r.tail && Settled(r, r.tail)
    ensures Agreed(Claim(r, Index(r.tail, r.cap), p).(tail := r.tail + 1, history := r.history + [v]))
  {
    var r' := Claim(r, Index(r.tail, r.cap), p).(tail := r.tail + 1, history := r.history + [v]);
    forall i: nat | i < r.cap ensures StampInRange(r', i) { assert StampInRange(r, i); }
    forall n: nat | r.head <= n < r.head + r.cap ensures SlotKnown(r', n) {
      assert SlotKnown(r, n);
      if Index(n, r.cap) == Index(r.tail, r.cap) { IndexDistinct(n, r.tail, r.cap); }
    }
  }

  /** A pop claims the ticket at the head; so does an overwrite, which also appends its element. */
  lemma HeadClaimAgreed<T>(r: Ring<T>, p: Tid, more: seq<T>)
    requires Agreed(r) && r.head < r.tail && Settled(r, r.head)
    requires more == [] || (|more| == 1 && |r.history| == r.tail == r.head + r.cap)
    ensures Agreed(Claim(r, Index(r.head, r.cap), p).(head := r.head + 1, history := r.history + more))
  {
    var r' := Claim(r, Index(r.head, r.cap), p).(head := r.head + 1, history := r.history + more);
    IndexPeriodic(r.head, r.cap);
    forall i: nat | i < r.cap ensures StampInRange(r', i) {
      assert StampInRange(r, i);
      IndexPeriodic(r.slots[i].phase.n, r.cap);
    }
    forall n: nat | r'.head <= n < r'.head + r.cap ensures SlotKnown(r', n) {
      if n < r.head + r.cap {
        assert SlotKnown(r, n);
        if Index(n, r.cap) == Index(r.head, r.cap) { IndexDistinct(n, r.head, r.cap); }
      }
    }
  }

  /** The pending overwrite moves the tail. */
  lemma TailStoreAgreed<T>(r: Ring<T>)
    requires Agreed(r) && |r.history| == r.tail + 1
    ensures Agreed(r.(tail := r.tail + 1))
  {
    var r' := r.(tail := r.tail + 1);
    forall i: nat | i < r.cap ensures StampInRange(r', i) { assert StampInRange(r, i); }
    forall n: nat | r.head <= n < r.head + r.cap ensures SlotKnown(r', n) {
      assert SlotKnown(r, n);
    }
  }

  lemma CasAgreed<T>(r: Ring<T>, p: Tid, pc: Pc<T>, weak: bool)
    requires Agreed(r) && pc.Typed() && Local(r, p, pc)
    requires pc.PushCasTail? || pc.PopCasHead? || pc.ForceCasHead?
    ensures Agreed(Act(r, p, pc, weak).0)
  {
    match pc
    case PushCasTail(op, n) =>
      if r.tail == n { TailCasFresh(r, n); TailClaimAgreed(r, p, op.v); }
    case PopCasHead(n) =>
      if r.head == n { HeadCasFresh(r, n); HeadClaimAgreed(r, p, []); assert r.history + [] == r.history; }
    case ForceCasHead(op, n) =>
      if r.head + r.cap == n {
        ForceCasFresh(r, n);
        IndexPeriodic(r.head, r.cap);
        HeadClaimAgreed(r, p, [op.v]);
      }
  }

  lemma WorkAgreed<T>(r: Ring<T>, p: Tid, pc: Pc<T>, weak: bool)
    requires Agreed(r) && pc.Typed() && Local(r, p, pc) && pc.Claims()
    ensures Agreed(Act(r, p, pc, weak).0)
  {
    match pc
    case PushWriteValue(op, n) => SetValueAgreed(r, Index(n, r.cap), Some(op.v));
    case ForceSwapValue(op, n) => SetValueAgreed(r, Index(n, r.cap), Some(op.v));
    case PopReadValue(n) => SetValueAgreed(r, Index(n, r.cap), None);
    case PushStoreStamp(op, n) => PublishAgreed(r, n, Filled(n));
    case ForceStoreStamp(op, n, _) => PublishAgreed(r, n, Filled(n));
    case PopStoreStamp(n, _) => IndexPeriodic(n, r.cap); PublishAgreed(r, n + r.cap, Free(n + r.cap));
    case ForceStoreTail(op, n) => TailStoreAgreed(r);
  }

  /** What all threads agree on, after the step of any of them. */
  lemma ActAgreed<T>(r: Ring<T>, p: Tid, pc: Pc<T>, weak: bool)
    requires Agreed(r) && pc.Typed() && Local(r, p, pc)
    ensures Agreed(Act(r, p, pc, weak).0)
  {
    if pc.PushCasTail? || pc.PopCasHead? || pc.ForceCasHead? {
      CasAgreed(r, p, pc, weak);
    } else if pc.Claims() {
      WorkAgreed(r, p, pc, weak);
    }
  }

  lemma CasRely<T>(r: Ring<T>, p: Tid, pc: Pc<T>, weak: bool, q: Tid)
    requires Agreed(r) && pc.Typed() && Local(r, p, pc) && p != q
    requires pc.PushCasTail? || pc.PopCasHead? || pc.ForceCasHead?
    ensures Rely(r, Act(r, p, pc, weak).0, q)
  {
    match pc
    case PushCasTail(op, n) => if r.tail == n { TailCasFresh(r, n); }
    case PopCasHead(n) => if r.head == n { HeadCasFresh(r, n); }
    case ForceCasHead(op, n) =>
      if r.head + r.cap == n { ForceCasFresh(r, n); IndexPeriodic(r.head, r.cap); }
  }

  lemma WorkRely<T>(r: Ring<T>, p: Tid, pc: Pc<T>, weak: bool, q: Tid)
    requires Agreed(r) && pc.Typed() && Local(r, p, pc) && p != q && pc.Claims()
    ensures Rely(r, Act(r, p, pc, weak).0, q)
  {
  }

  /** What the other threads rely on is what every step guarantees. */
  lemma ActRely<T>(r: Ring<T>, p: Tid, pc: Pc<T>, weak: bool, q: Tid)
    requires Agreed(r) && pc.Typed() && Local(r, p, pc) && p != q
    ensures Rely(r, Act(r, p, pc, weak).0, q)
  {
    if pc.PushCasTail? || pc.PopCasHead? || pc.ForceCasHead? {
      CasRely(r, p, pc, weak, q);
    } else if pc.Claims() {
      WorkRely(r, p, pc, weak, q);
    }
  }

  lemma WorkStable<T>(r: Ring<T>, r': Ring<T>, q: Tid, pc: Pc<T>)
    requires Agreed(r) && pc.Typed() && Local(r, q, pc) && Rely(r, r', q) && Agreed(r') && pc.Claims()
    ensures Local(r', q, pc)
  {
    assert SlotOf(r', pc.n) == SlotOf(r, pc.n);
    IndexPeriodic(pc.n, r.cap);
  }

  /** A thread's knowledge survives the steps of the others. */
  lemma LocalStable<T>(r: Ring<T>, r': Ring<T>, q: Tid, pc: Pc<T>)
    requires Agreed(r) && pc.Typed() && Local(r, q, pc) && Rely(r, r', q) && Agreed(r')
    ensures Local(r', q, pc)
  {
    if pc.Claims() {
      WorkStable(r, r', q, pc);
    }
  }

  // ---- every reachable state ----

  ghost predicate OwnsOnly<T>(r: Ring<T>, p: Tid, pc: Pc<T>)
    requires Shaped(r)
  {
    forall i: nat | i < r.cap && r.owner[i] == Some(p) :: pc.Claims() && Index(pc.n, r.cap) == i
  }

  lemma ActOwners<T>(r: Ring<T>, p: Tid, pc: Pc<T>, weak: bool)
    requires Agreed(r) && pc.Typed() && Local(r, p, pc) && OwnsOnly(r, p, pc)
    ensures var (r', pc') := Act(r, p, pc, weak); OwnsOnly(r', p, pc')
  {
    if pc.ForceCasHead? && r.head + r.cap == pc.n {
      IndexPeriodic(r.head, r.cap);
    }
  }

  lemma InvInit<T>(cap: nat, tids: set<Tid>)
    requires cap > 0
    ensures Inv(Init<T>(cap, tids))
  {
    var r := Init<T>(cap, tids).ring;
    forall n: nat | n < cap ensures SlotKnown(r, n) && StampInRange(r, n) {
      DivModUnique(n, cap, 0, n);
    }
  }

  lemma InvPerform<T>(s: State<T>, c: Choice<T>)
    requires Inv(s)
    ensures Inv(Perform(s, c))
  {
    match c
    case Start(p, op) =>
    case Step(p, weak) =>
      if p in s.threads {
        var r, pc := s.ring, s.threads[p];
        var (r', pc') := Act(r, p, pc, weak);
        ActLocal(r, p, pc, weak);
        ActAgreed(r, p, pc, weak);
        ActOwners(r, p, pc, weak);
        var s' := Perform(s, c);
        forall q | q in s'.threads ensures Local(r', q, s'.threads[q]) {
          if q != p {
            ActRely(r, p, pc, weak, q);
            LocalStable(r, r', q, s.threads[q]);
          }
        }
        forall i: nat | i < r.cap && r'.owner[i].Some?
          ensures r'.owner[i].value in s'.threads && s'.threads[r'.owner[i].value].Claims()
          ensures Index(s'.threads[r'.owner[i].value].n, r.cap) == i
        {
          var q := r'.owner[i].value;
          if q != p { ActRely(r, p, pc, weak, q); }
        }
      }
  }

  /** Every state of every run from a fresh queue satisfies the invariant. */
  lemma {:induction false} InvRun<T>(s: State<T>, choices: seq<Choice<T>>)
    requires Inv(s)
    ensures Inv(Run(s, choices))
    decreases |choices|
  {
    if choices != [] {
      InvRun(s, choices[..|choices| - 1]);
      InvPerform(Run(s, choices[..|choices| - 1]), choices[|choices| - 1]);
    }
  }
}
