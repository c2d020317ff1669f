/** Consequences of the invariant that a user of the queue cares about, over whole runs. */
module QueueSafety {
  import opened Arithmetic
  import opened BoundedFifo
  import opened TicketQueue
  import opened TicketInvariant

  /** At most one thread is between its claim and its stamp store for a given slot. */
  lemma SlotExclusion<T>(s: State<T>, p: Tid, q: Tid)
    requires Inv(s) && p in s.threads && q in s.threads && p != q
    requires s.threads[p].Claims() && s.threads[q].Claims()
    ensures Index(s.threads[p].n, s.ring.cap) != Index(s.threads[q].n, s.ring.cap)
  {
    assert Local(s.ring, p, s.threads[p]);
    assert Local(s.ring, q, s.threads[q]);
  }

  /** No step rewrites what was pushed before, and none takes back a ticket. */
  lemma StepGrows<T>(s: State<T>, c: Choice<T>)
    requires Inv(s)
    ensures var s' := Perform(s, c);
      s.ring.head <= s'.ring.head && s.ring.tail <= s'.ring.tail && s.ring.history <= s'.ring.history
  {
    if c.Step? && c.p in s.threads {
      ActRely(s.ring, c.p, s.threads[c.p], c.weak, c.p + 1);
    }
  }

  lemma {:induction false} RunGrows<T>(s: State<T>, choices: seq<Choice<T>>)
    requires Inv(s)
    ensures var s' := Run(s, choices);
      && Inv(s')
      && s.ring.head <= s'.ring.head && s.ring.tail <= s'.ring.tail && s.ring.history <= s'.ring.history
    decreases |choices|
  {
    if choices != [] {
      var before := choices[..|choices| - 1];
      RunGrows(s, before);
      StepGrows(Run(s, before), choices[|choices| - 1]);
      InvPerform(Run(s, before), choices[|choices| - 1]);
    }
  }

  /** The value a popper or an overwriter takes out of a slot is the one pushed with that ticket:
      whatever happens after the push of ticket `n` takes effect with value `v`, the slot still holds
      `v` when ticket `n` is about to be read, and the taker ends up with `v`. */
  lemma TakenIsPushed<T>(s: State<T>, n: nat, v: T, choices: seq<Choice<T>>, q: Tid)
    requires Inv(s) && n < |s.ring.history| && s.ring.history[n] == v
    requires var s' := Run(s, choices); q in s'.threads
    ensures var s' := Run(s, choices); var pc := s'.threads[q];
      && Inv(s')
      && (pc == PopReadValue(n) ==> SlotOf(s'.ring, n).value == Some(v))
      && (pc.PopStoreStamp? && pc.n == n ==> pc.msg == Some(v))
      && (pc.ForceSwapValue? && pc.n == n + s.ring.cap ==> SlotOf(s'.ring, pc.n).value == Some(v))
      && (pc.ForceStoreStamp? && pc.n == n + s.ring.cap ==> pc.former == Some(v))
  {
    RunGrows(s, choices);
    assert Local(Run(s, choices).ring, q, Run(s, choices).threads[q]);
  }

  /** The push that wins the tail records its value under its ticket. */
  lemma PushRecords<T>(s: State<T>, p: Tid)
    requires Inv(s) && p in s.threads && s.threads[p].PushCasTail? && s.ring.tail == s.threads[p].n
    ensures var s' := Perform(s, Step(p, false));
      s.ring.tail < |s'.ring.history| && s'.ring.history[s.ring.tail] == s.threads[p].op.v
  {
    assert Local(s.ring, p, s.threads[p]);
    TailCasFresh(s.ring, s.ring.tail);
  }

  /** A push never overwrites a value: the slot it writes is empty. */
  lemma PushWritesEmptySlot<T>(s: State<T>, p: Tid)
    requires Inv(s) && p in s.threads && s.threads[p].PushWriteValue?
    ensures SlotOf(s.ring, s.threads[p].n).value == None
  {
    assert Local(s.ring, p, s.threads[p]);
  }

  /** The stamp that a thread loaded before its compare-exchange is still there if the
      compare-exchange finds its expected word, however many steps came between. */
  lemma CasMeansCurrent<T>(s: State<T>, p: Tid)
    requires Inv(s) && p in s.threads
    ensures var r, pc := s.ring, s.threads[p];
      && (pc.PushCasTail? && r.tail == pc.n ==> SlotOf(r, pc.n).phase == Free(pc.n))
      && (pc.PopCasHead? && r.head == pc.n ==> SlotOf(r, pc.n).phase == Filled(pc.n))
      && (pc.ForceCasHead? && r.head + r.cap == pc.n ==> r.tail == pc.n && SlotOf(r, pc.n).phase == Filled(r.head))
  {
    var r, pc := s.ring, s.threads[p];
    assert Local(r, p, pc);
    match pc
    case PushCasTail(_, n) => if r.tail == n { TailCasFresh(r, n); }
    case PopCasHead(n) => if r.head == n { HeadCasFresh(r, n); }
    case ForceCasHead(_, n) => if r.head + r.cap == n { ForceCasFresh(r, n); }
    case _ =>
  }

  predicate NotBy<T>(p: Tid, choices: seq<Choice<T>>) {
    forall i :: 0 <= i < |choices| ==> choices[i].p != p
  }

  /** Steps of other threads leave a thread where it is. */
  lemma {:induction false} OthersLeavePc<T>(s: State<T>, p: Tid, choices: seq<Choice<T>>)
    requires WellFormed(s) && p in s.threads && NotBy(p, choices)
    ensures Run(s, choices).threads[p] == s.threads[p]
    decreases |choices|
  {
    if choices != [] {
      OthersLeavePc(s, p, choices[..|choices| - 1]);
    }
  }

  /** Between the head compare-exchange of `force_push` and its plain store of the tail, nobody else
      moves the tail, whatever the others do; the store then moves it by exactly one ticket. */
  lemma TailLocked<T>(s: State<T>, p: Tid, choices: seq<Choice<T>>, weak: bool)
    requires Inv(s) && p in s.threads && s.threads[p].ForceStoreTail? && NotBy(p, choices)
    ensures var s' := Run(s, choices);
      && s'.ring.tail == s.ring.tail == s.threads[p].n
      && Perform(s', Step(p, weak)).ring.tail == s.ring.tail + 1
  {
    InvRun(s, choices);
    OthersLeavePc(s, p, choices);
    assert Local(s.ring, p, s.threads[p]);
    assert Local(Run(s, choices).ring, p, s.threads[p]);
  }
}
