/** A thread that runs alone finishes: when nobody else is between a claim and its stamp store,
    `push`, `force_push` and `pop` reach their return within two iterations and eight atomic steps. */
module QueueProgress {
  import opened Arithmetic
  import opened BoundedFifo
  import opened TicketQueue
  import opened TicketInvariant

  /** Nobody but `p` is in the middle of work on a slot. */
  predicate Alone<T>(s: State<T>, p: Tid) {
    p in s.threads && forall q | q in s.threads && q != p :: !s.threads[q].Claims()
  }

  /** The steps that `pc` still needs at most, running alone and without spurious failures. */
  function Distance<T>(r: Ring<T>, pc: Pc<T>): (d: nat)
    ensures d <= 8
  {
    match pc
    case PushLoadTail(_) => 6
    case PushLoadStamp(_, n) => if n == r.tail then 5 else 8
    case PushCasTail(_, n) => if n == r.tail then 3 else 6
    case PushWriteValue(_, _) => 2
    case PushStoreStamp(_, _) => 1
    case PushLoadHead(_, n) => if n == r.head + r.cap then 1 else 7
    case ForceCasHead(_, n) => if n == r.head + r.cap then 4 else 7
    case ForceStoreTail(_, _) => 3
    case ForceSwapValue(_, _) => 2
    case ForceStoreStamp(_, _, _) => 1
    case PopLoadHead => 5
    case PopLoadStamp(n) => if n == r.head then 4 else 7
    case PopCasHead(n) => if n == r.head then 3 else 5
    case PopReadValue(_) => 2
    case PopStoreStamp(_, _) => 1
    case PopLoadTail(n) => if n == r.tail then 1 else 6
    case _ => 0
  }

  /** The loop iterations that `pc` still begins at most: each begins with a load of the stamp. */
  function Rounds<T>(r: Ring<T>, pc: Pc<T>): (d: nat)
    ensures d <= 2
  {
    match pc
    case PushLoadTail(_) => 1
    case PushLoadStamp(_, n) => if n == r.tail then 1 else 2
    case PushCasTail(_, n) => if n == r.tail then 0 else 1
    case PushLoadHead(_, n) => if n == r.head + r.cap then 0 else 1
    case ForceCasHead(_, n) => if n == r.head + r.cap then 0 else 1
    case PopLoadHead => 1
    case PopLoadStamp(n) => if n == r.head then 1 else 2
    case PopCasHead(n) => if n == r.head then 0 else 1
    case PopLoadTail(n) => if n == r.tail then 0 else 1
    case _ => 0
  }

  /** A step that begins an iteration of the retry loop. */
  function Begins<T>(pc: Pc<T>): nat {
    if pc.PushLoadStamp? || pc.PopLoadStamp? then 1 else 0
  }

  /** A step brings the thread closer to its return. */
  predicate Closer<T>(r: Ring<T>, pc: Pc<T>, r': Ring<T>, pc': Pc<T>) {
    Distance(r', pc') < Distance(r, pc) && Begins(pc) + Rounds(r', pc') <= Rounds(r, pc)
  }

  /** Without anybody at work, the slots at the head and at the tail are settled. */
  lemma AloneSettles<T>(s: State<T>, p: Tid)
    requires Inv(s) && Alone(s, p) && !s.threads[p].Claims()
    ensures |s.ring.history| == s.ring.tail
    ensures var r := s.ring;
      && SlotOf(r, r.head).phase == (if r.head < r.tail then Filled(r.head) else Free(r.head))
      && SlotOf(r, r.tail).phase == (if r.tail < r.head + r.cap then Free(r.tail) else Filled(r.head))
  {
    var r := s.ring;
    assert OwnerOf(r, r.head) == None && OwnerOf(r, r.tail) == None;
    assert SlotKnown(r, r.head);
    IndexPeriodic(r.head, r.cap);
    if r.tail < r.head + r.cap {
      assert SlotKnown(r, r.tail);
    }
  }

  lemma PushCloser<T>(s: State<T>, p: Tid)
    requires Inv(s) && Alone(s, p) && (s.threads[p].Pushing() || s.threads[p].FacingFull())
    ensures var (r', pc') := Act(s.ring, p, s.threads[p], false); Closer(s.ring, s.threads[p], r', pc')
  {
    assert Local(s.ring, p, s.threads[p]);
    if !s.threads[p].Claims() {
      AloneSettles(s, p);
    }
  }

  lemma PopCloser<T>(s: State<T>, p: Tid)
    requires Inv(s) && Alone(s, p) && s.threads[p].Popping()
    ensures var (r', pc') := Act(s.ring, p, s.threads[p], false); Closer(s.ring, s.threads[p], r', pc')
  {
    assert Local(s.ring, p, s.threads[p]);
    if !s.threads[p].Claims() {
      AloneSettles(s, p);
    }
  }

  function Solo<T>(p: Tid, k: nat): (choices: seq<Choice<T>>)
    ensures |choices| == k
  {
    seq(k, _ => Step(p, false))
  }

  lemma {:induction false} RunFirst<T>(s: State<T>, c: Choice<T>, rest: seq<Choice<T>>)
    requires WellFormed(s)
    ensures Run(s, [c] + rest) == Run(Perform(s, c), rest)
    decreases |rest|
  {
    if rest == [] {
      assert [c] + rest == [c] && [c][..0] == [];
    } else {
      var choices := [c] + rest;
      assert choices[..|choices| - 1] == [c] + rest[..|rest| - 1];
      RunFirst(s, c, rest[..|rest| - 1]);
    }
  }

  /** One step of the lonely thread. */
  lemma SoloStep<T>(s: State<T>, p: Tid)
    requires Inv(s) && Alone(s, p) && !s.threads[p].Idle? && !s.threads[p].Returning?
    ensures var s' := Perform(s, Step(p, false));
      Inv(s') && Alone(s', p) && !s'.threads[p].Idle? && Closer(s.ring, s.threads[p], s'.ring, s'.threads[p])
  {
    InvPerform(s, Step(p, false));
    if s.threads[p].Popping() { PopCloser(s, p); } else { PushCloser(s, p); }
    NeverStraightToIdle(s.ring, p, s.threads[p]);
  }

  lemma NeverStraightToIdle<T>(r: Ring<T>, p: Tid, pc: Pc<T>)
    requires Shaped(r) && pc.Typed() && !pc.Idle? && !pc.Returning?
    ensures !Act(r, p, pc, false).1.Idle?
  {
  }

  /** The loop iterations that `p` begins in its next `k` steps, alone. */
  function Iterations<T>(s: State<T>, p: Tid, k: nat): nat
    requires WellFormed(s) && p in s.threads
    decreases k
  {
    if k == 0 then 0 else Begins(s.threads[p]) + Iterations(Perform(s, Step(p, false)), p, k - 1)
  }

  /** Running alone, `p` returns after `k` steps, within the bounds of `Distance` and `Rounds`. */
  ghost predicate ReturnsAfter<T>(s: State<T>, p: Tid, k: nat)
    requires WellFormed(s) && p in s.threads
  {
    && Run(s, Solo(p, k)).threads[p].Returning?
    && k <= Distance(s.ring, s.threads[p])
    && Iterations(s, p, k) <= Rounds(s.ring, s.threads[p])
  }

  /** A solo run of `k + 1` steps is a step and a solo run of `k`. */
  lemma SoloUnroll<T>(s: State<T>, p: Tid, k: nat)
    requires WellFormed(s) && p in s.threads
    ensures var s' := Perform(s, Step(p, false));
      && Run(s, Solo(p, k + 1)) == Run(s', Solo(p, k))
      && Iterations(s, p, k + 1) == Begins(s.threads[p]) + Iterations(s', p, k)
  {
    RunFirst(s, Step(p, false), Solo(p, k));
    assert [Step(p, false)] + Solo<T>(p, k) == Solo<T>(p, k + 1);
  }

  lemma OneStepMore<T>(s: State<T>, s': State<T>, p: Tid, k: nat)
    requires WellFormed(s) && WellFormed(s') && p in s.threads && p in s'.threads
    requires Closer(s.ring, s.threads[p], s'.ring, s'.threads[p]) && ReturnsAfter(s', p, k)
    requires Run(s, Solo(p, k + 1)) == Run(s', Solo(p, k))
    requires Iterations(s, p, k + 1) == Begins(s.threads[p]) + Iterations(s', p, k)
    ensures ReturnsAfter(s, p, k + 1)
  {
  }

  /** From any reachable state, whatever stale words the thread holds. */
  lemma {:induction false} SoloProgress<T>(s: State<T>, p: Tid) returns (k: nat)
    requires Inv(s) && Alone(s, p) && !s.threads[p].Idle?
    ensures ReturnsAfter(s, p, k)
    ensures k <= 8 && Iterations(s, p, k) <= 2
    decreases Distance(s.ring, s.threads[p])
  {
    if s.threads[p].Returning? {
      k := 0;
    } else {
      var s' := Perform(s, Step(p, false));
      SoloStep(s, p);
      k := SoloProgress(s', p);
      SoloUnroll(s, p, k);
      OneStepMore(s, s', p, k);
      k := k + 1;
    }
  }
}
