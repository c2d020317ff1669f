/** `len`, `is_empty` and `is_full` among concurrent steps. Each of their loads is an instant of a
    run; they count tickets, so an overwrite that has not stored its tail yet is not counted. */
module QueueObservers {
  import opened BoundedFifo
  import opened Arithmetic
  import opened Stamps
  import opened TicketQueue
  import opened TicketInvariant
  import opened QueueSafety
  import Linearizability

  function Count<T>(s: State<T>): int {
    s.ring.tail - s.ring.head
  }

  function Contents<T>(s: State<T>): seq<T>
    requires Inv(s)
  {
    Linearizability.Contents(s.ring)
  }

  /** `force_push` has displaced the oldest element and not yet stored the tail. */
  predicate Overwrites<T>(s: State<T>, p: Tid) {
    p in s.threads && s.threads[p].ForceStoreTail?
  }

  predicate NoOverwrite<T>(s: State<T>) {
    forall p | p in s.threads :: !Overwrites(s, p)
  }

  /** An overwrite is pending exactly when some thread is in that window of `force_push`. */
  lemma PendingIsOverwrite<T>(s: State<T>)
    requires Inv(s)
    ensures OverwritePending(s.ring) <==> !NoOverwrite(s)
  {
    var r := s.ring;
    if OverwritePending(r) {
      var p := OwnerOf(r, r.tail).value;
      assert Local(r, p, s.threads[p]);
      assert Index(s.threads[p].n, r.cap) == Index(r.tail, r.cap);
      WorkOfTail(r, p, s.threads[p]);
      assert Overwrites(s, p);
    }
    if !NoOverwrite(s) {
      var p :| p in s.threads && Overwrites(s, p);
      assert Local(r, p, s.threads[p]);
    }
  }

  /** Whoever owns the slot of a pending overwrite is the one that overwrites it. */
  lemma WorkOfTail<T>(r: Ring<T>, p: Tid, pc: Pc<T>)
    requires Agreed(r) && OverwritePending(r) && pc.Typed() && Local(r, p, pc) && pc.Claims()
    requires Index(pc.n, r.cap) == Index(r.tail, r.cap)
    ensures pc.ForceStoreTail?
  {
    var n := pc.n;
    IndexPeriodic(n, r.cap);
    if !pc.ForceStoreTail? {
      if pc.PopReadValue? || pc.PopStoreStamp? {
        IndexDistinct(n + r.cap, r.tail, r.cap);
      } else {
        IndexDistinct(n, r.tail, r.cap);
      }
    }
  }

  /** The tickets count the contents exactly when nobody is in that window; otherwise they are one short. */
  lemma CountAndContents<T>(s: State<T>)
    requires Inv(s)
    ensures 0 <= Count(s) <= s.ring.cap && |Contents(s)| <= s.ring.cap
    ensures |Contents(s)| == Count(s) + (if NoOverwrite(s) then 0 else 1)
  {
    PendingIsOverwrite(s);
  }

  lemma ActMovesOne<T>(r: Ring<T>, p: Tid, pc: Pc<T>, weak: bool)
    requires Agreed(r) && pc.Typed() && Local(r, p, pc)
    ensures Act(r, p, pc, weak).0.head == r.head || Act(r, p, pc, weak).0.tail == r.tail
  {
  }

  /** No step moves both the head and the tail. */
  lemma MovesOne<T>(s: State<T>, c: Choice<T>)
    requires Inv(s)
    ensures Perform(s, c).ring.head == s.ring.head || Perform(s, c).ring.tail == s.ring.tail
  {
    if c.Step? && c.p in s.threads {
      ActMovesOne(s.ring, c.p, s.threads[c.p], c.weak);
    }
  }

  predicate CountStays<T>(s: State<T>, choices: seq<Choice<T>>)
    requires WellFormed(s)
  {
    forall k :: 0 <= k <= |choices| ==> Count(Run(s, choices[..k])) == Count(s)
  }

  /** As long as the count stays the same, neither the head nor the tail moves. */
  lemma {:induction false} CountStaysMeansStill<T>(s: State<T>, choices: seq<Choice<T>>)
    requires Inv(s) && CountStays(s, choices)
    ensures Run(s, choices).ring.head == s.ring.head && Run(s, choices).ring.tail == s.ring.tail
    decreases |choices|
  {
    if choices != [] {
      var before := choices[..|choices| - 1];
      forall k | 0 <= k <= |before| ensures Count(Run(s, before[..k])) == Count(s) {
        assert before[..k] == choices[..k];
      }
      CountStaysMeansStill(s, before);
      InvRun(s, before);
      MovesOne(Run(s, before), choices[|choices| - 1]);
      assert choices[..|choices|] == choices;
      assert Count(Run(s, choices[..|choices|])) == Count(s);
    }
  }

  /** If the head or the tail has moved, the count was different at some instant. */
  lemma MovedMeansCountChanged<T>(s: State<T>, choices: seq<Choice<T>>)
    requires Inv(s)
    requires Run(s, choices).ring.head != s.ring.head || Run(s, choices).ring.tail != s.ring.tail
    ensures exists k :: 0 <= k <= |choices| && Inv(Run(s, choices[..k])) && Count(Run(s, choices[..k])) != Count(s)
  {
    if CountStays(s, choices) {
      CountStaysMeansStill(s, choices);
    } else {
      var k :| 0 <= k <= |choices| && Count(Run(s, choices[..k])) != Count(s);
      InvRun(s, choices[..k]);
    }
  }

  /** `len` loads the tail, then the head, then the tail again, with `first` and `second` between.
      When the two tails agree, it returns the number of tickets at its load of the head; and this is
      the number of elements exactly when no overwrite is pending then. */
  lemma LenExact<T>(g: Geometry, s: State<T>, first: seq<Choice<T>>, second: seq<Choice<T>>)
    requires g.Valid() && Inv(s) && s.ring.cap == g.cap
    requires var middle := Run(s, first); var last := Run(middle, second);
      g.Word(last.ring.tail) == g.Word(s.ring.tail) && last.ring.tail < s.ring.tail + g.Period()
    ensures var middle := Run(s, first);
      var answer := g.QueueSize(g.Word(middle.ring.head), g.Word(s.ring.tail));
      Inv(middle) && answer == Count(middle) && (answer == |Contents(middle)| <==> NoOverwrite(middle))
  {
    RunGrows(s, first);
    var middle := Run(s, first);
    RunGrows(middle, second);
    LenWords(g, s.ring.tail, middle.ring.head, middle.ring.tail, Run(middle, second).ring.tail);
    CountAndContents(middle);
  }

  ghost predicate HasElement<T>(s: State<T>) {
    Inv(s) && Count(s) > 0 && Contents(s) != []
  }

  /** Room in tickets, and in elements unless an overwrite is pending. */
  ghost predicate HasRoom<T>(s: State<T>) {
    Inv(s) && Count(s) < s.ring.cap && (NoOverwrite(s) ==> |Contents(s)| < s.ring.cap)
  }

  /** `is_empty` loads the head, then the tail. `true`: no tickets at the second load, and no elements
      exactly when no overwrite is pending then. `false`: at some instant between the two loads there
      was an element. */
  lemma IsEmptyExact<T>(g: Geometry, s: State<T>, choices: seq<Choice<T>>)
    requires g.Valid() && Inv(s) && s.ring.cap == g.cap
    ensures var last := Run(s, choices);
      var answer := g.Word(last.ring.tail) == g.Word(s.ring.head);
      && Inv(last)
      && (answer && last.ring.tail < s.ring.head + g.Period() ==>
            Count(last) == 0 && (Contents(last) == [] <==> NoOverwrite(last)))
      && (!answer ==> exists k :: 0 <= k <= |choices| && HasElement(Run(s, choices[..k])))
  {
    hide Run;
    var last := Run(s, choices);
    RunGrows(s, choices);
    CountAndContents(last);
    if g.Word(last.ring.tail) == g.Word(s.ring.head) {
      if last.ring.tail < s.ring.head + g.Period() { WordInjective(g, s.ring.head, last.ring.tail); }
    } else {
      var k := CountAboveZero(s, choices);
      CountAndContents(Run(s, choices[..k]));
    }
  }

  lemma CountAboveZero<T>(s: State<T>, choices: seq<Choice<T>>) returns (k: nat)
    requires Inv(s) && Run(s, choices).ring.tail != s.ring.head
    ensures k <= |choices| && Inv(Run(s, choices[..k])) && Count(Run(s, choices[..k])) > 0
  {
    if Count(s) > 0 {
      k := 0;
    } else {
      k :| 0 <= k <= |choices| && Inv(Run(s, choices[..k])) && Count(Run(s, choices[..k])) != Count(s)
        by { MovedMeansCountChanged(s, choices); }
    }
  }

  /** `is_full` loads the tail, then the head. `true`: `cap` tickets, and so `cap` elements, at the second
      load. `false`: at some instant between the two loads there were fewer tickets, and fewer elements
      unless an overwrite was pending then. */
  lemma IsFullExact<T>(g: Geometry, s: State<T>, choices: seq<Choice<T>>)
    requires g.Valid() && Inv(s) && s.ring.cap == g.cap
    ensures var last := Run(s, choices);
      var answer := g.NextLap(g.Word(last.ring.head)) == g.Word(s.ring.tail);
      && Inv(last)
      && (answer && last.ring.head + g.cap < s.ring.tail + g.Period() ==>
            Count(last) == g.cap == |Contents(last)|)
      && (!answer ==> exists k :: 0 <= k <= |choices| && HasRoom(Run(s, choices[..k])))
  {
    hide Run;
    var last := Run(s, choices);
    RunGrows(s, choices);
    CountAndContents(last);
    WordNextLap(g, last.ring.head);
    if g.NextLap(g.Word(last.ring.head)) == g.Word(s.ring.tail) {
      if last.ring.head + g.cap < s.ring.tail + g.Period() { OneLapBehind(g, last.ring.head, s.ring.tail); }
    } else {
      var k := CountBelowCap(s, choices);
      CountAndContents(Run(s, choices[..k]));
    }
  }

  lemma CountBelowCap<T>(s: State<T>, choices: seq<Choice<T>>) returns (k: nat)
    requires Inv(s) && Run(s, choices).ring.head + s.ring.cap != s.ring.tail
    ensures k <= |choices| && Inv(Run(s, choices[..k])) && Count(Run(s, choices[..k])) < s.ring.cap
  {
    if Count(s) < s.ring.cap {
      k := 0;
    } else {
      k :| 0 <= k <= |choices| && Inv(Run(s, choices[..k])) && Count(Run(s, choices[..k])) != Count(s)
        by { MovedMeansCountChanged(s, choices); }
      CountAndContents(Run(s, choices[..k]));
    }
  }

  /** Both loads at one instant: exactly when each answer is true of the elements in the queue. */
  lemma InstantAnswers<T>(g: Geometry, s: State<T>)
    requires g.Valid() && Inv(s) && s.ring.cap == g.cap
    ensures var r, size := s.ring, |Contents(s)|;
      && (g.QueueSize(g.Word(r.head), g.Word(r.tail)) == size <==> NoOverwrite(s))
      && ((g.Word(r.tail) == g.Word(r.head) <==> size == 0) <==> NoOverwrite(s) || Count(s) > 0)
      && ((g.NextLap(g.Word(r.head)) == g.Word(r.tail) <==> size == g.cap) <==>
            NoOverwrite(s) || Count(s) + 1 < g.cap)
  {
    var r := s.ring;
    GeometryFacts(g);
    CountAndContents(s);
    LenWords(g, r.tail, r.head, r.tail, r.tail);
    WordInjective(g, r.head, r.tail);
    OneLapBehind(g, r.head, r.tail);
  }

  // ---- nobody runs force_push ----

  /** The thread is in a call of `force_push`. */
  predicate RunsForcePush<T>(pc: Pc<T>) {
    (pc.Pushing() || pc.FacingFull()) && pc.op.ForcePush?
  }

  predicate NoForcePush<T>(s: State<T>) {
    forall p | p in s.threads :: !RunsForcePush(s.threads[p])
  }

  predicate StartsNoForcePush<T>(choices: seq<Choice<T>>) {
    forall i :: 0 <= i < |choices| ==> choices[i].Start? ==> !choices[i].op.ForcePush?
  }

  lemma {:induction false} StaysWithoutForcePush<T>(s: State<T>, choices: seq<Choice<T>>)
    requires Inv(s) && NoForcePush(s) && StartsNoForcePush(choices)
    ensures NoForcePush(Run(s, choices))
    decreases |choices|
  {
    if choices != [] {
      var before, c := choices[..|choices| - 1], choices[|choices| - 1];
      StaysWithoutForcePush(s, before);
      InvRun(s, before);
      var s' := Run(s, before);
      if c.Step? && c.p in s'.threads {
        SameOperation(s'.ring, c.p, s'.threads[c.p], c.weak);
      }
    }
  }

  lemma SameOperation<T>(r: Ring<T>, p: Tid, pc: Pc<T>, weak: bool)
    requires Shaped(r) && pc.Typed() && !RunsForcePush(pc)
    ensures !RunsForcePush(Act(r, p, pc, weak).1)
  {
  }

  /** While nobody runs `force_push`, the tickets are the elements at every instant, so every answer above
      is true of the elements: the condition that a caller of an observer can see to. */
  lemma WithoutForcePush<T>(s: State<T>, choices: seq<Choice<T>>, k: nat)
    requires Inv(s) && NoForcePush(s) && StartsNoForcePush(choices) && k <= |choices|
    ensures var s' := Run(s, choices[..k]); Inv(s') && NoOverwrite(s') && |Contents(s')| == Count(s')
  {
    StaysWithoutForcePush(s, choices[..k]);
    InvRun(s, choices[..k]);
    var s' := Run(s, choices[..k]);
    forall p | p in s'.threads ensures !Overwrites(s', p) {
      assert s'.threads[p].Typed();
    }
    CountAndContents(s');
  }

  lemma Continue<T>(s0: State<T>, choices: seq<Choice<T>>, c: Choice<T>) returns (more: seq<Choice<T>>, s: State<T>)
    requires WellFormed(s0)
    ensures more == choices + [c] && s == Run(s0, more) == Perform(Run(s0, choices), c)
  {
    more := choices + [c];
    assert more[..|choices|] == choices;
    s := Run(s0, more);
  }

  /** One step of a concrete run. */
  lemma StepOnce<T>(s0: State<T>, choices: seq<Choice<T>>, p: nat) returns (more: seq<Choice<T>>)
    requires WellFormed(s0) && p in s0.threads
    ensures Run(s0, more) == Perform(Run(s0, choices), Step(p, false))
  {
    var s;
    more, s := Continue(s0, choices, Step(p, false));
  }

  lemma SmallQueue<T>()
    ensures Init<T>(1, {0, 1}) == State(Ring(1, 0, 0, [Slot(Free(0), None)], [], [None]), map[0 := Idle, 1 := Idle])
  {
    var s0 := Init<T>(1, {0, 1});
    assert s0.ring.slots == [Slot(Free(0), None)] && s0.ring.owner == [None];
    assert s0.threads == map[0 := Idle, 1 := Idle];
  }

  lemma PushStarted<T>(a: T) returns (choices: seq<Choice<T>>)
    ensures Run(Init(1, {0, 1}), choices)
         == State(Ring(1, 0, 0, [Slot(Free(0), None)], [], [None]), map[0 := PushLoadTail(Push(a)), 1 := Idle])
  {
    var s;
    SmallQueue<T>();
    choices, s := Continue(Init<T>(1, {0, 1}), [], Start(0, Push(a)));
  }

  /** On a queue of capacity one, thread 0 is about to claim the slot for `a`. */
  lemma PushReady<T>(a: T) returns (choices: seq<Choice<T>>)
    ensures Run(Init(1, {0, 1}), choices)
         == State(Ring(1, 0, 0, [Slot(Free(0), None)], [], [None]), map[0 := PushCasTail(Push(a), 0), 1 := Idle])
  {
    assert Index(0, 1) == 0;
    choices := PushStarted(a);
    choices := StepOnce(Init(1, {0, 1}), choices, 0);
    choices := StepOnce(Init(1, {0, 1}), choices, 0);
  }

  lemma PushClaimed<T>(a: T) returns (choices: seq<Choice<T>>)
    ensures Run(Init(1, {0, 1}), choices)
         == State(Ring(1, 0, 1, [Slot(Free(0), None)], [a], [Some(0)]), map[0 := PushWriteValue(Push(a), 0), 1 := Idle])
  {
    assert Index(0, 1) == 0;
    choices := PushReady(a);
    choices := StepOnce(Init(1, {0, 1}), choices, 0);
  }

  lemma PushWritten<T>(a: T) returns (choices: seq<Choice<T>>)
    ensures Run(Init(1, {0, 1}), choices)
         == State(Ring(1, 0, 1, [Slot(Free(0), Some(a))], [a], [Some(0)]),
                  map[0 := PushStoreStamp(Push(a), 0), 1 := Idle])
  {
    assert Index(0, 1) == 0;
    choices := PushClaimed(a);
    choices := StepOnce(Init(1, {0, 1}), choices, 0);
  }

  /** The queue holds `a`. */
  lemma PushedOne<T>(a: T) returns (choices: seq<Choice<T>>)
    ensures Run(Init(1, {0, 1}), choices)
         == State(Ring(1, 0, 1, [Slot(Filled(0), Some(a))], [a], [None]),
                  map[0 := Returning(Push(a), Accepted), 1 := Idle])
  {
    assert Index(0, 1) == 0;
    choices := PushWritten(a);
    choices := StepOnce(Init(1, {0, 1}), choices, 0);
  }

  lemma ForceStarted<T>(a: T, b: T) returns (choices: seq<Choice<T>>)
    ensures Run(Init(1, {0, 1}), choices)
         == State(Ring(1, 0, 1, [Slot(Filled(0), Some(a))], [a], [None]),
                  map[0 := Returning(Push(a), Accepted), 1 := PushLoadTail(ForcePush(b))])
  {
    var s;
    choices := PushedOne(a);
    choices, s := Continue(Init(1, {0, 1}), choices, Start(1, ForcePush(b)));
  }

  /** Thread 1 has found the queue full and is about to displace `a`. */
  lemma ForceReady<T>(a: T, b: T) returns (choices: seq<Choice<T>>)
    ensures Run(Init(1, {0, 1}), choices)
         == State(Ring(1, 0, 1, [Slot(Filled(0), Some(a))], [a], [None]),
                  map[0 := Returning(Push(a), Accepted), 1 := ForceCasHead(ForcePush(b), 1)])
  {
    assert Index(1, 1) == 0;
    choices := ForceStarted(a, b);
    choices := StepOnce(Init(1, {0, 1}), choices, 1);
    choices := StepOnce(Init(1, {0, 1}), choices, 1);
  }

  /** The observers may be wrong about a queue of capacity one that is full at every instant: while
      `force_push` has displaced the only element and not yet stored the tail, `len` answers 0, `is_empty`
      answers `true` and `is_full` answers `false`. */
  lemma WrongDuringOverwrite<T>(g: Geometry, a: T, b: T) returns (choices: seq<Choice<T>>)
    requires g.Valid() && g.cap == 1
    ensures var s := Run(Init(1, {0, 1}), choices);
      && Inv(s) && Overwrites(s, 1) && Contents(s) == [b] && Count(s) == 0
      && g.QueueSize(g.Word(s.ring.head), g.Word(s.ring.tail)) == 0
      && g.Word(s.ring.tail) == g.Word(s.ring.head)
      && g.NextLap(g.Word(s.ring.head)) != g.Word(s.ring.tail)
  {
    assert Index(1, 1) == 0;
    choices := ForceReady(a, b);
    choices := StepOnce(Init(1, {0, 1}), choices, 1);
    InvInit<T>(1, {0, 1});
    InvRun(Init(1, {0, 1}), choices);
    var s := Run(Init(1, {0, 1}), choices);
    assert Overwrites(s, 1);
    InstantAnswers(g, s);
    LenWords(g, s.ring.tail, s.ring.head, s.ring.tail, s.ring.tail);
  }
}
