/** What happens without the condition of `WordQueue`: a thread that sleeps through a whole period of
    laps wakes up with a word that passes for current. Its push is accepted into a full queue, over an
    element that nobody has read, and the queue is no FIFO any more. */
module OldWords {
  import opened Arithmetic
  import opened BoundedFifo
  import opened Stamps
  import opened TicketQueue
  import opened TicketInvariant
  import opened Linearizability
  import opened QueueProgress
  import opened WordQueue

  /** A tail word exactly one period old: the compare-exchange that should fail succeeds. */
  lemma OldWordClaims<T>(g: Geometry, s: State<T>, p: Tid)
    requires g.Valid() && Inv(s) && s.ring.cap == g.cap && p in s.threads && s.threads[p].PushCasTail?
    requires s.ring.tail == s.threads[p].n + g.Period()
    ensures !Recent(g, s.ring, s.threads[p])
    ensures var r, op, n, w := s.ring, s.threads[p].op, s.threads[p].n, Encode(g, s);
      && Perform(s, Step(p, false)).threads[p] == PushLoadStamp(op, r.tail)
      && WordPerform(g, w, Step(p, false))
         == WordState(w.ring.(tail := g.Advance(g.Word(n))), w.threads[p := PushWriteValue(op, g.Word(n))])
  {
    GeometryFacts(g);
    SameWord(g, s.threads[p].n);
  }

  lemma OldIndex(g: Geometry, n: nat, head: nat)
    requires g.Valid() && n + g.Period() == head + g.cap
    ensures g.IndexOf(g.Word(n)) == g.IndexOf(g.Word(head)) == Index(head, g.cap) < g.cap
  {
    SameWord(g, n);
    IndexPeriodic(head, g.cap);
    WordParts(g, n);
    WordParts(g, head);
    WordParts(g, head + g.cap);
  }

  lemma OldestUnread<T>(g: Geometry, r: Ring<T>)
    requires g.Valid() && Agreed(r) && r.cap == g.cap && r.head < r.tail && OwnerOf(r, r.head) == None
    ensures SlotAt(g, EncodeRing(g, r), g.Word(r.head)).value == Some(r.history[r.head])
  {
    EncodedIndex(g, r, r.head);
    assert SlotKnown(r, r.head);
  }

  /** In a full queue whose oldest slot nobody works on, the value write then replaces the oldest element,
      which is still to be read. */
  lemma OldWordOverwrites<T>(g: Geometry, s: State<T>, p: Tid)
    requires g.Valid() && Inv(s) && s.ring.cap == g.cap && p in s.threads && s.threads[p].PushCasTail?
    requires s.ring.tail == s.threads[p].n + g.Period() == s.ring.head + g.cap
    requires OwnerOf(s.ring, s.ring.head) == None
    ensures var r, w := s.ring, Encode(g, s);
      var written := WordPerform(g, WordPerform(g, w, Step(p, false)), Step(p, false));
      && SlotAt(g, w.ring, g.Word(r.head)).value == Some(r.history[r.head])
      && written.ring.head == g.Word(r.head)
      && SlotAt(g, written.ring, g.Word(r.head)).value == Some(s.threads[p].op.v)
  {
    hide Inv, Perform;
    OldWordClaims(g, s, p);
    OldIndex(g, s.threads[p].n, s.ring.head);
    InvAgreed(s);
    OldestUnread(g, s.ring);
  }

  lemma InvAgreed<T>(s: State<T>)
    requires Inv(s)
    ensures WellFormed(s) && Agreed(s.ring)
  {
  }

  lemma SameWord(g: Geometry, n: nat)
    requires g.Valid()
    ensures g.Word(n + g.Period()) == g.Word(n)
  {
    GeometryFacts(g);
    IndexPeriodic(n, g.Period());
    WordEqual(g, n, n + g.Period());
  }

  // ---- a run that sleeps through a period ----

  /** A run of recent words from `new` that ends in `s`. */
  ghost predicate Reaches<T>(g: Geometry, tids: set<Tid>, choices: seq<Choice<T>>, s: State<T>)
    requires g.Valid()
  {
    RecentRun(g, Init(g.cap, tids), choices) && Run(Init(g.cap, tids), choices) == s
  }

  lemma Continue<T>(g: Geometry, tids: set<Tid>, choices: seq<Choice<T>>, s: State<T>, c: Choice<T>)
    returns (more: seq<Choice<T>>, s': State<T>)
    requires g.Valid() && Reaches(g, tids, choices, s) && RecentChoice(g, s, c)
    ensures WellFormed(s) && s' == Perform(s, c) && Reaches(g, tids, more, s')
  {
    more, s' := choices + [c], Perform(s, c);
    assert more[..|choices|] == choices;
  }

  lemma ReachesInv<T>(g: Geometry, tids: set<Tid>, choices: seq<Choice<T>>, s: State<T>)
    requires g.Valid() && Reaches(g, tids, choices, s)
    ensures Inv(s) && s.ring.cap == g.cap
  {
    InvInit<T>(g.cap, tids);
    InvRun(Init(g.cap, tids), choices);
  }

  predicate Quiet<T>(s: State<T>) {
    forall p | p in s.threads :: !s.threads[p].Claims()
  }

  /** With nobody at work, the slots at the head and the tail say what a lonely thread expects. */
  lemma QuietSlots<T>(g: Geometry, tids: set<Tid>, choices: seq<Choice<T>>, s: State<T>, p: Tid)
    requires g.Valid() && Reaches(g, tids, choices, s) && Quiet(s) && p in s.threads
    ensures Shaped(s.ring) && s.ring.cap == g.cap
    ensures s.ring.head < s.ring.tail ==> SlotOf(s.ring, s.ring.head).phase == Filled(s.ring.head)
    ensures s.ring.tail < s.ring.head + g.cap ==> SlotOf(s.ring, s.ring.tail).phase == Free(s.ring.tail)
  {
    hide Reaches;
    ReachesInv(g, tids, choices, s);
    AloneSettles(s, p);
  }

  /** `s'` is `s` with `p` at `pc` and these tickets at the head and the tail. */
  ghost predicate Moved<T>(s: State<T>, s': State<T>, p: Tid, pc: Pc<T>, head: nat, tail: nat) {
    s'.threads == s.threads[p := pc] && s'.ring.head == head && s'.ring.tail == tail && s'.ring.cap == s.ring.cap
  }

  /** An idle thread, alone, loads the tail and a free stamp. */
  lemma PushLoads<T>(g: Geometry, tids: set<Tid>, choices: seq<Choice<T>>, s: State<T>, p: Tid, v: T)
    returns (more: seq<Choice<T>>, s': State<T>)
    requires g.Valid() && Reaches(g, tids, choices, s) && Quiet(s) && s.ring.cap == g.cap
    requires p in s.threads && s.threads[p].Idle? && s.ring.tail < s.ring.head + g.cap
    ensures Reaches(g, tids, more, s')
    ensures Moved(s, s', p, PushCasTail(Push(v), s.ring.tail), s.ring.head, s.ring.tail)
  {
    hide Reaches;
    GeometryFacts(g);
    QuietSlots(g, tids, choices, s, p);
    more, s' := Continue(g, tids, choices, s, Start(p, Push(v)));
    more, s' := Continue(g, tids, more, s', Step(p, false));
    more, s' := Continue(g, tids, more, s', Step(p, false));
  }

  /** The three steps after a push has claimed its slot, whatever the others do. */
  lemma PushWorks<T>(g: Geometry, tids: set<Tid>, choices: seq<Choice<T>>, s: State<T>, p: Tid)
    returns (more: seq<Choice<T>>, s': State<T>)
    requires g.Valid() && Reaches(g, tids, choices, s)
    requires p in s.threads && s.threads[p].PushWriteValue? && s.threads[p].Typed()
    ensures Reaches(g, tids, more, s') && Moved(s, s', p, Idle, s.ring.head, s.ring.tail)
  {
    hide Reaches;
    var op, n := s.threads[p].op, s.threads[p].n;
    more, s' := Continue(g, tids, choices, s, Step(p, false));
    assert Moved(s, s', p, PushStoreStamp(op, n), s.ring.head, s.ring.tail);
    more, s' := Continue(g, tids, more, s', Step(p, false));
    assert Moved(s, s', p, Returning(op, Accepted), s.ring.head, s.ring.tail);
    more, s' := Continue(g, tids, more, s', Step(p, false));
  }

  /** One whole push. */
  lemma PushOne<T>(g: Geometry, tids: set<Tid>, choices: seq<Choice<T>>, s: State<T>, p: Tid, v: T)
    returns (more: seq<Choice<T>>, s': State<T>)
    requires g.Valid() && Reaches(g, tids, choices, s) && Quiet(s) && s.ring.cap == g.cap
    requires p in s.threads && s.threads[p].Idle? && s.ring.tail < s.ring.head + g.cap
    ensures Reaches(g, tids, more, s') && Moved(s, s', p, Idle, s.ring.head, s.ring.tail + 1)
  {
    hide Reaches;
    GeometryFacts(g);
    more, s' := PushLoads(g, tids, choices, s, p, v);
    more, s' := Continue(g, tids, more, s', Step(p, false));
    assert Moved(s, s', p, PushWriteValue(Push(v), s.ring.tail), s.ring.head, s.ring.tail + 1);
    more, s' := PushWorks(g, tids, more, s', p);
  }

  /** An idle thread, alone, loads the head and a filled stamp. */
  lemma PopLoads<T>(g: Geometry, tids: set<Tid>, choices: seq<Choice<T>>, s: State<T>, p: Tid)
    returns (more: seq<Choice<T>>, s': State<T>)
    requires g.Valid() && Reaches(g, tids, choices, s) && Quiet(s) && s.ring.cap == g.cap
    requires p in s.threads && s.threads[p].Idle? && s.ring.head < s.ring.tail
    ensures Reaches(g, tids, more, s')
    ensures Moved(s, s', p, PopCasHead(s.ring.head), s.ring.head, s.ring.tail)
  {
    hide Reaches;
    GeometryFacts(g);
    QuietSlots(g, tids, choices, s, p);
    more, s' := Continue(g, tids, choices, s, Start(p, Pop));
    more, s' := Continue(g, tids, more, s', Step(p, false));
    more, s' := Continue(g, tids, more, s', Step(p, false));
  }

  /** The three steps after a pop has claimed its slot. */
  lemma PopWorks<T>(g: Geometry, tids: set<Tid>, choices: seq<Choice<T>>, s: State<T>, p: Tid)
    returns (more: seq<Choice<T>>, s': State<T>)
    requires g.Valid() && Reaches(g, tids, choices, s) && p in s.threads && s.threads[p].PopReadValue?
    ensures Reaches(g, tids, more, s') && Moved(s, s', p, Idle, s.ring.head, s.ring.tail)
  {
    hide Reaches;
    var n := s.threads[p].n;
    more, s' := Continue(g, tids, choices, s, Step(p, false));
    var msg := s'.threads[p].msg;
    assert Moved(s, s', p, PopStoreStamp(n, msg), s.ring.head, s.ring.tail);
    more, s' := Continue(g, tids, more, s', Step(p, false));
    assert Moved(s, s', p, Returning(Pop, Popped(msg)), s.ring.head, s.ring.tail);
    more, s' := Continue(g, tids, more, s', Step(p, false));
  }

  /** One whole pop. */
  lemma PopOne<T>(g: Geometry, tids: set<Tid>, choices: seq<Choice<T>>, s: State<T>, p: Tid)
    returns (more: seq<Choice<T>>, s': State<T>)
    requires g.Valid() && Reaches(g, tids, choices, s) && Quiet(s) && s.ring.cap == g.cap
    requires p in s.threads && s.threads[p].Idle? && s.ring.head < s.ring.tail
    ensures Reaches(g, tids, more, s') && Moved(s, s', p, Idle, s.ring.head + 1, s.ring.tail)
  {
    hide Reaches;
    GeometryFacts(g);
    more, s' := PopLoads(g, tids, choices, s, p);
    more, s' := Continue(g, tids, more, s', Step(p, false));
    assert Moved(s, s', p, PopReadValue(s.ring.head), s.ring.head + 1, s.ring.tail);
    more, s' := PopWorks(g, tids, more, s', p);
  }

  /** Thread 0 is about to claim ticket 0, and thread 1 rests. */
  ghost predicate Sleeping<T>(g: Geometry, s: State<T>, v: T, head: nat, tail: nat) {
    && s.threads == map[0 := PushCasTail(Push(v), 0), 1 := Idle]
    && s.ring.cap == g.cap && s.ring.head == head && s.ring.tail == tail
  }

  lemma FallAsleep<T>(g: Geometry, v: T) returns (choices: seq<Choice<T>>, s: State<T>)
    requires g.Valid()
    ensures Reaches(g, {0, 1}, choices, s) && Sleeping(g, s, v, 0, 0)
  {
    var s0 := Init<T>(g.cap, {0, 1});
    assert s0.threads == map[0 := Idle, 1 := Idle];
    choices, s := PushLoads(g, {0, 1}, [], s0, 0, v);
  }

  /** Thread 1 pushes and pops `k` elements. */
  lemma {:induction false} PassThrough<T>(g: Geometry, v: T, k: nat) returns (choices: seq<Choice<T>>, s: State<T>)
    requires g.Valid()
    ensures Reaches(g, {0, 1}, choices, s) && Sleeping(g, s, v, k, k)
    decreases k
  {
    hide Reaches;
    if k == 0 {
      choices, s := FallAsleep(g, v);
    } else {
      choices, s := PassThrough(g, v, k - 1);
      choices, s := PushOne(g, {0, 1}, choices, s, 1, v);
      choices, s := PopOne(g, {0, 1}, choices, s, 1);
    }
  }

  /** And then pushes `k` more. */
  lemma {:induction false} FillUp<T>(g: Geometry, v: T, from: nat, k: nat)
    returns (choices: seq<Choice<T>>, s: State<T>)
    requires g.Valid() && k <= g.cap
    ensures Reaches(g, {0, 1}, choices, s) && Sleeping(g, s, v, from, from + k)
    decreases k
  {
    hide Reaches;
    if k == 0 {
      choices, s := PassThrough(g, v, from);
    } else {
      choices, s := FillUp(g, v, from, k - 1);
      choices, s := PushOne(g, {0, 1}, choices, s, 1, v);
    }
  }

  // ---- the sleeper wakes up ----

  /** A push that is decided on a full queue cannot return `Ok`. */
  lemma NoRoomNoHistory<T(!new)>(cap: nat, tids: set<Tid>, events: seq<Event<T>>, full: Object<T>, p: Tid, v: T)
    requires cap > 0 && History(cap, tids, events, full) && |full.queue| == cap
    requires p in full.callers && full.callers[p] == Waiting(Push(v))
    ensures forall o :: !History(cap, tids, events + [Decide(p)] + [Internal] + [Internal] + [Return(p, Accepted)], o)
  {
    var decided := events + [Decide(p)];
    forall o ensures !History(cap, tids, decided + [Internal] + [Internal] + [Return(p, Accepted)], o) {
      if History(cap, tids, decided + [Internal] + [Internal] + [Return(p, Accepted)], o) {
        var o3 := Backwards(cap, tids, decided + [Internal] + [Internal], Return(p, Accepted), o);
        var o2 := Backwards(cap, tids, decided + [Internal], Internal, o3);
        var o1 := Backwards(cap, tids, decided, Internal, o2);
        var o0 := Backwards(cap, tids, events, Decide(p), o1);
        HistoryUnique(cap, tids, events, o0, full);
        assert false;
      }
    }
  }

  lemma OneMoreWord<T>(g: Geometry, w: WordState<T>, choices: seq<Choice<T>>, c: Choice<T>)
    returns (more: seq<Choice<T>>)
    requires WordWellFormed(g, w)
    ensures WordRun(g, w, more) == WordPerform(g, WordRun(g, w, choices), c)
    ensures WordEventsOf(g, w, more) == WordEventsOf(g, w, choices) + [WordEventOf(g, WordRun(g, w, choices), c)]
  {
    more := choices + [c];
    assert more[..|choices|] == choices;
  }

  /** From a word that passes for current, four steps take a push to its `Ok`. */
  lemma WakeUp<T>(g: Geometry, w0: WordState<T>, choices: seq<Choice<T>>, p: Tid, v: T) returns (more: seq<Choice<T>>)
    requires g.Valid() && WordWellFormed(g, w0)
    requires var w := WordRun(g, w0, choices); p in w.threads && w.threads[p] == PushCasTail(Push(v), w.ring.tail)
    ensures WordEventsOf(g, w0, more)
         == WordEventsOf(g, w0, choices) + [Decide(p)] + [Internal] + [Internal] + [Return(p, Accepted)]
  {
    hide WordRun, WordEventsOf;
    var tail := WordRun(g, w0, choices).ring.tail;
    more := OneMoreWord(g, w0, choices, Step(p, false));
    assert WordRun(g, w0, more).threads[p] == PushWriteValue(Push(v), tail);
    more := OneMoreWord(g, w0, more, Step(p, false));
    assert WordRun(g, w0, more).threads[p] == PushStoreStamp(Push(v), tail);
    more := OneMoreWord(g, w0, more, Step(p, false));
    assert WordRun(g, w0, more).threads[p] == Returning(Push(v), Accepted);
    more := OneMoreWord(g, w0, more, Step(p, false));
  }

  /** For every capacity and word width there is a run over words whose events are no history of a bounded
      FIFO: a thread sleeps for a period of pushes, and its push is accepted into a full queue. */
  lemma OldWordsBreak<T(!new)>(g: Geometry, v: T) returns (choices: seq<Choice<T>>)
    requires g.Valid()
    ensures forall o :: !History(g.cap, {0, 1}, WordEventsOf(g, WordInit(g, {0, 1}), choices), o)
  {
    GeometryFacts(g);
    var tids := {0, 1};
    var s;
    choices, s := FillUp(g, v, g.Period() - g.cap, g.cap);
    RunSimulates(g, tids, choices);
    Linearizable(g.cap, tids, choices);
    ReachesInv(g, tids, choices, s);
    FullAndWaiting(g, s, v);
    var events := WordEventsOf(g, WordInit(g, tids), choices);
    NoRoomNoHistory(g.cap, tids, events, View(s), 0, v);
    choices := WakeUp(g, WordInit(g, tids), choices, 0, v);
  }

  lemma FullAndWaiting<T>(g: Geometry, s: State<T>, v: T)
    requires g.Valid() && Inv(s) && g.Period() >= g.cap && Sleeping(g, s, v, g.Period() - g.cap, g.Period())
    ensures |View(s).queue| == g.cap && 0 in View(s).callers && View(s).callers[0] == Waiting(Push(v))
    ensures var w := Encode(g, s); 0 in w.threads && w.threads[0] == PushCasTail(Push(v), w.ring.tail)
  {
    SameWord(g, 0);
  }
}
