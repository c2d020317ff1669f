/** The step machine of `TicketQueue` with the machine words of the code: masks, `wrapping_add`,
    laps that wrap. A thread whose local word is less than about a period of laps old cannot tell
    the difference, so the words refine the tickets step by step; `OldWords` shows what an older one does. */
module WordQueue {
  import opened Arithmetic
  import opened BoundedFifo
  import opened Stamps
  import opened TicketQueue
  import opened TicketInvariant
  import opened Linearizability

  datatype WordSlot<T> = WordSlot(stamp: nat, value: Option<T>)

  /** The fields of `ArrayQueue`. */
  datatype WordRing<T> = WordRing(head: nat, tail: nat, buffer: seq<WordSlot<T>>)

  datatype WordState<T> = WordState(ring: WordRing<T>, threads: map<Tid, Pc<T>>)

  predicate Fits<T>(g: Geometry, r: WordRing<T>) {
    g.Valid() && |r.buffer| == g.cap
  }

  /** `get_unchecked(index)`; `EncodedIndex` shows the index in bounds wherever a step uses it. */
  function SlotAt<T>(g: Geometry, r: WordRing<T>, word: nat): WordSlot<T> {
    var i := g.IndexOf(word);
    if i < |r.buffer| then r.buffer[i] else WordSlot(0, None)
  }

  function Write<T>(g: Geometry, r: WordRing<T>, word: nat, slot: WordSlot<T>): (r': WordRing<T>)
    ensures |r'.buffer| == |r.buffer|
  {
    var i := g.IndexOf(word);
    if i < |r.buffer| then r.(buffer := r.buffer[i := slot]) else r
  }

  function WordPush<T>(g: Geometry, r: WordRing<T>, pc: Pc<T>, weak: bool): (WordRing<T>, Pc<T>)
    requires Fits(g, r) && pc.Typed() && pc.Pushing()
  {
    match pc
    case PushLoadTail(op) => (r, PushLoadStamp(op, r.tail))
    case PushLoadStamp(op, tail) =>
      var stamp := SlotAt(g, r, tail).stamp;
      if tail == stamp then (r, PushCasTail(op, tail))
      else if g.NextLap(stamp) == tail + 1 then
        (r, if op.Push? then PushLoadHead(op, tail) else ForceCasHead(op, tail))
      else (r, PushLoadTail(op))
    case PushCasTail(op, tail) =>
      if r.tail == tail && !weak then (r.(tail := g.Advance(tail)), PushWriteValue(op, tail))
      else (r, PushLoadStamp(op, r.tail))
    case PushWriteValue(op, tail) =>
      (Write(g, r, tail, SlotAt(g, r, tail).(value := Some(op.v))), PushStoreStamp(op, tail))
    case PushStoreStamp(op, tail) =>
      (Write(g, r, tail, SlotAt(g, r, tail).(stamp := tail + 1)), Returning(op, Accepted))
  }

  function WordFull<T>(g: Geometry, r: WordRing<T>, pc: Pc<T>, weak: bool): (WordRing<T>, Pc<T>)
    requires Fits(g, r) && pc.Typed() && pc.FacingFull()
  {
    match pc
    case PushLoadHead(op, tail) =>
      if g.NextLap(r.head) == tail then (r, Returning(op, Rejected(op.v))) else (r, PushLoadTail(op))
    case ForceCasHead(op, tail) =>
      var head, newHead := g.PrevLap(tail), g.PrevLap(g.Advance(tail));
      if r.head == head && !weak then (r.(head := newHead), ForceStoreTail(op, tail))
      else (r, PushLoadTail(op))
    case ForceStoreTail(op, tail) => (r.(tail := g.Advance(tail)), ForceSwapValue(op, tail))
    case ForceSwapValue(op, tail) =>
      var slot := SlotAt(g, r, tail);
      (Write(g, r, tail, slot.(value := Some(op.v))), ForceStoreStamp(op, tail, slot.value))
    case ForceStoreStamp(op, tail, former) =>
      (Write(g, r, tail, SlotAt(g, r, tail).(stamp := tail + 1)), Returning(op, Swapped(former)))
  }

  function WordPop<T>(g: Geometry, r: WordRing<T>, pc: Pc<T>, weak: bool): (WordRing<T>, Pc<T>)
    requires Fits(g, r) && pc.Typed() && pc.Popping()
  {
    match pc
    case PopLoadHead => (r, PopLoadStamp(r.head))
    case PopLoadStamp(head) =>
      var stamp := SlotAt(g, r, head).stamp;
      if head + 1 == stamp then (r, PopCasHead(head))
      else if stamp == head then (r, PopLoadTail(head))
      else (r, PopLoadHead)
    case PopCasHead(head) =>
      if r.head == head && !weak then (r.(head := g.Advance(head)), PopReadValue(head))
      else (r, PopLoadStamp(r.head))
    case PopReadValue(head) =>
      var slot := SlotAt(g, r, head);
      (Write(g, r, head, slot.(value := None)), PopStoreStamp(head, slot.value))
    case PopStoreStamp(head, msg) =>
      (Write(g, r, head, SlotAt(g, r, head).(stamp := g.NextLap(head))), Returning(Pop, Popped(msg)))
    case PopLoadTail(head) =>
      if r.tail == head then (r, Returning(Pop, Nothing)) else (r, PopLoadHead)
  }

  function WordAct<T>(g: Geometry, r: WordRing<T>, pc: Pc<T>, weak: bool): (a: (WordRing<T>, Pc<T>))
    requires Fits(g, r) && pc.Typed()
    ensures Fits(g, a.0) && a.1.Typed()
  {
    if pc.Pushing() then WordPush(g, r, pc, weak)
    else if pc.FacingFull() then WordFull(g, r, pc, weak)
    else if pc.Popping() then WordPop(g, r, pc, weak)
    else (r, Idle)
  }

  predicate WordWellFormed<T>(g: Geometry, w: WordState<T>) {
    Fits(g, w.ring) && forall p :: p in w.threads ==> w.threads[p].Typed()
  }

  function WordPerform<T>(g: Geometry, w: WordState<T>, c: Choice<T>): (w': WordState<T>)
    requires WordWellFormed(g, w)
    ensures WordWellFormed(g, w')
  {
    match c
    case Start(p, op) =>
      if p in w.threads && w.threads[p].Idle? then w.(threads := w.threads[p := FirstPc(op)]) else w
    case Step(p, weak) =>
      if p in w.threads then
        var (ring, pc) := WordAct(g, w.ring, w.threads[p], weak);
        WordState(ring, w.threads[p := pc])
      else w
  }

  /** `ArrayQueue::new()`, with every thread idle. */
  function WordInit<T>(g: Geometry, tids: set<Tid>): (w: WordState<T>)
    requires g.Valid()
    ensures WordWellFormed(g, w)
  {
    WordState(WordRing(0, 0, seq(g.cap, (i: nat) => WordSlot(i, None))), map p | p in tids :: Idle)
  }

  function WordRun<T>(g: Geometry, w: WordState<T>, choices: seq<Choice<T>>): (w': WordState<T>)
    requires WordWellFormed(g, w)
    ensures WordWellFormed(g, w')
    decreases |choices|
  {
    if choices == [] then w
    else WordPerform(g, WordRun(g, w, choices[..|choices| - 1]), choices[|choices| - 1])
  }

  // ---- tickets as words ----

  function StampOf(g: Geometry, phase: Phase): nat
    requires g.Valid()
  {
    match phase case Free(n) => g.Word(n) case Filled(n) => g.Word(n) + 1
  }

  function EncodeSlot<T>(g: Geometry, slot: Slot<T>): WordSlot<T>
    requires g.Valid()
  {
    WordSlot(StampOf(g, slot.phase), slot.value)
  }

  function EncodeRing<T>(g: Geometry, r: Ring<T>): (w: WordRing<T>)
    requires g.Valid() && |r.slots| == g.cap
    ensures Fits(g, w)
  {
    WordRing(g.Word(r.head), g.Word(r.tail), seq(|r.slots|, i requires 0 <= i < |r.slots| => EncodeSlot(g, r.slots[i])))
  }

  function EncodePc<T>(g: Geometry, pc: Pc<T>): (w: Pc<T>)
    requires g.Valid()
    ensures w.Typed() <==> pc.Typed()
    ensures w.Pushing() == pc.Pushing() && w.FacingFull() == pc.FacingFull() && w.Popping() == pc.Popping()
    ensures w.Claims() == pc.Claims() && w.Idle? == pc.Idle?
    ensures w.Returning? == pc.Returning? && (pc.Returning? ==> w == pc)
  {
    match pc
    case PushLoadStamp(op, n) => PushLoadStamp(op, g.Word(n))
    case PushCasTail(op, n) => PushCasTail(op, g.Word(n))
    case PushWriteValue(op, n) => PushWriteValue(op, g.Word(n))
    case PushStoreStamp(op, n) => PushStoreStamp(op, g.Word(n))
    case PushLoadHead(op, n) => PushLoadHead(op, g.Word(n))
    case ForceCasHead(op, n) => ForceCasHead(op, g.Word(n))
    case ForceStoreTail(op, n) => ForceStoreTail(op, g.Word(n))
    case ForceSwapValue(op, n) => ForceSwapValue(op, g.Word(n))
    case ForceStoreStamp(op, n, former) => ForceStoreStamp(op, g.Word(n), former)
    case PopLoadStamp(n) => PopLoadStamp(g.Word(n))
    case PopCasHead(n) => PopCasHead(g.Word(n))
    case PopReadValue(n) => PopReadValue(g.Word(n))
    case PopStoreStamp(n, msg) => PopStoreStamp(g.Word(n), msg)
    case PopLoadTail(n) => PopLoadTail(g.Word(n))
    case _ => pc
  }

  function Encode<T>(g: Geometry, s: State<T>): (w: WordState<T>)
    requires g.Valid() && WellFormed(s) && s.ring.cap == g.cap
    ensures WordWellFormed(g, w)
  {
    WordState(EncodeRing(g, s.ring), map p | p in s.threads :: EncodePc(g, s.threads[p]))
  }

  /** The word a thread holds is less than a period old: the rest of the queue has not gone all
      the way around the lap counter since the thread loaded it. */
  predicate Recent<T>(g: Geometry, r: Ring<T>, pc: Pc<T>)
    requires g.Valid()
  {
    match pc
    case PushLoadStamp(_, n) => r.tail + r.cap < n + g.Period()
    case PushCasTail(_, n) => r.tail + r.cap < n + g.Period()
    case PushLoadHead(_, n) => r.tail + r.cap < n + g.Period()
    case ForceCasHead(_, n) => r.tail + r.cap < n + g.Period()
    case PopLoadStamp(n) => r.head + r.cap < n + g.Period()
    case PopCasHead(n) => r.head + r.cap < n + g.Period()
    case PopLoadTail(n) => r.head + r.cap < n + g.Period()
    case _ => true
  }

  /** Every slot access of the code is in bounds, and reaches the slot of the ticket. */
  lemma EncodedIndex<T>(g: Geometry, r: Ring<T>, n: nat)
    requires g.Valid() && Shaped(r) && r.cap == g.cap
    ensures g.IndexOf(g.Word(n)) == Index(n, g.cap) < g.cap
    ensures SlotAt(g, EncodeRing(g, r), g.Word(n)) == EncodeSlot(g, SlotOf(r, n))
  {
    WordParts(g, n);
  }

  /** Writing an encoded slot is encoding the written slot. */
  lemma EncodedWrite<T>(g: Geometry, r: Ring<T>, n: nat, slot: Slot<T>)
    requires g.Valid() && Shaped(r) && r.cap == g.cap
    ensures Write(g, EncodeRing(g, r), g.Word(n), EncodeSlot(g, slot))
         == EncodeRing(g, r.(slots := r.slots[Index(n, r.cap) := slot]))
  {
    WordParts(g, n);
    assert EncodeRing(g, r).buffer[Index(n, r.cap) := EncodeSlot(g, slot)]
        == EncodeRing(g, r.(slots := r.slots[Index(n, r.cap) := slot])).buffer;
  }

  /** `tail == stamp` and `stamp.wrapping_add(one_lap) == tail + 1` read the phase of the slot. */
  lemma PushComparisons<T>(g: Geometry, r: Ring<T>, n: nat)
    requires g.Valid() && Agreed(r) && r.cap == g.cap
    requires n <= r.tail && r.tail + r.cap < n + g.Period()
    ensures var phase := SlotOf(r, n).phase;
      && (g.Word(n) == StampOf(g, phase) <==> phase == Free(n))
      && (g.NextLap(StampOf(g, phase)) == g.Word(n) + 1 <==> phase.Filled? && phase.n + r.cap == n)
  {
    GeometryFacts(g);
    assert StampInRange(r, Index(n, r.cap));
    var m := SlotOf(r, n).phase.n;
    WordNextLap(g, m);
    IndexPeriodic(m, g.cap);
    FilledIsNotFree(g, m, n);
    FilledIsNotFree(g, n, m + r.cap);
    match SlotOf(r, n).phase
    case Free(_) => WordInjective(g, m, n);
    case Filled(_) => WordInjective(g, m + r.cap, n);
  }

  /** `head + 1 == stamp` and `stamp == head` read the phase of the slot. */
  lemma PopComparisons<T>(g: Geometry, r: Ring<T>, n: nat)
    requires g.Valid() && Agreed(r) && r.cap == g.cap
    requires n <= r.head && r.head + r.cap < n + g.Period()
    ensures var phase := SlotOf(r, n).phase;
      && (g.Word(n) + 1 == StampOf(g, phase) <==> phase == Filled(n))
      && (StampOf(g, phase) == g.Word(n) <==> phase == Free(n))
  {
    GeometryFacts(g);
    assert StampInRange(r, Index(n, r.cap));
    var m := SlotOf(r, n).phase.n;
    FilledIsNotFree(g, m, n);
    FilledIsNotFree(g, n, m);
    WordInjective(g, m, n);
  }

  ghost predicate Simulates<T>(g: Geometry, r: Ring<T>, p: Tid, pc: Pc<T>, weak: bool)
    requires g.Valid() && Shaped(r) && r.cap == g.cap && pc.Typed()
  {
    var (r', pc') := Act(r, p, pc, weak);
    WordAct(g, EncodeRing(g, r), EncodePc(g, pc), weak) == (EncodeRing(g, r'), EncodePc(g, pc'))
  }

  lemma LoadWordSimulates<T>(g: Geometry, r: Ring<T>, p: Tid, pc: Pc<T>, weak: bool)
    requires g.Valid() && Agreed(r) && r.cap == g.cap && pc.Typed() && Local(r, p, pc)
    requires pc.PushLoadTail? || pc.PopLoadHead? || pc.Idle? || pc.Returning?
    ensures Simulates(g, r, p, pc, weak)
  {
  }

  lemma PushLoadStampSimulates<T>(g: Geometry, r: Ring<T>, p: Tid, pc: Pc<T>, weak: bool)
    requires g.Valid() && Agreed(r) && r.cap == g.cap && pc.Typed() && Local(r, p, pc) && Recent(g, r, pc)
    requires pc.PushLoadStamp?
    ensures Simulates(g, r, p, pc, weak)
  {
    EncodedIndex(g, r, pc.n);
    PushComparisons(g, r, pc.n);
  }

  lemma PopLoadStampSimulates<T>(g: Geometry, r: Ring<T>, p: Tid, pc: Pc<T>, weak: bool)
    requires g.Valid() && Agreed(r) && r.cap == g.cap && pc.Typed() && Local(r, p, pc) && Recent(g, r, pc)
    requires pc.PopLoadStamp?
    ensures Simulates(g, r, p, pc, weak)
  {
    EncodedIndex(g, r, pc.n);
    PopComparisons(g, r, pc.n);
  }

  lemma PushCasTailSimulates<T>(g: Geometry, r: Ring<T>, p: Tid, pc: Pc<T>, weak: bool)
    requires g.Valid() && Agreed(r) && r.cap == g.cap && pc.Typed() && Local(r, p, pc) && Recent(g, r, pc)
    requires pc.PushCasTail?
    ensures Simulates(g, r, p, pc, weak)
  {
    WordAdvance(g, pc.n);
    WordInjective(g, r.tail, pc.n);
  }

  lemma PopCasHeadSimulates<T>(g: Geometry, r: Ring<T>, p: Tid, pc: Pc<T>, weak: bool)
    requires g.Valid() && Agreed(r) && r.cap == g.cap && pc.Typed() && Local(r, p, pc) && Recent(g, r, pc)
    requires pc.PopCasHead?
    ensures Simulates(g, r, p, pc, weak)
  {
    WordAdvance(g, pc.n);
    WordInjective(g, r.head, pc.n);
  }

  lemma PushLoadHeadSimulates<T>(g: Geometry, r: Ring<T>, p: Tid, pc: Pc<T>, weak: bool)
    requires g.Valid() && Agreed(r) && r.cap == g.cap && pc.Typed() && Local(r, p, pc) && Recent(g, r, pc)
    requires pc.PushLoadHead?
    ensures Simulates(g, r, p, pc, weak)
  {
    WordNextLap(g, r.head);
    WordInjective(g, r.head + r.cap, pc.n);
  }

  lemma PopLoadTailSimulates<T>(g: Geometry, r: Ring<T>, p: Tid, pc: Pc<T>, weak: bool)
    requires g.Valid() && Agreed(r) && r.cap == g.cap && pc.Typed() && Local(r, p, pc) && Recent(g, r, pc)
    requires pc.PopLoadTail?
    ensures Simulates(g, r, p, pc, weak)
  {
    WordInjective(g, r.tail, pc.n);
  }

  lemma ForceCasHeadSimulates<T>(g: Geometry, r: Ring<T>, p: Tid, pc: Pc<T>, weak: bool)
    requires g.Valid() && Agreed(r) && r.cap == g.cap && pc.Typed() && Local(r, p, pc) && Recent(g, r, pc)
    requires pc.ForceCasHead?
    ensures Simulates(g, r, p, pc, weak)
  {
    WordAdvance(g, pc.n);
    WordPrevLap(g, pc.n - r.cap);
    WordPrevLap(g, pc.n + 1 - r.cap);
    WordInjective(g, r.head, pc.n - r.cap);
  }

  lemma ForceStoreTailSimulates<T>(g: Geometry, r: Ring<T>, p: Tid, pc: Pc<T>, weak: bool)
    requires g.Valid() && Agreed(r) && r.cap == g.cap && pc.Typed() && Local(r, p, pc)
    requires pc.ForceStoreTail?
    ensures Simulates(g, r, p, pc, weak)
  {
    WordAdvance(g, pc.n);
  }

  lemma ValueSimulates<T>(g: Geometry, r: Ring<T>, p: Tid, pc: Pc<T>, weak: bool)
    requires g.Valid() && Agreed(r) && r.cap == g.cap && pc.Typed() && Local(r, p, pc)
    requires pc.PushWriteValue? || pc.ForceSwapValue? || pc.PopReadValue?
    ensures Simulates(g, r, p, pc, weak)
  {
    EncodedIndex(g, r, pc.n);
    EncodedWrite(g, r, pc.n, SlotOf(r, pc.n).(value := if pc.PopReadValue? then None else Some(pc.op.v)));
  }

  lemma PublishSimulates<T>(g: Geometry, r: Ring<T>, p: Tid, pc: Pc<T>, weak: bool)
    requires g.Valid() && Agreed(r) && r.cap == g.cap && pc.Typed() && Local(r, p, pc)
    requires pc.PushStoreStamp? || pc.ForceStoreStamp? || pc.PopStoreStamp?
    ensures Simulates(g, r, p, pc, weak)
  {
    EncodedIndex(g, r, pc.n);
    WordNextLap(g, pc.n);
    EncodedWrite(g, r, pc.n, SlotOf(r, pc.n).(phase := if pc.PopStoreStamp? then Free(pc.n + r.cap) else Filled(pc.n)));
  }

  /** One step over words is the encoding of one step over tickets. */
  lemma ActSimulates<T>(g: Geometry, r: Ring<T>, p: Tid, pc: Pc<T>, weak: bool)
    requires g.Valid() && Agreed(r) && r.cap == g.cap && pc.Typed() && Local(r, p, pc) && Recent(g, r, pc)
    ensures Simulates(g, r, p, pc, weak)
  {
    GeometryFacts(g);
    match pc
    case PushLoadStamp(_, _) => PushLoadStampSimulates(g, r, p, pc, weak);
    case PushCasTail(_, _) => PushCasTailSimulates(g, r, p, pc, weak);
    case PushLoadHead(_, _) => PushLoadHeadSimulates(g, r, p, pc, weak);
    case ForceCasHead(_, _) => ForceCasHeadSimulates(g, r, p, pc, weak);
    case ForceStoreTail(_, _) => ForceStoreTailSimulates(g, r, p, pc, weak);
    case PopLoadStamp(_) => PopLoadStampSimulates(g, r, p, pc, weak);
    case PopCasHead(_) => PopCasHeadSimulates(g, r, p, pc, weak);
    case PopLoadTail(_) => PopLoadTailSimulates(g, r, p, pc, weak);
    case PushWriteValue(_, _) => ValueSimulates(g, r, p, pc, weak);
    case ForceSwapValue(_, _) => ValueSimulates(g, r, p, pc, weak);
    case PopReadValue(_) => ValueSimulates(g, r, p, pc, weak);
    case PushStoreStamp(_, _) => PublishSimulates(g, r, p, pc, weak);
    case ForceStoreStamp(_, _, _) => PublishSimulates(g, r, p, pc, weak);
    case PopStoreStamp(_, _) => PublishSimulates(g, r, p, pc, weak);
    case _ => LoadWordSimulates(g, r, p, pc, weak);
  }

  // ---- the events of a run over words ----

  /** The operation of a thread takes effect as it claims a slot, or as it learns its refusal. */
  predicate Decides<T>(pc: Pc<T>, pc': Pc<T>) {
    !pc.Claims() && !pc.Returning? && (pc'.Claims() || pc'.Returning?)
  }

  function WordEventOf<T>(g: Geometry, w: WordState<T>, c: Choice<T>): Event<T>
    requires WordWellFormed(g, w)
  {
    match c
    case Start(p, op) =>
      if p in w.threads && w.threads[p].Idle? then Invoke(p, op) else Internal
    case Step(p, weak) =>
      if p !in w.threads then Internal
      else if w.threads[p].Returning? then Return(p, w.threads[p].answer)
      else if Decides(w.threads[p], WordAct(g, w.ring, w.threads[p], weak).1) then Decide(p)
      else Internal
  }

  function WordEventsOf<T>(g: Geometry, w: WordState<T>, choices: seq<Choice<T>>): seq<Event<T>>
    requires WordWellFormed(g, w)
    decreases |choices|
  {
    if choices == [] then []
    else
      var before := choices[..|choices| - 1];
      WordEventsOf(g, w, before) + [WordEventOf(g, WordRun(g, w, before), choices[|choices| - 1])]
  }

  lemma EffectDecides<T>(r: Ring<T>, p: Tid, pc: Pc<T>, weak: bool)
    requires Shaped(r) && pc.Typed()
    ensures Decides(pc, Act(r, p, pc, weak).1) == TakesEffect(r, pc, weak)
  {
  }

  /** The thread that `c` runs has a recent word. */
  predicate RecentChoice<T>(g: Geometry, s: State<T>, c: Choice<T>)
    requires g.Valid()
  {
    c.Step? && c.p in s.threads ==> Recent(g, s.ring, s.threads[c.p])
  }

  predicate RecentRun<T>(g: Geometry, s: State<T>, choices: seq<Choice<T>>)
    requires g.Valid() && WellFormed(s)
    decreases |choices|
  {
    choices == [] ||
    var before := choices[..|choices| - 1];
    RecentRun(g, s, before) && RecentChoice(g, Run(s, before), choices[|choices| - 1])
  }

  lemma StartSimulates<T>(g: Geometry, s: State<T>, p: Tid, op: Op<T>)
    requires g.Valid() && WellFormed(s) && s.ring.cap == g.cap
    ensures WordPerform(g, Encode(g, s), Start(p, op)) == Encode(g, Perform(s, Start(p, op)))
    ensures WordEventOf(g, Encode(g, s), Start(p, op)) == EventOf(s, Start(p, op))
  {
    var w, w' := WordPerform(g, Encode(g, s), Start(p, op)), Encode(g, Perform(s, Start(p, op)));
    assert w.threads == w'.threads;
  }

  lemma EncodeUpdate<T>(g: Geometry, s: State<T>, p: Tid, r: Ring<T>, pc: Pc<T>)
    requires g.Valid() && WellFormed(s) && s.ring.cap == g.cap && p in s.threads
    requires Shaped(r) && r.cap == g.cap && pc.Typed()
    ensures Encode(g, State(r, s.threads[p := pc]))
         == WordState(EncodeRing(g, r), Encode(g, s).threads[p := EncodePc(g, pc)])
  {
    assert Encode(g, State(r, s.threads[p := pc])).threads == Encode(g, s).threads[p := EncodePc(g, pc)];
  }

  lemma StepSimulates<T>(g: Geometry, s: State<T>, p: Tid, weak: bool)
    requires g.Valid() && Inv(s) && s.ring.cap == g.cap && p in s.threads && Recent(g, s.ring, s.threads[p])
    ensures WordPerform(g, Encode(g, s), Step(p, weak)) == Encode(g, Perform(s, Step(p, weak)))
  {
    ActSimulates(g, s.ring, p, s.threads[p], weak);
    var (r', pc') := Act(s.ring, p, s.threads[p], weak);
    EncodeUpdate(g, s, p, r', pc');
  }

  lemma StepEventSimulates<T>(g: Geometry, s: State<T>, p: Tid, weak: bool)
    requires g.Valid() && Inv(s) && s.ring.cap == g.cap && p in s.threads && Recent(g, s.ring, s.threads[p])
    ensures WordEventOf(g, Encode(g, s), Step(p, weak)) == EventOf(s, Step(p, weak))
  {
    ActSimulates(g, s.ring, p, s.threads[p], weak);
    EffectDecides(s.ring, p, s.threads[p], weak);
  }

  lemma PerformSimulates<T>(g: Geometry, s: State<T>, c: Choice<T>)
    requires g.Valid() && Inv(s) && s.ring.cap == g.cap && RecentChoice(g, s, c)
    ensures WordPerform(g, Encode(g, s), c) == Encode(g, Perform(s, c))
    ensures WordEventOf(g, Encode(g, s), c) == EventOf(s, c)
  {
    match c
    case Start(p, op) => StartSimulates(g, s, p, op);
    case Step(p, weak) => if p in s.threads { StepSimulates(g, s, p, weak); StepEventSimulates(g, s, p, weak); }
  }

  lemma InitSimulates<T>(g: Geometry, tids: set<Tid>)
    requires g.Valid()
    ensures WordInit<T>(g, tids) == Encode(g, Init(g.cap, tids))
  {
    forall i: nat | i < g.cap ensures g.Word(i) == i {
      DivModUnique(i, g.cap, 0, i);
      DivModUnique(0, g.Laps(), 0, 0);
    }
    assert WordInit<T>(g, tids).ring.buffer == EncodeRing<T>(g, Init(g.cap, tids).ring).buffer;
  }

  /** A run over words is the encoding of the run over tickets, with the same events. */
  lemma {:induction false} RunSimulates<T>(g: Geometry, tids: set<Tid>, choices: seq<Choice<T>>)
    requires g.Valid() && RecentRun(g, Init(g.cap, tids), choices)
    ensures WordRun(g, WordInit(g, tids), choices) == Encode(g, Run(Init(g.cap, tids), choices))
    ensures WordEventsOf(g, WordInit(g, tids), choices) == EventsOf(Init(g.cap, tids), choices)
    decreases |choices|
  {
    InitSimulates<T>(g, tids);
    if choices != [] {
      var before := choices[..|choices| - 1];
      RunSimulates(g, tids, before);
      InvInit<T>(g.cap, tids);
      InvRun(Init(g.cap, tids), before);
      PerformSimulates(g, Run(Init(g.cap, tids), before), choices[|choices| - 1]);
    }
  }

  /** The queue with its machine words is an atomic bounded FIFO: every run in which threads act on
      recent words is a history of the atomic queue. */
  lemma WordsLinearizable<T(!new)>(g: Geometry, tids: set<Tid>, choices: seq<Choice<T>>)
    requires g.Valid() && RecentRun(g, Init(g.cap, tids), choices)
    ensures exists o :: History(g.cap, tids, WordEventsOf(g, WordInit(g, tids), choices), o)
  {
    RunSimulates(g, tids, choices);
    Linearizable(g.cap, tids, choices);
  }

  /** And every answer over words is the one of the sequential queue in its place. */
  lemma WordAnswers<T(!new)>(g: Geometry, tids: set<Tid>, choices: seq<Choice<T>>, i: nat) returns (j: nat, k: nat)
    requires g.Valid() && RecentRun(g, Init(g.cap, tids), choices)
    requires var events := WordEventsOf(g, WordInit(g, tids), choices); i < |events| && events[i].Return?
    ensures var events := WordEventsOf(g, WordInit(g, tids), choices);
      && Matched(g.cap, events, i, j, k) && AnsweredFifo(g.cap, events, i, j, k)
      && (events[i].answer.Rejected? ==> events[j].op == Push(events[i].answer.back))
  {
    RunSimulates(g, tids, choices);
    j, k := ConcurrentAnswers(g.cap, tids, choices, i);
  }

  lemma TailBounded<T>(r: Ring<T>, p: Tid, pc: Pc<T>, weak: bool)
    requires Agreed(r) && pc.Typed() && Local(r, p, pc)
    ensures Act(r, p, pc, weak).0.tail <= r.tail + 1
  {
  }

  /** Words can only be old after a whole period of pushes: shorter runs need no assumption. */
  lemma {:induction false} ShortRunsAreRecent<T>(g: Geometry, tids: set<Tid>, choices: seq<Choice<T>>)
    requires g.Valid() && |choices| + g.cap < g.Period()
    ensures RecentRun(g, Init(g.cap, tids), choices)
    ensures Run(Init(g.cap, tids), choices).ring.tail <= |choices|
    decreases |choices|
  {
    if choices != [] {
      var before, c := choices[..|choices| - 1], choices[|choices| - 1];
      ShortRunsAreRecent(g, tids, before);
      var s := Run(Init(g.cap, tids), before);
      InvInit<T>(g.cap, tids);
      InvRun(Init(g.cap, tids), before);
      assert RecentChoice(g, s, c);
      if c.Step? && c.p in s.threads {
        TailBounded(s.ring, c.p, s.threads[c.p], c.weak);
      }
    }
  }
}
