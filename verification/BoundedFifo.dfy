/** What the array queue is for: an atomic first-in first-out queue of bounded capacity.
    `Apply` answers one operation; `Next` is an object shared by callers that invokes, decides
    and returns each operation exactly once. */
module BoundedFifo {

  datatype Option<+T> = None | Some(value: T)

  datatype Op<T> = Push(v: T) | ForcePush(v: T) | Pop

  /** `Uninitialised` stands for an answer read from memory nobody wrote; `Apply` never gives it. */
  datatype Answer<T> =
    | Accepted            // push: Ok(()), force_push: None
    | Rejected(back: T)   // push: Err(value)
    | Displaced(oldest: T)// force_push: Some(old)
    | Taken(item: T)      // pop: Some(item)
    | Nothing             // pop: None
    | Uninitialised

  function Apply<T>(queue: seq<T>, cap: nat, op: Op<T>): (seq<T>, Answer<T>)
    requires cap > 0
  {
    match op
    case Push(v) =>
      if |queue| < cap then (queue + [v], Accepted) else (queue, Rejected(v))
    case ForcePush(v) =>
      if |queue| < cap then (queue + [v], Accepted) else (queue[1..] + [v], Displaced(queue[0]))
    case Pop =>
      if queue == [] then (queue, Nothing) else (queue[1..], Taken(queue[0]))
  }

  /** A history of operations, one after the other. */
  function ApplyAll<T>(queue: seq<T>, cap: nat, ops: seq<Op<T>>): (result: (seq<T>, seq<Answer<T>>))
    requires cap > 0
    ensures |result.1| == |ops|
  {
    if ops == [] then (queue, []) else
      var (before, answers) := ApplyAll(queue, cap, ops[..|ops| - 1]);
      var (after, answer) := Apply(before, cap, ops[|ops| - 1]);
      (after, answers + [answer])
  }

  /** The value that one answered operation lets in, and the one it lets out. */
  function In<T>(op: Op<T>, answer: Answer<T>): seq<T> {
    if op.Pop? || answer.Rejected? then [] else [op.v]
  }

  function Out<T>(answer: Answer<T>): seq<T> {
    match answer
    case Taken(item) => [item]
    case Displaced(oldest) => [oldest]
    case _ => []
  }

  /** The values that a history let in, in order. */
  function Entered<T>(ops: seq<Op<T>>, answers: seq<Answer<T>>): seq<T>
    requires |ops| == |answers|
  {
    if ops == [] then [] else
      var last := |ops| - 1;
      Entered(ops[..last], answers[..last]) + In(ops[last], answers[last])
  }

  /** The values that a history let out, in order. */
  function Departed<T>(answers: seq<Answer<T>>): seq<T> {
    if answers == [] then []
    else Departed(answers[..|answers| - 1]) + Out(answers[|answers| - 1])
  }

  /** One operation lets the new value in behind the contents, and the oldest out in front of them. */
  lemma ApplyIsFifo<T>(queue: seq<T>, cap: nat, op: Op<T>)
    requires cap > 0 && |queue| <= cap
    ensures var (after, answer) := Apply(queue, cap, op);
      |after| <= cap && queue + In(op, answer) == Out(answer) + after
  {
    if queue != [] {
      assert queue == [queue[0]] + queue[1..];
    }
  }

  /** What a bounded first-in first-out queue answers, by the values that have come in so far and the
      number that have gone out: the next value out is the next in the order of coming, a queue that is
      not full accepts, and a push that is refused gets its own value back. */
  predicate AnswersFifo<T(==)>(cap: nat, came: seq<T>, gone: nat, op: Op<T>, answer: Answer<T>)
    requires cap > 0
  {
    && gone <= |came| <= gone + cap
    && match op
       case Push(v) => answer == if |came| < gone + cap then Accepted else Rejected(v)
       case ForcePush(v) => answer == if |came| < gone + cap then Accepted else Displaced(came[gone])
       case Pop => answer == if gone < |came| then Taken(came[gone]) else Nothing
  }

  /** The answers of a history that starts with the values `start`, one by one. */
  ghost predicate IsFifo<T>(cap: nat, start: seq<T>, ops: seq<Op<T>>, answers: seq<Answer<T>>)
    requires cap > 0 && |ops| == |answers|
  {
    forall k | 0 <= k < |ops| :: FifoAt(cap, start, ops, answers, k)
  }

  ghost predicate FifoAt<T>(cap: nat, start: seq<T>, ops: seq<Op<T>>, answers: seq<Answer<T>>, k: nat)
    requires cap > 0 && k < |ops| == |answers|
  {
    AnswersFifo(cap, start + Entered(ops[..k], answers[..k]), |Departed(answers[..k])|, ops[k], answers[k])
  }

  /** An answer is right for a bounded FIFO if and only if it is the one of `Apply`. */
  lemma ApplyAnswers<T>(cap: nat, came: seq<T>, gone: nat, op: Op<T>, answer: Answer<T>)
    requires cap > 0 && gone <= |came| <= gone + cap
    ensures AnswersFifo(cap, came, gone, op, answer) <==> answer == Apply(came[gone..], cap, op).1
  {
  }

  lemma SamePrefix<T>(cap: nat, start: seq<T>, ops: seq<Op<T>>, answers: seq<Answer<T>>, op: Op<T>,
                      answer: Answer<T>, k: nat)
    requires cap > 0 && |ops| == |answers| && k <= |ops|
    ensures (ops + [op])[..k] == ops[..k] && (answers + [answer])[..k] == answers[..k]
    ensures k < |ops| ==>
      (FifoAt(cap, start, ops + [op], answers + [answer], k) <==> FifoAt(cap, start, ops, answers, k))
  {
    assert (ops + [op])[..k] == ops[..k] && (answers + [answer])[..k] == answers[..k];
    hide Entered, Departed, AnswersFifo;
  }

  /** One more operation and its answer. */
  lemma OneMore<T>(cap: nat, start: seq<T>, ops: seq<Op<T>>, answers: seq<Answer<T>>, op: Op<T>, answer: Answer<T>)
    requires cap > 0 && |ops| == |answers|
    ensures IsFifo(cap, start, ops + [op], answers + [answer]) <==>
      && IsFifo(cap, start, ops, answers)
      && AnswersFifo(cap, start + Entered(ops, answers), |Departed(answers)|, op, answer)
  {
    hide Entered, Departed, AnswersFifo;
    var n := |ops|;
    forall k: nat | k <= n ensures k < n ==>
      (FifoAt(cap, start, ops + [op], answers + [answer], k) <==> FifoAt(cap, start, ops, answers, k))
    {
      SamePrefix(cap, start, ops, answers, op, answer, k);
    }
    SamePrefix(cap, start, ops, answers, op, answer, n);
    assert ops[..n] == ops && answers[..n] == answers;
    assert FifoAt(cap, start, ops + [op], answers + [answer], n)
      <==> AnswersFifo(cap, start + Entered(ops, answers), |Departed(answers)|, op, answer);
  }

  /** Conservation across one more operation. */
  lemma ConservedOnce<T>(cap: nat, start: seq<T>, ops: seq<Op<T>>, answers: seq<Answer<T>>, before: seq<T>, op: Op<T>)
    requires cap > 0 && |ops| == |answers| && |before| <= cap
    requires start + Entered(ops, answers) == Departed(answers) + before
    ensures var (queue, answer) := Apply(before, cap, op);
      && |queue| <= cap
      && start + Entered(ops + [op], answers + [answer]) == Departed(answers + [answer]) + queue
  {
    ApplyIsFifo(before, cap, op);
    var (queue, answer) := Apply(before, cap, op);
    hide Apply, In, Out;
    assert (ops + [op])[..|ops|] == ops && (answers + [answer])[..|ops|] == answers;
    assert start + (Entered(ops, answers) + In(op, answer)) == (start + Entered(ops, answers)) + In(op, answer);
    assert (Departed(answers) + before) + In(op, answer) == Departed(answers) + (before + In(op, answer));
    assert Departed(answers) + (Out(answer) + queue) == (Departed(answers) + Out(answer)) + queue;
  }

  /** One more operation of a history that is a bounded FIFO so far. */
  lemma FifoStep<T>(cap: nat, start: seq<T>, ops: seq<Op<T>>, given: seq<Answer<T>>, before: seq<T>,
                    answers: seq<Answer<T>>, op: Op<T>, answer: Answer<T>)
    requires cap > 0 && |ops| == |given| == |answers| && |before| <= cap
    requires start + Entered(ops, given) == Departed(given) + before
    requires IsFifo(cap, start, ops, answers) <==> answers == given
    ensures IsFifo(cap, start, ops + [op], answers + [answer]) <==>
      answers + [answer] == given + [Apply(before, cap, op).1]
  {
    hide Entered, Departed, IsFifo;
    OneMore(cap, start, ops, answers, op, answer);
    var right := Apply(before, cap, op).1;
    assert answers + [answer] == given + [right] <==> answers == given && answer == right by {
      assert (answers + [answer])[..|ops|] == answers && (given + [right])[..|ops|] == given;
      assert (answers + [answer])[|ops|] == answer && (given + [right])[|ops|] == right;
    }
    if answers == given {
      ApplyAnswers(cap, start + Entered(ops, given), |Departed(given)|, op, answer);
      assert (Departed(given) + before)[|Departed(given)|..] == before;
    }
  }

  /** What was there and what entered is what departed followed by what is still there, in the same
      order, nothing lost and nothing twice; and `answers` are those of a bounded FIFO if and only if they
      are those of `ApplyAll`. */
  ghost predicate FirstInFirstOut<T>(cap: nat, start: seq<T>, ops: seq<Op<T>>, answers: seq<Answer<T>>)
    requires cap > 0 && |answers| == |ops|
  {
    var (queue, given) := ApplyAll(start, cap, ops);
    && |queue| <= cap && start + Entered(ops, given) == Departed(given) + queue
    && (IsFifo(cap, start, ops, answers) <==> answers == given)
  }

  lemma OneMoreInOrder<T>(cap: nat, start: seq<T>, ops: seq<Op<T>>, answers: seq<Answer<T>>, op: Op<T>,
                          answer: Answer<T>)
    requires cap > 0 && |answers| == |ops| && FirstInFirstOut(cap, start, ops, answers)
    ensures FirstInFirstOut(cap, start, ops + [op], answers + [answer])
  {
    var (before, given) := ApplyAll(start, cap, ops);
    var (queue, right) := Apply(before, cap, op);
    assert ApplyAll(start, cap, ops + [op]) == (queue, given + [right]) by {
      assert (ops + [op])[..|ops|] == ops;
    }
    hide Entered, Departed, IsFifo, Apply;
    ConservedOnce(cap, start, ops, given, before, op);
    FifoStep(cap, start, ops, given, before, answers, op, answer);
  }

  /** First in, first out, bounded, for every history. */
  lemma {:induction false} FifoOrder<T>(cap: nat, start: seq<T>, ops: seq<Op<T>>, answers: seq<Answer<T>>)
    requires cap > 0 && |start| <= cap && |answers| == |ops|
    ensures FirstInFirstOut(cap, start, ops, answers)
    decreases |ops|
  {
    if ops == [] {
      assert start + Entered(ops, []) == Departed<T>([]) + start;
    } else {
      hide FirstInFirstOut;
      var n := |ops| - 1;
      FifoOrder(cap, start, ops[..n], answers[..n]);
      OneMoreInOrder(cap, start, ops[..n], answers[..n], ops[n], answers[n]);
      assert ops == ops[..n] + [ops[n]] && answers == answers[..n] + [answers[n]];
    }
  }

  type Tid = nat

  /** Where a caller stands: no operation, one invoked but not yet decided, or one with its answer. */
  datatype Caller<T> = Resting | Waiting(op: Op<T>) | Decided(op: Op<T>, answer: Answer<T>)

  datatype Object<T> = Object(queue: seq<T>, callers: map<Tid, Caller<T>>)

  datatype Event<T> =
    | Internal
    | Invoke(p: Tid, op: Op<T>)
    | Decide(p: Tid)
    | Return(p: Tid, answer: Answer<T>)

  /** What an atomic queue may do next: a caller returns only the answer decided for it, and every
      invoked operation is decided once, by `Apply`, before it returns. */
  ghost predicate Allowed<T>(o: Object<T>, e: Event<T>) {
    match e
    case Internal => true
    case Invoke(p, op) => p in o.callers && o.callers[p].Resting?
    case Decide(p) => p in o.callers && o.callers[p].Waiting?
    case Return(p, answer) => p in o.callers && o.callers[p].Decided? && o.callers[p].answer == answer
  }

  ghost function Next<T>(cap: nat, o: Object<T>, e: Event<T>): Object<T>
    requires cap > 0 && Allowed(o, e)
  {
    match e
    case Internal => o
    case Invoke(p, op) => o.(callers := o.callers[p := Waiting(op)])
    case Decide(p) =>
      var op := o.callers[p].op;
      var (queue, answer) := Apply(o.queue, cap, op);
      Object(queue, o.callers[p := Decided(op, answer)])
    case Return(p, answer) => o.(callers := o.callers[p := Resting])
  }

  function Fresh<T>(tids: set<Tid>): Object<T> {
    Object([], map p | p in tids :: Resting)
  }

  /** `events` is a history of the atomic queue that ends in `o`. */
  ghost predicate History<T(!new)>(cap: nat, tids: set<Tid>, events: seq<Event<T>>, o: Object<T>)
    requires cap > 0
    decreases |events|
  {
    if events == [] then o == Fresh(tids)
    else
      var last := events[|events| - 1];
      exists before :: History(cap, tids, events[..|events| - 1], before)
        && Allowed(before, last) && o == Next(cap, before, last)
  }

  /** The events of a history determine where it ends. */
  lemma {:induction false} HistoryUnique<T(!new)>(cap: nat, tids: set<Tid>, events: seq<Event<T>>,
                                                  o: Object<T>, o': Object<T>)
    requires cap > 0 && History(cap, tids, events, o) && History(cap, tids, events, o')
    ensures o == o'
    decreases |events|
  {
    if events != [] {
      var earlier, last := events[..|events| - 1], events[|events| - 1];
      var before :| History(cap, tids, earlier, before) && Allowed(before, last) && o == Next(cap, before, last);
      var before' :| History(cap, tids, earlier, before') && Allowed(before', last) && o' == Next(cap, before', last);
      HistoryUnique(cap, tids, earlier, before, before');
    }
  }

  /** The last event of a history. */
  lemma Backwards<T(!new)>(cap: nat, tids: set<Tid>, events: seq<Event<T>>, e: Event<T>, o: Object<T>)
    returns (before: Object<T>)
    requires cap > 0 && History(cap, tids, events + [e], o)
    ensures History(cap, tids, events, before) && Allowed(before, e) && o == Next(cap, before, e)
  {
    assert (events + [e])[..|events|] == events;
    before :| History(cap, tids, events, before) && Allowed(before, e) && o == Next(cap, before, e);
  }

  // ---- the sequential history of a concurrent one, read off its events ----

  predicate By<T>(e: Event<T>, p: Tid) {
    match e
    case Internal => false
    case Invoke(q, _) => q == p
    case Decide(q) => q == p
    case Return(q, _) => q == p
  }

  /** The operation that `p` invoked last. */
  function LastOp<T>(events: seq<Event<T>>, p: Tid): Option<Op<T>> {
    if events == [] then None
    else
      var last := events[|events| - 1];
      if last.Invoke? && last.p == p then Some(last.op) else LastOp(events[..|events| - 1], p)
  }

  /** The operations in the order in which they are decided: for every `Decide`, what its caller
      invoked last. */
  function Linearization<T>(events: seq<Event<T>>): seq<Op<T>> {
    if events == [] then []
    else
      var earlier, last := events[..|events| - 1], events[|events| - 1];
      Linearization(earlier)
      + if last.Decide? && LastOp(earlier, last.p).Some? then [LastOp(earlier, last.p).value] else []
  }

  function Decisions<T>(events: seq<Event<T>>): nat {
    if events == [] then 0
    else Decisions(events[..|events| - 1]) + if events[|events| - 1].Decide? then 1 else 0
  }

  /** The answers that the sequential queue gives to these operations in that order. */
  function SequentialAnswers<T>(cap: nat, events: seq<Event<T>>): (answers: seq<Answer<T>>)
    requires cap > 0
    ensures |answers| == |Linearization(events)|
  {
    ApplyAll([], cap, Linearization(events)).1
  }

  /** `p` has invoked `op` at `j`, and done nothing since. */
  ghost predicate WaitingSince<T>(events: seq<Event<T>>, p: Tid, op: Op<T>, j: nat) {
    && j < |events| && events[j] == Invoke(p, op) && LastOp(events, p) == Some(op)
    && forall m | j < m < |events| :: !By(events[m], p)
  }

  /** `p` has invoked `op` at `j`, it was decided at `k`, `p` has done nothing else since; and `answer` is
      the one that the sequential queue gives to `op` in its place. */
  ghost predicate DecidedAt<T>(cap: nat, events: seq<Event<T>>, p: Tid, op: Op<T>, answer: Answer<T>, j: nat, k: nat)
    requires cap > 0
  {
    && j < k < |events| && events[j] == Invoke(p, op) && events[k] == Decide(p)
    && (forall m | j < m < |events| && m != k :: !By(events[m], p))
    && var place := Decisions(events[..k]);
       place < |Linearization(events)| && Linearization(events)[place] == op
       && SequentialAnswers(cap, events)[place] == answer
  }

  /** Later events leave the earlier operations and answers in their places. */
  lemma OneMoreEvent<T>(cap: nat, earlier: seq<Event<T>>, e: Event<T>)
    requires cap > 0
    ensures Linearization(earlier) <= Linearization(earlier + [e])
    ensures SequentialAnswers(cap, earlier) <= SequentialAnswers(cap, earlier + [e])
    ensures Decisions(earlier) <= Decisions(earlier + [e])
  {
    assert (earlier + [e])[..|earlier|] == earlier;
    var ops, more := Linearization(earlier), Linearization(earlier + [e]);
    if more != ops {
      assert more[..|more| - 1] == ops;
    }
  }

  lemma {:induction false} LaterEvents<T>(cap: nat, events: seq<Event<T>>, i: nat)
    requires cap > 0 && i <= |events|
    ensures Linearization(events[..i]) <= Linearization(events)
    ensures SequentialAnswers(cap, events[..i]) <= SequentialAnswers(cap, events)
    ensures Decisions(events[..i]) <= Decisions(events)
    decreases |events|
  {
    if i == |events| {
      assert events[..i] == events;
    } else {
      var earlier := events[..|events| - 1];
      LaterEvents(cap, earlier, i);
      assert earlier[..i] == events[..i] && earlier + [events[|events| - 1]] == events;
      OneMoreEvent(cap, earlier, events[|events| - 1]);
    }
  }

  lemma DecidedAtStays<T>(cap: nat, earlier: seq<Event<T>>, e: Event<T>, p: Tid, op: Op<T>, answer: Answer<T>,
                          j: nat, k: nat)
    requires cap > 0 && DecidedAt(cap, earlier, p, op, answer, j, k) && !By(e, p)
    ensures DecidedAt(cap, earlier + [e], p, op, answer, j, k)
  {
    OneMoreEvent(cap, earlier, e);
    assert (earlier + [e])[..k] == earlier[..k];
  }

  /** What the standing of a caller says about the events so far. */
  ghost predicate Past<T>(cap: nat, events: seq<Event<T>>, p: Tid, c: Caller<T>, j: nat, k: nat)
    requires cap > 0
  {
    match c
    case Resting => true
    case Waiting(op) => WaitingSince(events, p, op, j)
    case Decided(op, answer) => DecidedAt(cap, events, p, op, answer, j, k)
  }

  ghost predicate InStep<T>(cap: nat, events: seq<Event<T>>, o: Object<T>)
    requires cap > 0
  {
    && ApplyAll([], cap, Linearization(events)) == (o.queue, SequentialAnswers(cap, events))
    && |Linearization(events)| == Decisions(events)
    && forall p | p in o.callers :: exists j: nat, k: nat :: Past(cap, events, p, o.callers[p], j, k)
  }

  /** The caller that acts. */
  lemma ActorInStep<T>(cap: nat, earlier: seq<Event<T>>, o: Object<T>, e: Event<T>, p: Tid)
    requires cap > 0 && InStep(cap, earlier, o) && Allowed(o, e) && By(e, p) && p in o.callers
    ensures exists j: nat, k: nat :: Past(cap, earlier + [e], p, Next(cap, o, e).callers[p], j, k)
  {
    var events := earlier + [e];
    assert events[..|earlier|] == earlier;
    var j: nat, k: nat :| Past(cap, earlier, p, o.callers[p], j, k);
    match e
    case Invoke(_, op) => assert Past(cap, events, p, Next(cap, o, e).callers[p], |earlier|, 0);
    case Decide(_) =>
      var op := o.callers[p].op;
      var ops := Linearization(events);
      assert ops == Linearization(earlier) + [op] && ops[..|ops| - 1] == Linearization(earlier);
      assert Past(cap, events, p, Next(cap, o, e).callers[p], j, |earlier|);
    case Return(_, _) => assert Past(cap, events, p, Next(cap, o, e).callers[p], 0, 0);
  }

  lemma OtherInStep<T>(cap: nat, earlier: seq<Event<T>>, o: Object<T>, e: Event<T>, p: Tid)
    requires cap > 0 && InStep(cap, earlier, o) && !By(e, p) && p in o.callers
    ensures exists j: nat, k: nat :: Past(cap, earlier + [e], p, o.callers[p], j, k)
  {
    var events := earlier + [e];
    assert events[..|earlier|] == earlier;
    var j: nat, k: nat :| Past(cap, earlier, p, o.callers[p], j, k);
    if o.callers[p].Decided? {
      DecidedAtStays(cap, earlier, e, p, o.callers[p].op, o.callers[p].answer, j, k);
    }
    assert Past(cap, events, p, o.callers[p], j, k);
  }

  lemma StaysInStep<T>(cap: nat, earlier: seq<Event<T>>, o: Object<T>, e: Event<T>)
    requires cap > 0 && InStep(cap, earlier, o) && Allowed(o, e)
    ensures InStep(cap, earlier + [e], Next(cap, o, e))
  {
    var events, o' := earlier + [e], Next(cap, o, e);
    assert events[..|earlier|] == earlier;
    forall p | p in o'.callers ensures exists j: nat, k: nat :: Past(cap, events, p, o'.callers[p], j, k) {
      if By(e, p) { ActorInStep(cap, earlier, o, e, p); } else { OtherInStep(cap, earlier, o, e, p); }
    }
    var ops := Linearization(events);
    if e.Decide? {
      var j: nat, k: nat :| Past(cap, earlier, e.p, o.callers[e.p], j, k);
      assert ops == Linearization(earlier) + [o.callers[e.p].op] && ops[..|ops| - 1] == Linearization(earlier);
    } else {
      assert ops == Linearization(earlier);
    }
  }

  /** The operations of a concurrent history, in the order in which they are decided, are one history of
      the sequential queue: it ends in the same contents, and every caller has the answer it gives. */
  lemma {:induction false} DecidedInOrder<T(!new)>(cap: nat, tids: set<Tid>, events: seq<Event<T>>, o: Object<T>)
    requires cap > 0 && History(cap, tids, events, o)
    ensures InStep(cap, events, o)
    decreases |events|
  {
    if events != [] {
      var earlier, last := events[..|events| - 1], events[|events| - 1];
      var before :| History(cap, tids, earlier, before) && Allowed(before, last) && o == Next(cap, before, last);
      DecidedInOrder(cap, tids, earlier, before);
      StaysInStep(cap, earlier, before, last);
      assert earlier + [last] == events;
    } else {
      forall p | p in o.callers ensures exists j: nat, k: nat :: Past(cap, events, p, o.callers[p], j, k) {
        assert Past(cap, events, p, o.callers[p], 0, 0);
      }
    }
  }

  /** A prefix of a history is a history. */
  lemma {:induction false} HistoryBefore<T(!new)>(cap: nat, tids: set<Tid>, events: seq<Event<T>>, o: Object<T>, i: nat)
    returns (before: Object<T>)
    requires cap > 0 && History(cap, tids, events, o) && i < |events|
    ensures History(cap, tids, events[..i], before) && Allowed(before, events[i])
    decreases |events|
  {
    var earlier, last := events[..|events| - 1], events[|events| - 1];
    before :| History(cap, tids, earlier, before) && Allowed(before, last) && o == Next(cap, before, last);
    if i < |earlier| {
      before := HistoryBefore(cap, tids, earlier, before, i);
      assert earlier[..i] == events[..i];
    }
  }

  /** The return of an operation at `i` is matched by its invocation at `j` and its decision at `k` between
      them, its caller does nothing else in between, and the answer is that of the sequential queue. */
  ghost predicate Matched<T>(cap: nat, events: seq<Event<T>>, i: nat, j: nat, k: nat)
    requires cap > 0 && i < |events| && events[i].Return?
  {
    var p := events[i].p;
    && j < k < i && events[j].Invoke? && events[j].p == p && events[k] == Decide(p)
    && (forall m | j < m < i && m != k :: !By(events[m], p))
    && var place := Decisions(events[..k]);
       place < |Linearization(events)| && Linearization(events)[place] == events[j].op
       && SequentialAnswers(cap, events)[place] == events[i].answer
  }

  /** The returned answer is right for a bounded FIFO, by the operations decided before it. */
  ghost predicate AnsweredFifo<T>(cap: nat, events: seq<Event<T>>, i: nat, j: nat, k: nat)
    requires cap > 0 && i < |events| && events[i].Return? && Matched(cap, events, i, j, k)
  {
    var ops, answers := Linearization(events), SequentialAnswers(cap, events);
    var place := Decisions(events[..k]);
    AnswersFifo(cap, Entered(ops[..place], answers[..place]), |Departed(answers[..place])|,
                events[j].op, events[i].answer)
  }

  lemma MatchedAfter<T>(cap: nat, events: seq<Event<T>>, i: nat, op: Op<T>, j: nat, k: nat)
    requires cap > 0 && i < |events| && events[i].Return?
    requires DecidedAt(cap, events[..i], events[i].p, op, events[i].answer, j, k)
    ensures Matched(cap, events, i, j, k)
  {
    LaterEvents(cap, events, i);
    assert events[..i][..k] == events[..k];
    forall m | j < m < i && m != k ensures !By(events[m], events[i].p) {
      assert events[..i][m] == events[m];
    }
  }

  /** Every operation that returns took effect once, between its invocation and its return, and returns
      the answer of the sequential queue in that place. */
  lemma ReturnsMatch<T(!new)>(cap: nat, tids: set<Tid>, events: seq<Event<T>>, o: Object<T>, i: nat)
    returns (j: nat, k: nat)
    requires cap > 0 && History(cap, tids, events, o) && i < |events| && events[i].Return?
    ensures Matched(cap, events, i, j, k) && AnsweredFifo(cap, events, i, j, k)
  {
    var p := events[i].p;
    var before := HistoryBefore(cap, tids, events, o, i);
    DecidedInOrder(cap, tids, events[..i], before);
    j, k :| Past(cap, events[..i], p, before.callers[p], j, k);
    MatchedAfter(cap, events, i, before.callers[p].op, j, k);
    var ops, answers := Linearization(events), SequentialAnswers(cap, events);
    FifoOrder(cap, [], ops, answers);
    var place := Decisions(events[..k]);
    assert FifoAt(cap, [], ops, answers, place);
    assert [] + Entered(ops[..place], answers[..place]) == Entered(ops[..place], answers[..place]);
  }

  /** Operations keep their order in real time: one that returns before another is invoked is also
      before it in the sequential history. */
  lemma RealTimeOrder<T>(cap: nat, events: seq<Event<T>>, i: nat, j: nat, k: nat, i': nat, j': nat, k': nat)
    requires cap > 0 && i < |events| && events[i].Return? && i' < |events| && events[i'].Return?
    requires Matched(cap, events, i, j, k) && Matched(cap, events, i', j', k') && i < j'
    ensures Decisions(events[..k]) < Decisions(events[..k'])
  {
    assert events[..k + 1][..k] == events[..k] && events[..k'][..k + 1] == events[..k + 1];
    LaterEvents(cap, events[..k'], k + 1);
  }
}
