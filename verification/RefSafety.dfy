/** Exact counting and mutual exclusion of `RefCount`, and exactly which steps keep them. */
module RefSafety {
  import opened RefWord
  import opened RefProtocol

  /** What an agent's locals satisfy. */
  predicate LocalOk(agent: Agent) {
    match agent
    case CasRef(_, attempt, cur, next) => attempt < 4 && cur < WORD_SIZE && cur % 2 == 0 && next == NextRef(cur)
    case CasBlock(_, attempt, cur, next) => attempt < 4 && cur < WORD_SIZE && cur % 2 == 0 && next == cur + 1
    case CountRefs(_, tries) => tries < 5
    case _ => true
  }

  /** The word counts the live references, and at most one agent holds the block bit. */
  ghost predicate Balanced(s: State) {
    s.word < WORD_SIZE && s.word == 2 * |Refs(s)| + |Owners(s)| && |Owners(s)| <= 1
  }

  ghost predicate LocalsOk(s: State) {
    forall a | a in s.agents :: LocalOk(s.agents[a])
  }

  /** An exclusive reference excludes standard ones. */
  ghost predicate Exclusive(s: State) {
    forall a | a in s.agents && s.agents[a].HoldingExclusive? :: Refs(s) == {}
  }

  ghost predicate Inv(s: State) {
    Balanced(s) && LocalsOk(s) && Exclusive(s)
  }

  /** The steps on which the code may be trusted: an unblock happens with no standard reference
      live, and a reference is not taken when the count is already at its maximum. */
  predicate SafeChoice(s: State, c: Choice) {
    c.Step? && c.a in s.agents ==>
      match s.agents[c.a]
      case Blocking => StandardCount(s.word) == 0
      case GivingUp => StandardCount(s.word) == 0
      case HoldingExclusive => StandardCount(s.word) == 0
      case CasRef(_, _, cur, _) => s.word == cur && !c.weak ==> cur + REF_INCR < WORD_SIZE
      case _ => true
  }

  // ---- counting ----

  lemma RefsAfter(s: State, a: Aid, agent: Agent, word: nat)
    requires a in s.agents
    ensures var s' := State(word, s.agents[a := agent]);
      && Refs(s') == (if agent.HoldingRef? then Refs(s) + {a} else Refs(s) - {a})
      && |Refs(s')| == |Refs(s)| + (if agent.HoldingRef? then 1 else 0) - (if s.agents[a].HoldingRef? then 1 else 0)
  {
    var s' := State(word, s.agents[a := agent]);
    assert Refs(s') == if agent.HoldingRef? then Refs(s) + {a} else Refs(s) - {a};
  }

  lemma OwnersAfter(s: State, a: Aid, agent: Agent, word: nat)
    requires a in s.agents
    ensures var s' := State(word, s.agents[a := agent]);
      && Owners(s') == (if agent.Owns() then Owners(s) + {a} else Owners(s) - {a})
      && |Owners(s')| == |Owners(s)| + (if agent.Owns() then 1 else 0) - (if s.agents[a].Owns() then 1 else 0)
  {
    var s' := State(word, s.agents[a := agent]);
    assert Owners(s') == if agent.Owns() then Owners(s) + {a} else Owners(s) - {a};
  }

  /** The bits of the word are the two counts. */
  lemma CountsExact(s: State)
    requires Inv(s)
    ensures StandardCount(s.word) == |Refs(s)| && BlockState(s.word) == |Owners(s)|
    ensures RefTotal(s.word) == |Refs(s)| + |Owners(s)|
    ensures IsBlocked(s.word) <==> Owners(s) != {}
    ensures StandardCount(s.word) == 0 <==> Refs(s) == {}
  {
  }

  /** Mutual exclusion: whoever holds an exclusive reference is alone, and the word stays 1. */
  lemma ExclusiveIsAlone(s: State, a: Aid, b: Aid)
    requires Inv(s) && a in s.agents && b in s.agents && a != b && s.agents[a].HoldingExclusive?
    ensures !s.agents[b].HoldingRef? && !s.agents[b].Owns() && s.word == 1
  {
    assert a in Owners(s);
    assert s.agents[b].HoldingRef? ==> b in Refs(s);
    if s.agents[b].Owns() {
      assert {a, b} <= Owners(s);
      SubsetSize({a, b}, Owners(s));
    }
    OneElement(Owners(s), a);
  }

  lemma SubsetSize(x: set<Aid>, y: set<Aid>)
    requires x <= y
    ensures |x| <= |y|
  {
    assert y == x + (y - x);
  }

  lemma OneElement(x: set<Aid>, a: Aid)
    requires a in x
    ensures |x| >= 1
  {
    SubsetSize({a}, x);
  }

  lemma ActLocalOk(word: nat, agent: Agent, weak: bool)
    requires word < WORD_SIZE && LocalOk(agent)
    ensures LocalOk(Act(word, agent, weak).1)
  {
  }

  /** One agent moves: its exclusive reference excludes the standard ones, and the other way round. */
  lemma ExclusiveAfter(s: State, a: Aid, agent: Agent, word: nat)
    requires Inv(s) && a in s.agents
    requires agent.HoldingExclusive? ==> Refs(s) - {a} == {}
    requires agent.HoldingRef? ==> Owners(s) == {}
    ensures Exclusive(State(word, s.agents[a := agent]))
  {
    var s' := State(word, s.agents[a := agent]);
    RefsAfter(s, a, agent, word);
    forall b | b in s'.agents && s'.agents[b].HoldingExclusive? ensures Refs(s') == {} {
      assert b != a ==> b in Owners(s);
    }
  }

  /** What the invariant asks of the new word when one agent moves. */
  lemma AfterOneAgent(s: State, a: Aid, agent: Agent, word: nat)
    requires Inv(s) && a in s.agents && LocalOk(agent)
    requires agent.HoldingExclusive? ==> StandardCount(s.word) == 0
    requires agent.HoldingRef? ==> Owners(s) == {}
    ensures var s' := State(word, s.agents[a := agent]);
      && (Inv(s') <==> Balanced(s'))
      && |Refs(s')| == |Refs(s)| + (if agent.HoldingRef? then 1 else 0) - (if s.agents[a].HoldingRef? then 1 else 0)
      && |Owners(s')| == |Owners(s)| + (if agent.Owns() then 1 else 0) - (if s.agents[a].Owns() then 1 else 0)
  {
    CountsExact(s);
    RefsAfter(s, a, agent, word);
    OwnersAfter(s, a, agent, word);
    ExclusiveAfter(s, a, agent, word);
  }

  /** An even word: nobody holds the block bit. */
  lemma EvenMeansFree(s: State)
    requires Inv(s) && s.word % 2 == 0
    ensures Owners(s) == {}
  {
    assert |Owners(s)| == 0;
  }

  /** Taking a reference, from an even word. */
  lemma RefTaken(s: State, a: Aid, next: nat)
    requires Inv(s) && a in s.agents && s.agents[a].CasRef? && s.word % 2 == 0 && next == NextRef(s.word)
    ensures Inv(State(next, s.agents[a := HoldingRef])) <==> s.word + REF_INCR < WORD_SIZE
  {
    EvenMeansFree(s);
    AfterOneAgent(s, a, HoldingRef, next);
  }

  /** Taking the block bit, from an even word. */
  lemma BlockTaken(s: State, a: Aid, agent: Agent)
    requires Inv(s) && a in s.agents && s.agents[a].CasBlock? && s.word % 2 == 0
    requires agent == Acquired(s.agents[a].block)
    ensures Inv(State(s.word + 1, s.agents[a := agent]))
  {
    EvenMeansFree(s);
    AfterOneAgent(s, a, agent, s.word + 1);
  }

  /** An agent that holds neither a reference nor the block bit changes only its locals. */
  lemma LocalsMove(s: State, a: Aid, agent: Agent)
    requires Inv(s) && a in s.agents && LocalOk(agent)
    requires agent.HoldingRef? == s.agents[a].HoldingRef? == false
    requires agent.Owns() == s.agents[a].Owns() && !agent.HoldingExclusive?
    ensures Inv(State(s.word, s.agents[a := agent]))
  {
    AfterOneAgent(s, a, agent, s.word);
  }

  lemma CasExact(s: State, a: Aid, weak: bool)
    requires Inv(s) && a in s.agents && (s.agents[a].CasRef? || s.agents[a].CasBlock?)
    ensures Inv(Perform(s, Step(a, weak))) <==> SafeChoice(s, Step(a, weak))
  {
    var agent := s.agents[a];
    assert LocalOk(agent);
    if s.word == agent.cur && !weak {
      if agent.CasRef? { RefTaken(s, a, agent.next); } else { BlockTaken(s, a, Acquired(agent.block)); }
    } else {
      ActLocalOk(s.word, agent, weak);
      LocalsMove(s, a, Act(s.word, agent, weak).1);
    }
  }

  /** Storing `REF_ALLOWED`: right exactly when no standard reference is live. */
  lemma UnblockExact(s: State, a: Aid, weak: bool)
    requires Inv(s) && a in s.agents
    requires s.agents[a].Unblocks()
    ensures Perform(s, Step(a, weak)).word == 0 && Perform(s, Step(a, weak)).agents[a].Idle?
    ensures Inv(Perform(s, Step(a, weak))) <==> Refs(s) == {}
    ensures s.agents[a].HoldingExclusive? ==> Inv(Perform(s, Step(a, weak)))
  {
    var s' := Perform(s, Step(a, weak));
    CountsExact(s);
    OneElement(Owners(s), a);
    AfterOneAgent(s, a, s'.agents[a], s'.word);
  }

  /** Dropping a reference never wraps the word. */
  lemma DropExact(s: State, a: Aid, weak: bool)
    requires Inv(s) && a in s.agents && s.agents[a].HoldingRef?
    ensures Inv(Perform(s, Step(a, weak))) && s.word >= REF_INCR && Perform(s, Step(a, weak)).word == s.word - REF_INCR
    ensures Perform(s, Step(a, weak)).agents[a].Idle?
  {
    var s' := Perform(s, Step(a, weak));
    OneElement(Refs(s), a);
    AfterOneAgent(s, a, s'.agents[a], s'.word);
  }

  /** Every other step only reads the word, and moves no agent across the counts. */
  lemma ReadExact(s: State, a: Aid, weak: bool)
    requires Inv(s) && a in s.agents
    requires !s.agents[a].CasRef? && !s.agents[a].CasBlock? && !s.agents[a].HoldingRef?
    requires !s.agents[a].Unblocks()
    ensures Inv(Perform(s, Step(a, weak)))
  {
    var s' := Perform(s, Step(a, weak));
    ActLocalOk(s.word, s.agents[a], weak);
    AfterOneAgent(s, a, s'.agents[a], s'.word);
  }

  lemma StartExact(s: State, c: Choice)
    requires Inv(s) && !c.Step?
    ensures Inv(Perform(s, c))
  {
    if Perform(s, c) != s {
      AfterOneAgent(s, c.a, Perform(s, c).agents[c.a], s.word);
    }
  }

  /** A step keeps the invariant exactly when it is safe. */
  lemma StepExact(s: State, c: Choice)
    requires Inv(s)
    ensures Inv(Perform(s, c)) <==> SafeChoice(s, c)
  {
    if !c.Step? {
      StartExact(s, c);
    } else if c.a in s.agents {
      var agent := s.agents[c.a];
      if agent.CasRef? || agent.CasBlock? {
        CasExact(s, c.a, c.weak);
      } else if agent.HoldingRef? {
        DropExact(s, c.a, c.weak);
      } else if agent.Unblocks() {
        CountsExact(s);
        UnblockExact(s, c.a, c.weak);
      } else {
        ReadExact(s, c.a, c.weak);
      }
    }
  }

  // ---- whole runs ----

  lemma InvInit(aids: set<Aid>)
    ensures Inv(Init(aids))
  {
    assert Refs(Init(aids)) == {} && Owners(Init(aids)) == {};
  }

  ghost predicate InvThroughout(s: State, choices: seq<Choice>)
    decreases |choices|
  {
    Inv(Run(s, choices)) && (choices != [] ==> InvThroughout(s, choices[..|choices| - 1]))
  }

  predicate SafeThroughout(s: State, choices: seq<Choice>)
    decreases |choices|
  {
    choices == [] ||
    var before := choices[..|choices| - 1];
    SafeThroughout(s, before) && SafeChoice(Run(s, before), choices[|choices| - 1])
  }

  /** Counting and exclusion hold in every state of a run exactly when every step of it is safe. */
  lemma {:induction false} RunExact(s: State, choices: seq<Choice>)
    requires Inv(s)
    ensures InvThroughout(s, choices) <==> SafeThroughout(s, choices)
    decreases |choices|
  {
    if choices != [] {
      var before := choices[..|choices| - 1];
      RunExact(s, before);
      if Inv(Run(s, before)) {
        StepExact(Run(s, before), choices[|choices| - 1]);
      }
    }
  }

  // ---- the block bit over time ----

  ghost predicate BlockedThroughout(s: State, choices: seq<Choice>)
    decreases |choices|
  {
    IsBlocked(Run(s, choices).word) && (choices != [] ==> BlockedThroughout(s, choices[..|choices| - 1]))
  }

  predicate DropsRef(s: State, c: Choice) {
    c.Step? && c.a in s.agents && s.agents[c.a].HoldingRef?
  }

  /** How many standard references are dropped in a run. */
  function Drops(s: State, choices: seq<Choice>): nat
    decreases |choices|
  {
    if choices == [] then 0 else
      var before := choices[..|choices| - 1];
      Drops(s, before) + if DropsRef(Run(s, before), choices[|choices| - 1]) then 1 else 0
  }

  lemma ActWhileBlocked(word: nat, agent: Agent, weak: bool)
    requires LocalOk(agent) && IsBlocked(word) && IsBlocked(Act(word, agent, weak).0)
    ensures var agent' := Act(word, agent, weak).1; agent'.Owns() == agent.Owns() && !agent'.HoldingRef?
  {
  }

  lemma BlockedAgent(s: State, a: Aid, agent: Agent, word: nat)
    requires a in s.agents && agent.Owns() == s.agents[a].Owns() && (agent.HoldingRef? ==> s.agents[a].HoldingRef?)
    ensures var s' := State(word, s.agents[a := agent]);
      && Owners(s') == Owners(s) && Refs(s') <= Refs(s)
      && |Refs(s')| == |Refs(s)| - (if s.agents[a].HoldingRef? && !agent.HoldingRef? then 1 else 0)
  {
    RefsAfter(s, a, agent, word);
    OwnersAfter(s, a, agent, word);
  }

  /** A step that leaves the bit set: no reference is taken, and the owner stays. */
  lemma BlockedStep(s: State, c: Choice)
    requires Inv(s) && IsBlocked(s.word) && IsBlocked(Perform(s, c).word)
    ensures Inv(Perform(s, c)) && Owners(Perform(s, c)) == Owners(s) && Refs(Perform(s, c)) <= Refs(s)
    ensures |Refs(Perform(s, c))| == |Refs(s)| - (if DropsRef(s, c) then 1 else 0)
  {
    StepExact(s, c);
    if c.a in s.agents {
      if c.Step? {
        ActWhileBlocked(s.word, s.agents[c.a], c.weak);
        BlockedAgent(s, c.a, Act(s.word, s.agents[c.a], c.weak).1, Perform(s, c).word);
      } else {
        BlockedAgent(s, c.a, Perform(s, c).agents[c.a], s.word);
        assert s.agents[c.a := s.agents[c.a]] == s.agents;
      }
    }
  }

  /** While the block bit stays set, its owner stays, no new standard reference appears, and the
      count goes down by exactly the references that are dropped. */
  lemma {:induction false} BlockedSegment(s: State, choices: seq<Choice>)
    requires Inv(s) && BlockedThroughout(s, choices)
    ensures var s' := Run(s, choices);
      && Inv(s') && Owners(s') == Owners(s) && Refs(s') <= Refs(s)
      && |Refs(s')| == |Refs(s)| - Drops(s, choices)
    decreases |choices|
  {
    if choices != [] {
      var before, c := choices[..|choices| - 1], choices[|choices| - 1];
      BlockedSegment(s, before);
      BlockedEnds(s, before);
      BlockedStep(Run(s, before), c);
    }
  }

  lemma BlockedEnds(s: State, choices: seq<Choice>)
    requires BlockedThroughout(s, choices)
    ensures IsBlocked(Run(s, choices).word)
  {
  }

  /** The owner that waits for the count gets its exclusive reference exactly when the last standard
      reference has gone, so after as many drops as there were references when it blocked; until then it
      keeps the bit, and only `try_get_exclusive_ref` gives up, at its fifth count. */
  lemma AdmittedWhenDrained(s: State, a: Aid, choices: seq<Choice>, weak: bool)
    requires Inv(s) && BlockedThroughout(s, choices)
    requires a in Run(s, choices).agents && Run(s, choices).agents[a].CountRefs?
    ensures var s' := Run(s, choices);
      var agent, agent' := s'.agents[a], Perform(s', Step(a, weak)).agents[a];
      && (agent'.HoldingExclusive? <==> Drops(s, choices) == StandardCount(s.word))
      && agent'.Owns() && Perform(s', Step(a, weak)).word == s'.word
      && (agent'.GivingUp? ==> agent.block == TryGetExclusive && agent.tries == 4)
  {
    BlockedSegment(s, choices);
    CountsExact(s);
    CountsExact(Run(s, choices));
  }

  /** Nothing but an unblock clears the block bit: what the other steps do to the word is what
      `Waiters.Others` allows. */
  lemma OnlyUnblockClears(word: nat, agent: Agent, weak: bool)
    requires LocalOk(agent) && IsBlocked(word) && word < WORD_SIZE
    ensures IsBlocked(Act(word, agent, weak).0) <==> !agent.Unblocks()
  {
  }

  // ---- no u32 arithmetic wraps ----

  ghost predicate FewRefs(s: State) {
    2 * |Refs(s)| + REF_INCR < WORD_SIZE
  }

  /** Every precomputed `cur + REF_INCR` is the exact sum. */
  predicate NextsExact(s: State) {
    forall a | a in s.agents && s.agents[a].CasRef? :: s.agents[a].next == s.agents[a].cur + REF_INCR
  }

  predicate UnblocksSafely(s: State, c: Choice) {
    c.Step? && c.a in s.agents && s.agents[c.a].Unblocks() ==> StandardCount(s.word) == 0
  }

  ghost predicate FewThroughout(s: State, choices: seq<Choice>)
    decreases |choices|
  {
    FewRefs(Run(s, choices)) && (choices != [] ==>
      var before := choices[..|choices| - 1];
      FewThroughout(s, before) && UnblocksSafely(Run(s, before), choices[|choices| - 1]))
  }

  lemma FewActs(word: nat, agent: Agent, weak: bool)
    requires word + REF_INCR < WORD_SIZE && (agent.CasRef? ==> agent.next == agent.cur + REF_INCR)
    ensures var agent' := Act(word, agent, weak).1; agent'.CasRef? ==> agent'.next == agent'.cur + REF_INCR
  {
  }

  lemma FewStep(s: State, c: Choice)
    requires Inv(s) && NextsExact(s) && FewRefs(s) && UnblocksSafely(s, c)
    ensures Inv(Perform(s, c)) && NextsExact(Perform(s, c))
  {
    assert s.word + REF_INCR < WORD_SIZE by {
      if s.word % 2 == 0 { EvenMeansFree(s); }
    }
    StepExact(s, c);
    if c.Step? && c.a in s.agents {
      FewActs(s.word, s.agents[c.a], c.weak);
    }
  }

  /** With fewer than 2^31 - 1 standard references at every instant and safe unblocks, no retry of
      an acquisition, however stale its word, computes a wrapped count. */
  lemma {:induction false} FewRefsNeverWrap(aids: set<Aid>, choices: seq<Choice>)
    requires FewThroughout(Init(aids), choices)
    ensures Inv(Run(Init(aids), choices)) && NextsExact(Run(Init(aids), choices))
    decreases |choices|
  {
    InvInit(aids);
    if choices != [] {
      var before := choices[..|choices| - 1];
      FewRefsNeverWrap(aids, before);
      FewEnds(Init(aids), before);
      FewStep(Run(Init(aids), before), choices[|choices| - 1]);
    }
  }

  lemma FewEnds(s: State, choices: seq<Choice>)
    requires FewThroughout(s, choices)
    ensures FewRefs(Run(s, choices))
  {
  }

  // ---- acquisitions come to an end ----

  /** The steps that a try operation still takes at most, whatever the others do. */
  function OwnSteps(agent: Agent): (d: nat)
    requires LocalOk(agent)
    ensures d <= 11
  {
    match agent
    case LoadForRef(g) => if g == TryGetRef then 5 else 0
    case CasRef(g, attempt, _, _) => if g == TryGetRef then 4 - attempt else 0
    case LoadForBlock(g) => if g == TryBlockRefs then 5 else if g == TryGetExclusive then 11 else 0
    case CasBlock(g, attempt, _, _) =>
      if g == TryBlockRefs then 4 - attempt else if g == TryGetExclusive then 10 - attempt else 0
    case CountRefs(g, tries) => if g == TryGetExclusive then 6 - tries else 0
    case GivingUp => 1
    case _ => 0
  }

  /** `try_get_ref`, `try_block_refs` and `try_get_exclusive_ref` are wait-free: every step of their own
      brings them closer to their end, whatever the word has become, and they never wait. */
  lemma TryIsWaitFree(word: nat, agent: Agent, weak: bool)
    requires word < WORD_SIZE && LocalOk(agent) && OwnSteps(agent) > 0
    ensures var agent' := Act(word, agent, weak).1;
      && LocalOk(agent') && OwnSteps(agent') < OwnSteps(agent)
      && (OwnSteps(agent') == 0 ==> agent'.Idle? || agent'.HoldingRef? || agent'.Blocking? || agent'.HoldingExclusive?)
  {
    ActLocalOk(word, agent, weak);
  }

  function StepsOf(a: Aid, choices: seq<Choice>): nat {
    if choices == [] then 0
    else StepsOf(a, choices[..|choices| - 1])
         + if choices[|choices| - 1].Step? && choices[|choices| - 1].a == a then 1 else 0
  }

  ghost predicate TryingThroughout(s: State, a: Aid, choices: seq<Choice>)
    decreases |choices|
  {
    var s' := Run(s, choices);
    && s'.word < WORD_SIZE && a in s'.agents && LocalOk(s'.agents[a]) && OwnSteps(s'.agents[a]) > 0
    && (choices != [] ==> TryingThroughout(s, a, choices[..|choices| - 1]))
  }

  /** So in any interleaving, an agent that is still trying has taken fewer steps than its bound. */
  lemma {:induction false} TryEnds(s: State, a: Aid, choices: seq<Choice>)
    requires TryingThroughout(s, a, choices)
    ensures a in s.agents && LocalOk(s.agents[a])
    ensures StepsOf(a, choices) + OwnSteps(Run(s, choices).agents[a]) <= OwnSteps(s.agents[a])
    decreases |choices|
  {
    if choices != [] {
      var before, c := choices[..|choices| - 1], choices[|choices| - 1];
      TryEnds(s, a, before);
      var s' := Run(s, before);
      assert TryingThroughout(s, a, before);
      if c.Step? && c.a == a {
        TryIsWaitFree(s'.word, s'.agents[a], c.weak);
      }
    }
  }

  // ---- where the code departs from its intent ----

  lemma Continue(s: State, choices: seq<Choice>, c: Choice) returns (more: seq<Choice>, s': State)
    ensures more == choices + [c] && s' == Run(s, more) == Perform(Run(s, choices), c)
  {
    more := choices + [c];
    RunOneMore(s, choices, c);
    s' := Run(s, more);
  }

  /** Agent 0 takes a reference. */
  lemma TakeRef() returns (choices: seq<Choice>)
    ensures Run(Init({0, 1, 2}), choices) == State(REF_INCR, map[0 := HoldingRef, 1 := Idle, 2 := Idle])
  {
    var s0 := Init({0, 1, 2});
    var s := s0;
    choices := [];
    choices, s := Continue(s0, choices, StartRef(0, TryGetRef));
    choices, s := Continue(s0, choices, Step(0, false));
    choices, s := Continue(s0, choices, Step(0, false));
  }

  /** `try_get_exclusive_ref` of agent 1 blocks the references. */
  lemma BlockWithRef() returns (choices: seq<Choice>)
    ensures Run(Init({0, 1, 2}), choices)
         == State(3, map[0 := HoldingRef, 1 := CountRefs(TryGetExclusive, 0), 2 := Idle])
  {
    hide Run;
    var s0 := Init({0, 1, 2});
    choices := TakeRef();
    var s := Run(s0, choices);
    choices, s := Continue(s0, choices, StartBlock(1, TryGetExclusive));
    choices, s := Continue(s0, choices, Step(1, false));
    choices, s := Continue(s0, choices, Step(1, false));
  }

  /** It counts five times, with the reference live. */
  lemma CountFive() returns (choices: seq<Choice>)
    ensures Run(Init({0, 1, 2}), choices) == State(3, map[0 := HoldingRef, 1 := GivingUp, 2 := Idle])
  {
    hide Run;
    var s0 := Init({0, 1, 2});
    choices := BlockWithRef();
    var s := Run(s0, choices);
    for i := 0 to 5
      invariant s == Run(s0, choices)
      invariant var agent := if i < 5 then CountRefs(TryGetExclusive, i) else GivingUp;
        s == State(3, map[0 := HoldingRef, 1 := agent, 2 := Idle])
    {
      choices, s := Continue(s0, choices, Step(1, false));
    }
  }

  /** And gives up. */
  lemma GiveUpWithRef() returns (choices: seq<Choice>)
    ensures Run(Init({0, 1, 2}), choices) == State(REF_ALLOWED, map[0 := HoldingRef, 1 := Idle, 2 := Idle])
  {
    hide Run;
    choices := CountFive();
    var s;
    choices, s := Continue(Init({0, 1, 2}), choices, Step(1, false));
  }

  lemma BlockAfterGiveUp() returns (choices: seq<Choice>)
    ensures Run(Init({0, 1, 2}), choices)
         == State(REF_BLOCKED, map[0 := HoldingRef, 1 := Idle, 2 := CountRefs(TryGetExclusive, 0)])
  {
    hide Run;
    var s0 := Init({0, 1, 2});
    choices := GiveUpWithRef();
    var s := Run(s0, choices);
    choices, s := Continue(s0, choices, StartBlock(2, TryGetExclusive));
    choices, s := Continue(s0, choices, Step(2, false));
    choices, s := Continue(s0, choices, Step(2, false));
  }

  /** Giving up erases the live reference from the word. Agent 2 then gets an exclusive reference
      beside it, and the drop of the reference wraps the count. */
  lemma GivingUpErasesRefs() returns (choices: seq<Choice>)
    ensures var s := Run(Init({0, 1, 2}), choices);
      && s == State(REF_BLOCKED, map[0 := HoldingRef, 1 := Idle, 2 := HoldingExclusive])
      && Perform(s, Step(0, false)).word == WORD_SIZE - 1
    ensures !SafeThroughout(Init({0, 1, 2}), choices)
  {
    var s0 := Init({0, 1, 2});
    choices := BlockAfterGiveUp();
    var s;
    choices, s := Continue(s0, choices, Step(2, false));
    InvInit({0, 1, 2});
    RunExact(s0, choices);
    if Inv(s) {
      ExclusiveIsAlone(s, 2, 0);
    }
  }
}
