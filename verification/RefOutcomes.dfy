/** Where an acquisition ends: the outcomes of every operation of `RefCount` over every run, whatever the
    other agents do to the word, and what an agent gets that is left alone. */
module RefOutcomes {
  import opened RefWord
  import opened RefProtocol
  import opened RefSafety
  import Waiters

  // ---- standard references ----

  predicate TakesRef(agent: Agent, g: RefGoal) {
    (agent.LoadForRef? || agent.CasRef?) && agent.ref == g
  }

  /** After `n` of its own steps the agent is still at it: it has loaded the word once and failed `n - 1`
      compare-exchanges. Only the blocking getter goes on after the fourth. */
  predicate RefPhase(agent: Agent, g: RefGoal, n: nat) {
    && TakesRef(agent, g)
    && (agent.LoadForRef? <==> n == 0)
    && (agent.CasRef? ==> agent.attempt == (n - 1) % 4)
    && (g != BlockingGetRef ==> n <= 4)
  }

  /** It has its reference; or, after four failures, what its operation answers without one. */
  predicate RefOutcome(agent: Agent, g: RefGoal, n: nat) {
    || (agent.HoldingRef? && n >= 2)
    || (n == 5 && match g
                  case TryGetRef => agent.Idle?
                  case GetRef => agent.PendingRef?
                  case PollRef => agent.PendingRef?
                  case BlockingGetRef => false)
  }

  /** In every state of the run but the last, `a` is at it. */
  ghost predicate TakesRefBefore(s: State, a: Aid, g: RefGoal, choices: seq<Choice>)
    decreases |choices|
  {
    choices == [] ||
    var before := choices[..|choices| - 1];
    var s' := Run(s, before);
    TakesRefBefore(s, a, g, before) && a in s'.agents && TakesRef(s'.agents[a], g)
  }

  lemma RefPhaseStep(word: nat, agent: Agent, weak: bool, g: RefGoal, n: nat)
    requires LocalOk(agent) && RefPhase(agent, g, n)
    ensures var agent' := Act(word, agent, weak).1; RefPhase(agent', g, n + 1) || RefOutcome(agent', g, n + 1)
  {
  }

  /** Every acquisition of a standard reference, in every interleaving: it goes on until it has its
      reference, and the blocking getter until then only; the others give up after exactly four failed
      compare-exchanges, with nothing or with a pending future. */
  lemma {:induction false} GetterOutcomes(s: State, a: Aid, g: RefGoal, choices: seq<Choice>)
    requires s.word < WORD_SIZE && a in s.agents && s.agents[a] == LoadForRef(g) && LocalsOk(s)
    requires TakesRefBefore(s, a, g, choices)
    ensures var s' := Run(s, choices);
      && a in s'.agents && LocalsOk(s') && s'.word < WORD_SIZE
      && (RefPhase(s'.agents[a], g, StepsOf(a, choices)) || RefOutcome(s'.agents[a], g, StepsOf(a, choices)))
    decreases |choices|
  {
    if choices != [] {
      var before, c := choices[..|choices| - 1], choices[|choices| - 1];
      GetterOutcomes(s, a, g, before);
      var s' := Run(s, before);
      LocalsStay(s', c);
      if c.Step? && c.a == a {
        RefPhaseStep(s'.word, s'.agents[a], c.weak, g, StepsOf(a, before));
      }
    }
  }

  lemma LocalsStay(s: State, c: Choice)
    requires LocalsOk(s) && s.word < WORD_SIZE
    ensures LocalsOk(Perform(s, c)) && Perform(s, c).word < WORD_SIZE && Perform(s, c).agents.Keys == s.agents.Keys
  {
    if c.Step? && c.a in s.agents {
      ActLocalOk(s.word, s.agents[c.a], c.weak);
    }
  }

  // ---- the block bit ----

  predicate TakesBlock(agent: Agent, g: BlockGoal) {
    (agent.LoadForBlock? || agent.CasBlock? || agent.Recheck?) && agent.block == g
  }

  predicate IsPoll(g: BlockGoal) {
    g.PollBlocked? || g.PollExclusive?
  }

  predicate WantsExclusive(g: BlockGoal) {
    !g.TryBlockRefs? && !g.BlockRefs? && !g.PollBlocked?
  }

  /** After `n` of its own steps it has neither the bit nor given up. The blocking getter loads the word
      again after four failures; a poll looks once more whether references are blocked. */
  predicate BlockPhase(agent: Agent, g: BlockGoal, n: nat) {
    && TakesBlock(agent, g)
    && (agent.LoadForBlock? ==> n % 5 == 0)
    && (agent.CasBlock? ==> agent.attempt == n % 5 - 1)
    && (agent.Recheck? ==> n == 5 && IsPoll(g))
    && (g != BlockingGetExclusive ==> n <= 4 || agent.Recheck?)
  }

  /** It has the bit. */
  predicate TookBlock(agent: Agent, g: BlockGoal) {
    if WantsExclusive(g) then agent == CountRefs(g, 0) else agent.Blocking?
  }

  /** Four failures, and what the operation answers without the bit. */
  predicate MissedBlock(agent: Agent, g: BlockGoal, n: nat) {
    && n == (if IsPoll(g) then 6 else 5)
    && match g
       case TryBlockRefs => agent.Idle?
       case TryGetExclusive => agent.Idle?
       case BlockRefs => agent.PendingBlocked?
       case PollBlocked => agent.PendingBlocked?
       case GetExclusive => agent == PendingExclusive(false)
       case PollExclusive => agent == PendingExclusive(false)
       case BlockingGetExclusive => false
  }

  ghost predicate TakesBlockBefore(s: State, a: Aid, g: BlockGoal, choices: seq<Choice>)
    decreases |choices|
  {
    choices == [] ||
    var before := choices[..|choices| - 1];
    var s' := Run(s, before);
    TakesBlockBefore(s, a, g, before) && a in s'.agents && TakesBlock(s'.agents[a], g)
  }

  /** After `n` of its own steps: at it, with the bit, or without it for good. */
  predicate BlockOutcome(word: nat, agent: Agent, g: BlockGoal, n: nat) {
    BlockPhase(agent, g, n) || (TookBlock(agent, g) && IsBlocked(word)) || MissedBlock(agent, g, n)
  }

  lemma BlockPhaseStep(word: nat, agent: Agent, weak: bool, g: BlockGoal, n: nat)
    requires LocalOk(agent) && BlockOutcome(word, agent, g, n) && TakesBlock(agent, g)
    ensures var (word', agent') := Act(word, agent, weak);
      && BlockOutcome(word', agent', g, n + 1)
      && word' == if TookBlock(agent', g) then word + 1 else word
  {
  }

  lemma BlockBegins(word: nat, g: BlockGoal)
    ensures BlockOutcome(word, LoadForBlock(g), g, 0)
  {
  }

  lemma LocalAt(s: State, a: Aid)
    requires LocalsOk(s) && a in s.agents
    ensures LocalOk(s.agents[a])
  {
  }

  lemma BlockPhaseStays(word: nat, agent: Agent, g: BlockGoal, n: nat, word': nat)
    requires BlockOutcome(word, agent, g, n) && TakesBlock(agent, g)
    ensures BlockOutcome(word', agent, g, n)
  {
  }

  /** Every acquisition of the block bit, in every interleaving: it goes on until it has the bit, and the
      blocking getter until then only; the others give up after exactly four failed compare-exchanges,
      with nothing or with a pending future that does not own the block. */
  lemma {:induction false} BlockOutcomes(s: State, a: Aid, g: BlockGoal, choices: seq<Choice>)
    requires s.word < WORD_SIZE && a in s.agents && s.agents[a] == LoadForBlock(g) && LocalsOk(s)
    requires TakesBlockBefore(s, a, g, choices)
    ensures var s' := Run(s, choices);
      && a in s'.agents && LocalsOk(s') && s'.word < WORD_SIZE
      && BlockOutcome(s'.word, s'.agents[a], g, StepsOf(a, choices))
    decreases |choices|
  {
    hide BlockOutcome, Act, LocalsOk;
    if choices == [] {
      BlockBegins(s.word, g);
    } else {
      var before, c := choices[..|choices| - 1], choices[|choices| - 1];
      BlockOutcomes(s, a, g, before);
      var s' := Run(s, before);
      LocalsStay(s', c);
      LocalAt(s', a);
      if c.Step? && c.a == a {
        BlockPhaseStep(s'.word, s'.agents[a], c.weak, g, StepsOf(a, before));
      } else {
        BlockPhaseStays(s'.word, s'.agents[a], g, StepsOf(a, before), Perform(s', c).word);
      }
    }
  }

  // ---- the owner of the bit waits for the count ----

  predicate Counts(agent: Agent, g: BlockGoal) {
    (agent.CountRefs? && agent.block == g) || (agent.GivingUp? && g == TryGetExclusive)
  }

  /** After `n` counts that all found references. The blocking getter counts on for ever; `try` gives up
      after five; the others have ended. */
  predicate CountPhase(agent: Agent, g: BlockGoal, n: nat) {
    && Counts(agent, g)
    && match g
       case TryGetExclusive => if n < 5 then agent == CountRefs(g, n) else n == 5 && agent.GivingUp?
       case BlockingGetExclusive => agent == CountRefs(g, 0)
       case _ => n == 0 && agent == CountRefs(g, 0)
  }

  /** An exclusive reference; nothing, after five counts and the unblock; or a pending future that owns the
      bit, after one. */
  predicate CountOutcome(word: nat, agent: Agent, g: BlockGoal, n: nat) {
    && (agent.HoldingExclusive? ==> StandardCount(word) == 0)
    && (agent.PendingExclusive? ==> StandardCount(word) > 0)
    && match g
       case TryGetExclusive => (agent.HoldingExclusive? && n <= 5) || (agent.Idle? && n == 6)
       case BlockingGetExclusive => agent.HoldingExclusive?
       case GetExclusive => (agent.HoldingExclusive? || agent == PendingExclusive(true)) && n == 1
       case PollExclusive => (agent.HoldingExclusive? || agent == PendingExclusive(true)) && n == 1
       case _ => false
  }

  ghost predicate CountsBefore(s: State, a: Aid, g: BlockGoal, choices: seq<Choice>)
    decreases |choices|
  {
    choices == [] ||
    var before := choices[..|choices| - 1];
    var s' := Run(s, before);
    CountsBefore(s, a, g, before) && a in s'.agents && Counts(s'.agents[a], g)
  }

  lemma CountPhaseStep(word: nat, agent: Agent, weak: bool, g: BlockGoal, n: nat)
    requires CountPhase(agent, g, n) && WantsExclusive(g)
    ensures var (word', agent') := Act(word, agent, weak);
      && (CountPhase(agent', g, n + 1) || CountOutcome(word', agent', g, n + 1))
      && (agent.CountRefs? ==> word' == word && (agent'.HoldingExclusive? <==> StandardCount(word) == 0))
  {
  }

  /** Every agent that has taken the bit for an exclusive reference, in every interleaving. */
  lemma {:induction false} CountOutcomes(s: State, a: Aid, g: BlockGoal, choices: seq<Choice>)
    requires a in s.agents && s.agents[a] == CountRefs(g, 0) && WantsExclusive(g)
    requires CountsBefore(s, a, g, choices)
    ensures var s' := Run(s, choices);
      && a in s'.agents
      && (CountPhase(s'.agents[a], g, StepsOf(a, choices))
          || CountOutcome(s'.word, s'.agents[a], g, StepsOf(a, choices)))
    decreases |choices|
  {
    if choices != [] {
      var before, c := choices[..|choices| - 1], choices[|choices| - 1];
      CountOutcomes(s, a, g, before);
      var s' := Run(s, before);
      if c.Step? && c.a == a {
        CountPhaseStep(s'.word, s'.agents[a], c.weak, g, StepsOf(a, before));
      }
    }
  }

  // ---- polls ----

  predicate PendingAs(agent: Agent, kind: Waiters.Kind) {
    match kind
    case RefFuture => agent.PendingRef?
    case BlockedFuture => agent.PendingBlocked?
    case ExclusiveFuture => agent.PendingExclusive?
  }

  predicate ReadyAs(agent: Agent, kind: Waiters.Kind) {
    match kind
    case RefFuture => agent.HoldingRef?
    case BlockedFuture => agent.Blocking?
    case ExclusiveFuture => agent.HoldingExclusive?
  }

  predicate InPoll(agent: Agent, kind: Waiters.Kind) {
    match kind
    case RefFuture => agent.CheckBlocked? || TakesRef(agent, PollRef)
    case BlockedFuture => TakesBlock(agent, PollBlocked)
    case ExclusiveFuture => TakesBlock(agent, PollExclusive) || Counts(agent, PollExclusive)
  }

  /** The steps that a poll still takes at most. */
  function PollLeft(agent: Agent): nat
    requires LocalOk(agent)
  {
    match agent
    case CheckBlocked => 6
    case LoadForRef(_) => 5
    case CasRef(_, attempt, _, _) => 4 - attempt
    case LoadForBlock(_) => 6
    case CasBlock(_, attempt, _, _) => 5 - attempt
    case _ => 1
  }

  /** Every poll takes at most seven steps of its own, whatever the others do to the word, and ends with the
      future ready or pending. */
  predicate PollOutcome(agent: Agent, kind: Waiters.Kind, n: nat)
    requires LocalOk(agent)
  {
    if n == 0 then PendingAs(agent, kind)
    else if InPoll(agent, kind) then n + PollLeft(agent) <= 7
    else n <= 7 && (PendingAs(agent, kind) || ReadyAs(agent, kind))
  }

  /** The poll has not ended before the last state of the run. */
  ghost predicate PollsBefore(s: State, a: Aid, kind: Waiters.Kind, choices: seq<Choice>)
    decreases |choices|
  {
    choices == [] ||
    var before := choices[..|choices| - 1];
    var s' := Run(s, before);
    && PollsBefore(s, a, kind, before)
    && (StepsOf(a, before) > 0 ==> a in s'.agents && InPoll(s'.agents[a], kind))
  }

  lemma PollStep(word: nat, agent: Agent, weak: bool, kind: Waiters.Kind, n: nat)
    requires word < WORD_SIZE && LocalOk(agent) && PollOutcome(agent, kind, n) && (n > 0 ==> InPoll(agent, kind))
    ensures var agent' := Act(word, agent, weak).1; LocalOk(agent') && PollOutcome(agent', kind, n + 1)
  {
    ActLocalOk(word, agent, weak);
  }

  lemma {:induction false} PollOutcomes(s: State, a: Aid, kind: Waiters.Kind, choices: seq<Choice>)
    requires s.word < WORD_SIZE && LocalsOk(s) && a in s.agents && PendingAs(s.agents[a], kind)
    requires PollsBefore(s, a, kind, choices)
    ensures var s' := Run(s, choices);
      && s'.word < WORD_SIZE && LocalsOk(s') && a in s'.agents
      && PollOutcome(s'.agents[a], kind, StepsOf(a, choices))
    decreases |choices|
  {
    if choices != [] {
      hide Act;
      var before, c := choices[..|choices| - 1], choices[|choices| - 1];
      PollOutcomes(s, a, kind, before);
      var s' := Run(s, before);
      LocalsStay(s', c);
      if c.Step? && c.a == a {
        PollStep(s'.word, s'.agents[a], c.weak, kind, StepsOf(a, before));
      }
    }
  }

  // ---- ownership follows the bit ----

  /** An agent becomes the owner exactly with the step that sets the bit, and stops being it exactly with a
      step that unblocks. So a pending future owns the block if and only if its operation has set the bit. */
  lemma OwnershipFollowsBit(s: State, a: Aid, weak: bool)
    requires Inv(s) && a in s.agents
    ensures var s' := Perform(s, Step(a, weak));
      && (!s.agents[a].Owns() && s'.agents[a].Owns() <==> !IsBlocked(s.word) && IsBlocked(s'.word))
      && (s.agents[a].Owns() && !s'.agents[a].Owns() <==> s.agents[a].Unblocks())
  {
    assert LocalOk(s.agents[a]);
  }

  /** Whatever an agent does to the word is a step that `Waiters` allows: an unblock, with the drain that
      follows it, or any other operation. */
  lemma WaitersFollow<F>(w: Waiters.World<F>, agent: Agent, weak: bool)
    requires Waiters.Runnable(w) && w.word < WORD_SIZE && LocalOk(agent)
    ensures var word' := Act(w.word, agent, weak).0;
      if agent.Unblocks() then Waiters.Perform(w, Waiters.Unblock) == w.(word := word', drains := w.drains + 1)
      else Waiters.Perform(w, Waiters.Others(word')) == w.(word := word')
  {
    if IsBlocked(w.word) {
      OnlyUnblockClears(w.word, agent, weak);
    }
  }

  // ---- an agent that is left alone ----

  function Solo(a: Aid, k: nat): (choices: seq<Choice>)
    ensures |choices| == k
  {
    seq(k, _ => Step(a, false))
  }

  /** `k` steps of `a` alone. */
  function Alone(s: State, a: Aid, k: nat): State {
    Run(s, Solo(a, k))
  }

  lemma {:induction false} AloneFirst(s: State, a: Aid, k: nat)
    ensures Alone(s, a, k + 1) == Alone(Perform(s, Step(a, false)), a, k)
    decreases k
  {
    RunOneMore(s, Solo(a, k), Step(a, false));
    assert Solo(a, k) + [Step(a, false)] == Solo(a, k + 1);
    if k == 0 {
      assert Solo(a, 0) == [];
    } else {
      AloneFirst(s, a, k - 1);
      RunOneMore(Perform(s, Step(a, false)), Solo(a, k - 1), Step(a, false));
      assert Solo(a, k - 1) + [Step(a, false)] == Solo(a, k);
    }
  }

  /** The steps after which an agent left alone on an unblocked word has its reference; 0 if it does not
      seek one, or has one attempt left with a word that is no longer current. */
  function RefDistance(word: nat, agent: Agent): (d: nat)
    ensures d <= 5
  {
    match agent
    case LoadForRef(_) => 2
    case CasRef(g, attempt, cur, _) =>
      if cur == word then 1
      else if attempt < 3 then 2
      else if g == TryGetRef then 0
      else if g == BlockingGetRef then 3
      else 5
    case PendingRef => 4
    case CheckBlocked => 3
    case _ => 0
  }

  /** Left alone on an unblocked word, every getter gets its reference, from wherever it stands: a pending
      future by being polled, the blocking getter by going on, whatever stale word they hold. */
  lemma {:induction false} AloneGetsRef(s: State, a: Aid)
    requires a in s.agents && !IsBlocked(s.word) && LocalOk(s.agents[a]) && s.word < WORD_SIZE
    requires RefDistance(s.word, s.agents[a]) > 0
    ensures var s' := Alone(s, a, RefDistance(s.word, s.agents[a]));
      a in s'.agents && s'.agents[a].HoldingRef? && s'.word == NextRef(s.word)
    decreases RefDistance(s.word, s.agents[a])
  {
    var d, s' := RefDistance(s.word, s.agents[a]), Perform(s, Step(a, false));
    AloneFirst(s, a, d - 1);
    ActLocalOk(s.word, s.agents[a], false);
    if d > 1 {
      AloneGetsRef(s', a);
    } else {
      assert Solo(a, 0) == [];
    }
  }

  /** The same from the start of an operation. */
  lemma StartGetsRef(s: State, a: Aid, g: RefGoal)
    requires a in s.agents && s.agents[a].Idle? && !IsBlocked(s.word) && s.word < WORD_SIZE && g != PollRef
    ensures TakesRef(Perform(s, StartRef(a, g)).agents[a], g)
    ensures var s' := Alone(Perform(s, StartRef(a, g)), a, 2);
      a in s'.agents && s'.agents[a].HoldingRef? && s'.word == NextRef(s.word)
  {
    AloneGetsRef(Perform(s, StartRef(a, g)), a);
  }

  /** The steps after which an agent left alone on an unblocked word has the block bit. */
  function BlockDistance(word: nat, agent: Agent): (d: nat)
    ensures d <= 5
  {
    match agent
    case LoadForBlock(_) => 2
    case CasBlock(g, attempt, cur, _) =>
      if cur == word then 1
      else if attempt < 3 then 2
      else if g == TryBlockRefs || g == TryGetExclusive then 0
      else if g == BlockingGetExclusive then 3
      else if IsPoll(g) then 5
      else 4
    case Recheck(g) => if IsPoll(g) then 4 else 0
    case PendingBlocked => 3
    case PendingExclusive(owns) => if owns then 0 else 3
    case _ => 0
  }

  /** What an agent that seeks the bit is after: an exclusive reference, or the bit alone. */
  predicate SeeksExclusive(agent: Agent) {
    agent.PendingExclusive? ||
    ((agent.LoadForBlock? || agent.CasBlock? || agent.Recheck? || agent.CountRefs?) && WantsExclusive(agent.block))
  }

  lemma {:induction false} AloneGetsBlock(s: State, a: Aid)
    requires a in s.agents && !IsBlocked(s.word) && LocalOk(s.agents[a]) && s.word < WORD_SIZE
    requires BlockDistance(s.word, s.agents[a]) > 0
    ensures var s' := Alone(s, a, BlockDistance(s.word, s.agents[a]));
      && a in s'.agents && s'.word == s.word + 1
      && (if SeeksExclusive(s.agents[a]) then s'.agents[a].CountRefs? && SeeksExclusive(s'.agents[a])
          else s'.agents[a].Blocking?)
    decreases BlockDistance(s.word, s.agents[a])
  {
    var d, s' := BlockDistance(s.word, s.agents[a]), Perform(s, Step(a, false));
    AloneFirst(s, a, d - 1);
    ActLocalOk(s.word, s.agents[a], false);
    if d > 1 {
      AloneGetsBlock(s', a);
    } else {
      assert Solo(a, 0) == [];
    }
  }

  /** An owner that waits for the count, alone on a word without references: one more count, or one poll. */
  lemma OwnerGetsExclusive(s: State, a: Aid)
    requires a in s.agents && s.word == REF_BLOCKED
    requires s.agents[a].CountRefs? || s.agents[a] == PendingExclusive(true)
    ensures var s' := Alone(s, a, if s.agents[a].CountRefs? then 1 else 2);
      a in s'.agents && s'.agents[a].HoldingExclusive? && s'.word == REF_BLOCKED
  {
    AloneFirst(s, a, 0);
    assert Solo(a, 0) == [];
    if s.agents[a].PendingExclusive? {
      AloneFirst(s, a, 1);
      AloneFirst(Perform(s, Step(a, false)), a, 0);
    }
  }

  /** From the start of an operation, alone: the bit, and without references the exclusive reference. */
  lemma StartGetsBlock(s: State, a: Aid, g: BlockGoal)
    requires a in s.agents && s.agents[a].Idle? && !IsBlocked(s.word) && s.word < WORD_SIZE && !IsPoll(g)
    ensures TakesBlock(Perform(s, StartBlock(a, g)).agents[a], g)
    ensures var s' := Alone(Perform(s, StartBlock(a, g)), a, 2);
      && a in s'.agents && s'.word == s.word + 1
      && (if WantsExclusive(g) then s'.agents[a].CountRefs? else s'.agents[a].Blocking?)
      && (WantsExclusive(g) && s.word == 0 ==>
            var s'' := Alone(s', a, 1); a in s''.agents && s''.agents[a].HoldingExclusive?)
  {
    AloneGetsBlock(Perform(s, StartBlock(a, g)), a);
    var s' := Alone(Perform(s, StartBlock(a, g)), a, 2);
    if WantsExclusive(g) && s.word == 0 {
      OwnerGetsExclusive(s', a);
    }
  }
}
