/** `RefCount` as a step machine over its word: any number of agents (threads, handles, futures), one
    atomic operation on the word per step, in any interleaving. Unblocking stores `REF_ALLOWED`, as
    the code does, whatever the word holds. */
module RefProtocol {
  import opened RefWord

  type Aid = nat

  /** Who asked for a standard reference. */
  datatype RefGoal = TryGetRef | GetRef | BlockingGetRef | PollRef

  /** Who asked for the block bit. */
  datatype BlockGoal =
    | TryBlockRefs | BlockRefs | PollBlocked
    | TryGetExclusive | GetExclusive | BlockingGetExclusive | PollExclusive

  /** Program counter and locals of an agent. */
  datatype Agent =
    | Idle
    | LoadForRef(ref: RefGoal)
    | CasRef(ref: RefGoal, attempt: nat, cur: nat, next: nat)
    | HoldingRef
    | LoadForBlock(block: BlockGoal)
    | CasBlock(block: BlockGoal, attempt: nat, cur: nat, next: nat)
    | Recheck(block: BlockGoal)             // is_blocked() after a failed poll
    | Blocking                              // blocks references by hand
    | CountRefs(block: BlockGoal, tries: nat)
    | GivingUp                              // try_get_exclusive_ref, about to unblock
    | HoldingExclusive
    | PendingRef                            // a FutureRef between polls
    | CheckBlocked                          // is_blocked() at the start of FutureRef::poll
    | PendingBlocked                        // a FutureBlockedRefs between polls
    | PendingExclusive(owns: bool)          // a FutureExclusiveRef between polls; owns: blocked_fut is None
  {
    /** Its next step stores `REF_ALLOWED`. */
    predicate Unblocks() {
      Blocking? || GivingUp? || HoldingExclusive?
    }

    /** Holds the block bit. */
    predicate Owns() {
      Blocking? || CountRefs? || GivingUp? || HoldingExclusive? || (PendingExclusive? && owns)
    }
  }

  datatype State = State(word: nat, agents: map<Aid, Agent>)

  datatype Choice =
    | StartRef(a: Aid, ref: RefGoal)
    | StartBlock(a: Aid, block: BlockGoal)
    | Step(a: Aid, weak: bool)

  function Acquired(g: BlockGoal): Agent {
    match g
    case TryBlockRefs => Blocking
    case BlockRefs => Blocking
    case PollBlocked => Blocking
    case _ => CountRefs(g, 0)
  }

  function NotAcquired(g: BlockGoal): Agent {
    match g
    case TryBlockRefs => Idle
    case BlockRefs => PendingBlocked
    case PollBlocked => Recheck(g)
    case TryGetExclusive => Idle
    case GetExclusive => PendingExclusive(false)
    case BlockingGetExclusive => LoadForBlock(g)
    case PollExclusive => Recheck(g)
  }

  /** One atomic step on the word. `weak`: a `compare_exchange_weak` fails spuriously. */
  function Act(word: nat, agent: Agent, weak: bool): (nat, Agent) {
    match agent
    case Idle => (word, Idle)
    // ---- get_ref, try_get_ref, blocking_get_ref ----
    case LoadForRef(g) => (word, CasRef(g, 0, Masked(word), NextRef(Masked(word))))
    case CasRef(g, attempt, cur, next) =>
      if word == cur && !weak then (next, HoldingRef)
      else if attempt < 3 then (word, CasRef(g, attempt + 1, Masked(word), NextRef(Masked(word))))
      else (word, match g
                  case TryGetRef => Idle
                  case GetRef => PendingRef
                  case PollRef => PendingRef
                  case BlockingGetRef => CasRef(g, 0, cur, next))
    // ---- Ref::drop ----
    case HoldingRef => (Dropped(word), Idle)
    // ---- try_block_refs ----
    case LoadForBlock(g) => (word, CasBlock(g, 0, Masked(word), NextBlocked(Masked(word))))
    case CasBlock(g, attempt, cur, next) =>
      if word == cur && !weak then (next, Acquired(g))
      else if attempt < 3 then (word, CasBlock(g, attempt + 1, Masked(word), NextBlocked(Masked(word))))
      else (word, NotAcquired(g))
    case Recheck(g) => (word, if g.PollBlocked? then PendingBlocked else PendingExclusive(false))
    // ---- no_standard_refs ----
    case CountRefs(g, tries) =>
      if StandardCount(word) == 0 then (word, HoldingExclusive)
      else (word, match g
                  case TryGetExclusive => if tries + 1 < 5 then CountRefs(g, tries + 1) else GivingUp
                  case BlockingGetExclusive => CountRefs(g, 0)
                  case _ => PendingExclusive(true))
    // ---- unblock_refs: by hand, when giving up, in ExclusiveRef::drop ----
    case Blocking => (REF_ALLOWED, Idle)
    case GivingUp => (REF_ALLOWED, Idle)
    case HoldingExclusive => (REF_ALLOWED, Idle)
    // ---- poll ----
    case PendingRef => (word, CheckBlocked)
    case CheckBlocked => (word, if IsBlocked(word) then PendingRef else LoadForRef(PollRef))
    case PendingBlocked => (word, LoadForBlock(PollBlocked))
    case PendingExclusive(owns) => (word, if owns then CountRefs(PollExclusive, 0) else LoadForBlock(PollExclusive))
  }

  function Perform(s: State, c: Choice): State {
    if c.a !in s.agents then s
    else
      match c
      case StartRef(a, g) =>
        if s.agents[a].Idle? && !g.PollRef? then s.(agents := s.agents[a := LoadForRef(g)]) else s
      case StartBlock(a, g) =>
        if s.agents[a].Idle? && !g.PollBlocked? && !g.PollExclusive?
        then s.(agents := s.agents[a := LoadForBlock(g)]) else s
      case Step(a, weak) =>
        var (word, agent) := Act(s.word, s.agents[a], weak);
        State(word, s.agents[a := agent])
  }

  /** `RefCount::new()` */
  function Init(aids: set<Aid>): State {
    State(0, map a | a in aids :: Idle)
  }

  function Run(s: State, choices: seq<Choice>): State
    decreases |choices|
  {
    if choices == [] then s
    else Perform(Run(s, choices[..|choices| - 1]), choices[|choices| - 1])
  }

  lemma RunOneMore(s: State, choices: seq<Choice>, c: Choice)
    ensures Run(s, choices + [c]) == Perform(Run(s, choices), c)
  {
    assert (choices + [c])[..|choices|] == choices;
  }

  function Refs(s: State): set<Aid> {
    set a | a in s.agents && s.agents[a].HoldingRef?
  }

  function Owners(s: State): set<Aid> {
    set a | a in s.agents && s.agents[a].Owns()
  }
}
