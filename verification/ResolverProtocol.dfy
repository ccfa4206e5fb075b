/**
 * The awaitable of a queued item. The item, and with it the atomic word, belongs to the owner
 * that awaits it; the resolver sets the result and wakes the owner. Each step is one atomic
 * access or one access to the item.
 */
module ResolverProtocol {
  import opened Common

  datatype Word = Initial | Waiter | Ready | Destroyed

  datatype Resolver =
    | Unresolved     // has not set the result
    | ResultSet      // about to exchange the word
    | Restoring      // found the awaitable destroyed, about to store that mark back
    | InWaiter       // resumed the owner, which runs on this thread
    | Resolved

  datatype Owner =
    | Fresh          // holds the awaitable, has not awaited it
    | Checked        // found no result, about to store its continuation
    | Waiting        // suspended
    | Taking         // about to read the result
    | Holding        // has read the result
    | Gone           // destroyed the awaitable, and the item with it

  /**
   * `asserted` records that the awaitable was destroyed without a result, `stale` an access of
   * the resolver to an item that is gone, `early` a result read before it was set.
   */
  datatype State = State(
    word: Word, resolver: Resolver, owner: Owner, result: bool, resumed: nat, asserted: bool, stale: bool, early: bool)

  const START: State := State(Initial, Unresolved, Fresh, false, 0, false, false, false)

  datatype Move = Await | Drop | Resolve

  function AwaitStep(s: State): Option<State> {
    match s.owner
    case Fresh => Some(s.(owner := if s.word == Initial then Checked else Taking))
    case Checked =>
      if s.word == Initial then Some(s.(word := Waiter, owner := Waiting)) else Some(s.(owner := Taking))
    case Taking => Some(s.(owner := Holding, early := s.early || !s.result))
    case _ => None
  }

  /** A careful owner destroys the awaitable only after awaiting it. */
  function DropStep(s: State, careful: bool): Option<State> {
    if s.owner == Holding || (!careful && s.owner == Fresh) then
      Some(s.(word := Destroyed, owner := Gone, asserted := s.asserted || s.word != Ready))
    else None
  }

  function ResolveStep(s: State): Option<State> {
    var t := s.(stale := s.stale || s.owner == Gone);
    match s.resolver
    case Unresolved => Some(t.(resolver := ResultSet, result := true))
    case ResultSet =>
      (match s.word
       case Waiter => Some(t.(word := Ready, resolver := InWaiter, owner := Taking, resumed := s.resumed + 1))
       case Destroyed => Some(t.(word := Ready, resolver := Restoring))
       case _ => Some(t.(word := Ready, resolver := Resolved)))
    case Restoring => Some(t.(word := Destroyed, resolver := Resolved))
    case InWaiter => Some(s.(resolver := Resolved))
    case Resolved => None
  }

  function Step(s: State, m: Move, careful: bool): Option<State> {
    match m
    case Await => AwaitStep(s)
    case Drop => DropStep(s, careful)
    case Resolve => ResolveStep(s)
  }

  function Run(s: State, moves: seq<Move>, careful: bool): State
    decreases |moves|
  {
    if moves == [] then s
    else
      var next := Step(s, moves[0], careful);
      Run(if next.Some? then next.value else s, moves[1..], careful)
  }

  predicate Consistent(s: State) {
    match s.resolver
    case Unresolved => !s.result && s.resumed == 0 && WordBefore(s)
    case ResultSet => s.result && s.resumed == 0 && WordBefore(s)
    case Restoring => false
    case InWaiter => s.result && s.resumed == 1 && WordAfter(s)
    case Resolved => s.result && s.resumed <= 1 && WordAfter(s)
  }

  predicate WordBefore(s: State) {
    match s.owner
    case Fresh => s.word == Initial
    case Checked => s.word == Initial
    case Waiting => s.word == Waiter
    case _ => false
  }

  predicate WordAfter(s: State) {
    if s.owner == Gone then s.word == Destroyed else s.word == Ready && s.owner != Waiting
  }

  predicate Safe(s: State) { !s.asserted && !s.stale && !s.early && s.resumed <= 1 }

  lemma StepKeeps(s: State, m: Move)
    requires Consistent(s) && Safe(s)
    ensures var n := Step(s, m, true);
            n.Some? ==> Consistent(n.value) && Safe(n.value)
  {
    match s.resolver {
      case Unresolved => case ResultSet => case InWaiter => case Resolved =>
    }
  }

  /** How often the owner suspended in a run. */
  function Suspensions(s: State, moves: seq<Move>): nat
    decreases |moves|
  {
    if moves == [] then 0
    else
      var next := Step(s, moves[0], true);
      var n := if next.Some? then next.value else s;
      (if s.owner != Waiting && n.owner == Waiting then 1 else 0) + Suspensions(n, moves[1..])
  }

  /** Over every run: the invariant, and as many resumptions as suspensions, but for an owner still waiting. */
  lemma {:induction false} RunKeeps(s: State, moves: seq<Move>)
    requires Consistent(s) && Safe(s)
    ensures var n := Run(s, moves, true);
            && Consistent(n) && Safe(n)
            && s.resumed + (if s.owner == Waiting then 1 else 0) + Suspensions(s, moves)
               == n.resumed + (if n.owner == Waiting then 1 else 0)
    decreases |moves|
  {
    if moves != [] {
      StepKeeps(s, moves[0]);
      var next := Step(s, moves[0], true);
      RunKeeps(if next.Some? then next.value else s, moves[1..]);
    }
  }

  predicate Finished(s: State) { s.resolver == Resolved && s.owner == Gone }

  /** How many steps each side still has at most. */
  function ResolverLeft(r: Resolver): nat {
    match r
    case Unresolved => 3
    case ResultSet => 2
    case Restoring => 1
    case InWaiter => 1
    case Resolved => 0
  }

  function OwnerLeft(o: Owner): nat {
    match o
    case Fresh => 5
    case Checked => 4
    case Waiting => 3
    case Taking => 2
    case Holding => 1
    case Gone => 0
  }

  function Rank(s: State): nat { ResolverLeft(s.resolver) + OwnerLeft(s.owner) }

  lemma RankFalls(s: State, m: Move)
    requires Consistent(s)
    ensures var n := Step(s, m, true); n.Some? ==> Rank(n.value) < Rank(s)
  {
    match s.resolver {
      case Unresolved => case ResultSet => case InWaiter => case Resolved =>
    }
  }

  /** Some side can move until the owner has destroyed the awaitable and the resolver is done. */
  lemma NeverStuck(s: State)
    requires Consistent(s) && !Finished(s)
    ensures exists m: Move :: Step(s, m, true).Some?
  {
    if s.resolver == Resolved {
      assert Step(s, Await, true).Some? || Step(s, Drop, true).Some?;
    } else {
      assert Step(s, Resolve, true).Some?;
    }
  }

  /** Moves that were all possible. */
  predicate Possible(s: State, moves: seq<Move>)
    decreases |moves|
  {
    moves != [] ==>
      var next := Step(s, moves[0], true);
      next.Some? && Possible(next.value, moves[1..])
  }

  /**
   * No run goes on for ever, and every run that cannot go on has the result set and read, the
   * awaitable destroyed and the resolver done.
   */
  lemma {:induction false} EveryRunEnds(s: State, moves: seq<Move>)
    requires Consistent(s) && Safe(s) && Possible(s, moves)
    ensures |moves| <= Rank(s)
    ensures (forall m: Move :: Step(Run(s, moves, true), m, true).None?) <==> Finished(Run(s, moves, true))
    ensures Finished(Run(s, moves, true)) ==> Run(s, moves, true).result
    decreases |moves|
  {
    if moves == [] {
      if !Finished(s) {
        NeverStuck(s);
      }
    } else {
      StepKeeps(s, moves[0]);
      RankFalls(s, moves[0]);
      EveryRunEnds(Step(s, moves[0], true).value, moves[1..]);
    }
  }

  /** In every interleaving with a careful owner the "result ready" assertion never fires. */
  lemma EverySchedule(moves: seq<Move>)
    ensures var n := Run(START, moves, true);
            && Safe(n) && n.resumed + (if n.owner == Waiting then 1 else 0) == Suspensions(START, moves)
            && (Possible(START, moves) ==> |moves| <= 8)
  {
    RunKeeps(START, moves);
    if Possible(START, moves) {
      EveryRunEnds(START, moves);
    }
  }

  /** A waiting owner is always woken: the resolver is still before its exchange. */
  lemma NoLostWakeUp(moves: seq<Move>)
    ensures var n := Run(START, moves, true);
            n.owner == Waiting ==> n.resumed == 0 && n.word == Waiter && (n.resolver == Unresolved || n.resolver == ResultSet)
    ensures var n := Run(START, moves, true);
            n.owner == Waiting && n.resolver == ResultSet ==>
              Step(n, Resolve, true).Some? && Step(n, Resolve, true).value.owner == Taking
  {
    RunKeeps(START, moves);
  }

  /** Destroying the awaitable trips the assertion exactly when the word is not yet Ready. */
  lemma AssertsExactly(s: State)
    requires Consistent(s) && Safe(s) && s.owner == Fresh
    ensures Step(s, Drop, false).Some?
    ensures Step(s, Drop, false).value.asserted <==> s.resolver == Unresolved || s.resolver == ResultSet
  {
  }
}
