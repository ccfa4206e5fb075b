/**
 * The life of a coroutine task. The finishing coroutine and the owner of its handle race on one
 * atomic word in the coroutine's frame. Each step below is one atomic access, or one access
 * to the frame; the runs are all interleavings of the two sides.
 */
module TaskProtocol {
  import opened Common

  /** The atomic word: a waiting continuation, or the finisher's own handle, or a mark. */
  datatype Word = Initial | Waiter | Ready | OwnHandle | Destroyed

  /** Where the finishing coroutine is. */
  datatype Finisher =
    | Running        // has not returned a value yet
    | Returned       // result set, about to exchange the word
    | InWaiter       // resumed the waiting owner, which runs on this thread
    | Deciding       // nobody waited, about to leave its own handle
    | Parked         // suspended for good, to be destroyed by the owner
    | Leaving        // about to run off its end, which frees the frame
    | Left

  /** Where the owner is. */
  datatype Owner =
    | Fresh          // holds the handle, has not awaited it
    | Checked        // found no result, about to store its continuation
    | Waiting        // suspended
    | Taking         // about to read the result
    | Holding        // has read the result, still holds the handle
    | Dropped

  /**
   * `freed` counts how often the frame was freed, `resumed` how often the owner was resumed;
   * `stale` records an access to a freed frame, `early` a result read before it was set,
   * `asserted` a failed assertion of the handle's destructor.
   */
  datatype State = State(
    word: Word,
    finisher: Finisher,
    owner: Owner,
    result: bool,
    freed: nat,
    resumed: nat,
    stale: bool,
    early: bool,
    asserted: bool)

  const START: State := State(Initial, Running, Fresh, false, 0, 0, false, false, false)

  /** Any access to the frame. */
  function Touch(s: State): State {
    s.(stale := s.stale || s.freed > 0)
  }

  datatype Move = Await | Drop | Proceed

  /** co_await, one atomic access at a time. */
  function AwaitStep(s: State): Option<State> {
    var t := Touch(s);
    match s.owner
    case Fresh => Some(t.(owner := if s.word == Initial then Checked else Taking))
    case Checked =>
      if s.word == Initial then Some(t.(word := Waiter, owner := Waiting)) else Some(t.(owner := Taking))
    case Taking => Some(t.(owner := Holding, early := s.early || !s.result))
    case _ => None
  }

  /** The destructor of `OwnedTask`. */
  function DropStep(s: State): Option<State> {
    if s.owner != Fresh && s.owner != Holding then None
    else
      var t := Touch(s).(word := Destroyed, owner := Dropped);
      match s.word
      case Initial => Some(t)
      case Ready => Some(t)
      case Destroyed => Some(t.(asserted := true))
      case _ => Some(t.(freed := s.freed + 1))
  }

  /** The finisher, from co_return on. A prompt owner drops its handle before it suspends again. */
  function ProceedStep(s: State, prompt: bool): Option<State> {
    var t := Touch(s);
    match s.finisher
    case Running => Some(t.(finisher := Returned, result := true))
    case Returned =>
      (match s.word
       case Initial => Some(t.(word := Ready, finisher := Deciding))
       case Waiter => Some(t.(word := Ready, finisher := InWaiter, owner := Taking, resumed := s.resumed + 1))
       case _ => Some(t.(word := Ready, finisher := Leaving)))
    case InWaiter =>
      // resume() returns once the owner suspends again, for which it must have read the result.
      if s.owner == Taking || (prompt && s.owner != Dropped) then None else Some(s.(finisher := Leaving))
    case Deciding =>
      if s.word == Ready then Some(t.(word := OwnHandle, finisher := Parked)) else Some(t.(finisher := Leaving))
    case Leaving => Some(t.(finisher := Left, freed := s.freed + 1))
    case _ => None
  }

  function Step(s: State, m: Move, prompt: bool): Option<State> {
    match m
    case Await => AwaitStep(s)
    case Drop => DropStep(s)
    case Proceed => ProceedStep(s, prompt)
  }

  /** A run: moves that are not possible are skipped, so that every sequence is a schedule. */
  function Run(s: State, moves: seq<Move>, prompt: bool): State
    decreases |moves|
  {
    if moves == [] then s
    else
      var next := Step(s, moves[0], prompt);
      Run(if next.Some? then next.value else s, moves[1..], prompt)
  }

  predicate Finished(s: State) {
    s.owner == Dropped && (s.finisher == Left || s.finisher == Parked)
  }

  // ---------------------------------------------------------------- what every step keeps

  /** Which words go with which places of the two sides. */
  predicate Consistent(s: State) {
    match s.finisher
    case Running => !s.result && s.resumed == 0 && s.freed == 0 && WordBefore(s)
    case Returned => s.result && s.resumed == 0 && s.freed == 0 && WordBefore(s)
    case InWaiter =>
      && s.result && s.resumed == 1 && s.freed == 0
      && ((s.word == Ready && (s.owner == Taking || s.owner == Holding)) || (s.word == Destroyed && s.owner == Dropped))
    case Deciding =>
      && s.result && s.resumed == 0 && s.freed == 0
      && ((s.word == Ready && s.owner != Waiting && s.owner != Dropped) || (s.word == Destroyed && s.owner == Dropped))
    case Parked =>
      && s.result && s.resumed == 0
      && ((s.word == OwnHandle && s.freed == 0 && s.owner != Waiting && s.owner != Dropped)
          || (s.word == Destroyed && s.freed == 1 && s.owner == Dropped))
    case Leaving => s.result && s.resumed <= 1 && s.freed == 0 && s.owner == Dropped
    case Left => s.result && s.resumed <= 1 && s.freed == 1 && s.owner == Dropped
  }

  /** Before the finisher has touched the word, only the owner has. */
  predicate WordBefore(s: State) {
    match s.owner
    case Fresh => s.word == Initial
    case Checked => s.word == Initial
    case Waiting => s.word == Waiter
    case Dropped => s.word == Destroyed
    case _ => false
  }

  predicate Safe(s: State) {
    !s.stale && !s.early && !s.asserted && s.freed <= 1 && s.resumed <= 1
  }

  lemma StepKeeps(s: State, m: Move)
    requires Consistent(s) && Safe(s)
    ensures var n := Step(s, m, true);
            n.Some? ==> Consistent(n.value) && Safe(n.value)
  {
    match m
    case Await =>
      match s.finisher {
        case Running => case Returned => case InWaiter => case Deciding => case Parked => case Leaving => case Left =>
      }
    case Drop =>
      match s.finisher {
        case Running => case Returned => case InWaiter => case Deciding => case Parked => case Leaving => case Left =>
      }
    case Proceed =>
  }

  /** In every interleaving: no access to a freed frame, no result read early, no failed assertion. */
  lemma {:induction false} RunSafe(s: State, moves: seq<Move>)
    requires Consistent(s) && Safe(s)
    ensures Consistent(Run(s, moves, true)) && Safe(Run(s, moves, true))
    decreases |moves|
  {
    if moves != [] {
      StepKeeps(s, moves[0]);
      var next := Step(s, moves[0], true);
      RunSafe(if next.Some? then next.value else s, moves[1..]);
    }
  }

  // ---------------------------------------------------------------- nothing is lost

  /** How many steps each side still has at most. */
  function Left1(f: Finisher): nat {
    match f
    case Running => 4
    case Returned => 3
    case InWaiter => 2
    case Deciding => 2
    case Parked => 0
    case Leaving => 1
    case Left => 0
  }

  function Left2(o: Owner): nat {
    match o
    case Fresh => 5
    case Checked => 4
    case Waiting => 3
    case Taking => 2
    case Holding => 1
    case Dropped => 0
  }

  function Rank(s: State): nat { Left1(s.finisher) + Left2(s.owner) }

  lemma RankFalls(s: State, m: Move)
    requires Consistent(s)
    ensures var n := Step(s, m, true); n.Some? ==> Rank(n.value) < Rank(s)
  {
    match m
    case Await =>
      match s.owner {
        case Fresh => case Checked => case Waiting => case Taking => case Holding => case Dropped =>
      }
    case Drop =>
      match s.owner {
        case Fresh => case Checked => case Waiting => case Taking => case Holding => case Dropped =>
      }
    case Proceed => ProceedFalls(s);
  }

  lemma ProceedFalls(s: State)
    requires Consistent(s)
    ensures var n := ProceedStep(s, true); n.Some? ==> Rank(n.value) < Rank(s)
  {
    match s.finisher {
      case Running => case InWaiter => case Deciding => case Parked => case Leaving => case Left =>
      case Returned =>
        match s.word {
          case Initial => case Ready => case OwnHandle => case Destroyed =>
          case Waiter => assert s.owner == Waiting;
        }
    }
  }

  /** Some side can always move until both are done: a waiting owner is always resumed. */
  lemma NeverStuck(s: State)
    requires Consistent(s) && !Finished(s)
    ensures exists m: Move :: Step(s, m, true).Some?
  {
    if s.finisher.InWaiter? && s.owner != Dropped {
      assert Step(s, Await, true).Some? || Step(s, Drop, true).Some?;
    } else if s.finisher.Parked? || s.finisher.Left? {
      assert Step(s, Await, true).Some? || Step(s, Drop, true).Some?;
    } else {
      assert Step(s, Proceed, true).Some?;
    }
  }

  /** Moves that were all possible. */
  predicate Possible(s: State, moves: seq<Move>, prompt: bool)
    decreases |moves|
  {
    moves != [] ==>
      var next := Step(s, moves[0], prompt);
      next.Some? && Possible(next.value, moves[1..], prompt)
  }

  /**
   * No run goes on for ever, and every run that cannot go on has both sides done and the frame
   * freed exactly once.
   */
  lemma {:induction false} EveryRunEnds(s: State, moves: seq<Move>)
    requires Consistent(s) && Safe(s) && Possible(s, moves, true)
    ensures |moves| <= Rank(s)
    ensures (forall m: Move :: Step(Run(s, moves, true), m, true).None?) ==>
              Finished(Run(s, moves, true)) && Run(s, moves, true).freed == 1
    decreases |moves|
  {
    if moves == [] {
      if !Finished(s) {
        NeverStuck(s);
      }
    } else {
      StepKeeps(s, moves[0]);
      RankFalls(s, moves[0]);
      EveryRunEnds(Step(s, moves[0], true).value, moves[1..]);
    }
  }

  /** How often the owner suspended in a run. */
  function Suspensions(s: State, moves: seq<Move>): nat
    decreases |moves|
  {
    if moves == [] then 0
    else
      var next := Step(s, moves[0], true);
      var n := if next.Some? then next.value else s;
      (if s.owner != Waiting && n.owner == Waiting then 1 else 0) + Suspensions(n, moves[1..])
  }

  /** A continuation that suspended is resumed once; one whose exchange failed never is. */
  lemma {:induction false} ResumedOnceEach(s: State, moves: seq<Move>)
    requires Consistent(s) && Safe(s)
    ensures var n := Run(s, moves, true);
            s.resumed + (if s.owner == Waiting then 1 else 0) + Suspensions(s, moves)
            == n.resumed + (if n.owner == Waiting then 1 else 0)
    decreases |moves|
  {
    if moves != [] {
      StepKeeps(s, moves[0]);
      var next := Step(s, moves[0], true);
      ResumedOnceEach(if next.Some? then next.value else s, moves[1..]);
    }
  }

  /** All of it, from the start. */
  lemma EverySchedule(moves: seq<Move>)
    ensures var n := Run(START, moves, true);
            && Safe(n)
            && n.resumed + (if n.owner == Waiting then 1 else 0) == Suspensions(START, moves)
            && (Finished(n) ==> n.freed == 1)
            && (Possible(START, moves, true) ==> |moves| <= 9)
  {
    RunSafe(START, moves);
    ResumedOnceEach(START, moves);
    if Possible(START, moves, true) {
      EveryRunEnds(START, moves);
    }
  }

  // ---------------------------------------------------------------- owners that keep their handle

  lemma RunOne(s: State, m: Move, moves: seq<Move>, prompt: bool)
    ensures var next := Step(s, m, prompt);
            Run(s, [m] + moves, prompt) == Run(if next.Some? then next.value else s, moves, prompt)
  {
    assert ([m] + moves)[1..] == moves;
  }

  /**
   * An owner that was resumed, read the result and suspends again while it still holds its
   * handle: the finisher leaves and frees the frame, and the handle's destructor touches it.
   */
  lemma KeptTooLong()
    ensures Possible(START, [Await, Await, Proceed, Proceed, Await, Proceed, Proceed, Drop], false)
    ensures Run(START, [Await, Await, Proceed, Proceed, Await, Proceed, Proceed, Drop], false).stale
  {
    var s1 := Step(START, Await, false).value;
    var s2 := Step(s1, Await, false).value;
    var s3 := Step(s2, Proceed, false).value;
    var s4 := Step(s3, Proceed, false).value;
    var s5 := Step(s4, Await, false).value;
    var s6 := Step(s5, Proceed, false).value;
    var s7 := Step(s6, Proceed, false).value;
    var s8 := Step(s7, Drop, false).value;
    assert s8.stale;
    assert Run(s8, [], false) == s8 && Possible(s8, [], false);
    assert Run(s7, [Drop], false) == s8 && Possible(s7, [Drop], false);
    assert Run(s6, [Proceed, Drop], false) == s8 && Possible(s6, [Proceed, Drop], false);
    assert Run(s5, [Proceed, Proceed, Drop], false) == s8 && Possible(s5, [Proceed, Proceed, Drop], false);
    assert Run(s4, [Await, Proceed, Proceed, Drop], false) == s8 && Possible(s4, [Await, Proceed, Proceed, Drop], false);
    assert Run(s3, [Proceed, Await, Proceed, Proceed, Drop], false) == s8
        && Possible(s3, [Proceed, Await, Proceed, Proceed, Drop], false);
    assert Run(s2, [Proceed, Proceed, Await, Proceed, Proceed, Drop], false) == s8
        && Possible(s2, [Proceed, Proceed, Await, Proceed, Proceed, Drop], false);
    assert Run(s1, [Await, Proceed, Proceed, Await, Proceed, Proceed, Drop], false) == s8
        && Possible(s1, [Await, Proceed, Proceed, Await, Proceed, Proceed, Drop], false);
  }

  /** Once the finisher is past the owner, or the owner has dropped its handle, promptness has no part. */
  lemma {:induction false} PromptnessPast(s: State, moves: seq<Move>)
    requires Consistent(s) && Safe(s) && s.owner == Dropped
    ensures Run(s, moves, false) == Run(s, moves, true)
    decreases |moves|
  {
    if moves != [] {
      StepKeeps(s, moves[0]);
      var next := Step(s, moves[0], true);
      assert next == Step(s, moves[0], false);
      PromptnessPast(if next.Some? then next.value else s, moves[1..]);
    }
  }

  /**
   * The finisher, having resumed the owner, may leave it with every continuation safe if and
   * only if the owner has dropped its handle.
   */
  lemma LeavesSafelyExactly(s: State)
    requires Consistent(s) && Safe(s) && s.finisher.InWaiter? && Step(s, Proceed, false).Some?
    ensures (forall moves: seq<Move> :: Safe(Run(Step(s, Proceed, false).value, moves, false))) <==> s.owner == Dropped
  {
    var left := Step(s, Proceed, false).value;
    if s.owner == Dropped {
      StepKeeps(s, Proceed);
      forall moves: seq<Move> ensures Safe(Run(left, moves, false)) {
        PromptnessPast(left, moves);
        RunSafe(left, moves);
      }
    } else {
      var freed := Step(left, Proceed, false).value;
      RunOne(left, Proceed, [Drop], false);
      RunOne(freed, Drop, [], false);
      assert [Proceed] + [Drop] == [Proceed, Drop] && [Drop] + [] == [Drop];
      assert Run(left, [Proceed, Drop], false).stale;
    }
  }

  /** The frame is gone and the owner still holds its handle. */
  predicate Abandoned(s: State) { s.finisher == Left && s.owner == Holding }

  /** With owners of any kind: the invariant, or a finisher that has left a holding owner. */
  predicate Loose(s: State) {
    || Consistent(s)
    || (&& s.result && s.resumed == 1 && s.word == Ready && s.owner == Holding
        && ((s.finisher == Leaving && s.freed == 0) || (s.finisher == Left && s.freed == 1)))
  }

  /** Somewhere in the run an abandoned owner drops its handle. */
  predicate DropsAbandoned(s: State, moves: seq<Move>)
    decreases |moves|
  {
    moves != [] &&
      var next := Step(s, moves[0], false);
      || (Abandoned(s) && moves[0] == Drop)
      || DropsAbandoned(if next.Some? then next.value else s, moves[1..])
  }

  lemma LooseStep(s: State, m: Move)
    requires Loose(s) && Safe(s) && Step(s, m, false).Some?
    ensures var n := Step(s, m, false).value;
            (Safe(n) <==> !(Abandoned(s) && m == Drop)) && (Safe(n) ==> Loose(n))
  {
    if Consistent(s) && !(s.finisher.InWaiter? && m == Proceed) {
      StepKeeps(s, m);
    }
  }

  lemma {:induction false} UnsafeStays(s: State, moves: seq<Move>)
    requires !Safe(s)
    ensures !Safe(Run(s, moves, false))
    decreases |moves|
  {
    if moves != [] {
      var next := Step(s, moves[0], false);
      UnsafeStays(if next.Some? then next.value else s, moves[1..]);
    }
  }

  /** Whatever the owner does, an interleaving is safe if and only if no abandoned owner drops its handle. */
  lemma {:induction false} SafeExactly(s: State, moves: seq<Move>)
    requires Loose(s) && Safe(s)
    ensures Safe(Run(s, moves, false)) <==> !DropsAbandoned(s, moves)
    decreases |moves|
  {
    if moves != [] {
      var next := Step(s, moves[0], false);
      var n := if next.Some? then next.value else s;
      if next.Some? {
        LooseStep(s, moves[0]);
      }
      if Safe(n) {
        SafeExactly(n, moves[1..]);
      } else {
        UnsafeStays(n, moves[1..]);
      }
    }
  }
}
