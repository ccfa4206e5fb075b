/**
 * The table of shortest TMS sequences between TAP states, filled in by a depth-first
 * search that turns back only at a state already reached in strictly fewer steps. The
 * search is modelled for any table of two-input steps and then applied to the driver's.
 */
module TapPaths {
  import opened Num
  import opened Bits
  import Tap

  /** The number of bits of an entry that no search has filled in. */
  const UNSET: nat := 0xFFFF_FFFF

  /** TMS bits, least significant first. */
  datatype Entry = Entry(bits: nat, numBits: nat)

  type Steps = seq<(nat, nat)>

  predicate IsStepTable(steps: Steps) {
    forall s | 0 <= s < |steps| :: steps[s].0 < |steps| && steps[s].1 < |steps|
  }

  function StepFrom(steps: Steps, s: nat, tms: bool): (r: nat)
    requires IsStepTable(steps) && s < |steps|
    ensures r < |steps|
  {
    if tms then steps[s].1 else steps[s].0
  }

  /** The state a run of TMS bits leads to. */
  function Walk(steps: Steps, s: nat, tms: seq<bool>): (r: nat)
    requires IsStepTable(steps) && s < |steps|
    ensures r < |steps|
    decreases |tms|
  {
    if tms == [] then s
    else StepFrom(steps, Walk(steps, s, tms[..|tms| - 1]), tms[|tms| - 1])
  }

  lemma WalkOne(steps: Steps, s: nat, tms: seq<bool>, b: bool)
    requires IsStepTable(steps) && s < |steps|
    ensures Walk(steps, s, tms + [b]) == StepFrom(steps, Walk(steps, s, tms), b)
  {
    assert (tms + [b])[..|tms + [b]| - 1] == tms;
  }

  lemma {:induction false} WalkConcat(steps: Steps, s: nat, a: seq<bool>, b: seq<bool>)
    requires IsStepTable(steps) && s < |steps|
    ensures Walk(steps, s, a + b) == Walk(steps, Walk(steps, s, a), b)
    decreases |b|
  {
    if b == [] {
      assert a + b == a;
    } else {
      WalkConcat(steps, s, a, b[..|b| - 1]);
      assert (a + b)[..|a + b| - 1] == a + b[..|b| - 1];
    }
  }

  // ---------------------------------------------------------------- the search

  /** What a filled entry claims: its bits drive `origin` to `target`. */
  predicate Drives(steps: Steps, origin: nat, target: nat, e: Entry)
    requires IsStepTable(steps) && origin < |steps|
  {
    && e.numBits < |steps|
    && e.bits < Pow2(e.numBits)
    && Walk(steps, origin, BitsOf(e.bits, e.numBits)) == target
  }

  predicate Sound(steps: Steps, origin: nat, row: seq<Entry>)
    requires IsStepTable(steps) && origin < |steps| == |row|
  {
    forall t | 0 <= t < |row| :: row[t].numBits == UNSET || Drives(steps, origin, t, row[t])
  }

  /** A filled entry has been propagated to both successors. */
  predicate Forwarded(steps: Steps, row: seq<Entry>, t: nat)
    requires IsStepTable(steps) && t < |steps| == |row|
  {
    row[t].numBits != UNSET ==>
      && row[steps[t].0].numBits <= row[t].numBits + 1
      && row[steps[t].1].numBits <= row[t].numBits + 1
  }

  predicate Propagated(steps: Steps, row: seq<Entry>, stack: set<nat>)
    requires IsStepTable(steps) && |steps| == |row|
  {
    forall t: nat | t < |row| && t !in stack :: Forwarded(steps, row, t)
  }

  /** Every state on the recursion stack was entered with fewer bits than the current depth. */
  predicate OnStack(row: seq<Entry>, stack: set<nat>, depth: nat) {
    forall s | s in stack :: s < |row| && row[s].numBits < depth
  }

  /** What a search below the stack keeps: nothing gets longer, the stack's entries stay. */
  predicate Kept(before: seq<Entry>, after: seq<Entry>, stack: set<nat>) {
    && |before| == |after|
    && (forall t | 0 <= t < |before| :: after[t].numBits <= before[t].numBits)
    && (forall s | s in stack && s < |before| :: after[s] == before[s])
  }

  /** The search's invariant. Contracts write `== true` to keep it folded. */
  predicate Searching(steps: Steps, origin: nat, row: seq<Entry>, stack: set<nat>) {
    && IsStepTable(steps) && origin < |steps| == |row|
    && Sound(steps, origin, row)
    && Propagated(steps, row, stack)
    && OnStack(row, stack, |stack|)
  }

  /** The bits lead to `current`. */
  predicate Leads(steps: Steps, origin: nat, current: nat, bits: nat, numBits: nat) {
    && IsStepTable(steps) && origin < |steps|
    && bits < Pow2(numBits)
    && Walk(steps, origin, BitsOf(bits, numBits)) == current
  }

  lemma {:induction false} StackFits(stack: set<nat>, n: nat)
    requires forall s | s in stack :: s < n
    ensures |stack| <= n
  {
    if n == 0 {
      assert stack == {};
    } else {
      StackFits(stack - {n - 1}, n - 1);
    }
  }

  /** Entering `current` records it and leaves the rest propagated. */
  lemma Entered(steps: Steps, origin: nat, row: seq<Entry>, current: nat, bits: nat, stack: set<nat>)
    requires Searching(steps, origin, row, stack) == true && current < |row|
    requires row[current].numBits >= |stack|
    requires Leads(steps, origin, current, bits, |stack|) == true
    ensures current !in stack && |stack + {current}| == |stack| + 1 <= |steps|
    ensures Searching(steps, origin, row[current := Entry(bits, |stack|)], stack + {current}) == true
    ensures Kept(row, row[current := Entry(bits, |stack|)], stack) == true
  {
    StackFits(stack + {current}, |steps|);
    var next := row[current := Entry(bits, |stack|)];
    forall t: nat | t < |row| && t !in stack + {current} ensures Forwarded(steps, next, t) {
      assert Forwarded(steps, row, t);
    }
  }

  /** Both successors have been explored: `current` may leave the stack. */
  lemma Left(steps: Steps, origin: nat, row: seq<Entry>, current: nat, stack: set<nat>)
    requires Searching(steps, origin, row, stack + {current}) == true
    requires current < |row| && current < |steps| && current !in stack && row[current].numBits == |stack|
    requires steps[current].0 < |row| && row[steps[current].0].numBits <= |stack| + 1
    requires steps[current].1 < |row| && row[steps[current].1].numBits <= |stack| + 1
    requires forall s | s in stack :: s < |row| && row[s].numBits < |stack|
    ensures Searching(steps, origin, row, stack) == true
  {
  }

  lemma KeptAlong(a: seq<Entry>, b: seq<Entry>, c: seq<Entry>, stack: set<nat>, more: nat)
    requires Kept(a, b, stack) == true && Kept(b, c, stack + {more}) == true
    ensures Kept(a, c, stack) == true
    ensures |b| == |c| && (more < |b| ==> b[more] == c[more])
    ensures forall t | 0 <= t < |b| :: c[t].numBits <= b[t].numBits
  {
  }

  /** Both continuations of `bits`: with bit n clear, and with it set. */
  lemma NextBits(steps: Steps, origin: nat, current: nat, bits: nat, n: nat, set1: nat)
    requires Leads(steps, origin, current, bits, n) == true && current < |steps|
    requires set1 == bits + Pow2(n)
    ensures steps[current].0 < |steps| && steps[current].1 < |steps|
    ensures Leads(steps, origin, steps[current].0, bits, n + 1) == true
    ensures Leads(steps, origin, steps[current].1, set1, n + 1) == true
  {
    BitsOfAppend(bits, n, false);
    LeadsOn(steps, origin, current, bits, n, bits, false);
    BitsOfAppend(bits, n, true);
    LeadsOn(steps, origin, current, bits, n, set1, true);
  }

  lemma LeadsOn(steps: Steps, origin: nat, current: nat, bits: nat, n: nat, w: nat, b: bool)
    requires Leads(steps, origin, current, bits, n) == true && current < |steps|
    requires w < Pow2(n + 1) && BitsOf(w, n + 1) == BitsOf(bits, n) + [b]
    ensures var next := if b then steps[current].1 else steps[current].0;
            next < |steps| && Leads(steps, origin, next, w, n + 1) == true
  {
    WalkOne(steps, origin, BitsOf(bits, n), b);
  }

  lemma StackKept(steps: Steps, origin: nat, row: seq<Entry>, after: seq<Entry>, stack: set<nat>)
    requires Searching(steps, origin, row, stack) == true && Kept(row, after, stack) == true
    ensures forall s | s in stack :: s < |after| && after[s].numBits < |stack|
  {
  }

  /** The rows before, on entering `current`, after its first and after its second successor. */
  lemma Finished(steps: Steps, origin: nat, rows: (seq<Entry>, seq<Entry>, seq<Entry>, seq<Entry>), current: nat, stack: set<nat>)
    requires Searching(steps, origin, rows.0, stack) == true && Searching(steps, origin, rows.3, stack + {current}) == true
    requires Kept(rows.0, rows.1, stack) == true
    requires Kept(rows.1, rows.2, stack + {current}) == true && Kept(rows.2, rows.3, stack + {current}) == true
    requires current < |steps| == |rows.1| == |rows.2| == |rows.3| && current !in stack
    requires rows.1[current].numBits == |stack|
    requires steps[current].0 < |steps| && rows.2[steps[current].0].numBits <= |stack| + 1
    requires steps[current].1 < |steps| && rows.3[steps[current].1].numBits <= |stack| + 1
    ensures Searching(steps, origin, rows.3, stack) == true
    ensures Kept(rows.0, rows.3, stack) == true && rows.3[current].numBits == |stack|
  {
    KeptAlong(rows.0, rows.1, rows.2, stack, current);
    KeptAlong(rows.0, rows.2, rows.3, stack, current);
    StackKept(steps, origin, rows.0, rows.3, stack);
    Left(steps, origin, rows.3, current, stack);
  }

  /**
   * The recursive search, on the row of one origin. It terminates because the states on the
   * recursion stack are distinct: an entry on the stack is shorter than any depth below it.
   */
  method Explore(steps: Steps, origin: nat, row: array<Entry>, current: nat, bits: nat, numBits: nat,
                 ghost stack: set<nat>)
    requires current < row.Length == |steps| && numBits == |stack|
    requires Searching(steps, origin, row[..], stack) == true
    requires Leads(steps, origin, current, bits, numBits) == true
    modifies row
    ensures Searching(steps, origin, row[..], stack) == true
    ensures Kept(old(row[..]), row[..], stack) == true
    ensures row[current].numBits <= numBits
    decreases |steps| + 1 - numBits
  {
    ghost var before := row[..];
    if numBits > row[current].numBits {
      return;
    }
    Entered(steps, origin, before, current, bits, stack);
    ghost var inner := stack + {current};
    row[current] := Entry(bits, numBits);
    ghost var entered := row[..];
    assert entered == before[current := Entry(bits, numBits)];
    var set1 := bits + Pow2(numBits);
    NextBits(steps, origin, current, bits, numBits, set1);
    Explore(steps, origin, row, steps[current].0, bits, numBits + 1, inner);
    ghost var between := row[..];
    Explore(steps, origin, row, steps[current].1, set1, numBits + 1, inner);
    Finished(steps, origin, (before, entered, between, row[..]), current, stack);
  }

  // ---------------------------------------------------------------- the finished row

  /** A row holds, for each state, a shortest way there, or nothing when there is none. */
  ghost predicate Shortest(steps: Steps, origin: nat, row: seq<Entry>)
    requires IsStepTable(steps) && origin < |steps| == |row|
  {
    && Sound(steps, origin, row)
    && forall tms: seq<bool> :: row[Walk(steps, origin, tms)].numBits <= |tms|
  }

  lemma {:induction false} EveryPathCovered(steps: Steps, origin: nat, row: seq<Entry>, tms: seq<bool>)
    requires IsStepTable(steps) && origin < |steps| == |row| && |steps| < UNSET
    requires Sound(steps, origin, row) && Propagated(steps, row, {}) && row[origin].numBits == 0
    ensures row[Walk(steps, origin, tms)].numBits <= |tms|
    decreases |tms|
  {
    if tms != [] {
      var shorter := tms[..|tms| - 1];
      EveryPathCovered(steps, origin, row, shorter);
      var t := Walk(steps, origin, shorter);
      assert Forwarded(steps, row, t);
      if row[t].numBits == UNSET {
        FarTargets(steps, origin, row, tms);
      }
    }
  }

  /** A state never reached has no short path to it, and no long one either. */
  lemma {:induction false} FarTargets(steps: Steps, origin: nat, row: seq<Entry>, tms: seq<bool>)
    requires IsStepTable(steps) && origin < |steps| == |row| && |steps| < UNSET
    requires Sound(steps, origin, row) && Propagated(steps, row, {}) && row[origin].numBits == 0
    ensures row[Walk(steps, origin, tms)].numBits < |steps|
    decreases |tms|
  {
    if tms != [] {
      FarTargets(steps, origin, row, tms[..|tms| - 1]);
      assert Forwarded(steps, row, Walk(steps, origin, tms[..|tms| - 1]));
    }
  }

  ghost predicate IsRow(steps: Steps, origin: nat, row: seq<Entry>) {
    IsStepTable(steps) && origin < |steps| == |row| && Shortest(steps, origin, row)
  }

  lemma SearchedRow(steps: Steps, origin: nat, row: seq<Entry>)
    requires Searching(steps, origin, row, {}) == true && |steps| < UNSET && row[origin].numBits == 0
    ensures IsRow(steps, origin, row)
  {
    forall tms: seq<bool> ensures row[Walk(steps, origin, tms)].numBits <= |tms| {
      EveryPathCovered(steps, origin, row, tms);
    }
  }

  lemma EmptyRow(steps: Steps, origin: nat, row: seq<Entry>)
    requires IsStepTable(steps) && origin < |steps| == |row| && forall t | 0 <= t < |row| :: row[t] == Entry(0, UNSET)
    ensures Searching(steps, origin, row, {}) == true && Leads(steps, origin, origin, 0, 0) == true
  {
  }

  /** The row of one origin. */
  method ExploreFrom(steps: Steps, origin: nat) returns (row: seq<Entry>)
    requires IsStepTable(steps) && origin < |steps| < UNSET
    ensures IsRow(steps, origin, row)
  {
    var a := new Entry[|steps|](_ => Entry(0, UNSET));
    EmptyRow(steps, origin, a[..]);
    Explore(steps, origin, a, origin, 0, 0, {});
    SearchedRow(steps, origin, a[..]);
    row := a[..];
  }

  /** The whole table, one search per origin. */
  method ComputeTransitions(steps: Steps) returns (table: seq<seq<Entry>>)
    requires IsStepTable(steps) && |steps| < UNSET
    ensures |table| == |steps|
    ensures forall o | 0 <= o < |steps| :: IsRow(steps, o, table[o])
  {
    table := [];
    var i := 0;
    while i < |steps|
      invariant i == |table| <= |steps|
      invariant forall o | 0 <= o < i :: IsRow(steps, o, table[o])
    {
      var row := ExploreFrom(steps, i);
      table := table + [row];
      i := i + 1;
    }
  }

  /** Filled in exactly when some sequence of TMS bits leads there. */
  lemma FilledIffReachable(steps: Steps, origin: nat, row: seq<Entry>, target: nat)
    requires IsStepTable(steps) && origin < |steps| == |row| && |steps| < UNSET && target < |row|
    requires Shortest(steps, origin, row)
    ensures row[target].numBits != UNSET <==> exists tms: seq<bool> :: Walk(steps, origin, tms) == target && |tms| < UNSET
  {
    if row[target].numBits != UNSET {
      assert Walk(steps, origin, BitsOf(row[target].bits, row[target].numBits)) == target;
    }
  }

  // ---------------------------------------------------------------- the driver's table

  /** A complete table of shortest paths for the driver's step table. */
  ghost predicate IsPathTable(table: seq<seq<Entry>>) {
    && IsStepTable(Tap.STEPS)
    && |table| == |Tap.STEPS|
    && forall o | 0 <= o < |table| :: IsRow(Tap.STEPS, o, table[o])
  }

  method ComputeTapTransitions() returns (table: seq<seq<Entry>>)
    ensures IsPathTable(table)
  {
    assert |Tap.STEPS| == 16;
    table := ComputeTransitions(Tap.STEPS);
  }

  /** A state with a lower number and the TMS bit that leads from it to t. */
  function Before(t: nat): (r: (nat, bool))
    requires 0 < t < Tap.UNKNOWN
    ensures r.0 < t && Tap.StepOf(r.0, r.1) == t
  {
    if t == Tap.RUN_TEST_IDLE then (Tap.TEST_LOGIC_RESET, false)
    else if t == Tap.SELECT_DR then (Tap.RUN_TEST_IDLE, true)
    else if t == Tap.SELECT_IR then (Tap.SELECT_DR, true)
    else if t == Tap.EXIT1_DR || t == Tap.EXIT1_IR then (t - 2, true)
    else if t == Tap.UPDATE_DR || t == Tap.UPDATE_IR then (t - 3, true)
    else (t - 1, t == Tap.EXIT2_DR || t == Tap.EXIT2_IR)
  }

  /** How many steps `Before` is from Test-Logic-Reset. */
  function Far(t: nat): (n: nat)
    requires t < Tap.UNKNOWN
    ensures n <= 7
  {
    if t <= Tap.SELECT_DR then t
    else if t == Tap.SELECT_IR then 3
    else if t < Tap.SELECT_IR then [3, 4, 4, 5, 6, 5][t - Tap.CAPTURE_DR]
    else [4, 5, 5, 6, 7, 6][t - Tap.CAPTURE_IR]
  }

  lemma FarIsBeforePlusOne(t: nat, p: (nat, bool))
    requires 0 < t < Tap.UNKNOWN && p == Before(t)
    ensures p.0 < t && Far(t) == Far(p.0) + 1
  {
  }

  lemma StepIsStep(s: nat, t: nat, b: bool)
    requires s < Tap.UNKNOWN && Tap.StepOf(s, b) == t
    ensures IsStepTable(Tap.STEPS) && StepFrom(Tap.STEPS, s, b) == t
  {
  }

  lemma {:induction false} Reached(t: nat) returns (tms: seq<bool>)
    requires t < Tap.UNKNOWN
    ensures IsStepTable(Tap.STEPS)
    ensures Walk(Tap.STEPS, Tap.TEST_LOGIC_RESET, tms) == t && |tms| == Far(t)
  {
    if t == 0 {
      tms := [];
    } else {
      var p := Before(t);
      FarIsBeforePlusOne(t, p);
      StepIsStep(p.0, t, p.1);
      var shorter := Reached(p.0);
      WalkOne(Tap.STEPS, Tap.TEST_LOGIC_RESET, shorter, p.1);
      tms := shorter + [p.1];
    }
  }

  lemma {:induction false} WalkIsClock(s: nat, tms: seq<bool>)
    requires s < Tap.UNKNOWN
    ensures IsStepTable(Tap.STEPS) && Tap.Meaning(Walk(Tap.STEPS, s, tms)) == Tap.Clock(Tap.Meaning(s), tms)
    decreases |tms|
  {
    if tms != [] {
      var shorter := tms[..|tms| - 1];
      WalkIsClock(s, shorter);
      Tap.TableIsStandard(Walk(Tap.STEPS, s, shorter), tms[|tms| - 1]);
    }
  }

  /** Some way from any state to any other: reset, then down. */
  lemma Across(s: nat, t: nat) returns (tms: seq<bool>)
    requires s < Tap.UNKNOWN && t < Tap.UNKNOWN
    ensures IsStepTable(Tap.STEPS) && Walk(Tap.STEPS, s, tms) == t && |tms| <= 12
  {
    var ones := [true, true, true, true, true];
    WalkIsClock(s, ones);
    Tap.FiveOnesReset(Tap.Meaning(s));
    Tap.MeaningInjective(Walk(Tap.STEPS, s, ones), Tap.TEST_LOGIC_RESET);
    var down := Reached(t);
    WalkConcat(Tap.STEPS, s, ones, down);
    tms := ones + down;
  }

  lemma EntryReached(steps: Steps, s: nat, row: seq<Entry>, tms: seq<bool>, e: Entry)
    requires IsStepTable(steps) && s < |steps| == |row| && Shortest(steps, s, row) && |tms| < UNSET
    requires e == row[Walk(steps, s, tms)]
    ensures e.numBits <= |tms| && e.bits < Pow2(e.numBits)
    ensures Walk(steps, s, BitsOf(e.bits, e.numBits)) == Walk(steps, s, tms)
  {
    assert Drives(steps, s, Walk(steps, s, tms), e);
  }

  /** A state and the TMS bits that lead from it to another. */
  predicate Clocks(s: nat, t: nat, e: Entry) {
    && s < Tap.UNKNOWN && t < Tap.UNKNOWN
    && e.numBits <= 12 && e.bits < Pow2(e.numBits)
    && Tap.Clock(Tap.Meaning(s), BitsOf(e.bits, e.numBits)) == Tap.Meaning(t)
  }

  /**
   * Every pair of states has an entry, of at most 12 bits: it fits its 32-bit word and an
   * empty 64-bit TMS buffer, and clocking its bits takes a TAP from the one state to the other.
   */
  lemma TapPath(table: seq<seq<Entry>>, s: nat, t: nat)
    requires IsPathTable(table) && s < Tap.UNKNOWN && t < Tap.UNKNOWN
    ensures |table| == Tap.UNKNOWN && |table[s]| == Tap.UNKNOWN
    ensures Clocks(s, t, table[s][t])
  {
    assert |Tap.STEPS| == Tap.UNKNOWN && IsRow(Tap.STEPS, s, table[s]);
    var tms := Across(s, t);
    var e := table[s][t];
    EntryReached(Tap.STEPS, s, table[s], tms, e);
    WalkIsClock(s, BitsOf(e.bits, e.numBits));
  }

  /** Every entry of a table clocks a TAP from its origin to its target. */
  predicate LeadsEverywhere(table: seq<seq<Entry>>) {
    && |table| == Tap.UNKNOWN
    && (forall s: nat | s < |table| :: |table[s]| == Tap.UNKNOWN)
    && forall s: nat, t: nat | s < |table| && t < |table[s]| :: Clocks(s, t, table[s][t])
  }

  lemma TableLeads(table: seq<seq<Entry>>)
    requires IsPathTable(table)
    ensures LeadsEverywhere(table)
  {
    TapPath(table, 0, 0);
    forall s: nat | s < |table| ensures |table[s]| == Tap.UNKNOWN {
      TapPath(table, s, 0);
    }
    forall s: nat, t: nat | s < |table| && t < |table[s]| ensures Clocks(s, t, table[s][t]) {
      TapPath(table, s, t);
    }
  }
}
