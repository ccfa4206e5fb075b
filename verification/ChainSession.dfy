/**
 * What one chain transaction, and a whole session of them, makes of the driver's lasting state and
 * of the physical TAP, over a port that may stop anywhere.
 */
module ChainSession {
  import opened Common
  import opened Bits
  import opened JtagWire
  import opened ChainBits
  import opened ChainVisit
  import opened ChainCount
  import opened ChainAnswers
  import opened ChainWrites
  import opened ChainReport
  import opened ChainTap
  import opened TapPaths
  import Tap

  /** What the driver keeps between transactions. */
  datatype Lasting = Lasting(state: nat, selected: nat, lastSingle: Option<SingleIR>, taps: seq<nat>)

  /** The five ones that reset a TAP in any state, when the state is not known. */
  function Lead(state: nat): seq<JtagAct> {
    if state == Tap.UNKNOWN then [PutTMS(Ones(5))] else []
  }

  function Known(state: nat): nat {
    if state == Tap.UNKNOWN then Tap.TEST_LOGIC_RESET else state
  }

  function StartOf(l: Lasting): View {
    View(Known(l.state), l.selected, l.lastSingle, [], Idle, None)
  }

  /** What a transaction calls for. */
  function RunOf(table: seq<seq<Entry>>, l: Lasting, acts: seq<ChainAct>): Outcome {
    Translate(Env(table, l.taps, acts), StartOf(l), 0)
  }

  /** The raw actions handed over to the port; nothing is, unless the whole transaction was accepted. */
  function PlanOf(table: seq<seq<Entry>>, l: Lasting, acts: seq<ChainAct>): seq<JtagAct> {
    if RunOf(table, l, acts).Went? then Lead(l.state) + RunOf(table, l, acts).effect.acts else []
  }

  /** Where each shift is sent among them. */
  function PlacesOf(table: seq<seq<Entry>>, l: Lasting, acts: seq<ChainAct>): nat -> Option<Place> {
    (i: nat) => PlaceOf(Env(table, FinalTaps(l.taps, acts, 0), acts), StartOf(l), 0, |Lead(l.state)|, i)
  }

  /** Where each write is. */
  function WritePlaces(table: seq<seq<Entry>>, l: Lasting, acts: seq<ChainAct>): nat -> Option<Place> {
    (i: nat) => SentAt(Env(table, l.taps, acts), StartOf(l), 0, |Lead(l.state)|, i)
  }

  /** Every write is on the wire, its own value at its own TAP's place, but for instructions left out. */
  predicate AllOnWire(plan: seq<JtagAct>, acts: seq<ChainAct>, at: nat -> Option<Place>) {
    forall i: nat | i < |acts| && Writes(acts[i]) :: OnWire(plan, acts, at(i), i)
  }

  lemma WriteHeads(table: seq<seq<Entry>>, l: Lasting, acts: seq<ChainAct>, i: nat)
    requires RunOf(table, l, acts).Went? && i < |acts|
    ensures Heading(Env(table, l.taps, acts), StartOf(l), 0, Lead(l.state), PlanOf(table, l, acts), i,
                    WritePlaces(table, l, acts)(i)) == true
  {
  }

  lemma PlanOnWire(table: seq<seq<Entry>>, l: Lasting, acts: seq<ChainAct>)
    requires RunOf(table, l, acts).Went?
    ensures AllOnWire(PlanOf(table, l, acts), acts, WritePlaces(table, l, acts)) == true
  {
    var plan, at := PlanOf(table, l, acts), WritePlaces(table, l, acts);
    forall i: nat | i < |acts| && Writes(acts[i]) ensures OnWire(plan, acts, at(i), i) {
      WriteHeads(table, l, acts, i);
      TranslateCarries(Env(table, l.taps, acts), StartOf(l), 0, Lead(l.state), plan, i, at(i));
      CarriedOnWire(plan, acts, at(i), i);
    }
  }

  /** What the translator leaves of the chain's structure and selection, even where it refuses. */
  function StructureLeft(env: Env, v: View, i: nat, selected: nat): (seq<nat>, nat)
    requires i <= |env.acts|
    requires v.batch.Collecting? ==> v.batch.first <= i
    decreases |env.acts| - i
  {
    if i == |env.acts| || !Visit(env, v, i).Went? then (env.taps, selected)
    else
      var next := env.(taps := TapsAfter(env.taps, env.acts[i]));
      StructureLeft(next, Visit(env, v, i).effect.view, i + 1, if env.acts[i].Forget? then 0 else selected)
  }

  lemma {:induction false} StructureWent(env: Env, v: View, i: nat, selected: nat)
    requires i <= |env.acts| && (v.batch.Collecting? ==> v.batch.first <= i) && Translate(env, v, i).Went?
    ensures StructureLeft(env, v, i, selected).0 == FinalTaps(env.taps, env.acts, i)
    decreases |env.acts| - i
  {
    if i < |env.acts| {
      var next := env.(taps := TapsAfter(env.taps, env.acts[i]));
      StructureWent(next, Visit(env, v, i).effect.view, i + 1, if env.acts[i].Forget? then 0 else selected);
    }
  }

  /** A JTAG port: for any actions, results of the first of them. */
  ghost predicate IsPort(port: seq<JtagAct> -> seq<JtagResult>) {
    forall plan :: Completes(plan, port(plan))
  }

  /** A transaction, the port it meets, and where that port would leave the TAP if it stopped early. */
  datatype Tx = Tx(acts: seq<ChainAct>, port: seq<JtagAct> -> seq<JtagResult>, stray: Tap.TapState)

  /** The port completed all of it. */
  predicate Carried(table: seq<seq<Entry>>, l: Lasting, tx: Tx) {
    var plan := PlanOf(table, l, tx.acts);
    RunOf(table, l, tx.acts).Went? && |tx.port(plan)| == |plan|
  }

  /** And every TAP selected is still there at the end: exactly then the transaction goes through. */
  predicate Through(table: seq<seq<Entry>>, l: Lasting, tx: Tx) {
    Carried(table, l, tx) && SelectsFit(tx.acts, 0, |FinalTaps(l.taps, tx.acts, 0)|)
  }

  /** What the driver keeps after a transaction. */
  function LastingAfter(table: seq<seq<Entry>>, l: Lasting, tx: Tx): Lasting {
    var run := RunOf(table, l, tx.acts);
    if run.Went? then
      var state := if Through(table, l, tx) then run.effect.view.state else Tap.UNKNOWN;
      Lasting(state, run.effect.view.selected, run.effect.view.lastSingle, FinalTaps(l.taps, tx.acts, 0))
    else
      var left := StructureLeft(Env(table, l.taps, tx.acts), StartOf(l), 0, l.selected);
      l.(taps := left.0, selected := left.1)
  }

  /** Where the TAP is after it: untouched, clocked through the whole plan, or astray. */
  function TapAfter(table: seq<seq<Entry>>, l: Lasting, tx: Tx, tap: Tap.TapState): Tap.TapState {
    if !RunOf(table, l, tx.acts).Went? then tap
    else if Carried(table, l, tx) then Tap.Clock(tap, TmsStream(PlanOf(table, l, tx.acts)))
    else tx.stray
  }

  /** What a transaction reports done when `completed` raw actions were, the first `lead` of them not its own. */
  function Report(env: Env, v: View, lead: nat, completed: nat): nat
    requires v.batch.Idle?
  {
    if completed < lead then 0 else Reported(env, v, 0, 0, completed - lead)
  }

  /** What it reports done. */
  function DoneOf(table: seq<seq<Entry>>, l: Lasting, tx: Tx): nat {
    var plan := PlanOf(table, l, tx.acts);
    if !RunOf(table, l, tx.acts).Went? then 0
    else Report(Env(table, FinalTaps(l.taps, tx.acts, 0), tx.acts), StartOf(l), |Lead(l.state)|, |tx.port(plan)|)
  }

  /** When a transaction, all of whose selections fit the final chain, reports everything done. */
  lemma DoneExactly(table: seq<seq<Entry>>, l: Lasting, tx: Tx, env: Env, k: int)
    requires RunOf(table, l, tx.acts).Went? && WritesLast(tx.acts, 0) && tx.acts != []
    requires env == Env(table, FinalTaps(l.taps, tx.acts, 0), tx.acts) && SelectsFit(tx.acts, 0, |env.taps|)
    requires k == |tx.port(PlanOf(table, l, tx.acts))| - |Lead(l.state)|
    ensures DoneOf(table, l, tx) == |tx.acts| <==>
            k >= 0 && SeemsComplete(env, AtEnd(env, StartOf(l), 0).0, AtEnd(env, StartOf(l), 0).1, k)
  {
    SameRunExactly(Env(table, l.taps, tx.acts), StartOf(l), 0, env);
    if k >= 0 {
      ReportsAllExactly(env, StartOf(l), k);
    }
  }

  /** The driver, the TAP, and what has been reported done, transaction by transaction. */
  datatype World = World(chain: Lasting, tap: Tap.TapState, dones: seq<nat>)

  function AfterTx(table: seq<seq<Entry>>, w: World, tx: Tx): World {
    World(LastingAfter(table, w.chain, tx), TapAfter(table, w.chain, tx, w.tap), w.dones + [DoneOf(table, w.chain, tx)])
  }

  /** A session ends early only at a failed assertion. */
  function AfterAll(table: seq<seq<Entry>>, w: World, txs: seq<Tx>): World
    decreases |txs|
  {
    if txs == [] then w
    else if RunOf(table, w.chain, txs[0].acts).Asserted? then AfterTx(table, w, txs[0])
    else AfterAll(table, AfterTx(table, w, txs[0]), txs[1..])
  }

  // ---------------------------------------------------------------- the TAP and the record of it

  /** The recorded state is Unknown or the physical one. */
  predicate InStep(state: nat, tap: Tap.TapState) {
    state == Tap.UNKNOWN || (state < Tap.UNKNOWN && Tap.Meaning(state) == tap)
  }

  lemma LeadAgrees(tap: Tap.TapState, state: nat, v: View)
    requires InStep(state, tap) && v.state == Known(state) && v.tms == []
    ensures Agrees(tap, Lead(state), v) == true
  {
    if state == Tap.UNKNOWN {
      TmsStreamOne(PutTMS(Ones(5)));
      Tap.FiveOnesReset(tap);
      assert Ones(5) == [true, true, true, true, true];
      assert Ones(5) + [] == Ones(5);
    }
  }

  /** After a whole plan, the state recorded for it is the one the TAP is in. */
  lemma PlanInStep(tap: Tap.TapState, state: nat, env: Env, v: View, all: Outcome)
    requires LeadsEverywhere(env.table) && NonEmpty(env) && InStep(state, tap)
    requires v.state == Known(state) && v.tms == [] && v.batch.Idle?
    requires all == Translate(env, v, 0) && all.Went?
    ensures all.effect.view.state < Tap.UNKNOWN
    ensures Tap.Meaning(all.effect.view.state) == Tap.Clock(tap, TmsStream(Lead(state) + all.effect.acts))
  {
    LeadAgrees(tap, state, v);
    TranslateAgrees(tap, Lead(state), env, v, 0, all.effect);
    var s := TmsStream(Lead(state) + all.effect.acts);
    assert s + [] == s;
  }

  /** With no empty shifts, instructions are sent in Shift-IR and data in Shift-DR. */
  lemma SentInShift(w: World, table: seq<seq<Entry>>, acts: seq<ChainAct>, i: nat)
    requires LeadsEverywhere(table) && NonEmptyActs(acts) && Sound(w) && RunOf(table, w.chain, acts).Went?
    requires i < |acts| && Writes(acts[i])
    ensures InShift(w.tap, PlanOf(table, w.chain, acts), acts[i], WritePlaces(table, w.chain, acts)(i))
  {
    var l := w.chain;
    WriteHeads(table, l, acts, i);
    LeadAgrees(w.tap, l.state, StartOf(l));
    TranslateShifts(w.tap, Env(table, l.taps, acts), StartOf(l), 0, Lead(l.state), PlanOf(table, l, acts), i,
                    WritePlaces(table, l, acts)(i));
  }

  lemma {:induction false} StructureNonEmpty(env: Env, v: View, i: nat, selected: nat)
    requires i <= |env.acts| && (v.batch.Collecting? ==> v.batch.first <= i) && NonEmpty(env) == true
    ensures NonEmptyTaps(StructureLeft(env, v, i, selected).0)
    decreases |env.acts| - i
  {
    if i < |env.acts| && Visit(env, v, i).Went? {
      NonEmptyAfter(env, i);
      var next := env.(taps := TapsAfter(env.taps, env.acts[i]));
      StructureNonEmpty(next, Visit(env, v, i).effect.view, i + 1, if env.acts[i].Forget? then 0 else selected);
    }
  }

  predicate NonEmptyActs(acts: seq<ChainAct>) {
    forall i | 0 <= i < |acts| :: NonEmptyAct(acts[i])
  }

  /** The record agrees with the TAP and no register is empty. */
  predicate Sound(w: World) { InStep(w.chain.state, w.tap) && NonEmptyTaps(w.chain.taps) }

  /**
   * Every transaction with non-empty shifts keeps the record in step; one that goes through makes
   * the state known.
   */
  lemma TxKeeps(table: seq<seq<Entry>>, w: World, tx: Tx)
    requires LeadsEverywhere(table) && NonEmptyActs(tx.acts) && Sound(w)
    ensures Sound(AfterTx(table, w, tx))
    ensures Through(table, w.chain, tx) ==> AfterTx(table, w, tx).chain.state < Tap.UNKNOWN
  {
    var env, v := Env(table, w.chain.taps, tx.acts), StartOf(w.chain);
    StructureNonEmpty(env, v, 0, w.chain.selected);
    if RunOf(table, w.chain, tx.acts).Went? {
      StructureWent(env, v, 0, w.chain.selected);
      PlanInStep(w.tap, w.chain.state, env, v, RunOf(table, w.chain, tx.acts));
    }
  }

  /**
   * Any session of transactions with non-empty shifts, over ports that may stop at any point of
   * any of them, from any TAP state: the recorded state is Unknown or the physical one.
   */
  lemma {:induction false} EverySession(table: seq<seq<Entry>>, w: World, txs: seq<Tx>)
    requires LeadsEverywhere(table) && Sound(w) && forall k | 0 <= k < |txs| :: NonEmptyActs(txs[k].acts)
    ensures Sound(AfterAll(table, w, txs))
    decreases |txs|
  {
    if txs != [] {
      TxKeeps(table, w, txs[0]);
      EverySession(table, AfterTx(table, w, txs[0]), txs[1..]);
    }
  }
}
