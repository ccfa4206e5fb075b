/**
 * The other side of the DMI driver: one RISC-V debug transport module behind a JTAG
 * chain, after sections 6.1.4 (dtmcs) and 6.1.5 (dmi) of the RISC-V External Debug
 * Support specification, version 0.13.2. When each access completes, what it returns
 * and whether it fails are arbitrary functions, and so is the point at which each JTAG
 * transaction breaks off. A scan for another TAP or of another length does not reach it.
 */
module DmiTarget {
  import opened Common
  import opened Num

  type word = x: nat | x < 0x1_0000_0000

  datatype Access = Read(address: nat) | Write(address: nat, data: word)

  const DMI_OP_READ: nat := 1
  const DMI_OP_WRITE: nat := 2

  const DMI_OK: nat := 0
  const DMI_FAIL: nat := 2
  const DMI_BUSY: nat := 3

  /** dmireset and dtmhardreset of dtmcs: bits 16 and 17. */
  const DMIRESET: nat := 0x1_0000
  const DTMHARDRESET: nat := 0x2_0000

  const DTMCS_IR: nat := 0x10
  const DMI_IR: nat := 0x11
  const BYPASS_IR: nat := 0x1F

  /** What is shifted through a data register: the fields of dmi, or another register as a word. */
  datatype Reg = DmiReg(op: nat, data: word, address: nat) | Word(bits: word)

  /** The chain actions the driver uses. */
  datatype ChainOp =
    | SelectTAP(tap: nat)
    | WriteIR(ir: nat)
    | WriteDR(value: Reg, size: nat)
    | ShiftDR(value: Reg, size: nat)
    | GoToIdle(cycles: nat)
    | GoToUpdate

  /** The behaviour of one target, fixed for a run but otherwise unconstrained. */
  datatype Target = Target(
    // the TAP it is behind
    tap: nat,
    // whether the last access of a history has completed, so many cycles in Run-Test/Idle after it
    // started and when asked for the k-th time
    finishes: (seq<Access>, nat, nat) -> bool,
    // what the last access of a history returns, and whether it fails
    result: seq<Access> -> word,
    fails: seq<Access> -> bool,
    // the value read from dtmcs
    dtmcs: word,
    // how many chain actions the n-th JTAG transaction completes before it breaks off
    completes: nat -> nat)
  {
    function Abits(): nat { AbitsOf(dtmcs) }

    /** The length of dmi: op, data and address. */
    function DmiSize(): nat { 34 + Abits() }
  }

  /** The fields of dtmcs. */
  function VersionOf(dtmcs: word): nat { dtmcs % 16 }
  function AbitsOf(dtmcs: word): nat { (dtmcs / 16) % 64 }
  function IdleOf(dtmcs: word): nat { (dtmcs / 0x1000) % 8 }
  function ErrinfoOf(dtmcs: word): nat { (dtmcs / 0x4_0000) % 8 }

  /**
   * They stand where the specification puts them: version at bit 0, abits at 4, dmistat at 10, idle
   * at 12, the resets at 15 to 17, errinfo at 18.
   */
  lemma DtmcsFields(version: nat, abits: nat, dmistat: nat, idle: nat, resets: nat, errinfo: nat, rest: nat, dtmcs: word)
    requires version < 16 && abits < 64 && dmistat < 4 && idle < 8 && resets < 8 && errinfo < 8
    requires dtmcs == version + 16 * abits + 0x400 * dmistat + 0x1000 * idle + 0x8000 * resets + 0x4_0000 * errinfo + 0x20_0000 * rest
    ensures VersionOf(dtmcs) == version && AbitsOf(dtmcs) == abits && IdleOf(dtmcs) == idle && ErrinfoOf(dtmcs) == errinfo
  {
    var above18 := errinfo + 8 * rest;
    var above15 := resets + 8 * above18;
    var above12 := idle + 8 * above15;
    var above10 := dmistat + 4 * above12;
    var above4 := abits + 64 * above10;
    assert dtmcs == version + 16 * above4;
    assert dtmcs / 16 == above4;
    assert dtmcs == (version + 16 * abits + 1024 * dmistat) + 4096 * above12;
    assert dtmcs / 0x1000 == above12;
    assert dtmcs == (version + 16 * abits + 1024 * dmistat + 4096 * idle + 0x8000 * resets) + 0x4_0000 * above18;
    assert dtmcs / 0x4_0000 == above18;
  }

  /** What discovery asks of dtmcs. */
  predicate Supported(dtmcs: word) {
    VersionOf(dtmcs) != 0 && ErrinfoOf(dtmcs) == 0 && AbitsOf(dtmcs) <= 30
  }

  datatype Sticky = Clear | Failed | Busy

  /** Of the last access: nothing to report, still running, or completed but not yet captured. */
  datatype Progress = Reported | Running | Completed

  datatype Dev = Dev(
    performed: seq<Access>,
    progress: Progress,
    sticky: Sticky,
    ir: nat,
    // whether its TAP is the one selected
    selected: bool,
    // shifted in, not yet clocked through Update-DR
    latched: Option<Reg>,
    // cycles spent in Run-Test/Idle since the last access started, and how often it has been asked for
    idled: nat,
    asked: nat,
    // all cycles spent in Run-Test/Idle
    spent: nat)

  /** The dmi register as the 64-bit word that is shifted: op, data and address from bit 0 up. */
  function Pack(r: Reg): nat
    requires r.DmiReg?
  {
    r.op + 4 * r.data + 0x4_0000_0000 * r.address
  }

  /** The fields of a dmi register of the given address width, from the bits shifted into it. */
  function Unpack(v: nat, abits: nat): Reg {
    DmiReg(v % 4, (v / 4) % 0x1_0000_0000, (v / 0x4_0000_0000) % Pow2(abits))
  }

  /** Shifting a register through abits + 34 bits keeps its fields exactly when the address fits. */
  lemma PackRoundTrip(r: Reg, abits: nat)
    requires r.DmiReg? && r.op < 4
    ensures Unpack(Pack(r), abits) == r <==> r.address < Pow2(abits)
    ensures Unpack(Pack(r), abits) == r.(address := r.address % Pow2(abits))
  {
    var v := Pack(r);
    assert v == r.op + 4 * (r.data + 0x1_0000_0000 * r.address);
    assert v / 4 == r.data + 0x1_0000_0000 * r.address;
    assert v == (r.op + 4 * r.data) + 0x4_0000_0000 * r.address;
    assert v / 0x4_0000_0000 == r.address;
    AddressModulo(r.address, Pow2(abits));
  }

  lemma AddressModulo(address: nat, n: nat)
    requires n > 0
    ensures address % n == address <==> address < n
  {
  }

  function Request(a: Access): Reg {
    match a
    case Read(address) => DmiReg(DMI_OP_READ, 0, address)
    case Write(address, data) => DmiReg(DMI_OP_WRITE, data, address)
  }

  const NO_REQUEST := DmiReg(0, 0, 0)

  /** The op and data fields of whatever a scan of dmi shifted out. */
  function StatusOf(r: Reg): nat {
    if r.DmiReg? then r.op else r.bits % 4
  }

  function DataOf(r: Reg): word {
    if r.DmiReg? then r.data else r.bits / 4
  }

  /** The address bits that reach a target with abits of them. */
  function Truncated(address: nat, abits: nat): nat {
    if address < Pow2(abits) then address else address % Pow2(abits)
  }

  function DecodeRequest(r: Reg, abits: nat): Option<Access> {
    if !r.DmiReg? then None
    else if r.op == DMI_OP_READ then Some(Read(Truncated(r.address, abits)))
    else if r.op == DMI_OP_WRITE then Some(Write(Truncated(r.address, abits), r.data))
    else None
  }

  /** Update-DR: acts on the latched value as the selected register prescribes. */
  function Update(t: Target, d: Dev): Dev {
    if d.latched.None? then d
    else
      var v := d.latched.value;
      var d' := d.(latched := None);
      if d.ir == DMI_IR then
        var a := DecodeRequest(v, t.Abits());
        if d.sticky.Clear? && a.Some?
        then d'.(performed := d.performed + [a.value], progress := Running, idled := 0, asked := 0)
        else d'
      else if d.ir == DTMCS_IR then
        if !v.Word? then d'
        else
          var d1 := if (v.bits / DMIRESET) % 2 == 1 then d'.(sticky := Clear) else d';
          if (v.bits / DTMHARDRESET) % 2 == 1 then d1.(sticky := Clear, progress := Reported) else d1
      else d'
  }

  /** Capture-DR of dmi: the answer to the last access, or the error that is sticky. */
  function CaptureDmi(t: Target, d: Dev): (Dev, Reg) {
    var done := d.progress.Completed? || (d.progress.Running? && t.finishes(d.performed, d.idled, d.asked));
    var next := d.(asked := d.asked + 1);
    if !d.sticky.Clear? then
      (next.(progress := if d.progress.Running? && done then Completed else d.progress),
       DmiReg(if d.sticky.Busy? then DMI_BUSY else DMI_FAIL, 0, 0))
    else if d.progress.Running? && !done then
      (next.(sticky := Busy), DmiReg(DMI_BUSY, 0, 0))
    else if done && t.fails(d.performed) then
      (next.(progress := Reported, sticky := Failed), DmiReg(DMI_FAIL, 0, 0))
    else
      (next.(progress := Reported), DmiReg(DMI_OK, t.result(d.performed), 0))
  }

  /** Capture-DR of the selected register: what it shifts out, and what that does to the target. */
  function Capture(t: Target, d: Dev): (Dev, Reg) {
    if d.ir == DMI_IR then CaptureDmi(t, d)
    else if d.ir == DTMCS_IR then (d, Word(t.dtmcs))
    else (d, Word(0))
  }

  /** A scan reaches the selected register if it is meant for its TAP and has its length. */
  predicate Reaches(t: Target, d: Dev, size: nat) {
    && d.selected
    && (d.ir == DMI_IR ==> size == t.DmiSize())
    && (d.ir == DTMCS_IR ==> size == 32)
  }

  /** A scan of a data register. */
  function ScanDR(t: Target, d: Dev, v: Reg, size: nat): (Dev, Reg) {
    if !Reaches(t, d, size) then (Update(t, d), Word(0))
    else
      var (d1, out) := Capture(t, Update(t, d));
      (d1.(latched := Some(v)), out)
  }

  /** One completed chain action, and the bits it shifted out if it reads any. */
  function StepOp(t: Target, d: Dev, op: ChainOp): (Dev, Option<Reg>) {
    match op
    case SelectTAP(tap) => (d.(selected := tap == t.tap), None)
    case WriteIR(ir) => (Update(t, d).(ir := if d.selected then ir else BYPASS_IR), None)
    case WriteDR(v, size) => (ScanDR(t, d, v, size).0, None)
    case ShiftDR(v, size) => (ScanDR(t, d, v, size).0, Some(ScanDR(t, d, v, size).1))
    case GoToIdle(cycles) =>
      var d1 := Update(t, d);
      (d1.(idled := d1.idled + cycles, spent := d1.spent + cycles), None)
    case GoToUpdate => (Update(t, d), None)
  }

  /** The target after the first m of a sequence of actions, and what they shift out. */
  function RunOps(t: Target, d: Dev, ops: seq<ChainOp>, m: nat): (Dev, seq<Option<Reg>>)
    decreases |ops|
  {
    if m == 0 || ops == [] then (d, [])
    else
      var (d1, out) := StepOp(t, d, ops[0]);
      var (d2, outs) := RunOps(t, d1, ops[1..], m - 1);
      (d2, [out] + outs)
  }

  lemma RunStep(t: Target, d: Dev, op: ChainOp, rest: seq<ChainOp>, m: nat)
    requires m > 0
    ensures var (d1, out) := StepOp(t, d, op);
            var (d2, outs) := RunOps(t, d1, rest, m - 1);
            RunOps(t, d, [op] + rest, m) == (d2, [out] + outs)
  {
    assert ([op] + rest)[1..] == rest;
  }

  lemma {:induction false} RunLength(t: Target, d: Dev, ops: seq<ChainOp>, m: nat)
    ensures |RunOps(t, d, ops, m).1| == Min(m, |ops|)
    decreases |ops|
  {
    if m != 0 && ops != [] {
      RunLength(t, StepOp(t, d, ops[0]).0, ops[1..], m - 1);
    }
  }

  lemma {:induction false} RunConcat(t: Target, d: Dev, a: seq<ChainOp>, b: seq<ChainOp>, m: nat)
    requires m >= |a|
    ensures var (d1, o1) := RunOps(t, d, a, |a|);
            var (d2, o2) := RunOps(t, d1, b, m - |a|);
            RunOps(t, d, a + b, m) == (d2, o1 + o2)
    decreases |a|
  {
    if a == [] {
      assert a + b == b;
      var o2 := RunOps(t, d, b, m).1;
      assert [] + o2 == o2;
    } else {
      RunConcat(t, StepOp(t, d, a[0]).0, a[1..], b, m - 1);
      assert (a + b)[1..] == a[1..] + b;
      var (d1, o1) := RunOps(t, d, a, |a|);
      var (d1', o1') := RunOps(t, StepOp(t, d, a[0]).0, a[1..], |a| - 1);
      var (d2, o2) := RunOps(t, d1, b, m - |a|);
      assert [StepOp(t, d, a[0]).1] + (o1' + o2) == o1 + o2;
    }
  }

  lemma {:induction false} RunPrefix(t: Target, d: Dev, a: seq<ChainOp>, b: seq<ChainOp>, m: nat)
    requires m <= |a|
    ensures RunOps(t, d, a + b, m) == RunOps(t, d, a, m)
    decreases |a|
  {
    if m != 0 {
      RunPrefix(t, StepOp(t, d, a[0]).0, a[1..], b, m - 1);
      assert (a + b)[1..] == a[1..] + b;
    }
  }

  predicate IsDmiTraffic(op: ChainOp) {
    op.ShiftDR? || op.GoToIdle? || op.GoToUpdate?
  }

  /** While an error is sticky, scans of dmi start nothing and do not clear it. */
  lemma {:induction false} StickyIgnoresScans(t: Target, d: Dev, ops: seq<ChainOp>, m: nat)
    requires !d.sticky.Clear? && d.ir == DMI_IR
    requires forall k :: 0 <= k < |ops| ==> IsDmiTraffic(ops[k])
    ensures var e := RunOps(t, d, ops, m).0;
            && e.performed == d.performed && e.sticky == d.sticky && e.ir == DMI_IR && e.asked >= d.asked
            && (e.progress == d.progress || (d.progress.Running? && e.progress.Completed?))
    decreases |ops|
  {
    if m != 0 && ops != [] {
      assert IsDmiTraffic(ops[0]);
      StickyIgnoresScans(t, StepOp(t, d, ops[0]).0, ops[1..], m - 1);
    }
  }

  // ---- Cycles spent waiting ----

  function Rest(op: ChainOp): nat {
    if op.GoToIdle? then op.cycles else 0
  }

  /** The cycles in Run-Test/Idle that the first m of a sequence of actions ask for. */
  function Rests(ops: seq<ChainOp>, m: nat): nat
    decreases |ops|
  {
    if m == 0 || ops == [] then 0 else Rest(ops[0]) + Rests(ops[1..], m - 1)
  }

  lemma {:induction false} RestsSpent(t: Target, d: Dev, ops: seq<ChainOp>, m: nat)
    ensures RunOps(t, d, ops, m).0.spent == d.spent + Rests(ops, m)
    decreases |ops|
  {
    if m != 0 && ops != [] {
      RestsSpent(t, StepOp(t, d, ops[0]).0, ops[1..], m - 1);
    }
  }
}
