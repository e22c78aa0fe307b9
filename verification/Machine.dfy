/**
 * The out-of-order engine of sw/src/engine.c as a function on its state: one cycle is commit,
 * write-back, execute, issue and dispatch, in that order.
 */
module Machine {
  import opened Base
  import opened InOrder
  import opened ReorderBuffer
  import opened RegisterFile

  datatype ExbEntry = ExbEntry(f10: nat, vj: int32, vk: int32, qj: nat, qk: nat, qr: nat,
                               rj: bool, rk: bool, dirty: bool, busy: bool)

  datatype Unit = Unit(result: int32, qr: nat, cycleLeft: nat, busy: bool)

  datatype Lane = Lane(qr: nat, result: int32, valid: bool)

  datatype State = State(rob: Ring, reg: Regs, exb: seq<ExbEntry>, exu: seq<Unit>, cdb: seq<Lane>)

  datatype Config = Config(exbSize: nat, robSize: nat, nbUnits: nat, nbLanes: nat,
                           alu: AluOp, cycles: nat -> nat)

  /**
   * The points where the written code leaves its intent. All false is the code as written.
   * - tagClear: a commit clears the dirty flag only for the slot the register awaits (reg.c:68-69)
   * - kToVk: the K operand read from the reorder buffer goes to `vk`, not `vj` (engine.c:249)
   * - capLanes: no more results leave the units than there are lanes (engine.c:392)
   */
  datatype Repairs = Repairs(tagClear: bool, kToVk: bool, capLanes: bool)

  const AS_WRITTEN := Repairs(false, false, false)

  const MAX_LATENCY := 19

  /** What the engine asks of its parameters: slots fit a `uint8_t`, something can execute and report. */
  ghost predicate ConfigOk(c: Config) {
    && 0 < c.robSize <= 256
    && 0 < c.nbUnits
    && 0 < c.nbLanes
    && forall f :: c.cycles(f) <= MAX_LATENCY
  }

  predicate Shape(c: Config, s: State) {
    && RingOk(s.rob) && |s.rob.data| == c.robSize
    && RegsOk(s.reg, NREGS)
    && |s.exb| == c.exbSize
    && |s.exu| == c.nbUnits
    && |s.cdb| == c.nbLanes
  }

  // ---------------------------------------------------------------------------
  // commit
  // ---------------------------------------------------------------------------

  /** Hands a committed value to the first operand, from entry `i` on, that waits for it. */
  function CommitForward(exb: seq<ExbEntry>, tag: nat, value: int32, i: nat): (r: seq<ExbEntry>)
    requires i <= |exb|
    ensures |r| == |exb|
    decreases |exb| - i
  {
    if i == |exb| then exb
    else if exb[i].busy && !exb[i].rj && exb[i].qj == tag then exb[i := exb[i].(vj := value, rj := true)]
    else if exb[i].busy && !exb[i].rk && exb[i].qk == tag then exb[i := exb[i].(vk := value, rk := true)]
    else CommitForward(exb, tag, value, i + 1)
  }

  function Commit(fix: Repairs, s: State): State
    requires RingOk(s.rob) && RegsOk(s.reg, NREGS)
  {
    if !HeadDone(s.rob) then s else
    var e := s.rob.data[s.rob.commitPtr];
    var tag := Tag(s.rob.commitPtr);
    s.(rob := Pop(s.rob),
       reg := WriteData(fix.tagClear, s.reg, e.dest, e.data, tag),
       exb := CommitForward(s.exb, tag, e.data, 0))
  }

  // ---------------------------------------------------------------------------
  // write_back
  // ---------------------------------------------------------------------------

  predicate UnitDone(u: Unit) { u.busy && u.cycleLeft == 0 }

  function DrainLane(s: State, l: nat): State
    requires l < |s.cdb|
  {
    if !s.cdb[l].valid then s else
    s.(rob := Write(s.rob, s.cdb[l].qr, s.cdb[l].result), cdb := s.cdb[l := s.cdb[l].(valid := false)])
  }

  /** The first `k` lanes reach the reorder buffer. */
  function DrainLanes(s: State, k: nat): (r: State)
    requires k <= |s.cdb|
    ensures |r.cdb| == |s.cdb| && |r.rob.data| == |s.rob.data|
    ensures r.reg == s.reg && r.exb == s.exb && r.exu == s.exu
    ensures r.rob == s.rob.(data := r.rob.data)
    ensures forall l | 0 <= l < |s.cdb| ::
              r.cdb[l] == if l < k then s.cdb[l].(valid := false) else s.cdb[l]
  {
    if k == 0 then s else DrainLane(DrainLanes(s, k - 1), k - 1)
  }

  lemma {:induction false} QuietDrain(s: State, k: nat)
    requires k <= |s.cdb| && forall l | 0 <= l < |s.cdb| :: !s.cdb[l].valid
    ensures DrainLanes(s, k) == s
  {
    if k != 0 {
      QuietDrain(s, k - 1);
    }
  }

  /** The first `k` lanes reach `rob_write` as it stands; `None` once it leaves the array. */
  function TryDrain(s: State, k: nat): (r: Option<State>)
    requires k <= |s.cdb|
    ensures r.Some? ==> |r.value.cdb| == |s.cdb|
  {
    if k == 0 then Some(s) else
    match TryDrain(s, k - 1)
    case None => None
    case Some(t) =>
      if t.cdb[k - 1].valid && AccessOf(t.rob, t.cdb[k - 1].qr).Outside? then None else Some(DrainLane(t, k - 1))
  }

  /** No valid lane carries the one tag that `rob_write` takes past the array. */
  predicate LaneTagsOk(s: State) { forall l | 0 <= l < |s.cdb| && s.cdb[l].valid :: s.cdb[l].qr != |s.rob.data| }

  /** The loop stays inside the ring exactly when none of its lanes carries that tag. */
  lemma {:induction false} TryDrainExact(s: State, k: nat)
    requires k <= |s.cdb|
    ensures TryDrain(s, k).Some? <==> forall l | 0 <= l < k && s.cdb[l].valid :: s.cdb[l].qr != |s.rob.data|
    ensures TryDrain(s, k).Some? ==> TryDrain(s, k).value == DrainLanes(s, k)
  {
    if k != 0 {
      TryDrainExact(s, k - 1);
    }
  }

  function MoveResult(s: State, u: nat, l: nat): State
    requires u < |s.exu| && l < |s.cdb|
  {
    s.(cdb := s.cdb[l := Lane(s.exu[u].qr, s.exu[u].result, true)],
       exu := s.exu[u := s.exu[u].(busy := false)])
  }

  /** The first `k` finished units put their results on the lanes of the same index. */
  function MoveResults(s: State, done: seq<nat>, k: nat): (r: State)
    requires k <= |done| && k <= |s.cdb|
    requires forall j | 0 <= j < |done| :: done[j] < |s.exu|
    ensures |r.cdb| == |s.cdb| && |r.exu| == |s.exu|
    ensures r.reg == s.reg && r.exb == s.exb && r.rob == s.rob
  {
    if k == 0 then s else MoveResult(MoveResults(s, done, k - 1), done[k - 1], k - 1)
  }

  /** The first valid lane, from `l` on, that carries the result of slot `q`. */
  function Lookup(cdb: seq<Lane>, q: nat, l: nat): (r: Option<int32>)
    requires l <= |cdb|
    ensures r.Some? ==> exists j | l <= j < |cdb| :: cdb[j].valid && cdb[j].qr == q && cdb[j].result == r.value
    ensures r.None? ==> forall j | l <= j < |cdb| :: !(cdb[j].valid && cdb[j].qr == q)
    decreases |cdb| - l
  {
    if l == |cdb| then None
    else if cdb[l].valid && cdb[l].qr == q then Some(cdb[l].result)
    else Lookup(cdb, q, l + 1)
  }

  function ForwardJ(e: ExbEntry, cdb: seq<Lane>): ExbEntry {
    if e.rj then e else
    match Lookup(cdb, e.qj, 0)
    case Some(v) => e.(vj := v, rj := true)
    case None => e
  }

  function ForwardK(e: ExbEntry, cdb: seq<Lane>): ExbEntry {
    if e.rk then e else
    match Lookup(cdb, e.qk, 0)
    case Some(v) => e.(vk := v, rk := true)
    case None => e
  }

  function Forward(e: ExbEntry, cdb: seq<Lane>): ExbEntry {
    if e.busy then ForwardK(ForwardJ(e, cdb), cdb) else e
  }

  function ForwardAll(s: State): State {
    s.(exb := seq(|s.exb|, i requires 0 <= i < |s.exb| => Forward(s.exb[i], s.cdb)))
  }

  function DoneUnits(exu: seq<Unit>): seq<nat> { Indices(exu, UnitDone, |exu|) }

  /** How many finished units the last loop serves. */
  function NbMoves(fix: Repairs, s: State): nat {
    if fix.capLanes && |DoneUnits(s.exu)| > |s.cdb| then |s.cdb| else |DoneUnits(s.exu)|
  }

  /** Whether that loop stays inside the lanes. */
  predicate LanesSuffice(fix: Repairs, s: State) { NbMoves(fix, s) <= |s.cdb| }

  function WriteBack(fix: Repairs, s: State): State
    requires LanesSuffice(fix, s)
  {
    ForwardAll(MoveResults(DrainLanes(s, |s.cdb|), DoneUnits(s.exu), NbMoves(fix, s)))
  }

  // ---------------------------------------------------------------------------
  // execute
  // ---------------------------------------------------------------------------

  function Tick(u: Unit): Unit {
    if u.busy && u.cycleLeft != 0 then u.(cycleLeft := u.cycleLeft - 1) else u
  }

  function Execute(s: State): State {
    s.(exu := seq(|s.exu|, u requires 0 <= u < |s.exu| => Tick(s.exu[u])))
  }

  // ---------------------------------------------------------------------------
  // issue
  // ---------------------------------------------------------------------------

  predicate EntryReady(e: ExbEntry) { e.busy && e.rj && e.rk }

  predicate UnitFree(u: Unit) { !u.busy }

  function ReadyEntries(exb: seq<ExbEntry>): seq<nat> { Indices(exb, EntryReady, |exb|) }

  function FreeUnits(exu: seq<Unit>): seq<nat> { Indices(exu, UnitFree, |exu|) }

  function IssueOne(c: Config, s: State, u: nat, i: nat): State
    requires u < |s.exu| && i < |s.exb|
  {
    var e := s.exb[i];
    s.(exu := s.exu[u := Unit(c.alu(e.f10, e.vj, e.vk), e.qr, c.cycles(e.f10), true)],
       exb := s.exb[i := e.(busy := false)])
  }

  /** The first `k` ready entries go to the first `k` free units. */
  function IssueMany(c: Config, s: State, units: seq<nat>, entries: seq<nat>, k: nat): (r: State)
    requires k <= |units| && k <= |entries|
    requires forall j | 0 <= j < |units| :: units[j] < |s.exu|
    requires forall j | 0 <= j < |entries| :: entries[j] < |s.exb|
    ensures |r.exu| == |s.exu| && |r.exb| == |s.exb|
    ensures r.reg == s.reg && r.cdb == s.cdb && r.rob == s.rob
  {
    if k == 0 then s else
    IssueOne(c, IssueMany(c, s, units, entries, k - 1), units[k - 1], entries[k - 1])
  }

  function NbIssue(s: State): nat {
    if |ReadyEntries(s.exb)| > |FreeUnits(s.exu)| then |FreeUnits(s.exu)| else |ReadyEntries(s.exb)|
  }

  function IssueReady(c: Config, s: State): State {
    IssueMany(c, s, FreeUnits(s.exu), ReadyEntries(s.exb), NbIssue(s))
  }

  // ---------------------------------------------------------------------------
  // dispatch
  // ---------------------------------------------------------------------------

  /** An operand as dispatch finds it. */
  datatype Operand = Operand(ready: bool, v: int32, q: nat)

  /** Where dispatch looked. */
  predicate FromRob(s: State, r: RegNo)
    requires RegsOk(s.reg, NREGS)
  {
    s.reg.d[r] && Lookup(s.cdb, s.reg.s[r], 0).None?
  }

  /** Register file, then lanes, then reorder buffer; `junk` stands for a variable nothing has set. */
  function ReadOperand(s: State, r: RegNo, junk: int32): Operand
    requires RegsOk(s.reg, NREGS)
  {
    var q := s.reg.s[r];
    if !s.reg.d[r] then Operand(true, s.reg.x[r], q) else
    match Lookup(s.cdb, q, 0)
    case Some(v) => Operand(true, v, q)
    case None =>
      if q < |s.rob.data| then Operand(s.rob.data[q].done, s.rob.data[q].data, q) else Operand(false, junk, q)
  }

  function NewEntry(fix: Repairs, s: State, i: Instr, qr: nat, junk: int32): ExbEntry
    requires RegsOk(s.reg, NREGS)
  {
    var j := ReadOperand(s, i.rs1, junk);
    match i.src2
    case Imm(v) => ExbEntry(i.f10, j.v, v, j.q, 0, qr, j.ready, true, false, true)
    case Reg(r) =>
      var k := ReadOperand(s, r, if !fix.kToVk && FromRob(s, r) then j.v else junk);
      if !fix.kToVk && FromRob(s, r) then
        ExbEntry(i.f10, k.v, junk, j.q, k.q, qr, j.ready, k.ready, false, true)
      else
        ExbEntry(i.f10, j.v, k.v, j.q, k.q, qr, j.ready, k.ready, false, true)
  }

  /** The first free entry from `i` on, or the size of the buffer. */
  function FirstFree(exb: seq<ExbEntry>, i: nat): (k: nat)
    requires i <= |exb|
    ensures i <= k <= |exb|
    ensures forall j | i <= j < k :: exb[j].busy
    ensures k < |exb| ==> !exb[k].busy
    decreases |exb| - i
  {
    if i == |exb| || !exb[i].busy then i else FirstFree(exb, i + 1)
  }

  /** With no entry free the instruction is lost. */
  function PlaceEntry(exb: seq<ExbEntry>, e: ExbEntry): seq<ExbEntry> {
    var k := FirstFree(exb, 0);
    if k < |exb| then exb[k := e] else exb
  }

  /** `None` is the all-zero word, which dispatch refuses, as it refuses everything when the ring is full. */
  predicate Accepts(s: State, inst: Option<Instr>) { inst.Some? && !Full(s.rob) }

  function Dispatch(fix: Repairs, s: State, inst: Option<Instr>, junk: int32): State
    requires RingOk(s.rob) && RegsOk(s.reg, NREGS)
  {
    if !Accepts(s, inst) then s else
    var i := inst.value;
    var qr := Tag(s.rob.issuePtr);
    var s1 := s.(rob := Issue(s.rob, i.rd));
    s1.(reg := WriteSource(s.reg, i.rd, qr),
        exb := PlaceEntry(s.exb, NewEntry(fix, s1, i, qr, junk)))
  }

  // ---------------------------------------------------------------------------
  // One cycle
  // ---------------------------------------------------------------------------

  /** Every phase keeps the sizes of the buffers. */
  lemma PhasesKeepShape(c: Config, fix: Repairs, s: State)
    requires Shape(c, s)
    ensures Shape(c, Commit(fix, s))
    ensures Shape(c, DrainLanes(s, |s.cdb|))
    ensures LanesSuffice(fix, s) ==> Shape(c, WriteBack(fix, s))
    ensures Shape(c, Execute(s)) && Shape(c, IssueReady(c, s))
  {
    hide CommitForward, DrainLanes, MoveResults, Forward, IssueMany, Indices;
    PopRemovesFirst(s.rob);
  }

  lemma DispatchKeepsShape(c: Config, fix: Repairs, s: State, inst: Option<Instr>, junk: int32)
    requires Shape(c, s)
    ensures Shape(c, Dispatch(fix, s, inst, junk))
  {
  }

  predicate CycleDefined(fix: Repairs, s: State)
    requires RingOk(s.rob) && RegsOk(s.reg, NREGS)
  {
    LanesSuffice(fix, Commit(fix, s))
  }

  function BeforeDispatch(c: Config, fix: Repairs, s: State): (r: State)
    requires Shape(c, s) && CycleDefined(fix, s)
    ensures Shape(c, r)
  {
    PhasesKeepShape(c, fix, s);
    var s1 := Commit(fix, s);
    PhasesKeepShape(c, fix, s1);
    var s2 := WriteBack(fix, s1);
    PhasesKeepShape(c, fix, s2);
    PhasesKeepShape(c, fix, Execute(s2));
    IssueReady(c, Execute(s2))
  }

  function Cycle(c: Config, fix: Repairs, s: State, inst: Option<Instr>, junk: int32): (r: State)
    requires Shape(c, s) && CycleDefined(fix, s)
    ensures Shape(c, r)
  {
    DispatchKeepsShape(c, fix, BeforeDispatch(c, fix, s), inst, junk);
    Dispatch(fix, BeforeDispatch(c, fix, s), inst, junk)
  }
}
