/**
 * Programs on which the code as written ends with wrong registers, on a machine of any size. Each
 * keeps to entry, unit and lane 0, so that the sizes of the buffers do not matter.
 */
module Faults {
  import opened Base
  import opened InOrder
  import opened ReorderBuffer
  import opened RegisterFile
  import opened Machine
  import opened CommitProof
  import opened DispatchProof
  import opened Runs
  import opened Cycles
  import U = Unit

  /** `alu_exec` on `F10_ADD`, where the sum does not overflow. */
  ghost predicate Adds(alu: AluOp) {
    forall a: int32, b: int32 :: -0x8000_0000 <= a + b < 0x8000_0000 ==> alu(U.F10_ADD, a, b) == a + b
  }

  // ---------------------------------------------------------------------------
  // A machine of which only the first entry, unit and lane are in use
  // ---------------------------------------------------------------------------

  /** An open slot: its register, and its result once there is one. */
  datatype Slot = Slot(dest: nat, value: Option<int32>)

  /** The ring from its oldest slot `p` on, the registers, and what entry, unit and lane 0 hold. */
  datatype Core = Core(p: nat, q: seq<Slot>, reg: Regs, e: Option<ExbEntry>, u: Option<Unit>, l: Option<Lane>)

  predicate RingShows(r: Ring, p: nat, q: seq<Slot>) {
    && RingOk(r) && r.commitPtr == p && r.cnt == |q|
    && forall i | 0 <= i < |q| :: Matches(r.data[SlotAt(r, i)], q[i])
  }

  predicate Shows(c: Config, s: State, k: Core) {
    && Shape(c, s) && c.robSize <= 256 && 0 < c.exbSize && 0 < c.nbUnits && 0 < c.nbLanes
    && RingShows(s.rob, k.p, k.q) && s.reg == k.reg
    && s.exb[0].busy == k.e.Some? && (k.e.Some? ==> s.exb[0] == k.e.value)
    && s.exu[0].busy == k.u.Some? && (k.u.Some? ==> s.exu[0] == k.u.value)
    && s.cdb[0].valid == k.l.Some? && (k.l.Some? ==> s.cdb[0] == k.l.value)
    && (forall i | 0 < i < |s.exb| :: !s.exb[i].busy)
    && (forall u | 0 < u < |s.exu| :: !s.exu[u].busy)
    && (forall l | 0 < l < |s.cdb| :: !s.cdb[l].valid)
  }

  predicate Matches(d: RobEntry, t: Slot) {
    d.dest == t.dest && d.done == t.value.Some? && (d.done ==> d.data == t.value.value)
  }

  /** No operand waits; commits and lanes then concern nobody. */
  predicate Ready(k: Core) { k.e.Some? ==> k.e.value.busy && k.e.value.rj && k.e.value.rk }

  function CoreCommit(fix: Repairs, n: nat, k: Core): Core
    requires RegsOk(k.reg, NREGS) && k.p < n
  {
    if k.q == [] || k.q[0].value.None? then k else
    k.(p := Wrap(k.p + 1, n), q := k.q[1..],
       reg := WriteData(fix.tagClear, k.reg, k.q[0].dest, k.q[0].value.value, k.p))
  }

  /** The lane's result reaches its slot, the `i`-th oldest, and a finished unit takes the lane. */
  function CoreWriteBack(n: nat, k: Core): Core
    requires k.p < n
  {
    var q := match k.l
      case None => k.q
      case Some(l) =>
        var i := if l.qr >= k.p then l.qr - k.p else l.qr + n - k.p;
        if 0 <= i < |k.q| then k.q[i := k.q[i].(value := Some(l.result))] else k.q;
    if k.u.Some? && k.u.value.cycleLeft == 0 then
      k.(q := q, u := None, l := Some(Lane(k.u.value.qr, k.u.value.result, true)))
    else
      k.(q := q, l := None)
  }

  function CoreIssue(c: Config, k: Core): Core {
    var u := match k.u case None => None case Some(u) => Some(Tick(u));
    if k.e.Some? then
      var e := k.e.value;
      k.(u := Some(Unit(c.alu(e.f10, e.vj, e.vk), e.qr, c.cycles(e.f10), true)), e := None)
    else
      k.(u := u)
  }

  function CoreBack(c: Config, fix: Repairs, k: Core): Core
    requires RegsOk(k.reg, NREGS) && k.p < c.robSize
  {
    var k1 := CoreCommit(fix, c.robSize, k);
    CoreIssue(c, CoreWriteBack(c.robSize, k1))
  }

  lemma PopShows(r: Ring, p: nat, q: seq<Slot>)
    requires RingShows(r, p, q)
    ensures HeadDone(r) <==> q != [] && q[0].value.Some?
    ensures HeadDone(r) ==>
              && Matches(r.data[p], q[0])
              && RingShows(Pop(r), Wrap(p + 1, |r.data|), q[1..])
  {
    hide SlotAt;
    SlotZero(r);
    if HeadDone(r) {
      PoppedRing(r);
      var r' := Pop(r);
      forall i | 0 <= i < |q| - 1 ensures Matches(r'.data[SlotAt(r', i)], q[1..][i]) {
        assert Matches(r.data[SlotAt(r, i + 1)], q[i + 1]);
      }
    }
  }

  lemma CommitShows(c: Config, fix: Repairs, s: State, k: Core)
    requires Shows(c, s, k) && Ready(k)
    ensures RegsOk(k.reg, NREGS) && k.p < c.robSize
    ensures Shows(c, Commit(fix, s), CoreCommit(fix, c.robSize, k))
  {
    hide RingShows, Pop, Commit, WriteData;
    InRange(s.rob, k.p, k.q);
    PopShows(s.rob, k.p, k.q);
    PhasesKeepShape(c, fix, s);
    CommitIs(c, fix, s, k);
  }

  lemma CommitIs(c: Config, fix: Repairs, s: State, k: Core)
    requires Shows(c, s, k) && Ready(k) && k.p < c.robSize
    ensures Commit(fix, s) == if HeadDone(s.rob) then s.(rob := Pop(s.rob), reg := CoreCommit(fix, c.robSize, k).reg) else s
  {
    hide RingShows, Pop, CommitForward, WriteData;
    InRange(s.rob, k.p, k.q);
    PopShows(s.rob, k.p, k.q);
    NobodyWaits(s, Tag(k.p), s.rob.data[k.p].data);
  }

  lemma NobodyWaits(s: State, tag: nat, v: int32)
    requires forall i | 0 <= i < |s.exb| && s.exb[i].busy :: s.exb[i].rj && s.exb[i].rk
    ensures CommitForward(s.exb, tag, v, 0) == s.exb
  {
    ForwardIdle(s.exb, tag, v, 0);
  }

  lemma InRange(r: Ring, p: nat, q: seq<Slot>)
    requires RingShows(r, p, q)
    ensures p < |r.data| && p == r.commitPtr && |q| == r.cnt <= |r.data|
    ensures r.issuePtr == Wrap(p + |q|, |r.data|) < |r.data|
  {
  }

  lemma WriteShows(r: Ring, p: nat, q: seq<Slot>, addr: nat, v: int32)
    requires RingShows(r, p, q) && addr < |r.data|
    ensures var i := if addr >= p then addr - p else addr + |r.data| - p;
            RingShows(Write(r, addr, v), p, if 0 <= i < |q| then q[i := q[i].(value := Some(v))] else q)
  {
    hide SlotAt;
    var r' := Write(r, addr, v);
    var i := if addr >= p then addr - p else addr + |r.data| - p;
    forall j | 0 <= j < |q| ensures SlotAt(r', j) == SlotAt(r, j) && (SlotAt(r, j) == addr <==> i == j) {
      SameSlot(r, r', j);
    }
    forall j | 0 <= j < |q| ensures Matches(r'.data[SlotAt(r', j)], if j == i then q[i].(value := Some(v)) else q[j]) {
      assert Matches(r.data[SlotAt(r, j)], q[j]);
    }
  }

  lemma WriteBackShows(c: Config, fix: Repairs, s: State, k: Core)
    requires Shows(c, s, k) && Ready(k) && (k.l.Some? ==> k.l.value.qr < c.robSize)
    ensures LanesSuffice(fix, s) && k.p < c.robSize
    ensures Shows(c, WriteBack(fix, s), CoreWriteBack(c.robSize, k))
  {
    hide RingShows, WriteBack, LanesSuffice;
    InRange(s.rob, k.p, k.q);
    FirstWriteBack(fix, s);
    if k.l.Some? {
      WriteShows(s.rob, k.p, k.q, k.l.value.qr, k.l.value.result);
      hide Write;
    }
  }

  lemma IssueShows(c: Config, s: State, k: Core)
    requires Shows(c, s, k) && Ready(k) && (k.e.Some? ==> k.u.None?)
    ensures Shows(c, IssueReady(c, Execute(s)), CoreIssue(c, k))
  {
    hide RingShows, IssueReady;
    var x := Execute(s);
    if k.e.Some? {
      OneIssues(c, x, 0, 0);
    } else {
      NothingReady(c, x);
    }
  }

  // ---------------------------------------------------------------------------
  // Dispatch into entry 0
  // ---------------------------------------------------------------------------

  /** The result in slot `t`, if it is open and done. */
  function Done(n: nat, k: Core, t: nat): Option<int32>
    requires k.p < n
  {
    var i := if t >= k.p then t - k.p else t + n - k.p;
    if 0 <= i < |k.q| then k.q[i].value else None
  }

  /** The second operand is at hand: immediate, in its register, or done in the ring. */
  predicate AtHand(n: nat, k: Core, src: Source)
    requires RegsOk(k.reg, NREGS) && k.p < n
  {
    match src
    case Imm(_) => true
    case Reg(r) => !k.reg.d[r] || (k.l.None? && k.reg.s[r] < n && Done(n, k, k.reg.s[r]).Some?)
  }

  function NextSlot(n: nat, k: Core): nat
    requires k.p < n && |k.q| <= n
  {
    Wrap(k.p + |k.q|, n)
  }

  function CoreEntry(fix: Repairs, n: nat, k: Core, i: Instr, junk: int32): ExbEntry
    requires RegsOk(k.reg, NREGS) && k.p < n && |k.q| <= n && AtHand(n, k, i.src2)
  {
    var j, qj, qr := k.reg.x[i.rs1], k.reg.s[i.rs1], NextSlot(n, k);
    match i.src2
    case Imm(v) => ExbEntry(i.f10, j, v, qj, 0, qr, true, true, false, true)
    case Reg(r) =>
      var q := k.reg.s[r];
      if !k.reg.d[r] then ExbEntry(i.f10, j, k.reg.x[r], qj, q, qr, true, true, false, true)
      else if fix.kToVk then ExbEntry(i.f10, j, Done(n, k, q).value, qj, q, qr, true, true, false, true)
      else ExbEntry(i.f10, Done(n, k, q).value, junk, qj, q, qr, true, true, false, true)
  }

  function CoreDispatch(fix: Repairs, n: nat, k: Core, i: Instr, junk: int32): Core
    requires RegsOk(k.reg, NREGS) && k.p < n && |k.q| <= n && AtHand(n, k, i.src2)
  {
    k.(q := k.q + [Slot(i.rd, None)], reg := WriteSource(k.reg, i.rd, NextSlot(n, k)),
       e := Some(CoreEntry(fix, n, k, i, junk)))
  }

  lemma IssueShowsRing(r: Ring, p: nat, q: seq<Slot>, rd: nat)
    requires RingShows(r, p, q) && !Full(r)
    ensures RingShows(Issue(r, rd), p, q + [Slot(rd, None)])
  {
    hide SlotAt, Issue;
    IssuedRing(r, rd);
    forall i | 0 <= i < |q| ensures Matches(Issue(r, rd).data[SlotAt(r, i)], q[i]) {
      assert Matches(r.data[SlotAt(r, i)], q[i]);
    }
  }

  lemma DoneShows(r: Ring, p: nat, q: seq<Slot>, t: nat)
    requires RingShows(r, p, q) && t < |r.data|
    ensures var i := if t >= p then t - p else t + |r.data| - p;
            0 <= i < |q| && q[i].value.Some? ==> r.data[t].done && r.data[t].data == q[i].value.value && t != NewSlot(r)
  {
    var i := if t >= p then t - p else t + |r.data| - p;
    if 0 <= i < |q| {
      assert SlotAt(r, i) == t;
      assert Matches(r.data[SlotAt(r, i)], q[i]);
    }
  }

  /** The slot an issue would open, or one past the ring when it is full. */
  function NewSlot(r: Ring): nat { if r.cnt < |r.data| then r.issuePtr else |r.data| }

  lemma EntryShows(c: Config, fix: Repairs, s: State, k: Core, i: Instr, junk: int32)
    requires Shows(c, s, k) && |k.q| < c.robSize && k.p < c.robSize && RegsOk(k.reg, NREGS)
    requires !k.reg.d[i.rs1] && AtHand(c.robSize, k, i.src2)
    ensures NewEntry(fix, Opened(s, i), i, Tag(s.rob.issuePtr), junk) == CoreEntry(fix, c.robSize, k, i, junk)
    ensures CoreEntry(fix, c.robSize, k, i, junk).busy
  {
    hide RingShows;
    InRange(s.rob, k.p, k.q);
    if i.src2.Reg? && k.reg.d[i.src2.r] {
      DoneShows(s.rob, k.p, k.q, k.reg.s[i.src2.r]);
    }
  }

  lemma DispatchShows(c: Config, fix: Repairs, s: State, k: Core, i: Instr, junk: int32)
    requires Shows(c, s, k) && |k.q| < c.robSize && k.p < c.robSize && RegsOk(k.reg, NREGS) && k.e.None?
    requires !k.reg.d[i.rs1] && AtHand(c.robSize, k, i.src2)
    ensures Shows(c, Dispatch(fix, s, Some(i), junk), CoreDispatch(fix, c.robSize, k, i, junk))
  {
    hide RingShows, NewEntry, CoreEntry, Issue, WriteSource;
    InRange(s.rob, k.p, k.q);
    EntryShows(c, fix, s, k, i, junk);
    IssueShowsRing(s.rob, k.p, k.q, i.rd);
    DispatchKeepsShape(c, fix, s, Some(i), junk);
    assert FirstFree(s.exb, 0) == 0;
  }

  // ---------------------------------------------------------------------------
  // Runs
  // ---------------------------------------------------------------------------

  /** What the steps above ask of a state before `x` is fetched. */
  predicate Able(c: Config, fix: Repairs, k: Core, x: Input) {
    && Ready(k) && RegsOk(k.reg, NREGS) && k.p < c.robSize && |k.q| <= c.robSize
    && var k1 := CoreCommit(fix, c.robSize, k);
    && (k1.l.Some? ==> k1.l.value.qr < c.robSize)
    && var k2 := CoreWriteBack(c.robSize, k1);
    && (k2.e.Some? ==> k2.u.None?)
    && var k3 := CoreIssue(c, k2);
    && (x.inst.Some? ==>
          && |k3.q| < c.robSize && k3.e.None?
          && RegsOk(k3.reg, NREGS) && !k3.reg.d[x.inst.value.rs1] && AtHand(c.robSize, k3, x.inst.value.src2))
  }

  function Next(c: Config, fix: Repairs, k: Core, x: Input): Core
    requires Able(c, fix, k, x)
  {
    var b := CoreBack(c, fix, k);
    match x.inst
    case None => b
    case Some(i) => CoreDispatch(fix, c.robSize, b, i, x.junk)
  }

  lemma BackShows(c: Config, fix: Repairs, s: State, k: Core, x: Input)
    requires Shows(c, s, k) && Able(c, fix, k, x)
    ensures Shape(c, s) && CycleDefined(fix, s)
    ensures Shows(c, BeforeDispatch(c, fix, s), CoreBack(c, fix, k))
  {
    assert Shape(c, s);
    hide Shows, Commit, WriteBack, IssueReady, CoreCommit, CoreWriteBack, CoreIssue, AtHand, LanesSuffice, Shape;
    CommitShows(c, fix, s, k);
    var k1 := CoreCommit(fix, c.robSize, k);
    BackReady(c, fix, k);
    WriteBackShows(c, fix, Commit(fix, s), k1);
    IssueShows(c, WriteBack(fix, Commit(fix, s)), CoreWriteBack(c.robSize, k1));
  }

  lemma CycleShows(c: Config, fix: Repairs, s: State, k: Core, x: Input)
    requires Shows(c, s, k) && Able(c, fix, k, x)
    ensures Shape(c, s) && CycleDefined(fix, s)
    ensures Shows(c, Cycle(c, fix, s, x.inst, x.junk), Next(c, fix, k, x))
  {
    assert Shape(c, s);
    hide Shows, Commit, WriteBack, IssueReady, Dispatch, CoreCommit, CoreWriteBack, CoreIssue, CoreDispatch, AtHand,
         LanesSuffice, Shape;
    BackShows(c, fix, s, k, x);
    BackReady(c, fix, k);
    if x.inst.Some? {
      DispatchShows(c, fix, BeforeDispatch(c, fix, s), CoreBack(c, fix, k), x.inst.value, x.junk);
    }
  }

  lemma BackReady(c: Config, fix: Repairs, k: Core)
    requires RegsOk(k.reg, NREGS) && k.p < c.robSize
    ensures var k1 := CoreCommit(fix, c.robSize, k);
      k1.p < c.robSize && k1.e == k.e && CoreWriteBack(c.robSize, k1).e == k.e && CoreWriteBack(c.robSize, k1).p == k1.p
    ensures CoreBack(c, fix, k).p < c.robSize
  {
  }

  predicate Leads(c: Config, fix: Repairs, k: Core, x: Input, k': Core) {
    Able(c, fix, k, x) && Next(c, fix, k, x) == k'
  }

  /** The engine goes through `ks` on `ins`, from the `j`-th of each on. */
  lemma {:induction false} Plays(c: Config, fix: Repairs, s: State, ks: seq<Core>, ins: seq<Input>, j: nat)
    returns (t: State)
    requires |ks| == |ins| + 1 && j <= |ins| && Shows(c, s, ks[j])
    requires forall m | j <= m < |ins| :: Leads(c, fix, ks[m], ins[m], ks[m + 1])
    ensures Steps(c, fix, s, ins[j..]) == Some(t) && Shows(c, t, ks[|ins|])
    decreases |ins| - j
  {
    hide Shows, Able, Next, Cycle, CycleDefined, Shape;
    t := s;
    if j < |ins| {
      assert Leads(c, fix, ks[j], ins[j], ks[j + 1]);
      CycleShows(c, fix, s, ks[j], ins[j]);
      t := Plays(c, fix, Cycle(c, fix, s, ins[j].inst, ins[j].junk), ks, ins, j + 1);
      assert ins[j..][0] == ins[j] && ins[j..][1..] == ins[j + 1..];
    }
  }

  // ---------------------------------------------------------------------------
  // Two writers of one register (sw/src/reg.c:68-69)
  // ---------------------------------------------------------------------------

  /** x1 := 5; x1 := 7; x2 := x1, the last one fetched in the cycle in which the first one commits. */
  const OVERWRITE: seq<Input> := [Do(Load(1, 5)), NOTHING, Do(Load(1, 7)), NOTHING, NOTHING, Do(Copy(2, 1)),
                                  NOTHING, NOTHING, NOTHING, NOTHING, NOTHING]

  function Load(rd: RegNo, v: int32): Instr { Instr(rd, 0, Imm(v), U.F10_ADD) }

  function Copy(rd: RegNo, r: RegNo): Instr { Instr(rd, r, Imm(0), U.F10_ADD) }

  function Entry(vj: int32, vk: int32, qj: nat, qk: nat, qr: nat): Option<ExbEntry> {
    Some(ExbEntry(U.F10_ADD, vj, vk, qj, qk, qr, true, true, false, true))
  }

  /** Register `r` awaits slot `t`. */
  function Awaits(g: Regs, r: RegNo, t: nat): Regs
    requires RegsOk(g, NREGS)
    ensures RegsOk(Awaits(g, r, t), NREGS)
  {
    g.(s := g.s[r := t], d := g.d[r := true])
  }

  /** Register `r` has got value `v`. */
  function Gets(g: Regs, r: RegNo, v: int32): Regs
    requires RegsOk(g, NREGS)
    ensures RegsOk(Gets(g, r, v), NREGS)
  {
    g.(x := g.x[r := v], d := g.d[r := false])
  }

  function OverwriteCores(c: Config, g0: Regs): seq<Core>
    requires RegsOk(g0, NREGS) && 2 <= c.robSize
  {
    var a, b, w, t, n0 := c.alu(0, 0, 5), c.alu(0, 0, 7), c.alu(0, c.alu(0, 0, 5), 0), Wrap(2, c.robSize), g0.s[0];
    var g1 := Awaits(g0, 1, 0);
    var g2 := Awaits(g1, 1, 1);
    var g3 := Awaits(Gets(g2, 1, a), 2, t);
    var g4 := Gets(g3, 1, b);
    var s1, s1a, s1b, s2, s2w := Slot(1, None), Slot(1, Some(a)), Slot(1, Some(b)), Slot(2, None), Slot(2, Some(w));
    [Core(0, [], g0, None, None, None),
     Core(0, [s1], g1, Entry(0, 5, n0, 0, 0), None, None),
     Core(0, [s1], g1, None, Some(Unit(a, 0, 1, true)), None),
     Core(0, [s1, s1], g2, Entry(0, 7, n0, 0, 1), Some(Unit(a, 0, 0, true)), None),
     Core(0, [s1, s1], g2, None, Some(Unit(b, 1, 1, true)), Some(Lane(0, a, true))),
     Core(0, [s1a, s1], g2, None, Some(Unit(b, 1, 0, true)), None),
     Core(1, [s1, s2], g3, Entry(a, 0, 1, 0, t), None, Some(Lane(1, b, true))),
     Core(1, [s1b, s2], g3, None, Some(Unit(w, t, 1, true)), None),
     Core(t, [s2], g4, None, Some(Unit(w, t, 0, true)), None),
     Core(t, [s2], g4, None, None, Some(Lane(t, w, true))),
     Core(t, [s2w], g4, None, None, None),
     Core(Wrap(t + 1, c.robSize), [], Gets(g4, 2, w), None, None, None)]
  }

  /** A machine on which the programs below go as they say: one cycle for an addition, two slots. */
  predicate Suits(c: Config, g0: Regs) {
    && 2 <= c.robSize && c.cycles(U.F10_ADD) == 1
    && RegsOk(g0, NREGS) && g0.x[0] == 0 && forall r | 0 <= r < NREGS :: !g0.d[r]
  }

  lemma OverwriteStarts(c: Config, fix: Repairs, g0: Regs, j: nat)
    requires Suits(c, g0) && j < 3 && !fix.tagClear
    ensures Leads(c, fix, OverwriteCores(c, g0)[j], OVERWRITE[j], OverwriteCores(c, g0)[j + 1])
  {
  }

  lemma OverwriteGoesOn(c: Config, fix: Repairs, g0: Regs, j: nat)
    requires Suits(c, g0) && 3 <= j < 6 && !fix.tagClear
    ensures Leads(c, fix, OverwriteCores(c, g0)[j], OVERWRITE[j], OverwriteCores(c, g0)[j + 1])
  {
  }

  lemma OverwriteEnds(c: Config, fix: Repairs, g0: Regs, j: nat)
    requires Suits(c, g0) && 6 <= j < 11 && !fix.tagClear
    ensures Leads(c, fix, OverwriteCores(c, g0)[j], OVERWRITE[j], OverwriteCores(c, g0)[j + 1])
  {
  }

  lemma FreshShows(c: Config, s: State, x0: RegVals)
    requires Initial(c, s, x0) && c.robSize <= 256 && 0 < c.exbSize && 0 < c.nbUnits && 0 < c.nbLanes
    ensures Shows(c, s, Core(0, [], s.reg, None, None, None)) && RegsOk(s.reg, NREGS)
    ensures s.reg.x == x0 && x0[0] == 0 && forall r | 0 <= r < NREGS :: !s.reg.d[r]
  {
  }

  /** The next instruction, at `j`, after zero words only. */
  lemma {:induction false} FetchedNext(ins: seq<Input>, k: nat, j: nat)
    requires k <= j <= |ins| && (forall m | k <= m < j :: ins[m].inst.None?) && (j < |ins| ==> ins[j].inst.Some?)
    ensures Fetched(ins[k..]) == if j == |ins| then [] else [ins[j].inst.value] + Fetched(ins[j + 1..])
    decreases j - k
  {
    if k < |ins| {
      assert ins[k..][0] == ins[k] && ins[k..][1..] == ins[k + 1..];
    }
    if k < j {
      FetchedNext(ins, k + 1, j);
    }
  }

  lemma OverwriteProgram()
    ensures Program(OVERWRITE) && Fetched(OVERWRITE) == [Load(1, 5), Load(1, 7), Copy(2, 1)]
  {
    hide Fetched;
    FetchedNext(OVERWRITE, 6, 11);
    FetchedNext(OVERWRITE, 3, 5);
    FetchedNext(OVERWRITE, 1, 2);
    FetchedNext(OVERWRITE, 0, 0);
    assert OVERWRITE[0..] == OVERWRITE;
  }

  /**
   * On every machine with two slots and more the code as written ends with the first value in x2:
   * the first commit clears the dirty flag while the second writer is still in flight. The state
   * before that commit is the one whose guard fails.
   */
  lemma OverwriteFails(c: Config, fix: Repairs, s: State, x0: RegVals) returns (m: State, t: State)
    requires ConfigOk(c) && Initial(c, s, x0) && 0 < c.exbSize && 2 <= c.robSize
    requires c.cycles(U.F10_ADD) == 1 && !fix.tagClear
    ensures Program(OVERWRITE) && Fetched(OVERWRITE) == [Load(1, 5), Load(1, 7), Copy(2, 1)]
    ensures Steps(c, fix, s, OVERWRITE[..5]) == Some(m) && Shape(c, m) && !CommitGuard(fix, m)
    ensures Steps(c, fix, s, OVERWRITE) == Some(t) && Shape(c, t) && t.rob.cnt == 0
    ensures t.reg.x[2] == c.alu(U.F10_ADD, c.alu(U.F10_ADD, 0, 5), 0)
    ensures Seq(c.alu, x0, Fetched(OVERWRITE), 3)[2] == c.alu(U.F10_ADD, c.alu(U.F10_ADD, 0, 7), 0)
    ensures Adds(c.alu) ==> t.reg.x[2] == 5 && Seq(c.alu, x0, Fetched(OVERWRITE), 3)[2] == 7
  {
    OverwriteProgram();
    FreshShows(c, s, x0);
    var ks := OverwriteCores(c, s.reg);
    OverwriteShape(c, s.reg);
    hide Initial, Shows, Leads, OverwriteCores, Steps, Fetched, Program;
    forall j | 0 <= j < 11 ensures Leads(c, fix, ks[j], OVERWRITE[j], ks[j + 1]) {
      if j < 3 {
        OverwriteStarts(c, fix, s.reg, j);
      } else if j < 6 {
        OverwriteGoesOn(c, fix, s.reg, j);
      } else {
        OverwriteEnds(c, fix, s.reg, j);
      }
    }
    m := Plays(c, fix, s, ks[..6], OVERWRITE[..5], 0);
    assert OVERWRITE[..5][0..] == OVERWRITE[..5];
    t := Plays(c, fix, s, ks, OVERWRITE, 0);
    assert OVERWRITE[0..] == OVERWRITE;
    OverwriteMiddle(c, fix, m, s.reg);
    ShowsEnd(c, t, ks[11]);
    OverwriteInOrder(c.alu, x0);
  }

  lemma OverwriteShape(c: Config, g0: Regs)
    requires Suits(c, g0)
    ensures var ks := OverwriteCores(c, g0);
      && |ks| == 12 && ks[0] == Core(0, [], g0, None, None, None)
      && ks[11].q == [] && RegsOk(ks[11].reg, NREGS)
      && ks[11].reg.x[2] == c.alu(0, c.alu(0, 0, 5), 0)
  {
  }

  lemma ShowsEnd(c: Config, t: State, k: Core)
    requires Shows(c, t, k)
    ensures Shape(c, t) && t.rob.cnt == |k.q| && t.reg == k.reg
  {
  }

  lemma OverwriteMiddle(c: Config, fix: Repairs, m: State, g0: Regs)
    requires Suits(c, g0) && !fix.tagClear && Shows(c, m, OverwriteCores(c, g0)[5])
    ensures Shape(c, m) && !CommitGuard(fix, m)
  {
    SlotZero(m.rob);
    assert Matches(m.rob.data[SlotAt(m.rob, 0)], OverwriteCores(c, g0)[5].q[0]);
  }

  lemma OverwriteInOrder(alu: AluOp, x0: RegVals)
    requires x0[0] == 0
    ensures Seq(alu, x0, [Load(1, 5), Load(1, 7), Copy(2, 1)], 3)[2] == alu(0, alu(0, 0, 7), 0)
  {
    var prog := [Load(1, 5), Load(1, 7), Copy(2, 1)];
    ZeroStays(alu, x0, prog, 1);
    assert Seq(alu, x0, prog, 2)[1] == alu(0, 0, 7);
  }

  // ---------------------------------------------------------------------------
  // An operand from the reorder buffer (sw/src/engine.c:249)
  // ---------------------------------------------------------------------------

  /** x2 := x0 + x1, in register form. */
  function Sum(): Instr { Instr(2, 0, Reg(1), U.F10_ADD) }

  /** x1 := 5; x2 := x0 + x1, fetched while the 5 waits in the ring and an unset variable holds `junk`. */
  function Stray(junk: int32): (ins: seq<Input>)
    ensures |ins| == 10
  {
    [Do(Load(1, 5)), NOTHING, NOTHING, NOTHING, Input(Some(Sum()), junk), NOTHING, NOTHING, NOTHING, NOTHING, NOTHING]
  }

  function StrayCores(c: Config, g0: Regs, junk: int32): (ks: seq<Core>)
    requires RegsOk(g0, NREGS) && 2 <= c.robSize
    ensures |ks| == 11
  {
    var a, w, t, n0 := c.alu(0, 0, 5), c.alu(0, c.alu(0, 0, 5), junk), Wrap(2, c.robSize), g0.s[0];
    var g1 := Awaits(g0, 1, 0);
    var g2 := Awaits(g1, 2, 1);
    var g3 := Gets(g2, 1, a);
    var s1, s1a, s2, s2w := Slot(1, None), Slot(1, Some(a)), Slot(2, None), Slot(2, Some(w));
    [Core(0, [], g0, None, None, None),
     Core(0, [s1], g1, Entry(0, 5, n0, 0, 0), None, None),
     Core(0, [s1], g1, None, Some(Unit(a, 0, 1, true)), None),
     Core(0, [s1], g1, None, Some(Unit(a, 0, 0, true)), None),
     Core(0, [s1], g1, None, None, Some(Lane(0, a, true))),
     Core(0, [s1a, s2], g2, Entry(a, junk, n0, 0, 1), None, None),
     Core(1, [s2], g3, None, Some(Unit(w, 1, 1, true)), None),
     Core(1, [s2], g3, None, Some(Unit(w, 1, 0, true)), None),
     Core(1, [s2], g3, None, None, Some(Lane(1, w, true))),
     Core(1, [s2w], g3, None, None, None),
     Core(t, [], Gets(g3, 2, w), None, None, None)]
  }

  lemma StrayStarts(c: Config, fix: Repairs, g0: Regs, junk: int32, j: nat)
    requires Suits(c, g0) && j < 4 && !fix.kToVk
    ensures Leads(c, fix, StrayCores(c, g0, junk)[j], Stray(junk)[j], StrayCores(c, g0, junk)[j + 1])
  {
  }

  lemma StrayGoesOn(c: Config, fix: Repairs, g0: Regs, junk: int32, j: nat)
    requires Suits(c, g0) && 4 <= j < 7 && !fix.kToVk
    ensures Leads(c, fix, StrayCores(c, g0, junk)[j], Stray(junk)[j], StrayCores(c, g0, junk)[j + 1])
  {
  }

  lemma StrayEnds(c: Config, fix: Repairs, g0: Regs, junk: int32, j: nat)
    requires Suits(c, g0) && 7 <= j < 10 && !fix.kToVk
    ensures Leads(c, fix, StrayCores(c, g0, junk)[j], Stray(junk)[j], StrayCores(c, g0, junk)[j + 1])
  {
  }

  lemma StrayProgram(junk: int32)
    ensures Program(Stray(junk)) && Fetched(Stray(junk)) == [Load(1, 5), Sum()]
  {
    hide Fetched;
    var ins := Stray(junk);
    FetchedNext(ins, 5, 10);
    FetchedNext(ins, 1, 4);
    FetchedNext(ins, 0, 0);
    assert ins[0..] == ins;
  }

  lemma StrayShape(c: Config, g0: Regs, junk: int32)
    requires Suits(c, g0)
    ensures var ks := StrayCores(c, g0, junk);
      && ks[0] == Core(0, [], g0, None, None, None)
      && ks[10].q == [] && RegsOk(ks[10].reg, NREGS)
      && ks[10].reg.x[2] == c.alu(0, c.alu(0, 0, 5), junk)
  {
  }

  lemma StrayMiddle(c: Config, fix: Repairs, m: State, g0: Regs, junk: int32)
    requires Suits(c, g0) && !fix.kToVk && Shows(c, m, StrayCores(c, g0, junk)[4])
    ensures Shape(c, m) && CycleDefined(fix, m) && AcceptsIn(c, fix, m, Some(Sum()))
    ensures !OperandGuard(fix, BeforeDispatch(c, fix, m), Sum())
  {
    var k := StrayCores(c, g0, junk)[4];
    StrayGoesOn(c, fix, g0, junk, 4);
    BackShows(c, fix, m, k, Stray(junk)[4]);
    WaitingInRing(c, fix, BeforeDispatch(c, fix, m), CoreBack(c, fix, k));
  }

  /** Line 249 takes x1 out of the ring. */
  lemma WaitingInRing(c: Config, fix: Repairs, b: State, k: Core)
    requires Shows(c, b, k) && !fix.kToVk && k.p < c.robSize && RegsOk(k.reg, NREGS)
    requires |k.q| < c.robSize && k.reg.d[1] && AtHand(c.robSize, k, Reg(1))
    ensures Accepts(b, Some(Sum())) && !OperandGuard(fix, b, Sum())
  {
    hide RingShows;
    InRange(b.rob, k.p, k.q);
    DoneShows(b.rob, k.p, k.q, k.reg.s[1]);
  }

  lemma StrayInOrder(alu: AluOp, x0: RegVals)
    requires x0[0] == 0
    ensures Seq(alu, x0, [Load(1, 5), Sum()], 2)[2] == alu(0, 0, alu(0, 0, 5))
  {
    var prog := [Load(1, 5), Sum()];
    ZeroStays(alu, x0, prog, 1);
    assert Seq(alu, x0, prog, 1)[1] == alu(0, 0, 5);
  }

  /**
   * On every machine with two slots and more the code as written adds what an unset variable holds
   * to the 5. The state before that dispatch is the one whose guard fails.
   */
  lemma StrayFails(c: Config, fix: Repairs, s: State, x0: RegVals, junk: int32) returns (m: State, t: State)
    requires ConfigOk(c) && Initial(c, s, x0) && 0 < c.exbSize && 2 <= c.robSize
    requires c.cycles(U.F10_ADD) == 1 && !fix.kToVk
    ensures Program(Stray(junk)) && Fetched(Stray(junk)) == [Load(1, 5), Sum()]
    ensures Steps(c, fix, s, Stray(junk)[..4]) == Some(m) && Shape(c, m) && CycleDefined(fix, m)
    ensures AcceptsIn(c, fix, m, Some(Sum())) && !OperandGuard(fix, BeforeDispatch(c, fix, m), Sum())
    ensures Steps(c, fix, s, Stray(junk)) == Some(t) && Shape(c, t) && t.rob.cnt == 0
    ensures t.reg.x[2] == c.alu(U.F10_ADD, c.alu(U.F10_ADD, 0, 5), junk)
    ensures Seq(c.alu, x0, Fetched(Stray(junk)), 2)[2] == c.alu(U.F10_ADD, 0, c.alu(U.F10_ADD, 0, 5))
    ensures Adds(c.alu) && 5 + junk < 0x8000_0000 ==>
              t.reg.x[2] == 5 + junk && Seq(c.alu, x0, Fetched(Stray(junk)), 2)[2] == 5
  {
    StrayProgram(junk);
    FreshShows(c, s, x0);
    var ks, ins := StrayCores(c, s.reg, junk), Stray(junk);
    StrayShape(c, s.reg, junk);
    hide Initial, Shows, Leads, StrayCores, Steps, Fetched, Program, Stray, CycleDefined, OperandGuard, Accepts;
    forall j | 0 <= j < 10 ensures Leads(c, fix, ks[j], ins[j], ks[j + 1]) {
      if j < 4 {
        StrayStarts(c, fix, s.reg, junk, j);
      } else if j < 7 {
        StrayGoesOn(c, fix, s.reg, junk, j);
      } else {
        StrayEnds(c, fix, s.reg, junk, j);
      }
    }
    m := Plays(c, fix, s, ks[..5], ins[..4], 0);
    assert ins[..4][0..] == ins[..4];
    t := Plays(c, fix, s, ks, ins, 0);
    assert ins[0..] == ins;
    StrayMiddle(c, fix, m, s.reg, junk);
    ShowsEnd(c, t, ks[10]);
    StrayInOrder(c.alu, x0);
  }
}
