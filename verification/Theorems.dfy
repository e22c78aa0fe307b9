/** The engine's main results, stated from initialisation. */
module Theorems {
  import opened Base
  import opened InOrder
  import opened ReorderBuffer
  import opened RegisterFile
  import opened Machine
  import opened Invariant
  import opened CommitProof
  import opened Runs
  import opened Progress
  import U = Unit

  // ---------------------------------------------------------------------------
  // Conservation
  // ---------------------------------------------------------------------------

  /**
   * On every run of every build what is in a place is open work, and in no other place. None of it is
   * nowhere as long as no instruction is accepted without an entry, and with enough room none is.
   */
  lemma Conservation(c: Config, fix: Repairs, s: State, x0: RegVals, ins: seq<Input>)
    requires ConfigOk(c) && Initial(c, s, x0) && Steps(c, fix, s, ins).Some?
    ensures var s' := Steps(c, fix, s, ins).value;
      && (forall t: nat, p, q | Holds(s', t, p) && Holds(s', t, q) :: p == q)
      && (forall t: nat, p | Holds(s', t, p) :: Live(s'.rob, t))
      && (Meets(Places, c, fix, s, ins) ==> forall t: nat | Live(s'.rob, t) :: exists p :: Holds(s', t, p))
    ensures EnoughRoom(c) ==> Meets(Places, c, fix, s, ins)
  {
    assert Shape(c, s);
    hide InvAt, Initial, Meets, Steps, Taken, Retired, Holds, EnoughRoom;
    if EnoughRoom(c) {
      EnoughRoomSteps(c, fix, s, x0, ins);
    }
    StepsMeet(c, fix, s, ins);
    var s' := Steps(c, fix, s, ins).value;
    var tr := ReachedBy(if Meets(Places, c, fix, s, ins) then Places else Tags, c, fix, s, x0, ins);
    forall t: nat | Meets(Places, c, fix, s, ins) && Live(s'.rob, t) ensures exists p :: Holds(s', t, p) {
      HeldThere(c, s', tr, t);
    }
    forall t: nat, p | Holds(s', t, p) ensures Live(s'.rob, t) && t < |tr.loc| && tr.loc[t] == p {
      HeldOnlyThere(c, s', tr, t, p);
    }
  }

  // ---------------------------------------------------------------------------
  // Operands and renames
  // ---------------------------------------------------------------------------

  /**
   * An operand of instruction `n`: the value it reads in program order, or the slot of the youngest
   * earlier writer of the register, whose work is still in the buffer or in a unit.
   */
  ghost predicate OperandRight(c: Config, x0: RegVals, s: State, prog: seq<Instr>, k: nat, n: nat,
                               src: Source, ready: bool, v: int32, q: nat)
    requires n < |prog|
  {
    if ready then v == Value(Seq(c.alu, x0, prog, n), src) else
    && src.Reg?
    && Live(s.rob, q) && 0 <= Dist(s.rob, q)
    && LastWriter(prog, src.r, n, k + Dist(s.rob, q))
    && exists p: Place :: (p.InExb? || p.InUnit?) && Holds(s, q, p)
  }

  ghost predicate EntryRight(c: Config, x0: RegVals, s: State, prog: seq<Instr>, k: nat, e: ExbEntry)
    requires |prog| == k + s.rob.cnt
  {
    && Live(s.rob, e.qr) && 0 <= Dist(s.rob, e.qr)
    && var n := k + Dist(s.rob, e.qr);
    && e.f10 == prog[n].f10
    && OperandRight(c, x0, s, prog, k, n, Reg(prog[n].rs1), e.rj, e.vj, e.qj)
    && OperandRight(c, x0, s, prog, k, n, prog[n].src2, e.rk, e.vk, e.qk)
  }

  lemma InvEntryRight(c: Config, s: State, tr: Track, i: nat)
    requires Inv(c, s, tr) && tr.claim.Values? && i < |s.exb| && s.exb[i].busy
    ensures |tr.hist| == tr.committed + s.rob.cnt && EntryRight(c, tr.x0, s, tr.hist, tr.committed, s.exb[i])
  {
    hide Seq, LastWriter, RenameOk, UnitOk, LaneOk;
    assert EntryOk(c, s, tr, false, i);
    if !s.exb[i].rj {
      HeldThere(c, s, tr, s.exb[i].qj);
    }
    if !s.exb[i].rk {
      HeldThere(c, s, tr, s.exb[i].qk);
    }
  }

  /** On every run no operand is wrong, and none waits for a broadcast that has been and gone. */
  lemma OperandsInFlight(c: Config, fix: Repairs, s: State, x0: RegVals, ins: seq<Input>)
    requires ConfigOk(c) && Initial(c, s, x0) && Clean(c, fix, s, ins)
    ensures var s', prog, k := Run(c, fix, s, ins), Accepted(c, fix, s, ins), Commits(c, fix, s, ins);
      && |prog| == k + s'.rob.cnt
      && forall i | 0 <= i < |s'.exb| && s'.exb[i].busy :: EntryRight(c, x0, s', prog, k, s'.exb[i])
  {
    hide InvAt, Clean, Run, Accepted, Commits, EntryRight;
    var s' := Run(c, fix, s, ins);
    var tr := Reached(c, fix, s, x0, ins);
    forall i | 0 <= i < |s'.exb| && s'.exb[i].busy ensures EntryRight(c, x0, s', tr.hist, tr.committed, s'.exb[i]) {
      InvEntryRight(c, s', tr, i);
    }
  }

  /** Register `r` is dirty exactly when a live instruction writes it, and awaits the youngest one. */
  ghost predicate RenameRight(s: State, prog: seq<Instr>, k: nat, r: RegNo)
    requires RegsOk(s.reg, NREGS)
  {
    && (s.reg.d[r] <==> r != 0 && exists n | k <= n < |prog| :: prog[n].rd == r)
    && (s.reg.d[r] ==>
          && Live(s.rob, s.reg.s[r]) && 0 <= Dist(s.rob, s.reg.s[r])
          && LastWriter(prog, r, |prog|, k + Dist(s.rob, s.reg.s[r])))
  }

  lemma InvRenameRight(c: Config, s: State, tr: Track, r: RegNo)
    requires Inv(c, s, tr) && tr.claim.Values?
    ensures Shape(c, s) && RenameRight(s, tr.hist, tr.committed, r)
  {
    hide SlotOk, UnitOk, LaneOk, EntryOk;
    assert RenameOk(c, s, tr, r);
    if s.reg.d[r] {
      LastWriterWrites(tr.hist, r, |tr.hist|, Owner(s, tr, s.reg.s[r]));
    }
  }

  lemma RenamesInFlight(c: Config, fix: Repairs, s: State, x0: RegVals, ins: seq<Input>)
    requires ConfigOk(c) && Initial(c, s, x0) && Clean(c, fix, s, ins)
    ensures var s', prog, k := Run(c, fix, s, ins), Accepted(c, fix, s, ins), Commits(c, fix, s, ins);
      forall r: RegNo :: RenameRight(s', prog, k, r)
  {
    hide InvAt, Clean, Run, Accepted, Commits, RenameRight;
    var s' := Run(c, fix, s, ins);
    var tr := Reached(c, fix, s, x0, ins);
    forall r: RegNo ensures RenameRight(s', tr.hist, tr.committed, r) {
      InvRenameRight(c, s', tr, r);
    }
  }

  /**
   * On every run of every build the forwarding loop of `commit` finds nobody waiting, so its early
   * exit loses nothing.
   */
  lemma ForwardingRedundant(c: Config, fix: Repairs, s: State, x0: RegVals, ins: seq<Input>, value: int32)
    requires ConfigOk(c) && Initial(c, s, x0) && Steps(c, fix, s, ins).Some?
    ensures var s' := Steps(c, fix, s, ins).value;
            RingOk(s'.rob) &&
            (HeadDone(s'.rob) ==> CommitForward(s'.exb, Tag(s'.rob.commitPtr), value, 0) == s'.exb)
  {
    assert Shape(c, s);
    hide InvAt, Initial, Meets, Steps, Taken, Retired, CommitForward;
    StepsMeet(c, fix, s, ins);
    var s' := Steps(c, fix, s, ins).value;
    var tr := ReachedBy(Tags, c, fix, s, x0, ins);
    InvShape(c, s', tr);
    if HeadDone(s'.rob) {
      CommitForwardRedundant(c, s', tr, value);
    }
  }

  // ---------------------------------------------------------------------------
  // Liveness
  // ---------------------------------------------------------------------------

  /** From anywhere a run that loses nothing leads, an engine with work open commits within 23 cycles a slot. */
  lemma CommitsAgain(c: Config, fix: Repairs, s: State, x0: RegVals, ins: seq<Input>, more: seq<Input>)
    requires ConfigOk(c) && Initial(c, s, x0) && Meets(Places, c, fix, s, ins)
    requires Steps(c, fix, s, ins).Some? && Shape(c, Steps(c, fix, s, ins).value)
    requires Meets(Places, c, fix, Steps(c, fix, s, ins).value, more)
    requires Steps(c, fix, s, ins).value.rob.cnt != 0 && |more| >= 23 * c.robSize
    ensures Steps(c, fix, Steps(c, fix, s, ins).value, more).Some?
    ensures Retired(c, fix, Steps(c, fix, s, ins).value, more) > 0
  {
    hide InvAt, Meets, Steps, Taken, Retired;
    var tr := ReachedBy(Places, c, fix, s, x0, ins);
    RunKeepsInv(c, fix, Steps(c, fix, s, ins).value, tr, more);
    NoStarvation(c, fix, Steps(c, fix, s, ins).value, tr, more);
  }

  /**
   * The two lines that get values wrong cost no progress: with room and lanes any build, the code as
   * written included, goes on committing, and empties the ring once nothing more is fetched.
   */
  lemma NothingStalls(c: Config, fix: Repairs, s: State, x0: RegVals, ins: seq<Input>, more: seq<Input>)
    requires ConfigOk(c) && Initial(c, s, x0) && EnoughRoom(c) && EnoughLanes(c, fix)
    requires |more| >= 23 * c.robSize
    ensures Steps(c, fix, s, ins).Some? && Steps(c, fix, Steps(c, fix, s, ins).value, more).Some?
    ensures Steps(c, fix, s, ins).value.rob.cnt != 0 ==> Retired(c, fix, Steps(c, fix, s, ins).value, more) > 0
    ensures Idle(more) ==> Steps(c, fix, Steps(c, fix, s, ins).value, more).value.rob.cnt == 0
  {
    assert Shape(c, s);
    hide InvAt, Initial, Meets, Steps, Taken, Retired, EnoughRoom, EnoughLanes, Work, Idle;
    EnoughLanesSteps(c, fix, s, x0, ins);
    EnoughLanesSteps(c, fix, s, x0, ins + more);
    StepsAppend(c, fix, s, ins, more);
    EnoughRoomSteps(c, fix, s, x0, ins);
    var t := Steps(c, fix, s, ins).value;
    var tr := ReachedBy(Places, c, fix, s, x0, ins);
    StepsMeet(c, fix, t, more);
    EnoughRoomMeets(c, fix, t, tr, more);
    if t.rob.cnt != 0 {
      NoStarvation(c, fix, t, tr, more);
    }
    if Idle(more) {
      Empties(c, fix, t, tr, more);
    }
  }

  // ---------------------------------------------------------------------------
  // Draining
  // ---------------------------------------------------------------------------

  lemma Empties(c: Config, fix: Repairs, s: State, tr: Track, idle: seq<Input>)
    requires Inv(c, s, tr) && !tr.claim.Tags? && ConfigOk(c) && Shape(c, s) && Meets(tr.claim, c, fix, s, idle)
    requires Idle(idle) && |idle| >= 23 * c.robSize
    ensures Steps(c, fix, s, idle).Some? && Steps(c, fix, s, idle).value.rob.cnt == 0
    ensures Taken(c, fix, s, idle) == []
  {
    hide InvAt, Meets, Steps, Taken, Work, Shape;
    InvTracks(c, s, tr);
    TotalBounds(c, s, tr, 0, 0, c.robSize);
    WorkIsTotal(c, s, tr, 0);
    IdleRun(c, fix, s, tr, idle);
  }

  lemma DrainsFrom(c: Config, fix: Repairs, s: State, tr: Track, idle: seq<Input>)
    requires Inv(c, s, tr) && tr.claim.Values? && ConfigOk(c) && Shape(c, s) && Clean(c, fix, s, idle)
    requires Idle(idle) && |idle| >= 23 * c.robSize
    ensures var s' := Run(c, fix, s, idle);
      s'.rob.cnt == 0 && s'.reg.x == Seq(c.alu, tr.x0, tr.hist, |tr.hist|)
  {
    hide Inv, Meets, Steps, Taken, Retired, Run, Accepted, Commits, Seq, RunTrack, Shape, Idle, ConfigOk;
    CleanSteps(c, fix, s, idle);
    Empties(c, fix, s, tr, idle);
    RunKeepsInv(c, fix, s, tr, idle);
    InvShape(c, Run(c, fix, s, idle), RunTrack(c, fix, s, tr, idle));
    assert tr.hist + [] == tr.hist;
  }

  /**
   * Bounded drain: once nothing more is fetched, 23 cycles a slot empty the ring, and the
   * registers then are those of the whole accepted program run in order.
   */
  lemma BoundedDrain(c: Config, fix: Repairs, s: State, x0: RegVals, ins: seq<Input>, idle: seq<Input>)
    requires ConfigOk(c) && Initial(c, s, x0) && Clean(c, fix, s, ins)
    requires Clean(c, fix, Run(c, fix, s, ins), idle)
    requires Idle(idle) && |idle| >= 23 * c.robSize
    ensures var s2, prog := Run(c, fix, Run(c, fix, s, ins), idle), Accepted(c, fix, s, ins);
      && s2.rob.cnt == 0
      && s2.reg.x == Seq(c.alu, x0, prog, |prog|)
  {
    hide InvAt, Clean, Run, Accepted, Commits, Seq;
    var tr := Reached(c, fix, s, x0, ins);
    DrainsFrom(c, fix, Run(c, fix, s, ins), tr, idle);
  }

  /**
   * Units, lanes, buffer sizes and latencies change only the time taken: two engines that start
   * from the same registers and accept the same program drain to the same registers.
   */
  lemma ConfigurationIndependence(c: Config, d: Config, fix: Repairs, gix: Repairs, s: State, t: State, x0: RegVals,
                                  ins: seq<Input>, jns: seq<Input>, idle: seq<Input>, jdle: seq<Input>)
    requires ConfigOk(c) && Initial(c, s, x0) && Clean(c, fix, s, ins)
    requires ConfigOk(d) && Initial(d, t, x0) && Clean(d, gix, t, jns)
    requires c.alu == d.alu && Accepted(c, fix, s, ins) == Accepted(d, gix, t, jns)
    requires Clean(c, fix, Run(c, fix, s, ins), idle)
    requires Clean(d, gix, Run(d, gix, t, jns), jdle)
    requires Idle(idle) && |idle| >= 23 * c.robSize
    requires Idle(jdle) && |jdle| >= 23 * d.robSize
    ensures Run(c, fix, Run(c, fix, s, ins), idle).reg.x == Run(d, gix, Run(d, gix, t, jns), jdle).reg.x
  {
    hide Clean, Run, Accepted, Seq;
    BoundedDrain(c, fix, s, x0, ins, idle);
    BoundedDrain(d, gix, t, x0, jns, jdle);
  }

  /** The shipped latencies satisfy what is asked of a configuration. */
  lemma ShippedLatencies(c: Config)
    requires c.cycles == U.AluGetCycle && 0 < c.robSize <= 256 && 0 < c.nbUnits && 0 < c.nbLanes
    ensures ConfigOk(c)
  {
  }

  // ---------------------------------------------------------------------------
  // Lanes that nothing has set
  // ---------------------------------------------------------------------------

  /**
   * `cdb_create` leaves the lanes as the allocator gave them. As long as none carries the one tag
   * that `rob_write` takes past the ring, stray results reach only slots that are not open, and the
   * first cycle behaves as if no lane had been valid.
   */
  lemma StrayLanesHarmless(c: Config, fix: Repairs, s: State, x0: RegVals, inst: Option<Instr>, junk: int32)
    requires Booted(c, s, x0) && LaneTagsOk(s)
    ensures var s' := DrainLanes(s, |s.cdb|);
      && TryDrain(s, |s.cdb|) == Some(s')
      && Initial(c, s', x0)
      && CycleDefined(fix, s) && CycleDefined(fix, s')
      && Cycle(c, fix, s', inst, junk) == Cycle(c, fix, s, inst, junk)
  {
    TryDrainExact(s, |s.cdb|);
    DrainedInitial(c, s, x0);
    NothingDone(s);
    SameFirstCycle(c, fix, s, inst, junk);
  }

  /** Exactly when the first write-back stays inside the ring. */
  lemma StrayLanesExact(c: Config, fix: Repairs, s: State, x0: RegVals)
    requires Booted(c, s, x0)
    ensures TryDrain(Commit(fix, s), |s.cdb|).Some? <==>
            forall l | 0 <= l < |s.cdb| && s.cdb[l].valid :: s.cdb[l].qr != c.robSize
  {
    TryDrainExact(s, |s.cdb|);
  }

  /** Lanes an allocator may leave, on any ring that a tag can point past, on which it does not. */
  lemma StrayTag(c: Config, fix: Repairs) returns (s: State, x0: RegVals)
    requires 0 < c.robSize < 256 && 0 < c.nbLanes
    ensures Booted(c, s, x0) && s.cdb[0].qr == c.robSize
    ensures TryDrain(Commit(fix, s), |s.cdb|).None?
  {
    x0 := seq(NREGS, _ => 0);
    s := State(Ring(seq(c.robSize, _ => RobEntry(0, 0, false)), 0, 0, 0),
               Regs(x0, seq(NREGS, _ => 0), seq(NREGS, _ => false)),
               seq(c.exbSize, _ => ExbEntry(0, 0, 0, 0, 0, 0, false, false, false, false)),
               seq(c.nbUnits, _ => Unit(0, 0, 0, false)),
               seq(c.nbLanes, _ => Lane(c.robSize, 0, true)));
    StrayLanesExact(c, fix, s, x0);
    assert s.cdb[0].valid;
  }

  lemma DrainedInitial(c: Config, s: State, x0: RegVals)
    requires Booted(c, s, x0)
    ensures Initial(c, DrainLanes(s, |s.cdb|), x0)
  {
  }

  lemma SameFirstCycle(c: Config, fix: Repairs, s: State, inst: Option<Instr>, junk: int32)
    requires Shape(c, s) && s.rob.cnt == 0 && DoneUnits(s.exu) == []
    ensures var s' := DrainLanes(s, |s.cdb|);
      && Shape(c, s')
      && CycleDefined(fix, s) && CycleDefined(fix, s')
      && Cycle(c, fix, s', inst, junk) == Cycle(c, fix, s, inst, junk)
  {
    hide WriteBack, Execute, IssueReady, Dispatch, CommitForward, DrainLanes;
    DrainedTwice(fix, s);
    PhasesKeepShape(c, fix, s);
    assert Commit(fix, s) == s;
    assert Commit(fix, DrainLanes(s, |s.cdb|)) == DrainLanes(s, |s.cdb|);
  }

  lemma NothingDone(s: State)
    requires forall u | 0 <= u < |s.exu| :: !s.exu[u].busy
    ensures DoneUnits(s.exu) == []
  {
    NoIndices(s.exu, UnitDone, |s.exu|);
  }

  lemma DrainedTwice(fix: Repairs, s: State)
    ensures var s' := DrainLanes(s, |s.cdb|);
      && LanesSuffice(fix, s) == LanesSuffice(fix, s')
      && (LanesSuffice(fix, s) ==> WriteBack(fix, s') == WriteBack(fix, s))
  {
    var s' := DrainLanes(s, |s.cdb|);
    QuietDrain(s', |s'.cdb|);
  }
}
