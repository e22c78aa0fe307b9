/**
 * What survives of the rename table whatever the build: sw/src/reg.c:62-95. Clearing the flag on
 * every commit loses dirty marks, but a mark that is there always names the youngest live writer.
 */
module RenameProof {
  import opened Base
  import opened InOrder
  import opened ReorderBuffer
  import opened RegisterFile
  import opened Machine
  import opened Invariant
  import opened CommitProof
  import opened DispatchProof
  import opened Runs
  import opened Theorems

  /** Register `r`, if dirty, awaits its youngest writer among `prog`, of which `k` are committed. */
  ghost predicate MarkRight(s: State, prog: seq<Instr>, k: nat, r: RegNo)
    requires RegsOk(s.reg, NREGS)
  {
    s.reg.d[r] ==>
      && Live(s.rob, s.reg.s[r]) && 0 <= Dist(s.rob, s.reg.s[r])
      && LastWriter(prog, r, |prog|, k + Dist(s.rob, s.reg.s[r]))
  }

  ghost predicate MarksRight(c: Config, s: State, prog: seq<Instr>, k: nat) {
    && Shape(c, s) && |prog| == k + s.rob.cnt
    && forall r: RegNo :: MarkRight(s, prog, k, r)
  }

  lemma InvMarks(c: Config, s: State, tr: Track)
    requires Inv(c, s, tr)
    ensures MarksRight(c, s, tr.hist, tr.committed)
  {
    hide LastWriter, SlotOk, UnitOk, LaneOk, EntryOk;
    forall r: RegNo ensures MarkRight(s, tr.hist, tr.committed, r) {
      assert RenameOk(c, s, tr, r);
    }
  }

  /**
   * Every build, the code as written included, on every run: a dirty mark names the youngest live
   * writer of its register in the program the run accepts.
   */
  lemma MarksOnEveryRun(c: Config, fix: Repairs, s: State, tr: Track, ins: seq<Input>)
    requires Inv(c, s, tr) && ConfigOk(c) && Steps(c, fix, s, ins).Some?
    ensures MarksRight(c, Steps(c, fix, s, ins).value, tr.hist + Taken(c, fix, s, ins),
                       tr.committed + Retired(c, fix, s, ins))
  {
    hide InvAt, Steps, Taken, Retired, Meets, RunTrack;
    InvShape(c, s, tr);
    ClaimLess(c, s, tr, Tags);
    StepsMeet(c, fix, s, ins);
    RunKeepsInv(c, fix, s, tr.(claim := Tags), ins);
    InvMarks(c, Steps(c, fix, s, ins).value, RunTrack(c, fix, s, tr.(claim := Tags), ins));
  }

  /** A run from lanes the allocator left is one from no lanes at all. */
  lemma StrayRun(c: Config, fix: Repairs, s: State, x0: RegVals, ins: seq<Input>)
    requires Booted(c, s, x0) && LaneTagsOk(s) && ins != [] && Steps(c, fix, s, ins).Some?
    ensures var s' := DrainLanes(s, |s.cdb|);
      && Initial(c, s', x0) && Steps(c, fix, s', ins) == Steps(c, fix, s, ins)
      && Taken(c, fix, s', ins) == Taken(c, fix, s, ins) && Retired(c, fix, s', ins) == Retired(c, fix, s, ins)
  {
    StrayLanesHarmless(c, fix, s, x0, ins[0].inst, ins[0].junk);
    StrayLanesHarmless(c, fix, s, x0, None, 0);
    SameBackend(c, fix, s);
    SameBackend(c, fix, DrainLanes(s, |s.cdb|));
    hide Cycle, CycleDefined, BeforeDispatch, DrainLanes, TryDrain, LaneTagsOk;
  }

  lemma SameBackend(c: Config, fix: Repairs, s: State)
    requires Shape(c, s) && CycleDefined(fix, s)
    ensures Cycle(c, fix, s, None, 0) == BeforeDispatch(c, fix, s)
  {
  }

  lemma InitialMarks(c: Config, fix: Repairs, s: State, x0: RegVals, ins: seq<Input>)
    requires ConfigOk(c) && Initial(c, s, x0) && Steps(c, fix, s, ins).Some?
    ensures MarksRight(c, Steps(c, fix, s, ins).value, Taken(c, fix, s, ins), Retired(c, fix, s, ins))
  {
    assert Shape(c, s);
    hide Initial, Inv, MarksRight, Steps, Taken, Retired, Meets, Shape;
    StepsMeet(c, fix, s, ins);
    var tr := ReachedBy(Tags, c, fix, s, x0, ins);
    InvMarks(c, Steps(c, fix, s, ins).value, tr);
  }

  lemma BootedMarks(c: Config, s: State, x0: RegVals)
    requires Booted(c, s, x0)
    ensures MarksRight(c, s, [], 0)
  {
  }

  /** The same from initialisation, lanes the allocator left included. */
  lemma MarksFromStart(c: Config, fix: Repairs, s: State, x0: RegVals, ins: seq<Input>)
    requires ConfigOk(c) && Booted(c, s, x0) && LaneTagsOk(s) && Steps(c, fix, s, ins).Some?
    ensures MarksRight(c, Steps(c, fix, s, ins).value, Taken(c, fix, s, ins), Retired(c, fix, s, ins))
  {
    hide Booted, Initial, MarksRight, LaneTagsOk, DrainLanes, Cycle, CycleDefined;
    if ins == [] {
      BootedMarks(c, s, x0);
    } else {
      StrayRun(c, fix, s, x0, ins);
      InitialMarks(c, fix, DrainLanes(s, |s.cdb|), x0, ins);
    }
  }

  // ---------------------------------------------------------------------------
  // What a lost mark costs
  // ---------------------------------------------------------------------------

  /** Nothing between commit and dispatch touches registers, renames or counters. */
  lemma MiddleFrame(c: Config, fix: Repairs, s: State)
    requires Shape(c, s) && LanesSuffice(fix, s)
    ensures var s' := IssueReady(c, Execute(WriteBack(fix, s)));
      Shape(c, s') && s'.reg == s.reg && s'.rob == s.rob.(data := s'.rob.data)
  {
    PhasesKeepShape(c, fix, s);
    PhasesKeepShape(c, fix, WriteBack(fix, s));
    PhasesKeepShape(c, fix, Execute(WriteBack(fix, s)));
  }

  /** A commit whose guard fails takes the mark of a register that a younger instruction will write. */
  lemma MarkLost(c: Config, fix: Repairs, s: State, tr: Track) returns (m: nat)
    requires Inv(c, s, tr) && tr.claim.Values? && HeadDone(s.rob) && !CommitGuard(fix, s)
    ensures var rd, s' := s.rob.data[s.rob.commitPtr].dest, Commit(fix, s);
      && rd < NREGS && tr.committed < m < |tr.hist|
      && LastWriter(tr.hist, rd, |tr.hist|, m)
      && RegsOk(s'.reg, NREGS) && !s'.reg.d[rd]
      && s'.reg.x[rd] == ResultOf(c, tr, tr.committed)
  {
    hide Seq, Result, CommitForward, Pop, LastWriter;
    var rd := s.rob.data[s.rob.commitPtr].dest;
    assert SlotOk(c, s, tr, s.rob.commitPtr);
    assert RenameOk(c, s, tr, rd);
    assert tr.hist[tr.committed].rd == rd;
    m := Owner(s, tr, s.reg.s[rd]);
    LastWriterWrites(tr.hist, rd, |tr.hist|, m);
  }

  /**
   * After such a commit an instruction that reads the register takes the committed value for it,
   * where program order has the younger writer's result: wrong whenever the two differ.
   */
  lemma StaleRead(c: Config, fix: Repairs, s: State, tr: Track, i: Instr, junk: int32) returns (m: nat)
    requires Inv(c, s, tr) && tr.claim.Values? && Shape(c, s) && CycleDefined(fix, s)
    requires HeadDone(s.rob) && !CommitGuard(fix, s) && i.rs1 == s.rob.data[s.rob.commitPtr].dest
    ensures tr.committed < m < |tr.hist|
    ensures var o := ReadOperand(Opened(BeforeDispatch(c, fix, s), i), i.rs1, junk);
            o.ready && o.v == ResultOf(c, tr, tr.committed)
    ensures Before(c, tr, |tr.hist|)[i.rs1] == ResultOf(c, tr, m)
  {
    m := MarkLost(c, fix, s, tr);
    hide InvAt, Result, WriteBack, IssueReady, Execute, LanesSuffice, CommitForward, Pop, LastWriter;
    PhasesKeepShape(c, fix, s);
    MiddleFrame(c, fix, Commit(fix, s));
    LastWriterValue(c.alu, tr.x0, tr.hist, i.rs1, |tr.hist|, m);
  }
}
