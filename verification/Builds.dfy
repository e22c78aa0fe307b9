/** Which builds do what their programs say: the conditions on sizes and repairs are the exact ones. */
module Builds {
  import opened Base
  import opened InOrder
  import opened ReorderBuffer
  import opened Machine
  import opened Invariant
  import opened Runs
  import opened Progress
  import opened Theorems
  import opened Cycles
  import opened ChainProof
  import opened Faults
  import U = Unit
  import opened LaneProof
  import opened CommitProof
  import opened DispatchProof

  // ---------------------------------------------------------------------------
  // Instructions that a full ring refuses
  // ---------------------------------------------------------------------------

  lemma {:induction false} TakenLinks(c: Config, fix: Repairs, s: State, ins: seq<Input>)
    requires Links(ins) && Steps(c, fix, s, ins).Some?
    ensures forall k | 0 <= k < |Taken(c, fix, s, ins)| :: OfChain(Taken(c, fix, s, ins)[k].rd)
    decreases |ins|
  {
    hide Cycle, CycleDefined, Shape, OfChain, BeforeDispatch;
    if ins != [] {
      assert forall k | 0 <= k < |ins[1..]| :: ins[1..][k] == ins[k + 1];
      TakenLinks(c, fix, Cycle(c, fix, s, ins[0].inst, ins[0].junk), ins[1..]);
    }
  }

  /** On a sound build the chain fills the ring, and what is fetched then is refused. */
  lemma FullRing(c: Config, fix: Repairs, s: State, x0: RegVals, slow: nat, i: Instr)
    returns (ins: seq<Input>)
    requires ConfigOk(c) && SoundBuild(c, fix) && Initial(c, s, x0)
    requires 3 <= c.cycles(slow) && slow < 0x400
    ensures Links(ins) && Steps(c, fix, s, ins + [Do(i)]).Some? && Steps(c, fix, s, ins).Some?
    ensures Taken(c, fix, s, ins + [Do(i)]) == Taken(c, fix, s, ins)
  {
    hide Initial, Chained, LosesNext, Steps, Clean, CycleDefined, FirstFree;
    var t, left, pos;
    ins, t, left, pos := ChainFills(c, fix, s, x0, slow, c.robSize);
    CountingShape(c, t, slow, left, pos);
    if t.rob.cnt < c.robSize {
      CountingLoses(c, fix, t, slow, left, pos);
      RoomNeverLoses(c, fix, s, x0, ins, NextLink(Execute(t), slow, c.robSize + 1));
      assert false;
    }
    ChainedTicks(c, fix, t, slow, left, c.robSize + 1, pos);
    StepsAppend(c, fix, s, ins, [Do(i)]);
    RefusedStep(c, fix, t, i);
    TakenAppend(c, fix, s, ins, Do(i));
  }

  lemma RefusedStep(c: Config, fix: Repairs, t: State, i: Instr)
    requires Shape(c, t) && CycleDefined(fix, t) && Full(BeforeDispatch(c, fix, t).rob)
    ensures Steps(c, fix, t, [Do(i)]).Some? && Taken(c, fix, t, [Do(i)]) == []
  {
    hide BeforeDispatch, CycleDefined, Shape;
  }

  /** x4 := `v` */
  function Store(v: int32): Instr { Instr(4, 0, Imm(v), U.F10_ADD) }

  /**
   * The program counter moves on past what dispatch refuses: for every sound build there is a
   * program after which, however long one waits, x4 is not what running it all in order gives.
   */
  lemma SkipsInstruction(c: Config, fix: Repairs, s: State, x0: RegVals, slow: nat, idle: seq<Input>)
    returns (ins: seq<Input>)
    requires ConfigOk(c) && SoundBuild(c, fix) && Initial(c, s, x0) && Adds(c.alu)
    requires 3 <= c.cycles(slow) && slow < 0x400
    requires Idle(idle) && |idle| >= 23 * c.robSize
    ensures Program(ins) && Clean(c, fix, s, ins) && Clean(c, fix, Run(c, fix, s, ins), idle)
    ensures var t := Run(c, fix, Run(c, fix, s, ins), idle);
      t.rob.cnt == 0 && t.reg.x[4] != Seq(c.alu, x0, Fetched(ins), |Fetched(ins)|)[4]
  {
    hide Initial, Clean, Run, Steps, Taken, Accepted, Seq, Links, InvAt, Adds;
    var v: int32 := if x0[4] == 1 then 2 else 1;
    var chain := FullRing(c, fix, s, x0, slow, Store(v));
    ins := chain + [Do(Store(v))];
    LinksProgram(chain, Store(v));
    var tr := SoundReached(c, fix, s, x0, ins, idle);
    BoundedDrain(c, fix, s, x0, ins, idle);
    CleanSteps(c, fix, s, ins);
    TakenLinks(c, fix, s, chain);
    var prog := Taken(c, fix, s, chain);
    SeqUnwritten(c.alu, x0, prog, 4, 0, |prog|);
    FirstSeq(c.alu, x0, prog);
    FetchedAppend(chain, Store(v), JUNK);
    StoredLast(c.alu, x0, Fetched(ins), v);
  }

  lemma FirstSeq(alu: AluOp, x0: RegVals, prog: seq<Instr>)
    ensures Seq(alu, x0, prog, 0) == x0
  {
  }

  lemma StoredLast(alu: AluOp, x0: RegVals, prog: seq<Instr>, v: int32)
    requires Adds(alu) && x0[0] == 0 && prog != [] && prog[|prog| - 1] == Store(v)
    ensures Seq(alu, x0, prog, |prog|)[4] == v
  {
    ZeroStays(alu, x0, prog, |prog| - 1);
  }

  lemma LinksProgram(ins: seq<Input>, i: Instr)
    requires Links(ins) && Encodes(i)
    ensures Program(ins + [Do(i)])
  {
  }

  lemma SoundReached(c: Config, fix: Repairs, s: State, x0: RegVals, ins: seq<Input>, idle: seq<Input>)
    returns (tr: Track)
    requires ConfigOk(c) && SoundBuild(c, fix) && Initial(c, s, x0)
    ensures Shape(c, s) && x0[0] == 0
    ensures Clean(c, fix, s, ins) && Clean(c, fix, Run(c, fix, s, ins), idle)
  {
    assert Shape(c, s) && x0[0] == 0;
    InitialInv(c, s, x0);
    hide Initial, Clean, Run, InvAt;
    SoundBuildIsClean(c, fix, s, InitialTrack(c, x0), ins);
    tr := Reached(c, fix, s, x0, ins);
    SoundBuildIsClean(c, fix, Run(c, fix, s, ins), tr, idle);
  }

  // ---------------------------------------------------------------------------
  // The sound builds are the only ones
  // ---------------------------------------------------------------------------

  /** A run that reaches a state whose guards fail for `x` is not clean when `x` comes next. */
  lemma Unclean(c: Config, fix: Repairs, s: State, ins: seq<Input>, t: State, x: Input)
    requires Shape(c, s) && Steps(c, fix, s, ins) == Some(t) && Shape(c, t) && !CycleGuard(c, fix, t, x.inst)
    requires Program(ins) && (x.inst.Some? ==> Encodes(x.inst.value))
    ensures Program(ins + [x]) && !Clean(c, fix, s, ins + [x])
  {
    OneMoreProgram(ins, x);
    hide Allows, Steps, Encodes, Meets, Program;
    if Clean(c, fix, s, ins + [x]) {
      MeetsToTheEnd(Values, c, fix, s, ins, x);
    }
  }

  /** The guard of the first clause of `SoundBuild` that does not hold fails in state `t`. */
  predicate GuardFails(c: Config, fix: Repairs, t: State, i: Instr)
    requires Shape(c, t)
  {
    if !EnoughRoom(c) then LosesNext(c, fix, t, i)
    else if c.robSize != 1 && !fix.tagClear then !CommitGuard(fix, t)
    else if c.robSize != 1 && !fix.kToVk then
      CycleDefined(fix, t) && AcceptsIn(c, fix, t, Some(i)) && !OperandGuard(fix, BeforeDispatch(c, fix, t), i)
    else !LanesSuffice(fix, Commit(fix, t))
  }

  lemma GuardFailsUnguarded(c: Config, fix: Repairs, t: State, i: Instr)
    requires Shape(c, t) && GuardFails(c, fix, t, i)
    ensures !CycleGuard(c, fix, t, Some(i))
  {
    hide BeforeDispatch, CommitGuard, OperandGuard, RoomGuard, EnoughRoom, Commit, LanesSuffice, Full;
  }

  /** What the programs on which a build goes wrong need of the latencies; those of unit.c have it. */
  predicate Latencies(c: Config, fix: Repairs, slow: nat, quick: nat) {
    && c.cycles(U.F10_ADD) == 1 && 3 <= c.cycles(slow) && slow < 0x400
    && (EnoughLanes(c, fix) || Quick(c, slow, quick))
  }

  /** For a build that is not sound, a program that leads to a state in which the guard concerned fails. */
  lemma UnsoundFails(c: Config, fix: Repairs, s: State, x0: RegVals, slow: nat, quick: nat)
    returns (ins: seq<Input>, t: State, i: Instr)
    requires ConfigOk(c) && Initial(c, s, x0) && !SoundBuild(c, fix) && Latencies(c, fix, slow, quick)
    ensures Program(ins) && Steps(c, fix, s, ins) == Some(t)
    ensures Encodes(i) && Shape(c, t) && GuardFails(c, fix, t, i)
  {
    assert Shape(c, s);
    hide Initial, Steps, CycleDefined, CommitGuard, Program, Stray, Fetched, Seq, LosesNext, Commit, LanesSuffice;
    i := FirstOf(slow);
    if !EnoughRoom(c) {
      ins, t, i := ChainLoses(c, fix, s, x0, slow);
      LosesShape(c, fix, t, i);
    } else if c.robSize != 1 && !fix.tagClear {
      var u;
      t, u := OverwriteFails(c, fix, s, x0);
      ins := OVERWRITE[..5];
      PrefixProgram(OVERWRITE, 5);
    } else if c.robSize != 1 && !fix.kToVk {
      var u;
      t, u := StrayFails(c, fix, s, x0, 0);
      ins, i := Stray(0)[..4], Sum();
      PrefixProgram(Stray(0), 4);
    } else {
      ins, t := CrowdOverflow(c, fix, s, x0, slow, quick);
    }
  }

  lemma LosesShape(c: Config, fix: Repairs, t: State, i: Instr)
    requires LosesNext(c, fix, t, i)
    ensures Shape(c, t)
  {
  }

  lemma PrefixProgram(ins: seq<Input>, k: nat)
    requires Program(ins) && k <= |ins|
    ensures Program(ins[..k])
  {
  }

  /**
   * Whatever the sizes and repairs, the guards hold on every program exactly for a sound build.
   * `slow` and `quick` are operations of the latencies the programs need.
   */
  lemma SoundBuildExact(c: Config, fix: Repairs, s: State, x0: RegVals, slow: nat, quick: nat)
    requires ConfigOk(c) && Initial(c, s, x0) && Latencies(c, fix, slow, quick)
    ensures Shape(c, s) && ((forall ins | Program(ins) :: Clean(c, fix, s, ins)) <==> SoundBuild(c, fix))
  {
    assert Shape(c, s);
    InitialInv(c, s, x0);
    hide Initial, Clean, Program, Steps, Latencies, GuardFails, Allows, InvAt;
    if SoundBuild(c, fix) {
      forall ins | Program(ins) ensures Clean(c, fix, s, ins) {
        SoundBuildIsClean(c, fix, s, InitialTrack(c, x0), ins);
      }
    } else {
      var ins, t, i := UnsoundFails(c, fix, s, x0, slow, quick);
      GuardFailsUnguarded(c, fix, t, i);
      Unclean(c, fix, s, ins, t, Do(i));
    }
  }

  /** The same with the latencies of unit.c. */
  lemma TableBuildExact(c: Config, fix: Repairs, s: State, x0: RegVals)
    requires ConfigOk(c) && Initial(c, s, x0) && c.cycles == U.AluGetCycle
    ensures Shape(c, s) && ((forall ins | Program(ins) :: Clean(c, fix, s, ins)) <==> SoundBuild(c, fix))
  {
    SoundBuildExact(c, fix, s, x0, U.F10_MULHU, 0x010);
  }

  /** The code as written behaves on every program exactly with a single slot. */
  lemma AsWrittenExact(c: Config, s: State, x0: RegVals)
    requires ConfigOk(c) && Initial(c, s, x0) && c.cycles == U.AluGetCycle
    ensures Shape(c, s)
    ensures (forall ins | Program(ins) :: Clean(c, AS_WRITTEN, s, ins)) <==> 0 < c.exbSize && c.robSize == 1
  {
    TableBuildExact(c, AS_WRITTEN, s, x0);
    hide Initial, Clean, Program;
  }

  // ---------------------------------------------------------------------------
  // Without the tag check (sw/src/reg.c:68-69)
  // ---------------------------------------------------------------------------

  /** What the cycle after the run `ins` commits, nothing accepted after it and still in flight overwrites. */
  ghost predicate LastOfItsRegister(c: Config, fix: Repairs, s: State, ins: seq<Input>)
    requires Steps(c, fix, s, ins).Some?
  {
    var t, prog, k := Steps(c, fix, s, ins).value, Taken(c, fix, s, ins), Retired(c, fix, s, ins);
    Shape(c, t) && HeadDone(t.rob) && k < |prog| ==>
      prog[k].rd == 0 || forall n | k < n < |prog| :: prog[n].rd != prog[k].rd
  }

  lemma AllowsDefined(p: Claim, c: Config, fix: Repairs, s: State, inst: Option<Instr>)
    requires Shape(c, s) && Allows(p, c, fix, s, inst)
    ensures CycleDefined(fix, s)
  {
  }

  lemma {:induction false} MeetsAppend(p: Claim, c: Config, fix: Repairs, s: State, ins: seq<Input>, x: Input)
    requires Shape(c, s) && Meets(p, c, fix, s, ins)
    requires Steps(c, fix, s, ins).Some? && Shape(c, Steps(c, fix, s, ins).value)
    requires Allows(p, c, fix, Steps(c, fix, s, ins).value, x.inst)
    ensures Meets(p, c, fix, s, ins + [x])
    decreases |ins|
  {
    hide Cycle, Allows, CycleDefined, Shape;
    if ins == [] {
      assert [] + [x] == [x];
      AllowsDefined(p, c, fix, s, x.inst);
    } else {
      AllowsDefined(p, c, fix, s, ins[0].inst);
      assert (ins + [x])[0] == ins[0] && (ins + [x])[1..] == ins[1..] + [x];
      MeetsAppend(p, c, fix, Cycle(c, fix, s, ins[0].inst, ins[0].junk), ins[1..], x);
    }
  }

  lemma {:induction false} MeetsPrefix(p: Claim, c: Config, fix: Repairs, s: State, ins: seq<Input>, x: Input)
    requires Shape(c, s) && Meets(p, c, fix, s, ins + [x])
    ensures Meets(p, c, fix, s, ins)
    decreases |ins|
  {
    hide Cycle, Allows, CycleDefined, Shape;
    if ins != [] {
      AllowsDefined(p, c, fix, s, ins[0].inst);
      assert (ins + [x])[0] == ins[0] && (ins + [x])[1..] == ins[1..] + [x];
      MeetsPrefix(p, c, fix, Cycle(c, fix, s, ins[0].inst, ins[0].junk), ins[1..], x);
    }
  }

  /** One more cycle of a build that lacks nothing but the tag check. */
  lemma NextCycleClean(c: Config, fix: Repairs, s: State, x0: RegVals, ins: seq<Input>, x: Input)
    requires ConfigOk(c) && Initial(c, s, x0) && EnoughRoom(c) && EnoughLanes(c, fix) && fix.kToVk && !fix.tagClear
    requires Clean(c, fix, s, ins) && Steps(c, fix, s, ins).Some?
    ensures Shape(c, s) && (Clean(c, fix, s, ins + [x]) <==> LastOfItsRegister(c, fix, s, ins))
  {
    assert Shape(c, s);
    hide InvAt, Initial, Meets, Steps, Taken, Retired, EnoughRoom, EnoughLanes, CommitGuard, OperandGuard, RoomGuard,
         BeforeDispatch, TrackBeforeDispatch, CycleDefined, Shape;
    var t := Steps(c, fix, s, ins).value;
    var tr := ReachedBy(Values, c, fix, s, x0, ins);
    InvShape(c, t, tr);
    EnoughLanesDefined(c, fix, t, tr);
    GuardIsLast(c, fix, t, tr);
    if CommitGuard(fix, t) {
      EnoughRoomDispatch(c, fix, t, tr, x.inst);
      BackendKeepsInv(c, fix, t, tr);
      if AcceptsIn(c, fix, t, x.inst) {
        SoundOperand(c, fix, BeforeDispatch(c, fix, t), TrackBeforeDispatch(c, fix, t, tr), x.inst.value);
      }
      MeetsAppend(Values, c, fix, s, ins, x);
    } else if Clean(c, fix, s, ins + [x]) {
      MeetsToTheEnd(Values, c, fix, s, ins, x);
    }
  }

  lemma GuardIsLast(c: Config, fix: Repairs, t: State, tr: Track)
    requires Inv(c, t, tr) && tr.claim.Values? && !fix.tagClear
    ensures Shape(c, t)
    ensures CommitGuard(fix, t) <==>
            (HeadDone(t.rob) && tr.committed < |tr.hist| ==>
               var rd := tr.hist[tr.committed].rd;
               rd == 0 || forall n | tr.committed < n < |tr.hist| :: tr.hist[n].rd != rd)
  {
    InvShape(c, t, tr);
    if HeadDone(t.rob) {
      hide InvAt;
      CommitGuardMeaning(c, fix, t, tr);
    }
  }

  ghost predicate NoneOverwritten(c: Config, fix: Repairs, s: State, ins: seq<Input>, n: nat)
    requires n <= |ins|
  {
    forall j | 0 <= j < n && Steps(c, fix, s, ins[..j]).Some? :: LastOfItsRegister(c, fix, s, ins[..j])
  }

  lemma OverwrittenNext(c: Config, fix: Repairs, s: State, ins: seq<Input>, n: nat)
    requires n <= |ins|
    ensures NoneOverwritten(c, fix, s, ins, 0)
    ensures n != 0 && Steps(c, fix, s, ins[..n - 1]).Some? ==>
              (NoneOverwritten(c, fix, s, ins, n) <==>
                 NoneOverwritten(c, fix, s, ins, n - 1) && LastOfItsRegister(c, fix, s, ins[..n - 1]))
  {
    hide LastOfItsRegister, Steps;
  }

  /** A build that lacks nothing but the tag check. */
  predicate Unchecked(c: Config, fix: Repairs) { EnoughRoom(c) && EnoughLanes(c, fix) && fix.kToVk && !fix.tagClear }

  lemma UncheckedNext(c: Config, fix: Repairs, s: State, x0: RegVals, ins: seq<Input>, x: Input)
    requires ConfigOk(c) && Initial(c, s, x0) && Unchecked(c, fix)
    ensures Shape(c, s) && Steps(c, fix, s, ins).Some?
    ensures Clean(c, fix, s, ins + [x]) <==> Clean(c, fix, s, ins) && LastOfItsRegister(c, fix, s, ins)
  {
    assert Shape(c, s);
    EnoughLanesSteps(c, fix, s, x0, ins);
    hide Initial, Clean, Steps, Shape, LastOfItsRegister, EnoughLanes, EnoughRoom, CycleDefined;
    if Clean(c, fix, s, ins) {
      NextCycleClean(c, fix, s, x0, ins, x);
    } else {
      CleanPrefix(c, fix, s, ins, x);
    }
  }

  lemma {:induction false} UncheckedUpTo(c: Config, fix: Repairs, s: State, x0: RegVals, ins: seq<Input>, n: nat)
    requires ConfigOk(c) && Initial(c, s, x0) && Unchecked(c, fix) && Shape(c, s) && n <= |ins|
    ensures Clean(c, fix, s, ins[..n]) <==> NoneOverwritten(c, fix, s, ins, n)
    decreases n
  {
    hide Initial, Clean, Steps, Shape, LastOfItsRegister, ConfigOk, NoneOverwritten, Unchecked;
    OverwrittenNext(c, fix, s, ins, n);
    if n == 0 {
      NoneMeets(c, fix, s);
    } else {
      UncheckedUpTo(c, fix, s, x0, ins, n - 1);
      UncheckedNext(c, fix, s, x0, ins[..n - 1], ins[n - 1]);
      assert ins[..n] == ins[..n - 1] + [ins[n - 1]];
    }
  }

  lemma CleanPrefix(c: Config, fix: Repairs, s: State, ins: seq<Input>, x: Input)
    requires Shape(c, s)
    ensures Clean(c, fix, s, ins + [x]) ==> Clean(c, fix, s, ins)
  {
    hide Meets, Shape;
    if Clean(c, fix, s, ins + [x]) {
      MeetsPrefix(Values, c, fix, s, ins, x);
    }
  }

  /**
   * What the program has to do for a build that lacks nothing but the tag check to behave: none of the
   * instructions it commits is overwritten by one accepted before that commit.
   */
  lemma UncheckedExact(c: Config, fix: Repairs, s: State, x0: RegVals, ins: seq<Input>)
    requires ConfigOk(c) && Initial(c, s, x0) && Unchecked(c, fix)
    ensures Shape(c, s) && (Clean(c, fix, s, ins) <==> NoneOverwritten(c, fix, s, ins, |ins|))
  {
    UncheckedUpTo(c, fix, s, x0, ins, |ins|);
    assert ins[..|ins|] == ins;
  }

  lemma NoneMeets(c: Config, fix: Repairs, s: State)
    requires Shape(c, s)
    ensures Clean(c, fix, s, [])
  {
  }
}
