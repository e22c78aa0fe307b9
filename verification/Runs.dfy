/** Whole runs of the engine: safety against the in-order machine. */
module Runs {
  import opened Base
  import opened InOrder
  import opened ReorderBuffer
  import opened Machine
  import opened Invariant
  import opened CommitProof
  import opened WriteBackProof
  import opened IssueProof
  import opened DispatchProof
  import opened RoomProof

  /** What one call of `engine_run` meets: the word it fetched and what an unset variable holds. */
  datatype Input = Input(inst: Option<Instr>, junk: int32)

  // ---------------------------------------------------------------------------
  // One cycle
  // ---------------------------------------------------------------------------

  /** What an invariant that claims `p` asks of a cycle, of each phase on the state just before it. */
  predicate Allows(p: Claim, c: Config, fix: Repairs, s: State, inst: Option<Instr>)
    requires Shape(c, s)
  {
    && (p.Values? ==> CommitGuard(fix, s))
    && CycleDefined(fix, s)
    && DispatchAllows(p, fix, BeforeDispatch(c, fix, s), inst)
  }

  /** The guards under which the code in hand behaves. */
  predicate CycleGuard(c: Config, fix: Repairs, s: State, inst: Option<Instr>)
    requires Shape(c, s)
  {
    Allows(Values, c, fix, s, inst)
  }

  ghost function TrackBeforeDispatch(c: Config, fix: Repairs, s: State, tr: Track): Track
    requires Shape(c, s) && CycleDefined(fix, s)
  {
    var s1, tr1 := Commit(fix, s), CommitTrack(s, tr);
    var s2, tr2 := WriteBack(fix, s1), WriteBackTrack(fix, s1, tr1);
    IssueTrack(c, Execute(s2), tr2)
  }

  ghost function NextTrack(c: Config, fix: Repairs, s: State, tr: Track, inst: Option<Instr>): Track
    requires Shape(c, s) && CycleDefined(fix, s)
  {
    DispatchTrack(BeforeDispatch(c, fix, s), TrackBeforeDispatch(c, fix, s, tr), inst)
  }

  lemma InvShape(c: Config, s: State, tr: Track)
    requires Inv(c, s, tr)
    ensures Shape(c, s) && |tr.hist| == tr.committed + s.rob.cnt && |tr.loc| == c.robSize
    ensures s.rob.issuePtr < |tr.loc|
    ensures tr.claim.Values? ==> s.reg.x == Before(c, tr, tr.committed)
  {
  }

  /** Commit, write-back, execute and issue, one after the other. */
  lemma BackendKeepsInv(c: Config, fix: Repairs, s: State, tr: Track)
    requires Inv(c, s, tr) && ConfigOk(c) && (tr.claim.Values? ==> CommitGuard(fix, s)) && CycleDefined(fix, s)
    ensures Shape(c, s)
    ensures Inv(c, BeforeDispatch(c, fix, s), TrackBeforeDispatch(c, fix, s, tr))
  {
    hide InvAt;
    InvShape(c, s, tr);
    var s1, tr1 := Commit(fix, s), CommitTrack(s, tr);
    CommitKeepsInv(c, fix, s, tr);
    var s2, tr2 := WriteBack(fix, s1), WriteBackTrack(fix, s1, tr1);
    WriteBackKeepsInv(c, fix, s1, tr1);
    ExecuteKeepsInv(c, s2, tr2);
    IssueKeepsInv(c, Execute(s2), tr2);
  }

  lemma CycleKeepsInv(c: Config, fix: Repairs, s: State, tr: Track, input: Input)
    requires Inv(c, s, tr) && ConfigOk(c) && Shape(c, s) && Allows(tr.claim, c, fix, s, input.inst)
    ensures Inv(c, Cycle(c, fix, s, input.inst, input.junk), NextTrack(c, fix, s, tr, input.inst))
  {
    hide InvAt;
    BackendKeepsInv(c, fix, s, tr);
    TrackClaim(c, fix, s, tr);
    DispatchKeepsInv(c, fix, BeforeDispatch(c, fix, s), TrackBeforeDispatch(c, fix, s, tr), input.inst, input.junk);
  }

  /** No phase changes what is claimed. */
  lemma TrackClaim(c: Config, fix: Repairs, s: State, tr: Track)
    requires Shape(c, s) && CycleDefined(fix, s)
    ensures TrackBeforeDispatch(c, fix, s, tr).claim == tr.claim
    ensures TrackBeforeDispatch(c, fix, s, tr).x0 == tr.x0
    ensures TrackBeforeDispatch(c, fix, s, tr).hist == tr.hist
    ensures TrackBeforeDispatch(c, fix, s, tr).committed == tr.committed + (if HeadDone(s.rob) then 1 else 0)
  {
    hide Commit, LanesSuffice, Execute;
    var s1, tr1 := Commit(fix, s), CommitTrack(s, tr);
    var s2, tr2 := WriteBack(fix, s1), WriteBackTrack(fix, s1, tr1);
    WriteBackTrackProgram(fix, s1, tr1);
    var s3 := Execute(s2);
    IssueManyTrackProgram(c, s3, tr2, FreeUnits(s3.exu), ReadyEntries(s3.exb), NbIssue(s3));
  }

  predicate AcceptsIn(c: Config, fix: Repairs, s: State, inst: Option<Instr>)
    requires Shape(c, s) && CycleDefined(fix, s)
  {
    Accepts(BeforeDispatch(c, fix, s), inst)
  }

  /** A cycle extends the accepted program by what it accepts and the committed part by what it commits. */
  lemma NextTrackProgram(c: Config, fix: Repairs, s: State, tr: Track, inst: Option<Instr>)
    requires Inv(c, s, tr) && ConfigOk(c) && Shape(c, s)
    requires (tr.claim.Values? ==> CommitGuard(fix, s)) && CycleDefined(fix, s)
    ensures var tr' := NextTrack(c, fix, s, tr, inst);
      && tr'.x0 == tr.x0 && tr'.claim == tr.claim
      && tr'.hist == tr.hist + (if AcceptsIn(c, fix, s, inst) then [inst.value] else [])
      && tr'.committed == tr.committed + (if HeadDone(s.rob) then 1 else 0)
  {
    hide InvAt, TrackBeforeDispatch, CommitGuard, CycleDefined;
    TrackClaim(c, fix, s, tr);
    BackendKeepsInv(c, fix, s, tr);
    InvShape(c, BeforeDispatch(c, fix, s), TrackBeforeDispatch(c, fix, s, tr));
    assert tr.hist + [] == tr.hist;
  }

  // ---------------------------------------------------------------------------
  // Runs
  // ---------------------------------------------------------------------------

  /** Cycles for as long as they are defined, guards or no guards. */
  function Steps(c: Config, fix: Repairs, s: State, ins: seq<Input>): Option<State>
    decreases |ins|
  {
    if ins == [] then Some(s)
    else if Shape(c, s) && CycleDefined(fix, s) then
      Steps(c, fix, Cycle(c, fix, s, ins[0].inst, ins[0].junk), ins[1..])
    else None
  }

  /** What such a run accepts, in order. */
  function Taken(c: Config, fix: Repairs, s: State, ins: seq<Input>): seq<Instr>
    requires Steps(c, fix, s, ins).Some?
    decreases |ins|
  {
    if ins == [] then [] else
    (if AcceptsIn(c, fix, s, ins[0].inst) then [ins[0].inst.value] else [])
    + Taken(c, fix, Cycle(c, fix, s, ins[0].inst, ins[0].junk), ins[1..])
  }

  /** And how many it commits. */
  function Retired(c: Config, fix: Repairs, s: State, ins: seq<Input>): nat
    requires Steps(c, fix, s, ins).Some?
    decreases |ins|
  {
    if ins == [] then 0 else
    (if HeadDone(s.rob) then 1 else 0) + Retired(c, fix, Cycle(c, fix, s, ins[0].inst, ins[0].junk), ins[1..])
  }

  /** Every cycle of the run meets what an invariant that claims `p` asks. */
  predicate Meets(p: Claim, c: Config, fix: Repairs, s: State, ins: seq<Input>)
    requires Shape(c, s)
    decreases |ins|
  {
    ins != [] ==>
      && Allows(p, c, fix, s, ins[0].inst)
      && Meets(p, c, fix, Cycle(c, fix, s, ins[0].inst, ins[0].junk), ins[1..])
  }

  ghost function RunTrack(c: Config, fix: Repairs, s: State, tr: Track, ins: seq<Input>): Track
    requires Steps(c, fix, s, ins).Some?
    decreases |ins|
  {
    if ins == [] then tr else
    RunTrack(c, fix, Cycle(c, fix, s, ins[0].inst, ins[0].junk), NextTrack(c, fix, s, tr, ins[0].inst), ins[1..])
  }

  /** A run that meets what the invariant asks keeps it, and the program grows by what the run accepts. */
  lemma {:induction false} RunKeepsInv(c: Config, fix: Repairs, s: State, tr: Track, ins: seq<Input>)
    requires Inv(c, s, tr) && ConfigOk(c) && Shape(c, s) && Meets(tr.claim, c, fix, s, ins)
    ensures Steps(c, fix, s, ins).Some?
    ensures Inv(c, Steps(c, fix, s, ins).value, RunTrack(c, fix, s, tr, ins))
    ensures RunTrack(c, fix, s, tr, ins).x0 == tr.x0 && RunTrack(c, fix, s, tr, ins).claim == tr.claim
    ensures RunTrack(c, fix, s, tr, ins).hist == tr.hist + Taken(c, fix, s, ins)
    ensures RunTrack(c, fix, s, tr, ins).committed == tr.committed + Retired(c, fix, s, ins)
    decreases |ins|
  {
    hide InvAt, Shape, BeforeDispatch, Dispatch, CommitGuard, DispatchAllows, LanesSuffice, Commit, NextTrack, Accepts;
    if ins == [] {
      assert tr.hist + [] == tr.hist;
    } else {
      CycleKeepsInv(c, fix, s, tr, ins[0]);
      NextTrackProgram(c, fix, s, tr, ins[0].inst);
      RunKeepsInv(c, fix, Cycle(c, fix, s, ins[0].inst, ins[0].junk), NextTrack(c, fix, s, tr, ins[0].inst), ins[1..]);
    }
  }

  /** What one invariant asks of a run is enough for any that claims less. */
  lemma {:induction false} MeetsLess(p: Claim, q: Claim, c: Config, fix: Repairs, s: State, ins: seq<Input>)
    requires Shape(c, s) && Meets(q, c, fix, s, ins) && AtMost(p, q)
    ensures Meets(p, c, fix, s, ins)
    decreases |ins|
  {
    hide BeforeDispatch, Cycle, CommitGuard, OperandGuard, RoomGuard, CycleDefined;
    if ins != [] {
      MeetsLess(p, q, c, fix, Cycle(c, fix, s, ins[0].inst, ins[0].junk), ins[1..]);
    }
  }

  /** Of a run that stays inside the lanes the least of them asks nothing more. */
  lemma {:induction false} StepsMeet(c: Config, fix: Repairs, s: State, ins: seq<Input>)
    requires Shape(c, s)
    ensures Steps(c, fix, s, ins).Some? <==> Meets(Tags, c, fix, s, ins)
    decreases |ins|
  {
    hide BeforeDispatch, Cycle, CommitGuard, CycleDefined;
    if ins != [] && CycleDefined(fix, s) {
      StepsMeet(c, fix, Cycle(c, fix, s, ins[0].inst, ins[0].junk), ins[1..]);
    }
  }

  /** Every cycle of the run starts with its guards met. */
  predicate Clean(c: Config, fix: Repairs, s: State, ins: seq<Input>)
    requires Shape(c, s)
  {
    Meets(Values, c, fix, s, ins)
  }

  function Run(c: Config, fix: Repairs, s: State, ins: seq<Input>): (r: State)
    requires Shape(c, s) && Clean(c, fix, s, ins)
    ensures Shape(c, r)
    decreases |ins|
  {
    if ins == [] then s else Run(c, fix, Cycle(c, fix, s, ins[0].inst, ins[0].junk), ins[1..])
  }

  /** The instructions the engine accepts, in order. */
  function Accepted(c: Config, fix: Repairs, s: State, ins: seq<Input>): seq<Instr>
    requires Shape(c, s) && Clean(c, fix, s, ins)
    decreases |ins|
  {
    if ins == [] then [] else
    (if AcceptsIn(c, fix, s, ins[0].inst) then [ins[0].inst.value] else [])
    + Accepted(c, fix, Cycle(c, fix, s, ins[0].inst, ins[0].junk), ins[1..])
  }

  /** How many instructions the run commits. */
  function Commits(c: Config, fix: Repairs, s: State, ins: seq<Input>): nat
    requires Shape(c, s) && Clean(c, fix, s, ins)
    decreases |ins|
  {
    if ins == [] then 0 else
    (if HeadDone(s.rob) then 1 else 0) + Commits(c, fix, Cycle(c, fix, s, ins[0].inst, ins[0].junk), ins[1..])
  }

  lemma {:induction false} CleanSteps(c: Config, fix: Repairs, s: State, ins: seq<Input>)
    requires Shape(c, s) && Clean(c, fix, s, ins)
    ensures Steps(c, fix, s, ins) == Some(Run(c, fix, s, ins))
    ensures Taken(c, fix, s, ins) == Accepted(c, fix, s, ins) && Retired(c, fix, s, ins) == Commits(c, fix, s, ins)
    decreases |ins|
  {
    hide Cycle, CycleDefined, Shape, AcceptsIn, DispatchGuard, CommitGuard;
    if ins != [] {
      CleanSteps(c, fix, Cycle(c, fix, s, ins[0].inst, ins[0].junk), ins[1..]);
    }
  }

  lemma {:induction false} StepsAppend(c: Config, fix: Repairs, s: State, ins: seq<Input>, more: seq<Input>)
    requires Steps(c, fix, s, ins).Some?
    ensures Steps(c, fix, s, ins + more) == Steps(c, fix, Steps(c, fix, s, ins).value, more)
    decreases |ins|
  {
    hide Cycle, CycleDefined, Shape;
    if ins == [] {
      assert [] + more == more;
    } else {
      assert (ins + more)[0] == ins[0] && (ins + more)[1..] == ins[1..] + more;
      StepsAppend(c, fix, Cycle(c, fix, s, ins[0].inst, ins[0].junk), ins[1..], more);
    }
  }

  lemma {:induction false} TakenAppend(c: Config, fix: Repairs, s: State, ins: seq<Input>, x: Input)
    requires Steps(c, fix, s, ins + [x]).Some?
    ensures Steps(c, fix, s, ins).Some? && Steps(c, fix, Steps(c, fix, s, ins).value, [x]).Some?
    ensures Taken(c, fix, s, ins + [x]) == Taken(c, fix, s, ins) + Taken(c, fix, Steps(c, fix, s, ins).value, [x])
    decreases |ins|
  {
    hide Cycle, CycleDefined, Shape, AcceptsIn;
    if ins == [] {
      assert [] + [x] == [x];
    } else {
      assert (ins + [x])[0] == ins[0] && (ins + [x])[1..] == ins[1..] + [x];
      TakenAppend(c, fix, Cycle(c, fix, s, ins[0].inst, ins[0].junk), ins[1..], x);
    }
  }

  lemma {:induction false} StepsShape(c: Config, fix: Repairs, s: State, ins: seq<Input>)
    requires Shape(c, s) && Steps(c, fix, s, ins).Some?
    ensures Shape(c, Steps(c, fix, s, ins).value)
    decreases |ins|
  {
    hide Cycle, CycleDefined, Shape;
    if ins != [] {
      StepsShape(c, fix, Cycle(c, fix, s, ins[0].inst, ins[0].junk), ins[1..]);
    }
  }

  /** A run that meets what is asked of it does so at every cycle, the last one included. */
  lemma {:induction false} MeetsToTheEnd(p: Claim, c: Config, fix: Repairs, s: State, ins: seq<Input>, x: Input)
    requires Shape(c, s) && Meets(p, c, fix, s, ins + [x])
    ensures Steps(c, fix, s, ins).Some? && Shape(c, Steps(c, fix, s, ins).value)
    ensures Allows(p, c, fix, Steps(c, fix, s, ins).value, x.inst)
    decreases |ins|
  {
    hide Cycle, DispatchAllows, CycleDefined, Shape, CommitGuard;
    if ins == [] {
      assert ([] + [x])[0] == x;
    } else {
      assert (ins + [x])[0] == ins[0] && (ins + [x])[1..] == ins[1..] + [x];
      MeetsToTheEnd(p, c, fix, Cycle(c, fix, s, ins[0].inst, ins[0].junk), ins[1..], x);
    }
  }

  /** Words the decoder can produce. */
  predicate Program(ins: seq<Input>) {
    forall k | 0 <= k < |ins| && ins[k].inst.Some? :: Encodes(ins[k].inst.value)
  }

  // ---------------------------------------------------------------------------
  // From initialisation
  // ---------------------------------------------------------------------------

  /** What `engine_init` sets up: an empty ring, and nothing dirty or busy. */
  predicate Booted(c: Config, s: State, x0: RegVals) {
    && Shape(c, s)
    && s.rob.cnt == 0 && s.rob.commitPtr == 0
    && s.reg.x == x0 && x0[0] == 0
    && (forall r | 0 <= r < NREGS :: !s.reg.d[r])
    && (forall i | 0 <= i < |s.exb| :: !s.exb[i].busy)
    && (forall u | 0 <= u < |s.exu| :: !s.exu[u].busy)
  }

  /** And no lane valid. */
  predicate Initial(c: Config, s: State, x0: RegVals) {
    Booted(c, s, x0) && forall l | 0 <= l < |s.cdb| :: !s.cdb[l].valid
  }

  ghost function InitialTrack(c: Config, x0: RegVals): Track {
    Track(x0, [], 0, seq(c.robSize, _ => InRob), Values)
  }

  lemma InitialInv(c: Config, s: State, x0: RegVals)
    requires Initial(c, s, x0) && c.robSize <= 256
    ensures Inv(c, s, InitialTrack(c, x0))
  {
  }

  /** The state a run leads to, next to the bookkeeping of the program it takes. */
  lemma ReachedBy(p: Claim, c: Config, fix: Repairs, s: State, x0: RegVals, ins: seq<Input>) returns (tr: Track)
    requires ConfigOk(c) && Initial(c, s, x0) && Meets(p, c, fix, s, ins)
    ensures Steps(c, fix, s, ins).Some? && Inv(c, Steps(c, fix, s, ins).value, tr)
    ensures tr.x0 == x0 && tr.claim == p
    ensures tr.hist == Taken(c, fix, s, ins) && tr.committed == Retired(c, fix, s, ins)
  {
    hide InvAt, Meets, Steps, Taken, Retired, RunTrack;
    InitialInv(c, s, x0);
    hide Initial;
    ClaimLess(c, s, InitialTrack(c, x0), p);
    RunKeepsInv(c, fix, s, InitialTrack(c, x0).(claim := p), ins);
    tr := RunTrack(c, fix, s, InitialTrack(c, x0).(claim := p), ins);
    assert [] + Taken(c, fix, s, ins) == Taken(c, fix, s, ins);
  }

  /** The same for a clean run. */
  lemma Reached(c: Config, fix: Repairs, s: State, x0: RegVals, ins: seq<Input>) returns (tr: Track)
    requires ConfigOk(c) && Initial(c, s, x0) && Clean(c, fix, s, ins)
    ensures Inv(c, Run(c, fix, s, ins), tr)
    ensures tr.x0 == x0 && tr.hist == Accepted(c, fix, s, ins) && tr.committed == Commits(c, fix, s, ins)
    ensures tr.claim.Values? && |tr.hist| == tr.committed + Run(c, fix, s, ins).rob.cnt
  {
    tr := ReachedBy(Values, c, fix, s, x0, ins);
    CleanSteps(c, fix, s, ins);
  }

  /**
   * Out-of-order execution refines in-order execution. However the cycles interleave, the
   * registers are what the in-order machine holds after the committed part of the accepted program.
   */
  lemma Refinement(c: Config, fix: Repairs, s: State, x0: RegVals, ins: seq<Input>)
    requires ConfigOk(c) && Initial(c, s, x0) && Clean(c, fix, s, ins)
    ensures var s', prog, k := Run(c, fix, s, ins), Accepted(c, fix, s, ins), Commits(c, fix, s, ins);
      && |prog| == k + s'.rob.cnt
      && s'.reg.x == Seq(c.alu, x0, prog, k)
      && s'.reg.x[0] == 0
  {
    hide InvAt, Clean, Run, Accepted, Commits, Seq;
    var tr := Reached(c, fix, s, x0, ins);
    InvShape(c, Run(c, fix, s, ins), tr);
    ZeroStays(c.alu, x0, Accepted(c, fix, s, ins), Commits(c, fix, s, ins));
  }

  /** Results in units, on lanes and waiting in the ring, against program order. */
  ghost predicate InFlightOk(c: Config, x0: RegVals, s: State, prog: seq<Instr>, k: nat)
    requires |prog| == k + s.rob.cnt
  {
    && (forall u | 0 <= u < |s.exu| && s.exu[u].busy ::
          OwnResult(c, x0, s, prog, k, s.exu[u].qr, s.exu[u].result))
    && (forall l | 0 <= l < |s.cdb| && s.cdb[l].valid ::
          OwnResult(c, x0, s, prog, k, s.cdb[l].qr, s.cdb[l].result))
    && (forall t: nat | Live(s.rob, t) && s.rob.data[t].done ::
          OwnResult(c, x0, s, prog, k, t, s.rob.data[t].data))
  }

  /** `v` is what program order gives the instruction that owns slot `t`. */
  ghost predicate OwnResult(c: Config, x0: RegVals, s: State, prog: seq<Instr>, k: nat, t: nat, v: int32)
    requires |prog| == k + s.rob.cnt
  {
    Live(s.rob, t) && 0 <= Dist(s.rob, t) && v == Result(c.alu, x0, prog, k + Dist(s.rob, t))
  }

  lemma InvInFlight(c: Config, s: State, tr: Track)
    requires Inv(c, s, tr) && tr.claim.Values?
    ensures |tr.hist| == tr.committed + s.rob.cnt
    ensures InFlightOk(c, tr.x0, s, tr.hist, tr.committed)
  {
    hide Result, EntryOk, RenameOk;
    forall u | 0 <= u < |s.exu| && s.exu[u].busy
      ensures OwnResult(c, tr.x0, s, tr.hist, tr.committed, s.exu[u].qr, s.exu[u].result)
    {
      assert UnitOk(c, s, tr, u);
    }
    forall l | 0 <= l < |s.cdb| && s.cdb[l].valid
      ensures OwnResult(c, tr.x0, s, tr.hist, tr.committed, s.cdb[l].qr, s.cdb[l].result)
    {
      assert LaneOk(c, s, tr, l);
    }
    forall t: nat | Live(s.rob, t) && s.rob.data[t].done
      ensures OwnResult(c, tr.x0, s, tr.hist, tr.committed, t, s.rob.data[t].data)
    {
      assert SlotOk(c, s, tr, t);
    }
  }

  /** Every result on its way is the one program order gives the instruction that owns its slot. */
  lemma ResultsInFlight(c: Config, fix: Repairs, s: State, x0: RegVals, ins: seq<Input>)
    requires ConfigOk(c) && Initial(c, s, x0) && Clean(c, fix, s, ins)
    ensures |Accepted(c, fix, s, ins)| == Commits(c, fix, s, ins) + Run(c, fix, s, ins).rob.cnt
    ensures InFlightOk(c, x0, Run(c, fix, s, ins), Accepted(c, fix, s, ins), Commits(c, fix, s, ins))
  {
    hide InvAt, InFlightOk, Clean, Run, Accepted, Commits;
    var tr := Reached(c, fix, s, x0, ins);
    InvInFlight(c, Run(c, fix, s, ins), tr);
  }

  // ---------------------------------------------------------------------------
  // Builds that need no luck
  // ---------------------------------------------------------------------------

  /** At most one slot more than the buffer has entries. */
  predicate EnoughRoom(c: Config) { 0 < c.exbSize && c.robSize <= c.exbSize + 1 }

  /** Results capped by lanes, or a lane for every unit, or one for every slot. */
  predicate EnoughLanes(c: Config, fix: Repairs) {
    fix.capLanes || c.nbUnits <= c.nbLanes || c.robSize <= c.nbLanes
  }

  /** Enough of both, and tag-checked clearing and K to its own operand unless there is but one slot. */
  predicate SoundBuild(c: Config, fix: Repairs) {
    EnoughRoom(c) && EnoughLanes(c, fix) && (c.robSize == 1 || (fix.tagClear && fix.kToVk))
  }

  /** The units at work own different open slots. */
  lemma DoneCount(c: Config, s: State, tr: Track)
    requires Inv(c, s, tr)
    ensures |DoneUnits(s.exu)| <= s.rob.cnt
  {
    hide EntryOk, SlotOk, LaneOk, RenameOk, Seq, Result;
    var done := DoneUnits(s.exu);
    forall i | 0 <= i < |done| ensures Live(s.rob, s.exu[done[i]].qr) && tr.loc[s.exu[done[i]].qr] == InUnit(done[i]) {
      assert UnitOk(c, s, tr, done[i]);
    }
    var ds: seq<nat> := seq(|done|, i requires 0 <= i < |done| => Dist(s.rob, s.exu[done[i]].qr));
    forall i, j | 0 <= i < j < |ds| ensures ds[i] != ds[j] {
      LiveTagsDistinct(s.rob, s.exu[done[i]].qr, s.exu[done[j]].qr);
    }
    Pigeonhole(ds, s.rob.cnt);
  }

  /** However many units there are, results in flight are no more than open slots. */
  lemma EnoughLanesDefined(c: Config, fix: Repairs, s: State, tr: Track)
    requires Inv(c, s, tr) && EnoughLanes(c, fix)
    ensures Shape(c, s) && CycleDefined(fix, s)
  {
    PhasesKeepShape(c, fix, s);
    DoneCount(c, s, tr);
  }

  /** With enough lanes every run stays inside them, whatever is lost or wrong. */
  lemma {:induction false} EnoughLanesMeet(c: Config, fix: Repairs, s: State, tr: Track, ins: seq<Input>)
    requires Inv(c, s, tr) && tr.claim.Tags? && ConfigOk(c) && Shape(c, s) && EnoughLanes(c, fix)
    ensures Meets(Tags, c, fix, s, ins)
    decreases |ins|
  {
    hide InvAt, CycleDefined, BeforeDispatch, Cycle, Accepts, Shape, EnoughLanes;
    if ins != [] {
      EnoughLanesDefined(c, fix, s, tr);
      CycleKeepsInv(c, fix, s, tr, ins[0]);
      NextTrackProgram(c, fix, s, tr, ins[0].inst);
      EnoughLanesMeet(c, fix, Cycle(c, fix, s, ins[0].inst, ins[0].junk),
                      NextTrack(c, fix, s, tr, ins[0].inst), ins[1..]);
    }
  }

  /** From initialisation, on every program. */
  lemma EnoughLanesSteps(c: Config, fix: Repairs, s: State, x0: RegVals, ins: seq<Input>)
    requires ConfigOk(c) && Initial(c, s, x0) && EnoughLanes(c, fix)
    ensures Steps(c, fix, s, ins).Some?
    ensures Shape(c, Steps(c, fix, s, ins).value) && CycleDefined(fix, Steps(c, fix, s, ins).value)
  {
    assert Shape(c, s);
    InitialInv(c, s, x0);
    hide InvAt, Initial, Steps, Meets, Taken, Retired, EnoughLanes, CycleDefined;
    ClaimLess(c, s, InitialTrack(c, x0), Tags);
    EnoughLanesMeet(c, fix, s, InitialTrack(c, x0).(claim := Tags), ins);
    var tr := ReachedBy(Tags, c, fix, s, x0, ins);
    EnoughLanesDefined(c, fix, Steps(c, fix, s, ins).value, tr);
  }

  /** With enough room a cycle loses nothing, whatever the values. */
  lemma EnoughRoomDispatch(c: Config, fix: Repairs, s: State, tr: Track, inst: Option<Instr>)
    requires Inv(c, s, tr) && !tr.claim.Tags? && ConfigOk(c) && Shape(c, s) && EnoughRoom(c)
    requires (tr.claim.Values? ==> CommitGuard(fix, s)) && CycleDefined(fix, s)
    ensures AcceptsIn(c, fix, s, inst) ==> RoomGuard(BeforeDispatch(c, fix, s))
  {
    hide InvAt;
    if AcceptsIn(c, fix, s, inst) {
      var s1, tr1 := Commit(fix, s), CommitTrack(s, tr);
      CommitKeepsInv(c, fix, s, tr);
      var s2, tr2 := WriteBack(fix, s1), WriteBackTrack(fix, s1, tr1);
      WriteBackKeepsInv(c, fix, s1, tr1);
      WriteBackTrackProgram(fix, s1, tr1);
      ExecuteKeepsInv(c, s2, tr2);
      RoomAfterIssue(c, Execute(s2), tr2, inst);
    }
  }

  /** And so no run that stays inside the lanes loses anything. */
  lemma {:induction false} EnoughRoomMeets(c: Config, fix: Repairs, s: State, tr: Track, ins: seq<Input>)
    requires Inv(c, s, tr) && tr.claim.Places? && ConfigOk(c) && Shape(c, s) && EnoughRoom(c)
    requires Meets(Tags, c, fix, s, ins)
    ensures Meets(Places, c, fix, s, ins)
    decreases |ins|
  {
    hide InvAt, CycleDefined, BeforeDispatch, Cycle, Shape, EnoughRoom, RoomGuard;
    if ins != [] {
      EnoughRoomDispatch(c, fix, s, tr, ins[0].inst);
      CycleKeepsInv(c, fix, s, tr, ins[0]);
      NextTrackProgram(c, fix, s, tr, ins[0].inst);
      EnoughRoomMeets(c, fix, Cycle(c, fix, s, ins[0].inst, ins[0].junk),
                      NextTrack(c, fix, s, tr, ins[0].inst), ins[1..]);
    }
  }

  /** From initialisation, on every program. */
  lemma EnoughRoomSteps(c: Config, fix: Repairs, s: State, x0: RegVals, ins: seq<Input>)
    requires ConfigOk(c) && Initial(c, s, x0) && EnoughRoom(c) && Steps(c, fix, s, ins).Some?
    ensures Shape(c, s) && Meets(Places, c, fix, s, ins)
  {
    assert Shape(c, s);
    InitialInv(c, s, x0);
    hide InvAt, Initial, Steps, Meets, EnoughRoom;
    ClaimLess(c, s, InitialTrack(c, x0), Places);
    StepsMeet(c, fix, s, ins);
    EnoughRoomMeets(c, fix, s, InitialTrack(c, x0).(claim := Places), ins);
  }

  /** With one slot, what commits is alone in flight. */
  lemma SoundCommit(c: Config, fix: Repairs, s: State, tr: Track)
    requires Inv(c, s, tr) && tr.claim.Values? && (c.robSize == 1 || fix.tagClear)
    ensures CommitGuard(fix, s)
  {
    hide UnitOk, LaneOk, EntryOk, Seq;
    if HeadDone(s.rob) && !fix.tagClear {
      CommitGuardMeaning(c, fix, s, tr);
    }
  }

  /** And what is accepted finds no register dirty. */
  lemma SoundOperand(c: Config, fix: Repairs, s: State, tr: Track, i: Instr)
    requires Inv(c, s, tr) && !Full(s.rob) && (c.robSize == 1 || fix.kToVk)
    ensures OperandGuard(fix, s, i)
  {
    hide UnitOk, LaneOk, EntryOk, SlotOk, Seq, ReadOperand;
    if !fix.kToVk && i.src2.Reg? {
      assert RenameOk(c, s, tr, i.src2.r);
    }
  }

  /** A sound build meets every guard. */
  lemma SoundCycle(c: Config, fix: Repairs, s: State, tr: Track, inst: Option<Instr>)
    requires Inv(c, s, tr) && tr.claim.Values? && ConfigOk(c) && Shape(c, s) && SoundBuild(c, fix)
    ensures CycleGuard(c, fix, s, inst)
  {
    hide InvAt, CommitGuard, OperandGuard, RoomGuard, BeforeDispatch, TrackBeforeDispatch, CycleDefined, Shape,
         EnoughRoom, EnoughLanes;
    SoundCommit(c, fix, s, tr);
    EnoughLanesDefined(c, fix, s, tr);
    EnoughRoomDispatch(c, fix, s, tr, inst);
    BackendKeepsInv(c, fix, s, tr);
    if AcceptsIn(c, fix, s, inst) {
      SoundOperand(c, fix, BeforeDispatch(c, fix, s), TrackBeforeDispatch(c, fix, s, tr), inst.value);
    }
  }

  /** Such an engine is clean on every input whatever. */
  lemma {:induction false} SoundBuildIsClean(c: Config, fix: Repairs, s: State, tr: Track, ins: seq<Input>)
    requires Inv(c, s, tr) && tr.claim.Values? && ConfigOk(c) && Shape(c, s) && SoundBuild(c, fix)
    ensures Clean(c, fix, s, ins)
    decreases |ins|
  {
    hide InvAt, CommitGuard, CycleDefined, BeforeDispatch, Cycle, Accepts, DispatchAllows, SoundBuild, Shape;
    if ins != [] {
      SoundCycle(c, fix, s, tr, ins[0].inst);
      CycleKeepsInv(c, fix, s, tr, ins[0]);
      NextTrackProgram(c, fix, s, tr, ins[0].inst);
      SoundBuildIsClean(c, fix, Cycle(c, fix, s, ins[0].inst, ins[0].junk),
                        NextTrack(c, fix, s, tr, ins[0].inst), ins[1..]);
    }
  }

  /** And so it refines the in-order machine on every input. */
  lemma SoundBuildRefines(c: Config, fix: Repairs, s: State, x0: RegVals, ins: seq<Input>)
    requires ConfigOk(c) && SoundBuild(c, fix) && Initial(c, s, x0)
    ensures Clean(c, fix, s, ins)
    ensures var s', prog, k := Run(c, fix, s, ins), Accepted(c, fix, s, ins), Commits(c, fix, s, ins);
      && |prog| == k + s'.rob.cnt
      && s'.reg.x == Seq(c.alu, x0, prog, k)
  {
    hide Clean, Run, Accepted, Commits, Seq, InvAt;
    InitialInv(c, s, x0);
    SoundBuildIsClean(c, fix, s, InitialTrack(c, x0), ins);
    Refinement(c, fix, s, x0, ins);
  }

  // ---------------------------------------------------------------------------
  // Skipped instructions
  // ---------------------------------------------------------------------------

  /** The instructions fetched, in order. */
  function Fetched(ins: seq<Input>): seq<Instr> {
    if ins == [] then [] else
    (if ins[0].inst.Some? then [ins[0].inst.value] else []) + Fetched(ins[1..])
  }

  /** At no point are more fetched instructions uncommitted than there are slots. */
  ghost predicate KeepsUp(c: Config, fix: Repairs, s: State, ins: seq<Input>) {
    forall j | 0 <= j <= |ins| && Steps(c, fix, s, ins[..j]).Some? ::
      s.rob.cnt + |Fetched(ins[..j])| <= Retired(c, fix, s, ins[..j]) + c.robSize
  }

  lemma KeepsUpFirst(c: Config, fix: Repairs, s: State, ins: seq<Input>)
    requires Shape(c, s) && CycleDefined(fix, s) && ins != []
    ensures KeepsUp(c, fix, s, ins) <==>
            var s' := Cycle(c, fix, s, ins[0].inst, ins[0].junk);
            forall j | 0 <= j <= |ins| - 1 && Steps(c, fix, s', ins[1..][..j]).Some? ::
              s.rob.cnt + (if ins[0].inst.Some? then 1 else 0) + |Fetched(ins[1..][..j])| <=
              (if HeadDone(s.rob) then 1 else 0) + Retired(c, fix, s', ins[1..][..j]) + c.robSize
  {
    hide Cycle, CycleDefined;
    var s' := Cycle(c, fix, s, ins[0].inst, ins[0].junk);
    forall j | 0 <= j <= |ins| - 1
      ensures ins[..j + 1] != [] && ins[..j + 1][0] == ins[0] && ins[..j + 1][1..] == ins[1..][..j]
    {
    }
    if !KeepsUp(c, fix, s, ins) {
      var j :| 0 <= j <= |ins| && Steps(c, fix, s, ins[..j]).Some? &&
               s.rob.cnt + |Fetched(ins[..j])| > Retired(c, fix, s, ins[..j]) + c.robSize;
      assert j != 0;
      assert ins[..j][1..] == ins[1..][..j - 1];
    } else {
      forall j | 0 <= j <= |ins| - 1 && Steps(c, fix, s', ins[1..][..j]).Some?
        ensures s.rob.cnt + (if ins[0].inst.Some? then 1 else 0) + |Fetched(ins[1..][..j])| <=
                (if HeadDone(s.rob) then 1 else 0) + Retired(c, fix, s', ins[1..][..j]) + c.robSize
      {
        assert ins[..j + 1][1..] == ins[1..][..j];
        assert Steps(c, fix, s, ins[..j + 1]).Some?;
      }
    }
  }

  /**
   * On every run of every build the engine runs the program it fetched exactly when its commits keep
   * up with what it fetches.
   */
  lemma {:induction false} RunsWhatItFetched(c: Config, fix: Repairs, s: State, ins: seq<Input>)
    requires Shape(c, s) && Steps(c, fix, s, ins).Some?
    ensures |Taken(c, fix, s, ins)| <= |Fetched(ins)|
    ensures Taken(c, fix, s, ins) == Fetched(ins) <==> KeepsUp(c, fix, s, ins)
    decreases |ins|
  {
    hide Cycle, CycleDefined, AcceptsIn, Shape;
    if ins == [] {
      assert s.rob.cnt <= c.robSize by { ShapeCount(c, s); }
    } else {
      var s', rest := Cycle(c, fix, s, ins[0].inst, ins[0].junk), ins[1..];
      RunsWhatItFetched(c, fix, s', rest);
      KeepsUpFirst(c, fix, s, ins);
      CountAfter(c, fix, s, ins[0].inst, ins[0].junk);
      var a, f := Taken(c, fix, s', rest), Fetched(rest);
      if AcceptsIn(c, fix, s, ins[0].inst) {
        assert ([ins[0].inst.value] + a)[1..] == a && ([ins[0].inst.value] + f)[1..] == f;
      } else if ins[0].inst.Some? {
        assert rest[..0] == [];
        assert Steps(c, fix, s', rest[..0]).Some?;
      } else {
        assert [] + a == a && [] + f == f;
      }
    }
  }

  lemma ShapeCount(c: Config, s: State)
    requires Shape(c, s)
    ensures s.rob.cnt <= c.robSize
  {
  }

  lemma {:induction false} FetchedAppend(ins: seq<Input>, i: Instr, junk: int32)
    ensures Fetched(ins + [Input(Some(i), junk)]) == Fetched(ins) + [i]
    decreases |ins|
  {
    var x := Input(Some(i), junk);
    if ins == [] {
      assert [] + [x] == [x];
    } else {
      assert (ins + [x])[0] == ins[0] && (ins + [x])[1..] == ins[1..] + [x];
      FetchedAppend(ins[1..], i, junk);
      var first := if ins[0].inst.Some? then [ins[0].inst.value] else [];
      assert first + (Fetched(ins[1..]) + [i]) == (first + Fetched(ins[1..])) + [i];
    }
  }

  /** A program that fits the free slots is accepted whole, whatever its pace. */
  lemma {:induction false} ShortProgramsWhole(c: Config, fix: Repairs, s: State, ins: seq<Input>)
    requires Shape(c, s) && Steps(c, fix, s, ins).Some? && s.rob.cnt + |Fetched(ins)| <= c.robSize
    ensures Taken(c, fix, s, ins) == Fetched(ins)
    decreases |ins|
  {
    hide CycleDefined, BeforeDispatch, Cycle, Shape, AcceptsIn;
    if ins != [] {
      CountAfter(c, fix, s, ins[0].inst, ins[0].junk);
      ShortProgramsWhole(c, fix, Cycle(c, fix, s, ins[0].inst, ins[0].junk), ins[1..]);
    }
  }

  /** Open slots after a cycle, and whether it refuses what it fetched. */
  lemma CountAfter(c: Config, fix: Repairs, s: State, inst: Option<Instr>, junk: int32)
    requires Shape(c, s) && CycleDefined(fix, s)
    ensures Cycle(c, fix, s, inst, junk).rob.cnt ==
            s.rob.cnt - (if HeadDone(s.rob) then 1 else 0) + (if AcceptsIn(c, fix, s, inst) then 1 else 0)
    ensures AcceptsIn(c, fix, s, inst) <==>
            inst.Some? && s.rob.cnt - (if HeadDone(s.rob) then 1 else 0) < c.robSize
  {
    hide CommitForward, MoveResults, Forward, IssueMany, NewEntry, PlaceEntry, DrainLanes;
  }
}
