/**
 * What a lost instruction costs (sw/src/engine.c:262-278): its slot stays open for good, and so
 * nothing behind it ever commits.
 */
module StallProof {
  import opened Base
  import opened InOrder
  import opened ReorderBuffer
  import opened Machine
  import opened Invariant
  import opened DispatchProof
  import opened Runs

  /** Nobody has the work of slot `t`. */
  predicate Orphan(s: State, t: nat) {
    && (forall i | 0 <= i < |s.exb| && s.exb[i].busy :: s.exb[i].qr != t)
    && (forall u | 0 <= u < |s.exu| && s.exu[u].busy :: s.exu[u].qr != t)
    && (forall l | 0 <= l < |s.cdb| && s.cdb[l].valid :: s.cdb[l].qr != t)
  }

  predicate Stuck(s: State, t: nat) { Live(s.rob, t) && !s.rob.data[t].done && Orphan(s, t) }

  lemma {:induction false} ForwardTags(exb: seq<ExbEntry>, tag: nat, value: int32, i: nat)
    requires i <= |exb|
    ensures forall k | 0 <= k < |exb| ::
              CommitForward(exb, tag, value, i)[k].busy == exb[k].busy && CommitForward(exb, tag, value, i)[k].qr == exb[k].qr
    decreases |exb| - i
  {
    if i < |exb| {
      ForwardTags(exb, tag, value, i + 1);
    }
  }

  lemma CommitStuck(c: Config, fix: Repairs, s: State, t: nat)
    requires Shape(c, s) && Stuck(s, t)
    ensures Stuck(Commit(fix, s), t)
    ensures Dist(Commit(fix, s).rob, t) == Dist(s.rob, t) - (if HeadDone(s.rob) then 1 else 0)
  {
    if HeadDone(s.rob) {
      hide Pop, CommitForward;
      PopDistance(s.rob, t);
      ForwardTags(s.exb, Tag(s.rob.commitPtr), s.rob.data[s.rob.commitPtr].data, 0);
    }
  }

  lemma {:induction false} DrainStuck(s: State, k: nat, t: nat)
    requires Stuck(s, t) && k <= |s.cdb|
    ensures Stuck(DrainLanes(s, k), t) && Dist(DrainLanes(s, k).rob, t) == Dist(s.rob, t)
  {
    if k != 0 {
      DrainStuck(s, k - 1, t);
    }
  }

  lemma {:induction false} MoveStuck(s: State, done: seq<nat>, k: nat, t: nat)
    requires Stuck(s, t) && k <= |done| && k <= |s.cdb|
    requires forall j | 0 <= j < |done| :: done[j] < |s.exu| && s.exu[done[j]].busy
    requires forall i, j | 0 <= i < j < |done| :: done[i] < done[j]
    ensures Stuck(MoveResults(s, done, k), t)
    ensures forall j | k <= j < |done| :: MoveResults(s, done, k).exu[done[j]] == s.exu[done[j]]
  {
    if k != 0 {
      MoveStuck(s, done, k - 1, t);
    }
  }

  lemma WriteBackStuck(fix: Repairs, s: State, t: nat)
    requires Stuck(s, t) && LanesSuffice(fix, s)
    ensures Stuck(WriteBack(fix, s), t) && Dist(WriteBack(fix, s).rob, t) == Dist(s.rob, t)
  {
    hide DrainLanes, MoveResults, Indices, Lookup;
    var d, done := DrainLanes(s, |s.cdb|), DoneUnits(s.exu);
    DrainStuck(s, |s.cdb|, t);
    MoveStuck(d, done, NbMoves(fix, s), t);
  }

  lemma {:induction false} IssueStuck(c: Config, s: State, units: seq<nat>, entries: seq<nat>, k: nat, t: nat)
    requires Stuck(s, t) && k <= |units| && k <= |entries|
    requires forall j | 0 <= j < |units| :: units[j] < |s.exu|
    requires forall j | 0 <= j < |entries| :: entries[j] < |s.exb| && s.exb[entries[j]].busy
    requires forall i, j | 0 <= i < j < |entries| :: entries[i] < entries[j]
    ensures Stuck(IssueMany(c, s, units, entries, k), t)
    ensures forall j | k <= j < |entries| :: IssueMany(c, s, units, entries, k).exb[entries[j]] == s.exb[entries[j]]
  {
    if k != 0 {
      IssueStuck(c, s, units, entries, k - 1, t);
    }
  }

  lemma DispatchStuck(c: Config, fix: Repairs, s: State, inst: Option<Instr>, junk: int32, t: nat)
    requires Shape(c, s) && c.robSize <= 256 && Stuck(s, t)
    ensures Stuck(Dispatch(fix, s, inst, junk), t)
    ensures Dist(Dispatch(fix, s, inst, junk).rob, t) == Dist(s.rob, t)
  {
    if Accepts(s, inst) {
      hide ReadOperand;
      NewEntryShape(fix, Opened(s, inst.value), inst.value, Tag(s.rob.issuePtr), junk);
    }
  }

  /** A cycle leaves the slot stuck, and brings it nearer to the head only by what it commits. */
  lemma CycleStuck(c: Config, fix: Repairs, s: State, inst: Option<Instr>, junk: int32, t: nat)
    requires Shape(c, s) && c.robSize <= 256 && CycleDefined(fix, s) && Stuck(s, t)
    ensures Stuck(Cycle(c, fix, s, inst, junk), t)
    ensures Dist(Cycle(c, fix, s, inst, junk).rob, t) == Dist(s.rob, t) - (if HeadDone(s.rob) then 1 else 0)
  {
    hide Stuck, Commit, WriteBack, Dispatch, Indices, LanesSuffice, Dist;
    var s1 := Commit(fix, s);
    CommitStuck(c, fix, s, t);
    PhasesKeepShape(c, fix, s);
    var s2 := WriteBack(fix, s1);
    WriteBackStuck(fix, s1, t);
    ExecuteStuck(s2, t);
    IssueStuck(c, Execute(s2), FreeUnits(Execute(s2).exu), ReadyEntries(Execute(s2).exb), NbIssue(Execute(s2)), t);
    DispatchStuck(c, fix, BeforeDispatch(c, fix, s), inst, junk, t);
  }

  lemma ExecuteStuck(s: State, t: nat)
    requires Stuck(s, t)
    ensures Stuck(Execute(s), t) && Execute(s).rob == s.rob
  {
  }

  /** Whatever follows, only what is ahead of the slot can still commit. */
  lemma {:induction false} StuckForever(c: Config, fix: Repairs, s: State, ins: seq<Input>, t: nat)
    requires Shape(c, s) && c.robSize <= 256 && Stuck(s, t) && Steps(c, fix, s, ins).Some?
    ensures Stuck(Steps(c, fix, s, ins).value, t)
    ensures Retired(c, fix, s, ins) <= Dist(s.rob, t)
    decreases |ins|
  {
    DistNat(s, t);
    hide Cycle, CycleDefined, Shape, Orphan, Dist;
    if ins != [] {
      CycleStuck(c, fix, s, ins[0].inst, ins[0].junk, t);
      StuckForever(c, fix, Cycle(c, fix, s, ins[0].inst, ins[0].junk), ins[1..], t);
    }
  }

  /** The slot is stuck, and whatever is fetched from now on, only what is ahead of it commits. */
  ghost predicate Stops(c: Config, fix: Repairs, s: State, slot: nat) {
    && Shape(c, s) && Stuck(s, slot)
    && forall more | Steps(c, fix, s, more).Some? ::
         Stuck(Steps(c, fix, s, more).value, slot) && Retired(c, fix, s, more) <= Dist(s.rob, slot)
  }

  lemma StuckStops(c: Config, fix: Repairs, s: State, slot: nat)
    requires Shape(c, s) && c.robSize <= 256 && Stuck(s, slot)
    ensures Stops(c, fix, s, slot)
  {
    hide Stuck, Shape, Steps, Retired, Dist;
    forall more | Steps(c, fix, s, more).Some?
      ensures Stuck(Steps(c, fix, s, more).value, slot) && Retired(c, fix, s, more) <= Dist(s.rob, slot)
    {
      StuckForever(c, fix, s, more, slot);
    }
  }

  lemma DistNat(s: State, t: nat)
    requires RingOk(s.rob)
    ensures 0 <= Dist(s.rob, t)
  {
  }

  // ---------------------------------------------------------------------------
  // How a slot gets stuck
  // ---------------------------------------------------------------------------

  /** An accepted instruction without an entry leaves its slot stuck. */
  lemma LostStuck(c: Config, fix: Repairs, s: State, i: Instr, junk: int32)
    requires Shape(c, s) && c.robSize <= 256 && Orphan(s, s.rob.issuePtr)
    requires Accepts(s, Some(i)) && !RoomGuard(s)
    ensures Stuck(Dispatch(fix, s, Some(i), junk), s.rob.issuePtr)
  {
    hide NewEntry;
  }

  /** Losing an instruction stops the engine, whatever follows. */
  lemma LostStalls(c: Config, fix: Repairs, s: State, tr: Track, i: Instr, junk: int32)
    requires Inv(c, s, tr) && Accepts(s, Some(i)) && !RoomGuard(s)
    ensures Stops(c, fix, Dispatch(fix, s, Some(i), junk), s.rob.issuePtr)
  {
    hide Stuck, NewEntry, Stops;
    InvShape(c, s, tr);
    InvOrphan(c, s, tr);
    DispatchKeepsShape(c, fix, s, Some(i), junk);
    LostStuck(c, fix, s, i, junk);
    StuckStops(c, fix, Dispatch(fix, s, Some(i), junk), s.rob.issuePtr);
  }

  lemma InvOrphan(c: Config, s: State, tr: Track)
    requires Inv(c, s, tr) && !Full(s.rob)
    ensures Orphan(s, s.rob.issuePtr) && c.robSize <= 256
  {
    PlacesHold(c, s, tr);
  }
}
