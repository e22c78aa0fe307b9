/** When the loop over finished units stays inside the lanes: sw/src/engine.c:384-404. */
module LaneProof {
  import opened Base
  import opened InOrder
  import opened ReorderBuffer
  import opened Machine
  import opened CommitProof
  import opened RoomProof
  import opened Runs
  import opened Cycles
  import opened ChainProof
  import U = Unit

  /** `op` on registers that nothing here writes, so that it is ready whatever is in flight. */
  function Alone(op: nat): Instr { Instr(1, 0, Reg(2), op) }

  /** How many instructions are open: `k` in units, and perhaps one in the buffer. */
  function Count(k: nat, next: Option<nat>): nat { if next.Some? then k + 1 else k }

  /** `k` units that will finish together in `left` cycles, and `next` waiting to be issued. */
  predicate Stacked(c: Config, s: State, k: nat, left: nat, next: Option<nat>) {
    && Shape(c, s) && k <= c.nbUnits && 0 < c.exbSize
    && s.rob.cnt == Count(k, next)
    && !HeadDone(s.rob) && !s.reg.d[0] && !s.reg.d[2]
    && (forall l | 0 <= l < |s.cdb| :: !s.cdb[l].valid)
    && (forall u | 0 <= u < |s.exu| :: s.exu[u].busy == (u < k))
    && (forall u | 0 <= u < k :: s.exu[u].cycleLeft == left)
    && (forall i | 0 < i < |s.exb| :: !s.exb[i].busy)
    && match next
       case Some(op) => EntryReady(s.exb[0]) && s.exb[0].f10 == op
       case None => !s.exb[0].busy
  }

  /** Up to dispatch: what waited joins the others when it takes as long as they still do. */
  lemma StackedBackend(c: Config, fix: Repairs, s: State, k: nat, left: nat, next: Option<nat>)
    requires Stacked(c, s, k, left, next) && 0 < left
    requires next.Some? ==> k < c.nbUnits && c.cycles(next.value) == left - 1
    ensures CycleDefined(fix, s)
    ensures Stacked(c, BeforeDispatch(c, fix, s), Count(k, next), left - 1, None)
  {
    hide WriteBack, LanesSuffice, IssueReady;
    IdleWriteBack(fix, s);
    if next.Some? {
      OneIssues(c, Execute(s), k, 0);
    } else {
      NothingReady(c, Execute(s));
    }
  }

  lemma StackedDispatch(c: Config, fix: Repairs, s: State, k: nat, left: nat, op: nat)
    requires Stacked(c, s, k, left, None) && s.rob.cnt < c.robSize
    ensures Stacked(c, Dispatch(fix, s, Some(Alone(op)), JUNK), k, left, Some(op))
  {
    DispatchKeepsShape(c, fix, s, Some(Alone(op)), JUNK);
    assert FirstFree(s.exb, 0) == 0;
  }

  function Fetch(op: Option<nat>): Input {
    match op
    case Some(o) => Do(Alone(o))
    case None => NOTHING
  }

  lemma StackedCycle(c: Config, fix: Repairs, s: State, k: nat, left: nat, next: Option<nat>, due: Option<nat>)
    requires Stacked(c, s, k, left, next) && 0 < left
    requires next.Some? ==> k < c.nbUnits && c.cycles(next.value) == left - 1
    requires due.Some? ==> s.rob.cnt < c.robSize
    ensures Shape(c, s) && CycleDefined(fix, s)
    ensures Stacked(c, Cycle(c, fix, s, Fetch(due).inst, JUNK), Count(k, next), left - 1, due)
  {
    hide Shape, BeforeDispatch;
    StackedBackend(c, fix, s, k, left, next);
    if due.Some? {
      StackedDispatch(c, fix, BeforeDispatch(c, fix, s), Count(k, next), left - 1, due.value);
    }
  }

  predicate Falling(c: Config, ops: seq<nat>) {
    && (forall i, j | 0 <= i < j < |ops| :: c.cycles(ops[i]) > c.cycles(ops[j]))
    && forall i | 0 <= i < |ops| :: ops[i] < 0x400
  }

  /** Operations of falling latency, each fetched when the others have just as much left. */
  lemma {:induction false} StackUp(c: Config, fix: Repairs, s: State, k: nat, left: nat, next: Option<nat>, ops: seq<nat>)
    returns (ins: seq<Input>, t: State)
    requires Stacked(c, s, k, left, next)
    requires next.Some? ==> 0 < left && c.cycles(next.value) == left - 1
    requires Falling(c, ops) && (ops != [] ==> c.cycles(ops[0]) + 2 <= left)
    requires Count(k, next) + |ops| <= c.nbUnits && Count(k, next) + |ops| <= c.robSize
    ensures Program(ins) && Steps(c, fix, s, ins) == Some(t)
    ensures Stacked(c, t, Count(k, next) + |ops|, 0, None)
    decreases left
  {
    hide Stacked, Cycle, CycleDefined, Shape, Steps, Program, Falling, Encodes;
    NoSteps(c, fix, s);
    FallingRest(c, ops);
    if left == 0 {
      ins, t := [], s;
    } else {
      var now := ops != [] && c.cycles(ops[0]) + 2 == left;
      var due, rest := if now then Some(ops[0]) else None, if now then ops[1..] else ops;
      StackedCounts(c, s, k, left, next);
      StackedCycle(c, fix, s, k, left, next, due);
      ins, t := StackUp(c, fix, Cycle(c, fix, s, Fetch(due).inst, JUNK), Count(k, next), left - 1, due, rest);
      FirstStep(c, fix, s, Fetch(due), ins);
      ins := [Fetch(due)] + ins;
    }
  }

  lemma FallingRest(c: Config, ops: seq<nat>)
    requires Falling(c, ops)
    ensures ops != [] ==>
              && Encodes(Alone(ops[0])) && Falling(c, ops[1..])
              && (|ops| > 1 ==> c.cycles(ops[1]) < c.cycles(ops[0]))
  {
  }

  lemma StackedCounts(c: Config, s: State, k: nat, left: nat, next: Option<nat>)
    requires Stacked(c, s, k, left, next)
    ensures Shape(c, s) && s.rob.cnt == Count(k, next)
  {
  }

  /** So many results at once leave the lanes. */
  lemma StackedOverflow(c: Config, fix: Repairs, s: State, k: nat)
    requires Stacked(c, s, k, 0, None) && c.nbLanes < k && !fix.capLanes
    ensures Shape(c, s) && !CycleDefined(fix, s)
  {
    var done := DoneUnits(Commit(fix, s).exu);
    forall u: nat | u < k ensures u in done { assert UnitDone(s.exu[u]); }
    Longer(Below(k), done);
  }

  lemma InitialStack(c: Config, s: State, x0: RegVals, left: nat)
    requires Initial(c, s, x0) && 0 < c.exbSize
    ensures Stacked(c, s, 0, left, None)
  {
  }

  /** More units than lanes, and a program on which the loop leaves the lanes. */
  lemma LanesOverflow(c: Config, fix: Repairs, s: State, x0: RegVals, ops: seq<nat>)
    returns (ins: seq<Input>, t: State)
    requires Initial(c, s, x0) && 0 < c.exbSize && !fix.capLanes
    requires Falling(c, ops) && |ops| == c.nbLanes + 1
    requires |ops| <= c.nbUnits && |ops| <= c.robSize
    ensures Program(ins) && Steps(c, fix, s, ins) == Some(t)
    ensures Shape(c, t) && !CycleDefined(fix, t)
  {
    hide Stacked, Initial, Steps, CycleDefined;
    var left := c.cycles(ops[0]) + 2;
    InitialStack(c, s, x0, left);
    StackedCounts(c, s, 0, left, None);
    ins, t := StackUp(c, fix, s, 0, left, None, ops);
    StackedOverflow(c, fix, t, |ops|);
  }

  // ---------------------------------------------------------------------------
  // Many that wait for one
  // ---------------------------------------------------------------------------

  lemma HasEntry(c: Config, s: State, slow: nat, left: nat, a: nat, pos: seq<nat>)
    requires Chained(c, s, slow, left, a, pos) && |pos| < c.exbSize
    ensures FirstFree(s.exb, 0) < |s.exb|
  {
    hide Waits, Executing, Open;
    if FirstFree(s.exb, 0) == |s.exb| {
      Members(s.rob, s.exb, slow, 1, a, pos);
      Longer(Below(|s.exb|), pos);
    }
  }

  /** The links retire one by one, and somebody waits for the anchor in the place of each. */
  lemma {:induction false} Gathers(c: Config, fix: Repairs, s: State, slow: nat, left: nat, a: nat, pos: seq<nat>)
    returns (ins: seq<Input>, t: State, pos': seq<nat>)
    requires Chained(c, s, slow, left, a, pos) && pos != []
    requires 0 < c.nbLanes && 3 <= c.cycles(slow) && slow < 0x400
    ensures Links(ins) && Steps(c, fix, s, ins) == Some(t)
    ensures Chained(c, t, slow, 0, 0, pos') && |pos'| == |pos|
    decreases a, left
  {
    hide Chained, Steps, Cycle, CycleDefined, BeforeDispatch, Links;
    NoSteps(c, fix, s);
    if left != 0 {
      ChainedTicks(c, fix, s, slow, left, a, pos);
      CycleOf(c, fix, s, Execute(s));
      ins, t, pos' := Gathers(c, fix, Execute(s), slow, left - 1, a, pos);
      FirstLink(c, fix, s, NOTHING, ins);
      ins := [NOTHING] + ins;
    } else if a != 0 {
      var turn, s1, pos1 := Turn(c, fix, s, slow, a, pos);
      ins, t, pos' := Gathers(c, fix, s1, slow, c.cycles(slow) - 2, a - 1, pos1);
      StepsAppend(c, fix, s, turn, ins);
      LinksAppend(turn, ins);
      ins := turn + ins;
    } else {
      NoLinks();
      ins, t, pos' := [], s, pos;
    }
  }

  lemma LinksAppend(a: seq<Input>, b: seq<Input>)
    requires Links(a) && Links(b)
    ensures Links(a + b)
  {
  }

  lemma NoLinks()
    ensures Links([])
  {
  }

  lemma {:induction false} AllIndices<T>(s: seq<T>, p: T -> bool, n: nat)
    requires n <= |s| && forall i | 0 <= i < n :: p(s[i])
    ensures Indices(s, p, n) == Below(n)
  {
    if n != 0 {
      AllIndices(s, p, n - 1);
    }
  }

  /** With all units free, `k` instructions of one operation take the first `k` units together. */
  lemma {:induction false} IssueTogether(c: Config, s: State, entries: seq<nat>, op: nat, k: nat)
    requires k <= |entries| && k <= |s.exu| && forall u | 0 <= u < |s.exu| :: !s.exu[u].busy
    requires forall j | 0 <= j < |entries| :: entries[j] < |s.exb| && s.exb[entries[j]].f10 == op
    ensures var t := IssueMany(c, s, Below(|s.exu|), entries, k);
      && (forall u | 0 <= u < |s.exu| :: t.exu[u].busy == (u < k))
      && (forall u | 0 <= u < k :: t.exu[u].cycleLeft == c.cycles(op))
      && forall i | 0 <= i < |s.exb| ::
           t.exb[i].f10 == s.exb[i].f10 && t.exb[i].busy == (s.exb[i].busy && i !in entries[..k])
  {
    if k != 0 {
      IssueTogether(c, s, entries, op, k - 1);
      assert entries[..k] == entries[..k - 1] + [entries[k - 1]];
    }
  }

  /** The units at work on instructions of one latency, with nothing left to issue. */
  predicate AllAtWork(s: State, k: nat, left: nat) {
    && (forall u | 0 <= u < |s.exu| :: s.exu[u].busy == (u < k) && (u < k ==> s.exu[u].cycleLeft == left))
    && (forall i | 0 <= i < |s.exb| :: !s.exb[i].busy)
  }

  lemma AllIssue(c: Config, s: State, op: nat, pos: seq<nat>)
    requires (forall u | 0 <= u < |s.exu| :: !s.exu[u].busy) && |pos| <= |s.exu| && Distinct(pos)
    requires forall i | 0 <= i < |s.exb| :: s.exb[i].busy <==> i in pos
    requires forall i | 0 <= i < |s.exb| && s.exb[i].busy :: EntryReady(s.exb[i]) && s.exb[i].f10 == op
    requires forall j | 0 <= j < |pos| :: pos[j] < |s.exb|
    ensures var t := IssueReady(c, s);
      && t.rob == s.rob && t.reg == s.reg && t.cdb == s.cdb && |t.exu| == |s.exu| && |t.exb| == |s.exb|
      && AllAtWork(t, |pos|, c.cycles(op))
  {
    hide Indices, IssueMany;
    var ready := ReadyEntries(s.exb);
    AllIndices(s.exu, UnitFree, |s.exu|);
    ReadyLength(s.exb, pos);
    IssueTogether(c, s, ready, op, |pos|);
    assert ready[..|pos|] == ready;
    assert IssueReady(c, s) == IssueMany(c, s, Below(|s.exu|), ready, |pos|);
    assert forall i | 0 <= i < |s.exb| :: !IssueReady(c, s).exb[i].busy;
  }

  lemma ReadyLength(exb: seq<ExbEntry>, pos: seq<nat>)
    requires Distinct(pos) && forall i | 0 <= i < |exb| :: EntryReady(exb[i]) <==> i in pos
    requires forall j | 0 <= j < |pos| :: pos[j] < |exb|
    ensures |ReadyEntries(exb)| == |pos|
  {
    var ready := ReadyEntries(exb);
    forall j | 0 <= j < |pos| ensures pos[j] in ready {
      assert EntryReady(exb[pos[j]]);
    }
    Longer(pos, ready);
    Longer(ready, pos);
  }

  /** The one they waited for is on a lane, and they all execute. */
  predicate Crowd(c: Config, s: State, k: nat, left: nat) {
    && Shape(c, s) && 0 < k <= c.nbUnits && s.rob.cnt == k + 1
    && OneLane(s) && !s.reg.d[0] && !s.reg.d[2]
    && (forall j | 0 <= j <= k :: !s.rob.data[SlotAt(s.rob, j)].done)
    && AllAtWork(s, k, left)
  }

  lemma Wakes(c: Config, fix: Repairs, s: State, slow: nat, pos: seq<nat>)
    requires Chained(c, s, slow, 0, 0, pos) && 0 < |pos| <= c.nbUnits && 0 < c.nbLanes
    ensures Shape(c, s) && CycleDefined(fix, s)
    ensures Crowd(c, BeforeDispatch(c, fix, s), |pos|, c.cycles(slow))
  {
    hide WriteBack, LanesSuffice, IssueReady, SlotAt, Forward, AllAtWork;
    SlotZero(s.rob);
    OneFinishes(fix, s);
    var w := WriteBack(fix, s);
    Members(s.rob, s.exb, slow, 1, 0, pos);
    forall i | 0 <= i < |s.exb|
      ensures w.exb[i].busy == s.exb[i].busy && (w.exb[i].busy ==> EntryReady(w.exb[i]) && w.exb[i].f10 == slow)
    {
      if i in pos {
        var j :| 0 <= j < |pos| && pos[j] == i;
        assert Waits(s.rob, slow, s.exb[pos[j]], 1 + j, 0);
        OneForward(s.exb[i], w.cdb);
      } else {
        IdleForward(s.exb[i], w.cdb);
      }
    }
    assert Execute(w).exu == w.exu;
    AllIssue(c, Execute(w), slow, pos);
  }

  /** Its result is in the ring. */
  predicate CrowdServed(c: Config, s: State, k: nat, left: nat) {
    && Shape(c, s) && 0 < k <= c.nbUnits && s.rob.cnt == k + 1
    && NoLanes(s) && !s.reg.d[0] && !s.reg.d[2]
    && HeadDone(s.rob) && (forall j | 0 < j <= k :: !s.rob.data[SlotAt(s.rob, j)].done)
    && AllAtWork(s, k, left)
  }

  lemma CrowdDrains(c: Config, fix: Repairs, s: State, k: nat, left: nat)
    requires Crowd(c, s, k, left) && 0 < left
    ensures Shape(c, s) && CycleDefined(fix, s) && CrowdServed(c, BeforeDispatch(c, fix, s), k, left - 1)
  {
    hide WriteBack, LanesSuffice, IssueReady, SlotAt;
    SlotZero(s.rob);
    Drained(fix, s);
    var w := WriteBack(fix, s);
    NothingReady(c, Execute(w));
    forall j | 0 < j <= k ensures SlotAt(w.rob, j) == SlotAt(s.rob, j) != s.rob.commitPtr {
      SameSlot(s.rob, w.rob, j);
      SlotAtHead(s.rob, j);
    }
  }

  /** And gone: the others are left, and finish together. */
  lemma CrowdLeft(c: Config, fix: Repairs, s: State, k: nat, left: nat)
    requires CrowdServed(c, s, k, left) && 0 < left && 0 < c.exbSize
    ensures Shape(c, s) && CycleDefined(fix, s) && Stacked(c, BeforeDispatch(c, fix, s), k, left - 1, None)
  {
    hide WriteBack, LanesSuffice, IssueReady, SlotAt, CommitForward, Pop;
    forall v: int32 ensures CommitForward(s.exb, Tag(s.rob.commitPtr), v, 0) == s.exb {
      ForwardIdle(s.exb, Tag(s.rob.commitPtr), v, 0);
    }
    PoppedRing(s.rob);
    PhasesKeepShape(c, fix, s);
    SlotZero(Pop(s.rob));
    IdleWriteBack(fix, Commit(fix, s));
    NothingReady(c, Execute(Commit(fix, s)));
  }

  /** From a fresh start `k` instructions of one operation finish together, when there is a slot more. */
  lemma CrowdStacks(c: Config, fix: Repairs, s: State, x0: RegVals, slow: nat, k: nat)
    returns (ins: seq<Input>, t: State)
    requires ConfigOk(c) && Initial(c, s, x0) && 3 <= c.cycles(slow) && slow < 0x400
    requires 0 < k < c.robSize && k <= c.exbSize && k <= c.nbUnits
    ensures Program(ins) && Steps(c, fix, s, ins) == Some(t)
    ensures Stacked(c, t, k, c.cycles(slow) - 2, None)
  {
    hide Initial, Chained, Stacked, Crowd, CrowdServed, Steps, Cycle, CycleDefined, BeforeDispatch, Links, FirstFree;
    var pre, t1, left, pos := ChainFills(c, fix, s, x0, slow, k);
    CountingShape(c, t1, slow, left, pos);
    ChainedLength(c, t1, slow, left, c.robSize + 1, pos);
    HasEntry(c, t1, slow, left, c.robSize + 1, pos);
    Reanchor(c, t1, slow, left, c.robSize + 1, k, pos);
    FedCycle(c, fix, t1, slow, left, k, pos);
    var x := Do(NextLink(Execute(t1), slow, k));
    var more, t2, pos2 := Gathers(c, fix, Cycle(c, fix, t1, x.inst, JUNK), slow, left - 1, k,
                                  pos + [FirstFree(t1.exb, 0)]);
    FirstLink(c, fix, t1, x, more);
    StepsAppend(c, fix, s, pre, [x] + more);
    LinksAppend(pre, [x] + more);
    var end;
    end, t := CrowdEnds(c, fix, t2, slow, pos2);
    StepsAppend(c, fix, s, pre + ([x] + more), end);
    ins := pre + ([x] + more) + end;
    LinksThenIdle(pre + ([x] + more), end);
  }

  lemma ChainedLength(c: Config, s: State, slow: nat, left: nat, a: nat, pos: seq<nat>)
    requires Chained(c, s, slow, left, a, pos)
    ensures s.rob.cnt == 1 + |pos| && |s.exb| == c.exbSize
  {
  }

  lemma LinksThenIdle(a: seq<Input>, b: seq<Input>)
    requires Links(a) && forall k | 0 <= k < |b| :: b[k].inst.None?
    ensures Program(a + b)
  {
  }

  lemma CrowdEnds(c: Config, fix: Repairs, s: State, slow: nat, pos: seq<nat>) returns (ins: seq<Input>, t: State)
    requires Chained(c, s, slow, 0, 0, pos) && 0 < |pos| <= c.nbUnits && 0 < c.nbLanes && 0 < c.exbSize
    requires 3 <= c.cycles(slow)
    ensures ins == [NOTHING, NOTHING, NOTHING] && Steps(c, fix, s, ins) == Some(t)
    ensures Stacked(c, t, |pos|, c.cycles(slow) - 2, None)
  {
    hide Chained, Stacked, Crowd, CrowdServed, Steps, Cycle, CycleDefined, BeforeDispatch;
    Wakes(c, fix, s, slow, pos);
    var s1 := BeforeDispatch(c, fix, s);
    CycleOf(c, fix, s, s1);
    CrowdDrains(c, fix, s1, |pos|, c.cycles(slow));
    var s2 := BeforeDispatch(c, fix, s1);
    CycleOf(c, fix, s1, s2);
    CrowdLeft(c, fix, s2, |pos|, c.cycles(slow) - 1);
    t := BeforeDispatch(c, fix, s2);
    CycleOf(c, fix, s2, t);
    NoSteps(c, fix, t);
    FirstStep(c, fix, s2, NOTHING, []);
    FirstStep(c, fix, s1, NOTHING, [NOTHING]);
    FirstStep(c, fix, s, NOTHING, [NOTHING, NOTHING]);
    assert [NOTHING] + [] == [NOTHING] && [NOTHING] + [NOTHING] == [NOTHING, NOTHING];
    ins := [NOTHING] + [NOTHING, NOTHING];
  }

  /** Where a crowd of one more than the lanes has to fill the ring, the last one has to be quick. */
  predicate Quick(c: Config, slow: nat, quick: nat) {
    c.robSize == c.nbLanes + 1 ==> c.cycles(quick) + 4 <= c.cycles(slow) && quick < 0x400
  }

  /** More units than lanes, slots and entries for them, and a program on which the loop leaves the lanes. */
  lemma CrowdOverflow(c: Config, fix: Repairs, s: State, x0: RegVals, slow: nat, quick: nat)
    returns (ins: seq<Input>, t: State)
    requires ConfigOk(c) && Initial(c, s, x0) && !EnoughLanes(c, fix)
    requires EnoughRoom(c) || c.nbLanes < c.exbSize
    requires 3 <= c.cycles(slow) && slow < 0x400 && Quick(c, slow, quick)
    ensures Program(ins) && Steps(c, fix, s, ins) == Some(t)
    ensures Shape(c, t) && !CycleDefined(fix, t)
  {
    hide Stacked, Initial, Steps, CycleDefined, Program;
    var last := c.robSize == c.nbLanes + 1;
    var k, ops := if last then c.nbLanes else c.nbLanes + 1, if last then [quick] else [];
    var pre, s1 := CrowdStacks(c, fix, s, x0, slow, k);
    var more;
    more, t := StackUp(c, fix, s1, k, c.cycles(slow) - 2, None, ops);
    StepsAppend(c, fix, s, pre, more);
    StackedCounts(c, t, c.nbLanes + 1, 0, None);
    StackedOverflow(c, fix, t, c.nbLanes + 1);
    ins := pre + more;
    ProgramAppend(pre, more);
  }

  lemma ProgramAppend(a: seq<Input>, b: seq<Input>)
    requires Program(a) && Program(b)
    ensures Program(a + b)
  {
  }

  /**
   * Exactly when the loop as written never leaves the lanes, whatever is fetched and whatever else the
   * build gets wrong: a lane for every unit or for every slot. `slow` and `quick` are operations of
   * the latencies that the program needs.
   */
  lemma LanesExact(c: Config, fix: Repairs, s: State, x0: RegVals, slow: nat, quick: nat)
    requires ConfigOk(c) && Initial(c, s, x0) && !fix.capLanes
    requires EnoughRoom(c) || c.nbLanes < c.exbSize
    requires 3 <= c.cycles(slow) && slow < 0x400 && Quick(c, slow, quick)
    ensures (forall ins | Program(ins) :: Steps(c, fix, s, ins).Some?) <==>
            c.nbUnits <= c.nbLanes || c.robSize <= c.nbLanes
  {
    hide Steps, CycleDefined, Program, Initial;
    if EnoughLanes(c, fix) {
      forall ins | Program(ins) ensures Steps(c, fix, s, ins).Some? {
        EnoughLanesSteps(c, fix, s, x0, ins);
      }
    } else {
      var ins, t := CrowdOverflow(c, fix, s, x0, slow, quick);
      OneMore(c, fix, s, ins, t);
    }
  }

  lemma OneMore(c: Config, fix: Repairs, s: State, ins: seq<Input>, t: State)
    requires Program(ins) && Steps(c, fix, s, ins) == Some(t) && Shape(c, t) && !CycleDefined(fix, t)
    ensures Program(ins + [NOTHING]) && Steps(c, fix, s, ins + [NOTHING]).None?
  {
    StepsAppend(c, fix, s, ins, [NOTHING]);
  }

  /** Operations of unit.c of falling latency, one more than there are lanes: 19, 4, 1 and 0 cycles. */
  function TableOps(lanes: nat): (ops: seq<nat>)
    requires lanes < 4
    ensures |ops| == lanes + 1
  {
    if lanes == 0 then [U.F10_ADD]
    else if lanes == 1 then [U.F10_ADD, 0x010]
    else if lanes == 2 then [U.F10_MULHU, U.F10_ADD, 0x010]
    else [U.F10_DIVU, U.F10_MULHU, U.F10_ADD, 0x010]
  }

  lemma TableFalls(c: Config, lanes: nat)
    requires c.cycles == U.AluGetCycle && lanes < 4
    ensures Falling(c, TableOps(lanes))
  {
  }

  /**
   * With the latencies of unit.c, for any number of lanes when there are entries for as many and one
   * more or a buffer that loses nothing, and for up to three lanes with any number of entries.
   */
  lemma TableLanesExact(c: Config, fix: Repairs, s: State, x0: RegVals)
    requires ConfigOk(c) && Initial(c, s, x0) && !fix.capLanes && 0 < c.exbSize
    requires EnoughRoom(c) || c.nbLanes < c.exbSize || c.nbLanes <= 3
    requires c.cycles == U.AluGetCycle
    ensures (forall ins | Program(ins) :: Steps(c, fix, s, ins).Some?) <==>
            c.nbUnits <= c.nbLanes || c.robSize <= c.nbLanes
  {
    hide Steps, CycleDefined, Program, Initial;
    if EnoughLanes(c, fix) {
      forall ins | Program(ins) ensures Steps(c, fix, s, ins).Some? {
        EnoughLanesSteps(c, fix, s, x0, ins);
      }
    } else if EnoughRoom(c) || c.nbLanes < c.exbSize {
      LanesExact(c, fix, s, x0, U.F10_MULHU, 0x010);
    } else {
      TableFalls(c, c.nbLanes);
      var ins, t := LanesOverflow(c, fix, s, x0, TableOps(c.nbLanes));
      OneMore(c, fix, s, ins, t);
    }
  }
}
