/** Cycles in which little happens, for following a run of the engine step by step. */
module Cycles {
  import opened Base
  import opened InOrder
  import opened ReorderBuffer
  import opened Machine
  import opened Runs

  /** What an unset variable holds where it does not matter. */
  const JUNK: int32 := 9

  const NOTHING := Input(None, JUNK)

  function Do(i: Instr): Input { Input(Some(i), JUNK) }

  /** A cycle in front of a run. */
  lemma FirstStep(c: Config, fix: Repairs, s: State, x: Input, ins: seq<Input>)
    requires Shape(c, s) && CycleDefined(fix, s)
    requires Program(ins) && (x.inst.Some? ==> Encodes(x.inst.value))
    ensures Program([x] + ins)
    ensures Steps(c, fix, s, [x] + ins) == Steps(c, fix, Cycle(c, fix, s, x.inst, x.junk), ins)
  {
    hide Cycle, CycleDefined, Shape, Encodes;
    assert ([x] + ins)[1..] == ins;
  }

  lemma NoSteps(c: Config, fix: Repairs, s: State)
    ensures Program([]) && Steps(c, fix, s, []) == Some(s)
  {
  }

  lemma IdleWriteBack(fix: Repairs, s: State)
    requires forall l | 0 <= l < |s.cdb| :: !s.cdb[l].valid
    requires forall u | 0 <= u < |s.exu| :: !UnitDone(s.exu[u])
    ensures LanesSuffice(fix, s) && WriteBack(fix, s) == s
  {
    NoIndices(s.exu, UnitDone, |s.exu|);
    QuietDrain(s, |s.cdb|);
    assert MoveResults(s, [], 0) == s;
    assert ForwardAll(s).exb == s.exb;
  }

  /** Of the lanes at most the first is valid. */
  lemma {:induction false} FirstDrains(s: State, k: nat)
    requires 0 < k <= |s.cdb| && forall l | 0 < l < |s.cdb| :: !s.cdb[l].valid
    ensures DrainLanes(s, k) == DrainLane(s, 0)
  {
    if k == 1 {
      assert DrainLanes(s, 0) == s;
    } else {
      FirstDrains(s, k - 1);
    }
  }

  /** Of units and lanes at most the first is in use, and no operand waits. */
  lemma FirstWriteBack(fix: Repairs, s: State)
    requires 0 < |s.exu| && forall u | 0 < u < |s.exu| :: !s.exu[u].busy
    requires 0 < |s.cdb| && forall l | 0 < l < |s.cdb| :: !s.cdb[l].valid
    requires forall i | 0 <= i < |s.exb| && s.exb[i].busy :: s.exb[i].rj && s.exb[i].rk
    ensures LanesSuffice(fix, s)
    ensures var d := DrainLane(s, 0);
            WriteBack(fix, s) == if UnitDone(s.exu[0]) then MoveResult(d, 0, 0) else d
  {
    FirstDrains(s, |s.cdb|);
    var d := DrainLane(s, 0);
    if UnitDone(s.exu[0]) {
      OnlyIndex(s.exu, UnitDone, |s.exu|, 0);
      assert MoveResults(d, [0], 0) == d;
      ReadyForward(MoveResult(d, 0, 0));
    } else {
      NoIndices(s.exu, UnitDone, |s.exu|);
      assert MoveResults(d, [], 0) == d;
      ReadyForward(d);
    }
  }

  lemma ReadyForward(s: State)
    requires forall i | 0 <= i < |s.exb| && s.exb[i].busy :: s.exb[i].rj && s.exb[i].rk
    ensures ForwardAll(s) == s
  {
    assert ForwardAll(s).exb == s.exb;
  }

  lemma NothingReady(c: Config, s: State)
    requires forall i | 0 <= i < |s.exb| :: !EntryReady(s.exb[i])
    ensures IssueReady(c, s) == s
  {
    NoIndices(s.exb, EntryReady, |s.exb|);
  }

  /** The only ready entry goes to the first free unit. */
  lemma OneIssues(c: Config, s: State, u: nat, e: nat)
    requires u < |s.exu| && UnitFree(s.exu[u]) && forall v | 0 <= v < u :: !UnitFree(s.exu[v])
    requires e < |s.exb| && EntryReady(s.exb[e]) && forall i | 0 <= i < |s.exb| && i != e :: !EntryReady(s.exb[i])
    ensures IssueReady(c, s) == IssueOne(c, s, u, e)
  {
    hide Indices, IssueOne;
    OnlyIndex(s.exb, EntryReady, |s.exb|, e);
    FirstIndex(s.exu, UnitFree, |s.exu|, u);
    assert IssueMany(c, s, FreeUnits(s.exu), [e], 0) == s;
  }

  /** Nothing to commit, drain, move or issue: the units count down. */
  lemma QuietBackend(c: Config, fix: Repairs, s: State)
    requires Shape(c, s) && !HeadDone(s.rob)
    requires forall l | 0 <= l < |s.cdb| :: !s.cdb[l].valid
    requires forall u | 0 <= u < |s.exu| :: !UnitDone(s.exu[u])
    requires forall i | 0 <= i < |s.exb| :: !EntryReady(s.exb[i])
    ensures CycleDefined(fix, s) && BeforeDispatch(c, fix, s) == Execute(s)
  {
    IdleWriteBack(fix, s);
    NothingReady(c, Execute(s));
  }
}
