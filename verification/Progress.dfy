/** Liveness: every cycle without a commit brings some instruction closer to its own. */
module Progress {
  import opened Base
  import opened InOrder
  import opened ReorderBuffer
  import opened Machine
  import opened Invariant
  import opened CommitProof
  import opened WriteBackProof
  import opened IssueProof
  import opened DispatchProof
  import opened Runs

  /** One more than the longest stay any instruction has ahead of it when it enters. */
  const FULL_WEIGHT := MAX_LATENCY + 4

  /**
   * Cycles the work of slot `t` still needs at most, were it never held up: a step onto the lanes,
   * one into the ring and one out of it, after what execution is left. A free slot weighs `free`.
   */
  ghost function Weight(c: Config, s: State, tr: Track, free: nat, t: nat): nat
    requires Tracks(c, s, tr) && t < c.robSize
  {
    if !Live(s.rob, t) then free else
    match tr.loc[t]
    case InExb(_) => c.cycles(tr.hist[Owner(s, tr, t)].f10) + 4
    case InUnit(u) => if u < |s.exu| then s.exu[u].cycleLeft + 3 else 0
    case OnLane(_) => 2
    case InRob => 1
  }

  ghost function Total(c: Config, s: State, tr: Track, free: nat, n: nat): nat
    requires Tracks(c, s, tr) && n <= c.robSize
  {
    if n == 0 then 0 else Total(c, s, tr, free, n - 1) + Weight(c, s, tr, free, n - 1)
  }

  ghost function Work(c: Config, s: State, tr: Track, free: nat): nat
    requires Tracks(c, s, tr)
  {
    Total(c, s, tr, free, c.robSize)
  }

  /** No slot got heavier. */
  ghost predicate NotHeavier(c: Config, s: State, tr: Track, s': State, tr': Track, free: nat) {
    && Tracks(c, s, tr) && Tracks(c, s', tr')
    && forall t | 0 <= t < c.robSize :: Weight(c, s', tr', free, t) <= Weight(c, s, tr, free, t)
  }

  ghost predicate Lighter(c: Config, s: State, tr: Track, s': State, tr': Track, free: nat, t: nat) {
    && NotHeavier(c, s, tr, s', tr', free)
    && t < c.robSize
    && Weight(c, s', tr', free, t) < Weight(c, s, tr, free, t)
  }

  lemma {:induction false} TotalFalls(c: Config, s: State, tr: Track, s': State, tr': Track, free: nat, t: nat, n: nat)
    requires NotHeavier(c, s, tr, s', tr', free) && t < c.robSize && n <= c.robSize
    ensures Total(c, s', tr', free, n) <= Total(c, s, tr, free, n)
    ensures t < n && Lighter(c, s, tr, s', tr', free, t) ==> Total(c, s', tr', free, n) < Total(c, s, tr, free, n)
  {
    if n != 0 {
      TotalFalls(c, s, tr, s', tr', free, t, n - 1);
    }
  }

  lemma WeightBounds(c: Config, s: State, tr: Track, free: nat, t: nat)
    requires Inv(c, s, tr) && ConfigOk(c) && free <= FULL_WEIGHT && t < c.robSize
    ensures Weight(c, s, tr, free, t) <= FULL_WEIGHT
    ensures Live(s.rob, t) ==> 1 <= Weight(c, s, tr, free, t)
  {
    assert SlotOk(c, s, tr, t);
    if Live(s.rob, t) && tr.loc[t].InUnit? {
      assert UnitOk(c, s, tr, tr.loc[t].u);
    }
  }

  lemma {:induction false} TotalBounds(c: Config, s: State, tr: Track, free: nat, t: nat, n: nat)
    requires Inv(c, s, tr) && ConfigOk(c) && free <= FULL_WEIGHT && t < c.robSize && n <= c.robSize
    ensures Total(c, s, tr, free, n) <= FULL_WEIGHT * n
    ensures t < n && Live(s.rob, t) ==> 1 <= Total(c, s, tr, free, n)
  {
    hide InvAt;
    if n != 0 {
      TotalBounds(c, s, tr, free, t, n - 1);
      WeightBounds(c, s, tr, free, n - 1);
    }
  }

  // ---------------------------------------------------------------------------
  // Phase by phase
  // ---------------------------------------------------------------------------

  lemma {:induction false} MovedUnits(s: State, done: seq<nat>, k: nat, u: nat)
    requires k <= |done| && k <= |s.cdb| && u < |s.exu|
    requires forall j | 0 <= j < |done| :: done[j] < |s.exu|
    ensures MoveResults(s, done, k).exu[u] == s.exu[u] || !MoveResults(s, done, k).exu[u].busy
    ensures (exists j | 0 <= j < k :: done[j] == u) ==> !MoveResults(s, done, k).exu[u].busy
  {
    if k != 0 {
      MovedUnits(s, done, k - 1, u);
    }
  }

  /** What write-back leaves alone. */
  lemma WriteBackFrame(fix: Repairs, s: State)
    requires LanesSuffice(fix, s)
    ensures var s' := WriteBack(fix, s);
      && |s'.exb| == |s.exb| && |s'.exu| == |s.exu|
      && s'.rob == DrainLanes(s, |s.cdb|).rob
      && (forall i | 0 <= i < |s.exb| :: s'.exb[i].busy == s.exb[i].busy && s'.exb[i].qr == s.exb[i].qr)
      && (forall u | 0 <= u < |s.exu| :: s'.exu[u] == s.exu[u] || !s'.exu[u].busy)
  {
    hide DrainLanes, MoveResults, Lookup, Indices;
    var s1, done, k := DrainLanes(s, |s.cdb|), DoneUnits(s.exu), NbMoves(fix, s);
    forall u | 0 <= u < |s.exu|
      ensures MoveResults(s1, done, k).exu[u] == s.exu[u] || !MoveResults(s1, done, k).exu[u].busy
    {
      MovedUnits(s1, done, k, u);
    }
  }

  /** A result on a lane, or already in the ring, is in the ring once the lanes are drained. */
  lemma Drained(c: Config, s: State, tr: Track, t: nat)
    requires Inv(c, s, tr) && !tr.claim.Tags? && Live(s.rob, t)
    requires tr.loc[t].OnLane? || tr.loc[t].InRob?
    ensures var s1 := DrainLanes(s, |s.cdb|);
      t < |s1.rob.data| && s1.rob.data[t].done
  {
    hide InvAt, DrainLanes, DrainTrack;
    var s1, tr1 := DrainLanes(s, |s.cdb|), DrainTrack(s, tr, |s.cdb|);
    DrainKeepsInv(c, s, tr, |s.cdb|);
    DrainTrackProgram(s, tr, |s.cdb|);
    HeldThere(c, s1, tr1, t);
    var p := tr1.loc[t];
    if !p.InRob? {
      HeldOnlyThere(c, s, tr, t, p);
    }
  }

  lemma WriteBackSlot(c: Config, fix: Repairs, s: State, tr: Track, free: nat, t: nat)
    requires Inv(c, s, tr) && !tr.claim.Tags? && LanesSuffice(fix, s) && t < c.robSize
    ensures Tracks(c, s, tr) && Tracks(c, WriteBack(fix, s), WriteBackTrack(fix, s, tr))
    ensures Weight(c, WriteBack(fix, s), WriteBackTrack(fix, s, tr), free, t) <= Weight(c, s, tr, free, t)
    ensures Live(s.rob, t) && tr.loc[t].OnLane? ==> WriteBackTrack(fix, s, tr).loc[t].InRob?
    ensures Live(s.rob, t) && tr.loc[t].InUnit? && tr.loc[t].u < |WriteBack(fix, s).exu| &&
            !WriteBack(fix, s).exu[tr.loc[t].u].busy ==>
              Weight(c, WriteBack(fix, s), WriteBackTrack(fix, s, tr), free, t) < Weight(c, s, tr, free, t)
  {
    hide OperandOk, RenameOk, Seq, Result, WriteBack, WriteBackTrack;
    var s', tr' := WriteBack(fix, s), WriteBackTrack(fix, s, tr);
    WriteBackKeepsInv(c, fix, s, tr);
    WriteBackTrackProgram(fix, s, tr);
    WriteBackFrame(fix, s);
    if Live(s.rob, t) {
      assert SlotOk(c, s, tr, t);
      assert SlotOk(c, s', tr', t);
      match tr.loc[t]
      case InExb(i) => assert EntryOk(c, s', tr', false, i);
      case InUnit(u) => UnitAfter(c, s, tr, s', tr', t);
      case OnLane(_) => Drained(c, s, tr, t);
      case InRob => Drained(c, s, tr, t);
    }
  }

  /** A unit that lost its work handed it on; no other place can have it. */
  lemma UnitAfter(c: Config, s: State, tr: Track, s': State, tr': Track, t: nat)
    requires Inv(c, s, tr) && Inv(c, s', tr') && !tr.claim.Tags? && !tr'.claim.Tags?
    requires Live(s.rob, t) && Live(s'.rob, t) && tr.loc[t].InUnit?
    requires forall i | 0 <= i < |s.exb| :: s'.exb[i].busy == s.exb[i].busy && s'.exb[i].qr == s.exb[i].qr
    requires forall u | 0 <= u < |s.exu| :: s'.exu[u] == s.exu[u] || !s'.exu[u].busy
    ensures tr.loc[t].u < |s.exu|
    ensures s'.exu[tr.loc[t].u].busy ==> s'.exu[tr.loc[t].u] == s.exu[tr.loc[t].u] && tr'.loc[t] == tr.loc[t]
    ensures !s'.exu[tr.loc[t].u].busy ==> tr'.loc[t].OnLane? || tr'.loc[t].InRob?
  {
    hide OperandOk, RenameOk, Seq, Result;
    assert SlotOk(c, s, tr, t);
    assert SlotOk(c, s', tr', t);
    assert UnitOk(c, s', tr', tr.loc[t].u);
    PlacesHold(c, s, tr);
  }

  lemma WriteBackNotHeavier(c: Config, fix: Repairs, s: State, tr: Track, free: nat)
    requires Inv(c, s, tr) && !tr.claim.Tags? && LanesSuffice(fix, s)
    ensures NotHeavier(c, s, tr, WriteBack(fix, s), WriteBackTrack(fix, s, tr), free)
  {
    hide InvAt, Weight;
    InvShape(c, s, tr);
    WriteBackSlot(c, fix, s, tr, free, 0);
    forall t | 0 <= t < c.robSize
      ensures Weight(c, WriteBack(fix, s), WriteBackTrack(fix, s, tr), free, t) <= Weight(c, s, tr, free, t)
    {
      WriteBackSlot(c, fix, s, tr, free, t);
    }
  }

  lemma ExecuteNotHeavier(c: Config, s: State, tr: Track, free: nat)
    requires Inv(c, s, tr)
    ensures NotHeavier(c, s, tr, Execute(s), tr, free)
    ensures forall u | 0 <= u < |s.exu| && s.exu[u].busy && s.exu[u].cycleLeft != 0 ::
              Lighter(c, s, tr, Execute(s), tr, free, s.exu[u].qr)
  {
    hide EntryOk, RenameOk, LaneOk;
    var s' := Execute(s);
    forall t | 0 <= t < c.robSize
      ensures Weight(c, s', tr, free, t) <= Weight(c, s, tr, free, t)
    {
      assert SlotOk(c, s, tr, t);
    }
    forall u | 0 <= u < |s.exu| && s.exu[u].busy && s.exu[u].cycleLeft != 0
      ensures Lighter(c, s, tr, s', tr, free, s.exu[u].qr)
    {
      assert UnitOk(c, s, tr, u);
    }
  }

  lemma {:induction false} IssuedPairs(c: Config, s: State, units: seq<nat>, entries: seq<nat>, k: nat, u: nat, i: nat)
    requires k <= |units| && k <= |entries| && u < |s.exu| && i < |s.exb|
    requires forall j | 0 <= j < |units| :: units[j] < |s.exu| && !s.exu[units[j]].busy
    requires forall j | 0 <= j < |entries| :: entries[j] < |s.exb|
    ensures var s' := IssueMany(c, s, units, entries, k);
      && (s.exu[u].busy ==> s'.exu[u] == s.exu[u])
      && (s'.exb[i].busy ==> s'.exb[i] == s.exb[i])
      && ((exists j | 0 <= j < k :: entries[j] == i) ==> !s'.exb[i].busy)
  {
    if k != 0 {
      IssuedPairs(c, s, units, entries, k - 1, u, i);
    }
  }

  lemma IssueFrame(c: Config, s: State)
    ensures var s' := IssueReady(c, s);
      && s'.rob == s.rob && s'.cdb == s.cdb && |s'.exu| == |s.exu| && |s'.exb| == |s.exb|
      && (forall u | 0 <= u < |s.exu| && s.exu[u].busy :: s'.exu[u] == s.exu[u])
      && (forall i | 0 <= i < |s.exb| && s'.exb[i].busy :: s'.exb[i] == s.exb[i])
  {
    var units, entries, k := FreeUnits(s.exu), ReadyEntries(s.exb), NbIssue(s);
    forall u | 0 <= u < |s.exu| && s.exu[u].busy ensures IssueReady(c, s).exu[u] == s.exu[u] {
      if s.exb != [] {
        IssuedPairs(c, s, units, entries, k, u, 0);
      }
    }
    forall i | 0 <= i < |s.exb| && IssueReady(c, s).exb[i].busy ensures IssueReady(c, s).exb[i] == s.exb[i] {
      if s.exu != [] {
        IssuedPairs(c, s, units, entries, k, 0, i);
      }
    }
  }

  lemma IssueSlot(c: Config, s: State, tr: Track, free: nat, t: nat)
    requires Inv(c, s, tr) && !tr.claim.Tags? && ConfigOk(c) && t < c.robSize
    ensures Tracks(c, s, tr) && Tracks(c, IssueReady(c, s), IssueTrack(c, s, tr))
    ensures Weight(c, IssueReady(c, s), IssueTrack(c, s, tr), free, t) <= Weight(c, s, tr, free, t)
    ensures Live(s.rob, t) && tr.loc[t].InExb? && tr.loc[t].i < |s.exb| && !IssueReady(c, s).exb[tr.loc[t].i].busy ==>
              Weight(c, IssueReady(c, s), IssueTrack(c, s, tr), free, t) < Weight(c, s, tr, free, t)
  {
    hide OperandOk, RenameOk, Seq, Result, IssueReady, IssueTrack;
    var s', tr' := IssueReady(c, s), IssueTrack(c, s, tr);
    IssueKeepsInv(c, s, tr);
    IssueTrackProgram(c, s, tr);
    IssueFrame(c, s);
    if Live(s.rob, t) {
      assert SlotOk(c, s, tr, t);
      assert SlotOk(c, s', tr', t);
      PlacesHold(c, s', tr');
      if tr.loc[t].InExb? {
        EntryAfter(c, s, tr, s', tr', t);
      }
    }
  }

  lemma IssueTrackProgram(c: Config, s: State, tr: Track)
    ensures IssueTrack(c, s, tr) == tr.(loc := IssueTrack(c, s, tr).loc)
  {
    IssueManyTrackProgram(c, s, tr, FreeUnits(s.exu), ReadyEntries(s.exb), NbIssue(s));
  }

  /** An entry that issue emptied went to a unit. */
  lemma EntryAfter(c: Config, s: State, tr: Track, s': State, tr': Track, t: nat)
    requires Inv(c, s, tr) && Inv(c, s', tr') && !tr.claim.Tags? && !tr'.claim.Tags?
    requires Live(s.rob, t) && tr.loc[t].InExb?
    requires s'.rob == s.rob && s'.cdb == s.cdb && tr'.hist == tr.hist && tr'.committed == tr.committed
    requires forall i | 0 <= i < |s.exb| && s'.exb[i].busy :: s'.exb[i] == s.exb[i]
    ensures tr.loc[t].i < |s.exb|
    ensures s'.exb[tr.loc[t].i].busy ==> tr'.loc[t] == tr.loc[t]
    ensures !s'.exb[tr.loc[t].i].busy ==>
              && tr'.loc[t].InUnit? && tr'.loc[t].u < |s'.exu|
              && s'.exu[tr'.loc[t].u].cycleLeft <= c.cycles(tr.hist[Owner(s, tr, t)].f10)
  {
    hide OperandOk, RenameOk, Seq, Result;
    assert SlotOk(c, s, tr, t);
    assert SlotOk(c, s', tr', t);
    assert EntryOk(c, s', tr', false, tr.loc[t].i);
    PlacesHold(c, s, tr);
    if tr'.loc[t].InUnit? {
      assert UnitOk(c, s', tr', tr'.loc[t].u);
    }
  }

  lemma IssueNotHeavier(c: Config, s: State, tr: Track, free: nat)
    requires Inv(c, s, tr) && !tr.claim.Tags? && ConfigOk(c)
    ensures NotHeavier(c, s, tr, IssueReady(c, s), IssueTrack(c, s, tr), free)
  {
    hide InvAt, Weight;
    InvShape(c, s, tr);
    IssueSlot(c, s, tr, free, 0);
    forall t | 0 <= t < c.robSize
      ensures Weight(c, IssueReady(c, s), IssueTrack(c, s, tr), free, t) <= Weight(c, s, tr, free, t)
    {
      IssueSlot(c, s, tr, free, t);
    }
  }

  /** A new instruction weighs no more than the free slot it takes. */
  lemma DispatchNotHeavier(c: Config, fix: Repairs, s: State, tr: Track, inst: Option<Instr>, junk: int32, free: nat)
    requires Inv(c, s, tr) && ConfigOk(c) && (free == FULL_WEIGHT || inst.None?)
    ensures NotHeavier(c, s, tr, Dispatch(fix, s, inst, junk), DispatchTrack(s, tr, inst), free)
  {
  }

  // ---------------------------------------------------------------------------
  // Some slot gets lighter
  // ---------------------------------------------------------------------------

  /** The oldest instruction waits for nothing. */
  lemma HeadReady(c: Config, s: State, tr: Track, i: nat)
    requires Inv(c, s, tr) && i < |s.exb| && s.exb[i].busy && s.exb[i].qr == s.rob.commitPtr
    ensures EntryReady(s.exb[i])
  {
    assert EntryOk(c, s, tr, false, i);
  }

  /**
   * With no lane and no unit busy, the oldest instruction is ready in the buffer. What issues is the
   * ready entry of lowest index, which may be a younger one.
   */
  lemma HeadIssues(c: Config, s: State, tr: Track, free: nat) returns (t: nat, e: nat)
    requires Inv(c, s, tr) && !tr.claim.Tags? && ConfigOk(c) && s.rob.cnt != 0 && !HeadDone(s.rob)
    requires forall l | 0 <= l < |s.cdb| :: !s.cdb[l].valid
    requires forall u | 0 <= u < |s.exu| :: !s.exu[u].busy
    ensures exists i | 0 <= i < |s.exb| :: EntryReady(s.exb[i]) && s.exb[i].qr == s.rob.commitPtr
    ensures e < |s.exb| && EntryReady(s.exb[e]) && forall i | 0 <= i < e :: !EntryReady(s.exb[i])
    ensures t == s.exb[e].qr && !IssueReady(c, s).exb[e].busy
    ensures Lighter(c, s, tr, IssueReady(c, s), IssueTrack(c, s, tr), free, t)
  {
    hide OperandOk, RenameOk, Seq, Result;
    assert SlotOk(c, s, tr, s.rob.commitPtr);
    var i := tr.loc[s.rob.commitPtr].i;
    HeadReady(c, s, tr, i);
    var units, entries, k := FreeUnits(s.exu), ReadyEntries(s.exb), NbIssue(s);
    assert UnitFree(s.exu[0]) && 0 in units;
    assert EntryReady(s.exb[i]) && i in entries;
    e := entries[0];
    t := s.exb[e].qr;
    forall j | 0 <= j < e ensures !EntryReady(s.exb[j]) {
      assert EntryReady(s.exb[j]) ==> j in entries;
    }
    assert EntryOk(c, s, tr, false, e);
    IssuedPairs(c, s, units, entries, k, 0, e);
    IssueNotHeavier(c, s, tr, free);
    IssueSlot(c, s, tr, free, t);
  }

  /** What a lane carries for its slot alone is there once the lane is drained. */
  lemma {:induction false} LaneInRing(s: State, k: nat, l: nat)
    requires l < k <= |s.cdb| && s.cdb[l].valid && s.cdb[l].qr < |s.rob.data|
    requires forall m | 0 <= m < |s.cdb| && m != l && s.cdb[m].valid :: s.cdb[m].qr != s.cdb[l].qr
    ensures var e := DrainLanes(s, k).rob.data[s.cdb[l].qr]; e.done && e.data == s.cdb[l].result
  {
    if l < k - 1 {
      LaneInRing(s, k - 1, l);
    }
  }

  /** A result on a lane is in its slot of the ring after one write-back. */
  lemma LaneDrains(c: Config, fix: Repairs, s: State, tr: Track, free: nat, l: nat) returns (t: nat)
    requires Inv(c, s, tr) && !tr.claim.Tags? && LanesSuffice(fix, s) && l < |s.cdb| && s.cdb[l].valid
    ensures t == s.cdb[l].qr && t < |WriteBack(fix, s).rob.data|
    ensures WriteBack(fix, s).rob.data[t].done && WriteBack(fix, s).rob.data[t].data == s.cdb[l].result
    ensures Lighter(c, s, tr, WriteBack(fix, s), WriteBackTrack(fix, s, tr), free, t)
  {
    hide OperandOk, RenameOk, Seq, Result, WriteBack, WriteBackTrack;
    assert LaneOk(c, s, tr, l);
    t := s.cdb[l].qr;
    PlacesHold(c, s, tr);
    LaneInRing(s, |s.cdb|, l);
    WriteBackNotHeavier(c, fix, s, tr, free);
    WriteBackSlot(c, fix, s, tr, free, t);
    WriteBackFrame(fix, s);
    WriteBackTrackProgram(fix, s, tr);
    PhasesKeepShape(c, fix, s);
  }

  /** The first finished unit gets a lane. */
  lemma FirstDoneMoves(c: Config, fix: Repairs, s: State, tr: Track, free: nat) returns (t: nat)
    requires Inv(c, s, tr) && !tr.claim.Tags? && ConfigOk(c) && LanesSuffice(fix, s) && DoneUnits(s.exu) != []
    ensures Lighter(c, s, tr, WriteBack(fix, s), WriteBackTrack(fix, s, tr), free, t)
  {
    hide OperandOk, RenameOk, Seq, Result, WriteBackTrack;
    var u := DoneUnits(s.exu)[0];
    assert UnitOk(c, s, tr, u);
    t := s.exu[u].qr;
    MovedUnits(DrainLanes(s, |s.cdb|), DoneUnits(s.exu), NbMoves(fix, s), u);
    WriteBackNotHeavier(c, fix, s, tr, free);
    WriteBackSlot(c, fix, s, tr, free, t);
  }

  // ---------------------------------------------------------------------------
  // A whole cycle
  // ---------------------------------------------------------------------------

  lemma WorkFalls(c: Config, s: State, tr: Track, s': State, tr': Track, free: nat, t: nat)
    requires NotHeavier(c, s, tr, s', tr', free)
    ensures Work(c, s', tr', free) <= Work(c, s, tr, free)
    ensures Lighter(c, s, tr, s', tr', free, t) ==> Work(c, s', tr', free) < Work(c, s, tr, free)
  {
    TotalFalls(c, s, tr, s', tr', free, if t < c.robSize then t else 0, c.robSize);
  }

  /** With nothing on a lane and nothing finished, write-back changes neither units nor lanes. */
  lemma QuietWriteBack(fix: Repairs, s: State)
    requires LanesSuffice(fix, s) && DoneUnits(s.exu) == []
    ensures WriteBack(fix, s).exu == s.exu
    ensures forall l | 0 <= l < |WriteBack(fix, s).cdb| :: !WriteBack(fix, s).cdb[l].valid
  {
  }

  /** Write-back leaves a head that sits in the buffer there. */
  lemma HeadStays(c: Config, fix: Repairs, s: State, tr: Track)
    requires Inv(c, s, tr) && !tr.claim.Tags? && LanesSuffice(fix, s) && s.rob.cnt != 0 && !HeadDone(s.rob)
    requires forall l | 0 <= l < |s.cdb| :: !s.cdb[l].valid
    requires forall u | 0 <= u < |s.exu| :: !s.exu[u].busy
    ensures var s' := WriteBack(fix, s); RingOk(s'.rob) && s'.rob.cnt != 0 && !HeadDone(s'.rob)
  {
    hide OperandOk, RenameOk, Seq, Result, WriteBack, WriteBackTrack;
    var s', tr' := WriteBack(fix, s), WriteBackTrack(fix, s, tr);
    WriteBackKeepsInv(c, fix, s, tr);
    WriteBackFrame(fix, s);
    var p := s.rob.commitPtr;
    assert SlotOk(c, s, tr, p);
    assert EntryOk(c, s', tr', false, tr.loc[p].i);
    assert SlotOk(c, s', tr', p);
  }

  /** The state after write-back and execute, with its track. */
  lemma MiddleOfCycle(c: Config, fix: Repairs, s: State, tr: Track, free: nat)
    requires Inv(c, s, tr) && !tr.claim.Tags? && ConfigOk(c) && LanesSuffice(fix, s)
    ensures var s2, tr2 := WriteBack(fix, s), WriteBackTrack(fix, s, tr);
      && Inv(c, s2, tr2) && Inv(c, Execute(s2), tr2)
      && NotHeavier(c, s, tr, s2, tr2, free)
      && NotHeavier(c, s2, tr2, Execute(s2), tr2, free)
      && NotHeavier(c, Execute(s2), tr2, IssueReady(c, Execute(s2)), IssueTrack(c, Execute(s2), tr2), free)
  {
    hide InvAt, NotHeavier, WriteBack, WriteBackTrack;
    var s2, tr2 := WriteBack(fix, s), WriteBackTrack(fix, s, tr);
    WriteBackKeepsInv(c, fix, s, tr);
    WriteBackTrackProgram(fix, s, tr);
    ExecuteKeepsInv(c, s2, tr2);
    WriteBackNotHeavier(c, fix, s, tr, free);
    ExecuteNotHeavier(c, s2, tr2, free);
    IssueNotHeavier(c, Execute(s2), tr2, free);
  }

  /** From write-back to issue the work falls unless the head was ready to commit or nothing is open. */
  lemma BackendFalls(c: Config, fix: Repairs, s: State, tr: Track, free: nat)
    requires Inv(c, s, tr) && !tr.claim.Tags? && ConfigOk(c) && LanesSuffice(fix, s)
    ensures var s2, tr2 := WriteBack(fix, s), WriteBackTrack(fix, s, tr);
            var s4, tr4 := IssueReady(c, Execute(s2)), IssueTrack(c, Execute(s2), tr2);
      && Tracks(c, s, tr) && Tracks(c, s4, tr4)
      && Work(c, s4, tr4, free) <= Work(c, s, tr, free)
      && (s.rob.cnt != 0 && !HeadDone(s.rob) ==> Work(c, s4, tr4, free) < Work(c, s, tr, free))
  {
    hide InvAt, Lighter, Work, WriteBack, WriteBackTrack, IssueReady, IssueTrack;
    InvShape(c, s, tr);
    var s2, tr2 := WriteBack(fix, s), WriteBackTrack(fix, s, tr);
    var s3 := Execute(s2);
    var s4, tr4 := IssueReady(c, s3), IssueTrack(c, s3, tr2);
    MiddleOfCycle(c, fix, s, tr, free);
    WorkFalls(c, s, tr, s2, tr2, free, 0);
    WorkFalls(c, s2, tr2, s3, tr2, free, 0);
    WorkFalls(c, s3, tr2, s4, tr4, free, 0);
    if s.rob.cnt == 0 || HeadDone(s.rob) {
    } else if l :| 0 <= l < |s.cdb| && s.cdb[l].valid {
      var t := LaneDrains(c, fix, s, tr, free, l);
      WorkFalls(c, s, tr, s2, tr2, free, t);
    } else if DoneUnits(s.exu) != [] {
      var t := FirstDoneMoves(c, fix, s, tr, free);
      WorkFalls(c, s, tr, s2, tr2, free, t);
    } else {
      QuietBackendFalls(c, fix, s, tr, free);
    }
  }

  lemma QuietBackendFalls(c: Config, fix: Repairs, s: State, tr: Track, free: nat)
    requires Inv(c, s, tr) && !tr.claim.Tags? && ConfigOk(c) && LanesSuffice(fix, s)
    requires s.rob.cnt != 0 && !HeadDone(s.rob) && DoneUnits(s.exu) == []
    requires forall l | 0 <= l < |s.cdb| :: !s.cdb[l].valid
    ensures var s2, tr2 := WriteBack(fix, s), WriteBackTrack(fix, s, tr);
            var s3 := Execute(s2);
            var s4, tr4 := IssueReady(c, s3), IssueTrack(c, s3, tr2);
      && Tracks(c, s2, tr2) && Tracks(c, s3, tr2) && Tracks(c, s4, tr4)
      && (Work(c, s3, tr2, free) < Work(c, s2, tr2, free) || Work(c, s4, tr4, free) < Work(c, s3, tr2, free))
  {
    hide InvAt, Lighter, Work, WriteBack, WriteBackTrack, IssueReady, IssueTrack;
    var s2, tr2 := WriteBack(fix, s), WriteBackTrack(fix, s, tr);
    var s3 := Execute(s2);
    MiddleOfCycle(c, fix, s, tr, free);
    WriteBackTrackProgram(fix, s, tr);
    QuietWriteBack(fix, s);
    if u :| 0 <= u < |s.exu| && s.exu[u].busy {
      assert s.exu[u].cycleLeft != 0 by { assert UnitDone(s.exu[u]) ==> u in DoneUnits(s.exu); }
      ExecuteNotHeavier(c, s2, tr2, free);
      WorkFalls(c, s2, tr2, s3, tr2, free, s2.exu[u].qr);
    } else {
      HeadStays(c, fix, s, tr);
      var t, _ := HeadIssues(c, s3, tr2, free);
      WorkFalls(c, s3, tr2, IssueReady(c, s3), IssueTrack(c, s3, tr2), free, t);
    }
  }

  /** A commit removes the head's last unit of weight when free slots weigh nothing. */
  lemma CommitNotHeavier(c: Config, fix: Repairs, s: State, tr: Track)
    requires Inv(c, s, tr) && HeadDone(s.rob)
    ensures Lighter(c, s, tr, Commit(fix, s), CommitTrack(s, tr), 0, s.rob.commitPtr)
  {
    hide OperandOk, RenameOk, Seq, Result;
    CommitRing(c, fix, s, tr);
    assert SlotOk(c, s, tr, s.rob.commitPtr);
  }

  /** A cycle that commits nothing lowers the work, whatever it accepts. */
  lemma StalledCycleFalls(c: Config, fix: Repairs, s: State, tr: Track, input: Input)
    requires Inv(c, s, tr) && !tr.claim.Tags? && ConfigOk(c)
    requires Shape(c, s) && Allows(tr.claim, c, fix, s, input.inst)
    requires s.rob.cnt != 0 && !HeadDone(s.rob)
    ensures var s', tr' := Cycle(c, fix, s, input.inst, input.junk), NextTrack(c, fix, s, tr, input.inst);
      && Inv(c, s', tr') && Tracks(c, s, tr) && Tracks(c, s', tr')
      && Work(c, s', tr', FULL_WEIGHT) < Work(c, s, tr, FULL_WEIGHT)
  {
    hide InvAt, Work, WriteBack, WriteBackTrack, IssueReady, IssueTrack, Dispatch;
    var b, btr := BeforeDispatch(c, fix, s), TrackBeforeDispatch(c, fix, s, tr);
    BackendFalls(c, fix, s, tr, FULL_WEIGHT);
    BackendKeepsInv(c, fix, s, tr);
    CycleKeepsInv(c, fix, s, tr, input);
    DispatchNotHeavier(c, fix, b, btr, input.inst, input.junk, FULL_WEIGHT);
    WorkFalls(c, b, btr, Cycle(c, fix, s, input.inst, input.junk), NextTrack(c, fix, s, tr, input.inst), FULL_WEIGHT, 0);
  }

  /** A cycle that fetches nothing lowers the work, commit or not, while anything is open. */
  lemma IdleCycleFalls(c: Config, fix: Repairs, s: State, tr: Track, input: Input)
    requires Inv(c, s, tr) && !tr.claim.Tags? && ConfigOk(c)
    requires Shape(c, s) && Allows(tr.claim, c, fix, s, input.inst)
    requires s.rob.cnt != 0 && input.inst.None?
    ensures var s', tr' := Cycle(c, fix, s, input.inst, input.junk), NextTrack(c, fix, s, tr, input.inst);
      && Inv(c, s', tr') && Tracks(c, s, tr) && Tracks(c, s', tr')
      && Work(c, s', tr', 0) < Work(c, s, tr, 0)
  {
    hide InvAt, Work, WriteBack, WriteBackTrack, IssueReady, IssueTrack, Lighter;
    var s1, tr1 := Commit(fix, s), CommitTrack(s, tr);
    CommitKeepsInv(c, fix, s, tr);
    BackendFalls(c, fix, s1, tr1, 0);
    BackendKeepsInv(c, fix, s, tr);
    CycleKeepsInv(c, fix, s, tr, input);
    if HeadDone(s.rob) {
      CommitNotHeavier(c, fix, s, tr);
      LighterNotHeavier(c, s, tr, s1, tr1, s.rob.commitPtr);
      WorkFalls(c, s, tr, s1, tr1, 0, s.rob.commitPtr);
    }
  }

  lemma LighterNotHeavier(c: Config, s: State, tr: Track, s': State, tr': Track, t: nat)
    requires Lighter(c, s, tr, s', tr', 0, t)
    ensures NotHeavier(c, s, tr, s', tr', 0)
  {
  }

  // ---------------------------------------------------------------------------
  // Whole runs
  // ---------------------------------------------------------------------------

  /** A run without a commit is paid for, cycle by cycle, in work. */
  lemma {:induction false} StalledRun(c: Config, fix: Repairs, s: State, tr: Track, ins: seq<Input>)
    requires Inv(c, s, tr) && !tr.claim.Tags? && ConfigOk(c) && Shape(c, s) && Meets(tr.claim, c, fix, s, ins)
    requires s.rob.cnt != 0 && Steps(c, fix, s, ins).Some? && Retired(c, fix, s, ins) == 0
    ensures Tracks(c, s, tr) && |ins| < Work(c, s, tr, FULL_WEIGHT)
    decreases |ins|
  {
    hide InvAt, Work;
    InvShape(c, s, tr);
    if ins == [] {
      TotalBounds(c, s, tr, FULL_WEIGHT, s.rob.commitPtr, c.robSize);
      WorkIsTotal(c, s, tr, FULL_WEIGHT);
    } else {
      var s', tr' := Cycle(c, fix, s, ins[0].inst, ins[0].junk), NextTrack(c, fix, s, tr, ins[0].inst);
      StalledCycleFalls(c, fix, s, tr, ins[0]);
      NextTrackProgram(c, fix, s, tr, ins[0].inst);
      InvShape(c, s', tr');
      StalledRun(c, fix, s', tr', ins[1..]);
    }
  }

  lemma WorkIsTotal(c: Config, s: State, tr: Track, free: nat)
    requires Tracks(c, s, tr)
    ensures Work(c, s, tr, free) == Total(c, s, tr, free, c.robSize)
  {
  }

  /**
   * No starvation: although issue picks by place and not by age, an engine with anything open
   * commits within 23 cycles a slot, whatever it fetches meanwhile, as long as it loses nothing.
   */
  lemma NoStarvation(c: Config, fix: Repairs, s: State, tr: Track, ins: seq<Input>)
    requires Inv(c, s, tr) && !tr.claim.Tags? && ConfigOk(c) && Shape(c, s) && Meets(tr.claim, c, fix, s, ins)
    requires s.rob.cnt != 0 && |ins| >= 23 * c.robSize && Steps(c, fix, s, ins).Some?
    ensures Retired(c, fix, s, ins) > 0
  {
    hide InvAt;
    if Retired(c, fix, s, ins) == 0 {
      StalledRun(c, fix, s, tr, ins);
      InvShape(c, s, tr);
      TotalBounds(c, s, tr, FULL_WEIGHT, 0, c.robSize);
    }
  }

  predicate Idle(ins: seq<Input>) { forall k | 0 <= k < |ins| :: ins[k].inst.None? }

  /** An idle run empties the ring within as many cycles as there is work. */
  lemma {:induction false} IdleRun(c: Config, fix: Repairs, s: State, tr: Track, ins: seq<Input>)
    requires Inv(c, s, tr) && !tr.claim.Tags? && ConfigOk(c) && Shape(c, s) && Meets(tr.claim, c, fix, s, ins)
    requires Idle(ins) && Tracks(c, s, tr) && |ins| >= Work(c, s, tr, 0)
    ensures Steps(c, fix, s, ins).Some? && Steps(c, fix, s, ins).value.rob.cnt == 0
    ensures Taken(c, fix, s, ins) == []
    decreases |ins|
  {
    hide InvAt, Work, Cycle, BeforeDispatch, NextTrack, Shape;
    InvShape(c, s, tr);
    if ins == [] {
      NoWorkNoneOpen(c, s, tr);
    } else {
      var s', tr' := Cycle(c, fix, s, ins[0].inst, ins[0].junk), NextTrack(c, fix, s, tr, ins[0].inst);
      CycleKeepsInv(c, fix, s, tr, ins[0]);
      NextTrackProgram(c, fix, s, tr, ins[0].inst);
      InvShape(c, s', tr');
      InvTracks(c, s', tr');
      if s.rob.cnt != 0 {
        IdleCycleFalls(c, fix, s, tr, ins[0]);
      } else {
        EmptyWork(c, s', tr');
      }
      IdleRun(c, fix, s', tr', ins[1..]);
    }
  }

  lemma NoWorkNoneOpen(c: Config, s: State, tr: Track)
    requires Inv(c, s, tr) && !tr.claim.Tags? && ConfigOk(c) && Tracks(c, s, tr) && Work(c, s, tr, 0) == 0
    ensures s.rob.cnt == 0
  {
    hide InvAt, Work;
    WorkIsTotal(c, s, tr, 0);
    TotalBounds(c, s, tr, 0, s.rob.commitPtr, c.robSize);
  }

  lemma InvTracks(c: Config, s: State, tr: Track)
    requires Inv(c, s, tr)
    ensures Tracks(c, s, tr)
  {
  }

  lemma EmptyWork(c: Config, s: State, tr: Track)
    requires Tracks(c, s, tr) && s.rob.cnt == 0
    ensures Work(c, s, tr, 0) == 0
  {
    EmptyTotal(c, s, tr, c.robSize);
  }

  lemma {:induction false} EmptyTotal(c: Config, s: State, tr: Track, n: nat)
    requires Tracks(c, s, tr) && s.rob.cnt == 0 && n <= c.robSize
    ensures Total(c, s, tr, 0, n) == 0
  {
    if n != 0 {
      EmptyTotal(c, s, tr, n - 1);
    }
  }
}
