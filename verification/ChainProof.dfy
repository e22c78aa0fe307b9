/**
 * A chain of slow instructions, each waiting for the one before, fills the buffers: what happens
 * then to an instruction for which the ring has a slot and the buffer no entry
 * (sw/src/engine.c:262-278), or the ring none (sw/src/engine.c:556-564).
 */
module ChainProof {
  import opened Base
  import opened InOrder
  import opened ReorderBuffer
  import opened RegisterFile
  import opened Machine
  import opened Invariant
  import opened CommitProof
  import opened DispatchProof
  import opened RoomProof
  import opened Runs
  import opened StallProof
  import opened Cycles
  import U = Unit

  // ---------------------------------------------------------------------------
  // The chain
  // ---------------------------------------------------------------------------

  /** The links write x1 and x3, the anchor x5, and what is behind the anchor x0. */
  predicate IsLink(r: nat) { r == 1 || r == 3 }

  const ANCHOR := 5

  predicate OfChain(r: nat) { IsLink(r) || r == ANCHOR || r == 0 }

  predicate Writes(a: nat, k: nat, r: nat) {
    if k < a then IsLink(r) else r == if k == a then ANCHOR else 0
  }

  /**
   * Each of the chain waits for the one before, up to the anchor, which is the `a`-th oldest; those
   * behind the anchor all wait for it. With `a` past the ring there are links only.
   */
  function Feeder(a: nat, k: nat): (m: nat)
    requires 0 < k
    ensures m < k
  {
    if k <= a then k - 1 else a
  }

  /** What the next instruction will wait for. */
  function Awaited(s: State, a: nat): (t: nat)
    requires RingOk(s.rob) && s.rob.cnt != 0
    ensures t < |s.rob.data|
  {
    SlotAt(s.rob, Feeder(a, s.rob.cnt))
  }

  /** The next one of the chain; a link writes what the oldest does not. */
  function NextLink(s: State, slow: nat, a: nat): (i: Instr)
    requires RingOk(s.rob) && s.rob.cnt != 0
    ensures i.f10 == slow && OfChain(i.rd) && i.src2 == Reg(2) && Writes(a, s.rob.cnt, i.rd)
  {
    var d := s.rob.data[Awaited(s, a)].dest;
    Instr(if s.rob.cnt > a then 0 else if s.rob.cnt == a then ANCHOR
          else if s.rob.data[s.rob.commitPtr].dest == 1 then 3 else 1,
          if IsLink(d) then d else ANCHOR, Reg(2), slow)
  }

  /** The entry of the `k`-th oldest instruction, waiting for the one before. */
  predicate Waits(r: Ring, slow: nat, e: ExbEntry, k: nat, a: nat)
    requires RingOk(r) && 0 < k < |r.data|
  {
    e.busy && e.f10 == slow && e.qr == SlotAt(r, k) && !e.rj && e.rk && e.qj == SlotAt(r, Feeder(a, k))
  }

  /** Entries `pos`, and no others, hold the chain from the `first`-th oldest instruction on. */
  predicate Waiting(r: Ring, exb: seq<ExbEntry>, slow: nat, first: nat, a: nat, pos: seq<nat>) {
    && RingOk(r) && 0 < first && first + |pos| <= |r.data|
    && (forall j | 0 <= j < |pos| :: pos[j] < |exb| && Waits(r, slow, exb[pos[j]], first + j, a))
    && (forall i, j | 0 <= i < j < |pos| :: pos[i] != pos[j])
    && (forall i | 0 <= i < |exb| && i !in pos :: !exb[i].busy)
  }

  /** Unit 0, alone, has the instruction before the `first` that waits. */
  predicate Executing(r: Ring, exu: seq<Unit>, first: nat, left: nat)
    requires RingOk(r) && 0 < first <= |r.data|
  {
    && 0 < |exu| && exu[0].busy && exu[0].cycleLeft == left && exu[0].qr == SlotAt(r, first - 1)
    && forall u | 0 < u < |exu| :: !exu[u].busy
  }

  /** None of these is done, each writes its register, and what comes next has somebody to wait for. */
  predicate Open(r: Ring, reg: Regs, first: nat, a: nat)
    requires RingOk(r) && 0 < first <= r.cnt && RegsOk(reg, NREGS)
  {
    && (forall k | first - 1 <= k < r.cnt :: !r.data[SlotAt(r, k)].done)
    && (forall k | 0 <= k < r.cnt :: Writes(a, k, r.data[SlotAt(r, k)].dest))
    && !reg.d[0] && !reg.d[2]
    && var y := SlotAt(r, Feeder(a, r.cnt));
    && OfChain(r.data[y].dest)
    && reg.d[r.data[y].dest] && reg.s[r.data[y].dest] == y
  }

  predicate InChain(c: Config, s: State, slow: nat, first: nat, left: nat, a: nat, pos: seq<nat>) {
    && Shape(c, s) && c.robSize <= 256 && 0 < first && s.rob.cnt == first + |pos|
    && Waiting(s.rob, s.exb, slow, first, a, pos)
    && Executing(s.rob, s.exu, first, left)
    && Open(s.rob, s.reg, first, a)
  }

  /** The next commit will not touch the register that the next link reads. */
  predicate HeadDiffers(s: State, a: nat)
    requires RingOk(s.rob) && s.rob.cnt != 0
  {
    Awaited(s, a) != s.rob.commitPtr ==> s.rob.data[s.rob.commitPtr].dest != s.rob.data[Awaited(s, a)].dest
  }

  predicate NoLanes(s: State) { forall l | 0 <= l < |s.cdb| :: !s.cdb[l].valid }

  // ---------------------------------------------------------------------------
  // While the unit counts down
  // ---------------------------------------------------------------------------

  lemma Members(r: Ring, exb: seq<ExbEntry>, slow: nat, first: nat, a: nat, pos: seq<nat>)
    requires Waiting(r, exb, slow, first, a, pos)
    ensures forall i | 0 <= i < |exb| :: i in pos <==> exb[i].busy
  {
    forall i | 0 <= i < |exb| && i in pos ensures exb[i].busy {
      var j :| 0 <= j < |pos| && pos[j] == i;
      assert Waits(r, slow, exb[pos[j]], first + j, a);
    }
  }

  lemma NotReady(c: Config, s: State, slow: nat, first: nat, left: nat, a: nat, pos: seq<nat>)
    requires InChain(c, s, slow, first, left, a, pos)
    ensures forall i | 0 <= i < |s.exb| :: !EntryReady(s.exb[i])
  {
    forall i | 0 <= i < |s.exb| ensures !EntryReady(s.exb[i]) {
      if i in pos {
        var j :| 0 <= j < |pos| && pos[j] == i;
        assert Waits(s.rob, slow, s.exb[pos[j]], first + j, a);
      }
    }
  }

  lemma Ticks(c: Config, fix: Repairs, s: State, slow: nat, left: nat, a: nat, pos: seq<nat>)
    requires InChain(c, s, slow, 1, left, a, pos) && NoLanes(s) && HeadDiffers(s, a) && 0 < left
    ensures CycleDefined(fix, s) && BeforeDispatch(c, fix, s) == Execute(s)
    ensures InChain(c, Execute(s), slow, 1, left - 1, a, pos) && NoLanes(Execute(s)) && HeadDiffers(Execute(s), a)
  {
    hide Waiting;
    assert SlotAt(s.rob, 0) == s.rob.commitPtr;
    NotReady(c, s, slow, 1, left, a, pos);
    QuietBackend(c, fix, s);
  }

  /** A free slot and a free entry: the chain gets longer. */
  lemma Feeds(c: Config, fix: Repairs, s: State, slow: nat, left: nat, a: nat, pos: seq<nat>)
    requires InChain(c, s, slow, 1, left, a, pos) && NoLanes(s)
    requires s.rob.cnt < c.robSize && FirstFree(s.exb, 0) < |s.exb|
    ensures var t := Dispatch(fix, s, Some(NextLink(s, slow, a)), JUNK);
      && InChain(c, t, slow, 1, left, a, pos + [FirstFree(s.exb, 0)])
      && NoLanes(t) && HeadDiffers(t, a)
  {
    hide NewEntry, SlotAt, Open, Waiting, Issue;
    var i := NextLink(s, slow, a);
    var t := Dispatch(fix, s, Some(i), JUNK);
    IssuedRing(s.rob, i.rd);
    DispatchKeepsShape(c, fix, s, Some(i), JUNK);
    FedWaiting(c, fix, s, slow, left, a, pos);
    FedOpen(s, slow, a);
    FedDiffers(s, slow, a);
    assert t.rob == Issue(s.rob, i.rd);
  }

  lemma FedDiffers(s: State, slow: nat, a: nat)
    requires RingOk(s.rob) && 0 < s.rob.cnt < |s.rob.data| <= 256 && RegsOk(s.reg, NREGS) && Open(s.rob, s.reg, 1, a)
    ensures var r := Issue(s.rob, NextLink(s, slow, a).rd);
            var y := SlotAt(r, Feeder(a, r.cnt));
            y != r.commitPtr ==> r.data[r.commitPtr].dest != r.data[y].dest
  {
    hide SlotAt, Issue;
    IssuedRing(s.rob, NextLink(s, slow, a).rd);
    SlotZero(s.rob);
    assert Writes(a, 0, s.rob.data[s.rob.commitPtr].dest);
    assert a < s.rob.cnt ==> Writes(a, a, s.rob.data[SlotAt(s.rob, a)].dest);
  }

  lemma FedOpen(s: State, slow: nat, a: nat)
    requires RingOk(s.rob) && 0 < s.rob.cnt < |s.rob.data| <= 256 && RegsOk(s.reg, NREGS) && Open(s.rob, s.reg, 1, a)
    ensures var i := NextLink(s, slow, a);
            var r := Issue(s.rob, i.rd);
      && RingOk(r) && r.cnt == s.rob.cnt + 1
      && Open(r, WriteSource(s.reg, i.rd, Tag(s.rob.issuePtr)), 1, a)
  {
    hide SlotAt, Issue;
    var i := NextLink(s, slow, a);
    var r := Issue(s.rob, i.rd);
    IssuedRing(s.rob, i.rd);
    forall k | 0 <= k < r.cnt
      ensures !r.data[SlotAt(r, k)].done && Writes(a, k, r.data[SlotAt(r, k)].dest)
    {
      assert k < s.rob.cnt ==> r.data[SlotAt(r, k)] == s.rob.data[SlotAt(s.rob, k)];
    }
  }

  lemma FedEntry(c: Config, fix: Repairs, s: State, slow: nat, left: nat, a: nat, pos: seq<nat>)
    requires InChain(c, s, slow, 1, left, a, pos) && NoLanes(s) && s.rob.cnt < c.robSize
    ensures var e := NewEntry(fix, Opened(s, NextLink(s, slow, a)), NextLink(s, slow, a), Tag(s.rob.issuePtr), JUNK);
            e.busy && e.f10 == slow && e.qr == s.rob.issuePtr && !e.rj && e.rk && e.qj == Awaited(s, a)
  {
    hide Waiting, Executing;
  }

  lemma FedWaiting(c: Config, fix: Repairs, s: State, slow: nat, left: nat, a: nat, pos: seq<nat>)
    requires InChain(c, s, slow, 1, left, a, pos) && NoLanes(s)
    requires s.rob.cnt < c.robSize && FirstFree(s.exb, 0) < |s.exb|
    ensures var t := Dispatch(fix, s, Some(NextLink(s, slow, a)), JUNK);
            Waiting(t.rob, t.exb, slow, 1, a, pos + [FirstFree(s.exb, 0)])
  {
    hide NewEntry, Open, Executing, Issue, SlotAt;
    var i, k := NextLink(s, slow, a), FirstFree(s.exb, 0);
    var t, p := Dispatch(fix, s, Some(i), JUNK), pos + [k];
    IssuedRing(s.rob, i.rd);
    FedEntry(c, fix, s, slow, left, a, pos);
    Members(s.rob, s.exb, slow, 1, a, pos);
    forall j | 0 <= j < |p| ensures p[j] < |t.exb| && Waits(t.rob, slow, t.exb[p[j]], 1 + j, a) {
      if j < |pos| {
        assert Waits(s.rob, slow, s.exb[pos[j]], 1 + j, a);
      }
    }
    forall e | 0 <= e < |t.exb| && e !in p ensures !t.exb[e].busy {
      assert e !in pos && e != p[|pos|];
    }
  }

  // ---------------------------------------------------------------------------
  // When the unit has finished
  // ---------------------------------------------------------------------------

  /** Lane 0, alone, carries the oldest instruction's result. */
  predicate OneLane(s: State) {
    && 0 < |s.cdb| && s.cdb[0].valid && s.cdb[0].qr == s.rob.commitPtr
    && forall l | 0 < l < |s.cdb| :: !s.cdb[l].valid
  }

  lemma {:induction false} OneLookup(cdb: seq<Lane>, q: nat, l: nat)
    requires 0 < l <= |cdb| && forall m | 0 < m < |cdb| :: !cdb[m].valid
    ensures Lookup(cdb, q, l) == None
    decreases |cdb| - l
  {
    if l < |cdb| {
      OneLookup(cdb, q, l + 1);
    }
  }

  /** The result goes to lane 0, and to whom it may concern. */
  lemma OneFinishes(fix: Repairs, s: State)
    requires 0 < |s.exu| && UnitDone(s.exu[0]) && forall u | 0 < u < |s.exu| :: !s.exu[u].busy
    requires NoLanes(s) && 0 < |s.cdb|
    ensures LanesSuffice(fix, s)
    ensures var t, tag, v := WriteBack(fix, s), s.exu[0].qr, s.exu[0].result;
      && t.rob == s.rob && t.reg == s.reg
      && t.exu == s.exu[0 := s.exu[0].(busy := false)]
      && t.cdb == s.cdb[0 := Lane(tag, v, true)]
      && |t.exb| == |s.exb|
      && forall i | 0 <= i < |s.exb| :: t.exb[i] == Forward(s.exb[i], t.cdb)
  {
    OnlyIndex(s.exu, UnitDone, |s.exu|, 0);
    QuietDrain(s, |s.cdb|);
    assert MoveResults(s, [0], 0) == s;
    assert MoveResults(s, [0], 1) == MoveResult(s, 0, 0);
  }

  lemma OneForward(e: ExbEntry, cdb: seq<Lane>)
    requires 0 < |cdb| && cdb[0].valid && (forall l | 0 < l < |cdb| :: !cdb[l].valid)
    requires e.busy && !e.rj && e.rk
    ensures Forward(e, cdb) == if e.qj == cdb[0].qr then e.(vj := cdb[0].result, rj := true) else e
  {
    OneLookup(cdb, e.qj, 1);
  }

  /** Only the next link waits for the one that has finished. */
  lemma Finished(c: Config, fix: Repairs, s: State, slow: nat, a: nat, pos: seq<nat>)
    requires InChain(c, s, slow, 1, 0, a, pos) && NoLanes(s) && pos != [] && 0 < a && 0 < c.nbLanes
    ensures LanesSuffice(fix, s)
    ensures var t := WriteBack(fix, s);
      && |t.exb| == |s.exb| && EntryReady(t.exb[pos[0]]) && t.exb[pos[0]].f10 == slow
      && t.exb[pos[0]].qr == s.exb[pos[0]].qr
      && (forall i | 0 <= i < |s.exb| && i != pos[0] :: t.exb[i] == s.exb[i])
      && t.rob == s.rob && t.reg == s.reg && OneLane(t) && |t.cdb| == |s.cdb|
      && |t.exu| == |s.exu| && forall u | 0 <= u < |t.exu| :: !t.exu[u].busy
  {
    hide WriteBack, LanesSuffice, Forward, Open;
    OneFinishes(fix, s);
    Members(s.rob, s.exb, slow, 1, a, pos);
    var t := WriteBack(fix, s);
    forall i | 0 <= i < |s.exb|
      ensures i == pos[0] ==> EntryReady(t.exb[i]) && t.exb[i].f10 == slow && t.exb[i].qr == s.exb[i].qr
      ensures i != pos[0] ==> t.exb[i] == s.exb[i]
    {
      if i in pos {
        var j :| 0 <= j < |pos| && pos[j] == i;
        assert Waits(s.rob, slow, s.exb[pos[j]], 1 + j, a);
        OneForward(s.exb[i], t.cdb);
      } else {
        IdleForward(s.exb[i], t.cdb);
      }
    }
  }

  lemma IdleForward(e: ExbEntry, cdb: seq<Lane>)
    requires !e.busy
    ensures Forward(e, cdb) == e
  {
  }

  /** The next link takes the unit. */
  lemma Finishes(c: Config, fix: Repairs, s: State, slow: nat, a: nat, pos: seq<nat>)
    requires InChain(c, s, slow, 1, 0, a, pos) && NoLanes(s) && HeadDiffers(s, a)
    requires pos != [] && 0 < a && 0 < c.nbLanes
    ensures CycleDefined(fix, s)
    ensures var t := BeforeDispatch(c, fix, s);
      && InChain(c, t, slow, 2, c.cycles(slow), a, pos[1..]) && OneLane(t) && HeadDiffers(t, a)
      && pos[0] < |t.exb| && !t.exb[pos[0]].busy
      && !HeadDone(t.rob)
  {
    hide WriteBack, LanesSuffice, IssueReady;
    SlotZero(s.rob);
    Finished(c, fix, s, slow, a, pos);
    var w, t := WriteBack(fix, s), BeforeDispatch(c, fix, s);
    assert Waits(s.rob, slow, s.exb[pos[0]], 1, a);
    NotReady(c, s, slow, 1, 0, a, pos);
    assert Execute(w).exu == w.exu;
    OneIssues(c, w, 0, pos[0]);
    assert t == IssueOne(c, w, 0, pos[0]);
    Shorter(s.rob, s.exb, t.exb, slow, a, pos);
  }

  lemma Shorter(r: Ring, exb: seq<ExbEntry>, exb': seq<ExbEntry>, slow: nat, a: nat, pos: seq<nat>)
    requires Waiting(r, exb, slow, 1, a, pos) && pos != [] && |exb'| == |exb|
    requires !exb'[pos[0]].busy && forall i | 0 <= i < |exb| && i != pos[0] :: exb'[i] == exb[i]
    ensures Waiting(r, exb', slow, 2, a, pos[1..])
  {
    hide SlotAt;
    forall j | 0 <= j < |pos| - 1 ensures pos[1..][j] < |exb'| && Waits(r, slow, exb'[pos[1..][j]], 2 + j, a) {
      assert Waits(r, slow, exb[pos[1 + j]], 1 + (1 + j), a);
    }
    assert pos == [pos[0]] + pos[1..];
  }

  // ---------------------------------------------------------------------------
  // From the lane to the register file
  // ---------------------------------------------------------------------------

  lemma Drained(fix: Repairs, s: State)
    requires OneLane(s) && forall u | 0 <= u < |s.exu| :: !UnitDone(s.exu[u])
    ensures LanesSuffice(fix, s)
    ensures var t := WriteBack(fix, s);
      && t.rob == Write(s.rob, s.rob.commitPtr, s.cdb[0].result) && t.reg == s.reg && t.exu == s.exu && t.exb == s.exb
      && |t.cdb| == |s.cdb| && NoLanes(t)
  {
    NoIndices(s.exu, UnitDone, |s.exu|);
    FirstDrains(s, |s.cdb|);
    var d := DrainLane(s, 0);
    assert MoveResults(d, [], 0) == d;
    assert ForwardAll(d).exb == d.exb;
  }

  lemma Drains(c: Config, fix: Repairs, s: State, slow: nat, left: nat, a: nat, pos: seq<nat>)
    requires InChain(c, s, slow, 2, left, a, pos) && OneLane(s) && HeadDiffers(s, a) && !HeadDone(s.rob) && 0 < left
    ensures CycleDefined(fix, s)
    ensures var t := BeforeDispatch(c, fix, s);
      && InChain(c, t, slow, 2, left - 1, a, pos) && NoLanes(t) && HeadDiffers(t, a) && HeadDone(t.rob)
      && t.exb == s.exb
  {
    hide WriteBack, LanesSuffice, IssueReady, Waiting;
    Drained(fix, s);
    NotReady(c, s, slow, 2, left, a, pos);
    NothingReady(c, Execute(WriteBack(fix, s)));
    SlotZero(s.rob);
    WrittenWaiting(s.rob, s.rob.commitPtr, s.cdb[0].result, s.exb, slow, a, pos);
    WrittenOpen(s, s.cdb[0].result, a);
  }

  lemma WrittenWaiting(r: Ring, addr: nat, v: int32, exb: seq<ExbEntry>, slow: nat, a: nat, pos: seq<nat>)
    requires Waiting(r, exb, slow, 2, a, pos)
    ensures Waiting(Write(r, addr, v), exb, slow, 2, a, pos)
  {
    hide SlotAt;
    forall k | 0 <= k < |r.data| ensures SlotAt(Write(r, addr, v), k) == SlotAt(r, k) {
      SameSlot(r, Write(r, addr, v), k);
    }
    forall j | 0 <= j < |pos| ensures pos[j] < |exb| && Waits(Write(r, addr, v), slow, exb[pos[j]], 2 + j, a) {
      assert Waits(r, slow, exb[pos[j]], 2 + j, a);
    }
  }

  lemma WrittenOpen(s: State, v: int32, a: nat)
    requires RingOk(s.rob) && 2 <= s.rob.cnt && RegsOk(s.reg, NREGS) && Open(s.rob, s.reg, 2, a)
    ensures Open(Write(s.rob, s.rob.commitPtr, v), s.reg, 2, a)
  {
    hide SlotAt;
    var r := Write(s.rob, s.rob.commitPtr, v);
    forall k | 0 <= k < r.cnt
      ensures SlotAt(r, k) == SlotAt(s.rob, k) && (0 < k ==> SlotAt(r, k) != r.commitPtr)
    {
      SameSlot(s.rob, r, k);
      if 0 < k {
        SlotAtHead(s.rob, k);
      }
    }
    forall k | 0 <= k < r.cnt
      ensures Writes(a, k, r.data[SlotAt(r, k)].dest) && (0 < k ==> !r.data[SlotAt(r, k)].done)
    {
      assert Writes(a, k, s.rob.data[SlotAt(s.rob, k)].dest);
    }
  }

  lemma Retires(c: Config, fix: Repairs, s: State, slow: nat, left: nat, a: nat, pos: seq<nat>)
    requires InChain(c, s, slow, 2, left, a, pos) && NoLanes(s) && HeadDiffers(s, a) && HeadDone(s.rob)
    requires 0 < left && 0 < a
    ensures CycleDefined(fix, s)
    ensures var t := BeforeDispatch(c, fix, s);
      && InChain(c, t, slow, 1, left - 1, a - 1, pos) && NoLanes(t) && t.exb == s.exb && t.rob.cnt == s.rob.cnt - 1
  {
    hide WriteBack, LanesSuffice, IssueReady, Waiting, CommitForward, Pop, Open;
    var k := Commit(fix, s);
    NobodyWaits(c, s, slow, left, a, pos);
    PoppedRing(s.rob);
    PoppedOpen(fix, s, a);
    PoppedWaiting(s.rob, s.exb, slow, a, pos);
    NotReady(c, s, slow, 2, left, a, pos);
    assert k.exb == s.exb && k.exu == s.exu && k.cdb == s.cdb;
    IdleWriteBack(fix, k);
    NothingReady(c, Execute(k));
    PhasesKeepShape(c, fix, s);
  }

  /** Nobody waits for the instruction that retires. */
  lemma NobodyWaits(c: Config, s: State, slow: nat, left: nat, a: nat, pos: seq<nat>)
    requires InChain(c, s, slow, 2, left, a, pos) && 0 < a
    ensures forall v: int32 :: CommitForward(s.exb, Tag(s.rob.commitPtr), v, 0) == s.exb
  {
    hide SlotAt, Open, Executing;
    Members(s.rob, s.exb, slow, 2, a, pos);
    forall i | 0 <= i < |s.exb| && s.exb[i].busy
      ensures s.exb[i].rk && s.exb[i].qj != s.rob.commitPtr
    {
      var j :| 0 <= j < |pos| && pos[j] == i;
      assert Waits(s.rob, slow, s.exb[pos[j]], 2 + j, a);
      SlotAtHead(s.rob, Feeder(a, 2 + j));
    }
    forall v: int32 ensures CommitForward(s.exb, Tag(s.rob.commitPtr), v, 0) == s.exb {
      ForwardIdle(s.exb, Tag(s.rob.commitPtr), v, 0);
    }
  }

  lemma PoppedWaiting(r: Ring, exb: seq<ExbEntry>, slow: nat, a: nat, pos: seq<nat>)
    requires Waiting(r, exb, slow, 2, a, pos) && HeadDone(r) && 0 < a
    ensures Waiting(Pop(r), exb, slow, 1, a - 1, pos)
  {
    hide SlotAt, Pop;
    PoppedRing(r);
    forall j | 0 <= j < |pos| ensures pos[j] < |exb| && Waits(Pop(r), slow, exb[pos[j]], 1 + j, a - 1) {
      assert Waits(r, slow, exb[pos[j]], 2 + j, a);
    }
  }

  lemma PoppedOpen(fix: Repairs, s: State, a: nat)
    requires RingOk(s.rob) && 2 <= s.rob.cnt && HeadDone(s.rob) && RegsOk(s.reg, NREGS)
    requires Open(s.rob, s.reg, 2, a) && HeadDiffers(s, a) && 0 < a
    ensures RingOk(Pop(s.rob)) && RegsOk(Commit(fix, s).reg, NREGS) && Pop(s.rob).cnt == s.rob.cnt - 1
    ensures Open(Pop(s.rob), Commit(fix, s).reg, 1, a - 1)
  {
    hide SlotAt, Pop, CommitForward;
    PoppedRing(s.rob);
    SlotZero(s.rob);
    var r := Pop(s.rob);
    forall k | 0 <= k < r.cnt
      ensures !r.data[SlotAt(r, k)].done && Writes(a - 1, k, r.data[SlotAt(r, k)].dest)
    {
      assert SlotAt(r, k) == SlotAt(s.rob, k + 1);
      assert Writes(a, k + 1, s.rob.data[SlotAt(s.rob, k + 1)].dest);
    }
    SlotAtHead(s.rob, Feeder(a, s.rob.cnt));
    assert SlotAt(r, Feeder(a - 1, r.cnt)) == SlotAt(s.rob, Feeder(a, s.rob.cnt));
  }

  // ---------------------------------------------------------------------------
  // Filling up
  // ---------------------------------------------------------------------------

  /** Only what belongs to a chain is fetched. */
  predicate Links(ins: seq<Input>) {
    forall k | 0 <= k < |ins| && ins[k].inst.Some? :: OfChain(ins[k].inst.value.rd) && Encodes(ins[k].inst.value)
  }

  lemma FirstLink(c: Config, fix: Repairs, s: State, x: Input, ins: seq<Input>)
    requires Shape(c, s) && CycleDefined(fix, s) && Links(ins)
    requires x.inst.Some? ==> OfChain(x.inst.value.rd) && Encodes(x.inst.value)
    ensures Links([x] + ins)
    ensures Steps(c, fix, s, [x] + ins) == Steps(c, fix, Cycle(c, fix, s, x.inst, x.junk), ins)
  {
    hide Cycle, CycleDefined, Shape, Encodes, OfChain;
    assert ([x] + ins)[1..] == ins;
  }

  /** A chain on which the unit still counts down. */
  predicate Chained(c: Config, s: State, slow: nat, left: nat, a: nat, pos: seq<nat>) {
    InChain(c, s, slow, 1, left, a, pos) && NoLanes(s) && HeadDiffers(s, a)
  }

  lemma FedCycle(c: Config, fix: Repairs, s: State, slow: nat, left: nat, a: nat, pos: seq<nat>)
    requires Chained(c, s, slow, left, a, pos) && 0 < left
    requires s.rob.cnt < c.robSize && FirstFree(s.exb, 0) < |s.exb|
    ensures Shape(c, s) && CycleDefined(fix, s)
    ensures BeforeDispatch(c, fix, s) == Execute(s)
    ensures var t := Cycle(c, fix, s, Some(NextLink(Execute(s), slow, a)), JUNK);
            Chained(c, t, slow, left - 1, a, pos + [FirstFree(s.exb, 0)]) && t.rob.cnt == s.rob.cnt + 1
  {
    var b := Execute(s);
    assert b.exb == s.exb && b.rob == s.rob;
    hide InChain, Dispatch, FirstFree, NoLanes, HeadDiffers, CycleDefined, BeforeDispatch, Cycle, Execute, NextLink;
    ChainShape(c, s, slow, 1, left, a, pos);
    Ticks(c, fix, s, slow, left, a, pos);
    Feeds(c, fix, b, slow, left - 1, a, pos);
    CycleOf(c, fix, s, b);
    ChainShape(c, Dispatch(fix, b, Some(NextLink(b, slow, a)), JUNK), slow, 1, left - 1, a,
               pos + [FirstFree(s.exb, 0)]);
  }

  lemma ChainShape(c: Config, s: State, slow: nat, first: nat, left: nat, a: nat, pos: seq<nat>)
    requires InChain(c, s, slow, first, left, a, pos)
    ensures Shape(c, s) && s.rob.cnt == first + |pos| <= c.robSize
  {
  }

  lemma CycleOf(c: Config, fix: Repairs, s: State, b: State)
    requires Shape(c, s) && CycleDefined(fix, s) && BeforeDispatch(c, fix, s) == b
    ensures Cycle(c, fix, s, None, JUNK) == b
    ensures forall inst :: Cycle(c, fix, s, inst, JUNK) == Dispatch(fix, b, inst, JUNK)
  {
  }

  /** One link finishes and retires, the next one executes, and a new one takes its entry. */
  lemma Turn(c: Config, fix: Repairs, s: State, slow: nat, a: nat, pos: seq<nat>)
    returns (ins: seq<Input>, t: State, pos': seq<nat>)
    requires Chained(c, s, slow, 0, a, pos) && pos != [] && 0 < a
    requires 0 < c.nbLanes && 3 <= c.cycles(slow) && slow < 0x400
    ensures Links(ins) && Steps(c, fix, s, ins) == Some(t)
    ensures Chained(c, t, slow, c.cycles(slow) - 2, a - 1, pos') && |pos'| == |pos| && t.rob.cnt == s.rob.cnt
  {
    hide InChain, HeadDiffers, OneLane, NoLanes, BeforeDispatch, Cycle, CycleDefined, Steps, Dispatch;
    var d, rest := c.cycles(slow), pos[1..];
    ChainShape(c, s, slow, 1, 0, a, pos);
    Finishes(c, fix, s, slow, a, pos);
    var s1 := BeforeDispatch(c, fix, s);
    CycleOf(c, fix, s, s1);
    ChainShape(c, s1, slow, 2, d, a, rest);
    Drains(c, fix, s1, slow, d, a, rest);
    var s2 := BeforeDispatch(c, fix, s1);
    CycleOf(c, fix, s1, s2);
    ChainShape(c, s2, slow, 2, d - 1, a, rest);
    Retires(c, fix, s2, slow, d - 1, a, rest);
    var s3 := BeforeDispatch(c, fix, s2);
    CycleOf(c, fix, s2, s3);
    ChainShape(c, s3, slow, 1, d - 2, a - 1, rest);
    Feeds(c, fix, s3, slow, d - 2, a - 1, rest);
    var x := Do(NextLink(s3, slow, a - 1));
    t, pos' := Dispatch(fix, s3, x.inst, JUNK), rest + [FirstFree(s3.exb, 0)];
    ChainShape(c, t, slow, 1, d - 2, a - 1, pos');
    NoSteps(c, fix, t);
    FirstLink(c, fix, s2, x, []);
    FirstLink(c, fix, s1, NOTHING, [x]);
    FirstLink(c, fix, s, NOTHING, [NOTHING, x]);
    assert [x] == [x] + [] && [NOTHING, x] == [NOTHING] + [x];
    ins := [NOTHING] + [NOTHING, x];
  }

  /** With nothing behind it yet, a chain may still get its anchor anywhere. */
  lemma Reanchor(c: Config, s: State, slow: nat, left: nat, a: nat, b: nat, pos: seq<nat>)
    requires Chained(c, s, slow, left, a, pos) && s.rob.cnt <= a && s.rob.cnt <= b
    ensures Chained(c, s, slow, left, b, pos)
  {
    hide SlotAt, Executing;
    forall j | 0 <= j < |pos| ensures Waits(s.rob, slow, s.exb[pos[j]], 1 + j, b) {
      assert Waits(s.rob, slow, s.exb[pos[j]], 1 + j, a);
    }
    forall k | 0 <= k < s.rob.cnt ensures Writes(b, k, s.rob.data[SlotAt(s.rob, k)].dest) {
      assert Writes(a, k, s.rob.data[SlotAt(s.rob, k)].dest);
    }
  }

  /** A chain of links, with no anchor. */
  predicate Counting(c: Config, s: State, slow: nat, left: nat, pos: seq<nat>) {
    Chained(c, s, slow, left, c.robSize + 1, pos)
  }

  /** The chain grows until it has `goal` links or the buffer has no entry for the next one. */
  lemma {:induction false} ChainUp(c: Config, fix: Repairs, s: State, slow: nat, left: nat, pos: seq<nat>, goal: nat)
    returns (ins: seq<Input>, t: State, left': nat, pos': seq<nat>)
    requires Counting(c, s, slow, left, pos) && (left == 0 ==> pos != []) && s.rob.cnt <= goal <= c.robSize
    requires 0 < c.nbLanes && 3 <= c.cycles(slow) && slow < 0x400
    ensures Links(ins) && Steps(c, fix, s, ins) == Some(t)
    ensures Counting(c, t, slow, left', pos') && 0 < left'
    ensures t.rob.cnt <= goal && (t.rob.cnt == goal || FirstFree(t.exb, 0) == |t.exb|)
    decreases c.robSize - s.rob.cnt, if left == 0 then 1 else 0
  {
    hide InChain, HeadDiffers, NoLanes, Cycle, CycleDefined, Steps, FirstFree, BeforeDispatch;
    var a := c.robSize + 1;
    ChainShape(c, s, slow, 1, left, a, pos);
    NoSteps(c, fix, s);
    if left == 0 {
      var turn, s1, pos1 := Turn(c, fix, s, slow, a, pos);
      Reanchor(c, s1, slow, c.cycles(slow) - 2, a - 1, a, pos1);
      ins, t, left', pos' := ChainUp(c, fix, s1, slow, c.cycles(slow) - 2, pos1, goal);
      StepsAppend(c, fix, s, turn, ins);
      ins := turn + ins;
    } else if s.rob.cnt == goal || FirstFree(s.exb, 0) == |s.exb| {
      ins, t, left', pos' := [], s, left, pos;
    } else {
      var x := Do(NextLink(Execute(s), slow, a));
      FedCycle(c, fix, s, slow, left, a, pos);
      ins, t, left', pos' := ChainUp(c, fix, Cycle(c, fix, s, x.inst, JUNK), slow, left - 1,
                                     pos + [FirstFree(s.exb, 0)], goal);
      FirstLink(c, fix, s, x, ins);
      ins := [x] + ins;
    }
  }

  // ---------------------------------------------------------------------------
  // From initialisation
  // ---------------------------------------------------------------------------

  function FirstOf(slow: nat): Instr { Instr(1, 3, Reg(2), slow) }

  /** The first link is ready in entry 0. */
  predicate Primed(c: Config, s: State, slow: nat) {
    && Shape(c, s) && c.robSize <= 256 && s.rob.cnt == 1 && !s.rob.data[s.rob.commitPtr].done
    && s.rob.data[s.rob.commitPtr].dest == 1
    && s.reg.d[1] && s.reg.s[1] == s.rob.commitPtr && !s.reg.d[0] && !s.reg.d[2]
    && NoLanes(s)
    && (forall u | 0 <= u < |s.exu| :: !s.exu[u].busy)
    && 0 < |s.exb| && EntryReady(s.exb[0]) && s.exb[0].f10 == slow && s.exb[0].qr == s.rob.commitPtr
    && (forall i | 0 < i < |s.exb| :: !s.exb[i].busy)
  }

  lemma Primes(c: Config, fix: Repairs, s: State, x0: RegVals, slow: nat)
    requires Initial(c, s, x0) && c.robSize <= 256 && 0 < c.exbSize
    ensures CycleDefined(fix, s) && Primed(c, Cycle(c, fix, s, Some(FirstOf(slow)), JUNK), slow)
  {
    QuietBackend(c, fix, s);
    CycleOf(c, fix, s, Execute(s));
    DispatchKeepsShape(c, fix, Execute(s), Some(FirstOf(slow)), JUNK);
    assert FirstFree(s.exb, 0) == 0;
  }

  lemma Launches(c: Config, fix: Repairs, s: State, slow: nat)
    requires Primed(c, s, slow) && 0 < c.nbUnits
    ensures CycleDefined(fix, s) && Counting(c, Cycle(c, fix, s, None, JUNK), slow, c.cycles(slow), [])
  {
    hide WriteBack, LanesSuffice, IssueReady;
    IdleWriteBack(fix, s);
    OneIssues(c, Execute(s), 0, 0);
    CycleOf(c, fix, s, IssueOne(c, Execute(s), 0, 0));
  }

  lemma LaunchedOne(c: Config, s: State, slow: nat)
    requires Counting(c, s, slow, c.cycles(slow), [])
    ensures s.rob.cnt == 1
  {
  }

  /** From a fresh start the chain gets as long, unless it fills the buffer. */
  lemma ChainFills(c: Config, fix: Repairs, s: State, x0: RegVals, slow: nat, goal: nat)
    returns (ins: seq<Input>, t: State, left: nat, pos: seq<nat>)
    requires Initial(c, s, x0) && c.robSize <= 256 && 0 < c.exbSize && 0 < c.nbUnits && 0 < c.nbLanes
    requires 3 <= c.cycles(slow) && slow < 0x400 && 0 < goal <= c.robSize
    ensures Links(ins) && Steps(c, fix, s, ins) == Some(t)
    ensures Counting(c, t, slow, left, pos) && 0 < left
    ensures t.rob.cnt <= goal && (t.rob.cnt == goal || FirstFree(t.exb, 0) == |t.exb|)
  {
    assert Shape(c, s);
    Primes(c, fix, s, x0, slow);
    hide Initial, Counting, Cycle, CycleDefined, Steps, FirstFree, Primed;
    var s1 := Cycle(c, fix, s, Some(FirstOf(slow)), JUNK);
    Launches(c, fix, s1, slow);
    var s2 := Cycle(c, fix, s1, None, JUNK);
    LaunchedOne(c, s2, slow);
    ins, t, left, pos := ChainUp(c, fix, s2, slow, c.cycles(slow), [], goal);
    FirstLink(c, fix, s1, NOTHING, ins);
    FirstLink(c, fix, s, Do(FirstOf(slow)), [NOTHING] + ins);
    ins := [Do(FirstOf(slow))] + ([NOTHING] + ins);
  }

  // ---------------------------------------------------------------------------
  // No entry for an accepted instruction
  // ---------------------------------------------------------------------------

  /** The next cycle accepts `i` and has no entry for it. */
  predicate LosesNext(c: Config, fix: Repairs, t: State, i: Instr) {
    && Shape(c, t) && CycleDefined(fix, t)
    && AcceptsIn(c, fix, t, Some(i)) && !RoomGuard(BeforeDispatch(c, fix, t))
  }

  /** A buffer full of chain takes one slot less than the ring has open. */
  lemma FullBufferFits(c: Config, s: State, slow: nat, left: nat, pos: seq<nat>)
    requires Counting(c, s, slow, left, pos)
    ensures s.rob.cnt <= c.exbSize + 1
  {
    Pigeonhole(pos, |s.exb|);
  }

  lemma CountingLoses(c: Config, fix: Repairs, t: State, slow: nat, left: nat, pos: seq<nat>)
    requires Counting(c, t, slow, left, pos) && 0 < left && t.rob.cnt < c.robSize && FirstFree(t.exb, 0) == |t.exb|
    ensures LosesNext(c, fix, t, NextLink(Execute(t), slow, c.robSize + 1))
  {
    Ticks(c, fix, t, slow, left, c.robSize + 1, pos);
  }

  lemma ChainOrphan(c: Config, s: State, slow: nat, left: nat, pos: seq<nat>)
    requires Counting(c, s, slow, left, pos) && s.rob.cnt < c.robSize
    ensures Orphan(s, s.rob.issuePtr)
  {
    hide Open, SlotAt, HeadDiffers;
    Members(s.rob, s.exb, slow, 1, c.robSize + 1, pos);
    IssuedRing(s.rob, 0);
    forall i | 0 <= i < |s.exb| && s.exb[i].busy ensures s.exb[i].qr != s.rob.issuePtr {
      var j :| 0 <= j < |pos| && pos[j] == i;
      assert Waits(s.rob, slow, s.exb[pos[j]], 1 + j, c.robSize + 1);
    }
  }

  lemma ChainedTicks(c: Config, fix: Repairs, s: State, slow: nat, left: nat, a: nat, pos: seq<nat>)
    requires Chained(c, s, slow, left, a, pos) && 0 < left
    ensures Shape(c, s) && CycleDefined(fix, s) && BeforeDispatch(c, fix, s) == Execute(s)
    ensures Chained(c, Execute(s), slow, left - 1, a, pos)
  {
    hide InChain, HeadDiffers;
    Ticks(c, fix, s, slow, left, a, pos);
    ChainShape(c, s, slow, 1, left, a, pos);
    ChainShape(c, Execute(s), slow, 1, left - 1, a, pos);
  }

  lemma EmptyLoses(c: Config, fix: Repairs, s: State, x0: RegVals, i: Instr)
    requires Initial(c, s, x0) && c.exbSize == 0
    ensures LosesNext(c, fix, s, i)
    ensures Orphan(BeforeDispatch(c, fix, s), BeforeDispatch(c, fix, s).rob.issuePtr)
  {
    QuietBackend(c, fix, s);
  }

  /**
   * Two slots more than entries are already too many, for every build: with any operation of at
   * least 3 cycles some program reaches an instruction that is accepted and has no entry.
   */
  lemma ChainLoses(c: Config, fix: Repairs, s: State, x0: RegVals, slow: nat)
    returns (ins: seq<Input>, t: State, i: Instr)
    requires ConfigOk(c) && Initial(c, s, x0)
    requires 3 <= c.cycles(slow) && slow < 0x400
    requires !EnoughRoom(c)
    ensures Program(ins) && Steps(c, fix, s, ins) == Some(t)
    ensures Encodes(i) && LosesNext(c, fix, t, i)
    ensures Orphan(BeforeDispatch(c, fix, t), BeforeDispatch(c, fix, t).rob.issuePtr)
  {
    hide Initial, Steps, Chained, LosesNext, Orphan;
    NoSteps(c, fix, s);
    if c.exbSize == 0 {
      ins, t, i := [], s, FirstOf(slow);
      EmptyLoses(c, fix, s, x0, i);
    } else {
      var left, pos;
      ins, t, left, pos := ChainFills(c, fix, s, x0, slow, c.robSize);
      FullBufferFits(c, t, slow, left, pos);
      CountingShape(c, t, slow, left, pos);
      CountingLoses(c, fix, t, slow, left, pos);
      i := NextLink(Execute(t), slow, c.robSize + 1);
      ChainedTicks(c, fix, t, slow, left, c.robSize + 1, pos);
      ChainOrphan(c, Execute(t), slow, left - 1, pos);
      assert Program(ins);
    }
  }

  lemma CountingShape(c: Config, s: State, slow: nat, left: nat, pos: seq<nat>)
    requires Counting(c, s, slow, left, pos)
    ensures Shape(c, s) && s.rob.cnt <= c.robSize && s.rob.cnt != 0
  {
  }

  ghost predicate NeverLoses(c: Config, fix: Repairs, s: State) {
    forall ins, i | Program(ins) && Steps(c, fix, s, ins).Some? :: !LosesNext(c, fix, Steps(c, fix, s, ins).value, i)
  }

  /**
   * Whatever the repairs, a build loses no instruction on any program that stays inside its lanes
   * exactly when the ring is small enough.
   */
  lemma RoomExact(c: Config, fix: Repairs, s: State, x0: RegVals, slow: nat)
    requires ConfigOk(c) && Initial(c, s, x0) && 3 <= c.cycles(slow) && slow < 0x400
    ensures NeverLoses(c, fix, s) <==> EnoughRoom(c)
  {
    hide Initial, LosesNext, Steps;
    if EnoughRoom(c) {
      forall ins, i | Program(ins) && Steps(c, fix, s, ins).Some?
        ensures !LosesNext(c, fix, Steps(c, fix, s, ins).value, i)
      {
        RoomNeverLoses(c, fix, s, x0, ins, i);
      }
    } else {
      var ins, t, i := ChainLoses(c, fix, s, x0, slow);
    }
  }

  lemma RoomNeverLoses(c: Config, fix: Repairs, s: State, x0: RegVals, ins: seq<Input>, i: Instr)
    requires ConfigOk(c) && Initial(c, s, x0) && EnoughRoom(c) && Steps(c, fix, s, ins).Some?
    ensures !LosesNext(c, fix, Steps(c, fix, s, ins).value, i)
  {
    assert Shape(c, s);
    hide Initial, Meets, Steps, EnoughRoom, BeforeDispatch, CycleDefined, RoomGuard;
    var t := Steps(c, fix, s, ins).value;
    if LosesNext(c, fix, t, i) {
      OneMoreStep(c, fix, s, ins, t, Do(i));
      EnoughRoomSteps(c, fix, s, x0, ins + [Do(i)]);
      MeetsToTheEnd(Places, c, fix, s, ins, Do(i));
    }
  }

  lemma LossSticks(c: Config, fix: Repairs, t: State, i: Instr)
    requires LosesNext(c, fix, t, i) && c.robSize <= 256
    requires Orphan(BeforeDispatch(c, fix, t), BeforeDispatch(c, fix, t).rob.issuePtr)
    ensures Shape(c, t) && CycleDefined(fix, t)
    ensures Stuck(Cycle(c, fix, t, Some(i), JUNK), BeforeDispatch(c, fix, t).rob.issuePtr)
  {
    hide Stuck, BeforeDispatch, Orphan, Dispatch;
    LostStuck(c, fix, BeforeDispatch(c, fix, t), i, JUNK);
  }

  /**
   * With more than one slot too many, every build can be brought to a stop: after some program
   * nothing but what is ahead of one slot ever commits, whatever is fetched from then on.
   */
  lemma ChainStalls(c: Config, fix: Repairs, s: State, x0: RegVals, slow: nat)
    returns (ins: seq<Input>, t: State, slot: nat)
    requires ConfigOk(c) && Initial(c, s, x0)
    requires 3 <= c.cycles(slow) && slow < 0x400
    requires !EnoughRoom(c)
    ensures Program(ins) && Steps(c, fix, s, ins) == Some(t) && Stops(c, fix, t, slot)
  {
    var pre, i;
    pre, t, i := ChainLoses(c, fix, s, x0, slow);
    LossSticks(c, fix, t, i);
    hide Initial, Steps, Stuck, Shape, CycleDefined, Cycle, Encodes, LosesNext, Orphan, BeforeDispatch, Program, Stops;
    slot := BeforeDispatch(c, fix, t).rob.issuePtr;
    OneMoreStep(c, fix, s, pre, t, Do(i));
    t := Cycle(c, fix, t, Some(i), JUNK);
    ins := pre + [Do(i)];
    OneMoreProgram(pre, Do(i));
    StuckStops(c, fix, t, slot);
  }

  lemma OneMoreStep(c: Config, fix: Repairs, s: State, ins: seq<Input>, t: State, x: Input)
    requires Steps(c, fix, s, ins) == Some(t) && Shape(c, t) && CycleDefined(fix, t)
    ensures Shape(c, Cycle(c, fix, t, x.inst, x.junk))
    ensures Steps(c, fix, s, ins + [x]) == Some(Cycle(c, fix, t, x.inst, x.junk))
  {
    StepsAppend(c, fix, s, ins, [x]);
    hide Cycle, CycleDefined, Shape;
  }

  lemma OneMoreProgram(ins: seq<Input>, x: Input)
    requires Program(ins) && (x.inst.Some? ==> Encodes(x.inst.value))
    ensures Program(ins + [x])
  {
  }

  /** The parameters main.c ships with, 8 entries and 64 slots, are such a case, in the code as written too. */
  lemma ShippedConfigurationStalls(c: Config, fix: Repairs, s: State, x0: RegVals)
    returns (ins: seq<Input>, t: State, slot: nat)
    requires c.exbSize == 8 && c.robSize == 64 && c.nbUnits == 2 && c.nbLanes == 1 && c.cycles == U.AluGetCycle
    requires Initial(c, s, x0)
    ensures Program(ins) && Steps(c, fix, s, ins) == Some(t) && Stops(c, fix, t, slot)
  {
    ins, t, slot := ChainStalls(c, fix, s, x0, U.F10_MULHU);
  }
}
