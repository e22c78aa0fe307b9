/** The write-back phase: sw/src/engine.c, `write_back`. */
module WriteBackProof {
  import opened Base
  import opened InOrder
  import opened Machine
  import opened Invariant

  ghost function Moved(tr: Track, t: nat, p: Place): Track {
    if t < |tr.loc| then tr.(loc := tr.loc[t := p]) else tr
  }

  // ---------------------------------------------------------------------------
  // From the lanes to the reorder buffer
  // ---------------------------------------------------------------------------

  ghost function DrainLaneTrack(s: State, tr: Track, l: nat): Track
    requires l < |s.cdb|
  {
    if s.cdb[l].valid then Moved(tr, s.cdb[l].qr, InRob) else tr
  }

  lemma DrainLaneKeepsPlaces(c: Config, s: State, tr: Track, l: nat)
    requires Inv(c, s, tr) && l < |s.cdb| && s.cdb[l].valid
    ensures var s', tr' := DrainLane(s, l), DrainLaneTrack(s, tr, l);
      && Tracks(c, s', tr')
      && (forall t | 0 <= t < c.robSize :: SlotOk(c, s', tr', t))
      && (forall u | 0 <= u < |s'.exu| :: UnitOk(c, s', tr', u))
      && (forall m | 0 <= m < |s'.cdb| :: LaneOk(c, s', tr', m))
  {
    hide Seq, Result, LastWriter;
    assert LaneOk(c, s, tr, l);
    var s', tr' := DrainLane(s, l), DrainLaneTrack(s, tr, l);
    forall t | 0 <= t < c.robSize ensures SlotOk(c, s', tr', t) { assert SlotOk(c, s, tr, t); }
    forall u | 0 <= u < |s'.exu| ensures UnitOk(c, s', tr', u) { assert UnitOk(c, s, tr, u); }
    forall m | 0 <= m < |s'.cdb| ensures LaneOk(c, s', tr', m) { assert LaneOk(c, s, tr, m); }
  }

  lemma DrainLaneKeepsEntry(c: Config, s: State, tr: Track, l: nat, i: nat)
    requires Inv(c, s, tr) && l < |s.cdb| && s.cdb[l].valid && i < |s.exb|
    ensures var s', tr' := DrainLane(s, l), DrainLaneTrack(s, tr, l);
      Tracks(c, s', tr') && EntryOk(c, s', tr', false, i)
  {
    hide Seq, Result, LastWriter;
    assert LaneOk(c, s, tr, l);
    assert EntryOk(c, s, tr, false, i);
  }

  lemma DrainLaneKeepsRename(c: Config, s: State, tr: Track, l: nat, r: nat)
    requires Inv(c, s, tr) && l < |s.cdb| && s.cdb[l].valid && r < NREGS
    ensures var s', tr' := DrainLane(s, l), DrainLaneTrack(s, tr, l);
      Tracks(c, s', tr') && RenameOk(c, s', tr', r)
  {
    hide Seq, Result, LastWriter;
    assert LaneOk(c, s, tr, l);
    assert RenameOk(c, s, tr, r);
  }

  lemma DrainLaneKeepsInv(c: Config, s: State, tr: Track, l: nat)
    requires Inv(c, s, tr) && l < |s.cdb|
    ensures Inv(c, DrainLane(s, l), DrainLaneTrack(s, tr, l))
  {
    if s.cdb[l].valid {
      var s', tr' := DrainLane(s, l), DrainLaneTrack(s, tr, l);
      DrainLaneKeepsPlaces(c, s, tr, l);
      forall i | 0 <= i < |s'.exb| ensures EntryOk(c, s', tr', false, i) { DrainLaneKeepsEntry(c, s, tr, l, i); }
      forall r | 0 <= r < NREGS ensures RenameOk(c, s', tr', r) { DrainLaneKeepsRename(c, s, tr, l, r); }
    }
  }

  ghost function DrainTrack(s: State, tr: Track, k: nat): Track
    requires k <= |s.cdb|
  {
    if k == 0 then tr else DrainLaneTrack(DrainLanes(s, k - 1), DrainTrack(s, tr, k - 1), k - 1)
  }

  lemma {:induction false} DrainKeepsInv(c: Config, s: State, tr: Track, k: nat)
    requires Inv(c, s, tr) && k <= |s.cdb|
    ensures Inv(c, DrainLanes(s, k), DrainTrack(s, tr, k))
  {
    hide InvAt;
    if k != 0 {
      DrainKeepsInv(c, s, tr, k - 1);
      DrainLaneKeepsInv(c, DrainLanes(s, k - 1), DrainTrack(s, tr, k - 1), k - 1);
    }
  }

  // ---------------------------------------------------------------------------
  // From the units to the lanes
  // ---------------------------------------------------------------------------

  ghost function MoveResultTrack(s: State, tr: Track, u: nat, l: nat): Track
    requires u < |s.exu|
  {
    Moved(tr, s.exu[u].qr, OnLane(l))
  }

  lemma MoveResultKeepsInv(c: Config, s: State, tr: Track, u: nat, l: nat)
    requires InvAt(c, s, tr, true) && u < |s.exu| && l < |s.cdb|
    requires s.exu[u].busy && !s.cdb[l].valid
    ensures InvAt(c, MoveResult(s, u, l), MoveResultTrack(s, tr, u, l), true)
  {
    hide Seq, Result, LastWriter;
    assert UnitOk(c, s, tr, u);
    var s', tr' := MoveResult(s, u, l), MoveResultTrack(s, tr, u, l);
    forall t | 0 <= t < c.robSize ensures SlotOk(c, s', tr', t) { assert SlotOk(c, s, tr, t); }
    forall v | 0 <= v < |s'.exu| ensures UnitOk(c, s', tr', v) { assert UnitOk(c, s, tr, v); }
    forall m | 0 <= m < |s'.cdb| ensures LaneOk(c, s', tr', m) { assert LaneOk(c, s, tr, m); }
    forall i | 0 <= i < |s'.exb| ensures EntryOk(c, s', tr', true, i) { assert EntryOk(c, s, tr, true, i); }
    forall r | 0 <= r < NREGS ensures RenameOk(c, s', tr', r) { assert RenameOk(c, s, tr, r); }
  }

  ghost function MoveTrack(s: State, tr: Track, done: seq<nat>, k: nat): Track
    requires k <= |done| && k <= |s.cdb|
    requires forall j | 0 <= j < |done| :: done[j] < |s.exu|
  {
    if k == 0 then tr else
    MoveResultTrack(MoveResults(s, done, k - 1), MoveTrack(s, tr, done, k - 1), done[k - 1], k - 1)
  }

  lemma {:induction false} MoveResultsFrame(s: State, done: seq<nat>, k: nat, u: nat, l: nat)
    requires k <= |done| && k <= l < |s.cdb| && u < |s.exu|
    requires forall j | 0 <= j < |done| :: done[j] < |s.exu|
    requires forall j | 0 <= j < k :: done[j] != u
    ensures MoveResults(s, done, k).exu[u] == s.exu[u]
    ensures MoveResults(s, done, k).cdb[l] == s.cdb[l]
  {
    if k != 0 {
      MoveResultsFrame(s, done, k - 1, u, l);
    }
  }

  lemma {:induction false} MoveKeepsInv(c: Config, s: State, tr: Track, done: seq<nat>, k: nat)
    requires InvAt(c, s, tr, true)
    requires k <= |done| && k <= |s.cdb|
    requires forall j | 0 <= j < |done| :: done[j] < |s.exu| && s.exu[done[j]].busy
    requires forall i, j | 0 <= i < j < |done| :: done[i] < done[j]
    requires forall l | 0 <= l < |s.cdb| :: !s.cdb[l].valid
    ensures InvAt(c, MoveResults(s, done, k), MoveTrack(s, tr, done, k), true)
  {
    hide InvAt;
    if k != 0 {
      MoveKeepsInv(c, s, tr, done, k - 1);
      MoveResultsFrame(s, done, k - 1, done[k - 1], k - 1);
      MoveResultKeepsInv(c, MoveResults(s, done, k - 1), MoveTrack(s, tr, done, k - 1), done[k - 1], k - 1);
    }
  }

  // ---------------------------------------------------------------------------
  // From the lanes to the waiting operands
  // ---------------------------------------------------------------------------

  /** A waiting operand whose producer is on a lane takes its value; nobody else is touched. */
  lemma ForwardedOperand(c: Config, s: State, tr: Track, n: nat, src: Source, ready: bool, v: int32, q: nat)
    requires InvAt(c, s, tr, true) && n < |tr.hist|
    requires OperandOk(c, s, tr, true, n, src, ready, v, q)
    ensures ready ==> OperandOk(c, s, tr, false, n, src, true, v, q)
    ensures !ready ==>
              match Lookup(s.cdb, q, 0)
              case Some(w) => OperandOk(c, s, tr, false, n, src, true, w, q)
              case None => OperandOk(c, s, tr, false, n, src, false, v, q)
  {
    if !ready {
      assert SlotOk(c, s, tr, q);
      match Lookup(s.cdb, q, 0)
      case Some(w) =>
        var j :| 0 <= j < |s.cdb| && s.cdb[j].valid && s.cdb[j].qr == q && s.cdb[j].result == w;
        assert LaneOk(c, s, tr, j);
        LastWriterValue(c.alu, tr.x0, tr.hist, src.r, n, Owner(s, tr, q));
      case None =>
    }
  }

  lemma ForwardEntryKeeps(c: Config, s: State, tr: Track, i: nat)
    requires InvAt(c, s, tr, true) && i < |s.exb|
    ensures Tracks(c, ForwardAll(s), tr) && EntryOk(c, ForwardAll(s), tr, false, i)
  {
    var e := s.exb[i];
    assert EntryOk(c, s, tr, true, i);
    if e.busy {
      var n := Owner(s, tr, e.qr);
      ForwardedOperand(c, s, tr, n, Reg(tr.hist[n].rs1), e.rj, e.vj, e.qj);
      ForwardedOperand(c, s, tr, n, tr.hist[n].src2, e.rk, e.vk, e.qk);
    }
  }

  lemma ForwardKeepsInv(c: Config, s: State, tr: Track)
    requires InvAt(c, s, tr, true)
    ensures Inv(c, ForwardAll(s), tr)
  {
    var s' := ForwardAll(s);
    forall i | 0 <= i < |s'.exb|
      ensures s'.exb[i].busy == s.exb[i].busy && s'.exb[i].qr == s.exb[i].qr
      ensures Tracks(c, s', tr) && EntryOk(c, s', tr, false, i)
    {
      ForwardEntryKeeps(c, s, tr, i);
    }
    forall t | 0 <= t < c.robSize ensures SlotOk(c, s', tr, t) { assert SlotOk(c, s, tr, t); }
    forall u | 0 <= u < |s'.exu| ensures UnitOk(c, s', tr, u) { assert UnitOk(c, s, tr, u); }
    forall l | 0 <= l < |s'.cdb| ensures LaneOk(c, s', tr, l) { assert LaneOk(c, s, tr, l); }
    forall r | 0 <= r < NREGS ensures RenameOk(c, s', tr, r) { assert RenameOk(c, s, tr, r); }
  }

  // ---------------------------------------------------------------------------
  // The whole phase
  // ---------------------------------------------------------------------------

  ghost function WriteBackTrack(fix: Repairs, s: State, tr: Track): Track
    requires LanesSuffice(fix, s)
  {
    MoveTrack(DrainLanes(s, |s.cdb|), DrainTrack(s, tr, |s.cdb|), DoneUnits(s.exu), NbMoves(fix, s))
  }

  lemma Pending(c: Config, s: State, tr: Track)
    requires Inv(c, s, tr)
    ensures InvAt(c, s, tr, true)
  {
    forall i | 0 <= i < |s.exb| ensures EntryOk(c, s, tr, true, i) { assert EntryOk(c, s, tr, false, i); }
  }

  lemma WriteBackKeepsInv(c: Config, fix: Repairs, s: State, tr: Track)
    requires Inv(c, s, tr) && LanesSuffice(fix, s)
    ensures Inv(c, WriteBack(fix, s), WriteBackTrack(fix, s, tr))
  {
    var n, done, k := |s.cdb|, DoneUnits(s.exu), NbMoves(fix, s);
    DrainKeepsInv(c, s, tr, n);
    var s1, tr1 := DrainLanes(s, n), DrainTrack(s, tr, n);
    Pending(c, s1, tr1);
    MoveKeepsInv(c, s1, tr1, done, k);
    ForwardKeepsInv(c, MoveResults(s1, done, k), MoveTrack(s1, tr1, done, k));
  }

  lemma {:induction false} MoveTrackProgram(s: State, tr: Track, done: seq<nat>, k: nat)
    requires k <= |done| && k <= |s.cdb|
    requires forall j | 0 <= j < |done| :: done[j] < |s.exu|
    ensures MoveTrack(s, tr, done, k) == tr.(loc := MoveTrack(s, tr, done, k).loc)
  {
    if k != 0 {
      MoveTrackProgram(s, tr, done, k - 1);
    }
  }

  lemma {:induction false} DrainTrackProgram(s: State, tr: Track, k: nat)
    requires k <= |s.cdb|
    ensures DrainTrack(s, tr, k) == tr.(loc := DrainTrack(s, tr, k).loc)
  {
    if k != 0 {
      DrainTrackProgram(s, tr, k - 1);
    }
  }

  /** Write-back moves work; it accepts and commits nothing. */
  lemma WriteBackTrackProgram(fix: Repairs, s: State, tr: Track)
    requires LanesSuffice(fix, s)
    ensures WriteBackTrack(fix, s, tr) == tr.(loc := WriteBackTrack(fix, s, tr).loc)
  {
    DrainTrackProgram(s, tr, |s.cdb|);
    MoveTrackProgram(DrainLanes(s, |s.cdb|), DrainTrack(s, tr, |s.cdb|), DoneUnits(s.exu), NbMoves(fix, s));
  }
}
