/** The commit phase: sw/src/engine.c, `commit`. */
module CommitProof {
  import opened Base
  import opened InOrder
  import opened ReorderBuffer
  import opened RegisterFile
  import opened Machine
  import opened Invariant

  ghost function CommitTrack(s: State, tr: Track): Track
    requires RingOk(s.rob)
  {
    if HeadDone(s.rob) then tr.(committed := tr.committed + 1) else tr
  }

  /** The dirty flag of the committed register may be cleared: nothing younger is awaited there. */
  predicate CommitGuard(fix: Repairs, s: State)
    requires RingOk(s.rob) && RegsOk(s.reg, NREGS)
  {
    var rd := s.rob.data[s.rob.commitPtr].dest;
    fix.tagClear || !HeadDone(s.rob) || rd == 0 || rd >= NREGS || s.reg.s[rd] == Tag(s.rob.commitPtr)
  }

  /** No operand waits for a slot that is done, so no operand waits for the one being committed. */
  lemma NobodyWaitsForHead(c: Config, s: State, tr: Track, i: nat)
    requires Inv(c, s, tr) && HeadDone(s.rob) && i < |s.exb| && s.exb[i].busy
    ensures !s.exb[i].rj ==> s.exb[i].qj != s.rob.commitPtr
    ensures !s.exb[i].rk ==> s.exb[i].qk != s.rob.commitPtr
  {
    assert SlotOk(c, s, tr, s.rob.commitPtr);
    assert EntryOk(c, s, tr, false, i);
  }

  lemma {:induction false} ForwardIdle(exb: seq<ExbEntry>, tag: nat, value: int32, i: nat)
    requires i <= |exb|
    requires forall j | i <= j < |exb| && exb[j].busy ::
               && (!exb[j].rj ==> exb[j].qj != tag)
               && (!exb[j].rk ==> exb[j].qk != tag)
    ensures CommitForward(exb, tag, value, i) == exb
    decreases |exb| - i
  {
    if i < |exb| {
      ForwardIdle(exb, tag, value, i + 1);
    }
  }

  /** The forwarding loop of `commit`, early exit included, changes nothing. */
  lemma CommitForwardRedundant(c: Config, s: State, tr: Track, value: int32)
    requires Inv(c, s, tr) && HeadDone(s.rob)
    ensures CommitForward(s.exb, Tag(s.rob.commitPtr), value, 0) == s.exb
  {
    forall i | 0 <= i < |s.exb| && s.exb[i].busy
      ensures !s.exb[i].rj ==> s.exb[i].qj != s.rob.commitPtr
      ensures !s.exb[i].rk ==> s.exb[i].qk != s.rob.commitPtr
    {
      NobodyWaitsForHead(c, s, tr, i);
    }
    ForwardIdle(s.exb, Tag(s.rob.commitPtr), value, 0);
  }

  /** What a commit does to the ring and to ownership. */
  lemma CommitRing(c: Config, fix: Repairs, s: State, tr: Track)
    requires Inv(c, s, tr) && HeadDone(s.rob)
    ensures var s', tr' := Commit(fix, s), CommitTrack(s, tr);
      && Tracks(c, s', tr')
      && s'.rob.data == s.rob.data && s'.exb == s.exb && s'.exu == s.exu && s'.cdb == s.cdb
      && s'.reg.s == s.reg.s
      && Live(s.rob, s.rob.commitPtr) && Owner(s, tr, s.rob.commitPtr) == tr.committed
      && (forall t :: Live(s'.rob, t) <==> Live(s.rob, t) && t != s.rob.commitPtr)
      && (forall t | Live(s'.rob, t) :: Owner(s', tr', t) == Owner(s, tr, t))
  {
    hide SlotOk, UnitOk, LaneOk, EntryOk, RenameOk, Seq;
    CommitForwardRedundant(c, s, tr, s.rob.data[s.rob.commitPtr].data);
    PhasesKeepShape(c, fix, s);
  }

  lemma CommitKeepsPlaces(c: Config, fix: Repairs, s: State, tr: Track)
    requires Inv(c, s, tr) && HeadDone(s.rob)
    ensures var s', tr' := Commit(fix, s), CommitTrack(s, tr);
      && Tracks(c, s', tr')
      && (forall t | 0 <= t < c.robSize :: SlotOk(c, s', tr', t))
      && (forall u | 0 <= u < |s'.exu| :: UnitOk(c, s', tr', u))
      && (forall l | 0 <= l < |s'.cdb| :: LaneOk(c, s', tr', l))
  {
    CommitRing(c, fix, s, tr);
    assert SlotOk(c, s, tr, s.rob.commitPtr);
    var s', tr' := Commit(fix, s), CommitTrack(s, tr);
    forall t | 0 <= t < c.robSize ensures SlotOk(c, s', tr', t) { assert SlotOk(c, s, tr, t); }
    forall u | 0 <= u < |s'.exu| ensures UnitOk(c, s', tr', u) { assert UnitOk(c, s, tr, u); }
    forall l | 0 <= l < |s'.cdb| ensures LaneOk(c, s', tr', l) { assert LaneOk(c, s, tr, l); }
  }

  lemma CommitKeepsEntries(c: Config, fix: Repairs, s: State, tr: Track, i: nat)
    requires Inv(c, s, tr) && HeadDone(s.rob) && i < |s.exb|
    ensures var s', tr' := Commit(fix, s), CommitTrack(s, tr);
      Tracks(c, s', tr') && |s'.exb| == |s.exb| && EntryOk(c, s', tr', false, i)
  {
    hide UnitOk, LaneOk, RenameOk, Seq, LastWriter;
    CommitRing(c, fix, s, tr);
    assert SlotOk(c, s, tr, s.rob.commitPtr);
    assert EntryOk(c, s, tr, false, i);
  }

  /** The committed value is what the in-order machine writes next. */
  lemma CommitAdvancesRegisters(c: Config, fix: Repairs, s: State, tr: Track)
    requires Inv(c, s, tr) && HeadDone(s.rob) && tr.claim.Values?
    ensures var s', tr' := Commit(fix, s), CommitTrack(s, tr);
      tr'.committed <= |tr'.hist| && s'.reg.x == Before(c, tr', tr'.committed)
  {
    CommitRing(c, fix, s, tr);
    assert SlotOk(c, s, tr, s.rob.commitPtr);
  }

  lemma CommitKeepsRenames(c: Config, fix: Repairs, s: State, tr: Track, r: nat)
    requires Inv(c, s, tr) && HeadDone(s.rob) && r < NREGS
    requires tr.claim.Values? ==> CommitGuard(fix, s)
    ensures var s', tr' := Commit(fix, s), CommitTrack(s, tr);
      Tracks(c, s', tr') && RenameOk(c, s', tr', r)
  {
    hide UnitOk, LaneOk, EntryOk, Seq;
    CommitRing(c, fix, s, tr);
    assert SlotOk(c, s, tr, s.rob.commitPtr);
    assert RenameOk(c, s, tr, r);
  }

  lemma CommitKeepsInv(c: Config, fix: Repairs, s: State, tr: Track)
    requires Inv(c, s, tr) && (tr.claim.Values? ==> CommitGuard(fix, s))
    ensures Inv(c, Commit(fix, s), CommitTrack(s, tr))
  {
    if HeadDone(s.rob) {
      var s', tr' := Commit(fix, s), CommitTrack(s, tr);
      CommitKeepsPlaces(c, fix, s, tr);
      if tr.claim.Values? {
        CommitAdvancesRegisters(c, fix, s, tr);
      }
      CommitRing(c, fix, s, tr);
      forall i | 0 <= i < |s'.exb| ensures EntryOk(c, s', tr', false, i) { CommitKeepsEntries(c, fix, s, tr, i); }
      forall r | 0 <= r < NREGS ensures RenameOk(c, s', tr', r) { CommitKeepsRenames(c, fix, s, tr, r); }
    }
  }

  /**
   * Exactly when a commit keeps the rename table right, which only values depend on. As written, it does so only when the
   * register still awaits the slot being committed; otherwise a younger writer is in flight and
   * clearing the flag makes later readers take the old value.
   */
  lemma CommitExact(c: Config, fix: Repairs, s: State, tr: Track)
    requires Inv(c, s, tr)
    ensures Inv(c, Commit(fix, s), CommitTrack(s, tr)) <==> (tr.claim.Values? ==> CommitGuard(fix, s))
  {
    if tr.claim.Values? ==> CommitGuard(fix, s) {
      CommitKeepsInv(c, fix, s, tr);
    } else {
      var s', tr' := Commit(fix, s), CommitTrack(s, tr);
      var rd := s.rob.data[s.rob.commitPtr].dest;
      CommitRing(c, fix, s, tr);
      assert SlotOk(c, s, tr, s.rob.commitPtr);
      assert RenameOk(c, s, tr, rd);
      assert tr.hist[tr.committed].rd == rd;
      assert !s'.reg.d[rd];
      assert !RenameOk(c, s', tr', rd) by {
        var y := Owner(s, tr, s.reg.s[rd]);
        assert tr.committed < y && tr.hist[y].rd == rd;
      }
    }
  }

  /** The guard asks, of the code as written, that nothing younger in flight writes the register. */
  lemma CommitGuardMeaning(c: Config, fix: Repairs, s: State, tr: Track)
    requires Inv(c, s, tr) && HeadDone(s.rob) && !fix.tagClear && tr.claim.Values?
    ensures tr.committed < |tr.hist|
    ensures var rd := tr.hist[tr.committed].rd;
      CommitGuard(fix, s) <==> rd == 0 || forall n | tr.committed < n < |tr.hist| :: tr.hist[n].rd != rd
  {
    hide UnitOk, LaneOk, EntryOk, Seq;
    var p := s.rob.commitPtr;
    CommitRing(c, fix, s, tr);
    assert SlotOk(c, s, tr, p);
    var rd := s.rob.data[p].dest;
    assert rd == tr.hist[tr.committed].rd;
    assert RenameOk(c, s, tr, rd);
    if rd != 0 {
      var q := s.reg.s[rd];
      assert s.reg.d[rd];
      if q != p {
        assert Dist(s.rob, q) != Dist(s.rob, p);
        assert tr.hist[Owner(s, tr, q)].rd == rd;
      }
    }
  }
}
