/** The dispatch phase: sw/src/engine.c, `dispatch`. */
module DispatchProof {
  import opened Base
  import opened InOrder
  import opened ReorderBuffer
  import opened RegisterFile
  import opened Machine
  import opened Invariant

  ghost function DispatchTrack(s: State, tr: Track, inst: Option<Instr>): Track {
    if Accepts(s, inst) && s.rob.issuePtr < |tr.loc| then
      tr.(hist := tr.hist + [inst.value],
          loc := tr.loc[s.rob.issuePtr := InExb(FirstFree(s.exb, 0))])
    else tr
  }

  /** The state once the slot is open, which is when the operands are read. */
  function Opened(s: State, i: Instr): State
    requires RingOk(s.rob)
  {
    s.(rob := Issue(s.rob, i.rd))
  }

  /**
   * The K operand survives line 249. As written that line puts whatever the reorder buffer holds
   * into `vj` and nothing into `vk`, which is harmless only when K is not available there and J
   * either is not available or happens to hold the same number.
   */
  predicate OperandGuard(fix: Repairs, s: State, i: Instr)
    requires RingOk(s.rob) && RegsOk(s.reg, NREGS)
  {
    fix.kToVk || i.src2.Imm? || !FromRob(s, i.src2.r) ||
    var j, k := ReadOperand(Opened(s, i), i.rs1, 0), ReadOperand(Opened(s, i), i.src2.r, 0);
    !k.ready && (j.ready ==> j.v == k.v)
  }

  predicate RoomGuard(s: State) { exists k | 0 <= k < |s.exb| :: !s.exb[k].busy }

  /** What an invariant that claims `p` asks: an entry for work to stay somewhere, the operand for values. */
  predicate DispatchAllows(p: Claim, fix: Repairs, s: State, inst: Option<Instr>)
    requires RingOk(s.rob) && RegsOk(s.reg, NREGS)
  {
    Accepts(s, inst) ==> (p.Tags? || RoomGuard(s)) && (p.Values? ==> OperandGuard(fix, s, inst.value))
  }

  predicate DispatchGuard(fix: Repairs, s: State, inst: Option<Instr>)
    requires RingOk(s.rob) && RegsOk(s.reg, NREGS)
  {
    DispatchAllows(Values, fix, s, inst)
  }

  /** What opening a slot does to ownership. */
  lemma DispatchRing(c: Config, fix: Repairs, s: State, tr: Track, inst: Option<Instr>, junk: int32)
    requires Inv(c, s, tr) && Accepts(s, inst)
    ensures var s', tr' := Dispatch(fix, s, inst, junk), DispatchTrack(s, tr, inst);
      && Tracks(c, s', tr')
      && !Live(s.rob, s.rob.issuePtr)
      && Owner(s', tr', s.rob.issuePtr) == |tr.hist|
      && (forall t: nat :: Live(s'.rob, t) <==> Live(s.rob, t) || t == s.rob.issuePtr)
      && (forall t: nat | Live(s.rob, t) :: Owner(s', tr', t) == Owner(s, tr, t) && s'.rob.data[t] == s.rob.data[t])
      && s'.rob.data[s.rob.issuePtr].dest == inst.value.rd && !s'.rob.data[s.rob.issuePtr].done
  {
    hide SlotOk, UnitOk, LaneOk, EntryOk, RenameOk, Seq;
  }

  /** What dispatch finds for a register is what the new instruction reads in program order. */
  lemma FoundOperand(c: Config, s: State, tr: Track, i: Instr, r: RegNo, junk: int32)
    requires Inv(c, s, tr) && !Full(s.rob)
    ensures var o := ReadOperand(Opened(s, i), r, junk);
      if o.ready then tr.claim.Values? ==> o.v == Before(c, tr, |tr.hist|)[r] else
      && Live(s.rob, o.q) && LastWriter(tr.hist, r, |tr.hist|, Owner(s, tr, o.q))
      && (tr.loc[o.q].InExb? || tr.loc[o.q].InUnit?)
  {
    assert RenameOk(c, s, tr, r);
    var q := s.reg.s[r];
    if !s.reg.d[r] && !tr.claim.Values? {
    } else if !s.reg.d[r] {
      SeqUnwritten(c.alu, tr.x0, tr.hist, r, tr.committed, |tr.hist|);
    } else {
      LastWriterValue(c.alu, tr.x0, tr.hist, r, |tr.hist|, Owner(s, tr, q));
      assert SlotOk(c, s, tr, q);
      match Lookup(s.cdb, q, 0)
      case Some(w) =>
        var l :| 0 <= l < |s.cdb| && s.cdb[l].valid && s.cdb[l].qr == q && s.cdb[l].result == w;
        assert LaneOk(c, s, tr, l);
      case None =>
    }
  }

  /** Accepting an instruction does not change what older ones read and compute. */
  lemma OlderUnchanged(c: Config, tr: Track, tr': Track, i: Instr, n: nat)
    requires tr'.x0 == tr.x0 && tr'.hist == tr.hist + [i] && n <= |tr.hist|
    ensures Before(c, tr', n) == Before(c, tr, n)
    ensures n < |tr.hist| ==> tr'.hist[n] == tr.hist[n] && ResultOf(c, tr', n) == ResultOf(c, tr, n)
    ensures forall r: nat, m: nat :: LastWriter(tr'.hist, r, n, m) <==> LastWriter(tr.hist, r, n, m)
  {
    SeqPrefix(c.alu, tr.x0, tr.hist, [i], n);
    assert forall k | 0 <= k < |tr.hist| :: tr'.hist[k] == tr.hist[k];
  }

  lemma DispatchKeepsPlaces(c: Config, fix: Repairs, s: State, tr: Track, inst: Option<Instr>, junk: int32)
    requires Inv(c, s, tr) && Accepts(s, inst) && (tr.claim.Tags? || RoomGuard(s))
    ensures var s', tr' := Dispatch(fix, s, inst, junk), DispatchTrack(s, tr, inst);
      && Tracks(c, s', tr')
      && (forall t | 0 <= t < c.robSize :: SlotOk(c, s', tr', t))
      && (forall u | 0 <= u < |s'.exu| :: UnitOk(c, s', tr', u))
      && (forall l | 0 <= l < |s'.cdb| :: LaneOk(c, s', tr', l))
  {
    hide Seq, Result;
    var s', tr' := Dispatch(fix, s, inst, junk), DispatchTrack(s, tr, inst);
    DispatchRing(c, fix, s, tr, inst, junk);
    forall n: nat | n <= |tr.hist| ensures n < |tr.hist| ==> ResultOf(c, tr', n) == ResultOf(c, tr, n) {
      OlderUnchanged(c, tr, tr', inst.value, n);
    }
    forall t | 0 <= t < c.robSize ensures SlotOk(c, s', tr', t) { assert SlotOk(c, s, tr, t); }
    forall u | 0 <= u < |s'.exu| ensures UnitOk(c, s', tr', u) { assert UnitOk(c, s, tr, u); }
    forall l | 0 <= l < |s'.cdb| ensures LaneOk(c, s', tr', l) { assert LaneOk(c, s, tr, l); }
  }

  lemma DispatchKeepsOldEntry(c: Config, fix: Repairs, s: State, tr: Track, inst: Option<Instr>, junk: int32, j: nat)
    requires Inv(c, s, tr) && Accepts(s, inst) && j < |s.exb| && j != FirstFree(s.exb, 0)
    ensures var s', tr' := Dispatch(fix, s, inst, junk), DispatchTrack(s, tr, inst);
      Tracks(c, s', tr') && EntryOk(c, s', tr', false, j)
  {
    hide Seq, LastWriter;
    DispatchRing(c, fix, s, tr, inst, junk);
    assert EntryOk(c, s, tr, false, j);
    if s.exb[j].busy {
      OlderUnchanged(c, tr, DispatchTrack(s, tr, inst), inst.value, Owner(s, tr, s.exb[j].qr));
    }
  }

  lemma DispatchNewEntry(c: Config, fix: Repairs, s: State, tr: Track, inst: Option<Instr>, junk: int32)
    requires Inv(c, s, tr) && Accepts(s, inst) && RoomGuard(s) && DispatchAllows(tr.claim, fix, s, inst)
    ensures var s', tr' := Dispatch(fix, s, inst, junk), DispatchTrack(s, tr, inst);
      Tracks(c, s', tr') && EntryOk(c, s', tr', false, FirstFree(s.exb, 0))
  {
    hide Seq, LastWriter;
    var i, tr' := inst.value, DispatchTrack(s, tr, inst);
    DispatchRing(c, fix, s, tr, inst, junk);
    OlderUnchanged(c, tr, tr', i, |tr.hist|);
    FoundOperand(c, s, tr, i, i.rs1, junk);
    if i.src2.Reg? {
      FoundOperand(c, s, tr, i, i.src2.r, junk);
      JunkUnused(c, s, tr, i, i.rs1, junk);
      JunkUnused(c, s, tr, i, i.src2.r, junk);
    }
  }

  /** A register operand never comes from an unset variable. */
  lemma JunkUnused(c: Config, s: State, tr: Track, i: Instr, r: RegNo, junk: int32)
    requires Inv(c, s, tr)
    ensures ReadOperand(Opened(s, i), r, junk) == ReadOperand(Opened(s, i), r, 0)
  {
    assert RenameOk(c, s, tr, r);
  }

  lemma DispatchKeepsRename(c: Config, fix: Repairs, s: State, tr: Track, inst: Option<Instr>, junk: int32, r: nat)
    requires Inv(c, s, tr) && Accepts(s, inst) && r < NREGS
    ensures var s', tr' := Dispatch(fix, s, inst, junk), DispatchTrack(s, tr, inst);
      Tracks(c, s', tr') && RenameOk(c, s', tr', r)
  {
    hide SlotOk, UnitOk, LaneOk, EntryOk, Seq, ReadOperand, NewEntry, PlaceEntry, LastWriter;
    var i, s', tr' := inst.value, Dispatch(fix, s, inst, junk), DispatchTrack(s, tr, inst);
    DispatchRing(c, fix, s, tr, inst, junk);
    assert RenameOk(c, s, tr, r);
    assert tr'.hist == tr.hist + [i];
    if i.rd == r && r != 0 {
      LastWriterAppend(tr.hist, i, r, 0);
      assert s'.reg.d[r] && s'.reg.s[r] == s.rob.issuePtr;
    } else {
      assert s'.reg.d[r] == s.reg.d[r] && s'.reg.s[r] == s.reg.s[r];
      if s.reg.d[r] {
        LastWriterWrites(tr.hist, r, |tr.hist|, Owner(s, tr, s.reg.s[r]));
        LastWriterAppend(tr.hist, i, r, Owner(s, tr, s.reg.s[r]));
      }
    }
  }

  lemma DispatchKeepsInv(c: Config, fix: Repairs, s: State, tr: Track, inst: Option<Instr>, junk: int32)
    requires Inv(c, s, tr) && DispatchAllows(tr.claim, fix, s, inst)
    ensures Inv(c, Dispatch(fix, s, inst, junk), DispatchTrack(s, tr, inst))
  {
    if Accepts(s, inst) {
      hide SlotOk, UnitOk, LaneOk, EntryOk, RenameOk, Seq;
      var s', tr' := Dispatch(fix, s, inst, junk), DispatchTrack(s, tr, inst);
      DispatchKeepsPlaces(c, fix, s, tr, inst, junk);
      OlderUnchanged(c, tr, tr', inst.value, tr.committed);
      forall j | 0 <= j < |s'.exb| ensures EntryOk(c, s', tr', false, j) {
        if j == FirstFree(s.exb, 0) {
          DispatchNewEntry(c, fix, s, tr, inst, junk);
        } else {
          DispatchKeepsOldEntry(c, fix, s, tr, inst, junk, j);
        }
      }
      forall r | 0 <= r < NREGS ensures RenameOk(c, s', tr', r) {
        DispatchKeepsRename(c, fix, s, tr, inst, junk, r);
      }
    }
  }

  /** A lost instruction leaves an open slot whose work is nowhere, whatever the bookkeeping says. */
  lemma LostInstruction(c: Config, fix: Repairs, s: State, tr: Track, inst: Option<Instr>, junk: int32, tr': Track)
    requires Inv(c, s, tr) && Accepts(s, inst) && !RoomGuard(s) && !tr'.claim.Tags?
    requires tr'.x0 == tr.x0 && tr'.hist == tr.hist + [inst.value] && tr'.committed == tr.committed
    ensures !Inv(c, Dispatch(fix, s, inst, junk), tr')
  {
    DispatchRing(c, fix, s, tr, inst, junk);
    var s', t := Dispatch(fix, s, inst, junk), s.rob.issuePtr;
    PlacesHold(c, s, tr);
    if Tracks(c, s', tr') {
      assert !SlotOk(c, s', tr', t);
    }
  }

  /** What the new entry holds when line 249 goes wrong: a K value from nowhere, or a J that is K's. */
  lemma WrongEntry(c: Config, fix: Repairs, s: State, tr: Track, i: Instr, qr: nat) returns (junk: int32)
    requires Inv(c, s, tr) && tr.claim.Values? && !Full(s.rob) && !OperandGuard(fix, s, i)
    ensures var e, x := NewEntry(fix, Opened(s, i), i, qr, junk), Before(c, tr, |tr.hist|);
            (e.rj && e.vj != x[i.rs1]) || (e.rk && e.vk != Value(x, i.src2))
  {
    hide SlotOk, UnitOk, LaneOk, EntryOk, RenameOk, Seq, LastWriter, ReadOperand;
    junk := if Before(c, tr, |tr.hist|)[i.src2.r] == 0 then 1 else 0;
    FoundOperand(c, s, tr, i, i.rs1, junk);
    JunkUnused(c, s, tr, i, i.rs1, junk);
    JunkUnused(c, s, tr, i, i.src2.r, ReadOperand(Opened(s, i), i.rs1, junk).v);
  }

  lemma WrongOperand(c: Config, fix: Repairs, s: State, tr: Track, inst: Option<Instr>) returns (junk: int32)
    requires Inv(c, s, tr) && tr.claim.Values?
    requires Accepts(s, inst) && RoomGuard(s) && !OperandGuard(fix, s, inst.value)
    ensures !Inv(c, Dispatch(fix, s, inst, junk), DispatchTrack(s, tr, inst))
  {
    hide SlotOk, UnitOk, LaneOk, RenameOk, Seq, LastWriter, NewEntry;
    var tr', k := DispatchTrack(s, tr, inst), FirstFree(s.exb, 0);
    OlderUnchanged(c, tr, tr', inst.value, |tr.hist|);
    junk := WrongEntry(c, fix, s, tr, inst.value, Tag(s.rob.issuePtr));
    DispatchRing(c, fix, s, tr, inst, junk);
    var s' := Dispatch(fix, s, inst, junk);
    var e := NewEntry(fix, Opened(s, inst.value), inst.value, Tag(s.rob.issuePtr), junk);
    assert s'.exb[k] == e;
    if Inv(c, s', tr') {
      assert EntryOk(c, s', tr', false, k);
      NewEntryShape(fix, Opened(s, inst.value), inst.value, Tag(s.rob.issuePtr), junk);
    }
  }

  lemma NewEntryShape(fix: Repairs, s: State, i: Instr, qr: nat, junk: int32)
    requires RegsOk(s.reg, NREGS)
    ensures var e := NewEntry(fix, s, i, qr, junk); e.busy && e.qr == qr && e.f10 == i.f10
  {
  }

  /** Exactly when an accepted instruction enters the machine with the operands program order gives it. */
  lemma DispatchExact(c: Config, fix: Repairs, s: State, tr: Track, inst: Option<Instr>)
    requires Inv(c, s, tr)
    ensures (forall junk :: Inv(c, Dispatch(fix, s, inst, junk), DispatchTrack(s, tr, inst)))
            <==> DispatchAllows(tr.claim, fix, s, inst)
  {
    hide SlotOk, UnitOk, LaneOk, EntryOk, RenameOk;
    if DispatchAllows(tr.claim, fix, s, inst) {
      forall junk ensures Inv(c, Dispatch(fix, s, inst, junk), DispatchTrack(s, tr, inst)) {
        DispatchKeepsInv(c, fix, s, tr, inst, junk);
      }
    } else if RoomGuard(s) {
      var junk := WrongOperand(c, fix, s, tr, inst);
    } else {
      assert DispatchTrack(s, tr, inst).hist == tr.hist + [inst.value] by { IssuePtrInRange(c, s, tr); }
      LostInstruction(c, fix, s, tr, inst, 0, DispatchTrack(s, tr, inst));
    }
  }

  lemma IssuePtrInRange(c: Config, s: State, tr: Track)
    requires Inv(c, s, tr)
    ensures s.rob.issuePtr < |tr.loc|
  {
  }
}
