/**
 * What ties a state of the engine to the program it has accepted.
 *
 * Instructions are numbered by their place in `hist`, the accepted program. The live ones, from
 * `committed` on, own the open slots of the reorder buffer in order, and `loc` says where the
 * work of each open slot currently is. `claim` is how much is promised: which of the guards a run
 * has met decides what survives of the whole.
 */
module Invariant {
  import opened Base
  import opened InOrder
  import opened ReorderBuffer
  import opened Machine

  datatype Place = InExb(i: nat) | InUnit(u: nat) | OnLane(l: nat) | InRob

  /**
   * - Values: every value is the one program order gives.
   * - Places: the work of an open slot is in exactly one place, and who waits for whom is right.
   * - Tags: the work of an open slot is in at most one place; past the buffer, it is lost.
   */
  datatype Claim = Values | Places | Tags

  datatype Track = Track(x0: RegVals, hist: seq<Instr>, committed: nat, loc: seq<Place>, claim: Claim)

  /** The instruction that owns slot `t`. */
  function Owner(s: State, tr: Track, t: nat): int { tr.committed + Dist(s.rob, t) }

  ghost predicate Tracks(c: Config, s: State, tr: Track) {
    && Shape(c, s)
    && c.robSize <= 256
    && |tr.hist| == tr.committed + s.rob.cnt
    && |tr.loc| == c.robSize
  }

  /** The register values instruction `n` sees in program order. */
  ghost function Before(c: Config, tr: Track, n: nat): RegVals
    requires n <= |tr.hist|
  {
    Seq(c.alu, tr.x0, tr.hist, n)
  }

  ghost function ResultOf(c: Config, tr: Track, n: nat): int32
    requires n < |tr.hist|
  {
    Result(c.alu, tr.x0, tr.hist, n)
  }

  // ---------------------------------------------------------------------------
  // Conservation: the work of an open slot is in exactly one place
  // ---------------------------------------------------------------------------

  ghost predicate SlotOk(c: Config, s: State, tr: Track, t: nat)
    requires Tracks(c, s, tr) && t < c.robSize
  {
    Live(s.rob, t) ==>
      && s.rob.data[t].dest == tr.hist[Owner(s, tr, t)].rd
      && s.rob.data[t].done == tr.loc[t].InRob?
      && match tr.loc[t]
         case InExb(i) => if i < |s.exb| then s.exb[i].busy && s.exb[i].qr == t else tr.claim.Tags?
         case InUnit(u) => u < |s.exu| && s.exu[u].busy && s.exu[u].qr == t
         case OnLane(l) => l < |s.cdb| && s.cdb[l].valid && s.cdb[l].qr == t
         case InRob => tr.claim.Values? ==> s.rob.data[t].data == ResultOf(c, tr, Owner(s, tr, t))
  }

  ghost predicate UnitOk(c: Config, s: State, tr: Track, u: nat)
    requires Tracks(c, s, tr) && u < |s.exu|
  {
    var e := s.exu[u];
    e.busy ==>
      && Live(s.rob, e.qr) && tr.loc[e.qr] == InUnit(u)
      && (tr.claim.Values? ==> e.result == ResultOf(c, tr, Owner(s, tr, e.qr)))
      && e.cycleLeft <= c.cycles(tr.hist[Owner(s, tr, e.qr)].f10)
  }

  ghost predicate LaneOk(c: Config, s: State, tr: Track, l: nat)
    requires Tracks(c, s, tr) && l < |s.cdb|
  {
    var e := s.cdb[l];
    e.valid ==>
      && Live(s.rob, e.qr) && tr.loc[e.qr] == OnLane(l)
      && (tr.claim.Values? ==> e.result == ResultOf(c, tr, Owner(s, tr, e.qr)))
  }

  // ---------------------------------------------------------------------------
  // Operands
  // ---------------------------------------------------------------------------

  /**
   * A ready operand of instruction `n` holds the value `n` reads in program order. One that is
   * not names the slot of the youngest earlier writer, whose result is still to be broadcast.
   * While write-back is under way (`pending`) that result may already be on a lane.
   */
  ghost predicate OperandOk(c: Config, s: State, tr: Track, pending: bool, n: nat,
                            src: Source, ready: bool, v: int32, q: nat)
    requires Tracks(c, s, tr) && n < |tr.hist|
  {
    if ready then tr.claim.Values? ==> v == Value(Before(c, tr, n), src) else
    && src.Reg?
    && Live(s.rob, q)
    && LastWriter(tr.hist, src.r, n, Owner(s, tr, q))
    && (tr.loc[q].InExb? || tr.loc[q].InUnit? || (pending && tr.loc[q].OnLane?))
  }

  ghost predicate EntryOk(c: Config, s: State, tr: Track, pending: bool, i: nat)
    requires Tracks(c, s, tr) && i < |s.exb|
  {
    var e := s.exb[i];
    e.busy ==>
      && Live(s.rob, e.qr) && tr.loc[e.qr] == InExb(i)
      && var n := Owner(s, tr, e.qr);
      && e.f10 == tr.hist[n].f10
      && OperandOk(c, s, tr, pending, n, Reg(tr.hist[n].rs1), e.rj, e.vj, e.qj)
      && OperandOk(c, s, tr, pending, n, tr.hist[n].src2, e.rk, e.vk, e.qk)
  }

  // ---------------------------------------------------------------------------
  // Registers
  // ---------------------------------------------------------------------------

  /**
   * A dirty register awaits the youngest live instruction that writes it. With `Values` promised, a
   * register that a live instruction writes is dirty.
   */
  ghost predicate RenameOk(c: Config, s: State, tr: Track, r: nat)
    requires Tracks(c, s, tr) && r < NREGS
  {
    if s.reg.d[r] then
      Live(s.rob, s.reg.s[r]) && LastWriter(tr.hist, r, |tr.hist|, Owner(s, tr, s.reg.s[r]))
    else
      tr.claim.Values? ==> forall n | tr.committed <= n < |tr.hist| :: r == 0 || tr.hist[n].rd != r
  }

  ghost predicate InvAt(c: Config, s: State, tr: Track, pending: bool) {
    && Tracks(c, s, tr)
    && (tr.claim.Values? ==> s.reg.x == Before(c, tr, tr.committed))
    && (forall t | 0 <= t < c.robSize :: SlotOk(c, s, tr, t))
    && (forall u | 0 <= u < |s.exu| :: UnitOk(c, s, tr, u))
    && (forall l | 0 <= l < |s.cdb| :: LaneOk(c, s, tr, l))
    && (forall i | 0 <= i < |s.exb| :: EntryOk(c, s, tr, pending, i))
    && (forall r | 0 <= r < NREGS :: RenameOk(c, s, tr, r))
  }

  ghost predicate Inv(c: Config, s: State, tr: Track) { InvAt(c, s, tr, false) }

  /** Place `p` has the work of slot `t`. */
  predicate Holds(s: State, t: nat, p: Place) {
    match p
    case InExb(i) => i < |s.exb| && s.exb[i].busy && s.exb[i].qr == t
    case InUnit(u) => u < |s.exu| && s.exu[u].busy && s.exu[u].qr == t
    case OnLane(l) => l < |s.cdb| && s.cdb[l].valid && s.cdb[l].qr == t
    case InRob => Live(s.rob, t) && s.rob.data[t].done
  }

  /** What a place holds belongs to an open slot, and that slot's work is there. */
  lemma PlacesHold(c: Config, s: State, tr: Track)
    requires Inv(c, s, tr)
    ensures forall i | 0 <= i < |s.exb| && s.exb[i].busy :: Live(s.rob, s.exb[i].qr) && tr.loc[s.exb[i].qr] == InExb(i)
    ensures forall u | 0 <= u < |s.exu| && s.exu[u].busy :: Live(s.rob, s.exu[u].qr) && tr.loc[s.exu[u].qr] == InUnit(u)
    ensures forall l | 0 <= l < |s.cdb| && s.cdb[l].valid :: Live(s.rob, s.cdb[l].qr) && tr.loc[s.cdb[l].qr] == OnLane(l)
  {
    hide OperandOk, SlotOk, RenameOk, Before, ResultOf;
    forall i | 0 <= i < |s.exb| && s.exb[i].busy
      ensures Live(s.rob, s.exb[i].qr) && tr.loc[s.exb[i].qr] == InExb(i)
    {
      assert EntryOk(c, s, tr, false, i);
    }
    forall u | 0 <= u < |s.exu| && s.exu[u].busy
      ensures Live(s.rob, s.exu[u].qr) && tr.loc[s.exu[u].qr] == InUnit(u)
    {
      assert UnitOk(c, s, tr, u);
    }
    forall l | 0 <= l < |s.cdb| && s.cdb[l].valid
      ensures Live(s.rob, s.cdb[l].qr) && tr.loc[s.cdb[l].qr] == OnLane(l)
    {
      assert LaneOk(c, s, tr, l);
    }
  }

  lemma HeldOnlyThere(c: Config, s: State, tr: Track, t: nat, p: Place)
    requires Inv(c, s, tr) && Holds(s, t, p)
    ensures Live(s.rob, t) && t < |tr.loc| && tr.loc[t] == p
  {
    hide OperandOk, EntryOk, RenameOk, Before, ResultOf;
    PlacesHold(c, s, tr);
    if p.InRob? {
      assert SlotOk(c, s, tr, t);
    }
  }

  lemma HeldThere(c: Config, s: State, tr: Track, t: nat)
    requires Inv(c, s, tr) && !tr.claim.Tags? && Live(s.rob, t)
    ensures t < |tr.loc| && Holds(s, t, tr.loc[t])
  {
    hide OperandOk, EntryOk, RenameOk, Before, ResultOf;
    assert SlotOk(c, s, tr, t);
  }

  /** What is promised at most: the less of it, the fewer guards a run has to meet. */
  predicate AtMost(p: Claim, q: Claim) { p.Tags? || q.Values? || p == q }

  lemma ClaimLess(c: Config, s: State, tr: Track, p: Claim)
    requires Inv(c, s, tr) && AtMost(p, tr.claim)
    ensures Inv(c, s, tr.(claim := p))
  {
    hide Seq, Result, LastWriter;
    var tr' := tr.(claim := p);
    forall t | 0 <= t < c.robSize ensures SlotOk(c, s, tr', t) { assert SlotOk(c, s, tr, t); }
    forall u | 0 <= u < |s.exu| ensures UnitOk(c, s, tr', u) { assert UnitOk(c, s, tr, u); }
    forall l | 0 <= l < |s.cdb| ensures LaneOk(c, s, tr', l) { assert LaneOk(c, s, tr, l); }
    forall i | 0 <= i < |s.exb| ensures EntryOk(c, s, tr', false, i) { assert EntryOk(c, s, tr, false, i); }
    forall r | 0 <= r < NREGS ensures RenameOk(c, s, tr', r) { assert RenameOk(c, s, tr, r); }
  }
}
