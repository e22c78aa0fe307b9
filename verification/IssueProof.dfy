/** The execute and issue phases: sw/src/engine.c, `execute` and `issue`. */
module IssueProof {
  import opened InOrder
  import opened ReorderBuffer
  import opened Machine
  import opened Invariant
  import opened WriteBackProof

  lemma ExecuteKeepsInv(c: Config, s: State, tr: Track)
    requires Inv(c, s, tr)
    ensures Inv(c, Execute(s), tr)
  {
    hide Seq, Result, LastWriter;
    var s' := Execute(s);
    forall t | 0 <= t < c.robSize ensures SlotOk(c, s', tr, t) { assert SlotOk(c, s, tr, t); }
    forall u | 0 <= u < |s'.exu| ensures UnitOk(c, s', tr, u) { assert UnitOk(c, s, tr, u); }
    forall l | 0 <= l < |s'.cdb| ensures LaneOk(c, s', tr, l) { assert LaneOk(c, s, tr, l); }
    forall i | 0 <= i < |s'.exb| ensures EntryOk(c, s', tr, false, i) { assert EntryOk(c, s, tr, false, i); }
    forall r | 0 <= r < NREGS ensures RenameOk(c, s', tr, r) { assert RenameOk(c, s, tr, r); }
  }

  ghost function IssueOneTrack(s: State, tr: Track, u: nat, i: nat): Track
    requires i < |s.exb|
  {
    Moved(tr, s.exb[i].qr, InUnit(u))
  }

  lemma IssueOneKeepsPlaces(c: Config, s: State, tr: Track, u: nat, i: nat)
    requires Inv(c, s, tr) && ConfigOk(c) && u < |s.exu| && i < |s.exb|
    requires UnitFree(s.exu[u]) && EntryReady(s.exb[i])
    ensures var s', tr' := IssueOne(c, s, u, i), IssueOneTrack(s, tr, u, i);
      && Tracks(c, s', tr')
      && (forall t | 0 <= t < c.robSize :: SlotOk(c, s', tr', t))
      && (forall v | 0 <= v < |s'.exu| :: UnitOk(c, s', tr', v))
      && (forall l | 0 <= l < |s'.cdb| :: LaneOk(c, s', tr', l))
  {
    assert EntryOk(c, s, tr, false, i);
    var s', tr' := IssueOne(c, s, u, i), IssueOneTrack(s, tr, u, i);
    forall t | 0 <= t < c.robSize ensures SlotOk(c, s', tr', t) { assert SlotOk(c, s, tr, t); }
    forall v | 0 <= v < |s'.exu| ensures UnitOk(c, s', tr', v) { assert UnitOk(c, s, tr, v); }
    forall l | 0 <= l < |s'.cdb| ensures LaneOk(c, s', tr', l) { assert LaneOk(c, s, tr, l); }
  }

  lemma IssueOneKeepsEntry(c: Config, s: State, tr: Track, u: nat, i: nat, j: nat)
    requires Inv(c, s, tr) && u < |s.exu| && i < |s.exb| && j < |s.exb|
    requires EntryReady(s.exb[i])
    ensures var s', tr' := IssueOne(c, s, u, i), IssueOneTrack(s, tr, u, i);
      Tracks(c, s', tr') && EntryOk(c, s', tr', false, j)
  {
    hide Seq, Result, LastWriter;
    assert EntryOk(c, s, tr, false, i);
    assert EntryOk(c, s, tr, false, j);
  }

  lemma IssueOneKeepsInv(c: Config, s: State, tr: Track, u: nat, i: nat)
    requires Inv(c, s, tr) && ConfigOk(c) && u < |s.exu| && i < |s.exb|
    requires UnitFree(s.exu[u]) && EntryReady(s.exb[i])
    ensures Inv(c, IssueOne(c, s, u, i), IssueOneTrack(s, tr, u, i))
  {
    var s', tr' := IssueOne(c, s, u, i), IssueOneTrack(s, tr, u, i);
    IssueOneKeepsPlaces(c, s, tr, u, i);
    forall j | 0 <= j < |s'.exb| ensures EntryOk(c, s', tr', false, j) { IssueOneKeepsEntry(c, s, tr, u, i, j); }
    forall r | 0 <= r < NREGS ensures RenameOk(c, s', tr', r) { assert RenameOk(c, s, tr, r); }
  }

  ghost function IssueManyTrack(c: Config, s: State, tr: Track, units: seq<nat>, entries: seq<nat>, k: nat): Track
    requires k <= |units| && k <= |entries|
    requires forall j | 0 <= j < |units| :: units[j] < |s.exu|
    requires forall j | 0 <= j < |entries| :: entries[j] < |s.exb|
  {
    if k == 0 then tr else
    IssueOneTrack(IssueMany(c, s, units, entries, k - 1), IssueManyTrack(c, s, tr, units, entries, k - 1),
                  units[k - 1], entries[k - 1])
  }

  lemma {:induction false} IssueManyFrame(c: Config, s: State, units: seq<nat>, entries: seq<nat>, k: nat, u: nat, i: nat)
    requires k <= |units| && k <= |entries| && u < |s.exu| && i < |s.exb|
    requires forall j | 0 <= j < |units| :: units[j] < |s.exu|
    requires forall j | 0 <= j < |entries| :: entries[j] < |s.exb|
    requires forall j | 0 <= j < k :: units[j] != u && entries[j] != i
    ensures IssueMany(c, s, units, entries, k).exu[u] == s.exu[u]
    ensures IssueMany(c, s, units, entries, k).exb[i] == s.exb[i]
  {
    if k != 0 {
      IssueManyFrame(c, s, units, entries, k - 1, u, i);
    }
  }

  /** Whichever ready entries go to whichever free units. */
  lemma {:induction false} IssueManyKeepsInv(c: Config, s: State, tr: Track, units: seq<nat>, entries: seq<nat>, k: nat)
    requires Inv(c, s, tr) && ConfigOk(c)
    requires k <= |units| && k <= |entries|
    requires forall j | 0 <= j < |units| :: units[j] < |s.exu| && UnitFree(s.exu[units[j]])
    requires forall j | 0 <= j < |entries| :: entries[j] < |s.exb| && EntryReady(s.exb[entries[j]])
    requires forall i, j | 0 <= i < j < |units| :: units[i] != units[j]
    requires forall i, j | 0 <= i < j < |entries| :: entries[i] != entries[j]
    ensures Inv(c, IssueMany(c, s, units, entries, k), IssueManyTrack(c, s, tr, units, entries, k))
  {
    hide InvAt;
    if k != 0 {
      IssueManyKeepsInv(c, s, tr, units, entries, k - 1);
      IssueManyFrame(c, s, units, entries, k - 1, units[k - 1], entries[k - 1]);
      IssueOneKeepsInv(c, IssueMany(c, s, units, entries, k - 1),
                       IssueManyTrack(c, s, tr, units, entries, k - 1), units[k - 1], entries[k - 1]);
    }
  }

  ghost function IssueTrack(c: Config, s: State, tr: Track): Track {
    IssueManyTrack(c, s, tr, FreeUnits(s.exu), ReadyEntries(s.exb), NbIssue(s))
  }

  lemma IssueKeepsInv(c: Config, s: State, tr: Track)
    requires Inv(c, s, tr) && ConfigOk(c)
    ensures Inv(c, IssueReady(c, s), IssueTrack(c, s, tr))
  {
    IssueManyKeepsInv(c, s, tr, FreeUnits(s.exu), ReadyEntries(s.exb), NbIssue(s));
  }

  lemma {:induction false} IssueManyTrackProgram(c: Config, s: State, tr: Track, units: seq<nat>, entries: seq<nat>, k: nat)
    requires k <= |units| && k <= |entries|
    requires forall j | 0 <= j < |units| :: units[j] < |s.exu|
    requires forall j | 0 <= j < |entries| :: entries[j] < |s.exb|
    ensures IssueManyTrack(c, s, tr, units, entries, k) ==
            tr.(loc := IssueManyTrack(c, s, tr, units, entries, k).loc)
  {
    if k != 0 {
      IssueManyTrackProgram(c, s, tr, units, entries, k - 1);
    }
  }

  // ---------------------------------------------------------------------------
  // Waiting is acyclic
  // ---------------------------------------------------------------------------

  /** A busy entry that is not ready waits for an older instruction, still in a buffer or a unit. */
  ghost function Producer(s: State, i: nat): nat
    requires i < |s.exb|
  {
    if !s.exb[i].rj then s.exb[i].qj else s.exb[i].qk
  }

  lemma WaitsForOlder(c: Config, s: State, tr: Track, i: nat)
    requires Inv(c, s, tr) && !tr.claim.Tags? && i < |s.exb| && s.exb[i].busy && !EntryReady(s.exb[i])
    ensures var q := Producer(s, i);
      && Live(s.rob, q)
      && Owner(s, tr, q) < Owner(s, tr, s.exb[i].qr)
      && match tr.loc[q]
         case InExb(j) => j < |s.exb| && s.exb[j].busy && s.exb[j].qr == q
         case InUnit(u) => u < |s.exu| && s.exu[u].busy && s.exu[u].qr == q
         case _ => false
  {
    assert EntryOk(c, s, tr, false, i);
    assert SlotOk(c, s, tr, Producer(s, i));
  }

  /** Following producers from any waiting entry ends at a busy unit or a ready entry. */
  lemma {:induction false} WaitingEnds(c: Config, s: State, tr: Track, i: nat)
    requires Inv(c, s, tr) && !tr.claim.Tags? && i < |s.exb| && s.exb[i].busy
    ensures (exists u | 0 <= u < |s.exu| :: s.exu[u].busy) || (exists j | 0 <= j < |s.exb| :: EntryReady(s.exb[j]))
    decreases Owner(s, tr, s.exb[i].qr)
  {
    assert EntryOk(c, s, tr, false, i);
    if !EntryReady(s.exb[i]) {
      WaitsForOlder(c, s, tr, i);
      var q := Producer(s, i);
      if tr.loc[q].InExb? {
        WaitingEnds(c, s, tr, tr.loc[q].i);
      }
    }
  }

  /** After issue, a busy buffer means a busy unit: something is always executing. */
  lemma BusyBufferBusyUnit(c: Config, s: State, tr: Track, i: nat)
    requires Inv(c, s, tr) && !tr.claim.Tags? && ConfigOk(c)
    requires i < |s.exb| && IssueReady(c, s).exb[i].busy
    ensures exists u | 0 <= u < |s.exu| :: IssueReady(c, s).exu[u].busy
  {
    var units, entries, k := FreeUnits(s.exu), ReadyEntries(s.exb), NbIssue(s);
    if k != 0 {
      assert IssueReady(c, s).exu[units[k - 1]].busy;
    } else if forall u | 0 <= u < |s.exu| :: !s.exu[u].busy {
      assert UnitFree(s.exu[0]);
      assert 0 in units;
      assert entries == [];
      WaitingEnds(c, s, tr, i);
    }
  }
}
