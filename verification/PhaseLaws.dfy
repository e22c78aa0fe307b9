/**
 * What each phase of sw/src/engine.c does to every unit, lane, slot and entry, in terms of their
 * fields before and after alone.
 */
module PhaseLaws {
  import opened Base
  import opened InOrder
  import opened ReorderBuffer
  import opened RegisterFile
  import opened Machine

  // ---------------------------------------------------------------------------
  // Counting
  // ---------------------------------------------------------------------------

  predicate Over(u: Unit) { u.busy && u.cycleLeft == 0 }

  predicate Vacant(u: Unit) { !u.busy }

  predicate HasBoth(e: ExbEntry) { e.busy && e.rj && e.rk }

  /** How many of the first `n` satisfy `p`. */
  function Count<T>(s: seq<T>, p: T -> bool, n: nat): (k: nat)
    requires n <= |s|
    ensures k <= n
  {
    if n == 0 then 0 else Count(s, p, n - 1) + if p(s[n - 1]) then 1 else 0
  }

  lemma {:induction false} CountGrows<T>(s: seq<T>, p: T -> bool, m: nat, n: nat)
    requires m <= n <= |s|
    ensures Count(s, p, m) <= Count(s, p, n)
    decreases n
  {
    if m < n {
      CountGrows(s, p, m, n - 1);
    }
  }

  /** In the list of indices each comes after as many as there are before it. */
  lemma {:induction false} Rank<T>(s: seq<T>, p: T -> bool, n: nat, u: nat)
    requires n <= |s|
    ensures |Indices(s, p, n)| == Count(s, p, n)
    ensures u < n && p(s[u]) ==> Count(s, p, u) < Count(s, p, n) && Indices(s, p, n)[Count(s, p, u)] == u
  {
    if n != 0 {
      Rank(s, p, n - 1, u);
    }
  }

  lemma {:induction false} SameIndices<T>(s: seq<T>, p: T -> bool, q: T -> bool, n: nat)
    requires n <= |s| && forall i | 0 <= i < n :: p(s[i]) == q(s[i])
    ensures Indices(s, p, n) == Indices(s, q, n)
  {
    if n != 0 {
      SameIndices(s, p, q, n - 1);
    }
  }

  lemma DoneRank(exu: seq<Unit>, u: nat)
    ensures |DoneUnits(exu)| == Count(exu, Over, |exu|)
    ensures u < |exu| && Over(exu[u]) ==>
              Count(exu, Over, u) < |DoneUnits(exu)| && DoneUnits(exu)[Count(exu, Over, u)] == u
  {
    SameIndices(exu, UnitDone, Over, |exu|);
    Rank(exu, Over, |exu|, u);
  }

  lemma FreeRank(exu: seq<Unit>, u: nat)
    ensures |FreeUnits(exu)| == Count(exu, Vacant, |exu|)
    ensures u < |exu| && Vacant(exu[u]) ==>
              Count(exu, Vacant, u) < |FreeUnits(exu)| && FreeUnits(exu)[Count(exu, Vacant, u)] == u
  {
    SameIndices(exu, UnitFree, Vacant, |exu|);
    Rank(exu, Vacant, |exu|, u);
  }

  lemma ReadyRank(exb: seq<ExbEntry>, i: nat)
    ensures |ReadyEntries(exb)| == Count(exb, HasBoth, |exb|)
    ensures i < |exb| && HasBoth(exb[i]) ==>
              Count(exb, HasBoth, i) < |ReadyEntries(exb)| && ReadyEntries(exb)[Count(exb, HasBoth, i)] == i
  {
    SameIndices(exb, EntryReady, HasBoth, |exb|);
    Rank(exb, HasBoth, |exb|, i);
  }

  // ---------------------------------------------------------------------------
  // Write-back: units and lanes
  // ---------------------------------------------------------------------------

  /** The `k`-th of the units moved fills the `k`-th lane. */
  lemma {:induction false} Moves(s: State, done: seq<nat>, k: nat)
    requires k <= |done| && k <= |s.cdb|
    requires forall j | 0 <= j < |done| :: done[j] < |s.exu|
    requires forall i, j | 0 <= i < j < |done| :: done[i] < done[j]
    ensures var t := MoveResults(s, done, k);
      && (forall j | 0 <= j < k :: t.exu[done[j]] == s.exu[done[j]].(busy := false))
      && (forall u: nat | u < |s.exu| && u !in done[..k] :: t.exu[u] == s.exu[u])
      && (forall l | 0 <= l < |s.cdb| ::
            t.cdb[l] == if l < k then Lane(s.exu[done[l]].qr, s.exu[done[l]].result, true) else s.cdb[l])
  {
    if k != 0 {
      Moves(s, done, k - 1);
      assert done[..k] == done[..k - 1] + [done[k - 1]];
    }
  }

  /** A finished unit is freed exactly when fewer finished units come before it than there are lanes. */
  ghost predicate UnitMoves(s: State, t: State, u: nat)
    requires u < |s.exu| == |t.exu| && |s.cdb| == |t.cdb|
  {
    var k := Count(s.exu, Over, u);
    if s.exu[u].busy && s.exu[u].cycleLeft == 0 && k < |s.cdb| then
      && t.exu[u] == s.exu[u].(busy := false)
      && t.cdb[k] == Lane(s.exu[u].qr, s.exu[u].result, true)
    else
      t.exu[u] == s.exu[u]
  }

  /**
   * In order of index finished units fill the lanes, one each, for as long as there are lanes; the
   * others wait, and no lane keeps what it had.
   */
  lemma WriteBackMoves(fix: Repairs, s: State)
    ensures LanesSuffice(fix, s) <==> fix.capLanes || Count(s.exu, Over, |s.exu|) <= |s.cdb|
    ensures LanesSuffice(fix, s) ==>
              var t := WriteBack(fix, s);
              && |t.exu| == |s.exu| && |t.cdb| == |s.cdb|
              && (forall u: nat | u < |s.exu| :: UnitMoves(s, t, u))
              && (forall l | 0 <= l < |s.cdb| :: t.cdb[l].valid == (l < Count(s.exu, Over, |s.exu|)))
  {
    hide Indices, DrainLanes, MoveResults, Lookup;
    DoneRank(s.exu, 0);
    if LanesSuffice(fix, s) {
      var d, done, k := DrainLanes(s, |s.cdb|), DoneUnits(s.exu), NbMoves(fix, s);
      Moves(d, done, k);
      var t := WriteBack(fix, s);
      forall u: nat | u < |s.exu| ensures UnitMoves(s, t, u) {
        MovesOne(fix, s, u);
      }
    }
  }

  lemma MovesOne(fix: Repairs, s: State, u: nat)
    requires LanesSuffice(fix, s) && u < |s.exu|
    ensures var t := WriteBack(fix, s); |t.exu| == |s.exu| && |t.cdb| == |s.cdb| && UnitMoves(s, t, u)
  {
    hide Indices, DrainLanes, MoveResults, Lookup;
    DoneRank(s.exu, u);
    var d, done, k := DrainLanes(s, |s.cdb|), DoneUnits(s.exu), NbMoves(fix, s);
    Moves(d, done, k);
    var r := Count(s.exu, Over, u);
    if Over(s.exu[u]) {
      assert done[r] == u;
      if r < k {
        assert d.exu == s.exu;
      } else {
        assert u !in done[..k];
      }
    } else {
      assert u !in done[..k];
    }
  }

  /** No unit waits next to a lane, and none is passed over by one of higher index. */
  lemma WriteBackWastesNoLane(fix: Repairs, s: State, u: nat, v: nat)
    requires LanesSuffice(fix, s) && u < |s.exu| && v < |s.exu|
    requires s.exu[u].busy && s.exu[u].cycleLeft == 0
    ensures var t := WriteBack(fix, s);
      && |t.exu| == |s.exu|
      && (t.exu[u].busy ==> forall l | 0 <= l < |t.cdb| :: t.cdb[l].valid)
      && (u < v && s.exu[v].busy && s.exu[v].cycleLeft == 0 && !t.exu[v].busy ==> !t.exu[u].busy)
  {
    hide WriteBack, LanesSuffice;
    WriteBackMoves(fix, s);
    CountGrows(s.exu, Over, u + 1, |s.exu|);
    assert UnitMoves(s, WriteBack(fix, s), u) && UnitMoves(s, WriteBack(fix, s), v);
    if u < v {
      CountGrows(s.exu, Over, u, v);
    }
  }

  // ---------------------------------------------------------------------------
  // Write-back: ring and operands
  // ---------------------------------------------------------------------------

  /** Lane `l` is the last valid one with the tag `q`. */
  predicate LastWith(cdb: seq<Lane>, q: nat, l: nat) {
    l < |cdb| && cdb[l].valid && cdb[l].qr == q && forall m | l < m < |cdb| && cdb[m].valid :: cdb[m].qr != q
  }

  /** And the first. */
  predicate FirstWith(cdb: seq<Lane>, q: nat, l: nat) {
    l < |cdb| && cdb[l].valid && cdb[l].qr == q && forall m | 0 <= m < l && cdb[m].valid :: cdb[m].qr != q
  }

  predicate NoLaneWith(cdb: seq<Lane>, q: nat) { forall m | 0 <= m < |cdb| && cdb[m].valid :: cdb[m].qr != q }

  lemma {:induction false} DrainsLast(s: State, k: nat, t: nat, l: nat)
    requires k <= |s.cdb| && t < |s.rob.data|
    ensures var e := DrainLanes(s, k).rob.data[t];
      && e.dest == s.rob.data[t].dest
      && (l < k && LastWith(s.cdb[..k], t, l) ==> e.done && e.data == s.cdb[l].result)
      && ((forall m | 0 <= m < k && s.cdb[m].valid :: s.cdb[m].qr != t) ==> e == s.rob.data[t])
  {
    if k != 0 {
      DrainsLast(s, k - 1, t, l);
      assert l < k - 1 && LastWith(s.cdb[..k], t, l) ==>
          LastWith(s.cdb[..k - 1], t, l) && !(s.cdb[..k][k - 1].valid && s.cdb[..k][k - 1].qr == t);
    }
  }

  /** A slot of the ring gets the last result there is for it, and keeps what it has if there is none. */
  lemma WriteBackStores(fix: Repairs, s: State, t: nat, l: nat)
    requires LanesSuffice(fix, s) && t < |s.rob.data|
    ensures var r := WriteBack(fix, s);
      && r.reg == s.reg && r.rob == s.rob.(data := r.rob.data) && |r.rob.data| == |s.rob.data|
      && r.rob.data[t].dest == s.rob.data[t].dest
      && (LastWith(s.cdb, t, l) ==> r.rob.data[t].done && r.rob.data[t].data == s.cdb[l].result)
      && ((forall m | 0 <= m < |s.cdb| && s.cdb[m].valid :: s.cdb[m].qr != t) ==> r.rob.data[t] == s.rob.data[t])
  {
    hide DrainLanes, MoveResults, Lookup, Indices;
    DrainsLast(s, |s.cdb|, t, l);
    assert s.cdb[..|s.cdb|] == s.cdb;
  }

  lemma {:induction false} LookupFirst(cdb: seq<Lane>, q: nat, l: nat, j: nat)
    requires l <= |cdb| && forall m | 0 <= m < l && cdb[m].valid :: cdb[m].qr != q
    ensures FirstWith(cdb, q, j) ==> Lookup(cdb, q, l) == Some(cdb[j].result)
    ensures NoLaneWith(cdb, q) ==> Lookup(cdb, q, l) == None
    decreases |cdb| - l
  {
    if l < |cdb| && !(cdb[l].valid && cdb[l].qr == q) {
      LookupFirst(cdb, q, l + 1, j);
    }
  }

  /** An operand that waits takes the first result with its tag, here lane `l`'s; any other stays as it is. */
  predicate Served(cdb: seq<Lane>, l: nat, q: nat, ready: bool, v: int32, ready': bool, v': int32) {
    && (ready || NoLaneWith(cdb, q) ==> ready' == ready && v' == v)
    && (!ready && FirstWith(cdb, q, l) ==> ready' && v' == cdb[l].result)
  }

  lemma WriteBackForwards(fix: Repairs, s: State, i: nat, l: nat)
    requires LanesSuffice(fix, s) && i < |s.exb|
    ensures |WriteBack(fix, s).exb| == |s.exb|
    ensures var t, e := WriteBack(fix, s), s.exb[i];
            var e' := t.exb[i];
      && e' == e.(vj := e'.vj, rj := e'.rj, vk := e'.vk, rk := e'.rk)
      && (!e.busy ==> e' == e)
      && (e.busy ==>
            && Served(t.cdb, l, e.qj, e.rj, e.vj, e'.rj, e'.vj)
            && Served(t.cdb, l, e.qk, e.rk, e.vk, e'.rk, e'.vk))
  {
    hide DrainLanes, MoveResults, Indices, FirstWith;
    LookupFirst(WriteBack(fix, s).cdb, s.exb[i].qj, 0, l);
    LookupFirst(WriteBack(fix, s).cdb, s.exb[i].qk, 0, l);
  }

  // ---------------------------------------------------------------------------
  // Execute
  // ---------------------------------------------------------------------------

  lemma ExecuteTicks(s: State, u: nat)
    requires u < |s.exu|
    ensures Execute(s) == s.(exu := Execute(s).exu) && |Execute(s).exu| == |s.exu|
    ensures var e, e' := s.exu[u], Execute(s).exu[u];
      && e'.busy == e.busy && e'.qr == e.qr && e'.result == e.result
      && (if e.busy && e.cycleLeft != 0 then e'.cycleLeft + 1 == e.cycleLeft else e'.cycleLeft == e.cycleLeft)
  {
  }

  // ---------------------------------------------------------------------------
  // Issue
  // ---------------------------------------------------------------------------

  /** Entry `i` has left the buffer for unit `u`, which starts on it. */
  predicate Issued(c: Config, s: State, t: State, i: nat, u: nat)
    requires i < |s.exb| == |t.exb| && u < |s.exu| == |t.exu|
  {
    var e := s.exb[i];
    t.exb[i] == e.(busy := false) && t.exu[u] == Unit(c.alu(e.f10, e.vj, e.vk), e.qr, c.cycles(e.f10), true)
  }

  lemma {:induction false} IssueKeepsEntry(c: Config, s: State, units: seq<nat>, entries: seq<nat>, k: nat, i: nat)
    requires k <= |units| && k <= |entries| && i < |s.exb| && i !in entries[..k]
    requires forall j | 0 <= j < |units| :: units[j] < |s.exu|
    requires forall j | 0 <= j < |entries| :: entries[j] < |s.exb|
    ensures IssueMany(c, s, units, entries, k).exb[i] == s.exb[i]
  {
    if k != 0 {
      assert entries[..k][k - 1] == entries[k - 1];
      IssueKeepsEntry(c, s, units, entries, k - 1, i);
    }
  }

  lemma {:induction false} IssueKeepsUnit(c: Config, s: State, units: seq<nat>, entries: seq<nat>, k: nat, u: nat)
    requires k <= |units| && k <= |entries| && u < |s.exu| && u !in units[..k]
    requires forall j | 0 <= j < |units| :: units[j] < |s.exu|
    requires forall j | 0 <= j < |entries| :: entries[j] < |s.exb|
    ensures IssueMany(c, s, units, entries, k).exu[u] == s.exu[u]
  {
    if k != 0 {
      assert units[..k][k - 1] == units[k - 1];
      IssueKeepsUnit(c, s, units, entries, k - 1, u);
    }
  }

  /** The `j`-th entry goes to the `j`-th unit. */
  lemma {:induction false} IssuesAt(c: Config, s: State, units: seq<nat>, entries: seq<nat>, k: nat, j: nat)
    requires j < k <= |units| && k <= |entries|
    requires forall j | 0 <= j < |units| :: units[j] < |s.exu|
    requires forall j | 0 <= j < |entries| :: entries[j] < |s.exb|
    requires forall i, j | 0 <= i < j < |units| :: units[i] < units[j]
    requires forall i, j | 0 <= i < j < |entries| :: entries[i] < entries[j]
    ensures Issued(c, s, IssueMany(c, s, units, entries, k), entries[j], units[j])
  {
    if j < k - 1 {
      IssuesAt(c, s, units, entries, k - 1, j);
    } else {
      IssueKeepsEntry(c, s, units, entries, k - 1, entries[j]);
      IssueKeepsUnit(c, s, units, entries, k - 1, units[j]);
    }
  }

  /** The ready entry issues exactly when fewer ready entries come before it than there are free units. */
  ghost predicate EntryIssues(c: Config, s: State, t: State, i: nat)
    requires i < |s.exb| == |t.exb| && |s.exu| == |t.exu|
  {
    var k := Count(s.exb, HasBoth, i);
    if HasBoth(s.exb[i]) && k < Count(s.exu, Vacant, |s.exu|) then
      exists u: nat :: u < |s.exu| && !s.exu[u].busy && Count(s.exu, Vacant, u) == k && Issued(c, s, t, i, u)
    else
      t.exb[i] == s.exb[i]
  }

  /** And a unit is taken exactly when fewer free ones come before it than there are ready entries. */
  ghost predicate UnitTaken(s: State, t: State, u: nat)
    requires u < |s.exu| == |t.exu|
  {
    if !s.exu[u].busy && Count(s.exu, Vacant, u) < Count(s.exb, HasBoth, |s.exb|) then t.exu[u].busy
    else t.exu[u] == s.exu[u]
  }

  lemma FreeAt(exu: seq<Unit>, r: nat)
    requires r < |FreeUnits(exu)|
    ensures var u := FreeUnits(exu)[r]; u < |exu| && !exu[u].busy && Count(exu, Vacant, u) == r
  {
    hide Indices;
    var u := FreeUnits(exu)[r];
    FreeRank(exu, u);
    assert Vacant(exu[u]);
  }

  lemma IssuesOne(c: Config, s: State, i: nat)
    requires i < |s.exb|
    ensures var t := IssueReady(c, s); |t.exb| == |s.exb| && |t.exu| == |s.exu| && EntryIssues(c, s, t, i)
    ensures HasBoth(s.exb[i]) ==>
              IssueReady(c, s).exb[i].busy == (Count(s.exu, Vacant, |s.exu|) <= Count(s.exb, HasBoth, i))
  {
    hide Indices, IssueMany;
    var units, entries, k := FreeUnits(s.exu), ReadyEntries(s.exb), NbIssue(s);
    FreeRank(s.exu, 0);
    ReadyRank(s.exb, i);
    var r := Count(s.exb, HasBoth, i);
    if HasBoth(s.exb[i]) && r < k {
      IssuesAt(c, s, units, entries, k, r);
      FreeAt(s.exu, r);
    } else {
      IssueKeepsEntry(c, s, units, entries, k, i);
    }
  }

  lemma TakesOne(c: Config, s: State, u: nat)
    requires u < |s.exu|
    ensures |IssueReady(c, s).exu| == |s.exu| && UnitTaken(s, IssueReady(c, s), u)
  {
    hide Indices, IssueMany;
    var units, entries, k := FreeUnits(s.exu), ReadyEntries(s.exb), NbIssue(s);
    FreeRank(s.exu, u);
    ReadyRank(s.exb, 0);
    var r := Count(s.exu, Vacant, u);
    if Vacant(s.exu[u]) && r < k {
      IssuesAt(c, s, units, entries, k, r);
    } else {
      IssueKeepsUnit(c, s, units, entries, k, u);
    }
  }

  /** Ready entries and free units, in order of index, are paired for as long as there are both. */
  lemma IssuePairs(c: Config, s: State)
    ensures var t := IssueReady(c, s);
      && |t.exb| == |s.exb| && |t.exu| == |s.exu| && t == s.(exb := t.exb, exu := t.exu)
      && (forall i: nat | i < |s.exb| :: EntryIssues(c, s, t, i))
      && (forall u: nat | u < |s.exu| :: UnitTaken(s, t, u))
  {
    hide Indices, IssueMany, EntryIssues, UnitTaken;
    forall i: nat | i < |s.exb| ensures EntryIssues(c, s, IssueReady(c, s), i) {
      IssuesOne(c, s, i);
    }
    forall u: nat | u < |s.exu| ensures UnitTaken(s, IssueReady(c, s), u) {
      TakesOne(c, s, u);
    }
  }

  /** No ready entry waits next to a free unit, and none is passed over by one of higher index. */
  lemma IssueWastesNoUnit(c: Config, s: State, i: nat, j: nat)
    requires i < |s.exb| && j < |s.exb| && HasBoth(s.exb[i])
    ensures var t := IssueReady(c, s);
      && |t.exb| == |s.exb| && |t.exu| == |s.exu|
      && (t.exb[i].busy ==> forall u | 0 <= u < |t.exu| :: t.exu[u].busy)
      && (i < j && HasBoth(s.exb[j]) && !t.exb[j].busy ==> !t.exb[i].busy)
  {
    hide IssueReady, EntryIssues;
    var t := IssueReady(c, s);
    IssuesOne(c, s, i);
    IssuesOne(c, s, j);
    if i < j {
      CountGrows(s.exb, HasBoth, i, j);
    }
    CountGrows(s.exb, HasBoth, i + 1, |s.exb|);
    forall u: nat | u < |t.exu| && t.exb[i].busy ensures t.exu[u].busy {
      TakesOne(c, s, u);
      CountGrows(s.exu, Vacant, u + 1, |s.exu|);
    }
  }

  // ---------------------------------------------------------------------------
  // Commit and dispatch
  // ---------------------------------------------------------------------------

  predicate WaitsJ(e: ExbEntry, tag: nat) { e.busy && !e.rj && e.qj == tag }

  predicate WaitsK(e: ExbEntry, tag: nat) { e.busy && !e.rk && e.qk == tag }

  ghost predicate NoneWaits(exb: seq<ExbEntry>, tag: nat, k: nat)
    requires k <= |exb|
  {
    forall j | 0 <= j < k :: !WaitsJ(exb[j], tag) && !WaitsK(exb[j], tag)
  }

  lemma {:induction false} ServesFrom(exb: seq<ExbEntry>, tag: nat, value: int32, i: nat, k: nat)
    requires i <= |exb| && k < |exb| && NoneWaits(exb, tag, i)
    ensures CommitForward(exb, tag, value, i)[k] ==
            if !NoneWaits(exb, tag, k) then exb[k]
            else if WaitsJ(exb[k], tag) then exb[k].(vj := value, rj := true)
            else if WaitsK(exb[k], tag) then exb[k].(vk := value, rk := true)
            else exb[k]
    decreases |exb| - i
  {
    if i == |exb| {
      assert !WaitsJ(exb[k], tag) && !WaitsK(exb[k], tag);
    } else if !WaitsJ(exb[i], tag) && !WaitsK(exb[i], tag) {
      ServesFrom(exb, tag, value, i + 1, k);
    } else if k < i {
      assert !WaitsJ(exb[k], tag) && !WaitsK(exb[k], tag);
    }
  }

  /** A committed value goes to the first operand that waits for it, J before K, and nowhere else. */
  lemma CommitServesFirst(fix: Repairs, s: State, k: nat)
    requires RingOk(s.rob) && RegsOk(s.reg, NREGS) && |s.rob.data| <= 256 && HeadDone(s.rob) && k < |s.exb|
    ensures var e, tag, v, t := s.exb[k], s.rob.commitPtr, s.rob.data[s.rob.commitPtr].data, Commit(fix, s);
      && t == s.(rob := t.rob, reg := t.reg, exb := t.exb) && |t.exb| == |s.exb|
      && t.exb[k] == if !NoneWaits(s.exb, tag, k) then e
                     else if WaitsJ(e, tag) then e.(vj := v, rj := true)
                     else if WaitsK(e, tag) then e.(vk := v, rk := true)
                     else e
  {
    ServesFrom(s.exb, s.rob.commitPtr, s.rob.data[s.rob.commitPtr].data, 0, k);
  }

  /** An accepted instruction takes the free entry of lowest index, and touches no other. */
  lemma DispatchPlaces(fix: Repairs, s: State, i: Instr, junk: int32, k: nat)
    requires RingOk(s.rob) && RegsOk(s.reg, NREGS) && s.rob.cnt < |s.rob.data| <= 256 && k < |s.exb|
    ensures var t := Dispatch(fix, s, Some(i), junk);
      && t == s.(rob := t.rob, reg := t.reg, exb := t.exb) && |t.exb| == |s.exb| && t.reg.x == s.reg.x
      && (s.exb[k].busy || (exists j | 0 <= j < k :: !s.exb[j].busy) ==> t.exb[k] == s.exb[k])
      && (!s.exb[k].busy && (forall j | 0 <= j < k :: s.exb[j].busy) ==>
            t.exb[k].busy && t.exb[k].qr == s.rob.issuePtr && t.exb[k].f10 == i.f10)
      && (forall r | 0 <= r < NREGS ::
            if r == i.rd && r != 0 then t.reg.d[r] && t.reg.s[r] == s.rob.issuePtr
            else t.reg.d[r] == s.reg.d[r] && t.reg.s[r] == s.reg.s[r])
  {
    hide ReadOperand;
    var f := FirstFree(s.exb, 0);
    assert f < |s.exb| ==> !s.exb[f].busy;
  }

  /**
   * An operand as read from register `r`: the register when it is clean, else the first lane with its
   * tag, here lane `l`, else the ring, ready or not.
   */
  predicate Reads(s: State, r: RegNo, l: nat, ready: bool, v: int32, q: nat)
    requires RegsOk(s.reg, NREGS)
  {
    && q == s.reg.s[r]
    && (!s.reg.d[r] ==> ready && v == s.reg.x[r])
    && (s.reg.d[r] && FirstWith(s.cdb, q, l) ==> ready && v == s.cdb[l].result)
    && (s.reg.d[r] && NoLaneWith(s.cdb, q) && q < |s.rob.data| ==>
          ready == s.rob.data[q].done && v == s.rob.data[q].data)
  }

  lemma OperandReads(s: State, r: RegNo, junk: int32, l: nat)
    requires RegsOk(s.reg, NREGS)
    ensures var o := ReadOperand(s, r, junk); Reads(s, r, l, o.ready, o.v, o.q)
    ensures FromRob(s, r) <==> s.reg.d[r] && NoLaneWith(s.cdb, s.reg.s[r])
  {
    LookupFirst(s.cdb, s.reg.s[r], 0, l);
  }

  /**
   * The operands of a new entry. As written, a K in the ring takes the place of J's value and leaves
   * its own unset.
   */
  lemma EntryReads(fix: Repairs, s: State, i: Instr, qr: nat, junk: int32, l: nat)
    requires RegsOk(s.reg, NREGS)
    ensures var e := NewEntry(fix, s, i, qr, junk);
      match i.src2
      case Imm(v) => Reads(s, i.rs1, l, e.rj, e.vj, e.qj) && e.rk && e.vk == v
      case Reg(r) =>
        if fix.kToVk || !s.reg.d[r] || !NoLaneWith(s.cdb, s.reg.s[r]) then
          Reads(s, i.rs1, l, e.rj, e.vj, e.qj) && Reads(s, r, l, e.rk, e.vk, e.qk)
        else
          && (exists v :: Reads(s, i.rs1, l, e.rj, v, e.qj))
          && Reads(s, r, l, e.rk, e.vj, e.qk) && e.vk == junk
  {
    hide ReadOperand, Reads;
    OperandReads(s, i.rs1, junk, l);
    match i.src2
    case Imm(v) =>
    case Reg(r) =>
      OperandReads(s, r, junk, l);
      OperandReads(s, r, ReadOperand(s, i.rs1, junk).v, l);
  }

  /** They are read once the slot is open and before the register is renamed. */
  lemma DispatchReads(fix: Repairs, s: State, i: Instr, junk: int32, k: nat)
    requires RingOk(s.rob) && RegsOk(s.reg, NREGS) && s.rob.cnt < |s.rob.data| <= 256
    requires k < |s.exb| && !s.exb[k].busy && forall j | 0 <= j < k :: s.exb[j].busy
    ensures var m := s.(rob := Issue(s.rob, i.rd));
            Dispatch(fix, s, Some(i), junk).exb[k] == NewEntry(fix, m, i, s.rob.issuePtr, junk)
  {
    hide NewEntry;
    assert FirstFree(s.exb, 0) == k;
  }
}
