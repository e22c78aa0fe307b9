/**
 * The engine in memory: arrays updated in place by the phases of sw/src/engine.c, each proved to
 * compute the corresponding function of `Machine`.
 */
module EngineUnit {
  import opened Base
  import opened InOrder
  import opened ReorderBuffer
  import opened RegisterFile
  import opened Machine
  import opened Invariant
  import opened DispatchProof
  import opened StallProof
  import opened Runs
  import opened Theorems
  import opened Cycles

  const PC_RANGE := 0x1_0000_0000

  /** Tags in use are those of slots. */
  predicate TagsIn(c: Config, s: State) {
    && |s.reg.s| == |s.reg.d|
    && (forall i | 0 <= i < |s.exb| && s.exb[i].busy :: s.exb[i].qr < c.robSize)
    && (forall u | 0 <= u < |s.exu| && s.exu[u].busy :: s.exu[u].qr < c.robSize)
    && (forall r | 0 <= r < |s.reg.d| && s.reg.d[r] :: s.reg.s[r] < c.robSize)
  }

  predicate LanesIn(c: Config, s: State) { forall l | 0 <= l < |s.cdb| && s.cdb[l].valid :: s.cdb[l].qr < c.robSize }

  lemma CommitTags(c: Config, fix: Repairs, s: State)
    requires Shape(c, s) && TagsIn(c, s)
    ensures TagsIn(c, Commit(fix, s)) && Commit(fix, s).cdb == s.cdb
  {
    if HeadDone(s.rob) {
      ForwardTags(s.exb, Tag(s.rob.commitPtr), s.rob.data[s.rob.commitPtr].data, 0);
    }
  }

  lemma {:induction false} MoveTags(c: Config, s: State, done: seq<nat>, k: nat)
    requires TagsIn(c, s) && LanesIn(c, s) && k <= |done| && k <= |s.cdb|
    requires forall j | 0 <= j < |done| :: done[j] < |s.exu| && s.exu[done[j]].busy
    requires forall i, j | 0 <= i < j < |done| :: done[i] < done[j]
    ensures TagsIn(c, MoveResults(s, done, k)) && LanesIn(c, MoveResults(s, done, k))
    ensures forall j | k <= j < |done| :: MoveResults(s, done, k).exu[done[j]] == s.exu[done[j]]
  {
    if k != 0 {
      MoveTags(c, s, done, k - 1);
    }
  }

  lemma WriteBackTags(c: Config, fix: Repairs, s: State)
    requires TagsIn(c, s) && LanesSuffice(fix, s)
    ensures TagsIn(c, WriteBack(fix, s)) && LanesIn(c, WriteBack(fix, s))
  {
    hide DrainLanes, MoveResults, Lookup, Indices;
    MoveTags(c, DrainLanes(s, |s.cdb|), DoneUnits(s.exu), NbMoves(fix, s));
  }

  lemma {:induction false} IssueTags(c: Config, s: State, units: seq<nat>, entries: seq<nat>, k: nat)
    requires TagsIn(c, s) && k <= |units| && k <= |entries|
    requires forall j | 0 <= j < |units| :: units[j] < |s.exu|
    requires forall j | 0 <= j < |entries| :: entries[j] < |s.exb| && s.exb[entries[j]].busy
    requires forall i, j | 0 <= i < j < |entries| :: entries[i] < entries[j]
    ensures TagsIn(c, IssueMany(c, s, units, entries, k))
    ensures forall j | k <= j < |entries| :: IssueMany(c, s, units, entries, k).exb[entries[j]] == s.exb[entries[j]]
  {
    if k != 0 {
      IssueTags(c, s, units, entries, k - 1);
    }
  }

  lemma BackendTags(c: Config, fix: Repairs, s: State)
    requires Shape(c, s) && TagsIn(c, s) && CycleDefined(fix, s)
    ensures TagsIn(c, BeforeDispatch(c, fix, s)) && LanesIn(c, BeforeDispatch(c, fix, s))
  {
    hide Commit, WriteBack, LanesSuffice, Indices, IssueMany;
    CommitTags(c, fix, s);
    var x := Execute(WriteBack(fix, Commit(fix, s)));
    WriteBackTags(c, fix, Commit(fix, s));
    IssueTags(c, x, FreeUnits(x.exu), ReadyEntries(x.exb), NbIssue(x));
  }

  lemma DispatchTags(c: Config, fix: Repairs, s: State, inst: Option<Instr>, junk: int32)
    requires Shape(c, s) && c.robSize <= 256 && TagsIn(c, s) && LanesIn(c, s)
    ensures TagsIn(c, Dispatch(fix, s, inst, junk)) && LanesIn(c, Dispatch(fix, s, inst, junk))
  {
    hide ReadOperand;
    if Accepts(s, inst) {
      NewEntryShape(fix, Opened(s, inst.value), inst.value, Tag(s.rob.issuePtr), junk);
    }
  }

  lemma CycleTags(c: Config, fix: Repairs, s: State, inst: Option<Instr>, junk: int32)
    requires Shape(c, s) && c.robSize <= 256 && TagsIn(c, s) && CycleDefined(fix, s)
    ensures TagsIn(c, Cycle(c, fix, s, inst, junk)) && LanesIn(c, Cycle(c, fix, s, inst, junk))
  {
    hide BeforeDispatch, Dispatch;
    BackendTags(c, fix, s);
    DispatchTags(c, fix, BeforeDispatch(c, fix, s), inst, junk);
  }

  /** The words at `pc` and after, as long as there is something for unset variables to hold. */
  function Stream(program: nat -> Option<Instr>, pc: nat, junks: seq<int32>): (ins: seq<Input>)
    ensures |ins| == |junks|
  {
    seq(|junks|, k requires 0 <= k < |junks| => Input(program(PcAt(pc, k)), junks[k]))
  }

  function PcAt(pc: nat, k: nat): nat { (pc + 4 * k) % PC_RANGE }

  lemma NextPc(pc: nat, k: nat)
    ensures (PcAt(pc, k) + 4) % PC_RANGE == PcAt(pc, k + 1)
    ensures pc < PC_RANGE ==> PcAt(pc, 0) == pc
  {
  }

  /** `v` is the state after the first `k` cycles of a run from `b`, whose lanes may be stray. */
  ghost predicate Along(c: Config, fix: Repairs, b: State, ins: seq<Input>, k: nat, v: State) {
    k <= |ins| && if k == 0 then v == b else Steps(c, fix, DrainLanes(b, |b.cdb|), ins[..k]) == Some(v)
  }

  lemma NextAlong(c: Config, fix: Repairs, b: State, x0: RegVals, ins: seq<Input>, k: nat, v: State)
    requires ConfigOk(c) && SoundBuild(c, fix) && Booted(c, b, x0) && LaneTagsOk(b)
    requires Along(c, fix, b, ins, k, v) && k < |ins|
    ensures Shape(c, v) && CycleDefined(fix, v)
    ensures Along(c, fix, b, ins, k + 1, Cycle(c, fix, v, ins[k].inst, ins[k].junk))
  {
    var s, x := DrainLanes(b, |b.cdb|), ins[k];
    StrayCycle(c, fix, b, x0, x);
    DrainedInitial(c, b, x0);
    hide Booted, Initial, Cycle, CycleDefined, Shape, LaneTagsOk, Steps, DrainLanes, ConfigOk;
    assert ins[..k + 1] == ins[..k] + [x];
    if k == 0 {
      assert ins[..1] == [x];
      OneStep(c, fix, s, x);
    } else {
      EnoughLanesSteps(c, fix, s, x0, ins[..k]);
      StepsAppend(c, fix, s, ins[..k], [x]);
      OneStep(c, fix, v, x);
    }
  }

  lemma AlongStarts(c: Config, fix: Repairs, b: State, ins: seq<Input>, v: State)
    requires Along(c, fix, b, ins, 0, v)
    ensures v == b
  {
  }

  lemma StrayCycle(c: Config, fix: Repairs, b: State, x0: RegVals, x: Input)
    requires Booted(c, b, x0) && LaneTagsOk(b)
    ensures var s := DrainLanes(b, |b.cdb|);
      && Shape(c, b) && Shape(c, s) && CycleDefined(fix, b) && CycleDefined(fix, s)
      && Cycle(c, fix, s, x.inst, x.junk) == Cycle(c, fix, b, x.inst, x.junk)
  {
    StrayLanesHarmless(c, fix, b, x0, x.inst, x.junk);
    hide CycleDefined, DrainLanes, Cycle, LaneTagsOk, Shape;
  }

  lemma NoneAlong(c: Config, fix: Repairs, b: State, ins: seq<Input>)
    ensures Along(c, fix, b, ins, 0, b)
  {
  }

  lemma OneStep(c: Config, fix: Repairs, s: State, x: Input)
    requires Shape(c, s) && CycleDefined(fix, s)
    ensures Steps(c, fix, s, [x]) == Some(Cycle(c, fix, s, x.inst, x.junk))
  {
    hide Cycle, CycleDefined, Shape;
  }

  /** Registers `x` and `cnt` open slots are what program order gives after the run `ins` from `s`. */
  ghost predicate InOrderAfter(c: Config, fix: Repairs, s: State, x0: RegVals, ins: seq<Input>, x: RegVals, cnt: nat) {
    && Initial(c, s, x0) && Clean(c, fix, s, ins)
    && var prog, k := Accepted(c, fix, s, ins), Commits(c, fix, s, ins);
    && |prog| == k + cnt && x == Seq(c.alu, x0, prog, k)
  }

  /** What a run from stray lanes ends with. */
  lemma EndOfRun(c: Config, fix: Repairs, b: State, x0: RegVals, ins: seq<Input>)
    requires ConfigOk(c) && SoundBuild(c, fix) && Booted(c, b, x0) && LaneTagsOk(b)
    ensures var s := DrainLanes(b, |b.cdb|);
      && Shape(c, s) && Steps(c, fix, s, ins).Some? && RegsOk(Steps(c, fix, s, ins).value.reg, NREGS)
      && var t := Steps(c, fix, s, ins).value;
      && InOrderAfter(c, fix, s, x0, ins, t.reg.x, t.rob.cnt)
  {
    var s := DrainLanes(b, |b.cdb|);
    StrayLanesHarmless(c, fix, b, x0, None, 0);
    hide Booted, Clean, Run, Accepted, Commits, Steps, Seq, SoundBuild, DrainLanes;
    assert Shape(c, s);
    hide Initial;
    SoundBuildRefines(c, fix, s, x0, ins);
    CleanSteps(c, fix, s, ins);
  }

  lemma EndAlong(c: Config, fix: Repairs, b: State, x0: RegVals, ins: seq<Input>, v: State)
    requires ConfigOk(c) && SoundBuild(c, fix) && Booted(c, b, x0) && LaneTagsOk(b)
    requires Along(c, fix, b, ins, |ins|, v)
    ensures |v.reg.x| == NREGS && InOrderAfter(c, fix, DrainLanes(b, |b.cdb|), x0, ins, v.reg.x, v.rob.cnt)
  {
    EndOfRun(c, fix, b, x0, ins);
    AlongEnds(c, fix, b, ins, v);
    hide InOrderAfter, ConfigOk, SoundBuild, Booted, LaneTagsOk, Shape, Along, Steps, DrainLanes;
  }

  lemma AlongEnds(c: Config, fix: Repairs, b: State, ins: seq<Input>, v: State)
    requires Along(c, fix, b, ins, |ins|, v) && Steps(c, fix, DrainLanes(b, |b.cdb|), ins).Some?
    ensures var t := Steps(c, fix, DrainLanes(b, |b.cdb|), ins).value; v.reg == t.reg && v.rob.cnt == t.rob.cnt
  {
    NoSteps(c, fix, DrainLanes(b, |b.cdb|));
    hide Steps, DrainLanes;
    assert ins[..|ins|] == ins;
  }

  class Engine {
    const cfg: Config
    const fix: Repairs
    /** What the program memory decodes to at each address; `None` is the all-zero word. */
    const program: nat -> Option<Instr>

    const rob: Rob
    const reg: RegFile
    const exb: array<ExbEntry>
    const exu: array<Unit>
    const cdb: array<Lane>

    var pc: nat
    var exbReady: seq<nat>
    var exuReady: seq<nat>
    var exuDone: seq<nat>

    function View(): State
      reads rob, rob.data, reg, reg.x, reg.s, reg.d, exb, exu, cdb
    {
      State(rob.State(), reg.State(), exb[..], exu[..], cdb[..])
    }

    ghost predicate Wired()
      reads this, rob, reg
    {
      && reg.Valid() && reg.size == NREGS
      && rob.data.Length == cfg.robSize
      && exb.Length == cfg.exbSize
      && exu.Length == cfg.nbUnits
      && cdb.Length == cfg.nbLanes
      && (reg as object) != rob && (reg as object) != this && (rob as object) != this
    }

    ghost predicate Ready()
      reads this, rob, rob.data, reg, reg.x, reg.s, reg.d, exb, exu, cdb
    {
      Wired() && Shape(cfg, View()) && cfg.robSize <= 256 && TagsIn(cfg, View())
    }

    /** `engine_init`. The lanes, like values and ring entries, hold what the allocator left in them. */
    constructor (cfg: Config, fix: Repairs, program: nat -> Option<Instr>)
      requires 0 < cfg.robSize <= 256
      ensures this.cfg == cfg && this.fix == fix && this.program == program && pc == 0
      ensures fresh(rob) && fresh(rob.data) && fresh(reg) && fresh(reg.x) && fresh(reg.s) && fresh(reg.d)
      ensures fresh(exb) && fresh(exu) && fresh(cdb)
      ensures Ready() && Booted(cfg, View(), reg.x[..])
    {
      this.cfg, this.fix, this.program := cfg, fix, program;
      rob := new Rob(cfg.robSize);
      reg := new RegFile(NREGS);
      exb := new ExbEntry[cfg.exbSize];
      exu := new Unit[cfg.nbUnits];
      cdb := new Lane[cfg.nbLanes];
      pc, exbReady, exuReady, exuDone := 0, [], [], [];
      new;
      ClearAll();
    }

    method ClearAll()
      modifies exb, exu
      ensures forall i | 0 <= i < exb.Length :: !exb[i].busy
      ensures forall u | 0 <= u < exu.Length :: !exu[u].busy
    {
      for i := 0 to exb.Length
        invariant forall k | 0 <= k < i :: !exb[k].busy
      {
        exb[i] := exb[i].(busy := false);
      }
      for i := 0 to exu.Length
        invariant forall k | 0 <= k < exb.Length :: !exb[k].busy
        invariant forall k | 0 <= k < i :: !exu[k].busy
      {
        exu[i] := exu[i].(busy := false);
      }
    }

    /** The operands still waiting for a committed result; the source stops at the first it serves. */
    method ForwardCommitted(tag: nat, value: int32)
      modifies exb
      ensures exb[..] == CommitForward(old(exb[..]), tag, value, 0)
    {
      for i := 0 to exb.Length
        invariant exb[..] == old(exb[..])
        invariant CommitForward(exb[..], tag, value, 0) == CommitForward(exb[..], tag, value, i)
      {
        if exb[i].busy {
          if !exb[i].rj {
            if exb[i].qj == tag {
              exb[i] := exb[i].(vj := value, rj := true);
              return;
            }
          }
          if !exb[i].rk {
            if exb[i].qk == tag {
              exb[i] := exb[i].(vk := value, rk := true);
              return;
            }
          }
        }
      }
    }

    method CommitPhase()
      requires Ready()
      modifies rob, reg.x, reg.d, exb
      ensures Wired() && View() == Commit(fix, old(View()))
    {
      var ok, tag, rd, value := rob.Commit();
      if ok {
        var _ := reg.WriteValue(fix.tagClear, rd, value, tag);
        ForwardCommitted(tag, value);
      }
    }

    method LookupLane(q: nat) returns (r: Option<int32>)
      ensures r == Lookup(cdb[..], q, 0)
    {
      for j := 0 to cdb.Length
        invariant Lookup(cdb[..], q, 0) == Lookup(cdb[..], q, j)
      {
        if cdb[j].valid && cdb[j].qr == q {
          return Some(cdb[j].result);
        }
      }
      return None;
    }

    /** Lanes to ring, then the lanes are reset; `inside` unless a write leaves the ring. */
    method StoreLanes() returns (inside: bool)
      requires Wired()
      modifies rob.data, cdb
      ensures Wired() && inside == TryDrain(old(View()), cfg.nbLanes).Some?
      ensures inside ==> View() == DrainLanes(old(View()), cfg.nbLanes)
    {
      ghost var s := View();
      for i := 0 to cdb.Length
        invariant Wired() && View() == s.(rob := DrainLanes(s, i).rob)
        invariant forall l | 0 <= l < i && s.cdb[l].valid :: s.cdb[l].qr != cfg.robSize
      {
        if cdb[i].valid {
          var a := rob.WriteResult(cdb[i].qr, cdb[i].result);
          if a.Outside? {
            TryDrainExact(s, cdb.Length);
            return false;
          }
        }
      }
      TryDrainExact(s, cdb.Length);
      for i := 0 to cdb.Length
        invariant Wired() && View() == s.(rob := DrainLanes(s, cdb.Length).rob, cdb := cdb[..])
        invariant forall l | 0 <= l < cdb.Length ::
                    cdb[l] == if l < i then s.cdb[l].(valid := false) else s.cdb[l]
      {
        cdb[i] := cdb[i].(valid := false);
      }
      assert cdb[..] == DrainLanes(s, cdb.Length).cdb;
      inside := true;
    }

    method CollectDone()
      modifies this`exuDone
      ensures exuDone == DoneUnits(exu[..])
    {
      exuDone := [];
      for i := 0 to exu.Length
        invariant exuDone == Indices(exu[..], UnitDone, i)
      {
        if exu[i].busy && exu[i].cycleLeft == 0 {
          exuDone := exuDone + [i];
        }
      }
    }

    /** Finished units to lanes of the same index; `inside` unless they are more than the lanes. */
    method MoveDone(n: nat) returns (inside: bool)
      requires Wired() && n <= |exuDone|
      requires forall j | 0 <= j < |exuDone| :: exuDone[j] < exu.Length
      modifies exu, cdb
      ensures Wired() && inside == (n <= cdb.Length)
      ensures inside ==> View() == MoveResults(old(View()), exuDone, n)
    {
      ghost var s := View();
      for i := 0 to n
        invariant Wired() && i <= cdb.Length && View() == MoveResults(s, exuDone, i)
      {
        if i == cdb.Length {
          return false;
        }
        var u := exuDone[i];
        cdb[i] := Lane(exu[u].qr, exu[u].result, true);
        exu[u] := exu[u].(busy := false);
      }
      inside := true;
    }

    method ForwardLanes()
      requires Wired()
      modifies exb
      ensures Wired() && View() == ForwardAll(old(View()))
    {
      ghost var s := View();
      for i := 0 to exb.Length
        invariant Wired() && View() == s.(exb := exb[..])
        invariant forall k | 0 <= k < exb.Length :: exb[k] == if k < i then Forward(s.exb[k], s.cdb) else s.exb[k]
      {
        if exb[i].busy {
          if !exb[i].rj {
            var v := LookupLane(exb[i].qj);
            if v.Some? {
              exb[i] := exb[i].(vj := v.value, rj := true);
            }
          }
          if !exb[i].rk {
            var v := LookupLane(exb[i].qk);
            if v.Some? {
              exb[i] := exb[i].(vk := v.value, rk := true);
            }
          }
        }
      }
      assert exb[..] == ForwardAll(s).exb;
    }

    /** `inside` unless a lane's tag leaves the ring or the last loop leaves the lanes. */
    method WriteBackPhase() returns (inside: bool)
      requires Wired()
      modifies rob.data, cdb, exu, exb, this`exuDone
      ensures Wired() && inside == (TryDrain(old(View()), cfg.nbLanes).Some? && LanesSuffice(fix, old(View())))
      ensures inside ==> View() == WriteBack(fix, old(View()))
    {
      hide TryDrain;
      inside := StoreLanes();
      if inside {
        CollectDone();
        var nbActiveLanes := if |exuDone| > cdb.Length then cdb.Length else |exuDone|;
        inside := MoveDone(if fix.capLanes then nbActiveLanes else |exuDone|);
        if inside {
          ForwardLanes();
        }
      }
    }

    method ExecutePhase()
      requires Wired()
      modifies exu
      ensures Wired() && View() == Execute(old(View()))
    {
      ghost var s := View();
      for i := 0 to exu.Length
        invariant Wired() && View() == s.(exu := exu[..])
        invariant forall u | 0 <= u < exu.Length :: exu[u] == if u < i then Tick(s.exu[u]) else s.exu[u]
      {
        if exu[i].busy && exu[i].cycleLeft != 0 {
          exu[i] := exu[i].(cycleLeft := exu[i].cycleLeft - 1);
        }
      }
      assert exu[..] == Execute(s).exu;
    }

    method CollectReady()
      modifies this`exbReady, this`exuReady
      ensures exbReady == ReadyEntries(exb[..]) && exuReady == FreeUnits(exu[..])
    {
      exbReady := [];
      for i := 0 to exb.Length
        invariant exbReady == Indices(exb[..], EntryReady, i)
      {
        if exb[i].busy && exb[i].rj && exb[i].rk {
          exbReady := exbReady + [i];
        }
      }
      exuReady := [];
      for i := 0 to exu.Length
        invariant exbReady == ReadyEntries(exb[..])
        invariant exuReady == Indices(exu[..], UnitFree, i)
      {
        if !exu[i].busy {
          exuReady := exuReady + [i];
        }
      }
    }

    method IssuePhase() returns (nbIssue: nat)
      requires Wired()
      modifies exu, exb, this`exbReady, this`exuReady
      ensures Wired() && View() == IssueReady(cfg, old(View())) && nbIssue == NbIssue(old(View()))
    {
      CollectReady();
      nbIssue := if |exbReady| > |exuReady| then |exuReady| else |exbReady|;
      LoadUnits(nbIssue);
    }

    method LoadUnits(n: nat)
      requires Wired() && n <= |exuReady| && n <= |exbReady|
      requires forall j | 0 <= j < |exuReady| :: exuReady[j] < exu.Length
      requires forall j | 0 <= j < |exbReady| :: exbReady[j] < exb.Length
      modifies exu, exb
      ensures Wired() && View() == IssueMany(cfg, old(View()), exuReady, exbReady, n)
    {
      hide IssueOne;
      ghost var s := View();
      for i := 0 to n
        invariant Wired() && View() == IssueMany(cfg, s, exuReady, exbReady, i)
      {
        LoadUnit(exuReady[i], exbReady[i]);
      }
    }

    method LoadUnit(u: nat, e: nat)
      requires Wired() && u < exu.Length && e < exb.Length
      modifies exu, exb
      ensures Wired() && View() == IssueOne(cfg, old(View()), u, e)
    {
      exu[u] := exu[u].(result := cfg.alu(exb[e].f10, exb[e].vj, exb[e].vk),
                        cycleLeft := cfg.cycles(exb[e].f10), busy := true, qr := exb[e].qr);
      exb[e] := exb[e].(busy := false);
    }

    /** Register file, then lanes, then ring. */
    method FetchOperand(r: RegNo, junk: int32) returns (o: Operand)
      requires Ready()
      ensures o == ReadOperand(View(), r, junk)
    {
      var dirty, q := reg.ReadTag(r, 0);
      if !dirty {
        var _, v := reg.ReadValue(r, junk);
        return Operand(true, v, q);
      }
      var v := LookupLane(q);
      if v.Some? {
        return Operand(true, v.value, q);
      }
      var _, done, w := rob.ReadResult(q, junk);
      return Operand(done, w, q);
    }

    method Enter(e: ExbEntry)
      modifies exb
      ensures exb[..] == PlaceEntry(old(exb[..]), e)
    {
      for i := 0 to exb.Length
        invariant exb[..] == old(exb[..])
        invariant FirstFree(exb[..], 0) == FirstFree(exb[..], i)
      {
        if !exb[i].busy {
          exb[i] := e;
          return;
        }
      }
    }

    /** `junk` is what the operand variables hold before anything is assigned to them. */
    method DispatchPhase(inst: Option<Instr>, junk: int32) returns (accepted: bool)
      requires Ready()
      modifies rob, rob.data, reg.s, reg.d, exb
      ensures Wired() && View() == Dispatch(fix, old(View()), inst, junk)
      ensures accepted == Accepts(old(View()), inst)
    {
      hide NewEntry, FirstFree;
      if inst.None? {
        return false;
      }
      var full := rob.IsFull();
      if full {
        return false;
      }
      var i := inst.value;
      IssueAppends(rob.State(), i.rd);
      var _, qr := rob.IssueSlot(i.rd);
      var e := FetchEntry(i, qr, junk);
      var _ := reg.WriteTag(i.rd, qr);
      Enter(e);
      accepted := true;
    }

    method FetchEntry(i: Instr, qr: nat, junk: int32) returns (e: ExbEntry)
      requires Ready()
      ensures e == NewEntry(fix, View(), i, qr, junk)
    {
      var j := FetchOperand(i.rs1, junk);
      match i.src2
      case Imm(v) =>
        e := ExbEntry(i.f10, j.v, v, j.q, 0, qr, j.ready, true, false, true);
      case Reg(r) =>
        var dirty, q := reg.ReadTag(r, 0);
        var lane := LookupLane(q);
        var k := FetchOperand(r, if !fix.kToVk && dirty && lane.None? then j.v else junk);
        if !fix.kToVk && dirty && lane.None? {
          e := ExbEntry(i.f10, k.v, junk, j.q, k.q, qr, j.ready, k.ready, false, true);
        } else {
          e := ExbEntry(i.f10, j.v, k.v, j.q, k.q, qr, j.ready, k.ready, false, true);
        }
    }

    /** Commit, write-back, execute, issue. */
    method Backend() returns (inside: bool)
      requires Ready()
      modifies rob, rob.data, reg.x, reg.d, exb, exu, cdb, this`exbReady, this`exuReady, this`exuDone
      ensures Wired() && inside == (LaneTagsOk(old(View())) && CycleDefined(fix, old(View())))
      ensures inside ==> Ready() && View() == BeforeDispatch(cfg, fix, old(View()))
    {
      hide Commit, WriteBack, Execute, IssueReady, CommitForward, LanesSuffice, TagsIn, LaneTagsOk;
      ghost var s := View();
      inside := Retire();
      if inside {
        BackendTags(cfg, fix, s);
        PhasesKeepShape(cfg, fix, s);
        PhasesKeepShape(cfg, fix, Commit(fix, s));
        ExecutePhase();
        PhasesKeepShape(cfg, fix, WriteBack(fix, Commit(fix, s)));
        var _ := IssuePhase();
        PhasesKeepShape(cfg, fix, Execute(WriteBack(fix, Commit(fix, s))));
      }
    }

    /** Commit and write-back. */
    method Retire() returns (inside: bool)
      requires Ready()
      modifies rob, rob.data, reg.x, reg.d, exb, exu, cdb, this`exuDone
      ensures Wired() && inside == (LaneTagsOk(old(View())) && CycleDefined(fix, old(View())))
      ensures inside ==> View() == WriteBack(fix, Commit(fix, old(View())))
    {
      hide DrainLanes, MoveResults, ForwardAll, CommitForward, LanesSuffice, TryDrain;
      ghost var s := View();
      CommitPhase();
      TryDrainExact(View(), cfg.nbLanes);
      assert LaneTagsOk(View()) == LaneTagsOk(s);
      inside := WriteBackPhase();
    }

    /**
     * One call of `engine_run`: `inside` exactly when no lane's tag leaves the ring and the results
     * fit the lanes, and then the next state. A refused instruction is not fetched again.
     */
    method RunCycle(junk: int32) returns (inside: bool)
      requires Ready()
      modifies this, rob, rob.data, reg.x, reg.s, reg.d, exb, exu, cdb
      ensures Wired() && inside == (LaneTagsOk(old(View())) && CycleDefined(fix, old(View())))
      ensures inside ==>
                && Ready() && LaneTagsOk(View()) && pc == (old(pc) + 4) % 0x1_0000_0000
                && View() == Cycle(cfg, fix, old(View()), program(old(pc)), junk)
      ensures inside ==>
                forall tr | ConfigOk(cfg) && old(Inv(cfg, View(), tr)) &&
                            old(Allows(tr.claim, cfg, fix, View(), program(pc))) ::
                  Inv(cfg, View(), NextTrack(cfg, fix, old(View()), tr, program(old(pc))))
    {
      hide BeforeDispatch, Dispatch, NextTrack, InvAt, Allows, CycleDefined, TagsIn;
      ghost var s := View();
      var inst := program(pc);
      inside := Backend();
      if inside {
        var _ := DispatchPhase(inst, junk);
        DispatchKeepsShape(cfg, fix, BeforeDispatch(cfg, fix, s), inst, junk);
        CycleTags(cfg, fix, s, inst, junk);
        forall tr | ConfigOk(cfg) && Inv(cfg, s, tr) && Allows(tr.claim, cfg, fix, s, inst)
          ensures Inv(cfg, View(), NextTrack(cfg, fix, s, tr, inst))
        {
          CycleKeepsInv(cfg, fix, s, tr, Input(inst, junk));
        }
        pc := (pc + 4) % PC_RANGE;
      }
    }

    method RunNext(junk: int32, ghost b: State, ghost x0: RegVals, ghost ins: seq<Input>, ghost k: nat)
      returns (inside: bool)
      requires Ready() && ConfigOk(cfg) && SoundBuild(cfg, fix) && Booted(cfg, b, x0)
      requires Along(cfg, fix, b, ins, k, View()) && LaneTagsOk(View()) == LaneTagsOk(b)
      requires k < |ins| && ins[k] == Input(program(pc), junk)
      modifies this, rob, rob.data, reg.x, reg.s, reg.d, exb, exu, cdb
      ensures Wired() && inside == LaneTagsOk(b)
      ensures inside ==>
                && Ready() && LaneTagsOk(View()) && pc == (old(pc) + 4) % PC_RANGE
                && Along(cfg, fix, b, ins, k + 1, View())
    {
      hide Booted, Cycle, CycleDefined, Shape, TagsIn, SoundBuild, LaneTagsOk, InvAt, NextTrack, Allows, ConfigOk, Along;
      if LaneTagsOk(b) {
        NextAlong(cfg, fix, b, x0, ins, k, View());
      }
      inside := RunCycle(junk);
    }

    /**
     * A sound engine, from initialisation, on the program memory itself: it leaves its arrays exactly
     * when a lane starts with the one tag past the ring, and then in the first call. Otherwise its
     * registers are what the in-order machine holds after the committed part of what it accepted of
     * the words from `pc` on.
     */
    method RunProgram(junks: seq<int32>) returns (inside: bool)
      requires Ready() && ConfigOk(cfg) && SoundBuild(cfg, fix)
      requires Booted(cfg, View(), reg.x[..]) && pc < PC_RANGE
      modifies this, rob, rob.data, reg.x, reg.s, reg.d, exb, exu, cdb
      ensures inside == (junks == [] || LaneTagsOk(old(View())))
      ensures inside ==>
                && Ready() && pc == PcAt(old(pc), |junks|)
                && (junks == [] ==> View() == old(View()))
                && (LaneTagsOk(old(View())) ==>
                      InOrderAfter(cfg, fix, DrainLanes(old(View()), cfg.nbLanes), old(reg.x[..]),
                                   Stream(program, old(pc), junks), reg.x[..], rob.cnt))
    {
      hide Booted, Cycle, CycleDefined, Shape, TagsIn, SoundBuild, LaneTagsOk, InOrderAfter, DrainLanes, ConfigOk, Along,
           PcAt;
      ghost var b, x0, pc0 := View(), reg.x[..], pc;
      ghost var ins := Stream(program, pc0, junks);
      NoneAlong(cfg, fix, b, ins);
      NextPc(pc0, 0);
      inside := true;
      var i := 0;
      while i < |junks| && inside
        invariant i <= |junks| && Wired() && inside == (i == 0 || LaneTagsOk(b))
        invariant inside ==> Ready() && LaneTagsOk(View()) == LaneTagsOk(b) && pc == PcAt(pc0, i)
        invariant inside ==> Along(cfg, fix, b, ins, i, View())
      {
        NextPc(pc0, i);
        assert ins[i] == Input(program(pc), junks[i]);
        inside := RunNext(junks[i], b, x0, ins, i);
        i := i + 1;
      }
      if junks == [] {
        AlongStarts(cfg, fix, b, ins, View());
      }
      if LaneTagsOk(b) {
        EndAlong(cfg, fix, b, x0, ins, View());
      }
    }
  }
}
