/**
 * What each command of sw/ELE749_projet1-develop/src/debugger.c does to every node of the list and
 * every byte of memory, in terms of the bytes themselves.
 */
module BreakpointLaws {
  import opened WrappingMemory
  import opened Breakpoints

  /** The bytes of EBREAK, 0x00100073, and of C.EBREAK, 0x9002, in memory. */
  function Pattern(len: nat): (d: seq<byte>)
    requires len == 2 || len == 4
    ensures |d| == len
  {
    if len == 4 then [0x73, 0x00, 0x10, 0x00] else [0x02, 0x90]
  }

  /** Instructions whose first byte ends in 11 are 32 bits long, the others 16. */
  function LengthAt(mem: seq<byte>, addr: nat): (len: nat)
    requires addr < |mem|
    ensures len == 2 || len == 4
  {
    if mem[addr] % 4 == 3 then 4 else 2
  }

  /** The instruction at `addr`, lowest byte first, around the end of memory. */
  function InstructionAt(mem: seq<byte>, addr: nat): nat
    requires addr < |mem|
  {
    Word(Loaded(mem, addr, LengthAt(mem, addr)))
  }

  predicate NodeAt(list: seq<Node>, addr: nat, k: nat) {
    k < |list| && list[k].addr == addr && forall j | 0 <= j < k :: list[j].addr != addr
  }

  predicate NoneAt(list: seq<Node>, addr: nat) { forall k | 0 <= k < |list| :: list[k].addr != addr }

  lemma FoundAt(list: seq<Node>, addr: nat)
    ensures forall k: nat | NodeAt(list, addr, k) :: Find(list, addr, 0) == k
    ensures NoneAt(list, addr) <==> Find(list, addr, 0) == |list|
  {
  }

  lemma PatternBytes()
    ensures Bytes(BreakWord(4), 4) == Pattern(4) && Bytes(BreakWord(2), 2) == Pattern(2)
  {
    assert Bytes(0x10, 2) == [0x10] + Bytes(0, 1) == [0x10, 0x00];
    assert Bytes(0x1000, 3) == [0x00] + Bytes(0x10, 2);
    assert Bytes(EBREAK, 4) == [0x73] + Bytes(0x1000, 3);
    assert Bytes(C_EBREAK, 2) == [0x02] + Bytes(0x90, 1);
  }

  lemma NewNodeIs(mem: seq<byte>, addr: nat)
    requires |mem| == MEMSIZE && addr < MEMSIZE
    ensures NewNode(mem, addr) == Node(addr, InstructionAt(mem, addr), LengthAt(mem, addr), true)
  {
    var d, h := Loaded(mem, addr, 4), Loaded(mem, addr, 2);
    IndexOffset(addr, addr, 0);
    WordHalves(d);
    assert h == [d[0], d[1]] && h[1..] == [d[1]] && h[1..][1..] == [];
    assert Word(h) == d[0] + 256 * Word(h[1..]) && Word(h[1..]) == d[1] + 256 * Word([]);
  }

  // ---------------------------------------------------------------------------
  // break
  // ---------------------------------------------------------------------------

  /**
   * A break at an even address of the 16 MB without a node, and nowhere else unless the node there
   * has saved zero, appends an enabled node with the instruction and its length, and puts the break
   * instruction of that length in its place: four bytes for a 32-bit instruction, two otherwise.
   */
  lemma BreakAdds(s: Debug, addr: nat)
    requires |s.mem| == 0x100_0000
    ensures NoneAt(s.list, addr) ==> (BreakAt(s, addr) != s <==> addr <= 0xFF_FFFF && addr % 2 == 0)
    ensures BreakAt(s, addr) != s ==>
              var t := BreakAt(s, addr);
              && addr <= 0xFF_FFFE && addr % 2 == 0
              && t.list == s.list + [Node(addr, InstructionAt(s.mem, addr), LengthAt(s.mem, addr), true)]
              && |t.mem| == |s.mem|
              && forall c | 0 <= c < MEMSIZE ::
                   var len, o := LengthAt(s.mem, addr), Offset(addr, c);
                   0 <= o && t.mem[c] == if o < len then Pattern(len)[o] else s.mem[c]
    ensures forall k: nat | NodeAt(s.list, addr, k) && s.list[k].inst != 0 :: BreakAt(s, addr) == s
  {
    hide NewNode, Patch, Find, InstructionAt;
    FoundAt(s.list, addr);
    if Breaks(s, addr) {
      NewNodeIs(s.mem, addr);
      PatternBytes();
      var len := LengthAt(s.mem, addr);
      forall c | 0 <= c < MEMSIZE
        ensures Offset(addr, c) >= 0
        ensures BreakAt(s, addr).mem[c] == if Offset(addr, c) < len then Pattern(len)[Offset(addr, c)] else s.mem[c]
      {
        PatchCell(s.mem, addr, BreakWord(len), len, c);
      }
      assert |BreakAt(s, addr).list| == |s.list| + 1;
    }
  }

  // ---------------------------------------------------------------------------
  // enable, disable, delete
  // ---------------------------------------------------------------------------

  /**
   * The `k`-th node has its flag and keeps its place and the rest, and the bytes it covers are those
   * of the break when on and the original ones when off; nothing else has changed.
   */
  ghost predicate Switched(s: Debug, t: Debug, orig: seq<byte>, k: nat, on: bool)
    requires k < |s.list| && Saved(s.list[k], orig) && |s.mem| == |orig|
  {
    var n := s.list[k];
    && |t.list| == |s.list| && |t.mem| == |s.mem|
    && t.list[k] == Node(n.addr, n.inst, n.len, on)
    && (forall j | 0 <= j < |s.list| && j != k :: t.list[j] == s.list[j])
    && forall c | 0 <= c < |s.mem| ::
         t.mem[c] == if !Covers(n, c) then s.mem[c] else if on then PatternByte(n, c) else orig[c]
  }

  function PatternByte(node: Node, c: nat): byte
    requires Placed(node) && c < MEMSIZE && Covers(node, c)
  {
    Pattern(node.len)[Offset(node.addr, c)]
  }

  lemma PatternIsBreak(node: Node, c: nat)
    requires Placed(node) && c < MEMSIZE && Covers(node, c)
    ensures PatternByte(node, c) == BreakByte(node, c)
  {
    PatternBytes();
  }

  lemma DisableSwitches(s: Debug, orig: seq<byte>, addr: nat, k: nat)
    requires ListOk(s, orig) && NodeAt(s.list, addr, k) && (s.list[k].enabled || Overlaid(s, orig))
    ensures Switched(s, Exec(s, Disable(addr)), orig, k, false)
  {
    hide Apart, Untouched, Restore, CellOk, Find;
    FoundAt(s.list, addr);
    var t := Exec(s, Disable(addr));
    forall c | 0 <= c < |s.mem| ensures t.mem[c] == if Covers(s.list[k], c) then orig[c] else s.mem[c] {
      if s.list[k].enabled {
        RestoreCell(s.mem, s.list[k], orig, c);
      } else if Covers(s.list[k], c) {
        CoveredCell(s, orig, k, c);
      }
    }
  }

  lemma EnableSwitches(s: Debug, orig: seq<byte>, addr: nat, k: nat)
    requires ListOk(s, orig) && NodeAt(s.list, addr, k) && (!s.list[k].enabled || Overlaid(s, orig))
    ensures Switched(s, Exec(s, Enable(addr)), orig, k, true)
  {
    hide Apart, Untouched, Patch, CellOk, Find;
    FoundAt(s.list, addr);
    var t, n := Exec(s, Enable(addr)), s.list[k];
    assert Saved(n, orig);
    forall c | 0 <= c < |s.mem| ensures t.mem[c] == if Covers(n, c) then PatternByte(n, c) else s.mem[c] {
      if Covers(n, c) {
        PatternIsBreak(n, c);
      }
      if !n.enabled {
        PatchCell(s.mem, addr, BreakWord(n.len), n.len, c);
      } else if Covers(n, c) {
        CoveredCell(s, orig, k, c);
      }
    }
  }

  /** The first node at the address goes, the others stay in order, and its bytes are original again. */
  lemma DeleteRemoves(s: Debug, orig: seq<byte>, addr: nat, k: nat)
    requires ListOk(s, orig) && NodeAt(s.list, addr, k)
    ensures var t := Exec(s, Delete(addr));
      && |t.list| == |s.list| - 1
      && (forall j | 0 <= j < |t.list| :: t.list[j] == s.list[if j < k then j else j + 1])
      && forall c | 0 <= c < MEMSIZE :: t.mem[c] == if Covers(s.list[k], c) then orig[c] else s.mem[c]
  {
    hide Apart, Untouched, Restore, Find;
    FoundAt(s.list, addr);
    forall c | 0 <= c < MEMSIZE
      ensures Exec(s, Delete(addr)).mem[c] == if Covers(s.list[k], c) then orig[c] else s.mem[c]
    {
      RestoreCell(s.mem, s.list[k], orig, c);
    }
  }

  /** Without a node at the address these three do nothing. */
  lemma AbsentUnchanged(s: Debug, addr: nat)
    requires 0 < |s.mem| && NoneAt(s.list, addr)
    ensures Exec(s, Disable(addr)) == Exec(s, Enable(addr)) == Exec(s, Delete(addr)) == s
  {
    FoundAt(s.list, addr);
  }

  // ---------------------------------------------------------------------------
  // The lookup
  // ---------------------------------------------------------------------------

  /** The instruction that step and continue run in place of the break is the original one. */
  lemma LookupGivesOriginal(s: Debug, orig: seq<byte>, addr: nat)
    requires ListOk(s, orig)
    ensures NoneAt(s.list, addr) ==> GetInstruction(s.list, addr) == 0
    ensures !NoneAt(s.list, addr) ==>
              && addr < |orig| && GetInstruction(s.list, addr) == InstructionAt(orig, addr)
              && Bytes(GetInstruction(s.list, addr), LengthAt(orig, addr)) == Loaded(orig, addr, LengthAt(orig, addr))
  {
    hide Apart, Untouched, NewNode, Find, InstructionAt;
    FoundAt(s.list, addr);
    var k := Find(s.list, addr, 0);
    if k < |s.list| {
      assert Saved(s.list[k], orig);
      NewNodeIs(orig, addr);
      NewNodeSaves(orig, addr);
    }
  }

  // ---------------------------------------------------------------------------
  // Whole runs
  // ---------------------------------------------------------------------------

  /** The lookup after any commands from a fresh start, the bulk ones included. */
  lemma LookupOnRuns(orig: seq<byte>, cmds: seq<Cmd>, addr: nat)
    requires |orig| == MEMSIZE && Guarded(Debug(orig, []), cmds)
    ensures var list := ExecAll(Debug(orig, []), cmds).list;
      && (NoneAt(list, addr) ==> GetInstruction(list, addr) == 0)
      && (!NoneAt(list, addr) ==>
            && addr < |orig| && GetInstruction(list, addr) == InstructionAt(orig, addr)
            && Bytes(GetInstruction(list, addr), LengthAt(orig, addr)) == Loaded(orig, addr, LengthAt(orig, addr)))
  {
    RunKeepsList(Debug(orig, []), orig, cmds);
    hide ListOk, Guarded, ExecAll, GetInstruction, InstructionAt;
    LookupGivesOriginal(ExecAll(Debug(orig, []), cmds), orig, addr);
  }

  /** Disabling and enabling after any commands from a fresh start but the bulk ones. */
  lemma SwitchOnRuns(orig: seq<byte>, cmds: seq<Cmd>, addr: nat, k: nat)
    requires |orig| == MEMSIZE && Guarded(Debug(orig, []), cmds)
    requires forall j | 0 <= j < |cmds| :: !cmds[j].DisableAll? && !cmds[j].EnableAll?
    requires NodeAt(ExecAll(Debug(orig, []), cmds).list, addr, k)
    ensures var s := ExecAll(Debug(orig, []), cmds);
      && Saved(s.list[k], orig)
      && Switched(s, Exec(s, Disable(addr)), orig, k, false)
      && Switched(s, Exec(s, Enable(addr)), orig, k, true)
  {
    OverlayFromStart(orig, cmds);
    hide Guarded, ExecAll, Switched, Exec, CellOk;
    var s := ExecAll(Debug(orig, []), cmds);
    DisableSwitches(s, orig, addr, k);
    EnableSwitches(s, orig, addr, k);
  }
}
