/** The breakpoint list on the heap, over the processor's memory. */
module DebuggerUnit {
  import opened WrappingMemory
  import opened Breakpoints

  class BreakNode {
    var next: BreakNode?
    var addr: nat
    var inst: nat
    var instLen: byte
    var isEnabled: bool

    constructor (addr: nat, inst: nat)
      ensures next == null && State() == Node(addr, inst, 4, true)
    {
      next, this.addr, this.inst, instLen, isEnabled := null, addr, inst, 4, true;
    }

    function State(): Node
      reads `addr, `inst, `instLen, `isEnabled
    {
      Node(addr, inst, instLen, isEnabled)
    }
  }

  /** The bytes of a value as a little-endian host holds them. */
  method HostBytes(w: nat, n: nat) returns (buf: array<byte>)
    ensures fresh(buf) && buf[..] == Bytes(w, n)
  {
    buf := new byte[n];
    var rest := w;
    for i := 0 to n
      invariant buf[..i] + Bytes(rest, n - i) == Bytes(w, n)
    {
      ghost var b := Bytes(rest, n - i);
      buf[i] := rest % 256;
      rest := rest / 256;
      assert b == [buf[i]] + Bytes(rest, n - i - 1);
      assert buf[..i + 1] == buf[..i] + [buf[i]];
    }
    assert buf[..n] == buf[..];
  }

  class Debugger {
    const memory: Memory
    var breakList: BreakNode?
    /** The nodes in list order. */
    ghost var nodes: seq<BreakNode>

    ghost function NodeSet(): set<BreakNode>
      reads this
    {
      set i | 0 <= i < |nodes| :: nodes[i]
    }

    ghost function Link(k: nat): BreakNode?
      reads this
    {
      if k < |nodes| then nodes[k] else null
    }

    /** The list is acyclic: following `next` from `breakList` visits `nodes` once and ends. */
    ghost predicate Valid()
      reads this, nodes
    {
      && memory.mem.Length == MEMSIZE
      && breakList == Link(0)
      && (forall i | 0 <= i < |nodes| :: nodes[i].next == Link(i + 1))
      && (forall i, j | 0 <= i < j < |nodes| :: nodes[i] != nodes[j])
    }

    ghost function List(): (list: seq<Node>)
      reads this, nodes
      ensures |list| == |nodes| && forall i | 0 <= i < |nodes| :: list[i] == nodes[i].State()
    {
      seq(|nodes|, i requires 0 <= i < |nodes| reads this, nodes => nodes[i].State())
    }

    ghost function View(): Debug
      reads this, nodes, memory.mem
    {
      Debug(memory.mem[..], List())
    }

    constructor (memory: Memory)
      requires memory.mem.Length == MEMSIZE
      ensures this.memory == memory && Valid() && View() == Debug(memory.mem[..], [])
    {
      this.memory := memory;
      breakList, nodes := null, [];
    }

    method WriteWord(addr: nat, w: nat, len: byte)
      requires memory.mem.Length == MEMSIZE
      modifies memory.mem
      ensures memory.mem[..] == Patch(old(memory.mem[..]), addr, w, len)
    {
      var buf := HostBytes(w, len);
      var _ := memory.Store(true, addr, buf, len);
      assert buf[..len] == buf[..];
    }

    method ReadWord(addr: nat) returns (w: nat)
      requires memory.mem.Length == MEMSIZE
      ensures w == Word(Loaded(memory.mem[..], addr, 4))
    {
      var buf := new byte[4];
      var _ := memory.Load(true, addr, buf, 4);
      w := buf[0] + 256 * (buf[1] as nat + 256 * (buf[2] as nat + 256 * buf[3] as nat));
      WordOfFour(buf[..4]);
    }

    /** The walk that every search of the list makes. */
    method Seek(addr: nat) returns (node: BreakNode?, ghost k: nat)
      requires Valid()
      ensures k == Find(List(), addr, 0) && node == Link(k)
    {
      node, k := breakList, 0;
      while node != null && node.addr != addr
        invariant k <= |nodes| && node == Link(k)
        invariant Find(List(), addr, 0) == Find(List(), addr, k)
        decreases |nodes| - k
      {
        node, k := node.next, k + 1;
      }
    }

    /** `breakListGetInstruction` */
    method SavedInstruction(addr: nat) returns (inst: nat)
      requires Valid()
      ensures inst == GetInstruction(List(), addr)
    {
      var node, _ := Seek(addr);
      inst := if node != null then node.inst else 0;
    }

    /** `breakListAppend` */
    method Append(node: BreakNode)
      requires Valid() && node !in NodeSet() && node.next == null
      modifies this, NodeSet()
      ensures Valid() && List() == old(List()) + [old(node.State())]
      ensures nodes == old(nodes) + [node]
    {
      if breakList != null {
        var last := breakList;
        ghost var k := 0;
        while last.next != null
          invariant k < |nodes| && last == nodes[k]
          decreases |nodes| - k
        {
          last, k := last.next, k + 1;
        }
        last.next := node;
      } else {
        breakList := node;
      }
      nodes := nodes + [node];
      assert List() == old(List()) + [node.State()];
    }

    /** `breakNodeCreate` */
    method CreateNode(addr: nat) returns (node: BreakNode)
      requires memory.mem.Length == MEMSIZE
      ensures fresh(node) && node.next == null
      ensures node.State() == Node(addr, Word(Loaded(memory.mem[..], addr, 4)), 4, true)
    {
      var w := ReadWord(addr);
      node := new BreakNode(addr, w);
    }

    /** The break instruction of the right length goes to memory; the node keeps that length. */
    method PatchNode(node: BreakNode)
      requires memory.mem.Length == MEMSIZE
      requires node.State() == Node(node.addr, Word(Loaded(memory.mem[..], node.addr, 4)), 4, true)
      modifies node`inst, node`instLen, memory.mem
      ensures node.State() == NewNode(old(memory.mem[..]), node.addr)
      ensures memory.mem[..] == Patch(old(memory.mem[..]), node.addr, BreakWord(node.instLen), node.instLen)
    {
      if node.inst % 4 == 3 {
        WriteWord(node.addr, EBREAK, node.instLen);
      } else {
        node.inst := node.inst % 0x1_0000;
        node.instLen := 2;
        WriteWord(node.addr, C_EBREAK, node.instLen);
      }
    }

    /** The patching part of `breakCmd`. */
    method BreakCmd(addr: nat) returns (added: bool)
      requires Valid()
      modifies this, NodeSet(), memory.mem
      ensures Valid() && View() == BreakAt(old(View()), addr)
      ensures added == Breaks(old(View()), addr)
    {
      hide NewNode, Patch, Find, BreakWord;
      if addr > MEMSIZE - 1 || addr % 2 == 1 {
        return false;
      }
      var saved := SavedInstruction(addr);
      if saved != 0 {
        return false;
      }
      AddBreak(addr);
      added := true;
    }

    method AddBreak(addr: nat)
      requires Valid()
      modifies this, NodeSet(), memory.mem
      ensures Valid() && List() == old(List()) + [NewNode(old(memory.mem[..]), addr)]
      ensures var node := NewNode(old(memory.mem[..]), addr);
              memory.mem[..] == Patch(old(memory.mem[..]), addr, BreakWord(node.len), node.len)
    {
      hide NewNode, Patch, BreakWord, Word;
      ghost var list := List();
      var node := CreateNode(addr);
      PatchNode(node);
      assert List() == list;
      Append(node);
    }

    /** The first node goes: its instruction returns to memory. */
    method DropHead()
      requires Valid() && nodes != []
      modifies this, memory.mem
      ensures Valid() && List() == old(List())[..0] + old(List())[1..]
      ensures memory.mem[..] == Restore(old(memory.mem[..]), old(List()[0]))
    {
      WriteWord(breakList.addr, breakList.inst, breakList.instLen);
      breakList := breakList.next;
      nodes := nodes[1..];
    }

    /** The node after the `k`-th goes. */
    method DropNext(node: BreakNode, ghost k: nat)
      requires Valid() && k + 1 < |nodes| && node == nodes[k]
      modifies this`nodes, node`next, memory.mem
      ensures Valid() && List() == old(List())[..k + 1] + old(List())[k + 2..]
      ensures memory.mem[..] == Restore(old(memory.mem[..]), old(List()[k + 1]))
    {
      hide Patch;
      WriteWord(node.next.addr, node.next.inst, node.next.instLen);
      ghost var was, list := nodes, List();
      UnlinkNext(node, k);
      ListWithout(k + 1, was, list);
    }

    method UnlinkNext(node: BreakNode, ghost k: nat)
      requires Valid() && k + 1 < |nodes| && node == nodes[k]
      modifies this`nodes, node`next
      ensures Valid() && nodes == old(nodes[..k + 1] + nodes[k + 2..])
    {
      node.next := node.next.next;
      nodes := nodes[..k + 1] + nodes[k + 2..];
    }

    lemma ListWithout(k: nat, was: seq<BreakNode>, list: seq<Node>)
      requires k < |was| == |list| && nodes == was[..k] + was[k + 1..]
      requires forall i | 0 <= i < |was| :: list[i] == was[i].State()
      ensures List() == list[..k] + list[k + 1..]
    {
    }

    /** The last node before the one at `addr`, when that is not the first. */
    method SeekBefore(addr: nat) returns (node: BreakNode, ghost k: nat)
      requires Valid() && breakList != null && breakList.addr != addr
      ensures k < |nodes| && node == nodes[k] && Find(List(), addr, 0) == k + 1
    {
      node, k := breakList, 0;
      while node.next != null && node.next.addr != addr
        invariant k < |nodes| && node == nodes[k]
        invariant Find(List(), addr, 0) == Find(List(), addr, k + 1)
        decreases |nodes| - k
      {
        node, k := node.next, k + 1;
      }
    }

    /** `breakListRemove` */
    method Remove(addr: nat) returns (removed: bool)
      requires Valid()
      modifies this, NodeSet(), memory.mem
      ensures Valid() && View() == DeleteAt(old(View()), addr)
      ensures removed == (Find(old(List()), addr, 0) < |old(List())|)
    {
      hide Restore, Patch;
      if breakList == null {
        return false;
      }
      if breakList.addr == addr {
        DropHead();
        return true;
      }
      removed := RemoveLater(addr);
    }

    method RemoveLater(addr: nat) returns (removed: bool)
      requires Valid() && breakList != null && breakList.addr != addr
      modifies this, NodeSet(), memory.mem
      ensures Valid() && View() == DeleteAt(old(View()), addr)
      ensures removed == (Find(old(List()), addr, 0) < |old(List())|)
    {
      hide Restore, Patch, Find;
      var node, k := SeekBefore(addr);
      if node.next == null {
        return false;
      }
      DropNext(node, k);
      removed := true;
    }

    /** `breakListRemoveAll` */
    method RemoveAll()
      requires Valid()
      modifies this, memory.mem
      ensures Valid() && View() == Exec(old(View()), DeleteAll)
    {
      hide Patch, Stored, Bytes;
      var node := breakList;
      ghost var k := 0;
      while node != null
        invariant k <= |nodes| && node == Link(k) && unchanged(this)
        invariant memory.mem[..] == RestoreAll(old(memory.mem[..]), List(), k)
        decreases |nodes| - k
      {
        WriteWord(node.addr, node.inst, node.instLen);
        node, k := node.next, k + 1;
      }
      breakList := null;
      nodes := [];
    }

    method SetFlag(node: BreakNode, ghost k: nat, enabled: bool)
      requires Valid() && k < |nodes| && node == nodes[k]
      modifies node`isEnabled
      ensures Valid() && List() == old(List())[k := old(List())[k].(enabled := enabled)]
    {
      node.isEnabled := enabled;
      assert List() == old(List())[k := old(List())[k].(enabled := enabled)];
    }

    /** The flag of the `k`-th node changes, and `w` goes to memory. */
    method Rewrite(node: BreakNode, ghost k: nat, enabled: bool, w: nat)
      requires Valid() && k < |nodes| && node == nodes[k]
      modifies node`isEnabled, memory.mem
      ensures Valid() && List() == old(List())[k := old(List())[k].(enabled := enabled)]
      ensures memory.mem[..] == Patch(old(memory.mem[..]), node.addr, w, node.instLen)
    {
      hide Patch;
      SetFlag(node, k, enabled);
      ghost var flagged := List();
      WriteWord(node.addr, w, node.instLen);
      assert List() == flagged;
    }

    /** `breakListDisable`: 1 disabled, 0 already so, -1 no such breakpoint. */
    method Disable(addr: nat) returns (r: int)
      requires Valid()
      modifies NodeSet(), memory.mem
      ensures Valid() && View() == DisableAt(old(View()), addr)
      ensures var k := Find(old(List()), addr, 0);
              r == if k == |old(List())| then -1 else if old(List())[k].enabled then 1 else 0
    {
      hide Patch, Find;
      var node, k := Seek(addr);
      if node == null {
        return -1;
      }
      if !node.isEnabled {
        return 0;
      }
      Rewrite(node, k, false, node.inst);
      r := 1;
    }

    /** `breakListEnable`: 1 enabled, 0 already so, -1 no such breakpoint. */
    method Enable(addr: nat) returns (r: int)
      requires Valid()
      modifies NodeSet(), memory.mem
      ensures Valid() && View() == EnableAt(old(View()), addr)
      ensures var k := Find(old(List()), addr, 0);
              r == if k == |old(List())| then -1 else if old(List())[k].enabled then 0 else 1
    {
      hide Patch, Find;
      var node, k := Seek(addr);
      if node == null {
        return -1;
      }
      if node.isEnabled {
        return 0;
      }
      Rewrite(node, k, true, if node.instLen == 4 then EBREAK else C_EBREAK);
      r := 1;
    }

    /** `breakListDisableAll` and `breakListEnableAll`, which leave memory as it is. */
    method FlagAll(enabled: bool) returns (any: bool)
      requires Valid()
      modifies NodeSet()
      ensures Valid() && View() == old(View()).(list := Flagged(old(List()), enabled))
      ensures any == (old(List()) != [])
    {
      if breakList == null {
        return false;
      }
      FlagEach(enabled);
      any := true;
    }

    method FlagEach(enabled: bool)
      requires Valid()
      modifies NodeSet()
      ensures Valid() && List() == Flagged(old(List()), enabled)
    {
      ghost var was := List();
      var node := breakList;
      ghost var k := 0;
      while node != null
        invariant k <= |nodes| && node == Link(k) && Valid()
        invariant forall i | 0 <= i < |nodes| :: List()[i] == if i < k then was[i].(enabled := enabled) else was[i]
        decreases |nodes| - k
      {
        SetFlag(node, k, enabled);
        node, k := node.next, k + 1;
      }
    }
  }
}
