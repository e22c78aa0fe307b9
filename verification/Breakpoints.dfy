/**
 * The breakpoint list of sw/ELE749_projet1-develop/src/debugger.c, on values: memory is patched
 * with EBREAK or C.EBREAK (RISC-V Unprivileged ISA, section 2.8, and its compressed form) and the
 * list keeps what was there.
 */
module Breakpoints {
  import opened WrappingMemory

  const MEMSIZE := 0x0100_0000

  const EBREAK := 0x00100073
  const C_EBREAK := 0x9002

  datatype Node = Node(addr: nat, inst: nat, len: nat, enabled: bool)

  datatype Debug = Debug(mem: seq<byte>, list: seq<Node>)

  datatype Cmd =
    | Break(addr: nat)
    | Delete(addr: nat)
    | DeleteAll
    | Disable(addr: nat)
    | Enable(addr: nat)
    | DisableAll
    | EnableAll

  // ---------------------------------------------------------------------------
  // The commands
  // ---------------------------------------------------------------------------

  predicate AddrValid(addr: nat) { addr <= MEMSIZE - 1 && addr % 2 == 0 }

  /** The word whose little-endian bytes are `d`. */
  function Word(d: seq<byte>): nat {
    if d == [] then 0 else d[0] + 256 * Word(d[1..])
  }

  function Patch(mem: seq<byte>, addr: nat, w: nat, len: nat): (r: seq<byte>)
    requires 0 < |mem|
    ensures |r| == |mem|
  {
    Stored(mem, addr, Bytes(w, len), len)
  }

  function BreakWord(len: nat): nat { if len == 4 then EBREAK else C_EBREAK }

  /** The first node at `addr`, or the length. */
  function Find(list: seq<Node>, addr: nat, i: nat): (k: nat)
    requires i <= |list|
    ensures i <= k <= |list|
    ensures forall j | i <= j < k :: list[j].addr != addr
    ensures k < |list| ==> list[k].addr == addr
    decreases |list| - i
  {
    if i == |list| || list[i].addr == addr then i else Find(list, addr, i + 1)
  }

  /** The saved instruction, or 0: a saved zero looks like no breakpoint. */
  function GetInstruction(list: seq<Node>, addr: nat): nat {
    var k := Find(list, addr, 0);
    if k < |list| then list[k].inst else 0
  }

  /** A node for the instruction in memory: the low half only when it is a compressed one. */
  function NewNode(mem: seq<byte>, addr: nat): Node
    requires 0 < |mem|
  {
    var w := Word(Loaded(mem, addr, 4));
    if w % 4 == 3 then Node(addr, w, 4, true) else Node(addr, w % 0x1_0000, 2, true)
  }

  predicate Breaks(s: Debug, addr: nat) { AddrValid(addr) && GetInstruction(s.list, addr) == 0 }

  function BreakAt(s: Debug, addr: nat): Debug
    requires 0 < |s.mem|
  {
    if !Breaks(s, addr) then s else
    var node := NewNode(s.mem, addr);
    Debug(Patch(s.mem, addr, BreakWord(node.len), node.len), s.list + [node])
  }

  /** The saved instruction goes back to memory. */
  function Restore(mem: seq<byte>, node: Node): (r: seq<byte>)
    requires 0 < |mem|
    ensures |r| == |mem|
  {
    Patch(mem, node.addr, node.inst, node.len)
  }

  function DeleteAt(s: Debug, addr: nat): Debug
    requires 0 < |s.mem|
  {
    var k := Find(s.list, addr, 0);
    if k == |s.list| then s else
    Debug(Restore(s.mem, s.list[k]), s.list[..k] + s.list[k + 1..])
  }

  function RestoreAll(mem: seq<byte>, list: seq<Node>, k: nat): (r: seq<byte>)
    requires 0 < |mem| && k <= |list|
    ensures |r| == |mem|
  {
    if k == 0 then mem else Restore(RestoreAll(mem, list, k - 1), list[k - 1])
  }

  function DisableAt(s: Debug, addr: nat): Debug
    requires 0 < |s.mem|
  {
    var k := Find(s.list, addr, 0);
    if k == |s.list| || !s.list[k].enabled then s else
    Debug(Restore(s.mem, s.list[k]), s.list[k := s.list[k].(enabled := false)])
  }

  function EnableAt(s: Debug, addr: nat): Debug
    requires 0 < |s.mem|
  {
    var k := Find(s.list, addr, 0);
    if k == |s.list| || s.list[k].enabled then s else
    Debug(Patch(s.mem, addr, BreakWord(s.list[k].len), s.list[k].len),
          s.list[k := s.list[k].(enabled := true)])
  }

  /** As written the bulk commands change only the flags. */
  function Flagged(list: seq<Node>, enabled: bool): (r: seq<Node>)
    ensures |r| == |list|
    ensures forall k | 0 <= k < |list| :: r[k] == list[k].(enabled := enabled)
  {
    seq(|list|, k requires 0 <= k < |list| => list[k].(enabled := enabled))
  }

  function Exec(s: Debug, cmd: Cmd): (r: Debug)
    requires 0 < |s.mem|
    ensures |r.mem| == |s.mem|
  {
    match cmd
    case Break(addr) => BreakAt(s, addr)
    case Delete(addr) => DeleteAt(s, addr)
    case DeleteAll => Debug(RestoreAll(s.mem, s.list, |s.list|), [])
    case Disable(addr) => DisableAt(s, addr)
    case Enable(addr) => EnableAt(s, addr)
    case DisableAll => s.(list := Flagged(s.list, false))
    case EnableAll => s.(list := Flagged(s.list, true))
  }

  // ---------------------------------------------------------------------------
  // Which bytes a breakpoint owns
  // ---------------------------------------------------------------------------

  /** How far cell `c` lies past `addr`, around the memory. */
  function Offset(addr: nat, c: nat): int {
    if c >= addr then c - addr else c + MEMSIZE - addr
  }

  predicate Covers(node: Node, c: nat) { Offset(node.addr, c) < node.len }

  /** Neither starts inside the other. */
  predicate Apart(a: Node, b: Node) {
    Offset(a.addr, b.addr) >= a.len && Offset(b.addr, a.addr) >= b.len
  }

  predicate Placed(node: Node) { node.addr < MEMSIZE && (node.len == 2 || node.len == 4) }

  /** Which is to say that no cell belongs to both. */
  lemma ApartExact(a: Node, b: Node)
    requires Placed(a) && Placed(b)
    ensures Apart(a, b) <==> forall c | 0 <= c < MEMSIZE :: !(Covers(a, c) && Covers(b, c))
  {
    if !Apart(a, b) {
      var c := if Offset(a.addr, b.addr) < a.len then b.addr else a.addr;
      assert Covers(a, c) && Covers(b, c);
    }
  }

  lemma IndexOffset(addr: nat, c: nat, i: nat)
    requires addr < MEMSIZE && c < MEMSIZE && i < MEMSIZE
    ensures Index(MEMSIZE, addr, i) == c <==> i == Offset(addr, c)
  {
  }

  /** What a patch does to one cell. */
  lemma PatchCell(mem: seq<byte>, addr: nat, w: nat, len: nat, c: nat)
    requires |mem| == MEMSIZE && addr < MEMSIZE && len <= 4 && c < MEMSIZE
    ensures var o := Offset(addr, c);
            o >= 0 && Patch(mem, addr, w, len)[c] == if o < len then Bytes(w, len)[o] else mem[c]
  {
    var o := Offset(addr, c);
    forall i | 0 <= i < len ensures Index(MEMSIZE, addr, i) == c <==> i == o { IndexOffset(addr, c, i); }
    if o < len {
      StoredAt(mem, addr, Bytes(w, len), len, o);
    } else {
      StoredElsewhere(mem, addr, Bytes(w, len), len, c);
    }
  }

  // ---------------------------------------------------------------------------
  // What the list remembers
  // ---------------------------------------------------------------------------

  lemma LowByte(b: byte, w: nat)
    ensures (b + 256 * w) % 256 == b && (b + 256 * w) / 256 == w
  {
  }

  lemma {:induction false} BytesOfWord(d: seq<byte>)
    ensures Bytes(Word(d), |d|) == d
  {
    if d != [] {
      BytesOfWord(d[1..]);
      LowByte(d[0], Word(d[1..]));
      assert d == [d[0]] + d[1..];
    }
  }

  /** What a new node saves is the bytes it is about to cover. */
  lemma NewNodeSaves(mem: seq<byte>, addr: nat)
    requires 0 < |mem|
    ensures var node := NewNode(mem, addr); Bytes(node.inst, node.len) == Loaded(mem, addr, node.len)
  {
    var d := Loaded(mem, addr, 4);
    var w := Word(d);
    BytesOfWord(d);
    WordHalves(d);
    assert w % 4 != 3 ==> Bytes(d[0] as int + 256 * d[1] as int, 2) == [d[0]] + Bytes(d[1], 1) == [d[0], d[1]];
    assert Loaded(mem, addr, 2) == [d[0], d[1]];
  }

  /** The node is what breaking the original memory there would have saved. */
  ghost predicate Saved(node: Node, orig: seq<byte>) {
    && |orig| == MEMSIZE
    && Placed(node)
    && node == NewNode(orig, node.addr).(enabled := node.enabled)
  }

  lemma RestoreCell(mem: seq<byte>, node: Node, orig: seq<byte>, c: nat)
    requires |mem| == MEMSIZE && Saved(node, orig) && c < MEMSIZE
    ensures Restore(mem, node)[c] == if Covers(node, c) then orig[c] else mem[c]
  {
    PatchCell(mem, node.addr, node.inst, node.len, c);
    NewNodeSaves(orig, node.addr);
    if Covers(node, c) {
      IndexOffset(node.addr, c, Offset(node.addr, c));
    }
  }

  // ---------------------------------------------------------------------------
  // Invariants
  // ---------------------------------------------------------------------------

  /** Nodes save original instructions, keep apart, and no cell outside them has changed. */
  ghost predicate ListOk(s: Debug, orig: seq<byte>) {
    && |s.mem| == MEMSIZE && |orig| == MEMSIZE
    && (forall k | 0 <= k < |s.list| :: Saved(s.list[k], orig))
    && (forall j, k | 0 <= j < k < |s.list| :: Apart(s.list[j], s.list[k]))
    && (forall c | 0 <= c < MEMSIZE :: Untouched(s.list, c) ==> s.mem[c] == orig[c])
  }

  ghost predicate Untouched(list: seq<Node>, c: nat) {
    forall k | 0 <= k < |list| :: !Covers(list[k], c)
  }

  /** The byte a breakpoint puts on a cell it covers. */
  function BreakByte(node: Node, c: nat): byte
    requires Placed(node) && c < MEMSIZE && Covers(node, c)
  {
    Bytes(BreakWord(node.len), node.len)[Offset(node.addr, c)]
  }

  /** Breakpoint bytes exactly under the enabled nodes, the original everywhere else. */
  ghost predicate CellOk(s: Debug, orig: seq<byte>, c: nat)
    requires ListOk(s, orig) && c < MEMSIZE
  {
    && (forall k | 0 <= k < |s.list| && s.list[k].enabled && Covers(s.list[k], c) ::
          s.mem[c] == BreakByte(s.list[k], c))
    && ((forall k | 0 <= k < |s.list| && s.list[k].enabled :: !Covers(s.list[k], c)) ==> s.mem[c] == orig[c])
  }

  ghost predicate Overlaid(s: Debug, orig: seq<byte>) {
    ListOk(s, orig) && forall c | 0 <= c < MEMSIZE :: CellOk(s, orig, c)
  }

  // ---------------------------------------------------------------------------
  // The commands keep them
  // ---------------------------------------------------------------------------

  /** The new breakpoint's bytes meet no other breakpoint's. */
  ghost predicate BreakGuard(s: Debug, addr: nat)
    requires 0 < |s.mem|
  {
    Breaks(s, addr) ==> forall k | 0 <= k < |s.list| :: Apart(s.list[k], NewNode(s.mem, addr))
  }

  /** On cells no node covers, memory is original, so what is saved there is too. */
  lemma SavesOriginal(s: Debug, orig: seq<byte>, addr: nat)
    requires ListOk(s, orig) && addr < MEMSIZE
    requires forall k | 0 <= k < |s.list| :: Apart(s.list[k], NewNode(s.mem, addr))
    ensures Saved(NewNode(s.mem, addr), orig)
  {
    var node := NewNode(s.mem, addr);
    forall i | 0 <= i < node.len ensures s.mem[Index(MEMSIZE, addr, i)] == orig[Index(MEMSIZE, addr, i)] {
      var c := Index(MEMSIZE, addr, i);
      IndexOffset(addr, c, i);
      assert Untouched(s.list, c);
    }
    SameNode(s.mem, orig, addr);
  }

  /** A node depends only on the bytes it covers. */
  lemma SameNode(mem: seq<byte>, orig: seq<byte>, addr: nat)
    requires |mem| == |orig| == MEMSIZE
    requires forall i | 0 <= i < NewNode(mem, addr).len :: mem[Index(MEMSIZE, addr, i)] == orig[Index(MEMSIZE, addr, i)]
    ensures NewNode(mem, addr) == NewNode(orig, addr)
  {
    var d, e := Loaded(mem, addr, 4), Loaded(orig, addr, 4);
    WordHalves(d);
    WordHalves(e);
    if NewNode(mem, addr).len == 4 {
      assert d == e;
    }
  }

  lemma WordOfFour(d: seq<byte>)
    requires |d| == 4
    ensures Word(d) == d[0] as int + 256 * (d[1] as int + 256 * (d[2] as int + 256 * d[3] as int))
  {
    var w1, w2, w3 := Word(d[1..]), Word(d[2..]), Word(d[3..]);
    assert d[1..][1..] == d[2..] && d[2..][1..] == d[3..] && d[3..][1..] == [];
    assert w3 == d[3] as int && w2 == d[2] as int + 256 * w3;
    assert Word(d) == d[0] as int + 256 * w1 && w1 == d[1] as int + 256 * w2;
  }

  lemma WordHalves(d: seq<byte>)
    requires |d| == 4
    ensures Word(d) % 4 == d[0] as int % 4
    ensures Word(d) % 0x1_0000 == d[0] as int + 256 * d[1] as int
  {
    var w1, w2 := Word(d[1..]), Word(d[2..]);
    assert d[1..][1..] == d[2..];
    assert Word(d) == d[0] as int + 256 * w1 && w1 == d[1] as int + 256 * w2;
    hide Word;
    LowBits(Word(d), d[0], d[1], w2);
  }

  lemma LowBits(w: nat, a: byte, b: byte, rest: nat)
    requires w == a + 256 * (b + 256 * rest)
    ensures w % 4 == a % 4 && w % 0x1_0000 == a + 256 * b
  {
    LowTwo(a, 64 * (b + 256 * rest));
    LowHalf(a + 256 * b, rest);
  }

  lemma LowTwo(a: nat, k: nat)
    ensures (a + 4 * k) % 4 == a % 4
  {
  }

  lemma LowHalf(h: nat, k: nat)
    requires h < 0x1_0000
    ensures (h + 0x1_0000 * k) % 0x1_0000 == h
  {
  }

  lemma BreakKeepsList(s: Debug, orig: seq<byte>, addr: nat)
    requires ListOk(s, orig) && BreakGuard(s, addr)
    ensures ListOk(BreakAt(s, addr), orig)
  {
    if Breaks(s, addr) {
      var s', node := BreakAt(s, addr), NewNode(s.mem, addr);
      SavesOriginal(s, orig, addr);
      forall c | 0 <= c < MEMSIZE && Untouched(s'.list, c) ensures s'.mem[c] == orig[c] {
        assert !Covers(s'.list[|s.list|], c);
        assert forall k | 0 <= k < |s.list| :: s.list[k] == s'.list[k];
        assert Untouched(s.list, c);
        PatchCell(s.mem, addr, BreakWord(node.len), node.len, c);
      }
    }
  }

  lemma BreakKeepsCell(s: Debug, orig: seq<byte>, addr: nat, c: nat)
    requires Overlaid(s, orig) && BreakGuard(s, addr) && c < MEMSIZE
    ensures ListOk(BreakAt(s, addr), orig) && CellOk(BreakAt(s, addr), orig, c)
  {
    BreakKeepsList(s, orig, addr);
    assert CellOk(s, orig, c);
    if Breaks(s, addr) {
      var s', node := BreakAt(s, addr), NewNode(s.mem, addr);
      SavesOriginal(s, orig, addr);
      PatchCell(s.mem, addr, BreakWord(node.len), node.len, c);
      forall k | 0 <= k < |s.list| ensures s'.list[k] == s.list[k] && !(Covers(s.list[k], c) && Covers(node, c)) {
        ApartExact(s.list[k], node);
      }
      assert s'.list[|s.list|] == node;
    }
  }

  /** Two different nodes never cover the same cell. */
  lemma OneCover(s: Debug, orig: seq<byte>, j: nat, k: nat, c: nat)
    requires ListOk(s, orig) && j < |s.list| && k < |s.list| && j != k && c < MEMSIZE
    ensures !(Covers(s.list[j], c) && Covers(s.list[k], c))
  {
  }

  /** The list without node `k`. */
  lemma Without(list: seq<Node>, k: nat, j: nat)
    requires k < |list| && j < |list| && j != k
    ensures var r := list[..k] + list[k + 1..];
            |r| == |list| - 1 && r[if j < k then j else j - 1] == list[j]
  {
  }

  lemma WithoutKeeps(list: seq<Node>, orig: seq<byte>, k: nat)
    requires k < |list|
    requires forall j | 0 <= j < |list| :: Saved(list[j], orig)
    requires forall i, j | 0 <= i < j < |list| :: Apart(list[i], list[j])
    ensures var r := list[..k] + list[k + 1..];
      && (forall j | 0 <= j < |r| :: Saved(r[j], orig))
      && (forall i, j | 0 <= i < j < |r| :: Apart(r[i], r[j]))
  {
  }

  lemma DeleteKeepsList(s: Debug, orig: seq<byte>, addr: nat)
    requires ListOk(s, orig)
    ensures ListOk(DeleteAt(s, addr), orig)
  {
    var k := Find(s.list, addr, 0);
    if k < |s.list| {
      hide Saved, Apart, Restore, Untouched;
      WithoutKeeps(s.list, orig, k);
      forall c | 0 <= c < MEMSIZE && Untouched(s.list[..k] + s.list[k + 1..], c)
        ensures Restore(s.mem, s.list[k])[c] == orig[c]
      {
        DeletedCell(s, orig, k, c);
      }
    }
  }

  lemma DeletedCell(s: Debug, orig: seq<byte>, k: nat, c: nat)
    requires ListOk(s, orig) && k < |s.list| && c < MEMSIZE && Untouched(s.list[..k] + s.list[k + 1..], c)
    ensures Restore(s.mem, s.list[k])[c] == orig[c]
  {
    hide Apart, Saved;
    assert Saved(s.list[k], orig);
    RestoreCell(s.mem, s.list[k], orig, c);
    if !Covers(s.list[k], c) {
      forall j | 0 <= j < |s.list| ensures !Covers(s.list[j], c) {
        if j != k {
          Without(s.list, k, j);
        }
      }
      assert Untouched(s.list, c);
    }
  }

  lemma DeleteKeepsCell(s: Debug, orig: seq<byte>, addr: nat, c: nat)
    requires Overlaid(s, orig) && c < MEMSIZE
    ensures ListOk(DeleteAt(s, addr), orig) && CellOk(DeleteAt(s, addr), orig, c)
  {
    hide Apart, Restore, Untouched, BreakByte;
    DeleteKeepsList(s, orig, addr);
    assert CellOk(s, orig, c);
    var k := Find(s.list, addr, 0);
    if k < |s.list| {
      var s' := DeleteAt(s, addr);
      assert Saved(s.list[k], orig);
      RestoreCell(s.mem, s.list[k], orig, c);
      assert forall j | 0 <= j < |s'.list| :: s'.list[j] == if j < k then s.list[j] else s.list[j + 1];
      forall j | 0 <= j < |s.list| && j != k
        ensures !(Covers(s.list[j], c) && Covers(s.list[k], c))
        ensures s.list[j] == s'.list[if j < k then j else j - 1]
      {
        OneCover(s, orig, j, k, c);
      }
    }
  }

  /** Changing flags and covered cells leaves the list's promises alone. */
  lemma FlagsKeepList(s: Debug, s': Debug, orig: seq<byte>)
    requires ListOk(s, orig) && |s'.mem| == MEMSIZE && |s'.list| == |s.list|
    requires forall k | 0 <= k < |s.list| :: s'.list[k] == s.list[k].(enabled := s'.list[k].enabled)
    requires forall c | 0 <= c < MEMSIZE && Untouched(s.list, c) :: s'.mem[c] == s.mem[c]
    ensures ListOk(s', orig)
  {
  }

  lemma DisableKeepsList(s: Debug, orig: seq<byte>, addr: nat)
    requires ListOk(s, orig)
    ensures ListOk(DisableAt(s, addr), orig)
  {
    var k := Find(s.list, addr, 0);
    if k < |s.list| && s.list[k].enabled {
      forall c | 0 <= c < MEMSIZE && Untouched(s.list, c) ensures DisableAt(s, addr).mem[c] == s.mem[c] {
        RestoreCell(s.mem, s.list[k], orig, c);
      }
      FlagsKeepList(s, DisableAt(s, addr), orig);
    }
  }

  lemma EnableKeepsList(s: Debug, orig: seq<byte>, addr: nat)
    requires ListOk(s, orig)
    ensures ListOk(EnableAt(s, addr), orig)
  {
    var k := Find(s.list, addr, 0);
    if k < |s.list| && !s.list[k].enabled {
      forall c | 0 <= c < MEMSIZE && Untouched(s.list, c) ensures EnableAt(s, addr).mem[c] == s.mem[c] {
        PatchCell(s.mem, addr, BreakWord(s.list[k].len), s.list[k].len, c);
      }
      FlagsKeepList(s, EnableAt(s, addr), orig);
    }
  }

  lemma DisableKeepsCell(s: Debug, orig: seq<byte>, addr: nat, c: nat)
    requires Overlaid(s, orig) && c < MEMSIZE
    ensures ListOk(DisableAt(s, addr), orig) && CellOk(DisableAt(s, addr), orig, c)
  {
    DisableKeepsList(s, orig, addr);
    assert CellOk(s, orig, c);
    var k := Find(s.list, addr, 0);
    if k < |s.list| && s.list[k].enabled {
      var s' := DisableAt(s, addr);
      RestoreCell(s.mem, s.list[k], orig, c);
      forall j | 0 <= j < |s.list| && j != k
        ensures s'.list[j] == s.list[j] && !(Covers(s.list[j], c) && Covers(s.list[k], c))
      {
        OneCover(s, orig, j, k, c);
      }
    }
  }

  lemma EnableKeepsCell(s: Debug, orig: seq<byte>, addr: nat, c: nat)
    requires Overlaid(s, orig) && c < MEMSIZE
    ensures ListOk(EnableAt(s, addr), orig) && CellOk(EnableAt(s, addr), orig, c)
  {
    EnableKeepsList(s, orig, addr);
    assert CellOk(s, orig, c);
    var k := Find(s.list, addr, 0);
    if k < |s.list| && !s.list[k].enabled {
      var s' := EnableAt(s, addr);
      PatchCell(s.mem, addr, BreakWord(s.list[k].len), s.list[k].len, c);
      forall j | 0 <= j < |s.list| && j != k
        ensures s'.list[j] == s.list[j] && !(Covers(s.list[j], c) && Covers(s.list[k], c))
      {
        OneCover(s, orig, j, k, c);
      }
    }
  }

  /** Putting back the first `k` nodes makes every cell they cover original. */
  lemma {:induction false} RestoreAllCell(mem: seq<byte>, list: seq<Node>, orig: seq<byte>, k: nat, c: nat)
    requires |mem| == |orig| == MEMSIZE && k <= |list| && c < MEMSIZE
    requires forall j | 0 <= j < k :: Saved(list[j], orig)
    ensures RestoreAll(mem, list, k)[c] == if exists j | 0 <= j < k :: Covers(list[j], c) then orig[c] else mem[c]
  {
    hide Saved, Restore, Covers;
    if k != 0 {
      RestoreAllCell(mem, list, orig, k - 1, c);
      RestoreCell(RestoreAll(mem, list, k - 1), list[k - 1], orig, c);
    }
  }

  /** Deleting all restores memory whatever the flags and the covered cells hold. */
  lemma DeleteAllRestores(s: Debug, orig: seq<byte>)
    requires ListOk(s, orig)
    ensures Exec(s, DeleteAll) == Debug(orig, [])
  {
    var m := RestoreAll(s.mem, s.list, |s.list|);
    forall c | 0 <= c < MEMSIZE ensures m[c] == orig[c] {
      RestoreAllCell(s.mem, s.list, orig, |s.list|, c);
      assert Untouched(s.list, c) || exists j | 0 <= j < |s.list| :: Covers(s.list[j], c);
    }
    assert m == orig;
  }

  // ---------------------------------------------------------------------------
  // Runs of commands
  // ---------------------------------------------------------------------------

  ghost predicate CmdGuard(s: Debug, cmd: Cmd)
    requires 0 < |s.mem|
  {
    cmd.Break? ==> BreakGuard(s, cmd.addr)
  }

  lemma ExecKeepsList(s: Debug, orig: seq<byte>, cmd: Cmd)
    requires ListOk(s, orig) && CmdGuard(s, cmd)
    ensures ListOk(Exec(s, cmd), orig)
  {
    match cmd
    case Break(addr) => BreakKeepsList(s, orig, addr);
    case Delete(addr) => DeleteKeepsList(s, orig, addr);
    case DeleteAll => DeleteAllRestores(s, orig);
    case Disable(addr) => DisableKeepsList(s, orig, addr);
    case Enable(addr) => EnableKeepsList(s, orig, addr);
    case DisableAll => FlagsKeepList(s, Exec(s, cmd), orig);
    case EnableAll => FlagsKeepList(s, Exec(s, cmd), orig);
  }

  lemma ExecKeepsOverlay(s: Debug, orig: seq<byte>, cmd: Cmd)
    requires Overlaid(s, orig) && CmdGuard(s, cmd) && !cmd.DisableAll? && !cmd.EnableAll?
    ensures Overlaid(Exec(s, cmd), orig)
  {
    ExecKeepsList(s, orig, cmd);
    forall c | 0 <= c < MEMSIZE ensures CellOk(Exec(s, cmd), orig, c) {
      match cmd
      case Break(addr) => BreakKeepsCell(s, orig, addr, c);
      case Delete(addr) => DeleteKeepsCell(s, orig, addr, c);
      case DeleteAll => DeleteAllRestores(s, orig);
      case Disable(addr) => DisableKeepsCell(s, orig, addr, c);
      case Enable(addr) => EnableKeepsCell(s, orig, addr, c);
    }
  }

  function ExecAll(s: Debug, cmds: seq<Cmd>): (r: Debug)
    requires 0 < |s.mem|
    ensures |r.mem| == |s.mem|
    decreases |cmds|
  {
    if cmds == [] then s else ExecAll(Exec(s, cmds[0]), cmds[1..])
  }

  /** Every break of the run keeps clear of the breakpoints there are when it comes. */
  ghost predicate Guarded(s: Debug, cmds: seq<Cmd>)
    requires 0 < |s.mem|
    decreases |cmds|
  {
    cmds != [] ==> CmdGuard(s, cmds[0]) && Guarded(Exec(s, cmds[0]), cmds[1..])
  }

  lemma {:induction false} RunKeepsList(s: Debug, orig: seq<byte>, cmds: seq<Cmd>)
    requires ListOk(s, orig) && Guarded(s, cmds)
    ensures ListOk(ExecAll(s, cmds), orig)
    decreases |cmds|
  {
    if cmds != [] {
      ExecKeepsList(s, orig, cmds[0]);
      RunKeepsList(Exec(s, cmds[0]), orig, cmds[1..]);
    }
  }

  lemma {:induction false} RunKeepsOverlay(s: Debug, orig: seq<byte>, cmds: seq<Cmd>)
    requires Overlaid(s, orig) && Guarded(s, cmds)
    requires forall k | 0 <= k < |cmds| :: !cmds[k].DisableAll? && !cmds[k].EnableAll?
    ensures Overlaid(ExecAll(s, cmds), orig)
    decreases |cmds|
  {
    if cmds != [] {
      ExecKeepsOverlay(s, orig, cmds[0]);
      RunKeepsOverlay(Exec(s, cmds[0]), orig, cmds[1..]);
    }
  }

  /** From a fresh start, memory is the original under the enabled breakpoints, whatever the commands. */
  lemma OverlayFromStart(orig: seq<byte>, cmds: seq<Cmd>)
    requires |orig| == MEMSIZE && Guarded(Debug(orig, []), cmds)
    requires forall k | 0 <= k < |cmds| :: !cmds[k].DisableAll? && !cmds[k].EnableAll?
    ensures Overlaid(ExecAll(Debug(orig, []), cmds), orig)
  {
    RunKeepsOverlay(Debug(orig, []), orig, cmds);
  }

  /** From a fresh start, deleting all undoes everything, the bulk commands' mixes included. */
  lemma DeleteAllUndoes(orig: seq<byte>, cmds: seq<Cmd>)
    requires |orig| == MEMSIZE && Guarded(Debug(orig, []), cmds)
    ensures Exec(ExecAll(Debug(orig, []), cmds), DeleteAll) == Debug(orig, [])
  {
    RunKeepsList(Debug(orig, []), orig, cmds);
    DeleteAllRestores(ExecAll(Debug(orig, []), cmds), orig);
  }

  // ---------------------------------------------------------------------------
  // Where the commands fall short
  // ---------------------------------------------------------------------------

  /** Exactly when a break keeps the list's promises. */
  lemma BreakExact(s: Debug, orig: seq<byte>, addr: nat)
    requires ListOk(s, orig)
    ensures ListOk(BreakAt(s, addr), orig) <==> BreakGuard(s, addr)
  {
    if BreakGuard(s, addr) {
      BreakKeepsList(s, orig, addr);
    } else {
      var s', node := BreakAt(s, addr), NewNode(s.mem, addr);
      var k :| 0 <= k < |s.list| && !Apart(s.list[k], node);
      assert s'.list[k] == s.list[k] && s'.list[|s.list|] == node;
    }
  }

  /** A break on a zero half-word followed by zeros saves zero, and a second one saves the C.EBREAK. */
  lemma ZeroBreak(mem: seq<byte>, addr: nat)
    requires |mem| == MEMSIZE && AddrValid(addr) && Loaded(mem, addr, 2) == [0, 0]
    ensures NewNode(mem, addr) == Node(addr, 0, 2, true)
    ensures NewNode(Patch(mem, addr, C_EBREAK, 2), addr) == Node(addr, C_EBREAK, 2, true)
  {
    var mem', c := Patch(mem, addr, C_EBREAK, 2), Index(MEMSIZE, addr, 1);
    var d, e := Loaded(mem, addr, 4), Loaded(mem', addr, 4);
    IndexOffset(addr, addr, 0);
    IndexOffset(addr, c, 1);
    PatchCell(mem, addr, C_EBREAK, 2, addr);
    PatchCell(mem, addr, C_EBREAK, 2, c);
    assert Loaded(mem, addr, 2)[0] == d[0] && Loaded(mem, addr, 2)[1] == d[1];
    assert Bytes(C_EBREAK, 2) == [0x02] + Bytes(0x90, 1) == [0x02, 0x90];
    WordHalves(d);
    WordHalves(e);
  }

  /** The first node at an address that is not in `list` is the one that follows it. */
  lemma {:induction false} FindAppended(list: seq<Node>, tail: seq<Node>, addr: nat, i: nat)
    requires i <= |list| && Find(list, addr, i) == |list| && tail != [] && tail[0].addr == addr
    ensures Find(list + tail, addr, i) == |list|
    decreases |list| - i
  {
    if i < |list| {
      FindAppended(list, tail, addr, i + 1);
    }
  }

  lemma DeleteAppended(mem: seq<byte>, list: seq<Node>, tail: seq<Node>, addr: nat)
    requires 0 < |mem| && Find(list, addr, 0) == |list| && tail != [] && tail[0].addr == addr
    ensures DeleteAt(Debug(mem, list + tail), addr) == Debug(Restore(mem, tail[0]), list + tail[1..])
  {
    hide Restore, Find;
    FindAppended(list, tail, addr, 0);
    var k := |list|;
    assert (list + tail)[..k] + (list + tail)[k + 1..] == list + tail[1..];
  }

  /** What a break patches, writing back the node undoes. */
  lemma PatchUndone(mem: seq<byte>, addr: nat)
    requires |mem| == MEMSIZE && addr < MEMSIZE
    ensures var n := NewNode(mem, addr); Restore(Patch(mem, addr, BreakWord(n.len), n.len), n) == mem
  {
    hide Patch;
    var n := NewNode(mem, addr);
    var mem' := Patch(mem, addr, BreakWord(n.len), n.len);
    NewNodeSaves(mem, addr);
    forall c | 0 <= c < MEMSIZE ensures Restore(mem', n)[c] == mem[c] {
      PatchCell(mem, addr, BreakWord(n.len), n.len, c);
      PatchCell(mem', addr, n.inst, n.len, c);
      IndexOffset(addr, c, Offset(addr, c));
    }
  }

  /** A saved instruction other than zero refuses the second break, and one delete undoes the first. */
  lemma TwiceUndone(s: Debug, addr: nat)
    requires |s.mem| == MEMSIZE && AddrValid(addr) && Find(s.list, addr, 0) == |s.list|
    requires NewNode(s.mem, addr).inst != 0
    ensures DeleteAt(DeleteAt(BreakAt(BreakAt(s, addr), addr), addr), addr) == s
  {
    hide NewNode, Patch, Find, Restore;
    var n := NewNode(s.mem, addr);
    NodeAddr(s.mem, addr);
    FindAppended(s.list, [n], addr, 0);
    PatchUndone(s.mem, addr);
    DeleteAppended(Patch(s.mem, addr, BreakWord(n.len), n.len), s.list, [n], addr);
    assert s.list + [n][1..] == s.list;
  }

  lemma NodeAddr(mem: seq<byte>, addr: nat)
    requires 0 < |mem|
    ensures NewNode(mem, addr).addr == addr
    ensures NewNode(mem, addr).inst == 0 ==> Loaded(mem, addr, 2) == [0, 0]
  {
    NewNodeSaves(mem, addr);
    if NewNode(mem, addr).inst == 0 {
      assert Bytes(0, 2) == [0] + Bytes(0, 1) == [0, 0];
    }
  }

  /** On a zero half-word two breaks and two deletes at one address leave a C.EBREAK behind. */
  lemma ZeroedMemoryKeepsBreak(s: Debug, addr: nat)
    requires |s.mem| == MEMSIZE && AddrValid(addr) && Find(s.list, addr, 0) == |s.list|
    requires Loaded(s.mem, addr, 2) == [0, 0]
    ensures var t := DeleteAt(DeleteAt(BreakAt(BreakAt(s, addr), addr), addr), addr);
            t.list == s.list && |t.mem| == MEMSIZE && t.mem[addr] == 2 != s.mem[addr]
  {
    hide NewNode, Patch, DeleteAt, Find;
    ZeroBreak(s.mem, addr);
    var n0, n1 := Node(addr, 0, 2, true), Node(addr, C_EBREAK, 2, true);
    var s1 := BreakAt(s, addr);
    FindAppended(s.list, [n0], addr, 0);
    var s2 := BreakAt(s1, addr);
    assert s2.list == s.list + [n0, n1];
    DeleteAppended(s2.mem, s.list, [n0, n1], addr);
    DeleteAppended(Restore(s2.mem, n0), s.list, [n1], addr);
    PatchCell(Restore(s2.mem, n0), addr, C_EBREAK, 2, addr);
    IndexOffset(addr, addr, 0);
    assert [n0, n1][1..] == [n1] && s.list + [n1][1..] == s.list;
    assert Loaded(s.mem, addr, 2)[0] == s.mem[addr];
  }

  /**
   * Exactly when two breaks and two deletes at an address without breakpoint leave no trace: when
   * the instruction there is not saved as zero, which looks like no breakpoint to the second break.
   */
  lemma DuplicateExact(s: Debug, addr: nat)
    requires |s.mem| == MEMSIZE && AddrValid(addr) && Find(s.list, addr, 0) == |s.list|
    ensures DeleteAt(DeleteAt(BreakAt(BreakAt(s, addr), addr), addr), addr) == s <==> NewNode(s.mem, addr).inst != 0
  {
    hide NewNode, DeleteAt, BreakAt, Find, Loaded;
    if NewNode(s.mem, addr).inst != 0 {
      TwiceUndone(s, addr);
    } else {
      NodeAddr(s.mem, addr);
      ZeroedMemoryKeepsBreak(s, addr);
    }
  }

  /** The saved instruction is the break instruction itself. */
  predicate SavesBreak(node: Node) { Bytes(node.inst, node.len) == Bytes(BreakWord(node.len), node.len) }

  /** Under an overlay the enabled nodes' cells hold break bytes, the others' original ones. */
  lemma CoveredCell(s: Debug, orig: seq<byte>, k: nat, c: nat)
    requires Overlaid(s, orig) && k < |s.list| && c < MEMSIZE && Covers(s.list[k], c)
    ensures s.mem[c] == if s.list[k].enabled then BreakByte(s.list[k], c) else orig[c]
    ensures SavesBreak(s.list[k]) ==> BreakByte(s.list[k], c) == orig[c]
  {
    assert CellOk(s, orig, c);
    forall j | 0 <= j < |s.list| && j != k ensures !Covers(s.list[j], c) {
      OneCover(s, orig, j, k, c);
    }
    NewNodeSaves(orig, s.list[k].addr);
    IndexOffset(s.list[k].addr, c, Offset(s.list[k].addr, c));
  }

  lemma {:induction false} RestoreAllPrefix(mem: seq<byte>, list: seq<Node>, node: Node, k: nat)
    requires 0 < |mem| && k <= |list|
    ensures RestoreAll(mem, list + [node], k) == RestoreAll(mem, list, k)
  {
    hide Restore;
    if k != 0 {
      RestoreAllPrefix(mem, list, node, k - 1);
    }
  }

  /** After one more break, deleting all leaves what memory had where the new node lies, and the original elsewhere. */
  lemma OverlapCell(s: Debug, orig: seq<byte>, addr: nat, c: nat)
    requires ListOk(s, orig) && Breaks(s, addr) && c < MEMSIZE
    ensures Exec(BreakAt(s, addr), DeleteAll).mem[c] == if Covers(NewNode(s.mem, addr), c) then s.mem[c] else orig[c]
  {
    hide Saved, Apart, Restore, Patch, GetInstruction;
    var n, node := |s.list|, NewNode(s.mem, addr);
    var m := Patch(s.mem, addr, BreakWord(node.len), node.len);
    assert BreakAt(s, addr) == Debug(m, s.list + [node]);
    RestoreAllPrefix(m, s.list, node, n);
    RestoreAllCell(m, s.list, orig, n, c);
    NodePlaced(s.mem, addr);
    RestoreCell(RestoreAll(m, s.list, n), node, s.mem, c);
    PatchCell(s.mem, addr, BreakWord(node.len), node.len, c);
    assert Untouched(s.list, c) || exists j | 0 <= j < n :: Covers(s.list[j], c);
  }

  lemma NodePlaced(mem: seq<byte>, addr: nat)
    requires |mem| == MEMSIZE && AddrValid(addr)
    ensures Saved(NewNode(mem, addr), mem) && NewNode(mem, addr).addr == addr
  {
  }

  /**
   * Any list, any break that is accepted, overlapping or not: deleting all restores the original
   * memory exactly when that is what the break saved.
   */
  lemma OverlapRestores(s: Debug, orig: seq<byte>, addr: nat)
    requires ListOk(s, orig) && Breaks(s, addr)
    ensures Exec(BreakAt(s, addr), DeleteAll) == Debug(orig, []) <==>
            forall c | 0 <= c < MEMSIZE && Covers(NewNode(s.mem, addr), c) :: s.mem[c] == orig[c]
  {
    hide ListOk, Breaks, Patch, RestoreAll, NewNode, Covers;
    ListSizes(s, orig);
    var m := Exec(BreakAt(s, addr), DeleteAll).mem;
    forall c | 0 <= c < MEMSIZE ensures m[c] == if Covers(NewNode(s.mem, addr), c) then s.mem[c] else orig[c] {
      OverlapCell(s, orig, addr, c);
    }
  }

  lemma ListSizes(s: Debug, orig: seq<byte>)
    requires ListOk(s, orig)
    ensures |s.mem| == |orig| == MEMSIZE
  {
  }

  /**
   * With breaks in memory exactly under the enabled nodes, that is when the new node meets none of
   * them but where the original has the very byte of their break.
   */
  lemma OverlapExact(s: Debug, orig: seq<byte>, addr: nat)
    requires Overlaid(s, orig) && Breaks(s, addr)
    ensures Exec(BreakAt(s, addr), DeleteAll) == Debug(orig, []) <==>
            forall k, c | 0 <= k < |s.list| && s.list[k].enabled && 0 <= c < MEMSIZE &&
                          Covers(s.list[k], c) && Covers(NewNode(s.mem, addr), c) ::
              BreakByte(s.list[k], c) == orig[c]
  {
    OverlapRestores(s, orig, addr);
    forall c | 0 <= c < MEMSIZE && Covers(NewNode(s.mem, addr), c)
      ensures s.mem[c] == orig[c] <==>
              forall k | 0 <= k < |s.list| && s.list[k].enabled && Covers(s.list[k], c) ::
                BreakByte(s.list[k], c) == orig[c]
    {
      assert CellOk(s, orig, c);
    }
  }

  /** A cell where break and original bytes differ, for a node that saves something else. */
  lemma DifferingCell(node: Node, orig: seq<byte>) returns (c: nat)
    requires Saved(node, orig) && !SavesBreak(node)
    ensures c < MEMSIZE && Covers(node, c) && BreakByte(node, c) != orig[c]
  {
    NewNodeSaves(orig, node.addr);
    var o :| 0 <= o < node.len && Bytes(node.inst, node.len)[o] != Bytes(BreakWord(node.len), node.len)[o];
    c := Index(MEMSIZE, node.addr, o);
    IndexOffset(node.addr, c, o);
  }

  /**
   * Exactly when a bulk command, which changes flags and no memory, keeps the overlay: when every
   * node already has the flag it sets, or saves the very instruction it is patched with.
   */
  lemma BulkExact(s: Debug, orig: seq<byte>, enabled: bool)
    requires Overlaid(s, orig)
    ensures Overlaid(s.(list := Flagged(s.list, enabled)), orig) <==>
            forall k | 0 <= k < |s.list| :: s.list[k].enabled == enabled || SavesBreak(s.list[k])
  {
    var s' := s.(list := Flagged(s.list, enabled));
    FlagsKeepList(s, s', orig);
    if k :| 0 <= k < |s.list| && s.list[k].enabled != enabled && !SavesBreak(s.list[k]) {
      var c := DifferingCell(s.list[k], orig);
      CoveredCell(s, orig, k, c);
      if Overlaid(s', orig) {
        assert Covers(s'.list[k], c);
        CoveredCell(s', orig, k, c);
      }
    } else {
      forall c | 0 <= c < MEMSIZE ensures CellOk(s', orig, c) {
        BulkCell(s, orig, enabled, c);
      }
    }
  }

  lemma BulkCell(s: Debug, orig: seq<byte>, enabled: bool, c: nat)
    requires Overlaid(s, orig) && c < MEMSIZE
    requires forall k | 0 <= k < |s.list| :: s.list[k].enabled == enabled || SavesBreak(s.list[k])
    requires ListOk(s.(list := Flagged(s.list, enabled)), orig)
    ensures CellOk(s.(list := Flagged(s.list, enabled)), orig, c)
  {
    var s' := s.(list := Flagged(s.list, enabled));
    if k :| 0 <= k < |s.list| && Covers(s.list[k], c) {
      CoveredCell(s, orig, k, c);
      forall j | 0 <= j < |s.list| && j != k ensures !Covers(s'.list[j], c) {
        OneCover(s, orig, j, k, c);
      }
    } else {
      assert Untouched(s.list, c);
      assert forall k | 0 <= k < |s.list| :: Covers(s'.list[k], c) == Covers(s.list[k], c);
    }
  }

  /** One break and "disable all": the flag says disabled, and memory still has the break. */
  lemma BulkFails(orig: seq<byte>, addr: nat)
    requires |orig| == MEMSIZE && AddrValid(addr)
    ensures var n, s := NewNode(orig, addr), Exec(BreakAt(Debug(orig, []), addr), DisableAll);
      && s.list == [n.(enabled := false)]
      && (Overlaid(s, orig) <==> SavesBreak(n))
  {
    var s := Debug(orig, []);
    assert BreakGuard(s, addr);
    RunKeepsOverlay(s, orig, [Break(addr)]);
    var s1 := BreakAt(s, addr);
    assert ExecAll(s, [Break(addr)]) == s1 by { assert [Break(addr)][1..] == []; }
    hide Overlaid, NewNode;
    BulkExact(s1, orig, false);
    assert s1.list == [NewNode(orig, addr)];
    assert SavesBreak(s1.list[0]) == SavesBreak(NewNode(orig, addr));
  }
}
