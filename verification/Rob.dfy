/** The circular reorder buffer of sw/src/rob.c. */
module ReorderBuffer {
  import opened Base

  datatype RobEntry = RobEntry(dest: nat, data: int32, done: bool)

  datatype Ring = Ring(data: seq<RobEntry>, commitPtr: nat, issuePtr: nat, cnt: nat)

  /** The invariant of the ring's three counters. */
  predicate RingOk(r: Ring) {
    && 0 < |r.data|
    && r.commitPtr < |r.data|
    && r.cnt <= |r.data|
    && r.issuePtr == Wrap(r.commitPtr + r.cnt, |r.data|)
  }

  predicate Full(r: Ring) { r.cnt == |r.data| }

  predicate HeadDone(r: Ring)
    requires RingOk(r)
  {
    r.cnt != 0 && r.data[r.commitPtr].done
  }

  /** A slot number as the source stores it, in a `uint8_t`. */
  function Tag(slot: nat): nat { slot % 256 }

  /** Opens the slot at `issuePtr` for destination `dest`; a full ring refuses. */
  function Issue(r: Ring, dest: nat): Ring
    requires RingOk(r)
  {
    if Full(r) then r else
    var e := r.data[r.issuePtr];
    r.(data := r.data[r.issuePtr := e.(dest := dest, done := false)],
       issuePtr := Wrap(r.issuePtr + 1, |r.data|),
       cnt := r.cnt + 1)
  }

  /** Records a result. A tag past the ring is ignored. */
  function Write(r: Ring, addr: nat, data: int32): Ring {
    if addr >= |r.data| then r else
    r.(data := r.data[addr := r.data[addr].(data := data, done := true)])
  }

  /** What `rob_write` and `rob_read` do about an address: their test lets one through that is past the array. */
  datatype Access = Inside | Refused | Outside

  function AccessOf(r: Ring, addr: nat): Access {
    if addr > |r.data| then Refused else if addr == |r.data| then Outside else Inside
  }

  /** Retires the oldest slot when it is done. */
  function Pop(r: Ring): Ring
    requires RingOk(r)
  {
    if HeadDone(r) then
      r.(commitPtr := Wrap(r.commitPtr + 1, |r.data|), cnt := r.cnt - 1)
    else r
  }

  // ---------------------------------------------------------------------------
  // The ring as a bounded queue
  // ---------------------------------------------------------------------------

  /** How many slots `t` lies behind the oldest one. */
  function Dist(r: Ring, t: nat): int {
    if t >= r.commitPtr then t - r.commitPtr else t + |r.data| - r.commitPtr
  }

  predicate Live(r: Ring, t: nat) { t < |r.data| && Dist(r, t) < r.cnt }

  /** The slot `k` places behind the oldest one. */
  function SlotAt(r: Ring, k: nat): (t: nat)
    requires RingOk(r) && k < |r.data|
    ensures t < |r.data| && Dist(r, t) == k
  {
    Wrap(r.commitPtr + k, |r.data|)
  }

  /** The open entries, oldest first. */
  function Queue(r: Ring): (q: seq<RobEntry>)
    requires RingOk(r)
    ensures |q| == r.cnt
  {
    seq(r.cnt, k requires 0 <= k < r.cnt => r.data[SlotAt(r, k)])
  }

  lemma LiveTagsDistinct(r: Ring, t: nat, u: nat)
    requires RingOk(r) && Live(r, t) && Live(r, u) && t != u
    ensures Dist(r, t) != Dist(r, u) && SlotAt(r, Dist(r, t)) == t
  {
  }

  lemma IssueAppends(r: Ring, dest: nat)
    requires RingOk(r)
    ensures RingOk(Issue(r, dest))
    ensures Full(r) ==> Issue(r, dest) == r
    ensures !Full(r) ==>
              && Queue(Issue(r, dest)) ==
                 Queue(r) + [RobEntry(dest, r.data[r.issuePtr].data, false)]
              && SlotAt(Issue(r, dest), r.cnt) == r.issuePtr
  {
  }

  lemma PopRemovesFirst(r: Ring)
    requires RingOk(r)
    ensures RingOk(Pop(r))
    ensures HeadDone(r) ==> 0 < |Queue(r)| && Queue(r)[0].done && Queue(Pop(r)) == Queue(r)[1..]
    ensures !HeadDone(r) ==> Pop(r) == r
  {
  }

  /** The slots that stay open move one place up. */
  lemma PopDistance(r: Ring, t: nat)
    requires RingOk(r) && HeadDone(r)
    ensures Live(Pop(r), t) <==> Live(r, t) && t != r.commitPtr
    ensures Live(Pop(r), t) ==> Dist(Pop(r), t) == Dist(r, t) - 1
    ensures Live(r, r.commitPtr) && Dist(r, r.commitPtr) == 0
    ensures Pop(r).cnt == r.cnt - 1 && Pop(r).data == r.data
  {
  }

  lemma WriteTouchesOwnEntry(r: Ring, addr: nat, data: int32)
    requires RingOk(r)
    ensures RingOk(Write(r, addr, data))
    ensures Live(r, addr) ==>
              Queue(Write(r, addr, data)) ==
              Queue(r)[Dist(r, addr) := RobEntry(r.data[addr].dest, data, true)]
    ensures !Live(r, addr) ==> Queue(Write(r, addr, data)) == Queue(r)
  {
  }

  // ---------------------------------------------------------------------------
  // Where the open slots are
  // ---------------------------------------------------------------------------

  lemma IssuedRing(r: Ring, dest: nat)
    requires RingOk(r) && !Full(r)
    ensures var r' := Issue(r, dest);
      && RingOk(r') && r'.cnt == r.cnt + 1 && r'.commitPtr == r.commitPtr && |r'.data| == |r.data|
      && SlotAt(r, r.cnt) == r.issuePtr
      && r'.data[r.issuePtr].dest == dest && !r'.data[r.issuePtr].done
      && (forall k | 0 <= k < |r.data| :: SlotAt(r', k) == SlotAt(r, k))
      && (forall k | 0 <= k < r.cnt :: r'.data[SlotAt(r, k)] == r.data[SlotAt(r, k)])
  {
  }


  lemma SlotZero(r: Ring)
    requires RingOk(r)
    ensures SlotAt(r, 0) == r.commitPtr
  {
  }


  lemma SameSlot(r: Ring, r': Ring, k: nat)
    requires RingOk(r) && RingOk(r') && r'.commitPtr == r.commitPtr && |r'.data| == |r.data| && k < |r.data|
    ensures SlotAt(r', k) == SlotAt(r, k)
  {
  }


  lemma SlotAtHead(r: Ring, k: nat)
    requires RingOk(r) && 0 < k < |r.data|
    ensures SlotAt(r, k) != r.commitPtr
  {
  }


  lemma PoppedRing(r: Ring)
    requires RingOk(r) && HeadDone(r)
    ensures var r' := Pop(r);
      && RingOk(r') && r'.cnt == r.cnt - 1 && r'.data == r.data
      && forall k | 0 <= k < |r.data| - 1 :: SlotAt(r', k) == SlotAt(r, k + 1)
  {
    PopRemovesFirst(r);
  }

  // ---------------------------------------------------------------------------
  // Whole runs
  // ---------------------------------------------------------------------------

  datatype Op = OpIssue(dest: nat) | OpWrite(addr: nat, data: int32) | OpCommit

  /**
   * A ring with the destinations it accepted, the last value written to the slot of each since it
   * was opened, and the entries it retired, all in order.
   */
  datatype Trace = Trace(ring: Ring, accepted: seq<nat>, written: seq<Option<int32>>, retired: seq<RobEntry>)

  function Apply(t: Trace, op: Op): Trace
    requires RingOk(t.ring)
  {
    match op
    case OpIssue(dest) =>
      if Full(t.ring) then t else
      Trace(Issue(t.ring, dest), t.accepted + [dest], t.written + [None], t.retired)
    case OpWrite(addr, data) =>
      var n := |t.retired| + Dist(t.ring, addr);
      t.(ring := Write(t.ring, addr, data),
         written := if Live(t.ring, addr) && n < |t.written| then t.written[n := Some(data)] else t.written)
    case OpCommit =>
      t.(ring := Pop(t.ring),
         retired := t.retired + if HeadDone(t.ring) then [t.ring.data[t.ring.commitPtr]] else [])
  }

  /** `e` is for register `dest` and has, when done, the value last written. */
  predicate Carries(e: RobEntry, dest: nat, value: Option<int32>) {
    e.dest == dest && e.done == value.Some? && (e.done ==> e.data == value.value)
  }

  /** Retired and open entries, one after the other, are what was accepted and written. */
  ghost predicate Fifo(t: Trace) {
    && RingOk(t.ring)
    && |t.accepted| == |t.written| == |t.retired| + t.ring.cnt
    && (forall k | 0 <= k < |t.retired| :: t.retired[k].done && Carries(t.retired[k], t.accepted[k], t.written[k]))
    && (forall k | 0 <= k < t.ring.cnt ::
          Carries(t.ring.data[SlotAt(t.ring, k)], t.accepted[|t.retired| + k], t.written[|t.retired| + k]))
  }

  lemma IssueKeepsFifo(t: Trace, dest: nat)
    requires Fifo(t)
    ensures Fifo(Apply(t, OpIssue(dest)))
  {
    hide SlotAt, Issue;
    if !Full(t.ring) {
      IssuedRing(t.ring, dest);
    }
  }

  lemma WriteKeepsFifo(t: Trace, addr: nat, data: int32)
    requires Fifo(t)
    ensures Fifo(Apply(t, OpWrite(addr, data)))
  {
    hide SlotAt;
    forall k | 0 <= k < t.ring.cnt
      ensures SlotAt(Write(t.ring, addr, data), k) == SlotAt(t.ring, k)
      ensures SlotAt(t.ring, k) == addr ==> Dist(t.ring, addr) == k
    {
      SameSlot(t.ring, Write(t.ring, addr, data), k);
    }
  }

  lemma CommitKeepsFifo(t: Trace)
    requires Fifo(t)
    ensures Fifo(Apply(t, OpCommit))
  {
    hide SlotAt, Pop;
    if HeadDone(t.ring) {
      SlotZero(t.ring);
      PoppedRing(t.ring);
    } else {
      PopRemovesFirst(t.ring);
    }
  }

  lemma ApplyKeepsFifo(t: Trace, op: Op)
    requires Fifo(t)
    ensures Fifo(Apply(t, op))
  {
    match op
    case OpIssue(dest) => IssueKeepsFifo(t, dest);
    case OpWrite(addr, data) => WriteKeepsFifo(t, addr, data);
    case OpCommit => CommitKeepsFifo(t);
  }

  function RunOps(t: Trace, ops: seq<Op>): (r: Trace)
    requires RingOk(t.ring)
    ensures RingOk(r.ring)
    decreases |ops|
  {
    if ops == [] then t else
    ApplyKeepsRing(t, ops[0]);
    RunOps(Apply(t, ops[0]), ops[1..])
  }

  lemma ApplyKeepsRing(t: Trace, op: Op)
    requires RingOk(t.ring)
    ensures RingOk(Apply(t, op).ring)
  {
  }

  lemma {:induction false} RunKeepsFifo(t: Trace, ops: seq<Op>)
    requires Fifo(t)
    ensures Fifo(RunOps(t, ops))
    decreases |ops|
  {
    if ops != [] {
      ApplyKeepsFifo(t, ops[0]);
      RunKeepsFifo(Apply(t, ops[0]), ops[1..]);
    }
  }

  /**
   * Whatever the mix of operations, entries retire in the order they were accepted, each with the
   * value last written to its slot since it was opened, and nothing is lost.
   */
  lemma RetiresInIssueOrder(r: Ring, ops: seq<Op>)
    requires RingOk(r) && r.cnt == 0
    ensures var t := RunOps(Trace(r, [], [], []), ops);
            && |t.accepted| == |t.written| == |t.retired| + t.ring.cnt
            && t.ring.issuePtr == (t.ring.commitPtr + t.ring.cnt) % |t.ring.data|
            && forall k | 0 <= k < |t.retired| ::
                 t.written[k].Some? && t.retired[k] == RobEntry(t.accepted[k], t.written[k].value, true)
  {
    hide RunOps;
    RunKeepsFifo(Trace(r, [], [], []), ops);
  }

  /** Slot numbers survive being stored in a `uint8_t` exactly when there are at most 256. */
  lemma TagsDistinctExact(size: nat)
    ensures (forall a, b | 0 <= a < b < size :: Tag(a) != Tag(b)) <==> size <= 256
  {
    if size > 256 {
      assert Tag(0) == Tag(256);
    }
  }

  // ---------------------------------------------------------------------------
  // The buffer in memory
  // ---------------------------------------------------------------------------

  class Rob {
    const data: array<RobEntry>
    var commitPtr: nat
    var issuePtr: nat
    var cnt: nat

    function State(): Ring
      reads this, data
    {
      Ring(data[..], commitPtr, issuePtr, cnt)
    }

    /** The entries hold whatever the allocator left in them. */
    constructor (size: nat)
      requires size != 0
      ensures fresh(data) && data.Length == size
      ensures RingOk(State()) && cnt == 0 && commitPtr == 0
    {
      data := new RobEntry[size];
      commitPtr, issuePtr, cnt := 0, 0, 0;
    }

    method IssueSlot(dest: nat) returns (ok: bool, src: nat)
      requires RingOk(State())
      modifies this, data
      ensures ok == !Full(old(State()))
      ensures ok ==> src == Tag(old(issuePtr))
      ensures State() == Issue(old(State()), dest)
    {
      if cnt == data.Length {
        return false, 0;
      }
      var slot := issuePtr;
      data[slot] := data[slot].(dest := dest);
      data[slot] := data[slot].(done := false);
      ModOnce(issuePtr + 1, data.Length);
      issuePtr := (issuePtr + 1) % data.Length;
      cnt := cnt + 1;
      ok, src := true, slot % 256;
    }

    /** The source compares with `>`: `addr == size` goes on, and outside the array, where this stops. */
    method WriteResult(addr: nat, value: int32) returns (a: Access)
      modifies data
      ensures a == AccessOf(State(), addr)
      ensures State() == Write(old(State()), addr, value)
    {
      if addr > data.Length {
        return Refused;
      }
      if addr == data.Length {
        return Outside;
      }
      data[addr] := data[addr].(data := value);
      data[addr] := data[addr].(done := true);
      a := Inside;
    }

    /** What is read outside the array is anybody's guess; `value` and `done` then say nothing. */
    method ReadResult(addr: nat, was: int32) returns (a: Access, done: bool, value: int32)
      ensures a == AccessOf(State(), addr)
      ensures a.Inside? ==> done == data[addr].done && value == data[addr].data
      ensures !a.Inside? ==> !done && value == was
    {
      if addr > data.Length {
        return Refused, false, was;
      }
      if addr == data.Length {
        return Outside, false, was;
      }
      a, value := Inside, data[addr].data;
      done := data[addr].done;
    }

    method Commit() returns (ok: bool, src: nat, dest: nat, value: int32)
      requires RingOk(State())
      modifies this
      ensures ok == HeadDone(old(State()))
      ensures ok ==> RobEntry(dest, value, true) == data[old(commitPtr)] && src == Tag(old(commitPtr))
      ensures State() == Pop(old(State()))
    {
      ok, src, dest, value := false, 0, 0, 0;
      if cnt == 0 {
        return;
      }
      if data[commitPtr].done {
        value := data[commitPtr].data;
        dest := data[commitPtr].dest;
        src := commitPtr % 256;
        ModOnce(commitPtr + 1, data.Length);
        commitPtr := (commitPtr + 1) % data.Length;
        cnt := cnt - 1;
        ok := true;
      }
    }

    method IsFull() returns (full: bool)
      ensures full == Full(State())
    {
      full := data.Length == cnt;
    }
  }
}
