/** When the execution buffer always has room: sw/src/engine.c:262-278. */
module RoomProof {
  import opened Base
  import opened InOrder
  import opened ReorderBuffer
  import opened Machine
  import opened Invariant
  import opened IssueProof
  import opened DispatchProof

  ghost predicate Distinct(s: seq<nat>) {
    forall i, j | 0 <= i < j < |s| :: s[i] != s[j]
  }

  /** A list that has all the distinct members of another one is at least as long. */
  lemma {:induction false} Longer(s: seq<nat>, r: seq<nat>)
    requires Distinct(s) && forall i | 0 <= i < |s| :: s[i] in r
    ensures |s| <= |r|
  {
    if s != [] {
      var n := |s| - 1;
      var j :| 0 <= j < |r| && r[j] == s[n];
      var rest := r[..j] + r[j + 1..];
      forall i | 0 <= i < n ensures s[..n][i] in rest {
        var k :| 0 <= k < |r| && r[k] == s[i];
        assert rest[if k < j then k else k - 1] == s[i];
      }
      Longer(s[..n], rest);
    }
  }

  /** The numbers below `n`. */
  function Below(n: nat): (r: seq<nat>)
    ensures |r| == n && forall i: nat | i < n :: r[i] == i
  {
    if n == 0 then [] else Below(n - 1) + [n - 1]
  }

  /** Distinct numbers below `m` are at most `m` many. */
  lemma Pigeonhole(s: seq<nat>, m: nat)
    requires Distinct(s) && forall i | 0 <= i < |s| :: s[i] < m
    ensures |s| <= m
  {
    forall i | 0 <= i < |s| ensures s[i] in Below(m) {
      assert Below(m)[s[i]] == s[i];
    }
    Longer(s, Below(m));
  }

  /** The distances of the slots owned by the entries of the buffer and by unit `u`. */
  ghost function Distances(s: State, u: nat): seq<int>
    requires u < |s.exu|
  {
    seq(|s.exb|, i requires 0 <= i < |s.exb| => Dist(s.rob, s.exb[i].qr)) + [Dist(s.rob, s.exu[u].qr)]
  }

  /** A full buffer next to a busy unit takes up more slots than the buffer has entries. */
  lemma FullBufferCount(c: Config, s: State, tr: Track, u: nat)
    requires Inv(c, s, tr) && !RoomGuard(s) && u < |s.exu| && s.exu[u].busy
    ensures |s.exb| + 1 <= s.rob.cnt
  {
    var ds := Distances(s, u);
    assert UnitOk(c, s, tr, u);
    forall i | 0 <= i < |s.exb|
      ensures 0 <= ds[i] < s.rob.cnt && ds[i] == Dist(s.rob, s.exb[i].qr) != ds[|s.exb|]
      ensures forall j | 0 <= j < i :: ds[j] != ds[i]
    {
      assert EntryOk(c, s, tr, false, i);
      forall j | 0 <= j < i ensures ds[j] != ds[i] {
        assert EntryOk(c, s, tr, false, j);
      }
    }
    Pigeonhole(ds, s.rob.cnt);
  }

  /**
   * With at most one slot more than the buffer has entries, an instruction the ring accepts always
   * finds an entry: a full buffer after issue means that something also executes.
   */
  lemma RoomAfterIssue(c: Config, s: State, tr: Track, inst: Option<Instr>)
    requires Inv(c, s, tr) && !tr.claim.Tags? && ConfigOk(c)
    requires 0 < c.exbSize && c.robSize <= c.exbSize + 1
    requires Accepts(IssueReady(c, s), inst)
    ensures RoomGuard(IssueReady(c, s))
  {
    var s' := IssueReady(c, s);
    IssueKeepsInv(c, s, tr);
    if !RoomGuard(s') {
      assert s'.exb[0].busy;
      BusyBufferBusyUnit(c, s, tr, 0);
      var u :| 0 <= u < |s'.exu| && s'.exu[u].busy;
      FullBufferCount(c, s', IssueTrack(c, s, tr), u);
    }
  }
}
