/**
 * The age-matrix dispatcher of hw/src/dispatcher.vhd against a plain list of addresses, oldest
 * first. The bit functions are those of hw/pkg/common/fnct.vhd.
 */
module AgeMatrix {
  import opened Base

  /** Row `i`, column `j`: address `i` is the `j`-th oldest. Column `n` is always clear. */
  datatype Matrix = Matrix(cells: seq<seq<bool>>, wrCol: seq<bool>)

  datatype Input = Input(rst: bool, we: bool, re: bool, wrAddr: nat, mask: seq<bool>)

  predicate Sized(m: Matrix, n: nat) {
    && 0 < n
    && |m.cells| == n
    && (forall i | 0 <= i < n :: |m.cells[i]| == n + 1)
    && |m.wrCol| == n + 1
  }

  predicate InputOk(n: nat, x: Input) { x.wrAddr < n && |x.mask| == n }

  // ---------------------------------------------------------------------------
  // The circuit
  // ---------------------------------------------------------------------------

  function FirstSet(bits: seq<bool>, i: nat): (k: nat)
    requires i <= |bits|
    ensures i <= k <= |bits|
    ensures forall j | i <= j < k :: !bits[j]
    ensures k < |bits| ==> bits[k]
    decreases |bits| - i
  {
    if i == |bits| || bits[i] then i else FirstSet(bits, i + 1)
  }

  predicate Full(m: Matrix, n: nat)
    requires Sized(m, n)
  {
    m.wrCol[n]
  }

  predicate Empty(m: Matrix, n: nat)
    requires Sized(m, n)
  {
    m.wrCol[0]
  }

  predicate Writes(m: Matrix, n: nat, x: Input)
    requires Sized(m, n)
  {
    x.we && !Full(m, n)
  }

  predicate Reads(m: Matrix, n: nat, x: Input)
    requires Sized(m, n)
  {
    x.re && !Empty(m, n)
  }

  /** Column `j` has a cell whose address the mask allows. */
  predicate ColumnMasked(m: Matrix, n: nat, mask: seq<bool>, j: nat)
    requires Sized(m, n) && |mask| == n && j < n
  {
    exists i | 0 <= i < n :: m.cells[i][j] && mask[i]
  }

  function ColMask(m: Matrix, n: nat, mask: seq<bool>): (col: seq<bool>)
    requires Sized(m, n) && |mask| == n
    ensures |col| == n
    ensures forall j | 0 <= j < n :: col[j] == ColumnMasked(m, n, mask, j)
  {
    seq(n, j requires 0 <= j < n => ColumnMasked(m, n, mask, j))
  }

  /** Every column from the first masked one on moves over, when reading. */
  function ShiftEnable(n: nat, re: bool, col: seq<bool>): (shift: seq<bool>)
    requires |col| == n
    ensures |shift| == n
    ensures forall j | 0 <= j < n :: shift[j] == (re && FirstSet(col, 0) <= j)
  {
    seq(n, j requires 0 <= j < n => re && exists k | 0 <= k <= j :: col[k])
  }

  function Column(m: Matrix, n: nat, c: nat): (row: seq<bool>)
    requires Sized(m, n) && c <= n
    ensures |row| == n && forall i | 0 <= i < n :: row[i] == m.cells[i][c]
  {
    seq(n, i requires 0 <= i < n => m.cells[i][c])
  }

  /** `None` is the 'X' that `one_hot_decoder` answers when not exactly one bit is set. */
  function OneHotDecode(row: seq<bool>): (r: Option<nat>)
    ensures r.Some? <==> exists k | 0 <= k < |row| :: row[k] && forall i | 0 <= i < |row| && i != k :: !row[i]
    ensures r.Some? ==> r.value < |row| && row[r.value]
  {
    var k := FirstSet(row, 0);
    if k < |row| && FirstSet(row, k + 1) == |row| then Some(k) else None
  }

  /**
   * The lowest masked column, decoded. With no column masked the priority encoder answers 'X',
   * which `to_integer` of package numeric_std (IEEE Std 1076-2008) takes for 0.
   */
  function ReadAddr(m: Matrix, n: nat, mask: seq<bool>): Option<nat>
    requires Sized(m, n) && |mask| == n
  {
    var c := FirstSet(ColMask(m, n, mask), 0);
    OneHotDecode(Column(m, n, if c == n then 0 else c))
  }

  function NextCell(m: Matrix, n: nat, x: Input, shift: seq<bool>, i: nat, j: nat): bool
    requires Sized(m, n) && |shift| == n && i < n && j < n
  {
    var rowWe := Writes(m, n, x) && i == x.wrAddr;
    var colWe := (m.wrCol[j] && !Reads(m, n, x)) || (m.wrCol[j + 1] && Reads(m, n, x));
    if rowWe && colWe then true
    else if shift[j] then m.cells[i][j + 1]
    else m.cells[i][j]
  }

  function NextRow(m: Matrix, n: nat, x: Input, shift: seq<bool>, i: nat): (row: seq<bool>)
    requires Sized(m, n) && |shift| == n && i < n
    ensures |row| == n + 1
    ensures forall j | 0 <= j <= n :: row[j] == (j < n && NextCell(m, n, x, shift, i, j))
  {
    seq(n + 1, j requires 0 <= j < n + 1 => j < n && NextCell(m, n, x, shift, i, j))
  }

  function NextWrCol(m: Matrix, n: nat, x: Input): seq<bool>
    requires Sized(m, n)
  {
    if Reads(m, n, x) && !Writes(m, n, x) then m.wrCol[1..] + [false]
    else if Writes(m, n, x) && !Reads(m, n, x) then [false] + m.wrCol[..n]
    else m.wrCol
  }

  function ResetState(n: nat): Matrix {
    Matrix(seq(n, _ => seq(n + 1, _ => false)), seq(n + 1, j => j == 0))
  }

  /** One rising edge of the clock. */
  function Clock(m: Matrix, n: nat, x: Input): Matrix
    requires Sized(m, n) && InputOk(n, x)
  {
    if x.rst then ResetState(n) else
    var shift := ShiftEnable(n, Reads(m, n, x), ColMask(m, n, x.mask));
    Matrix(seq(n, i requires 0 <= i < n => NextRow(m, n, x, shift, i)), NextWrCol(m, n, x))
  }

  // ---------------------------------------------------------------------------
  // The list
  // ---------------------------------------------------------------------------

  predicate CellIs(m: Matrix, n: nat, q: seq<nat>, i: nat, j: nat)
    requires Sized(m, n) && i < n && j <= n
  {
    m.cells[i][j] <==> j < |q| && q[j] == i
  }

  ghost predicate Represents(m: Matrix, n: nat, q: seq<nat>) {
    && Sized(m, n)
    && |q| <= n
    && (forall k | 0 <= k < |q| :: q[k] < n)
    && (forall k, l | 0 <= k < l < |q| :: q[k] != q[l])
    && (forall i, j | 0 <= i < n && 0 <= j <= n :: CellIs(m, n, q, i, j))
    && (forall j | 0 <= j <= n :: m.wrCol[j] <==> j == |q|)
  }

  predicate Held(n: nat, q: seq<nat>) { |q| <= n && forall k | 0 <= k < |q| :: q[k] < n }

  /** The position of the oldest address the mask allows, or the length. */
  function FirstMasked(q: seq<nat>, mask: seq<bool>, i: nat): (k: nat)
    requires i <= |q| && Held(|mask|, q)
    ensures i <= k <= |q|
    ensures forall j | i <= j < k :: !mask[q[j]]
    ensures k < |q| ==> mask[q[k]]
    decreases |q| - i
  {
    if i == |q| || mask[q[i]] then i else FirstMasked(q, mask, i + 1)
  }

  function Remove(q: seq<nat>, k: nat): (r: seq<nat>)
    requires k <= |q|
    ensures |r| == if k < |q| then |q| - 1 else |q|
    ensures forall a | a in r :: a in q
    ensures forall j | 0 <= j < |r| :: r[j] == if j < k then q[j] else q[j + 1]
  {
    if k == |q| then q else q[..k] + q[k + 1..]
  }

  predicate ListWrites(n: nat, q: seq<nat>, x: Input) { !x.rst && x.we && |q| < n }

  predicate ListReads(q: seq<nat>, x: Input) { !x.rst && x.re && q != [] }

  function AfterRead(n: nat, q: seq<nat>, x: Input): (r: seq<nat>)
    requires InputOk(n, x) && Held(n, q)
    ensures Held(n, r)
  {
    if x.rst then []
    else if ListReads(q, x) then Remove(q, FirstMasked(q, x.mask, 0))
    else q
  }

  /** Read takes the oldest masked address out; write puts its address last. */
  function NextList(n: nat, q: seq<nat>, x: Input): (r: seq<nat>)
    requires InputOk(n, x) && Held(n, q)
    ensures Held(n, r)
  {
    AfterRead(n, q, x) + if ListWrites(n, q, x) then [x.wrAddr] else []
  }

  /** A read finds a masked address, and a written address is not held unless it is the one read. */
  predicate ClockGuard(n: nat, q: seq<nat>, x: Input)
    requires InputOk(n, x) && Held(n, q)
  {
    && (ListReads(q, x) ==> FirstMasked(q, x.mask, 0) < |q|)
    && (ListWrites(n, q, x) ==> x.wrAddr !in AfterRead(n, q, x))
  }

  // ---------------------------------------------------------------------------
  // Circuit against list
  // ---------------------------------------------------------------------------

  lemma ColMaskMeaning(m: Matrix, n: nat, q: seq<nat>, mask: seq<bool>, j: nat)
    requires Represents(m, n, q) && |mask| == n && j < n
    ensures ColMask(m, n, mask)[j] <==> j < |q| && mask[q[j]]
  {
    if ColumnMasked(m, n, mask, j) {
      var i :| 0 <= i < n && m.cells[i][j] && mask[i];
      assert CellIs(m, n, q, i, j);
    }
    if j < |q| && mask[q[j]] {
      assert CellIs(m, n, q, q[j], j);
    }
  }

  /** The lowest masked column is the oldest masked address's. */
  lemma MaskedColumn(m: Matrix, n: nat, q: seq<nat>, mask: seq<bool>)
    requires Represents(m, n, q) && |mask| == n
    ensures var f, c := FirstMasked(q, mask, 0), FirstSet(ColMask(m, n, mask), 0);
            if f < |q| then c == f else c == n
  {
    var f, c := FirstMasked(q, mask, 0), FirstSet(ColMask(m, n, mask), 0);
    if c < n {
      ColMaskMeaning(m, n, q, mask, c);
    }
    if f < |q| {
      ColMaskMeaning(m, n, q, mask, f);
    }
  }

  /** The column of the `k`-th oldest address decodes to that address. */
  lemma ColumnDecodes(m: Matrix, n: nat, q: seq<nat>, k: nat)
    requires Represents(m, n, q) && k <= n
    ensures OneHotDecode(Column(m, n, k)) == if k < |q| then Some(q[k]) else None
  {
    var row := Column(m, n, k);
    forall i | 0 <= i < n ensures row[i] == (k < |q| && i == q[k]) {
      assert CellIs(m, n, q, i, k);
    }
    if k < |q| {
      assert row[q[k]] && forall i | 0 <= i < |row| && i != q[k] :: !row[i];
    }
  }

  /**
   * The circuit shows the oldest masked address. When the mask allows none of those held, it shows
   * the oldest of them all, and only an empty one shows 'X'.
   */
  lemma ReadsOldest(m: Matrix, n: nat, q: seq<nat>, mask: seq<bool>)
    requires Represents(m, n, q) && |mask| == n
    ensures var f := FirstMasked(q, mask, 0);
            ReadAddr(m, n, mask) == if f < |q| then Some(q[f]) else if q != [] then Some(q[0]) else None
  {
    MaskedColumn(m, n, q, mask);
    ColumnDecodes(m, n, q, FirstMasked(q, mask, 0));
    ColumnDecodes(m, n, q, 0);
  }

  lemma ShiftMeaning(m: Matrix, n: nat, q: seq<nat>, x: Input, j: nat)
    requires Represents(m, n, q) && InputOk(n, x) && !x.rst && j < n
    ensures ShiftEnable(n, Reads(m, n, x), ColMask(m, n, x.mask))[j] <==>
            ListReads(q, x) && FirstMasked(q, x.mask, 0) < |q| && FirstMasked(q, x.mask, 0) <= j
  {
    MaskedColumn(m, n, q, x.mask);
  }

  lemma CellRefines(m: Matrix, n: nat, q: seq<nat>, x: Input, i: nat, j: nat)
    requires Represents(m, n, q) && InputOk(n, x) && !x.rst && ClockGuard(n, q, x)
    requires i < n && j <= n
    ensures CellIs(Clock(m, n, x), n, NextList(n, q, x), i, j)
  {
    if j < n {
      var shift := ShiftEnable(n, Reads(m, n, x), ColMask(m, n, x.mask));
      ShiftMeaning(m, n, q, x, j);
      CellMeaning(m, n, q, x, shift, i, j);
    }
  }

  lemma CellMeaning(m: Matrix, n: nat, q: seq<nat>, x: Input, shift: seq<bool>, i: nat, j: nat)
    requires Represents(m, n, q) && InputOk(n, x) && !x.rst && ClockGuard(n, q, x)
    requires i < n && j < n && |shift| == n
    requires shift[j] <==> ListReads(q, x) && FirstMasked(q, x.mask, 0) <= j
    ensures var q' := NextList(n, q, x); NextCell(m, n, x, shift, i, j) <==> j < |q'| && q'[j] == i
  {
    assert CellIs(m, n, q, i, j) && CellIs(m, n, q, i, j + 1);
    assert m.wrCol[n] <==> n == |q|;
    assert m.wrCol[0] <==> q == [];
  }

  lemma WrColRefines(m: Matrix, n: nat, q: seq<nat>, x: Input)
    requires Represents(m, n, q) && InputOk(n, x) && !x.rst && ClockGuard(n, q, x)
    ensures forall j | 0 <= j <= n :: NextWrCol(m, n, x)[j] <==> j == |NextList(n, q, x)|
  {
    hide CellIs, FirstMasked;
  }

  lemma NextListDistinct(n: nat, q: seq<nat>, x: Input)
    requires Held(n, q) && InputOk(n, x) && ClockGuard(n, q, x)
    requires forall k, l | 0 <= k < l < |q| :: q[k] != q[l]
    ensures var q' := NextList(n, q, x); forall k, l | 0 <= k < l < |q'| :: q'[k] != q'[l]
  {
  }

  lemma ClockRefines(m: Matrix, n: nat, q: seq<nat>, x: Input)
    requires Represents(m, n, q) && InputOk(n, x) && ClockGuard(n, q, x)
    ensures Represents(Clock(m, n, x), n, NextList(n, q, x))
  {
    var m', q' := Clock(m, n, x), NextList(n, q, x);
    NextListDistinct(n, q, x);
    if !x.rst {
      hide CellIs, NextList, ClockGuard, NextWrCol, NextCell;
      WrColRefines(m, n, q, x);
      forall i, j | 0 <= i < n && 0 <= j <= n ensures CellIs(m', n, q', i, j) {
        CellRefines(m, n, q, x, i, j);
      }
    }
  }

  /** Exactly when one clock of the circuit is one step of the list. */
  lemma ClockExact(m: Matrix, n: nat, q: seq<nat>, x: Input)
    requires Represents(m, n, q) && InputOk(n, x)
    ensures Represents(Clock(m, n, x), n, NextList(n, q, x)) <==> ClockGuard(n, q, x)
  {
    var m', q' := Clock(m, n, x), NextList(n, q, x);
    if ClockGuard(n, q, x) {
      ClockRefines(m, n, q, x);
    } else if ListReads(q, x) && FirstMasked(q, x.mask, 0) == |q| {
      assert !m'.wrCol[|q'|];
    } else {
      var r := AfterRead(n, q, x);
      var k :| 0 <= k < |r| && r[k] == x.wrAddr;
      assert q'[k] == q'[|r|];
    }
  }

  /** Where the next address will be written: past the last one, or one before when a read is under way. */
  function WriteColumn(q: seq<nat>, x: Input): nat { if ListReads(q, x) then |q| - 1 else |q| }

  /**
   * What one clock does, guard or no guard. A read with no masked address held removes nothing and
   * moves the write column all the same, and a written address that is held gets a second age.
   */
  lemma ClockAnyway(m: Matrix, n: nat, q: seq<nat>, x: Input, i: nat, j: nat)
    requires Represents(m, n, q) && InputOk(n, x) && !x.rst && i < n && j <= n
    ensures var m', w, r := Clock(m, n, x), WriteColumn(q, x), AfterRead(n, q, x);
      && Sized(m', n)
      && (m'.cells[i][j] <==> (j < |r| && r[j] == i) || (ListWrites(n, q, x) && i == x.wrAddr && j == w))
      && (m'.wrCol[j] <==> j == if ListWrites(n, q, x) then w + 1 else w)
  {
    hide CellIs, NextCell, NextWrCol, AfterRead, FirstSet, WriteColumn, ShiftEnable;
    WriteColumnMoves(m, n, q, x, j);
    if j < n {
      ShiftMeaning(m, n, q, x, j);
      CellAnyway(m, n, q, x, ShiftEnable(n, Reads(m, n, x), ColMask(m, n, x.mask)), i, j);
    } else {
      ListFits(n, q, x);
    }
  }

  lemma CellAnyway(m: Matrix, n: nat, q: seq<nat>, x: Input, shift: seq<bool>, i: nat, j: nat)
    requires Represents(m, n, q) && InputOk(n, x) && !x.rst && i < n && j < n && |shift| == n
    requires shift[j] <==> ListReads(q, x) && FirstMasked(q, x.mask, 0) < |q| && FirstMasked(q, x.mask, 0) <= j
    ensures NextCell(m, n, x, shift, i, j) <==>
            var r := AfterRead(n, q, x);
            (j < |r| && r[j] == i) || (ListWrites(n, q, x) && i == x.wrAddr && j == WriteColumn(q, x))
  {
    assert CellIs(m, n, q, i, j) && CellIs(m, n, q, i, j + 1);
    assert m.wrCol[n] <==> n == |q|;
    assert m.wrCol[0] <==> q == [];
  }

  lemma WriteColumnMoves(m: Matrix, n: nat, q: seq<nat>, x: Input, j: nat)
    requires Represents(m, n, q) && InputOk(n, x) && !x.rst && j <= n
    ensures |NextWrCol(m, n, x)| == n + 1
    ensures NextWrCol(m, n, x)[j] <==> j == if ListWrites(n, q, x) then WriteColumn(q, x) + 1 else WriteColumn(q, x)
  {
    hide CellIs;
    assert m.wrCol[n] <==> n == |q|;
    assert m.wrCol[0] <==> q == [];
  }

  lemma ListFits(n: nat, q: seq<nat>, x: Input)
    requires Held(n, q) && InputOk(n, x)
    ensures |AfterRead(n, q, x)| <= n && (ListWrites(n, q, x) ==> WriteColumn(q, x) < n)
  {
  }

  lemma ResetEmpty(n: nat)
    requires 0 < n
    ensures Represents(ResetState(n), n, [])
  {
  }

  // ---------------------------------------------------------------------------
  // Whole runs
  // ---------------------------------------------------------------------------

  predicate InputsOk(n: nat, xs: seq<Input>) { forall k | 0 <= k < |xs| :: InputOk(n, xs[k]) }

  /** The list after the first `k` clocks from reset. */
  ghost function ListAt(n: nat, xs: seq<Input>, k: nat): (q: seq<nat>)
    requires InputsOk(n, xs) && k <= |xs|
    ensures Held(n, q)
  {
    if k == 0 then [] else NextList(n, ListAt(n, xs, k - 1), xs[k - 1])
  }

  ghost predicate RunGuard(n: nat, xs: seq<Input>)
    requires InputsOk(n, xs)
  {
    forall k | 0 <= k < |xs| :: ClockGuard(n, ListAt(n, xs, k), xs[k])
  }

  function CircuitAt(n: nat, xs: seq<Input>, k: nat): (m: Matrix)
    requires 0 < n && InputsOk(n, xs) && k <= |xs|
    ensures Sized(m, n)
  {
    if k == 0 then ResetState(n) else Clock(CircuitAt(n, xs, k - 1), n, xs[k - 1])
  }

  /** On guarded runs the circuit is the list throughout. */
  lemma {:induction false} RunRefines(n: nat, xs: seq<Input>, k: nat)
    requires 0 < n && InputsOk(n, xs) && RunGuard(n, xs) && k <= |xs|
    ensures Represents(CircuitAt(n, xs, k), n, ListAt(n, xs, k))
  {
    hide Represents, Clock, NextList, ClockGuard;
    if k == 0 {
      ResetEmpty(n);
    } else {
      RunRefines(n, xs, k - 1);
      ClockRefines(CircuitAt(n, xs, k - 1), n, ListAt(n, xs, k - 1), xs[k - 1]);
    }
  }

  /** The clock of the last write of `a` among the first `k`, as a number from 1; 0 for none. */
  ghost function Written(n: nat, xs: seq<Input>, k: nat, a: nat): (t: nat)
    requires InputsOk(n, xs) && k <= |xs|
    ensures t <= k
  {
    if k == 0 then 0
    else if ListWrites(n, ListAt(n, xs, k - 1), xs[k - 1]) && xs[k - 1].wrAddr == a then k
    else Written(n, xs, k - 1, a)
  }

  /** `q` is in order of writing. */
  ghost predicate InWriteOrder(n: nat, xs: seq<Input>, k: nat, q: seq<nat>)
    requires InputsOk(n, xs) && k <= |xs|
  {
    && (forall i | 0 <= i < |q| :: 0 < Written(n, xs, k, q[i]))
    && (forall i, j | 0 <= i < j < |q| :: Written(n, xs, k, q[i]) < Written(n, xs, k, q[j]))
  }

  /** Where in the list the `i`-th survivor of a read was. */
  ghost function Origin(n: nat, q: seq<nat>, x: Input, i: nat): (o: nat)
    requires InputOk(n, x) && Held(n, q) && i < |AfterRead(n, q, x)|
    ensures o < |q| && AfterRead(n, q, x)[i] == q[o]
  {
    if ListReads(q, x) && FirstMasked(q, x.mask, 0) <= i then i + 1 else i
  }

  lemma SurvivorWritten(n: nat, xs: seq<Input>, k: nat, i: nat)
    requires InputsOk(n, xs) && RunGuard(n, xs) && 0 < k <= |xs|
    requires i < |AfterRead(n, ListAt(n, xs, k - 1), xs[k - 1])|
    ensures var q, x := ListAt(n, xs, k - 1), xs[k - 1];
            Written(n, xs, k, AfterRead(n, q, x)[i]) == Written(n, xs, k - 1, q[Origin(n, q, x, i)])
  {
    hide AfterRead, ListAt;
    var q, x := ListAt(n, xs, k - 1), xs[k - 1];
    assert ClockGuard(n, q, x);
    assert AfterRead(n, q, x)[i] in AfterRead(n, q, x);
  }

  /** The survivors of a clock keep their place in the order and their time of writing. */
  lemma Survivors(n: nat, xs: seq<Input>, k: nat)
    requires InputsOk(n, xs) && RunGuard(n, xs) && 0 < k <= |xs|
    requires InWriteOrder(n, xs, k - 1, ListAt(n, xs, k - 1))
    ensures var r := AfterRead(n, ListAt(n, xs, k - 1), xs[k - 1]);
            InWriteOrder(n, xs, k, r) && forall i | 0 <= i < |r| :: Written(n, xs, k, r[i]) < k
  {
    hide AfterRead, ListAt, Written, RunGuard, ClockGuard;
    var q, x := ListAt(n, xs, k - 1), xs[k - 1];
    var r := AfterRead(n, q, x);
    forall i | 0 <= i < |r|
      ensures Written(n, xs, k, r[i]) == Written(n, xs, k - 1, q[Origin(n, q, x, i)])
    {
      SurvivorWritten(n, xs, k, i);
    }
  }

  lemma {:induction false} ListInWriteOrder(n: nat, xs: seq<Input>, k: nat)
    requires InputsOk(n, xs) && RunGuard(n, xs) && k <= |xs|
    ensures InWriteOrder(n, xs, k, ListAt(n, xs, k))
  {
    hide AfterRead, ClockGuard, RunGuard;
    if k != 0 {
      ListInWriteOrder(n, xs, k - 1);
      Survivors(n, xs, k);
      var q, x := ListAt(n, xs, k - 1), xs[k - 1];
      AppendInOrder(n, xs, k, AfterRead(n, q, x));
    }
  }

  lemma AppendInOrder(n: nat, xs: seq<Input>, k: nat, r: seq<nat>)
    requires InputsOk(n, xs) && 0 < k <= |xs|
    requires InWriteOrder(n, xs, k, r) && forall i | 0 <= i < |r| :: Written(n, xs, k, r[i]) < k
    ensures var x := xs[k - 1];
            InWriteOrder(n, xs, k, r + if ListWrites(n, ListAt(n, xs, k - 1), x) then [x.wrAddr] else [])
  {
  }

  /**
   * Oldest first over whole runs: of the addresses held, or of those the mask allows if there are
   * any, the circuit shows the one written before all the others.
   */
  lemma OldestFirst(n: nat, xs: seq<Input>, k: nat, mask: seq<bool>)
    requires 0 < n && InputsOk(n, xs) && RunGuard(n, xs) && k <= |xs| && |mask| == n
    ensures var q, out := ListAt(n, xs, k), ReadAddr(CircuitAt(n, xs, k), n, mask);
      && (out.None? <==> q == [])
      && (out.Some? ==>
            && out.value in q && (mask[out.value] || forall b | b in q :: !mask[b])
            && forall b | b in q && (mask[b] || !mask[out.value]) && b != out.value ::
                 Written(n, xs, k, out.value) < Written(n, xs, k, b))
  {
    hide Represents, ListAt, CircuitAt, Written, ReadAddr, RunGuard;
    RunRefines(n, xs, k);
    ListInWriteOrder(n, xs, k);
    ReadsOldest(CircuitAt(n, xs, k), n, ListAt(n, xs, k), mask);
  }

  /** Clock `j` of the run takes address `a` out. */
  ghost predicate Takes(n: nat, xs: seq<Input>, j: nat, a: nat)
    requires 0 < n && InputsOk(n, xs) && j < |xs|
  {
    ListReads(ListAt(n, xs, j), xs[j]) && ReadAddr(CircuitAt(n, xs, j), n, xs[j].mask) == Some(a)
  }

  lemma KeptByRead(n: nat, q: seq<nat>, x: Input, a: nat)
    requires InputOk(n, x) && Held(n, q) && !x.rst && a in q
    requires ListReads(q, x) ==> FirstMasked(q, x.mask, 0) == |q| || q[FirstMasked(q, x.mask, 0)] != a
    ensures a in AfterRead(n, q, x)
  {
  }

  /** While an address stays, nothing writes it. */
  lemma StaysUnwritten(n: nat, xs: seq<Input>, j: nat, a: nat)
    requires 0 < n && InputsOk(n, xs) && RunGuard(n, xs) && j < |xs|
    requires a in ListAt(n, xs, j) && !xs[j].rst && !Takes(n, xs, j, a)
    ensures a in ListAt(n, xs, j + 1)
    ensures Written(n, xs, j + 1, a) == Written(n, xs, j, a)
  {
    hide Represents, CircuitAt, ReadAddr, AfterRead, FirstMasked, ListReads, RunGuard, Held;
    var q, x := ListAt(n, xs, j), xs[j];
    RunRefines(n, xs, j);
    ReadsOldest(CircuitAt(n, xs, j), n, q, x.mask);
    GuardAt(n, xs, j);
    KeptByRead(n, q, x, a);
  }

  lemma GuardAt(n: nat, xs: seq<Input>, j: nat)
    requires InputsOk(n, xs) && RunGuard(n, xs) && j < |xs|
    ensures InputOk(n, xs[j]) && ClockGuard(n, ListAt(n, xs, j), xs[j])
  {
  }

  /** An address stays until it is shown on a read (or the circuit is reset). */
  lemma LeavesOnlyWhenRead(n: nat, xs: seq<Input>, k: nat, a: nat)
    requires 0 < n && InputsOk(n, xs) && RunGuard(n, xs) && k < |xs|
    requires a in ListAt(n, xs, k) && a !in ListAt(n, xs, k + 1)
    ensures xs[k].rst || Takes(n, xs, k, a)
  {
    hide ListAt, Takes, RunGuard;
    if !xs[k].rst && !Takes(n, xs, k, a) {
      StaysUnwritten(n, xs, k, a);
    }
  }

  lemma OldestTaken(n: nat, xs: seq<Input>, e: nat, a: nat, b: nat)
    requires 0 < n && InputsOk(n, xs) && RunGuard(n, xs) && e < |xs|
    requires a in ListAt(n, xs, e) && Written(n, xs, e, a) < Written(n, xs, e, b)
    requires a < n && InputOk(n, xs[e]) && xs[e].mask[a]
    ensures !Takes(n, xs, e, b)
  {
    hide Represents, CircuitAt, ReadAddr, RunGuard, ListAt, Written;
    OldestFirst(n, xs, e, xs[e].mask);
  }

  /** Of two addresses that stay, the one written first is taken first, whatever leaves between. */
  lemma {:induction false} TakenInOrder(n: nat, xs: seq<Input>, k: nat, e: nat, a: nat, b: nat)
    requires 0 < n && InputsOk(n, xs) && RunGuard(n, xs) && k <= e < |xs|
    requires a in ListAt(n, xs, k) && b in ListAt(n, xs, k)
    requires Written(n, xs, k, a) < Written(n, xs, k, b)
    requires forall j | k <= j < e :: !xs[j].rst && !Takes(n, xs, j, a) && !Takes(n, xs, j, b)
    requires a < n && xs[e].mask[a]
    ensures !Takes(n, xs, e, b)
    decreases e - k
  {
    hide Takes, ListAt, Written, RunGuard;
    if k < e {
      StaysUnwritten(n, xs, k, a);
      StaysUnwritten(n, xs, k, b);
      TakenInOrder(n, xs, k + 1, e, a, b);
    } else {
      OldestTaken(n, xs, e, a, b);
    }
  }
}
