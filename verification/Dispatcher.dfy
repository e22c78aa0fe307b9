/** The dispatcher's registers and processes, as hw/src/dispatcher.vhd writes them. */
module DispatcherUnit {
  import opened Base
  import opened AgeMatrix

  class Dispatcher {
    const n: nat
    /** Registers. */
    const age: array2<bool>
    const wrCol: array<bool>
    /** The signal between the two processes of the matrix. */
    const nextAge: array2<bool>

    ghost predicate Wired()
      reads this
    {
      && 0 < n
      && age.Length0 == n && age.Length1 == n + 1
      && nextAge.Length0 == n && nextAge.Length1 == n
      && wrCol.Length == n + 1
      && age != nextAge
    }

    function Row(i: nat): (row: seq<bool>)
      reads age
      requires i < age.Length0
      ensures |row| == age.Length1 && forall j | 0 <= j < |row| :: row[j] == age[i, j]
    {
      seq(age.Length1, j requires 0 <= j < age.Length1 reads age => age[i, j])
    }

    function View(): (m: Matrix)
      reads this, age, wrCol
      ensures |m.cells| == age.Length0 && m.wrCol == wrCol[..]
      ensures forall i | 0 <= i < age.Length0 :: m.cells[i] == Row(i)
      ensures Wired() ==> Sized(m, n)
    {
      Matrix(seq(age.Length0, i requires 0 <= i < age.Length0 reads age => Row(i)), wrCol[..])
    }

    /** Reset: an empty matrix, and the write column on position 0. */
    method Reset()
      requires Wired()
      modifies age, wrCol
      ensures View() == ResetState(n)
    {
      forall i, j | 0 <= i < n && 0 <= j <= n {
        age[i, j] := false;
      }
      forall j | 0 <= j <= n {
        wrCol[j] := j == 0;
      }
      assert wrCol[..] == ResetState(n).wrCol;
      assert forall i | 0 <= i < n :: Row(i) == ResetState(n).cells[i];
    }

    constructor (n: nat)
      requires 0 < n
      ensures this.n == n && Wired() && fresh(age) && fresh(wrCol) && fresh(nextAge)
      ensures View() == ResetState(n) && Represents(View(), n, [])
    {
      this.n := n;
      age := new bool[n, n + 1];
      nextAge := new bool[n, n];
      wrCol := new bool[n + 1];
      new;
      Reset();
      ResetEmpty(n);
    }

    /** p_col_mask */
    method ColumnMask(mask: seq<bool>) returns (col: seq<bool>)
      requires Wired() && |mask| == n
      ensures col == ColMask(View(), n, mask)
    {
      col := [];
      for i := 0 to n
        invariant |col| == i
        invariant forall k | 0 <= k < i :: col[k] == ColumnMasked(View(), n, mask, k)
      {
        var acc := false;
        for j := 0 to n
          invariant acc == exists k | 0 <= k < j :: age[k, i] && mask[k]
        {
          acc := acc || (age[j, i] && mask[j]);
        }
        assert acc == ColumnMasked(View(), n, mask, i) by {
          assert forall k | 0 <= k < n :: View().cells[k][i] == age[k, i];
        }
        col := col + [acc];
      }
    }

    /** p_shift_encoder: a running or over the masked columns. */
    method ShiftEncoder(re: bool, col: seq<bool>) returns (shift: seq<bool>)
      requires 0 < n && |col| == n
      ensures shift == ShiftEnable(n, re, col)
    {
      if re {
        shift := [col[0]];
        for i := 1 to n
          invariant |shift| == i
          invariant forall k | 0 <= k < i :: shift[k] == (FirstSet(col, 0) <= k)
        {
          shift := shift + [shift[i - 1] || col[i]];
        }
      } else {
        shift := seq(n, _ => false);
      }
    }

    /** priority_encoder, least significant bit first. */
    method PriorityEncoder(bits: seq<bool>) returns (k: nat)
      ensures k == FirstSet(bits, 0)
    {
      k := 0;
      while k < |bits| && !bits[k]
        invariant k <= |bits| && FirstSet(bits, 0) == FirstSet(bits, k)
      {
        k := k + 1;
      }
    }

    /** one_hot_decoder: a second bit, or none, is refused. */
    method OneHotDecoder(bits: seq<bool>) returns (out: Option<nat>)
      ensures out == OneHotDecode(bits)
    {
      var k := PriorityEncoder(bits);
      if k == |bits| {
        return None;
      }
      var l := k + 1;
      while l < |bits| && !bits[l]
        invariant k < l <= |bits| && FirstSet(bits, k + 1) == FirstSet(bits, l)
      {
        l := l + 1;
      }
      out := if l == |bits| then Some(k) else None;
    }

    /** p_rd_row and the decoder behind it. */
    method ReadAddress(mask: seq<bool>) returns (out: Option<nat>)
      requires Wired() && |mask| == n
      ensures out == ReadAddr(View(), n, mask)
    {
      var col := ColumnMask(mask);
      var c := PriorityEncoder(col);
      if c == n {
        c := 0;
      }
      ghost var m := View();
      var row := [];
      for j := 0 to n
        invariant |row| == j && forall k | 0 <= k < j :: row[k] == age[k, c]
      {
        row := row + [age[j, c]];
      }
      assert row == Column(m, n, c) by { assert forall i | 0 <= i < n :: m.cells[i] == Row(i); }
      out := OneHotDecoder(row);
    }

    /** p_next_age_matrix */
    method NextAge(x: Input, shift: seq<bool>)
      requires Wired() && InputOk(n, x) && |shift| == n
      modifies nextAge
      ensures forall i, j | 0 <= i < n && 0 <= j < n :: nextAge[i, j] == NextCell(View(), n, x, shift, i, j)
    {
      ghost var m := View();
      var we, re := x.we && !wrCol[n], x.re && !wrCol[0];
      for i := 0 to n
        invariant forall k, l | 0 <= k < i && 0 <= l < n :: nextAge[k, l] == NextCell(m, n, x, shift, k, l)
      {
        for j := 0 to n
          invariant forall k, l | 0 <= k < i && 0 <= l < n :: nextAge[k, l] == NextCell(m, n, x, shift, k, l)
          invariant forall l | 0 <= l < j :: nextAge[i, l] == NextCell(m, n, x, shift, i, l)
        {
          var rowWe := we && i == x.wrAddr;
          var colWe := (wrCol[j] && !re) || (wrCol[j + 1] && re);
          nextAge[i, j] := if rowWe && colWe then true else if shift[j] then age[i, j + 1] else age[i, j];
          assert m.cells[i] == Row(i);
        }
      }
    }

    /** p_age_matrix: the leftmost column is always clear. */
    method Latch(ghost m: Matrix, ghost x: Input, ghost shift: seq<bool>)
      requires Wired() && Sized(m, n) && |shift| == n
      requires forall i, j | 0 <= i < n && 0 <= j < n :: nextAge[i, j] == NextCell(m, n, x, shift, i, j)
      modifies age
      ensures forall i | 0 <= i < n :: Row(i) == NextRow(m, n, x, shift, i)
    {
      forall i, j | 0 <= i < n && 0 <= j <= n {
        age[i, j] := if j < n then nextAge[i, j] else false;
      }
    }

    /** p_wr_col */
    method ShiftWriteColumn(we: bool, re: bool)
      requires Wired()
      modifies wrCol
      ensures wrCol[..] == if re && !we then old(wrCol[1..]) + [false]
                           else if we && !re then [false] + old(wrCol[..n])
                           else old(wrCol[..])
    {
      if re && !we {
        forall j | 0 <= j <= n { wrCol[j] := if j < n then wrCol[j + 1] else false; }
      } else if we && !re {
        forall j | 0 <= j <= n { wrCol[j] := if 0 < j then wrCol[j - 1] else false; }
      }
    }

    /** One rising edge; `out` is what `o_rd_addr` shows just before it. */
    method Clock(x: Input) returns (out: Option<nat>)
      requires Wired() && InputOk(n, x)
      modifies age, nextAge, wrCol
      ensures out == ReadAddr(old(View()), n, x.mask)
      ensures View() == AgeMatrix.Clock(old(View()), n, x)
    {
      hide NextCell, ReadAddr, ColMask, ShiftEnable, ColumnMasked;
      out := ReadAddress(x.mask);
      if x.rst {
        Reset();
        return;
      }
      ghost var m := View();
      var we, re := x.we && !wrCol[n], x.re && !wrCol[0];
      var col := ColumnMask(x.mask);
      var shift := ShiftEncoder(re, col);
      NextAge(x, shift);
      Latch(m, x, shift);
      ShiftWriteColumn(we, re);
      assert forall i | 0 <= i < n :: View().cells[i] == Row(i);
    }
  }
}
