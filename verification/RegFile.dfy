/** The register file and rename table of sw/src/reg.c. */
module RegisterFile {
  import opened Base

  /** Values, the reorder buffer slot that will produce each one, and whether it is still awaited. */
  datatype Regs = Regs(x: seq<int32>, s: seq<nat>, d: seq<bool>)

  predicate RegsOk(r: Regs, size: nat) {
    |r.x| == size && |r.s| == size && |r.d| == size
  }

  /**
   * A committed value. The source clears the dirty flag whatever the register awaits
   * (`checkTag` false); with `checkTag` it does so only for the slot the register awaits.
   */
  function WriteData(checkTag: bool, r: Regs, addr: nat, data: int32, tag: nat): Regs
    requires RegsOk(r, |r.x|)
  {
    if addr >= |r.x| || addr == 0 then r else
    r.(x := r.x[addr := data],
       d := if checkTag && r.s[addr] != tag then r.d else r.d[addr := false])
  }

  /** Renames a register to the slot that will produce it. */
  function WriteSource(r: Regs, addr: nat, src: nat): Regs
    requires RegsOk(r, |r.x|)
  {
    if addr >= |r.x| || addr == 0 then r else
    r.(s := r.s[addr := src], d := r.d[addr := true])
  }

  class RegFile {
    const size: nat
    const x: array<int32>
    const s: array<nat>
    const d: array<bool>

    ghost predicate Valid()
      reads this
    {
      x.Length == size && s.Length == size && d.Length == size
    }

    function State(): Regs
      reads this, x, s, d
    {
      Regs(x[..], s[..], d[..])
    }

    /** Only x0 is given a value; the others hold what the allocator left. */
    constructor (size: nat)
      requires size != 0
      ensures Valid() && this.size == size
      ensures fresh(x) && fresh(s) && fresh(d)
      ensures x[0] == 0
      ensures forall r | 0 <= r < size :: !d[r] && s[r] == 0
    {
      this.size := size;
      x := new int32[size];
      s := new nat[size](_ => 0);
      d := new bool[size](_ => false);
      new;
      x[0] := 0;
      s[0] := 0;
    }

    method ReadValue(addr: nat, was: int32) returns (ok: bool, value: int32)
      requires Valid()
      ensures ok == (addr < size)
      ensures value == if addr < size then x[addr] else was
    {
      if addr >= size {
        return false, was;
      }
      ok, value := true, x[addr];
    }

    method WriteValue(checkTag: bool, addr: nat, value: int32, tag: nat) returns (ok: bool)
      requires Valid()
      modifies x, d
      ensures ok == (0 < addr < size)
      ensures State() == WriteData(checkTag, old(State()), addr, value, tag)
    {
      if addr >= size || addr == 0 {
        return false;
      }
      x[addr] := value;
      if !checkTag || s[addr] == tag {
        d[addr] := false;
      }
      ok := true;
    }

    method ReadTag(addr: nat, was: nat) returns (dirty: bool, src: nat)
      requires Valid()
      ensures dirty == (addr < size && d[addr])
      ensures src == if addr < size then s[addr] else was
    {
      if addr >= size {
        return false, was;
      }
      src := s[addr];
      dirty := d[addr];
    }

    method WriteTag(addr: nat, src: nat) returns (ok: bool)
      requires Valid()
      modifies s, d
      ensures ok == (0 < addr < size)
      ensures State() == WriteSource(old(State()), addr, src)
    {
      if addr >= size || addr == 0 {
        return false;
      }
      s[addr] := src;
      d[addr] := true;
      ok := true;
    }
  }
}
