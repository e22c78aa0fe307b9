/** The byte memories of sw/src/mem.c and sw/ELE749_projet1-develop/src/procState.c. */
module WrappingMemory {

  type byte = b: nat | b < 256

  /** Addresses are 32 bits wide, and wrap before they are reduced to the memory's size. */
  const ADDR_RANGE := 0x1_0000_0000

  /** Where byte `i` of an access at `addr` goes. */
  function Index(size: nat, addr: int, i: nat): (c: nat)
    requires 0 < size
    ensures c < size
  {
    ((addr + i) % ADDR_RANGE) % size
  }

  /** The byte after the last address of 32 bits is the first of the memory. */
  lemma WrapsAt32Bits(size: nat, addr: nat, i: nat)
    requires 0 < size && addr <= 0xFFFF_FFFF && i < 0x1_0000_0000
    ensures Index(size, addr, i) ==
            if addr + i <= 0xFFFF_FFFF then (addr + i) % size else (addr + i - 0x1_0000_0000) % size
  {
  }

  /** The memory after the first `k` bytes of `d` are stored. */
  function Stored(mem: seq<byte>, addr: int, d: seq<byte>, k: nat): (r: seq<byte>)
    requires 0 < |mem| && k <= |d|
    ensures |r| == |mem|
  {
    if k == 0 then mem else Stored(mem, addr, d, k - 1)[Index(|mem|, addr, k - 1) := d[k - 1]]
  }

  function Loaded(mem: seq<byte>, addr: int, n: nat): (d: seq<byte>)
    requires 0 < |mem|
    ensures |d| == n && forall i | 0 <= i < n :: d[i] == mem[Index(|mem|, addr, i)]
  {
    seq(n, i requires 0 <= i < n => mem[Index(|mem|, addr, i)])
  }

  function Reversed(d: seq<byte>): (r: seq<byte>)
    ensures |r| == |d| && forall i | 0 <= i < |d| :: r[i] == d[|d| - 1 - i]
  {
    seq(|d|, i requires 0 <= i < |d| => d[|d| - 1 - i])
  }

  /** A buffer as the memory orders it: lowest byte first, whatever the host's order. */
  function Oriented(little: bool, d: seq<byte>): (r: seq<byte>)
    ensures |r| == |d|
  {
    if little then d else Reversed(d)
  }

  // ---------------------------------------------------------------------------
  // Stores
  // ---------------------------------------------------------------------------

  lemma {:induction false} StoredAt(mem: seq<byte>, addr: int, d: seq<byte>, k: nat, j: nat)
    requires 0 < |mem| && j < k <= |d|
    requires forall l | j < l < k :: Index(|mem|, addr, l) != Index(|mem|, addr, j)
    ensures Stored(mem, addr, d, k)[Index(|mem|, addr, j)] == d[j]
  {
    if j < k - 1 {
      StoredAt(mem, addr, d, k - 1, j);
      assert Index(|mem|, addr, k - 1) != Index(|mem|, addr, j);
    }
  }

  lemma {:induction false} StoredElsewhere(mem: seq<byte>, addr: int, d: seq<byte>, k: nat, c: nat)
    requires 0 < |mem| && k <= |d| && c < |mem|
    requires forall l | 0 <= l < k :: Index(|mem|, addr, l) != c
    ensures Stored(mem, addr, d, k)[c] == mem[c]
  {
    if k != 0 {
      StoredElsewhere(mem, addr, d, k - 1, c);
    }
  }

  // ---------------------------------------------------------------------------
  // When an access meets no byte twice
  // ---------------------------------------------------------------------------

  ghost predicate Injective(size: nat, addr: int, n: nat)
    requires 0 < size
  {
    forall i, j | 0 <= i < j < n :: Index(size, addr, i) != Index(size, addr, j)
  }

  /** The access fits the memory and does not fold onto itself where 32-bit addresses wrap. */
  predicate FitsGuard(size: nat, addr: int, n: nat)
    requires 0 < size
  {
    && n <= size
    && (addr % ADDR_RANGE + n <= ADDR_RANGE || ADDR_RANGE % size == 0 || n <= ADDR_RANGE % size)
  }

  lemma MulSmall(k: int, size: nat)
    requires k * size < size && 0 < k * size + size
    ensures k == 0
  {
  }

  /** Quotient and remainder are unique. */
  lemma Residue(x: int, q: int, r: int, size: nat)
    requires 0 <= r < size && x == q * size + r
    ensures x % size == r
  {
    var q', r' := x / size, x % size;
    assert x == q' * size + r';
    assert (q - q') * size == r' - r;
    MulSmall(q - q', size);
  }

  /** Equal residues are a whole number of sizes apart. */
  lemma SameResidue(x: nat, y: nat, size: nat)
    requires 0 < size && x % size == y % size
    ensures x - y == (x / size - y / size) * size
  {
  }

  lemma NearResidues(x: nat, y: nat, size: nat)
    requires 0 < size && x < y < x + size
    ensures x % size != y % size
  {
    if x % size == y % size {
      SameResidue(y, x, size);
      MulSmall(y / size - x / size, size);
    }
  }

  lemma WrapOnce(addr: int, i: nat)
    requires i < ADDR_RANGE
    ensures var a := addr % ADDR_RANGE;
            (addr + i) % ADDR_RANGE == if a + i < ADDR_RANGE then a + i else a + i - ADDR_RANGE
  {
  }

  /** `y` lies past the end of the address range, less than a whole memory after `x`. */
  lemma FoldedApart(x: nat, y: nat, size: nat)
    requires 0 < size < ADDR_RANGE && x < y + ADDR_RANGE < x + size
    requires ADDR_RANGE % size == 0 || y + ADDR_RANGE - x < ADDR_RANGE % size
    ensures x % size != y % size
  {
    var q, e := ADDR_RANGE / size, ADDR_RANGE % size;
    assert ADDR_RANGE == q * size + e;
    if x % size == y % size {
      SameResidue(x, y, size);
      var k := x / size - y / size;
      assert (q - k) * size == y + ADDR_RANGE - x - e;
      MulSmall(q - k, size);
    }
  }

  lemma FitsIsInjective(size: nat, addr: int, n: nat, i: nat, j: nat)
    requires 0 < size < ADDR_RANGE && FitsGuard(size, addr, n) && i < j < n
    ensures Index(size, addr, i) != Index(size, addr, j)
  {
    WrapOnce(addr, i);
    WrapOnce(addr, j);
    var a := addr % ADDR_RANGE;
    if a + j < ADDR_RANGE {
      NearResidues(a + i, a + j, size);
    } else if a + i >= ADDR_RANGE {
      NearResidues(a + i - ADDR_RANGE, a + j - ADDR_RANGE, size);
    } else {
      FoldedApart(a + i, a + j - ADDR_RANGE, size);
    }
  }

  /** An access longer than the memory that does not pass the end of the address range, or folds onto it. */
  lemma LongCollides(size: nat, addr: int)
    requires 0 < size < ADDR_RANGE && (ADDR_RANGE % size == 0 || addr % ADDR_RANGE + size < ADDR_RANGE)
    ensures Index(size, addr, 0) == Index(size, addr, size)
  {
    var a, q := addr % ADDR_RANGE, ADDR_RANGE / size;
    var p := a / size;
    assert a == p * size + a % size;
    WrapOnce(addr, 0);
    WrapOnce(addr, size);
    if a + size < ADDR_RANGE {
      Residue(a + size, p + 1, a % size, size);
    } else {
      assert ADDR_RANGE == q * size;
      assert a + size - ADDR_RANGE == (p + 1 - q) * size + a % size;
      Residue(a + size - ADDR_RANGE, p + 1 - q, a % size, size);
    }
  }

  /** A byte before the end of the address range and one behind it, `ADDR_RANGE % size` apart. */
  lemma FoldCollides(size: nat, addr: int, i: nat)
    requires 0 < size < ADDR_RANGE && ADDR_RANGE % size != 0 && addr % ADDR_RANGE != 0
    requires var l := ADDR_RANGE - addr % ADDR_RANGE; i == if l >= ADDR_RANGE % size then l - ADDR_RANGE % size else 0
    ensures Index(size, addr, i) == Index(size, addr, i + ADDR_RANGE % size)
  {
    var a, e, q := addr % ADDR_RANGE, ADDR_RANGE % size, ADDR_RANGE / size;
    var l := ADDR_RANGE - a;
    assert ADDR_RANGE == q * size + e;
    WrapOnce(addr, i);
    WrapOnce(addr, i + e);
    if l >= e {
      Residue(ADDR_RANGE - e, q, 0, size);
      Residue(0, 0, 0, size);
    } else {
      Residue(a, q, e - l, size);
      Residue(e - l, 0, e - l, size);
    }
  }

  /** Two bytes that meet, when the guard fails. */
  lemma UnfitCollides(size: nat, addr: int, n: nat) returns (i: nat, j: nat)
    requires 0 < size < ADDR_RANGE && n < ADDR_RANGE && !FitsGuard(size, addr, n)
    ensures i < j < n && Index(size, addr, i) == Index(size, addr, j)
  {
    hide Index;
    var a, e := addr % ADDR_RANGE, ADDR_RANGE % size;
    if e == 0 || a + n <= ADDR_RANGE {
      i, j := 0, size;
      LongCollides(size, addr);
    } else {
      i := if ADDR_RANGE - a >= e then ADDR_RANGE - a - e else 0;
      j := i + e;
      FoldCollides(size, addr, i);
    }
  }

  lemma InjectiveExact(size: nat, addr: int, n: nat)
    requires 0 < size < ADDR_RANGE && n < ADDR_RANGE
    ensures Injective(size, addr, n) <==> FitsGuard(size, addr, n)
  {
    if FitsGuard(size, addr, n) {
      forall i, j | 0 <= i < j < n ensures Index(size, addr, i) != Index(size, addr, j) {
        FitsIsInjective(size, addr, n, i, j);
      }
    } else {
      var i, j := UnfitCollides(size, addr, n);
    }
  }

  // ---------------------------------------------------------------------------
  // Round trip
  // ---------------------------------------------------------------------------

  lemma ReadBack(mem: seq<byte>, addr: int, d: seq<byte>)
    requires 0 < |mem| && Injective(|mem|, addr, |d|)
    ensures Loaded(Stored(mem, addr, d, |d|), addr, |d|) == d
    ensures forall c | 0 <= c < |mem| && (forall i | 0 <= i < |d| :: Index(|mem|, addr, i) != c) ::
              Stored(mem, addr, d, |d|)[c] == mem[c]
  {
    forall i | 0 <= i < |d| ensures Stored(mem, addr, d, |d|)[Index(|mem|, addr, i)] == d[i] {
      StoredAt(mem, addr, d, |d|, i);
    }
    forall c | 0 <= c < |mem| && (forall i | 0 <= i < |d| :: Index(|mem|, addr, i) != c)
      ensures Stored(mem, addr, d, |d|)[c] == mem[c]
    {
      StoredElsewhere(mem, addr, d, |d|, c);
    }
  }

  /** The last byte that reaches `Index(i)`, which is the one that stays. */
  lemma {:induction false} LastMeeting(size: nat, addr: int, n: nat, i: nat) returns (j: nat)
    requires 0 < size && i < n
    ensures i <= j < n && Index(size, addr, j) == Index(size, addr, i)
    ensures forall l | j < l < n :: Index(size, addr, l) != Index(size, addr, j)
    decreases n - i
  {
    if l :| i < l < n && Index(size, addr, l) == Index(size, addr, i) {
      j := LastMeeting(size, addr, n, l);
    } else {
      j := i;
    }
  }

  /**
   * Exactly when reading gives back what was written: for every content of the memory and every
   * data, the access must fit the memory and not fold onto itself at the end of the address range.
   */
  lemma RoundTripExact(size: nat, addr: int, n: nat)
    requires 0 < size < ADDR_RANGE && n < ADDR_RANGE
    ensures (forall mem: seq<byte>, d: seq<byte> | |mem| == size && |d| == n ::
               Loaded(Stored(mem, addr, d, n), addr, n) == d)
            <==> FitsGuard(size, addr, n)
  {
    InjectiveExact(size, addr, n);
    if FitsGuard(size, addr, n) {
      forall mem: seq<byte>, d: seq<byte> | |mem| == size && |d| == n
        ensures Loaded(Stored(mem, addr, d, n), addr, n) == d
      {
        ReadBack(mem, addr, d);
      }
    } else {
      var i, k := UnfitCollides(size, addr, n);
      var j := LastMeeting(size, addr, n, k);
      var mem: seq<byte>, d: seq<byte> := seq(size, _ => 0), seq(n, l => if l == i then 1 else 0);
      StoredAt(mem, addr, d, n, j);
      assert Loaded(Stored(mem, addr, d, n), addr, n)[i] == d[j] == 0;
      assert d[i] == 1;
    }
  }

  /** A value's bytes, lowest first, as a little-endian host holds them. */
  function Bytes(w: nat, n: nat): (d: seq<byte>)
    ensures |d| == n
  {
    if n == 0 then [] else [w % 256] + Bytes(w / 256, n - 1)
  }

  /** The same on a host of either order. */
  function InHostOrder(little: bool, w: nat, n: nat): seq<byte> {
    if little then Bytes(w, n) else Reversed(Bytes(w, n))
  }

  /**
   * Memory holds a value lowest byte first whichever host stores it, and gives it to whichever host
   * loads it in that host's own order.
   */
  lemma HostOrderInvisible(mem: seq<byte>, addr: int, writer: bool, reader: bool, w: nat, n: nat)
    requires 0 < |mem|
    ensures var mem' := Stored(mem, addr, Oriented(writer, InHostOrder(writer, w, n)), n);
      && mem' == Stored(mem, addr, Bytes(w, n), n)
      && (Injective(|mem|, addr, n) ==> Oriented(reader, Loaded(mem', addr, n)) == InHostOrder(reader, w, n))
  {
    assert Oriented(writer, InHostOrder(writer, w, n)) == Bytes(w, n);
    if Injective(|mem|, addr, n) {
      ReadBack(mem, addr, Bytes(w, n));
    }
  }

  // ---------------------------------------------------------------------------
  // The memory itself
  // ---------------------------------------------------------------------------

  class Memory {
    const mem: array<byte>

    constructor (size: nat)
      requires 0 < size < ADDR_RANGE
      ensures fresh(mem) && mem.Length == size
    {
      mem := new byte[size](_ => 0);
    }

    /** `mem_write` and `procWriteMem`. */
    method Store(little: bool, addr: int, data: array<byte>, n: nat) returns (written: nat)
      requires 0 < mem.Length && data != mem && n <= data.Length && n < ADDR_RANGE
      modifies mem
      ensures written == n
      ensures mem[..] == Stored(old(mem[..]), addr, Oriented(little, data[..n]), n)
    {
      if n == 0 {
        return 0;
      }
      ghost var was, d := mem[..], Oriented(little, data[..n]);
      for i := 0 to n
        invariant mem[..] == Stored(was, addr, d, i)
      {
        if little {
          mem[((addr + i) % ADDR_RANGE) % mem.Length] := data[i];
        } else {
          mem[((addr + i) % ADDR_RANGE) % mem.Length] := data[n - 1 - i];
        }
      }
      written := n;
    }

    /** `mem_read` and `procReadMem`. */
    method Load(little: bool, addr: int, data: array<byte>, n: nat) returns (read: nat)
      requires 0 < mem.Length && data != mem && n <= data.Length && n < ADDR_RANGE
      modifies data
      ensures read == n
      ensures Oriented(little, data[..n]) == Loaded(mem[..], addr, n)
      ensures data[n..] == old(data[n..])
    {
      if n == 0 {
        return 0;
      }
      for i := 0 to n
        invariant forall k | 0 <= k < i :: data[if little then k else n - 1 - k] == mem[Index(mem.Length, addr, k)]
        invariant data[n..] == old(data[n..])
      {
        if little {
          data[i] := mem[((addr + i) % ADDR_RANGE) % mem.Length];
        } else {
          data[n - 1 - i] := mem[((addr + i) % ADDR_RANGE) % mem.Length];
        }
      }
      read := n;
      assert forall i | 0 <= i < n :: Oriented(little, data[..n])[i] == mem[Index(mem.Length, addr, i)];
    }
  }
}
