/** Types and list helpers shared by every component. */
module Base {

  /** The machine's 32-bit two's complement integers. */
  type int32 = x: int | -0x8000_0000 <= x < 0x8000_0000

  datatype Option<+T> = None | Some(value: T)

  /** `a % n` for an `a` that passes `n` at most once. */
  function Wrap(a: nat, n: nat): (r: nat)
    requires 0 < n && a < 2 * n
    ensures r == if a < n then a else a - n
  {
    ModOnce(a, n);
    a % n
  }

  lemma ModOnce(a: nat, n: nat)
    requires 0 < n && a < 2 * n
    ensures a % n == if a < n then a else a - n
  {
  }

  /** The indices below `n` whose element satisfies `p`, lowest first. */
  function Indices<T>(s: seq<T>, p: T -> bool, n: nat): (r: seq<nat>)
    requires n <= |s|
    ensures |r| <= n
    ensures forall k | 0 <= k < |r| :: r[k] < n && p(s[r[k]])
    ensures forall k, m | 0 <= k < m < |r| :: r[k] < r[m]
    ensures forall i | 0 <= i < n && p(s[i]) :: i in r
  {
    if n == 0 then [] else
    Indices(s, p, n - 1) + if p(s[n - 1]) then [n - 1] else []
  }

  lemma {:induction false} NoIndices<T>(s: seq<T>, p: T -> bool, n: nat)
    requires n <= |s| && forall i | 0 <= i < n :: !p(s[i])
    ensures Indices(s, p, n) == []
  {
    if n != 0 {
      NoIndices(s, p, n - 1);
    }
  }

  lemma {:induction false} OnlyIndex<T>(s: seq<T>, p: T -> bool, n: nat, k: nat)
    requires k < n <= |s| && p(s[k]) && forall i | 0 <= i < n && i != k :: !p(s[i])
    ensures Indices(s, p, n) == [k]
  {
    if n == k + 1 {
      NoIndices(s, p, k);
    } else {
      OnlyIndex(s, p, n - 1, k);
    }
  }

  /** The list starts with the lowest index there is. */
  lemma FirstIndex<T>(s: seq<T>, p: T -> bool, n: nat, k: nat)
    requires k < n <= |s| && p(s[k]) && forall i | 0 <= i < k :: !p(s[i])
    ensures Indices(s, p, n) != [] && Indices(s, p, n)[0] == k
  {
    var r := Indices(s, p, n);
    assert k in r;
    assert r[0] <= k && p(s[r[0]]);
  }
}
