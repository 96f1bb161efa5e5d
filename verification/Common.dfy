/** Small vocabulary shared by every module: options, 32-bit arithmetic and ordered sequences. */
module Common {

  datatype Option<+T> = None | Some(value: T) {
    function GetOr(default: T): T {
      if Some? then value else default
    }
  }

  /** One more than the largest `unsigned int`. */
  const TWO_32: nat := 0x1_0000_0000

  /** The eSTATUS values that the modelled calls return. */
  datatype Status = SUCCESS | ERROR | SOCKET_INITIALIZATION_FAILED

  type Byte = b: int | 0 <= b < 256
  type U32 = n: int | 0 <= n < TWO_32
  type U64 = n: int | 0 <= n < TWO_32 * TWO_32

  /** `++` on an `unsigned int`. */
  function Inc(c: U32): U32 { if c == TWO_32 - 1 then 0 else c + 1 }

  /** `--` on an `unsigned int`. */
  function Dec(c: U32): U32 { if c == 0 then TWO_32 - 1 else c - 1 }

  /** Bytes up to, and without, the NUL that ends a C string. */
  type Text = seq<Byte>

  /** The ids 0, 1, ..., n-1 in order. */
  function Range(n: nat): (r: seq<nat>)
    ensures |r| == n
    ensures forall i :: 0 <= i < n ==> r[i] == i
  {
    seq(n, i => i)
  }

  /** Each id in 0..n-1 occurs once in `Range(n)` and no other id occurs. */
  lemma {:induction false} RangeOnce(n: nat, i: nat)
    ensures multiset(Range(n))[i] == if i < n then 1 else 0
  {
    if n == 0 {
      assert Range(0) == [];
    } else {
      RangeOnce(n - 1, i);
      assert Range(n) == Range(n - 1) + [n - 1];
    }
  }

  /** Strictly increasing. */
  ghost predicate Increasing(s: seq<nat>) {
    forall i, j :: 0 <= i < j < |s| ==> s[i] < s[j]
  }

  /** Every element of `s` is below `b`. */
  ghost predicate Below(s: seq<nat>, b: int) {
    forall i :: 0 <= i < |s| ==> s[i] < b
  }
}
