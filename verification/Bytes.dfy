// Bytes, fixed-width little-endian fields, checked 64-bit arithmetic and the
// "throw on false" result type that every device model below shares.
module Bytes {
  type byte = x: int | 0 <= x < 256
  type u16 = x: int | 0 <= x < 0x1_0000
  type u32 = x: int | 0 <= x < 0x1_0000_0000
  type u64 = x: int | 0 <= x < 0x1_0000_0000_0000_0000

  const U16_SPAN: int := 0x1_0000
  const U32_SPAN: int := 0x1_0000_0000
  const U64_SPAN: int := 0x1_0000_0000_0000_0000

  datatype Option<+T> = None | Some(value: T)

  // The source throws std::runtime_error; Err stands for the exception.
  datatype Result<+T> = Ok(value: T) | Err(error: string) {
    predicate IsFailure() { Err? }
    function PropagateFailure<U>(): Result<U>
      requires Err?
    {
      Err(error)
    }
    function Extract(): T
      requires Ok?
    {
      value
    }
  }

  function Min(a: int, b: int): int { if a <= b then a else b }

  function Max(a: int, b: int): int { if a >= b then a else b }

  function Zeros(n: nat): (z: seq<byte>)
    ensures |z| == n && forall i :: 0 <= i < n ==> z[i] == 0
  {
    seq(n, _ => 0)
  }

  // s with t laid over it from position off on.
  function Splice(s: seq<byte>, off: nat, t: seq<byte>): (r: seq<byte>)
    requires off + |t| <= |s|
    ensures |r| == |s|
  {
    s[..off] + t + s[off + |t|..]
  }

  lemma SpliceAt(s: seq<byte>, off: nat, t: seq<byte>)
    requires off + |t| <= |s|
    ensures var r := Splice(s, off, t);
            forall i :: 0 <= i < |s| ==> r[i] == if off <= i < off + |t| then t[i - off] else s[i]
  {
  }

  lemma SliceOfSlice<T>(s: seq<T>, a: nat, n: nat, b: nat, k: nat)
    requires a + n <= |s| && b + k <= n
    ensures s[a..a + n][b..b + k] == s[a + b..a + b + k]
  {
    var m, t, u := s[a..a + n], s[a..a + n][b..b + k], s[a + b..a + b + k];
    forall x | 0 <= x < k ensures t[x] == u[x] { assert m[b + x] == s[a + b + x]; }
  }

  lemma SliceJoin<T>(f: seq<T>, a: nat, b: nat, c: nat)
    requires a <= b <= c <= |f|
    ensures f[a..b] + f[b..c] == f[a..c]
  {
  }

  // memcpy into memory.
  method Store(mem: array<byte>, at: nat, data: seq<byte>)
    requires at + |data| <= mem.Length
    modifies mem
    ensures mem[..] == Splice(old(mem[..]), at, data)
  {
    forall i | 0 <= i < |data| { mem[at + i] := data[i]; }
  }

  function U16At(m: seq<byte>, a: nat): u16
    requires a + 2 <= |m|
  {
    (m[a] as int) + 0x100 * (m[a + 1] as int)
  }

  function U32At(m: seq<byte>, a: nat): u32
    requires a + 4 <= |m|
  {
    (U16At(m, a) as int) + 0x1_0000 * (U16At(m, a + 2) as int)
  }

  function U64At(m: seq<byte>, a: nat): u64
    requires a + 8 <= |m|
  {
    (U32At(m, a) as int) + 0x1_0000_0000 * (U32At(m, a + 4) as int)
  }

  function Le16(v: u16): (b: seq<byte>)
    ensures |b| == 2 && U16At(b, 0) == v
  {
    [v % 0x100, v / 0x100]
  }

  function Le32(v: u32): (b: seq<byte>)
    ensures |b| == 4 && U32At(b, 0) == v
  {
    Le16(v % 0x1_0000) + Le16(v / 0x1_0000)
  }

  function Le64(v: u64): (b: seq<byte>)
    ensures |b| == 8 && U64At(b, 0) == v
  {
    var lo, hi := Le32(v % 0x1_0000_0000), Le32(v / 0x1_0000_0000);
    var b := lo + hi;
    assert b[..4] == lo && b[4..] == hi;
    assert U32At(b, 0) == U32At(lo, 0) && U32At(b, 4) == U32At(hi, 0);
    b
  }

  // A field read out of a larger buffer is the field read out of its own bytes.
  lemma FieldOfSlice(m: seq<byte>, a: nat, n: nat)
    requires a + n <= |m|
    ensures n == 2 ==> U16At(m, a) == U16At(m[a..a + n], 0)
    ensures n == 4 ==> U32At(m, a) == U32At(m[a..a + n], 0)
    ensures n == 8 ==> U64At(m, a) == U64At(m[a..a + n], 0)
  {
  }

  // Fields are little-endian.
  lemma LittleEndian(m: seq<byte>, a: nat)
    ensures a + 2 <= |m| ==> U16At(m, a) == Num(m, a) + 0x100 * Num(m, a + 1)
    ensures a + 4 <= |m| ==>
            U32At(m, a) == Num(m, a) + 0x100 * Num(m, a + 1) + 0x1_0000 * Num(m, a + 2) + 0x100_0000 * Num(m, a + 3)
    ensures a + 8 <= |m| ==>
            U64At(m, a) == Num(m, a) + 0x100 * Num(m, a + 1) + 0x1_0000 * Num(m, a + 2) + 0x100_0000 * Num(m, a + 3)
                           + 0x1_0000_0000 * Num(m, a + 4) + 0x100_0000_0000 * Num(m, a + 5)
                           + 0x1_0000_0000_0000 * Num(m, a + 6) + 0x100_0000_0000_0000 * Num(m, a + 7)
  {
  }

  function Num(m: seq<byte>, a: nat): nat
    requires a < |m|
  {
    m[a]
  }

  // The bytes of a field are the only ones with its value.
  lemma FieldBack16(m: seq<byte>, a: nat)
    requires a + 2 <= |m|
    ensures m[a..a + 2] == Le16(U16At(m, a))
  {
    var v := U16At(m, a);
    assert v % 0x100 == m[a] && v / 0x100 == m[a + 1];
  }

  lemma FieldBack32(m: seq<byte>, a: nat)
    requires a + 4 <= |m|
    ensures m[a..a + 4] == Le32(U32At(m, a))
  {
    hide Le16, U16At;
    FieldBack16(m, a);
    FieldBack16(m, a + 2);
    var v := U32At(m, a);
    assert v % 0x1_0000 == U16At(m, a) && v / 0x1_0000 == U16At(m, a + 2);
    assert m[a..a + 4] == m[a..a + 2] + m[a + 2..a + 4];
  }

  lemma FieldBack64(m: seq<byte>, a: nat)
    requires a + 8 <= |m|
    ensures m[a..a + 8] == Le64(U64At(m, a))
  {
    hide Le32, U32At;
    FieldBack32(m, a);
    FieldBack32(m, a + 4);
    var v := U64At(m, a);
    assert v % 0x1_0000_0000 == U32At(m, a) && v / 0x1_0000_0000 == U32At(m, a + 4);
    assert m[a..a + 8] == m[a..a + 4] + m[a + 4..a + 8];
  }

  function CheckedAdd(a: u64, b: u64): Result<u64> {
    if a + b < U64_SPAN then Ok(a + b) else Err("overflow")
  }

  function CheckedMul(a: u64, b: u64): Result<u64> {
    if a * b < U64_SPAN then
      MulNonNegative(a, b);
      Ok(a * b)
    else Err("overflow")
  }

  lemma MulNonNegative(a: nat, b: nat)
    ensures 0 <= a * b
  {
  }

  // offset <= total && len <= total - offset, with no 64-bit sum to wrap.
  predicate InRange(total: nat, offset: nat, len: nat) {
    offset <= total && len <= total - offset
  }
}
