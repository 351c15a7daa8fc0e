/** Numeric types, values as bit patterns, and the little-endian byte layout of linear memory. */
module Values {

  type Byte = b: int | 0 <= b < 256

  datatype Option<+T> = None | Some(value: T)

  datatype ValType = I32 | I64 | F32 | F64 | V128

  /** Width in bytes of a value of the given type. */
  function Size(t: ValType): nat {
    match t
    case I32 => 4
    case I64 => 8
    case F32 => 4
    case F64 => 8
    case V128 => 16
  }

  function Pow256(k: nat): (p: nat)
    ensures p >= 1
  {
    if k == 0 then 1 else 256 * Pow256(k - 1)
  }

  datatype RawValue = Value(ty: ValType, bits: nat)

  /** A value is its type and its bit pattern; floats and vectors are never interpreted. */
  type Value = v: RawValue | v.bits < Pow256(Size(v.ty)) witness Value(I32, 0)

  const WORD: int := 0x1_0000_0000

  lemma WordIsPow256()
    ensures Pow256(4) == WORD
  {
    assert Pow256(1) == 256 && Pow256(2) == 0x1_0000 && Pow256(3) == 0x100_0000;
  }

  /** The i32 value congruent to n: 32-bit arithmetic wraps around. */
  function Int32(n: int): (v: Value)
    ensures v.ty == I32 && v.bits == n % WORD
  {
    WordIsPow256();
    Value(I32, n % WORD)
  }

  /** The reading of a 32-bit pattern as a two's-complement integer. */
  function Signed32(bits: int): int {
    if bits < 0x8000_0000 then bits else bits - WORD
  }

  lemma SignedOfInt32(n: int)
    requires -0x8000_0000 <= n < 0x8000_0000
    ensures Signed32(Int32(n).bits) == n
  {
  }

  function Zero(t: ValType): Value {
    Value(t, 0)
  }

  function Zeros(ts: seq<ValType>): (vs: seq<Value>)
    ensures |vs| == |ts|
    ensures forall i :: 0 <= i < |ts| ==> vs[i] == Zero(ts[i])
  {
    seq(|ts|, i requires 0 <= i < |ts| => Zero(ts[i]))
  }

  function TypesOf(vs: seq<Value>): (ts: seq<ValType>)
    ensures |ts| == |vs|
    ensures forall i :: 0 <= i < |vs| ==> ts[i] == vs[i].ty
  {
    seq(|vs|, i requires 0 <= i < |vs| => vs[i].ty)
  }

  /** The k low-order bytes of n, least significant first. */
  function ToBytes(n: nat, k: nat): (bs: seq<Byte>)
    ensures |bs| == k
  {
    if k == 0 then [] else [n % 256] + ToBytes(n / 256, k - 1)
  }

  function FromBytes(bs: seq<Byte>): (n: nat)
    ensures n < Pow256(|bs|)
  {
    if bs == [] then 0 else bs[0] + 256 * FromBytes(bs[1..])
  }

  /** Little-endian encoding loses nothing of a number that fits its width. */
  lemma {:induction false} BytesRoundTrip(n: nat, k: nat)
    requires n < Pow256(k)
    ensures FromBytes(ToBytes(n, k)) == n
  {
    if k > 0 {
      BytesRoundTrip(n / 256, k - 1);
      assert ToBytes(n, k)[1..] == ToBytes(n / 256, k - 1);
    }
  }

  function Encode(v: Value): (bs: seq<Byte>)
    ensures |bs| == Size(v.ty)
  {
    ToBytes(v.bits, Size(v.ty))
  }

  function Decode(t: ValType, bs: seq<Byte>): (v: Value)
    requires |bs| == Size(t)
    ensures v.ty == t
  {
    Value(t, FromBytes(bs))
  }

  lemma ValueRoundTrip(v: Value)
    ensures Decode(v.ty, Encode(v)) == v
  {
    BytesRoundTrip(v.bits, Size(v.ty));
  }
}
