/** Primitive values of the binary table codec: bytes, USHORTs, and the
    failure conditions of encoding and decoding. */
module Types {

  /** One byte, as DataView.getUint8 returns it. */
  type byte = x: int | 0 <= x < 0x100

  /** An unsigned 16-bit big-endian integer (the OpenType USHORT). */
  type u16 = x: int | 0 <= x < 0x1_0000

  /** What can make an encode, a parse or a listing fail. */
  datatype Error =
    | IntegerOverflow     // a USHORT field holds a value outside 0..0xFFFF
    | TruncatedData       // a read runs past the end of the buffer
    | MissingStringPool   // the last field of a table is not the 'strings' pool
    | IllTyped            // a field's value does not have the type its use needs

  datatype Result<+T> = Success(value: T) | Failure(error: Error) {
    predicate IsFailure() { Failure? }
    function PropagateFailure<U>(): Result<U> requires Failure? { Failure(error) }
    function Extract(): T requires Success? { value }
  }

  datatype Option<+T> = None | Some(value: T)

  predicate InU16(v: int) { 0 <= v <= 0xFFFF }

  /** The USHORT whose high byte is hi and low byte is lo. */
  function Word(hi: byte, lo: byte): u16
  {
    hi as int * 0x100 + lo as int
  }

  /** The two bytes of a USHORT, most significant first. */
  function U16Bytes(v: u16): (r: seq<byte>)
    ensures |r| == 2
  {
    [v / 0x100, v % 0x100]
  }

  /** encode.USHORT: two big-endian bytes, or IntegerOverflow when the value
      does not fit in 16 unsigned bits. */
  function EncodeUShort(v: int): (r: Result<seq<byte>>)
    ensures r.Success? <==> InU16(v)
    ensures r.Failure? ==> r.error == IntegerOverflow
    ensures r.Success? ==> r.value == U16Bytes(v)
  {
    if InU16(v) then Success(U16Bytes(v)) else Failure(IntegerOverflow)
  }

  /** decode.USHORT: the big-endian value of the two bytes at p. */
  function U16At(data: seq<byte>, p: nat): u16
    requires p + 2 <= |data|
  {
    Word(data[p], data[p + 1])
  }

  lemma SliceOfSlice<T>(s: seq<T>, a: nat, b: nat, c: nat, d: nat)
    requires a <= b <= |s| && c <= d <= b - a
    ensures s[a..b][c..d] == s[a + c .. a + d]
  {
    forall k | 0 <= k < d - c ensures s[a..b][c..d][k] == s[a + c .. a + d][k] { }
  }

  /** A slice inside the left operand of a concatenation. */
  lemma AppendSliceLeft<T>(a: seq<T>, b: seq<T>, lo: nat, hi: nat)
    requires lo <= hi <= |a|
    ensures (a + b)[lo..hi] == a[lo..hi]
  {
  }

  /** Decoding the bytes that encoding produced gives back the value,
      wherever they sit in a buffer. */
  lemma U16RoundTrip(prefix: seq<byte>, v: u16, suffix: seq<byte>)
    ensures U16At(prefix + U16Bytes(v) + suffix, |prefix|) == v
  {
    var data := prefix + U16Bytes(v) + suffix;
    assert data[|prefix|] == U16Bytes(v)[0] && data[|prefix| + 1] == U16Bytes(v)[1];
  }
}
