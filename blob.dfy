/**
 * The stored embedding blob and its decoding with `np.frombuffer(blob, dtype=np.float32)`.
 * A float32 is kept as its four raw bytes; how those bits read as a number is not modelled.
 */
module Blob {
  import opened Wrappers

  newtype byte = x: int | 0 <= x < 256

  /** The four bytes of one float32 element, in buffer order. */
  datatype Float32Bits = Float32Bits(b0: byte, b1: byte, b2: byte, b3: byte)

  /** The k-th four-byte group of a buffer. */
  function Group(blob: seq<byte>, k: nat): (w: Float32Bits)
    requires 4 * k + 4 <= |blob|
  {
    Float32Bits(blob[4 * k], blob[4 * k + 1], blob[4 * k + 2], blob[4 * k + 3])
  }

  /**
   * `np.frombuffer(blob, dtype=np.float32)`: the buffer read as consecutive four-byte
   * elements. It raises (here `None`) when the length is not a multiple of the element size.
   */
  function Decode(blob: seq<byte>): (r: Option<seq<Float32Bits>>)
    ensures r.Some? <==> |blob| % 4 == 0
    ensures r.Some? ==> |r.value| == |blob| / 4
    ensures r.Some? ==> forall k :: 0 <= k < |r.value| ==> r.value[k] == Group(blob, k)
    decreases |blob|
  {
    if |blob| == 0 then Some([])
    else if |blob| < 4 then None
    else
      match Decode(blob[4..])
      case None => None
      case Some(rest) => Some([Group(blob, 0)] + rest)
  }

  /** The inverse of `np.frombuffer`: the bytes of a vector of float32 elements, four per element. */
  function Encode(v: seq<Float32Bits>): (blob: seq<byte>)
  {
    if v == [] then []
    else [v[0].b0, v[0].b1, v[0].b2, v[0].b3] + Encode(v[1..])
  }

  /** Decoding the bytes of a stored vector gives that vector back. */
  lemma {:induction false} DecodeEncode(v: seq<Float32Bits>)
    ensures |Encode(v)| == 4 * |v|
    ensures Decode(Encode(v)) == Some(v)
  {
    if v != [] {
      DecodeEncode(v[1..]);
      var blob := Encode(v);
      assert blob[4..] == Encode(v[1..]);
      assert Group(blob, 0) == v[0];
      assert [v[0]] + v[1..] == v;
    }
  }

  /** A buffer that decodes is exactly the bytes of the vector it decodes to. */
  lemma {:induction false} EncodeDecode(blob: seq<byte>)
    requires Decode(blob).Some?
    ensures Encode(Decode(blob).value) == blob
    decreases |blob|
  {
    if |blob| != 0 {
      var v := Decode(blob).value;
      var rest := Decode(blob[4..]).value;
      EncodeDecode(blob[4..]);
      assert v == [Group(blob, 0)] + rest;
      assert v[1..] == rest;
      assert blob == blob[..4] + blob[4..];
    }
  }
}
