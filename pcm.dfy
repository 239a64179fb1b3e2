/**
  Raw PCM as the decoder writes it: signed 16-bit samples, little-endian, mono.
  `FromBuffer` is numpy's `frombuffer(data, dtype=int16)` and `ToBytes` is `tobytes()`.
*/
module Pcm {

  /** One byte of the decoder's output. */
  type Byte = x: int | 0 <= x < 0x100

  /** A signed 16-bit sample. */
  type Int16 = x: int | -0x8000 <= x < 0x8000

  /** The two little-endian bytes of a sample, in two's complement. */
  function BytesOf(s: Int16): (b: seq<Byte>)
    ensures |b| == 2
  {
    var u := if s < 0 then s + 0x1_0000 else s;
    [u % 0x100, u / 0x100]
  }

  /** The sample stored little-endian in the byte pair (lo, hi). */
  function SampleOf(lo: Byte, hi: Byte): Int16
  {
    var u := lo + 0x100 * hi;
    if u < 0x8000 then u else u - 0x1_0000
  }

  /** Reading a sample back from its bytes gives the sample. */
  lemma SampleBytesRoundTrip(s: Int16)
    ensures SampleOf(BytesOf(s)[0], BytesOf(s)[1]) == s
  {
  }

  /** Writing the sample of a byte pair gives the pair back. */
  lemma BytesSampleRoundTrip(lo: Byte, hi: Byte)
    ensures BytesOf(SampleOf(lo, hi)) == [lo, hi]
  {
  }

  /** The samples of a byte buffer with a whole number of samples, two bytes each, in order. */
  function FromBuffer(data: seq<Byte>): (s: seq<Int16>)
    requires |data| % 2 == 0
    ensures |s| == |data| / 2
    decreases |data|
  {
    if data == [] then [] else [SampleOf(data[0], data[1])] + FromBuffer(data[2..])
  }

  /** Sample `i` of a buffer is read from bytes `2 * i` and `2 * i + 1`. */
  lemma {:induction false} FromBufferAt(data: seq<Byte>, i: nat)
    requires |data| % 2 == 0 && i < |data| / 2
    ensures FromBuffer(data)[i] == SampleOf(data[2 * i], data[2 * i + 1])
    decreases i
  {
    if i > 0 {
      FromBufferAt(data[2..], i - 1);
    }
  }

  /** The bytes of a sample sequence, two per sample, in order. */
  function ToBytes(s: seq<Int16>): (b: seq<Byte>)
    ensures |b| == 2 * |s|
  {
    if s == [] then [] else BytesOf(s[0]) + ToBytes(s[1..])
  }

  /** `k` samples of silence. */
  function Silence(k: nat): (s: seq<Int16>)
    ensures |s| == k && forall i :: 0 <= i < k ==> s[i] == 0
  {
    if k == 0 then [] else [0] + Silence(k - 1)
  }

  /** `k` zero bytes. */
  function Zeros(k: nat): (z: seq<Byte>)
    ensures |z| == k && forall i :: 0 <= i < k ==> z[i] == 0
  {
    if k == 0 then [] else [0] + Zeros(k - 1)
  }

  /** Converting bytes to samples and back gives the original bytes. */
  lemma {:induction false} ToBytesFromBuffer(data: seq<Byte>)
    requires |data| % 2 == 0
    ensures ToBytes(FromBuffer(data)) == data
    decreases |data|
  {
    if data != [] {
      ToBytesFromBuffer(data[2..]);
      BytesSampleRoundTrip(data[0], data[1]);
      assert FromBuffer(data)[1..] == FromBuffer(data[2..]);
      assert data == [data[0], data[1]] + data[2..];
    }
  }

  /** Converting samples to bytes and back gives the original samples. */
  lemma {:induction false} FromBufferToBytes(s: seq<Int16>)
    ensures FromBuffer(ToBytes(s)) == s
  {
    if s != [] {
      FromBufferToBytes(s[1..]);
      var b := ToBytes(s);
      assert b[2..] == ToBytes(s[1..]);
      SampleBytesRoundTrip(s[0]);
    }
  }

  /** `tobytes` distributes over concatenation. */
  lemma {:induction false} ToBytesConcat(a: seq<Int16>, b: seq<Int16>)
    ensures ToBytes(a + b) == ToBytes(a) + ToBytes(b)
  {
    if a != [] {
      ToBytesConcat(a[1..], b);
      assert (a + b)[1..] == a[1..] + b;
    } else {
      assert a + b == b;
    }
  }

  /** Silence is stored as zero bytes. */
  lemma {:induction false} ToBytesSilence(k: nat)
    ensures ToBytes(Silence(k)) == Zeros(2 * k)
  {
    if k > 0 {
      ToBytesSilence(k - 1);
      assert Silence(k)[1..] == Silence(k - 1);
      assert Zeros(2 * k) == [0, 0] + Zeros(2 * (k - 1));
    }
  }
}
