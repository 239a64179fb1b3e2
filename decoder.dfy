/**
  The decoder process of `play_file`: an external program whose standard output is the
  file's audio as raw PCM, read through a blocking buffered pipe. `read(size)` on such a
  pipe returns `size` bytes, or whatever is left before end of stream, and an empty
  result once the stream is exhausted.
*/
module Decoder {
  import opened Pcm

  function Min(a: nat, b: nat): nat { if a <= b then a else b }

  /**
    The result of one `read(size)` after `consumed` bytes of `out` have been read: the
    next bytes of the stream, at most `size` of them, fewer only at end of stream, and
    none exactly when the stream is exhausted (or nothing was asked for).
  */
  function ReadResult(out: seq<Byte>, consumed: nat, size: nat): (data: seq<Byte>)
    requires consumed <= |out|
    ensures |data| <= size && consumed + |data| <= |out|
    ensures data == out[consumed .. consumed + |data|]
    ensures |data| < size ==> consumed + |data| == |out|
    ensures data == [] <==> (size == 0 || consumed == |out|)
  {
    out[consumed .. consumed + Min(size, |out| - consumed)]
  }

  /** The non-empty results of successive `read(size)` calls on a pipe holding `out`, in order. */
  function Reads(out: seq<Byte>, size: nat): seq<seq<Byte>>
    decreases |out|
  {
    var c := Min(size, |out|);
    if c == 0 then [] else [out[..c]] + Reads(out[c..], size)
  }

  /** The bytes of a sequence of reads, in order. */
  function Flatten(chunks: seq<seq<Byte>>): seq<Byte>
  {
    if chunks == [] then [] else chunks[0] + Flatten(chunks[1..])
  }

  /** The bytes of read number `i`, counting from 0, with `size` bytes per read. */
  function Window(out: seq<Byte>, size: nat, i: nat): (w: seq<Byte>)
    requires i * size <= |out|
    ensures |w| <= size
  {
    Distribute(i, size);
    out[i * size .. Min((i + 1) * size, |out|)]
  }

  lemma Distribute(k: int, b: int)
    ensures (k + 1) * b == k * b + b
    ensures k * b == (k - 1) * b + b
  {
  }

  lemma DropEven(a: nat, c: nat)
    requires c <= a && c % 2 == 0
    ensures (a - c) % 2 == a % 2
  {
  }

  /** A read on the unread part of the pipe either is empty at end of stream or comes first among the remaining reads. */
  lemma ReadStep(out: seq<Byte>, consumed: nat, size: nat)
    requires 0 < size && consumed <= |out|
    ensures var data := ReadResult(out, consumed, size);
      if data == [] then consumed == |out| && Reads(out[consumed..], size) == []
      else Reads(out[consumed..], size) == [data] + Reads(out[consumed + |data|..], size)
  {
    var rest := out[consumed..];
    var c := Min(size, |rest|);
    assert rest[..c] == out[consumed .. consumed + c];
    assert rest[c..] == out[consumed + c..];
  }

  /** Reading a stream to its end and concatenating the reads gives the stream back. */
  lemma {:induction false} ReadsFlatten(out: seq<Byte>, size: nat)
    requires size > 0
    ensures Flatten(Reads(out, size)) == out
    decreases |out|
  {
    var c := Min(size, |out|);
    if c > 0 {
      ReadsFlatten(out[c..], size);
      assert Reads(out, size)[1..] == Reads(out[c..], size);
      assert out == out[..c] + out[c..];
    }
  }

  /** Every read is non-empty and at most `size` bytes; only the last one may be short. */
  lemma {:induction false} ReadSizes(out: seq<Byte>, size: nat)
    requires size > 0
    ensures var r := Reads(out, size);
      forall i :: 0 <= i < |r| ==> 0 < |r[i]| <= size && (i < |r| - 1 ==> |r[i]| == size)
    decreases |out|
  {
    var c := Min(size, |out|);
    if c > 0 {
      ReadSizes(out[c..], size);
      var r := Reads(out, size);
      assert r[1..] == Reads(out[c..], size);
      assert |r| > 1 ==> c == size;
    }
  }

  /** `k` reads cover a stream of `L` bytes exactly when `(k - 1) * size < L <= k * size`. */
  lemma {:induction false} ReadCount(out: seq<Byte>, size: nat)
    requires size > 0
    ensures var k := |Reads(out, size)|;
      (k - 1) * size < |out| <= k * size
    decreases |out|
  {
    var c := Min(size, |out|);
    if c > 0 {
      ReadCount(out[c..], size);
      var k := |Reads(out[c..], size)|;
      assert |Reads(out, size)| == k + 1;
      Distribute(k, size);
      if k > 0 {
        assert c == size;
      }
    }
  }

  /** Read `i` holds bytes `i * size` up to `(i + 1) * size` of the stream: reads come in stream order. */
  lemma {:induction false} ReadAt(out: seq<Byte>, size: nat, i: nat)
    requires size > 0 && i < |Reads(out, size)|
    ensures i * size < |out|
    ensures Reads(out, size)[i] == Window(out, size, i)
    decreases |out|
  {
    var c := Min(size, |out|);
    var rest := out[c..];
    assert Reads(out, size) == [out[..c]] + Reads(rest, size);
    if i == 0 {
      assert i * size == 0;
      assert Window(out, size, 0) == out[..c];
    } else {
      ReadAt(rest, size, i - 1);
      assert c == size && |rest| == |out| - size;
      Distribute(i, size);
      WindowShift(out, size, i);
    }
  }

  /** Dropping the first read shifts the remaining reads down by one. */
  lemma WindowShift(out: seq<Byte>, size: nat, i: nat)
    requires 0 < i && size <= |out| && i * size <= |out|
    ensures (i - 1) * size <= |out[size..]|
    ensures Window(out, size, i) == Window(out[size..], size, i - 1)
  {
    var x := (i - 1) * size;
    Distribute(i - 1, size);
    Distribute(i, size);
    assert i * size == x + size && (i + 1) * size == x + 2 * size;
    var rest := out[size..];
    assert Window(rest, size, i - 1) == rest[x .. Min(x + size, |rest|)];
    assert Window(out, size, i) == out[x + size .. Min(x + 2 * size, |out|)];
  }

  /** With an even read size, every read holds whole samples exactly when the stream does; only the last read can be odd. */
  lemma {:induction false} ReadParity(out: seq<Byte>, size: nat)
    requires size > 0 && size % 2 == 0
    ensures forall i :: 0 <= i < |Reads(out, size)| - 1 ==> |Reads(out, size)[i]| % 2 == 0
    ensures |out| % 2 == 0 ==> forall i :: 0 <= i < |Reads(out, size)| ==> |Reads(out, size)[i]| % 2 == 0
    ensures (forall i :: 0 <= i < |Reads(out, size)| ==> |Reads(out, size)[i]| % 2 == 0) ==> |out| % 2 == 0
    decreases |out|
  {
    var c := Min(size, |out|);
    if c > 0 {
      var r := Reads(out, size);
      var rest := out[c..];
      var tail := Reads(rest, size);
      ReadParity(rest, size);
      assert r == [out[..c]] + tail;
      if rest != [] {
        assert c == size;
        DropEven(|out|, c);
        assert forall i :: 0 <= i < |r| - 1 ==> |r[i]| % 2 == 0 by {
          forall i | 0 < i < |r| - 1 ensures |r[i]| % 2 == 0 {
            assert r[i] == tail[i - 1];
          }
        }
        if forall i :: 0 <= i < |r| ==> |r[i]| % 2 == 0 {
          forall i | 0 <= i < |tail| ensures |tail[i]| % 2 == 0 {
            assert tail[i] == r[i + 1];
          }
        }
        if |out| % 2 == 0 {
          assert |rest| % 2 == 0;
          assert forall j :: 0 <= j < |tail| ==> |tail[j]| % 2 == 0;
          forall i | 0 <= i < |r| ensures |r[i]| % 2 == 0 {
            if i > 0 { assert r[i] == tail[i - 1]; } else { assert r[0] == out[..c]; }
          }
        }
      } else {
        assert out[..c] == out;
        assert r == [out] && r[0] == out;
        assert (forall i :: 0 <= i < |r| ==> |r[i]| % 2 == 0) <==> |r[0]| % 2 == 0;
      }
    }
  }

  /** The external decoder: its whole standard output, how much of it has been read, and its lifecycle. */
  class DecoderProcess {
    const stdout: seq<Byte>
    var consumed: nat
    var terminated: bool
    var reaped: bool

    ghost predicate Valid()
      reads this
    {
      consumed <= |stdout|
    }

    /** `subprocess.Popen`: a running process, nothing read yet. */
    constructor Spawn(out: seq<Byte>)
      ensures Valid() && stdout == out && consumed == 0
      ensures !terminated && !reaped
    {
      stdout := out;
      consumed := 0;
      terminated := false;
      reaped := false;
    }

    /** `stdout.read(size)`. */
    method Read(size: nat) returns (data: seq<Byte>)
      requires Valid()
      modifies this`consumed
      ensures Valid()
      ensures data == ReadResult(stdout, old(consumed), size)
      ensures consumed == old(consumed) + |data|
    {
      data := ReadResult(stdout, consumed, size);
      consumed := consumed + |data|;
    }

    /** `terminate()`: signal the process to stop. */
    method Terminate()
      modifies this`terminated
      ensures terminated
    {
      terminated := true;
    }

    /** `wait()`: block until the process has exited and reap it. */
    method Wait()
      modifies this`reaped
      ensures reaped
    {
      reaped := true;
    }
  }
}
