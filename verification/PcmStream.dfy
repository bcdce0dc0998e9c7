/**
 The PCM reader that feeds the speaker (voice/server.go): a sliding window over a byte pipe,
 cut into frames of a fixed width.
 */
module PcmStream {
  import opened Basics

  datatype Frame = Frame(left: real, right: real)

  datatype ReadError = Eof | Failure(code: int)

  function Min(a: nat, b: nat): nat {
    if a <= b then a else b
  }

  function Flatten(chunks: seq<seq<byte>>): seq<byte> {
    if chunks == [] then [] else chunks[0] + Flatten(chunks[1..])
  }

  /**
   The read end of an io.Pipe: the writes still to be delivered, of any sizes, and the error
   with which the write end was closed after them. A failing read delivers no bytes.
   */
  class PipeReader {
    var writes: seq<seq<byte>>
    const closing: ReadError

    constructor (writes: seq<seq<byte>>, closing: ReadError)
      ensures this.writes == writes && this.closing == closing
    {
      this.writes, this.closing := writes, closing;
    }

    function Undelivered(): seq<byte>
      reads this
    {
      Flatten(writes)
    }

    /** Copies the start of the oldest write into buf[at..]. */
    method Read(buf: array<byte>, at: nat) returns (n: nat, err: Option<ReadError>)
      requires at <= buf.Length
      modifies this`writes, buf
      ensures err == if old(writes) == [] then Some(closing) else None
      ensures at + n <= buf.Length && buf[..at] == old(buf[..at])
      ensures old(writes) != [] ==> n == Min(|old(writes)[0]|, buf.Length - at)
      ensures old(Undelivered()) == buf[at..at + n] + Undelivered()
      ensures err.Some? ==> n == 0 && writes == old(writes) && buf[..] == old(buf[..])
    {
      if writes == [] {
        return 0, Some(closing);
      }
      var head, room := writes[0], buf.Length - at;
      n := Min(|head|, room);
      forall i | 0 <= i < n {
        buf[at + i] := head[i];
      }
      assert buf[at..at + n] == head[..n];
      assert head == head[..n] + head[n..];
      if n == |head| {
        writes := writes[1..];
      } else {
        var rest := writes[1..];
        writes := [head[n..]] + rest;
        assert writes[1..] == rest;
      }
      err := None;
    }
  }

  // ---- What a stream of frames is ----

  /** The batch form: the bytes cut into whole frames, in order, the incomplete tail dropped. */
  function Frames(bytes: seq<byte>, width: nat, decode: seq<byte> -> Frame): seq<Frame>
    requires 0 < width
  {
    if |bytes| < width then [] else [decode(bytes[..width])] + Frames(bytes[width..], width, decode)
  }

  /** Playing out turns the bytes before into the bytes after, one whole frame at a time. */
  predicate Emits(before: seq<byte>, out: seq<Frame>, after: seq<byte>, width: nat, decode: seq<byte> -> Frame)
    requires 0 < width
  {
    if out == [] then before == after
    else width <= |before| && out[0] == decode(before[..width]) && Emits(before[width..], out[1..], after, width, decode)
  }

  lemma {:induction false} EmitsOneMore(before: seq<byte>, out: seq<Frame>, after: seq<byte>, width: nat,
                                        decode: seq<byte> -> Frame)
    requires 0 < width <= |after| && Emits(before, out, after, width, decode)
    ensures Emits(before, out + [decode(after[..width])], after[width..], width, decode)
  {
    var more := out + [decode(after[..width])];
    if out == [] {
      assert more[1..] == [];
    } else {
      EmitsOneMore(before[width..], out[1..], after, width, decode);
      assert more[1..] == out[1..] + [decode(after[..width])];
    }
  }

  lemma {:induction false} EmitsThen(a: seq<byte>, x: seq<Frame>, b: seq<byte>, y: seq<Frame>, c: seq<byte>,
                                     width: nat, decode: seq<byte> -> Frame)
    requires 0 < width && Emits(a, x, b, width, decode) && Emits(b, y, c, width, decode)
    ensures Emits(a, x + y, c, width, decode)
  {
    if x == [] {
      assert x + y == y;
    } else {
      EmitsThen(a[width..], x[1..], b, y, c, width, decode);
      assert (x + y)[1..] == x[1..] + y;
    }
  }

  /** What was emitted is a prefix of the batch form, and the rest of it is still to come. */
  lemma {:induction false} EmitsIsPrefix(before: seq<byte>, out: seq<Frame>, after: seq<byte>, width: nat,
                                         decode: seq<byte> -> Frame)
    requires 0 < width && Emits(before, out, after, width, decode)
    ensures Frames(before, width, decode) == out + Frames(after, width, decode)
  {
    if out != [] {
      EmitsIsPrefix(before[width..], out[1..], after, width, decode);
    }
  }

  /** Frame i of the batch form is decoded from bytes i*width to (i+1)*width. */
  lemma {:induction false} FrameAt(bytes: seq<byte>, width: nat, decode: seq<byte> -> Frame, i: nat)
    requires 0 < width && i < |Frames(bytes, width, decode)|
    ensures 0 <= i * width <= i * width + width <= |bytes|
    ensures Frames(bytes, width, decode)[i] == decode(bytes[i * width..i * width + width])
  {
    if i > 0 {
      FrameAt(bytes[width..], width, decode, i - 1);
      var k := (i - 1) * width;
      assert i * width == k + width;
      assert bytes[width..][k..k + width] == bytes[k + width..k + width + width];
    }
  }

  /** The batch form leaves out less than a frame. */
  lemma {:induction false} FrameCount(bytes: seq<byte>, width: nat, decode: seq<byte> -> Frame)
    requires 0 < width
    ensures 0 <= |bytes| - |Frames(bytes, width, decode)| * width < width
  {
    if |bytes| >= width {
      FrameCount(bytes[width..], width, decode);
      var n := |Frames(bytes[width..], width, decode)|;
      assert (n + 1) * width == n * width + width;
    }
  }

  // ---- The stream object ----

  class PCMStream {
    const reader: PipeReader
    const width: nat
    const decode: seq<byte> -> Frame
    const buf: array<byte>
    var len: nat
    var pos: nat
    var err: Option<ReadError>

    predicate Valid()
      reads this
    {
      0 < width <= buf.Length && pos <= len <= buf.Length
    }

    /** Bytes read from the pipe and not yet played. */
    function Pending(): seq<byte>
      requires Valid()
      reads this, buf
    {
      buf[pos..len]
    }

    /** Everything still to be played. */
    function Rest(): seq<byte>
      requires Valid()
      reads this, buf, reader
    {
      Pending() + reader.Undelivered()
    }

    constructor (reader: PipeReader, width: nat, decode: seq<byte> -> Frame, buf: array<byte>)
      requires 0 < width <= buf.Length
      ensures Valid() && this.reader == reader && this.width == width && this.decode == decode && this.buf == buf
      ensures Rest() == reader.Undelivered() && err == None
    {
      this.reader, this.width, this.decode, this.buf := reader, width, decode, buf;
      this.len, this.pos, this.err := 0, 0, None;
    }

    /** Moves a partial frame to the front of the buffer and reads behind it. */
    method Refill() returns (ok: bool)
      requires Valid() && len - pos < width
      modifies this`len, this`pos, this`err, buf, reader`writes
      ensures Valid()
      ensures Rest() == old(Rest())
      ensures ok == (old(reader.writes) != [])
      ensures !ok ==> Pending() == old(Pending()) && reader.writes == []
      ensures ok ==>
        |Pending()| == |old(Pending())| + Min(|old(reader.writes)[0]|, buf.Length - |old(Pending())|)
      ensures err == if !ok && reader.closing != Eof then Some(reader.closing) else old(err)
    {
      var size := len - pos;
      ghost var kept := buf[pos..len];
      forall i | 0 <= i < size {
        buf[i] := buf[pos + i];
      }
      len, pos := size, 0;
      assert buf[..size] == kept;
      var n, e := reader.Read(buf, size);
      if e.Some? {
        if e.value != Eof {
          err := e;
        }
        assert Pending() == kept;
        return false;
      }
      len := len + n;
      assert Pending() == kept + buf[size..size + n];
      return true;
    }

    lemma NextFrame()
      requires Valid() && width <= len - pos
      ensures width <= |Rest()| && Rest()[..width] == buf[pos..pos + width]
      ensures Rest()[width..] == buf[pos + width..len] + reader.Undelivered()
    {
    }

    /** Decodes as many whole frames as the window and the output hold. */
    method DecodeWindow(samples: array<Frame>) returns (n: nat)
      requires Valid()
      requires samples as object != buf    // arrays of different element types
      modifies this`pos, samples
      ensures Valid() && n <= samples.Length
      ensures Emits(old(Rest()), samples[..n], Rest(), width, decode)
      ensures forall i | n <= i < samples.Length :: samples[i] == old(samples[i])
      ensures n == samples.Length || |Pending()| < width
    {
      n := 0;
      while n < samples.Length && width <= len - pos
        invariant Valid() && n <= samples.Length
        invariant Emits(old(Rest()), samples[..n], Rest(), width, decode)
        invariant forall i | n <= i < samples.Length :: samples[i] == old(samples[i])
      {
        ghost var before, done := Rest(), samples[..n];
        NextFrame();
        samples[n] := decode(buf[pos..pos + width]);
        pos := pos + width;
        n := n + 1;
        assert samples[..n] == done + [decode(before[..width])];
        EmitsOneMore(old(Rest()), done, before, width, decode);
      }
    }

    /** Fills samples from the window, refilling it first when it holds no whole frame. */
    method Stream(samples: array<Frame>) returns (n: nat, ok: bool)
      requires Valid()
      requires samples as object != buf
      modifies this`len, this`pos, this`err, buf, reader`writes, samples
      ensures Valid() && n <= samples.Length
      ensures Emits(old(Rest()), samples[..n], Rest(), width, decode)
      ensures forall i | n <= i < samples.Length :: samples[i] == old(samples[i])
      ensures ok ==> n == samples.Length || |Pending()| < width
      ensures old(reader.writes) != [] && old(reader.writes)[0] != [] ==>
        n > 0 || samples.Length == 0 || |Pending()| > |old(Pending())|
      ensures ok <==> width <= |old(Pending())| || old(reader.writes) != []
      ensures !ok ==> n == 0 && |Rest()| < width
      ensures err == if !ok && reader.closing != Eof then Some(reader.closing) else old(err)
    {
      n := 0;
      if len - pos < width {
        ok := Refill();
        if !ok {
          return;
        }
      }
      n := DecodeWindow(samples);
      return n, true;
    }
  }

  // ---- Whole playbacks ----

  function Concat(outs: seq<seq<Frame>>): seq<Frame> {
    if outs == [] then [] else Concat(outs[..|outs| - 1]) + outs[|outs| - 1]
  }

  /** Successive calls: call i plays outs[i] and turns rests[i] into rests[i + 1], as Stream ensures. */
  predicate Playback(rests: seq<seq<byte>>, outs: seq<seq<Frame>>, width: nat, decode: seq<byte> -> Frame)
    requires 0 < width
  {
    |rests| == |outs| + 1 && forall i | 0 <= i < |outs| :: Emits(rests[i], outs[i], rests[i + 1], width, decode)
  }

  lemma PlaybackOneMore(rests: seq<seq<byte>>, outs: seq<seq<Frame>>, out: seq<Frame>, rest: seq<byte>, width: nat,
                        decode: seq<byte> -> Frame)
    requires 0 < width && Playback(rests, outs, width, decode) && Emits(rests[|outs|], out, rest, width, decode)
    ensures Playback(rests + [rest], outs + [out], width, decode)
  {
  }

  /** However the pipe was chunked and whatever sizes were asked for, the calls together emit one stream. */
  lemma {:induction false} PlaybackEmits(rests: seq<seq<byte>>, outs: seq<seq<Frame>>, width: nat,
                                         decode: seq<byte> -> Frame)
    requires 0 < width && Playback(rests, outs, width, decode)
    ensures Emits(rests[0], Concat(outs), rests[|outs|], width, decode)
  {
    if outs != [] {
      var n := |outs| - 1;
      PlaybackEmits(rests[..n + 1], outs[..n], width, decode);
      EmitsThen(rests[0], Concat(outs[..n]), rests[n], outs[n], rests[n + 1], width, decode);
    }
  }

  /**
   The samples of a playback are the stream cut into frames, in order, none lost or repeated.
   Once a call has reported the end of the stream, they are all of its whole frames.
   */
  lemma PlaybackIsBatch(rests: seq<seq<byte>>, outs: seq<seq<Frame>>, width: nat, decode: seq<byte> -> Frame)
    requires 0 < width && Playback(rests, outs, width, decode)
    ensures Frames(rests[0], width, decode) == Concat(outs) + Frames(rests[|outs|], width, decode)
    ensures |rests[|outs|]| < width ==> Frames(rests[0], width, decode) == Concat(outs)
  {
    PlaybackEmits(rests, outs, width, decode);
    EmitsIsPrefix(rests[0], Concat(outs), rests[|outs|], width, decode);
  }

  /**
   The speaker asks for samples in pieces of any sizes until the stream reports its end. What it
   gets is the stream cut into frames; if the end was reported, all of them.
   */
  method Play(stream: PCMStream, sizes: seq<nat>)
    returns (outs: seq<seq<Frame>>, ok: bool, ghost rests: seq<seq<byte>>)
    requires stream.Valid()
    modifies stream`len, stream`pos, stream`err, stream.buf, stream.reader`writes
    ensures stream.Valid() && |outs| <= |sizes| && (ok ==> |outs| == |sizes|)
    ensures forall i | 0 <= i < |outs| :: |outs[i]| <= sizes[i]
    ensures Playback(rests, outs, stream.width, stream.decode)
    ensures rests[0] == old(stream.Rest()) && rests[|outs|] == stream.Rest()
    ensures Frames(old(stream.Rest()), stream.width, stream.decode) ==
      Concat(outs) + if ok then Frames(stream.Rest(), stream.width, stream.decode) else []
  {
    outs, ok, rests := [], true, [stream.Rest()];
    while ok && |outs| < |sizes|
      invariant stream.Valid() && |outs| <= |sizes|
      invariant forall i | 0 <= i < |outs| :: |outs[i]| <= sizes[i]
      invariant Playback(rests, outs, stream.width, stream.decode)
      invariant rests[0] == old(stream.Rest()) && rests[|outs|] == stream.Rest()
      invariant !ok ==> |stream.Rest()| < stream.width
      decreases |sizes| - |outs|, ok
    {
      var samples := new Frame[sizes[|outs|]](_ => Frame(0.0, 0.0));
      var n;
      n, ok := stream.Stream(samples);
      PlaybackOneMore(rests, outs, samples[..n], stream.Rest(), stream.width, stream.decode);
      outs := outs + [samples[..n]];
      rests := rests + [stream.Rest()];
    }
    PlaybackIsBatch(rests, outs, stream.width, stream.decode);
  }
}
