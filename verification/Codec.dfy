/** Length-prefixed frames on a byte stream. */
module Codec {
  import opened Bits
  import opened Bytes
  import opened Wrappers

  const MAX_FRAME_BYTES: nat := 4 * 1024 * 1024

  /** A message type's JSON form. */
  datatype Json<!T(!new)> = Json(encode: T -> seq<byte>, decode: seq<byte> -> Option<T>) {
    ghost predicate Lawful() {
      forall m :: decode(encode(m)) == Some(m)
    }
  }

  datatype NetworkError = ChannelClosed | Serialization

  /** The bytes of a frame; the length is truncated to 32 bits before it is checked. */
  function Frame(body: seq<byte>): Option<seq<byte>> {
    var len := |body| % 0x1_0000_0000;
    if len > MAX_FRAME_BYTES then None else Some(BigEndian(len, 4) + body)
  }

  /** Reading one frame: the message or error, and what is left of the stream. */
  function ReadStep<T(!new)>(j: Json<T>, stream: seq<byte>): (Result<T, NetworkError>, seq<byte>) {
    if |stream| < 4 then (Err(ChannelClosed), [])
    else
      var len := FromBigEndian(stream[..4]);
      var rest := stream[4..];
      if len > MAX_FRAME_BYTES then (Err(Serialization), rest)
      else if |rest| < len then (Err(Serialization), [])
      else
        var m := j.decode(rest[..len]);
        (if m.Some? then Ok(m.value) else Err(Serialization), rest[len..])
  }

  /** A stream: writes append, reads take from the front. */
  class Stream {
    var bytes: seq<byte>

    constructor ()
      ensures bytes == []
    {
      bytes := [];
    }

    /** Takes exactly `n` bytes, or reports end of stream and leaves nothing. */
    method ReadExact(n: nat) returns (r: Option<seq<byte>>)
      modifies this
      ensures old(|bytes|) >= n ==> r == Some(old(bytes)[..n]) && bytes == old(bytes)[n..]
      ensures old(|bytes|) < n ==> r == None && bytes == []
    {
      if |bytes| < n {
        bytes := [];
        return None;
      }
      r := Some(bytes[..n]);
      bytes := bytes[n..];
    }

    method WriteFrame<T(!new)>(j: Json<T>, m: T) returns (r: Result<(), NetworkError>)
      modifies this
      ensures r.Ok? <==> Frame(j.encode(m)).Some?
      ensures bytes == old(bytes) + (if r.Ok? then Frame(j.encode(m)).value else [])
    {
      var body := j.encode(m);
      var len := |body| % 0x1_0000_0000;
      if len > MAX_FRAME_BYTES { return Err(Serialization); }
      bytes := bytes + BigEndian(len, 4);
      bytes := bytes + body;
      return Ok(());
    }

    method ReadFrame<T(!new)>(j: Json<T>) returns (r: Result<T, NetworkError>)
      modifies this
      ensures (r, bytes) == ReadStep(j, old(bytes))
    {
      var header := ReadExact(4);
      if header.None? { return Err(ChannelClosed); }
      var len := FromBigEndian(header.value);
      if len > MAX_FRAME_BYTES { return Err(Serialization); }
      var body := ReadExact(len);
      if body.None? { return Err(Serialization); }
      var m := j.decode(body.value);
      r := if m.Some? then Ok(m.value) else Err(Serialization);
    }
  }

  /** A frame is the body after a four-byte header; what is accepted is a length of at most 4 MiB modulo 2^32. */
  lemma {:induction false} FrameLayout(body: seq<byte>)
    ensures Frame(body).Some? <==> |body| % 0x1_0000_0000 <= 4194304
    ensures Frame(body).Some? ==>
              var f := Frame(body).value;
              |f| == 4 + |body| && FromBigEndian(f[..4]) == |body| % 0x1_0000_0000 && f[4..] == body
  {
    hide BigEndian, FromBigEndian;
    var len := |body| % 0x1_0000_0000;
    Pow2Values();
    BigEndianRoundTrip(len, 4);
    if Frame(body).Some? { assert Frame(body).value[..4] == BigEndian(len, 4); }
  }

  /** `stream` is a header saying `|body|`, then `body`, then `rest`. */
  ghost predicate Framed(stream: seq<byte>, body: seq<byte>, rest: seq<byte>) {
    |stream| >= 4 && FromBigEndian(stream[..4]) == |body| && stream[4..] == body + rest
  }

  /**
   * A message is read exactly when the stream starts with a frame of at most 4 MiB whose body decodes to it, and
   * what follows the frame is left. A stream of fewer than four bytes is a closed channel; nothing else is.
   */
  lemma {:induction false} ReadExactly<T(!new)>(j: Json<T>, stream: seq<byte>, m: T, rest: seq<byte>)
    ensures ReadStep(j, stream) == (Ok(m), rest) <==>
            exists body :: |body| <= 4194304 && Framed(stream, body, rest) && j.decode(body) == Some(m)
    ensures ReadStep(j, stream).0 == Err(ChannelClosed) <==> |stream| < 4
    ensures ReadStep(j, stream).0 == Err(Serialization) && |stream| >= 4 && FromBigEndian(stream[..4]) > 4194304 ==>
              ReadStep(j, stream).1 == stream[4..]
  {
    hide FromBigEndian;
    if ReadStep(j, stream) == (Ok(m), rest) {
      var body := stream[4..][..FromBigEndian(stream[..4])];
      assert stream[4..] == body + rest;
      assert Framed(stream, body, rest);
    }
    forall body | |body| <= 4194304 && Framed(stream, body, rest) && j.decode(body) == Some(m)
      ensures ReadStep(j, stream) == (Ok(m), rest)
    {
      assert stream[4..][..|body|] == body && stream[4..][|body|..] == rest;
    }
  }

  // ---- Round trips ----

  /** Reading a frame takes the number of bytes its header says: the body's length modulo 2^32. */
  lemma {:induction false} ReadFrameBytes<T(!new)>(j: Json<T>, body: seq<byte>, rest: seq<byte>)
    requires Frame(body).Some?
    ensures var len := |body| % 0x1_0000_0000;
            var m := j.decode(body[..len]);
            ReadStep(j, Frame(body).value + rest) ==
            (if m.Some? then Ok(m.value) else Err(Serialization), body[len..] + rest)
  {
    hide BigEndian, FromBigEndian;
    var len := |body| % 0x1_0000_0000;
    Pow2Values();
    BigEndianRoundTrip(len, 4);
    var stream := Frame(body).value + rest;
    assert stream[..4] == BigEndian(len, 4) && stream[4..] == body + rest;
    assert (body + rest)[..len] == body[..len] && (body + rest)[len..] == body[len..] + rest;
  }

  /** An accepted frame is consumed whole exactly when its body fits the limit. */
  lemma {:induction false} FrameExactly<T(!new)>(j: Json<T>, m: T)
    requires j.Lawful() && Frame(j.encode(m)).Some?
    ensures ReadStep(j, Frame(j.encode(m)).value) == (Ok(m), []) <==> |j.encode(m)| <= MAX_FRAME_BYTES
    ensures |j.encode(m)| > MAX_FRAME_BYTES ==> ReadStep(j, Frame(j.encode(m)).value).1 != []
  {
    hide BigEndian, FromBigEndian;
    var body := j.encode(m);
    ReadFrameBytes(j, body, []);
    assert Frame(body).value + [] == Frame(body).value;
    var len := |body| % 0x1_0000_0000;
    assert body[len..] + [] == body[len..];
    if |body| <= MAX_FRAME_BYTES { assert body[..len] == body; }
  }

  /** A body of 2^32 bytes is accepted, under a header that says it is empty. */
  lemma {:induction false} OversizeAccepted(body: seq<byte>)
    requires |body| == 0x1_0000_0000
    ensures Frame(body) == Some([0, 0, 0, 0] + body)
  {
    assert BigEndian(0, 4) == [0, 0, 0, 0] by {
      assert BigEndian(0, 1) == [0] && BigEndian(0, 2) == [0, 0] && BigEndian(0, 3) == [0, 0, 0];
    }
  }

  ghost predicate Fits<T(!new)>(j: Json<T>, ms: seq<T>) {
    forall i :: 0 <= i < |ms| ==> |j.encode(ms[i])| <= MAX_FRAME_BYTES
  }

  /** The frames of `ms`, one after the other. */
  function Frames<T(!new)>(j: Json<T>, ms: seq<T>): seq<byte> {
    if ms == [] then []
    else
      var f := Frame(j.encode(ms[0]));
      (if f.Some? then f.value else []) + Frames(j, ms[1..])
  }

  lemma {:induction false} FramesSnoc<T(!new)>(j: Json<T>, ms: seq<T>, m: T)
    ensures Frames(j, ms + [m]) == Frames(j, ms) + (var f := Frame(j.encode(m)); if f.Some? then f.value else [])
  {
    hide Frame;
    if ms == [] {
      assert ms + [m] == [m] && [m][1..] == [];
    } else {
      assert (ms + [m])[1..] == ms[1..] + [m];
      FramesSnoc(j, ms[1..], m);
    }
  }

  lemma {:induction false} Decodes<T(!new)>(j: Json<T>, m: T)
    requires j.Lawful()
    ensures j.decode(j.encode(m)) == Some(m)
  {
  }

  /** A frame at the head of a stream reads back as its message and leaves the rest. */
  lemma {:induction false} ReadBack<T(!new)>(j: Json<T>, m: T, rest: seq<byte>)
    requires j.Lawful() && |j.encode(m)| <= MAX_FRAME_BYTES
    ensures Frame(j.encode(m)).Some? && ReadStep(j, Frame(j.encode(m)).value + rest) == (Ok(m), rest)
  {
    hide ReadStep, BigEndian, FromBigEndian, Json.Lawful;
    var body := j.encode(m);
    assert j.decode(body) == Some(m) by { Decodes(j, m); }
    ReadFrameBytes(j, body, rest);
    assert |body| % 0x1_0000_0000 == |body|;
    assert body[..|body|] == body && body[|body|..] + rest == rest;
  }

  method WriteAll<T(!new)>(j: Json<T>, s: Stream, ms: seq<T>)
    modifies s
    ensures s.bytes == old(s.bytes) + Frames(j, ms)
  {
    hide Frame;
    for i := 0 to |ms|
      invariant s.bytes == old(s.bytes) + Frames(j, ms[..i])
    {
      assert ms[..i + 1] == ms[..i] + [ms[i]];
      FramesSnoc(j, ms[..i], ms[i]);
      var r := s.WriteFrame(j, ms[i]);
    }
    assert ms[..|ms|] == ms;
  }

  /** Reads until the peer closes. */
  method ReadAll<T(!new)>(j: Json<T>, s: Stream, ghost ms: seq<T>) returns (got: seq<T>, last: Result<T, NetworkError>)
    requires j.Lawful() && Fits(j, ms) && s.bytes == Frames(j, ms)
    modifies s
    ensures got == ms && last == Err(ChannelClosed) && s.bytes == []
  {
    hide Frame, ReadStep, Json.Lawful;
    got := [];
    var i := 0;
    last := Err(Serialization);
    while true
      invariant 0 <= i <= |ms| && got == ms[..i] && s.bytes == Frames(j, ms[i..])
      decreases |ms| - i
    {
      if i < |ms| { ReadBack(j, ms[i], Frames(j, ms[i..][1..])); } else { ReadEnd(j); }
      assert i < |ms| ==> ms[i..][1..] == ms[i + 1..];
      last := s.ReadFrame(j);
      if last.Err? { return; }
      got := got + [last.value];
      i := i + 1;
    }
  }

  lemma {:induction false} ReadEnd<T(!new)>(j: Json<T>)
    ensures ReadStep(j, []) == (Err(ChannelClosed), [])
  {
  }

  /** Any sequence of messages within the limit comes back whole and in order, then the channel is closed. */
  method RoundTrip<T(!new)>(j: Json<T>, ms: seq<T>) returns (got: seq<T>, last: Result<T, NetworkError>)
    requires j.Lawful() && Fits(j, ms)
    ensures got == ms && last == Err(ChannelClosed)
  {
    var s := new Stream();
    WriteAll(j, s, ms);
    got, last := ReadAll(j, s, ms);
  }
}
