/** Length-prefixed frames over a blocking socket, as the session helper and the broker exchange them. */
module SessionLink {
  import opened Common
  import opened Framing

  const FRAME_LIMIT: nat := 65536

  datatype LinkError = FrameTooLarge | InvalidFrame | Undecodable | Timeout | BrokerOffline

  /** What a frame's body decodes to. */
  datatype Shape = Message | Misshapen | NotJson

  /** A frame: its length in four little-endian bytes, then its body. */
  function Encode(body: Bytes): Result<Bytes, LinkError> {
    if 1 <= |body| <= FRAME_LIMIT then Ok(Packed(|body|) + body) else Failed(FrameTooLarge)
  }

  function FrameStep(b: Bytes): Step<Bytes> {
    if |b| < 4 then More
    else
      var length := Word(b, 0);
      if !(1 <= length <= FRAME_LIMIT) then Broken
      else if |b| < 4 + length then More
      else Frame(b[4..4 + length], 4 + length)
  }

  /** Frames collected in order; a broken length ends the connection. */
  function Collector(): Reader<Bytes, seq<Bytes>, LinkError> {
    Reader(b => FrameStep(b), (bodies, body) => Go(bodies + [body]), InvalidFrame)
  }

  lemma CollectorIsSteady()
    ensures Steady(Collector()) && Collector().step([]).More?
  {
    forall b: Bytes, more: Bytes | !FrameStep(b).More?
      ensures FrameStep(b + more) == FrameStep(b)
    {
      var length := Word(b, 0);
      assert Word(b + more, 0) == length;
      if 1 <= length <= FRAME_LIMIT {
        assert (b + more)[4..4 + length] == b[4..4 + length];
      }
    }
  }

  /** Encoding, then reading the frame's step, gives the body back and nothing past it. */
  lemma StepOfEncoded(body: Bytes, rest: Bytes)
    requires Encode(body).Ok?
    ensures FrameStep(Encode(body).value + rest) == Frame(body, 4 + |body|)
    ensures (Encode(body).value + rest)[4 + |body|..] == rest
  {
    var bytes := Encode(body).value + rest;
    assert bytes == Packed(|body|) + (body + rest);
    PackedWord(|body|, body + rest);
    assert bytes[4..4 + |body|] == body;
  }

  /** What can be sent is exactly what the other end takes for a frame. */
  lemma SentIffTaken(body: Bytes)
    requires |body| < 0x1_0000_0000
    ensures Encode(body).Ok? <==> FrameStep(Packed(|body|) + body) == Frame(body, 4 + |body|)
  {
    hide Word, Packed;
    var bytes := Packed(|body|) + body;
    PackedWord(|body|, body);
    assert |body| <= FRAME_LIMIT ==> bytes[4..4 + |body|] == body;
  }

  function EncodeAll(bodies: seq<Bytes>): Bytes
    requires forall b :: b in bodies ==> Encode(b).Ok?
  {
    if bodies == [] then [] else Encode(bodies[0]).value + EncodeAll(bodies[1..])
  }

  lemma {:induction false} DecodeEncoded(done: seq<Bytes>, bodies: seq<Bytes>, tail: Bytes)
    requires forall b :: b in bodies ==> Encode(b).Ok?
    requires FrameStep(tail).More?
    ensures Steady(Collector())
    ensures Decode(Collector(), done, EncodeAll(bodies) + tail) == Waiting(done + bodies, tail)
    decreases bodies
  {
    CollectorIsSteady();
    if bodies == [] {
      assert EncodeAll(bodies) + tail == tail && done + bodies == done;
    } else {
      var rest := EncodeAll(bodies[1..]) + tail;
      assert EncodeAll(bodies) + tail == Encode(bodies[0]).value + rest;
      StepOfEncoded(bodies[0], rest);
      DecodeEncoded(done + [bodies[0]], bodies[1..], tail);
      assert done + [bodies[0]] + bodies[1..] == done + bodies;
    }
  }

  /** However the encoded frames are cut into chunks, their bodies arrive in order and the tail is kept. */
  lemma EncodedFramesSurviveChunking(bodies: seq<Bytes>, tail: Bytes, chunks: seq<Bytes>)
    requires forall b :: b in bodies ==> Encode(b).Ok?
    requires FrameStep(tail).More? && Concat(chunks) == EncodeAll(bodies) + tail
    ensures Steady(Collector())
    ensures FeedAll(Collector(), Waiting([], []), chunks) == Waiting(bodies, tail)
  {
    CollectorIsSteady();
    ChunksDoNotMatter(Collector(), [], chunks);
    DecodeEncoded([], bodies, tail);
    assert [] + bodies == bodies;
  }

  /** The next step of a stream is known as soon as its first bytes decide it. */
  lemma StepOfStream(received: Bytes, coming: Bytes)
    requires !FrameStep(received).More?
    ensures FrameStep(received + coming) == FrameStep(received)
    ensures FrameStep(received).Frame? ==> FrameStep(received).size <= |received|
    ensures FrameStep(received).Frame? ==>
      (received + coming)[FrameStep(received).size..] == received[FrameStep(received).size..] + coming
  {
    CollectorIsSteady();
    assert Collector().step(received + coming) == Collector().step(received);
    if FrameStep(received).Frame? {
      var size := FrameStep(received).size;
      assert (received + coming)[size..] == received[size..] + coming;
    }
  }

  /** The bytes a socket will still deliver, in the chunks it delivers them. */
  class Socket {
    var chunks: seq<Bytes>
    ghost var closed: bool

    constructor (initial: seq<Bytes>)
      ensures chunks == initial && !closed
    {
      chunks, closed := initial, false;
    }

    /** The next chunk, or nothing once the peer has closed. */
    method Receive() returns (chunk: Bytes)
      modifies this
      ensures chunk + Concat(chunks) == Concat(old(chunks))
      ensures closed <==> chunk == []
      ensures if old(chunks) == [] then chunk == [] && chunks == [] else chunk == old(chunks)[0] && chunks == old(chunks)[1..]
    {
      if chunks == [] {
        closed := true;
        return [];
      }
      assert chunks == [chunks[0]] + chunks[1..];
      ConcatAppend([chunks[0]], chunks[1..]);
      ConcatOne(chunks[0]);
      chunk, chunks := chunks[0], chunks[1..];
      closed := chunk == [];
    }
  }

  class Link {
    var buffer: Bytes
    const socket: Socket
    const shape: Bytes -> Shape

    constructor (connection: Socket, decode: Bytes -> Shape)
      ensures buffer == [] && socket == connection && shape == decode
    {
      buffer, socket, shape := [], connection, decode;
    }

    /** Everything received and not yet read, and everything still to come. */
    ghost function Stream(): Bytes
      reads this, socket
    {
      buffer + Concat(socket.chunks)
    }

    /** A whole frame with this body begins the stream, and a read of it leaves the rest. */
    ghost predicate Consumes(before: Bytes, body: Bytes, after: Bytes) {
      FrameStep(before) == Frame(body, 4 + |body|) && 4 + |body| <= |before| && after == before[4 + |body|..]
    }

    /**
     The next message of the stream, before its deadline, which comes after `patience` chunks. It takes exactly
     its frame off the stream, and so does a body that is no JSON or no message. A broken length is reported
     without waiting; otherwise the peer closed, or the time ran out, on a partial frame, and no byte is lost.
     */
    method Read(patience: nat) returns (r: Result<Bytes, LinkError>)
      modifies this`buffer, socket
      ensures r.Ok? ==> shape(r.value).Message? && Consumes(old(Stream()), r.value, Stream())
      ensures r.Failed? ==> r.reason in {InvalidFrame, Undecodable, Timeout, BrokerOffline}
      ensures r == Failed(Undecodable) ==> exists body :: shape(body).NotJson? && Consumes(old(Stream()), body, Stream())
      ensures r == Failed(InvalidFrame) ==> (
        (FrameStep(old(Stream())).Broken? && Stream() == old(Stream()))
        || exists body :: shape(body).Misshapen? && Consumes(old(Stream()), body, Stream()))
      ensures r in {Failed(Timeout), Failed(BrokerOffline)} ==> FrameStep(buffer).More? && Stream() == old(Stream())
      ensures r == Failed(BrokerOffline) ==> socket.closed
      ensures |socket.chunks| <= |old(socket.chunks)| && (r.Ok? ==> |old(socket.chunks)| - |socket.chunks| <= patience)
      ensures r == Failed(Timeout) ==> |old(socket.chunks)| - |socket.chunks| == patience
    {
      hide FrameStep, Concat;
      ghost var stream := Stream();
      var turns := 0;
      while true
        invariant Stream() == stream && turns == |old(socket.chunks)| - |socket.chunks| <= patience
        decreases |socket.chunks|
      {
        var step := FrameStep(buffer);
        if !step.More? {
          StepOfStream(buffer, Concat(socket.chunks));
          if step.Broken? {
            return Failed(InvalidFrame);
          }
          FrameSize(buffer);
          buffer := buffer[step.size..];
          assert Consumes(stream, step.frame, Stream());
          match shape(step.frame)
          case Message => return Ok(step.frame);
          case Misshapen => return Failed(InvalidFrame);
          case NotJson => return Failed(Undecodable);
        }
        if turns >= patience {
          return Failed(Timeout);
        }
        ghost var coming := Concat(socket.chunks);
        var chunk := socket.Receive();
        if chunk == [] {
          assert [] + Concat(socket.chunks) == Concat(socket.chunks);
          return Failed(BrokerOffline);
        }
        Assoc(buffer, chunk, Concat(socket.chunks));
        buffer, turns := buffer + chunk, turns + 1;
      }
    }
  }

  lemma FrameSize(b: Bytes)
    requires FrameStep(b).Frame?
    ensures FrameStep(b).size == 4 + |FrameStep(b).frame| <= |b|
  {
  }
}
