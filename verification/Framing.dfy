/**
 Incremental decoding of a byte stream. One theorem serves every reader of the repository: feeding
 bytes in chunks of any size gives what decoding them at once gives.
 */
module Framing {
  import opened Common

  newtype byte = x: int | 0 <= x < 256

  type Bytes = seq<byte>

  /** What the bytes received so far begin with. */
  datatype Step<F> = More | Broken | Frame(frame: F, size: nat)

  /** What a reader does with one frame: carry on in a new state, or stop with a result. */
  datatype Turn<S, R> = Go(state: S) | Stop(result: R)

  /** Where decoding stands: waiting with a partial frame, or finished. */
  datatype Progress<S, R> = Waiting(state: S, rest: Bytes) | Finished(result: R)

  datatype Reader<!F, !S, !R> = Reader(step: Bytes -> Step<F>, take: (S, F) -> Turn<S, R>, broken: R)

  /** A verdict on some bytes does not change when more arrive, and every frame has a size. */
  ghost predicate Steady<F(!new), S, R>(reader: Reader<F, S, R>) {
    && (forall b: Bytes :: reader.step(b).Frame? ==> 0 < reader.step(b).size <= |b|)
    && forall b: Bytes, more: Bytes :: !reader.step(b).More? ==> reader.step(b + more) == reader.step(b)
  }

  /** Decode everything that `bytes` holds. */
  ghost function Decode<F(!new), S, R>(reader: Reader<F, S, R>, state: S, bytes: Bytes): Progress<S, R>
    requires Steady(reader)
    decreases |bytes|
  {
    match reader.step(bytes)
    case More => Waiting(state, bytes)
    case Broken => Finished(reader.broken)
    case Frame(frame, size) =>
      match reader.take(state, frame)
      case Stop(result) => Finished(result)
      case Go(next) => Decode(reader, next, bytes[size..])
  }

  /** Continue with the bytes of one more chunk. */
  ghost function Feed<F(!new), S, R>(reader: Reader<F, S, R>, now: Progress<S, R>, chunk: Bytes): Progress<S, R>
    requires Steady(reader)
  {
    if now.Waiting? then Decode(reader, now.state, now.rest + chunk) else now
  }

  ghost function FeedAll<F(!new), S, R>(reader: Reader<F, S, R>, now: Progress<S, R>, chunks: seq<Bytes>): Progress<S, R>
    requires Steady(reader)
  {
    if chunks == [] then now
    else Feed(reader, FeedAll(reader, now, chunks[..|chunks| - 1]), chunks[|chunks| - 1])
  }

  lemma {:induction false} DecodeAppend<F(!new), S, R>(reader: Reader<F, S, R>, state: S, bytes: Bytes, more: Bytes)
    requires Steady(reader)
    ensures Decode(reader, state, bytes + more) == Feed(reader, Decode(reader, state, bytes), more)
    decreases |bytes|
  {
    var step := reader.step(bytes);
    if !step.More? {
      assert reader.step(bytes + more) == step;
      if step.Frame? {
        assert (bytes + more)[step.size..] == bytes[step.size..] + more;
        var turn := reader.take(state, step.frame);
        if turn.Go? {
          DecodeAppend(reader, turn.state, bytes[step.size..], more);
        }
      }
    }
  }

  /** Any chunking of a stream decodes like the whole stream. */
  lemma {:induction false} ChunksDoNotMatter<F(!new), S, R>(reader: Reader<F, S, R>, state: S, chunks: seq<Bytes>)
    requires Steady(reader) && reader.step([]).More?
    ensures FeedAll(reader, Waiting(state, []), chunks) == Decode(reader, state, Concat(chunks))
  {
    if chunks != [] {
      var init := chunks[..|chunks| - 1];
      ChunksDoNotMatter(reader, state, init);
      DecodeAppend(reader, state, Concat(init), chunks[|chunks| - 1]);
    }
  }

  /** What decoding leaves over is a partial frame. */
  lemma {:induction false} RestIsPartial<F(!new), S, R>(reader: Reader<F, S, R>, state: S, bytes: Bytes)
    requires Steady(reader)
    ensures var now := Decode(reader, state, bytes);
      now.Waiting? ==> reader.step(now.rest).More? && |now.rest| <= |bytes| && bytes[|bytes| - |now.rest|..] == now.rest
    decreases |bytes|
  {
    var step := reader.step(bytes);
    if step.Frame? {
      var turn := reader.take(state, step.frame);
      if turn.Go? {
        RestIsPartial(reader, turn.state, bytes[step.size..]);
      }
    }
  }

  // ---------------------------------------------------------------- little-endian words

  function Word(b: Bytes, at: nat): (r: nat)
    requires at + 4 <= |b|
    ensures r < 0x1_0000_0000
  {
    b[at] as nat + 0x100 * b[at + 1] as nat + 0x1_0000 * b[at + 2] as nat + 0x100_0000 * b[at + 3] as nat
  }

  function Packed(n: nat): (b: Bytes)
    requires n < 0x1_0000_0000
    ensures |b| == 4
  {
    [(n % 0x100) as byte, (n / 0x100 % 0x100) as byte, (n / 0x1_0000 % 0x100) as byte, (n / 0x100_0000) as byte]
  }

  /** The lowest byte goes first. */
  lemma LowestFirst(n: nat)
    requires n < 0x100
    ensures Packed(n) == [n as byte, 0, 0, 0]
  {
  }

  lemma PackedWord(n: nat, rest: Bytes)
    requires n < 0x1_0000_0000
    ensures Word(Packed(n) + rest, 0) == n
  {
    var a, b, c := n / 0x100, n / 0x1_0000, n / 0x100_0000;
    assert b == a / 0x100 && c == b / 0x100;
  }
}
