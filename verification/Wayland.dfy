/** Reading a compositor's registry over the Wayland wire format until the sync callback is done. */
module Wayland {
  import opened Common
  import opened Framing

  const BUFFER_GUARD: nat := 0x10_0000

  datatype Message = Message(sender: nat, opcode: nat, body: Bytes)

  /** A message: sender, then size and opcode in one word, then the rest of its size. */
  function MessageStep(b: Bytes): Step<Message> {
    if |b| < 8 then More
    else
      var size, opcode := Word(b, 4) / 0x1_0000, Word(b, 4) % 0x1_0000;
      if size < 8 || size % 4 != 0 then Broken
      else if |b| < size then More
      else Frame(Message(Word(b, 0), opcode, b[8..size]), size)
  }

  /** The interface name of a registry global: a length that counts its final zero, then the characters. */
  function GlobalName(body: Bytes): string
    requires |body| >= 8
  {
    Ascii(Slice(body, 8, 8 + Max(0, Word(body, 4) - 1)))
  }

  /** Decoded as ASCII, with a replacement character for every other byte. */
  function Ascii(b: Bytes): (r: string)
    ensures |r| == |b|
    ensures forall i :: 0 <= i < |b| ==> r[i] == if b[i] < 128 then b[i] as int as char else '\U{FFFD}'
  {
    seq(|b|, i requires 0 <= i < |b| => if b[i] < 128 then b[i] as int as char else '\U{FFFD}')
  }

  predicate IsGlobal(m: Message) {
    m.sender == 2 && m.opcode == 0 && |m.body| >= 8
  }

  predicate IsDone(m: Message) {
    m.sender == 3 && m.opcode == 0
  }

  predicate IsError(m: Message) {
    m.sender == 1 && m.opcode == 0
  }

  function TakeMessage(names: set<string>, m: Message): Turn<set<string>, Option<set<string>>> {
    if IsGlobal(m) then Go(names + {GlobalName(m.body)})
    else if IsDone(m) then Stop(Some(names))
    else if IsError(m) then Stop(None)
    else Go(names)
  }

  function Registry(): Reader<Message, set<string>, Option<set<string>>> {
    Reader(b => MessageStep(b), (names, m) => TakeMessage(names, m), None)
  }

  lemma RegistryIsSteady()
    ensures Steady(Registry()) && Registry().step([]).More?
  {
    forall b: Bytes, more: Bytes | !MessageStep(b).More?
      ensures MessageStep(b + more) == MessageStep(b)
    {
      assert Word(b + more, 0) == Word(b, 0) && Word(b + more, 4) == Word(b, 4);
      var size := Word(b, 4) / 0x1_0000;
      if size >= 8 && |b| >= size {
        assert (b + more)[8..size] == b[8..size];
      }
    }
  }

  /** A message that fits the wire format. */
  predicate Sendable(m: Message) {
    m.sender < 0x1_0000_0000 && m.opcode < 0x1_0000 && |m.body| < 0xFFF8 && |m.body| % 4 == 0
  }

  /** A message as it goes over the wire: its sender, its opcode and, in the upper half of the same word, its size. */
  function Sent(m: Message): Bytes
    requires Sendable(m)
  {
    Packed(m.sender) + Packed(m.opcode + 0x1_0000 * (8 + |m.body|)) + m.body
  }

  /** A sent message of whole words is the first one of any stream it begins. */
  lemma SentIsReceived(m: Message, rest: Bytes)
    requires Sendable(m)
    ensures MessageStep(Sent(m) + rest) == Frame(m, 8 + |m.body|)
  {
    hide Word, Packed, MessageStep;
    var b, word := Sent(m) + rest, m.opcode + 0x1_0000 * (8 + |m.body|);
    assert b == Packed(m.sender) + (Packed(word) + (m.body + rest));
    PackedWord(m.sender, Packed(word) + (m.body + rest));
    PackedWord(word, m.body + rest);
    assert b[4..] == Packed(word) + (m.body + rest);
    WordAt(b, 4);
    Halves(m.opcode, 8 + |m.body|);
    StepBy(b, word, 8 + |m.body|, m.opcode);
    assert b[8..8 + |m.body|] == m.body;
  }

  lemma StepBy(b: Bytes, word: nat, size: nat, opcode: nat)
    requires |b| >= size >= 8 && size % 4 == 0 && Word(b, 4) == word
    requires word / 0x1_0000 == size && word % 0x1_0000 == opcode
    ensures MessageStep(b) == Frame(Message(Word(b, 0), opcode, b[8..size]), size)
  {
    hide Word;
  }

  lemma Halves(low: nat, high: nat)
    requires low < 0x1_0000
    ensures (low + 0x1_0000 * high) / 0x1_0000 == high && (low + 0x1_0000 * high) % 0x1_0000 == low
  {
  }

  lemma WordAt(b: Bytes, at: nat)
    requires at + 4 <= |b|
    ensures Word(b, at) == Word(b[at..], 0)
  {
  }

  /** A registry global: its number, the length of its name with the final zero, the name, the zero and whatever follows. */
  lemma GlobalIsNamed(number: nat, name: Bytes, rest: Bytes)
    requires number < 0x1_0000_0000 && |name| + 1 < 0x1_0000_0000 && forall i :: 0 <= i < |name| ==> name[i] < 128
    ensures var body := Packed(number) + Packed(|name| + 1) + name + [0] + rest;
      && IsGlobal(Message(2, 0, body)) && |GlobalName(body)| == |name|
      && forall i :: 0 <= i < |name| ==> GlobalName(body)[i] as int == name[i] as int
  {
    hide Word, Packed;
    var body := Packed(number) + Packed(|name| + 1) + name + [0] + rest;
    assert body[4..] == Packed(|name| + 1) + (name + [0] + rest);
    PackedWord(|name| + 1, name + [0] + rest);
    WordAt(body, 4);
    assert Slice(body, 8, 8 + |name|) == name;
  }

  lemma StepSize(b: Bytes)
    ensures MessageStep(b).Frame? ==> 0 < MessageStep(b).size <= |b|
  {
  }

  /** A partial message is under 64 KiB, far below the buffer guard. */
  lemma PartialMessageIsSmall(b: Bytes)
    requires MessageStep(b).More?
    ensures |b| < 0x1_0000 < BUFFER_GUARD
  {
  }

  // ---------------------------------------------------------------- what the answer means

  /** The messages of a stream, up to the first byte that does not belong to a whole message. */
  function Messages(b: Bytes): seq<Message>
    decreases |b|
  {
    var step := MessageStep(b);
    if !step.Frame? then [] else [step.frame] + Messages(b[step.size..])
  }

  predicate Ends(m: Message) {
    !IsGlobal(m) && (IsDone(m) || IsError(m))
  }

  /** The names of the globals among `messages`. */
  function Names(messages: seq<Message>): set<string> {
    set m | m in messages && IsGlobal(m) :: GlobalName(m.body)
  }

  /** The bytes after the whole messages of `b`. */
  function Remainder(b: Bytes): Bytes
    decreases |b|
  {
    var step := MessageStep(b);
    if !step.Frame? then b else Remainder(b[step.size..])
  }

  /** The first message of `messages` that ends the exchange. */
  function FirstEnd(messages: seq<Message>): (n: nat)
    ensures n <= |messages|
    ensures forall i :: 0 <= i < n ==> !Ends(messages[i])
    ensures n < |messages| ==> Ends(messages[n])
  {
    if messages == [] || Ends(messages[0]) then 0 else 1 + FirstEnd(messages[1..])
  }

  /** What a stream means to a reader that already knows `names`. */
  function Answer(names: set<string>, b: Bytes): Progress<set<string>, Option<set<string>>> {
    var messages := Messages(b);
    var n := FirstEnd(messages);
    var seen := names + Names(messages[..n]);
    if n < |messages| then Finished(if IsDone(messages[n]) then Some(seen) else None)
    else if MessageStep(Remainder(b)).Broken? then Finished(None)
    else Waiting(seen, Remainder(b))
  }

  lemma AnswerStep(names: set<string>, b: Bytes)
    requires MessageStep(b).Frame? && !Ends(MessageStep(b).frame)
    ensures 0 < MessageStep(b).size <= |b|
    ensures var m := MessageStep(b).frame;
      Answer(names, b)
      == Answer(if IsGlobal(m) then names + {GlobalName(m.body)} else names, b[MessageStep(b).size..])
  {
    hide MessageStep, GlobalName, Ends;
    StepSize(b);
    var m, rest := MessageStep(b).frame, b[MessageStep(b).size..];
    var n := FirstEnd(Messages(rest));
    assert Messages(b) == [m] + Messages(rest);
    assert Messages(b)[1..] == Messages(rest);
    assert Messages(b)[..n + 1] == [m] + Messages(rest)[..n];
    NamesCons(m, Messages(rest)[..n]);
    assert (if IsGlobal(m) then names + {GlobalName(m.body)} else names) + Names(Messages(rest)[..n])
        == names + Names(Messages(b)[..n + 1]);
  }

  lemma AnswerEnd(names: set<string>, b: Bytes)
    requires !MessageStep(b).Frame? || Ends(MessageStep(b).frame)
    ensures Answer(names, b) ==
      if MessageStep(b).Frame? then Finished(if IsDone(MessageStep(b).frame) then Some(names) else None)
      else if MessageStep(b).Broken? then Finished(None) else Waiting(names, b)
  {
    hide MessageStep, GlobalName, IsGlobal, Ends;
    assert FirstEnd(Messages(b)) == 0;
    assert Names(Messages(b)[..0]) == {};
    assert names + {} == names;
  }

  /**
   Decoding a whole stream answers the names of exactly the globals before the first callback-done
   event; nothing on an error event or a malformed size before it; and waits otherwise.
   */
  lemma {:induction false} DecodeMeans(b: Bytes, names: set<string>)
    ensures Steady(Registry())
    ensures Decode(Registry(), names, b) == Answer(names, b)
    decreases |b|
  {
    hide MessageStep, Answer, GlobalName;
    RegistryIsSteady();
    var step := MessageStep(b);
    assert Registry().step(b) == step;
    if step.Frame? && !Ends(step.frame) {
      assert Registry().take(names, step.frame) == TakeMessage(names, step.frame);
      AnswerStep(names, b);
      DecodeMeans(b[step.size..], if IsGlobal(step.frame) then names + {GlobalName(step.frame.body)} else names);
    } else {
      if step.Frame? {
        assert Registry().take(names, step.frame) == TakeMessage(names, step.frame);
      }
      AnswerEnd(names, b);
    }
  }

  lemma NamesCons(m: Message, rest: seq<Message>)
    ensures Names([m] + rest) == (if IsGlobal(m) then {GlobalName(m.body)} else {}) + Names(rest)
  {
    assert forall x :: x in [m] + rest <==> x == m || x in rest;
  }

  function SentAll(messages: seq<Message>): Bytes
    requires forall m :: m in messages ==> Sendable(m)
  {
    if messages == [] then []
    else
      assert messages[0] in messages;
      Sent(messages[0]) + SentAll(messages[1..])
  }

  /** The names that the registry (object 2) announced. */
  ghost function Announced(messages: seq<Message>): set<string> {
    set m | m in messages && m.sender == 2 && m.opcode == 0 && |m.body| >= 8 :: GlobalName(m.body)
  }

  lemma AnnouncedCons(m: Message, rest: seq<Message>, names: set<string>)
    ensures names + Announced([m] + rest) == (if IsGlobal(m) then names + {GlobalName(m.body)} else names) + Announced(rest)
    ensures names + Announced([]) == names
  {
    hide GlobalName;
    assert forall x :: x in [m] + rest <==> x == m || x in rest;
  }

  /** A callback's or the display's first event. */
  predicate Final(m: Message) {
    m.opcode == 0 && (m.sender == 1 || m.sender == 3)
  }

  /**
   An exchange: any messages but the callback's (object 3) and the display's (object 1) first events, then one
   of these two. The callback's answers with the announced names, the error with nothing.
   */
  lemma {:induction false} ExchangeAnswers(messages: seq<Message>, end: Message, rest: Bytes, names: set<string>)
    requires (forall m :: m in messages ==> Sendable(m) && !Final(m)) && Sendable(end) && Final(end)
    ensures Steady(Registry())
    ensures Decode(Registry(), names, SentAll(messages) + Sent(end) + rest) ==
      Finished(if end.sender == 3 then Some(names + Announced(messages)) else None)
    decreases |messages|
  {
    hide MessageStep, Sent, GlobalName, Announced;
    RegistryIsSteady();
    var stream := SentAll(messages) + Sent(end) + rest;
    assert Registry().step(stream) == MessageStep(stream);
    AnnouncedCons(end, [], names);
    if messages == [] {
      assert stream == Sent(end) + rest;
      SentIsReceived(end, rest);
      assert Registry().take(names, end) == TakeMessage(names, end);
    } else {
      var m, others := messages[0], messages[1..];
      var after := SentAll(others) + Sent(end) + rest;
      assert m in messages && stream == Sent(m) + after;
      SentIsReceived(m, after);
      SentLength(m);
      assert stream[8 + |m.body|..] == after;
      assert Registry().take(names, m) == TakeMessage(names, m);
      var more := if IsGlobal(m) then names + {GlobalName(m.body)} else names;
      ExchangeAnswers(others, end, rest, more);
      AnnouncedCons(m, others, names);
      assert messages == [m] + others;
    }
  }

  lemma SentLength(m: Message)
    requires Sendable(m)
    ensures |Sent(m)| == 8 + |m.body|
  {
  }

  /** The registry's interface names, or nothing; an empty chunk is the end of the connection. */
  method Globals(chunks: seq<Bytes>) returns (r: Option<set<string>>)
    ensures Steady(Registry())
    ensures var received := Received(chunks);
      var end := Decode(Registry(), {}, Concat(received));
      r == if end.Finished? then end.result else None
  {
    RegistryIsSteady();
    var names: set<string>, buffer: Bytes := {}, [];
    var k := 0;
    while |buffer| < BUFFER_GUARD
      invariant k <= |Received(chunks)|
      invariant Decode(Registry(), {}, Concat(Received(chunks)[..k])) == Waiting(names, buffer)
      invariant MessageStep(buffer).More?
      decreases |chunks| - k
    {
      ReceivedIsPrefix(chunks);
      if k == |chunks| || chunks[k] == [] {
        assert Received(chunks)[..k] == Received(chunks);
        return None;
      }
      ghost var before := Received(chunks)[..k];
      assert Received(chunks)[..k + 1] == before + [chunks[k]];
      ConcatAppend(before, [chunks[k]]);
      ConcatOne(chunks[k]);
      DecodeAppend(Registry(), {}, Concat(before), chunks[k]);
      ghost var now := Decode(Registry(), {}, Concat(Received(chunks)[..k + 1]));
      buffer := buffer + chunks[k];
      k := k + 1;
      while |buffer| >= 8
        invariant Decode(Registry(), names, buffer) == now
        decreases |buffer|
      {
        var step := MessageStep(buffer);
        assert Registry().step(buffer) == step;
        if step.Broken? {
          FinishedEarly(chunks, k);
          return None;
        }
        if step.More? {
          break;
        }
        var m := step.frame;
        assert Registry().take(names, m) == TakeMessage(names, m);
        buffer := buffer[step.size..];
        if IsGlobal(m) {
          names := names + {GlobalName(m.body)};
        } else if IsDone(m) {
          FinishedEarly(chunks, k);
          return Some(names);
        } else if IsError(m) {
          FinishedEarly(chunks, k);
          return None;
        }
      }
      assert Registry().step(buffer) == MessageStep(buffer);
    }
    PartialMessageIsSmall(buffer);
    assert false;
  }

  /** The chunks before the peer closes. */
  function Received(chunks: seq<Bytes>): seq<Bytes> {
    if chunks == [] || chunks[0] == [] then [] else [chunks[0]] + Received(chunks[1..])
  }

  lemma {:induction false} ReceivedIsPrefix(chunks: seq<Bytes>)
    ensures Received(chunks) <= chunks
    ensures forall i :: 0 <= i < |Received(chunks)| ==> chunks[i] != []
    ensures |Received(chunks)| < |chunks| ==> chunks[|Received(chunks)|] == []
  {
    if chunks != [] && chunks[0] != [] {
      ReceivedIsPrefix(chunks[1..]);
    }
  }

  /** Once decoding has finished, later chunks change nothing. */
  lemma FinishedEarly(chunks: seq<Bytes>, k: nat)
    requires k <= |Received(chunks)| && Steady(Registry())
    requires Decode(Registry(), {}, Concat(Received(chunks)[..k])).Finished?
    ensures Decode(Registry(), {}, Concat(Received(chunks))) == Decode(Registry(), {}, Concat(Received(chunks)[..k]))
  {
    var all := Received(chunks);
    assert all == all[..k] + all[k..];
    ConcatAppend(all[..k], all[k..]);
    DecodeAppend(Registry(), {}, Concat(all[..k]), Concat(all[k..]));
  }
}
