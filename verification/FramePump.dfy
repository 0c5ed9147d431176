/** One client's frames: bytes come in chunks of any size, and one frame is answered in each dispatch. */
module FramePump {
  import opened Common
  import opened Framing
  import opened Protocol

  const MAX_FRAME: nat := 16 * 1024
  const MAX_BUFFER: nat := 4 * MAX_FRAME
  const NEWLINE: byte := 10

  /** A connected client; `id` is its identity, which a reused descriptor does not share. */
  datatype Client = Client(id: nat, buffer: Bytes, scheduled: bool)

  /** An idle callback that will answer one buffered frame of a client. */
  datatype Callback = Callback(fd: int, id: nat)

  /** `now` lacks some of the clients of `before`; the others are untouched. */
  ghost predicate Shrunk(before: map<int, Client>, now: map<int, Client>) {
    forall fd :: fd in now ==> fd in before && now[fd] == before[fd]
  }

  /** Frames with their newlines put back. */
  function Joined(frames: seq<Bytes>): Bytes {
    if frames == [] then [] else Joined(frames[..|frames| - 1]) + frames[|frames| - 1] + [NEWLINE]
  }

  /** No part between newlines is too long for a frame, and the whole is bounded. */
  predicate WithinFrameLimits(buffer: Bytes) {
    && |buffer| <= MAX_BUFFER
    && forall i, j :: 0 <= i <= j <= |buffer| && NEWLINE !in buffer[i..j] ==> j - i + 1 <= MAX_FRAME
  }

  /** Everything received from a client is its answered frames, in order, then its buffer. */
  ghost predicate Conserved(buffer: Bytes, received: Bytes, answered: seq<Bytes>) {
    && received == Joined(answered) + buffer
    && forall k :: 0 <= k < |answered| ==> NEWLINE !in answered[k]
  }

  /** The last frame taken from a client could not be answered. */
  predicate Stopped(frames: seq<Bytes>, decode: Bytes -> Decoded) {
    frames != [] && Unanswerable(decode(frames[|frames| - 1]))
  }

  /**
   A client between dispatches: a whole frame in its buffer is scheduled, by exactly one callback, unless
   the last frame could not be answered; then nothing is.
   */
  ghost predicate ClientOk(fd: int, c: Client, idle: multiset<Callback>, received: map<nat, Bytes>,
                           answered: map<nat, seq<Bytes>>, decode: Bytes -> Decoded) {
    && c.id in received && c.id in answered && Conserved(c.buffer, received[c.id], answered[c.id])
    && WithinFrameLimits(c.buffer)
    && (if Stopped(answered[c.id], decode) then !c.scheduled else NEWLINE in c.buffer ==> c.scheduled)
    && idle[Callback(fd, c.id)] == (if c.scheduled then 1 else 0)
  }

  ghost predicate PumpOk(clients: map<int, Client>, skip: set<int>, idle: multiset<Callback>, received: map<nat, Bytes>,
                         answered: map<nat, seq<Bytes>>, nextId: nat, decode: Bytes -> Decoded) {
    && (forall fd :: fd in clients && fd !in skip ==> ClientOk(fd, clients[fd], idle, received, answered, decode))
    && (forall fd :: fd in clients ==> clients[fd].id < nextId)
    && (forall fd, gd :: fd in clients && gd in clients && fd != gd ==> clients[fd].id != clients[gd].id)
    && (forall c :: c in idle ==> c.id < nextId)
    && (forall id :: id in received || id in answered ==> id < nextId)
  }

  /** A client whose dispatch is under way: nothing is scheduled for it. */
  ghost predicate Unsettled(fd: int, c: Client, idle: multiset<Callback>, received: map<nat, Bytes>,
                            answered: map<nat, seq<Bytes>>) {
    && c.id in received && c.id in answered && Conserved(c.buffer, received[c.id], answered[c.id])
    && WithinFrameLimits(c.buffer)
    && idle[Callback(fd, c.id)] == 0
  }

  /** More bytes for a settled client leave it settled or ready for its dispatch. */
  lemma ScheduledOnce(fd: int, c: Client, before: Client, idle: multiset<Callback>, earlier: map<nat, Bytes>,
                      received: map<nat, Bytes>, answered: map<nat, seq<Bytes>>, decode: Bytes -> Decoded)
    requires ClientOk(fd, before, idle, earlier, answered, decode) && WithinFrameLimits(c.buffer)
    requires c == before.(buffer := c.buffer) && before.buffer <= c.buffer
    requires received == earlier[c.id := earlier[c.id] + c.buffer[|before.buffer|..]]
    ensures if NEWLINE in c.buffer && !c.scheduled then Unsettled(fd, c, idle, received, answered)
            else ClientOk(fd, c, idle, received, answered, decode)
  {
    Assoc(Joined(answered[c.id]), before.buffer, c.buffer[|before.buffer|..]);
  }

  /** A client with nothing scheduled is settled without a whole frame, or when its last one could not be answered. */
  lemma UnsettledIsOk(fd: int, c: Client, idle: multiset<Callback>, received: map<nat, Bytes>, answered: map<nat, seq<Bytes>>,
                      decode: Bytes -> Decoded)
    requires Unsettled(fd, c, idle, received, answered) && !c.scheduled
    requires NEWLINE !in c.buffer || Stopped(answered[c.id], decode)
    ensures ClientOk(fd, c, idle, received, answered, decode)
  {
  }

  /** Losing clients leaves the others as they were. */
  lemma PumpShrinks(clients: map<int, Client>, now: map<int, Client>, skip: set<int>, idle: multiset<Callback>,
                    received: map<nat, Bytes>, answered: map<nat, seq<Bytes>>, nextId: nat, decode: Bytes -> Decoded)
    requires PumpOk(clients, skip, idle, received, answered, nextId, decode) && Shrunk(clients, now)
    ensures PumpOk(now, skip, idle, received, answered, nextId, decode)
    ensures |now| <= |clients|
  {
    forall fd | fd in now.Keys
      ensures fd in clients.Keys
    {
      assert fd in now;
    }
    SmallerSet(now.Keys, clients.Keys);
  }

  lemma {:induction false} SmallerSet<T>(a: set<T>, b: set<T>)
    requires a <= b
    ensures |a| <= |b|
  {
    if x :| x in a {
      SmallerSet(a - {x}, b - {x});
    }
  }

  /** The skipped client is gone, or settled again. */
  lemma PumpSettles(clients: map<int, Client>, fd: int, idle: multiset<Callback>, received: map<nat, Bytes>,
                    answered: map<nat, seq<Bytes>>, nextId: nat, decode: Bytes -> Decoded)
    requires PumpOk(clients, {fd}, idle, received, answered, nextId, decode)
    requires fd in clients ==> ClientOk(fd, clients[fd], idle, received, answered, decode)
    ensures PumpOk(clients, {}, idle, received, answered, nextId, decode)
  {
  }

  /** A client's own record, stream and answers may change while it is skipped. */
  lemma PumpSkips(clients: map<int, Client>, fd: int, next: Client, idle: multiset<Callback>, received: map<nat, Bytes>,
                  answered: map<nat, seq<Bytes>>, stream: Bytes, answers: seq<Bytes>, nextId: nat,
                  decode: Bytes -> Decoded)
    requires PumpOk(clients, {fd}, idle, received, answered, nextId, decode) && fd in clients && next.id == clients[fd].id
    ensures PumpOk(clients[fd := next], {fd}, idle, received[next.id := stream], answered[next.id := answers], nextId, decode)
  {
    var now := clients[fd := next];
    forall gd | gd in now && gd != fd
      ensures ClientOk(gd, now[gd], idle, received[next.id := stream], answered[next.id := answers], decode)
    {
      assert ClientOk(gd, clients[gd], idle, received, answered, decode);
    }
  }

  /** One callback more for the skipped client. */
  lemma PumpSchedules(clients: map<int, Client>, fd: int, next: Client, idle: multiset<Callback>, received: map<nat, Bytes>,
                      answered: map<nat, seq<Bytes>>, nextId: nat, decode: Bytes -> Decoded)
    requires PumpOk(clients, {fd}, idle, received, answered, nextId, decode) && fd in clients
    requires Unsettled(fd, clients[fd], idle, received, answered)
    requires next == clients[fd].(scheduled := true) && !Stopped(answered[next.id], decode)
    ensures PumpOk(clients[fd := next], {}, idle + multiset{Callback(fd, next.id)}, received, answered, nextId, decode)
  {
    var now, more := clients[fd := next], idle + multiset{Callback(fd, next.id)};
    forall gd | gd in now
      ensures ClientOk(gd, now[gd], more, received, answered, decode)
    {
      if gd != fd {
        assert ClientOk(gd, clients[gd], idle, received, answered, decode);
      }
    }
  }

  /** Taking a callback off the queue unsettles at most its own client; a stale one unsettles none. */
  lemma PumpDispatches(clients: map<int, Client>, cb: Callback, idle: multiset<Callback>, received: map<nat, Bytes>,
                       answered: map<nat, seq<Bytes>>, nextId: nat, decode: Bytes -> Decoded)
    requires PumpOk(clients, {}, idle, received, answered, nextId, decode) && cb in idle
    ensures var rest := idle - multiset{cb};
      && PumpOk(clients, {cb.fd}, rest, received, answered, nextId, decode)
      && (cb.fd in clients && clients[cb.fd].id == cb.id ==>
            clients[cb.fd].scheduled && Unsettled(cb.fd, clients[cb.fd], rest, received, answered))
      && (cb.fd !in clients || clients[cb.fd].id != cb.id ==> PumpOk(clients, {}, rest, received, answered, nextId, decode))
  {
    var rest := idle - multiset{cb};
    forall gd | gd in clients && (gd != cb.fd || clients[gd].id != cb.id)
      ensures ClientOk(gd, clients[gd], rest, received, answered, decode)
    {
      assert ClientOk(gd, clients[gd], idle, received, answered, decode);
    }
    if cb.fd in clients && clients[cb.fd].id == cb.id {
      assert ClientOk(cb.fd, clients[cb.fd], idle, received, answered, decode);
    }
  }

  /** A client that just connected. */
  lemma PumpAccepts(clients: map<int, Client>, fd: int, idle: multiset<Callback>, received: map<nat, Bytes>,
                    answered: map<nat, seq<Bytes>>, nextId: nat, decode: Bytes -> Decoded)
    requires PumpOk(clients, {}, idle, received, answered, nextId, decode) && fd !in clients
    ensures PumpOk(clients[fd := Client(nextId, [], false)], {}, idle, received[nextId := []], answered[nextId := []],
                   nextId + 1, decode)
    ensures nextId !in received && nextId !in answered
  {
    var now := clients[fd := Client(nextId, [], false)];
    forall gd | gd in now
      ensures ClientOk(gd, now[gd], idle, received[nextId := []], answered[nextId := []], decode)
    {
      if gd != fd {
        assert ClientOk(gd, clients[gd], idle, received, answered, decode);
      }
    }
  }

  /** Where the first newline of a buffer is. */
  function FirstNewline(b: Bytes): (k: nat)
    requires NEWLINE in b
    ensures k < |b| && b[k] == NEWLINE && NEWLINE !in b[..k]
  {
    if b[0] == NEWLINE then 0 else
      assert b == [b[0]] + b[1..];
      var rest := FirstNewline(b[1..]);
      assert b[..rest + 1] == [b[0]] + b[1..][..rest];
      rest + 1
  }

  lemma SuffixWithinLimits(b: Bytes, k: nat)
    requires WithinFrameLimits(b) && k <= |b|
    ensures WithinFrameLimits(b[k..])
  {
    forall i, j | 0 <= i <= j <= |b[k..]| && NEWLINE !in b[k..][i..j]
      ensures j - i + 1 <= MAX_FRAME
    {
      assert b[k..][i..j] == b[k + i..k + j];
    }
  }

  /** Taking the first frame off a buffer moves its bytes from the buffer to the answered frames. */
  lemma FrameTaken(buffer: Bytes, received: Bytes, answered: seq<Bytes>)
    requires Conserved(buffer, received, answered) && NEWLINE in buffer
    ensures var k := FirstNewline(buffer);
      Conserved(buffer[k + 1..], received, answered + [buffer[..k]])
  {
    hide FirstNewline;
    var k := FirstNewline(buffer);
    var line, rest := buffer[..k], buffer[k + 1..];
    assert (answered + [line])[..|answered|] == answered;
    assert buffer == line + ([NEWLINE] + rest);
    Assoc(Joined(answered), line, [NEWLINE] + rest);
    Assoc(Joined(answered) + line, [NEWLINE], rest);
  }

  // ---------------------------------------------------------------- answered frames are the stream's lines

  /** The newline-terminated lines of a stream. */
  function LineStep(b: Bytes): Step<Bytes> {
    if NEWLINE !in b then More else Frame(b[..FirstNewline(b)], FirstNewline(b) + 1)
  }

  function Lines(): Reader<Bytes, seq<Bytes>, ()> {
    Reader(b => LineStep(b), (lines, line) => Go(lines + [line]), ())
  }

  lemma FirstNewlineIs(b: Bytes, k: nat)
    requires k < |b| && b[k] == NEWLINE && NEWLINE !in b[..k]
    ensures FirstNewline(b) == k
  {
  }

  lemma LinesAreSteady()
    ensures Steady(Lines()) && Lines().step([]).More?
  {
    forall b: Bytes, more: Bytes | !LineStep(b).More?
      ensures LineStep(b + more) == LineStep(b)
    {
      var k := FirstNewline(b);
      assert (b + more)[..k] == b[..k] && (b + more)[k] == NEWLINE;
      FirstNewlineIs(b + more, k);
    }
  }

  /** Frames that join with a rest to the received bytes are its first lines, whatever the chunking was. */
  lemma {:induction false} AnsweredAreLines(frames: seq<Bytes>, rest: Bytes, done: seq<Bytes>)
    requires forall k :: 0 <= k < |frames| ==> NEWLINE !in frames[k]
    ensures Steady(Lines())
    ensures Decode(Lines(), done, Joined(frames) + rest) == Decode(Lines(), done + frames, rest)
    decreases |frames|
  {
    hide LineStep, FirstNewline, Framing.Steady;
    LinesAreSteady();
    if frames == [] {
      assert Joined(frames) + rest == rest && done + frames == done;
    } else {
      var first, others := frames[0], frames[1..];
      JoinedCons(first, others);
      assert frames == [first] + others;
      assert Joined(frames) + rest == first + [NEWLINE] + (Joined(others) + rest);
      FirstLine(first, Joined(others) + rest);
      assert Lines().step(Joined(frames) + rest) == LineStep(Joined(frames) + rest);
      AnsweredAreLines(others, rest, done + [first]);
      Assoc(done, [first], others);
    }
  }

  lemma FirstLine(first: Bytes, rest: Bytes)
    requires NEWLINE !in first
    ensures LineStep(first + [NEWLINE] + rest) == Frame(first, |first| + 1)
    ensures (first + [NEWLINE] + rest)[|first| + 1..] == rest
  {
    var bytes := first + [NEWLINE] + rest;
    assert bytes[..|first|] == first && bytes[|first|] == NEWLINE;
    FirstNewlineIs(bytes, |first|);
  }

  lemma {:induction false} JoinedCons(first: Bytes, others: seq<Bytes>)
    ensures Joined([first] + others) == first + [NEWLINE] + Joined(others)
  {
    var all := [first] + others;
    if others == [] {
      assert all[..0] == [] && Joined(all) == Joined(all[..0]) + first + [NEWLINE];
    } else {
      var n := |others| - 1;
      assert all[..|all| - 1] == [first] + others[..n] && all[|all| - 1] == others[n];
      JoinedCons(first, others[..n]);
    }
  }
}
