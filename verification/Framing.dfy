/**
 * The wire format of a packet and the connection's read state machine, as a function of the
 * bytes that have arrived. A frame is a 32-bit size (body length plus 8), a 32-bit opcode, both
 * little-endian, and the body.
 */
module Framing {
  import opened Bytes

  const HEADER_SIZE := 8
  const READ_BLOCK_SIZE := 4096
  const SIZE_LIMIT := 10240
  const NUM_MSG_TYPES := 0x12
  const CMSG_PLAYER_LOGIN := 0x00
  const CMSG_PING := 0x0F
  const SKIPPED := 8
  const ACCOUNT_AT := 20
  const WORD := 0x1_0000_0000

  datatype Packet = Packet(opcode: nat, body: seq<Byte>)

  /** The bytes the server writes for a packet. Both header words are 32 bits wide. */
  function Frame(p: Packet): seq<Byte> {
    ToLE((|p.body| + HEADER_SIZE) % WORD, 4) + ToLE(p.opcode % WORD, 4) + p.body
  }

  function Frames(ps: seq<Packet>): seq<Byte> {
    if ps == [] then [] else Frame(ps[0]) + Frames(ps[1..])
  }

  /** Packets whose size and opcode fit the header words. */
  ghost predicate Representable(p: Packet) {
    |p.body| + HEADER_SIZE < WORD && p.opcode < WORD
  }

  /** Packets the reader passes on: known opcode, within the size limit, long enough to skip 8 bytes. */
  ghost predicate Readable(p: Packet) {
    SKIPPED <= |p.body| && |p.body| + HEADER_SIZE < SIZE_LIMIT && p.opcode < NUM_MSG_TYPES
  }

  predicate IsValidHeader(size: nat, cmd: nat) {
    4 <= size < SIZE_LIMIT && cmd < NUM_MSG_TYPES
  }

  // ---------------------------------------------------------------- the connection

  /** What ended a connection other than closing it: an exception or a null session. */
  datatype Failure = LengthError | PositionError | NullSession

  datatype Status = Open | Closed | Failed(failure: Failure)

  datatype Session = NoSession | Session(account: nat, queue: seq<Packet>)

  /**
   * `head` and `body` are the bytes of the frame being read; `received` lists the packets
   * reassembled so far.
   */
  datatype Conn = Conn(status: Status, head: seq<Byte>, body: seq<Byte>, received: seq<Packet>, session: Session)

  const START := Conn(Open, [], [], [], NoSession)

  function Stop(c: Conn, status: Status): Conn {
    c.(status := status, head := [], body := [])
  }

  /** What the data handler does with a complete packet. */
  function Handle(c: Conn, p: Packet): Conn {
    if c.status != Open then c else
    var d := c.(received := c.received + [p], head := [], body := []);
    if |p.body| < SKIPPED then
      Stop(d, Failed(PositionError))
    else if p.opcode == CMSG_PLAYER_LOGIN then
      if d.session.Session? then d
      else if |p.body| < ACCOUNT_AT + 4 then Stop(d, Failed(PositionError))
      else d.(session := Session(FromLE(p.body[ACCOUNT_AT..ACCOUNT_AT + 4]), [p]))
    else if p.opcode == CMSG_PING then
      if d.session.NoSession? then Stop(d, Failed(NullSession)) else d
    else if d.session.NoSession? then
      Stop(d, Closed)
    else
      d.(session := d.session.(queue := d.session.queue + [p]))
  }

  function SizeOf(head: seq<Byte>): nat
    requires |head| == HEADER_SIZE
  {
    FromLE(head[..4])
  }

  function CmdOf(head: seq<Byte>): nat
    requires |head| == HEADER_SIZE
  {
    FromLE(head[4..])
  }

  /** What the header handler does with a complete header. */
  function OnHeader(c: Conn): Conn
    requires |c.head| == HEADER_SIZE && c.body == []
  {
    var size, cmd := SizeOf(c.head), CmdOf(c.head);
    if !IsValidHeader(size, cmd) then Stop(c, Closed)
    else if size < HEADER_SIZE then Stop(c, Failed(LengthError))
    else if size == HEADER_SIZE then Handle(c, Packet(cmd, []))
    else c
  }

  /** The shape of a connection between two bytes: a partial header, or a valid one and a partial body. */
  ghost predicate Waiting(c: Conn) {
    && (c.status == Open ==>
          if |c.head| < HEADER_SIZE then c.body == []
          else |c.head| == HEADER_SIZE && IsValidHeader(SizeOf(c.head), CmdOf(c.head))
               && |c.body| < SizeOf(c.head) - HEADER_SIZE)
    && (c.status != Open ==> c.head == [] && c.body == [])
  }

  /** One more byte arrives. */
  function Feed1(c: Conn, b: Byte): (r: Conn)
    requires Waiting(c)
    ensures Waiting(r)
  {
    if c.status != Open then c
    else if |c.head| < HEADER_SIZE then
      var d := c.(head := c.head + [b]);
      if |d.head| == HEADER_SIZE then OnHeader(d) else d
    else
      var d := c.(body := c.body + [b]);
      if |d.body| == SizeOf(d.head) - HEADER_SIZE then Handle(d, Packet(CmdOf(d.head), d.body)) else d
  }

  function Feed(c: Conn, bytes: seq<Byte>): (r: Conn)
    requires Waiting(c)
    ensures Waiting(r)
    decreases |bytes|
  {
    if bytes == [] then c else Feed(Feed1(c, bytes[0]), bytes[1..])
  }

  // ---------------------------------------------------------------- bytes on the wire

  /** The reader's header, byte by byte: the size in the first four bytes, the opcode in the others, both lowest byte first. */
  lemma HeaderBytes(head: seq<Byte>)
    requires |head| == HEADER_SIZE
    ensures SizeOf(head) == Number32(head[0], head[1], head[2], head[3])
    ensures CmdOf(head) == Number32(head[4], head[5], head[6], head[7])
  {
    hide FromLE;
    Word32(head[..4]);
    Word32(head[4..]);
  }

  /** The sender's frame, byte by byte. */
  lemma FrameBytes(p: Packet)
    requires Representable(p)
    ensures var f := Frame(p);
            && |f| == 8 + |p.body| && f[8..] == p.body
            && |p.body| + 8 == Number32(f[0], f[1], f[2], f[3])
            && p.opcode == Number32(f[4], f[5], f[6], f[7])
  {
    hide FromLE, ToLE;
    var size, cmd := ToLE(|p.body| + HEADER_SIZE, 4), ToLE(p.opcode, 4);
    FourBytes();
    FromToLE(|p.body| + HEADER_SIZE, 4);
    FromToLE(p.opcode, 4);
    Word32(size);
    Word32(cmd);
    FramePieces(p);
  }

  lemma FourBytes()
    ensures Pow256(4) == WORD
  {
    assert Pow256(2) == 65536;
  }

  lemma FramePieces(p: Packet)
    requires Representable(p)
    ensures var f, size, cmd := Frame(p), ToLE(|p.body| + HEADER_SIZE, 4), ToLE(p.opcode, 4);
            && |f| == 8 + |p.body| && f[8..] == p.body
            && f[0] == size[0] && f[1] == size[1] && f[2] == size[2] && f[3] == size[3]
            && f[4] == cmd[0] && f[5] == cmd[1] && f[6] == cmd[2] && f[7] == cmd[3]
  {
    hide ToLE;
  }

  // ---------------------------------------------------------------- chunking

  /** Bytes can be delivered in two parts. */
  lemma {:induction false} FeedSplit(c: Conn, a: seq<Byte>, b: seq<Byte>)
    requires Waiting(c)
    ensures Feed(c, a + b) == Feed(Feed(c, a), b)
    decreases |a|
  {
    if a == [] {
      assert a + b == b;
    } else {
      assert (a + b)[0] == a[0] && (a + b)[1..] == a[1..] + b;
      FeedSplit(Feed1(c, a[0]), a[1..], b);
    }
  }

  function Concat(chunks: seq<seq<Byte>>): seq<Byte> {
    if chunks == [] then [] else chunks[0] + Concat(chunks[1..])
  }

  function FeedChunks(c: Conn, chunks: seq<seq<Byte>>): (r: Conn)
    requires Waiting(c)
    ensures Waiting(r)
    decreases |chunks|
  {
    if chunks == [] then c else FeedChunks(Feed(c, chunks[0]), chunks[1..])
  }

  /** However the stream is cut into chunks, the connection ends up the same. */
  lemma {:induction false} ChunkingIsIrrelevant(c: Conn, chunks: seq<seq<Byte>>)
    requires Waiting(c)
    ensures FeedChunks(c, chunks) == Feed(c, Concat(chunks))
    decreases |chunks|
  {
    if chunks != [] {
      FeedSplit(c, chunks[0], Concat(chunks[1..]));
      ChunkingIsIrrelevant(Feed(c, chunks[0]), chunks[1..]);
    }
  }

  lemma {:induction false} FeedStopped(c: Conn, bytes: seq<Byte>)
    requires Waiting(c) && c.status != Open
    ensures Feed(c, bytes) == c
    decreases |bytes|
  {
    if bytes != [] {
      FeedStopped(c, bytes[1..]);
    }
  }

  /** Part of a header only extends the header; its last byte calls the handler. */
  lemma {:induction false} FeedHeader(c: Conn, bytes: seq<Byte>)
    requires Waiting(c) && c.status == Open
    requires |c.head| < HEADER_SIZE && |c.head| + |bytes| <= HEADER_SIZE
    ensures var d := c.(head := c.head + bytes);
            Feed(c, bytes) == if |d.head| == HEADER_SIZE then OnHeader(d) else d
    decreases |bytes|
  {
    if bytes == [] {
      assert c.head + bytes == c.head;
    } else {
      var d := c.(head := c.head + [bytes[0]]);
      assert d.head + bytes[1..] == c.head + bytes;
      if |d.head| == HEADER_SIZE {
        assert bytes[1..] == [] && d.head == c.head + bytes;
        assert Feed(OnHeader(d), []) == OnHeader(d);
      } else {
        FeedHeader(d, bytes[1..]);
      }
    }
  }

  /** Part of a body only extends the body; its last byte calls the handler. */
  lemma {:induction false} FeedBody(c: Conn, bytes: seq<Byte>)
    requires Waiting(c) && c.status == Open && |c.head| == HEADER_SIZE
    requires |c.body| + |bytes| <= SizeOf(c.head) - HEADER_SIZE
    ensures var d := c.(body := c.body + bytes);
            Feed(c, bytes) ==
            if |d.body| == SizeOf(d.head) - HEADER_SIZE then Handle(d, Packet(CmdOf(d.head), d.body)) else d
    decreases |bytes|
  {
    if bytes == [] {
      assert c.body + bytes == c.body;
    } else {
      var d := c.(body := c.body + [bytes[0]]);
      assert d.body + bytes[1..] == c.body + bytes;
      if |d.body| == SizeOf(d.head) - HEADER_SIZE {
        assert bytes[1..] == [] && d.body == c.body + bytes;
        assert Feed(Feed1(c, bytes[0]), []) == Feed1(c, bytes[0]);
      } else {
        FeedBody(d, bytes[1..]);
      }
    }
  }

  // ---------------------------------------------------------------- round trip

  ghost predicate Idle(c: Conn) {
    c.head == [] && c.body == []
  }

  lemma WordIs4Bytes()
    ensures Pow256(4) == WORD
  {
    assert Pow256(1) == 256 && Pow256(2) == 65536;
    assert Pow256(3) == 256 * Pow256(2);
  }

  lemma WordReadsBack(n: nat)
    requires n < WORD
    ensures FromLE(ToLE(n, 4)) == n && ToLE(n % WORD, 4) == ToLE(n, 4)
  {
    hide ToLE, FromLE, Pow256;
    WordIs4Bytes();
    FromToLE(n, 4);
  }

  lemma CutFrame(a: seq<Byte>, b: seq<Byte>, body: seq<Byte>)
    requires |a| == 4 && |b| == 4
    ensures (a + b + body)[..HEADER_SIZE] == a + b && (a + b + body)[HEADER_SIZE..] == body
    ensures (a + b)[..4] == a && (a + b)[4..] == b
  {
  }

  /** The header of a frame reads back as the size and the opcode of its packet. */
  lemma HeaderReadsBack(p: Packet)
    requires Representable(p)
    ensures |Frame(p)| == HEADER_SIZE + |p.body|
    ensures Frame(p)[HEADER_SIZE..] == p.body
    ensures SizeOf(Frame(p)[..HEADER_SIZE]) == |p.body| + HEADER_SIZE
    ensures CmdOf(Frame(p)[..HEADER_SIZE]) == p.opcode
  {
    hide ToLE, FromLE;
    var size := |p.body| + HEADER_SIZE;
    WordReadsBack(size);
    WordReadsBack(p.opcode);
    CutFrame(ToLE(size, 4), ToLE(p.opcode, 4), p.body);
  }

  /** The data handler looks at its packet, not at the bytes it came in. */
  lemma HandleFromIdle(c: Conn, head: seq<Byte>, body: seq<Byte>, p: Packet)
    requires Idle(c) && c.status == Open
    ensures Handle(c.(head := head, body := body), p) == Handle(c, p)
  {
  }

  lemma FeedNothing(c: Conn)
    requires Waiting(c)
    ensures Feed(c, []) == c
  {
  }

  /** A frame fed to an idle connection: its packet is handled, or the header is refused. */
  lemma FeedFrame(c: Conn, p: Packet)
    requires Waiting(c) && Idle(c) && c.status == Open && Representable(p)
    ensures Feed(c, Frame(p)) ==
            if IsValidHeader(|p.body| + HEADER_SIZE, p.opcode) then Handle(c, p) else Stop(c, Closed)
  {
    hide SizeOf, CmdOf, Handle, Feed, Frame;
    HeaderReadsBack(p);
    var head, body := Frame(p)[..HEADER_SIZE], Frame(p)[HEADER_SIZE..];
    assert Frame(p) == head + body;
    FeedSplit(c, head, body);
    FeedHeader(c, head);
    var d := c.(head := head);
    assert c.head + head == head;
    assert Feed(c, head) == OnHeader(d);
    HandleFromIdle(c, head, [], p);
    HandleFromIdle(c, head, p.body, p);
    if !IsValidHeader(|p.body| + HEADER_SIZE, p.opcode) {
      FeedStopped(Stop(c, Closed), body);
    } else if p.body == [] {
      assert d == c.(head := head, body := []) && Packet(p.opcode, []) == p;
      FeedNothing(OnHeader(d));
    } else {
      FeedBody(d, body);
      assert d.body + body == p.body;
    }
  }

  /** Exactly which headers end an idle connection in a length error: known opcode, size field of 4 to 7. */
  lemma LengthErrorIff(c: Conn, head: seq<Byte>)
    requires Waiting(c) && Idle(c) && c.status == Open && |head| == HEADER_SIZE
    ensures Feed(c, head).status == Failed(LengthError) <==> 4 <= SizeOf(head) < HEADER_SIZE && CmdOf(head) < NUM_MSG_TYPES
  {
    hide SizeOf, CmdOf, Feed;
    FeedHeader(c, head);
    assert c.head + head == head;
  }

  /**
   * Exactly which frames end an idle connection, and how: too short a body, or too short a login,
   * in a position error; a ping without a session at a null session; a header outside the limits,
   * or anything but a login or ping without a session, by closing.
   */
  lemma FrameEndsIff(c: Conn, p: Packet)
    requires Waiting(c) && Idle(c) && c.status == Open && Representable(p)
    ensures var r, valid, unknown := Feed(c, Frame(p)), IsValidHeader(|p.body| + HEADER_SIZE, p.opcode), c.session.NoSession?;
            && (r.status == Failed(PositionError) <==>
                  valid && (|p.body| < SKIPPED || (unknown && p.opcode == CMSG_PLAYER_LOGIN && |p.body| < ACCOUNT_AT + 4)))
            && (r.status == Failed(NullSession) <==> valid && |p.body| >= SKIPPED && unknown && p.opcode == CMSG_PING)
            && (r.status == Closed <==> !valid || (|p.body| >= SKIPPED && unknown && IsQueued(p)))
            && r.status != Failed(LengthError)
  {
    hide Feed, Frame;
    FeedFrame(c, p);
  }

  function HandleAll(c: Conn, ps: seq<Packet>): Conn
    decreases |ps|
  {
    if ps == [] then c else HandleAll(Handle(c, ps[0]), ps[1..])
  }

  lemma {:induction false} HandleAllStopped(c: Conn, ps: seq<Packet>)
    requires c.status != Open
    ensures HandleAll(c, ps) == c
    decreases |ps|
  {
    if ps != [] {
      HandleAllStopped(c, ps[1..]);
    }
  }

  /** Feeding frames one after the other handles their packets one after the other. */
  lemma {:induction false} Reassembly(c: Conn, ps: seq<Packet>)
    requires Waiting(c) && Idle(c)
    requires forall i :: 0 <= i < |ps| ==> Readable(ps[i])
    ensures Feed(c, Frames(ps)) == HandleAll(c, ps)
    decreases |ps|
  {
    if ps == [] {
    } else if c.status != Open {
      FeedStopped(c, Frames(ps));
      HandleAllStopped(c, ps);
    } else {
      assert Readable(ps[0]);
      FeedFrame(c, ps[0]);
      FeedSplit(c, Frame(ps[0]), Frames(ps[1..]));
      Reassembly(Handle(c, ps[0]), ps[1..]);
    }
  }

  /** The first packet opens a session. */
  ghost predicate OpensSession(p: Packet) {
    p.opcode == CMSG_PLAYER_LOGIN && |p.body| >= ACCOUNT_AT + 4
  }

  ghost predicate IsQueued(p: Packet) {
    p.opcode != CMSG_PLAYER_LOGIN && p.opcode != CMSG_PING
  }

  ghost function Queued(ps: seq<Packet>): seq<Packet> {
    if ps == [] then []
    else (if IsQueued(ps[0]) then [ps[0]] else []) + Queued(ps[1..])
  }

  /** With a session, all packets received and the session's share queued. */
  ghost function Served(c: Conn, ps: seq<Packet>): Conn
    requires c.session.Session?
  {
    c.(received := c.received + ps, session := c.session.(queue := c.session.queue + Queued(ps)))
  }

  lemma QueuedOne(p: Packet)
    ensures Queued([p]) == if IsQueued(p) then [p] else []
  {
    assert [p][1..] == [];
  }

  lemma HandledInSession(c: Conn, p: Packet)
    requires Idle(c) && c.status == Open && c.session.Session? && Readable(p)
    ensures Handle(c, p) == Served(c, [p])
  {
    QueuedOne(p);
    assert c.session.queue + [] == c.session.queue;
  }

  lemma ServedOneByOne(c: Conn, ps: seq<Packet>)
    requires c.session.Session? && ps != []
    ensures Served(Served(c, [ps[0]]), ps[1..]) == Served(c, ps)
  {
    var first, rest := Queued([ps[0]]), Queued(ps[1..]);
    QueuedOne(ps[0]);
    assert Queued(ps) == first + rest;
    assert (c.received + [ps[0]]) + ps[1..] == c.received + ps;
    assert (c.session.queue + first) + rest == c.session.queue + (first + rest);
  }

  lemma ServedNone(c: Conn)
    requires c.session.Session?
    ensures Served(c, []) == c
  {
    assert c.received + [] == c.received && c.session.queue + [] == c.session.queue;
  }

  /** Once there is a session, every readable packet is received and the session gets its share in order. */
  lemma {:induction false} WithSession(c: Conn, ps: seq<Packet>)
    requires Waiting(c) && Idle(c) && c.status == Open && c.session.Session?
    requires forall i :: 0 <= i < |ps| ==> Readable(ps[i])
    ensures HandleAll(c, ps) == Served(c, ps)
    decreases |ps|
  {
    hide Handle, Readable, Queued;
    if ps == [] {
      ServedNone(c);
    } else {
      HandledInSession(c, ps[0]);
      ServedOneByOne(c, ps);
      WithSession(Served(c, [ps[0]]), ps[1..]);
    }
  }

  /**
   * The framing round trip: the frames of readable packets, whatever the chunks they arrive in,
   * are reassembled into exactly those packets in order, provided the first one logs in.
   */
  lemma {:induction false} FramingRoundTrip(ps: seq<Packet>, chunks: seq<seq<Byte>>)
    requires Concat(chunks) == Frames(ps)
    requires forall i :: 0 <= i < |ps| ==> Readable(ps[i])
    requires ps != [] && OpensSession(ps[0])
    ensures FeedChunks(START, chunks) ==
            Conn(Open, [], [], ps, Session(FromLE(ps[0].body[ACCOUNT_AT..ACCOUNT_AT + 4]), [ps[0]] + Queued(ps[1..])))
  {
    ChunkingIsIrrelevant(START, chunks);
    Reassembly(START, ps);
    assert Readable(ps[0]);
    WithSession(Handle(START, ps[0]), ps[1..]);
    assert [ps[0]] + ps[1..] == ps;
  }

  /**
   * Exactly when the frames of a list of packets are all accepted: each packet is readable and
   * the first one, if any, is a login long enough to hold an account number.
   */
  lemma {:induction false} AcceptedIff(ps: seq<Packet>)
    requires forall i :: 0 <= i < |ps| ==> Representable(ps[i])
    ensures Feed(START, Frames(ps)).status == Open <==>
            (forall i :: 0 <= i < |ps| ==> Readable(ps[i])) && (ps != [] ==> OpensSession(ps[0]))
  {
    if ps == [] {
    } else if forall i :: 0 <= i < |ps| ==> Readable(ps[i]) {
      Reassembly(START, ps);
      FirstDecides(ps);
    } else if Feed(START, Frames(ps)).status == Open {
      StaysOpenOnlyIf(START, ps);
    }
  }

  lemma FirstDecides(ps: seq<Packet>)
    requires ps != [] && forall i :: 0 <= i < |ps| ==> Readable(ps[i])
    ensures HandleAll(START, ps).status == Open <==> OpensSession(ps[0])
  {
    assert Readable(ps[0]);
    var d := Handle(START, ps[0]);
    if OpensSession(ps[0]) {
      assert forall i :: 0 <= i < |ps[1..]| ==> ps[1..][i] == ps[i + 1];
      WithSession(d, ps[1..]);
    } else {
      HandleAllStopped(d, ps[1..]);
    }
  }

  lemma {:induction false} StaysOpenOnlyIf(c: Conn, ps: seq<Packet>)
    requires Waiting(c) && Idle(c) && c.status == Open
    requires forall i :: 0 <= i < |ps| ==> Representable(ps[i])
    requires Feed(c, Frames(ps)).status == Open
    ensures forall i :: 0 <= i < |ps| ==> Readable(ps[i])
    decreases |ps|
  {
    if ps != [] {
      assert Representable(ps[0]);
      FeedFrame(c, ps[0]);
      FeedSplit(c, Frame(ps[0]), Frames(ps[1..]));
      var d := Feed(c, Frame(ps[0]));
      if d.status != Open {
        FeedStopped(d, Frames(ps[1..]));
      } else {
        StaysOpenOnlyIf(d, ps[1..]);
        forall i | 0 <= i < |ps| ensures Readable(ps[i]) {
          if i > 0 {
            assert Readable(ps[1..][i - 1]);
          }
        }
      }
    }
  }

  // ---------------------------------------------------------------- nothing lost, nothing invented

  lemma {:induction false} FramesAppend(ps: seq<Packet>, p: Packet)
    ensures Frames(ps + [p]) == Frames(ps) + Frame(p)
  {
    if ps == [] {
      assert ps + [p] == [p];
    } else {
      assert (ps + [p])[0] == ps[0] && (ps + [p])[1..] == ps[1..] + [p];
      FramesAppend(ps[1..], p);
    }
  }

  lemma WordWritesBack(word: seq<Byte>)
    requires |word| == 4
    ensures ToLE(FromLE(word) % WORD, 4) == word
  {
    hide ToLE, FromLE, Pow256;
    WordIs4Bytes();
    FromLEBound(word);
    ToFromLE(word);
  }

  /** Framing the packet read from a header and a body gives those bytes back. */
  lemma FrameOfRead(head: seq<Byte>, body: seq<Byte>)
    requires |head| == HEADER_SIZE && SizeOf(head) == HEADER_SIZE + |body|
    ensures Frame(Packet(CmdOf(head), body)) == head + body
  {
    hide ToLE, FromLE;
    WordWritesBack(head[..4]);
    WordWritesBack(head[4..]);
    assert head == head[..4] + head[4..];
  }

  /** Everything that has been read from the stream, re-encoded. */
  function Reframed(c: Conn): seq<Byte> {
    Frames(c.received) + c.head + c.body
  }

  lemma ReframedHeader(c: Conn, b: Byte)
    requires Waiting(c) && c.status == Open && |c.head| < HEADER_SIZE
    ensures var r := Feed1(c, b);
            if r.status == Open then Reframed(r) == Reframed(c) + [b]
            else Reframed(r) <= Reframed(c) + [b]
  {
    hide Frames, Frame, SizeOf, CmdOf;
    var head := c.head + [b];
    assert Reframed(c) + [b] == Frames(c.received) + head;
    if |head| == HEADER_SIZE && SizeOf(head) == HEADER_SIZE {
      FrameOfRead(head, []);
      assert head + [] == head;
      FramesAppend(c.received, Packet(CmdOf(head), []));
    }
  }

  lemma ReframedBody(c: Conn, b: Byte)
    requires Waiting(c) && c.status == Open && |c.head| == HEADER_SIZE
    ensures var r := Feed1(c, b);
            if r.status == Open then Reframed(r) == Reframed(c) + [b]
            else Reframed(r) <= Reframed(c) + [b]
  {
    hide Frames, Frame, SizeOf, CmdOf;
    var body := c.body + [b];
    assert Reframed(c) + [b] == Frames(c.received) + c.head + body == Frames(c.received) + (c.head + body);
    if |body| == SizeOf(c.head) - HEADER_SIZE {
      FrameOfRead(c.head, body);
      FramesAppend(c.received, Packet(CmdOf(c.head), body));
    }
  }

  lemma ReframedStep(c: Conn, b: Byte)
    requires Waiting(c) && c.status == Open
    ensures var r := Feed1(c, b);
            if r.status == Open then Reframed(r) == Reframed(c) + [b]
            else Reframed(r) <= Reframed(c) + [b]
  {
    hide Feed1, Reframed;
    if |c.head| < HEADER_SIZE {
      ReframedHeader(c, b);
    } else {
      ReframedBody(c, b);
    }
  }

  /**
   * Whatever bytes arrive, valid or not: framing the packets received gives back the bytes
   * consumed. While the connection is open, together with the partial frame it is the whole stream.
   */
  lemma {:induction false} ReceivedIsSent(c: Conn, bytes: seq<Byte>)
    requires Waiting(c) && c.status == Open
    ensures var r := Feed(c, bytes);
            if r.status == Open then Reframed(r) == Reframed(c) + bytes
            else Reframed(r) <= Reframed(c) + bytes
    decreases |bytes|
  {
    hide Reframed;
    if bytes == [] {
      assert Reframed(c) + bytes == Reframed(c);
    } else {
      var d := Feed1(c, bytes[0]);
      ReframedStep(c, bytes[0]);
      assert Reframed(c) + [bytes[0]] + bytes[1..] == Reframed(c) + bytes;
      if d.status == Open {
        ReceivedIsSent(d, bytes[1..]);
      } else {
        FeedStopped(d, bytes[1..]);
      }
    }
  }
}
