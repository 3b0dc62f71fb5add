/** The objects of the read path: packet header, message buffer and socket. */
module WorldSockets {
  import opened Bytes
  import opened Framing

  /** The header a packet is sent with: four 16-bit words filled one by one. */
  class ServerPktHeader {
    const header: array<nat>

    ghost predicate Valid()
      reads header
    {
      header.Length == 4 && forall i :: 0 <= i < 4 ==> header[i] < 65536
    }

    constructor (size: nat, cmd: nat)
      requires size < WORD && cmd < WORD
      ensures Valid() && fresh(header)
      ensures header[..] == [size % 65536, size / 65536, cmd % 65536, cmd / 65536]
    {
      header := new nat[4];
      new;
      var headerIndex := 0;
      header[headerIndex] := size % 65536;
      headerIndex := headerIndex + 1;
      header[headerIndex] := size / 65536 % 65536;
      headerIndex := headerIndex + 1;
      header[headerIndex] := cmd % 65536;
      headerIndex := headerIndex + 1;
      header[headerIndex] := cmd / 65536 % 65536;
    }

    /** The header in memory: each word little-endian. */
    method Wire() returns (bytes: seq<Byte>)
      requires Valid()
      ensures bytes == ToLE(header[0], 2) + ToLE(header[1], 2) + ToLE(header[2], 2) + ToLE(header[3], 2)
    {
      bytes := [];
      var i := 0;
      while i < 4
        invariant 0 <= i <= 4
        invariant bytes == (if i > 0 then ToLE(header[0], 2) else []) + (if i > 1 then ToLE(header[1], 2) else [])
                           + (if i > 2 then ToLE(header[2], 2) else []) + (if i > 3 then ToLE(header[3], 2) else [])
      {
        bytes := bytes + ToLE(header[i], 2);
        i := i + 1;
      }
    }
  }

  /** The buffers handed to the asynchronous write: header bytes, then the body unless it is empty. */
  method WriteBuffers(p: Packet) returns (bytes: seq<Byte>)
    ensures bytes == Frame(p)
  {
    var size, cmd := (|p.body| + HEADER_SIZE) % WORD, p.opcode % WORD;
    var header := new ServerPktHeader(size, cmd);
    assert header.header[..][0] == size % 65536 && header.header[..][1] == size / 65536;
    assert header.header[..][2] == cmd % 65536 && header.header[..][3] == cmd / 65536;
    bytes := header.Wire();
    Halves(size);
    Halves(cmd);
    assert bytes == ToLE(size, 4) + ToLE(cmd, 4);
    if p.body != [] {
      bytes := bytes + p.body;
    }
  }

  class MessageBuffer {
    var wpos: nat
    var storage: seq<Byte>

    ghost predicate Valid()
      reads this
    {
      wpos <= |storage|
    }

    /** The bytes received so far. */
    ghost function Ready(): seq<Byte>
      reads this
      requires Valid()
    {
      storage[..wpos]
    }

    constructor ()
      ensures Valid() && wpos == 0 && storage == []
    {
      wpos := 0;
      storage := [];
    }

    method Reset()
      modifies this
      ensures Valid() && wpos == 0 && storage == []
    {
      storage := [];
      wpos := 0;
    }

    predicate IsMessageReady()
      reads this
    {
      wpos == |storage|
    }

    function GetMissingSize(): nat
      reads this
      requires Valid()
    {
      |storage| - wpos
    }

    method Grow(bytes: nat)
      requires Valid()
      modifies this
      ensures Valid() && Ready() == old(Ready()) && wpos == old(wpos)
      ensures |storage| == old(|storage|) + bytes
    {
      storage := storage + seq(bytes, _ => 0);
    }

    /** The transfer of a chunk to the write pointer, which must point into the storage. */
    method Transfer(chunk: seq<Byte>)
      requires Valid() && wpos < |storage| && |chunk| <= GetMissingSize()
      modifies this`storage
      ensures Valid() && |storage| == old(|storage|) && Ready() == old(Ready())
      ensures storage[wpos..wpos + |chunk|] == chunk
    {
      storage := storage[..wpos] + chunk + storage[wpos + |chunk|..];
    }

    method WriteCompleted(bytes: nat)
      requires Valid() && bytes <= GetMissingSize()
      modifies this`wpos
      ensures Valid() && wpos == old(wpos) + bytes
      ensures Ready() == old(Ready()) + storage[old(wpos)..wpos]
    {
      wpos := wpos + bytes;
    }

    method ResetWritePointer()
      modifies this`wpos
      ensures Valid() && wpos == 0
    {
      wpos := 0;
    }

    method Move() returns (moved: seq<Byte>)
      modifies this
      ensures moved == old(storage)
      ensures Valid() && wpos == 0 && storage == []
    {
      wpos := 0;
      moved := storage;
      storage := [];
    }
  }

  class WorldSocket {
    const readHeaderBuffer: MessageBuffer
    const readDataBuffer: MessageBuffer
    var status: Status
    var session: Session
    ghost var received: seq<Packet>

    ghost predicate Separate()
      reads this, readHeaderBuffer, readDataBuffer
    {
      && readHeaderBuffer != readDataBuffer
      && readHeaderBuffer.Valid() && readDataBuffer.Valid()
      && |readHeaderBuffer.storage| == HEADER_SIZE
    }

    ghost predicate Valid()
      reads this, readHeaderBuffer, readDataBuffer
    {
      && Separate()
      && (status == Open ==>
            if readHeaderBuffer.wpos < HEADER_SIZE then readDataBuffer.storage == []
            else && IsValidHeader(SizeOf(readHeaderBuffer.storage), CmdOf(readHeaderBuffer.storage))
                 && |readDataBuffer.storage| == SizeOf(readHeaderBuffer.storage) - HEADER_SIZE
                 && readDataBuffer.wpos < |readDataBuffer.storage|)
    }

    /** The connection this socket is an implementation of. */
    ghost function Abs(): (c: Conn)
      reads this, readHeaderBuffer, readDataBuffer
      requires Separate()
    {
      if status != Open then Conn(status, [], [], received, session)
      else Conn(Open, readHeaderBuffer.Ready(), readDataBuffer.Ready(), received, session)
    }

    lemma AbsWaits()
      requires Valid()
      ensures Waiting(Abs())
    {
      if status == Open && readHeaderBuffer.wpos == HEADER_SIZE {
        assert readHeaderBuffer.Ready() == readHeaderBuffer.storage;
      }
    }

    constructor ()
      ensures Valid() && Abs() == START && status == Open
      ensures fresh(readHeaderBuffer) && fresh(readDataBuffer)
    {
      readHeaderBuffer := new MessageBuffer();
      readDataBuffer := new MessageBuffer();
      status := Open;
      session := NoSession;
      received := [];
      new;
      readHeaderBuffer.Grow(HEADER_SIZE);
      assert |readHeaderBuffer.storage| == HEADER_SIZE;
    }

    method CloseSocket()
      modifies this`status
      ensures status == if old(status) == Open then Closed else old(status)
    {
      if status == Open {
        status := Closed;
      }
    }

    method AsyncReadHeader()
      requires Separate()
      modifies readHeaderBuffer`wpos, readDataBuffer
      ensures Valid()
      ensures Abs() == old(Abs()).(head := [], body := [])
    {
      if status != Open {
        return;
      }
      readHeaderBuffer.ResetWritePointer();
      readDataBuffer.Reset();
    }

    /** `size` is unsigned: a negative difference is a request beyond what a vector can hold. */
    method AsyncReadData(size: int)
      requires Separate() && status == Open
      requires readHeaderBuffer.wpos == HEADER_SIZE && readDataBuffer.storage == []
      requires IsValidHeader(SizeOf(readHeaderBuffer.storage), CmdOf(readHeaderBuffer.storage))
      requires size == SizeOf(readHeaderBuffer.storage) - HEADER_SIZE
      modifies this, readHeaderBuffer`wpos, readDataBuffer
      ensures Valid()
      ensures Abs() == if size < 0 then Stop(old(Abs()), Failed(LengthError))
                       else if size == 0 then Handle(old(Abs()), Packet(CmdOf(old(readHeaderBuffer.storage)), []))
                       else old(Abs())
    {
      if size == 0 {
        ReadDataHandler();
      } else if size < 0 {
        status := Failed(LengthError);
      } else {
        readDataBuffer.Grow(size);
        assert readDataBuffer.Ready() == [];
      }
    }

    method ReadHeaderHandler()
      requires Separate() && status == Open
      requires readHeaderBuffer.IsMessageReady() && readDataBuffer.storage == []
      modifies this, readHeaderBuffer`wpos, readDataBuffer
      ensures Valid()
      ensures old(|Abs().head|) == HEADER_SIZE && old(Abs().body) == [] && Abs() == OnHeader(old(Abs()))
    {
      assert readHeaderBuffer.Ready() == readHeaderBuffer.storage;
      var size, cmd := SizeOf(readHeaderBuffer.storage), CmdOf(readHeaderBuffer.storage);
      if !IsValidHeader(size, cmd) {
        CloseSocket();
        return;
      }
      AsyncReadData(size - HEADER_SIZE);
    }

    method ReadDataHandler()
      requires Separate() && status == Open
      requires readHeaderBuffer.IsMessageReady() && readDataBuffer.IsMessageReady()
      modifies this, readHeaderBuffer`wpos, readDataBuffer
      ensures Valid()
      ensures Abs() == Handle(old(Abs()), Packet(CmdOf(old(readHeaderBuffer.storage)), old(readDataBuffer.storage)))
    {
      var opcode := CmdOf(readHeaderBuffer.storage);
      var body := readDataBuffer.Move();
      var packet := Packet(opcode, body);
      received := received + [packet];
      if |body| < SKIPPED {
        status := Failed(PositionError);
        return;
      }
      if opcode == CMSG_PLAYER_LOGIN {
        if session.NoSession? {
          if |body| < ACCOUNT_AT + 4 {
            status := Failed(PositionError);
            return;
          }
          session := Session(FromLE(body[ACCOUNT_AT..ACCOUNT_AT + 4]), [packet]);
        }
      } else if opcode == CMSG_PING {
        if session.NoSession? {
          status := Failed(NullSession);
          return;
        }
      } else {
        if session.NoSession? {
          CloseSocket();
          return;
        }
        session := session.(queue := session.queue + [packet]);
      }
      AsyncReadHeader();
    }

    /** The largest chunk the next asynchronous read may deliver. */
    function Room(): (n: nat)
      reads this, readHeaderBuffer, readDataBuffer
      requires Valid() && status == Open
      ensures 0 < n <= READ_BLOCK_SIZE
    {
      var missing := if readHeaderBuffer.wpos < HEADER_SIZE then readHeaderBuffer.GetMissingSize()
                     else readDataBuffer.GetMissingSize();
      if missing < READ_BLOCK_SIZE then missing else READ_BLOCK_SIZE
    }

    method ReadHeaderHandlerInternal(chunk: seq<Byte>)
      requires Valid() && status == Open && readHeaderBuffer.wpos < HEADER_SIZE
      requires 0 < |chunk| <= Room()
      modifies this, readHeaderBuffer, readDataBuffer
      ensures Valid() && Waiting(old(Abs())) && Abs() == Feed(old(Abs()), chunk)
    {
      AbsWaits();
      FeedHeader(Abs(), chunk);
      readHeaderBuffer.Transfer(chunk);
      readHeaderBuffer.WriteCompleted(|chunk|);
      assert Abs() == old(Abs()).(head := old(Abs()).head + chunk);
      if !readHeaderBuffer.IsMessageReady() {
        return;
      }
      ReadHeaderHandler();
    }

    method ReadDataHandlerInternal(chunk: seq<Byte>)
      requires Valid() && status == Open && readHeaderBuffer.wpos == HEADER_SIZE
      requires 0 < |chunk| <= Room()
      modifies this, readHeaderBuffer, readDataBuffer
      ensures Valid() && Waiting(old(Abs())) && Abs() == Feed(old(Abs()), chunk)
    {
      AbsWaits();
      assert readHeaderBuffer.Ready() == readHeaderBuffer.storage;
      FeedBody(Abs(), chunk);
      readDataBuffer.Transfer(chunk);
      readDataBuffer.WriteCompleted(|chunk|);
      assert Abs() == old(Abs()).(body := old(Abs()).body + chunk);
      if !readDataBuffer.IsMessageReady() {
        return;
      }
      assert readDataBuffer.Ready() == readDataBuffer.storage;
      ReadDataHandler();
    }

    /** A read that completes with an error closes the socket. */
    method ReadFailed()
      requires Valid() && status == Open
      modifies this`status
      ensures Valid() && Abs() == Stop(old(Abs()), Closed)
    {
      CloseSocket();
    }

    /**
     * Reads a whole stream. Each read delivers a chunk of a size nobody controls; the socket ends
     * up as if the bytes had arrived one by one. Bytes after it stops are not read.
     */
    method Run(stream: seq<Byte>)
      requires Valid()
      modifies this, readHeaderBuffer, readDataBuffer
      ensures Valid() && Waiting(old(Abs())) && Abs() == Feed(old(Abs()), stream)
    {
      AbsWaits();
      var next := 0;
      assert stream[..0] == [];
      while next < |stream| && status == Open
        invariant 0 <= next <= |stream|
        invariant Valid() && Waiting(Abs())
        invariant Abs() == Feed(old(Abs()), stream[..next])
      {
        var n :| 0 < n <= Room() && n <= |stream| - next;
        var chunk := stream[next..next + n];
        assert stream[..next + n] == stream[..next] + chunk;
        FeedSplit(old(Abs()), stream[..next], chunk);
        if readHeaderBuffer.wpos < HEADER_SIZE {
          ReadHeaderHandlerInternal(chunk);
        } else {
          ReadDataHandlerInternal(chunk);
        }
        next := next + n;
        AbsWaits();
      }
      assert stream == stream[..next] + stream[next..];
      FeedSplit(old(Abs()), stream[..next], stream[next..]);
      if status != Open {
        FeedStopped(Abs(), stream[next..]);
      } else {
        assert stream[..next] == stream;
      }
    }
  }
}
