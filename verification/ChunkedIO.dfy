/** `ChunkedIOFd`: the sender's write buffer and overflow queue, the receiver's read
    buffer and reassembly, over a non-blocking descriptor whose reads and writes may
    stop short anywhere. */
module ChunkedIO {
  import opened Bytes
  import opened Frames

  const MAX_BUFFERED_CHUNKS: nat := 500000

  datatype ReadResult = Again | Eof | Data(bytes: seq<byte>)

  /** One direction of a descriptor: a byte FIFO inside the kernel. */
  class Pipe {
    var fifo: seq<byte>
    var closed: bool
    ghost var sent: seq<byte>
    ghost var received: seq<byte>
    ghost var refusals: nat  // EAGAINs answered to write(2)
    ghost var droughts: nat  // EAGAINs answered to read(2)

    ghost predicate Valid()
      reads this
    {
      sent == received + fifo
    }

    constructor ()
      ensures Valid() && fifo == [] && sent == [] && received == [] && !closed
    {
      fifo, closed := [], false;
      sent, received, refusals, droughts := [], [], 0, 0;
    }

    /** write(2): `None` is EAGAIN, otherwise any nonempty prefix was taken. */
    method TryWrite(data: seq<byte>) returns (n: Option<nat>)
      requires Valid() && data != []
      modifies this`fifo, this`sent, this`refusals
      ensures Valid()
      ensures n.None? ==> fifo == old(fifo) && sent == old(sent) && refusals == old(refusals) + 1
      ensures n.Some? ==> refusals == old(refusals)
      ensures n.Some? ==> 0 < n.value <= |data| && sent == old(sent) + data[..n.value]
    {
      if * {
        n := None;
        refusals := refusals + 1;
      } else {
        var k :| 0 < k <= |data|;
        fifo := fifo + data[..k];
        sent := sent + data[..k];
        n := Some(k);
      }
    }

    /** read(2): `Again` is EAGAIN, `Eof` needs a peer that hung up and an empty FIFO. */
    method TryRead(room: nat) returns (r: ReadResult)
      requires Valid() && room > 0
      modifies this`fifo, this`received, this`droughts
      ensures Valid()
      ensures droughts == old(droughts) + if r.Again? then 1 else 0
      ensures !r.Data? ==> fifo == old(fifo) && received == old(received)
      ensures r.Data? ==> 0 < |r.bytes| <= room && old(fifo) == r.bytes + fifo && received == old(received) + r.bytes
      ensures r.Eof? ==> closed && fifo == []
    {
      var ready: bool := *;
      if fifo == [] && closed {
        r := Eof;
      } else if fifo == [] || !ready {
        r := Again;
        droughts := droughts + 1;
      } else {
        var k :| 0 < k <= |fifo| && k <= room;
        r := Data(fifo[..k]);
        received := received + fifo[..k];
        fifo := fifo[k..];
      }
    }
  }

  /** memcpy into a buffer. */
  method CopyInto(dst: array<byte>, at: nat, src: seq<byte>)
    requires at + |src| <= dst.Length
    modifies dst
    ensures dst[..at] == old(dst[..at])
    ensures dst[at..at + |src|] == src
    ensures dst[..at + |src|] == old(dst[..at]) + src
  {
    forall i | 0 <= i < |src| {
      dst[at + i] := src[i];
    }
  }

  class ChunkedIOFd {
    const inbound: Pipe
    const outbound: Pipe

    const readBuffer: array<byte>
    var readLen: nat
    var readPos: nat
    var partial: Option<Chunk>
    var failedReads: nat
    var eof: bool

    const writeBuffer: array<byte>
    var writeLen: nat
    var writePos: nat
    var pending: seq<Frame>
    var pendingCount: nat  // stats.pending

    // History of the endpoint, for stating what it promises.
    ghost var accepted: seq<Chunk>
    ghost var framed: seq<Frame>
    ghost var extracted: seq<Frame>
    ghost var delivered: seq<Chunk>

    ghost predicate Shape()
    {
      && readBuffer.Length == BUFFER_SIZE
      && writeBuffer.Length == BUFFER_SIZE
      && readBuffer != writeBuffer
      && inbound != outbound
    }

    // ---- Sender ----

    ghost predicate BufferOk()
      reads this`writeLen, this`writePos
    {
      && Shape()
      && (writePos < writeLen <= BUFFER_SIZE || (writePos == 0 && writeLen == 0))
    }

    /** Everything given to the kernel or waiting in the write buffer, in order. */
    ghost function Stream(): seq<byte>
      requires BufferOk()
      reads this`writeLen, this`writePos, writeBuffer, outbound`sent
    {
      outbound.sent + writeBuffer[writePos..writeLen]
    }

    ghost predicate Sending()
      reads this`writeLen, this`writePos, this`pending, this`pendingCount, this`framed, writeBuffer, outbound`sent
    {
      && BufferOk()
      && pendingCount == |pending|
      && AllSendable(pending) && AllSendable(framed)
      && Stream() + WireAll(pending) == WireAll(framed)
    }

    /** Every frame in order belongs to a chunk that `Write` accepted. */
    ghost predicate Accounted()
      reads this`accepted, this`framed
    {
      AllNonEmpty(accepted) && framed == SplitAll(accepted)
    }

    constructor (inbound: Pipe, outbound: Pipe)
      requires inbound != outbound
      requires inbound.received == [] && outbound.sent == []
      ensures this.inbound == inbound && this.outbound == outbound
      ensures fresh(readBuffer) && fresh(writeBuffer)
      ensures Sending() && Accounted() && Receiving()
      ensures accepted == [] && delivered == [] && extracted == [] && framed == []
      ensures readLen == 0 && readPos == 0
    {
      this.inbound, this.outbound := inbound, outbound;
      readBuffer := new byte[BUFFER_SIZE](_ => 0);
      writeBuffer := new byte[BUFFER_SIZE](_ => 0);
      readLen, readPos, partial, failedReads, eof := 0, 0, None, 0, false;
      writeLen, writePos, pending, pendingCount := 0, 0, [], 0;
      accepted, framed, extracted, delivered := [], [], [], [];
    }

    method FlushWriteBuffer()
      requires BufferOk() && outbound.Valid()
      modifies this`writeLen, this`writePos, outbound`fifo, outbound`sent, outbound`refusals
      ensures BufferOk() && outbound.Valid()
      ensures Stream() == old(Stream())
      ensures writeLen == 0 || (writeLen == old(writeLen) && outbound.refusals > old(outbound.refusals))
      ensures outbound.refusals >= old(outbound.refusals)
    {
      while writePos != writeLen
        invariant BufferOk() && outbound.Valid()
        invariant Stream() == old(Stream())
        invariant writeLen == old(writeLen) && outbound.refusals == old(outbound.refusals)
        decreases writeLen - writePos
      {
        var len := writeLen - writePos;
        ghost var before, rest := outbound.sent, writeBuffer[writePos..writeLen];
        var written := outbound.TryWrite(writeBuffer[writePos..writeLen]);
        match written {
          case None =>
            return;
          case Some(n) =>
            assert before + rest[..n] + rest[n..] == before + rest;
            if n == len {
              writePos, writeLen := 0, 0;
              return;
            }
            writePos := writePos + n;
            assert writeBuffer[writePos..writeLen] == rest[n..];
        }
      }
    }

    /** Bytes behind those that wait in the write buffer. */
    method Append(bytes: seq<byte>)
      requires BufferOk() && bytes != [] && writeLen + |bytes| <= BUFFER_SIZE
      modifies this`writeLen, writeBuffer
      ensures BufferOk() && writeLen == old(writeLen) + |bytes| && Stream() == old(Stream()) + bytes
    {
      ghost var before := writeBuffer[..writeLen];
      CopyInto(writeBuffer, writeLen, bytes);
      writeLen := writeLen + |bytes|;
      Behind(writeBuffer[..writeLen], before, writePos, bytes);
      assert writeBuffer[writePos..writeLen] == writeBuffer[..writeLen][writePos..];
      assert old(writeBuffer[writePos..writeLen]) == before[writePos..];
      AppendAssoc(outbound.sent, before[writePos..], bytes);
    }

    static lemma Behind(after: seq<byte>, before: seq<byte>, pos: nat, bytes: seq<byte>)
      requires after == before + bytes && pos <= |before|
      ensures after[pos..] == before[pos..] + bytes
    {
    }

    method PutIntoWriteBuffer(f: Frame) returns (ok: bool)
      requires BufferOk() && outbound.Valid() && Sendable(f)
      modifies this`writeLen, this`writePos, writeBuffer, outbound`fifo, outbound`sent, outbound`refusals
      ensures BufferOk() && outbound.Valid()
      ensures ok <==> old(writeLen) + HEADER_SIZE + |f.data| <= BUFFER_SIZE
      ensures Stream() == old(Stream()) + if ok then Wire(f) else []
      ensures outbound.refusals >= old(outbound.refusals)
    {
      if writeLen + |f.data| + HEADER_SIZE > BUFFER_SIZE {
        return false;
      }
      hide BigEndian;
      var header := BigEndian(LengthWord(f), HEADER_SIZE);
      Append(header);
      Append(f.data);
      AppendAssoc(old(Stream()), header, f.data);
      if * {  // more than 5 ms since the last flush
        FlushWriteBuffer();
      }
      return true;
    }

    /** Moves the head of the overflow queue into the write buffer if it fits. */
    method MovePending() returns (ok: bool)
      requires Sending() && outbound.Valid() && pending != []
      modifies this`writeLen, this`writePos, this`pending, this`pendingCount, writeBuffer, outbound`fifo
      modifies outbound`sent, outbound`refusals
      ensures Sending() && outbound.Valid()
      ensures old(writeLen) == 0 ==> ok
      ensures pending == if ok then old(pending)[1..] else old(pending)
      ensures outbound.refusals >= old(outbound.refusals)
    {
      ok := PutIntoWriteBuffer(pending[0]);
      if ok {
        assert Stream() + WireAll(pending[1..]) == old(Stream()) + WireAll(old(pending));
        pending := pending[1..];
        pendingCount := pendingCount - 1;
      } else {
        assert Stream() == old(Stream());
      }
    }

    /** Terminates because every pass of the outer loop moves a pending frame; stops with
        data in hand only when the kernel has refused to take more. */
    method Flush()
      requires Sending() && outbound.Valid()
      modifies this`writeLen, this`writePos, this`pending, this`pendingCount, writeBuffer, outbound`fifo
      modifies outbound`sent, outbound`refusals
      ensures Sending() && outbound.Valid()
      ensures (pending == [] && writeLen == 0) || outbound.refusals > old(outbound.refusals)
    {
      while pending != []
        invariant Sending() && outbound.Valid()
        invariant outbound.refusals >= old(outbound.refusals)
        decreases |pending|
      {
        FlushWriteBuffer();
        if writeLen > 0 {
          return;
        }
        // The buffer is empty, so at least one pending frame moves into it.
        ghost var before := |pending|;
        while pending != []
          invariant Sending() && outbound.Valid()
          invariant outbound.refusals >= old(outbound.refusals)
          invariant |pending| < before || (|pending| == before && writeLen == 0)
          decreases |pending|
        {
          var moved := MovePending();
          if !moved {
            break;
          }
        }
      }
      FlushWriteBuffer();
    }

    method WriteChunk(f: Frame)
      requires Sending() && outbound.Valid() && Sendable(f)
      modifies this`writeLen, this`writePos, this`pending, this`pendingCount, this`framed, writeBuffer
      modifies outbound`fifo, outbound`sent, outbound`refusals
      ensures Sending() && outbound.Valid()
      ensures framed == old(framed) + [f]
    {
      hide WireAll, AllSendable, BufferOk, Stream, Sending;
      if pending == [] {
        var ok := PutDirectly(f);
        if ok {
          return;
        }
      }
      Queue(f);
      Flush();
    }

    /** Into the write buffer, when no frame waits and there is room. */
    method PutDirectly(f: Frame) returns (ok: bool)
      requires Sending() && outbound.Valid() && Sendable(f) && pending == []
      modifies this`writeLen, this`writePos, this`framed, writeBuffer, outbound`fifo, outbound`sent, outbound`refusals
      ensures Sending() && outbound.Valid()
      ensures framed == old(framed) + if ok then [f] else []
    {
      NothingWired(Stream(), Wire(f));
      hide WireAll;
      WireAllSnoc(framed, f);
      ok := PutIntoWriteBuffer(f);
      if ok {
        framed := framed + [f];
      }
    }

    static lemma NothingWired(a: seq<byte>, b: seq<byte>)
      ensures WireAll([]) == [] && a + [] == a && (a + b) + [] == a + b
    {
    }

    /** Behind the frames that already wait. */
    method Queue(f: Frame)
      requires Sending() && Sendable(f)
      modifies this`pending, this`pendingCount, this`framed
      ensures Sending() && framed == old(framed) + [f]
    {
      hide WireAll;
      WireAllSnoc(framed, f);
      WireAllSnoc(pending, f);
      AppendAssoc(Stream(), WireAll(pending), Wire(f));
      framed := framed + [f];
      pendingCount := pendingCount + 1;
      pending := pending + [f];
    }

    /** The loop of `Write` that cuts a chunk no single frame can carry. */
    method WriteOversized(chunk: Chunk)
      requires Sending() && outbound.Valid() && |chunk| > MAX_PAYLOAD
      modifies this`writeLen, this`writePos, this`pending, this`pendingCount, this`framed, writeBuffer
      modifies outbound`fifo, outbound`sent, outbound`refusals
      ensures Sending() && outbound.Valid()
      ensures framed == old(framed) + Split(chunk)
    {
      hide WireAll, Split, AllSendable, Sending, outbound.Valid;
      ghost var done: seq<Frame> := [];
      var p, left := 0, |chunk|;
      assert chunk[0..] == chunk && [] + Split(chunk) == Split(chunk);
      while left > 0
        invariant p + left == |chunk|
        invariant Sending() && outbound.Valid()
        invariant framed == old(framed) + done
        invariant Split(chunk) == done + if left > 0 then Split(chunk[p..]) else []
        decreases left
      {
        var sz := if BUFFER_SIZE - HEADER_SIZE < left then BUFFER_SIZE - HEADER_SIZE else left;
        var part := chunk[p..p + sz];
        left := left - sz;
        SplitHead(chunk, p, sz);
        AppendAssoc(old(framed), done, [Frame(part, left != 0)]);
        AppendAssoc(done, [Frame(part, left != 0)], if left > 0 then Split(chunk[p + sz..]) else []);
        p := p + sz;
        WriteChunk(Frame(part, left != 0));
        done := done + [Frame(part, left != 0)];
      }
    }

    lemma SplitHead(c: Chunk, p: nat, sz: nat)
      requires p < |c|
      requires sz == if MAX_PAYLOAD < |c| - p then MAX_PAYLOAD else |c| - p
      ensures Split(c[p..]) ==
        [Frame(c[p..p + sz], p + sz != |c|)] + if p + sz < |c| then Split(c[p + sz..]) else []
    {
      assert c[p..][..sz] == c[p..p + sz];
      assert c[p..][sz..] == c[p + sz..];
      if p + sz == |c| {
        assert c[p..] == c[p..p + sz];
      }
    }

    /** Accepts the chunk, cut into frames if it is oversized, unless the overflow
        queue is too long; then nothing changes. */
    method Write(chunk: Chunk) returns (ok: bool)
      requires Sending() && Accounted() && outbound.Valid()
      requires 0 < |chunk| < TWO_TO_THE_32
      modifies this`writeLen, this`writePos, this`pending, this`pendingCount, this`framed, this`accepted
      modifies writeBuffer, outbound`fifo, outbound`sent, outbound`refusals
      ensures Sending() && Accounted() && outbound.Valid()
      ensures ok <==> old(|pending|) <= MAX_BUFFERED_CHUNKS
      ensures accepted == old(accepted) + if ok then [chunk] else []
      ensures old(framed) <= framed
      ensures !ok ==> pending == old(pending) && Stream() == old(Stream())
    {
      if pendingCount > MAX_BUFFERED_CHUNKS {
        return false;
      }
      if |chunk| <= BUFFER_SIZE - HEADER_SIZE {
        WriteChunk(Frame(chunk, false));
      } else {
        WriteOversized(chunk);
      }
      accepted := accepted + [chunk];
      assert accepted[..|accepted| - 1] == old(accepted);
      return true;
    }

    // ---- Receiver ----

    ghost predicate WindowOk()
      reads this`readLen, this`readPos
    {
      Shape() && readPos <= readLen <= BUFFER_SIZE
    }

    /** The octets read from the descriptor and not yet extracted. */
    ghost function Window(): seq<byte>
      requires WindowOk()
      reads this`readLen, this`readPos, readBuffer
    {
      readBuffer[readPos..readLen]
    }

    ghost predicate Framing()
      reads this`readLen, this`readPos, this`extracted, readBuffer, inbound`received
    {
      && WindowOk()
      && AllSendable(extracted)
      && inbound.received == WireAll(extracted) + Window()
    }

    ghost predicate Receiving()
      reads this`readLen, this`readPos, this`extracted, this`partial, this`delivered, readBuffer, inbound`received
    {
      Framing() && Glue(extracted) == Glued(delivered, partial)
    }

    /** What is in the window and in the kernel starts the rest of the peer's frames. */
    ghost predicate Feeds(stream: seq<Frame>)
      requires WindowOk()
      reads this`readLen, this`readPos, this`extracted, readBuffer, inbound`fifo
    {
      && AllSendable(stream)
      && extracted <= stream
      && Window() + inbound.fifo <= WireAll(stream[|extracted|..])
    }

    lemma WindowStarts(stream: seq<Frame>)
      requires WindowOk() && Feeds(stream)
      ensures Window() <= WireAll(stream[|extracted|..])
    {
      assert Window() <= Window() + inbound.fifo;
    }

    method ExtractChunk(ghost stream: seq<Frame>) returns (f: Option<Frame>)
      requires Framing() && Feeds(stream)
      modifies this`readPos, this`extracted
      ensures Framing() && Feeds(stream)
      ensures f.None? ==> readPos == old(readPos) && extracted == old(extracted) && HeadLength(Window()) == 0
      ensures f.Some? ==> extracted == old(extracted) + [f.value]
    {
      hide WireAll;
      var window := readBuffer[readPos..readLen];
      var len := HeadLength(window);
      var realLen := len % FLAG_PARTIAL;
      if len == 0 {
        return None;
      }
      NextFrame(extracted, window, inbound.fifo, stream);
      assert realLen > 0;  // ChunkAvailable's own assertion
      readPos := readPos + HEADER_SIZE;
      var chunk := Frame(window[HEADER_SIZE..HEADER_SIZE + realLen], len >= FLAG_PARTIAL);
      readPos := readPos + realLen;
      assert Window() == window[HEADER_SIZE + realLen..];
      extracted := extracted + [chunk];
      return Some(chunk);
    }

    /** A nonzero length word at the head of the window is the next frame of the stream,
        and taking it off keeps window and kernel at the start of what is still to come. */
    static lemma NextFrame(done: seq<Frame>, window: seq<byte>, kernel: seq<byte>, stream: seq<Frame>)
      requires AllSendable(stream) && done <= stream
      requires window + kernel <= WireAll(stream[|done|..])
      requires HeadLength(window) != 0
      ensures |done| < |stream| && Sendable(stream[|done|])
      ensures
        var len, realLen := HeadLength(window), HeadLength(window) % FLAG_PARTIAL;
        var f := Frame(window[HEADER_SIZE..HEADER_SIZE + realLen], len >= FLAG_PARTIAL);
        var rest := window[HEADER_SIZE + realLen..];
        && realLen > 0
        && f == stream[|done|]
        && done + [f] <= stream
        && WireAll(done) + window == WireAll(done + [f]) + rest
        && rest + kernel <= WireAll(stream[|done + [f]|..])
    {
      var todo := stream[|done|..];
      var n := HEADER_SIZE + HeadLength(window) % FLAG_PARTIAL;
      assert window <= window + kernel;
      HeadOfStream(window, todo);
      HeaderRoundTrip(todo[0]);
      assert stream[|done| + 1..] == todo[1..];
      var f := Frame(window[HEADER_SIZE..n], HeadLength(window) >= FLAG_PARTIAL);
      assert f == todo[0];
      TakeFrame(window, kernel, todo);
      assert WireAll(done + [f]) == WireAll(done) + Wire(f) by {
        WireAllSnoc(done, f);
      }
      AppendAssoc(WireAll(done), Wire(f), window[n..]);
    }

    static lemma TakeFrame(window: seq<byte>, kernel: seq<byte>, todo: seq<Frame>)
      requires AllSendable(todo) && todo != []
      requires window + kernel <= WireAll(todo)
      requires |Wire(todo[0])| <= |window|
      ensures window == Wire(todo[0]) + window[|Wire(todo[0])|..]
      ensures window[|Wire(todo[0])|..] + kernel <= WireAll(todo[1..])
    {
      var n, all := |Wire(todo[0])|, WireAll(todo);
      assert window == (window + kernel)[..|window|] == all[..|window|];
      assert all[..n] == Wire(todo[0]) && all[n..] == WireAll(todo[1..]);
      assert window[n..] + kernel == (window + kernel)[n..];
    }

    /** One successful read(2) goes behind what is already in the window. */
    method Absorb(bytes: seq<byte>, ghost stream: seq<Frame>, ghost kernel: seq<byte>)
      requires WindowOk() && AllSendable(extracted) && AllSendable(stream) && extracted <= stream
      requires readPos == 0 && readLen + |bytes| <= BUFFER_SIZE
      requires inbound.received == WireAll(extracted) + Window() + bytes
      requires kernel == bytes + inbound.fifo
      requires Window() + kernel <= WireAll(stream[|extracted|..])
      modifies this`readLen, readBuffer
      ensures Framing() && Feeds(stream)
      ensures readLen == old(readLen) + |bytes|
    {
      ghost var window := Window();
      CopyInto(readBuffer, readLen, bytes);
      readLen := readLen + |bytes|;
      hide WireAll;
      assert Window() == window + bytes;
      AppendAssoc(window, bytes, inbound.fifo);
      AppendAssoc(WireAll(extracted), window, bytes);
    }

    /** Reads until the kernel has nothing more or the buffer is full.  There is always
        room for the first read, because a full buffer would have held a frame. */
    method FillBuffer(ghost stream: seq<Frame>) returns (last: ReadResult)
      requires Framing() && Feeds(stream) && inbound.Valid()
      requires readPos == 0 && HeadLength(Window()) == 0
      modifies this`readLen, this`failedReads, readBuffer, inbound`fifo, inbound`received, inbound`droughts
      ensures readPos == 0
      ensures Framing() && Feeds(stream) && inbound.Valid()
      ensures last.Eof? ==> inbound.closed && inbound.fifo == []
      ensures last.Data? ==> readLen == BUFFER_SIZE
      ensures last.Again? ==> inbound.droughts > old(inbound.droughts)
    {
      hide WireAll, HeadLength;
      assert readLen < BUFFER_SIZE by {
        WindowStarts(stream);
        if readLen == BUFFER_SIZE {
          FullBufferHasFrame(Window(), stream[|extracted|..]);
        }
      }
      while true
        invariant Framing() && Feeds(stream) && inbound.Valid()
        invariant readPos == 0 && readLen < BUFFER_SIZE
        invariant inbound.droughts == old(inbound.droughts)
        decreases BUFFER_SIZE - readLen
      {
        var len := BUFFER_SIZE - readLen;
        ghost var kernel := inbound.fifo;
        last := inbound.TryRead(len);
        if last.Again? {
          failedReads := failedReads + 1;
          return;
        }
        failedReads := 0;
        if last.Eof? {
          return;
        }
        Absorb(last.bytes, stream, kernel);
        if |last.bytes| == len {
          return;
        }
      }
    }

    method ReadChunk(ghost stream: seq<Frame>) returns (ok: bool, f: Option<Frame>)
      requires Framing() && Feeds(stream) && inbound.Valid()
      modifies this`readPos, this`readLen, this`extracted, this`failedReads, this`eof, readBuffer, inbound`fifo
      modifies inbound`received, inbound`droughts
      ensures Framing() && Feeds(stream) && inbound.Valid()
      ensures f.None? ==> extracted == old(extracted) && HeadLength(Window()) == 0
      ensures f.Some? ==> ok && extracted == old(extracted) + [f.value]
      ensures !ok ==> eof && inbound.closed && inbound.fifo == []
      ensures ok && f.None? ==> inbound.droughts > old(inbound.droughts)
    {
      hide WireAll, HeadLength;
      f := ExtractChunk(stream);
      if f.Some? {
        return true, f;
      }
      // Move the incomplete frame to the head of the buffer.
      var left := readBuffer[readPos..readLen];
      CopyInto(readBuffer, 0, left);
      readPos, readLen := 0, |left|;
      assert Window() == left;

      var last := FillBuffer(stream);
      if last.Data? {
        WindowStarts(stream);
        FullBufferHasFrame(Window(), stream[|extracted|..]);
      }
      f := ExtractChunk(stream);
      if f.None? && last.Eof? {
        eof := true;
        return false, f;
      }
      return true, f;
    }

    /** Glues a frame to what is held back; hands the chunk out when it was the last one. */
    method Assemble(f: Frame) returns (chunk: Option<Chunk>)
      requires Framing() && extracted != [] && extracted[|extracted| - 1] == f
      requires Glue(extracted[..|extracted| - 1]) == Glued(delivered, partial)
      modifies this`partial, this`delivered
      ensures Receiving()
      ensures delivered == old(delivered) + if chunk.Some? then [chunk.value] else []
      ensures chunk.None? <==> f.partial
    {
      hide Glue, WireAll, AllSendable;
      GlueLast(extracted);
      var whole := if partial.None? then f.data else partial.value + f.data;
      assert whole == Held(Glued(delivered, partial)) + f.data;
      if f.partial {
        partial := Some(whole);
        chunk := None;
      } else {
        partial := None;
        delivered := delivered + [whole];
        chunk := Some(whole);
      }
    }

    /** `Read` without the flushes. */
    method Receive(ghost stream: seq<Frame>) returns (ok: bool, chunk: Option<Chunk>)
      requires Receiving() && Feeds(stream) && inbound.Valid()
      modifies this`readPos, this`readLen, this`extracted, this`failedReads, this`eof, readBuffer, inbound`fifo
      modifies inbound`received, inbound`droughts
      modifies this`partial, this`delivered
      ensures Receiving() && Feeds(stream) && inbound.Valid()
      ensures delivered == old(delivered) + if chunk.Some? then [chunk.value] else []
      ensures !ok ==> chunk.None? && inbound.closed && inbound.fifo == [] && HeadLength(Window()) == 0
      ensures extracted == old(extracted) ==> HeadLength(Window()) == 0
      ensures extracted == old(extracted) && ok ==> inbound.droughts > old(inbound.droughts)
    {
      var f;
      ok, f := ReadChunk(stream);
      if f.None? {
        return ok, None;
      }
      assert extracted[..|extracted| - 1] == old(extracted);
      chunk := Assemble(f.value);
    }

    /** Hands out the next whole chunk if there is one, flushing on the way. */
    method Read(ghost stream: seq<Frame>) returns (ok: bool, chunk: Option<Chunk>)
      requires Sending() && outbound.Valid()
      requires Receiving() && Feeds(stream) && inbound.Valid()
      modifies this`writeLen, this`writePos, this`pending, this`pendingCount, writeBuffer, outbound`fifo
      modifies outbound`sent, outbound`refusals
      modifies this`readPos, this`readLen, this`extracted, this`failedReads, this`eof, readBuffer, inbound`fifo
      modifies inbound`received, inbound`droughts
      modifies this`partial, this`delivered
      ensures Sending() && outbound.Valid()
      ensures Receiving() && Feeds(stream) && inbound.Valid()
      ensures delivered == old(delivered) + if chunk.Some? then [chunk.value] else []
      ensures !ok ==> chunk.None? && inbound.closed && inbound.fifo == [] && HeadLength(Window()) == 0
      ensures extracted == old(extracted) ==> HeadLength(Window()) == 0
      ensures extracted == old(extracted) && ok ==> inbound.droughts > old(inbound.droughts)
    {
      hide WireAll, Glue, AllSendable, HeadLength;
      Flush();
      assert Receiving() && Feeds(stream);
      Flush();
      assert Receiving() && Feeds(stream);
      ok, chunk := Receive(stream);
    }
  }
}
