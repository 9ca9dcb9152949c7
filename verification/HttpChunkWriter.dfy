/** The imperative chunk writer over the shared buffer, proved equal to `WriterModel`. */
module HttpChunkWriter {
  import opened Bytes
  import opened Network
  import opened ChunkDecoder
  import opened WriterModel
  import opened HttpChunkReader

  class HttpWriter {
    const socket: Socket
    const chunk: Chunk
    var alive: bool

    /** Construction resets the shared buffer, so earlier transfers leave no trace. */
    constructor (socket: Socket, chunk: Chunk)
      requires chunk.buf.Length == MAX
      modifies chunk, chunk.buf
      ensures this.socket == socket && this.chunk == chunk
      ensures Inv() && State() == FreshWriter(socket.State())
    {
      this.socket, this.chunk, alive := socket, chunk, true;
      new;
      chunk.Reset();
    }

    ghost predicate Inv()
      reads this, chunk
    {
      chunk.buf.Length == MAX && chunk.len <= MAX
    }

    ghost function State(): Writer
      reads this, chunk, chunk.buf, socket
    {
      Writer(chunk.buf[..], chunk.len, chunk.num, alive, socket.State())
    }

    method SendError()
      requires Inv()
      modifies socket
      ensures Inv() && State() == GiveUp(old(State()), old(socket.State())).s
    {
      var _ := socket.Transmit(ERROR_ANSWER);
      socket.CloseRdWr();
    }

    method WriteNextChunk() returns (ret: int)
      requires Inv()
      modifies socket, chunk
      ensures Inv()
      ensures var r := WriterModel.WriteNextChunk(old(State())); State() == r.s && ret == r.ret
    {
      hide Send, ShutdownRdWr;
      if !alive {
        return -1;
      }
      var len := chunk.len;
      if len == 0 {
        SendError();
        return -1;
      }
      if chunk.num == 0 {
        var sent := socket.Transmit(HEADER);
        if sent != |HEADER| {
          SendError();
          return -1;
        }
      }
      var sent := socket.Transmit(chunk.buf[..len]);
      if sent != len {
        SendError();
        return -1;
      }
      chunk.len := 0;
      chunk.num := chunk.num + 1;
      ret := len;
    }

    /** `memcpy` to the write position, which it advances. */
    method Store(data: seq<Byte>, first: nat, n: nat)
      requires Inv() && first + n <= |data| && n <= MAX - chunk.len
      modifies chunk, chunk.buf
      ensures Inv() && State() == Stored(old(State()), data[first..first + n])
    {
      ghost var s := State();
      var at, i := chunk.len, 0;
      while i < n
        invariant 0 <= i <= n && chunk.len == at && chunk.num == old(chunk.num)
        invariant forall j :: 0 <= j < MAX ==>
          chunk.buf[j] == if at <= j < at + i then data[first + j - at] else s.buf[j]
      {
        chunk.buf[at + i] := data[first + i];
        i := i + 1;
      }
      chunk.len := chunk.len + n;
      assert chunk.buf[..] == Stored(s, data[first..first + n]).buf;
    }

    /** Buffers the data and sends every buffer that fills. */
    method PipeWrite(data: seq<Byte>) returns (ret: int)
      requires Inv()
      modifies socket, chunk, chunk.buf
      ensures Inv()
      ensures var r := WriterModel.PipeWrite(old(State()), data); State() == r.s && ret == r.ret
    {
      hide WriterModel.WriteNextChunk, Stored;
      ghost var whole := WriterModel.PipeWrite(State(), data);
      var src, len := 0, |data|;
      var rest := MAX - chunk.len;
      while true
        invariant Inv() && rest == MAX - chunk.len && 0 <= src <= |data| && len == |data| - src
        invariant WriterModel.PipeWrite(State(), data[src..]) == whole
        decreases len, chunk.len
      {
        if rest >= len {
          assert data[src..src + len] == data[src..];
          Store(data, src, len);
          return len;
        }
        assert data[src..][..rest] == data[src..src + rest] && data[src..][rest..] == data[src + rest..];
        StoredNothing(State());
        if rest > 0 {
          Store(data, src, rest);
          src := src + rest;
          len := len - rest;
        }
        var sent := WriteNextChunk();
        if sent < 0 {
          return -1;
        }
        rest := MAX - chunk.len;
      }
    }

    method PipeFlush() returns (ret: int)
      requires Inv()
      modifies socket, chunk
      ensures Inv()
      ensures var r := WriterModel.PipeFlush(old(State())); State() == r.s && ret == r.ret
    {
      hide WriterModel.WriteNextChunk;
      ret := 0;
      if chunk.len > 0 {
        var sent := WriteNextChunk();
        if sent < 0 {
          ret := -1;
        }
      }
    }
  }

  lemma StoredNothing(s: Writer)
    requires WriterOk(s)
    ensures Stored(s, []) == s
  {
    assert s.buf[..s.len] + [] + s.buf[s.len..] == s.buf;
  }
}
