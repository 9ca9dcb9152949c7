/** The shared buffer and the imperative chunk reader, proved equal to `ChunkDecoder`. */
module HttpChunkReader {
  import opened Bytes
  import opened Network
  import opened SizeLine
  import opened Wrappers
  import opened ChunkDecoder
  import opened HttpHeader

  /** The buffer that every transfer of the process uses in turn. */
  class Chunk {
    const buf: array<Byte>
    var len: nat
    var pos: nat
    var num: nat

    constructor ()
      ensures buf.Length == MAX && fresh(buf)
    {
      buf := new Byte[MAX];
      len, pos, num := 0, 0, 0;
    }

    method Reset()
      modifies this, buf
      ensures len == 0 && pos == 0 && num == 0
      ensures buf[..] == seq(buf.Length, i => NUL)
    {
      len, pos, num := 0, 0, 0;
      var i := 0;
      while i < buf.Length
        invariant 0 <= i <= buf.Length && len == 0 && pos == 0 && num == 0
        invariant forall j :: 0 <= j < i ==> buf[j] == NUL
      {
        buf[i] := NUL;
        i := i + 1;
      }
    }
  }

  class HttpReader {
    const socket: Socket
    const chunk: Chunk
    var alive: bool

    /** Construction resets the shared buffer, so earlier transfers leave no trace. */
    constructor (socket: Socket, chunk: Chunk)
      requires chunk.buf.Length == MAX
      modifies chunk, chunk.buf
      ensures this.socket == socket && this.chunk == chunk
      ensures Inv() && State() == Fresh(socket.State())
    {
      this.socket, this.chunk, alive := socket, chunk, true;
      new;
      chunk.Reset();
    }

    ghost predicate Inv()
      reads this, chunk
    {
      chunk.buf.Length == MAX && chunk.pos <= chunk.len <= MAX - 2
    }

    ghost function State(): Reader
      reads this, chunk, chunk.buf, socket
    {
      Reader(chunk.buf[..], chunk.len, chunk.pos, chunk.num, alive, socket.State())
    }

    /** `start` skips the request header; without a socket, or without a header, it throws. */
    method Start() returns (ok: bool)
      requires Inv()
      modifies socket`pending
      ensures !alive ==> !ok && State() == old(State())
      ensures alive ==> (ok <==> HeaderLength(Avail(old(socket.State()))).Some?)
      ensures ok ==> State() == AfterHeader(old(State()))
    {
      if !alive {
        return false;
      }
      ghost var p := Avail(socket.State());
      ghost var n;
      ok, n := ReadHttpHeader(socket);
      if ok {
        HeaderUnique(p, n, HeaderLength(p).value);
      }
    }

    /** One turn of the size line loop: terminate the buffer, receive a byte, void a CR. */
    method ReceiveLineByte(pos: nat) returns (n: int)
      requires chunk.buf.Length == MAX && pos < LINE_LIMIT
      modifies socket`pending, chunk.buf
      ensures n == 1 || n < 1
      ensures n < 1 <==> Avail(old(socket.State())) == []
      ensures n < 1 ==> socket.pending == old(socket.pending)
      ensures n < 1 ==> chunk.buf[..] == old(chunk.buf[..])[pos := NUL][pos + 1 := NUL]
      ensures n == 1 ==> socket.pending == old(socket.pending)[1..]
      ensures n == 1 ==> chunk.buf[..] == old(chunk.buf[..])[pos := Voided(old(socket.pending)[0])][pos + 1 := NUL]
    {
      ghost var b: seq<Byte> := chunk.buf[..];
      chunk.buf[pos], chunk.buf[pos + 1] := NUL, NUL;
      ghost var cleared: seq<Byte> := b[pos := NUL][pos + 1 := NUL];
      assert chunk.buf[..] == cleared;
      ghost var c: seq<Byte> := socket.pending;
      n := socket.Receive(chunk.buf, pos, 1);
      if n < 1 {
        assert cleared[..pos] + [] + cleared[pos..] == cleared;
        return;
      }
      assert chunk.buf[..] == cleared[..pos] + [c[0]] + cleared[pos + 1..] == cleared[pos := c[0]];
      if chunk.buf[pos] == CR {
        chunk.buf[pos] := NUL;
      }
      assert chunk.buf[..] == cleared[pos := Voided(c[0])];
    }

    /** What one turn of the loop does to the line so far: it goes on, ends at LF, or meets the end. */
    method LineTurn(pos: nat, ghost buf0: seq<Byte>, ghost p: seq<Byte>) returns (more: bool, found: bool)
      requires chunk.buf.Length == |buf0| == MAX && pos < LINE_LIMIT && pos <= |p|
      requires chunk.buf[..] == LineBuffer(buf0, p, pos) && Avail(socket.State()) == p[pos..]
      modifies socket`pending, chunk.buf
      ensures (more || found) <==> pos < |p|
      ensures socket.pending == if more || found then old(socket.pending)[1..] else old(socket.pending)
      ensures more ==> p[pos] != LF && chunk.buf[..] == LineBuffer(buf0, p, pos + 1)
      ensures found ==> p[pos] == LF
      ensures !more ==> chunk.buf[..] == Overlay(buf0, Nulled(p[..pos]) + [NUL, NUL])
    {
      hide LineBuffer, Nulled;
      ghost var held: seq<Byte> := LineBuffer(buf0, p, pos);
      var n := ReceiveLineByte(pos);
      LineBufferStep(buf0, p, pos, NUL);
      if n < 1 {
        return false, false;
      }
      LineBufferStep(buf0, p, pos, Voided(p[pos]));
      if chunk.buf[pos] == LF {
        chunk.buf[pos] := NUL;
        assert chunk.buf[..] == held[pos := NUL][pos + 1 := NUL];
        return false, true;
      }
      return true, false;
    }

    /** The loop over the size line: one byte at a time into the buffer, which it keeps terminated. */
    method ReadSizeLine() returns (found: bool)
      requires Inv() && alive
      modifies socket`pending, chunk.buf
      ensures Inv() && State() == AfterLine(old(State()))
      ensures found == LineFound(Avail(old(State()).net))
    {
      hide LineBuffer, Nulled;
      ghost var buf0, in0, p := chunk.buf[..], socket.pending, Avail(socket.State());
      LineBufferStart(buf0, p);
      var pos, more := 0, true;
      found := false;
      while pos < LINE_LIMIT
        invariant 0 <= pos <= LINE_LIMIT && pos <= |p| && !found
        invariant LineStop(p, 0) == LineStop(p, pos)
        invariant socket.pending == in0[pos..]
        invariant chunk.buf[..] == LineBuffer(buf0, p, pos)
      {
        assert Avail(socket.State()) == p[pos..];
        more, found := LineTurn(pos, buf0, p);
        if !more {
          return;
        }
        pos := pos + 1;
      }
      LineBufferFull(buf0, p);
    }

    method CloseSocketWithError()
      requires Inv() && alive
      modifies socket
      ensures Inv() && State() == Reject(old(State())).s
    {
      var _ := socket.Transmit(ERROR_ANSWER);
      socket.CloseWr();
    }

    method ReceiveChunkData(want: nat) returns (ret: int)
      requires Inv() && alive && want <= MAX
      modifies socket, chunk, chunk.buf
      ensures Inv()
      ensures var r := ReceiveData(old(State()), want); State() == r.s && ret == r.ret
    {
      ghost var s := State();
      var received := socket.Receive(chunk.buf, 0, want);
      assert chunk.buf[..] == Overlay(s.buf, Recv(s.net, want).got);
      hide Send, Recv;
      if received < 3 {
        CloseSocketWithError();
        return -1;
      }
      chunk.len := received - 2;
      chunk.pos := 0;
      chunk.buf[received - 2] := NUL;
      chunk.num := chunk.num + 1;
      ret := chunk.len;
    }

    /** From the terminated size line in the buffer to the data, the end of the stream or a refusal. */
    method ReadChunkBody() returns (ret: int)
      requires Inv() && alive
      modifies socket, chunk, chunk.buf
      ensures Inv()
      ensures var r := ReadBody(old(State()), UpToNul(old(chunk.buf[..]))); State() == r.s && ret == r.ret
    {
      hide ScanHex, Send, ReceiveData;
      ret := -1;
      if chunk.buf[0] == NUL {
        CloseSocketWithError();
        return;
      }
      var size := ScanHex(UpToNul(chunk.buf[..]));
      if size.None? {
        CloseSocketWithError();
        return;
      }
      if size.value == 0 {
        var _ := socket.Transmit(OK_ANSWER);
        socket.CloseWr();
        return 0;
      }
      var want := (size.value + 2) % TWO_32;
      if want > MAX {
        CloseSocketWithError();
        return;
      }
      ret := ReceiveChunkData(want);
    }

    method ReadNextChunk() returns (ret: int)
      requires Inv()
      modifies socket, chunk, chunk.buf
      ensures Inv()
      ensures var r := ChunkDecoder.ReadNextChunk(old(State())); State() == r.s && ret == r.ret
    {
      if !alive {
        return -1;
      }
      hide AfterLine, SizeText, ReadBody, Reject, LineFound;
      AfterLineText(State());
      var found := ReadSizeLine();
      if !found {
        CloseSocketWithError();
        return -1;
      }
      ret := ReadChunkBody();
    }

    /** `memcpy` from the read position. */
    method CopyOut(dst: array<Byte>, off: nat, n: nat)
      requires Inv() && dst != chunk.buf && off + n <= dst.Length && n <= chunk.len - chunk.pos
      modifies dst
      ensures dst[..off + n] == old(dst[..off]) + chunk.buf[chunk.pos..chunk.pos + n]
    {
      var i := 0;
      while i < n
        invariant 0 <= i <= n
        invariant dst[..off + i] == old(dst[..off]) + chunk.buf[chunk.pos..chunk.pos + i]
      {
        dst[off + i] := chunk.buf[chunk.pos + i];
        i := i + 1;
      }
    }

    /** Copies what the request still needs and advances the read position. */
    method TakeSome(dst: array<Byte>, off: nat, n: nat)
      requires Inv() && dst != chunk.buf && off + n <= dst.Length && n <= chunk.len - chunk.pos
      modifies chunk, dst
      ensures Inv() && State() == old(State().(pos := chunk.pos + n))
      ensures dst[..off + n] == old(dst[..off]) + old(chunk.buf[chunk.pos..chunk.pos + n])
    {
      CopyOut(dst, off, n);
      chunk.pos := chunk.pos + n;
    }

    /** Copies the rest of the chunk, without advancing, and loads the next one over it. */
    method TakeRest(dst: array<Byte>, off: nat, rest: nat) returns (readlen: int)
      requires Inv() && dst != chunk.buf && off + rest <= dst.Length && rest == chunk.len - chunk.pos
      modifies socket, chunk, chunk.buf, dst
      ensures Inv()
      ensures var c := ChunkDecoder.ReadNextChunk(old(State())); State() == c.s && readlen == c.ret
      ensures dst[..off + rest] == old(dst[..off]) + Unread(old(State()))
    {
      hide ChunkDecoder.ReadNextChunk;
      ghost var s := State();
      CopyOut(dst, off, rest);
      assert State() == s;
      readlen := ReadNextChunk();
    }

    /** Serves `n` bytes from as many chunks as it takes. */
    method ReadNext(dst: array<Byte>, n: nat) returns (ret: int)
      requires Inv() && dst != chunk.buf && n <= dst.Length
      modifies socket, chunk, chunk.buf, dst
      ensures Inv()
      ensures var r := ChunkDecoder.ReadNext(old(State()), n);
        State() == r.s && ret == r.ret && (ret >= 0 ==> dst[..ret] == r.out)
    {
      hide ChunkDecoder.ReadNextChunk, ChunkDecoder.ReadNext, Continues;
      StartsWhole(ChunkDecoder.ReadNext(State(), n));
      ghost var whole := ChunkDecoder.ReadNext(State(), n);
      var rest := chunk.len - chunk.pos;
      var retlen, left := 0, n;
      while true
        invariant 0 <= retlen <= n && left == n - retlen
        invariant Inv() && rest == chunk.len - chunk.pos
        invariant Continues(whole, dst[..retlen], ChunkDecoder.ReadNext(State(), left))
        decreases |socket.pending|
      {
        ghost var s, done := State(), dst[..retlen];
        assert |Unread(s)| == rest;
        ReadNextTurn(whole, done, s, left);
        if left <= rest {
          TakeSome(dst, retlen, left);
          assert dst[..retlen + left] == whole.out;
          return retlen + left;
        }
        var readlen := TakeRest(dst, retlen, rest);
        assert dst[..retlen + rest] == done + Unread(s);
        if readlen == 0 {
          return retlen + rest;
        }
        if readlen < 0 {
          return -1;
        }
        retlen := retlen + rest;
        left := left - rest;
        rest := chunk.len;
      }
    }

    /** Reads items of `size` bytes; the caller's buffer must hold them all. */
    method PipeRead(dst: array<Byte>, size: nat, nitems: nat) returns (ret: int)
      requires Inv() && dst != chunk.buf && size * nitems <= dst.Length
      modifies socket, chunk, chunk.buf, dst
      ensures Inv()
      ensures var r := PipeReadStep(old(State()), size, nitems);
        State() == r.s && ret == r.ret && (|r.bytes| <= dst.Length && (ret >= 0 ==> dst[..|r.bytes|] == r.bytes))
    {
      var len := size * nitems;
      ret := ReadNext(dst, len);
      if ret > 0 {
        ret := ret / size;
      }
    }

    method Fgetc() returns (ret: int)
      requires Inv()
      modifies socket, chunk, chunk.buf
      ensures Inv()
      ensures var r := FgetcStep(old(State())); State() == r.s && ret == r.ret
    {
      if chunk.len - chunk.pos < 1 {
        var n := ReadNextChunk();
        if n < 1 {
          return -1;
        }
      }
      ret := SignedChar(chunk.buf[chunk.pos]);
      chunk.pos := chunk.pos + 1;
    }
  }

  /** The reader's input moved behind the header. */
  ghost function AfterHeader(s: Reader): Reader
    requires HeaderLength(Avail(s.net)).Some?
  {
    s.(net := s.net.(pending := s.net.pending[HeaderLength(Avail(s.net)).value..]))
  }

  function Voided(b: Byte): Byte {
    if b == CR then NUL else b
  }

  /** The buffer after `pos` turns of the size line loop. */
  ghost function LineBuffer(buf: seq<Byte>, p: seq<Byte>, pos: nat): seq<Byte>
    requires |buf| == MAX && pos <= |p| && pos <= LINE_LIMIT
  {
    if pos == 0 then buf else Overlay(buf, Nulled(p[..pos]) + [NUL])
  }

  lemma LineBufferStart(buf: seq<Byte>, p: seq<Byte>)
    requires |buf| == MAX
    ensures LineBuffer(buf, p, 0) == buf
  {
  }

  /** When the limit is reached the buffer holds the whole line and a terminator. */
  lemma LineBufferFull(buf: seq<Byte>, p: seq<Byte>)
    requires |buf| == MAX && LINE_LIMIT <= |p|
    ensures LineBuffer(buf, p, LINE_LIMIT) == Overlay(buf, Nulled(p[..LINE_LIMIT]) + [NUL])
  {
  }

  lemma LineBufferStep(buf: seq<Byte>, p: seq<Byte>, pos: nat, b: Byte)
    requires |buf| == MAX && pos <= |p| && pos < LINE_LIMIT
    ensures LineBuffer(buf, p, pos)[pos := b][pos + 1 := NUL] == Overlay(buf, Nulled(p[..pos]) + [b, NUL])
    ensures pos < |p| && b == Voided(p[pos]) ==>
      LineBuffer(buf, p, pos)[pos := b][pos + 1 := NUL] == LineBuffer(buf, p, pos + 1)
  {
    if pos < |p| && b == Voided(p[pos]) {
      assert Nulled(p[..pos + 1]) == Nulled(p[..pos]) + [b];
    }
  }

  /** The terminator ends the text, whatever lies behind it. */
  lemma {:induction false} TerminatedText(a: seq<Byte>, b: seq<Byte>)
    ensures UpToNul(a + [NUL] + b) == UpToNul(a)
  {
    if a != [] && a[0] != NUL {
      assert (a + [NUL] + b)[1..] == a[1..] + [NUL] + b;
      TerminatedText(a[1..], b);
    }
  }

  /** The text in the buffer after a size line is the text of that line. */
  lemma AfterLineText(s: Reader)
    requires Valid(s)
    ensures LineFound(Avail(s.net)) ==> UpToNul(AfterLine(s).buf) == SizeText(Avail(s.net))
  {
    var p := Avail(s.net);
    var i := LineStop(p, 0);
    if LineFound(p) {
      var line := Nulled(p[..i]);
      TerminatedText(line, [NUL] + s.buf[i + 2..]);
      assert AfterLine(s).buf == line + [NUL] + ([NUL] + s.buf[i + 2..]);
    }
  }

  /** A call that is under way: `done` is copied, `rest` is what the remaining turns will do. */
  ghost predicate Continues(whole: ReadStep, done: seq<Byte>, rest: ReadStep) {
    && whole.s == rest.s
    && whole.ret == (if rest.ret < 0 then -1 else |done| + rest.ret)
    && (rest.ret >= 0 ==> whole.out == done + rest.out)
  }

  lemma StartsWhole(whole: ReadStep)
    requires whole.ret >= -1
    ensures Continues(whole, [], whole)
  {
  }

  /** One turn of the loop in `ReadNext`, against the recursion of the function. */
  lemma ReadNextTurn(whole: ReadStep, done: seq<Byte>, s: Reader, left: nat)
    requires Valid(s) && Continues(whole, done, ChunkDecoder.ReadNext(s, left))
    ensures left <= |Unread(s)| ==>
      whole == ReadStep(s.(pos := s.pos + left), done + s.buf[s.pos..s.pos + left], |done| + left)
    ensures left > |Unread(s)| ==> var c := ChunkDecoder.ReadNextChunk(s);
      && (c.ret == 0 ==> whole == ReadStep(c.s, done + Unread(s), |done| + |Unread(s)|))
      && (c.ret < 0 ==> whole.s == c.s && whole.ret == -1)
      && (c.ret > 0 ==> Continues(whole, done + Unread(s), ChunkDecoder.ReadNext(c.s, left - |Unread(s)|)))
  {
    hide ChunkDecoder.ReadNextChunk;
    if left > |Unread(s)| && ChunkDecoder.ReadNextChunk(s).ret > 0 {
      var c := ChunkDecoder.ReadNextChunk(s);
      var r := ChunkDecoder.ReadNext(c.s, left - |Unread(s)|);
      assert done + (Unread(s) + r.out) == done + Unread(s) + r.out;
    }
  }
}
