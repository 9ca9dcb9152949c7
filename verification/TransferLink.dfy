/** The transfer step of the protocol does to the connection what the calls of reader and writer do. */
module TransferLink {
  import opened Bytes
  import opened Network
  import opened SizeLine
  import opened ChunkDecoder
  import opened WriterModel
  import P = TransferProtocol

  /** The connection after one portion of a transfer, which hangs up or not. */
  function AfterPortion(t: P.State, hangsUp: bool): Link {
    P.EnterTransfer(t, P.MainThread(true, true, hangsUp)).link
  }

  lemma RejectLink(s: Reader)
    ensures LinkOf(Reject(s).s.net) == ShutWr(LinkOf(s.net)) && Reject(s).ret == -1
  {
  }

  lemma DataLink(s: Reader, want: nat)
    requires Valid(s) && want <= MAX
    ensures var r := ReceiveData(s, want);
      LinkOf(r.s.net) == if r.ret > 0 then LinkOf(s.net) else ShutWr(LinkOf(s.net))
  {
    var r := Recv(s.net, want);
    var s' := s.(buf := Overlay(s.buf, r.got), net := r.net);
    RejectLink(s');
    hide Reject, Recv;
  }

  lemma BodyLink(s: Reader, text: seq<Byte>)
    requires Valid(s)
    ensures var r := ReadBody(s, text);
      LinkOf(r.s.net) == if r.ret > 0 then LinkOf(s.net) else ShutWr(LinkOf(s.net))
  {
    hide ScanHex, ReceiveData, Reject;
    RejectLink(s);
    if ScanHex(text).Some? && (ScanHex(text).value + 2) % TWO_32 <= MAX {
      DataLink(s, (ScanHex(text).value + 2) % TWO_32);
    }
  }

  lemma ChunkLink(s: Reader)
    requires Valid(s) && s.alive
    ensures var r := ReadNextChunk(s);
      && r.s.alive
      && LinkOf(r.s.net) == if r.ret > 0 then LinkOf(s.net) else ShutWr(LinkOf(s.net))
  {
    var s' := AfterLine(s);
    RejectLink(s');
    BodyLink(s', SizeText(Avail(s.net)));
    hide ScanHex, SizeText, LineFound, LineHead;
  }

  lemma {:induction false} ReadLink(s: Reader, n: nat)
    requires Valid(s) && s.alive
    ensures var r := ReadNext(s, n);
      LinkOf(r.s.net) == if r.ret == n then LinkOf(s.net) else ShutWr(LinkOf(s.net))
    decreases |s.net.pending|
  {
    hide ReadNextChunk, ShutWr;
    if n > s.len - s.pos {
      ChunkLink(s);
      var c := ReadNextChunk(s);
      if c.ret > 0 {
        ReadLink(c.s, n - (s.len - s.pos));
      }
    }
  }

  /** A call of the reader hangs up exactly if it does not get all it asked for. */
  lemma ReaderPortion(s: Reader, call: Call, t: P.State)
    requires Valid(s) && s.alive
    requires t.connection && !t.writing && t.link == LinkOf(s.net)
    ensures var r := DoCall(s, call); LinkOf(r.s.net) == AfterPortion(t, r.outcome != More)
  {
    hide ReadNextChunk, ReadNext;
    match call
    case Fgetc => ChunkLink(s);
    case PipeRead(size, nitems) => ReadLink(s, size * nitems);
  }

  lemma SendLink(n: Net, data: seq<Byte>)
    ensures LinkOf(Send(n, data).net) == LinkOf(n)
  {
  }

  lemma GiveUpLink(s: Writer, net: Net)
    ensures LinkOf(GiveUp(s, net).s.net) == ShutRdWr(LinkOf(net)) && GiveUp(s, net).ret == -1
  {
    SendLink(net, ERROR_ANSWER);
    hide Send;
  }

  lemma WriteChunkLink(s: Writer)
    requires WriterOk(s) && s.alive
    ensures var r := WriteNextChunk(s);
      LinkOf(r.s.net) == if r.ret >= 0 then LinkOf(s.net) else ShutRdWr(LinkOf(s.net))
  {
    hide HeaderText, Send, GiveUp;
    GiveUpLink(s, s.net);
    var h := if s.num == 0 then Send(s.net, HEADER) else Sent(s.net, |HEADER|);
    SendLink(s.net, HEADER);
    GiveUpLink(s, h.net);
    var d := Send(h.net, s.buf[..s.len]);
    SendLink(h.net, s.buf[..s.len]);
    GiveUpLink(s, d.net);
  }

  lemma {:induction false} WriteLink(s: Writer, data: seq<Byte>)
    requires WriterOk(s) && s.alive
    ensures var r := PipeWrite(s, data);
      LinkOf(r.s.net) == if r.ret >= 0 then LinkOf(s.net) else ShutRdWr(LinkOf(s.net))
    decreases |data|, s.len
  {
    hide WriteNextChunk, ShutRdWr;
    var rest := MAX - s.len;
    if rest < |data| {
      var full := Stored(s, data[..rest]);
      WriteChunkLink(full);
      if WriteNextChunk(full).ret >= 0 {
        WriteLink(WriteNextChunk(full).s, data[rest..]);
      }
    }
  }

  /** A call of the writer hangs up exactly if it reports an error. */
  lemma WriterPortion(s: Writer, call: WriterCall, t: P.State)
    requires WriterOk(s) && s.alive
    requires t.connection && t.writing && t.link == LinkOf(s.net)
    ensures var r := DoWriterCall(s, call); LinkOf(r.s.net) == AfterPortion(t, r.ret < 0)
  {
    hide WriteNextChunk, PipeWrite;
    match call
    case Write(data) => WriteLink(s, data);
    case Flush => WriteChunkLink(s);
  }
}
