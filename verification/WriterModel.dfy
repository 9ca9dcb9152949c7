/** The chunk writer as functions on its state. `HttpChunkWriter` proves the imperative writer equal. */
module WriterModel {
  import opened Bytes
  import opened Network
  import opened ChunkDecoder

  /** The answer that precedes the data. */
  const HEADER: seq<Byte> := HeaderText()

  function HeaderText(): seq<Byte> {
    Lines(["HTTP/1.1 200 OK", "Server: EXASolution R Package", "Content-type: application/octet-stream",
           "Content-disposition: " + "attachment; filename=data.csv", "Connection: close"])
  }

  datatype Writer = Writer(buf: seq<Byte>, len: nat, num: nat, alive: bool, net: Net)

  predicate WriterOk(s: Writer) {
    |s.buf| == MAX && s.len <= MAX
  }

  function FreshWriter(net: Net): (s: Writer)
    ensures WriterOk(s)
  {
    Writer(seq(MAX, i => NUL), 0, 0, true, net)
  }

  datatype WriteStep = WriteStep(s: Writer, ret: int)

  /** Send an error, shut the socket both ways, report -1. */
  function GiveUp(s: Writer, net: Net): WriteStep {
    WriteStep(s.(net := ShutdownRdWr(Send(net, ERROR_ANSWER).net)), -1)
  }

  /** The header goes out before the first buffer only. */
  function WriteNextChunk(s: Writer): (r: WriteStep)
    requires WriterOk(s)
    ensures WriterOk(r.s) && r.s.alive == s.alive
    ensures r.ret >= 0 ==> r.ret == s.len && r.s.len == 0
    ensures r.ret < 0 ==> r.ret == -1 && r.s.len == s.len
  {
    hide HeaderText, Send;
    if !s.alive then WriteStep(s, -1)
    else if s.len == 0 then GiveUp(s, s.net)
    else
      var h := if s.num == 0 then Send(s.net, HEADER) else Sent(s.net, |HEADER|);
      if h.ret != |HEADER| then GiveUp(s, h.net)
      else
        var d := Send(h.net, s.buf[..s.len]);
        if d.ret != s.len then GiveUp(s, d.net)
        else WriteStep(s.(len := 0, num := s.num + 1, net := d.net), s.len)
  }

  /** The buffer with `data` stored at the write position. */
  function Stored(s: Writer, data: seq<Byte>): (s': Writer)
    requires WriterOk(s) && |data| <= MAX - s.len
    ensures WriterOk(s') && s'.buf[..s'.len] == s.buf[..s.len] + data
  {
    s.(buf := s.buf[..s.len] + data + s.buf[s.len + |data|..], len := s.len + |data|)
  }

  /** Fill the buffer, send it, and go on with what is left; the last part is returned as the count. */
  function PipeWrite(s: Writer, data: seq<Byte>): (r: WriteStep)
    requires WriterOk(s)
    ensures WriterOk(r.s) && r.s.alive == s.alive
    decreases |data|, s.len
  {
    hide WriteNextChunk;
    var rest := MAX - s.len;
    if rest >= |data| then WriteStep(Stored(s, data), |data|)
    else
      var w := WriteNextChunk(Stored(s, data[..rest]));
      if w.ret < 0 then WriteStep(w.s, -1) else PipeWrite(w.s, data[rest..])
  }

  function PipeFlush(s: Writer): (r: WriteStep)
    requires WriterOk(s)
    ensures WriterOk(r.s) && r.s.alive == s.alive
  {
    hide WriteNextChunk;
    if s.len > 0 then
      var w := WriteNextChunk(s);
      WriteStep(w.s, if w.ret < 0 then -1 else 0)
    else WriteStep(s, 0)
  }

  datatype WriterCall = Write(data: seq<Byte>) | Flush

  function DoWriterCall(s: Writer, call: WriterCall): (r: WriteStep)
    requires WriterOk(s)
    ensures WriterOk(r.s) && r.s.alive == s.alive
  {
    match call
    case Write(data) => PipeWrite(s, data)
    case Flush => PipeFlush(s)
  }

  datatype WriterRun = WriterRun(s: Writer, rets: seq<int>)

  /** All the calls in order, whatever they return. */
  function RunWriter(s: Writer, calls: seq<WriterCall>): (r: WriterRun)
    requires WriterOk(s)
    ensures WriterOk(r.s) && |r.rets| == |calls|
    decreases |calls|
  {
    if calls == [] then WriterRun(s, [])
    else
      var w := DoWriterCall(s, calls[0]);
      var r := RunWriter(w.s, calls[1..]);
      WriterRun(r.s, [w.ret] + r.rets)
  }

  /** Everything the calls hand over. */
  function Written(calls: seq<WriterCall>): seq<Byte> {
    if calls == [] then [] else Handed(calls[0]) + Written(calls[1..])
  }

  function Handed(call: WriterCall): seq<Byte> {
    match call
    case Write(data) => data
    case Flush => []
  }
}
