/** The chunk reader as functions on its whole state: the shared buffer, its positions and the socket.
    `HttpChunkReader` proves the imperative reader equal to these functions. */
module ChunkDecoder {
  import opened Bytes
  import opened Network
  import opened SizeLine
  import opened Wrappers

  const MAX: nat := 524288
  const LINE_LIMIT: nat := 20

  const OK_ANSWER: seq<Byte> := Lines(
    ["HTTP/1.1 200 OK", "Server: EXASolution R Package", "Connection: close"])
  const ERROR_ANSWER: seq<Byte> := Lines(
    ["HTTP/1.1 404 ERROR", "Server: EXASolution R Package", "Connection: close"])

  /** `alive` says whether the reader's weak socket pointer can still be locked. */
  datatype Reader = Reader(buf: seq<Byte>, len: nat, pos: nat, num: nat, alive: bool, net: Net)

  /** Two bytes are always left for the line end that follows the data. */
  predicate Valid(s: Reader) {
    |s.buf| == MAX && s.pos <= s.len <= MAX - 2
  }

  /** What a reader finds in the buffer after construction, whatever the last transfer left there. */
  function Fresh(net: Net): (s: Reader)
    ensures Valid(s)
  {
    Reader(seq(MAX, i => NUL), 0, 0, 0, true, net)
  }

  /** The bytes of the current chunk that no call has delivered yet. */
  function Unread(s: Reader): seq<Byte>
    requires Valid(s)
  {
    s.buf[s.pos..s.len]
  }

  // ---------------------------------------------------------------- read_next_chunk

  datatype ChunkStep = ChunkStep(s: Reader, ret: int)

  /** Where the size line stops: at its LF, at the end of the input, or at the limit. */
  function LineStop(p: seq<Byte>, i: nat): (stop: nat)
    requires i <= |p| && i <= LINE_LIMIT
    ensures i <= stop <= |p| && stop <= LINE_LIMIT
    decreases |p| - i
  {
    if i == LINE_LIMIT || i == |p| || p[i] == LF then i else LineStop(p, i + 1)
  }

  predicate LineFound(p: seq<Byte>) {
    var i := LineStop(p, 0);
    i < LINE_LIMIT && i < |p|
  }

  /** Carriage returns become string terminators. */
  function Nulled(line: seq<Byte>): (r: seq<Byte>)
    ensures |r| == |line|
  {
    seq(|line|, i requires 0 <= i < |line| => if line[i] == CR then NUL else line[i])
  }

  /** The C string that starts a buffer. */
  function UpToNul(s: seq<Byte>): seq<Byte> {
    if s == [] || s[0] == NUL then [] else [s[0]] + UpToNul(s[1..])
  }

  /** What scanning the size line leaves at the head of the buffer. */
  function LineHead(p: seq<Byte>): seq<Byte> {
    var i := LineStop(p, 0);
    Nulled(p[..i]) + (if i < LINE_LIMIT then [NUL, NUL] else [NUL])
  }

  /** The text of the size line that the input starts with. */
  function SizeText(p: seq<Byte>): seq<Byte> {
    UpToNul(Nulled(p[..LineStop(p, 0)]))
  }

  function AfterLine(s: Reader): (s': Reader)
    requires Valid(s)
    ensures Valid(s')
  {
    var p := Avail(s.net);
    var consumed := LineStop(p, 0) + (if LineFound(p) then 1 else 0);
    s.(buf := Overlay(s.buf, LineHead(p)), net := s.net.(pending := s.net.pending[consumed..]))
  }

  /** Answer with an error, shut the write side, report -1. */
  function Reject(s: Reader): ChunkStep {
    ChunkStep(s.(net := ShutdownWr(Send(s.net, ERROR_ANSWER).net)), -1)
  }

  /** Receive data and its line end over the head of the buffer. */
  function ReceiveData(s: Reader, want: nat): (r: ChunkStep)
    requires Valid(s) && want <= MAX
    ensures Valid(r.s) && |r.s.net.pending| <= |s.net.pending|
    ensures r.ret <= 0 ==> r.s.len == s.len && r.s.pos == s.pos
    ensures r.ret > 0 ==> r.ret == r.s.len && r.s.pos == 0
  {
    var r := Recv(s.net, want);
    var s' := s.(buf := Overlay(s.buf, r.got), net := r.net);
    if r.ret < 3 then Reject(s')
    else ChunkStep(s'.(buf := s'.buf[r.ret - 2 := NUL], len := r.ret - 2, pos := 0, num := s.num + 1), r.ret - 2)
  }

  /** What follows once the size line has been read; `buflen + 2` is 32-bit arithmetic. */
  function ReadBody(s: Reader, text: seq<Byte>): (r: ChunkStep)
    requires Valid(s)
    ensures Valid(r.s) && |r.s.net.pending| <= |s.net.pending|
    ensures r.ret <= 0 ==> r.s.len == s.len && r.s.pos == s.pos
    ensures r.ret > 0 ==> r.ret == r.s.len && r.s.pos == 0
  {
    if text == [] || ScanHex(text).None? then Reject(s)
    else if ScanHex(text).value == 0 then
      ChunkStep(s.(net := ShutdownWr(Send(s.net, OK_ANSWER).net)), 0)
    else
      var want := (ScanHex(text).value + 2) % TWO_32;
      if want > MAX then Reject(s) else ReceiveData(s, want)
  }

  function ReadNextChunk(s: Reader): (r: ChunkStep)
    requires Valid(s)
    ensures Valid(r.s)
    ensures r.ret <= 0 ==> r.s.len == s.len && r.s.pos == s.pos
    ensures r.ret > 0 ==> r.ret == r.s.len && r.s.pos == 0 && |r.s.net.pending| < |s.net.pending|
  {
    if !s.alive then ChunkStep(s, -1)
    else if !LineFound(Avail(s.net)) then Reject(AfterLine(s))
    else ReadBody(AfterLine(s), SizeText(Avail(s.net)))
  }

  /** A chunk that is loaded is counted, and its text ends in a terminator; the end and errors count nothing. */
  predicate Counted(s: Reader, r: ChunkStep) {
    && r.s.num == s.num + (if r.ret > 0 then 1 else 0) && r.s.alive == s.alive
    && (r.ret > 0 ==> r.s.len < |r.s.buf| && r.s.buf[r.s.len] == NUL)
  }

  lemma DataCounted(s: Reader, want: nat)
    requires Valid(s) && want <= MAX
    ensures Counted(s, ReceiveData(s, want))
  {
    hide Send;
  }

  lemma ChunkCounted(s: Reader)
    requires Valid(s)
    ensures Counted(s, ReadNextChunk(s))
  {
    hide ScanHex, SizeText, LineFound, Send, ReceiveData;
    if ScanHex(SizeText(Avail(s.net))).Some? {
      var want := (ScanHex(SizeText(Avail(s.net))).value + 2) % TWO_32;
      if want <= MAX {
        DataCounted(AfterLine(s), want);
      }
    }
  }

  /** A size that wraps `buflen + 2` around is refused, as the data it asks for is too short to be any. */
  lemma WrappedSizeRefused(s: Reader, text: seq<Byte>)
    requires Valid(s) && ScanHex(text).Some? && ScanHex(text).value + 2 >= TWO_32
    ensures ReadBody(s, text).ret == -1
  {
    hide ScanHex, Send;
    assert (ScanHex(text).value + 2) % TWO_32 == ScanHex(text).value + 2 - TWO_32;
  }

  // ---------------------------------------------------------------- read_next

  datatype ReadStep = ReadStep(s: Reader, out: seq<Byte>, ret: int)

  /** `out` holds the bytes reported to the caller, none when the call fails. */
  function ReadNext(s: Reader, n: nat): (r: ReadStep)
    requires Valid(s)
    ensures Valid(r.s) && r.ret <= n && (r.ret >= 0 ==> |r.out| == r.ret) && (r.ret < 0 ==> r.ret == -1 && r.out == [])
    decreases |s.net.pending|
  {
    hide ReadNextChunk;
    var rest := s.len - s.pos;
    if n <= rest then ReadStep(s.(pos := s.pos + n), s.buf[s.pos..s.pos + n], n)
    else
      var c := ReadNextChunk(s);
      if c.ret == 0 then ReadStep(c.s, Unread(s), rest)
      else if c.ret < 0 then ReadStep(c.s, [], -1)
      else
        var r := ReadNext(c.s, n - rest);
        if r.ret < 0 then r else ReadStep(r.s, Unread(s) + r.out, rest + r.ret)
  }

  // ---------------------------------------------------------------- the two entry points

  /** A call of `fgetc` or of `pipe_read`. */
  datatype Call = Fgetc | PipeRead(size: nat, nitems: nat)

  /** Did the call get all it asked for, meet the end of the stream, or fail? */
  datatype Outcome = More | Ended | Failed

  /** `bytes` is what the call delivered and `ret` what it returned. */
  datatype CallStep = CallStep(s: Reader, bytes: seq<Byte>, outcome: Outcome, ret: int)

  function FgetcStep(s: Reader): (r: CallStep)
    requires Valid(s)
    ensures Valid(r.s)
  {
    if s.len - s.pos < 1 then
      var c := ReadNextChunk(s);
      if c.ret < 1 then CallStep(c.s, [], if c.ret == 0 then Ended else Failed, -1)
      else CallStep(c.s.(pos := 1), [c.s.buf[0]], More, SignedChar(c.s.buf[0]))
    else CallStep(s.(pos := s.pos + 1), [s.buf[s.pos]], More, SignedChar(s.buf[s.pos]))
  }

  function PipeReadStep(s: Reader, size: nat, nitems: nat): (r: CallStep)
    requires Valid(s)
    ensures Valid(r.s)
  {
    var r := ReadNext(s, size * nitems);
    CallStep(r.s, r.out, if r.ret < 0 then Failed else if r.ret < size * nitems then Ended else More,
             if r.ret > 0 then assert size > 0; r.ret / size else r.ret)
  }

  function DoCall(s: Reader, call: Call): (r: CallStep)
    requires Valid(s)
    ensures Valid(r.s)
  {
    match call
    case Fgetc => FgetcStep(s)
    case PipeRead(size, nitems) => PipeReadStep(s, size, nitems)
  }
}
