/** What happens at and after the end of a message, and what `fgetc`'s callers can tell. */
module ReaderEnd {
  import opened Bytes
  import opened Network
  import opened SizeLine
  import opened Wrappers
  import opened ChunkDecoder
  import opened ChunkCoding
  import opened ReaderRuns
  import opened HttpHeader
  import opened HttpChunkReader

  // ---------------------------------------------------------------- the end is final for fgetc

  /** What may follow the last size line so that nothing more can be read: anything on a plain socket,
      which loses its handle with the answer; on TLS, nothing or the closing line end. */
  predicate Closing(transport: Transport, tail: seq<Byte>) {
    transport.Plain? || tail == [] || tail == CRLF
  }

  /** Nothing follows but the message's closing line end. */
  predicate Silent(s: Reader) {
    Valid(s) && (Avail(s.net) == [] || Avail(s.net) == CRLF)
  }

  /** And nothing is buffered. */
  predicate Exhausted(s: Reader) {
    Silent(s) && s.pos == s.len
  }

  lemma SilentChunk(s: Reader)
    requires Silent(s)
    ensures ReadNextChunk(s).ret == -1 && Silent(ReadNextChunk(s).s)
  {
    SilentLine(s);
    hide AfterLine, LineFound, SizeText, ScanHex, Send;
  }

  /** No size line, or an empty one. */
  lemma SilentLine(s: Reader)
    requires Silent(s)
    ensures var p, n := Avail(s.net), AfterLine(s).net;
      (LineFound(p) ==> SizeText(p) == []) && (Avail(n) == [] || Avail(n) == CRLF) && n.rdOpen == s.net.rdOpen
  {
    var p := Avail(s.net);
    if p == CRLF {
      assert p[0] == CR && p[1] == LF;
      assert LineStop(p, 0) == 1 by { assert LineStop(p, 1) == 1; }
      assert Nulled(p[..1])[0] == NUL;
      assert s.net.pending[2..] == [];
    } else {
      assert LineStop(p, 0) == 0;
      assert s.net.pending[0..] == s.net.pending;
    }
  }

  /** The returns of n successive calls of `fgetc`, made whatever they return. */
  function FgetcReturns(s: Reader, n: nat): (r: seq<int>)
    requires Valid(s)
    ensures |r| == n
    decreases n
  {
    if n == 0 then [] else var c := FgetcStep(s); [c.ret] + FgetcReturns(c.s, n - 1)
  }

  lemma {:induction false} ExhaustedReturns(s: Reader, n: nat, i: nat)
    requires Exhausted(s) && i < n
    ensures FgetcReturns(s, n)[i] == -1
    decreases n
  {
    SilentChunk(s);
    hide ReadNextChunk;
    if i > 0 {
      ExhaustedReturns(FgetcStep(s).s, n - 1, i - 1);
    }
  }

  /** When the end is met, the positions stay where they were and the tail stays unread. */
  lemma AtTheEnd(s: Reader, last: Piece, tail: seq<Byte>)
    requires Inside(s, [], last, tail)
    ensures var r := ReadNextChunk(s);
      && r.ret == 0 && r.s.pos == s.pos && r.s.len == s.len && r.s.alive
      && r.s.buf == Overlay(s.buf, LineHead(s.net.pending))
      && Avail(r.s.net) == (if s.net.transport.Tls? then tail else [])
  {
    ReadsLast(s, last, tail);
    AfterSizeLine(s, last.size, last.ext, tail);
    ScanHexOfLine(last.size, last.ext);
  }

  lemma FgetcMeetsEnd(s: Reader, last: Piece, tail: seq<Byte>)
    requires Inside(s, [], last, tail) && Closing(s.net.transport, tail) && Unread(s) == []
    ensures FgetcStep(s).ret == -1 && Exhausted(FgetcStep(s).s)
  {
    AtTheEnd(s, last, tail);
    hide ReadNextChunk, LastOk, Encode;
  }

  lemma FgetcTransport(s: Reader)
    requires Valid(s)
    ensures FgetcStep(s).s.net.transport == s.net.transport
  {
    TransportKept(s);
    hide ReadNextChunk;
  }

  /** A client that only calls `fgetc` gets the payload and from then on -1 forever. */
  lemma {:induction false} FgetcForever(s: Reader, left: seq<Piece>, last: Piece, tail: seq<Byte>, n: nat, i: nat)
    requires Inside(s, left, last, tail) && Closing(s.net.transport, tail) && i < n
    ensures FgetcReturns(s, n)[i] == (if i < |Rest(s, left)| then SignedChar(Rest(s, left)[i]) else -1)
    decreases n
  {
    hide FgetcStep, MessageOk, Encode, Payload;
    var left' := FgetcInside(s, left, last, tail);
    var all, c := Rest(s, left), FgetcStep(s);
    if all != [] {
      FgetcReturnsByte(s);
      FgetcTransport(s);
      assert c.bytes[0] == all[0];
      if i > 0 {
        FgetcForever(c.s, left', last, tail, n - 1, i - 1);
      }
    } else {
      if left != [] { PayloadNonempty(left, last); }
      FgetcMeetsEnd(s, last, tail);
      if i > 0 {
        ExhaustedReturns(c.s, n - 1, i - 1);
      }
    }
  }

  lemma FgetcReturnsByte(s: Reader)
    requires Valid(s) && FgetcStep(s).outcome == More
    ensures var c := FgetcStep(s); |c.bytes| == 1 && c.ret == SignedChar(c.bytes[0])
  {
    hide ReadNextChunk;
  }

  lemma PayloadNonempty(pieces: seq<Piece>, last: Piece)
    requires MessageOk(pieces, last) && pieces != []
    ensures Payload(pieces) != []
  {
    assert pieces[0] in pieces;
  }

  // ---------------------------------------------------------------- byte 0xFF looks like the end

  /** The returns up to the first -1, which is where a caller of `fgetc` stops. */
  function UntilEof(rets: seq<int>): seq<int> {
    if rets == [] || rets[0] == -1 then [] else [rets[0]] + UntilEof(rets[1..])
  }

  /** The payload up to its first byte 0xFF. */
  function UntilFF(bytes: seq<Byte>): seq<Byte> {
    if bytes == [] || bytes[0] == 255 then [] else [bytes[0]] + UntilFF(bytes[1..])
  }

  lemma {:induction false} EofAtFF(rets: seq<int>, bytes: seq<Byte>)
    requires |rets| > |bytes|
    requires forall i :: 0 <= i < |rets| ==> rets[i] == (if i < |bytes| then SignedChar(bytes[i]) else -1)
    ensures |UntilEof(rets)| == |UntilFF(bytes)|
    ensures forall i :: 0 <= i < |UntilFF(bytes)| ==> UntilEof(rets)[i] == SignedChar(UntilFF(bytes)[i])
    ensures UntilFF(bytes) == bytes <==> 255 !in bytes
    decreases |bytes|
  {
    if bytes != [] {
      assert rets[0] == SignedChar(bytes[0]);
      EofAtFF(rets[1..], bytes[1..]);
      assert bytes == [bytes[0]] + bytes[1..];
    }
  }

  /** A caller that reads with `fgetc` until -1 gets the payload up to its first byte 0xFF, so it gets
      all of it exactly when no byte of the payload is 0xFF. */
  lemma FgetcLoop(net: Net, pieces: seq<Piece>, last: Piece, tail: seq<Byte>, n: nat)
    requires net.rdOpen && MessageOk(pieces, last) && net.pending == Encode(pieces, last) + tail
    requires Closing(net.transport, tail) && n > |Payload(pieces)|
    ensures var got := UntilEof(FgetcReturns(Fresh(net), n));
      && |got| == |UntilFF(Payload(pieces))|
      && (forall i :: 0 <= i < |got| ==> got[i] == SignedChar(UntilFF(Payload(pieces))[i]))
      && (|got| == |Payload(pieces)| <==> 255 !in Payload(pieces))
  {
    var s, all := Fresh(net), Payload(pieces);
    assert Rest(s, pieces) == all;
    var rets := FgetcReturns(s, n);
    forall i | 0 <= i < n
      ensures rets[i] == (if i < |all| then SignedChar(all[i]) else -1)
    {
      FgetcForever(s, pieces, last, tail, n, i);
    }
    hide FgetcReturns, Payload;
    EofAtFF(rets, all);
    PrefixFF(all);
  }

  /** An instance: the message of the one byte 0xFF. The first `fgetc` delivers it and returns -1. */
  lemma FFExample(transport: Transport)
    ensures var net := Net(transport, Encode([Piece([49], [], [255])], Piece([48], [], [])) + CRLF, [], [], true, true);
      FgetcStep(Fresh(net)).bytes == [255] && FgetcStep(Fresh(net)).ret == -1
  {
    var c, last := Piece([49], [], [255]), Piece([48], [], []);
    ExamplePieces(255);
    var s := Fresh(Net(transport, Encode([c], last) + CRLF, [], [], true, true));
    hide FgetcStep, MessageOk, Encode;
    assert Inside(s, [c], last, CRLF);
    assert Payload([c]) == [255] by { assert [c][1..] == [] && Payload([]) == []; }
    var left' := FgetcInside(s, [c], last, CRLF);
    FgetcReturnsByte(s);
  }

  lemma {:induction false} PrefixFF(bytes: seq<Byte>)
    ensures UntilFF(bytes) <= bytes
  {
    if bytes != [] && bytes[0] != 255 {
      PrefixFF(bytes[1..]);
    }
  }

  // ---------------------------------------------------------------- a short pipe_read is replayed

  /** How many bytes a call that meets the end delivers from the last chunk. */
  ghost function LastPart(s: Reader, left: seq<Piece>): nat
    requires Valid(s)
  {
    if left == [] then |Unread(s)| else |left[|left| - 1].data|
  }

  /** What scanning the last size line leaves at the head of the buffer, over the data. */
  function LastHead(last: Piece): seq<Byte> {
    last.size + last.ext + [NUL, NUL, NUL]
  }

  function Covered(data: seq<Byte>, head: seq<Byte>): (r: seq<Byte>)
    ensures |r| == |data|
  {
    seq(|data|, i requires 0 <= i < |data| => if i < |head| then head[i] else data[i])
  }

  /** The bytes at the unmoved position after the end: the last chunk under the last size line. */
  ghost function Stale(s: Reader, left: seq<Piece>, last: Piece): (r: seq<Byte>)
    requires Valid(s)
    ensures |r| == LastPart(s, left)
  {
    if left == [] then Covered(s.buf, LastHead(last))[s.pos..s.len]
    else Covered(left[|left| - 1].data, LastHead(last))
  }

  lemma LastLineHead(last: Piece, tail: seq<Byte>)
    requires LastOk(last)
    ensures LineHead(last.size + last.ext + CRLF + tail) == LastHead(last) && |LastHead(last)| < MAX
  {
    var p, text := last.size + last.ext + CRLF + tail, last.size + last.ext;
    SizeLineRead(last.size, last.ext, tail);
    NumeralBytes(last.size);
    assert p[..|text| + 1] == text + [CR];
    assert forall i :: 0 <= i < |text| ==> text[i] in last.size || text[i] in last.ext;
    assert Nulled(text + [CR]) == text + [NUL];
  }

  lemma CoveredAtEnd(s: Reader, last: Piece, tail: seq<Byte>)
    requires Inside(s, [], last, tail)
    ensures Unread(ReadNextChunk(s).s) == Stale(s, [], last)
  {
    AtTheEnd(s, last, tail);
    LastLineHead(last, tail);
    hide ReadNextChunk, LineHead, LastOk;
    assert Overlay(s.buf, LastHead(last)) == Covered(s.buf, LastHead(last));
  }

  lemma StaleAfterLast(s: Reader, c: Piece, last: Piece)
    requires Valid(s) && s.pos == 0 && Unread(s) == c.data
    ensures Stale(s, [], last) == Stale(s, [c], last)
  {
    assert forall i :: 0 <= i < s.len ==> s.buf[i] == Unread(s)[i];
  }

  /** After a `read_next` that met the end, the reader still counts as unread what that call had
      already delivered from the last chunk. */
  lemma {:induction false} EndKeepsPosition(s: Reader, left: seq<Piece>, last: Piece, tail: seq<Byte>, n: nat)
    requires Inside(s, left, last, tail) && n > |Rest(s, left)|
    ensures var s' := ReadNext(s, n).s;
      && s'.alive && Unread(s') == Stale(s, left, last)
      && Avail(s'.net) == (if s.net.transport.Tls? then tail else [])
    decreases |left|
  {
    hide ReadNext, ReadNextChunk, MessageOk, Encode, Payload, Avail, Covered;
    ReadsOver(s, n);
    if left == [] {
      AtTheEnd(s, last, tail);
      CoveredAtEnd(s, last, tail);
    } else {
      NextPiece(s, left, last, tail);
      TransportKept(s);
      var c := ReadNextChunk(s);
      EndKeepsPosition(c.s, left[1..], last, tail, n - |Unread(s)|);
      var left' := ReadNextInside(c.s, left[1..], last, tail, n - |Unread(s)|);
      if left[1..] == [] {
        StaleAfterLast(c.s, left[0], last);
      }
    }
  }

  lemma LastPartEmpty(s: Reader, left: seq<Piece>, last: Piece)
    requires Valid(s) && MessageOk(left, last)
    ensures LastPart(s, left) == 0 <==> Rest(s, left) == []
  {
    if left != [] {
      PayloadNonempty(left, last);
      assert left[|left| - 1] in left;
    }
  }

  lemma TransportKept(s: Reader)
    requires Valid(s)
    ensures ReadNextChunk(s).s.net.transport == s.net.transport
  {
    hide ScanHex, SizeText;
  }

  /** Asking on after the end. The call that met it had delivered `LastPart` bytes from the last chunk,
      and none exactly if it returned 0. A further `pipe_read` of m bytes delivers m bytes that the message
      does not hold if m is at most that many, namely those of the last chunk with the last size line written
      over the head of the buffer; and it fails otherwise. */
  lemma ShortReadIsReplayed(s: Reader, left: seq<Piece>, last: Piece, tail: seq<Byte>, n: nat, m: nat)
    requires Inside(s, left, last, tail) && Closing(s.net.transport, tail) && n > |Rest(s, left)| && m >= 1
    ensures var first := PipeReadStep(s, 1, n); var next := PipeReadStep(first.s, 1, m);
      && first.outcome == Ended && first.bytes == Rest(s, left)
      && (first.ret == 0 <==> LastPart(s, left) == 0)
      && next.ret == (if m <= LastPart(s, left) then m else -1)
      && next.bytes == (if m <= LastPart(s, left) then Stale(s, left, last)[..m] else [])
  {
    hide ReadNextChunk, ReadNext, MessageOk, Encode, Payload;
    var left' := ReadNextInside(s, left, last, tail, n);
    EndKeepsPosition(s, left, last, tail, n);
    LastPartEmpty(s, left, last);
    var s' := ReadNext(s, n).s;
    assert 1 * n == n && 1 * m == m;
    if m <= |Unread(s')| {
      ServesHere(s', m, []);
    } else {
      SilentChunk(s');
      ReadsOver(s', m);
    }
  }

  /** An instance: the message "A" read with a request of two bytes, then one more byte. The second
      call delivers the digit of the last size line. */
  lemma ReplayExample(transport: Transport)
    ensures var A: Byte := 65; var zero: Byte := 48;
      var c, last := Piece([49], [], [A]), Piece([zero], [], []);
      var net := Net(transport, Encode([c], last) + CRLF, [], [], true, true);
      var first := PipeReadStep(Fresh(net), 1, 2);
      first.bytes == [A] && first.outcome == Ended && PipeReadStep(first.s, 1, 1).bytes == [zero]
  {
    var A: Byte, zero: Byte := 65, 48;
    var c, last := Piece([49], [], [A]), Piece([zero], [], []);
    ExamplePieces(65);
    var s := Fresh(Net(transport, Encode([c], last) + CRLF, [], [], true, true));
    NextPiece(s, [c], last, CRLF);
    var s1 := ReadNextChunk(s).s;
    assert [c][1..] == [] && Payload([c]) == [A] && Payload([]) == [];
    assert Inside(s1, [], last, CRLF) && Unread(s1) == [A];
    hide ReadNextChunk, Encode, MessageOk;
    ReplaysDigit(s1, last, A);
    assert Unread(s) == [];
    ReadsOver(s, 2);
  }

  lemma ExamplePieces(b: Byte)
    ensures MessageOk([Piece([49], [], [b])], Piece([48], [], []))
  {
    assert HexValue([]) == 0;
    var one: seq<Byte>, zero: seq<Byte> := [49], [48];
    assert one[..0] == [] && zero[..0] == [];
    assert HexValue(one) == 1 && HexValue(zero) == 0;
  }

  lemma ReplaysDigit(s: Reader, last: Piece, b: Byte)
    requires Inside(s, [], last, CRLF) && Unread(s) == [b] && s.pos == 0
    ensures var r := ReadNext(s, 2);
      r.out == [b] && r.ret == 1 && PipeReadStep(r.s, 1, 1).bytes == [last.size[0]]
  {
    AtTheEnd(s, last, CRLF);
    SizeLineRead(last.size, last.ext, CRLF);
    var p := s.net.pending;
    assert p[0] == last.size[0] != CR by { assert last.size[0] in last.size; }
    assert LineHead(p)[0] == last.size[0];
    hide ReadNextChunk, Encode, LineHead, MessageOk;
    ReadsOver(s, 2);
    var s' := ReadNextChunk(s).s;
    assert s'.buf[0] == last.size[0];
    ServesHere(s', 1, []);
  }

  // ---------------------------------------------------------------- the sender is told

  /** The network after the end has been met: the tail unread, success answered, the write side shut. */
  function Acknowledged(n: Net, tail: seq<Byte>): Net {
    ShutdownWr(Send(n.(pending := tail), OK_ANSWER).net)
  }

  lemma NextPieceQuiet(s: Reader, left: seq<Piece>, last: Piece, tail: seq<Byte>)
    requires Inside(s, left, last, tail) && left != []
    ensures ReadNextChunk(s).s.net == s.net.(pending := ReadNextChunk(s).s.net.pending)
  {
    hide ReadNextChunk, PieceOk, LastOk;
    assert left[0] in left;
    assert s.net.pending == EncodePiece(left[0]) + (Encode(left[1..], last) + tail);
    ReadsPiece(s, left[0], Encode(left[1..], last) + tail);
  }

  lemma LastAcknowledges(s: Reader, last: Piece, tail: seq<Byte>)
    requires Inside(s, [], last, tail)
    ensures ReadNextChunk(s).s.net == Acknowledged(s.net, tail)
  {
    ReadsLast(s, last, tail);
  }

  lemma {:induction false} ReadAcknowledges(s: Reader, left: seq<Piece>, last: Piece, tail: seq<Byte>, n: nat)
    requires Inside(s, left, last, tail)
    ensures var net := ReadNext(s, n).s.net;
      net == if n <= |Rest(s, left)| then s.net.(pending := net.pending) else Acknowledged(s.net, tail)
    decreases |left|
  {
    hide ReadNext, ReadNextChunk, MessageOk, Encode, Acknowledged;
    var rest := |Unread(s)|;
    if n <= rest {
      ServesHere(s, n, Payload(left));
    } else {
      ReadsOver(s, n);
      if left == [] {
        NoNextPiece(s, last, tail);
        LastAcknowledges(s, last, tail);
      } else {
        NextPiece(s, left, last, tail);
        NextPieceQuiet(s, left, last, tail);
        var c := ReadNextChunk(s).s;
        ReadAcknowledges(c, left[1..], last, tail, n - rest);
        AcknowledgesFrame(s.net, c.net, tail);
      }
    }
  }

  lemma AcknowledgesFrame(n: Net, n': Net, tail: seq<Byte>)
    requires n' == n.(pending := n'.pending)
    ensures Acknowledged(n', tail) == Acknowledged(n, tail)
  {
    assert n'.(pending := tail) == n.(pending := tail);
  }

  lemma FgetcAcknowledges(s: Reader, left: seq<Piece>, last: Piece, tail: seq<Byte>)
    requires Inside(s, left, last, tail)
    ensures var net := FgetcStep(s).s.net;
      net == if Rest(s, left) != [] then s.net.(pending := net.pending) else Acknowledged(s.net, tail)
  {
    hide ReadNextChunk, MessageOk, Encode, Acknowledged;
    if |Unread(s)| == 0 {
      if left == [] {
        NoNextPiece(s, last, tail);
        LastAcknowledges(s, last, tail);
      } else {
        NextPiece(s, left, last, tail);
        NextPieceQuiet(s, left, last, tail);
        PayloadNonempty(left, last);
      }
    }
  }

  lemma {:induction false} RunAcknowledges(s: Reader, left: seq<Piece>, last: Piece, tail: seq<Byte>, calls: seq<Call>)
    requires Inside(s, left, last, tail)
    ensures var net := Run(s, calls).s.net;
      net == if Demand(calls) <= |Rest(s, left)| then s.net.(pending := net.pending) else Acknowledged(s.net, tail)
    decreases |calls|
  {
    hide ReadNext, FgetcStep, MessageOk, Encode, Acknowledged, Rest;
    if calls != [] {
      match calls[0] {
        case Fgetc => FgetcAcknowledges(s, left, last, tail);
        case PipeRead(size, nitems) => ReadAcknowledges(s, left, last, tail, size * nitems);
      }
      var left' := CallInside(s, left, last, tail, calls[0]);
      if Request(calls[0]) <= |Rest(s, left)| {
        var c := DoCall(s, calls[0]).s;
        RunAcknowledges(c, left', last, tail, calls[1..]);
        AcknowledgesFrame(s.net, c.net, tail);
      }
    }
  }

  /** Reading a message says nothing to the sender until its end is met, and then "200 OK", once. */
  lemma CompleteIsAcknowledged(net: Net, pieces: seq<Piece>, last: Piece, tail: seq<Byte>, calls: seq<Call>)
    requires net.rdOpen && net.wrOpen && net.plan == []
    requires MessageOk(pieces, last) && net.pending == Encode(pieces, last) + tail
    ensures var r := Run(Fresh(net), calls);
      && r.s.net.wire == net.wire + (if r.outcome == Ended then OK_ANSWER else [])
      && (r.s.net.wrOpen <==> r.outcome != Ended)
  {
    var s := Fresh(net);
    assert Rest(s, pieces) == Payload(pieces);
    RunAcknowledges(s, pieces, last, tail, calls);
    RunInside(s, pieces, last, tail, calls);
    hide Run, Encode, MessageOk;
    assert OK_ANSWER[..|OK_ANSWER|] == OK_ANSWER;
    assert net.wire + [] == net.wire;
  }

  // ---------------------------------------------------------------- header and body

  /** The whole of a transfer: `start` skips exactly the request header, whatever follows it, and any calls
      then deliver the payload and the end as they would without a header. */
  lemma StartThenRead(net: Net, header: seq<Byte>, pieces: seq<Piece>, last: Piece, tail: seq<Byte>, calls: seq<Call>)
    requires net.rdOpen && IsHeader(header, |header|) && MessageOk(pieces, last)
    requires net.pending == header + (Encode(pieces, last) + tail)
    ensures HeaderLength(Avail(net)).Some?
    ensures var r := Run(AfterHeader(Fresh(net)), calls);
      && r.out == Payload(pieces)[..Min(Demand(calls), |Payload(pieces)|)]
      && r.outcome == (if Demand(calls) <= |Payload(pieces)| then More else Ended)
  {
    hide Run, IsHeader, MessageOk, Encode, Payload, Demand;
    HeaderExtends(header, Encode(pieces, last) + tail);
    var body := net.(pending := net.pending[|header|..]);
    assert AfterHeader(Fresh(net)) == Fresh(body);
    DecodesPayload(body, pieces, last, tail, calls);
  }
}
