/** What the peer is told: at most one answer per connection, for any input and any calls. */
module ReaderAnswers {
  import opened Bytes
  import opened Network
  import opened SizeLine
  import opened Wrappers
  import opened ChunkDecoder
  import opened ChunkCoding

  /** The reader after a list of calls, made regardless of what each of them reports. */
  function After(s: Reader, calls: seq<Call>): (s': Reader)
    requires Valid(s)
    ensures Valid(s')
    decreases |calls|
  {
    if calls == [] then s else After(DoCall(s, calls[0]).s, calls[1..])
  }

  /** Reading the input as a chunked message, without a reader: size lines and the data they announce,
      one after the other from the start, up to a size line of zero. The result is the offset behind
      that line; there is none if a line is missing or unreadable, a size is refused, or data is missing. */
  function ZeroEnd(p: seq<Byte>): (z: Option<nat>)
    ensures z.Some? ==> z.value <= |p|
    decreases |p|
  {
    if !LineFound(p) then None
    else
      var i, text := LineStop(p, 0) + 1, SizeText(p);
      if text == [] || ScanHex(text).None? then None
      else if ScanHex(text).value == 0 then Some(i)
      else
        var want := (ScanHex(text).value + 2) % TWO_32;
        if want < 3 || want > MAX || |p| - i < want then None
        else
          var z := ZeroEnd(p[i + want..]);
          if z.Some? then Some(i + want + z.value) else None
  }

  /** The answer that an input calls for. */
  function Verdict(n: Net): seq<Byte> {
    if ZeroEnd(Avail(n)).Some? then OK_ANSWER else ERROR_ANSWER
  }

  ghost predicate Consumed(n: Net, n': Net) {
    |n'.pending| <= |n.pending| && n'.pending == n.pending[|n.pending| - |n'.pending|..]
  }

  /** The same message is still being read, `d` bytes further on. */
  ghost predicate SameMessage(n: Net, n': Net, d: nat) {
    var z, z' := ZeroEnd(Avail(n)), ZeroEnd(Avail(n'));
    z == if z'.Some? then Some(z'.value + d) else None
  }

  /** While the write side is open nothing has been said and the reader stands at a size line of the
      message; it is shut by the one answer that the message calls for, success only once its size line
      of zero has been consumed; and nothing is said after that. */
  ghost predicate Honest(n: Net, n': Net) {
    var d := |n.pending| - |n'.pending|;
    && Consumed(n, n') && (n.plan == [] ==> n'.plan == [])
    && (!n.wrOpen ==> !n'.wrOpen && n'.wire == n.wire)
    && (n'.wrOpen ==> n'.wire == n.wire && SameMessage(n, n', d))
    && (n.wrOpen && !n'.wrOpen ==>
         && n.wire <= n'.wire && n'.wire[|n.wire|..] <= Verdict(n)
         && (n.plan == [] ==> n'.wire == n.wire + Verdict(n))
         && (ZeroEnd(Avail(n)).Some? ==> ZeroEnd(Avail(n)).value <= d))
  }

  lemma HonestSame(n: Net)
    ensures Honest(n, n)
  {
    assert n.pending[0..] == n.pending;
  }

  lemma HonestTrans(a: Net, b: Net, c: Net)
    requires Honest(a, b) && Honest(b, c)
    ensures Honest(a, c)
  {
    hide ZeroEnd, Avail;
    ConsumedTrans(a, b, c);
    hide Consumed;
    if b.wrOpen && a.wrOpen {
      assert Verdict(a) == Verdict(b);
    }
  }

  lemma ConsumedTrans(a: Net, b: Net, c: Net)
    requires Consumed(a, b) && Consumed(b, c)
    ensures Consumed(a, c)
    ensures |c.pending| <= |b.pending| <= |a.pending|
  {
  }

  /** Sending an answer and shutting the write side. */
  lemma AnswerOnce(n: Net, answer: seq<Byte>)
    ensures var n' := ShutdownWr(Send(n, answer).net);
      && n'.pending == n.pending && !n'.wrOpen && (n.plan == [] ==> n'.plan == [])
      && (n.wrOpen ==> n.wire <= n'.wire && n'.wire[|n.wire|..] <= answer)
      && (n.wrOpen && n.plan == [] ==> n'.wire == n.wire + answer)
      && (!n.wrOpen ==> n'.wire == n.wire)
  {
    assert answer[..|answer|] == answer;
  }

  /** Receiving leaves everything but the input alone. */
  predicate Quiet(n: Net, n': Net) {
    n' == n.(pending := n'.pending)
  }

  lemma AnswerHonest(n: Net, m: Net, answer: seq<Byte>)
    requires Quiet(n, m) && Consumed(n, m) && answer == Verdict(n)
    requires ZeroEnd(Avail(n)).Some? ==> ZeroEnd(Avail(n)).value <= |n.pending| - |m.pending|
    ensures Honest(n, ShutdownWr(Send(m, answer).net))
  {
    hide ZeroEnd;
    AnswerOnce(m, answer);
    hide Send, ShutdownWr;
  }

  lemma RejectHonest(s: Reader, n: Net)
    requires Quiet(n, s.net) && Consumed(n, s.net) && ZeroEnd(Avail(n)).None?
    ensures Honest(n, Reject(s).s.net)
  {
    hide ZeroEnd, Honest;
    AnswerHonest(n, s.net, ERROR_ANSWER);
  }

  lemma LineQuiet(s: Reader)
    requires Valid(s)
    ensures var p, n, m := Avail(s.net), s.net, AfterLine(s).net;
      && Quiet(n, m) && Consumed(n, m)
      && (LineFound(p) ==> Avail(m) == p[LineStop(p, 0) + 1..] && |n.pending| - |m.pending| == LineStop(p, 0) + 1)
  {
  }

  /** The size line of data: the message goes on behind the data, or ends here if it is not all there. */
  lemma ZeroFurtherOn(p: seq<Byte>, i: nat, want: nat)
    requires LineFound(p) && i == LineStop(p, 0) + 1 <= |p| && SizeText(p) != []
    requires ScanHex(SizeText(p)).Some? && ScanHex(SizeText(p)).value != 0
    requires want == (ScanHex(SizeText(p)).value + 2) % TWO_32 <= MAX
    ensures want < 3 || |p| - i < want ==> ZeroEnd(p).None?
    ensures want >= 3 && |p| - i >= want ==>
      var z := ZeroEnd(p[i + want..]); ZeroEnd(p) == if z.Some? then Some(i + want + z.value) else None
  {
    hide LineFound, LineStop, SizeText, ScanHex;
  }

  /** The state that a data line leads to: its data is next in the input. */
  ghost predicate AtData(s: Reader, n: Net, want: nat) {
    var p := Avail(n);
    && Valid(s) && want <= MAX && Quiet(n, s.net) && Consumed(n, s.net)
    && LineFound(p) && Avail(s.net) == p[LineStop(p, 0) + 1..]
    && |n.pending| - |s.net.pending| == LineStop(p, 0) + 1
    && SizeText(p) != [] && ScanHex(SizeText(p)).Some? && ScanHex(SizeText(p)).value != 0
    && want == (ScanHex(SizeText(p)).value + 2) % TWO_32
  }

  /** Receiving `want` bytes: all of them, or what there was. */
  lemma Taken(n: Net, m: Net, want: nat)
    requires Quiet(n, m) && Consumed(n, m)
    ensures var r, have := Recv(m, want), |Avail(m)|;
      && Quiet(n, r.net) && Consumed(n, r.net) && |r.net.pending| <= |m.pending|
      && (have >= want ==> Avail(r.net) == Avail(m)[want..])
      && (have >= want >= 1 && m.rdOpen ==> r.ret == want && |m.pending| - |r.net.pending| == want)
      && (have < want ==> Avail(r.net) == []) && (r.ret >= 3 ==> m.rdOpen) && r.ret <= want
  {
    var r, k := Recv(m, want), |n.pending| - |m.pending|;
    assert n.pending[k..][|r.got|..] == n.pending[k + |r.got|..];
  }

  lemma DataTaken(s: Reader, want: nat, n: Net)
    requires AtData(s, n, want)
    ensures var r := Recv(s.net, want);
      && Quiet(n, r.net) && Consumed(n, r.net)
      && (r.ret < 3 ==> ZeroEnd(Avail(n)).None?)
      && (r.ret >= 3 ==> SameMessage(n, r.net, |n.pending| - |r.net.pending|))
  {
    hide AtData, LineStop, ZeroEnd, Recv;
    var p, i := AtDataMeans(s, want, n);
    NoMessage();
    Taken(n, s.net, want);
    hide Consumed, Quiet, Avail;
    if want >= 3 && |p| - i >= want {
      assert p[i..][want..] == p[i + want..];
    }
  }

  lemma AtDataMeans(s: Reader, want: nat, n: Net) returns (p: seq<Byte>, i: nat)
    requires AtData(s, n, want)
    ensures p == Avail(n) && i <= |p| && Avail(s.net) == p[i..] && |n.pending| - |s.net.pending| == i
    ensures s.net.rdOpen && Quiet(n, s.net) && Consumed(n, s.net)
    ensures want < 3 || |p| - i < want ==> ZeroEnd(p).None?
    ensures want >= 3 && |p| - i >= want ==>
      var z := ZeroEnd(p[i + want..]); ZeroEnd(p) == if z.Some? then Some(i + want + z.value) else None
  {
    hide ScanHex, SizeText, ZeroEnd;
    p, i := Avail(n), LineStop(Avail(n), 0) + 1;
    ZeroFurtherOn(p, i, want);
  }

  /** Data behind a readable size line: taken, and the message goes on behind it; or it is not all
      there, and then the message has no end. */
  lemma DataHonest(s: Reader, want: nat, n: Net)
    requires AtData(s, n, want) && Valid(s) && want <= MAX
    ensures Honest(n, ReceiveData(s, want).s.net)
  {
    hide AtData, SameMessage, Recv, ZeroEnd, Honest, Consumed, Quiet, Reject;
    var r := Recv(s.net, want);
    DataTaken(s, want, n);
    if r.ret < 3 {
      RejectHonest(s.(buf := Overlay(s.buf, r.got), net := r.net), n);
    } else {
      GoesOn(n, r.net);
    }
  }

  lemma NoMessage()
    ensures ZeroEnd([]).None?
  {
  }

  lemma GoesOn(n: Net, m: Net)
    requires Quiet(n, m) && Consumed(n, m) && SameMessage(n, m, |n.pending| - |m.pending|)
    ensures Honest(n, m)
  {
    hide ZeroEnd;
  }

  lemma ChunkHonest(s: Reader)
    requires Valid(s)
    ensures Honest(s.net, ReadNextChunk(s).s.net)
  {
    hide AfterLine, ReceiveData, Reject, ScanHex, SizeText, Honest, Quiet, Send, LineFound;
    HonestSame(s.net);
    LineQuiet(s);
    var n, p, s' := s.net, Avail(s.net), AfterLine(s);
    var text := SizeText(p);
    if !s.alive {
    } else if !LineFound(p) || text == [] || ScanHex(text).None? {
      RejectHonest(s', n);
    } else if ScanHex(text).value == 0 {
      AnswerHonest(n, s'.net, OK_ANSWER);
    } else {
      var want := (ScanHex(text).value + 2) % TWO_32;
      if want > MAX {
        RejectHonest(s', n);
      } else {
        DataHonest(s', want, n);
      }
    }
  }

  lemma {:induction false} ReadHonest(s: Reader, n: nat)
    requires Valid(s)
    ensures Honest(s.net, ReadNext(s, n).s.net)
    decreases |s.net.pending|
  {
    hide ReadNextChunk, Honest;
    HonestSame(s.net);
    if n > s.len - s.pos {
      ChunkHonest(s);
      var c := ReadNextChunk(s);
      if c.ret > 0 {
        var rest := n - (s.len - s.pos);
        ReadHonest(c.s, rest);
        HonestTrans(s.net, c.s.net, ReadNext(c.s, rest).s.net);
      }
    }
  }

  lemma CallHonest(s: Reader, call: Call)
    requires Valid(s)
    ensures Honest(s.net, DoCall(s, call).s.net)
  {
    hide ReadNextChunk, ReadNext, Honest;
    match call
    case Fgetc => HonestSame(s.net); ChunkHonest(s);
    case PipeRead(size, nitems) => ReadHonest(s, size * nitems);
  }

  lemma {:induction false} RunHonest(s: Reader, calls: seq<Call>)
    requires Valid(s)
    ensures Honest(s.net, After(s, calls).net)
    decreases |calls|
  {
    hide DoCall, Honest;
    HonestSame(s.net);
    if calls != [] {
      var s1 := DoCall(s, calls[0]).s;
      CallHonest(s, calls[0]);
      RunHonest(s1, calls[1..]);
      HonestTrans(s.net, s1.net, After(s1, calls[1..]).net);
    }
  }

  /** One answer per connection: for any input and any calls, before and after the end, the peer gets
      at most one answer, and the input alone decides which. It is "200 OK" if and only if the input,
      read as size lines and data from its start, comes to a size line of zero, and then that line has
      been consumed. When the network takes what is sent, the peer gets it whole. */
  lemma OneAnswer(s: Reader, calls: seq<Call>)
    requires Valid(s)
    ensures var n, n' := s.net, After(s, calls).net;
      var z, answer := ZeroEnd(Avail(n)), n'.wire[if |n.wire| <= |n'.wire| then |n.wire| else 0..];
      && n.wire <= n'.wire
      && answer <= (if z.Some? then OK_ANSWER else ERROR_ANSWER)
      && (answer != [] ==> n.wrOpen && !n'.wrOpen && (z.Some? ==> z.value <= |n.pending| - |n'.pending|))
      && (n.plan == [] && n.wrOpen && !n'.wrOpen ==> answer == if z.Some? then OK_ANSWER else ERROR_ANSWER)
  {
    RunHonest(s, calls);
    hide ZeroEnd, After;
  }

  // ---------------------------------------------------------------- the encoder's messages

  lemma AvailOpen(p: seq<Byte>, size: seq<Byte>, ext: seq<Byte>, rest: seq<Byte>)
    requires SizeLineOk(size, ext) && HexValue(size) < TWO_32 && p == size + ext + CRLF + rest
    ensures LineFound(p) && LineStop(p, 0) + 1 == |size| + |ext| + 2
    ensures SizeText(p) == size + ext != [] && ScanHex(size + ext) == Some(HexValue(size))
    ensures p[LineStop(p, 0) + 1..] == rest
  {
    SizeLineRead(size, ext, rest);
    ScanHexOfLine(size, ext);
    NumeralNonempty(size);
  }

  lemma ZeroHere(p: seq<Byte>, i: nat)
    requires LineFound(p) && i == LineStop(p, 0) + 1 && SizeText(p) != [] && ScanHex(SizeText(p)) == Some(0)
    ensures ZeroEnd(p) == Some(i)
  {
    hide LineFound, LineStop, SizeText, ScanHex;
  }

  /** The encoder's messages come to their zero line exactly at their end. */
  lemma {:induction false} EncodedHasEnd(pieces: seq<Piece>, last: Piece, tail: seq<Byte>)
    requires MessageOk(pieces, last)
    ensures ZeroEnd(Encode(pieces, last) + tail) == Some(|Encode(pieces, last)|)
    decreases |pieces|
  {
    hide LineFound, LineStop, SizeText, ScanHex, ZeroEnd, EncodePiece, PieceOk, LastOk;
    var p := Encode(pieces, last) + tail;
    if pieces == [] {
      LastHasEnd(last, tail);
    } else {
      var c := pieces[0];
      assert c in pieces;
      PieceHasEnd(c, Encode(pieces[1..], last) + tail);
      EncodedHasEnd(pieces[1..], last, tail);
      assert p == EncodePiece(c) + (Encode(pieces[1..], last) + tail);
    }
  }

  lemma LastHasEnd(last: Piece, tail: seq<Byte>)
    requires LastOk(last)
    ensures ZeroEnd(last.size + last.ext + CRLF + tail) == Some(|last.size + last.ext + CRLF|)
  {
    hide LineFound, LineStop, SizeText, ScanHex, ZeroEnd;
    var p := last.size + last.ext + CRLF + tail;
    AvailOpen(p, last.size, last.ext, tail);
    ZeroHere(p, |last.size| + |last.ext| + 2);
  }

  lemma PieceHasEnd(c: Piece, more: seq<Byte>)
    requires PieceOk(c)
    ensures var z := ZeroEnd(more);
      ZeroEnd(EncodePiece(c) + more) == if z.Some? then Some(|EncodePiece(c)| + z.value) else None
  {
    hide LineFound, LineStop, SizeText, ScanHex, ZeroEnd, HexValue, SizeLineOk, EncodePiece;
    var p, i := EncodePiece(c) + more, |c.size| + |c.ext| + 2;
    PieceSlices(c, more);
    AvailOpen(p, c.size, c.ext, c.data + CRLF + more);
    NoWrap(|c.data|);
    ZeroFurtherOn(p, i, |c.data| + 2);
  }

  lemma PieceSlices(c: Piece, more: seq<Byte>)
    ensures var p, i := EncodePiece(c) + more, |c.size| + |c.ext| + 2;
      && p == c.size + c.ext + CRLF + (c.data + CRLF + more)
      && |EncodePiece(c)| == i + (|c.data| + 2) && p[i + (|c.data| + 2)..] == more
  {
  }
}
