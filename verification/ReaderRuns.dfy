/** Whole runs of the chunk reader: what any sequence of `fgetc` and `pipe_read` calls delivers. */
module ReaderRuns {
  import opened Bytes
  import opened Division
  import opened Network
  import opened SizeLine
  import opened ChunkDecoder
  import opened ChunkCoding

  datatype RunResult = RunResult(s: Reader, out: seq<Byte>, outcome: Outcome)

  /** Make the calls in order, up to and including the first that reports the end or an error. */
  function Run(s: Reader, calls: seq<Call>): (r: RunResult)
    requires Valid(s)
    ensures Valid(r.s)
    decreases |calls|
  {
    if calls == [] then RunResult(s, [], More)
    else
      var c := DoCall(s, calls[0]);
      if c.outcome != More then RunResult(c.s, c.bytes, c.outcome)
      else
        var r := Run(c.s, calls[1..]);
        RunResult(r.s, c.bytes + r.out, r.outcome)
  }

  /** How many bytes a call asks for. */
  function Request(call: Call): nat {
    match call
    case Fgetc => 1
    case PipeRead(size, nitems) => size * nitems
  }

  function Demand(calls: seq<Call>): nat {
    if calls == [] then 0 else Request(calls[0]) + Demand(calls[1..])
  }

  // ---------------------------------------------------------------- a complete message

  /** The reader stands inside a message: `left` is still to come, behind it any `tail`. */
  ghost predicate Inside(s: Reader, left: seq<Piece>, last: Piece, tail: seq<Byte>) {
    Live(s) && MessageOk(left, last) && s.net.pending == Encode(left, last) + tail
  }

  ghost function Rest(s: Reader, left: seq<Piece>): seq<Byte>
    requires Valid(s)
  {
    Unread(s) + Payload(left)
  }

  lemma NextPiece(s: Reader, left: seq<Piece>, last: Piece, tail: seq<Byte>)
    requires Inside(s, left, last, tail) && left != []
    ensures var r := ReadNextChunk(s);
      && r.ret > 0 && Inside(r.s, left[1..], last, tail) && Rest(r.s, left[1..]) == Payload(left)
      && Unread(r.s) == left[0].data
  {
    hide ReadNextChunk, PieceOk, LastOk;
    assert left[0] in left;
    assert s.net.pending == EncodePiece(left[0]) + (Encode(left[1..], last) + tail);
    ReadsPiece(s, left[0], Encode(left[1..], last) + tail);
  }

  lemma NoNextPiece(s: Reader, last: Piece, tail: seq<Byte>)
    requires Inside(s, [], last, tail)
    ensures ReadNextChunk(s).ret == 0
  {
    ReadsLast(s, last, tail);
  }

  /** One `read_next` inside a message serves exactly what was asked for, or all there is. */
  lemma {:induction false} ReadNextInside(s: Reader, left: seq<Piece>, last: Piece, tail: seq<Byte>, n: nat)
    returns (left': seq<Piece>)
    requires Inside(s, left, last, tail)
    ensures var r, all := ReadNext(s, n), Rest(s, left);
      if n <= |all| then
        r.out == all[..n] && r.ret == n && Inside(r.s, left', last, tail) && Rest(r.s, left') == all[n..]
      else r.out == all && r.ret == |all|
    decreases |left|
  {
    hide ReadNext, ReadNextChunk, MessageOk, Encode;
    left' := left;
    var all, rest := Rest(s, left), |Unread(s)|;
    if n <= rest {
      ServesHere(s, n, Payload(left));
      return;
    }
    ReadsOver(s, n);
    if left == [] {
      NoNextPiece(s, last, tail);
    } else {
      NextPiece(s, left, last, tail);
      var c := ReadNextChunk(s);
      left' := ReadNextInside(c.s, left[1..], last, tail, n - rest);
      ServesOn(all, Unread(s), Rest(c.s, left[1..]), n);
    }
  }

  /** A request within the current chunk takes its first bytes. */
  lemma ServesHere(s: Reader, n: nat, rest: seq<Byte>)
    requires Valid(s) && n <= |Unread(s)|
    ensures var r, all := ReadNext(s, n), Unread(s) + rest;
      && r.ret == n && r.out == all[..n] && r.s == s.(pos := s.pos + n) && Unread(r.s) + rest == all[n..]
  {
    hide ReadNextChunk;
    Slices(s.buf, s.pos, s.len, n, rest);
  }

  lemma Slices(b: seq<Byte>, lo: nat, hi: nat, n: nat, rest: seq<Byte>)
    requires lo + n <= hi <= |b|
    ensures (b[lo..hi] + rest)[..n] == b[lo..lo + n]
    ensures (b[lo..hi] + rest)[n..] == b[lo + n..hi] + rest
  {
  }

  /** A request beyond the current chunk, unfolded once. */
  lemma ReadsOver(s: Reader, n: nat)
    requires Valid(s) && n > |Unread(s)|
    ensures var r, c := ReadNext(s, n), ReadNextChunk(s);
      && (c.ret == 0 ==> r == ReadStep(c.s, Unread(s), |Unread(s)|))
      && (c.ret < 0 ==> r.ret == -1)
      && (c.ret > 0 ==> var q := ReadNext(c.s, n - |Unread(s)|);
           r.s == q.s && (q.ret < 0 ==> r.ret == -1)
           && (q.ret >= 0 ==> r.ret == |Unread(s)| + q.ret && r.out == Unread(s) + q.out))
  {
    hide ReadNextChunk;
  }

  /** A request that runs past the current chunk continues in the next one. */
  lemma ServesOn(all: seq<Byte>, unread: seq<Byte>, rest: seq<Byte>, n: nat)
    requires all == unread + rest && |unread| < n
    ensures n <= |all| ==> all[..n] == unread + rest[..n - |unread|] && all[n..] == rest[n - |unread|..]
  {
  }

  lemma FgetcInside(s: Reader, left: seq<Piece>, last: Piece, tail: seq<Byte>) returns (left': seq<Piece>)
    requires Inside(s, left, last, tail)
    ensures var r, all := FgetcStep(s), Rest(s, left);
      if all != [] then
        r.bytes == all[..1] && r.outcome == More && Inside(r.s, left', last, tail) && Rest(r.s, left') == all[1..]
      else r.bytes == [] && r.outcome == Ended
  {
    hide ReadNextChunk, MessageOk, Encode;
    left' := left;
    if |Unread(s)| == 0 {
      if left == [] {
        NoNextPiece(s, last, tail);
      } else {
        NextPiece(s, left, last, tail);
        left' := left[1..];
      }
    }
  }

  lemma CallInside(s: Reader, left: seq<Piece>, last: Piece, tail: seq<Byte>, call: Call) returns (left': seq<Piece>)
    requires Inside(s, left, last, tail)
    ensures var r, all, n := DoCall(s, call), Rest(s, left), Request(call);
      if n <= |all| then
        r.bytes == all[..n] && r.outcome == More && Inside(r.s, left', last, tail) && Rest(r.s, left') == all[n..]
      else r.bytes == all && r.outcome == Ended
  {
    hide ReadNext, ReadNextChunk, Inside;
    match call
    case Fgetc => left' := FgetcInside(s, left, last, tail);
    case PipeRead(size, nitems) => left' := ReadNextInside(s, left, last, tail, size * nitems);
  }

  lemma {:induction false} RunInside(s: Reader, left: seq<Piece>, last: Piece, tail: seq<Byte>, calls: seq<Call>)
    requires Inside(s, left, last, tail)
    ensures var r, all := Run(s, calls), Rest(s, left);
      && r.out == all[..Min(Demand(calls), |all|)]
      && r.outcome == (if Demand(calls) <= |all| then More else Ended)
    decreases |calls|
  {
    hide DoCall, MessageOk, Encode, Rest;
    if calls != [] {
      var left' := CallInside(s, left, last, tail, calls[0]);
      var all, n := Rest(s, left), Request(calls[0]);
      if n <= |all| {
        RunInside(DoCall(s, calls[0]).s, left', last, tail, calls[1..]);
        JoinsUp(all, n, Demand(calls[1..]));
      }
    }
  }

  lemma JoinsUp(all: seq<Byte>, n: nat, m: nat)
    requires n <= |all|
    ensures all[..n] + all[n..][..Min(m, |all[n..]|)] == all[..Min(n + m, |all|)]
  {
  }

  /** Decoding inverts encoding, whatever the chunk sizes, the spelling of the size lines, the
      transport, and the way the caller cuts its requests: the calls deliver exactly the first bytes of
      the payload that they ask for, and the end is reported exactly when they ask for more. */
  lemma DecodesPayload(net: Net, pieces: seq<Piece>, last: Piece, tail: seq<Byte>, calls: seq<Call>)
    requires net.rdOpen && MessageOk(pieces, last) && net.pending == Encode(pieces, last) + tail
    ensures var r := Run(Fresh(net), calls);
      && r.out == Payload(pieces)[..Min(Demand(calls), |Payload(pieces)|)]
      && r.outcome == (if Demand(calls) <= |Payload(pieces)| then More else Ended)
  {
    var s := Fresh(net);
    assert Rest(s, pieces) == Payload(pieces);
    RunInside(s, pieces, last, tail, calls);
  }

  // ---------------------------------------------------------------- plain senders

  const ZERO: Piece := Piece([48], [], [])

  /** The message of a sender that writes each block with its plain size, in digits of one case, and then a
      zero. */
  function EncodeBlocks(blocks: seq<seq<Byte>>, upper: bool): seq<Byte> {
    if blocks == [] then [48] + CRLF
    else HexNumeral(|blocks[0]|, upper) + CRLF + blocks[0] + CRLF + EncodeBlocks(blocks[1..], upper)
  }

  function Joined(blocks: seq<seq<Byte>>): seq<Byte> {
    if blocks == [] then [] else blocks[0] + Joined(blocks[1..])
  }

  function PlainPieces(blocks: seq<seq<Byte>>, upper: bool): seq<Piece> {
    if blocks == [] then []
    else [Piece(HexNumeral(|blocks[0]|, upper), [], blocks[0])] + PlainPieces(blocks[1..], upper)
  }

  lemma ZeroOk()
    ensures LastOk(ZERO)
  {
    var digits: seq<Byte> := [48];
    assert digits[..0] == [] && HexValue([]) == 0;
    assert HexValue(digits) == 0;
  }

  lemma {:induction false} PlainMessage(blocks: seq<seq<Byte>>, upper: bool)
    requires forall b :: b in blocks ==> 1 <= |b| <= 524286
    ensures var pieces := PlainPieces(blocks, upper);
      && MessageOk(pieces, ZERO) && Encode(pieces, ZERO) == EncodeBlocks(blocks, upper)
      && Payload(pieces) == Joined(blocks)
  {
    ZeroOk();
    hide PieceOk, LastOk, HexNumeral;
    if blocks != [] {
      var b := blocks[0];
      PlainMessage(blocks[1..], upper);
      CanonicalPieceOk(b, upper);
      hide Encode, Payload, MessageOk;
      OnePieceMore(Piece(HexNumeral(|b|, upper), [], b), PlainPieces(blocks[1..], upper), ZERO);
    }
  }

  lemma OnePieceMore(c: Piece, pieces: seq<Piece>, last: Piece)
    requires PieceOk(c) && c.ext == [] && MessageOk(pieces, last)
    ensures MessageOk([c] + pieces, last) && Payload([c] + pieces) == c.data + Payload(pieces)
    ensures Encode([c] + pieces, last) == c.size + CRLF + c.data + CRLF + Encode(pieces, last)
  {
    hide PieceOk, LastOk;
    assert ([c] + pieces)[1..] == pieces;
    assert EncodePiece(c) == c.size + CRLF + c.data + CRLF;
  }

  /** For a plain sender: blocks of up to 524286 bytes come back joined. */
  lemma DecodesBlocks(net: Net, blocks: seq<seq<Byte>>, upper: bool, tail: seq<Byte>, calls: seq<Call>)
    requires net.rdOpen && (forall b :: b in blocks ==> 1 <= |b| <= 524286)
    requires net.pending == EncodeBlocks(blocks, upper) + tail
    ensures var r := Run(Fresh(net), calls);
      && r.out == Joined(blocks)[..Min(Demand(calls), |Joined(blocks)|)]
      && r.outcome == (if Demand(calls) <= |Joined(blocks)| then More else Ended)
  {
    PlainMessage(blocks, upper);
    hide Run, MessageOk, Encode, Payload, Joined;
    DecodesPayload(net, PlainPieces(blocks, upper), ZERO, tail, calls);
  }

  // ---------------------------------------------------------------- a message cut short

  /** The reader follows a message that the connection cut before its last size line was complete. */
  ghost predicate Follows(s: Reader, left: seq<Piece>, last: Piece) {
    && Live(s) && MessageOk(left, last)
    && s.net.pending <= Encode(left, last) && s.net.pending != Encode(left, last)
  }

  /** What there is to read in the first n bytes of a message: the chunks that arrived whole, and of the one
      that did not what is kept. */
  function Arrived(transport: Transport, left: seq<Piece>, n: nat): seq<Byte> {
    if left == [] then []
    else
      var c, line := left[0], |left[0].size + left[0].ext + CRLF|;
      if n >= |EncodePiece(c)| then c.data + Arrived(transport, left[1..], n - |EncodePiece(c)|)
      else c.data[..Min(Kept(transport, n - line), |c.data|)]
  }

  ghost function StillThere(s: Reader, left: seq<Piece>): seq<Byte>
    requires Valid(s)
  {
    Unread(s) + Arrived(s.net.transport, left, |s.net.pending|)
  }

  lemma NothingArrived(transport: Transport, left: seq<Piece>)
    ensures Arrived(transport, left, 0) == []
  {
  }

  /** The next chunk is the next part of what arrived; there is one unless that is all. */
  lemma NextCutPiece(s: Reader, left: seq<Piece>, last: Piece)
    requires Follows(s, left, last)
    ensures var r, more := ReadNextChunk(s), Arrived(s.net.transport, left, |s.net.pending|);
      if more == [] then r.ret == -1
      else r.ret > 0 && left != [] && Follows(r.s, left[1..], last) && StillThere(r.s, left[1..]) == more
  {
    hide ReadNextChunk, PieceOk, LastOk;
    var p := s.net.pending;
    if left == [] {
      NoSizeLine(s, last.size, last.ext) by { LastIsOk(last); }
    } else {
      assert left[0] in left;
      var e := EncodePiece(left[0]);
      if |p| < |e| {
        CutPieceNext(s, left, last);
      } else {
        assert p == e + p[|e|..];
        ReadsPiece(s, left[0], p[|e|..]);
        PieceNonempty(left[0]);
      }
    }
  }

  lemma CutPieceNext(s: Reader, left: seq<Piece>, last: Piece)
    requires Follows(s, left, last) && left != [] && |s.net.pending| < |EncodePiece(left[0])|
    ensures var r, more := ReadNextChunk(s), Arrived(s.net.transport, left, |s.net.pending|);
      if more == [] then r.ret == -1
      else r.ret > 0 && Follows(r.s, left[1..], last) && StillThere(r.s, left[1..]) == more
  {
    hide ReadNextChunk, PieceOk, LastOk;
    assert left[0] in left;
    assert s.net.pending <= EncodePiece(left[0]);
    ReadsCutPiece(s, left[0]);
    hide Kept;
    NothingArrived(s.net.transport, left[1..]);
    assert Encode(left[1..], last) != [];
  }

  lemma PieceNonempty(c: Piece)
    requires PieceOk(c)
    ensures c.data != []
  {
  }

  lemma LastIsOk(last: Piece)
    requires LastOk(last)
    ensures SizeLineOk(last.size, last.ext)
  {
  }

  /** One `read_next` on a cut message serves exactly what was asked for, or fails. */
  lemma {:induction false} ReadNextCut(s: Reader, left: seq<Piece>, last: Piece, n: nat) returns (left': seq<Piece>)
    requires Follows(s, left, last)
    ensures var r, all := ReadNext(s, n), StillThere(s, left);
      if n <= |all| then
        r.ret == n && r.out == all[..n] && Follows(r.s, left', last) && StillThere(r.s, left') == all[n..]
      else r.ret == -1
    decreases |left|
  {
    hide ReadNext, ReadNextChunk, MessageOk, Encode, Arrived;
    left' := left;
    var rest, more := |Unread(s)|, Arrived(s.net.transport, left, |s.net.pending|);
    if n <= rest {
      ServesHere(s, n, more);
    } else {
      ReadsOver(s, n);
      NextCutPiece(s, left, last);
      if more != [] {
        var c := ReadNextChunk(s).s;
        left' := ReadNextCut(c, left[1..], last, n - rest);
        ServesOn(StillThere(s, left), Unread(s), more, n);
      }
    }
  }

  lemma FgetcHere(s: Reader, left: seq<Piece>, last: Piece)
    requires Follows(s, left, last) && |Unread(s)| > 0
    ensures var r, all := FgetcStep(s), StillThere(s, left);
      r.outcome == More && r.bytes == all[..1] && Follows(r.s, left, last) && StillThere(r.s, left) == all[1..]
  {
    hide ReadNext, ReadNextChunk, MessageOk, Encode, Arrived;
    FgetcIsRead(s);
    ServesHere(s, 1, Arrived(s.net.transport, left, |s.net.pending|));
  }

  lemma FgetcLoads(s: Reader)
    requires Valid(s) && |Unread(s)| == 0
    ensures var c, r := ReadNextChunk(s), FgetcStep(s);
      && (c.ret > 0 ==> |Unread(c.s)| > 0 && r == FgetcStep(c.s))
      && (c.ret < 0 ==> r.outcome == Failed && r.bytes == [])
  {
    hide ReadNextChunk;
  }

  lemma FgetcCut(s: Reader, left: seq<Piece>, last: Piece) returns (left': seq<Piece>)
    requires Follows(s, left, last)
    ensures var r, all := FgetcStep(s), StillThere(s, left);
      if all != [] then
        r.outcome == More && r.bytes == all[..1] && Follows(r.s, left', last) && StillThere(r.s, left') == all[1..]
      else r.outcome == Failed && r.bytes == []
  {
    hide ReadNextChunk, FgetcStep, MessageOk, Encode, Arrived;
    left' := left;
    if |Unread(s)| > 0 {
      FgetcHere(s, left, last);
    } else {
      NextCutPiece(s, left, last);
      FgetcLoads(s);
      var c := ReadNextChunk(s);
      if c.ret > 0 {
        left' := left[1..];
        FgetcHere(c.s, left', last);
      }
    }
  }

  /** With a byte at hand, `fgetc` moves as a one-byte read does. */
  lemma FgetcIsRead(s: Reader)
    requires Valid(s) && |Unread(s)| > 0
    ensures var r := ReadNext(s, 1); r.out == [s.buf[s.pos]] && r.s == s.(pos := s.pos + 1)
  {
    hide ReadNextChunk;
  }

  lemma CallCut(s: Reader, left: seq<Piece>, last: Piece, call: Call) returns (left': seq<Piece>)
    requires Follows(s, left, last)
    ensures var r, all, n := DoCall(s, call), StillThere(s, left), Request(call);
      if n <= |all| then
        r.outcome == More && r.bytes == all[..n] && Follows(r.s, left', last) && StillThere(r.s, left') == all[n..]
      else r.outcome == Failed && r.bytes == []
  {
    hide ReadNextChunk, ReadNext, MessageOk, Encode, StillThere;
    match call
    case Fgetc => left' := FgetcCut(s, left, last);
    case PipeRead(size, nitems) => left' := ReadNextCut(s, left, last, size * nitems);
  }

  /** How many bytes the calls get of n that there are, when a call that asks for too much gets none and is
      the last. */
  function Fitting(calls: seq<Call>, n: nat): (k: nat)
    ensures k <= n
  {
    if calls == [] || Request(calls[0]) > n then 0
    else Request(calls[0]) + Fitting(calls[1..], n - Request(calls[0]))
  }

  lemma {:induction false} RunCut(s: Reader, left: seq<Piece>, last: Piece, calls: seq<Call>)
    requires Follows(s, left, last)
    ensures var r, all := Run(s, calls), StillThere(s, left);
      && r.out == all[..Fitting(calls, |all|)]
      && r.outcome == (if Demand(calls) <= |all| then More else Failed)
    decreases |calls|
  {
    hide DoCall, MessageOk, Encode, StillThere;
    if calls != [] {
      var left' := CallCut(s, left, last, calls[0]);
      var all, n := StillThere(s, left), Request(calls[0]);
      if n <= |all| {
        RunCut(DoCall(s, calls[0]).s, left', last, calls[1..]);
        var m := Fitting(calls[1..], |all| - n);
        assert all[..n] + all[n..][..m] == all[..n + m];
      }
    }
  }

  lemma {:induction false} ArrivedInOrder(transport: Transport, left: seq<Piece>, n: nat)
    ensures Arrived(transport, left, n) <= Payload(left)
  {
    if left != [] && n >= |EncodePiece(left[0])| {
      ArrivedInOrder(transport, left[1..], n - |EncodePiece(left[0])|);
    }
  }

  /** Cut a message anywhere before its last size line is complete: on either transport and for any
      calls, what there is to read is `Arrived`, a prefix of the true payload; calls are served from it
      while it lasts, and the first that asks for more fails. The end is never reported. */
  lemma CutStreamIsSafe(net: Net, pieces: seq<Piece>, last: Piece, calls: seq<Call>)
    requires net.rdOpen && MessageOk(pieces, last)
    requires net.pending <= Encode(pieces, last) && net.pending != Encode(pieces, last)
    ensures var r, all := Run(Fresh(net), calls), Arrived(net.transport, pieces, |net.pending|);
      && all <= Payload(pieces) && r.out == all[..Fitting(calls, |all|)]
      && r.outcome == (if Demand(calls) <= |all| then More else Failed)
  {
    var s := Fresh(net);
    hide Run, Arrived;
    assert StillThere(s, pieces) == Arrived(net.transport, pieces, |net.pending|);
    RunCut(s, pieces, last, calls);
    ArrivedInOrder(net.transport, pieces, |net.pending|);
  }

  // ---------------------------------------------------------------- without a socket

  lemma NoChunkWithoutSocket(s: Reader)
    requires Valid(s) && !s.alive
    ensures ReadNextChunk(s) == ChunkStep(s, -1)
  {
  }

  lemma CallWithoutSocket(s: Reader, call: Call)
    requires Valid(s) && !s.alive
    ensures var r, all, n := DoCall(s, call), Unread(s), Request(call);
      && r.s.net == s.net && !r.s.alive
      && if n <= |all| then r.outcome == More && r.bytes == all[..n] && Unread(r.s) == all[n..]
         else r.outcome == Failed && r.bytes == []
  {
    hide ReadNextChunk;
    NoChunkWithoutSocket(s);
  }

  /** Once the socket is gone, calls are served from the rest of the current chunk while it lasts, and the
      first that asks for more fails; nothing is sent or received. */
  lemma {:induction false} WithoutSocket(s: Reader, calls: seq<Call>)
    requires Valid(s) && !s.alive
    ensures var r, all := Run(s, calls), Unread(s);
      && r.s.net == s.net && r.out == all[..Fitting(calls, |all|)]
      && r.outcome == (if Demand(calls) <= |all| then More else Failed)
    decreases |calls|
  {
    hide DoCall, Unread, Request;
    if calls != [] {
      CallWithoutSocket(s, calls[0]);
      var all, n := Unread(s), Request(calls[0]);
      if n <= |all| {
        WithoutSocket(DoCall(s, calls[0]).s, calls[1..]);
        var m := Fitting(calls[1..], |all| - n);
        assert all[..n] + all[n..][..m] == all[..n + m];
      }
    }
  }

  // ---------------------------------------------------------------- what callers can conclude

  /** A reader that asks for everything is told the end exactly when the message was complete. */
  lemma EndMeansComplete(net: Net, pieces: seq<Piece>, last: Piece, cut: nat, calls: seq<Call>)
    requires net.rdOpen && MessageOk(pieces, last) && cut <= |Encode(pieces, last) + CRLF|
    requires net.pending == (Encode(pieces, last) + CRLF)[..cut]
    requires Demand(calls) > |Payload(pieces)|
    ensures Run(Fresh(net), calls).outcome == Ended <==> cut >= |Encode(pieces, last)|
    ensures Run(Fresh(net), calls).outcome == Ended ==> Run(Fresh(net), calls).out == Payload(pieces)
  {
    hide Run, Fresh, MessageOk, Encode, Payload;
    var e := Encode(pieces, last);
    if cut >= |e| {
      assert net.pending == e + CRLF[..cut - |e|];
      DecodesPayload(net, pieces, last, CRLF[..cut - |e|], calls);
    } else {
      assert net.pending == e[..cut];
      CutStreamIsSafe(net, pieces, last, calls);
    }
  }

  /** `pipe_read` counts whole items: all that were asked for unless the stream ended or failed. */
  lemma PipeReadCounts(s: Reader, size: nat, nitems: nat)
    requires Valid(s) && size > 0
    ensures var r := PipeReadStep(s, size, nitems);
      && (r.outcome == More ==> r.ret == nitems)
      && (r.outcome == Ended ==> 0 <= r.ret < nitems && r.ret * size <= |r.bytes| < (r.ret + 1) * size)
      && (r.outcome == Failed ==> r.ret == -1 && r.bytes == [])
  {
    hide ReadNext;
    var r := ReadNext(s, size * nitems);
    if r.ret >= 0 {
      ItemCount(r.ret, size, nitems);
    }
  }

  lemma ItemCount(n: nat, size: nat, nitems: nat)
    requires size > 0 && n <= size * nitems
    ensures n == size * nitems ==> n / size == nitems
    ensures n < size * nitems ==> 0 <= n / size < nitems && n / size * size <= n < (n / size + 1) * size
  {
    var q, r := n / size, n % size;
    assert n == q * size + r;
    if n == size * nitems {
      DivUnique(n, size, nitems, 0);
    } else if q >= nitems {
      LargerProduct(nitems, q, size);
    }
  }

  lemma LargerProduct(a: nat, b: nat, k: nat)
    requires a <= b
    ensures a * k <= b * k
  {
    assert (b - a) * k >= 0;
  }
}
