/** The chunked transfer coding of section 7.1 of RFC 9112, and what one `read_next_chunk` makes of it. */
module ChunkCoding {
  import opened Bytes
  import opened Network
  import opened SizeLine
  import opened Wrappers
  import opened ChunkDecoder

  /** A chunk as a sender writes it: any numeral for its size, perhaps an extension, then the data. */
  datatype Piece = Piece(size: seq<Byte>, ext: seq<Byte>, data: seq<Byte>)

  const SEMICOLON: Byte := 59

  /** A size line that fits the reader's limit: numeral, optional extension, CRLF. */
  predicate SizeLineOk(size: seq<Byte>, ext: seq<Byte>) {
    && IsNumeral(size)
    && (ext == [] || ext[0] == SEMICOLON)
    && (forall b :: b in ext ==> b != NUL && b != LF && b != CR)
    && |size| + |ext| + 2 <= 20
  }

  predicate PieceOk(c: Piece) {
    SizeLineOk(c.size, c.ext) && HexValue(c.size) == |c.data| && 1 <= |c.data| <= 524286
  }

  function EncodePiece(c: Piece): seq<Byte> {
    c.size + c.ext + CRLF + (c.data + CRLF)
  }

  /** The last chunk is a size line of value zero. */
  predicate LastOk(last: Piece) {
    SizeLineOk(last.size, last.ext) && HexValue(last.size) == 0
  }

  /** A message up to and including its last size line; a trailer section may follow. */
  function Encode(pieces: seq<Piece>, last: Piece): seq<Byte> {
    if pieces == [] then last.size + last.ext + CRLF
    else EncodePiece(pieces[0]) + Encode(pieces[1..], last)
  }

  function Payload(pieces: seq<Piece>): seq<Byte> {
    if pieces == [] then [] else pieces[0].data + Payload(pieces[1..])
  }

  predicate MessageOk(pieces: seq<Piece>, last: Piece) {
    LastOk(last) && forall c :: c in pieces ==> PieceOk(c)
  }

  /** The plain spelling of a chunk is one the reader accepts. */
  lemma CanonicalPieceOk(data: seq<Byte>, upper: bool)
    requires 1 <= |data| <= 524286
    ensures PieceOk(Piece(HexNumeral(|data|, upper), [], data))
  {
    assert Pow16(5) == 1048576;
    HexNumeralLength(|data|, upper, 5);
  }

  // ---------------------------------------------------------------- size lines are read back

  lemma {:induction false} LineStopAt(line: seq<Byte>, rest: seq<Byte>, i: nat)
    requires LF !in line && |line| < LINE_LIMIT && i <= |line|
    ensures LineStop(line + [LF] + rest, i) == |line|
    decreases |line| - i
  {
    var p := line + [LF] + rest;
    if i < |line| {
      assert p[i] == line[i] && line[i] in line;
      LineStopAt(line, rest, i + 1);
    }
  }

  lemma {:induction false} NoLineStop(p: seq<Byte>, i: nat)
    requires LF !in p && i <= |p| < LINE_LIMIT
    ensures LineStop(p, i) == |p|
    decreases |p| - i
  {
    if i < |p| {
      assert p[i] in p;
      NoLineStop(p, i + 1);
    }
  }

  lemma {:induction false} UpToNulOfText(text: seq<Byte>)
    requires NUL !in text
    ensures UpToNul(text + [NUL]) == text
  {
    if text != [] {
      assert (text + [NUL])[0] == text[0] && text[0] in text;
      assert (text + [NUL])[1..] == text[1..] + [NUL];
      UpToNulOfText(text[1..]);
    }
  }

  lemma NumeralBytes(s: seq<Byte>)
    requires forall b :: b in s ==> IsHexDigit(b)
    ensures NUL !in s && LF !in s && CR !in s
  {
  }

  /** The reader's line scan finds the size line and recovers its text. */
  lemma SizeLineRead(size: seq<Byte>, ext: seq<Byte>, rest: seq<Byte>)
    requires SizeLineOk(size, ext)
    ensures var p := size + ext + CRLF + rest;
      LineFound(p) && LineStop(p, 0) == |size| + |ext| + 1 && SizeText(p) == size + ext
  {
    var text := size + ext;
    var p := size + ext + CRLF + rest;
    NumeralBytes(size);
    assert p == (text + [CR]) + [LF] + rest;
    LineStopAt(text + [CR], rest, 0);
    assert p[..|text| + 1] == text + [CR];
    assert forall i :: 0 <= i < |text| ==> text[i] in size || text[i] in ext;
    assert Nulled(text + [CR]) == text + [NUL];
    UpToNulOfText(text);
  }

  /** `sscanf` reads the numeral and stops at the extension. */
  lemma ScanHexOfLine(size: seq<Byte>, ext: seq<Byte>)
    requires SizeLineOk(size, ext) && HexValue(size) < TWO_32
    ensures ScanHex(size + ext) == Some(HexValue(size))
  {
    hide HexValue, ToUnsigned;
    var s := size + ext;
    DigitRunStops(size, ext);
    SmallUnsigned(HexValue(size));
    hide DigitRun;
    assert s[0] == size[0] && size[0] in size;
    assert SkipSpaces(s) == s;
    assert |s| >= 2 ==> s[1] in size || s[1] == SEMICOLON;
    assert !HasPrefix0x(s);
  }

  // ---------------------------------------------------------------- one chunk

  /** A reader that can still receive. */
  predicate Live(s: Reader) {
    Valid(s) && s.alive && s.net.rdOpen
  }

  /** After a readable size line, `read_next_chunk` goes on with its text at the input behind it. */
  lemma AfterSizeLine(s: Reader, size: seq<Byte>, ext: seq<Byte>, rest: seq<Byte>)
    requires Live(s) && SizeLineOk(size, ext) && s.net.pending == size + ext + CRLF + rest
    ensures var s' := AfterLine(s);
      && ReadNextChunk(s) == ReadBody(s', size + ext)
      && Live(s') && s'.net == s.net.(pending := rest) && s'.len == s.len && s'.pos == s.pos
  {
    SizeLineRead(size, ext, rest);
    assert s.net.pending[|size| + |ext| + 2..] == rest;
  }

  /** A whole chunk is delivered whole. */
  lemma ReadsPiece(s: Reader, c: Piece, rest: seq<Byte>)
    requires Live(s) && PieceOk(c) && s.net.pending == EncodePiece(c) + rest
    ensures var r := ReadNextChunk(s);
      && r.ret == |c.data| > 0 && Live(r.s) && Unread(r.s) == c.data && r.s.net == s.net.(pending := rest)
  {
    hide ReadNextChunk, ScanHex, AfterLine, ReceiveData, SizeLineOk, HexValue;
    assert s.net.pending == c.size + c.ext + CRLF + (c.data + CRLF + rest);
    AfterSizeLine(s, c.size, c.ext, c.data + CRLF + rest);
    BodyOfPiece(AfterLine(s), c);
    ReceivesAll(AfterLine(s), c.data, rest);
  }

  lemma BodyOfPiece(s: Reader, c: Piece)
    requires Valid(s) && PieceOk(c)
    ensures ReadBody(s, c.size + c.ext) == ReceiveData(s, |c.data| + 2)
  {
    hide ScanHex, ReceiveData, HexValue, Reject, Send, IsNumeral;
    assert c.size + c.ext != [] by { NumeralNonempty(c.size); }
    ScanHexOfLine(c.size, c.ext);
    NoWrap(|c.data|);
  }

  lemma NumeralNonempty(s: seq<Byte>)
    requires IsNumeral(s)
    ensures s != []
  {
  }

  lemma NoWrap(n: nat)
    requires n <= MAX
    ensures (n + 2) % TWO_32 == n + 2
  {
  }

  lemma ReceivesAll(s: Reader, data: seq<Byte>, rest: seq<Byte>)
    requires Live(s) && 1 <= |data| <= MAX - 2 && s.net.pending == data + CRLF + rest
    ensures var r := ReceiveData(s, |data| + 2);
      && r.ret == |data| && Live(r.s) && Unread(r.s) == data && r.s.net == s.net.(pending := rest)
  {
    var p := s.net.pending;
    assert p[..|data| + 2] == data + CRLF && p[|data| + 2..] == rest;
    var r := ReceiveData(s, |data| + 2);
    assert r.s.buf[..|data|] == data;
  }

  /** How much of a chunk is kept when only `got` bytes of data and line end arrive: on plain TCP all but the
      last two of them, if that leaves any; on TLS nothing. */
  function Kept(transport: Transport, got: int): nat {
    if transport.Plain? && got >= 3 then got - 2 else 0
  }

  /** What one `read_next_chunk` makes of a chunk of which the first bytes `kept` were kept. */
  predicate Keeps(s: Reader, r: ChunkStep, kept: seq<Byte>) {
    if kept == [] then r.ret == -1
    else r.ret == |kept| && Live(r.s) && Unread(r.s) == kept && r.s.net == s.net.(pending := [])
  }

  /** A chunk that the connection cut short. */
  lemma ReadsCutPiece(s: Reader, c: Piece)
    requires Live(s) && PieceOk(c) && s.net.pending <= EncodePiece(c) && s.net.pending != EncodePiece(c)
    ensures var k := Kept(s.net.transport, |s.net.pending| - |c.size + c.ext + CRLF|);
      k <= |c.data| && Keeps(s, ReadNextChunk(s), c.data[..k])
  {
    hide ReadNextChunk, ScanHex, AfterLine, ReceiveData, SizeLineOk, HexValue;
    var line := c.size + c.ext + CRLF;
    var p := s.net.pending;
    if |p| < |line| {
      assert p == line[..|p|];
      NoSizeLine(s, c.size, c.ext);
    } else {
      var got := p[|line|..];
      assert p == c.size + c.ext + CRLF + got;
      AfterSizeLine(s, c.size, c.ext, got);
      BodyOfPiece(AfterLine(s), c);
      assert got <= c.data + CRLF by {
        assert EncodePiece(c)[|line|..] == c.data + CRLF;
      }
      ReceivesSome(AfterLine(s), c.data, got);
    }
  }

  lemma ReceivesSome(s: Reader, data: seq<Byte>, got: seq<Byte>)
    requires Live(s) && 1 <= |data| <= 524286 && s.net.pending == got
    requires got <= data + CRLF && got != data + CRLF
    ensures var k := Kept(s.net.transport, |got|);
      k <= |data| && Keeps(s, ReceiveData(s, |data| + 2), data[..k])
  {
    var r, k := ReceiveData(s, |data| + 2), Kept(s.net.transport, |got|);
    assert got[..|got|] == got && |got| < |data| + 2;
    if k > 0 {
      assert r.s.buf[..k] == got[..k] == data[..k];
    }
  }

  /** A size line that the connection cut short is refused. */
  lemma NoSizeLine(s: Reader, size: seq<Byte>, ext: seq<Byte>)
    requires Live(s) && SizeLineOk(size, ext)
    requires s.net.pending <= size + ext + CRLF && s.net.pending != size + ext + CRLF
    ensures ReadNextChunk(s).ret == -1
  {
    var p := s.net.pending;
    NumeralBytes(size);
    assert p == (size + ext + [CR])[..|p|];
    assert LF !in size + ext + [CR];
    NoLineStop(p, 0);
  }

  /** A chunk of more than 524286 bytes is refused unread, for every size that 32 bits hold with the line end. */
  lemma OversizeRefused(s: Reader, size: seq<Byte>, ext: seq<Byte>, rest: seq<Byte>)
    requires Live(s) && SizeLineOk(size, ext) && s.net.pending == size + ext + CRLF + rest
    requires 524286 < HexValue(size) < 0xffff_fffe
    ensures ReadNextChunk(s).ret == -1 && ReadNextChunk(s).s.net.pending == rest
  {
    hide ReadNextChunk, AfterLine, ScanHex, HexValue, SizeLineOk, ReceiveData, Reject;
    AfterSizeLine(s, size, ext, rest);
    ScanHexOfLine(size, ext);
    SizeNonempty(size, ext);
    RejectRefuses(AfterLine(s));
  }

  lemma SizeNonempty(size: seq<Byte>, ext: seq<Byte>)
    requires SizeLineOk(size, ext)
    ensures size + ext != []
  {
  }

  lemma RejectRefuses(s: Reader)
    ensures Reject(s).ret == -1 && Reject(s).s.net.pending == s.net.pending
  {
  }

  /** So is a size line that has no end within 20 bytes, and nothing behind these is read. */
  lemma LongSizeLineRefused(s: Reader)
    requires Live(s) && |s.net.pending| >= 20 && LF !in s.net.pending[..20]
    ensures ReadNextChunk(s).ret == -1 && ReadNextChunk(s).s.net.pending == s.net.pending[20..]
  {
    NoLineStopWithin(s.net.pending, 0);
  }

  lemma {:induction false} NoLineStopWithin(p: seq<Byte>, i: nat)
    requires i <= 20 <= |p| && LF !in p[..20]
    ensures LineStop(p, i) == 20
    decreases 20 - i
  {
    if i < 20 {
      assert p[i] == p[..20][i];
      NoLineStopWithin(p, i + 1);
    }
  }

  /** The last size line ends the stream. */
  lemma ReadsLast(s: Reader, last: Piece, rest: seq<Byte>)
    requires Live(s) && LastOk(last) && s.net.pending == last.size + last.ext + CRLF + rest
    ensures var r := ReadNextChunk(s);
      && r.ret == 0 && r.s.net.pending == rest && r.s.alive
      && r.s.net == ShutdownWr(Send(s.net.(pending := rest), OK_ANSWER).net)
  {
    AfterSizeLine(s, last.size, last.ext, rest);
    ScanHexOfLine(last.size, last.ext);
  }
}
