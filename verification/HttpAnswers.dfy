/** The texts that are sent to the peer are response headers (section 2.1 of RFC 9112), read by the same
    scan that the package applies to requests. */
module HttpAnswers {
  import opened Bytes
  import opened Network
  import opened Wrappers
  import opened HttpHeader
  import opened ChunkDecoder
  import opened WriterModel
  import opened WriterRuns

  /** A response header with this status that announces the end of the connection, and nothing behind it. */
  ghost predicate IsResponse(p: seq<Byte>, status: string) {
    && IsHeader(p, |p|)
    && Ascii("HTTP/1.1 " + status + " ") <= p
    && |p| >= 21 && p[|p| - 21..] == Ascii("Connection: close\r\n\r\n")
  }

  /** A text of printable characters, and at least one. */
  predicate PlainLine(line: string) {
    line != "" && forall c :: c in line ==> ' ' <= c <= '~'
  }

  /** The empty line is the first CRLF at a line start. */
  ghost predicate EndsOnce(p: seq<Byte>) {
    HeaderEnd(p, |p|) && forall j :: 0 <= j < |p| ==> !HeaderEnd(p, j)
  }

  lemma LineInFront(line: string, q: seq<Byte>)
    requires PlainLine(line) && EndsOnce(q)
    ensures EndsOnce(Ascii(line) + CRLF + q)
  {
    var p, a := Ascii(line) + CRLF + q, |line|;
    assert forall i :: 0 <= i < a ==> p[i] == Ascii(line)[i] == line[i] as int != CR by {
      assert forall i :: 0 <= i < a ==> line[i] in line;
    }
    assert p[a] == CR && p[a + 1] == LF && forall i :: 0 <= i < |q| ==> p[a + 2 + i] == q[i];
    forall j | a + 4 <= j <= |p|
      ensures LineEnd(p, j) <==> LineEnd(q, j - a - 2)
    {
    }
    forall j | 0 <= j < |p|
      ensures !HeaderEnd(p, j)
    {
      if HeaderEnd(p, j) {
        assert j - 2 >= a + 2;
        assert HeaderEnd(q, j - a - 2);
      }
    }
  }

  lemma {:induction false} LinesEndOnce(lines: seq<string>)
    requires forall line :: line in lines ==> PlainLine(line)
    ensures EndsOnce(Lines(lines))
  {
    if lines != [] {
      LinesEndOnce(lines[1..]);
      assert lines[0] in lines;
      LineInFront(lines[0], Lines(lines[1..]));
    }
  }

  lemma {:induction false} LinesSplit(front: seq<string>, back: seq<string>)
    ensures exists p :: Lines(front + back) == p + Lines(back)
  {
    if front == [] {
      assert front + back == back && Lines(back) == [] + Lines(back);
    } else {
      assert (front + back)[1..] == front[1..] + back;
      LinesSplit(front[1..], back);
      var p :| Lines(front[1..] + back) == p + Lines(back);
      assert Lines(front + back) == (Ascii(front[0]) + CRLF + p) + Lines(back);
    }
  }

  lemma ClosingLine()
    ensures Lines(["Connection: close"]) == Ascii("Connection: close\r\n\r\n")
  {
    var line := ["Connection: close"];
    assert Lines(line[1..]) == CRLF;
  }

  lemma ResponseOfLines(lines: seq<string>, status: string)
    requires lines != [] && forall line :: line in lines ==> PlainLine(line)
    requires "HTTP/1.1 " + status + " " <= lines[0] && lines[|lines| - 1] == "Connection: close"
    requires |Lines(lines)| < LINE_MAX
    ensures IsResponse(Lines(lines), status)
  {
    var p, n := Lines(lines), |lines| - 1;
    LinesEndOnce(lines);
    ClosingLine();
    assert lines == lines[..n] + ["Connection: close"];
    LinesSplit(lines[..n], ["Connection: close"]);
    assert Ascii("HTTP/1.1 " + status + " ") <= Ascii(lines[0]);
    assert Ascii(lines[0]) <= p;
  }

  /** A line of the answers. */
  predicate ShortLine(line: string) {
    PlainLine(line) && |line| <= 60
  }

  lemma {:induction false} LinesLength(lines: seq<string>)
    requires forall line :: line in lines ==> ShortLine(line)
    ensures |Lines(lines)| <= 62 * |lines| + 2
  {
    hide PlainLine;
    if lines != [] {
      assert lines[0] in lines;
      LinesLength(lines[1..]);
    }
  }

  lemma StatusLines()
    ensures ShortLine("HTTP/1.1 200 OK") && "HTTP/1.1 " + "200" + " " <= "HTTP/1.1 200 OK"
    ensures ShortLine("HTTP/1.1 404 ERROR") && "HTTP/1.1 " + "404" + " " <= "HTTP/1.1 404 ERROR"
  {
  }

  lemma FieldLines()
    ensures ShortLine("Server: EXASolution R Package") && ShortLine("Connection: close")
  {
  }

  lemma ContentType()
    ensures ShortLine("Content-type: application/octet-stream")
  {
  }

  lemma ContentDisposition()
    ensures ShortLine("Content-disposition: " + "attachment; filename=data.csv")
  {
    var name, value := "Content-disposition: ", "attachment; filename=data.csv";
    assert PlainLine(name);
    assert PlainLine(value);
    PlainBoth(name, value);
  }

  lemma PlainBoth(a: string, b: string)
    requires PlainLine(a) && PlainLine(b)
    ensures PlainLine(a + b)
  {
  }

  lemma ShortResponse(lines: seq<string>, status: string)
    requires 1 <= |lines| <= 5 && forall line :: line in lines ==> ShortLine(line)
    requires "HTTP/1.1 " + status + " " <= lines[0] && lines[|lines| - 1] == "Connection: close"
    ensures IsResponse(Lines(lines), status)
  {
    LinesLength(lines);
    hide PlainLine, IsResponse;
    ResponseOfLines(lines, status);
  }

  /** The answers of the reader: 200 for success, 404 otherwise, and no body. */
  lemma ReaderResponses()
    ensures IsResponse(OK_ANSWER, "200") && IsResponse(ERROR_ANSWER, "404")
  {
    StatusLines();
    FieldLines();
    hide ShortLine, IsResponse;
    ShortResponse(["HTTP/1.1 200 OK", "Server: EXASolution R Package", "Connection: close"], "200");
    ShortResponse(["HTTP/1.1 404 ERROR", "Server: EXASolution R Package", "Connection: close"], "404");
  }

  lemma WriterResponse()
    ensures IsResponse(HEADER, "200")
  {
    StatusLines();
    FieldLines();
    ContentType();
    ContentDisposition();
    hide ShortLine, IsResponse;
    ShortResponse(["HTTP/1.1 200 OK", "Server: EXASolution R Package", "Content-type: application/octet-stream",
                   "Content-disposition: " + "attachment; filename=data.csv", "Connection: close"], "200");
  }

  /** What the peer makes of a transfer: after any writes and a final flush, with something written and sends
      taken, the scan of the wire finds the response header, and behind it exactly what was written. */
  lemma PeerReadsWritten(net: Net, calls: seq<WriterCall>)
    requires net.wrOpen && net.plan == [] && net.wire == [] && Written(calls) != []
    ensures var wire := PipeFlush(RunWriter(FreshWriter(net), calls).s).s.net.wire;
      && HeaderLength(wire) == Some(|HEADER|) && wire[..|HEADER|] == HEADER && wire[|HEADER|..] == Written(calls)
  {
    hide RunWriter, PipeFlush, FreshWriter, HeaderText;
    WriterConserves(net, calls);
    WriterResponse();
    HeaderExtends(HEADER, Written(calls));
  }
}
