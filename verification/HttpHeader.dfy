/** Skipping the request header: the scan for the empty line (section 2.1 of RFC 9112). */
module HttpHeader {
  import opened Bytes
  import opened Network
  import opened Wrappers

  const LINE_MAX: nat := 4095

  /** A CRLF ends at offset i. */
  predicate LineEnd(p: seq<Byte>, i: nat) {
    2 <= i <= |p| && p[i - 2] == CR && p[i - 1] == LF
  }

  /** The first k bytes are a CRLF or end in CRLF CRLF. */
  predicate HeaderEnd(p: seq<Byte>, k: nat) {
    LineEnd(p, k) && (k == 2 || LineEnd(p, k - 2))
  }

  predicate LineStart(p: seq<Byte>, b: nat) {
    b == 0 || LineEnd(p, b)
  }

  /** The line that starts at b has no end within 4095 bytes, all of which have arrived. */
  ghost predicate LongLine(p: seq<Byte>, b: nat) {
    LineStart(p, b) && b + LINE_MAX <= |p| && forall i :: b < i <= b + LINE_MAX ==> !LineEnd(p, i)
  }

  /** k is the length of the shortest header, and no line of it is too long. */
  ghost predicate IsHeader(p: seq<Byte>, k: nat) {
    && HeaderEnd(p, k)
    && (forall j :: 0 <= j < k ==> !HeaderEnd(p, j))
    && (forall b :: 0 <= b < k ==> !LongLine(p, b))
  }

  /** The length of the header that an input starts with, if it does. */
  ghost function HeaderLength(p: seq<Byte>): (r: Option<nat>)
    ensures r.Some? ==> IsHeader(p, r.value) && r.value <= |p|
    ensures r.None? ==> forall k: nat :: !IsHeader(p, k)
  {
    if exists k: nat :: IsHeader(p, k) then
      var k: nat :| IsHeader(p, k);
      Some(k)
    else None
  }

  lemma HeaderUnique(p: seq<Byte>, j: nat, k: nat)
    requires IsHeader(p, j) && IsHeader(p, k)
    ensures j == k
  {
    hide LongLine;
  }

  /** What follows a header does not change it. */
  lemma HeaderExtends(header: seq<Byte>, rest: seq<Byte>)
    requires IsHeader(header, |header|)
    ensures HeaderLength(header + rest) == Some(|header|)
  {
    var p, n := header + rest, |header|;
    assert forall i :: 0 <= i <= n ==> (LineEnd(p, i) <==> LineEnd(header, i));
    forall b | 0 <= b < n
      ensures !LongLine(p, b)
    {
      if LongLine(p, b) {
        LongLineShort(header, rest, b);
      }
    }
    forall j | 0 <= j <= n
      ensures HeaderEnd(p, j) <==> HeaderEnd(header, j)
    {
      assert j >= 2 ==> (LineEnd(p, j - 2) <==> LineEnd(header, j - 2));
    }
    assert IsHeader(p, n);
    HeaderUnique(p, n, HeaderLength(p).value);
  }

  lemma LongLineShort(header: seq<Byte>, rest: seq<Byte>, b: nat)
    requires b < |header| && HeaderEnd(header, |header|) && LongLine(header + rest, b)
    ensures LongLine(header, b)
  {
    var p, n := header + rest, |header|;
    assert LineEnd(p, n);
    forall i | b < i <= b + LINE_MAX
      ensures !LineEnd(header, i)
    {
      assert !LineEnd(p, i);
    }
  }

  /** The limit on a line: one line of text and the empty line are a header exactly if the line is at most 4095
      bytes long with its end. */
  lemma OneLineHeader(line: seq<Byte>, rest: seq<Byte>)
    requires line != [] && CR !in line
    ensures HeaderLength(line + CRLF + CRLF + rest) == if |line| + 2 <= 4095 then Some(|line| + 4) else None
  {
    var p, n := line + CRLF + CRLF + rest, |line|;
    assert forall i :: 0 <= i < n ==> p[i] == line[i] && line[i] in line;
    assert p[n] == CR && p[n + 1] == LF && p[n + 2] == CR && p[n + 3] == LF;
    assert forall i :: 0 <= i < n + 4 && i != n + 2 ==> !LineEnd(p, i);
    if n + 2 <= 4095 {
      assert LineEnd(p, n + 2) && LineEnd(p, n + 4);
      assert forall b :: 0 <= b < n + 4 && LineStart(p, b) ==> b == 0 || b == n + 2;
      assert !LongLine(p, 0) && !LongLine(p, n + 2);
      assert IsHeader(p, n + 4);
      HeaderUnique(p, n + 4, HeaderLength(p).value);
    } else {
      assert LongLine(p, 0);
    }
  }

  /** A CRLF cannot begin with the last byte of another. */
  lemma LineEndsApart(p: seq<Byte>, b: nat, i: nat)
    requires LineStart(p, b) && LineEnd(p, i) && b < i
    ensures b + 2 <= i
  {
  }

  /** Where the scan stands: i bytes read, the current line started at b. */
  ghost predicate Scanned(p: seq<Byte>, b: nat, i: nat) {
    && b <= i <= |p| && LineStart(p, b) && i - b <= LINE_MAX
    && (forall j :: b < j <= i ==> !LineEnd(p, j))
    && (forall j :: 0 <= j <= i ==> !HeaderEnd(p, j))
    && (forall c :: 0 <= c < b ==> !LongLine(p, c))
  }

  /** A line end within the limit starts the next line, unless it is the empty line. */
  lemma LineDone(p: seq<Byte>, b: nat, i: nat)
    requires Scanned(p, b, i) && b < i < |p| && i - b < LINE_MAX && p[i] == LF && p[i - 1] == CR
    ensures i + 1 - b == 2 ==> IsHeader(p, i + 1)
    ensures i + 1 - b != 2 ==> Scanned(p, i + 1, i + 1)
  {
    assert LineEnd(p, i + 1);
    assert !LongLine(p, b);
    forall c | 0 <= c < i + 1
      ensures !LongLine(p, c)
    {
      assert b < c <= i ==> !LineEnd(p, c);
    }
    if i + 1 - b == 2 {
      assert HeaderEnd(p, i + 1);
    } else {
      assert !LineEnd(p, i - 1) || i - 1 == b;
    }
  }

  /** A scan that has to stop has met no header: none starts before the end of the input, or a line
      that is too long comes first. */
  lemma NoHeader(p: seq<Byte>, b: nat, i: nat)
    requires Scanned(p, b, i) && (i == |p| || i - b == LINE_MAX)
    ensures forall k: nat :: !IsHeader(p, k)
    ensures i - b == LINE_MAX ==> LongLine(p, b)
  {
    if i - b == LINE_MAX {
      assert LongLine(p, b);
    }
  }

  lemma LineGoesOn(p: seq<Byte>, b: nat, i: nat)
    requires Scanned(p, b, i) && i < |p| && i - b < LINE_MAX
    requires !(p[i] == LF && i > b && p[i - 1] == CR)
    ensures Scanned(p, b, i + 1)
  {
    if LineEnd(p, i + 1) {
      LineEndsApart(p, b, i + 1);
    }
  }

  lemma ScanStart(p: seq<Byte>)
    ensures Scanned(p, 0, 0)
  {
  }

  method ReceiveByte(socket: Socket) returns (len: int, data: Byte)
    modifies socket`pending
    ensures len == 1 <==> Avail(old(socket.State())) != []
    ensures len != 1 ==> socket.pending == old(socket.pending)
    ensures len == 1 ==> data == old(socket.pending)[0] && socket.pending == old(socket.pending)[1..]
  {
    var buf := new Byte[1];
    len := socket.Receive(buf, 0, 1);
    data := buf[0];
  }

  /** Reads the header and nothing else, or fails because there is none to read. */
  method ReadHttpHeader(socket: Socket) returns (ok: bool, ghost n: nat)
    modifies socket`pending
    ensures n <= |old(socket.pending)| && socket.pending == old(socket.pending)[n..]
    ensures var p := Avail(old(socket.State()));
      && (ok ==> IsHeader(p, n))
      && (!ok ==> forall k: nat :: !IsHeader(p, k))
      && (!ok ==> n == |p| || (n >= LINE_MAX && LongLine(p, n - LINE_MAX)))
  {
    hide Scanned, IsHeader, LongLine, LineEnd;
    ghost var p, start := Avail(socket.State()), socket.pending;
    ghost var b, i := 0, 0;
    ScanStart(p);
    var line := new Byte[4096];
    var pos := 0;
    line[0] := NUL;
    while true
      invariant 0 <= b <= i <= |p| && Scanned(p, b, i) && pos == i - b <= LINE_MAX
      invariant socket.pending == start[i..] && |start| >= |p|
      invariant p == if socket.rdOpen then start else []
      invariant forall j :: 0 <= j < pos ==> line[j] == p[b + j]
      decreases |p| - i
    {
      if pos > 4094 {
        NoHeader(p, b, i);
        return false, i;
      }
      assert Avail(socket.State()) == p[i..];
      var len, data := ReceiveByte(socket);
      if len != 1 {
        NoHeader(p, b, i);
        return false, i;
      }
      line[pos] := data;
      pos := pos + 1;
      line[pos] := NUL;
      assert data == p[i];
      if data == LF && pos > 1 && line[pos - 2] == CR {
        LineDone(p, b, i);
        if pos == 2 {
          return true, i + 1;
        }
        pos := 0;
        line[0] := NUL;
        b, i := i + 1, i + 1;
      } else {
        LineGoesOn(p, b, i);
        i := i + 1;
      }
    }
  }
}
