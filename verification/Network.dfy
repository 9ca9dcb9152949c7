/** The socket as both ends see it: what the peer will still send, what it has received. */
module Network {
  import opened Bytes

  /** Plain TCP reads wait for the whole buffer but hand over what came before the end of the
      stream; TLS reads are all or nothing. */
  datatype Transport = Plain | Tls

  /** `pending` is what will arrive before the connection ends or fails. `plan` holds, for each
      coming send, how many bytes the network will take; a send beyond the plan is taken whole. */
  datatype Net = Net(
    transport: Transport,
    pending: seq<Byte>,
    plan: seq<nat>,
    wire: seq<Byte>,
    rdOpen: bool,
    wrOpen: bool)

  datatype Received = Received(net: Net, got: seq<Byte>, ret: int)
  datatype Sent = Sent(net: Net, ret: int)

  /** `recv` of at most `len` bytes: new network state, bytes stored, return value. */
  function Recv(net: Net, len: nat): (r: Received)
    ensures |r.got| <= len && (r.ret >= 0 ==> r.ret == |r.got|)
    ensures r.got <= net.pending && r.net == net.(pending := net.pending[|r.got|..])
  {
    if !net.rdOpen then Received(net.(pending := net.pending[0..]), [], -1)
    else
      var k := Min(len, |net.pending|);
      Received(net.(pending := net.pending[k..]), net.pending[..k],
               if net.transport.Plain? || (0 < len && k == len) then k else -1)
  }

  /** `send`: nothing is delivered once the write side is shut. */
  function Send(net: Net, data: seq<Byte>): Sent {
    if !net.wrOpen then Sent(net, -1)
    else
      var n := if net.plan == [] then |data| else Min(net.plan[0], |data|);
      var rest := if net.plan == [] then [] else net.plan[1..];
      Sent(net.(plan := rest, wire := net.wire + data[..n]), if n == 0 && data != [] then -1 else n)
  }

  /** A read from an open connection is short only at the end of the input; a plain one returns what came,
      one on TLS all or an error. */
  lemma RecvReturns(net: Net, len: nat)
    ensures var r := Recv(net, len);
      if !net.rdOpen then r.ret == -1 && r.got == []
      else
        && (|r.got| == len || r.net.pending == [])
        && (net.transport.Plain? ==> r.ret == |r.got|)
        && (net.transport.Tls? && len > 0 ==> r.ret == if |r.got| == len then len else -1)
  {
  }

  /** A send returns how much of the data the peer will get, and -1 if that is nothing. */
  lemma SendReturns(net: Net, data: seq<Byte>)
    requires data != []
    ensures var r := Send(net, data);
      if r.ret == -1 then r.net.wire == net.wire
      else 0 < r.ret <= |data| && r.net.wire == net.wire + data[..r.ret]
  {
  }

  /** Which directions of a connection are open. */
  datatype Link = Link(transport: Transport, rdOpen: bool, wrOpen: bool)

  /** Shutting the write side of a plain socket also drops its handle, so reads fail from then on;
      a TLS session can still be read. */
  function ShutWr(k: Link): Link {
    k.(wrOpen := false, rdOpen := k.rdOpen && k.transport.Tls?)
  }

  /** The first shutdown of a TLS socket is the only one that reaches TCP: after the write side alone has
      been shut, the read side stays as it is. */
  function ShutRdWr(k: Link): Link {
    k.(wrOpen := false, rdOpen := k.rdOpen && k.transport.Tls? && !k.wrOpen)
  }

  function LinkOf(net: Net): Link {
    Link(net.transport, net.rdOpen, net.wrOpen)
  }

  function WithLink(net: Net, k: Link): Net {
    net.(rdOpen := k.rdOpen, wrOpen := k.wrOpen)
  }

  function ShutdownWr(net: Net): Net {
    WithLink(net, ShutWr(LinkOf(net)))
  }

  function ShutdownRdWr(net: Net): Net {
    WithLink(net, ShutRdWr(LinkOf(net)))
  }

  /** What byte-wise reads can still get. */
  function Avail(net: Net): seq<Byte> {
    if net.rdOpen then net.pending else []
  }

  class Socket {
    const transport: Transport
    var pending: seq<Byte>
    var plan: seq<nat>
    var wire: seq<Byte>
    var rdOpen: bool
    var wrOpen: bool

    constructor (transport: Transport, pending: seq<Byte>, plan: seq<nat>)
      ensures State() == Net(transport, pending, plan, [], true, true)
    {
      this.transport, this.pending, this.plan := transport, pending, plan;
      wire, rdOpen, wrOpen := [], true, true;
    }

    ghost function State(): Net
      reads this
    {
      Net(transport, pending, plan, wire, rdOpen, wrOpen)
    }

    /** Takes n bytes off the stream into the buffer. */
    method Deliver(buf: array<Byte>, first: nat, n: nat)
      requires first + n <= buf.Length && n <= |pending|
      modifies this`pending, buf
      ensures pending == old(pending)[n..]
      ensures buf[..] == old(buf[..first]) + old(pending)[..n] + old(buf[first + n..])
    {
      var i := 0;
      while i < n
        invariant 0 <= i <= n && pending == old(pending)
        invariant forall j :: 0 <= j < buf.Length ==>
          buf[j] == if first <= j < first + i then pending[j - first] else old(buf[j])
      {
        buf[first + i] := pending[i];
        i := i + 1;
      }
      pending := pending[n..];
    }

    /** `SSL_read`: some positive number of bytes, at the TLS layer's choosing, while there are any. */
    method SslRead(buf: array<Byte>, first: nat, len: nat) returns (r: int)
      requires first + len <= buf.Length
      modifies this`pending, buf
      ensures r <= len
      ensures r <= 0 <==> len == 0 || !rdOpen || old(pending) == []
      ensures r <= 0 ==> pending == old(pending) && buf[..] == old(buf[..])
      ensures r > 0 ==> r <= |old(pending)| && pending == old(pending)[r..]
      ensures r > 0 ==> buf[..] == old(buf[..first]) + old(pending)[..r] + old(buf[first + r..])
    {
      if len == 0 || !rdOpen || pending == [] {
        r :| r <= 0;
      } else {
        r :| 1 <= r <= len && r <= |pending|;
        Deliver(buf, first, r);
      }
    }

    /** `repeatingBufferFill` over `SslRead`: whatever the fragments, it stores the next bytes of the
        stream in order, and succeeds exactly when there were enough to fill a non-empty buffer. */
    method RepeatingBufferFill(buf: array<Byte>, first: nat, last: nat) returns (ok: bool)
      requires first <= last <= buf.Length
      modifies this`pending, buf
      ensures var k := if rdOpen then Min(last - first, |old(pending)|) else 0;
        && pending == old(pending)[k..]
        && buf[..] == old(buf[..first]) + old(pending)[..k] + old(buf[first + k..])
        && (ok <==> 0 < last - first == k)
    {
      ghost var input, before := pending, buf[..];
      var pos := first;
      var ret := 1;
      while ret > 0 && (pos != last || pos == first)
        invariant first <= pos <= last && pos - first <= |input|
        invariant pending == input[pos - first..]
        invariant buf[..] == before[..first] + input[..pos - first] + before[pos..]
        invariant pos > first ==> rdOpen
        invariant ret <= 0 ==> pos == last == first || (pos < last && (!rdOpen || pending == []))
        decreases ret > 0, last - pos
      {
        ghost var held := buf[..];
        ret := SslRead(buf, pos, last - pos);
        if ret > 0 {
          FillStep(before, held, input, first, pos, ret);
          pos := pos + ret;
        }
      }
      ok := ret > 0;
    }

    /** `recv`: one blocking read for TCP, repeated reads for TLS. */
    method Receive(buf: array<Byte>, first: nat, len: nat) returns (n: int)
      requires first + len <= buf.Length
      modifies this`pending, buf
      ensures var r := Recv(old(State()), len);
        && State() == r.net && n == r.ret
        && buf[..] == old(buf[..first]) + r.got + old(buf[first + |r.got|..])
    {
      if transport.Tls? {
        var ok := RepeatingBufferFill(buf, first, first + len);
        n := if ok then len else -1;
      } else if rdOpen {
        n := if len < |pending| then len else |pending|;
        Deliver(buf, first, n);
      } else {
        n := -1;
      }
    }

    method Transmit(data: seq<Byte>) returns (n: int)
      modifies this`plan, this`wire
      ensures State() == Send(old(State()), data).net && n == Send(old(State()), data).ret
    {
      if !wrOpen { return -1; }
      n := |data|;
      if plan != [] {
        n := if plan[0] < n then plan[0] else n;
        plan := plan[1..];
      }
      wire := wire + data[..n];
      if n == 0 && data != [] { n := -1; }
    }

    method CloseWr()
      modifies this`rdOpen, this`wrOpen
      ensures State() == ShutdownWr(old(State()))
    {
      wrOpen := false;
      rdOpen := rdOpen && transport.Tls?;
    }

    method CloseRdWr()
      modifies this`rdOpen, this`wrOpen
      ensures State() == ShutdownRdWr(old(State()))
    {
      rdOpen := rdOpen && transport.Tls? && !wrOpen;
      wrOpen := false;
    }
  }

  /** One more fragment extends the filled stretch of the buffer by the next bytes of the input. */
  lemma FillStep(before: seq<Byte>, held: seq<Byte>, input: seq<Byte>, first: nat, pos: nat, n: nat)
    requires first <= pos && pos + n <= |before| && pos - first + n <= |input|
    requires held == before[..first] + input[..pos - first] + before[pos..]
    ensures held[..pos] + input[pos - first..][..n] + held[pos + n..]
         == before[..first] + input[..pos - first + n] + before[pos + n..]
  {
    assert held[..pos] == before[..first] + input[..pos - first];
    assert held[pos + n..] == before[pos + n..];
    assert input[..pos - first] + input[pos - first..][..n] == input[..pos - first + n];
  }
}
