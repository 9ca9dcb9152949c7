/** Whole runs of the chunk writer: conservation of what is written, and what failures leave behind. */
module WriterRuns {
  import opened Bytes
  import opened Network
  import opened ChunkDecoder
  import opened WriterModel

  // ---------------------------------------------------------------- conservation

  /** What has been sent of `written`: all but what the buffer holds. */
  function Flushed(s: Writer, written: seq<Byte>): seq<Byte>
    requires s.len <= |written|
  {
    written[..|written| - s.len]
  }

  /** The books of an undisturbed transfer: the wire holds nothing or the header once and then what has
      been flushed; flushed bytes and buffered bytes make up everything written. */
  ghost predicate Balanced(s: Writer, written: seq<Byte>) {
    && WriterOk(s) && s.alive && s.net.wrOpen && s.len <= |written|
    && s.buf[..s.len] == written[|written| - s.len..]
    && s.net.wire == (if s.num == 0 then [] else HEADER + Flushed(s, written))
    && (s.num == 0 <==> s.len == |written|)
  }

  lemma SendTaken(n: Net, data: seq<Byte>)
    requires n.wrOpen && n.plan == [] && data != []
    ensures Send(n, data) == Sent(n.(wire := n.wire + data), |data|)
  {
    assert data[..|data|] == data;
  }

  lemma HeaderNonempty()
    ensures HEADER != []
  {
  }

  lemma StoreBalanced(s: Writer, written: seq<Byte>, data: seq<Byte>)
    requires Balanced(s, written) && |data| <= MAX - s.len
    ensures Balanced(Stored(s, data), written + data)
  {
    hide HeaderText;
    var s' := Stored(s, data);
    assert written[|written| - s.len..] + data == (written + data)[|written| - s.len..];
    assert Flushed(s', written + data) == Flushed(s, written);
  }

  /** What the network takes with one buffer. */
  function Parcel(s: Writer): seq<Byte>
    requires WriterOk(s)
  {
    (if s.num == 0 then HEADER else []) + s.buf[..s.len]
  }

  lemma ChunkSent(s: Writer)
    requires WriterOk(s) && s.alive && s.net.wrOpen && s.net.plan == [] && s.len > 0
    ensures WriteNextChunk(s)
         == WriteStep(s.(len := 0, num := s.num + 1, net := s.net.(wire := s.net.wire + Parcel(s))), s.len)
  {
    hide HeaderText;
    HeaderNonempty();
    var data := s.buf[..s.len];
    var n := if s.num == 0 then s.net.(wire := s.net.wire + HEADER) else s.net;
    SendTaken(s.net, HEADER);
    SendTaken(n, data);
    hide Send, GiveUp;
    assert n.wire + data == s.net.wire + Parcel(s);
  }

  /** A buffer on the wire completes the stream of everything written so far. */
  lemma ParcelCompletes(s: Writer, written: seq<Byte>)
    requires Balanced(s, written)
    ensures s.net.wire + Parcel(s) == HEADER + written
  {
    hide HeaderText;
    Reassembled(HEADER, s.buf[..s.len], written, |written| - s.len);
    if s.num == 0 {
      EmptyPrefix(s.net.wire, Parcel(s));
    }
  }

  lemma Reassembled(header: seq<Byte>, data: seq<Byte>, written: seq<Byte>, k: nat)
    requires k <= |written| && data == written[k..]
    ensures header + written[..k] + ([] + data) == header + written
    ensures k == 0 ==> header + data == header + written
  {
    assert written[..k] + written[k..] == written;
  }

  lemma EmptyPrefix(a: seq<Byte>, b: seq<Byte>)
    requires a == []
    ensures a + b == b
  {
  }

  lemma SentBalanced(s: Writer, s': Writer, written: seq<Byte>)
    requires Balanced(s, written) && s.len > 0
    requires s' == s.(len := 0, num := s.num + 1, net := s'.net)
    requires s'.net == s.net.(plan := s'.net.plan, wire := s.net.wire + Parcel(s))
    ensures Balanced(s', written)
  {
    hide HeaderText;
    ParcelCompletes(s, written);
    assert Flushed(s', written) == written;
  }

  lemma ChunkBalanced(s: Writer, written: seq<Byte>)
    requires Balanced(s, written) && s.net.plan == [] && s.len > 0
    ensures var r := WriteNextChunk(s);
      r.ret == s.len && Balanced(r.s, written) && r.s.net.plan == [] && r.s.num == s.num + 1
  {
    hide HeaderText, WriteNextChunk, Parcel;
    ChunkSent(s);
    SentBalanced(s, WriteNextChunk(s).s, written);
  }

  /** How often a write of `len` bytes flushes a buffer that already holds `start`. */
  function Flushes(start: nat, len: nat): nat {
    if start + len == 0 then 0 else (start + len - 1) / 524288
  }

  lemma FlushesStep(start: nat, len: nat)
    requires start <= MAX
    ensures len <= MAX - start ==> Flushes(start, len) == 0
    ensures len > MAX - start ==> Flushes(start, len) == 1 + Flushes(0, len - (MAX - start))
  {
  }

  /** A write keeps the books, and its flushes follow a closed form: each carries a full buffer. */
  lemma {:induction false} WriteBalanced(s: Writer, written: seq<Byte>, data: seq<Byte>)
    requires WriterOk(s) && Balanced(s, written) && s.net.plan == []
    ensures var r, f := PipeWrite(s, data), Flushes(s.len, |data|);
      && Balanced(r.s, written + data) && r.s.net.plan == []
      && r.s.num == s.num + f && r.s.len == s.len + |data| - f * 524288
      && r.ret == (if f == 0 then |data| else r.s.len)
    decreases |data|, s.len
  {
    hide WriteNextChunk, Stored, Balanced;
    FlushesStep(s.len, |data|);
    var rest := MAX - s.len;
    if rest >= |data| {
      StoreBalanced(s, written, data);
      StoredLen(s, data);
    } else {
      var s1 := Stored(s, data[..rest]);
      StoreBalanced(s, written, data[..rest]);
      StoredLen(s, data[..rest]);
      ChunkBalanced(s1, written + data[..rest]);
      var s2 := WriteNextChunk(s1).s;
      WriteBalanced(s2, written + data[..rest], data[rest..]);
      FlushesStep(0, |data| - rest);
      assert written + data[..rest] + data[rest..] == written + data;
    }
  }

  lemma StoredLen(s: Writer, data: seq<Byte>)
    requires WriterOk(s) && |data| <= MAX - s.len
    ensures Stored(s, data).len == s.len + |data| && Stored(s, data).num == s.num && Stored(s, data).net == s.net
  {
  }

  /** What a peer gets: nothing, or the header and the data. */
  function Delivery(written: seq<Byte>): seq<Byte> {
    if written == [] then [] else HEADER + written
  }

  lemma FlushBalanced(s: Writer, written: seq<Byte>)
    requires Balanced(s, written) && s.net.plan == []
    ensures var r := PipeFlush(s);
      && r.ret == 0 && Balanced(r.s, written) && r.s.net.plan == [] && r.s.len == 0
      && r.s.net.wire == Delivery(written)
  {
    hide HeaderText, WriteNextChunk;
    if s.len > 0 {
      ChunkBalanced(s, written);
    }
    assert written[..|written|] == written;
  }

  lemma {:induction false} RunBalanced(s: Writer, written: seq<Byte>, calls: seq<WriterCall>)
    requires WriterOk(s) && Balanced(s, written) && s.net.plan == []
    ensures var r := RunWriter(s, calls);
      Balanced(r.s, written + Written(calls)) && r.s.net.plan == [] && forall i :: 0 <= i < |calls| ==> r.rets[i] >= 0
    decreases |calls|
  {
    hide HeaderText, Balanced, PipeWrite, PipeFlush;
    if calls == [] {
      assert written + [] == written;
    } else {
      match calls[0] {
        case Write(data) => WriteBalanced(s, written, data);
        case Flush => FlushBalanced(s, written); assert written + [] == written;
      }
      var w := DoWriterCall(s, calls[0]);
      var now := written + Handed(calls[0]);
      RunBalanced(w.s, now, calls[1..]);
      assert now + Written(calls[1..]) == written + Written(calls);
    }
  }

  lemma FreshBalanced(net: Net)
    requires net.wrOpen && net.wire == []
    ensures Balanced(FreshWriter(net), []) && FreshWriter(net).net == net
  {
  }

  /** When every send is taken, no call fails and the books balance after any sequence of writes and
      flushes; a final flush leaves the header and then everything written on the wire. */
  lemma WriterConserves(net: Net, calls: seq<WriterCall>)
    requires net.wrOpen && net.plan == [] && net.wire == []
    ensures var r := RunWriter(FreshWriter(net), calls);
      && Balanced(r.s, Written(calls)) && NoneFailed(r.rets)
      && PipeFlush(r.s).s.net.wire == Delivery(Written(calls))
  {
    hide HeaderText, FreshWriter, RunWriter, PipeFlush, Written, Balanced;
    assert [] + Written(calls) == Written(calls);
    FreshBalanced(net);
    RunBalanced(FreshWriter(net), [], calls);
    FlushBalanced(RunWriter(FreshWriter(net), calls).s, Written(calls));
  }

  /** `pipe_write` reports how much it stored after its last flush. That is the size of the write
      exactly when the write fitted the buffer, or followed a buffer that was just full. */
  lemma ReturnIsCountIff(s: Writer, written: seq<Byte>, data: seq<Byte>)
    requires WriterOk(s) && Balanced(s, written) && s.net.plan == []
    ensures PipeWrite(s, data).ret == |data| <==> s.len + |data| <= MAX || (s.len == MAX && |data| <= MAX)
  {
    hide PipeWrite, Balanced;
    WriteBalanced(s, written, data);
    FlushCounts(s.len, |data|);
  }

  lemma FlushCounts(start: nat, len: nat)
    requires start <= MAX
    ensures var f := Flushes(start, len);
      && (f == 0 <==> start + len <= MAX)
      && (start == f * MAX && f > 0 <==> start == MAX && 0 < len <= MAX)
  {
  }

  /** An instance: a fresh writer is handed one byte and then a full buffer's worth. The second write
      stores or sends all of it and returns 1. */
  lemma ResidueExample(net: Net, b: Byte, data: seq<Byte>)
    requires net.wrOpen && net.plan == [] && net.wire == [] && |data| == MAX
    ensures var r := RunWriter(FreshWriter(net), [Write([b]), Write(data)]);
      r.rets == [1, 1] && r.s.net.wire == HEADER + ([b] + data)[..MAX] && r.s.len == 1
  {
    hide PipeWrite, Balanced;
    var s0 := FreshWriter(net);
    FreshBalanced(net);
    WriteBalanced(s0, [], [b]);
    var s1 := PipeWrite(s0, [b]).s;
    assert [] + [b] == [b];
    WriteBalanced(s1, [b], data);
    var s2 := PipeWrite(s1, data).s;
    BalancedWire(s2, [b] + data);
    var calls := [Write([b]), Write(data)];
    assert calls[1..] == [Write(data)] && calls[1..][1..] == [];
    assert RunWriter(s1, [Write(data)]) == WriterRun(s2, [PipeWrite(s1, data).ret]);
  }

  lemma BalancedWire(s: Writer, written: seq<Byte>)
    requires Balanced(s, written) && s.num > 0
    ensures s.len <= |written| && s.net.wire == HEADER + Flushed(s, written)
  {
  }

  // ---------------------------------------------------------------- failures

  /** A broken transfer: the wire holds a prefix of header and payload, then the error answer, whole or cut at
      what the network would take of a send; and it is shut. `plan` is what the network was to take. */
  ghost predicate Broken(s: Writer, written: seq<Byte>, plan: seq<nat>) {
    !s.net.wrOpen && exists k: nat :: BrokenAt(s.net.wire, HEADER + written, plan, k)
  }

  predicate BrokenAt(wire: seq<Byte>, stream: seq<Byte>, plan: seq<nat>, k: nat) {
    && k <= |stream| && k <= |wire| && wire[..k] == stream[..k] && wire[k..] <= ERROR_ANSWER
    && (wire[k..] == ERROR_ANSWER || |wire| - k in plan)
  }

  /** What the network is still to take is part of the plan. */
  predicate Planned(n: Net, plan: seq<nat>) {
    forall x :: x in n.plan ==> x in plan
  }

  lemma BrokenGrows(s: Writer, s': Writer, written: seq<Byte>, more: seq<Byte>, plan: seq<nat>)
    requires Broken(s, written, plan) && !s'.net.wrOpen && s'.net.wire == s.net.wire
    ensures Broken(s', written + more, plan)
  {
    hide HeaderText;
    var k: nat :| BrokenAt(s.net.wire, HEADER + written, plan, k);
    assert (HEADER + (written + more))[..k] == (HEADER + written)[..k];
    assert BrokenAt(s'.net.wire, HEADER + (written + more), plan, k);
  }

  /** The error answer goes out whole, or as far as the network takes it. */
  lemma AnswerSent(n: Net)
    requires n.wrOpen
    ensures var a := Send(n, ERROR_ANSWER).net.wire[|n.wire|..];
      && a <= ERROR_ANSWER && Send(n, ERROR_ANSWER).net.wire == n.wire + a
      && (a == ERROR_ANSWER || (n.plan != [] && |a| == n.plan[0]))
  {
    assert ERROR_ANSWER[..|ERROR_ANSWER|] == ERROR_ANSWER;
  }

  /** Giving up on a send of `data` after `sofar` breaks the transfer in the prescribed way. */
  lemma GiveUpBreaks(s: Writer, n: Net, data: seq<Byte>, written: seq<Byte>, plan: seq<nat>)
    requires n.wrOpen && n.wire + data <= HEADER + written && Planned(n, plan)
    ensures Broken(GiveUp(s, Send(n, data).net).s, written, plan)
  {
    hide HeaderText;
    var stream, n' := HEADER + written, Send(n, data).net;
    var k := |n'.wire|;
    assert n'.wire == (n.wire + data)[..k] == stream[..k];
    var w := GiveUp(s, n').s.net.wire;
    AnswerSent(n');
    assert w[..k] == n'.wire;
    assert n'.plan != [] ==> n'.plan[0] in n.plan;
    assert BrokenAt(w, stream, plan, k);
  }

  /** The three ways to send a buffer: header and data taken, header cut short, data cut short. */
  lemma ChunkOutcome(s: Writer) returns (n: Net)
    requires WriterOk(s) && s.alive && s.net.wrOpen && s.len > 0
    ensures n == s.net.(plan := n.plan, wire := n.wire) && n.wire + s.buf[..s.len] == s.net.wire + Parcel(s)
    ensures Planned(n, s.net.plan)
    ensures var r := WriteNextChunk(s);
      || (r.ret >= 0 && Planned(r.s.net, s.net.plan) && r.s == s.(len := 0, num := s.num + 1, net := r.s.net)
          && r.s.net == s.net.(plan := r.s.net.plan, wire := s.net.wire + Parcel(s)))
      || (r.ret < 0 && s.num == 0 && r.s == GiveUp(s, Send(s.net, HEADER).net).s)
      || (r.ret < 0 && r.s == GiveUp(s, Send(n, s.buf[..s.len]).net).s)
  {
    hide HeaderText, Send;
    HeaderNonempty();
    var data := s.buf[..s.len];
    var h := if s.num == 0 then Send(s.net, HEADER) else Sent(s.net, |HEADER|);
    SentWhole(s.net, HEADER);
    n := if h.ret == |HEADER| then h.net else s.net.(wire := s.net.wire + HEADER);
    assert n.wire + data == s.net.wire + Parcel(s);
    SentWhole(n, data);
  }

  /** One buffer on any network: balanced books stay balanced or the transfer breaks. */
  lemma ChunkAnyNetwork(s: Writer, written: seq<Byte>, plan: seq<nat>)
    requires Balanced(s, written) && s.len > 0 && Planned(s.net, plan)
    ensures var r := WriteNextChunk(s);
      if r.ret >= 0 then Balanced(r.s, written) && Planned(r.s.net, plan) else Broken(r.s, written, plan)
  {
    hide HeaderText, Send, GiveUp, Broken, WriteNextChunk, Parcel;
    var n := ChunkOutcome(s);
    ParcelCompletes(s, written);
    var r := WriteNextChunk(s);
    if r.ret >= 0 {
      SentBalanced(s, r.s, written);
    } else {
      GiveUpBreaks(s, n, s.buf[..s.len], written, plan);
      if s.num == 0 {
        assert s.net.wire + HEADER == HEADER;
        GiveUpBreaks(s, s.net, HEADER, written, plan);
      }
    }
  }

  lemma SentWhole(n: Net, data: seq<Byte>)
    requires n.wrOpen && data != []
    ensures Planned(Send(n, data).net, n.plan)
    ensures Send(n, data).ret == |data| ==>
      Send(n, data).net == n.(plan := Send(n, data).net.plan, wire := n.wire + data)
  {
    assert data[..|data|] == data;
  }

  /** Once broken, nothing the caller does puts anything on the wire again. */
  lemma ChunkStaysBroken(s: Writer)
    requires WriterOk(s) && !s.net.wrOpen
    ensures var n := WriteNextChunk(s).s.net; n.wire == s.net.wire && !n.wrOpen
  {
    hide HeaderText;
  }

  lemma {:induction false} WriteStaysBroken(s: Writer, data: seq<Byte>)
    requires WriterOk(s) && !s.net.wrOpen
    ensures var n := PipeWrite(s, data).s.net; n.wire == s.net.wire && !n.wrOpen
    decreases |data|, s.len
  {
    hide WriteNextChunk, Stored;
    var rest := MAX - s.len;
    if rest < |data| {
      var s1 := Stored(s, data[..rest]);
      StoredLen(s, data[..rest]);
      ChunkStaysBroken(s1);
      var w := WriteNextChunk(s1);
      if w.ret >= 0 {
        WriteStaysBroken(w.s, data[rest..]);
      }
    } else {
      StoredLen(s, data);
    }
  }

  lemma {:induction false} WriteAnyNetwork(s: Writer, written: seq<Byte>, data: seq<Byte>, plan: seq<nat>)
    requires WriterOk(s) && Balanced(s, written) && Planned(s.net, plan)
    ensures var r, now := PipeWrite(s, data), written + data;
      if r.ret >= 0 then Balanced(r.s, now) && Planned(r.s.net, plan) else Broken(r.s, now, plan)
    decreases |data|, s.len
  {
    hide WriteNextChunk, Stored, Balanced, Broken, HeaderText;
    var rest := MAX - s.len;
    if rest >= |data| {
      StoreBalanced(s, written, data);
      StoredLen(s, data);
    } else {
      var s1, now := Stored(s, data[..rest]), written + data[..rest];
      StoreBalanced(s, written, data[..rest]);
      StoredLen(s, data[..rest]);
      ChunkAnyNetwork(s1, now, plan);
      var w := WriteNextChunk(s1);
      assert now + data[rest..] == written + data;
      if w.ret >= 0 {
        WriteAnyNetwork(w.s, now, data[rest..], plan);
      } else {
        BrokenShut(w.s, now, plan);
        BrokenGrows(w.s, w.s, now, data[rest..], plan);
      }
    }
  }

  lemma BrokenShut(s: Writer, written: seq<Byte>, plan: seq<nat>)
    requires Broken(s, written, plan)
    ensures !s.net.wrOpen
  {
  }

  /** The books balance and the network keeps to its plan, or the transfer is broken. */
  ghost predicate Accounted(s: Writer, written: seq<Byte>, plan: seq<nat>) {
    (Balanced(s, written) && Planned(s.net, plan)) || Broken(s, written, plan)
  }

  lemma FlushAnyNetwork(s: Writer, written: seq<Byte>, plan: seq<nat>)
    requires WriterOk(s) && Accounted(s, written, plan)
    ensures Accounted(PipeFlush(s).s, written, plan)
    ensures Balanced(s, written) && PipeFlush(s).ret >= 0 ==> Balanced(PipeFlush(s).s, written)
  {
    hide WriteNextChunk, Balanced, Broken;
    if s.len > 0 {
      if Balanced(s, written) && Planned(s.net, plan) {
        ChunkAnyNetwork(s, written, plan);
      } else {
        NotBoth(s, written, plan);
        ChunkStaysBroken(s);
        BrokenGrows(s, PipeFlush(s).s, written, [], plan);
        assert written + [] == written;
      }
    }
  }

  lemma NotBoth(s: Writer, written: seq<Byte>, plan: seq<nat>)
    requires Broken(s, written, plan)
    ensures !s.net.wrOpen && !Balanced(s, written)
  {
    hide HeaderText;
  }

  /** No call reported an error. */
  predicate NoneFailed(rets: seq<int>) {
    forall i :: 0 <= i < |rets| ==> rets[i] >= 0
  }

  lemma NoneFailedSplit(ret: int, rets: seq<int>)
    ensures NoneFailed([ret] + rets) <==> ret >= 0 && NoneFailed(rets)
  {
    var all := [ret] + rets;
    assert all[0] == ret && forall i :: 0 <= i < |rets| ==> all[i + 1] == rets[i];
    if NoneFailed(all) {
      forall i | 0 <= i < |rets| ensures rets[i] >= 0 { assert all[i + 1] >= 0; }
    }
  }

  lemma CallAnyNetwork(s: Writer, written: seq<Byte>, call: WriterCall, plan: seq<nat>)
    requires WriterOk(s) && Accounted(s, written, plan)
    ensures var r, now := DoWriterCall(s, call), written + Handed(call);
      && Accounted(r.s, now, plan)
      && (Balanced(s, written) && r.ret >= 0 ==> Balanced(r.s, now))
  {
    hide Balanced, Broken, PipeWrite, PipeFlush;
    match call
    case Write(data) =>
      if Balanced(s, written) && Planned(s.net, plan) {
        WriteAnyNetwork(s, written, data, plan);
      } else {
        NotBoth(s, written, plan);
        WriteStaysBroken(s, data);
        BrokenGrows(s, PipeWrite(s, data).s, written, data, plan);
      }
    case Flush =>
      FlushAnyNetwork(s, written, plan);
      assert written + [] == written;
  }

  lemma {:induction false} RunAnyNetwork(s: Writer, written: seq<Byte>, calls: seq<WriterCall>, plan: seq<nat>)
    requires WriterOk(s) && Accounted(s, written, plan)
    ensures var r, now := RunWriter(s, calls), written + Written(calls);
      && Accounted(r.s, now, plan)
      && (Balanced(s, written) && NoneFailed(r.rets) ==> Balanced(r.s, now))
    decreases |calls|
  {
    hide Balanced, Accounted, DoWriterCall, Handed, WriterOk, NoneFailed;
    if calls == [] {
      assert written + [] == written;
    } else {
      var w, now := DoWriterCall(s, calls[0]), written + Handed(calls[0]);
      CallAnyNetwork(s, written, calls[0], plan);
      RunAnyNetwork(w.s, now, calls[1..], plan);
      assert now + Written(calls[1..]) == written + Written(calls);
      NoneFailedSplit(w.ret, RunWriter(w.s, calls[1..]).rets);
    }
  }

  /** On any network, whatever each send takes: after any calls either the books balance, or the wire
      is shut and holds a prefix of header and payload followed by the error answer, whole or cut at what the
      network was to take of a send; and if no call reported an error the books balance, so no loss is
      silent. */
  lemma WriterOnAnyNetwork(net: Net, calls: seq<WriterCall>)
    requires net.wrOpen && net.wire == []
    ensures var r := RunWriter(FreshWriter(net), calls);
      && (Balanced(r.s, Written(calls)) || Broken(r.s, Written(calls), net.plan))
      && (NoneFailed(r.rets) ==> Balanced(r.s, Written(calls)))
  {
    hide RunWriter, Written, Balanced, Broken;
    assert [] + Written(calls) == Written(calls);
    FreshBalanced(net);
    RunAnyNetwork(FreshWriter(net), [], calls, net.plan);
  }

  /** An empty buffer is an error, and the peer is told. */
  lemma EmptyBufferRefused(s: Writer)
    requires WriterOk(s) && s.alive && s.len == 0
    ensures var r := WriteNextChunk(s);
      && r.ret == -1 && r.s == s.(net := r.s.net) && !r.s.net.wrOpen
      && (s.net.wrOpen && s.net.plan == [] ==> r.s.net.wire == s.net.wire + ERROR_ANSWER)
  {
    assert ERROR_ANSWER[..|ERROR_ANSWER|] == ERROR_ANSWER;
  }

  /** Once the socket is gone a write that fits is stored, and everything else fails; nothing is sent. */
  lemma {:induction false} WriteWithoutSocket(s: Writer, call: WriterCall)
    requires WriterOk(s) && !s.alive
    ensures var r := DoWriterCall(s, call);
      && r.s.net == s.net
      && r.ret == match call
           case Write(data) => (if s.len + |data| <= 524288 then |data| else -1)
           case Flush => (if s.len == 0 then 0 else -1)
  {
    hide HeaderText;
  }
}
