/** Safety and progress of the transfer protocol, over every interleaving and every abort. */
module TransferSafety {
  import opened Wrappers
  import opened Network
  import opened TransferProtocol

  /** The executor's fields agree with where its thread is. */
  predicate ThreadOk(s: State) {
    var e := Ctl(s).exec;
    match s.background
    case NoThread => !Joinable(e)
    case Querying => e == Executor(true, false, None)
    case Returned(ok) => e == Executor(true, false, Some(ok))
    case DoneSet(ok) => e == Executor(true, true, Some(ok))
    case Exited(ok) => e == Executor(true, true, Some(ok))
  }

  /** On TLS the reader's answer was the first to shut the connection: the read side is open for good. */
  predicate HalfShut(s: State) {
    s.link.transport.Tls? && s.answered
  }

  /** A running query always has a connection that is still owned, or one that the peer sees closed; a
      thread whose query failed leaves it so. Only an answer keeps the read side open without the other. */
  predicate SocketOk(s: State) {
    && (s.background != NoThread ==> Ctl(s).sock || !s.link.wrOpen)
    && (s.background == Exited(false) ==> !s.link.wrOpen)
    && (s.answered ==> !s.link.wrOpen)
    && (!s.link.wrOpen ==> (s.link.rdOpen <==> HalfShut(s)))
    && (s.link.wrOpen ==> s.link.rdOpen)
    && (s.answered && (s.phase == QueryStart || s.phase == Transfer) && Ctl(s).sock
        ==> s.phase == Transfer && !s.writing)
  }

  /** The transfer has its socket, its running executor and the reader or writer it asked for. */
  predicate ChannelUp(s: State) {
    var c := Ctl(s);
    c.sock && Joinable(c.exec) && if s.writing then c.writer else c.reader
  }

  /** What holds at each step of the main thread. */
  predicate PcOk(s: State) {
    var c := Ctl(s);
    match s.pc
    case Entry => (s.phase == Idle || s.phase == Clean || s.phase == IoStart ==> !c.exec.Executor?)
               && (s.phase == QueryStart ==> s.controller.Some? && !c.exec.Executor? && !s.connection)
               && (s.phase == Transfer && s.connection ==> ChannelUp(s))
    case CloseSocket => s.controller.Some? && s.found == Nothing && s.ret && !s.error
    case DropSocket => s.controller.Some? && s.found == Nothing && s.ret && !s.error && (c.sock ==> !s.link.wrOpen)
    case LookForExecutor => s.controller.Some? && s.found == Nothing && s.ret && !s.error && !c.sock
    case Join => s.controller.Some? && c.exec.Executor? && !c.sock && (c.exec.result.Some? ==> Joinable(c.exec))
              && (!c.exec.joinable ==> !c.exec.done)
    case ReadDone => s.controller.Some? && c.exec.Executor? && !c.sock && s.background == NoThread
                  && FoundOk(s.found, c.exec.done, s.error)
    case DropExecutor => s.controller.Some? && c.exec.Executor? && !c.sock && s.background == NoThread
                      && FoundOk(s.found, s.ret, s.error)
    case DropReader => s.controller.Some? && !c.exec.Executor? && !c.sock && FoundOk(s.found, s.ret, s.error)
    case DropWriter => s.controller.Some? && !c.exec.Executor? && !c.sock && !c.reader
                    && FoundOk(s.found, s.ret, s.error)
    case Report => s.controller == Some(EMPTY) && FoundOk(s.found, s.ret, s.error)
    case DropController => c == EMPTY
    case NewController => s.controller.None? && s.phase == IoStart && !s.connection
    case Connect => s.controller == Some(EMPTY) && s.phase == IoStart && !s.connection
    case CheckSocket => s.controller.Some? && !c.exec.Executor? && s.phase == QueryStart && !s.connection
    case NewExecutor => s.controller.Some? && !c.exec.Executor? && c.sock && s.phase == QueryStart && !s.connection
    case Execute => s.controller.Some? && c.exec == Executor(false, false, None) && c.sock
                 && s.phase == QueryStart && !s.connection
    case NewChannel => c.sock && Joinable(c.exec) && s.phase == QueryStart && !s.connection
    case StartChannel => ChannelUp(s) && s.phase == QueryStart && !s.connection
  }

  /** The result of a shutdown: true unless the query never started, and an error exactly if it failed. */
  predicate FoundOk(found: Found, ret: bool, error: bool) {
    match found
    case Nothing => ret && !error
    case NeverStarted => !ret
    case Query(ok) => ret && error == !ok
  }

  predicate PhaseOk(s: State) {
    && (InShutDown(s.pc) ==> s.phase != Idle && s.phase != QueryStart && s.phase != Transfer)
    && (s.phase == Idle || s.phase == Transfer ==> s.pc == Entry)
    && (Ctl(s).exec.Executor? && !Ctl(s).exec.joinable && s.pc != ReadDone && s.pc != DropExecutor
        ==> Ctl(s).exec == Executor(false, false, None))
  }

  predicate Inv(s: State) {
    !s.bad && ThreadOk(s) && SocketOk(s) && PcOk(s) && PhaseOk(s)
  }

  lemma InitInv()
    ensures Inv(INIT)
  {
  }

  lemma QueryReturnsInv(s: State, ok: bool)
    requires Inv(s) && s.background == Querying
    ensures Inv(QueryReturns(s, ok))
  {
  }

  lemma SetDoneInv(s: State, ok: bool)
    requires Inv(s) && s.background == Returned(ok)
    ensures Inv(SetDone(s, ok))
  {
  }

  lemma ShutSocketInv(s: State)
    requires Inv(s) && s.background.DoneSet?
    ensures var s' := ShutSocket(s);
      Inv(s') && !s'.link.wrOpen && s'.controller == s.controller && s'.background == s.background
  {
  }

  lemma ThreadExits(s: State, ok: bool)
    requires Inv(s) && s.background == DoneSet(ok) && (ok || !s.link.wrOpen)
    ensures Inv(s.(background := Exited(ok)))
  {
  }

  lemma LeaveThreadInv(s: State, ok: bool)
    requires Inv(s) && s.background == DoneSet(ok)
    ensures Inv(LeaveThread(s, ok))
  {
    hide Inv, ShutSocket;
    if !ok {
      ShutSocketInv(s);
    }
    ThreadExits(if ok then s else ShutSocket(s), ok);
  }

  lemma BgInv(s: State, l: Label)
    requires Inv(s) && l.QueryThread? && BgEnabled(s, l.ok)
    ensures Inv(BgStep(s, l))
  {
    hide PcOk, PhaseOk, SocketOk, QueryReturns, SetDone, LeaveThread;
    assert Ctl(s).exec.Executor?;
    match s.background
    case Querying => QueryReturnsInv(s, l.ok);
    case Returned(ok) => SetDoneInv(s, ok);
    case DoneSet(ok) => LeaveThreadInv(s, ok);
  }

  /** Leaving a call is safe when the thread is accounted for and the next call finds what it expects. */
  lemma LeaveInv(s: State, returned: bool, free: bool)
    requires s.answered && Ctl(s).sock ==> NextPhase(s, returned, free) != QueryStart
    requires s.answered && Ctl(s).sock && NextPhase(s, returned, free) == Transfer ==> !s.writing
    requires !s.bad && ThreadOk(s) && SocketOk(s)
    requires var e := Ctl(s).exec; e.Executor? && !e.joinable ==> e == Executor(false, false, None)
    requires NextPhase(s, returned, free) !in {Transfer, Finish, OnExit} ==> !Ctl(s).exec.Executor?
    requires NextPhase(s, returned, free) == QueryStart ==> s.controller.Some? && !s.connection
    requires NextPhase(s, returned, free) == Transfer && s.connection ==> ChannelUp(s)
    ensures Inv(Leave(s, returned, free))
  {
  }

  lemma CloseSocketInv(s: State)
    requires Inv(s) && s.pc == CloseSocket
    ensures Inv(DoCloseSocket(s))
  {
  }

  lemma DropSocketInv(s: State)
    requires Inv(s) && s.pc == DropSocket
    ensures Inv(DoDropSocket(s))
  {
  }

  lemma LookForExecutorInv(s: State)
    requires Inv(s) && s.pc == LookForExecutor
    ensures Inv(DoLookForExecutor(s))
  {
  }

  lemma ReadDoneInv(s: State)
    requires Inv(s) && s.pc == ReadDone
    ensures Inv(DoReadDone(s))
  {
  }

  lemma DropExecutorInv(s: State)
    requires Inv(s) && s.pc == DropExecutor
    ensures Inv(DoDropExecutor(s))
  {
  }

  lemma DropReaderInv(s: State)
    requires Inv(s) && s.pc == DropReader
    ensures Inv(DoDropReader(s))
  {
  }

  lemma DropWriterInv(s: State)
    requires Inv(s) && s.pc == DropWriter
    ensures Inv(DoDropWriter(s))
  {
  }

  lemma NewControllerInv(s: State)
    requires Inv(s) && s.pc == NewController
    ensures Inv(DoNewController(s))
  {
  }

  lemma NewExecutorInv(s: State)
    requires Inv(s) && s.pc == NewExecutor
    ensures Inv(DoNewExecutor(s))
  {
  }

  lemma NewChannelInv(s: State)
    requires Inv(s) && s.pc == NewChannel
    ensures Inv(DoNewChannel(s))
  {
  }

  lemma JoinedInv(s: State, failed: bool, found: Found)
    requires Inv(s) && s.pc == Join && MainEnabled(s)
    requires FoundOk(found, Ctl(s).exec.done, failed)
    ensures Inv(Joined(s, Ctl(s).exec, failed, found))
  {
  }

  lemma JoinInv(s: State, l: Label)
    requires Inv(s) && s.pc == Join && MainEnabled(s) && l.MainThread?
    ensures Inv(DoJoin(s, l))
  {
    hide Joined;
    var e := Ctl(s).exec;
    assert e.Executor? && (if e.result.Some? then e.done else !e.done);
    if e.result.Some? {
      JoinedInv(s, !e.result.value, Query(e.result.value));
    } else {
      JoinedInv(s, !l.ok, NeverStarted);
    }
  }

  lemma ReportInv(s: State, l: Label)
    requires Inv(s) && s.pc == Report && l.MainThread?
    ensures Inv(DoReport(s, l))
  {
    if s.error && !l.back {
      LeaveInv(s, false, l.free);
    }
  }

  lemma DropControllerInv(s: State, l: Label)
    requires Inv(s) && s.pc == DropController && l.MainThread?
    ensures Inv(DoDropController(s, l))
  {
    if s.phase != IoStart {
      LeaveInv(s.(connection := false, controller := None), true, l.free);
    }
  }

  lemma ConnectInv(s: State, l: Label)
    requires Inv(s) && s.pc == Connect && l.MainThread?
    ensures Inv(DoConnect(s, l))
  {
    if l.ok {
      LeaveInv(Connected(s), true, l.free);
    } else {
      LeaveInv(s, l.back, l.free);
    }
  }

  lemma CheckSocketInv(s: State, l: Label)
    requires Inv(s) && s.pc == CheckSocket && l.MainThread?
    ensures Inv(DoCheckSocket(s, l))
  {
    if !Ctl(s).sock {
      LeaveInv(s, l.back, l.free);
    }
  }

  lemma ExecuteInv(s: State, l: Label)
    requires Inv(s) && s.pc == Execute && l.MainThread?
    ensures Inv(DoExecute(s, l))
  {
    if !l.ok {
      LeaveInv(s, l.back, l.free);
    }
  }

  lemma StartChannelInv(s: State, l: Label)
    requires Inv(s) && s.pc == StartChannel && l.MainThread?
    ensures Inv(DoStartChannel(s, l))
  {
    LeaveInv(s.(connection := s.connection || l.ok, fed := false), l.ok || l.back, l.free);
  }

  predicate Destroys(s: State) {
    s.pc == Entry && s.phase != Idle && s.phase != QueryStart && s.phase != Transfer
  }

  lemma EnterShutDownInv(s: State)
    requires Inv(s) && Destroys(s) && s.controller.Some?
    ensures Inv(EnterDestroy(s))
  {
    hide ChannelUp;
  }

  lemma EnterNoControllerInv(s: State)
    requires Inv(s) && Destroys(s) && s.controller.None?
    ensures Inv(EnterDestroy(s))
  {
    hide ChannelUp;
  }

  lemma EnterDestroyInv(s: State)
    requires Inv(s) && Destroys(s)
    ensures Inv(EnterDestroy(s))
  {
    hide Inv, EnterDestroy;
    if s.controller.Some? {
      EnterShutDownInv(s);
    } else {
      EnterNoControllerInv(s);
    }
  }

  lemma EnterQueryInv(s: State)
    requires Inv(s) && s.pc == Entry && s.phase == QueryStart
    ensures s.controller.Some? && Inv(s.(pc := CheckSocket))
  {
  }

  lemma HangUpInv(s: State)
    requires Inv(s) && s.pc == Entry && s.phase == Transfer
    ensures Inv(HangUp(s)) && HangUp(s).pc == Entry && HangUp(s).phase == Transfer
  {
  }

  lemma TransferGoesOn(s: State)
    requires Inv(s)
    ensures Inv(s.(fed := false))
  {
  }

  lemma TransferEnds(s: State, l: Label)
    requires Inv(s) && s.pc == Entry && s.phase == Transfer && l.MainThread?
    ensures Inv(Leave(s, l.ok, l.free))
  {
    LeaveInv(s, l.ok, l.free);
  }

  lemma EnterTransferInv(s: State, l: Label)
    requires Inv(s) && s.pc == Entry && s.phase == Transfer && l.MainThread?
    ensures Inv(EnterTransfer(s, l))
  {
    hide Inv, Leave, HangUp;
    HangUpInv(s);
    var s' := if l.free && s.connection then HangUp(s) else s;
    if l.back {
      TransferGoesOn(s');
    } else {
      TransferEnds(s', l);
    }
  }

  lemma EnterIdleInv(s: State, l: Label)
    requires Inv(s) && s.pc == Entry && s.phase == Idle && l.MainThread?
    ensures Inv(Leave(Begun(s, l), true, l.free))
  {
    LeaveInv(Begun(s, l), true, l.free);
  }

  lemma EnterInv(s: State, l: Label)
    requires Inv(s) && s.pc == Entry && l.MainThread?
    ensures Inv(EnterCall(s, l))
  {
    hide Inv, Leave, EnterDestroy, EnterTransfer;
    match s.phase
    case Idle => EnterIdleInv(s, l);
    case QueryStart => EnterQueryInv(s);
    case Transfer => EnterTransferInv(s, l);
    case _ => EnterDestroyInv(s);
  }

  lemma ShutDownInv(s: State, l: Label)
    requires Inv(s) && InShutDown(s.pc) && MainEnabled(s) && l.MainThread?
    ensures Inv(ShutDownStep(s, l))
  {
    hide Inv, DoCloseSocket, DoDropSocket, DoLookForExecutor, DoJoin, DoReadDone, DoDropExecutor,
         DoDropReader, DoDropWriter, DoReport, DoDropController;
    match s.pc
    case CloseSocket => CloseSocketInv(s);
    case DropSocket => DropSocketInv(s);
    case LookForExecutor => LookForExecutorInv(s);
    case Join => JoinInv(s, l);
    case ReadDone => ReadDoneInv(s);
    case DropExecutor => DropExecutorInv(s);
    case DropReader => DropReaderInv(s);
    case DropWriter => DropWriterInv(s);
    case Report => ReportInv(s, l);
    case DropController => DropControllerInv(s, l);
  }

  lemma StartInv(s: State, l: Label)
    requires Inv(s) && InStart(s.pc) && l.MainThread?
    ensures Inv(StartStep(s, l))
  {
    hide Inv, DoNewController, DoConnect, DoCheckSocket, DoNewExecutor, DoExecute, DoNewChannel, DoStartChannel;
    match s.pc
    case NewController => NewControllerInv(s);
    case Connect => ConnectInv(s, l);
    case CheckSocket => CheckSocketInv(s, l);
    case NewExecutor => NewExecutorInv(s);
    case Execute => ExecuteInv(s, l);
    case NewChannel => NewChannelInv(s);
    case StartChannel => StartChannelInv(s, l);
  }

  lemma PeerInv(s: State)
    requires Inv(s)
    ensures Inv(s.(fed := true))
  {
  }

  /** Every step of either thread, or of the peer, keeps the invariant. */
  lemma StepInv(s: State, l: Label)
    requires Inv(s)
    ensures Inv(Step(s, l))
  {
    hide Inv, EnterCall, StartStep, ShutDownStep, BgStep;
    if Enabled(s, l) {
      if l.Peer? {
        PeerInv(s);
      } else if l.QueryThread? {
        BgInv(s, l);
      } else if s.pc == Entry {
        EnterInv(s, l);
      } else if InStart(s.pc) {
        StartInv(s, l);
      } else {
        ShutDownInv(s, l);
      }
    }
  }

  lemma {:induction false} RunInv(s: State, schedule: seq<Label>)
    requires Inv(s)
    ensures Inv(After(s, schedule))
    decreases |schedule|
  {
    hide Inv, Step;
    if schedule != [] {
      StepInv(s, schedule[0]);
      RunInv(Step(s, schedule[0]), schedule[1..]);
    }
  }

  // ---------------------------------------------------------------- what the invariant gives

  /** Over every interleaving, every failure and every abort, in any number of reads and writes: no
      executor is replaced or dropped while its thread is joinable, no second thread is started beside
      one, and the thread never touches an executor or controller that is gone. */
  lemma NeverBad(schedule: seq<Label>)
    ensures !After(INIT, schedule).bad
  {
    InitInv();
    RunInv(INIT, schedule);
  }

  /** When `shutDown` is about to report, no thread is left and everything it owned is released. Without an
      executor it returns true and calls no handler; with one that was never started it returns false. */
  lemma ShutDownResult(schedule: seq<Label>)
    requires After(INIT, schedule).pc == Report
    ensures var s := After(INIT, schedule);
      && s.controller == Some(EMPTY) && s.background == NoThread
      && (s.found == Nothing ==> s.ret && !s.error)
      && (s.found == NeverStarted ==> !s.ret)
  {
    InitInv();
    RunInv(INIT, schedule);
  }

  /** R is handed a connection only over a transfer that is fully set up. */
  lemma ConnectionIsBacked(schedule: seq<Label>)
    requires After(INIT, schedule).phase == Transfer && After(INIT, schedule).connection
    ensures ChannelUp(After(INIT, schedule))
  {
    InitInv();
    RunInv(INIT, schedule);
  }

  /** Starting the reader or writer hands out a connection exactly if it succeeds, for reading and for writing,
      and leaves all else as it was; a failure goes on without one, or leaves the R function if the handler
      does not return. */
  lemma StartHandsOut(schedule: seq<Label>, l: Label)
    requires var s := After(INIT, schedule); s.pc == StartChannel && MainEnabled(s) && l.MainThread?
    ensures var s := After(INIT, schedule);
      && Step(s, l) == s.(connection := l.ok, fed := false, pc := Entry,
                          phase := if l.ok || l.back then Transfer else OnExit)
      && (l.ok ==> ChannelUp(Step(s, l)))
  {
    InitInv();
    RunInv(INIT, schedule);
    var s := After(INIT, schedule);
    hide After;
    AtStartChannel(s);
    hide Inv;
    assert Step(s, l) == DoStartChannel(s, l);
  }

  lemma AtStartChannel(s: State)
    requires Inv(s) && s.pc == StartChannel
    ensures ChannelUp(s) && s.phase == QueryStart && !s.connection
  {
    hide SocketOk, ThreadOk, PhaseOk;
  }

  /** The R function goes on after a step of its start that failed and whose handler returned, and is left
      otherwise; before the query is started there is no exit hook. */
  function AfterFailure(s: State, l: Label): Phase
    requires l.MainThread?
  {
    if s.phase == IoStart then (if l.back && l.free then QueryStart else Idle)
    else if l.back then Transfer else OnExit
  }

  /** An earlier failure of a start, to connect, to find the socket or to prepare the query, starts no thread
      and hands out nothing. */
  lemma StartFails(schedule: seq<Label>, l: Label)
    requires var s := After(INIT, schedule);
      && l.MainThread? && !l.ok && (s.pc == Connect || s.pc == Execute || (s.pc == CheckSocket && !Ctl(s).sock))
    ensures var s := After(INIT, schedule);
      && Step(s, l) == s.(pc := Entry, phase := AfterFailure(s, l))
      && !s.connection && s.background == NoThread
  {
    InitInv();
    RunInv(INIT, schedule);
    var s := After(INIT, schedule);
    hide After;
    BeforeQuery(s);
    hide Inv;
    assert Step(s, l) == StartStep(s, l);
  }

  lemma BeforeQuery(s: State)
    requires Inv(s) && (s.pc == Connect || s.pc == Execute || s.pc == CheckSocket)
    ensures !s.connection && s.background == NoThread
    ensures s.phase == if s.pc == Connect then IoStart else QueryStart
  {
    hide SocketOk, PhaseOk;
  }

  /** A portion of a transfer goes on to the next, or ends the transfer: with the finishing call, or, if the R
      function fails, with its exit hook. It may hang up; nothing else changes. */
  lemma TransferPortions(schedule: seq<Label>, l: Label)
    requires var s := After(INIT, schedule);
      s.phase == Transfer && s.pc == Entry && MainEnabled(s) && l.MainThread?
    ensures var s := After(INIT, schedule);
      var s' := if l.free && s.connection then HangUp(s) else s;
      Step(s, l) == if l.back then s'.(fed := false) else s'.(phase := if l.ok then Finish else OnExit)
  {
    var s := After(INIT, schedule);
    hide After, StartStep, ShutDownStep, HangUp;
    HangUpStays(s);
    assert Step(s, l) == EnterTransfer(s, l);
    hide Step;
  }

  lemma HangUpStays(s: State)
    ensures HangUp(s).phase == s.phase && HangUp(s).pc == s.pc && HangUp(s).writing == s.writing
  {
    hide ShutWr, ShutRdWr;
  }

  /** The report of an error leaves the call exactly if the handler does not return; otherwise the shutdown
      ends by dropping connection and controller. */
  lemma ReportGoesOn(schedule: seq<Label>, l: Label)
    requires After(INIT, schedule).pc == Report && l.MainThread?
    ensures var s := After(INIT, schedule); var s' := Step(s, l);
      if s.error && !l.back then s'.pc == Entry && s' == s.(pc := Entry, phase := s'.phase)
      else s' == s.(pc := DropController)
  {
    InitInv();
    RunInv(INIT, schedule);
    var s := After(INIT, schedule);
    ReportPhase(s);
    hide After, Inv;
    QuietStep(s, l);
    hide Step;
  }

  /** Dropping them, a call ends: the start goes on to connect, the clean-up at the beginning to the start or,
      on an error of the R function in between, to its end, the finish of a write to the exit hook. */
  lemma DropEndsCall(schedule: seq<Label>, l: Label)
    requires After(INIT, schedule).pc == DropController && l.MainThread?
    ensures var s := After(INIT, schedule); var s' := Step(s, l);
      && s' == s.(controller := None, connection := false, pc := s'.pc, phase := s'.phase)
      && match s.phase {
           case IoStart => s'.phase == IoStart && s'.pc == NewController
           case Clean => s'.pc == Entry && s'.phase == if l.free then IoStart else Idle
           case Finish => s'.pc == Entry && s'.phase == if s.writing then OnExit else Idle
           case _ => s.phase == OnExit && s'.pc == Entry && s'.phase == Idle
         }
  {
    InitInv();
    RunInv(INIT, schedule);
    var s := After(INIT, schedule);
    DropPhase(s);
    hide After, Inv;
    assert Step(s, l) == DoDropController(s, l) by { hide EnterCall, StartStep; }
    hide Step;
  }

  lemma DropPhase(s: State)
    requires Inv(s) && s.pc == DropController
    ensures s.phase == Clean || s.phase == IoStart || s.phase == Finish || s.phase == OnExit
    ensures !s.bad && !Joinable(Ctl(s).exec)
  {
    hide SocketOk, ThreadOk;
  }

  /** By the time the thread of a failed query is over, the peer sees the connection closed; nothing more
      can be received on it either, unless the reader on a TLS connection has answered before. */
  lemma FailureShutsConnection(schedule: seq<Label>)
    requires After(INIT, schedule).background == Exited(false)
    ensures var s := After(INIT, schedule); !s.link.wrOpen && (s.link.rdOpen <==> HalfShut(s))
  {
    InitInv();
    RunInv(INIT, schedule);
  }

  /** When the R function has returned, normally or by an error, no thread is left behind. */
  lemma NoThreadLeftBehind(schedule: seq<Label>)
    requires After(INIT, schedule).phase == Idle
    ensures var s := After(INIT, schedule); s.background == NoThread && !Ctl(s).exec.Executor?
  {
    InitInv();
    RunInv(INIT, schedule);
  }

  // ---------------------------------------------------------------- after a launched query

  /** The query is still running, and nothing has been joined. */
  predicate Running(s: State) {
    Joinable(Ctl(s).exec) && s.background == Querying
  }

  /** The query has returned `ok`, and either its thread is still to be joined or the shutdown knows. */
  predicate Knows(s: State, ok: bool) {
    || (Joinable(Ctl(s).exec)
        && (s.background == Returned(ok) || s.background == DoneSet(ok) || s.background == Exited(ok)))
    || ((s.pc == ReadDone || s.pc == DropExecutor || s.pc == DropReader || s.pc == DropWriter || s.pc == Report)
        && s.found == Query(ok))
  }

  /** What the query thread of this run returns: the choice in the first step that it takes. */
  function QueryAnswer(s: State, schedule: seq<Label>): Option<bool>
    decreases |schedule|
  {
    if schedule == [] then None
    else if s.background == Querying && schedule[0].QueryThread? && Enabled(s, schedule[0]) then Some(schedule[0].ok)
    else QueryAnswer(Step(s, schedule[0]), schedule[1..])
  }

  /** The run does not come to `Report` before its last state. */
  predicate UpToReport(s: State, schedule: seq<Label>)
    decreases |schedule|
  {
    schedule != [] ==> s.pc != Report && UpToReport(Step(s, schedule[0]), schedule[1..])
  }

  /** The thread and its executor are as they were. */
  predicate SameThread(s: State, s': State) {
    Ctl(s').exec == Ctl(s).exec && s'.background == s.background
  }

  lemma EnterKeepsThread(s: State, l: Label)
    requires s.pc == Entry && l.MainThread?
    ensures SameThread(s, EnterCall(s, l))
  {
    hide SameThread, Leave, EnterTransfer, EnterDestroy;
    match s.phase
    case Idle => IdleKeepsThread(s, l);
    case QueryStart => QueryKeepsThread(s, l);
    case Transfer => TransferKeepsThread(s, l);
    case _ => DestroyKeepsThread(s);
  }

  lemma IdleKeepsThread(s: State, l: Label)
    requires l.MainThread?
    ensures SameThread(s, Leave(Begun(s, l), true, l.free))
  {
    LeaveKeepsThread(Begun(s, l), true, l.free);
    hide Leave;
  }

  lemma QueryKeepsThread(s: State, l: Label)
    requires l.MainThread?
    ensures SameThread(s, Leave(s, true, l.free)) && SameThread(s, s.(pc := CheckSocket))
  {
    LeaveKeepsThread(s, true, l.free);
    hide Leave;
  }

  lemma TransferKeepsThread(s: State, l: Label)
    requires l.MainThread?
    ensures SameThread(s, EnterTransfer(s, l))
  {
    hide Leave, HangUp, Ctl;
    var s' := if l.free && s.connection then HangUp(s) else s;
    HangUpKeepsThread(s);
    if l.back {
      PortionKeepsThread(s');
    } else {
      LeaveKeepsThread(s', l.ok, l.free);
    }
  }

  lemma PortionKeepsThread(s: State)
    ensures SameThread(s, s.(fed := false))
  {
  }

  lemma HangUpKeepsThread(s: State)
    ensures SameThread(s, HangUp(s))
  {
    hide ShutWr, ShutRdWr;
  }

  lemma DestroyKeepsThread(s: State)
    ensures SameThread(s, EnterDestroy(s))
  {
  }

  lemma LeaveKeepsThread(s: State, returned: bool, free: bool)
    ensures SameThread(s, Leave(s, returned, free))
  {
    hide NextPhase;
  }

  lemma StartKeepsThread(s: State, l: Label)
    requires Inv(s) && InStart(s.pc) && l.MainThread? && Joinable(Ctl(s).exec)
    ensures SameThread(s, StartStep(s, l))
  {
    hide NextPhase, ThreadOk, SocketOk, PhaseOk;
    assert s.pc == NewChannel || s.pc == StartChannel;
  }

  lemma ShutDownKeepsThread(s: State, l: Label)
    requires Inv(s) && InShutDown(s.pc) && l.MainThread? && Joinable(Ctl(s).exec) && s.pc != Join
    ensures SameThread(s, ShutDownStep(s, l))
  {
    assert s.pc == CloseSocket || s.pc == DropSocket || s.pc == LookForExecutor;
    hide Inv;
  }

  /** While a thread is joinable, the main thread leaves it alone but in the join. */
  lemma MainKeepsThread(s: State, l: Label)
    requires Inv(s) && l.MainThread? && MainEnabled(s) && Joinable(Ctl(s).exec) && s.pc != Join
    ensures SameThread(s, MainStep(s, l))
  {
    hide Inv, SameThread, EnterCall, StartStep, ShutDownStep;
    if s.pc == Entry {
      EnterKeepsThread(s, l);
    } else if InStart(s.pc) {
      StartKeepsThread(s, l);
    } else {
      ShutDownKeepsThread(s, l);
    }
  }

  lemma RunningStep(s: State, l: Label)
    requires Inv(s) && Running(s)
    ensures if l.QueryThread? && Enabled(s, l) then Knows(Step(s, l), l.ok) else Running(Step(s, l))
  {
    if l.MainThread? && Enabled(s, l) {
      MainKeepsThread(s, l);
    }
    hide Inv, MainStep;
  }

  lemma KnowsBefore(s: State, l: Label, ok: bool)
    requires Inv(s) && Knows(s, ok) && Joinable(Ctl(s).exec)
    ensures Knows(Step(s, l), ok)
  {
    ThreadKnows(s, ok);
    if l.MainThread? && Enabled(s, l) {
      if s.pc == Join {
        JoinKnows(s, l, ok);
      } else {
        MainKeepsThread(s, l);
      }
    } else if l.QueryThread? && Enabled(s, l) {
      BgKnows(s, l, ok);
    }
    hide Inv, MainStep, BgStep;
  }

  lemma ThreadKnows(s: State, ok: bool)
    requires Inv(s) && Knows(s, ok) && Joinable(Ctl(s).exec)
    ensures s.background == Returned(ok) || s.background == DoneSet(ok) || s.background == Exited(ok)
  {
  }

  lemma JoinKnows(s: State, l: Label, ok: bool)
    requires Inv(s) && Knows(s, ok) && s.pc == Join && MainEnabled(s) && l.MainThread?
    ensures Knows(MainStep(s, l), ok)
  {
    assert MainStep(s, l) == DoJoin(s, l);
  }

  lemma BgKnows(s: State, l: Label, ok: bool)
    requires Joinable(Ctl(s).exec) && (s.background == Returned(ok) || s.background == DoneSet(ok))
    requires l.QueryThread? && BgEnabled(s, l.ok)
    ensures Knows(BgStep(s, l), ok)
  {
    hide Knows, SetDone, LeaveThread;
    if s.background == Returned(ok) {
      SetDoneKnows(s, ok);
    } else {
      LeaveThreadKnows(s, ok);
    }
  }

  lemma SetDoneKnows(s: State, ok: bool)
    requires Joinable(Ctl(s).exec) && s.background == Returned(ok)
    ensures Knows(SetDone(s, ok), ok)
  {
  }

  lemma LeaveThreadKnows(s: State, ok: bool)
    requires Joinable(Ctl(s).exec) && s.background == DoneSet(ok)
    ensures Knows(LeaveThread(s, ok), ok)
  {
  }

  lemma KnowsWhere(s: State, ok: bool)
    requires Inv(s) && Knows(s, ok) && !Joinable(Ctl(s).exec) && s.pc != Report
    ensures s.background == NoThread && s.found == Query(ok)
    ensures s.pc == ReadDone || s.pc == DropExecutor || s.pc == DropReader || s.pc == DropWriter
  {
    hide SocketOk, PhaseOk;
  }

  lemma KnowsAfter(s: State, l: Label, ok: bool)
    requires Inv(s) && Knows(s, ok) && !Joinable(Ctl(s).exec) && s.pc != Report
    ensures Knows(Step(s, l), ok)
  {
    KnowsWhere(s, ok);
    QuietStep(s, l);
    hide Inv, Step, ShutDownStep;
    if l.MainThread? {
      ReleaseKnows(s, l, ok);
    }
  }

  lemma ReleaseKnows(s: State, l: Label, ok: bool)
    requires l.MainThread? && s.found == Query(ok)
    requires s.pc == ReadDone || s.pc == DropExecutor || s.pc == DropReader || s.pc == DropWriter
    ensures Knows(ShutDownStep(s, l), ok)
  {
    match s.pc
    case ReadDone => assert ShutDownStep(s, l) == DoReadDone(s);
    case DropExecutor => assert ShutDownStep(s, l) == DoDropExecutor(s);
    case DropReader => assert ShutDownStep(s, l) == DoDropReader(s);
    case DropWriter => assert ShutDownStep(s, l) == DoDropWriter(s);
  }

  lemma KnowsStep(s: State, l: Label, ok: bool)
    requires Inv(s) && Knows(s, ok) && s.pc != Report
    ensures Knows(Step(s, l), ok)
  {
    hide Inv, Knows, Step;
    if Joinable(Ctl(s).exec) {
      KnowsBefore(s, l, ok);
    } else {
      KnowsAfter(s, l, ok);
    }
  }

  lemma {:induction false} RunKnows(s: State, schedule: seq<Label>, ok: bool)
    requires Inv(s) && Knows(s, ok) && UpToReport(s, schedule)
    ensures Knows(After(s, schedule), ok) && Inv(After(s, schedule))
    decreases |schedule|
  {
    hide Inv, Knows, Step;
    if schedule != [] {
      StepInv(s, schedule[0]);
      KnowsStep(s, schedule[0], ok);
      RunKnows(Step(s, schedule[0]), schedule[1..], ok);
    }
  }

  lemma {:induction false} RunCarries(s: State, schedule: seq<Label>)
    requires Inv(s) && Running(s) && UpToReport(s, schedule)
    ensures var s', answer := After(s, schedule), QueryAnswer(s, schedule);
      Inv(s') && if answer.Some? then Knows(s', answer.value) else Running(s')
    decreases |schedule|
  {
    hide Inv, Knows, Step, Enabled;
    if schedule != [] {
      var l := schedule[0];
      StepInv(s, l);
      RunningStep(s, l);
      if l.QueryThread? && Enabled(s, l) {
        RunKnows(Step(s, l), schedule[1..], l.ok);
      } else {
        RunCarries(Step(s, l), schedule[1..]);
      }
    }
  }

  /** From a successful `execute` to the next report of a shutdown, over every interleaving: the query
      has returned, the shutdown found its thread and returns true, and the error handler is called, as a
      non-returning handler shows, if and only if the query failed. */
  lemma ShutDownAfterExecute(before: seq<Label>, start: Label, schedule: seq<Label>)
    requires After(INIT, before).pc == Execute && start.MainThread? && start.ok
    requires var s := Step(After(INIT, before), start); UpToReport(s, schedule) && After(s, schedule).pc == Report
    ensures var s := Step(After(INIT, before), start); var s', answer := After(s, schedule), QueryAnswer(s, schedule);
      && answer.Some? && s'.found == Query(answer.value) && s'.ret
      && (Step(s', MainThread(true, false, true)).pc == Entry <==> !answer.value)
  {
    InitInv();
    RunInv(INIT, before);
    hide After, Inv, UpToReport, QueryAnswer;
    var s0 := After(INIT, before);
    ExecuteLaunches(s0, start);
    var s := Step(s0, start);
    hide Step;
    RunCarries(s, schedule);
    var answer := QueryAnswer(s, schedule);
    if answer.None? {
      ReportNotRunning(After(s, schedule));
    } else {
      ReportKnows(After(s, schedule), answer.value);
    }
  }

  lemma ExecuteLaunches(s: State, l: Label)
    requires Inv(s) && s.pc == Execute && l.MainThread? && l.ok
    ensures Inv(Step(s, l)) && Running(Step(s, l))
  {
    StepInv(s, l);
  }

  lemma ReportNotRunning(s: State)
    requires Inv(s) && s.pc == Report
    ensures !Running(s)
  {
  }

  lemma ReportKnows(s: State, ok: bool)
    requires Inv(s) && s.pc == Report && Knows(s, ok)
    ensures s.found == Query(ok) && s.ret && (Step(s, MainThread(true, false, true)).pc == Entry <==> !ok)
  {
  }

  /** A shutdown with nothing to shut down. */
  predicate NothingToDo(s: State) {
    && s.controller == Some(EMPTY) && s.background == NoThread && s.found == Nothing && s.ret && !s.error
    && (s.pc == CloseSocket || s.pc == DropSocket || s.pc == LookForExecutor
        || s.pc == DropReader || s.pc == DropWriter || s.pc == Report)
  }

  /** A shutdown that the handler cuts off has done its work: whatever it owned is released. */
  lemma AbortedShutDown(before: seq<Label>, abort: Label)
    requires var s := After(INIT, before); s.pc == Report && s.error && abort.MainThread? && !abort.back
    ensures Inv(Step(After(INIT, before), abort)) && Emptied(Step(After(INIT, before), abort))
  {
    InitInv();
    RunInv(INIT, before);
    var s := After(INIT, before);
    hide After;
    ReportPhase(s);
    StepInv(s, abort);
    hide Inv;
  }

  lemma ReportPhase(s: State)
    requires Inv(s) && s.pc == Report
    ensures s.controller == Some(EMPTY) && s.background == NoThread
    ensures s.phase != Idle && s.phase != QueryStart && s.phase != Transfer
  {
    hide SocketOk;
  }

  /** Nothing is left of a connection, and nothing is set up before the next shutdown. */
  predicate Emptied(s: State) {
    && s.controller == Some(EMPTY) && s.background == NoThread
    && (if s.pc == Entry then s.phase != QueryStart && s.phase != Transfer else NothingToDo(s))
  }

  /** Outside the join, and without a thread, a shutdown moves only by the main thread. */
  lemma QuietStep(s: State, l: Label)
    requires InShutDown(s.pc) && s.pc != Join && s.background == NoThread
    ensures Step(s, l) == if l.MainThread? then ShutDownStep(s, l) else if l.Peer? then s.(fed := true) else s
  {
    hide StartStep, EnterCall, ShutDownStep;
  }

  lemma EmptyClose(s: State)
    requires s.controller == Some(EMPTY)
    ensures DoCloseSocket(s) == s.(pc := DropSocket) && DoDropSocket(s) == s.(pc := LookForExecutor)
  {
  }

  lemma EmptyRelease(s: State)
    requires s.controller == Some(EMPTY)
    ensures DoLookForExecutor(s) == s.(pc := DropReader)
    ensures DoDropReader(s) == s.(pc := DropWriter) && DoDropWriter(s) == s.(pc := Report)
  {
  }

  lemma EmptyStep(s: State, l: Label)
    requires NothingToDo(s) && l.MainThread? && s.pc != Report
    ensures NothingToDo(ShutDownStep(s, l)) && ShutDownStep(s, l) == s.(pc := ShutDownStep(s, l).pc)
  {
    EmptyClose(s);
    EmptyRelease(s);
    hide DoCloseSocket, DoDropSocket, DoLookForExecutor, DoJoin, DoReadDone, DoDropExecutor,
         DoDropReader, DoDropWriter, DoReport, DoDropController;
  }

  /** On the way to the next shutdown nothing but the position of the main thread changes. */
  predicate Untouched(s: State, s': State) {
    s'.link == s.link && s'.answered == s.answered && s'.connection == s.connection && s'.bad == s.bad
  }

  lemma EmptiedShutDownStep(s: State, l: Label)
    requires NothingToDo(s) && s.pc != Report
    ensures Emptied(Step(s, l)) && Untouched(s, Step(s, l))
  {
    QuietStep(s, l);
    hide Step, ShutDownStep;
    if l.MainThread? {
      EmptyStep(s, l);
    }
  }

  lemma EmptiedEntry(s: State, l: Label)
    requires Emptied(s) && s.pc == Entry && l.MainThread?
    ensures Emptied(EnterCall(s, l)) && Untouched(s, EnterCall(s, l))
  {
    hide EnterTransfer;
  }

  lemma EntryStep(s: State, l: Label)
    requires Emptied(s) && s.pc == Entry
    ensures Step(s, l) == if l.MainThread? then EnterCall(s, l) else if l.Peer? then s.(fed := true) else s
  {
    hide EnterCall, StartStep, ShutDownStep;
  }

  lemma EmptiedStep(s: State, l: Label)
    requires Emptied(s) && s.pc != Report
    ensures Emptied(Step(s, l)) && Untouched(s, Step(s, l))
  {
    if s.pc == Entry {
      EntryStep(s, l);
      hide Step, EnterCall;
      if l.MainThread? {
        EmptiedEntry(s, l);
      }
    } else {
      EmptiedShutDownStep(s, l);
    }
  }

  lemma {:induction false} EmptiedRun(s: State, schedule: seq<Label>)
    requires Emptied(s) && UpToReport(s, schedule)
    ensures Emptied(After(s, schedule)) && Untouched(s, After(s, schedule))
    decreases |schedule|
  {
    hide Emptied, Step;
    if schedule != [] {
      EmptiedStep(s, schedule[0]);
      EmptiedRun(Step(s, schedule[0]), schedule[1..]);
    }
  }

  /** The next shutdown has nothing to do. From a shutdown that the handler cut off to the next report,
      over every interleaving and whichever R function comes next: it returns true, shuts and releases
      nothing, and calls no handler, as a non-returning one would show. */
  lemma SecondShutDownIsNoOp(before: seq<Label>, abort: Label, schedule: seq<Label>)
    requires var s := After(INIT, before); s.pc == Report && s.error && abort.MainThread? && !abort.back
    requires var s := Step(After(INIT, before), abort); UpToReport(s, schedule) && After(s, schedule).pc == Report
    ensures var s := Step(After(INIT, before), abort); var s' := After(s, schedule);
      && s'.ret && !s'.error && s'.controller == s.controller && Untouched(s, s')
      && Step(s', MainThread(true, false, true)) == s'.(pc := DropController)
  {
    AbortedShutDown(before, abort);
    var s := Step(After(INIT, before), abort);
    EmptiedRun(s, schedule);
    hide After, UpToReport;
    var s' := After(s, schedule);
    QuietStep(s', MainThread(true, false, true));
    hide Step;
  }

  // ---------------------------------------------------------------- progress

  /** How many steps the background thread has left. */
  function StepsLeft(b: Background): nat {
    match b
    case Querying => 3
    case Returned(_) => 2
    case DoneSet(_) => 1
    case _ => 0
  }

  /** How often a schedule turns to the background thread. */
  function QuerySteps(schedule: seq<Label>): nat {
    if schedule == [] then 0 else (if schedule[0].QueryThread? then 1 else 0) + QuerySteps(schedule[1..])
  }

  predicate Failing(b: Background) {
    b == Returned(false) || b == DoneSet(false) || b == Exited(false)
  }

  /** The main thread is in the join, or the query has failed and can shut what it waits on. */
  predicate Rescued(s: State) {
    s.pc == Join || (Failing(s.background) && !HalfShut(s))
  }

  /** A blocked join waits for a thread that can move, because the socket was shut first; and a thread
      whose query failed can move on to shut the socket under any other wait that it can end. */
  lemma BlockedCanMove(s: State)
    requires Inv(s) && Rescued(s) && !MainEnabled(s)
    ensures BgReady(s) && StepsLeft(s.background) > 0
  {
  }

  /** Meanwhile only the background thread's steps count, and each brings the end nearer. */
  lemma BlockedStep(s: State, l: Label)
    requires Inv(s) && Rescued(s) && !MainEnabled(s)
    ensures var s' := Step(s, l);
      && Rescued(s') && s'.pc == s.pc && s'.phase == s.phase
      && StepsLeft(s'.background) == StepsLeft(s.background) - (if l.QueryThread? then 1 else 0)
  {
    BlockedCanMove(s);
    if l.QueryThread? {
      ThreadHasExecutor(s);
      hide Inv, MainStep;
      assert Step(s, l) == BgStep(s, l);
      ThreadAdvances(s, l);
    }
    hide Inv, MainStep, BgStep;
  }

  lemma ThreadHasExecutor(s: State)
    requires Inv(s) && s.background != NoThread
    ensures Ctl(s).exec.Executor?
  {
    hide PcOk, PhaseOk, SocketOk;
  }

  /** One step nearer to the end of the thread, with the main thread where it was. */
  predicate Nearer(s: State, s': State) {
    && Rescued(s') && s'.pc == s.pc && s'.phase == s.phase
    && StepsLeft(s'.background) == StepsLeft(s.background) - 1
  }

  lemma QueryReturnsNearer(s: State, ok: bool)
    requires Rescued(s) && s.background == Querying && Ctl(s).exec.Executor?
    ensures Nearer(s, QueryReturns(s, ok))
  {
  }

  lemma SetDoneNearer(s: State, ok: bool)
    requires Rescued(s) && s.background == Returned(ok) && Ctl(s).exec.Executor?
    ensures Nearer(s, SetDone(s, ok))
  {
  }

  lemma LeaveThreadNearer(s: State, ok: bool)
    requires Rescued(s) && s.background == DoneSet(ok)
    ensures Nearer(s, LeaveThread(s, ok))
  {
  }

  lemma ThreadAdvances(s: State, l: Label)
    requires Rescued(s) && BgReady(s) && Ctl(s).exec.Executor? && l.QueryThread?
    ensures Nearer(s, BgStep(s, l))
  {
    hide Nearer, Rescued, QueryReturns, SetDone, LeaveThread;
    match s.background
    case Querying => QueryReturnsNearer(s, l.ok);
    case Returned(ok) => SetDoneNearer(s, ok);
    case DoneSet(ok) => LeaveThreadNearer(s, ok);
  }

  /** Whatever the schedule, once it has turned to the background thread as often as that has steps left,
      the main thread has been able to go on from where it was blocked. */
  lemma {:induction false} Unblocked(s: State, schedule: seq<Label>) returns (k: nat)
    requires Inv(s) && Rescued(s) && QuerySteps(schedule) >= StepsLeft(s.background)
    ensures k <= |schedule|
    ensures var s' := After(s, schedule[..k]); MainEnabled(s') && s'.pc == s.pc && s'.phase == s.phase
    decreases |schedule|
  {
    hide Inv, Step, MainEnabled, Rescued;
    k := 0;
    if !MainEnabled(s) {
      BlockedCanMove(s);
      var l := schedule[0];
      BlockedStep(s, l);
      StepInv(s, l);
      var k' := Unblocked(Step(s, l), schedule[1..]);
      k := k' + 1;
      assert schedule[..k][0] == l && schedule[..k][1..] == schedule[1..][..k'];
    }
  }

  /** The join completes: at most three steps of the query thread, wherever they come in a schedule, and
      whatever the query returns. */
  lemma JoinCompletes(before: seq<Label>, schedule: seq<Label>) returns (k: nat)
    requires After(INIT, before).pc == Join && QuerySteps(schedule) >= 3
    ensures k <= |schedule|
    ensures var s' := After(After(INIT, before), schedule[..k]); s'.pc == Join && MainEnabled(s')
  {
    InitInv();
    RunInv(INIT, before);
    hide After, Inv;
    k := Unblocked(After(INIT, before), schedule);
  }

  /** At some point of the schedule the main thread can go on from where it is. */
  ghost predicate GoesOn(s: State, schedule: seq<Label>) {
    exists k: nat :: k <= |schedule| && GoesOnAt(s, schedule, k)
  }

  predicate GoesOnAt(s: State, schedule: seq<Label>, k: nat)
    requires k <= |schedule|
  {
    var s' := After(s, schedule[..k]);
    MainEnabled(s') && s'.pc == s.pc && s'.phase == s.phase
  }

  /** The main thread waits for a silent peer on a half shut connection, and the query has failed. */
  predicate Lost(s: State) {
    WaitsForPeer(s) && !s.fed && HalfShut(s) && Failing(s.background)
  }

  lemma LostBlocks(s: State)
    requires Inv(s) && Lost(s)
    ensures !MainEnabled(s)
  {
  }

  lemma LostStep(s: State, l: Label)
    requires Inv(s) && Lost(s) && !l.Peer?
    ensures Lost(Step(s, l)) && Step(s, l).pc == s.pc && Step(s, l).phase == s.phase
  {
    LostBlocks(s);
    hide MainStep;
    if l.QueryThread? && BgReady(s) {
      ThreadHasExecutor(s);
      hide Inv;
    }
  }

  /** Nothing but the peer ends such a wait. */
  lemma {:induction false} LostRun(s: State, schedule: seq<Label>)
    requires Inv(s) && Lost(s) && Peer !in schedule
    ensures Lost(After(s, schedule)) && !MainEnabled(After(s, schedule))
    decreases |schedule|
  {
    hide Inv, Lost, Step, MainEnabled;
    if schedule == [] {
      LostBlocks(s);
    } else {
      LostStep(s, schedule[0]);
      StepInv(s, schedule[0]);
      LostRun(Step(s, schedule[0]), schedule[1..]);
    }
  }

  /** When a failed query releases the main thread. Wherever that waits for a peer that stays silent, and
      whatever else the schedule holds beside the two steps the query thread may have left, it can go on if
      and only if the connection is plain or the reader has not been the first to shut it by its answer. */
  lemma FailedQueryUnblocks(before: seq<Label>, schedule: seq<Label>)
    requires var s := After(INIT, before); WaitsForPeer(s) && !s.fed && Failing(s.background)
    requires QuerySteps(schedule) >= 2 && Peer !in schedule
    ensures var s := After(INIT, before); GoesOn(s, schedule) <==> s.link.transport.Plain? || !s.answered
  {
    InitInv();
    RunInv(INIT, before);
    var s := After(INIT, before);
    hide After, Inv;
    if HalfShut(s) {
      forall k: nat | k <= |schedule|
        ensures !GoesOnAt(s, schedule, k)
      {
        LostRun(s, schedule[..k]);
      }
    } else {
      var k := Unblocked(s, schedule);
      assert GoesOnAt(s, schedule, k);
    }
  }

  /** The only ways to be stuck: in a reachable state neither thread can move if and only if the main
      thread waits for a silent peer in a direction that is open, and the query waits for the connection
      to close, or has succeeded, or has failed after the reader on a TLS connection answered. */
  lemma StuckOnlyOnPeer(schedule: seq<Label>)
    ensures var s := After(INIT, schedule);
      !MainEnabled(s) && !BgReady(s) <==>
        && WaitsForPeer(s) && !s.fed
        && match s.background
           case Querying => s.needsClose && s.link.wrOpen
           case Exited(ok) => if ok then WayOpen(s) else HalfShut(s)
           case _ => false
  {
    InitInv();
    RunInv(INIT, schedule);
    var s := After(INIT, schedule);
    hide After;
    if !MainEnabled(s) && Rescued(s) {
      BlockedCanMove(s);
    }
  }

  /** The order matters: joining before the socket is shut would wait forever for a query that ends
      only when the peer sees the connection closed, unless it fails. */
  lemma {:induction false} JoinBeforeCloseHangs(s: State, schedule: seq<Label>)
    requires s.pc == Join && Joinable(Ctl(s).exec) && s.background == Querying && s.needsClose && s.link.wrOpen
    requires forall l :: l in schedule && l.QueryThread? ==> l.ok
    ensures After(s, schedule) == s.(fed := After(s, schedule).fed)
    decreases |schedule|
  {
    if schedule != [] {
      var l := schedule[0];
      assert l in schedule;
      assert Step(s, l) == s.(fed := Step(s, l).fed);
      JoinBeforeCloseHangs(Step(s, l), schedule[1..]);
    }
  }
}
