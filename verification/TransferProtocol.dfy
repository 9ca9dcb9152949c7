/** A data transfer as the interleaving of two threads and a peer: R's main thread, which runs the
    transfer functions of the package over the connection context and controller; the background thread
    that executes the query; and the database node at the other end of the socket, on which the main
    thread waits in its reads and writes. Each label is one atomic step; the environment's choices are
    part of it. */
module TransferProtocol {
  import opened Wrappers
  import opened Network

  // ---------------------------------------------------------------- state

  /** `mOdbcAsyncExecutor`: its thread handle, its done flag and the result its query left. */
  datatype Executor = NoExecutor | Executor(joinable: bool, done: bool, result: Option<bool>)

  datatype Controller = Controller(sock: bool, exec: Executor, reader: bool, writer: bool)

  const EMPTY: Controller := Controller(false, NoExecutor, false, false)

  /** Where the background thread is; `ok` is what the query returned. */
  datatype Background = NoThread | Querying | Returned(ok: bool) | DoneSet(ok: bool) | Exited(ok: bool)

  /** Which call of the R function is under way; `Idle` between R functions. */
  datatype Phase = Idle | Clean | IoStart | QueryStart | Transfer | Finish | OnExit

  /** The next atomic step of that call. */
  datatype Pc =
    | Entry
    | CloseSocket | DropSocket | LookForExecutor | Join | ReadDone | DropExecutor | DropReader | DropWriter
    | Report | DropController
    | NewController | Connect
    | CheckSocket | NewExecutor | Execute | NewChannel | StartChannel

  predicate InStart(pc: Pc) {
    match pc
    case NewController | Connect | CheckSocket | NewExecutor | Execute | NewChannel | StartChannel => true
    case _ => false
  }

  predicate InShutDown(pc: Pc) {
    pc != Entry && !InStart(pc)
  }

  /** What a shutdown found: no executor, one whose query never started, or a query and its result. */
  datatype Found = Nothing | NeverStarted | Query(ok: bool)

  /** `wanted` is the transport that the R function asks for, `link` the last connection that was made;
      `answered`: the first to shut it was the reader, when it answered the peer; `fed`: the peer has done
      what the next read or write waits for. */
  datatype State = State(
    phase: Phase, writing: bool, wanted: Transport, pc: Pc,
    controller: Option<Controller>, connection: bool,
    background: Background, needsClose: bool,
    link: Link, answered: bool, fed: bool,
    found: Found, ret: bool, error: bool,
    bad: bool)

  const NO_LINK: Link := Link(Plain, false, false)

  const INIT: State :=
    State(Idle, false, Plain, Entry, None, false, NoThread, false, NO_LINK, false, false, Nothing, false, false, false)

  /** The environment's part of a step: does the foreign call succeed, does the error handler return,
      and a further free choice: does the R function read or write, does it get from one call to the
      next, must the query wait until the peer sees the connection closed, does the transfer hang up. At the
      entry of an R function `ok` says whether it asks for TLS. */
  datatype Label = MainThread(ok: bool, back: bool, free: bool) | QueryThread(ok: bool) | Peer

  // ---------------------------------------------------------------- the R functions

  /** The call that follows when the current one returns, or is left by a non-returning handler. */
  function NextPhase(s: State, returned: bool, free: bool): Phase {
    match s.phase
    case Idle => Clean
    case Clean => if free then IoStart else Idle
    case IoStart => if returned && free then QueryStart else Idle
    case QueryStart => if returned then Transfer else OnExit
    case Transfer => if returned then Finish else OnExit
    case Finish => if s.writing then OnExit else Idle
    case OnExit => Idle
  }

  function Leave(s: State, returned: bool, free: bool): State {
    s.(phase := NextPhase(s, returned, free), pc := Entry)
  }

  // ---------------------------------------------------------------- the main thread

  function Ctl(s: State): Controller {
    if s.controller.Some? then s.controller.value else EMPTY
  }

  function SetCtl(s: State, c: Controller): State {
    s.(controller := Some(c))
  }

  /** Destroying a joinable `std::thread` ends the process. */
  predicate Joinable(e: Executor) {
    e.Executor? && e.joinable
  }

  /** The main thread is in `start`, which receives the header, or transfers data. */
  predicate WaitsForPeer(s: State) {
    s.pc == StartChannel || (s.pc == Entry && s.phase == Transfer && s.connection)
  }

  /** The direction in which it waits is open: the header is received, also by a writer. */
  predicate WayOpen(s: State) {
    if s.writing && s.pc != StartChannel then s.link.wrOpen else s.link.rdOpen
  }

  /** It blocks in the join until the thread is over, and in a read or write until the peer has done its
      part or that direction is shut. */
  predicate MainEnabled(s: State) {
    && (s.pc == Join ==> !Joinable(Ctl(s).exec) || s.background.Exited?)
    && (WaitsForPeer(s) ==> s.fed || !WayOpen(s))
  }

  /** `ConnectionContext` entry points, by phase. */
  function EnterCall(s: State, l: Label): State
    requires l.MainThread?
  {
    match s.phase
    case Idle => Leave(Begun(s, l), true, l.free)
    case QueryStart => if s.controller.None? then Leave(s, true, l.free) else s.(pc := CheckSocket)
    case Transfer => EnterTransfer(s, l)
    case _ => EnterDestroy(s)
  }

  function Begun(s: State, l: Label): State
    requires l.MainThread?
  {
    s.(writing := l.free, wanted := if l.ok then Tls else Plain)
  }

  /** A transfer goes on portion by portion, each of which waits for the peer anew and may hang up. */
  function EnterTransfer(s: State, l: Label): State
    requires l.MainThread?
  {
    var s' := if l.free && s.connection then HangUp(s) else s;
    if l.back then s'.(fed := false) else Leave(s', l.ok, l.free)
  }

  /** With either answer the reader shuts the write side; a writer that fails shuts both. */
  function HangUp(s: State): State {
    if s.writing then s.(link := ShutRdWr(s.link))
    else s.(link := ShutWr(s.link), answered := s.answered || s.link.wrOpen)
  }

  /** `shutdownRdWr` on the socket, if the controller still has one. */
  function ShutSocket(s: State): State {
    if Ctl(s).sock then s.(link := ShutRdWr(s.link)) else s
  }

  /** `destroyConnection` reports failure if there is no controller. */
  function EnterDestroy(s: State): State {
    if s.controller.Some? then s.(found := Nothing, ret := true, error := false, pc := CloseSocket)
    else s.(found := Nothing, ret := false, error := false, pc := DropController)
  }

  function DoCloseSocket(s: State): State {
    ShutSocket(s).(pc := DropSocket)
  }

  function DoDropSocket(s: State): State {
    SetCtl(s, Ctl(s).(sock := false)).(pc := LookForExecutor)
  }

  function DoLookForExecutor(s: State): State {
    s.(pc := if Ctl(s).exec.Executor? then Join else DropReader)
  }

  /** `joinAndCheckResult`; without a query result the message is whatever the field held. */
  function DoJoin(s: State, l: Label): State
    requires l.MainThread?
  {
    var e := Ctl(s).exec;
    if e.NoExecutor? then s.(pc := DropReader)
    else if e.result.Some? then Joined(s, e, !e.result.value, Query(e.result.value))
    else Joined(s, e, !l.ok, NeverStarted)
  }

  function Joined(s: State, e: Executor, failed: bool, found: Found): State
    requires e.Executor?
  {
    SetCtl(s, Ctl(s).(exec := e.(joinable := false)))
      .(background := NoThread, error := failed, found := found, pc := ReadDone)
  }

  function DoReadDone(s: State): State {
    s.(ret := Ctl(s).exec.Executor? && Ctl(s).exec.done, pc := DropExecutor)
  }

  function DoDropExecutor(s: State): State {
    SetCtl(s, Ctl(s).(exec := NoExecutor)).(bad := s.bad || Joinable(Ctl(s).exec), pc := DropReader)
  }

  function DoDropReader(s: State): State {
    SetCtl(s, Ctl(s).(reader := false)).(pc := DropWriter)
  }

  function DoDropWriter(s: State): State {
    SetCtl(s, Ctl(s).(writer := false)).(pc := Report)
  }

  /** The handler is R's `error`: if it does not return, the rest of the call is skipped. */
  function DoReport(s: State, l: Label): State
    requires l.MainThread?
  {
    if s.error && !l.back then Leave(s, false, l.free) else s.(pc := DropController)
  }

  function DoDropController(s: State, l: Label): State
    requires l.MainThread?
  {
    var s' := s.(connection := false, controller := None, bad := s.bad || Joinable(Ctl(s).exec));
    if s.phase == IoStart then s'.(pc := NewController) else Leave(s', true, l.free)
  }

  /** `shutDown`, and the end of `destroyConnection`. */
  function ShutDownStep(s: State, l: Label): State
    requires l.MainThread? && InShutDown(s.pc)
  {
    match s.pc
    case CloseSocket => DoCloseSocket(s)
    case DropSocket => DoDropSocket(s)
    case LookForExecutor => DoLookForExecutor(s)
    case Join => DoJoin(s, l)
    case ReadDone => DoReadDone(s)
    case DropExecutor => DoDropExecutor(s)
    case DropReader => DoDropReader(s)
    case DropWriter => DoDropWriter(s)
    case Report => DoReport(s, l)
    case DropController => DoDropController(s, l)
  }

  function DoNewController(s: State): State {
    SetCtl(s, EMPTY).(bad := s.bad || Joinable(Ctl(s).exec), pc := Connect)
  }

  function Connected(s: State): State {
    SetCtl(s, Ctl(s).(sock := true)).(link := Link(s.wanted, true, true), answered := false, fed := false)
  }

  function DoConnect(s: State, l: Label): State
    requires l.MainThread?
  {
    if l.ok then Leave(Connected(s), true, l.free)
    else Leave(s, l.back, l.free)
  }

  function DoCheckSocket(s: State, l: Label): State
    requires l.MainThread?
  {
    if Ctl(s).sock then s.(pc := NewExecutor) else Leave(s, l.back, l.free)
  }

  function DoNewExecutor(s: State): State {
    SetCtl(s, Ctl(s).(exec := Executor(false, false, None))).(bad := s.bad || Joinable(Ctl(s).exec), pc := Execute)
  }

  /** Starting the thread, or failing to prepare the statement before that. */
  function DoExecute(s: State, l: Label): State
    requires l.MainThread?
  {
    if l.ok then
      SetCtl(s, Ctl(s).(exec := Executor(true, false, None)))
        .(background := Querying, needsClose := l.free, bad := s.bad || s.background != NoThread, pc := NewChannel)
    else Leave(s, l.back, l.free)
  }

  function DoNewChannel(s: State): State {
    SetCtl(s, if s.writing then Ctl(s).(writer := true) else Ctl(s).(reader := true)).(pc := StartChannel)
  }

  function DoStartChannel(s: State, l: Label): State
    requires l.MainThread?
  {
    Leave(s.(connection := s.connection || l.ok, fed := false), l.ok || l.back, l.free)
  }

  /** `initConnection` after the old connection is gone, and `startReading` / `startWriting`. */
  function StartStep(s: State, l: Label): State
    requires l.MainThread? && InStart(s.pc)
  {
    match s.pc
    case NewController => DoNewController(s)
    case Connect => DoConnect(s, l)
    case CheckSocket => DoCheckSocket(s, l)
    case NewExecutor => DoNewExecutor(s)
    case Execute => DoExecute(s, l)
    case NewChannel => DoNewChannel(s)
    case StartChannel => DoStartChannel(s, l)
  }

  function MainStep(s: State, l: Label): State
    requires l.MainThread? && MainEnabled(s)
  {
    if s.pc == Entry then EnterCall(s, l) else if InStart(s.pc) then StartStep(s, l) else ShutDownStep(s, l)
  }

  // ---------------------------------------------------------------- the background thread

  /** The thread can move whatever its query is to return. A query may have to wait until the peer sees
      the connection closed. */
  predicate BgReady(s: State) {
    match s.background
    case NoThread => false
    case Querying => !s.needsClose || !s.link.wrOpen
    case Exited(_) => false
    case _ => true
  }

  /** A query may fail before that. */
  predicate BgEnabled(s: State, ok: bool) {
    BgReady(s) || (s.background == Querying && !ok)
  }

  /** `executeAsyncQuery`; it works through pointers to the executor and the controller, and it is bad
      if either is gone. `onOdbcError` is one step. */
  function BgStep(s: State, l: Label): State
    requires l.QueryThread? && BgEnabled(s, l.ok)
  {
    if !Ctl(s).exec.Executor? then s.(bad := true, background := NoThread)
    else
      match s.background
      case Querying => QueryReturns(s, l.ok)
      case Returned(ok) => SetDone(s, ok)
      case DoneSet(ok) => LeaveThread(s, ok)
  }

  function QueryReturns(s: State, ok: bool): State
    requires Ctl(s).exec.Executor?
  {
    SetCtl(s, Ctl(s).(exec := Ctl(s).exec.(result := Some(ok)))).(background := Returned(ok))
  }

  function SetDone(s: State, ok: bool): State
    requires Ctl(s).exec.Executor?
  {
    SetCtl(s, Ctl(s).(exec := Ctl(s).exec.(done := true))).(background := DoneSet(ok))
  }

  /** After a failed query the thread calls `onOdbcError`. */
  function LeaveThread(s: State, ok: bool): State {
    (if ok then s else ShutSocket(s)).(background := Exited(ok))
  }

  // ---------------------------------------------------------------- runs

  predicate Enabled(s: State, l: Label) {
    match l
    case MainThread(_, _, _) => MainEnabled(s)
    case QueryThread(ok) => BgEnabled(s, ok)
    case Peer => true
  }

  /** One scheduling decision; a thread that cannot move is passed over. */
  function Step(s: State, l: Label): State {
    if !Enabled(s, l) then s
    else
      match l
      case MainThread(_, _, _) => MainStep(s, l)
      case QueryThread(_) => BgStep(s, l)
      case Peer => s.(fed := true)
  }

  function After(s: State, schedule: seq<Label>): State
    decreases |schedule|
  {
    if schedule == [] then s else After(Step(s, schedule[0]), schedule[1..])
  }
}
