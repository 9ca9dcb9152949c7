/** Runs from the start that reach what the transfer protocol does not rule out. */
module TransferExamples {
  import opened Wrappers
  import opened Network
  import opened TransferProtocol
  import opened TransferSafety

  // ---------------------------------------------------------------- following a schedule

  lemma {:induction false} AfterBoth(s: State, a: seq<Label>, b: seq<Label>)
    ensures After(s, a + b) == After(After(s, a), b)
    decreases |a|
  {
    hide Step;
    if a == [] {
      assert a + b == b;
    } else {
      assert (a + b)[0] == a[0] && (a + b)[1..] == a[1..] + b;
      AfterBoth(Step(s, a[0]), a[1..], b);
    }
  }

  lemma AfterOne(s: State, l: Label)
    ensures After(s, [l]) == Step(s, l)
  {
    assert After(Step(s, l), []) == Step(s, l);
  }

  lemma AfterThree(s: State, a: Label, b: Label, c: Label)
    ensures After(s, [a, b, c]) == Step(Step(Step(s, a), b), c)
  {
    hide Step, After;
    assert [a, b, c] == [a] + [b] + [c];
    AfterBoth(s, [a] + [b], [c]);
    AfterBoth(s, [a], [b]);
    AfterOne(s, a);
    AfterOne(Step(s, a), b);
    AfterOne(Step(Step(s, a), b), c);
  }

  // ---------------------------------------------------------------- to the header of the peer

  const GO := MainThread(true, true, true)
  const FAILS := QueryThread(false)

  /** `exa.readData` or `exa.writeData` on a fresh session, up to the wait for the request header; every call
      succeeds. */
  function ToHeader(tls: bool, writing: bool): seq<Label> {
    [MainThread(tls, true, writing), GO, GO] + [GO, GO, GO] + [GO, GO, GO] + [GO, GO, GO]
  }

  function Wanted(tls: bool): Transport {
    if tls then Tls else Plain
  }

  function Began(tls: bool, writing: bool): State {
    INIT.(phase := IoStart, writing := writing, wanted := Wanted(tls))
  }

  function Cleared(tls: bool, writing: bool): State {
    Began(tls, writing).(controller := Some(EMPTY), pc := Connect)
  }

  function Connects(tls: bool, writing: bool): State {
    Cleared(tls, writing).(controller := Some(EMPTY.(sock := true)), link := Link(Wanted(tls), true, true),
                  phase := QueryStart, pc := NewExecutor)
  }

  /** Reader or writer waits for the header, and the query for the end of the connection. */
  function AtHeader(tls: bool, writing: bool): State {
    Connects(tls, writing).(controller := Some(Controller(true, Executor(true, false, None), !writing, writing)),
                   background := Querying, needsClose := true, pc := StartChannel)
  }

  lemma Begins(tls: bool, writing: bool)
    ensures After(INIT, [MainThread(tls, true, writing), GO, GO]) == Began(tls, writing)
  {
    AfterThree(INIT, MainThread(tls, true, writing), GO, GO);
    hide After, StartStep, BgStep;
  }

  lemma Clears(tls: bool, writing: bool)
    ensures After(Began(tls, writing), [GO, GO, GO]) == Cleared(tls, writing)
  {
    var s := Began(tls, writing);
    AfterThree(s, GO, GO, GO);
    hide After;
    assert Step(s, GO) == EnterDestroy(s);
    assert Step(EnterDestroy(s), GO) == s.(pc := NewController);
    assert Step(s.(pc := NewController), GO) == DoNewController(s);
    hide Step;
  }

  lemma EntersQuery(s: State)
    requires s.phase == QueryStart && s.pc == Entry && s.controller.Some? && Ctl(s).sock
    ensures Step(Step(s, GO), GO) == s.(pc := NewExecutor)
  {
    hide ShutDownStep;
    assert Step(s, GO) == s.(pc := CheckSocket);
    assert Step(s.(pc := CheckSocket), GO) == DoCheckSocket(s.(pc := CheckSocket), GO);
    hide Step;
  }

  lemma Connecting(tls: bool, writing: bool)
    ensures After(Cleared(tls, writing), [GO, GO, GO]) == Connects(tls, writing)
  {
    var s := Cleared(tls, writing);
    AfterThree(s, GO, GO, GO);
    assert Step(s, GO) == DoConnect(s, GO);
    hide After, Step;
    EntersQuery(DoConnect(s, GO));
  }

  lemma MakesExecutor(s: State)
    requires s.pc == NewExecutor && s.controller.Some? && !Joinable(Ctl(s).exec) && !s.bad
    ensures Step(s, GO) == SetCtl(s, Ctl(s).(exec := Executor(false, false, None))).(pc := Execute)
  {
    hide EnterCall, ShutDownStep;
  }

  lemma Launches(s: State)
    requires s.pc == Execute && s.controller.Some? && s.background == NoThread && !s.bad
    requires !Ctl(s).reader && !Ctl(s).writer
    ensures Step(Step(s, GO), GO)
         == SetCtl(s, Ctl(s).(exec := Executor(true, false, None), reader := !s.writing, writer := s.writing))
              .(background := Querying, needsClose := true, pc := StartChannel)
  {
    hide EnterCall, ShutDownStep;
    assert Step(s, GO) == DoExecute(s, GO);
    assert Step(DoExecute(s, GO), GO) == DoNewChannel(DoExecute(s, GO));
    hide Step;
  }

  lemma Executing(tls: bool, writing: bool)
    ensures After(Connects(tls, writing), [GO, GO, GO]) == AtHeader(tls, writing)
  {
    var s := Connects(tls, writing);
    AfterThree(s, GO, GO, GO);
    MakesExecutor(s);
    hide After, Step;
    Launches(SetCtl(s, Ctl(s).(exec := Executor(false, false, None))).(pc := Execute));
  }

  lemma ReachesHeader(tls: bool, writing: bool)
    ensures After(INIT, ToHeader(tls, writing)) == AtHeader(tls, writing)
  {
    Begins(tls, writing);
    Clears(tls, writing);
    Connecting(tls, writing);
    Executing(tls, writing);
    hide After, INIT, Began, Cleared, Connects, AtHeader;
    var a := [MainThread(tls, true, writing), GO, GO];
    var b := [GO, GO, GO];
    AfterBoth(INIT, a, b);
    AfterBoth(INIT, a + b, b);
    AfterBoth(INIT, a + b + b, b);
  }

  /** A silent peer: the run comes to a state in which neither thread can move, before the header and, if that
      comes, before the first portion of data. */
  lemma StuckExample(tls: bool, writing: bool)
    ensures var s := After(INIT, ToHeader(tls, writing)); WaitsForPeer(s) && !MainEnabled(s) && !BgReady(s)
    ensures var s := After(INIT, ToHeader(tls, writing) + [Peer, GO]);
      s.phase == Transfer && s.connection && WaitsForPeer(s) && !MainEnabled(s) && !BgReady(s)
  {
    ReachesHeader(tls, writing);
    AfterBoth(INIT, ToHeader(tls, writing), [Peer, GO]);
    AfterTwo(AtHeader(tls, writing), Peer, GO);
    hide After, ToHeader, EnterCall, ShutDownStep, BgStep;
    var s := AtHeader(tls, writing).(fed := true);
    assert Step(AtHeader(tls, writing), Peer) == s;
    assert Step(s, GO) == DoStartChannel(s, GO);
    hide Step;
  }

  // ---------------------------------------------------------------- a failed query that releases nobody

  /** On TLS: the header comes, then data up to the reader's answer; R reads once more, and the query
      fails. */
  const ANSWERED_THEN_FAILS: seq<Label> := [Peer, GO, Peer] + [GO, FAILS, FAILS] + [FAILS]

  function Feeding(): State {
    AtHeader(true, false).(phase := Transfer, pc := Entry, connection := true, fed := true)
  }

  function Failed(done: bool): Controller {
    Controller(true, Executor(true, done, Some(false)), true, false)
  }

  function HungUp(): State {
    Feeding().(controller := Some(Failed(true)), background := DoneSet(false),
               link := Link(Tls, true, false), answered := true, fed := false)
  }

  lemma Feeds()
    ensures After(AtHeader(true, false), [Peer, GO, Peer]) == Feeding()
  {
    AfterThree(AtHeader(true, false), Peer, GO, Peer);
    hide After, ShutDownStep, BgStep;
  }

  lemma HangsUp()
    ensures After(Feeding(), [GO, FAILS, FAILS]) == HungUp()
  {
    AfterThree(Feeding(), GO, FAILS, FAILS);
    hide After, StartStep, ShutDownStep;
  }

  lemma LeavesWaiting()
    ensures After(HungUp(), [FAILS]) == HungUp().(background := Exited(false))
  {
    AfterOne(HungUp(), FAILS);
    hide After, MainStep;
  }

  lemma ReachesLost()
    ensures After(INIT, ToHeader(true, false) + ANSWERED_THEN_FAILS) == HungUp().(background := Exited(false))
  {
    ReachesHeader(true, false);
    Feeds();
    HangsUp();
    LeavesWaiting();
    hide After, INIT, AtHeader, Feeding, HungUp, ToHeader;
    var a, b, c := [Peer, GO, Peer], [GO, FAILS, FAILS], [FAILS];
    AfterBoth(INIT, ToHeader(true, false), ANSWERED_THEN_FAILS);
    AfterBoth(AtHeader(true, false), a + b, c);
    AfterBoth(AtHeader(true, false), a, b);
  }

  /** The query thread of the failed query is over, and the main thread still waits; whatever follows, as
      long as the peer is silent it waits for good. */
  lemma LostExample(schedule: seq<Label>)
    requires Peer !in schedule
    ensures var s := After(INIT, ToHeader(true, false) + ANSWERED_THEN_FAILS);
      s.background == Exited(false) && WaitsForPeer(s) && !MainEnabled(After(s, schedule))
  {
    ReachesLost();
    InitInv();
    RunInv(INIT, ToHeader(true, false) + ANSWERED_THEN_FAILS);
    hide After, Inv;
    LostRun(HungUp().(background := Exited(false)), schedule);
  }

  // ---------------------------------------------------------------- true although the query failed

  /** The query fails while the reader waits for the header; `start` throws, the handler leaves the R
      function, and its exit hook shuts down. */
  const FAILS_AND_ENDS: seq<Label> :=
    [FAILS, FAILS, FAILS] + [MainThread(false, false, true)] + [GO, GO, GO] + [GO, GO, GO] + [GO, GO, GO]

  function QueryFailed(tls: bool): State {
    AtHeader(tls, false).(controller := Some(Failed(true)), background := Exited(false),
                   link := Link(Wanted(tls), false, false))
  }

  function Thrown(tls: bool): State {
    QueryFailed(tls).(phase := OnExit, pc := Entry)
  }

  function SocketGone(tls: bool): State {
    Thrown(tls).(controller := Some(Failed(true).(sock := false)), ret := true, pc := LookForExecutor)
  }

  function ThreadJoined(tls: bool): State {
    SocketGone(tls).(controller := Some(Controller(false, Executor(false, true, Some(false)), true, false)),
                     background := NoThread, found := Query(false), error := true, pc := DropExecutor)
  }

  lemma QueryReturnsSteps(s: State, ok: bool)
    requires s.background == Querying && Ctl(s).exec == Executor(true, false, None) && BgEnabled(s, ok)
    ensures Step(Step(s, QueryThread(ok)), QueryThread(ok))
         == SetCtl(s, Ctl(s).(exec := Executor(true, true, Some(ok)))).(background := DoneSet(ok))
  {
    hide MainStep;
    assert Step(s, QueryThread(ok)) == QueryReturns(s, ok);
    assert Step(QueryReturns(s, ok), QueryThread(ok)) == SetDone(QueryReturns(s, ok), ok);
    hide Step;
  }

  lemma QueryFails(tls: bool)
    ensures After(AtHeader(tls, false), [FAILS, FAILS, FAILS]) == QueryFailed(tls)
  {
    var s := AtHeader(tls, false);
    AfterThree(s, FAILS, FAILS, FAILS);
    hide After, MainStep;
    QueryReturnsSteps(s, false);
    var s' := SetCtl(s, Failed(true)).(background := DoneSet(false));
    assert Step(s', FAILS) == LeaveThread(s', false);
    hide Step;
  }

  lemma StartThrows(tls: bool)
    ensures After(QueryFailed(tls), [MainThread(false, false, true)]) == Thrown(tls)
  {
    AfterOne(QueryFailed(tls), MainThread(false, false, true));
    hide After, ShutDownStep, EnterCall, BgStep;
  }

  lemma CloseSteps(s: State)
    requires s.pc == CloseSocket && s.controller.Some? && Ctl(s).sock
    ensures Step(Step(s, GO), GO) == SetCtl(ShutSocket(s), Ctl(s).(sock := false)).(pc := LookForExecutor)
  {
    hide EnterCall, StartStep, ShutRdWr;
    var s' := s.(link := ShutRdWr(s.link), pc := DropSocket);
    assert Step(s, GO) == s';
    assert Step(s', GO) == DoDropSocket(s');
    hide Step;
  }

  lemma Closes(tls: bool)
    ensures After(Thrown(tls), [GO, GO, GO]) == SocketGone(tls)
  {
    var s := Thrown(tls);
    AfterThree(s, GO, GO, GO);
    assert Step(s, GO) == EnterDestroy(s);
    hide After, Step;
    CloseSteps(EnterDestroy(s));
  }

  lemma JoinSteps(s: State, ok: bool)
    requires s.pc == LookForExecutor && s.controller.Some? && s.background.Exited?
    requires Ctl(s).exec == Executor(true, true, Some(ok))
    ensures Step(Step(s, GO), GO) == Joined(s, Ctl(s).exec, !ok, Query(ok))
  {
    hide EnterCall, StartStep;
    assert Step(s, GO) == s.(pc := Join);
    assert Step(s.(pc := Join), GO) == DoJoin(s.(pc := Join), GO);
    hide Step;
  }

  lemma Joins(tls: bool)
    ensures After(SocketGone(tls), [GO, GO, GO]) == ThreadJoined(tls)
  {
    var s := SocketGone(tls);
    AfterThree(s, GO, GO, GO);
    JoinSteps(s, false);
    hide After, EnterCall, StartStep;
    var s' := Joined(s, Ctl(s).exec, true, Query(false));
    assert Step(s', GO) == DoReadDone(s');
    hide Step;
  }

  lemma DropsExecutor(s: State)
    requires s.pc == DropExecutor && s.controller.Some? && !Joinable(Ctl(s).exec) && !s.bad
    ensures Step(s, GO) == SetCtl(s, Ctl(s).(exec := NoExecutor)).(pc := DropReader)
  {
    hide EnterCall, StartStep;
  }

  lemma ReleaseSteps(s: State)
    requires s.pc == DropReader && s.controller.Some?
    ensures Step(Step(s, GO), GO) == SetCtl(s, Ctl(s).(reader := false, writer := false)).(pc := Report)
  {
    hide EnterCall, StartStep;
    assert Step(s, GO) == DoDropReader(s);
    assert Step(DoDropReader(s), GO) == DoDropWriter(DoDropReader(s));
    hide Step;
  }

  lemma Releases(tls: bool)
    ensures After(ThreadJoined(tls), [GO, GO, GO]) == ThreadJoined(tls).(controller := Some(EMPTY), pc := Report)
  {
    var s := ThreadJoined(tls);
    AfterThree(s, GO, GO, GO);
    DropsExecutor(s);
    ReleaseSteps(Step(s, GO));
    hide After, Step;
  }

  /** `shutDown` is about to return true for a transfer whose query failed. */
  lemma TrueThoughFailed(tls: bool)
    ensures var s := After(INIT, ToHeader(tls, false) + FAILS_AND_ENDS);
      s.pc == Report && s.found == Query(false) && s.ret && s.error
  {
    ReachesHeader(tls, false);
    QueryFails(tls);
    StartThrows(tls);
    Closes(tls);
    Joins(tls);
    Releases(tls);
    assert ThreadJoined(tls).found == Query(false) && ThreadJoined(tls).ret && ThreadJoined(tls).error;
    hide After, INIT, AtHeader, QueryFailed, Thrown, SocketGone, ThreadJoined, ToHeader;
    var a, b, c := [FAILS, FAILS, FAILS], [MainThread(false, false, true)], [GO, GO, GO];
    var s := AtHeader(tls, false);
    AfterBoth(INIT, ToHeader(tls, false), FAILS_AND_ENDS);
    AfterBoth(s, a + b + c + c, c);
    AfterBoth(s, a + b + c, c);
    AfterBoth(s, a + b, c);
    AfterBoth(s, a, b);
  }

  // ---------------------------------------------------------------- a transfer that succeeds

  /** The last portion of a transfer: the reader has met the end and answers. */
  function LastPortion(writing: bool): Label {
    MainThread(true, false, !writing)
  }

  const SUCCEEDS := QueryThread(true)

  /** Header and data come, the transfer ends, the shutdown closes the socket, the query returns and is
      joined; a write shuts down once more on exit. */
  function Succeeding(writing: bool): seq<Label> {
    ToReport(writing) + [GO, GO] + (if writing then [GO, GO] else [])
  }

  function ToReport(writing: bool): seq<Label> {
    [Peer, GO, Peer] + [LastPortion(writing)] + [GO, GO, GO] + [SUCCEEDS, SUCCEEDS, SUCCEEDS]
    + [GO, GO, GO] + [GO, GO, GO]
  }

  function Transferring(tls: bool, writing: bool): State {
    AtHeader(tls, writing).(phase := Transfer, pc := Entry, connection := true, fed := true)
  }

  function Transferred(tls: bool, writing: bool): State {
    Transferring(tls, writing).(phase := Finish, answered := !writing,
                                link := Link(Wanted(tls), tls || writing, writing))
  }

  function SocketShut(tls: bool, writing: bool): State {
    Transferred(tls, writing).(
      controller := Some(Controller(false, Executor(true, false, None), !writing, writing)),
      link := Link(Wanted(tls), tls && !writing, false), ret := true, pc := LookForExecutor)
  }

  function QueryDone(tls: bool, writing: bool): State {
    SocketShut(tls, writing).(
      controller := Some(Controller(false, Executor(true, true, Some(true)), !writing, writing)),
      background := Exited(true))
  }

  function QueryJoined(tls: bool, writing: bool): State {
    QueryDone(tls, writing).(
      controller := Some(Controller(false, Executor(false, true, Some(true)), !writing, writing)),
      background := NoThread, found := Query(true), pc := DropExecutor)
  }

  function Reporting(tls: bool, writing: bool): State {
    QueryJoined(tls, writing).(controller := Some(EMPTY), pc := Report)
  }

  function Over(tls: bool, writing: bool): State {
    Reporting(tls, writing).(controller := None, connection := false, pc := Entry,
                             phase := if writing then OnExit else Idle)
  }

  lemma Transfers(tls: bool, writing: bool)
    ensures After(AtHeader(tls, writing), [Peer, GO, Peer]) == Transferring(tls, writing)
  {
    AfterThree(AtHeader(tls, writing), Peer, GO, Peer);
    hide After, ShutDownStep, BgStep, EnterCall;
  }

  lemma TransferOver(tls: bool, writing: bool)
    ensures After(Transferring(tls, writing), [LastPortion(writing)]) == Transferred(tls, writing)
  {
    AfterOne(Transferring(tls, writing), LastPortion(writing));
    hide After, StartStep, ShutDownStep, BgStep;
  }

  lemma ShutsSocket(tls: bool, writing: bool)
    ensures After(Transferred(tls, writing), [GO, GO, GO]) == SocketShut(tls, writing)
  {
    var s := Transferred(tls, writing);
    AfterThree(s, GO, GO, GO);
    assert Step(s, GO) == EnterDestroy(s);
    hide After, Step;
    CloseSteps(EnterDestroy(s));
  }

  lemma QueryEnds(tls: bool, writing: bool)
    ensures After(SocketShut(tls, writing), [SUCCEEDS, SUCCEEDS, SUCCEEDS]) == QueryDone(tls, writing)
  {
    var s := SocketShut(tls, writing);
    AfterThree(s, SUCCEEDS, SUCCEEDS, SUCCEEDS);
    hide After, MainStep;
    QueryReturnsSteps(s, true);
    var s' := SetCtl(s, Ctl(s).(exec := Executor(true, true, Some(true)))).(background := DoneSet(true));
    assert Step(s', SUCCEEDS) == LeaveThread(s', true);
    hide Step;
  }

  lemma JoinsQuery(tls: bool, writing: bool)
    ensures After(QueryDone(tls, writing), [GO, GO, GO]) == QueryJoined(tls, writing)
  {
    var s := QueryDone(tls, writing);
    AfterThree(s, GO, GO, GO);
    JoinSteps(s, true);
    hide After, EnterCall, StartStep;
    var s' := Joined(s, Ctl(s).exec, false, Query(true));
    assert Step(s', GO) == DoReadDone(s');
    hide Step;
  }

  lemma ReleasesAll(tls: bool, writing: bool)
    ensures After(QueryJoined(tls, writing), [GO, GO, GO]) == Reporting(tls, writing)
  {
    var s := QueryJoined(tls, writing);
    AfterThree(s, GO, GO, GO);
    DropsExecutor(s);
    ReleaseSteps(Step(s, GO));
    hide After, Step;
  }

  lemma AfterTwo(s: State, a: Label, b: Label)
    ensures After(s, [a, b]) == Step(Step(s, a), b)
  {
    hide Step, After;
    assert [a, b] == [a] + [b];
    AfterBoth(s, [a], [b]);
    AfterOne(s, a);
    AfterOne(Step(s, a), b);
  }

  lemma Returns(tls: bool, writing: bool)
    ensures After(Reporting(tls, writing), [GO, GO]) == Over(tls, writing)
  {
    var s := Reporting(tls, writing);
    AfterTwo(s, GO, GO);
    hide After, EnterCall, StartStep;
    assert Step(s, GO) == s.(pc := DropController);
    assert Step(s.(pc := DropController), GO) == DoDropController(s.(pc := DropController), GO);
    hide Step;
  }

  lemma ExitHook(s: State)
    requires s.phase == OnExit && s.pc == Entry && s.controller.None? && !s.connection && !s.bad
    ensures After(s, [GO, GO]) == s.(phase := Idle, found := Nothing, ret := false, error := false)
  {
    AfterTwo(s, GO, GO);
    hide After, StartStep;
    assert Step(s, GO) == EnterDestroy(s);
    assert Step(EnterDestroy(s), GO) == DoDropController(EnterDestroy(s), GO);
    hide Step;
  }

  lemma ReachesReport(tls: bool, writing: bool)
    ensures After(AtHeader(tls, writing), ToReport(writing)) == Reporting(tls, writing)
  {
    Transfers(tls, writing);
    TransferOver(tls, writing);
    ShutsSocket(tls, writing);
    QueryEnds(tls, writing);
    JoinsQuery(tls, writing);
    ReleasesAll(tls, writing);
    hide After, INIT, AtHeader, Transferring, Transferred, SocketShut, QueryDone, QueryJoined, Reporting;
    var s := AtHeader(tls, writing);
    var a, b, c, d := [Peer, GO, Peer], [LastPortion(writing)], [GO, GO, GO], [SUCCEEDS, SUCCEEDS, SUCCEEDS];
    AfterBoth(s, a, b);
    AfterBoth(s, a + b, c);
    AfterBoth(s, a + b + c, d);
    AfterBoth(s, a + b + c + d, c);
    AfterBoth(s, a + b + c + d + c, c);
  }

  lemma ExitsOver(tls: bool)
    ensures After(Over(tls, true), [GO, GO]) == Over(tls, true).(phase := Idle, found := Nothing, ret := false)
  {
    ExitHook(Over(tls, true));
    hide After;
  }

  lemma ReachesEnd(tls: bool, writing: bool)
    ensures After(AtHeader(tls, writing), Succeeding(writing))
         == if writing then Over(tls, true).(phase := Idle, found := Nothing, ret := false) else Over(tls, false)
  {
    ReachesReport(tls, writing);
    Returns(tls, writing);
    ExitsOver(tls);
    hide After, INIT, AtHeader, Reporting, Over, ToReport;
    var s, all := AtHeader(tls, writing), ToReport(writing) + [GO, GO];
    AfterBoth(s, ToReport(writing), [GO, GO]);
    if writing {
      AfterBoth(s, all, [GO, GO]);
    } else {
      assert all + [] == all;
    }
  }

  /** A whole read or write in which everything succeeds, on either transport. It hands out a connection over
      the reader or writer it asked for; the shutdown finds a query that succeeded, returns true and reports
      no error; in the end everything is released, and the peer has seen the connection closed. */
  lemma SuccessExample(tls: bool, writing: bool)
    ensures var s := After(INIT, ToHeader(tls, writing) + [Peer, GO, Peer]);
      s.phase == Transfer && s.connection && ChannelUp(s) && s.link == Link(Wanted(tls), true, true)
    ensures var s := After(INIT, ToHeader(tls, writing) + ToReport(writing));
      s.pc == Report && s.found == Query(true) && s.ret && !s.error
    ensures var s := After(INIT, ToHeader(tls, writing) + Succeeding(writing));
      && s.phase == Idle && s.controller == None && !s.connection && s.background == NoThread
      && !s.link.wrOpen && !s.bad
  {
    ReachesHeader(tls, writing);
    Transfers(tls, writing);
    ReachesReport(tls, writing);
    ReachesEnd(tls, writing);
    AfterBoth(INIT, ToHeader(tls, writing), [Peer, GO, Peer]);
    AfterBoth(INIT, ToHeader(tls, writing), ToReport(writing));
    AfterBoth(INIT, ToHeader(tls, writing), Succeeding(writing));
    hide After, ToHeader, ToReport, Succeeding;
  }
}
