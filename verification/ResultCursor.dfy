/** The result object of a query: fetching in portions from the persisted result table, and clearing. */
module ResultCursor {

  /** `temp_result_tbl`: no table, a table in the database, or "CLEARED". */
  datatype Table = NoTable | Named | Cleared

  /** `rows` is the persisted result; the other fields are those of `EXAResult`. */
  datatype Cursor<T> = Cursor(
    rows: seq<T>, table: Table, withOutput: bool, complete: bool, fetched: nat, affected: nat)

  /** What a request gives: rows, an empty frame with a warning, or an R error from a fetch; success, with a
      drop of the table or without, or an R error from clearing. */
  datatype Answer<T> = Frame(rows: seq<T>) | Warned | Stopped | Done(sentDrop: bool) | Refused

  /** A new result of a SELECT; `affected` comes from a separate count query. */
  function Opened<T>(rows: seq<T>, affected: nat): Cursor<T> {
    Cursor(rows, Named, true, false, 0, affected)
  }

  /** `select ... order by rownum limit n offset k` on the fixed table. */
  function Portion<T>(rows: seq<T>, n: nat, k: nat): seq<T> {
    if k >= |rows| then [] else if k + n >= |rows| then rows[k..] else rows[k..k + n]
  }

  datatype Served<T> = Served(c: Cursor<T>, out: Answer<T>)

  /** A fetch of n rows (-1 for all), or clearing the result; and whether the database goes along. */
  datatype Request = Fetch(n: int, served: bool) | Clear(dropped: bool)

  function Advance<T>(c: Cursor<T>, n: int, served: bool): Served<T> {
    if c.table == Cleared then Served(c, Stopped)
    else if c.table == NoTable then Served(c, Warned)
    else if c.withOutput && !c.complete then
      var limit := if n == -1 then c.affected else n;
      if limit < 0 || !served then Served(c, Stopped)
      else
        var frame := Portion(c.rows, limit, c.fetched);
        var fetched := c.fetched + |frame|;
        Served(c.(fetched := fetched, complete := c.complete || fetched >= c.affected), Frame(frame))
    else Served(c, Warned)
  }

  /** There is a table in the database to drop. */
  predicate Droppable<T>(c: Cursor<T>) {
    c.table == Named && c.withOutput
  }

  function Discard<T>(c: Cursor<T>, dropped: bool): Served<T> {
    if Droppable(c) && !dropped then Served(c, Refused)
    else Served(c.(table := Cleared), Done(Droppable(c)))
  }

  function Serve<T>(c: Cursor<T>, q: Request): Served<T> {
    match q
    case Fetch(n, served) => Advance(c, n, served)
    case Clear(dropped) => Discard(c, dropped)
  }

  class Result<T> {
    const rows: seq<T>
    var table: Table
    var withOutput: bool
    var complete: bool
    var fetched: nat
    var affected: nat

    constructor (rows: seq<T>, affected: nat)
      ensures State() == Opened(rows, affected)
    {
      this.rows, this.affected := rows, affected;
      table, withOutput, complete, fetched := Named, true, false, 0;
    }

    ghost function State(): Cursor<T>
      reads this
    {
      Cursor(rows, table, withOutput, complete, fetched, affected)
    }

    /** `addRowsFetched` updates the field and returns it, and the caller stores it once more. */
    method AddRowsFetched(n: nat) returns (total: nat)
      modifies this`fetched
      ensures fetched == old(fetched) + n == total
    {
      fetched := fetched + n;
      total := fetched;
    }

    method Fetch(n: int, served: bool) returns (out: Answer<T>)
      modifies this`fetched, this`complete
      ensures Served(State(), out) == Advance(old(State()), n, served)
    {
      if table == Cleared { return Stopped; }
      if table == NoTable { return Warned; }
      if !(withOutput && !complete) { return Warned; }
      var limit := n;
      if limit == -1 { limit := affected; }
      if limit < 0 || !served { return Stopped; }
      var frame := Portion(rows, limit, fetched);
      fetched := AddRowsFetched(|frame|);
      if fetched >= affected { complete := true; }
      out := Frame(frame);
    }

    /** `.EXAClearResult`: drops the table, once; a refused drop is an R error and changes nothing. */
    method Clear(dropped: bool) returns (ok: bool, sentDrop: bool)
      modifies this`table
      ensures sentDrop == (old(table) == Named && withOutput)
      ensures ok == (sentDrop ==> dropped)
      ensures table == if ok then Cleared else old(table)
      ensures Served(State(), if ok then Done(sentDrop) else Refused) == Discard(old(State()), dropped)
    {
      if table == Cleared { return true, false; }
      if !withOutput || table == NoTable {
        table := Cleared;
        return true, false;
      }
      if !dropped { return false, true; }
      table := Cleared;
      return true, true;
    }
  }

  // ---------------------------------------------------------------- runs

  datatype CursorRun<T> = CursorRun(c: Cursor<T>, out: seq<T>, answers: seq<Answer<T>>)

  /** All requests in order; `out` collects the frames. */
  function Run<T>(c: Cursor<T>, requests: seq<Request>): (r: CursorRun<T>)
    ensures |r.answers| == |requests|
    decreases |requests|
  {
    if requests == [] then CursorRun(c, [], [])
    else
      var f := Serve(c, requests[0]);
      var r := Run(f.c, requests[1..]);
      CursorRun(r.c, Rows(f.out) + r.out, [f.out] + r.answers)
  }

  function Rows<T>(out: Answer<T>): seq<T> {
    if out.Frame? then out.rows else []
  }

  // ---------------------------------------------------------------- what is delivered

  /** A fetch that the database can answer: all rows, or a number of them. */
  predicate Answerable(q: Request) {
    q.Fetch? && q.served && q.n >= -1
  }

  /** The requests before the table is dropped. */
  function UntilDrop(requests: seq<Request>): seq<Request> {
    if requests == [] || requests[0] == Clear(true) then [] else [requests[0]] + UntilDrop(requests[1..])
  }

  /** From c to c' exactly the rows in between were delivered, and after completion none. */
  ghost predicate Moved<T>(c: Cursor<T>, c': Cursor<T>, out: seq<T>) {
    && c' == c.(fetched := c'.fetched, complete := c'.complete, table := c'.table)
    && c.fetched <= c'.fetched <= |c.rows| && out == c.rows[c.fetched..c'.fetched]
    && (c.complete ==> c'.complete && c'.fetched == c.fetched)
  }

  lemma MovedOn<T>(a: Cursor<T>, b: Cursor<T>, c: Cursor<T>, out: seq<T>, more: seq<T>)
    requires Moved(a, b, out) && Moved(b, c, more)
    ensures Moved(a, c, out + more)
  {
    assert a.rows[a.fetched..b.fetched] + a.rows[b.fetched..c.fetched] == a.rows[a.fetched..c.fetched];
  }

  lemma ServeMoves<T>(c: Cursor<T>, q: Request)
    requires c.fetched <= |c.rows|
    ensures Moved(c, Serve(c, q).c, Rows(Serve(c, q).out))
  {
  }

  lemma {:induction false} RunMoves<T>(c: Cursor<T>, requests: seq<Request>)
    requires c.fetched <= |c.rows|
    ensures Moved(c, Run(c, requests).c, Run(c, requests).out)
    decreases |requests|
  {
    if requests != [] {
      ServeMoves(c, requests[0]);
      var f := Serve(c, requests[0]);
      hide Serve;
      RunMoves(f.c, requests[1..]);
      var r := Run(f.c, requests[1..]);
      hide Moved;
      MovedOn(c, f.c, r.c, Rows(f.out), r.out);
    }
  }

  lemma ServeCompletes<T>(c: Cursor<T>, q: Request)
    requires Droppable(c) && (c.complete ==> c.fetched >= c.affected)
    ensures var c' := Serve(c, q).c;
      if Answerable(q) then c' == c.(fetched := c'.fetched, complete := c'.fetched >= c.affected)
      else c' == c.(table := if q == Clear(true) then Cleared else Named)
  {
  }

  lemma {:induction false} RunCompletes<T>(c: Cursor<T>, requests: seq<Request>, asked: bool)
    requires Droppable(c) && c.fetched <= |c.rows|
    requires c.complete <==> asked && c.fetched >= c.affected
    ensures var c' := Run(c, requests).c;
      c'.complete <==> (asked || exists q :: q in UntilDrop(requests) && Answerable(q)) && c'.fetched >= c.affected
    decreases |requests|
  {
    if requests != [] {
      var q, rest := requests[0], requests[1..];
      ServeMoves(c, q);
      ServeCompletes(c, q);
      var c1 := Serve(c, q).c;
      hide Serve;
      if q == Clear(true) {
        ClearedRun(c1, rest);
      } else {
        assert UntilDrop(requests) == [q] + UntilDrop(rest);
        RunCompletes(c1, rest, asked || Answerable(q));
      }
    }
  }

  /** Whatever the requests, failed fetches and clearing included, the frames are the first `fetched` rows in
      order: none is skipped and none repeated. The result is complete exactly if some fetch before the drop
      could be answered and the rows fetched have reached the rows affected; with a correct count, all rows
      were delivered then. */
  lemma CursorConserves<T>(rows: seq<T>, affected: nat, requests: seq<Request>)
    ensures var r := Run(Opened(rows, affected), requests);
      && r.c.fetched <= |rows| && r.out == rows[..r.c.fetched]
      && (r.c.complete <==>
            (exists q :: q in UntilDrop(requests) && Answerable(q)) && r.c.fetched >= affected)
      && (affected == |rows| && r.c.complete ==> r.out == rows)
  {
    RunCompletes(Opened(rows, affected), requests, false);
    RunMoves(Opened(rows, affected), requests);
    assert rows[..|rows|] == rows;
  }

  // ---------------------------------------------------------------- what each fetch answers

  /** A fetch from a result with a table. While it has output and is not complete, a fetch that the database
      answers delivers the next rows, up to the number asked for, and says whether that was the last; one that
      it cannot answer is an R error and changes nothing. Otherwise there is only a warning. */
  lemma FetchAnswers<T>(c: Cursor<T>, n: int, served: bool)
    requires c.table == Named && c.fetched <= |c.rows|
    ensures var r := Serve(c, Fetch(n, served));
      if c.complete || !c.withOutput then r == Served(c, Warned)
      else if !served || n < -1 then r == Served(c, Stopped)
      else
        var goal := c.fetched + (if n == -1 then c.affected else n);
        var end := if goal < |c.rows| then goal else |c.rows|;
        && r.out == Frame(c.rows[c.fetched..end])
        && r.c == c.(fetched := end, complete := end >= c.affected)
  {
  }

  /** Fetching everything, after any requests that leave the table in place: together they deliver all the
      rows, and the result is complete. */
  lemma FetchAllDelivers<T>(rows: seq<T>, requests: seq<Request>)
    requires Clear(true) !in requests
    ensures var r := Run(Opened(rows, |rows|), requests + [Fetch(-1, true)]); r.out == rows && r.c.complete
  {
    var c, q := Opened(rows, |rows|), Fetch(-1, true);
    var r := Run(c, requests);
    RunKeepsTable(c, requests);
    RunMoves(c, requests);
    RunCompletes(c, requests, false);
    RunOneMore(c, requests, q);
    FetchAnswers(r.c, -1, true);
    assert rows[..r.c.fetched] + rows[r.c.fetched..] == rows;
    hide Run, Serve;
  }

  lemma {:induction false} RunKeepsTable<T>(c: Cursor<T>, requests: seq<Request>)
    requires Droppable(c) && Clear(true) !in requests
    ensures Droppable(Run(c, requests).c)
    decreases |requests|
  {
    if requests != [] {
      RunKeepsTable(Serve(c, requests[0]).c, requests[1..]);
    }
  }

  lemma {:induction false} RunOneMore<T>(c: Cursor<T>, requests: seq<Request>, q: Request)
    ensures var r, f := Run(c, requests), Serve(Run(c, requests).c, q);
      Run(c, requests + [q]) == CursorRun(f.c, r.out + Rows(f.out), r.answers + [f.out])
    decreases |requests|
  {
    hide Serve, Rows;
    if requests == [] {
      assert requests + [q] == [q] && [q][1..] == [];
      assert Run(Serve(c, q).c, []) == CursorRun(Serve(c, q).c, [], []);
    } else {
      assert (requests + [q])[0] == requests[0] && (requests + [q])[1..] == requests[1..] + [q];
      RunOneMore(Serve(c, requests[0]).c, requests[1..], q);
    }
  }

  // ---------------------------------------------------------------- clearing is final

  /** What a cleared result answers. */
  function WhenCleared<T>(q: Request): Answer<T> {
    if q.Fetch? then Stopped else Done(false)
  }

  lemma {:induction false} ClearedRun<T>(c: Cursor<T>, requests: seq<Request>)
    requires c.table == Cleared
    ensures var r := Run(c, requests);
      && r.c == c && r.out == []
      && (forall i :: 0 <= i < |requests| ==> r.answers[i] == WhenCleared(requests[i]))
    decreases |requests|
  {
    if requests != [] {
      ClearedRun(c, requests[1..]);
      assert Serve(c, requests[0]) == Served(c, WhenCleared(requests[0]));
    }
  }

  /** For any result, with a table or without: after the first success of clearing, every fetch stops and
      every further clearing succeeds without a drop. */
  lemma {:induction false} ClearIsFinal<T>(c: Cursor<T>, requests: seq<Request>, i: nat, j: nat)
    requires i < j < |requests| && Run(c, requests).answers[i].Done?
    ensures Run(c, requests).answers[j] == WhenCleared(requests[j])
    decreases |requests|
  {
    var f := Serve(c, requests[0]);
    if i == 0 {
      ClearedRun(f.c, requests[1..]);
    } else {
      ClearIsFinal(f.c, requests[1..], i - 1, j - 1);
    }
  }

  /** How many drops of the table the database accepted. */
  function Drops<T>(answers: seq<Answer<T>>): nat {
    if answers == [] then 0 else (if answers[0] == Done(true) then 1 else 0) + Drops(answers[1..])
  }

  lemma {:induction false} NoDrops<T>(answers: seq<Answer<T>>)
    requires forall i :: 0 <= i < |answers| ==> answers[i] != Done(true)
    ensures Drops(answers) == 0
  {
    if answers != [] {
      NoDrops(answers[1..]);
    }
  }

  /** The table is dropped at most once, and exactly if there is one and the database accepts some drop. */
  lemma {:induction false} DropsOnce<T>(c: Cursor<T>, requests: seq<Request>)
    ensures Drops(Run(c, requests).answers) == if Droppable(c) && Clear(true) in requests then 1 else 0
    decreases |requests|
  {
    if requests != [] {
      var q, rest := requests[0], requests[1..];
      var f := Serve(c, q);
      var r := Run(f.c, rest);
      assert Run(c, requests).answers[1..] == r.answers;
      if f.out.Done? {
        ClearedRun(f.c, rest);
        NoDrops(r.answers);
      } else {
        DropsOnce(f.c, rest);
        ServeKeepsTable(c, q);
      }
      DropsHere(c, q, rest);
    }
  }

  lemma ServeKeepsTable<T>(c: Cursor<T>, q: Request)
    requires !Serve(c, q).out.Done?
    ensures Serve(c, q).c.table == c.table && Serve(c, q).c.withOutput == c.withOutput
  {
  }

  lemma DropsHere<T>(c: Cursor<T>, q: Request, rest: seq<Request>)
    ensures Serve(c, q).out == Done(true) <==> Droppable(c) && q == Clear(true)
    ensures Serve(c, q).out == Done(false) ==> !Droppable(c)
    ensures Clear(true) in [q] + rest <==> q == Clear(true) || Clear(true) in rest
  {
  }

  /** A result without a table delivers nothing: fetches warn, and stop once it is cleared. */
  lemma {:induction false} TablelessRun<T>(c: Cursor<T>, requests: seq<Request>, i: nat)
    requires c.table == NoTable && i < |requests| && requests[i].Fetch?
    ensures Run(c, requests).answers[i]
         == if exists k :: 0 <= k < i && requests[k].Clear? then Stopped else Warned
    decreases |requests|
  {
    var q, rest := requests[0], requests[1..];
    if i > 0 {
      if q.Clear? {
        ClearedRun(Serve(c, q).c, rest);
      } else {
        TablelessRun(c, rest, i - 1);
        assert forall k :: 1 <= k < i ==> requests[k] == rest[k - 1];
        assert forall k :: 0 <= k < i - 1 ==> rest[k] == requests[k + 1];
      }
    }
  }

  // ---------------------------------------------------------------- fetching in equal portions

  function Repeated(q: Request, k: nat): seq<Request> {
    if k == 0 then [] else [q] + Repeated(q, k - 1)
  }

  /** Fetching n >= 1 rows at a time: after k fetches the first k*n rows are delivered, and the result is
      complete exactly when that is all of them. */
  lemma {:induction false} FetchLoop<T>(rows: seq<T>, n: nat, k: nat)
    requires n >= 1
    ensures var r := Run(Opened(rows, |rows|), Repeated(Fetch(n, true), k));
      && r.out == rows[..if k * n < |rows| then k * n else |rows|]
      && (r.c.complete <==> k >= 1 && k * n >= |rows|)
  {
    FetchLoopFrom(Opened(rows, |rows|), n, k);
    CursorConserves(rows, |rows|, Repeated(Fetch(n, true), k));
    hide Run;
  }

  lemma {:induction false} FetchLoopFrom<T>(c: Cursor<T>, n: nat, k: nat)
    requires n >= 1 && c.table == Named && c.withOutput && c.affected == |c.rows|
    requires c.fetched <= |c.rows| && (c.complete ==> c.fetched == |c.rows|)
    ensures var r, goal := Run(c, Repeated(Fetch(n, true), k)), c.fetched + k * n;
      && r.c.fetched == (if goal < |c.rows| then goal else |c.rows|)
      && (r.c.complete <==> c.complete || (k >= 1 && goal >= |c.rows|))
    decreases k
  {
    if k > 0 {
      var q := Fetch(n, true);
      assert Repeated(q, k)[1..] == Repeated(q, k - 1);
      OneFetch(c, n);
      var f := Serve(c, q);
      hide Serve;
      assert Run(c, Repeated(q, k)).c == Run(f.c, Repeated(q, k - 1)).c;
      hide Run, Repeated;
      FetchLoopFrom(f.c, n, k - 1);
      OneMore(n, k - 1);
    }
  }

  lemma OneMore(n: nat, k: nat)
    ensures (k + 1) * n == n + k * n && k * n >= 0
  {
  }

  lemma OneFetch<T>(c: Cursor<T>, n: nat)
    requires c.table == Named && c.withOutput && c.affected == |c.rows|
    requires c.fetched <= |c.rows| && (c.complete ==> c.fetched == |c.rows|)
    ensures var f, goal := Serve(c, Fetch(n, true)), c.fetched + n;
      && f.c == c.(fetched := f.c.fetched, complete := f.c.complete)
      && f.c.fetched == (if goal < |c.rows| then goal else |c.rows|)
      && (f.c.complete <==> c.complete || goal >= |c.rows|)
  {
  }
}
